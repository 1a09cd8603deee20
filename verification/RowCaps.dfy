/** The executors' row caps: streaming off a cursor, and paging an API. */
module RowCaps {
  import opened Basics

  const FETCH_BATCH := 500

  /** What `fetchmany(n)` or a page request returns when the source stands at `at`. */
  function Chunk<T>(source: seq<T>, at: nat, n: nat): (r: seq<T>)
    ensures |r| <= n
  {
    if at >= |source| then [] else source[at..Min(at + n, |source|)]
  }

  /** Appends a batch up to the cap; a row that does not fit sets the flag. */
  method AppendCapped<T>(rows0: seq<T>, batch: seq<T>, cap: nat) returns (rows: seq<T>, truncated: bool)
    requires |rows0| <= cap
    ensures truncated <==> |rows0| + |batch| > cap
    ensures rows == rows0 + batch[..Min(|batch|, cap - |rows0|)]
  {
    rows, truncated := rows0, false;
    for i := 0 to |batch|
      invariant |rows0| + i <= cap && rows == rows0 + batch[..i]
    {
      if |rows| >= cap {
        truncated := true;
        break;
      }
      rows := rows + [batch[i]];
    }
    if !truncated { assert batch[..|batch|] == batch; }
  }

  /** Postgres streaming: the first rows up to the cap, at most one row more fetched, an exact flag. */
  method Stream<T>(source: seq<T>, cap: nat) returns (rows: seq<T>, truncated: bool, fetched: nat)
    ensures rows == source[..Min(|source|, cap)]
    ensures truncated <==> |source| > cap
    ensures fetched <= cap + 1
  {
    rows, truncated, fetched := [], false, 0;
    while |rows| <= cap
      invariant !truncated && fetched == |rows| <= Min(|source|, cap) && rows == source[..|rows|]
      decreases |source| - fetched
    {
      var batch := Chunk(source, fetched, Min(FETCH_BATCH, cap + 1 - |rows|));
      if batch == [] { break; }
      ghost var before := |rows|;
      rows, truncated := AppendCapped(rows, batch, cap);
      fetched := fetched + |batch|;
      assert rows == source[..|rows|];
      if truncated { break; }
    }
  }

  /**
   GA4 and GSC paging with page maximum `pageMax`.  `total` is the row count a GA4 page
   reports (GSC reports none); a page holds as many rows as asked for while the source lasts.
   */
  method Page<T>(source: seq<T>, cap: nat, pageMax: nat, total: seq<nat>) returns (rows: seq<T>, truncated: bool)
    requires pageMax > 0
    requires total == [] || total == [|source|]
    ensures rows == source[..Min(|source|, cap)]
    ensures truncated <==> |source| > cap && cap % pageMax != 0
  {
    rows, truncated := [], false;
    var offset := 0;
    while |rows| < cap
      invariant !truncated && offset == |rows| <= Min(|source|, cap) && rows == source[..|rows|]
      invariant offset % pageMax == 0 || offset == cap
      invariant offset == cap ==> cap % pageMax == 0
      decreases cap - |rows|
    {
      var pageSize := Min(cap - |rows| + 1, pageMax);
      var page := Chunk(source, offset, pageSize);
      rows, truncated := AppendCapped(rows, page, cap);
      assert rows == source[..|rows|];
      if truncated {
        NotMultiple(offset, cap, pageMax);
        break;
      }
      if |page| < pageSize {
        break;
      }
      if cap - offset + 1 > pageMax {
        NextMultiple(offset, pageMax);
      }
      offset := offset + |page|;
      if total != [] && offset >= total[0] { break; }
    }
  }

  /** Quotient and remainder are unique. */
  lemma Remainder(x: nat, n: nat, k: nat, r: nat)
    requires n > 0 && x == n * k + r && r < n
    ensures x % n == r
  {
    var q, s := x / n, x % n;
    assert x == n * q + s;
    if q > k { LargerQuotient(n, q, k); }
    if q < k { LargerQuotient(n, k, q); }
  }

  lemma {:induction false} LargerQuotient(n: nat, a: nat, b: nat)
    requires a > b
    ensures n * a >= n * b + n
  {
    assert n * a == n * (a - 1) + n;
    if a > b + 1 { LargerQuotient(n, a - 1, b); }
  }

  lemma NextMultiple(offset: nat, pageMax: nat)
    requires pageMax > 0 && offset % pageMax == 0
    ensures (offset + pageMax) % pageMax == 0
  {
    var k := offset / pageMax;
    assert offset == pageMax * k;
    assert pageMax * (k + 1) == offset + pageMax;
    Remainder(offset + pageMax, pageMax, k + 1, 0);
  }

  lemma NotMultiple(offset: nat, cap: nat, pageMax: nat)
    requires pageMax > 0 && offset % pageMax == 0 && offset < cap && cap - offset + 1 <= pageMax
    ensures cap % pageMax != 0
  {
    assert offset == pageMax * (offset / pageMax);
    Remainder(cap, pageMax, offset / pageMax, cap - offset);
  }
}
