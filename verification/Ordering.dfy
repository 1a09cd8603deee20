/**
 Python's ordering primitives: code-point order on strings, and stable sorting by
 a total preorder.  `sorted(xs, key=k)` is `Sort` with the preorder that compares keys.
 */
module Ordering {

  predicate StrLe(a: string, b: string)
  {
    a == [] || (b != [] && (a[0] < b[0] || (a[0] == b[0] && StrLe(a[1..], b[1..]))))
  }

  lemma {:induction false} StrTotal(a: string, b: string)
    ensures StrLe(a, b) || StrLe(b, a)
  {
    if a != [] && b != [] && a[0] == b[0] {
      StrTotal(a[1..], b[1..]);
    }
  }

  lemma {:induction false} StrTransitive(a: string, b: string, c: string)
    requires StrLe(a, b) && StrLe(b, c)
    ensures StrLe(a, c)
  {
    if a != [] && a[0] == b[0] && b[0] == c[0] {
      StrTransitive(a[1..], b[1..], c[1..]);
    }
  }

  lemma {:induction false} StrAntisymmetric(a: string, b: string)
    requires StrLe(a, b) && StrLe(b, a)
    ensures a == b
  {
    if a != [] {
      StrAntisymmetric(a[1..], b[1..]);
      assert a == [a[0]] + a[1..] == [b[0]] + b[1..] == b;
    }
  }

  /** Lexicographic order on sequences of strings, as Python compares lists. */
  predicate SeqLe(a: seq<string>, b: seq<string>)
  {
    a == [] || (b != [] && (if a[0] == b[0] then SeqLe(a[1..], b[1..]) else StrLe(a[0], b[0])))
  }

  lemma {:induction false} SeqTotal(a: seq<string>, b: seq<string>)
    ensures SeqLe(a, b) || SeqLe(b, a)
  {
    if a != [] && b != [] {
      if a[0] == b[0] { SeqTotal(a[1..], b[1..]); } else { StrTotal(a[0], b[0]); }
    }
  }

  lemma {:induction false} SeqTransitive(a: seq<string>, b: seq<string>, c: seq<string>)
    requires SeqLe(a, b) && SeqLe(b, c)
    ensures SeqLe(a, c)
  {
    if a != [] {
      if a[0] == b[0] && b[0] == c[0] {
        SeqTransitive(a[1..], b[1..], c[1..]);
      } else if a[0] != b[0] && b[0] != c[0] {
        StrTransitive(a[0], b[0], c[0]);
        if a[0] == c[0] { StrAntisymmetric(a[0], b[0]); }
      }
    }
  }

  lemma {:induction false} SeqAntisymmetric(a: seq<string>, b: seq<string>)
    requires SeqLe(a, b) && SeqLe(b, a)
    ensures a == b
  {
    if a != [] {
      if a[0] != b[0] { StrAntisymmetric(a[0], b[0]); }
      SeqAntisymmetric(a[1..], b[1..]);
      assert a == [a[0]] + a[1..] == [b[0]] + b[1..] == b;
    }
  }

  ghost predicate TotalPreorder<T(!new)>(le: (T, T) -> bool)
  {
    && (forall x, y :: le(x, y) || le(y, x))
    && (forall x, y, z :: le(x, y) && le(y, z) ==> le(x, z))
  }

  lemma StrLeOrders()
    ensures TotalPreorder(StrLe)
    ensures forall x, y :: StrLe(x, y) && StrLe(y, x) ==> x == y
  {
    forall x, y ensures StrLe(x, y) || StrLe(y, x) { StrTotal(x, y); }
    forall x, y, z | StrLe(x, y) && StrLe(y, z) ensures StrLe(x, z) { StrTransitive(x, y, z); }
    forall x, y | StrLe(x, y) && StrLe(y, x) ensures x == y { StrAntisymmetric(x, y); }
  }

  lemma SeqLeOrders()
    ensures TotalPreorder(SeqLe)
    ensures forall x, y :: SeqLe(x, y) && SeqLe(y, x) ==> x == y
  {
    forall x, y ensures SeqLe(x, y) || SeqLe(y, x) { SeqTotal(x, y); }
    forall x, y, z | SeqLe(x, y) && SeqLe(y, z) ensures SeqLe(x, z) { SeqTransitive(x, y, z); }
    forall x, y | SeqLe(x, y) && SeqLe(y, x) ensures x == y { SeqAntisymmetric(x, y); }
  }

  ghost predicate Sorted<T>(le: (T, T) -> bool, s: seq<T>)
  {
    forall i, j :: 0 <= i < j < |s| ==> le(s[i], s[j])
  }

  /** No two different members of `s` compare equal. */
  ghost predicate TieFree<T>(le: (T, T) -> bool, s: seq<T>)
  {
    forall x, y :: x in s && y in s && le(x, y) && le(y, x) ==> x == y
  }

  ghost predicate Permutation<T>(a: seq<T>, b: seq<T>)
  {
    multiset(a) == multiset(b)
  }

  /** Puts `x` before the first element it does not exceed. */
  function Insert<T>(le: (T, T) -> bool, x: T, s: seq<T>): (r: seq<T>)
    ensures |r| == |s| + 1
  {
    if s == [] || le(x, s[0]) then [x] + s else [s[0]] + Insert(le, x, s[1..])
  }

  /** Stable insertion sort: equal elements keep their input order. */
  function Sort<T>(le: (T, T) -> bool, s: seq<T>): (r: seq<T>)
    ensures |r| == |s|
  {
    if s == [] then [] else Insert(le, s[0], Sort(le, s[1..]))
  }

  lemma {:induction false} InsertPermutes<T>(le: (T, T) -> bool, x: T, s: seq<T>)
    ensures multiset(Insert(le, x, s)) == multiset{x} + multiset(s)
  {
    if s != [] && !le(x, s[0]) {
      InsertPermutes(le, x, s[1..]);
      assert s == [s[0]] + s[1..];
    }
  }

  lemma {:induction false} SortPermutes<T>(le: (T, T) -> bool, s: seq<T>)
    ensures Permutation(Sort(le, s), s)
  {
    if s != [] {
      SortPermutes(le, s[1..]);
      InsertPermutes(le, s[0], Sort(le, s[1..]));
      assert s == [s[0]] + s[1..];
    }
  }

  lemma PermutationMembers<T>(a: seq<T>, b: seq<T>)
    requires Permutation(a, b)
    ensures forall x :: x in a <==> x in b
    ensures |a| == |b|
  {
    forall x ensures x in a <==> x in b {
      assert x in a <==> x in multiset(a);
      assert x in b <==> x in multiset(b);
    }
    assert |multiset(a)| == |a| && |multiset(b)| == |b|;
  }

  lemma SortMembers<T>(le: (T, T) -> bool, s: seq<T>)
    ensures forall x :: x in Sort(le, s) <==> x in s
  {
    SortPermutes(le, s);
    PermutationMembers(Sort(le, s), s);
  }

  lemma {:induction false} InsertSorted<T(!new)>(le: (T, T) -> bool, x: T, s: seq<T>)
    requires TotalPreorder(le) && Sorted(le, s)
    ensures Sorted(le, Insert(le, x, s))
  {
    if s == [] {
    } else if le(x, s[0]) {
      var r := [x] + s;
      forall i, j | 0 <= i < j < |r| ensures le(r[i], r[j]) {
        if i == 0 && j > 1 { assert le(s[0], s[j - 1]); }
      }
    } else {
      InsertSorted(le, x, s[1..]);
      var t := Insert(le, x, s[1..]);
      InsertPermutes(le, x, s[1..]);
      var r := [s[0]] + t;
      forall i, j | 0 <= i < j < |r| ensures le(r[i], r[j]) {
        if i == 0 {
          assert t[j - 1] in multiset(t);
          assert t[j - 1] == x || t[j - 1] in s[1..];
        }
      }
    }
  }

  lemma {:induction false} SortSorts<T(!new)>(le: (T, T) -> bool, s: seq<T>)
    requires TotalPreorder(le)
    ensures Sorted(le, Sort(le, s))
  {
    if s != [] {
      SortSorts(le, s[1..]);
      InsertSorted(le, s[0], Sort(le, s[1..]));
    }
  }

  lemma SmallestAgrees<T(!new)>(le: (T, T) -> bool, a: seq<T>, b: seq<T>)
    requires TotalPreorder(le) && Sorted(le, a) && Sorted(le, b)
    requires TieFree(le, a) && Permutation(a, b) && a != [] && b != []
    ensures a[0] == b[0]
  {
    PermutationMembers(a, b);
    assert a[0] in a && b[0] in b;
    var i :| 0 <= i < |b| && b[i] == a[0];
    var j :| 0 <= j < |a| && a[j] == b[0];
    assert le(a[0], a[j]) && le(b[0], b[i]);
  }

  lemma TailsPermute<T>(a: seq<T>, b: seq<T>)
    requires Permutation(a, b) && a != [] && b != [] && a[0] == b[0]
    ensures Permutation(a[1..], b[1..])
  {
    assert a == [a[0]] + a[1..] && b == [b[0]] + b[1..];
    assert multiset(a[1..]) == multiset(a) - multiset{a[0]};
    assert multiset(b[1..]) == multiset(b) - multiset{b[0]};
  }

  /** A sorted arrangement of tie-free elements is unique. */
  lemma {:induction false} SortedUnique<T(!new)>(le: (T, T) -> bool, a: seq<T>, b: seq<T>)
    requires TotalPreorder(le) && Sorted(le, a) && Sorted(le, b)
    requires TieFree(le, a) && Permutation(a, b)
    ensures a == b
  {
    PermutationMembers(a, b);
    if a != [] {
      SmallestAgrees(le, a, b);
      TailsPermute(a, b);
      assert forall x :: x in a[1..] ==> x in a;
      SortedUnique(le, a[1..], b[1..]);
      assert a == [a[0]] + a[1..] == [b[0]] + b[1..] == b;
    }
  }

  lemma SortPermutationInvariant<T(!new)>(le: (T, T) -> bool, a: seq<T>, b: seq<T>)
    requires TotalPreorder(le) && TieFree(le, a) && Permutation(a, b)
    ensures Sort(le, a) == Sort(le, b)
  {
    SortSorts(le, a); SortSorts(le, b);
    SortPermutes(le, a); SortPermutes(le, b);
    SortMembers(le, a);
    SortedUnique(le, Sort(le, a), Sort(le, b));
  }

  lemma {:induction false} SortOfSorted<T(!new)>(le: (T, T) -> bool, s: seq<T>)
    requires TotalPreorder(le) && Sorted(le, s)
    ensures Sort(le, s) == s
  {
    if s != [] {
      SortOfSorted(le, s[1..]);
      assert s == [s[0]] + s[1..];
      if |s| > 1 { assert le(s[0], s[1]); }
    }
  }

  lemma SortIdempotent<T(!new)>(le: (T, T) -> bool, s: seq<T>)
    requires TotalPreorder(le)
    ensures Sort(le, Sort(le, s)) == Sort(le, s)
  {
    SortSorts(le, s);
    SortOfSorted(le, Sort(le, s));
  }

  /** Inserting two tied elements leaves the last inserted one in front. */
  lemma {:induction false} TiedInsertionsDiffer<T(!new)>(le: (T, T) -> bool, x: T, y: T, s: seq<T>)
    requires TotalPreorder(le) && le(x, y) && le(y, x) && x != y
    ensures Insert(le, x, Insert(le, y, s)) != Insert(le, y, Insert(le, x, s))
  {
    if s == [] || le(x, s[0]) {
      assert Insert(le, x, Insert(le, y, s))[0] == x;
      assert Insert(le, y, Insert(le, x, s))[0] == y;
    } else {
      TiedInsertionsDiffer(le, x, y, s[1..]);
      var a, b := Insert(le, x, Insert(le, y, s)), Insert(le, y, Insert(le, x, s));
      assert a[1..] == Insert(le, x, Insert(le, y, s[1..]));
      assert b[1..] == Insert(le, y, Insert(le, x, s[1..]));
    }
  }

  lemma TakeOut<T>(s: seq<T>, x: T) returns (rest: seq<T>)
    requires x in s
    ensures multiset(s) == multiset([x] + rest)
  {
    var i :| 0 <= i < |s| && s[i] == x;
    rest := s[..i] + s[i + 1..];
    assert s == s[..i] + [x] + s[i + 1..];
  }

  lemma BringToFront<T>(s: seq<T>, x: T, y: T) returns (rest: seq<T>)
    requires x in s && y in s && x != y
    ensures Permutation([x, y] + rest, s) && Permutation([y, x] + rest, s)
  {
    var t := TakeOut(s, x);
    PermutationMembers(s, [x] + t);
    rest := TakeOut(t, y);
    assert [x, y] + rest == [x] + ([y] + rest);
    assert multiset([x, y] + rest) == multiset{x} + multiset([y] + rest) == multiset{x} + multiset(t) == multiset([x] + t);
    assert multiset([y, x] + rest) == multiset([x, y] + rest);
  }

  lemma SortOfPair<T>(le: (T, T) -> bool, x: T, y: T, rest: seq<T>)
    ensures Sort(le, [x, y] + rest) == Insert(le, x, Insert(le, y, Sort(le, rest)))
  {
    assert ([x, y] + rest)[1..] == [y] + rest;
    assert ([y] + rest)[1..] == rest;
  }

  lemma TiesRemembered<T(!new)>(le: (T, T) -> bool, s: seq<T>, x: T, y: T) returns (p: seq<T>)
    requires TotalPreorder(le) && x in s && y in s && le(x, y) && le(y, x) && x != y
    ensures Permutation(p, s) && Sort(le, p) != Sort(le, s)
  {
    var rest := BringToFront(s, x, y);
    SortOfPair(le, x, y, rest);
    SortOfPair(le, y, x, rest);
    TiedInsertionsDiffer(le, x, y, Sort(le, rest));
    p := if Sort(le, [x, y] + rest) != Sort(le, s) then [x, y] + rest else [y, x] + rest;
  }

  /** Sorting forgets the input order exactly when no two different elements tie. */
  lemma OrderForgottenIffTieFree<T(!new)>(le: (T, T) -> bool, s: seq<T>)
    requires TotalPreorder(le)
    ensures (forall p | Permutation(p, s) :: Sort(le, p) == Sort(le, s)) <==> TieFree(le, s)
  {
    if TieFree(le, s) {
      forall p | Permutation(p, s) ensures Sort(le, p) == Sort(le, s) {
        SortPermutationInvariant(le, s, p);
      }
    } else {
      var x, y :| x in s && y in s && le(x, y) && le(y, x) && x != y;
      var p := TiesRemembered(le, s, x, y);
    }
  }

  ghost predicate Distinct<T>(s: seq<T>)
  {
    forall i, j :: 0 <= i < j < |s| ==> s[i] != s[j]
  }

  lemma {:induction false} InsertDistinct<T>(le: (T, T) -> bool, x: T, s: seq<T>)
    requires x !in s && Distinct(s)
    ensures Distinct(Insert(le, x, s))
  {
    if s != [] && !le(x, s[0]) {
      InsertDistinct(le, x, s[1..]);
      InsertPermutes(le, x, s[1..]);
      var t := Insert(le, x, s[1..]);
      forall k | 0 <= k < |t| ensures t[k] != s[0] {
        assert t[k] in multiset(t);
        assert t[k] == x || t[k] in s[1..];
      }
    }
  }

  lemma InsertMembers<T>(le: (T, T) -> bool, x: T, s: seq<T>)
    ensures forall y :: y in Insert(le, x, s) <==> y == x || y in s
  {
    InsertPermutes(le, x, s);
    var r := Insert(le, x, s);
    forall y ensures y in r <==> y == x || y in s {
      assert y in r <==> y in multiset(r);
      assert y in s <==> y in multiset(s);
    }
  }

  /** The members of a set, each once, in order. */
  method SortedSet<T(==, !new)>(le: (T, T) -> bool, members: set<T>) returns (r: seq<T>)
    requires TotalPreorder(le)
    ensures Sorted(le, r) && Distinct(r) && forall x :: x in r <==> x in members
  {
    var todo := members;
    r := [];
    while todo != {}
      invariant todo <= members && Sorted(le, r) && Distinct(r)
      invariant forall x :: x in r <==> x in members && x !in todo
    {
      var x :| x in todo;
      InsertSorted(le, x, r);
      InsertMembers(le, x, r);
      InsertDistinct(le, x, r);
      r := Insert(le, x, r);
      todo := todo - {x};
    }
  }

  lemma {:induction false} DistinctCounts<T>(a: seq<T>, members: set<T>)
    requires Distinct(a) && forall x :: x in a <==> x in members
    ensures multiset(a) == multiset(members)
  {
    if a == [] {
      assert members == {};
    } else {
      var n := |a| - 1;
      var front, last := a[..n], a[n];
      assert a == front + [last];
      DistinctCounts(front, members - {last});
      assert members == (members - {last}) + {last};
    }
  }

  /** A set has one sorted listing, if its members do not tie. */
  lemma SortedSetUnique<T(!new)>(le: (T, T) -> bool, a: seq<T>, b: seq<T>)
    requires TotalPreorder(le) && Sorted(le, a) && Sorted(le, b) && Distinct(a) && Distinct(b) && TieFree(le, a)
    requires forall x :: x in a <==> x in b
    ensures a == b
  {
    var members := set x | x in a;
    DistinctCounts(a, members);
    DistinctCounts(b, members);
    SortedUnique(le, a, b);
  }

  lemma {:induction false} SortKeepsDistinct<T>(le: (T, T) -> bool, s: seq<T>)
    requires Distinct(s)
    ensures Distinct(Sort(le, s))
  {
    if s != [] {
      SortKeepsDistinct(le, s[1..]);
      SortMembers(le, s[1..]);
      assert s[0] !in s[1..];
      InsertDistinct(le, s[0], Sort(le, s[1..]));
    }
  }

  /** Lists of the same members, each once, sort alike if their members do not tie. */
  lemma SameMembersSortAlike<T(!new)>(le: (T, T) -> bool, a: seq<T>, b: seq<T>)
    requires TotalPreorder(le) && Distinct(a) && Distinct(b) && TieFree(le, a) && forall x :: x in a <==> x in b
    ensures Sort(le, a) == Sort(le, b)
  {
    SortSorts(le, a);
    SortSorts(le, b);
    SortKeepsDistinct(le, a);
    SortKeepsDistinct(le, b);
    SortMembers(le, a);
    SortMembers(le, b);
    hide Sort;
    SortedSetUnique(le, Sort(le, a), Sort(le, b));
  }
}
