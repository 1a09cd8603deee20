/**
 `generator/statuses.py`: formatting-preserving status and contamination edits of human
 docs.  YAML parsing and the expansion of a regular-expression replacement template are
 parameters; a template without backslashes expands to itself.
 */
module StatusWrites {
  import opened Basics

  const STATUS := "status:"
  const CONTAMINATION := "contamination:"

  predicate HasPrefix(line: string, prefix: string) {
    |prefix| <= |line| && line[..|prefix|] == prefix
  }

  predicate Indented(line: string) {
    line != "" && (line[0] == ' ' || line[0] == '\t')
  }

  // ---------------------------------------------------------------------------
  // The edit on lines

  /** Index of the first line with the prefix, or the number of lines. */
  function First(lines: seq<string>, prefix: string): (i: nat)
    ensures i <= |lines|
  {
    if lines == [] || HasPrefix(lines[0], prefix) then 0 else 1 + First(lines[1..], prefix)
  }

  lemma {:induction false} FirstProps(lines: seq<string>, prefix: string)
    ensures forall k :: 0 <= k < First(lines, prefix) ==> !HasPrefix(lines[k], prefix)
    ensures First(lines, prefix) < |lines| ==> HasPrefix(lines[First(lines, prefix)], prefix)
  {
    if lines != [] && !HasPrefix(lines[0], prefix) {
      FirstProps(lines[1..], prefix);
      assert forall k :: 1 <= k < |lines| ==> lines[k] == lines[1..][k - 1];
    }
  }

  /** End of the run of indented lines that starts at `j`. */
  function RunEnd(lines: seq<string>, j: nat): (m: nat)
    requires j <= |lines|
    ensures j <= m <= |lines|
    decreases |lines| - j
  {
    if j < |lines| && Indented(lines[j]) then RunEnd(lines, j + 1) else j
  }

  lemma {:induction false} RunEndProps(lines: seq<string>, j: nat)
    requires j <= |lines|
    ensures forall k :: j <= k < RunEnd(lines, j) ==> Indented(lines[k])
    ensures RunEnd(lines, j) < |lines| ==> !Indented(lines[RunEnd(lines, j)])
    decreases |lines| - j
  {
    if j < |lines| && Indented(lines[j]) { RunEndProps(lines, j + 1); }
  }

  predicate HasStatus(lines: seq<string>) {
    First(lines, STATUS) < |lines|
  }

  predicate HasBlock(lines: seq<string>) {
    First(lines, CONTAMINATION) < |lines|
  }

  function SetStatus(lines: seq<string>, s: string): seq<string>
    requires HasStatus(lines)
  {
    lines[First(lines, STATUS) := s]
  }

  /** Replaces the first contamination block, or inserts the line right after the status line. */
  function SetContamination(lines: seq<string>, c: string): seq<string> {
    var j := First(lines, CONTAMINATION);
    if j < |lines| then
      lines[..j] + [c] + lines[RunEnd(lines, j + 1)..]
    else
      var i := First(lines, STATUS);
      if i < |lines| then lines[..i + 1] + [c] + lines[i + 1..] else lines
  }

  lemma {:induction false} FirstIs(lines: seq<string>, prefix: string, i: nat)
    requires i < |lines| && HasPrefix(lines[i], prefix) && forall k :: 0 <= k < i ==> !HasPrefix(lines[k], prefix)
    ensures First(lines, prefix) == i
  {
    if i > 0 { FirstIs(lines[1..], prefix, i - 1); }
  }

  lemma {:induction false} NoneIs(lines: seq<string>, prefix: string)
    requires forall k :: 0 <= k < |lines| ==> !HasPrefix(lines[k], prefix)
    ensures First(lines, prefix) == |lines|
  {
    if lines != [] { NoneIs(lines[1..], prefix); }
  }

  lemma {:induction false} RunEndIs(lines: seq<string>, j: nat, m: nat)
    requires j <= m <= |lines| && (forall k :: j <= k < m ==> Indented(lines[k])) && (m < |lines| ==> !Indented(lines[m]))
    ensures RunEnd(lines, j) == m
    decreases m - j
  {
    if j < m { RunEndIs(lines, j + 1, m); }
  }

  /** The first match in two parts is in the first part if there is one. */
  lemma {:induction false} FirstConcat(a: seq<string>, b: seq<string>, prefix: string)
    ensures First(a + b, prefix) == if First(a, prefix) < |a| then First(a, prefix) else |a| + First(b, prefix)
  {
    if a == [] {
      assert a + b == b;
    } else {
      FirstConcat(a[1..], b, prefix);
      assert (a + b)[1..] == a[1..] + b;
    }
  }

  predicate StatusLine(s: string) {
    HasPrefix(s, STATUS)
  }

  predicate ContaminationLine(c: string) {
    HasPrefix(c, CONTAMINATION)
  }

  lemma KindsOfLines(line: string)
    ensures StatusLine(line) ==> !ContaminationLine(line) && !Indented(line)
    ensures ContaminationLine(line) ==> !StatusLine(line) && !Indented(line)
  {
    if StatusLine(line) { assert line[..7][0] == line[0] == STATUS[0] == 's'; }
    if ContaminationLine(line) { assert line[..14][0] == line[0] == CONTAMINATION[0] == 'c'; }
    if StatusLine(line) && |line| >= 14 { assert line[..14][0] == line[0]; }
    if ContaminationLine(line) { assert line[..7][0] == line[0]; }
  }

  function NewLines(lines: seq<string>, s: string, c: Option<string>): seq<string>
    requires HasStatus(lines) && StatusLine(s)
  {
    SetStatusKeeps(lines, s);
    var l := SetStatus(lines, s);
    if c.None? then l else SetContamination(l, c.value)
  }

  /** Replacing the status line moves neither the status line nor the contamination block. */
  lemma SetStatusKeeps(lines: seq<string>, s: string)
    requires HasStatus(lines) && StatusLine(s)
    ensures var l := SetStatus(lines, s);
            && |l| == |lines| && First(l, STATUS) == First(lines, STATUS) && First(l, CONTAMINATION) == First(lines, CONTAMINATION)
            && (HasBlock(lines) ==> RunEnd(l, First(l, CONTAMINATION) + 1) == RunEnd(lines, First(l, CONTAMINATION) + 1))
  {
    var i, j := First(lines, STATUS), First(lines, CONTAMINATION);
    var l := SetStatus(lines, s);
    FirstProps(lines, STATUS);
    FirstProps(lines, CONTAMINATION);
    KindsOfLines(s);
    KindsOfLines(lines[i]);
    FirstIs(l, STATUS, i);
    if j < |lines| {
      FirstIs(l, CONTAMINATION, j);
      RunEndProps(lines, j + 1);
      RunEndIs(l, j + 1, RunEnd(lines, j + 1));
    } else {
      NoneIs(l, CONTAMINATION);
    }
  }

  // ---------------------------------------------------------------------------
  // Applying twice

  /** The one shape where the edit is not stable: an inserted line would swallow the indented lines after the status. */
  predicate Swallows(lines: seq<string>, c: Option<string>)
    requires HasStatus(lines)
  {
    var i := First(lines, STATUS);
    c.Some? && !HasBlock(lines) && i + 1 < |lines| && Indented(lines[i + 1])
  }

  lemma FirstAfterLine(x: string, b: seq<string>, prefix: string)
    requires !HasPrefix(x, prefix)
    ensures First([x] + b, prefix) == 1 + First(b, prefix)
  {
    NoneIs([x], prefix);
    FirstConcat([x], b, prefix);
  }

  lemma IndentedHasNoKey(mid: seq<string>)
    requires forall k :: 0 <= k < |mid| ==> Indented(mid[k])
    ensures First(mid, STATUS) == |mid|
  {
    hide First, Indented;
    forall k | 0 <= k < |mid| ensures !HasPrefix(mid[k], STATUS) { KindsOfLines(mid[k]); }
    NoneIs(mid, STATUS);
  }

  /** Lines split around their first contamination block. */
  lemma SplitAtBlock(l: seq<string>) returns (a: seq<string>, x: string, mid: seq<string>, b: seq<string>)
    requires HasBlock(l)
    ensures l == a + [x] + mid + b && |a| == First(l, CONTAMINATION) && |a| + 1 + |mid| == RunEnd(l, |a| + 1)
    ensures First(a, CONTAMINATION) == |a| && ContaminationLine(x)
    ensures (forall k :: 0 <= k < |mid| ==> Indented(mid[k])) && (b != [] ==> !Indented(b[0]))
  {
    var j := First(l, CONTAMINATION);
    var m := RunEnd(l, j + 1);
    FirstProps(l, CONTAMINATION);
    RunEndProps(l, j + 1);
    a, x, mid, b := l[..j], l[j], l[j + 1..m], l[m..];
    hide First, RunEnd, Indented, HasPrefix;
    NoneIs(a, CONTAMINATION);
    CutInFour(l, j, m);
    assert forall k :: 0 <= k < |mid| ==> mid[k] == l[j + 1 + k];
    assert b != [] ==> b[0] == l[m];
  }

  lemma CutInFour(l: seq<string>, j: nat, m: nat)
    requires j < m <= |l|
    ensures l == l[..j] + [l[j]] + l[j + 1..m] + l[m..]
  {
  }

  /** The first status line is the same line with or without the block between. */
  lemma StatusAroundBlock(a: seq<string>, x: string, mid: seq<string>, b: seq<string>)
    requires ContaminationLine(x) && forall k :: 0 <= k < |mid| ==> Indented(mid[k])
    ensures First(a + [x] + mid + b, STATUS) ==
              if First(a, STATUS) < |a| then First(a, STATUS) else |a| + 1 + |mid| + First(b, STATUS)
  {
    KindsOfLines(x);
    hide First;
    IndentedHasNoKey(mid);
    FirstConcat(mid, b, STATUS);
    FirstAfterLine(x, mid + b, STATUS);
    FirstConcat(a, [x] + (mid + b), STATUS);
    assert a + [x] + mid + b == a + ([x] + (mid + b));
  }

  lemma SetByParts(a: seq<string>, x: string, mid: seq<string>, b: seq<string>, l: seq<string>, c: string)
    requires l == a + [x] + mid + b && HasStatus(l) && |a| == First(l, CONTAMINATION) && |a| + 1 + |mid| == RunEnd(l, |a| + 1)
    ensures SetContamination(l, c) == a + [c] + b
  {
    hide First, RunEnd;
    assert l[..|a|] == a;
    assert l[|a| + 1 + |mid|..] == b;
  }

  lemma IndexParts(a: seq<string>, x: string, mid: seq<string>, b: seq<string>, k: nat)
    ensures var l := a + [x] + mid + b;
            && (k < |a| ==> l[k] == a[k])
            && (k < |b| ==> l[|a| + 1 + |mid| + k] == b[k])
  {
  }

  /** The first status line of lines in parts, block or no block between. */
  lemma StatusOfParts(a: seq<string>, x: string, mid: seq<string>, b: seq<string>)
    requires ContaminationLine(x) && forall k :: 0 <= k < |mid| ==> Indented(mid[k])
    ensures var l := a + [x] + mid + b;
            && (HasStatus(l) <==> HasStatus(a) || HasStatus(b))
            && (HasStatus(l) ==> l[First(l, STATUS)] == if HasStatus(a) then a[First(a, STATUS)] else b[First(b, STATUS)])
  {
    hide First, Indented, ContaminationLine, HasPrefix;
    StatusAroundBlock(a, x, mid, b);
    IndexParts(a, x, mid, b, First(a, STATUS));
    IndexParts(a, x, mid, b, First(b, STATUS));
  }

  lemma BlockReplaced(l: seq<string>, c: string)
    requires HasStatus(l) && HasBlock(l) && ContaminationLine(c)
    ensures var r := SetContamination(l, c);
            && HasStatus(r) && r[First(r, STATUS)] == l[First(l, STATUS)]
            && SetContamination(r, c) == r
  {
    hide First, RunEnd, SetContamination, Indented, ContaminationLine;
    var a, x, mid, b := SplitAtBlock(l);
    SetByParts(a, x, mid, b, l, c);
    StatusOfParts(a, x, mid, b);
    StatusOfParts(a, c, [], b);
    assert a + [c] + [] + b == a + [c] + b;
    hide HasBlock;
    ReplacedIsStable(a, c, b);
  }

  lemma ReplacedIsStable(a: seq<string>, c: string, b: seq<string>)
    requires First(a, CONTAMINATION) == |a| && ContaminationLine(c) && (b != [] ==> !Indented(b[0]))
    requires HasStatus(a + [c] + b)
    ensures SetContamination(a + [c] + b, c) == a + [c] + b
  {
    var r := a + [c] + b;
    FirstConcat(a, [c] + b, CONTAMINATION);
    assert r == a + ([c] + b);
    assert First([c] + b, CONTAMINATION) == 0;
    RunEndIs(r, |a| + 1, |a| + 1);
    assert r[..|a|] == a && r[|a| + 1..] == b;
  }

  /** The lines around the place where a contamination line is inserted. */
  lemma AroundInsertion(l: seq<string>, c: string) returns (a: seq<string>, b: seq<string>)
    requires HasStatus(l) && !HasBlock(l)
    ensures var i := First(l, STATUS);
            && l == a + b && |a| == i + 1 && First(a, STATUS) == i && First(a, CONTAMINATION) == |a|
            && SetContamination(l, c) == a + [c] + b && (b != [] ==> b[0] == l[i + 1])
  {
    var i := First(l, STATUS);
    a, b := l[..i + 1], l[i + 1..];
    FirstProps(l, STATUS);
    FirstProps(l, CONTAMINATION);
    hide First, HasPrefix;
    assert forall k :: 0 <= k <= i ==> a[k] == l[k];
    FirstIs(a, STATUS, i);
    NoneIs(a, CONTAMINATION);
  }

  lemma StatusStays(a: seq<string>, b: seq<string>)
    requires First(a, STATUS) < |a|
    ensures First(a + b, STATUS) == First(a, STATUS) && (a + b)[First(a, STATUS)] == a[First(a, STATUS)]
  {
    hide First;
    FirstConcat(a, b, STATUS);
  }

  lemma LineInserted(l: seq<string>, c: string)
    requires HasStatus(l) && !HasBlock(l) && ContaminationLine(c)
    ensures var r := SetContamination(l, c);
            && HasStatus(r) && First(r, STATUS) == First(l, STATUS) && r[First(r, STATUS)] == l[First(l, STATUS)]
            && (SetContamination(r, c) == r <==> !Swallows(l, Some(c)))
  {
    hide First, SetContamination, Indented, ContaminationLine;
    var a, b := AroundInsertion(l, c);
    var r := a + [c] + b;
    assert r == a + ([c] + b);
    StatusStays(a, [c] + b);
    StatusStays(a, b);
    if Swallows(l, Some(c)) {
      SwallowShrinks(a, c, b);
    } else {
      ReplacedIsStable(a, c, b);
    }
  }

  lemma SwallowShrinks(a: seq<string>, c: string, b: seq<string>)
    requires First(a, CONTAMINATION) == |a| && ContaminationLine(c) && b != [] && Indented(b[0])
    requires HasStatus(a + [c] + b)
    ensures |SetContamination(a + [c] + b, c)| < |a + [c] + b|
  {
    var r := a + [c] + b;
    FirstConcat(a, [c] + b, CONTAMINATION);
    assert r == a + ([c] + b);
    assert First([c] + b, CONTAMINATION) == 0;
    assert Indented(r[|a| + 1]);
  }

  lemma SetStatusIdle(l: seq<string>, s: string)
    requires HasStatus(l) && StatusLine(s) && l[First(l, STATUS)] == s
    ensures SetStatus(l, s) == l
  {
  }

  /** The edit applied twice equals the edit applied once, exactly when nothing is swallowed. */
  lemma TwiceIsOnce(lines: seq<string>, s: string, c: Option<string>)
    requires HasStatus(lines) && StatusLine(s) && (c.Some? ==> ContaminationLine(c.value))
    ensures HasStatus(NewLines(lines, s, c))
    ensures NewLines(NewLines(lines, s, c), s, c) == NewLines(lines, s, c) <==> !Swallows(lines, c)
  {
    SetStatusKeeps(lines, s);
    var l := SetStatus(lines, s);
    if c.None? {
      SetStatusIdle(l, s);
    } else {
      if HasBlock(l) { BlockReplaced(l, c.value); } else { LineInserted(l, c.value); }
      var r := SetContamination(l, c.value);
      SetStatusIdle(r, s);
      assert Swallows(lines, c) <==> Swallows(l, c) by {
        var i := First(lines, STATUS);
        assert i + 1 < |lines| ==> l[i + 1] == lines[i + 1];
      }
    }
  }

  // ---------------------------------------------------------------------------
  // Everything else is kept

  function DropLine(lines: seq<string>, prefix: string): seq<string> {
    var i := First(lines, prefix);
    if i < |lines| then lines[..i] + lines[i + 1..] else lines
  }

  /** Without the first contamination line and the indented lines under it. */
  function DropBlock(lines: seq<string>): seq<string> {
    var j := First(lines, CONTAMINATION);
    if j < |lines| then lines[..j] + lines[RunEnd(lines, j + 1)..] else lines
  }

  /** Equal but for the first status line, which is at the same place. */
  predicate StatusOnly(p: seq<string>, q: seq<string>) {
    && |p| == |q| && First(p, STATUS) == First(q, STATUS)
    && forall k :: 0 <= k < |p| && k != First(p, STATUS) ==> p[k] == q[k]
  }

  lemma StatusOnlyDrops(p: seq<string>, q: seq<string>)
    requires StatusOnly(p, q)
    ensures DropLine(p, STATUS) == DropLine(q, STATUS)
  {
  }

  lemma DropBlockParts(l: seq<string>) returns (a: seq<string>, x: string, mid: seq<string>, b: seq<string>)
    requires HasBlock(l)
    ensures l == a + [x] + mid + b && DropBlock(l) == a + b && |a| == First(l, CONTAMINATION) && |a| + 1 + |mid| == RunEnd(l, |a| + 1)
    ensures First(l, STATUS) == if First(a, STATUS) < |a| then First(a, STATUS) else |a| + 1 + |mid| + First(b, STATUS)
    ensures First(a + b, STATUS) == if First(a, STATUS) < |a| then First(a, STATUS) else |a| + First(b, STATUS)
    ensures First(a, CONTAMINATION) == |a|
  {
    hide First, RunEnd, Indented, ContaminationLine, HasPrefix;
    a, x, mid, b := SplitAtBlock(l);
    StatusAroundBlock(a, x, mid, b);
    FirstConcat(a, b, STATUS);
    assert l[..|a|] == a && l[|a| + 1 + |mid|..] == b;
  }

  lemma JoinedStatusOnly(a: seq<string>, b: seq<string>, a': seq<string>, b': seq<string>, i: nat)
    requires |a| == |a'| && |b| == |b'| && First(a + b, STATUS) == First(a' + b', STATUS) == i
    requires forall k :: 0 <= k < |a| && k != i ==> a[k] == a'[k]
    requires forall k :: 0 <= k < |b| && |a| + k != i ==> b[k] == b'[k]
    ensures StatusOnly(a' + b', a + b)
  {
    hide First;
    var p, q := a' + b', a + b;
    forall k | 0 <= k < |p| && k != i ensures p[k] == q[k] {
      if k >= |a| { assert p[k] == b'[k - |a|] && q[k] == b[k - |a|]; }
    }
  }

  /** Dropping the block commutes with replacing the status line. */
  lemma DropBlockStatus(lines: seq<string>, s: string)
    requires HasStatus(lines) && StatusLine(s)
    ensures StatusOnly(DropBlock(SetStatus(lines, s)), DropBlock(lines))
  {
    if HasBlock(lines) { BlockDropped(lines, s); } else { NoBlockToDrop(lines, s); }
  }

  lemma BlockDropped(lines: seq<string>, s: string)
    requires HasStatus(lines) && StatusLine(s) && HasBlock(lines)
    ensures StatusOnly(DropBlock(SetStatus(lines, s)), DropBlock(lines))
  {
    SetStatusKeeps(lines, s);
    hide First, RunEnd, HasPrefix, StatusLine, DropBlock, StatusOnly;
    var l, i := SetStatus(lines, s), First(lines, STATUS);
    assert l == lines[i := s];
    hide SetStatus;
    var a, x, mid, b := DropBlockParts(lines);
    var a', x', mid', b' := DropBlockParts(l);
    assert |a| == |a'| && |mid| == |mid'| && |b| == |b'|;
    IndexesOfParts(a, x, mid, b, a', x', mid', b', i, s);
    FirstSame(|a|, |mid|, First(a, STATUS), First(b, STATUS), First(a', STATUS), First(b', STATUS), i);
    JoinedStatusOnly(a, b, a', b', First(a + b, STATUS));
  }

  /** The two descriptions of where the status line is agree. */
  lemma FirstSame(n: nat, m: nat, fa: nat, fb: nat, fa': nat, fb': nat, i: nat)
    requires fa <= n && fa' <= n
    requires i == (if fa < n then fa else n + 1 + m + fb) && i == (if fa' < n then fa' else n + 1 + m + fb')
    ensures (fa < n <==> fa' < n) && (fa < n ==> fa == fa') && (fa >= n ==> fb == fb')
  {
  }

  lemma NoBlockToDrop(lines: seq<string>, s: string)
    requires HasStatus(lines) && StatusLine(s) && !HasBlock(lines)
    ensures StatusOnly(DropBlock(SetStatus(lines, s)), DropBlock(lines))
  {
    SetStatusKeeps(lines, s);
    hide First, RunEnd;
  }

  lemma IndexesOfParts(a: seq<string>, x: string, mid: seq<string>, b: seq<string>,
                       a': seq<string>, x': string, mid': seq<string>, b': seq<string>, i: nat, s: string)
    requires |a| == |a'| && |mid| == |mid'| && |b| == |b'| && i < |a| + 1 + |mid| + |b|
    requires a' + [x'] + mid' + b' == (a + [x] + mid + b)[i := s]
    ensures forall k :: 0 <= k < |a| && k != i ==> a[k] == a'[k]
    ensures forall k :: 0 <= k < |b| && |a| + 1 + |mid| + k != i ==> b[k] == b'[k]
  {
    forall k | 0 <= k < |a| && k != i ensures a[k] == a'[k] {
      assert (a' + [x'] + mid' + b')[k] == (a + [x] + mid + b)[k];
    }
    forall k | 0 <= k < |b| && |a| + 1 + |mid| + k != i ensures b[k] == b'[k] {
      assert (a' + [x'] + mid' + b')[|a| + 1 + |mid| + k] == (a + [x] + mid + b)[|a| + 1 + |mid| + k];
    }
  }

  lemma FirstOfLine(c: string, b: seq<string>)
    requires ContaminationLine(c)
    ensures First([c] + b, CONTAMINATION) == 0
  {
  }

  lemma DropFrom(a: seq<string>, c: string, b: seq<string>)
    requires First(a + [c] + b, CONTAMINATION) == |a|
    ensures (a + [c] + b)[|a|] == c && DropLine(a + [c] + b, CONTAMINATION) == a + b
  {
    hide First;
    var r := a + [c] + b;
    assert r[..|a|] == a && r[|a| + 1..] == b;
  }

  lemma LineAmong(a: seq<string>, c: string, b: seq<string>)
    requires First(a, CONTAMINATION) == |a| && ContaminationLine(c)
    ensures var r := a + [c] + b;
            First(r, CONTAMINATION) == |a| && r[|a|] == c && DropLine(r, CONTAMINATION) == a + b
  {
    hide First, DropLine, ContaminationLine;
    FirstOfLine(c, b);
    FirstConcat(a, [c] + b, CONTAMINATION);
    assert a + [c] + b == a + ([c] + b);
    DropFrom(a, c, b);
  }

  /** The lines around the place of the contamination line. */
  lemma AroundWritten(l: seq<string>, c: string) returns (a: seq<string>, b: seq<string>)
    requires HasStatus(l)
    ensures First(a, CONTAMINATION) == |a| && SetContamination(l, c) == a + [c] + b && DropBlock(l) == a + b
  {
    if HasBlock(l) {
      hide First, RunEnd;
      var x, mid;
      a, x, mid, b := DropBlockParts(l);
      SetByParts(a, x, mid, b, l, c);
    } else {
      var i := First(l, STATUS);
      a, b := l[..i + 1], l[i + 1..];
      FirstProps(l, CONTAMINATION);
      NoneIs(a, CONTAMINATION);
      hide First;
      assert l == a + b;
    }
  }

  /** The written contamination line is the first one, and without it the lines are those outside the block. */
  lemma BlockWritten(l: seq<string>, c: string)
    requires HasStatus(l) && ContaminationLine(c)
    ensures var r := SetContamination(l, c);
            && HasBlock(r) && r[First(r, CONTAMINATION)] == c && DropLine(r, CONTAMINATION) == DropBlock(l)
  {
    hide First, RunEnd, DropBlock, DropLine, SetContamination;
    var a, b := AroundWritten(l, c);
    LineAmong(a, c, b);
  }

  /**
   The edit replaces the first status line, replaces or adds one contamination line when
   asked, and keeps all the other lines, in order.
   */
  lemma OthersKept(lines: seq<string>, s: string, c: Option<string>)
    requires HasStatus(lines) && StatusLine(s) && (c.Some? ==> ContaminationLine(c.value))
    ensures var r := NewLines(lines, s, c);
            && HasStatus(r) && r[First(r, STATUS)] == s
            && (c.None? ==> DropLine(r, STATUS) == DropLine(lines, STATUS))
            && (c.Some? ==> HasBlock(r) && r[First(r, CONTAMINATION)] == c.value
                            && DropLine(DropLine(r, CONTAMINATION), STATUS) == DropLine(DropBlock(lines), STATUS))
  {
    SetStatusKeeps(lines, s);
    hide First, RunEnd, HasPrefix, StatusLine, ContaminationLine;
    var l := SetStatus(lines, s);
    if c.None? {
      StatusOnlyDrops(l, lines);
    } else {
      DropBlockStatus(lines, s);
      StatusOnlyDrops(DropBlock(l), DropBlock(lines));
      BlockWritten(l, c.value);
      if HasBlock(l) { BlockReplaced(l, c.value); } else { LineInserted(l, c.value); }
    }
  }

  /**
   A second edit with its own contamination line leaves the first one's result alone if and only
   if it writes the same line and nothing is swallowed.
   */
  lemma SecondEditIff(lines: seq<string>, s: string, c: string, c': string)
    requires HasStatus(lines) && StatusLine(s) && ContaminationLine(c) && ContaminationLine(c')
    ensures HasStatus(NewLines(lines, s, Some(c)))
    ensures NewLines(NewLines(lines, s, Some(c)), s, Some(c')) == NewLines(lines, s, Some(c)) <==> c == c' && !Swallows(lines, Some(c))
  {
    hide NewLines, First, StatusLine, ContaminationLine, Swallows, DropLine, DropBlock;
    TwiceIsOnce(lines, s, Some(c));
    OthersKept(lines, s, Some(c));
    OthersKept(NewLines(lines, s, Some(c)), s, Some(c'));
  }

  lemma BlockThere(lines: seq<string>, s: string, c: string)
    requires HasStatus(lines) && StatusLine(s) && ContaminationLine(c)
    ensures HasBlock(NewLines(lines, s, Some(c)))
  {
    OthersKept(lines, s, Some(c));
  }
}
