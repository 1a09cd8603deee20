/**
 From two snapshots to the scan's breaking set: no object that lost something its readers
 relied on is passed off as additive.
 */
module DriftVerdict {
  import opened Basics
  import opened Snapshots
  import opened Canonical
  import opened Ordering
  import opened SubDiffs
  import opened SnapshotDiffs
  import opened SeverityFinal
  import opened Verdicts
  import opened ScanInput

  lemma Indexed(o: Snapshot, n: Snapshot, was: Index, now: Index, d: SnapshotDiff, a: Object, b: Object)
    requires DiffBetween(o, n, was, now, d)
    requires a in o.objects && b in n.objects && a.id == b.id && Known(a) && a.schemaHash != b.schemaHash
    ensures a.id in was && was[a.id] == a && a.id in now && now[a.id] == b && Classify(a, b) == Structural
    ensures a.id in Ids(d.structural) && Distinct(Ids(d.structural)) && a.id !in Ids(d.removed) && EachDiff(was, now, d.structural)
  {
    hide IsObjectDiff, Registry, OrderedObject, IdentityLe, Ids;
    assert Known(b);
    assert a.id in InClass(was, now, Structural) && a.id !in InClass(was, now, Removed);
  }

  /** The diff of an object in both snapshots whose hashes differ, and its final form. */
  lemma StructuralEntry(o: Snapshot, n: Snapshot, d: SnapshotDiff, og: Option<L.Graph>, ng: Option<L.Graph>, f: SnapshotDiff, a: Object, b: Object)
    returns (k: nat)
    requires DiffOf(o, n, d) && FinalDiff(d, og, ng, f)
    requires a in o.objects && b in n.objects && a.id == b.id && Known(a) && a.schemaHash != b.schemaHash
    ensures k < |d.structural| == |f.structural| && Classify(a, b) == Structural
    ensures IsObjectDiff(a, b, d.structural[k]) && IsFinal(o.system, og, ng, d.structural[k], f.structural[k])
    ensures d.structural[k].id == f.structural[k].id == a.id
    ensures forall j :: 0 <= j < |f.structural| && f.structural[j].id == a.id ==> j == k
    ensures a.id !in Ids(f.removed)
  {
    hide IsObjectDiff, IsFinal, Known, Classify, DiffBetween;
    var was, now :| DiffBetween(o, n, was, now, d);
    Indexed(o, n, was, now, d, a, b);
    k :| 0 <= k < |d.structural| && Ids(d.structural)[k] == a.id;
    assert d.structural[k] in d.structural;
    forall j | 0 <= j < |f.structural| ensures d.structural[j].id == f.structural[j].id { FinalIdentity(o.system, og, ng, d.structural[j], f.structural[j]); }
    forall j | 0 <= j < |f.structural| && f.structural[j].id == a.id ensures j == k {
      assert Ids(d.structural)[j] == Ids(d.structural)[k];
    }
  }

  lemma FinalIdentity(system: string, og: Option<L.Graph>, ng: Option<L.Graph>, d: ObjectDiff, f: ObjectDiff)
    requires IsFinal(system, og, ng, d, f)
    ensures f.id == d.id
  {
  }

  /**
   No unsafe additive verdict: an object present in both snapshots with differing hashes and
   absent from the breaking set keeps every column, every key and every hash-included statistic,
   a definition aside whose column set and arriving edges are the same; and it is listed as additive.
   */
  lemma NoUnsafeAdditive(o: Snapshot, n: Snapshot, d: SnapshotDiff, og: Option<L.Graph>, ng: Option<L.Graph>, f: SnapshotDiff,
                         diffs: seq<SnapshotDiff>, v: Verdict, a: Object, b: Object, name: string)
    requires DiffOf(o, n, d) && FinalDiff(d, og, ng, f) && f in diffs && IsVerdict(diffs, v)
    requires a in o.objects && b in n.objects && a.id == b.id && Known(a) && a.schemaHash != b.schemaHash
    requires WellKeyed(a)
    requires NameOf(name, o.system, a.id) && name !in v.breaking
    ensures Preserves(a, b, SameArrivals(o.system, a.id, og, ng)) && name in v.additive
  {
    FqnIsName(name, o.system, a.id);
    hide NameOf, IsObjectDiff, IsFinal, Registry, Classify, WellKeyed, Preserves, SameArrivals, Visible, Fqn, IsVerdict;
    var k := StructuralEntry(o, n, d, og, ng, f, a, b);
    assert f.structural[k] in f.structural;
    VerdictMembers(diffs, v, f, f.structural[k]);
    VerdictSafe(o.system, og, ng, a, b, d.structural[k], f.structural[k]);
  }

  lemma VerdictMembers(diffs: seq<SnapshotDiff>, v: Verdict, f: SnapshotDiff, x: ObjectDiff)
    requires IsVerdict(diffs, v) && f in diffs && x in f.structural
    ensures x.severity == Some(Breaking) ==> Fqn(f.system, x.id) in v.breaking
    ensures x.severity != Some(Breaking) ==> Fqn(f.system, x.id) in v.additive
  {
    hide Fqn, EntrySomewhere, NoteSomewhere;
    var name := Fqn(f.system, x.id);
    if x.severity == Some(Breaking) {
      assert name in BrokenNames(f);
      assert Somewhere(diffs, d => RemovedNames(d) + BrokenNames(d), name);
    } else {
      assert name in ChangedNames(f);
      assert Somewhere(diffs, ChangedNames, name);
    }
  }

  /** No other object of the diffs has the name. */
  ghost predicate OnlyHere(diffs: seq<SnapshotDiff>, f: SnapshotDiff, name: string, id: Identity) {
    forall e, x :: e in diffs && (x in e.removed || x in e.structural) && NameOf(name, e.system, x.id) ==> e == f && x.id == id
  }

  lemma BreakingOrigin(diffs: seq<SnapshotDiff>, v: Verdict, f: SnapshotDiff, name: string, id: Identity)
    requires IsVerdict(diffs, v) && OnlyHere(diffs, f, name, id) && name in v.breaking && id !in Ids(f.removed)
    ensures exists x :: x in f.structural && x.id == id && x.severity == Some(Breaking)
  {
    hide IsVerdict, NameOf;
    VerdictNames(diffs, v, name);
    var e, x :| e in diffs && (x in e.removed || (x in e.structural && x.severity == Some(Breaking))) && NameOf(name, e.system, x.id);
    assert e == f && x.id == id;
  }

  /** With the name to itself, an object is in the breaking set if and only if it lost something or nothing visible explains its hash. */
  lemma BreakingIffNotPreserved(o: Snapshot, n: Snapshot, d: SnapshotDiff, og: Option<L.Graph>, ng: Option<L.Graph>, f: SnapshotDiff,
                                diffs: seq<SnapshotDiff>, v: Verdict, a: Object, b: Object, name: string)
    requires DiffOf(o, n, d) && FinalDiff(d, og, ng, f) && f in diffs && IsVerdict(diffs, v)
    requires a in o.objects && b in n.objects && a.id == b.id && Known(a) && a.schemaHash != b.schemaHash
    requires WellKeyed(a) && WellKeyed(b) && NameOf(name, o.system, a.id) && OnlyHere(diffs, f, name, a.id)
    ensures name in v.breaking <==> !(Preserves(a, b, SameArrivals(o.system, a.id, og, ng)) && Visible(a, b))
  {
    FqnIsName(name, o.system, a.id);
    hide NameOf, IsObjectDiff, IsFinal, Registry, Classify, WellKeyed, Preserves, SameArrivals, Visible, Fqn, IsVerdict, OnlyHere;
    var k := StructuralEntry(o, n, d, og, ng, f, a, b);
    VerdictExact(o.system, og, ng, a, b, d.structural[k], f.structural[k]);
    assert f.structural[k] in f.structural;
    VerdictMembers(diffs, v, f, f.structural[k]);
    if name in v.breaking {
      BreakingOrigin(diffs, v, f, name, a.id);
      var x :| x in f.structural && x.id == a.id && x.severity == Some(Breaking);
      var j :| 0 <= j < |f.structural| && f.structural[j] == x;
      assert j == k;
    }
  }

  // ---------------------------------------------------------------------------
  // Foreign keys that share their columns

  /** The verdict on a definition-free change: nothing breaks, and something is seen. */
  ghost predicate Passes(o: Object, n: Object) {
    Quiet(o, n, false) && Visible(o, n)
  }

  ghost predicate ForeignKept(o: Object, n: Object) {
    forall k :: k in Listed(o.keys.foreign) ==> k in Listed(n.keys.foreign)
  }

  lemma KeyedForeignKept(o: Object, n: Object)
    requires Keyed(ForeignColumns, Listed(o.keys.foreign)) && Passes(o, n)
    ensures ForeignKept(o, n)
  {
    QuietParts(o, n, false);
    QuietForeignKept(o, n);
  }

  function Without(s: seq<ForeignKey>, z: ForeignKey): seq<ForeignKey> {
    if s == [] then [] else Without(s[..|s| - 1], z) + (if s[|s| - 1] == z then [] else [s[|s| - 1]])
  }

  lemma {:induction false} WithoutTable(s: seq<ForeignKey>, z: ForeignKey)
    ensures z !in Without(s, z)
    ensures var t, u := Table(ForeignColumns, s), Table(ForeignColumns, Without(s, z));
            && (forall c :: c != z.columns ==> (c in t <==> c in u) && (c in t ==> t[c] == u[c]))
            && (z.columns in t && t[z.columns] != z ==> z.columns in u && u[z.columns] == t[z.columns])
  {
    if s != [] {
      var n := |s| - 1;
      WithoutTable(s[..n], z);
      if s[n] != z {
        var r := Without(s[..n], z);
        assert (r + [s[n]])[..|r|] == r;
      } else {
        assert Without(s, z) == Without(s[..n], z);
      }
    }
  }

  /** A foreign key hidden behind another one on the same columns can be dropped unseen. */
  lemma ShadowedTable(s: seq<ForeignKey>, z: ForeignKey)
    requires z.columns in Table(ForeignColumns, s) && Table(ForeignColumns, s)[z.columns] != z
    ensures Table(ForeignColumns, Without(s, z)) == Table(ForeignColumns, s)
  {
    WithoutTable(s, z);
    hide Table, Without;
    var t, u := Table(ForeignColumns, s), Table(ForeignColumns, Without(s, z));
    assert forall c :: c in t <==> c in u;
    assert forall c :: c in t ==> t[c] == u[c];
  }

  /** A name longer than every listed one. */
  function FreshName(columns: seq<Column>): (r: string)
    ensures forall c :: c in columns ==> |c.name| < |r|
  {
    if columns == [] then "x"
    else
      var rest := FreshName(columns[1..]);
      if |columns[0].name| < |rest| then rest else columns[0].name + "x"
  }

  lemma ColumnAppended(o: Object, n: Object, col: Column)
    requires n.columns == o.columns + [col]
    ensures ColumnTable(n) == ColumnTable(o)[col.name := col]
  {
    assert n.columns[..|n.columns| - 1] == o.columns;
  }

  lemma OneColumnMore(t: map<string, Column>, col: Column, c: Change)
    requires col.name !in t && forall k :: k in t ==> t[k].name == k
    ensures ColumnsDiffer(t, t[col.name := col], c) <==> c == ColumnAdded(col)
  {
  }

  lemma HiddenKeyEscapes(o: Object, z: ForeignKey) returns (n: Object)
    requires z in Listed(o.keys.foreign) && z.columns in ForeignTable(o) && ForeignTable(o)[z.columns] != z
    ensures n.id == o.id && Passes(o, n) && z !in Listed(n.keys.foreign)
  {
    var col := Column(FreshName(o.columns), "text", true, None, 0, None);
    var s := Listed(o.keys.foreign);
    n := o.(columns := o.columns + [col], keys := o.keys.(foreign := Some(Without(s, z))));
    ShadowedTable(s, z);
    WithoutTable(s, z);
    ColumnAppended(o, n, col);
    NamedColumns(o);
    assert col.name !in ColumnTable(o);
    hide ColumnTable, Table, Without, FreshName;
    forall c ensures Differs(o, n, c) <==> c == ColumnAdded(col) {
      OneColumnMore(ColumnTable(o), col, c);
      SameElsewhere(o, n, c);
    }
    assert Differs(o, n, ColumnAdded(col));
  }

  lemma SameElsewhere(o: Object, n: Object, c: Change)
    requires ForeignTable(n) == ForeignTable(o) && n.keys.primary == o.keys.primary && n.keys.unique == o.keys.unique
    requires n.stats == o.stats
    ensures !KeysDiffer(o, n, c) && !StatsDiffer(Included(o), o.stats, n.stats, c)
  {
    hide Table, Included;
  }

  /**
   The additive verdict guards the foreign keys of an object, against every possible new version,
   exactly when no two different foreign keys share their column list.
   */
  lemma ForeignKeysGuardedIff(o: Object)
    ensures (forall n: Object | n.id == o.id && Passes(o, n) :: ForeignKept(o, n)) <==> Keyed(ForeignColumns, Listed(o.keys.foreign))
  {
    var s := Listed(o.keys.foreign);
    if Keyed(ForeignColumns, s) {
      forall n: Object | n.id == o.id && Passes(o, n) ensures ForeignKept(o, n) { KeyedForeignKept(o, n); }
    } else {
      var x, y :| x in s && y in s && ForeignColumns(x) == ForeignColumns(y) && x != y;
      TableProps(ForeignColumns, s);
      hide Table, Passes;
      var z := if ForeignTable(o)[x.columns] == x then y else x;
      var n := HiddenKeyEscapes(o, z);
      assert !ForeignKept(o, n);
    }
  }
}
