/** Which changes that do not break are noted, and when a changed definition counts as such. */
module VerdictNotes {
  import opened Basics
  import opened Snapshots
  import opened Canonical
  import opened SubDiffs
  import opened SnapshotDiffs
  import opened SeverityFinal
  import opened Verdicts
  import L = LineageGraph

  // ---------------------------------------------------------------------------
  // The column set

  predicate SamePlace(c: Column, c': Column) {
    c'.name == c.name && c'.kind == c.kind && c'.ordinal == c.ordinal
  }

  /** Both objects list the same column names with the same types and places. */
  ghost predicate SameShape(o: Object, n: Object) {
    && (forall c :: c in o.columns ==> exists c' :: c' in n.columns && SamePlace(c, c'))
    && (forall c' :: c' in n.columns ==> exists c :: c in o.columns && SamePlace(c, c'))
  }

  lemma ColumnAt(o: Object, c: Column)
    requires Keyed(ColumnName, o.columns)
    ensures c in o.columns <==> c.name in ColumnTable(o) && ColumnTable(o)[c.name] == c
  {
    TableOfKeyed(ColumnName, o.columns);
    TableProps(ColumnName, o.columns);
    hide Table;
  }

  lemma Match(o: Object, n: Object, c: Column)
    requires Keyed(ColumnName, o.columns) && Keyed(ColumnName, n.columns) && c in o.columns && !ShapeSeen(o, n)
    ensures c.name in ColumnTable(n) && SamePlace(c, ColumnTable(n)[c.name])
  {
    ColumnAt(o, c);
    NamedColumns(n);
    hide ColumnTable, KeysDiffer, StatsDiffer, Keyed;
    assert Shaping(ColumnRemoved(c)) && !Differs(o, n, ColumnRemoved(c));
    var c' := ColumnTable(n)[c.name];
    var x, y := ColumnTypeChanged(c.name, c.kind, c'.kind), OrdinalChanged(c.name, c.ordinal, c'.ordinal);
    assert Shaping(x) && Shaping(y) && !Differs(o, n, x) && !Differs(o, n, y);
    assert !ColumnDiffers(c.name, c, c', x) && !ColumnDiffers(c.name, c, c', y);
  }

  lemma ShapelessSame(o: Object, n: Object)
    requires WellKeyed(o) && WellKeyed(n) && !ShapeSeen(o, n)
    ensures SameShape(o, n)
  {
    NewNameIsShape(o, n);
    forall c | c in o.columns ensures exists c' :: c' in n.columns && SamePlace(c, c') {
      Match(o, n, c);
      NamedColumns(n);
      hide ColumnTable;
      assert ColumnTable(n)[c.name] in n.columns;
    }
    forall c' | c' in n.columns ensures exists c :: c in o.columns && SamePlace(c, c') {
      NamedColumns(o);
      var c := ColumnTable(o)[c'.name];
      Match(o, n, c);
      ColumnAt(n, c');
      hide ColumnTable;
    }
  }

  lemma PlacedOn(o: Object, n: Object, c: Column)
    requires WellKeyed(n) && SameShape(o, n) && c in o.columns
    ensures c.name in ColumnTable(n) && SamePlace(c, ColumnTable(n)[c.name])
  {
    var c' :| c' in n.columns && SamePlace(c, c');
    ColumnAt(n, c');
    hide ColumnTable, Keyed;
  }

  lemma PlacedBefore(o: Object, n: Object, c': Column)
    requires WellKeyed(o) && SameShape(o, n) && c' in n.columns
    ensures c'.name in ColumnTable(o)
  {
    var c :| c in o.columns && SamePlace(c, c');
    ColumnAt(o, c);
    hide ColumnTable, Keyed;
  }

  lemma PlaceAt(o: Object, n: Object, k: string)
    requires WellKeyed(o) && WellKeyed(n) && SameShape(o, n)
    ensures k in ColumnTable(o) <==> k in ColumnTable(n)
    ensures k in ColumnTable(o) ==> SamePlace(ColumnTable(o)[k], ColumnTable(n)[k])
  {
    hide ColumnTable, WellKeyed, SameShape, SamePlace;
    NamedColumns(o);
    NamedColumns(n);
    if k in ColumnTable(o) { PlacedOn(o, n, ColumnTable(o)[k]); }
    if k in ColumnTable(n) { PlacedBefore(o, n, ColumnTable(n)[k]); }
  }

  lemma SameShapeless(o: Object, n: Object, c: Change)
    requires WellKeyed(o) && WellKeyed(n) && SameShape(o, n) && ColumnsDiffer(ColumnTable(o), ColumnTable(n), c)
    ensures !Shaping(c)
  {
    hide ColumnTable, WellKeyed, SameShape;
    forall k
      ensures k in ColumnTable(o) <==> k in ColumnTable(n)
      ensures k in ColumnTable(o) ==> SamePlace(ColumnTable(o)[k], ColumnTable(n)[k])
    {
      PlaceAt(o, n, k);
    }
  }

  /** What blocks a downgrade is exactly a changed column set. */
  lemma ShapeSeenIff(o: Object, n: Object)
    requires WellKeyed(o) && WellKeyed(n)
    ensures ShapeSeen(o, n) <==> !SameShape(o, n)
  {
    if !ShapeSeen(o, n) { ShapelessSame(o, n); }
    hide SameShape, Keyed, ColumnTable, Shaping;
    if ShapeSeen(o, n) && SameShape(o, n) {
      var c :| Differs(o, n, c) && Shaping(c);
      DiffersParts(o, n, c);
      SameShapeless(o, n, c);
    }
  }

  /** A changed definition is downgraded exactly if the same edges arrive and the column set is the same. */
  lemma DowngradedIff(system: string, og: Option<L.Graph>, ng: Option<L.Graph>, o: Object, n: Object, d: ObjectDiff, f: ObjectDiff, s: SubDiff)
    requires Classify(o, n) == Structural && IsObjectDiff(o, n, d) && IsFinal(system, og, ng, d, f)
    requires WellKeyed(o) && WellKeyed(n) && s in f.subs && s.change.DefinitionChanged?
    ensures s.downgraded <==> SameArrivals(system, o.id, og, ng) && SameShape(o, n)
    ensures s.severity == if s.downgraded then AdditiveWithNote else Breaking
  {
    hide Classify, Differs, SameArrivals, ShapeChanged, ShapeSeen, SameShape, Worst, RenameSeen, WellKeyed, HasDowngradable, Settle, Sub;
    ShapeSeenIff(o, n);
    Flags(d.subs, o, n);
    DefinitionDowngrades(system, og, ng, o, n, d, f, s);
    var k :| 0 <= k < |f.subs| && f.subs[k] == s;
    var allowed := !ShapeChanged(d.subs) && SameArrivals(system, d.id, og, ng);
    assert d.subs[k] in d.subs && s == Settle(d.subs[k], allowed);
    hide IsObjectDiff, IsFinal;
    SettledDefinition(d.subs[k], allowed);
  }

  lemma SettledDefinition(s: SubDiff, allowed: bool)
    requires s == Sub(s.change) && Settle(s, allowed).change.DefinitionChanged?
    ensures Settle(s, allowed).downgraded == allowed
    ensures Settle(s, allowed).severity == if allowed then AdditiveWithNote else Breaking
  {
  }

  lemma DefinitionDowngrades(system: string, og: Option<L.Graph>, ng: Option<L.Graph>, o: Object, n: Object, d: ObjectDiff, f: ObjectDiff, s: SubDiff)
    requires IsFinal(system, og, ng, d, f) && s in f.subs && s.change.DefinitionChanged?
    requires forall x :: x in d.subs ==> x == Sub(x.change)
    ensures HasDowngradable(d.subs)
  {
    hide SameArrivals, ShapeChanged, Worst;
  }

  // ---------------------------------------------------------------------------
  // Notes

  /** Readers learn of a column that now may be null, of a changed default, and of a downgraded definition. */
  predicate Noted(c: Change, allowed: bool) {
    c.NullableLoosened? || c.DefaultChanged? || (c.DefinitionChanged? && allowed)
  }

  lemma SettledNoted(s: SubDiff, allowed: bool)
    requires s == Sub(s.change)
    ensures Settle(s, allowed).severity == AdditiveWithNote <==> Noted(s.change, allowed)
  {
  }

  lemma NotedSubs(subs: seq<SubDiff>, o: Object, n: Object, allowed: bool)
    requires Records(subs, x => Differs(o, n, x))
    ensures HasSeverity(Map((s: SubDiff) => Settle(s, allowed), subs), AdditiveWithNote) <==> exists c :: Differs(o, n, c) && Noted(c, allowed)
  {
    Flags(subs, o, n);
    hide Differs, Settle, Sub, Noted;
    var settled := Map((s: SubDiff) => Settle(s, allowed), subs);
    if t :| t in settled && t.severity == AdditiveWithNote {
      var i :| 0 <= i < |subs| && settled[i] == t;
      assert subs[i] in subs;
      SettledNoted(subs[i], allowed);
    }
    if c :| Differs(o, n, c) && Noted(c, allowed) {
      Recorded(subs, o, n, c);
      var i :| 0 <= i < |subs| && subs[i] == Sub(c);
      SubOf(c);
      SettledNoted(subs[i], allowed);
      assert settled[i] in settled;
    }
  }

  /** Columns of both objects agree on nulls and defaults, and the definition, if it is hashed, is the same. */
  ghost predicate Unnoted(o: Object, n: Object) {
    && (forall c, c' :: c in o.columns && c' in n.columns && c.name == c'.name ==> (c'.nullable ==> c.nullable) && c'.default == c.default)
    && ("definition" in Included(o) ==> Field(o.stats, "definition") == Field(n.stats, "definition"))
  }

  lemma NotedColumns(o: Object, n: Object, c: Column, c': Column)
    requires WellKeyed(o) && WellKeyed(n) && c in o.columns && c' in n.columns && c.name == c'.name
    requires forall x :: Differs(o, n, x) ==> !Noted(x, true)
    ensures (c'.nullable ==> c.nullable) && c'.default == c.default
  {
    ColumnAt(o, c);
    ColumnAt(n, c');
    hide ColumnTable, KeysDiffer, StatsDiffer, Keyed;
    var x, y := NullableLoosened(c.name), DefaultChanged(c.name, c.default, c'.default);
    assert Noted(x, true) && Noted(y, true) && !Differs(o, n, x) && !Differs(o, n, y);
    assert !ColumnDiffers(c.name, c, c', x) && !ColumnDiffers(c.name, c, c', y);
  }

  lemma NoteNeedsChange(o: Object, n: Object, c: Change)
    requires WellKeyed(o) && WellKeyed(n) && Unnoted(o, n)
    ensures !(Differs(o, n, c) && Noted(c, true))
  {
    NamedColumns(o);
    NamedColumns(n);
    hide ColumnTable, ForeignTable, Uniques, Keyed;
  }

  lemma NotedIff(o: Object, n: Object)
    requires WellKeyed(o) && WellKeyed(n)
    ensures (exists c :: Differs(o, n, c) && Noted(c, true)) <==> !Unnoted(o, n)
  {
    if forall c :: Differs(o, n, c) ==> !Noted(c, true) {
      forall c, c' | c in o.columns && c' in n.columns && c.name == c'.name ensures (c'.nullable ==> c.nullable) && c'.default == c.default {
        NotedColumns(o, n, c, c');
      }
      var x := DefinitionChanged(Field(o.stats, "definition"), Field(n.stats, "definition"));
      assert Noted(x, true) && !Differs(o, n, x);
      hide ColumnTable, KeysDiffer, WellKeyed;
    }
    hide Differs, WellKeyed, Noted;
    if Unnoted(o, n) {
      forall c ensures !(Differs(o, n, c) && Noted(c, true)) { NoteNeedsChange(o, n, c); }
    }
  }

  /**
   A structural change that does not break is plainly additive exactly if no column was loosened,
   no default changed and the definition stayed; otherwise it carries a note.
   */
  lemma AdditiveIff(system: string, og: Option<L.Graph>, ng: Option<L.Graph>, o: Object, n: Object, d: ObjectDiff, f: ObjectDiff)
    requires Classify(o, n) == Structural && IsObjectDiff(o, n, d) && IsFinal(system, og, ng, d, f)
    requires WellKeyed(o) && WellKeyed(n) && f.severity != Some(Breaking)
    ensures f.severity == Some(if Unnoted(o, n) then Additive else AdditiveWithNote)
  {
    hide Classify, Differs, Settle, SameArrivals, ShapeChanged, ShapeSeen, Quiet, RenameSeen, Sub, Unnoted, WellKeyed, HasSeverity, Noted;
    var allowed := SameArrivals(system, o.id, og, ng) && !ShapeSeen(o, n);
    FinalSeverity(system, og, ng, o, n, d, f);
    NotedIff(o, n);
    Flags(d.subs, o, n);
    NotedSubs(d.subs, o, n, allowed);
    NotedEither(o, n, allowed);
    if !HasDowngradable(d.subs) { NothingSettles(d.subs, allowed); }
  }

  /** In a quiet change every changed definition is one that may be downgraded. */
  lemma NotedEither(o: Object, n: Object, allowed: bool)
    ensures Quiet(o, n, allowed) ==>
              ((exists c :: Differs(o, n, c) && Noted(c, allowed)) <==> (exists c :: Differs(o, n, c) && Noted(c, true)))
  {
    hide Differs;
    if Quiet(o, n, allowed) {
      if c :| Differs(o, n, c) && Noted(c, allowed) { assert Noted(c, true); }
      if c :| Differs(o, n, c) && Noted(c, true) { assert Noted(c, allowed); }
    }
  }
}
