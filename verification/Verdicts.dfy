/**
 What a finalized severity means for the readers of an object: it is not breaking exactly
 when everything they could rely on is still there.
 */
module Verdicts {
  import opened Basics
  import opened Snapshots
  import opened Canonical
  import opened SubDiffs
  import opened SnapshotDiffs
  import opened SeverityFinal
  import L = LineageGraph

  // ---------------------------------------------------------------------------
  // What must be kept

  /** A column that went on: same name, type and place, and null where it could be null. */
  predicate CarriesOn(c: Column, c': Column) {
    c'.name == c.name && c'.kind == c.kind && c'.ordinal == c.ordinal && (c.nullable ==> c'.nullable)
  }

  ghost predicate ColumnsKept(o: Object, n: Object) {
    forall c :: c in o.columns ==> exists c' :: c' in n.columns && CarriesOn(c, c')
  }

  ghost predicate KeysKept(o: Object, n: Object) {
    && (Listed(o.keys.primary) != [] ==> Listed(n.keys.primary) == Listed(o.keys.primary))
    && (forall k :: k in Listed(o.keys.foreign) ==> k in Listed(n.keys.foreign))
    && (forall u :: u in Listed(o.keys.unique) ==> u in Listed(n.keys.unique))
  }

  /** No column name is new. */
  ghost predicate NoNewColumn(o: Object, n: Object) {
    forall c :: c in n.columns ==> c.name in ColumnTable(o)
  }

  /** Hash-included statistics are equal; a definition may differ when the arrivals and the column set are equal. */
  ghost predicate StatsKept(o: Object, n: Object, sameArrivals: bool) {
    forall f :: f in Included(o) ==>
      Field(o.stats, f) == Field(n.stats, f) || (f == "definition" && sameArrivals && NoNewColumn(o, n))
  }

  ghost predicate Preserves(o: Object, n: Object, sameArrivals: bool) {
    ColumnsKept(o, n) && KeysKept(o, n) && StatsKept(o, n, sameArrivals)
  }

  /** Names and foreign-key column lists identify their entries. */
  ghost predicate WellKeyed(o: Object) {
    Keyed(ColumnName, o.columns) && Keyed(ForeignColumns, Listed(o.keys.foreign))
  }

  // ---------------------------------------------------------------------------
  // Component by component

  predicate Breaks(c: Change) {
    SeverityOf(c) == Breaking
  }

  lemma ColumnsExact(o: Object, n: Object)
    requires Keyed(ColumnName, o.columns) && Keyed(ColumnName, n.columns)
    ensures (forall c :: ColumnsDiffer(ColumnTable(o), ColumnTable(n), c) ==> !Breaks(c)) <==> ColumnsKept(o, n)
  {
    var t, u := ColumnTable(o), ColumnTable(n);
    hide ColumnTable, Keyed, ColumnsDiffer, Breaks;
    if ColumnsKept(o, n) {
      forall c | ColumnsDiffer(t, u, c) ensures !Breaks(c) { KeptColumnsQuiet(o, n, c); }
    }
    if forall c :: ColumnsDiffer(t, u, c) ==> !Breaks(c) {
      forall c | c in o.columns ensures exists c' :: c' in n.columns && CarriesOn(c, c') { QuietColumnKept(o, n, c); }
    }
  }

  lemma PairExact(k: string, o: Column, n: Column)
    requires o.name == k && n.name == k
    ensures CarriesOn(o, n) <==> forall c :: ColumnDiffers(k, o, n, c) ==> !Breaks(c)
  {
    if !CarriesOn(o, n) {
      assert ColumnDiffers(k, o, n, ColumnTypeChanged(k, o.kind, n.kind)) || ColumnDiffers(k, o, n, OrdinalChanged(k, o.ordinal, n.ordinal))
          || ColumnDiffers(k, o, n, NullableTightened(k));
    }
  }

  lemma QuietColumnKept(o: Object, n: Object, c: Column)
    requires c in o.columns && Keyed(ColumnName, o.columns)
    requires forall x :: ColumnsDiffer(ColumnTable(o), ColumnTable(n), x) ==> !Breaks(x)
    ensures exists c' :: c' in n.columns && CarriesOn(c, c')
  {
    TableOfKeyed(ColumnName, o.columns);
    NamedColumns(n);
    var t, u := ColumnTable(o), ColumnTable(n);
    hide Table, ColumnTable, Keyed;
    assert t[c.name] == c;
    assert Breaks(ColumnRemoved(c));
    assert !ColumnsDiffer(t, u, ColumnRemoved(c));
    var c' := u[c.name];
    forall x | ColumnDiffers(c.name, c, c', x) ensures !Breaks(x) { assert ColumnsDiffer(t, u, x); }
    PairExact(c.name, c, c');
  }

  lemma KeptInTable(o: Object, n: Object, k: string)
    requires ColumnsKept(o, n) && Keyed(ColumnName, n.columns) && k in ColumnTable(o)
    ensures k in ColumnTable(n) && CarriesOn(ColumnTable(o)[k], ColumnTable(n)[k])
  {
    TableOfKeyed(ColumnName, n.columns);
    NamedColumns(o);
    hide Table, Keyed;
    var c' :| c' in n.columns && CarriesOn(ColumnTable(o)[k], c');
    assert ColumnTable(n)[c'.name] == c';
  }

  lemma KeptColumnsQuiet(o: Object, n: Object, x: Change)
    requires ColumnsKept(o, n) && Keyed(ColumnName, o.columns) && Keyed(ColumnName, n.columns)
    requires ColumnsDiffer(ColumnTable(o), ColumnTable(n), x)
    ensures !Breaks(x)
  {
    NamedColumns(o);
    NamedColumns(n);
    var t, u := ColumnTable(o), ColumnTable(n);
    hide ColumnTable, Keyed, ColumnsKept, ColumnDiffers;
    if x.ColumnRemoved? {
      KeptInTable(o, n, x.column.name);
    } else if !x.ColumnAdded? {
      var k :| k in t && k in u && ColumnDiffers(k, t[k], u[k], x);
      KeptInTable(o, n, k);
      PairExact(k, t[k], u[k]);
    }
  }

  lemma PrimaryExact(o: seq<string>, n: seq<string>)
    ensures (forall c :: PrimaryDiffers(o, n, c) ==> !Breaks(c)) <==> (o != [] ==> n == o)
  {
    if o != [] && n != o {
      assert PrimaryDiffers(o, n, if n == [] then PrimaryRemoved(o) else PrimaryAltered(o, n));
    }
  }

  lemma ForeignExact(o: seq<ForeignKey>, n: seq<ForeignKey>)
    requires Keyed(ForeignColumns, o) && Keyed(ForeignColumns, n)
    ensures (forall c :: ForeignDiffers(Table(ForeignColumns, o), Table(ForeignColumns, n), c) ==> !Breaks(c)) <==> (forall k :: k in o ==> k in n)
  {
    TableOfKeyed(ForeignColumns, o);
    TableOfKeyed(ForeignColumns, n);
    TableProps(ForeignColumns, o);
    TableProps(ForeignColumns, n);
    var t, u := Table(ForeignColumns, o), Table(ForeignColumns, n);
    hide Table, Keyed;
    if forall c :: ForeignDiffers(t, u, c) ==> !Breaks(c) {
      forall k | k in o ensures k in n {
        assert t[k.columns] == k;
        assert !ForeignDiffers(t, u, ForeignRemoved(k));
        assert !ForeignDiffers(t, u, ForeignAltered(k, u[k.columns]));
      }
    }
  }

  lemma UniqueExact(o: set<seq<string>>, n: set<seq<string>>)
    ensures (forall c :: UniqueDiffers(o, n, c) ==> !Breaks(c)) <==> o <= n
  {
    if forall c :: UniqueDiffers(o, n, c) ==> !Breaks(c) {
      forall u | u in o ensures u in n { assert !UniqueDiffers(o, n, UniqueRemoved(u)); }
    }
  }

  lemma StatsExact(included: set<string>, o: Stats, n: Stats, allowed: bool)
    ensures (forall c :: StatsDiffer(included, o, n, c) ==> c.DefinitionChanged? && allowed) <==>
              forall f :: f in included ==> Field(o, f) == Field(n, f) || (f == "definition" && allowed)
  {
    if forall c :: StatsDiffer(included, o, n, c) ==> c.DefinitionChanged? && allowed {
      forall f | f in included ensures Field(o, f) == Field(n, f) || (f == "definition" && allowed) {
        if Field(o, f) != Field(n, f) { assert StatsDiffer(included, o, n, StatChange(f, Field(o, f), Field(n, f))); }
      }
    }
  }

  // ---------------------------------------------------------------------------
  // The verdict

  /** No difference breaks, definition changes aside when they may be downgraded. */
  ghost predicate Quiet(o: Object, n: Object, allowed: bool) {
    forall c :: Differs(o, n, c) ==> !Breaks(c) || (c.DefinitionChanged? && allowed)
  }

  ghost predicate ShapeSeen(o: Object, n: Object) {
    exists c :: Differs(o, n, c) && Shaping(c)
  }

  lemma DiffersParts(o: Object, n: Object, c: Change)
    ensures ColumnsDiffer(ColumnTable(o), ColumnTable(n), c) ==> !c.DefinitionChanged?
    ensures KeysDiffer(o, n, c) ==> !c.DefinitionChanged? && !Shaping(c)
    ensures StatsDiffer(Included(o), o.stats, n.stats, c) ==> Breaks(c) && !Shaping(c)
  {
    hide ColumnTable, ForeignTable, Uniques, Included;
  }

  lemma QuietParts(o: Object, n: Object, allowed: bool)
    ensures Quiet(o, n, allowed) <==>
              && (forall c :: ColumnsDiffer(ColumnTable(o), ColumnTable(n), c) ==> !Breaks(c))
              && (forall c :: KeysDiffer(o, n, c) ==> !Breaks(c))
              && (forall c :: StatsDiffer(Included(o), o.stats, n.stats, c) ==> c.DefinitionChanged? && allowed)
  {
    forall c
      ensures ColumnsDiffer(ColumnTable(o), ColumnTable(n), c) || KeysDiffer(o, n, c) ==> !c.DefinitionChanged?
      ensures StatsDiffer(Included(o), o.stats, n.stats, c) ==> Breaks(c)
    {
      DiffersParts(o, n, c);
    }
    hide ColumnsDiffer, KeysDiffer, StatsDiffer, ColumnTable, Included, Breaks;
  }

  lemma KeysExact(o: Object, n: Object)
    requires Keyed(ForeignColumns, Listed(o.keys.foreign)) && Keyed(ForeignColumns, Listed(n.keys.foreign))
    ensures (forall c :: KeysDiffer(o, n, c) ==> !Breaks(c)) <==> KeysKept(o, n)
  {
    PrimaryExact(Listed(o.keys.primary), Listed(n.keys.primary));
    ForeignExact(Listed(o.keys.foreign), Listed(n.keys.foreign));
    UniqueExact(Uniques(o), Uniques(n));
    assert forall u :: u in Uniques(o) <==> u in Listed(o.keys.unique);
    assert forall u :: u in Uniques(n) <==> u in Listed(n.keys.unique);
    hide PrimaryDiffers, ForeignDiffers, UniqueDiffers, Breaks, Keyed, Table, Uniques;
  }

  lemma ShapeWhenKept(o: Object, n: Object)
    requires WellKeyed(o) && WellKeyed(n) && ColumnsKept(o, n)
    ensures ShapeSeen(o, n) <==> !NoNewColumn(o, n)
  {
    NamedColumns(n);
    hide ColumnTable, Keyed, KeysDiffer, StatsDiffer;
    if ShapeSeen(o, n) {
      var c :| Differs(o, n, c) && Shaping(c);
      DiffersParts(o, n, c);
      KeptColumnsQuiet(o, n, c);
      assert c.ColumnAdded? && c.column.name !in ColumnTable(o) && c.column == ColumnTable(n)[c.column.name];
    }
    if !NoNewColumn(o, n) {
      var c :| c in n.columns && c.name !in ColumnTable(o);
      var x := ColumnTable(n)[c.name];
      assert Differs(o, n, ColumnAdded(x)) && Shaping(ColumnAdded(x));
    }
  }

  lemma QuietIffPreserves(o: Object, n: Object, same: bool)
    requires WellKeyed(o) && WellKeyed(n)
    ensures Quiet(o, n, same && !ShapeSeen(o, n)) <==> Preserves(o, n, same)
  {
    hide ColumnTable, Keyed, KeysDiffer, StatsDiffer, ColumnsDiffer, Quiet, ColumnsKept, KeysKept, ShapeSeen, NoNewColumn, Included, Breaks;
    var allowed := same && !ShapeSeen(o, n);
    QuietParts(o, n, allowed);
    ColumnsExact(o, n);
    KeysExact(o, n);
    StatsExact(Included(o), o.stats, n.stats, allowed);
    if ColumnsKept(o, n) { ShapeWhenKept(o, n); }
  }

  /** A new column name is a change of shape. */
  lemma NewNameIsShape(o: Object, n: Object)
    requires !ShapeSeen(o, n)
    ensures NoNewColumn(o, n)
  {
    NamedColumns(n);
    hide ColumnTable, KeysDiffer, StatsDiffer;
    forall c | c in n.columns ensures c.name in ColumnTable(o) {
      var x := ColumnTable(n)[c.name];
      assert !Differs(o, n, ColumnAdded(x));
    }
  }

  lemma QuietForeignKept(o: Object, n: Object)
    requires Keyed(ForeignColumns, Listed(o.keys.foreign)) && forall c :: KeysDiffer(o, n, c) ==> !Breaks(c)
    ensures forall k :: k in Listed(o.keys.foreign) ==> k in Listed(n.keys.foreign)
  {
    TableOfKeyed(ForeignColumns, Listed(o.keys.foreign));
    TableProps(ForeignColumns, Listed(n.keys.foreign));
    hide Table, Keyed, PrimaryDiffers, UniqueDiffers, Uniques;
    forall k | k in Listed(o.keys.foreign) ensures k in Listed(n.keys.foreign) {
      QuietKeyKept(o, n, k);
    }
  }

  lemma QuietKeyKept(o: Object, n: Object, k: ForeignKey)
    requires k.columns in ForeignTable(o) && ForeignTable(o)[k.columns] == k && forall c :: KeysDiffer(o, n, c) ==> !Breaks(c)
    ensures k.columns in ForeignTable(n) && ForeignTable(n)[k.columns] == k
  {
    hide Table, PrimaryDiffers, UniqueDiffers, Uniques, ForeignTable;
    var t, u := ForeignTable(o), ForeignTable(n);
    TableKeysForeign(n);
    assert Breaks(ForeignRemoved(k));
    assert !KeysDiffer(o, n, ForeignRemoved(k));
    assert k.columns in u;
    var x := u[k.columns];
    assert Breaks(ForeignAltered(k, x)) && !KeysDiffer(o, n, ForeignAltered(k, x));
  }

  lemma TableKeysForeign(n: Object)
    ensures forall k :: k in ForeignTable(n) ==> ForeignTable(n)[k].columns == k
  {
    TableProps(ForeignColumns, Listed(n.keys.foreign));
  }

  lemma QuietKeysKept(o: Object, n: Object)
    requires Keyed(ForeignColumns, Listed(o.keys.foreign)) && forall c :: KeysDiffer(o, n, c) ==> !Breaks(c)
    ensures KeysKept(o, n)
  {
    QuietForeignKept(o, n);
    assert forall u :: u in Uniques(o) <==> u in Listed(o.keys.unique);
    assert forall u :: u in Uniques(n) <==> u in Listed(n.keys.unique);
    hide ForeignTable, Breaks, Keyed, PrimaryDiffers, ForeignDiffers, UniqueDiffers, Uniques;
    PrimaryExact(Listed(o.keys.primary), Listed(n.keys.primary));
    UniqueExact(Uniques(o), Uniques(n));
  }

  lemma QuietColumnsKept(o: Object, n: Object)
    requires Keyed(ColumnName, o.columns) && forall c :: ColumnsDiffer(ColumnTable(o), ColumnTable(n), c) ==> !Breaks(c)
    ensures ColumnsKept(o, n)
  {
    hide Keyed, ColumnTable, ColumnsDiffer, Breaks;
    forall c | c in o.columns ensures exists c' :: c' in n.columns && CarriesOn(c, c') { QuietColumnKept(o, n, c); }
  }

  /** What a quiet change keeps; the new object may list anything. */
  lemma QuietPreserves(o: Object, n: Object, same: bool)
    requires WellKeyed(o) && Quiet(o, n, same && !ShapeSeen(o, n))
    ensures Preserves(o, n, same)
  {
    hide ColumnTable, Keyed, KeysDiffer, StatsDiffer, ColumnsDiffer, Quiet, ColumnsKept, KeysKept, ShapeSeen, NoNewColumn, Included, Breaks;
    var allowed := same && !ShapeSeen(o, n);
    QuietParts(o, n, allowed);
    QuietColumnsKept(o, n);
    QuietKeysKept(o, n);
    StatsExact(Included(o), o.stats, n.stats, allowed);
    if !ShapeSeen(o, n) { NewNameIsShape(o, n); }
  }

  lemma Recorded(subs: seq<SubDiff>, o: Object, n: Object, c: Change)
    requires Records(subs, x => Differs(o, n, x))
    ensures Sub(c) in subs <==> Differs(o, n, c)
  {
    assert Sub(c).change == c;
    hide Differs, Sub;
  }

  /** The flags of the recorded sub-diffs, in terms of the differences. */
  lemma Flags(subs: seq<SubDiff>, o: Object, n: Object)
    requires Records(subs, x => Differs(o, n, x))
    ensures ShapeChanged(subs) <==> ShapeSeen(o, n)
    ensures forall s :: s in subs ==> s == Sub(s.change) && Differs(o, n, s.change)
  {
    hide Differs, Shaping;
    forall s | s in subs ensures s == Sub(s.change) && Differs(o, n, s.change) {}
    if ShapeSeen(o, n) {
      var c :| Differs(o, n, c) && Shaping(c);
      Recorded(subs, o, n, c);
      assert Sub(c).change == c;
    }
  }

  lemma SettledBreaks(s: SubDiff, allowed: bool)
    requires s == Sub(s.change)
    ensures Settle(s, allowed).severity == Breaking <==> Breaks(s.change) && !(s.change.DefinitionChanged? && allowed)
    ensures !s.downgradable ==> Settle(s, allowed) == s
  {
  }

  lemma SettledQuiet(subs: seq<SubDiff>, o: Object, n: Object, allowed: bool)
    requires Records(subs, x => Differs(o, n, x))
    ensures !HasSeverity(Map((s: SubDiff) => Settle(s, allowed), subs), Breaking) <==> Quiet(o, n, allowed)
  {
    Flags(subs, o, n);
    hide Differs, Settle, Sub, Breaks;
    var settled := Map((s: SubDiff) => Settle(s, allowed), subs);
    if !HasSeverity(settled, Breaking) {
      forall c | Differs(o, n, c) ensures !Breaks(c) || (c.DefinitionChanged? && allowed) {
        Recorded(subs, o, n, c);
        var i :| 0 <= i < |subs| && subs[i] == Sub(c);
        SubOf(c);
        SettledBreaks(subs[i], allowed);
        assert settled[i] in settled;
      }
    }
    if Quiet(o, n, allowed) {
      forall t | t in settled ensures t.severity != Breaking {
        var i :| 0 <= i < |subs| && settled[i] == t;
        assert subs[i] in subs;
        SettledBreaks(subs[i], allowed);
      }
    }
  }

  lemma NothingSettles(subs: seq<SubDiff>, allowed: bool)
    requires !HasDowngradable(subs)
    ensures Map((s: SubDiff) => Settle(s, allowed), subs) == subs
  {
    var settled := Map((s: SubDiff) => Settle(s, allowed), subs);
    forall i | 0 <= i < |subs| ensures settled[i] == subs[i] { assert subs[i] in subs; }
  }

  lemma WorstBreaking(subs: seq<SubDiff>)
    ensures Worst(subs) == Breaking <==> HasSeverity(subs, Breaking)
  {
  }

  /** The final severity of a structural change. */
  lemma FinalSeverity(system: string, og: Option<L.Graph>, ng: Option<L.Graph>, o: Object, n: Object, d: ObjectDiff, f: ObjectDiff)
    requires Classify(o, n) == Structural && IsObjectDiff(o, n, d) && IsFinal(system, og, ng, d, f)
    ensures f.severity == Some(Breaking) <==> d.subs == [] || !Quiet(o, n, SameArrivals(system, o.id, og, ng) && !ShapeSeen(o, n))
  {
    hide Classify, Differs, Settle, SameArrivals, ShapeChanged, ShapeSeen, Quiet, Worst, HasSeverity, RenameSeen;
    var allowed := SameArrivals(system, o.id, og, ng) && !ShapeSeen(o, n);
    Flags(d.subs, o, n);
    SettledQuiet(d.subs, o, n, allowed);
    WorstBreaking(f.subs);
    if !HasDowngradable(d.subs) { NothingSettles(d.subs, allowed); }
    hide Sub;
  }

  /** Something the field-level comparison can see differs. */
  ghost predicate Visible(o: Object, n: Object) {
    exists c :: Differs(o, n, c)
  }

  /**
   The exact meaning of a verdict: a structural change ends up not breaking if and only if the
   new object preserves what the old one offered and the comparison sees some difference.
   */
  lemma VerdictExact(system: string, og: Option<L.Graph>, ng: Option<L.Graph>, o: Object, n: Object, d: ObjectDiff, f: ObjectDiff)
    requires Classify(o, n) == Structural && IsObjectDiff(o, n, d) && IsFinal(system, og, ng, d, f)
    requires WellKeyed(o) && WellKeyed(n)
    ensures f.severity != Some(Breaking) <==> Preserves(o, n, SameArrivals(system, o.id, og, ng)) && Visible(o, n)
  {
    hide Preserves, Quiet, SameArrivals, ShapeSeen, WellKeyed, IsFinal;
    FinalSeverity(system, og, ng, o, n, d, f);
    QuietIffPreserves(o, n, SameArrivals(system, o.id, og, ng));
    VisibleIff(o, n, d);
  }

  lemma VisibleIff(o: Object, n: Object, d: ObjectDiff)
    requires Classify(o, n) == Structural && IsObjectDiff(o, n, d)
    ensures d.subs != [] <==> Visible(o, n)
  {
    hide Differs, Classify, Worst, RenameSeen;
    if d.subs != [] {
      assert d.subs[0] in d.subs;
      assert Differs(o, n, d.subs[0].change);
    }
    if Visible(o, n) {
      var c :| Differs(o, n, c);
      Recorded(d.subs, o, n, c);
    }
  }

  /** A structural change that ends up not breaking preserves what the old object offered, whatever the new one lists. */
  lemma VerdictSafe(system: string, og: Option<L.Graph>, ng: Option<L.Graph>, o: Object, n: Object, d: ObjectDiff, f: ObjectDiff)
    requires Classify(o, n) == Structural && IsObjectDiff(o, n, d) && IsFinal(system, og, ng, d, f)
    requires WellKeyed(o) && f.severity != Some(Breaking)
    ensures Preserves(o, n, SameArrivals(system, o.id, og, ng))
  {
    hide Preserves, Quiet, SameArrivals, ShapeSeen, WellKeyed, IsFinal;
    FinalSeverity(system, og, ng, o, n, d, f);
    QuietPreserves(o, n, SameArrivals(system, o.id, og, ng));
  }
}
