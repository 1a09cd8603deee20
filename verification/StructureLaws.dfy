/** When the field-level comparison sees what the schema hash sees. */
module StructureLaws {
  import opened Basics
  import opened Snapshots
  import opened Canonical
  import opened Ordering
  import opened SubDiffs
  import opened SnapshotDiffs
  import opened DiffLaws
  import opened Verdicts

  /** Every list holds an entry once, under its own key and with its own sort key. */
  ghost predicate ListedOnce(o: Object) {
    && WellKeyed(o) && Distinguished(o)
    && Distinct(o.columns) && Distinct(Listed(o.keys.foreign)) && Distinct(Listed(o.keys.unique))
  }

  /** The same key lists are present. */
  predicate SameKeyLists(o: Object, n: Object) {
    && (o.keys.primary.Some? <==> n.keys.primary.Some?)
    && (o.keys.foreign.Some? <==> n.keys.foreign.Some?)
    && (o.keys.unique.Some? <==> n.keys.unique.Some?)
  }

  ghost predicate SameMembers<T(!new)>(a: seq<T>, b: seq<T>) {
    forall x :: x in a <==> x in b
  }

  // ---------------------------------------------------------------------------
  // Columns

  function Shapes(o: Object): seq<Shape> {
    Map(ShapeOf, o.columns)
  }

  lemma ShapesDistinct(o: Object)
    requires Keyed(ColumnName, o.columns) && Distinct(o.columns) && TieFree(ColumnLe, o.columns)
    ensures Distinct(Shapes(o)) && TieFree(ShapeLe, Shapes(o))
  {
    var shapes := Shapes(o);
    forall i, j | 0 <= i < j < |shapes| ensures shapes[i] != shapes[j] {
      assert o.columns[i] in o.columns && o.columns[j] in o.columns;
      assert ColumnName(o.columns[i]) != ColumnName(o.columns[j]);
    }
    forall x, y | x in shapes && y in shapes && ShapeLe(x, y) && ShapeLe(y, x) ensures x == y {
      var i :| 0 <= i < |shapes| && shapes[i] == x;
      var j :| 0 <= j < |shapes| && shapes[j] == y;
      assert o.columns[i] in o.columns && o.columns[j] in o.columns;
      assert ColumnLe(o.columns[i], o.columns[j]) && ColumnLe(o.columns[j], o.columns[i]);
    }
  }

  lemma SortedShapesIff(o: Object, n: Object)
    requires ListedOnce(o) && ListedOnce(n)
    ensures Map(ShapeOf, Sort(ColumnLe, o.columns)) == Map(ShapeOf, Sort(ColumnLe, n.columns)) <==> SameMembers(Shapes(o), Shapes(n))
  {
    hide Sort, Shapes, ColumnLe, ShapeLe;
    ShapesSorted(o.columns);
    ShapesSorted(n.columns);
    ShapesDistinct(o);
    ShapesDistinct(n);
    ColumnOrder();
    assert Shapes(o) == Map(ShapeOf, o.columns) && Shapes(n) == Map(ShapeOf, n.columns) by { ShapesAre(o); ShapesAre(n); }
    SortMembers(ShapeLe, Shapes(o));
    SortMembers(ShapeLe, Shapes(n));
    if SameMembers(Shapes(o), Shapes(n)) { SameMembersSortAlike(ShapeLe, Shapes(o), Shapes(n)); }
  }

  lemma ShapesAre(o: Object)
    ensures Shapes(o) == Map(ShapeOf, o.columns)
  {
  }

  lemma ShapeMember(o: Object, x: Shape)
    requires Keyed(ColumnName, o.columns)
    ensures x in Shapes(o) <==> x.name in ColumnTable(o) && ShapeOf(ColumnTable(o)[x.name]) == x
  {
    TableOfKeyed(ColumnName, o.columns);
    NamedColumns(o);
    hide Table, Keyed;
    if x in Shapes(o) {
      var i :| 0 <= i < |o.columns| && Shapes(o)[i] == x;
      assert o.columns[i] in o.columns;
    }
    if x.name in ColumnTable(o) && ShapeOf(ColumnTable(o)[x.name]) == x {
      var c := ColumnTable(o)[x.name];
      var i :| 0 <= i < |o.columns| && o.columns[i] == c;
      assert Shapes(o)[i] == x;
    }
  }

  /** The tables give every name one shape. */
  ghost predicate SameShapes(t: map<string, Column>, u: map<string, Column>) {
    t.Keys == u.Keys && forall k :: k in t && k in u ==> ShapeOf(t[k]) == ShapeOf(u[k])
  }

  lemma TablesIff(o: Object, n: Object)
    requires Keyed(ColumnName, o.columns) && Keyed(ColumnName, n.columns)
    ensures SameMembers(Shapes(o), Shapes(n)) <==> SameShapes(ColumnTable(o), ColumnTable(n))
  {
    NamedColumns(o);
    NamedColumns(n);
    hide Shapes, ColumnTable, Keyed;
    forall x ensures x in Shapes(o) <==> x.name in ColumnTable(o) && ShapeOf(ColumnTable(o)[x.name]) == x { ShapeMember(o, x); }
    forall x ensures x in Shapes(n) <==> x.name in ColumnTable(n) && ShapeOf(ColumnTable(n)[x.name]) == x { ShapeMember(n, x); }
    if SameMembers(Shapes(o), Shapes(n)) {
      forall k | k in ColumnTable(o) ensures k in ColumnTable(n) && ShapeOf(ColumnTable(o)[k]) == ShapeOf(ColumnTable(n)[k]) {
        assert ShapeOf(ColumnTable(o)[k]) in Shapes(n);
      }
      forall k | k in ColumnTable(n) ensures k in ColumnTable(o) {
        assert ShapeOf(ColumnTable(n)[k]) in Shapes(o);
      }
    }
  }

  lemma ShapePair(k: string, a: Column, b: Column)
    requires a.name == k && b.name == k
    ensures ShapeOf(a) == ShapeOf(b) <==> forall c :: !ColumnDiffers(k, a, b, c)
  {
    if ShapeOf(a) != ShapeOf(b) {
      assert ColumnDiffers(k, a, b, ColumnTypeChanged(k, a.kind, b.kind)) || ColumnDiffers(k, a, b, NullableTightened(k))
          || ColumnDiffers(k, a, b, NullableLoosened(k)) || ColumnDiffers(k, a, b, DefaultChanged(k, a.default, b.default))
          || ColumnDiffers(k, a, b, OrdinalChanged(k, a.ordinal, b.ordinal));
    }
  }

  lemma ColumnsSeenIff(t: map<string, Column>, u: map<string, Column>)
    requires (forall k :: k in t ==> t[k].name == k) && (forall k :: k in u ==> u[k].name == k)
    ensures (forall c :: !ColumnsDiffer(t, u, c)) <==> SameShapes(t, u)
  {
    hide ColumnDiffers, ShapeOf;
    forall k | k in t && k in u ensures ShapeOf(t[k]) == ShapeOf(u[k]) <==> forall c :: !ColumnDiffers(k, t[k], u[k], c) { ShapePair(k, t[k], u[k]); }
    if forall c :: !ColumnsDiffer(t, u, c) {
      forall k | k in t ensures k in u { assert !ColumnsDiffer(t, u, ColumnRemoved(t[k])); }
      forall k | k in u ensures k in t { assert !ColumnsDiffer(t, u, ColumnAdded(u[k])); }
      forall k | k in t && k in u ensures ShapeOf(t[k]) == ShapeOf(u[k]) { QuietPair(t, u, k); }
    }
  }

  lemma QuietPair(t: map<string, Column>, u: map<string, Column>, k: string)
    requires k in t && k in u && t[k].name == k && u[k].name == k && forall c :: !ColumnsDiffer(t, u, c)
    ensures ShapeOf(t[k]) == ShapeOf(u[k])
  {
    ShapePair(k, t[k], u[k]);
    hide ColumnDiffers, ShapeOf;
    forall c ensures !ColumnDiffers(k, t[k], u[k], c) {
      assert !ColumnsDiffer(t, u, c);
      SidesAreNoPair(k, t[k], u[k], c);
    }
  }

  lemma SidesAreNoPair(k: string, a: Column, b: Column, c: Change)
    ensures ColumnDiffers(k, a, b, c) ==> !c.ColumnAdded? && !c.ColumnRemoved?
  {
  }

  // ---------------------------------------------------------------------------
  // Keys

  lemma PrimarySeenIff(o: seq<string>, n: seq<string>)
    ensures (forall c :: !PrimaryDiffers(o, n, c)) <==> o == n
  {
    if o != n {
      assert PrimaryDiffers(o, n, if o == [] then PrimaryAdded(n) else if n == [] then PrimaryRemoved(o) else PrimaryAltered(o, n));
    }
  }

  type ForeignKeys = map<seq<string>, ForeignKey>

  lemma QuietForeign(t: ForeignKeys, u: ForeignKeys)
    requires KeyedByColumns(t) && KeyedByColumns(u) && forall c :: !ForeignDiffers(t, u, c)
    ensures t == u
  {
    forall k | k in t ensures k in u && u[k] == t[k] {
      assert !ForeignDiffers(t, u, ForeignRemoved(t[k]));
      assert !ForeignDiffers(t, u, ForeignAltered(t[k], u[k]));
    }
    forall k | k in u ensures k in t { assert !ForeignDiffers(t, u, ForeignAdded(u[k])); }
  }

  lemma ForeignTablesIff(o: Object, n: Object)
    requires WellKeyed(o) && WellKeyed(n)
    ensures ForeignTable(o) == ForeignTable(n) <==> SameMembers(Listed(o.keys.foreign), Listed(n.keys.foreign))
    ensures KeyedByColumns(ForeignTable(o)) && KeyedByColumns(ForeignTable(n))
  {
    var a, b := Listed(o.keys.foreign), Listed(n.keys.foreign);
    TableOfKeyed(ForeignColumns, a);
    TableOfKeyed(ForeignColumns, b);
    TableProps(ForeignColumns, a);
    TableProps(ForeignColumns, b);
    var t, u := ForeignTable(o), ForeignTable(n);
    hide Table, Keyed;
    if t == u {
      forall k ensures k in a <==> k in b {
        if k in a { assert t[k.columns] == k; }
        if k in b { assert u[k.columns] == k; }
      }
    }
    if SameMembers(a, b) {
      forall k | k in t ensures k in u && u[k] == t[k] { assert t[k] in b; }
      forall k | k in u ensures k in t { assert u[k] in a; }
    }
  }

  lemma ForeignSeenIff(o: Object, n: Object)
    requires WellKeyed(o) && WellKeyed(n)
    ensures (forall c :: !ForeignDiffers(ForeignTable(o), ForeignTable(n), c)) <==> SameMembers(Listed(o.keys.foreign), Listed(n.keys.foreign))
  {
    hide ForeignTable, Keyed, SameMembers, KeyedByColumns, Listed;
    ForeignTablesIff(o, n);
    var t, u := ForeignTable(o), ForeignTable(n);
    if forall c :: !ForeignDiffers(t, u, c) { QuietForeign(t, u); }
  }

  lemma UniqueSeenIff(o: set<seq<string>>, n: set<seq<string>>)
    ensures (forall c :: !UniqueDiffers(o, n, c)) <==> o == n
  {
    if forall c :: !UniqueDiffers(o, n, c) {
      forall u | u in o ensures u in n { assert !UniqueDiffers(o, n, UniqueRemoved(u)); }
      forall u | u in n ensures u in o { assert !UniqueDiffers(o, n, UniqueAdded(u)); }
    }
  }

  lemma ForeignSortIff(o: seq<ForeignKey>, n: seq<ForeignKey>)
    requires Distinct(o) && Distinct(n) && TieFree(ForeignLe, o)
    ensures Sort(ForeignLe, o) == Sort(ForeignLe, n) <==> SameMembers(o, n)
  {
    hide Sort, ForeignLe;
    ForeignOrder();
    SortMembers(ForeignLe, o);
    SortMembers(ForeignLe, n);
    if SameMembers(o, n) { SameMembersSortAlike(ForeignLe, o, n); }
  }

  lemma UniqueSortIff(o: seq<seq<string>>, n: seq<seq<string>>)
    requires Distinct(o) && Distinct(n)
    ensures Sort(SeqLe, o) == Sort(SeqLe, n) <==> SameMembers(o, n)
  {
    SeqLeOrders();
    hide Sort, SeqLe;
    SortMembers(SeqLe, o);
    SortMembers(SeqLe, n);
    if SameMembers(o, n) { SameMembersSortAlike(SeqLe, o, n); }
  }

  lemma SameUniques(o: Object, n: Object)
    ensures Uniques(o) == Uniques(n) <==> SameMembers(Listed(o.keys.unique), Listed(n.keys.unique))
  {
    assert forall u :: u in Uniques(o) <==> u in Listed(o.keys.unique);
    assert forall u :: u in Uniques(n) <==> u in Listed(n.keys.unique);
    hide Uniques;
  }

  lemma ForeignPartIff(o: Object, n: Object)
    requires ListedOnce(o) && ListedOnce(n) && SameKeyLists(o, n)
    ensures OrderedKeys(o.keys).foreign == OrderedKeys(n.keys).foreign <==> SameMembers(Listed(o.keys.foreign), Listed(n.keys.foreign))
  {
    hide Sort, ForeignLe, SameMembers;
    if o.keys.foreign.Some? { ForeignSortIff(o.keys.foreign.value, n.keys.foreign.value); }
    if o.keys.foreign.None? { NothingListed<ForeignKey>(); }
  }

  lemma UniquePartIff(o: Object, n: Object)
    requires ListedOnce(o) && ListedOnce(n) && SameKeyLists(o, n)
    ensures OrderedKeys(o.keys).unique == OrderedKeys(n.keys).unique <==> SameMembers(Listed(o.keys.unique), Listed(n.keys.unique))
  {
    hide Sort, SeqLe, SameMembers;
    if o.keys.unique.Some? { UniqueSortIff(o.keys.unique.value, n.keys.unique.value); }
    if o.keys.unique.None? { NothingListed<seq<string>>(); }
  }

  lemma NothingListed<T(!new)>()
    ensures SameMembers<T>([], [])
  {
  }

  lemma KeyPartsSeen(o: Object, n: Object)
    ensures (forall c :: !KeysDiffer(o, n, c)) <==>
              && (forall c :: !PrimaryDiffers(Listed(o.keys.primary), Listed(n.keys.primary), c))
              && (forall c :: !ForeignDiffers(ForeignTable(o), ForeignTable(n), c))
              && (forall c :: !UniqueDiffers(Uniques(o), Uniques(n), c))
  {
    hide PrimaryDiffers, ForeignDiffers, UniqueDiffers, ForeignTable, Uniques, Listed;
    if forall c :: !KeysDiffer(o, n, c) {
      forall c
        ensures !PrimaryDiffers(Listed(o.keys.primary), Listed(n.keys.primary), c)
        ensures !ForeignDiffers(ForeignTable(o), ForeignTable(n), c)
        ensures !UniqueDiffers(Uniques(o), Uniques(n), c)
      {
        assert !KeysDiffer(o, n, c);
      }
    }
  }

  lemma OrderedKeysParts(o: Object, n: Object)
    requires SameKeyLists(o, n)
    ensures OrderedKeys(o.keys) == OrderedKeys(n.keys) <==>
              && Listed(o.keys.primary) == Listed(n.keys.primary)
              && OrderedKeys(o.keys).foreign == OrderedKeys(n.keys).foreign && OrderedKeys(o.keys).unique == OrderedKeys(n.keys).unique
  {
    hide Sort;
  }

  lemma KeysSeenIff(o: Object, n: Object)
    requires ListedOnce(o) && ListedOnce(n) && SameKeyLists(o, n)
    ensures (forall c :: !KeysDiffer(o, n, c)) <==> OrderedKeys(o.keys) == OrderedKeys(n.keys)
  {
    hide Sort, PrimaryDiffers, ForeignDiffers, UniqueDiffers, ForeignTable, Uniques, SameMembers, OrderedKeys, KeysDiffer;
    PrimarySeenIff(Listed(o.keys.primary), Listed(n.keys.primary));
    ForeignSeenIff(o, n);
    UniqueSeenIff(Uniques(o), Uniques(n));
    SameUniques(o, n);
    ForeignPartIff(o, n);
    UniquePartIff(o, n);
    KeyPartsSeen(o, n);
    OrderedKeysParts(o, n);
  }

  // ---------------------------------------------------------------------------
  // Statistics

  lemma StatsSeenIff(o: Object, n: Object)
    requires o.id == n.id
    ensures (forall c :: !StatsDiffer(Included(o), o.stats, n.stats, c)) <==> StructuralProjection(o).stats == StructuralProjection(n).stats
  {
    hide Registry, Sort, OrderedKeys;
    var a, b := StructuralProjection(o).stats, StructuralProjection(n).stats;
    assert forall f :: Field(a, f) == if f in Included(o) then Field(o.stats, f) else None;
    assert forall f :: Field(b, f) == if f in Included(o) then Field(n.stats, f) else None;
    hide StructuralProjection, Included;
    if forall c :: !StatsDiffer(Included(o), o.stats, n.stats, c) {
      forall f | f in Included(o) ensures Field(o.stats, f) == Field(n.stats, f) { QuietField(o, n, f); }
      SameFields(a, b);
    }
    if a == b {
      forall f | f in Included(o) ensures Field(o.stats, f) == Field(n.stats, f) { assert Field(a, f) == Field(b, f); }
    }
  }

  lemma QuietField(o: Object, n: Object, f: string)
    requires f in Included(o) && forall c :: !StatsDiffer(Included(o), o.stats, n.stats, c)
    ensures Field(o.stats, f) == Field(n.stats, f)
  {
    hide Included;
    assert !StatsDiffer(Included(o), o.stats, n.stats, StatChange(f, Field(o.stats, f), Field(n.stats, f)));
  }

  lemma SameFields(a: Stats, b: Stats)
    requires forall f :: Field(a, f) == Field(b, f)
    ensures a == b
  {
    forall f ensures f in a <==> f in b { assert Field(a, f) == Field(b, f); }
    forall f | f in a ensures a[f] == b[f] { assert Field(a, f) == Field(b, f); }
  }

  // ---------------------------------------------------------------------------
  // Together

  /**
   Structural changes are always explained: with the same key lists present and every entry
   listed once under keys of its own, the comparison sees a difference if and only if the
   hashed structures differ.
   */
  lemma StructureExplained(o: Object, n: Object)
    requires o.id == n.id && ListedOnce(o) && ListedOnce(n) && SameKeyLists(o, n)
    ensures Visible(o, n) <==> StructuralProjection(o) != StructuralProjection(n)
  {
    hide StructuralProjection, ColumnsDiffer, KeysDiffer, StatsDiffer, Included, OrderedKeys;
    ColumnPartIff(o, n);
    KeysSeenIff(o, n);
    StatsSeenIff(o, n);
    ProjectionParts(o, n);
    PartsSeen(o, n);
  }

  /** With true hashes, the structural class is exactly where the comparison sees a difference. */
  lemma StructuralIffVisible(o: Object, n: Object)
    requires o.id == n.id && ListedOnce(o) && ListedOnce(n) && SameKeyLists(o, n)
    requires Known(o) && Some(o.schemaHash) == SchemaHash(o) && Some(n.schemaHash) == SchemaHash(n)
    ensures Classify(o, n) == Structural <==> Visible(o, n)
  {
    hide Classify, Visible, ListedOnce, Registry, SchemaHash, StructuralProjection;
    StructureExplained(o, n);
    StructuralIffProjectionsDiffer(o, n);
  }

  lemma ColumnPartIff(o: Object, n: Object)
    requires ListedOnce(o) && ListedOnce(n)
    ensures (forall c :: !ColumnsDiffer(ColumnTable(o), ColumnTable(n), c)) <==>
              Map(ShapeOf, Sort(ColumnLe, o.columns)) == Map(ShapeOf, Sort(ColumnLe, n.columns))
  {
    hide ColumnsDiffer, ColumnTable, Sort, SameShapes, SameMembers, Shapes;
    SortedShapesIff(o, n);
    TablesIff(o, n);
    NamedColumns(o);
    NamedColumns(n);
    ColumnsSeenIff(ColumnTable(o), ColumnTable(n));
  }

  lemma PartsSeen(o: Object, n: Object)
    ensures !Visible(o, n) <==>
              && (forall c :: !ColumnsDiffer(ColumnTable(o), ColumnTable(n), c))
              && (forall c :: !KeysDiffer(o, n, c))
              && (forall c :: !StatsDiffer(Included(o), o.stats, n.stats, c))
  {
    hide ColumnsDiffer, KeysDiffer, StatsDiffer, ColumnTable, Included;
    if !Visible(o, n) {
      forall c ensures !ColumnsDiffer(ColumnTable(o), ColumnTable(n), c) && !KeysDiffer(o, n, c) && !StatsDiffer(Included(o), o.stats, n.stats, c) {
        assert !Differs(o, n, c);
      }
    }
  }

  lemma ProjectionParts(o: Object, n: Object)
    requires o.id == n.id
    ensures StructuralProjection(o) == StructuralProjection(n) <==>
              && Map(ShapeOf, Sort(ColumnLe, o.columns)) == Map(ShapeOf, Sort(ColumnLe, n.columns))
              && OrderedKeys(o.keys) == OrderedKeys(n.keys)
              && StructuralProjection(o).stats == StructuralProjection(n).stats
  {
    hide Sort, OrderedKeys, Map, Included;
  }

  /** A list that is absent on one side and empty on the other changes the structure unseen. */
  lemma AbsentListUnseen(o: Object, n: Object)
    requires o.keys.unique.None? && n == o.(keys := o.keys.(unique := Some([])))
    ensures !Visible(o, n) && StructuralProjection(o) != StructuralProjection(n)
  {
    assert Sort(SeqLe, []) == [];
    assert OrderedKeys(o.keys).unique.None? && OrderedKeys(n.keys).unique.Some?;
    assert ColumnTable(o) == ColumnTable(n) && ForeignTable(o) == ForeignTable(n) && Uniques(o) == Uniques(n);
    hide ColumnTable, ForeignTable, Uniques, Included, Sort;
    forall c ensures !Differs(o, n, c) { NothingDiffers(o, n, c); }
  }

  lemma NothingDiffers(o: Object, n: Object, c: Change)
    requires ColumnTable(o) == ColumnTable(n) && ForeignTable(o) == ForeignTable(n) && Uniques(o) == Uniques(n)
    requires Listed(o.keys.primary) == Listed(n.keys.primary) && o.stats == n.stats
    ensures !Differs(o, n, c)
  {
    hide ColumnTable, ForeignTable, Uniques, Included;
  }

  // ---------------------------------------------------------------------------
  // Statistics in and out of the hash

  /** The statistics that belong to an object's structure, by kind. */
  predicate HashedStat(kind: string, f: string) {
    || (kind == "table" && f == "checks")
    || ((kind == "view" || kind == "materialized_view") && f == "definition")
    || (kind == "api_dimension" && f == "data_type")
    || (kind == "api_metric" && (f == "data_type" || f == "scope" || f == "formula"))
    || (kind == "api_event" && f == "is_key_event")
  }

  lemma IncludedIff(o: Object, f: string)
    ensures f in Included(o) <==> HashedStat(o.id.kind, f)
  {
  }

  /** With all else equal, a statistic changes the hash exactly if it is a structural one of the kind. */
  lemma StatHashedIff(o: Object, n: Object, f: string)
    requires Known(o) && n == o.(stats := n.stats) && Field(o.stats, f) != Field(n.stats, f)
    requires forall g :: g != f ==> Field(o.stats, g) == Field(n.stats, g)
    ensures SchemaHash(o) != SchemaHash(n) <==> HashedStat(o.id.kind, f)
  {
    IncludedIff(o, f);
    hide Sort, Included, HashedStat, Registry;
    var p, q := StructuralProjection(o).stats, StructuralProjection(n).stats;
    assert Included(n) == Included(o) by { SameKind(o, n); }
    assert forall g :: Field(p, g) == if g in Included(o) then Field(o.stats, g) else None;
    assert forall g :: Field(q, g) == if g in Included(o) then Field(n.stats, g) else None;
    if f in Included(o) {
      assert Field(p, f) != Field(q, f);
    } else {
      SameFields(p, q);
    }
  }

  lemma SameKind(o: Object, n: Object)
    requires o.id == n.id
    ensures Included(n) == Included(o)
  {
  }
}
