/** What a snapshot diff means: classes, emptiness, reversal, and agreement with full comparison. */
module DiffLaws {
  import opened Basics
  import opened Snapshots
  import opened Canonical
  import opened Ordering
  import opened SubDiffs
  import opened SnapshotDiffs

  // ---------------------------------------------------------------------------
  // Partition

  function ClassIds(d: SnapshotDiff, c: Classification): seq<Identity> {
    match c
    case Added => Ids(d.added)
    case Removed => Ids(d.removed)
    case Structural => Ids(d.structural)
    case MetadataOnly => Ids(d.metadataOnly)
    case Unchanged => d.idle
  }

  lemma ClassLists(was: Index, now: Index, d: SnapshotDiff, c: Classification)
    requires IsDiff(was, now, d)
    ensures Lists(ClassIds(d, c), InClass(was, now, c))
  {
    hide Lists, InClass, EachDiff, Ids;
  }

  /** The registered identities of a snapshot. */
  function Identities(objects: seq<Object>): set<Identity> {
    set o | o in objects && Known(o) :: o.id
  }

  lemma IndexIdentities(objects: seq<Object>, index: Index)
    requires IsIndex(objects, index)
    ensures index.Keys == Identities(objects)
  {
    hide Known;
  }

  /** Every registered identity of either snapshot is listed exactly once, in exactly one class. */
  lemma ClassesPartition(o: Snapshot, n: Snapshot, d: SnapshotDiff, i: Identity)
    requires DiffOf(o, n, d)
    ensures forall c :: Distinct(ClassIds(d, c)) && Sorted(IdentityLe, ClassIds(d, c))
    ensures forall c, e :: i in ClassIds(d, c) && i in ClassIds(d, e) ==> c == e
    ensures (exists c :: i in ClassIds(d, c)) <==> i in Identities(o.objects) + Identities(n.objects)
  {
    hide IsDiff, ClassIds, Classify, IsIndex, IdentityLe, Identities;
    var was, now :| DiffBetween(o, n, was, now, d);
    IndexIdentities(o.objects, was);
    IndexIdentities(n.objects, now);
    forall c ensures Lists(ClassIds(d, c), InClass(was, now, c)) { ClassLists(was, now, d, c); }
    assert forall c :: i in ClassIds(d, c) <==> i in InClass(was, now, c);
    if i in was && i in now {
      ClassifyRange(was[i], now[i]);
      assert i in InClass(was, now, Classify(was[i], now[i]));
    } else if i in was {
      assert i in InClass(was, now, Removed);
    } else if i in now {
      assert i in InClass(was, now, Added);
    }
  }

  lemma ClassifyRange(o: Object, n: Object)
    ensures Classify(o, n) != Added && Classify(o, n) != Removed
  {
  }

  /** An added object is additive and a removed one breaking, each with its own hash. */
  lemma OneSided(o: Snapshot, n: Snapshot, d: SnapshotDiff, x: ObjectDiff)
    requires DiffOf(o, n, d)
    ensures x in d.added ==>
              && x.severity == Some(Additive) && x.oldHash == None
              && exists b :: b in n.objects && b.id == x.id && x.newHash == Some(b.schemaHash)
    ensures x in d.removed ==>
              && x.severity == Some(Breaking) && x.newHash == None
              && exists a :: a in o.objects && a.id == x.id && x.oldHash == Some(a.schemaHash)
  {
    hide Lists, EachDiff, Known, Ids;
    var was, now :| DiffBetween(o, n, was, now, d);
    if x in d.added { assert now[x.id] in n.objects; }
    if x in d.removed { assert was[x.id] in o.objects; }
  }

  function PropertyOf(s: Snapshot, key: string): Option<string> {
    if s.sourceProperties.Some? && key in s.sourceProperties.value then Some(s.sourceProperties.value[key]) else None
  }

  /** Source properties count as changed exactly if some property does; absent properties are no properties. */
  lemma PropertiesChangedIff(o: Snapshot, n: Snapshot, d: SnapshotDiff)
    requires DiffOf(o, n, d)
    ensures d.sourcePropertiesChanged <==> exists key :: PropertyOf(o, key) != PropertyOf(n, key)
  {
    hide DiffBetween, Unknown;
    var a, b := Properties(o), Properties(n);
    if a != b {
      var key :| key in a.Keys + b.Keys && (key !in a || key !in b || a[key] != b[key]);
      assert PropertyOf(o, key) != PropertyOf(n, key);
    }
  }

  /** A renaming is suggested for a lost and a new column name exactly if type and place agree. */
  lemma RenamesExact(o: Object, n: Object, x: RenameCandidate)
    requires Keyed(ColumnName, o.columns) && Keyed(ColumnName, n.columns)
    ensures RenameSeen(ColumnTable(o), ColumnTable(n), x) <==>
              exists r, a :: r in o.columns && a in n.columns && Nameless(n, r.name) && Nameless(o, a.name)
                             && x.fromColumn == r.name && x.toColumn == a.name && x.kind == r.kind == a.kind && x.ordinal == r.ordinal == a.ordinal
  {
    forall c ensures ColumnsDiffer(ColumnTable(o), ColumnTable(n), ColumnRemoved(c)) <==> c in o.columns && Nameless(n, c.name) { LostColumn(o, n, c); }
    forall c ensures ColumnsDiffer(ColumnTable(o), ColumnTable(n), ColumnAdded(c)) <==> c in n.columns && Nameless(o, c.name) { GainedColumn(o, n, c); }
    hide ColumnsDiffer, ColumnTable, Nameless, Keyed;
    if r, a :| r in o.columns && a in n.columns && Nameless(n, r.name) && Nameless(o, a.name)
               && x.fromColumn == r.name && x.toColumn == a.name && x.kind == r.kind == a.kind && x.ordinal == r.ordinal == a.ordinal {
      assert MayBeRenamed(r, a) && x == Candidate(r, a);
    }
  }

  /** No column of the object has the name. */
  ghost predicate Nameless(o: Object, name: string) {
    forall c :: c in o.columns ==> c.name != name
  }

  lemma NamelessIff(o: Object, name: string)
    ensures Nameless(o, name) <==> name !in ColumnTable(o)
  {
    TableProps(ColumnName, o.columns);
    hide Table;
  }

  lemma LostColumn(o: Object, n: Object, c: Column)
    requires Keyed(ColumnName, o.columns)
    ensures ColumnsDiffer(ColumnTable(o), ColumnTable(n), ColumnRemoved(c)) <==> c in o.columns && Nameless(n, c.name)
  {
    TableOfKeyed(ColumnName, o.columns);
    TableProps(ColumnName, o.columns);
    NamelessIff(n, c.name);
    hide Table, Nameless, Keyed;
  }

  lemma GainedColumn(o: Object, n: Object, c: Column)
    requires Keyed(ColumnName, n.columns)
    ensures ColumnsDiffer(ColumnTable(o), ColumnTable(n), ColumnAdded(c)) <==> c in n.columns && Nameless(o, c.name)
  {
    TableOfKeyed(ColumnName, n.columns);
    TableProps(ColumnName, n.columns);
    NamelessIff(o, c.name);
    hide Table, Nameless, Keyed;
  }

  // ---------------------------------------------------------------------------
  // Emptiness

  predicate Empty(d: SnapshotDiff) {
    d.added == [] && d.removed == [] && d.structural == [] && d.metadataOnly == []
  }

  /** The registered objects in canonical form. */
  ghost function CanonicalObjects(objects: seq<Object>): set<Object> {
    set o | o in objects && Known(o) :: OrderedObject(o)
  }

  lemma OrderedKeepsIdentity(o: Object)
    ensures OrderedObject(o).id == o.id && OrderedObject(o).schemaHash == o.schemaHash
  {
  }

  lemma NoMembers(ds: seq<ObjectDiff>, members: set<Identity>)
    requires Lists(Ids(ds), members)
    ensures ds == [] <==> members == {}
  {
    hide IdentityLe;
    if ds != [] { assert Ids(ds)[0] in members; }
  }

  lemma NoClass(was: Index, now: Index, d: SnapshotDiff)
    requires IsDiff(was, now, d)
    ensures Empty(d) <==> was.Keys == now.Keys && forall i :: i in was && i in now ==> Classify(was[i], now[i]) == Unchanged
  {
    hide Classify, IsDiff, Lists, Ids;
    ClassLists(was, now, d, Added);
    ClassLists(was, now, d, Removed);
    ClassLists(was, now, d, Structural);
    ClassLists(was, now, d, MetadataOnly);
    NoMembers(d.added, InClass(was, now, Added));
    NoMembers(d.removed, InClass(was, now, Removed));
    NoMembers(d.structural, InClass(was, now, Structural));
    NoMembers(d.metadataOnly, InClass(was, now, MetadataOnly));
    forall i | i in was && i in now ensures Classify(was[i], now[i]) in {Structural, MetadataOnly, Unchanged} { ThreeWays(was[i], now[i]); }
    assert was.Keys == now.Keys <==> InClass(was, now, Added) == {} && InClass(was, now, Removed) == {};
    if Empty(d) {
      forall i | i in was && i in now ensures Classify(was[i], now[i]) == Unchanged {
        assert i !in InClass(was, now, Structural) && i !in InClass(was, now, MetadataOnly);
      }
    }
  }

  lemma ThreeWays(o: Object, n: Object)
    ensures Classify(o, n) in {Structural, MetadataOnly, Unchanged}
    ensures Classify(o, n) == Unchanged <==> OrderedObject(o) == OrderedObject(n)
  {
    OrderedKeepsIdentity(o);
    OrderedKeepsIdentity(n);
    hide OrderedObject;
  }

  /** The hash-first comparison finds nothing exactly when full comparison of the canonical objects finds nothing. */
  lemma EmptyIffSameObjects(o: Snapshot, n: Snapshot, d: SnapshotDiff)
    requires DiffOf(o, n, d)
    ensures Empty(d) <==> CanonicalObjects(o.objects) == CanonicalObjects(n.objects)
  {
    hide IsDiff, Classify, Empty, Known;
    var was, now :| DiffBetween(o, n, was, now, d);
    NoClass(was, now, d);
    forall i | i in was && i in now ensures Classify(was[i], now[i]) == Unchanged <==> OrderedObject(was[i]) == OrderedObject(now[i]) {
      ThreeWays(was[i], now[i]);
    }
    CanonicalByIndex(o.objects, was);
    CanonicalByIndex(n.objects, now);
    SameIndexes(was, now);
  }

  ghost function CanonicalIndex(index: Index): set<Object> {
    set i | i in index :: OrderedObject(index[i])
  }

  lemma CanonicalByIndex(objects: seq<Object>, index: Index)
    requires IsIndex(objects, index)
    ensures CanonicalObjects(objects) == CanonicalIndex(index)
    ensures forall i :: i in index ==> index[i].id == i
  {
    hide OrderedObject, Known;
  }

  lemma SameIndexes(was: Index, now: Index)
    requires forall i :: i in was ==> was[i].id == i
    requires forall i :: i in now ==> now[i].id == i
    ensures CanonicalIndex(was) == CanonicalIndex(now) <==>
              was.Keys == now.Keys && forall i :: i in was && i in now ==> OrderedObject(was[i]) == OrderedObject(now[i])
  {
    if CanonicalIndex(was) == CanonicalIndex(now) {
      forall i | i in was ensures i in now && OrderedObject(was[i]) == OrderedObject(now[i]) { InOther(was, now, i); }
      forall i | i in now ensures i in was { InOther(now, was, i); }
    }
  }

  lemma InOther(was: Index, now: Index, i: Identity)
    requires forall k :: k in now ==> now[k].id == k
    requires i in was && was[i].id == i && CanonicalIndex(was) == CanonicalIndex(now)
    ensures i in now && OrderedObject(was[i]) == OrderedObject(now[i])
  {
    assert OrderedObject(was[i]) in CanonicalIndex(now);
    var k :| k in now && OrderedObject(now[k]) == OrderedObject(was[i]);
    OrderedKeepsIdentity(now[k]);
    OrderedKeepsIdentity(was[i]);
  }

  // ---------------------------------------------------------------------------
  // Reversal

  function Reverse(c: Classification): Classification {
    match c case Added => Removed case Removed => Added case _ => c
  }

  lemma ClassifySymmetric(o: Object, n: Object)
    ensures Classify(o, n) == Classify(n, o)
  {
  }

  lemma SameLists(a: seq<Identity>, b: seq<Identity>, members: set<Identity>)
    requires Lists(a, members) && Lists(b, members)
    ensures a == b
  {
    IdentityOrder();
    hide IdentityLe;
    SortedSetUnique(IdentityLe, a, b);
  }

  lemma IndexUnique(objects: seq<Object>, a: Index, b: Index)
    requires IsIndex(objects, a) && IsIndex(objects, b)
    ensures a == b
  {
    hide Known;
    IndexIdentities(objects, a);
    IndexIdentities(objects, b);
  }

  /** Swapping the snapshots exchanges added with removed and keeps the other classes. */
  lemma SwapExchanges(o: Snapshot, n: Snapshot, d: SnapshotDiff, e: SnapshotDiff, c: Classification)
    requires DiffOf(o, n, d) && DiffOf(n, o, e)
    ensures ClassIds(e, Reverse(c)) == ClassIds(d, c)
  {
    hide IsDiff, IsIndex, Lists, ClassIds;
    var was, now :| DiffBetween(o, n, was, now, d);
    var now', was' :| DiffBetween(n, o, now', was', e);
    IndexUnique(o.objects, was, was');
    IndexUnique(n.objects, now, now');
    ClassLists(was, now, d, c);
    ClassLists(now, was, e, Reverse(c));
    assert InClass(now, was, Reverse(c)) == InClass(was, now, c) by {
      forall i | i in was && i in now ensures Classify(was[i], now[i]) == Classify(now[i], was[i]) { ClassifySymmetric(was[i], now[i]); }
    }
    SameLists(ClassIds(d, c), ClassIds(e, Reverse(c)), InClass(was, now, c));
  }

  /** The same difference seen from the other side. */
  function Opposite(c: Change): Change {
    match c
    case ColumnAdded(x) => ColumnRemoved(x)
    case ColumnRemoved(x) => ColumnAdded(x)
    case ColumnTypeChanged(k, f, t) => ColumnTypeChanged(k, t, f)
    case NullableTightened(k) => NullableLoosened(k)
    case NullableLoosened(k) => NullableTightened(k)
    case DefaultChanged(k, f, t) => DefaultChanged(k, t, f)
    case OrdinalChanged(k, f, t) => OrdinalChanged(k, t, f)
    case PrimaryAdded(k) => PrimaryRemoved(k)
    case PrimaryRemoved(k) => PrimaryAdded(k)
    case PrimaryAltered(f, t) => PrimaryAltered(t, f)
    case ForeignAdded(k) => ForeignRemoved(k)
    case ForeignRemoved(k) => ForeignAdded(k)
    case ForeignAltered(f, t) => ForeignAltered(t, f)
    case UniqueAdded(k) => UniqueRemoved(k)
    case UniqueRemoved(k) => UniqueAdded(k)
    case DefinitionChanged(f, t) => DefinitionChanged(t, f)
    case StatChanged(s, f, t) => StatChanged(s, t, f)
  }

  lemma ColumnsOpposite(o: map<string, Column>, n: map<string, Column>, c: Change)
    ensures ColumnsDiffer(o, n, c) ==> ColumnsDiffer(n, o, Opposite(c))
  {
    if ColumnsDiffer(o, n, c) && !c.ColumnAdded? && !c.ColumnRemoved? {
      var k :| k in o && k in n && ColumnDiffers(k, o[k], n[k], c);
      assert ColumnDiffers(k, n[k], o[k], Opposite(c));
    }
  }

  lemma DiffersOneWay(o: Object, n: Object, c: Change)
    requires o.id == n.id && Differs(o, n, c)
    ensures Differs(n, o, Opposite(c)) && Opposite(Opposite(c)) == c
  {
    hide ColumnTable, ForeignTable, Uniques, Registry, ColumnsDiffer;
    ColumnsOpposite(ColumnTable(o), ColumnTable(n), c);
  }

  /** The field-level comparison is symmetric: every difference is reported from both sides. */
  lemma DiffersOpposite(o: Object, n: Object, c: Change)
    requires o.id == n.id
    ensures Differs(o, n, c) <==> Differs(n, o, Opposite(c))
  {
    hide Differs, Opposite;
    if Differs(o, n, c) { DiffersOneWay(o, n, c); }
    if Differs(n, o, Opposite(c)) {
      DiffersOneWay(n, o, Opposite(c));
      OppositeTwice(c);
    }
  }

  lemma OppositeTwice(c: Change)
    ensures Opposite(Opposite(c)) == c
  {
  }

  // ---------------------------------------------------------------------------
  // Agreement of the hashes with the structures

  /** With true hashes the structural class is decided by the structures themselves. */
  lemma StructuralIffProjectionsDiffer(o: Object, n: Object)
    requires Known(o) && Known(n) && Some(o.schemaHash) == SchemaHash(o) && Some(n.schemaHash) == SchemaHash(n)
    ensures Classify(o, n) == Structural <==> StructuralProjection(o) != StructuralProjection(n)
  {
    hide StructuralProjection, Registry, OrderedObject;
  }

  ghost predicate Registered(o: Object) {
    forall f :: f in o.stats ==> f in Included(o) || f in Excluded(o)
  }

  lemma SameStats(o: Object, n: Object)
    requires o.id == n.id && Registered(o) && Registered(n)
    requires StructuralProjection(o).stats == StructuralProjection(n).stats
    requires forall f :: f in Excluded(o) ==> Field(o.stats, f) == Field(n.stats, f)
    ensures o.stats == n.stats
  {
    hide Registry, Sort, OrderedKeys;
    var a, b := StructuralProjection(o).stats, StructuralProjection(n).stats;
    forall f ensures Field(o.stats, f) == Field(n.stats, f) {
      if f in Included(o) {
        assert Field(a, f) == Field(o.stats, f) && Field(b, f) == Field(n.stats, f);
      }
    }
    forall f ensures f in o.stats <==> f in n.stats { assert Field(o.stats, f) == Field(n.stats, f); }
    forall f | f in o.stats ensures o.stats[f] == n.stats[f] { assert Field(o.stats, f) == Field(n.stats, f); }
  }

  lemma SameColumns(o: Object, n: Object)
    requires Keyed(ColumnName, o.columns) && Keyed(ColumnName, n.columns)
    requires Map(ShapeOf, Sort(ColumnLe, o.columns)) == Map(ShapeOf, Sort(ColumnLe, n.columns))
    requires forall k :: k in ColumnTable(o) && k in ColumnTable(n) ==> ColumnTable(o)[k].description == ColumnTable(n)[k].description
    ensures Sort(ColumnLe, o.columns) == Sort(ColumnLe, n.columns)
  {
    TableOfKeyed(ColumnName, o.columns);
    TableOfKeyed(ColumnName, n.columns);
    SortMembers(ColumnLe, o.columns);
    SortMembers(ColumnLe, n.columns);
    hide Sort, Table, Keyed;
    var a, b := Sort(ColumnLe, o.columns), Sort(ColumnLe, n.columns);
    assert |a| == |Map(ShapeOf, a)| == |Map(ShapeOf, b)| == |b|;
    forall i | 0 <= i < |a| ensures a[i] == b[i] {
      assert Map(ShapeOf, a)[i] == Map(ShapeOf, b)[i];
      assert a[i] in o.columns && b[i] in n.columns;
      assert ColumnTable(o)[a[i].name] == a[i] && ColumnTable(n)[b[i].name] == b[i];
    }
  }

  /**
   Metadata-only changes are always explained: on registered statistics and distinct column
   names, two objects of one structure have an empty list of metadata changes exactly when
   their canonical forms are equal.
   */
  lemma MetadataExplained(o: Object, n: Object, ms: seq<MetadataChange>)
    requires o.id == n.id && o.schemaHash == n.schemaHash && StructuralProjection(o) == StructuralProjection(n)
    requires Registered(o) && Registered(n) && Keyed(ColumnName, o.columns) && Keyed(ColumnName, n.columns)
    requires RecordsMetadata(o, n, ms)
    ensures ms == [] <==> OrderedObject(o) == OrderedObject(n)
  {
    hide Registry, Registered, Keyed, ColumnTable, Sort;
    if ms == [] {
      assert forall m :: !MetadataDiffers(o, n, m);
      assert !MetadataDiffers(o, n, Description);
      forall k | k in ColumnTable(o) && k in ColumnTable(n) ensures ColumnTable(o)[k].description == ColumnTable(n)[k].description {
        assert !MetadataDiffers(o, n, ColumnDescription(k));
      }
      forall f | f in Excluded(o) ensures Field(o.stats, f) == Field(n.stats, f) {
        assert !MetadataDiffers(o, n, StatField(f));
      }
      SameStats(o, n);
      SameColumns(o, n);
    }
    if ms != [] {
      assert ms[0] in ms;
      DifferenceShows(o, n, ms[0]);
    }
  }

  lemma DifferenceShows(o: Object, n: Object, m: MetadataChange)
    requires Keyed(ColumnName, o.columns) && Keyed(ColumnName, n.columns) && MetadataDiffers(o, n, m)
    ensures OrderedObject(o) != OrderedObject(n)
  {
    hide ColumnTable, Sort, Keyed, Excluded;
    if Sort(ColumnLe, o.columns) == Sort(ColumnLe, n.columns) { SameTables(o, n); }
  }

  lemma SameTables(o: Object, n: Object)
    requires Keyed(ColumnName, o.columns) && Keyed(ColumnName, n.columns) && Sort(ColumnLe, o.columns) == Sort(ColumnLe, n.columns)
    ensures ColumnTable(o) == ColumnTable(n)
  {
    TableOfKeyed(ColumnName, o.columns);
    TableOfKeyed(ColumnName, n.columns);
    SortMembers(ColumnLe, o.columns);
    SortMembers(ColumnLe, n.columns);
    NamedColumns(o);
    NamedColumns(n);
    hide Sort, Table, Keyed;
    assert forall c :: c in o.columns <==> c in n.columns;
  }
}
