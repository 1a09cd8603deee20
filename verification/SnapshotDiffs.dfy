/** `snapshot/diff.py`: the classification of every identity of two snapshots. */
module SnapshotDiffs {
  import opened Basics
  import opened Snapshots
  import opened Canonical
  import opened Ordering
  import opened SubDiffs

  // ---------------------------------------------------------------------------
  // Severity

  predicate HasSeverity(subs: seq<SubDiff>, v: Severity) {
    exists s :: s in subs && s.severity == v
  }

  function Worst(subs: seq<SubDiff>): Severity {
    if HasSeverity(subs, Breaking) then Breaking
    else if HasSeverity(subs, AdditiveWithNote) then AdditiveWithNote
    else Additive
  }

  function Rank(v: Severity): int {
    match v case Additive => 1 case AdditiveWithNote => 2 case Breaking => 3
  }

  method MaxSeverity(subs: seq<SubDiff>) returns (v: Severity)
    requires subs != []
    ensures v == Worst(subs)
  {
    v := subs[0].severity;
    for i := 1 to |subs|
      invariant HasSeverity(subs[..i], v) && forall k :: 0 <= k < i ==> Rank(subs[k].severity) <= Rank(v)
    {
      if Rank(v) < Rank(subs[i].severity) { v := subs[i].severity; }
      assert subs[i] in subs[..i + 1] && forall s :: s in subs[..i] ==> s in subs[..i + 1];
    }
  }

  // ---------------------------------------------------------------------------
  // One object

  datatype Classification = Added | Removed | Structural | MetadataOnly | Unchanged

  /** A place where only metadata differs. */
  datatype MetadataChange = Description | ColumnDescription(name: string) | StatField(name: string)

  datatype ObjectDiff = ObjectDiff(
    id: Identity, classification: Classification, severity: Option<Severity>, oldHash: Option<Hash>, newHash: Option<Hash>,
    subs: seq<SubDiff>, candidates: seq<RenameCandidate>, metadata: seq<MetadataChange>)

  predicate MetadataDiffers(o: Object, n: Object, m: MetadataChange) {
    match m
    case Description => o.description != n.description
    case ColumnDescription(k) => k in ColumnTable(o) && k in ColumnTable(n) && ColumnTable(o)[k].description != ColumnTable(n)[k].description
    case StatField(f) => f in Excluded(o) && Field(o.stats, f) != Field(n.stats, f)
  }

  ghost predicate RecordsMetadata(o: Object, n: Object, ms: seq<MetadataChange>) {
    forall m :: m in ms <==> MetadataDiffers(o, n, m)
  }

  method MetadataChanges(o: Object, n: Object) returns (changes: seq<MetadataChange>)
    ensures RecordsMetadata(o, n, changes)
  {
    var oldColumns, newColumns := ColumnTable(o), ColumnTable(n);
    StrLeOrders();
    hide ColumnTable, Excluded, StrLe;
    changes := if o.description != n.description then [Description] else [];
    var names := SortedSet(StrLe, oldColumns.Keys * newColumns.Keys);
    for i := 0 to |names|
      invariant forall m :: m in changes <==> MetadataDiffers(o, n, m) && (m.Description? || (m.ColumnDescription? && m.name in names[..i]))
    {
      assert names[i] in names;
      if oldColumns[names[i]].description != newColumns[names[i]].description { changes := changes + [ColumnDescription(names[i])]; }
      assert names[..i + 1] == names[..i] + [names[i]];
    }
    assert names[..|names|] == names;
    var fields := SortedSet(StrLe, Excluded(o));
    for i := 0 to |fields|
      invariant forall m :: m in changes <==> MetadataDiffers(o, n, m) && (!m.StatField? || m.name in fields[..i])
    {
      assert fields[i] in fields;
      if Field(o.stats, fields[i]) != Field(n.stats, fields[i]) { changes := changes + [StatField(fields[i])]; }
      assert fields[..i + 1] == fields[..i] + [fields[i]];
    }
    assert fields[..|fields|] == fields;
  }

  /** The hashes decide between a structural change and the rest, the canonical forms between metadata and no change. */
  function Classify(o: Object, n: Object): Classification {
    if o.schemaHash != n.schemaHash then Structural
    else if OrderedObject(o) != OrderedObject(n) then MetadataOnly
    else Unchanged
  }

  ghost predicate IsObjectDiff(o: Object, n: Object, d: ObjectDiff) {
    && d.id == o.id && d.classification == Classify(o, n)
    && match d.classification
       case Structural =>
         && Records(d.subs, c => Differs(o, n, c))
         && d.severity == Some(if d.subs == [] then Breaking else Worst(d.subs))
         && (forall x :: x in d.candidates <==> RenameSeen(ColumnTable(o), ColumnTable(n), x))
         && d.oldHash == Some(o.schemaHash) && d.newHash == Some(n.schemaHash) && d.metadata == []
       case MetadataOnly =>
         RecordsMetadata(o, n, d.metadata)
         && d == ObjectDiff(o.id, MetadataOnly, None, Some(o.schemaHash), Some(n.schemaHash), [], [], d.metadata)
       case _ => d == ObjectDiff(o.id, Unchanged, None, None, None, [], [], [])
  }

  method DiffObject(o: Object, n: Object) returns (d: ObjectDiff)
    ensures IsObjectDiff(o, n, d)
  {
    hide OrderedObject, ColumnsDiffer, KeysDiffer, StatsDiffer, RecordsMetadata, RenameSeen, Sub, ColumnTable, Worst;
    if o.schemaHash != n.schemaHash {
      var subs, candidates := ColumnSubDiffs(o, n);
      var keys := KeySubDiffs(o, n);
      var stats := StatsSubDiffs(Included(o), o.stats, n.stats);
      subs := subs + keys + stats;
      assert Records(subs, c => Differs(o, n, c));
      var severity := Breaking;
      if subs != [] { severity := MaxSeverity(subs); }
      return ObjectDiff(o.id, Structural, Some(severity), Some(o.schemaHash), Some(n.schemaHash), subs, candidates, []);
    }
    if OrderedObject(o) != OrderedObject(n) {
      var changes := MetadataChanges(o, n);
      return ObjectDiff(o.id, MetadataOnly, None, Some(o.schemaHash), Some(n.schemaHash), [], [], changes);
    }
    return ObjectDiff(o.id, Unchanged, None, None, None, [], [], []);
  }

  // ---------------------------------------------------------------------------
  // Indexes

  type Index = map<Identity, Object>

  /** Two registered objects of one identity. */
  ghost predicate Duplicates(objects: seq<Object>) {
    exists i, j :: 0 <= i < j < |objects| && Known(objects[i]) && objects[i].id == objects[j].id
  }

  ghost predicate IsIndex(objects: seq<Object>, index: Index) {
    && (forall o :: o in objects && Known(o) ==> o.id in index && index[o.id] == o)
    && (forall i :: i in index ==> index[i] in objects && Known(index[i]) && index[i].id == i)
  }

  predicate Unknown(objects: seq<Object>, i: Identity) {
    exists o :: o in objects && !Known(o) && o.id == i
  }

  lemma IndexSkips(objects: seq<Object>, o: Object, index: Index)
    requires !Duplicates(objects) && IsIndex(objects, index) && !Known(o)
    ensures !Duplicates(objects + [o]) && IsIndex(objects + [o], index)
  {
    hide Registry;
  }

  lemma IndexGrows(objects: seq<Object>, o: Object, index: Index)
    requires !Duplicates(objects) && IsIndex(objects, index) && Known(o) && o.id !in index
    ensures !Duplicates(objects + [o]) && IsIndex(objects + [o], index[o.id := o])
  {
    hide Registry;
    var all := objects + [o];
    forall i, j | 0 <= i < j < |all| && Known(all[i]) ensures all[i].id != all[j].id {
      if j == |objects| { assert objects[i] in objects; }
    }
  }

  lemma UnknownMore(objects: seq<Object>, o: Object, x: Identity)
    ensures Unknown(objects + [o], x) <==> Unknown(objects, x) || (!Known(o) && o.id == x)
  {
    hide Registry;
  }

  method IndexObjects(objects: seq<Object>, skipped: seq<Identity>) returns (index: Option<Index>, skipped': seq<Identity>)
    ensures index.None? <==> Duplicates(objects)
    ensures index.Some? ==> IsIndex(objects, index.value)
    ensures index.Some? ==> forall i :: i in skipped' <==> i in skipped || Unknown(objects, i)
  {
    hide Registry, Duplicates, Unknown, IsIndex;
    var found: Index := map[];
    skipped' := skipped;
    EmptyIndex();
    for i := 0 to |objects|
      invariant !Duplicates(objects[..i]) && IsIndex(objects[..i], found)
      invariant forall x :: x in skipped' <==> x in skipped || Unknown(objects[..i], x)
    {
      var o := objects[i];
      assert objects[..i + 1] == objects[..i] + [o];
      forall x ensures Unknown(objects[..i + 1], x) <==> Unknown(objects[..i], x) || (!Known(o) && o.id == x) { UnknownMore(objects[..i], o, x); }
      if !Known(o) {
        IndexSkips(objects[..i], o, found);
        if o.id !in skipped' { skipped' := skipped' + [o.id]; }
      } else {
        if o.id in found {
          DuplicateFound(objects, i, found);
          return None, skipped';
        }
        IndexGrows(objects[..i], o, found);
        found := found[o.id := o];
      }
    }
    assert objects[..|objects|] == objects;
    return Some(found), skipped';
  }

  lemma EmptyIndex()
    ensures !Duplicates([]) && IsIndex([], map[]) && forall i :: !Unknown([], i)
  {
  }

  lemma DuplicateFound(objects: seq<Object>, i: nat, found: Index)
    requires i < |objects| && IsIndex(objects[..i], found) && objects[i].id in found
    ensures Duplicates(objects)
  {
    hide Registry;
    var o := found[objects[i].id];
    var k :| 0 <= k < i && objects[..i][k] == o;
    assert objects[k] == o;
  }

  // ---------------------------------------------------------------------------
  // Two snapshots

  datatype SnapshotDiff = SnapshotDiff(
    system: string, added: seq<ObjectDiff>, removed: seq<ObjectDiff>, structural: seq<ObjectDiff>, metadataOnly: seq<ObjectDiff>,
    idle: seq<Identity>, skipped: seq<Identity>, sourcePropertiesChanged: bool, finalized: bool)

  datatype DiffResult = Ok(diff: SnapshotDiff) | DifferentSystems | HashMismatch(id: Identity) | DuplicateIdentity

  /** The stored hashes are those recomputed. */
  ghost predicate HashesHold(s: Snapshot) {
    forall o :: o in s.objects && Known(o) ==> Some(o.schemaHash) == SchemaHash(o)
  }

  function Ids(ds: seq<ObjectDiff>): seq<Identity> {
    Map((d: ObjectDiff) => d.id, ds)
  }

  /** Each member of the set once, in identity order. */
  ghost predicate Lists(ids: seq<Identity>, members: set<Identity>) {
    Sorted(IdentityLe, ids) && Distinct(ids) && forall i :: i in ids <==> i in members
  }

  function InClass(was: Index, now: Index, c: Classification): set<Identity> {
    match c
    case Added => now.Keys - was.Keys
    case Removed => was.Keys - now.Keys
    case _ => set i | i in was && i in now && Classify(was[i], now[i]) == c
  }

  function AddedDiff(o: Object): ObjectDiff {
    ObjectDiff(o.id, Added, Some(Additive), None, Some(o.schemaHash), [], [], [])
  }

  function RemovedDiff(o: Object): ObjectDiff {
    ObjectDiff(o.id, Removed, Some(Breaking), Some(o.schemaHash), None, [], [], [])
  }

  ghost predicate EachDiff(was: Index, now: Index, ds: seq<ObjectDiff>) {
    forall d :: d in ds ==> d.id in was && d.id in now && IsObjectDiff(was[d.id], now[d.id], d)
  }

  ghost predicate IsDiff(was: Index, now: Index, d: SnapshotDiff) {
    && Lists(Ids(d.added), InClass(was, now, Added)) && (forall x :: x in d.added ==> x.id in now && x == AddedDiff(now[x.id]))
    && Lists(Ids(d.removed), InClass(was, now, Removed)) && (forall x :: x in d.removed ==> x.id in was && x == RemovedDiff(was[x.id]))
    && Lists(Ids(d.structural), InClass(was, now, Structural)) && EachDiff(was, now, d.structural)
    && Lists(Ids(d.metadataOnly), InClass(was, now, MetadataOnly)) && EachDiff(was, now, d.metadataOnly)
    && Lists(d.idle, InClass(was, now, Unchanged))
  }

  function Properties(s: Snapshot): map<string, string> {
    if s.sourceProperties.Some? then s.sourceProperties.value else map[]
  }

  method VerifyHashes(s: Snapshot) returns (bad: Option<Identity>)
    ensures bad.None? <==> HashesHold(s)
  {
    hide Known, SchemaHash;
    for i := 0 to |s.objects|
      invariant forall k :: 0 <= k < i && Known(s.objects[k]) ==> Some(s.objects[k].schemaHash) == SchemaHash(s.objects[k])
    {
      var o := s.objects[i];
      if Known(o) && Some(o.schemaHash) != SchemaHash(o) {
        assert o in s.objects;
        return Some(o.id);
      }
    }
    return None;
  }

  lemma IdsSnoc(ds: seq<ObjectDiff>, d: ObjectDiff)
    ensures Ids(ds + [d]) == Ids(ds) + [d.id]
  {
  }

  /** Diffs of a sorted list of identities, one each. */
  method OneSidedDiffs(index: Index, ids: seq<Identity>, added: bool) returns (ds: seq<ObjectDiff>)
    requires forall i :: i in ids ==> i in index && index[i].id == i
    ensures Ids(ds) == ids
    ensures forall x :: x in ds ==> x.id in index && x == if added then AddedDiff(index[x.id]) else RemovedDiff(index[x.id])
  {
    ds := [];
    for k := 0 to |ids|
      invariant Ids(ds) == ids[..k]
      invariant forall x :: x in ds ==> x.id in index && x == if added then AddedDiff(index[x.id]) else RemovedDiff(index[x.id])
    {
      assert ids[k] in ids;
      var o := index[ids[k]];
      var d := if added then AddedDiff(o) else RemovedDiff(o);
      IdsSnoc(ds, d);
      ds := ds + [d];
    }
  }

  /** The identities of one class among those looked at. */
  ghost predicate ListsAmong(ids: seq<Identity>, seen: seq<Identity>, was: Index, now: Index, c: Classification) {
    && Sorted(IdentityLe, ids) && Distinct(ids)
    && forall i :: i in ids <==> i in seen && i in was && i in now && Classify(was[i], now[i]) == c
  }

  lemma AmongNext(ids: seq<Identity>, all: seq<Identity>, k: nat, was: Index, now: Index, c: Classification)
    requires k < |all| && Sorted(IdentityLe, all) && Distinct(all) && all[k] in was && all[k] in now
    requires ListsAmong(ids, all[..k], was, now, c)
    ensures ListsAmong(if Classify(was[all[k]], now[all[k]]) == c then ids + [all[k]] else ids, all[..k + 1], was, now, c)
  {
    hide Classify, IdentityLe;
    assert all[..k + 1] == all[..k] + [all[k]];
    forall j | 0 <= j < |ids| ensures IdentityLe(ids[j], all[k]) && ids[j] != all[k] {
      assert ids[j] in all[..k];
    }
  }

  /** The diffs of one class among those looked at. */
  ghost predicate DiffsAmong(ds: seq<ObjectDiff>, seen: seq<Identity>, was: Index, now: Index, c: Classification) {
    ListsAmong(Ids(ds), seen, was, now, c) && EachDiff(was, now, ds)
  }

  lemma DiffsNext(ds: seq<ObjectDiff>, all: seq<Identity>, k: nat, was: Index, now: Index, c: Classification, d: ObjectDiff)
    requires k < |all| && Sorted(IdentityLe, all) && Distinct(all) && all[k] in was && all[k] in now && was[all[k]].id == all[k]
    requires DiffsAmong(ds, all[..k], was, now, c) && IsObjectDiff(was[all[k]], now[all[k]], d)
    ensures DiffsAmong(if d.classification == c then ds + [d] else ds, all[..k + 1], was, now, c)
  {
    DiffHead(was[all[k]], now[all[k]], d);
    hide ListsAmong, IdentityLe, Classify, Sorted, Distinct, Ids, IsObjectDiff;
    AmongNext(Ids(ds), all, k, was, now, c);
    IdsSnoc(ds, d);
  }

  method CommonDiffs(was: Index, now: Index, ids: seq<Identity>) returns (structural: seq<ObjectDiff>, metadataOnly: seq<ObjectDiff>, idle: seq<Identity>)
    requires Sorted(IdentityLe, ids) && Distinct(ids)
    requires forall i :: i in ids ==> i in was && i in now && was[i].id == i
    ensures DiffsAmong(structural, ids, was, now, Structural)
    ensures DiffsAmong(metadataOnly, ids, was, now, MetadataOnly)
    ensures ListsAmong(idle, ids, was, now, Unchanged)
  {
    structural, metadataOnly, idle := [], [], [];
    assert forall c :: ListsAmong([], [], was, now, c);
    NoIds();
    hide ListsAmong, DiffsAmong, IdentityLe, Classify, Sorted, Distinct, Ids, IsObjectDiff, EachDiff;
    NoneAmong(was, now, Structural);
    NoneAmong(was, now, MetadataOnly);
    for k := 0 to |ids|
      invariant DiffsAmong(structural, ids[..k], was, now, Structural)
      invariant DiffsAmong(metadataOnly, ids[..k], was, now, MetadataOnly)
      invariant ListsAmong(idle, ids[..k], was, now, Unchanged)
    {
      assert ids[k] in ids;
      var d := DiffObject(was[ids[k]], now[ids[k]]);
      DiffHead(was[ids[k]], now[ids[k]], d);
      DiffsNext(structural, ids, k, was, now, Structural, d);
      DiffsNext(metadataOnly, ids, k, was, now, MetadataOnly, d);
      AmongNext(idle, ids, k, was, now, Unchanged);
      if d.classification == Structural {
        structural := structural + [d];
      } else if d.classification == MetadataOnly {
        metadataOnly := metadataOnly + [d];
      } else {
        idle := idle + [ids[k]];
      }
    }
    assert ids[..|ids|] == ids;
  }

  lemma NoneAmong(was: Index, now: Index, c: Classification)
    ensures DiffsAmong([], [], was, now, c)
  {
    NoIds();
    hide IsObjectDiff, Classify, IdentityLe;
  }

  lemma NoIds()
    ensures Ids([]) == []
  {
  }

  lemma DiffHead(o: Object, n: Object, d: ObjectDiff)
    requires IsObjectDiff(o, n, d)
    ensures d.id == o.id && d.classification == Classify(o, n)
    ensures d.classification == Structural || d.classification == MetadataOnly || d.classification == Unchanged
  {
  }

  lemma AmongAll(ids: seq<Identity>, all: seq<Identity>, was: Index, now: Index, c: Classification)
    requires ListsAmong(ids, all, was, now, c) && (c == Structural || c == MetadataOnly || c == Unchanged)
    requires forall i :: i in all <==> i in was && i in now
    ensures Lists(ids, InClass(was, now, c))
  {
    hide Classify;
  }

  lemma IndexedById(objects: seq<Object>, index: Index)
    requires IsIndex(objects, index)
    ensures forall i :: i in index ==> index[i].id == i
  {
  }

  /** The five classes of two indexes. */
  method CompareIndexes(was: Index, now: Index, system: string) returns (d: SnapshotDiff)
    requires forall i :: i in was ==> was[i].id == i
    requires forall i :: i in now ==> now[i].id == i
    ensures IsDiff(was, now, d) && d.system == system && !d.finalized
  {
    IdentityOrder();
    hide IdentityLe, Sorted, Distinct, Classify, IsObjectDiff, ListsAmong, Ids, AddedDiff, RemovedDiff;
    var newIds := SortedSet(IdentityLe, now.Keys - was.Keys);
    var added := OneSidedDiffs(now, newIds, true);
    var goneIds := SortedSet(IdentityLe, was.Keys - now.Keys);
    var removed := OneSidedDiffs(was, goneIds, false);
    var common := SortedSet(IdentityLe, was.Keys * now.Keys);
    var structural, metadataOnly, idle := CommonDiffs(was, now, common);
    AmongAll(Ids(structural), common, was, now, Structural);
    AmongAll(Ids(metadataOnly), common, was, now, MetadataOnly);
    AmongAll(idle, common, was, now, Unchanged);
    d := SnapshotDiff(system, added, removed, structural, metadataOnly, idle, [], false, false);
  }

  method DiffSnapshots(o: Snapshot, n: Snapshot, verify: bool) returns (r: DiffResult)
    ensures r.DifferentSystems? <==> o.system != n.system
    ensures r.HashMismatch? <==> o.system == n.system && verify && !(HashesHold(o) && HashesHold(n))
    ensures r.DuplicateIdentity? <==>
              o.system == n.system && (verify ==> HashesHold(o) && HashesHold(n)) && (Duplicates(o.objects) || Duplicates(n.objects))
    ensures r.Ok? ==> DiffOf(o, n, r.diff)
  {
    if o.system != n.system { return DifferentSystems; }
    hide HashesHold, Duplicates, IsIndex, IsDiff, Unknown;
    if verify {
      var bad := VerifyHashes(o);
      if bad.Some? { return HashMismatch(bad.value); }
      bad := VerifyHashes(n);
      if bad.Some? { return HashMismatch(bad.value); }
    }
    var was, skipped := IndexObjects(o.objects, []);
    if was.None? { return DuplicateIdentity; }
    var now, skipped' := IndexObjects(n.objects, skipped);
    if now.None? { return DuplicateIdentity; }
    IndexedById(o.objects, was.value);
    IndexedById(n.objects, now.value);
    var d := CompareIndexes(was.value, now.value, o.system);
    SameClasses(was.value, now.value, d, d.(skipped := skipped', sourcePropertiesChanged := Properties(o) != Properties(n)));
    r := Ok(d.(skipped := skipped', sourcePropertiesChanged := Properties(o) != Properties(n)));
    assert DiffBetween(o, n, was.value, now.value, r.diff);
  }

  ghost predicate DiffBetween(o: Snapshot, n: Snapshot, was: Index, now: Index, d: SnapshotDiff) {
    IsIndex(o.objects, was) && IsIndex(n.objects, now) && IsDiff(was, now, d)
  }

  /** A successful diff: the classes of the registered objects, and the skipped identities. */
  ghost predicate DiffOf(o: Snapshot, n: Snapshot, d: SnapshotDiff) {
    && o.system == n.system == d.system && !d.finalized
    && (exists was, now :: DiffBetween(o, n, was, now, d))
    && (forall i :: i in d.skipped <==> Unknown(o.objects, i) || Unknown(n.objects, i))
    && d.sourcePropertiesChanged == (Properties(o) != Properties(n))
  }

  lemma SameClasses(was: Index, now: Index, d: SnapshotDiff, e: SnapshotDiff)
    requires IsDiff(was, now, d)
    requires e == d.(skipped := e.skipped, sourcePropertiesChanged := e.sourcePropertiesChanged)
    ensures IsDiff(was, now, e)
  {
    hide Lists, InClass, EachDiff, AddedDiff, RemovedDiff, Ids;
  }
}
