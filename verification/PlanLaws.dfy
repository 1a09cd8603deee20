/**
 Which docs a snapshot defines, stated over the snapshot's own objects: the exact plan, the exact
 rosters, and the machine files that are left after a render.
 */
module PlanLaws {
  import opened Basics
  import opened Ordering
  import opened Snapshots
  import opened Canonical
  import opened TextLines
  import opened TextFiles
  import opened PurposeSlots
  import opened MachineDocs
  import opened RenderTree
  import opened DocPaths
  import opened DocLayout
  import opened Estate
  import opened Settling

  // ---------------------------------------------------------------------------
  // The objects a system documents

  /** An object of a SQL system that has a doc of its own. */
  ghost predicate SqlObject(s: Snapshot, o: Object) {
    o in s.objects && s.systemClass == "sql" && (o.id.kind == "table" || o.id.kind == "view" || o.id.kind == "materialized_view")
  }

  predicate KindIn(kind: string, g: string) {
    || (kind == "api_dimension" && g == "dimensions")
    || (kind == "api_metric" && g == "metrics")
    || (kind == "api_event" && g == "events")
  }

  /** An object of another system that is documented in group `g`. */
  ghost predicate GroupMember(s: Snapshot, o: Object, g: string) {
    o in s.objects && s.systemClass != "sql" && KindIn(o.id.kind, g)
  }

  lemma GroupOfKind(kind: string, g: string)
    ensures GroupOf(kind) == Some(g) <==> KindIn(kind, g)
  {
    var x, y, z := "dimensions", "metrics", "events";
    assert |x| == 10 && |y| == 7 && |z| == 6;
  }

  lemma FamilyKind(s: Snapshot, o: Object)
    requires o in s.objects
    ensures IsSql(s) ==> (InFamily(s, o) <==> SqlObject(s, o))
    ensures !IsSql(s) ==> (InFamily(s, o) <==> exists g :: GroupMember(s, o, g))
  {
    if !IsSql(s) {
      forall g ensures GroupOf(o.id.kind) == Some(g) <==> KindIn(o.id.kind, g) { GroupOfKind(o.id.kind, g); }
      hide GroupOf, KindIn;
      if InFamily(s, o) { assert GroupMember(s, o, GroupOf(o.id.kind).value); }
    }
  }

  lemma {:induction false} ChosenMembers(s: Snapshot, objects: seq<Object>, o: Object)
    ensures o in Chosen(s, objects) <==> o in objects && InFamily(s, o)
  {
    hide InFamily;
    if objects != [] {
      ChosenMembers(s, objects[1..], o);
      assert objects == [objects[0]] + objects[1..];
    }
  }

  /** The documented objects are the snapshot's objects of the system's kinds, in canonical form. */
  lemma ObjectsExact(s: Snapshot, x: Object)
    ensures x in Objects(s) <==> exists o :: o in s.objects && InFamily(s, o) && x == OrderedObject(o)
  {
    hide InFamily, OrderedObject, Sort;
    var sorted := Sort(ObjectLe, s.objects);
    SortMembers(ObjectLe, s.objects);
    var chosen := Chosen(s, sorted);
    forall o ensures o in chosen <==> o in s.objects && InFamily(s, o) { ChosenMembers(s, sorted, o); }
    hide Chosen;
    if x in Objects(s) { var o := MapMember(OrderedObject, chosen, x); }
    if o :| o in s.objects && InFamily(s, o) && x == OrderedObject(o) { InMap(OrderedObject, chosen, o); }
  }

  lemma InMap<A, B>(f: A -> B, l: seq<A>, x: A)
    requires x in l
    ensures f(x) in Map(f, l)
  {
    var i :| 0 <= i < |l| && l[i] == x;
    assert Map(f, l)[i] == f(x);
  }

  lemma {:induction false} GroupsMembers(objects: seq<Object>, g: string)
    ensures g in Groups(objects) <==> exists o :: o in objects && KindIn(o.id.kind, g)
  {
    if objects != [] {
      GroupsMembers(objects[1..], g);
      GroupOfKind(objects[0].id.kind, g);
      hide GroupOf, KindIn;
      assert forall o :: o in objects <==> o == objects[0] || o in objects[1..];
    }
  }

  /** The names that keep a render from settling, over the snapshot's own objects. */
  lemma NoIndexIff(lib: Library, s: Snapshot)
    ensures NoIndexObject(lib, s) <==> forall o :: SqlObject(s, o) ==> Mangle(lib.lower, o.id.name) != "index"
  {
    hide Objects, Mangle, SqlObject;
    KeptIds();
    if IsSql(s) {
      forall x ensures x in Objects(s) <==> exists o :: SqlObject(s, o) && x == OrderedObject(o) { SqlObjectsExact(s, x); }
      hide OrderedObject;
      if NoIndexObject(lib, s) {
        forall o | SqlObject(s, o) ensures Mangle(lib.lower, o.id.name) != "index" { assert OrderedObject(o) in Objects(s); }
      }
    } else {
      assert forall o :: !SqlObject(s, o) by { NotSql(s); }
    }
  }

  lemma NotSql(s: Snapshot)
    requires !IsSql(s)
    ensures forall o :: !SqlObject(s, o)
  {
  }

  // ---------------------------------------------------------------------------
  // The plan

  /** What a snapshot defines: a doc per SQL object, an index per schema in use, a doc per group in use, one system index. */
  ghost predicate Defined(s: Snapshot, key: DocKey) {
    match key
    case ObjectDoc(x) => exists o :: SqlObject(s, o) && x == OrderedObject(o)
    case SchemaIndex(schema) => exists o :: SqlObject(s, o) && o.id.schema == schema
    case GroupDoc(g) => exists o :: GroupMember(s, o, g)
    case SystemIndex => true
  }

  lemma SqlObjectsExact(s: Snapshot, x: Object)
    requires IsSql(s)
    ensures x in Objects(s) <==> exists o :: SqlObject(s, o) && x == OrderedObject(o)
  {
    hide OrderedObject, Objects, InFamily;
    ObjectsExact(s, x);
    forall o | o in s.objects ensures InFamily(s, o) <==> SqlObject(s, o) { FamilyKind(s, o); }
    hide SqlObject;
    assert forall o :: SqlObject(s, o) ==> o in s.objects by { SqlObjectsIn(s); }
  }

  lemma SqlObjectsIn(s: Snapshot)
    ensures forall o :: SqlObject(s, o) ==> o in s.objects
  {
  }

  lemma SchemasExact(s: Snapshot, schema: string)
    requires IsSql(s)
    ensures schema in Schemas(Objects(s)) <==> exists o :: SqlObject(s, o) && o.id.schema == schema
  {
    hide Objects, SqlObject, Schemas;
    if schema in Schemas(Objects(s)) {
      var x :| x in Objects(s) && x.id.schema == schema;
      SqlObjectsExact(s, x);
      var o :| SqlObject(s, o) && x == OrderedObject(o);
      assert o.id == x.id;
    }
    if o :| SqlObject(s, o) && o.id.schema == schema {
      SqlObjectsExact(s, OrderedObject(o));
      assert OrderedObject(o).id == o.id;
    }
  }

  lemma GroupsExact(s: Snapshot, g: string)
    requires !IsSql(s)
    ensures g in Groups(Objects(s)) <==> exists o :: GroupMember(s, o, g)
  {
    hide Objects, Groups, KindIn, InFamily;
    GroupsMembers(Objects(s), g);
    if x :| x in Objects(s) && KindIn(x.id.kind, g) {
      ObjectsExact(s, x);
      var o :| o in s.objects && InFamily(s, o) && x == OrderedObject(o);
      assert GroupMember(s, o, g);
    }
    if o :| GroupMember(s, o, g) {
      FamilyKind(s, o);
      ObjectsExact(s, OrderedObject(o));
      assert KindIn(OrderedObject(o).id.kind, g);
    }
  }

  lemma PlanMembers(s: Snapshot, key: DocKey)
    ensures key in Plan(s) <==>
              match key
              case ObjectDoc(x) => IsSql(s) && x in Objects(s)
              case SchemaIndex(schema) => IsSql(s) && schema in Schemas(Objects(s))
              case GroupDoc(g) => !IsSql(s) && g in Groups(Objects(s))
              case SystemIndex => true
  {
    hide Objects, Schemas, Groups, Sort, Map;
    var objects := Objects(s);
    SortMembers(StrLe, Schemas(objects));
    SortMembers(StrLe, Groups(objects));
    if IsSql(s) {
      var schemas := Sort(StrLe, Schemas(objects));
      assert Plan(s) == Map(o => ObjectDoc(o), objects) + Map(x => SchemaIndex(x), schemas) + [SystemIndex];
      MappedMember(o => ObjectDoc(o), objects, key);
      MappedMember(x => SchemaIndex(x), schemas, key);
    } else {
      var groups := Sort(StrLe, Groups(objects));
      assert Plan(s) == Map(g => GroupDoc(g), groups) + [SystemIndex];
      MappedMember(g => GroupDoc(g), groups, key);
    }
  }

  lemma MappedMember<A, B>(f: A -> B, l: seq<A>, y: B)
    ensures y in Map(f, l) <==> exists x :: x in l && f(x) == y
  {
    if y in Map(f, l) { var x := MapMember(f, l, y); }
    if x :| x in l && f(x) == y { InMap(f, l, x); }
  }

  /** The plan holds exactly the docs that the snapshot's objects define. */
  lemma PlanExact(s: Snapshot, key: DocKey)
    ensures key in Plan(s) <==> Defined(s, key)
  {
    PlanMembers(s, key);
    hide Plan, Objects, Schemas, Groups;
    match key
    case ObjectDoc(x) => if IsSql(s) { SqlObjectsExact(s, x); }
    case SchemaIndex(schema) => if IsSql(s) { SchemasExact(s, schema); }
    case GroupDoc(g) => if !IsSql(s) { GroupsExact(s, g); }
    case SystemIndex =>
  }

  lemma {:induction false} CountedOnce<T>(s: seq<T>, x: T)
    requires Distinct(s)
    ensures multiset(s)[x] <= 1
  {
    if s != [] {
      CountedOnce(s[1..], x);
      assert s == [s[0]] + s[1..];
      if s[0] == x { assert x !in s[1..]; }
    }
  }

  lemma CountedTwice<T>(s: seq<T>, i: nat, j: nat)
    requires i < j < |s| && s[i] == s[j]
    ensures multiset(s)[s[i]] >= 2
  {
    assert s == s[..i] + [s[i]] + s[i + 1..j] + [s[j]] + s[j + 1..];
  }

  lemma PathsDistinct(all: seq<Entry>, sorted: seq<Entry>)
    requires multiset(all) == multiset(sorted) && DistinctPaths(sorted)
    ensures DistinctPaths(all)
  {
    forall i, j | 0 <= i < j < |all| ensures all[i].path != all[j].path {
      assert all[i] in multiset(sorted) && all[j] in multiset(sorted);
      if all[i] == all[j] {
        CountedTwice(all, i, j);
        assert Distinct(sorted);
        CountedOnce(sorted, all[i]);
      } else {
        var a :| 0 <= a < |sorted| && sorted[a] == all[i];
        var b :| 0 <= b < |sorted| && sorted[b] == all[j];
        assert a < b || b < a;
      }
    }
  }

  /** Unless the render is refused, every planned path belongs to one planned doc. */
  lemma OneDocPerPath(lib: Library, s: Snapshot)
    requires DistinctPaths(SystemFor(lib, s).entries)
    ensures forall i, j :: 0 <= i < j < |Plan(s)| ==> Path(lib, s, Plan(s)[i]) != Path(lib, s, Plan(s)[j])
  {
    hide Plan, Sort, Path, Before, After, Reads, DistinctPaths;
    var all := Map(key => EntryFor(lib, s, key), Plan(s));
    SortPermutes(PathLe, all);
    PathsDistinct(all, Sort(PathLe, all));
    forall i, j | 0 <= i < j < |Plan(s)| ensures Path(lib, s, Plan(s)[i]) != Path(lib, s, Plan(s)[j]) {
      assert all[i].path != all[j].path by { DistinctAt(all, i, j); }
    }
  }

  lemma DistinctAt(all: seq<Entry>, i: nat, j: nat)
    requires i < j < |all| && DistinctPaths(all)
    ensures all[i].path != all[j].path
  {
  }

  // ---------------------------------------------------------------------------
  // Paths

  /** A file of the system's directory. */
  function InSystem(lib: Library, s: Snapshot, rest: string): string {
    "systems/" + Mangle(lib.lower, s.system) + "/" + rest
  }

  /** The machine files a snapshot defines. */
  ghost predicate DocPath(lib: Library, s: Snapshot, p: string) {
    || p == InSystem(lib, s, "index.md")
    || (exists o :: SqlObject(s, o) && p == InSystem(lib, s, Mangle(lib.lower, o.id.schema) + "/" + Mangle(lib.lower, o.id.name) + ".schema.md"))
    || (exists o :: SqlObject(s, o) && p == InSystem(lib, s, Mangle(lib.lower, o.id.schema) + "/index.md"))
    || (exists o, g :: GroupMember(s, o, g) && p == InSystem(lib, s, g + ".schema.md"))
  }

  lemma PathSpelled(lib: Library, s: Snapshot, key: DocKey)
    ensures Path(lib, s, key) ==
              match key
              case ObjectDoc(o) => InSystem(lib, s, Mangle(lib.lower, o.id.schema) + "/" + Mangle(lib.lower, o.id.name) + ".schema.md")
              case SchemaIndex(schema) => InSystem(lib, s, Mangle(lib.lower, schema) + "/index.md")
              case GroupDoc(g) => InSystem(lib, s, g + ".schema.md")
              case SystemIndex => InSystem(lib, s, "index.md")
  {
    hide Mangle;
    var sys := Mangle(lib.lower, s.system);
    assert "systems" + "/" + sys == "systems/" + sys;
    match key
    case ObjectDoc(o) => Nested("systems/" + sys, Mangle(lib.lower, o.id.schema), Mangle(lib.lower, o.id.name) + ".schema.md");
    case SchemaIndex(schema) => Nested("systems/" + sys, Mangle(lib.lower, schema), "index.md");
    case GroupDoc(g) =>
    case SystemIndex =>
  }

  lemma Nested(a: string, b: string, c: string)
    ensures (a + "/" + b) + "/" + c == a + "/" + (b + "/" + c)
    ensures b + "/" + c == b + ("/" + c)
  {
  }

  /** The planned paths are exactly the defined machine files. */
  lemma PathsExact(lib: Library, s: Snapshot, p: string)
    ensures (exists key :: key in Plan(s) && Path(lib, s, key) == p) <==> DocPath(lib, s, p)
  {
    hide Plan, Path, InSystem, Mangle, OrderedObject, SqlObject, GroupMember;
    if key :| key in Plan(s) && Path(lib, s, key) == p {
      PlanExact(s, key);
      PathSpelled(lib, s, key);
      KeptIds();
    }
    if DocPath(lib, s, p) { DocPathPlanned(lib, s, p); }
  }

  lemma KeptIds()
    ensures forall o :: OrderedObject(o).id == o.id
  {
  }

  lemma DocPathPlanned(lib: Library, s: Snapshot, p: string)
    requires DocPath(lib, s, p)
    ensures exists key :: key in Plan(s) && Path(lib, s, key) == p
  {
    KeptIds();
    hide Plan, Path, InSystem, Mangle, OrderedObject, SqlObject, GroupMember;
    var key :=
      if p == InSystem(lib, s, "index.md") then SystemIndex
      else if exists o :: SqlObject(s, o) && p == InSystem(lib, s, Mangle(lib.lower, o.id.schema) + "/" + Mangle(lib.lower, o.id.name) + ".schema.md") then
        var o :| SqlObject(s, o) && p == InSystem(lib, s, Mangle(lib.lower, o.id.schema) + "/" + Mangle(lib.lower, o.id.name) + ".schema.md");
        ObjectDoc(OrderedObject(o))
      else if exists o :: SqlObject(s, o) && p == InSystem(lib, s, Mangle(lib.lower, o.id.schema) + "/index.md") then
        var o :| SqlObject(s, o) && p == InSystem(lib, s, Mangle(lib.lower, o.id.schema) + "/index.md");
        SchemaIndex(o.id.schema)
      else
        var o, g :| GroupMember(s, o, g) && p == InSystem(lib, s, g + ".schema.md");
        GroupDoc(g);
    PlanExact(s, key);
    PathSpelled(lib, s, key);
  }

  lemma PlannedIff(lib: Library, s: Snapshot, p: string)
    ensures Planned(SystemFor(lib, s), p) <==> exists key :: key in Plan(s) && Path(lib, s, key) == p
  {
    hide Plan, Path, Before, After, Reads, Sort;
    var sys := SystemFor(lib, s);
    if Planned(sys, p) {
      var i :| 0 <= i < |sys.entries| && sys.entries[i].path == p;
      var key := EntryOf(lib, s, i);
    }
    if key :| key in Plan(s) && Path(lib, s, key) == p {
      var i := IndexOf(lib, s, key);
    }
  }

  /** After a render the machine files in a system's directory are exactly those its snapshot defines. */
  lemma RenderedDocs(lib: Library, estate: seq<Snapshot>, files: Files, roots: Roots, k: nat, p: string)
    requires EstateOk(lib, estate) && DirsDiffer(lib, estate) && k < |estate|
    requires Under(Dir(lib, estate[k]), p) && MachineName(p)
    ensures p in Render(lib.stamp, files, Systems(lib, estate), roots).files <==> DocPath(lib, estate[k], p)
  {
    var systems := Systems(lib, estate);
    assert systems[k] == SystemFor(lib, estate[k]);
    EstateInputs(lib, estate);
    PlannedIff(lib, estate[k], p);
    PathsExact(lib, estate[k], p);
    TreeOutcome(lib.stamp, files, systems, roots);
    hide Render, Plan, Path, EstateOk, DirsDiffer, InputsOk, DocPath, MachineName, Under, Settled, Systems, EntryFor, Sort;
    var f := Render(lib.stamp, files, systems, roots).files;
    if Planned(systems[k], p) {
      var j :| 0 <= j < |systems[k].entries| && systems[k].entries[j].path == p;
      SettledExists(lib.stamp, files, systems[k].date, f, systems[k].entries[j]);
    }
  }

  lemma SettledExists(stamp: Stamp, base: Files, date: string, f: Files, e: Entry)
    requires Settled(stamp, base, date, f, e)
    ensures e.path in f
  {
    hide DateAfter, Head, Text;
  }

  // ---------------------------------------------------------------------------
  // Rosters

  lemma {:induction false} InGroupCounts(objects: seq<Object>, g: string, x: Object)
    ensures multiset(InGroup(objects, g))[x] == if KindIn(x.id.kind, g) then multiset(objects)[x] else 0
  {
    GroupOfKind(x.id.kind, g);
    hide GroupOf, KindIn;
    if objects != [] {
      var rest := objects[1..];
      InGroupCounts(rest, g, x);
      assert objects == [objects[0]] + rest;
    }
  }

  lemma {:induction false} InGroupSorted(objects: seq<Object>, g: string)
    requires Sorted(ObjectLe, objects)
    ensures Sorted(ObjectLe, InGroup(objects, g))
  {
    hide GroupOf, ObjectLe;
    if objects != [] {
      var rest := objects[1..];
      InGroupSorted(rest, g);
      var r := InGroup(rest, g);
      forall x | x in r ensures ObjectLe(objects[0], x) { assert x in rest; }
    }
  }

  /** Choosing the documented objects and ordering their parts leaves a group's members in place. */
  lemma {:induction false} InGroupOfObjects(s: Snapshot, objects: seq<Object>, g: string)
    requires !IsSql(s)
    ensures InGroup(Map(OrderedObject, Chosen(s, objects)), g) == Map(OrderedObject, InGroup(objects, g))
  {
    if objects != [] {
      var o, rest := objects[0], objects[1..];
      InGroupOfObjects(s, rest, g);
      var tail := Map(OrderedObject, Chosen(s, rest));
      if InFamily(s, o) {
        assert Chosen(s, objects) == [o] + Chosen(s, rest);
        assert Map(OrderedObject, Chosen(s, objects)) == [OrderedObject(o)] + tail;
        assert ([OrderedObject(o)] + tail)[1..] == tail;
        assert OrderedObject(o).id == o.id;
      } else {
        assert Chosen(s, objects) == Chosen(s, rest);
      }
      hide GroupOf, OrderedObject, Chosen;
      assert Map(OrderedObject, [o] + InGroup(rest, g)) == [OrderedObject(o)] + Map(OrderedObject, InGroup(rest, g));
    }
  }

  lemma RosterLines(lib: Library, s: Snapshot, members: seq<Object>)
    ensures Map(o => RosterLine(lib, s, o), Map(OrderedObject, members)) == Map(o => RosterLine(lib, s, o), members)
  {
    hide RosterLine;
    forall o ensures RosterLine(lib, s, OrderedObject(o)) == RosterLine(lib, s, o) { SameLine(lib, s, o); }
  }

  lemma SameLine(lib: Library, s: Snapshot, o: Object)
    ensures RosterLine(lib, s, OrderedObject(o)) == RosterLine(lib, s, o)
  {
  }

  /** A group doc's front matter lists its members and nobody else, each as often as the snapshot does, in canonical order. */
  lemma RosterExact(lib: Library, s: Snapshot, g: string) returns (members: seq<Object>)
    requires s.systemClass != "sql"
    ensures Before(lib, s, GroupDoc(g)) == Field(lib, "doc_class", "machine-group") + ["objects:"] + Map(o => RosterLine(lib, s, o), members)
    ensures Sorted(ObjectLe, members)
    ensures forall o :: multiset(members)[o] == if GroupMember(s, o, g) then multiset(s.objects)[o] else 0
  {
    var sorted := Sort(ObjectLe, s.objects);
    members := InGroup(sorted, g);
    InGroupOfObjects(s, sorted, g);
    RosterLines(lib, s, members);
    ObjectOrder();
    SortSorts(ObjectLe, s.objects);
    SortPermutes(ObjectLe, s.objects);
    InGroupSorted(sorted, g);
    hide Sort, InGroup, RosterLine, Field, KindIn, Sorted;
    forall o ensures multiset(members)[o] == if GroupMember(s, o, g) then multiset(s.objects)[o] else 0 {
      InGroupCounts(sorted, g, o);
      assert multiset(sorted)[o] == multiset(s.objects)[o];
    }
  }

  /** The index of a schema has a row for each of its objects and for no other. */
  lemma IndexMembers(s: Snapshot, schema: string, x: Object)
    requires s.systemClass == "sql"
    ensures x in Members(Objects(s), schema) <==> exists o :: SqlObject(s, o) && o.id.schema == schema && x == OrderedObject(o)
  {
    hide Objects, SqlObject, Members;
    SqlObjectsExact(s, x);
    KeptIds();
    hide OrderedObject;
  }

  /** An object lies in one group at most. */
  lemma OneGroup(s: Snapshot, o: Object, g: string, h: string)
    requires GroupMember(s, o, g) && GroupMember(s, o, h)
    ensures g == h
  {
    GroupOfKind(o.id.kind, g);
    GroupOfKind(o.id.kind, h);
    hide GroupOf, KindIn;
  }

  // ---------------------------------------------------------------------------
  // Human docs that are looked at

  /** The human doc of an object, the notes of a schema, and the human doc of a group. */
  function ObjectHuman(lib: Library, s: Snapshot, o: Object): string {
    InSystem(lib, s, Mangle(lib.lower, o.id.schema) + "/" + Mangle(lib.lower, o.id.name) + ".md")
  }

  function SchemaHuman(lib: Library, s: Snapshot, schema: string): string {
    InSystem(lib, s, Mangle(lib.lower, schema) + "/_notes.md")
  }

  function GroupHuman(lib: Library, s: Snapshot, g: string): string {
    InSystem(lib, s, g + ".md")
  }

  ghost predicate OfSomeObject(lib: Library, s: Snapshot, p: string) {
    exists o :: SqlObject(s, o) && p == ObjectHuman(lib, s, o)
  }

  ghost predicate OfSomeSchema(lib: Library, s: Snapshot, p: string) {
    exists o :: SqlObject(s, o) && p == SchemaHuman(lib, s, o.id.schema)
  }

  ghost predicate OfSomeGroup(lib: Library, s: Snapshot, p: string) {
    exists o, g :: GroupMember(s, o, g) && p == GroupHuman(lib, s, g)
  }

  /** The human docs a planned doc is built from: those beside what it lists, and the notes. */
  ghost predicate LooksAt(lib: Library, s: Snapshot, key: DocKey, p: string) {
    match key
    case ObjectDoc(o) => p == ObjectHuman(lib, s, o)
    case GroupDoc(g) => p == GroupHuman(lib, s, g)
    case SchemaIndex(schema) => exists o :: SqlObject(s, o) && o.id.schema == schema && p == ObjectHuman(lib, s, o)
    case SystemIndex => p == InSystem(lib, s, "_notes.md") || OfSomeObject(lib, s, p) || OfSomeSchema(lib, s, p) || OfSomeGroup(lib, s, p)
  }

  lemma SiblingSpelled(lib: Library, s: Snapshot, o: Object)
    ensures ObjectSibling(lib, s, o) == ObjectHuman(lib, s, o) && ObjectHuman(lib, s, OrderedObject(o)) == ObjectHuman(lib, s, o)
  {
    hide Mangle;
    var sys := Mangle(lib.lower, s.system);
    assert "systems" + "/" + sys == "systems/" + sys;
    Nested("systems/" + sys, Mangle(lib.lower, o.id.schema), Mangle(lib.lower, o.id.name) + ".md");
  }

  lemma NotesSpelled(lib: Library, s: Snapshot, schema: string, g: string)
    ensures Notes(SchemaDir(lib, s, schema)) == SchemaHuman(lib, s, schema)
    ensures Notes(Dir(lib, s)) == InSystem(lib, s, "_notes.md")
    ensures GroupSibling(lib, s, g) == GroupHuman(lib, s, g)
  {
    hide Mangle;
    var sys := Mangle(lib.lower, s.system);
    assert "systems" + "/" + sys == "systems/" + sys;
    assert "_notes" + ".md" == "_notes.md";
    Nested("systems/" + sys, Mangle(lib.lower, schema), "_notes.md");
  }

  lemma ObjectSiblings(lib: Library, s: Snapshot, objects: seq<Object>, p: string)
    ensures p in Map(o => ObjectSibling(lib, s, o), objects) <==> exists o :: o in objects && p == ObjectHuman(lib, s, o)
  {
    hide ObjectSibling, ObjectHuman, Map, OrderedObject;
    forall o ensures ObjectSibling(lib, s, o) == ObjectHuman(lib, s, o) { SiblingSpelled(lib, s, o); }
    MappedMember(o => ObjectSibling(lib, s, o), objects, p);
  }

  lemma SchemaIndexReads(lib: Library, s: Snapshot, schema: string, p: string)
    requires s.systemClass == "sql"
    ensures p in Reads(lib, s, SchemaIndex(schema)) <==> LooksAt(lib, s, SchemaIndex(schema), p)
  {
    var members := Members(Objects(s), schema);
    ObjectSiblings(lib, s, members, p);
    hide ObjectSibling, ObjectHuman, Map, Objects, SqlObject, OrderedObject, Members;
    if x :| x in members && p == ObjectHuman(lib, s, x) {
      IndexMembers(s, schema, x);
      var o :| SqlObject(s, o) && o.id.schema == schema && x == OrderedObject(o);
      SiblingSpelled(lib, s, o);
    }
    if o :| SqlObject(s, o) && o.id.schema == schema && p == ObjectHuman(lib, s, o) {
      IndexMembers(s, schema, OrderedObject(o));
      SiblingSpelled(lib, s, o);
    }
  }

  lemma ObjectsRead(lib: Library, s: Snapshot, p: string)
    requires s.systemClass == "sql"
    ensures p in Map(o => ObjectSibling(lib, s, o), Objects(s)) <==> OfSomeObject(lib, s, p)
  {
    ObjectSiblings(lib, s, Objects(s), p);
    hide ObjectSibling, ObjectHuman, Map, Objects, SqlObject, OrderedObject;
    if x :| x in Objects(s) && p == ObjectHuman(lib, s, x) {
      SqlObjectsExact(s, x);
      var o :| SqlObject(s, o) && x == OrderedObject(o);
      SiblingSpelled(lib, s, o);
    }
    if o :| SqlObject(s, o) && p == ObjectHuman(lib, s, o) {
      SqlObjectsExact(s, OrderedObject(o));
      SiblingSpelled(lib, s, o);
    }
  }

  lemma SchemasRead(lib: Library, s: Snapshot, p: string)
    requires s.systemClass == "sql"
    ensures p in Map(x => Notes(SchemaDir(lib, s, x)), Schemas(Objects(s))) <==> OfSomeSchema(lib, s, p)
  {
    hide SchemaHuman, Map, Objects, SqlObject, Notes, SchemaDir, Schemas;
    MappedMember(x => Notes(SchemaDir(lib, s, x)), Schemas(Objects(s)), p);
    if x :| x in Schemas(Objects(s)) && Notes(SchemaDir(lib, s, x)) == p {
      NotesSpelled(lib, s, x, "");
      SchemasExact(s, x);
    }
    if o :| SqlObject(s, o) && p == SchemaHuman(lib, s, o.id.schema) {
      NotesSpelled(lib, s, o.id.schema, "");
      SchemasExact(s, o.id.schema);
    }
  }

  lemma GroupsRead(lib: Library, s: Snapshot, p: string)
    requires s.systemClass != "sql"
    ensures p in Map(g => GroupSibling(lib, s, g), Groups(Objects(s))) <==> OfSomeGroup(lib, s, p)
  {
    hide GroupHuman, Map, Objects, Groups, GroupMember, GroupSibling;
    MappedMember(g => GroupSibling(lib, s, g), Groups(Objects(s)), p);
    if g :| g in Groups(Objects(s)) && GroupSibling(lib, s, g) == p {
      NotesSpelled(lib, s, "", g);
      GroupsExact(s, g);
    }
    if o, g :| GroupMember(s, o, g) && p == GroupHuman(lib, s, g) {
      NotesSpelled(lib, s, "", g);
      GroupsExact(s, g);
    }
  }

  lemma OneClass(lib: Library, s: Snapshot, p: string)
    ensures OfSomeObject(lib, s, p) || OfSomeSchema(lib, s, p) ==> s.systemClass == "sql"
    ensures OfSomeGroup(lib, s, p) ==> s.systemClass != "sql"
  {
  }

  lemma SystemIndexReads(lib: Library, s: Snapshot, p: string)
    ensures p in Reads(lib, s, SystemIndex) <==> LooksAt(lib, s, SystemIndex, p)
  {
    hide Map, Objects, Schemas, Groups, ObjectSibling, GroupSibling, Notes, SchemaDir, Dir, OfSomeObject, OfSomeSchema, OfSomeGroup;
    NotesSpelled(lib, s, "", "");
    OneClass(lib, s, p);
    if IsSql(s) {
      ObjectsRead(lib, s, p);
      SchemasRead(lib, s, p);
    } else {
      GroupsRead(lib, s, p);
    }
  }

  /** A planned doc looks at exactly these human docs. */
  lemma ReadsExact(lib: Library, s: Snapshot, key: DocKey, p: string)
    requires key in Plan(s)
    ensures p in Reads(lib, s, key) <==> LooksAt(lib, s, key, p)
  {
    PlanMembers(s, key);
    hide Plan, Map, Objects, Notes, SchemaDir, Dir, Schemas, Groups, ObjectSibling, GroupSibling, Members, ObjectHuman, GroupHuman;
    match key
    case ObjectDoc(o) => SiblingSpelled(lib, s, o);
    case GroupDoc(g) => NotesSpelled(lib, s, "", g);
    case SchemaIndex(schema) => SchemaIndexReads(lib, s, schema, p);
    case SystemIndex => SystemIndexReads(lib, s, p);
  }

  // ---------------------------------------------------------------------------
  // What front matter tells

  lemma FieldLine(lib: Library, key: string, v: string)
    requires ScalarOk(lib) && KeyOk(key)
    ensures var x := lib.scalar(v);
            && OneLine(x)
            && Field(lib, key, v) == if NewlineFree(x) then [key + ": " + Chomped(x)] else [key + ": " + Chomped(x), ""]
  {
    assert OneLine(lib.scalar(v));
    assert NewlineFree(key + ": ");
    OneLineSplits(key + ": ", lib.scalar(v));
  }

  /** Lines that follow a field and are told apart from its own. */
  predicate Follows(x: seq<string>) {
    x == [] || x[0] != ""
  }

  /** Equal lines that start with the field of one key: the values are equal, and so is the rest. */
  lemma FieldCancels(lib: Library, key: string, a: string, b: string, x: seq<string>, y: seq<string>)
    requires ScalarOk(lib) && KeyOk(key) && Follows(x) && Follows(y) && Field(lib, key, a) + x == Field(lib, key, b) + y
    ensures a == b && x == y
  {
    FieldLine(lib, key, a);
    FieldLine(lib, key, b);
    var v, w := lib.scalar(a), lib.scalar(b);
    var f, g := Field(lib, key, a), Field(lib, key, b);
    assert v == w ==> a == b;
    hide Field, ScalarOk, OneLine, NewlineFree, Chomped;
    assert (f + x)[0] == f[0] && (g + y)[0] == g[0];
    PrefixCancels(key + ": ", Chomped(v), Chomped(w));
    SameLength(f, x, g, y);
    SameScalar(v, w);
    assert f == g;
    assert (f + x)[|f|..] == x && (g + y)[|g|..] == y;
  }

  lemma SameScalar(v: string, w: string)
    requires OneLine(v) && OneLine(w) && Chomped(v) == Chomped(w) && (NewlineFree(v) <==> NewlineFree(w))
    ensures v == w
  {
    if v != w { ChompedSame(v, w); }
  }

  lemma SameLength(f: seq<string>, x: seq<string>, g: seq<string>, y: seq<string>)
    requires f + x == g + y && 1 <= |f| <= 2 && 1 <= |g| <= 2 && (|f| == 2 ==> f[1] == "") && (|g| == 2 ==> g[1] == "")
    requires Follows(x) && Follows(y)
    ensures |f| == |g|
  {
    SecondLine(f, x);
    SecondLine(g, y);
  }

  lemma SecondLine(f: seq<string>, x: seq<string>)
    requires 1 <= |f| <= 2 && (|f| == 2 ==> f[1] == "") && Follows(x)
    ensures |f| == 2 <==> |f + x| > 1 && (f + x)[1] == ""
  {
    if |f + x| > 1 { assert (f + x)[1] == if |f| == 2 then f[1] else x[0]; }
  }

  lemma FieldFollows(lib: Library, key: string, v: string, x: seq<string>)
    requires ScalarOk(lib) && KeyOk(key)
    ensures Follows(Field(lib, key, v) + x)
  {
    FieldLine(lib, key, v);
    hide Field, ScalarOk;
    assert (Field(lib, key, v) + x)[0] == Field(lib, key, v)[0];
    assert (key + ": ")[0] == key[0];
  }

  /** The front matter of an object doc tells the object's name, kind and hash. */
  lemma ObjectHeadTells(lib: Library, s: Snapshot, a: Object, b: Object)
    requires ScalarOk(lib) && Before(lib, s, ObjectDoc(a)) == Before(lib, s, ObjectDoc(b))
    ensures QualifiedName(s, a) == QualifiedName(s, b) && a.id.kind == b.id.kind && lib.hashText(a.schemaHash) == lib.hashText(b.schemaHash)
  {
    KeysOk();
    hide ScalarOk, Field, QualifiedName, Follows;
    var top := Field(lib, "doc_class", "machine-object");
    var n, m := QualifiedName(s, a), QualifiedName(s, b);
    var f, g := lib.hashText(a.schemaHash), lib.hashText(b.schemaHash);
    var a1, a2, a3 := Field(lib, "object", n), Field(lib, "kind", a.id.kind), Field(lib, "schema_hash", f);
    var b1, b2, b3 := Field(lib, "object", m), Field(lib, "kind", b.id.kind), Field(lib, "schema_hash", g);
    FieldFollows(lib, "object", n, a2 + a3);
    FieldFollows(lib, "object", m, b2 + b3);
    FieldFollows(lib, "kind", a.id.kind, a3);
    FieldFollows(lib, "kind", b.id.kind, b3);
    FieldFollows(lib, "schema_hash", f, []);
    FieldFollows(lib, "schema_hash", g, []);
    Regrouped(top, a1, a2, a3);
    Regrouped(top, b1, b2, b3);
    FieldCancels(lib, "doc_class", "machine-object", "machine-object", a1 + (a2 + a3), b1 + (b2 + b3));
    FieldCancels(lib, "object", n, m, a2 + a3, b2 + b3);
    assert a3 + [] == a3 && b3 + [] == b3;
    FieldCancels(lib, "kind", a.id.kind, b.id.kind, a3, b3);
    NothingFollows();
    FieldCancels(lib, "schema_hash", f, g, [], []);
  }

  lemma NothingFollows()
    ensures Follows([])
  {
  }

  lemma Regrouped(a: seq<string>, b: seq<string>, c: seq<string>, d: seq<string>)
    ensures a + b + c + d == a + (b + (c + d))
  {
  }

  // ---------------------------------------------------------------------------
  // Rows of a schema index

  function Shown(x: Option<string>): string {
    if x.Some? && x.value != "" then Cell(x.value) else DASH
  }

  /** The cells of a row, in the order of the table's head. */
  function RowCells(stem: string, o: Object, info: Info): seq<string> {
    ["`" + Cell(o.id.name) + "`", o.id.kind, Link(stem + ".schema.md"), if info.exists_ then Link(stem + ".md") else DASH,
     Shown(info.human.status), Shown(info.human.purpose)]
  }

  lemma {:induction false} RowIsTableRow(cells: seq<string>, last: string)
    ensures RowHead(cells) + last + " |" == BarRow(cells + [last])
  {
    if cells == [] {
      assert cells + [last] == [last] && [last][1..] == [];
      assert BarRow([last]) == "| " + last + " " + BarRow([]);
    } else {
      RowIsTableRow(cells[1..], last);
      assert (cells + [last])[1..] == cells[1..] + [last];
    }
  }

  /** A row is the table row of its six cells. */
  lemma RowShows(lib: Library, o: Object, info: Info)
    ensures FillPiece(RowPiece(lib, o, info), PurposeCell(info.human)) == BarRow(RowCells(Stem(lib, o), o, info))
  {
    var facts := RowFacts(lib, o, info);
    RowIsTableRow(facts, PurposeCell(info.human));
    assert facts + [PurposeCell(info.human)] == RowCells(Stem(lib, o), o, info);
    hide BarRow, Cell, Stem, RowHead, RowFacts, RowCells;
  }

  /** The row of an object shows its name, kind and doc, and the state of the human doc beside it. */
  lemma IndexRowExact(lib: Library, s: Snapshot, schema: string, files: Files, o: Object) returns (k: nat)
    requires o in Members(Objects(s), schema)
    ensures var lines := SplitLines(Text(EntryFor(lib, s, SchemaIndex(schema)).body(files)));
            var p := ObjectHuman(lib, s, o);
            var info := if p in files then Info(true, lib.human(ReadText(files[p]))) else Info(false, Human(None, None, map[]));
            k < |lines| && lines[k] == BarRow(RowCells(Stem(lib, o), o, info))
  {
    var members, infos := Members(Objects(s), schema), Infos(lib, files, Reads(lib, s, SchemaIndex(schema)));
    var r :| 0 <= r < |members| && members[r] == o;
    SiblingSpelled(lib, s, o);
    assert InfoOf(infos, r) == InfoAt(lib, files, ObjectHuman(lib, s, o));
    hide Objects, Members, RowPiece, FillPiece, SplitLines, RawIndexBody, BarRow, Text, RowCells, InfoAt, ObjectHuman;
    MembersClean(s, schema);
    IndexBodyOk(lib, s, schema, members, infos);
    RowLine(lib, s, schema, members, infos, r);
    RowShows(lib, o, InfoOf(infos, r));
    k := RowAt(s, schema, |members|, infos, r);
  }

  /** A doc that was not there before carries the day of the capture. */
  lemma NewDocDated(lib: Library, estate: seq<Snapshot>, files: Files, roots: Roots, k: nat, key: DocKey)
    requires EstateOk(lib, estate) && DirsDiffer(lib, estate) && k < |estate|
    requires key in Plan(estate[k]) && Path(lib, estate[k], key) !in files
    ensures var f := Render(lib.stamp, files, Systems(lib, estate), roots).files; var e := EntryFor(lib, estate[k], key);
            && |estate[k].capturedAt| >= 10 && e.path in f
            && ReadText(f[e.path]) == Head(e, estate[k].capturedAt[..10]) + ReadText(Text(e.body(files)))
  {
    var systems, s := Systems(lib, estate), estate[k];
    assert systems[k] == SystemFor(lib, s) && s in estate;
    assert DateShaped(Date(s));
    EstateInputs(lib, estate);
    TreeOutcome(lib.stamp, files, systems, roots);
    hide Render, Plan, EstateOk, DirsDiffer, InputsOk, MachineName, Under, Systems, Sort, Head, Text, ReadText, SnapshotOk, Before, After, Reads, DocBody;
    var j := IndexOf(lib, s, key);
    assert Settled(lib.stamp, files, systems[k].date, Render(lib.stamp, files, systems, roots).files, systems[k].entries[j]);
  }

  /** The front matter after the stamp tells the source mode. */
  lemma ModeTells(lib: Library, s: Snapshot, t: Snapshot)
    requires ScalarOk(lib) && After(lib, s) == After(lib, t)
    ensures s.sourceMode == t.sourceMode
  {
    MoreKeysOk();
    assert "snapshot" + "_version" == "snapshot_version";
    hide ScalarOk, Field, Follows;
    var rest := Field(lib, "snapshot_version", "1") + Field(lib, "status", "machine");
    FieldFollows(lib, "snapshot_version", "1", Field(lib, "status", "machine"));
    assert After(lib, s) == Field(lib, "source_mode", s.sourceMode) + rest;
    assert After(lib, t) == Field(lib, "source_mode", t.sourceMode) + rest;
    FieldCancels(lib, "source_mode", s.sourceMode, t.sourceMode, rest, rest);
  }

  /** The number of rows whose human doc is there. */
  lemma {:induction false} HotCounts(infos: seq<Info>, n: nat)
    requires n <= |infos|
    ensures Hot(infos, n) == |set i | 0 <= i < n && infos[i].exists_|
  {
    var now := set i | 0 <= i < n && infos[i].exists_;
    if n == 0 {
      assert now == {};
    } else {
      HotCounts(infos, n - 1);
      var before := set i | 0 <= i < n - 1 && infos[i].exists_;
      assert now == if infos[n - 1].exists_ then before + {n - 1} else before;
    }
  }
}
