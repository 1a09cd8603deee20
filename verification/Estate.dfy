/**
 The estates for which rendering settles: `render_tree` of `generator/render.py` over snapshots,
 with the names, paths and texts those snapshots give.
 */
module Estate {
  import opened Ordering
  import opened Snapshots
  import opened Canonical
  import opened TextLines
  import opened TextFiles
  import opened FrontMatter
  import opened PurposeSlots
  import opened MachineDocs
  import opened RenderTree
  import opened DocPaths
  import opened DocLayout

  // ---------------------------------------------------------------------------
  // What is given

  /** A scalar is one line; a plain one may end in a newline, as the pattern that lets it through allows. */
  predicate OneLine(x: string) {
    NewlineFree(x) || (x[|x| - 1] == '\n' && NewlineFree(x[..|x| - 1]))
  }

  ghost predicate ScalarOk(lib: Library) {
    && (forall v :: CrFree(lib.scalar(v)) && OneLine(lib.scalar(v)))
    && (forall v, w :: lib.scalar(v) == lib.scalar(w) ==> v == w)
    && (forall v :: Clean(lib.quote(v)))
  }

  /** Human docs enter a body through cells, so they bring no carriage return. */
  ghost predicate BuildOk(lib: Library) {
    && (forall s, key, i, j :: TemplateCrFree(lib.build(s, key, i).t) <==> TemplateCrFree(lib.build(s, key, j).t))
    && (forall s, o, i, j :: TemplateCrFree(lib.sections(s, o, i).t) <==> TemplateCrFree(lib.sections(s, o, j).t))
  }

  /** YAML finds the stamp in every block this snapshot's docs are given. */
  ghost predicate StampsRead(lib: Library, s: Snapshot) {
    forall key :: key in Plan(s) ==> StampOk(lib.stamp, EntryFor(lib, s, key))
  }

  ghost predicate LibraryOk(lib: Library) {
    ScalarOk(lib) && BuildOk(lib)
  }

  /** A snapshot with a capture date whose doc paths do not collide. */
  ghost predicate SnapshotOk(lib: Library, s: Snapshot) {
    DateShaped(Date(s)) && StampsRead(lib, s) && DistinctPaths(SystemFor(lib, s).entries)
  }

  // ---------------------------------------------------------------------------
  // Front matter

  predicate KeyOk(key: string) {
    Clean(key) && key != "" && key[0] != '-'
  }

  lemma FieldOk(lib: Library, key: string, v: string)
    requires ScalarOk(lib) && KeyOk(key)
    ensures FieldLines(Field(lib, key, v)) && AllCrFree(Field(lib, key, v))
  {
    var x := lib.scalar(v);
    assert CrFree(x) && OneLine(x);
    var pre := key + ": ";
    assert Clean(pre);
    OneLineSplits(pre, x);
    hide SplitLines, OneLine, ScalarOk;
    var line := if NewlineFree(x) then pre + x else pre + x[..|x| - 1];
    assert line[0] == key[0] && CrFree(line);
  }

  lemma OneLineSplits(pre: string, x: string)
    requires NewlineFree(pre) && OneLine(x)
    ensures SplitLines(pre + x) == if NewlineFree(x) then [pre + x] else [pre + x[..|x| - 1], ""]
    ensures !NewlineFree(x) ==> NewlineFree(pre + x[..|x| - 1])
  {
    if NewlineFree(x) {
      SplitOneLine(pre + x);
    } else {
      var y := x[..|x| - 1];
      assert x == y + "\n";
      assert pre + x == (pre + y) + "\n" + "";
      SplitFirstLine(pre + y, "");
    }
  }

  lemma FieldsConcat(a: seq<string>, b: seq<string>)
    requires FieldLines(a) && AllCrFree(a) && FieldLines(b) && AllCrFree(b)
    ensures FieldLines(a + b) && AllCrFree(a + b)
  {
    hide NewlineFree, CrFree;
  }

  lemma ThreeFields(lib: Library, a: string, x: string, b: string, y: string, c: string, z: string)
    requires ScalarOk(lib) && KeyOk(a) && KeyOk(b) && KeyOk(c)
    ensures var f := Field(lib, a, x) + Field(lib, b, y) + Field(lib, c, z); FieldLines(f) && AllCrFree(f)
  {
    hide Field, ScalarOk, KeyOk, FieldLines, AllCrFree;
    FieldOk(lib, a, x);
    FieldOk(lib, b, y);
    FieldOk(lib, c, z);
    FieldsConcat(Field(lib, a, x), Field(lib, b, y));
    FieldsConcat(Field(lib, a, x) + Field(lib, b, y), Field(lib, c, z));
  }

  lemma KeysOk()
    ensures KeyOk("doc_class") && KeyOk("object") && KeyOk("kind") && KeyOk("schema_hash")
    ensures KeyOk("system") && KeyOk("scope") && KeyOk("schema")
  {
  }

  lemma MoreKeysOk()
    ensures KeyOk("source_mode") && KeyOk("status") && KeyOk("snapshot" + "_version")
  {
  }

  lemma RosterLineOk(lib: Library, s: Snapshot, o: Object)
    requires ScalarOk(lib) && Clean(o.id.kind)
    ensures Clean(RosterLine(lib, s, o)) && RosterLine(lib, s, o) != "---"
  {
    hide QualifiedName;
    var a, b := lib.quote(QualifiedName(s, o)), lib.quote(lib.hashText(o.schemaHash));
    assert Clean(a) && Clean(b);
    hide ScalarOk;
    var x, y, z := "  - { object: ", ", kind: ", ", schema_hash: ";
    assert Clean(x) && Clean(y) && Clean(z) && Clean(" }");
    CleanSix(x, a, y, o.id.kind, z, b);
    var line := x + a + y + o.id.kind + z + b;
    assert RosterLine(lib, s, o) == line + " }";
    assert line[0] == x[0] == ' ' && (line + " }")[0] == ' ';
    CleanTwo(line, " }");
  }

  lemma CleanTwo(a: string, b: string)
    requires Clean(a) && Clean(b)
    ensures Clean(a + b)
  {
  }

  lemma CleanSix(a: string, b: string, c: string, d: string, e: string, f: string)
    requires Clean(a) && Clean(b) && Clean(c) && Clean(d) && Clean(e) && Clean(f)
    ensures Clean(a + b + c + d + e + f)
  {
    hide Clean;
    CleanTwo(a, b);
    CleanTwo(a + b, c);
    CleanTwo(a + b + c, d);
    CleanTwo(a + b + c + d, e);
    CleanTwo(a + b + c + d + e, f);
  }

  lemma RosterOk(lib: Library, s: Snapshot, g: string)
    requires ScalarOk(lib)
    ensures var lines := Map(o => RosterLine(lib, s, o), InGroup(Objects(s), g)); FieldLines(lines) && AllCrFree(lines)
  {
    MembersClean(s, "");
    hide RosterLine, Objects, ScalarOk;
    var members := InGroup(Objects(s), g);
    var lines := Map(o => RosterLine(lib, s, o), members);
    forall i | 0 <= i < |lines| ensures Clean(lines[i]) && lines[i] != "---" {
      assert members[i] in members;
      RosterLineOk(lib, s, members[i]);
    }
  }

  lemma ObjectsLineOk()
    ensures FieldLines(["objects:"]) && AllCrFree(["objects:"])
  {
  }

  lemma BeforeOk(lib: Library, s: Snapshot, key: DocKey)
    requires ScalarOk(lib)
    ensures FieldLines(Before(lib, s, key)) && AllCrFree(Before(lib, s, key))
  {
    KeysOk();
    hide Field, ScalarOk, KeyOk, FieldLines, AllCrFree, RosterLine, Objects, QualifiedName;
    match key
    case ObjectDoc(o) =>
      var name, hash := QualifiedName(s, o), lib.hashText(o.schemaHash);
      ThreeFields(lib, "doc_class", "machine-object", "object", name, "kind", o.id.kind);
      FieldOk(lib, "schema_hash", hash);
      FieldsConcat(Field(lib, "doc_class", "machine-object") + Field(lib, "object", name) + Field(lib, "kind", o.id.kind),
                   Field(lib, "schema_hash", hash));
    case GroupDoc(g) =>
      FieldOk(lib, "doc_class", "machine-group");
      ObjectsLineOk();
      RosterOk(lib, s, g);
      FieldsConcat(Field(lib, "doc_class", "machine-group"), ["objects:"]);
      FieldsConcat(Field(lib, "doc_class", "machine-group") + ["objects:"], Map(o => RosterLine(lib, s, o), InGroup(Objects(s), g)));
    case SchemaIndex(schema) =>
      ThreeFields(lib, "doc_class", "machine-index", "system", s.system, "scope", "schema");
      FieldOk(lib, "schema", schema);
      FieldsConcat(Field(lib, "doc_class", "machine-index") + Field(lib, "system", s.system) + Field(lib, "scope", "schema"),
                   Field(lib, "schema", schema));
    case SystemIndex =>
      ThreeFields(lib, "doc_class", "machine-index", "system", s.system, "scope", "system");
  }

  lemma AfterOk(lib: Library, s: Snapshot)
    requires ScalarOk(lib)
    ensures FieldLines(After(lib, s)) && AllCrFree(After(lib, s))
  {
    MoreKeysOk();
    assert "snapshot" + "_version" == "snapshot_version";
    hide Field, ScalarOk, KeyOk, FieldLines, AllCrFree;
    ThreeFields(lib, "source_mode", s.sourceMode, "snapshot_version", "1", "status", "machine");
  }

  // ---------------------------------------------------------------------------
  // Plans

  lemma PlanKeys(s: Snapshot, key: DocKey)
    requires key in Plan(s)
    ensures key.ObjectDoc? ==> IsSql(s) && key.o in Objects(s)
    ensures key.SchemaIndex? ==> IsSql(s) && key.schema in Schemas(Objects(s))
    ensures key.GroupDoc? ==> key.group in Groups(Objects(s))
  {
    hide Objects, Schemas, Groups, Sort;
    var objects := Objects(s);
    SortMembers(StrLe, Schemas(objects));
    SortMembers(StrLe, Groups(objects));
    var schemas, groups := Sort(StrLe, Schemas(objects)), Sort(StrLe, Groups(objects));
    if IsSql(s) {
      assert key in Map(o => ObjectDoc(o), objects) || key in Map(x => SchemaIndex(x), schemas) || key == SystemIndex;
    } else {
      assert key in Map(g => GroupDoc(g), groups) || key == SystemIndex;
    }
  }

  lemma SchemaIndexPlanned(s: Snapshot, o: Object)
    requires IsSql(s) && o in Objects(s)
    ensures SchemaIndex(o.id.schema) in Plan(s)
  {
    hide Objects, Sort;
    var objects := Objects(s);
    SortMembers(StrLe, Schemas(objects));
    var schemas := Sort(StrLe, Schemas(objects));
    assert o.id.schema in schemas;
    var i :| 0 <= i < |schemas| && schemas[i] == o.id.schema;
    assert Map(x => SchemaIndex(x), schemas)[i] == SchemaIndex(o.id.schema);
  }

  lemma SystemIndexPlanned(s: Snapshot)
    ensures SystemIndex in Plan(s)
  {
    hide Objects, Schemas, Groups, Sort;
  }

  /** The entries are those of the planned docs. */
  lemma EntryOf(lib: Library, s: Snapshot, i: nat) returns (key: DocKey)
    requires i < |SystemFor(lib, s).entries|
    ensures key in Plan(s) && SystemFor(lib, s).entries[i] == EntryFor(lib, s, key)
  {
    hide Sort, Plan, EntryFor;
    var all := Map(key => EntryFor(lib, s, key), Plan(s));
    SortMembers(PathLe, all);
    assert Sort(PathLe, all)[i] in Sort(PathLe, all);
    var k :| 0 <= k < |all| && all[k] == Sort(PathLe, all)[i];
    key := Plan(s)[k];
  }

  lemma IndexOf(lib: Library, s: Snapshot, key: DocKey) returns (i: nat)
    requires key in Plan(s)
    ensures i < |SystemFor(lib, s).entries| && SystemFor(lib, s).entries[i] == EntryFor(lib, s, key)
  {
    hide Sort, Plan, EntryFor;
    var all := Map(key => EntryFor(lib, s, key), Plan(s));
    SortMembers(PathLe, all);
    var k :| 0 <= k < |Plan(s)| && Plan(s)[k] == key;
    assert all[k] == EntryFor(lib, s, key) && all[k] in all;
    i :| 0 <= i < |Sort(PathLe, all)| && Sort(PathLe, all)[i] == all[k];
  }

  // ---------------------------------------------------------------------------
  // Paths

  lemma PathOk(lib: Library, s: Snapshot, key: DocKey)
    ensures Under(Dir(lib, s), Path(lib, s, key)) && MachineName(Path(lib, s, key))
  {
    hide Under, MachineName, In, Mangle;
    match key
    case ObjectDoc(o) =>
      InnerIsUnder(Dir(lib, s), Mangle(lib.lower, o.id.schema), Mangle(lib.lower, o.id.name) + ".schema.md");
      SchemaDocIsMachine(SchemaDir(lib, s, o.id.schema), Mangle(lib.lower, o.id.name));
    case SchemaIndex(schema) =>
      InnerIsUnder(Dir(lib, s), Mangle(lib.lower, schema), "index.md");
      IndexDocIsMachine(SchemaDir(lib, s, schema));
    case GroupDoc(g) =>
      InIsUnder(Dir(lib, s), g + ".schema.md");
      SchemaDocIsMachine(Dir(lib, s), g);
    case SystemIndex =>
      InIsUnder(Dir(lib, s), "index.md");
      IndexDocIsMachine(Dir(lib, s));
  }

  /** What a path that a doc reads belongs to. */
  datatype Sibling = OfObject(o: Object) | OfGroup(g: string) | SystemNotes | SchemaNotes(schema: string)

  function SiblingPath(lib: Library, s: Snapshot, x: Sibling): string {
    match x
    case OfObject(o) => ObjectSibling(lib, s, o)
    case OfGroup(g) => GroupSibling(lib, s, g)
    case SystemNotes => Notes(Dir(lib, s))
    case SchemaNotes(schema) => Notes(SchemaDir(lib, s, schema))
  }

  lemma MapMember<A, B>(f: A -> B, l: seq<A>, y: B) returns (x: A)
    requires y in Map(f, l)
    ensures x in l && f(x) == y
  {
    var i :| 0 <= i < |l| && Map(f, l)[i] == y;
    x := l[i];
  }

  lemma ReadsFrom(lib: Library, s: Snapshot, key: DocKey, p: string) returns (x: Sibling)
    requires key in Plan(s) && p in Reads(lib, s, key)
    ensures p == SiblingPath(lib, s, x)
    ensures x.OfObject? ==> IsSql(s) && x.o in Objects(s)
    ensures x.OfGroup? ==> x.g in Groups(Objects(s))
  {
    PlanKeys(s, key);
    hide Plan, Objects, ObjectSibling, GroupSibling, Notes, Groups, SchemaDir, Dir, Map;
    var objects := Objects(s);
    match key
    case ObjectDoc(o) => x := OfObject(o);
    case GroupDoc(g) => x := OfGroup(g);
    case SchemaIndex(schema) =>
      var o := MapMember(o => ObjectSibling(lib, s, o), Members(objects, schema), p);
      x := OfObject(o);
    case SystemIndex => x := SystemReadsFrom(lib, s, p);
  }

  lemma SystemReadsFrom(lib: Library, s: Snapshot, p: string) returns (x: Sibling)
    requires p in Reads(lib, s, SystemIndex)
    ensures p == SiblingPath(lib, s, x)
    ensures x.OfObject? ==> IsSql(s) && x.o in Objects(s)
    ensures x.OfGroup? ==> x.g in Groups(Objects(s))
  {
    hide Objects, ObjectSibling, GroupSibling, Notes, Groups, SchemaDir, Dir, Map, Schemas;
    var objects := Objects(s);
    if p == Notes(Dir(lib, s)) {
      x := SystemNotes;
    } else if !IsSql(s) {
      var g := MapMember(g => GroupSibling(lib, s, g), Groups(objects), p);
      x := OfGroup(g);
    } else if p in Map(o => ObjectSibling(lib, s, o), objects) {
      var o := MapMember(o => ObjectSibling(lib, s, o), objects, p);
      x := OfObject(o);
    } else {
      var schema := MapMember(y => Notes(SchemaDir(lib, s, y)), Schemas(objects), p);
      x := SchemaNotes(schema);
    }
  }

  lemma SiblingUnder(lib: Library, s: Snapshot, x: Sibling)
    ensures Under(Dir(lib, s), SiblingPath(lib, s, x))
  {
    hide Under, In, Mangle;
    match x
    case OfObject(o) => InnerIsUnder(Dir(lib, s), Mangle(lib.lower, o.id.schema), Mangle(lib.lower, o.id.name) + ".md");
    case OfGroup(g) => InIsUnder(Dir(lib, s), g + ".md");
    case SystemNotes => InIsUnder(Dir(lib, s), "_notes" + ".md");
    case SchemaNotes(schema) => InnerIsUnder(Dir(lib, s), Mangle(lib.lower, schema), "_notes" + ".md");
  }

  /** No object of a SQL system is named so that its human doc would be a machine index. */
  predicate NoIndexObject(lib: Library, s: Snapshot) {
    IsSql(s) ==> forall o :: o in Objects(s) ==> Mangle(lib.lower, o.id.name) != "index"
  }

  lemma {:induction false} GroupNames(objects: seq<Object>, g: string)
    requires g in Groups(objects)
    ensures Mangled(g) && g != "index"
  {
    if g != GroupName(objects[0].id.kind) {
      GroupNames(objects[1..], g);
    } else {
      FixedGroups(objects[0].id.kind);
    }
  }

  function GroupName(kind: string): string {
    if GroupOf(kind).Some? then GroupOf(kind).value else ""
  }

  lemma FixedGroups(kind: string)
    ensures Mangled(GroupName(kind)) && GroupName(kind) != "index"
  {
    assert GroupName(kind) == "dimensions" || GroupName(kind) == "metrics" || GroupName(kind) == "events" || GroupName(kind) == "";
  }

  lemma SiblingIsHuman(lib: Library, s: Snapshot, x: Sibling)
    requires x.OfObject? ==> Mangle(lib.lower, x.o.id.name) != "index"
    requires x.OfGroup? ==> x.g in Groups(Objects(s))
    ensures !MachineName(SiblingPath(lib, s, x))
  {
    hide MachineName, Mangle, Objects, In;
    match x
    case OfObject(o) => HumanDocIndexIff(SchemaDir(lib, s, o.id.schema), Mangle(lib.lower, o.id.name));
    case OfGroup(g) => GroupNames(Objects(s), g); HumanDocIndexIff(Dir(lib, s), g);
    case SystemNotes => HumanDocIndexIff(Dir(lib, s), "_notes");
    case SchemaNotes(schema) => HumanDocIndexIff(SchemaDir(lib, s, schema), "_notes");
  }

  // ---------------------------------------------------------------------------
  // From snapshots to systems

  lemma SystemIsOk(lib: Library, s: Snapshot)
    requires ScalarOk(lib) && SnapshotOk(lib, s)
    ensures SystemOk(lib.stamp, SystemFor(lib, s))
  {
    var sys := SystemFor(lib, s);
    SystemDirStarts(Mangle(lib.lower, s.system));
    hide Plan, ScalarOk, StampOk, DateShaped, MachineName, Under, Mangle, Before, After, Sort, FieldLines, AllCrFree, Reads, Path;
    forall i | 0 <= i < |sys.entries|
      ensures EntryOk(sys.entries[i]) && StampOk(lib.stamp, sys.entries[i]) && Under(sys.dir, sys.entries[i].path) && MachineName(sys.entries[i].path)
    {
      var key := EntryOf(lib, s, i);
      BeforeOk(lib, s, key);
      AfterOk(lib, s);
      PathOk(lib, s, key);
    }
  }

  lemma SameInfos(lib: Library, f: Files, g: Files, paths: seq<string>)
    requires forall p :: p in paths ==> SameAt(f, g, p)
    ensures Infos(lib, f, paths) == Infos(lib, g, paths)
  {
    hide ReadText;
    forall i | 0 <= i < |paths| ensures Infos(lib, f, paths)[i] == Infos(lib, g, paths)[i] { assert paths[i] in paths; }
  }

  lemma SameBody(lib: Library, s: Snapshot, key: DocKey, f: Files, g: Files)
    requires forall p :: p in Reads(lib, s, key) ==> SameAt(f, g, p)
    ensures EntryFor(lib, s, key).body(f) == EntryFor(lib, s, key).body(g)
  {
    SameInfos(lib, f, g, Reads(lib, s, key));
    hide DocBody, Reads, Infos, Before, After, Path;
  }

  lemma SystemReadsLocally(lib: Library, s: Snapshot)
    ensures LocalReads(SystemFor(lib, s))
  {
    var sys := SystemFor(lib, s);
    hide Plan, EntryFor, Sort, Reads, Under, SiblingPath;
    forall i, f, g | 0 <= i < |sys.entries| && SameUnder(sys.dir, f, g) ensures sys.entries[i].body(f) == sys.entries[i].body(g) {
      var key := EntryOf(lib, s, i);
      forall p | p in Reads(lib, s, key) ensures SameAt(f, g, p) {
        var x := ReadsFrom(lib, s, key, p);
        SiblingUnder(lib, s, x);
      }
      SameBody(lib, s, key, f, g);
    }
  }

  lemma SystemReadsHuman(lib: Library, s: Snapshot)
    requires NoIndexObject(lib, s)
    ensures HumanReads(SystemFor(lib, s))
  {
    var sys := SystemFor(lib, s);
    hide Plan, EntryFor, Sort, Reads, Under, SiblingPath, MachineName, Mangle, Objects, Groups;
    forall i, f, g | 0 <= i < |sys.entries| && SameHuman(sys.dir, f, g) ensures sys.entries[i].body(f) == sys.entries[i].body(g) {
      var key := EntryOf(lib, s, i);
      forall p | p in Reads(lib, s, key) ensures SameAt(f, g, p) {
        var x := ReadsFrom(lib, s, key, p);
        SiblingUnder(lib, s, x);
        SiblingIsHuman(lib, s, x);
      }
      SameBody(lib, s, key, f, g);
    }
  }
}
