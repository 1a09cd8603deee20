/**
 `expected_docs` and the body builders of `generator/render.py`: which machine docs a snapshot
 defines, which human docs each of them reads, and what it writes from them.  The schema index
 and the verbatim sections of an object doc are spelled out; the other sections are parameters.
 */
module DocLayout {
  import opened Basics
  import opened Ordering
  import opened Snapshots
  import opened Canonical
  import opened TextLines
  import opened TextFiles
  import opened PurposeSlots
  import opened MachineDocs
  import opened RenderTree
  import opened DocPaths

  /** What the renderer takes from a human doc's front matter. */
  datatype Human = Human(status: Option<string>, purpose: Option<string>, purposes: map<string, string>)

  const NOBODY := Human(None, None, map[])

  datatype Info = Info(exists_: bool, human: Human)

  datatype DocKey = ObjectDoc(o: Object) | SchemaIndex(schema: string) | GroupDoc(group: string) | SystemIndex

  /**
   Library calls and templates: lower case, front-matter scalars, JSON strings, a hash and a JSON
   value as text, the front matter of a human doc, the text above an object's description, its
   tables, the bodies of group docs and system indexes, and the YAML reader of the stamp.
   */
  datatype Library = Library(
    lower: string -> string, scalar: string -> string, quote: string -> string, hashText: Hash -> string, plain: string -> string,
    human: string -> Human, identity: (Snapshot, Object) -> string, sections: (Snapshot, Object, seq<Info>) -> MachineDocs.Body,
    build: (Snapshot, DocKey, seq<Info>) -> MachineDocs.Body, stamp: Stamp)

  // ---------------------------------------------------------------------------
  // Objects

  const SQL_KINDS := {"table", "view", "materialized_view"}

  function GroupOf(kind: string): Option<string> {
    match kind
    case "api_dimension" => Some("dimensions")
    case "api_metric" => Some("metrics")
    case "api_event" => Some("events")
    case _ => None
  }

  predicate IsSql(s: Snapshot) {
    s.systemClass == "sql"
  }

  predicate InFamily(s: Snapshot, o: Object) {
    if IsSql(s) then o.id.kind in SQL_KINDS else GroupOf(o.id.kind).Some?
  }

  function Chosen(s: Snapshot, objects: seq<Object>): (r: seq<Object>)
    ensures forall o :: o in r ==> InFamily(s, o)
  {
    if objects == [] then [] else (if InFamily(s, objects[0]) then [objects[0]] else []) + Chosen(s, objects[1..])
  }

  /** The objects of the system's own kinds, in canonical order and form. */
  function Objects(s: Snapshot): seq<Object> {
    Map(OrderedObject, Chosen(s, Sort(ObjectLe, s.objects)))
  }

  lemma ObjectsInFamily(s: Snapshot)
    ensures forall o :: o in Objects(s) ==> InFamily(s, o)
  {
    hide Sort;
    forall o | o in Objects(s) ensures InFamily(s, o) {
      var i :| 0 <= i < |Objects(s)| && Objects(s)[i] == o;
      assert Chosen(s, Sort(ObjectLe, s.objects))[i] in Chosen(s, Sort(ObjectLe, s.objects));
    }
  }

  function Schemas(objects: seq<Object>): (r: seq<string>)
    ensures forall x :: x in r <==> exists o :: o in objects && o.id.schema == x
  {
    if objects == [] then [] else
    var rest := Schemas(objects[1..]);
    assert objects == [objects[0]] + objects[1..];
    if objects[0].id.schema in rest then rest else [objects[0].id.schema] + rest
  }

  function Groups(objects: seq<Object>): seq<string> {
    if objects == [] then [] else
    var rest := Groups(objects[1..]);
    var g := GroupOf(objects[0].id.kind);
    if g.None? || g.value in rest then rest else [g.value] + rest
  }

  function Members(objects: seq<Object>, schema: string): (r: seq<Object>)
    ensures forall o :: o in r <==> o in objects && o.id.schema == schema
  {
    if objects == [] then [] else (if objects[0].id.schema == schema then [objects[0]] else []) + Members(objects[1..], schema)
  }

  // ---------------------------------------------------------------------------
  // Paths

  function Dir(lib: Library, s: Snapshot): string {
    SystemDir(Mangle(lib.lower, s.system))
  }

  function SchemaDir(lib: Library, s: Snapshot, schema: string): string {
    In(Dir(lib, s), Mangle(lib.lower, schema))
  }

  function Path(lib: Library, s: Snapshot, key: DocKey): string {
    match key
    case ObjectDoc(o) => SchemaDoc(SchemaDir(lib, s, o.id.schema), Mangle(lib.lower, o.id.name))
    case SchemaIndex(schema) => IndexDoc(SchemaDir(lib, s, schema))
    case GroupDoc(g) => SchemaDoc(Dir(lib, s), g)
    case SystemIndex => IndexDoc(Dir(lib, s))
  }

  function ObjectSibling(lib: Library, s: Snapshot, o: Object): string {
    HumanDoc(SchemaDir(lib, s, o.id.schema), Mangle(lib.lower, o.id.name))
  }

  function GroupSibling(lib: Library, s: Snapshot, g: string): string {
    HumanDoc(Dir(lib, s), g)
  }

  function Notes(dir: string): string {
    HumanDoc(dir, "_notes")
  }

  /** The human docs a machine doc looks at. */
  function Reads(lib: Library, s: Snapshot, key: DocKey): seq<string> {
    var objects := Objects(s);
    match key
    case ObjectDoc(o) => [ObjectSibling(lib, s, o)]
    case SchemaIndex(schema) => Map(o => ObjectSibling(lib, s, o), Members(objects, schema))
    case GroupDoc(g) => [GroupSibling(lib, s, g)]
    case SystemIndex =>
      [Notes(Dir(lib, s))]
      + (if IsSql(s) then Map(o => ObjectSibling(lib, s, o), objects) + Map(x => Notes(SchemaDir(lib, s, x)), Schemas(objects))
         else Map(g => GroupSibling(lib, s, g), Groups(objects)))
  }

  /** The machine docs of a snapshot. */
  function Plan(s: Snapshot): seq<DocKey> {
    var objects := Objects(s);
    (if IsSql(s) then Map(o => ObjectDoc(o), objects) + Map(x => SchemaIndex(x), Sort(StrLe, Schemas(objects)))
     else Map(g => GroupDoc(g), Sort(StrLe, Groups(objects))))
    + [SystemIndex]
  }

  // ---------------------------------------------------------------------------
  // Front matter

  function Field(lib: Library, key: string, value: string): seq<string> {
    SplitLines(key + ": " + lib.scalar(value))
  }

  function QualifiedName(s: Snapshot, o: Object): string {
    s.system + "." + o.id.schema + "." + o.id.name
  }

  function RosterLine(lib: Library, s: Snapshot, o: Object): string {
    "  - { object: " + lib.quote(QualifiedName(s, o)) + ", kind: " + o.id.kind + ", schema_hash: " + lib.quote(lib.hashText(o.schemaHash)) + " }"
  }

  function InGroup(objects: seq<Object>, g: string): (r: seq<Object>)
    ensures forall o :: o in r ==> o in objects
  {
    if objects == [] then [] else (if GroupOf(objects[0].id.kind) == Some(g) then [objects[0]] else []) + InGroup(objects[1..], g)
  }

  function Before(lib: Library, s: Snapshot, key: DocKey): seq<string> {
    match key
    case ObjectDoc(o) =>
      Field(lib, "doc_class", "machine-object") + Field(lib, "object", QualifiedName(s, o))
      + Field(lib, "kind", o.id.kind) + Field(lib, "schema_hash", lib.hashText(o.schemaHash))
    case GroupDoc(g) =>
      Field(lib, "doc_class", "machine-group") + ["objects:"] + Map(o => RosterLine(lib, s, o), InGroup(Objects(s), g))
    case SchemaIndex(schema) =>
      Field(lib, "doc_class", "machine-index") + Field(lib, "system", s.system) + Field(lib, "scope", "schema") + Field(lib, "schema", schema)
    case SystemIndex =>
      Field(lib, "doc_class", "machine-index") + Field(lib, "system", s.system) + Field(lib, "scope", "system")
  }

  function After(lib: Library, s: Snapshot): seq<string> {
    Field(lib, "source_mode", s.sourceMode) + Field(lib, "snapshot_version", "1") + Field(lib, "status", "machine")
  }

  // ---------------------------------------------------------------------------
  // Bodies

  function InfoAt(lib: Library, files: Files, path: string): Info {
    if path in files then Info(true, lib.human(ReadText(files[path]))) else Info(false, NOBODY)
  }

  function InfoOf(infos: seq<Info>, i: nat): Info {
    if i < |infos| then infos[i] else Info(false, NOBODY)
  }

  /** Lines of text taken over as they are. */
  function Verbatim(text: string): (t: Template)
    ensures t != []
  {
    Map(line => Fixed(line), SplitLines(text))
  }

  function Blank(t: Template): (r: seq<string>)
    ensures |r| == |t|
  {
    seq(|t|, i => "")
  }

  function StatusCell(h: Human): string {
    if h.status.Some? && h.status.value != "" then Cell(h.status.value) else DASH
  }

  function PurposeCell(h: Human): string {
    if h.purpose.Some? && h.purpose.value != "" then Cell(h.purpose.value) else DASH
  }

  function Stem(lib: Library, o: Object): string {
    Mangle(lib.lower, o.id.name)
  }

  function Link(file: string): string {
    "[" + file + "](" + file + ")"
  }

  function HumanCell(lib: Library, o: Object, info: Info): string {
    if info.exists_ then Link(Stem(lib, o) + ".md") else DASH
  }

  /** A table row up to the cell that follows the given ones. */
  function RowHead(cells: seq<string>): string {
    if cells == [] then "| " else "| " + cells[0] + " " + RowHead(cells[1..])
  }

  /** The cells of an object's row before its purpose. */
  function RowFacts(lib: Library, o: Object, info: Info): seq<string> {
    ["`" + Cell(o.id.name) + "`", o.id.kind, Link(Stem(lib, o) + ".schema.md"), HumanCell(lib, o, info), StatusCell(info.human)]
  }

  function RowPiece(lib: Library, o: Object, info: Info): Piece {
    Slot(RowHead(RowFacts(lib, o, info)), " |")
  }

  function Digits(n: nat): string {
    if n < 10 then ["0123456789"[n]] else Digits(n / 10) + ["0123456789"[n % 10]]
  }

  function Hot(infos: seq<Info>, n: nat): nat {
    if n == 0 then 0 else Hot(infos, n - 1) + (if InfoOf(infos, n - 1).exists_ then 1 else 0)
  }

  function Summary(n: nat, hot: nat): string {
    Digits(n) + " object" + (if n != 1 then "s" else "") + " \U{00B7} " + Digits(hot) + " with human docs."
  }

  function IndexTitle(s: Snapshot, schema: string): string {
    "# " + s.system + " \U{2014} schema `" + Cell(schema) + "`"
  }

  /** A table row of the given cells. */
  function BarRow(cells: seq<string>): string {
    if cells == [] then "|" else "| " + cells[0] + " " + BarRow(cells[1..])
  }

  /** The rule under the head of a table with `n` columns. */
  function TableRule(n: nat): string {
    if n == 0 then "|" else "|---" + TableRule(n - 1)
  }

  function TableHead(): string {
    BarRow(["Object", "Kind", "Machine doc", "Human doc", "Status", "Purpose"])
  }

  function IndexTop(s: Snapshot, schema: string, n: nat, hot: nat): Template {
    Verbatim(IndexTitle(s, schema)) + TableTop(Summary(n, hot))
  }

  function TableTop(summary: string): Template {
    [Fixed(""), Fixed(summary), Fixed(""), Fixed(TableHead()), Fixed(TableRule(6))]
  }

  function Rows(lib: Library, members: seq<Object>, infos: seq<Info>): (r: Template)
    ensures |r| == |members|
  {
    seq(|members|, i requires 0 <= i < |members| => RowPiece(lib, members[i], InfoOf(infos, i)))
  }

  function Purposes(infos: seq<Info>, n: nat): (r: seq<string>)
    ensures |r| == n
  {
    seq(n, i requires 0 <= i < n => PurposeCell(InfoOf(infos, i).human))
  }

  /** The schema index: one row per object, with the state of its human doc. */
  function RawIndexBody(lib: Library, s: Snapshot, schema: string, members: seq<Object>, infos: seq<Info>): RawBody {
    var top := IndexTop(s, schema, |members|, Hot(infos, |members|));
    RawBody.Body(top + Rows(lib, members, infos) + [Fixed("")], Blank(top) + Purposes(infos, |members|) + [""])
  }

  function Definition(lib: Library, o: Object): Option<string> {
    if o.id.kind in {"view", "materialized_view"} && "definition" in o.stats then Some(lib.plain(o.stats["definition"])) else None
  }

  function DescriptionPart(o: Object): Template {
    if o.description.Some? then [Fixed("")] + Verbatim(o.description.value) else []
  }

  function DefinitionPart(lib: Library, o: Object): Template {
    match Definition(lib, o)
    case None => []
    case Some(d) => DefinitionOpen() + Verbatim(d) + DefinitionClose()
  }

  function DefinitionOpen(): Template {
    [Fixed(""), Fixed(DefinitionTitle()), Fixed(""), Fixed("```sql")]
  }

  function DefinitionTitle(): string {
    "## View " + "definition"
  }

  function DefinitionClose(): Template {
    [Fixed("```")]
  }

  /** The object doc: description and view definition are taken over verbatim. */
  function RawObjectBody(lib: Library, s: Snapshot, o: Object, infos: seq<Info>): RawBody {
    var top := Verbatim(lib.identity(s, o)) + DescriptionPart(o);
    var mid := lib.sections(s, o, infos);
    var end := DefinitionPart(lib, o) + [Fixed("")];
    RawBody.Body(top + mid.t + end, Blank(top) + mid.fills + Blank(end))
  }

  // ---------------------------------------------------------------------------
  // Bodies are well formed

  /** Neither newline nor carriage return. */
  predicate Clean(s: string) {
    NewlineFree(s) && CrFree(s)
  }

  lemma CleanCells(text: string)
    ensures Clean(Cell(text))
  {
    CellIsOneLine(text);
  }

  lemma MangledIsClean(s: string)
    requires Mangled(s)
    ensures Clean(s)
  {
  }

  lemma {:induction false} DigitsClean(n: nat)
    ensures Clean(Digits(n))
  {
    var digits := "0123456789";
    assert forall i :: 0 <= i < |digits| ==> '0' <= digits[i] <= '9';
    if n >= 10 { DigitsClean(n / 10); }
  }

  lemma SqlKindClean(kind: string)
    requires kind in SQL_KINDS
    ensures Clean(kind)
  {
  }

  lemma ApiKindClean(kind: string)
    requires GroupOf(kind).Some?
    ensures Clean(kind)
  {
    assert kind == "api_dimension" || kind == "api_metric" || kind == "api_event";
  }

  lemma KindClean(s: Snapshot, o: Object)
    requires InFamily(s, o)
    ensures Clean(o.id.kind)
  {
    hide Clean, GroupOf;
    if IsSql(s) { SqlKindClean(o.id.kind); } else { ApiKindClean(o.id.kind); }
  }

  ghost predicate KindsClean(members: seq<Object>) {
    forall o :: o in members ==> Clean(o.id.kind)
  }

  lemma MembersClean(s: Snapshot, schema: string)
    ensures KindsClean(Members(Objects(s), schema)) && KindsClean(Objects(s))
  {
    hide Members, Objects, Clean;
    ObjectsInFamily(s);
    forall o | o in Objects(s) ensures Clean(o.id.kind) { KindClean(s, o); }
  }

  lemma LinkClean(file: string)
    requires Clean(file)
    ensures Clean(Link(file))
  {
  }

  lemma NameCellClean(lib: Library, o: Object)
    ensures Clean("`" + Cell(o.id.name) + "`") && Clean(Link(Stem(lib, o) + ".schema.md"))
  {
    CleanCells(o.id.name);
    MangledIsClean(Stem(lib, o));
    hide Cell, Mangle;
    LinkClean(Stem(lib, o) + ".schema.md");
  }

  lemma {:induction false} RowHeadClean(cells: seq<string>)
    requires forall i :: 0 <= i < |cells| ==> Clean(cells[i])
    ensures Clean(RowHead(cells))
  {
    if cells != [] { RowHeadClean(cells[1..]); }
  }

  lemma HumanCellClean(lib: Library, o: Object, info: Info)
    ensures Clean(HumanCell(lib, o, info)) && Clean(StatusCell(info.human)) && Clean(PurposeCell(info.human))
  {
    MangledIsClean(Stem(lib, o));
    if info.human.status.Some? { CleanCells(info.human.status.value); }
    if info.human.purpose.Some? { CleanCells(info.human.purpose.value); }
    hide Cell, Mangle;
    LinkClean(Stem(lib, o) + ".md");
    hide Link;
  }

  lemma RowPieceClean(lib: Library, o: Object, info: Info)
    requires Clean(o.id.kind)
    ensures PieceOk(RowPiece(lib, o, info)) && PieceCrFree(RowPiece(lib, o, info))
  {
    NameCellClean(lib, o);
    HumanCellClean(lib, o, info);
    hide Link, HumanCell, StatusCell, Cell, Stem, RowHead, Clean;
    RowHeadClean(RowFacts(lib, o, info));
    EndClean(RowHead(RowFacts(lib, o, info)));
  }

  lemma EndClean(head: string)
    requires Clean(head)
    ensures PieceOk(Slot(head, " |")) && PieceCrFree(Slot(head, " |"))
  {
  }

  lemma SummaryClean(n: nat, hot: nat)
    ensures Clean(Summary(n, hot))
  {
    DigitsClean(n);
    DigitsClean(hot);
    hide Digits;
  }

  ghost predicate PiecesOk(t: Template) {
    forall i :: 0 <= i < |t| ==> PieceOk(t[i])
  }

  lemma VerbatimOk(text: string)
    ensures PiecesOk(Verbatim(text)) && (TemplateCrFree(Verbatim(text)) <==> CrFree(text))
  {
    SplitIsNewlineFree(text);
    JoinOfSplit(text);
    var lines := SplitLines(text);
    hide SplitLines, JoinLines;
    JoinHolds(lines, '\r');
    var t := Verbatim(text);
    assert forall i :: 0 <= i < |t| ==> t[i] == Fixed(lines[i]);
  }

  lemma PartsOk(a: Template, b: Template)
    requires PiecesOk(a) && PiecesOk(b)
    ensures PiecesOk(a + b)
  {
    hide PieceOk;
  }

  lemma PartsCrFree(a: Template, b: Template)
    ensures TemplateCrFree(a + b) <==> TemplateCrFree(a) && TemplateCrFree(b)
  {
    hide PieceCrFree;
    var c := a + b;
    if TemplateCrFree(c) {
      forall i | 0 <= i < |a| ensures PieceCrFree(a[i]) { assert c[i] == a[i]; }
      forall i | 0 <= i < |b| ensures PieceCrFree(b[i]) { assert c[|a| + i] == b[i]; }
    }
  }

  lemma TitleCrFreeIff(s: Snapshot, schema: string)
    ensures CrFree(IndexTitle(s, schema)) <==> CrFree(s.system)
  {
    CleanCells(schema);
    hide Cell;
  }

  lemma {:induction false} BarRowClean(cells: seq<string>)
    requires forall i :: 0 <= i < |cells| ==> Clean(cells[i])
    ensures Clean(BarRow(cells))
  {
    if cells != [] { BarRowClean(cells[1..]); }
  }

  lemma {:induction false} TableRuleClean(n: nat)
    ensures Clean(TableRule(n))
  {
    if n > 0 { TableRuleClean(n - 1); }
  }

  lemma TableHeadClean()
    ensures Clean(TableHead()) && Clean(TableRule(6))
  {
    var cells := ["Object", "Kind", "Machine doc", "Human doc", "Status", "Purpose"];
    assert forall i :: 0 <= i < |cells| ==> Clean(cells[i]);
    hide BarRow;
    BarRowClean(cells);
    TableRuleClean(6);
  }

  lemma TableTopOk(summary: string)
    requires Clean(summary)
    ensures PiecesOk(TableTop(summary)) && TemplateCrFree(TableTop(summary))
  {
    TableHeadClean();
    EmptyClean();
    hide Clean, TableHead, TableRule, PiecesOk, TemplateCrFree;
    FixedClean(TableTop(summary));
  }

  lemma IndexTopOk(s: Snapshot, schema: string, n: nat, hot: nat)
    ensures PiecesOk(IndexTop(s, schema, n, hot)) && (TemplateCrFree(IndexTop(s, schema, n, hot)) <==> CrFree(s.system))
  {
    hide Verbatim, Summary, IndexTitle, TableTop, TemplateCrFree, PiecesOk, Clean;
    var title := IndexTitle(s, schema);
    TitleCrFreeIff(s, schema);
    VerbatimOk(title);
    SummaryClean(n, hot);
    TableTopOk(Summary(n, hot));
    PartsOk(Verbatim(title), TableTop(Summary(n, hot)));
    PartsCrFree(Verbatim(title), TableTop(Summary(n, hot)));
  }

  lemma FixedClean(t: Template)
    requires forall i :: 0 <= i < |t| ==> t[i].Fixed? && Clean(t[i].text)
    ensures PiecesOk(t) && TemplateCrFree(t)
  {
  }

  lemma RowsOk(lib: Library, members: seq<Object>, infos: seq<Info>)
    requires KindsClean(members)
    ensures PiecesOk(Rows(lib, members, infos)) && TemplateCrFree(Rows(lib, members, infos))
  {
    hide RowPiece, PieceOk, PieceCrFree;
    forall i | 0 <= i < |members|
      ensures PieceOk(Rows(lib, members, infos)[i]) && PieceCrFree(Rows(lib, members, infos)[i])
    {
      assert members[i] in members;
      RowPieceClean(lib, members[i], InfoOf(infos, i));
    }
  }

  lemma FillsOk(infos: seq<Info>, n: nat)
    ensures AllNewlineFree(Purposes(infos, n)) && AllCrFree(Purposes(infos, n))
  {
    hide PurposeCell;
    forall i | 0 <= i < n ensures Clean(Purposes(infos, n)[i]) {
      PurposeClean(InfoOf(infos, i).human);
    }
  }

  lemma PurposeClean(h: Human)
    ensures Clean(PurposeCell(h))
  {
    if h.purpose.Some? { CleanCells(h.purpose.value); }
    hide Cell;
  }

  lemma BlanksOk(t: Template)
    ensures AllNewlineFree(Blank(t)) && AllCrFree(Blank(t))
  {
  }

  lemma FillsConcat(a: seq<string>, b: seq<string>)
    requires AllNewlineFree(a) && AllCrFree(a) && AllNewlineFree(b) && AllCrFree(b)
    ensures AllNewlineFree(a + b) && AllCrFree(a + b)
  {
    hide NewlineFree, CrFree;
  }

  lemma IndexBodyOk(lib: Library, s: Snapshot, schema: string, members: seq<Object>, infos: seq<Info>)
    requires KindsClean(members)
    ensures var b := RawIndexBody(lib, s, schema, members, infos);
            BodyOk(b) && (TemplateCrFree(b.t) <==> CrFree(s.system))
  {
    var top := IndexTop(s, schema, |members|, Hot(infos, |members|));
    IndexTopOk(s, schema, |members|, Hot(infos, |members|));
    RowsOk(lib, members, infos);
    FillsOk(infos, |members|);
    BlanksOk(top);
    var rows, fills := Rows(lib, members, infos), Purposes(infos, |members|);
    FixedClean([Fixed("")]);
    hide IndexTop, Rows, Purposes, Hot, TemplateCrFree, Blank;
    PartsOk(top, rows);
    PartsOk(top + rows, [Fixed("")]);
    PartsCrFree(top, rows);
    PartsCrFree(top + rows, [Fixed("")]);
    FillsConcat(Blank(top), fills);
    FillsConcat(Blank(top) + fills, [""]);
  }

  lemma DescriptionOk(o: Object)
    ensures PiecesOk(DescriptionPart(o)) && (TemplateCrFree(DescriptionPart(o)) <==> (o.description.Some? ==> CrFree(o.description.value)))
  {
    if o.description.Some? {
      VerbatimOk(o.description.value);
      FixedClean([Fixed("")]);
      hide Verbatim, TemplateCrFree;
      PartsOk([Fixed("")], Verbatim(o.description.value));
      PartsCrFree([Fixed("")], Verbatim(o.description.value));
    }
  }

  lemma FencesClean()
    ensures PiecesOk(DefinitionOpen()) && TemplateCrFree(DefinitionOpen()) && PiecesOk(DefinitionClose()) && TemplateCrFree(DefinitionClose())
  {
    assert Clean(DefinitionTitle()) && Clean("```sql") && Clean("```");
    hide DefinitionTitle, Clean, PiecesOk, TemplateCrFree;
    assert Clean("") by { EmptyClean(); }
    FixedClean(DefinitionOpen());
    FixedClean(DefinitionClose());
  }

  lemma EmptyClean()
    ensures Clean("")
  {
  }

  lemma DefinitionOk(lib: Library, o: Object)
    ensures PiecesOk(DefinitionPart(lib, o))
    ensures TemplateCrFree(DefinitionPart(lib, o)) <==> (Definition(lib, o).Some? ==> CrFree(Definition(lib, o).value))
  {
    hide Verbatim, Definition, DefinitionOpen, DefinitionClose;
    var d := Definition(lib, o);
    if d.Some? {
      VerbatimOk(d.value);
      FencesClean();
      hide TemplateCrFree, PiecesOk;
      var open, text, close := DefinitionOpen(), Verbatim(d.value), DefinitionClose();
      PartsOk(open, text);
      PartsOk(open + text, close);
      PartsCrFree(open, text);
      PartsCrFree(open + text, close);
    }
  }

  /** Facts that an object doc takes over verbatim hold no carriage return. */
  predicate ObjectFactsCrFree(lib: Library, s: Snapshot, o: Object) {
    && CrFree(lib.identity(s, o))
    && (o.description.Some? ==> CrFree(o.description.value))
    && (Definition(lib, o).Some? ==> CrFree(Definition(lib, o).value))
  }

  lemma ObjectBodyOk(lib: Library, s: Snapshot, o: Object, infos: seq<Info>)
    ensures var b := RawObjectBody(lib, s, o, infos);
            BodyOk(b) && (TemplateCrFree(b.t) <==> ObjectFactsCrFree(lib, s, o) && TemplateCrFree(lib.sections(s, o, infos).t))
  {
    var id, desc := Verbatim(lib.identity(s, o)), DescriptionPart(o);
    var mid := lib.sections(s, o, infos);
    var def, last := DefinitionPart(lib, o), [Fixed("")];
    VerbatimOk(lib.identity(s, o));
    DescriptionOk(o);
    DefinitionOk(lib, o);
    FixedClean(last);
    BlanksOk(id + desc);
    BlanksOk(def + last);
    assert PiecesOk(mid.t);
    hide Verbatim, DescriptionPart, DefinitionPart, TemplateCrFree, Blank, Definition;
    PartsOk(id, desc);
    PartsOk(def, last);
    PartsOk(id + desc, mid.t);
    PartsOk(id + desc + mid.t, def + last);
    PartsCrFree(id, desc);
    PartsCrFree(def, last);
    PartsCrFree(id + desc, mid.t);
    PartsCrFree(id + desc + mid.t, def + last);
    FillsConcat(Blank(id + desc), mid.fills);
    FillsConcat(Blank(id + desc) + mid.fills, Blank(def + last));
  }

  function DocBody(lib: Library, s: Snapshot, key: DocKey, infos: seq<Info>): MachineDocs.Body {
    match key
    case ObjectDoc(o) => ObjectBodyOk(lib, s, o, infos); RawObjectBody(lib, s, o, infos)
    case SchemaIndex(schema) =>
      var members := Members(Objects(s), schema);
      MembersClean(s, schema);
      IndexBodyOk(lib, s, schema, members, infos);
      RawIndexBody(lib, s, schema, members, infos)
    case _ => lib.build(s, key, infos)
  }

  // ---------------------------------------------------------------------------
  // The systems to render

  function Infos(lib: Library, files: Files, paths: seq<string>): seq<Info> {
    Map(p => InfoAt(lib, files, p), paths)
  }

  function EntryFor(lib: Library, s: Snapshot, key: DocKey): Entry {
    Entry(Path(lib, s, key), Before(lib, s, key), After(lib, s),
          (files: Files) => DocBody(lib, s, key, Infos(lib, files, Reads(lib, s, key))))
  }

  predicate PathLe(a: Entry, b: Entry) {
    StrLe(a.path, b.path)
  }

  function Date(s: Snapshot): string {
    if |s.capturedAt| >= 10 then s.capturedAt[..10] else s.capturedAt
  }

  function SystemFor(lib: Library, s: Snapshot): System {
    System(Dir(lib, s), Sort(PathLe, Map(key => EntryFor(lib, s, key), Plan(s))), Date(s))
  }
}
