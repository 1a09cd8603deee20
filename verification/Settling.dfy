/** When rendering an estate settles: the exact condition on its names, directories and texts. */
module Settling {
  import opened Ordering
  import opened Snapshots
  import opened Canonical
  import opened TextLines
  import opened TextFiles
  import opened FrontMatter
  import opened PurposeSlots
  import opened MachineDocs
  import opened RenderTree
  import opened DocPaths
  import opened DocLayout
  import opened Estate

  function Systems(lib: Library, estate: seq<Snapshot>): seq<System> {
    Map(s => SystemFor(lib, s), estate)
  }

  ghost predicate EstateOk(lib: Library, estate: seq<Snapshot>) {
    && LibraryOk(lib) && (forall s :: s in estate ==> SnapshotOk(lib, s))
    && forall i, j :: 0 <= i < j < |estate| ==> estate[i].system != estate[j].system
  }

  predicate DirsDiffer(lib: Library, estate: seq<Snapshot>) {
    forall i, j :: 0 <= i < j < |estate| ==> Mangle(lib.lower, estate[i].system) != Mangle(lib.lower, estate[j].system)
  }

  /** No planned text holds a carriage return; rendering each doc without its human siblings tells. */
  predicate NoCrIn(lib: Library, s: Snapshot) {
    forall key :: key in Plan(s) ==> TemplateCrFree(DocBody(lib, s, key, []).t)
  }

  /** What a caller can check of the snapshots. */
  predicate Settles(lib: Library, estate: seq<Snapshot>) {
    DirsDiffer(lib, estate) && forall s :: s in estate ==> NoIndexObject(lib, s) && NoCrIn(lib, s)
  }

  // ---------------------------------------------------------------------------
  // Different directories

  lemma DirsDisjoint(lib: Library, estate: seq<Snapshot>)
    requires DirsDiffer(lib, estate)
    ensures DisjointDirs(Systems(lib, estate))
  {
    var systems := Systems(lib, estate);
    hide Mangle, Under, SystemDir;
    forall i, j, p | 0 <= i < j < |systems| ensures !(Under(systems[i].dir, p) && Under(systems[j].dir, p)) {
      if Under(systems[i].dir, p) && Under(systems[j].dir, p) {
        MangledDirsDisjoint(Mangle(lib.lower, estate[i].system), Mangle(lib.lower, estate[j].system), p);
      }
    }
  }

  lemma EstateInputs(lib: Library, estate: seq<Snapshot>)
    requires EstateOk(lib, estate) && DirsDiffer(lib, estate)
    ensures InputsOk(lib.stamp, Systems(lib, estate))
  {
    DirsDisjoint(lib, estate);
    hide SystemFor, SnapshotOk, SystemOk, LocalReads, DisjointDirs, Mangle, BuildOk, ScalarOk;
    var systems := Systems(lib, estate);
    forall i | 0 <= i < |systems| ensures SystemOk(lib.stamp, systems[i]) && LocalReads(systems[i]) {
      assert estate[i] in estate;
      SystemIsOk(lib, estate[i]);
      SystemReadsLocally(lib, estate[i]);
    }
  }

  // ---------------------------------------------------------------------------
  // Shared directories

  lemma FenceFirst(lines: seq<string>)
    ensures Terminated(["---"] + lines) == FENCE + Terminated(lines)
  {
    var all := ["---"] + lines;
    assert all[1..] == lines && "---" + "\n" == FENCE;
  }

  lemma HeadParts(e: Entry, d: string, x: string) returns (rest: string)
    ensures Head(e, d) + x == FENCE + Terminated(e.before) + rest
  {
    var mid := ["generated_at: " + d] + e.after;
    TerminatedConcat(e.before, mid);
    assert FieldsAt(e, d) == e.before + mid;
    hide Terminated;
    rest := Terminated(mid) + FENCE + "\n" + x;
  }

  lemma HeadStarts(e: Entry, d: string, x: string) returns (rest: string)
    requires FieldLines(e.before)
    ensures SplitLines(Head(e, d) + x) == ["---"] + e.before + SplitLines(rest)
  {
    hide Terminated, SplitLines, Head;
    rest := HeadParts(e, d, x);
    FenceFirst(e.before);
    var all := ["---"] + e.before;
    assert AllNewlineFree(all) by { assert NewlineFree("---"); }
    SplitAfterLines(all, rest);
  }

  /** The line of a field, and what follows it. */
  lemma SystemLine(lib: Library, system: string)
    requires ScalarOk(lib)
    ensures var f := Field(lib, "system", system); var x := lib.scalar(system);
            f == if NewlineFree(x) then ["system: " + x] else ["system: " + x[..|x| - 1], ""]
  {
    assert OneLine(lib.scalar(system));
    assert "system" + ": " == "system: " && NewlineFree("system: ");
    OneLineSplits("system: ", lib.scalar(system));
  }

  lemma ScopeLine(lib: Library, v: string)
    requires ScalarOk(lib)
    ensures Field(lib, "scope", v) != [] && Field(lib, "scope", v)[0] != ""
  {
    assert OneLine(lib.scalar(v));
    assert "scope" + ": " == "scope: " && NewlineFree("scope: ");
    OneLineSplits("scope: ", lib.scalar(v));
  }

  lemma PrefixCancels(pre: string, a: string, b: string)
    requires pre + a == pre + b
    ensures a == b
  {
    assert (pre + a)[|pre|..] == a && (pre + b)[|pre|..] == b;
  }

  /** A scalar without the newline it may end in. */
  function Chomped(x: string): string
    requires OneLine(x)
  {
    if NewlineFree(x) then x else x[..|x| - 1]
  }

  lemma ChompedSame(v: string, w: string)
    requires OneLine(v) && OneLine(w) && v != w && Chomped(v) == Chomped(w)
    ensures NewlineFree(v) != NewlineFree(w)
  {
    if !NewlineFree(v) { assert v == Chomped(v) + "\n"; }
    if !NewlineFree(w) { assert w == Chomped(w) + "\n"; }
  }

  lemma TwoLines(f: seq<string>, x: seq<string>)
    requires f != [] && x != []
    ensures (f + x)[0] == f[0] && (|f| == 1 ==> (f + x)[1] == x[0]) && (|f| > 1 ==> (f + x)[1] == f[1])
  {
  }

  /** Lines that start with the fields of two different systems differ. */
  lemma SystemLinesDiffer(lib: Library, a: string, b: string, x: seq<string>, y: seq<string>)
    requires ScalarOk(lib) && a != b && x != [] && y != [] && x[0] != "" && y[0] != ""
    ensures Field(lib, "system", a) + x != Field(lib, "system", b) + y
  {
    SystemLine(lib, a);
    SystemLine(lib, b);
    var f, g := Field(lib, "system", a), Field(lib, "system", b);
    var v, w := lib.scalar(a), lib.scalar(b);
    assert v != w && OneLine(v) && OneLine(w);
    hide Field, ScalarOk, OneLine, NewlineFree;
    TwoLines(f, x);
    TwoLines(g, y);
    if f[0] == g[0] {
      PrefixCancels("system: ", Chomped(v), Chomped(w));
      ChompedSame(v, w);
    }
  }

  lemma IndexHeadsConflict(lib: Library, s: Snapshot, t: Snapshot)
    requires ScalarOk(lib) && s.system != t.system
    ensures HeadsConflict(EntryFor(lib, s, SystemIndex), EntryFor(lib, t, SystemIndex))
  {
    var a, b := EntryFor(lib, s, SystemIndex), EntryFor(lib, t, SystemIndex);
    BeforeOk(lib, s, SystemIndex);
    BeforeOk(lib, t, SystemIndex);
    ScopeLine(lib, "system");
    var dc, sc := Field(lib, "doc_class", "machine-index"), Field(lib, "scope", "system");
    assert a.before == dc + Field(lib, "system", s.system) + sc;
    assert b.before == dc + Field(lib, "system", t.system) + sc;
    hide Head, EntryFor, Field, ScalarOk, SplitLines, FieldLines;
    forall d, d', x: string, y: string ensures Head(a, d) + x != Head(b, d') + y {
      var r := HeadStarts(a, d, x);
      var q := HeadStarts(b, d', y);
      SystemLinesDiffer(lib, s.system, t.system, sc + SplitLines(r), sc + SplitLines(q));
      LinesRegroup(dc, Field(lib, "system", s.system), sc, SplitLines(r));
      LinesRegroup(dc, Field(lib, "system", t.system), sc, SplitLines(q));
      SameTail(["---"] + dc, Field(lib, "system", s.system) + (sc + SplitLines(r)), Field(lib, "system", t.system) + (sc + SplitLines(q)));
    }
  }

  lemma LinesRegroup(dc: seq<string>, f: seq<string>, sc: seq<string>, r: seq<string>)
    ensures ["---"] + (dc + f + sc) + r == (["---"] + dc) + (f + (sc + r))
  {
  }

  lemma SameTail(a: seq<string>, b: seq<string>, c: seq<string>)
    ensures a + b == a + c <==> b == c
  {
    if a + b == a + c { assert (a + b)[|a|..] == b && (a + c)[|a|..] == c; }
  }

  lemma SameIndexPath(lib: Library, s: Snapshot, t: Snapshot)
    requires Mangle(lib.lower, s.system) == Mangle(lib.lower, t.system)
    ensures EntryFor(lib, s, SystemIndex).path == EntryFor(lib, t, SystemIndex).path
  {
    hide Mangle, Reads, DocBody, Before, After;
  }

  /** Two systems with one directory fight over its index: no tree at all is left alone. */
  lemma SharedDirectoryNeverSettles(lib: Library, estate: seq<Snapshot>, files: Files, roots: Roots)
    requires EstateOk(lib, estate) && !DirsDiffer(lib, estate)
    ensures !Idle(Render(lib.stamp, files, Systems(lib, estate), roots), files)
  {
    hide EntryFor, SystemFor, Render, HeadsConflict, Plan, BuildOk, ScalarOk, SnapshotOk, Mangle, Idle;
    var i, j :| 0 <= i < j < |estate| && Mangle(lib.lower, estate[i].system) == Mangle(lib.lower, estate[j].system);
    var s, t := estate[i], estate[j];
    SystemIndexPlanned(s);
    SystemIndexPlanned(t);
    var a := IndexOf(lib, s, SystemIndex);
    var b := IndexOf(lib, t, SystemIndex);
    SameIndexPath(lib, s, t);
    IndexHeadsConflict(lib, s, t);
    SharedPathNeverIdle(lib.stamp, files, Systems(lib, estate), roots, i, j, a, b);
  }

  // ---------------------------------------------------------------------------
  // Carriage returns

  lemma CrIndependent(lib: Library, s: Snapshot, key: DocKey, i: seq<Info>, j: seq<Info>)
    requires BuildOk(lib)
    ensures TemplateCrFree(DocBody(lib, s, key, i).t) <==> TemplateCrFree(DocBody(lib, s, key, j).t)
  {
    match key
    case ObjectDoc(o) =>
      assert TemplateCrFree(lib.sections(s, o, i).t) <==> TemplateCrFree(lib.sections(s, o, j).t);
      hide BuildOk, RawObjectBody, TemplateCrFree;
      ObjectBodyOk(lib, s, o, i);
      ObjectBodyOk(lib, s, o, j);
    case SchemaIndex(schema) =>
      hide BuildOk, RawIndexBody, TemplateCrFree, Members, Objects;
      MembersClean(s, schema);
      IndexBodyOk(lib, s, schema, Members(Objects(s), schema), i);
      IndexBodyOk(lib, s, schema, Members(Objects(s), schema), j);
    case _ =>
  }

  lemma EntryBody(lib: Library, s: Snapshot, key: DocKey, files: Files)
    ensures EntryFor(lib, s, key).body(files) == DocBody(lib, s, key, Infos(lib, files, Reads(lib, s, key)))
  {
    hide DocBody, Reads, Infos, Before, After, Path;
  }

  lemma EntryCrFreeIff(lib: Library, s: Snapshot, key: DocKey, files: Files)
    requires BuildOk(lib)
    ensures TemplateCrFree(EntryFor(lib, s, key).body(files).t) <==> TemplateCrFree(DocBody(lib, s, key, []).t)
  {
    hide DocBody, EntryFor, TemplateCrFree, BuildOk, Infos, Reads;
    EntryBody(lib, s, key, files);
    CrIndependent(lib, s, key, Infos(lib, files, Reads(lib, s, key)), []);
  }

  lemma NoCrIff(lib: Library, estate: seq<Snapshot>, files: Files)
    requires BuildOk(lib)
    ensures NoCarriageReturn(files, Systems(lib, estate)) <==> forall s :: s in estate ==> NoCrIn(lib, s)
  {
    hide EntryFor, SystemFor, TemplateCrFree, BuildOk, Plan, DocBody;
    var systems := Systems(lib, estate);
    if forall s :: s in estate ==> NoCrIn(lib, s) {
      forall k, j | 0 <= k < |systems| && 0 <= j < |systems[k].entries| ensures TemplateCrFree(systems[k].entries[j].body(files).t) {
        assert estate[k] in estate;
        var key := EntryOf(lib, estate[k], j);
        EntryCrFreeIff(lib, estate[k], key, files);
      }
    }
    if NoCarriageReturn(files, systems) {
      forall s | s in estate ensures NoCrIn(lib, s) {
        var k :| 0 <= k < |estate| && estate[k] == s;
        forall key | key in Plan(s) ensures TemplateCrFree(DocBody(lib, s, key, []).t) {
          var j := IndexOf(lib, s, key);
          assert systems[k].entries[j] == EntryFor(lib, s, key);
          EntryCrFreeIff(lib, s, key, files);
        }
      }
    }
  }

  /** A planned text with a carriage return: whatever the tree, the second render writes again. */
  lemma CarriageReturnNeverSettles(lib: Library, estate: seq<Snapshot>, files: Files, roots: Roots, s: Snapshot)
    requires EstateOk(lib, estate) && s in estate && !NoCrIn(lib, s)
    ensures var f := Render(lib.stamp, files, Systems(lib, estate), roots).files;
            !Idle(Render(lib.stamp, f, Systems(lib, estate), roots), f)
  {
    hide EntryFor, SystemFor, Render, TemplateCrFree, BuildOk, ScalarOk, Plan, DocBody, Mangle, SnapshotOk, Idle, BodiesReadBack;
    var systems := Systems(lib, estate);
    var f := Render(lib.stamp, files, systems, roots).files;
    if DirsDiffer(lib, estate) {
      EstateInputs(lib, estate);
      SecondRenderIff(lib.stamp, files, systems, roots);
      var k :| 0 <= k < |estate| && estate[k] == s;
      var key :| key in Plan(s) && !TemplateCrFree(DocBody(lib, s, key, []).t);
      var j := IndexOf(lib, s, key);
      EntryCrFreeIff(lib, s, key, f);
      CrReadsOtherwise(EntryFor(lib, s, key).body(f), Text(EntryFor(lib, s, key).body(files)));
      NotReadBack(files, f, systems, k, j);
    } else {
      SharedDirectoryNeverSettles(lib, estate, f, roots);
    }
  }

  lemma CrReadsOtherwise(b: MachineDocs.Body, x: string)
    requires !TemplateCrFree(b.t)
    ensures Text(b) != ReadText(x)
  {
    TextCrFreeIff(b);
    ReadIsCrFree(x);
  }

  lemma NotReadBack(files: Files, f: Files, systems: seq<System>, k: nat, j: nat)
    requires k < |systems| && j < |systems[k].entries|
    requires var e := systems[k].entries[j]; Text(e.body(f)) != ReadText(Text(e.body(files)))
    ensures !BodiesReadBack(files, f, systems)
  {
    hide Text, ReadText;
  }

  // ---------------------------------------------------------------------------
  // An object named index

  function RowAt(s: Snapshot, schema: string, n: nat, infos: seq<Info>, r: nat): nat {
    |IndexTop(s, schema, n, Hot(infos, n))| + r
  }

  lemma SameRowAt(s: Snapshot, schema: string, n: nat, a: seq<Info>, b: seq<Info>, r: nat)
    ensures RowAt(s, schema, n, a, r) == RowAt(s, schema, n, b, r)
  {
    hide Verbatim, Hot, Summary, TableHead, TableRule;
  }

  /** The row of a member, as a line of the index. */
  lemma RowLine(lib: Library, s: Snapshot, schema: string, members: seq<Object>, infos: seq<Info>, r: nat)
    requires r < |members| && BodyOk(RawIndexBody(lib, s, schema, members, infos))
    ensures var b := RawIndexBody(lib, s, schema, members, infos); var k := RowAt(s, schema, |members|, infos, r);
            k < |SplitLines(Text(b))| && SplitLines(Text(b))[k] == FillPiece(RowPiece(lib, members[r], InfoOf(infos, r)), PurposeCell(InfoOf(infos, r).human))
  {
    hide IndexTop, Hot, RowPiece, PurposeCell, SplitLines, FillPiece;
    var b := RawIndexBody(lib, s, schema, members, infos);
    var k := RowAt(s, schema, |members|, infos, r);
    LinesNewlineFree(b.t, b.fills);
    assert b.t[k] == Rows(lib, members, infos)[r];
    assert b.fills[k] == Purposes(infos, |members|)[r];
  }

  /** A row tells whether the human doc is there. */
  lemma RowsDiffer(lib: Library, o: Object, a: Info, b: Info, x: string, y: string)
    requires a.exists_ && !b.exists_
    ensures FillPiece(RowPiece(lib, o, a), x) != FillPiece(RowPiece(lib, o, b), y)
  {
    hide StatusCell, Mangle, RowHead, Cell;
    var f, g := RowFacts(lib, o, a), RowFacts(lib, o, b);
    var start := RowHead(f[..3]);
    assert f[..3] == g[..3] && f[3][0] == '[' && g[3][0] == DASH[0];
    CellInRow(f, 3, x + " |");
    CellInRow(g, 3, y + " |");
    hide RowFacts;
    var p, q := FillPiece(RowPiece(lib, o, a), x), FillPiece(RowPiece(lib, o, b), y);
    assert p == RowHead(f) + (x + " |") && q == RowHead(g) + (y + " |");
  }

  lemma {:induction false} RowHeadSplits(cells: seq<string>, i: nat)
    requires i < |cells|
    ensures RowHead(cells) == RowHead(cells[..i]) + cells[i] + " " + RowHead(cells[i + 1..])
  {
    if i > 0 {
      RowHeadSplits(cells[1..], i - 1);
      assert cells[1..][..i - 1] == cells[..i][1..] && cells[1..][i..] == cells[i + 1..];
    }
  }

  /** Where a cell starts in its row. */
  lemma CellInRow(cells: seq<string>, i: nat, rest: string)
    requires i < |cells| && cells[i] != ""
    ensures var start := RowHead(cells[..i]); var row := RowHead(cells) + rest; |start| < |row| && row[|start|] == cells[i][0]
  {
    hide RowHead;
    RowHeadSplits(cells, i);
  }

  lemma IndexTextsDiffer(lib: Library, s: Snapshot, schema: string, a: seq<Info>, b: seq<Info>, r: nat)
    requires r < |Members(Objects(s), schema)| && InfoOf(a, r).exists_ && !InfoOf(b, r).exists_
    ensures Text(DocBody(lib, s, SchemaIndex(schema), a)) != Text(DocBody(lib, s, SchemaIndex(schema), b))
  {
    hide Members, Objects, RowPiece, FillPiece, SplitLines, RawIndexBody, InfoOf, PurposeCell, RowAt, Text;
    var members := Members(Objects(s), schema);
    MembersClean(s, schema);
    IndexBodyOk(lib, s, schema, members, a);
    IndexBodyOk(lib, s, schema, members, b);
    RowLine(lib, s, schema, members, a, r);
    RowLine(lib, s, schema, members, b, r);
    SameRowAt(s, schema, |members|, a, b, r);
    RowsDiffer(lib, members[r], InfoOf(a, r), InfoOf(b, r), PurposeCell(InfoOf(a, r).human), PurposeCell(InfoOf(b, r).human));
  }

  lemma ReadsOtherwise(a: MachineDocs.Body, b: MachineDocs.Body)
    requires Text(a) != Text(b) && (TemplateCrFree(a.t) <==> TemplateCrFree(b.t))
    ensures Text(a) != ReadText(Text(b))
  {
    hide Text, ReadText, TemplateCrFree;
    if TemplateCrFree(a.t) { TextReadsIff(b); } else { CrReadsOtherwise(a, Text(b)); }
  }

  /** Which of the members a sibling belongs to, among those the index reads. */
  lemma MemberIndex(lib: Library, s: Snapshot, o: Object, files: Files) returns (r: nat)
    requires o in Objects(s)
    ensures var members := Members(Objects(s), o.id.schema);
            && r < |members| && members[r] == o
            && InfoOf(Infos(lib, files, Reads(lib, s, SchemaIndex(o.id.schema))), r).exists_ == (ObjectSibling(lib, s, o) in files)
  {
    hide Objects, ObjectSibling, ReadText;
    var members := Members(Objects(s), o.id.schema);
    r :| 0 <= r < |members| && members[r] == o;
    var paths := Reads(lib, s, SchemaIndex(o.id.schema));
    assert |paths| == |members| && paths[r] == ObjectSibling(lib, s, o);
  }

  lemma IndexIsOwnSibling(lib: Library, s: Snapshot, o: Object)
    requires Mangle(lib.lower, o.id.name) == "index"
    ensures ObjectSibling(lib, s, o) == EntryFor(lib, s, SchemaIndex(o.id.schema)).path
  {
    hide Mangle, In, Reads, DocBody, Before, After;
    HumanDocIndexIff(SchemaDir(lib, s, o.id.schema), Mangle(lib.lower, o.id.name));
  }

  /**
   An object that mangles to `index`: its schema's index takes itself for the object's human doc,
   so on any tree that does not have it yet the second render writes it again.
   */
  lemma IndexObjectUnsettles(lib: Library, estate: seq<Snapshot>, files: Files, roots: Roots, k: nat, o: Object)
    requires EstateOk(lib, estate) && DirsDiffer(lib, estate) && k < |estate|
    requires IsSql(estate[k]) && o in Objects(estate[k]) && Mangle(lib.lower, o.id.name) == "index"
    requires ObjectSibling(lib, estate[k], o) !in files
    ensures var f := Render(lib.stamp, files, Systems(lib, estate), roots).files;
            !Idle(Render(lib.stamp, f, Systems(lib, estate), roots), f)
  {
    hide EntryFor, SystemFor, Render, TemplateCrFree, BuildOk, ScalarOk, Plan, DocBody, Mangle, SnapshotOk, Idle, BodiesReadBack,
         Objects, ObjectSibling, DateAfter, Reads, Infos, DirsDiffer, Text, ReadText, InputsOk;
    var s, key, systems := estate[k], SchemaIndex(o.id.schema), Systems(lib, estate);
    EstateInputs(lib, estate);
    SecondRenderIff(lib.stamp, files, systems, roots);
    TreeOutcome(lib.stamp, files, systems, roots);
    var f := Render(lib.stamp, files, systems, roots).files;
    SchemaIndexPlanned(s, o);
    var j := IndexOf(lib, s, key);
    assert Settled(lib.stamp, files, systems[k].date, f, systems[k].entries[j]);
    IndexIsOwnSibling(lib, s, o);
    var r := MemberIndex(lib, s, o, f);
    var r' := MemberIndex(lib, s, o, files);
    RowReads(lib, s, o, r', r, files);
    IndexTextsDiffer(lib, s, o.id.schema, Infos(lib, f, Reads(lib, s, key)), Infos(lib, files, Reads(lib, s, key)), r);
    EntryBody(lib, s, key, f);
    EntryBody(lib, s, key, files);
    CrIndependent(lib, s, key, Infos(lib, f, Reads(lib, s, key)), Infos(lib, files, Reads(lib, s, key)));
    ReadsOtherwise(EntryFor(lib, s, key).body(f), EntryFor(lib, s, key).body(files));
    NotReadBack(files, f, systems, k, j);
  }

  /** Rows of one object read one file. */
  lemma RowReads(lib: Library, s: Snapshot, o: Object, r: nat, q: nat, files: Files)
    requires var members := Members(Objects(s), o.id.schema); r < |members| && q < |members| && members[r] == members[q] == o
    ensures var infos := Infos(lib, files, Reads(lib, s, SchemaIndex(o.id.schema))); InfoOf(infos, r) == InfoOf(infos, q)
  {
    hide Objects, ObjectSibling, ReadText;
  }

  // ---------------------------------------------------------------------------
  // The exact condition

  ghost predicate AlwaysSettles(lib: Library, estate: seq<Snapshot>, roots: Roots) {
    forall files :: var f := Render(lib.stamp, files, Systems(lib, estate), roots).files; Idle(Render(lib.stamp, f, Systems(lib, estate), roots), f)
  }

  lemma SettledEstate(lib: Library, estate: seq<Snapshot>, files: Files, roots: Roots)
    requires EstateOk(lib, estate) && Settles(lib, estate)
    ensures var f := Render(lib.stamp, files, Systems(lib, estate), roots).files;
            Idle(Render(lib.stamp, f, Systems(lib, estate), roots), f)
  {
    hide SystemFor, Render, BuildOk, ScalarOk, Mangle, SnapshotOk, Idle, DirsDiffer, NoIndexObject, NoCrIn, InputsOk, HumanReads;
    var systems := Systems(lib, estate);
    EstateInputs(lib, estate);
    forall k | 0 <= k < |systems| ensures HumanReads(systems[k]) {
      assert estate[k] in estate;
      SystemReadsHuman(lib, estate[k]);
    }
    RenderFixpointIff(lib.stamp, files, systems, roots);
    NoCrIff(lib, estate, files);
  }

  /**
   For every tree the second render writes and deletes nothing, if and only if the systems'
   directories are pairwise different, no SQL object mangles to `index`, and no planned text
   holds a carriage return.
   */
  lemma SettlesIff(lib: Library, estate: seq<Snapshot>, roots: Roots)
    requires EstateOk(lib, estate)
    ensures AlwaysSettles(lib, estate, roots) <==> Settles(lib, estate)
  {
    hide SystemFor, Render, BuildOk, ScalarOk, Mangle, SnapshotOk, Idle, DirsDiffer, NoCrIn, Objects, Systems, ObjectSibling;
    var none: Files := map[];
    var f := Render(lib.stamp, none, Systems(lib, estate), roots).files;
    if Settles(lib, estate) {
      forall files ensures var g := Render(lib.stamp, files, Systems(lib, estate), roots).files; Idle(Render(lib.stamp, g, Systems(lib, estate), roots), g) {
        SettledEstate(lib, estate, files, roots);
      }
    } else if !DirsDiffer(lib, estate) {
      SharedDirectoryNeverSettles(lib, estate, f, roots);
    } else if exists s :: s in estate && !NoCrIn(lib, s) {
      var s :| s in estate && !NoCrIn(lib, s);
      CarriageReturnNeverSettles(lib, estate, none, roots, s);
    } else {
      var s :| s in estate && !NoIndexObject(lib, s);
      var k :| 0 <= k < |estate| && estate[k] == s;
      var o :| o in Objects(s) && Mangle(lib.lower, o.id.name) == "index";
      IndexObjectUnsettles(lib, estate, none, roots, k, o);
    }
  }

  /** A view whose definition holds a carriage return is such a text, and so is a description. */
  lemma VerbatimCarriageReturn(lib: Library, s: Snapshot, o: Object)
    requires IsSql(s) && o in Objects(s)
    requires (o.description.Some? && '\r' in o.description.value) || (Definition(lib, o).Some? && '\r' in Definition(lib, o).value)
    ensures !NoCrIn(lib, s)
  {
    hide Objects, RawObjectBody, TemplateCrFree, Definition, Sort;
    ObjectBodyOk(lib, s, o, []);
    assert ObjectDoc(o) in Plan(s) by {
      var i :| 0 <= i < |Objects(s)| && Objects(s)[i] == o;
      assert Map(o => ObjectDoc(o), Objects(s))[i] == ObjectDoc(o);
    }
    hide Plan;
    assert !TemplateCrFree(DocBody(lib, s, ObjectDoc(o), []).t);
  }

  // ---------------------------------------------------------------------------
  // Small snapshots that do not settle

  lemma OneObject(s: Snapshot, o: Object)
    requires s.objects == [o] && InFamily(s, o)
    ensures Objects(s) == [OrderedObject(o)]
  {
    assert Sort(ObjectLe, [o][1..]) == [];
    assert Sort(ObjectLe, [o]) == [o];
    assert Chosen(s, [o]) == [o] + Chosen(s, [o][1..]);
    hide OrderedObject;
  }

  /** One table named `index`. */
  lemma TableNamedIndex(lib: Library, s: Snapshot, o: Object)
    requires IsSql(s) && s.objects == [o] && o.id == Identity("table", "public", "index") && lib.lower("index") == "index"
    ensures !NoIndexObject(lib, s)
  {
    assert "table" in SQL_KINDS;
    OneObject(s, o);
    MangleSame(lib.lower, "index");
    hide Mangle, Objects;
    assert OrderedObject(o).id == o.id;
    assert OrderedObject(o) in Objects(s);
  }

  /** One view whose definition was written on another platform. */
  lemma ViewWithCarriageReturn(lib: Library, s: Snapshot, o: Object)
    requires IsSql(s) && s.objects == [o] && o.id.kind == "view"
    requires "definition" in o.stats && lib.plain(o.stats["definition"]) == "select 1\r\n"
    ensures !NoCrIn(lib, s)
  {
    assert "view" in SQL_KINDS;
    OneObject(s, o);
    var p := OrderedObject(o);
    assert p.id == o.id && p.stats == o.stats && p in Objects(s);
    hide Objects, OrderedObject;
    assert Definition(lib, p).value[8] == '\r';
    VerbatimCarriageReturn(lib, s, p);
  }
}
