/**
 `generator/render.py`: rendering the machine-owned part of the knowledge-base tree.  The
 human docs that bodies are built from are read once per system (the renderer caches them,
 and no doc is written before its own body is built), so every body of a system is built
 from the tree as it was when that system's turn came.
 */
module RenderTree {
  import opened TextFiles
  import opened PurposeSlots
  import opened MachineDocs

  predicate EndsWith(s: string, suffix: string) {
    |suffix| <= |s| && s[|s| - |suffix|..] == suffix
  }

  predicate MachineName(path: string) {
    path == "index.md" || EndsWith(path, "/index.md") || EndsWith(path, ".schema.md")
  }

  predicate Under(dir: string, path: string) {
    StartsWith(path, dir + "/")
  }

  datatype System = System(dir: string, entries: seq<Entry>, date: string)

  predicate Planned(sys: System, path: string) {
    exists i :: 0 <= i < |sys.entries| && sys.entries[i].path == path
  }

  /** A machine file of the system that the plan does not define. */
  predicate Stray(sys: System, path: string) {
    Under(sys.dir, path) && MachineName(path) && !Planned(sys, path)
  }

  predicate DistinctPaths(entries: seq<Entry>) {
    forall i, j :: 0 <= i < j < |entries| ==> entries[i].path != entries[j].path
  }

  ghost predicate SystemOk(stamp: Stamp, sys: System) {
    && DateShaped(sys.date) && StartsWith(sys.dir, "systems/") && DistinctPaths(sys.entries)
    && (forall i :: 0 <= i < |sys.entries| ==>
          && EntryOk(sys.entries[i]) && StampOk(stamp, sys.entries[i])
          && Under(sys.dir, sys.entries[i].path) && MachineName(sys.entries[i].path))
  }

  // ---------------------------------------------------------------------------
  // Rendering

  function RenderEntries(stamp: Stamp, base: Files, files: Files, sys: System, i: nat): (Files, seq<string>)
    requires i <= |sys.entries|
    decreases |sys.entries| - i
  {
    if i == |sys.entries| then
      (files, [])
    else
      var e := sys.entries[i];
      var (f, w) := WriteMachine(stamp, files, e, e.body(base), sys.date);
      var (f', ws) := RenderEntries(stamp, base, f, sys, i + 1);
      (f', (if w then [e.path] else []) + ws)
  }

  function Pruned(files: Files, sys: System): Files {
    map p | p in files && !Stray(sys, p) :: files[p]
  }

  function Strays(files: Files, sys: System): set<string> {
    set p | p in files && Stray(sys, p)
  }

  datatype Rendered = Rendered(files: Files, written: seq<string>, deleted: set<string>)

  function RenderSystem(stamp: Stamp, files: Files, sys: System): Rendered {
    var (f, ws) := RenderEntries(stamp, files, files, sys, 0);
    Rendered(Pruned(f, sys), ws, Strays(f, sys))
  }

  function RenderSystems(stamp: Stamp, files: Files, systems: seq<System>, i: nat): Rendered
    requires i <= |systems|
    decreases |systems| - i
  {
    if i == |systems| then
      Rendered(files, [], {})
    else
      var r := RenderSystem(stamp, files, systems[i]);
      var r' := RenderSystems(stamp, r.files, systems, i + 1);
      Rendered(r'.files, r.written + r'.written, r.deleted + r'.deleted)
  }

  /** The two root docs of a new tree; they are written only when absent. */
  datatype Roots = Roots(index: string, conventions: string)

  function Bootstrapped(files: Files, roots: Roots): Files {
    var f := if "index.md" in files then files else files["index.md" := roots.index];
    if "conventions.md" in f then f else f["conventions.md" := roots.conventions]
  }

  function Render(stamp: Stamp, files: Files, systems: seq<System>, roots: Roots): Rendered {
    var r := RenderSystems(stamp, files, systems, 0);
    r.(files := Bootstrapped(r.files, roots))
  }

  /** A render that wrote and deleted nothing. */
  predicate Idle(r: Rendered, files: Files) {
    r == Rendered(files, [], {})
  }

  // ---------------------------------------------------------------------------
  // When a render is idle

  /** Every planned doc reads as it would be rendered now, and there are no strays. */
  ghost predicate AtRest(stamp: Stamp, files: Files, sys: System) {
    && (forall i :: 0 <= i < |sys.entries| ==> Fresh(stamp, files, sys.entries[i], sys.entries[i].body(files)))
    && (forall p :: p in files ==> !Stray(sys, p))
  }

  lemma {:induction false} EntriesIdleIff(stamp: Stamp, base: Files, files: Files, sys: System, i: nat)
    requires i <= |sys.entries|
    ensures var (f, ws) := RenderEntries(stamp, base, files, sys, i);
            if forall k :: i <= k < |sys.entries| ==> Fresh(stamp, files, sys.entries[k], sys.entries[k].body(base))
            then f == files && ws == [] else ws != []
    decreases |sys.entries| - i
  {
    hide Fresh, Head, Text, NewStamp, ReadText;
    if i < |sys.entries| {
      var e := sys.entries[i];
      if Fresh(stamp, files, e, e.body(base)) { EntriesIdleIff(stamp, base, files, sys, i + 1); }
    }
  }

  lemma SystemIdleIff(stamp: Stamp, files: Files, sys: System)
    ensures var r := RenderSystem(stamp, files, sys);
            if AtRest(stamp, files, sys) then Idle(r, files) else r.written != [] || r.deleted != {}
  {
    hide RenderEntries, Fresh, Stray;
    EntriesIdleIff(stamp, files, files, sys, 0);
    if forall i :: 0 <= i < |sys.entries| ==> Fresh(stamp, files, sys.entries[i], sys.entries[i].body(files)) {
      if forall p :: p in files ==> !Stray(sys, p) {
        assert Pruned(files, sys) == files && Strays(files, sys) == {};
      } else {
        var p :| p in files && Stray(sys, p);
        assert p in Strays(files, sys);
      }
    }
  }

  lemma {:induction false} SystemsIdleIff(stamp: Stamp, files: Files, systems: seq<System>, i: nat)
    requires i <= |systems|
    ensures var r := RenderSystems(stamp, files, systems, i);
            if forall k :: i <= k < |systems| ==> AtRest(stamp, files, systems[k])
            then Idle(r, files) else r.written != [] || r.deleted != {}
    decreases |systems| - i
  {
    hide AtRest, RenderSystem;
    if i < |systems| {
      SystemIdleIff(stamp, files, systems[i]);
      if AtRest(stamp, files, systems[i]) { SystemsIdleIff(stamp, files, systems, i + 1); }
    }
  }

  /** For every tree: a render is idle if and only if every system is at rest and the root docs are there. */
  lemma IdleIff(stamp: Stamp, files: Files, systems: seq<System>, roots: Roots)
    ensures Idle(Render(stamp, files, systems, roots), files) <==>
              && (forall k :: 0 <= k < |systems| ==> AtRest(stamp, files, systems[k]))
              && "index.md" in files && "conventions.md" in files
  {
    hide AtRest, RenderSystems;
    SystemsIdleIff(stamp, files, systems, 0);
  }

  /** Two docs whose front matter can never be the same text. */
  ghost predicate HeadsConflict(a: Entry, b: Entry) {
    forall d, d', x: string, y: string :: Head(a, d) + x != Head(b, d') + y
  }

  lemma ConflictNotFresh(stamp: Stamp, files: Files, a: Entry, b: Entry, x: Body, y: Body)
    requires a.path == b.path && HeadsConflict(a, b) && Fresh(stamp, files, a, x)
    ensures !Fresh(stamp, files, b, y)
  {
    hide Head, Text, StampOf, ReadText;
    var text := ReadText(files[a.path]);
    var d := StampOf(stamp, text).value;
    assert text == Head(a, d) + Text(x);
    assert text != Head(b, d) + Text(y);
  }

  /** Two systems that plan one path for different docs: no tree at all is left alone. */
  lemma SharedPathNeverIdle(stamp: Stamp, files: Files, systems: seq<System>, roots: Roots, i: nat, j: nat, a: nat, b: nat)
    requires i < |systems| && j < |systems| && a < |systems[i].entries| && b < |systems[j].entries|
    requires systems[i].entries[a].path == systems[j].entries[b].path && HeadsConflict(systems[i].entries[a], systems[j].entries[b])
    ensures !Idle(Render(stamp, files, systems, roots), files)
  {
    hide Render, Fresh, HeadsConflict, Stray;
    IdleIff(stamp, files, systems, roots);
    if AtRest(stamp, files, systems[i]) {
      var x, y := systems[i].entries[a], systems[j].entries[b];
      ConflictNotFresh(stamp, files, x, y, x.body(files), y.body(files));
    }
  }

  // ---------------------------------------------------------------------------
  // One system

  /** Two trees agree on a path. */
  predicate SameAt(f: Files, g: Files, p: string) {
    (p in f <==> p in g) && (p in f ==> f[p] == g[p])
  }

  lemma SameTrans(f: Files, g: Files, h: Files, p: string)
    requires SameAt(f, g, p) && SameAt(g, h, p)
    ensures SameAt(f, h, p)
  {
  }

  /** The doc is rendered from the tree `base`, with the stamp that tree calls for. */
  ghost predicate Settled(stamp: Stamp, base: Files, date: string, f: Files, e: Entry) {
    Shows(f, e, DateAfter(stamp, base, e, e.body(base), date), e.body(base))
  }

  predicate PlannedFrom(sys: System, i: nat, path: string) {
    exists k :: i <= k < |sys.entries| && sys.entries[k].path == path
  }

  lemma SameDate(stamp: Stamp, f: Files, g: Files, e: Entry, b: Body, date: string)
    requires SameAt(f, g, e.path)
    ensures DateAfter(stamp, f, e, b, date) == DateAfter(stamp, g, e, b, date)
  {
  }

  lemma EntryOutcome(stamp: Stamp, base: Files, files: Files, e: Entry, date: string)
    requires EntryOk(e) && StampOk(stamp, e) && DateShaped(date) && SameAt(files, base, e.path)
    ensures var f := WriteMachine(stamp, files, e, e.body(base), date).0;
            (forall p :: p != e.path ==> SameAt(f, files, p)) && Settled(stamp, base, date, f, e)
  {
    WriteSettles(stamp, files, e, e.body(base), date);
    SameDate(stamp, files, base, e, e.body(base), date);
    hide WriteMachine, DateAfter, StampOk, Head, Text, ReadText;
  }

  lemma SettledStays(stamp: Stamp, base: Files, date: string, f: Files, g: Files, e: Entry)
    requires Settled(stamp, base, date, f, e) && SameAt(g, f, e.path)
    ensures Settled(stamp, base, date, g, e)
  {
    hide DateAfter, Head, Text, DateShaped, ReadText;
  }

  lemma {:induction false} EntriesOutcome(stamp: Stamp, base: Files, files: Files, sys: System, i: nat)
    requires SystemOk(stamp, sys) && i <= |sys.entries|
    requires forall k :: i <= k < |sys.entries| ==> SameAt(files, base, sys.entries[k].path)
    ensures var f := RenderEntries(stamp, base, files, sys, i).0;
            && (forall p :: !PlannedFrom(sys, i, p) ==> SameAt(f, files, p))
            && (forall k :: i <= k < |sys.entries| ==> Settled(stamp, base, sys.date, f, sys.entries[k]))
    decreases |sys.entries| - i
  {
    hide WriteMachine, StampOk, EntryOk, DateShaped, MachineName, Settled, Under;
    if i < |sys.entries| {
      var e := sys.entries[i];
      EntryOutcome(stamp, base, files, e, sys.date);
      var f1 := WriteMachine(stamp, files, e, e.body(base), sys.date).0;
      forall k | i + 1 <= k < |sys.entries| ensures SameAt(f1, base, sys.entries[k].path) {
        assert sys.entries[k].path != sys.entries[i].path;
        SameTrans(f1, files, base, sys.entries[k].path);
      }
      EntriesOutcome(stamp, base, f1, sys, i + 1);
      var f := RenderEntries(stamp, base, f1, sys, i + 1).0;
      assert !PlannedFrom(sys, i + 1, e.path);
      SettledStays(stamp, base, sys.date, f1, f, e);
      forall p | !PlannedFrom(sys, i, p) ensures SameAt(f, files, p) {
        assert !PlannedFrom(sys, i + 1, p) && p != e.path;
        assert SameAt(f, f1, p) && SameAt(f1, files, p);
      }
    }
  }

  /** What rendering one system does to a tree. */
  ghost predicate SystemDone(stamp: Stamp, files: Files, sys: System, f: Files)
  {
    && (forall p :: !Under(sys.dir, p) || !MachineName(p) ==> SameAt(f, files, p))
    && (forall i :: 0 <= i < |sys.entries| ==> Settled(stamp, files, sys.date, f, sys.entries[i]))
    && (forall p :: p in f ==> !Stray(sys, p))
  }

  lemma PrunedSame(f: Files, sys: System, p: string)
    requires !Stray(sys, p)
    ensures SameAt(Pruned(f, sys), f, p)
  {
  }

  lemma PlannedMachine(stamp: Stamp, sys: System, p: string)
    requires SystemOk(stamp, sys) && PlannedFrom(sys, 0, p)
    ensures Under(sys.dir, p) && MachineName(p) && Planned(sys, p)
  {
    hide MachineName, StampOk, EntryOk;
  }

  lemma SystemOutcome(stamp: Stamp, files: Files, sys: System)
    requires SystemOk(stamp, sys)
    ensures SystemDone(stamp, files, sys, RenderSystem(stamp, files, sys).files)
  {
    EntriesOutcome(stamp, files, files, sys, 0);
    var f := RenderEntries(stamp, files, files, sys, 0).0;
    var g := Pruned(f, sys);
    hide RenderEntries, Settled, SystemOk, MachineName, Under, Pruned;
    forall p | !Under(sys.dir, p) || !MachineName(p) ensures SameAt(g, files, p) {
      assert !PlannedFrom(sys, 0, p) by { if PlannedFrom(sys, 0, p) { PlannedMachine(stamp, sys, p); } }
      PrunedSame(f, sys, p);
      SameTrans(g, f, files, p);
    }
    forall i | 0 <= i < |sys.entries| ensures Settled(stamp, files, sys.date, g, sys.entries[i]) {
      assert Planned(sys, sys.entries[i].path);
      PrunedSame(f, sys, sys.entries[i].path);
      SettledStays(stamp, files, sys.date, f, g, sys.entries[i]);
    }
    NoStrayLeft(f, sys);
  }

  lemma NoStrayLeft(f: Files, sys: System)
    ensures forall p :: p in Pruned(f, sys) ==> !Stray(sys, p)
  {
  }

  // ---------------------------------------------------------------------------
  // All systems

  /** No path lies under two of the systems' directories. */
  ghost predicate DisjointDirs(systems: seq<System>) {
    forall i, j, p :: 0 <= i < j < |systems| ==> !(Under(systems[i].dir, p) && Under(systems[j].dir, p))
  }

  ghost predicate SameUnder(dir: string, f: Files, g: Files) {
    forall p :: Under(dir, p) ==> SameAt(f, g, p)
  }

  /** Bodies are built from files of the system's own directory. */
  ghost predicate LocalReads(sys: System) {
    forall i, f, g :: 0 <= i < |sys.entries| && SameUnder(sys.dir, f, g) ==> sys.entries[i].body(f) == sys.entries[i].body(g)
  }

  ghost predicate InputsOk(stamp: Stamp, systems: seq<System>) {
    DisjointDirs(systems) && forall i :: 0 <= i < |systems| ==> SystemOk(stamp, systems[i]) && LocalReads(systems[i])
  }

  predicate UnderSome(systems: seq<System>, i: nat, p: string) {
    exists k :: i <= k < |systems| && Under(systems[k].dir, p)
  }

  ghost predicate TreeDone(stamp: Stamp, base: Files, files: Files, systems: seq<System>, i: nat, f: Files)
  {
    && (forall p :: !UnderSome(systems, i, p) || !MachineName(p) ==> SameAt(f, files, p))
    && (forall k, j :: i <= k < |systems| && 0 <= j < |systems[k].entries| ==>
          Settled(stamp, base, systems[k].date, f, systems[k].entries[j]))
    && (forall k, p :: i <= k < |systems| && p in f ==> !Stray(systems[k], p))
  }

  /** A system rendered later is rendered from the same files of its own. */
  lemma SettledFrom(stamp: Stamp, base: Files, files: Files, sys: System, f: Files, j: nat)
    requires j < |sys.entries| && SystemOk(stamp, sys) && LocalReads(sys) && SameUnder(sys.dir, files, base)
    requires Settled(stamp, files, sys.date, f, sys.entries[j])
    ensures Settled(stamp, base, sys.date, f, sys.entries[j])
  {
    var e := sys.entries[j];
    assert SameAt(files, base, e.path);
    assert e.body(files) == e.body(base);
    SameDate(stamp, files, base, e, e.body(base), sys.date);
    hide DateAfter, Head, Text, ReadText, SystemOk, LocalReads, SameUnder;
  }

  lemma {:induction false} SystemsOutcome(stamp: Stamp, base: Files, files: Files, systems: seq<System>, i: nat)
    requires InputsOk(stamp, systems) && i <= |systems|
    requires forall k :: i <= k < |systems| ==> SameUnder(systems[k].dir, files, base)
    ensures TreeDone(stamp, base, files, systems, i, RenderSystems(stamp, files, systems, i).files)
    decreases |systems| - i
  {
    if i < |systems| {
      SystemOutcome(stamp, files, systems[i]);
      hide RenderSystem, SystemOk, LocalReads, Settled, MachineName, Under, SameAt, Stray;
      var f1 := RenderSystem(stamp, files, systems[i]).files;
      forall k | i + 1 <= k < |systems| ensures SameUnder(systems[k].dir, f1, base) {
        forall p | Under(systems[k].dir, p) ensures SameAt(f1, base, p) {
          assert !Under(systems[i].dir, p);
          SameTrans(f1, files, base, p);
        }
      }
      SystemsOutcome(stamp, base, f1, systems, i + 1);
      TreeStep(stamp, base, files, f1, RenderSystems(stamp, f1, systems, i + 1).files, systems, i);
    }
  }

  lemma OwnFilesStay(systems: seq<System>, i: nat, f1: Files, f: Files)
    requires i < |systems| && DisjointDirs(systems)
    requires forall p :: !UnderSome(systems, i + 1, p) || !MachineName(p) ==> SameAt(f, f1, p)
    ensures SameUnder(systems[i].dir, f, f1)
  {
    forall p | Under(systems[i].dir, p) ensures SameAt(f, f1, p) {
      assert !UnderSome(systems, i + 1, p);
    }
  }

  lemma TreeStep(stamp: Stamp, base: Files, files: Files, f1: Files, f: Files, systems: seq<System>, i: nat)
    requires i < |systems| && DisjointDirs(systems) && SystemOk(stamp, systems[i]) && LocalReads(systems[i])
    requires SameUnder(systems[i].dir, files, base)
    requires SystemDone(stamp, files, systems[i], f1) && TreeDone(stamp, base, f1, systems, i + 1, f)
    ensures TreeDone(stamp, base, files, systems, i, f)
  {
    OwnFilesStay(systems, i, f1, f);
    hide MachineName, StampOk, EntryOk, DateShaped, Settled, LocalReads;
    forall p | !UnderSome(systems, i, p) || !MachineName(p) ensures SameAt(f, files, p) {
      assert !UnderSome(systems, i, p) ==> !UnderSome(systems, i + 1, p) && !Under(systems[i].dir, p);
      SameTrans(f, f1, files, p);
    }
    forall j | 0 <= j < |systems[i].entries| ensures Settled(stamp, base, systems[i].date, f, systems[i].entries[j]) {
      SettledFrom(stamp, base, files, systems[i], f1, j);
      SettledStays(stamp, base, systems[i].date, f1, f, systems[i].entries[j]);
    }
    forall p | p in f ensures !Stray(systems[i], p) {
      assert Under(systems[i].dir, p) ==> SameAt(f, f1, p);
    }
  }

  /** The root docs lie outside every system. */
  lemma RootIsOutside(files: Files, roots: Roots, p: string)
    requires Under("systems", p)
    ensures SameAt(Bootstrapped(files, roots), files, p)
  {
    assert p[0] == "systems/"[0] == 's' by { assert p[..8] == "systems/"; assert p[..8][0] == p[0]; }
    assert "index.md"[0] == 'i' && "conventions.md"[0] == 'c';
  }

  lemma UnderSystems(dir: string, p: string)
    requires StartsWith(dir, "systems/") && Under(dir, p)
    ensures Under("systems", p)
  {
    assert (dir + "/")[..8] == dir[..8];
    assert p[..8] == p[..|dir + "/"|][..8];
    assert "systems" + "/" == "systems/";
  }

  lemma DirUnderSystems(stamp: Stamp, systems: seq<System>, k: nat, p: string)
    requires InputsOk(stamp, systems) && k < |systems| && Under(systems[k].dir, p)
    ensures Under("systems", p)
  {
    assert SystemOk(stamp, systems[k]);
    UnderSystems(systems[k].dir, p);
  }

  /** After a whole render: every doc settled for the old tree, no stray left, both root docs there. */
  lemma TreeOutcome(stamp: Stamp, files: Files, systems: seq<System>, roots: Roots)
    requires InputsOk(stamp, systems)
    ensures var f := Render(stamp, files, systems, roots).files;
            && (forall p :: Under("systems", p) && (!UnderSome(systems, 0, p) || !MachineName(p)) ==> SameAt(f, files, p))
            && (forall k, j :: 0 <= k < |systems| && 0 <= j < |systems[k].entries| ==>
                  Settled(stamp, files, systems[k].date, f, systems[k].entries[j]))
            && (forall k, p :: 0 <= k < |systems| && p in f ==> !Stray(systems[k], p))
            && "index.md" in f && "conventions.md" in f
  {
    SystemsOutcome(stamp, files, files, systems, 0);
    var g := RenderSystems(stamp, files, systems, 0).files;
    var f := Bootstrapped(g, roots);
    BothRootsPresent(g, roots);
    hide RenderSystems, Settled, MachineName, Planned, Bootstrapped, InputsOk;
    forall p | Under("systems", p) ensures SameAt(f, g, p) { RootIsOutside(g, roots, p); }
    forall k, j | 0 <= k < |systems| && 0 <= j < |systems[k].entries|
      ensures Settled(stamp, files, systems[k].date, f, systems[k].entries[j])
    {
      EntryUnderSystems(stamp, systems, k, j);
      SettledStays(stamp, files, systems[k].date, g, f, systems[k].entries[j]);
    }
    forall k, p | 0 <= k < |systems| && p in f ensures !Stray(systems[k], p) {
      if Under(systems[k].dir, p) { DirUnderSystems(stamp, systems, k, p); }
    }
  }

  lemma EntryUnderSystems(stamp: Stamp, systems: seq<System>, k: nat, j: nat)
    requires InputsOk(stamp, systems) && k < |systems| && j < |systems[k].entries|
    ensures Under("systems", systems[k].entries[j].path)
  {
    assert SystemOk(stamp, systems[k]);
    UnderSystems(systems[k].dir, systems[k].entries[j].path);
  }

  lemma BothRootsPresent(g: Files, roots: Roots)
    ensures "index.md" in Bootstrapped(g, roots) && "conventions.md" in Bootstrapped(g, roots)
  {
  }

  // ---------------------------------------------------------------------------
  // Fixpoint

  /** Every body the tree `f` gives is the one the tree `files` gives, as it reads back. */
  ghost predicate BodiesReadBack(files: Files, f: Files, systems: seq<System>) {
    forall k, j :: 0 <= k < |systems| && 0 <= j < |systems[k].entries| ==>
      var e := systems[k].entries[j]; Text(e.body(f)) == ReadText(Text(e.body(files)))
  }

  lemma RestIff(stamp: Stamp, files: Files, sys: System, f: Files)
    requires SystemOk(stamp, sys)
    requires forall j :: 0 <= j < |sys.entries| ==> Settled(stamp, files, sys.date, f, sys.entries[j])
    requires forall p :: p in f ==> !Stray(sys, p)
    ensures AtRest(stamp, f, sys) <==>
              forall j :: 0 <= j < |sys.entries| ==> Text(sys.entries[j].body(f)) == ReadText(Text(sys.entries[j].body(files)))
  {
    hide Fresh, Text, ReadText, StampOk, EntryOk, MachineName, Stray, Shows, DateAfter;
    forall j | 0 <= j < |sys.entries|
      ensures Fresh(stamp, f, sys.entries[j], sys.entries[j].body(f)) <==> Text(sys.entries[j].body(f)) == ReadText(Text(sys.entries[j].body(files)))
    {
      var e := sys.entries[j];
      FreshIff(stamp, f, e, DateAfter(stamp, files, e, e.body(files), sys.date), e.body(files), e.body(f));
    }
  }

  /** The second render is idle if and only if every body built from the rendered tree is the first one as it reads back. */
  lemma SecondRenderIff(stamp: Stamp, files: Files, systems: seq<System>, roots: Roots)
    requires InputsOk(stamp, systems)
    ensures var f := Render(stamp, files, systems, roots).files;
            Idle(Render(stamp, f, systems, roots), f) <==> BodiesReadBack(files, f, systems)
  {
    hide Render, AtRest, Settled, Stray, Text, ReadText, LocalReads, DisjointDirs, SystemOk;
    TreeOutcome(stamp, files, systems, roots);
    var f := Render(stamp, files, systems, roots).files;
    IdleIff(stamp, f, systems, roots);
    forall k | 0 <= k < |systems|
      ensures AtRest(stamp, f, systems[k]) <==>
                forall j :: 0 <= j < |systems[k].entries| ==> Text(systems[k].entries[j].body(f)) == ReadText(Text(systems[k].entries[j].body(files)))
    {
      RestIff(stamp, files, systems[k], f);
    }
  }

  /** The trees agree on the human-owned files of the directory. */
  ghost predicate SameHuman(dir: string, f: Files, g: Files) {
    forall p :: Under(dir, p) && !MachineName(p) ==> SameAt(f, g, p)
  }

  /** Bodies are built from human-owned files alone. */
  ghost predicate HumanReads(sys: System) {
    forall i, f, g :: 0 <= i < |sys.entries| && SameHuman(sys.dir, f, g) ==> sys.entries[i].body(f) == sys.entries[i].body(g)
  }

  /** Rendering leaves what the bodies are built from alone. */
  lemma BodiesKept(stamp: Stamp, files: Files, systems: seq<System>, roots: Roots, k: nat, j: nat)
    requires InputsOk(stamp, systems) && k < |systems| && HumanReads(systems[k]) && j < |systems[k].entries|
    ensures systems[k].entries[j].body(Render(stamp, files, systems, roots).files) == systems[k].entries[j].body(files)
  {
    TreeOutcome(stamp, files, systems, roots);
    var f := Render(stamp, files, systems, roots).files;
    hide Render, Settled, MachineName, InputsOk, Stray;
    forall p | Under(systems[k].dir, p) && !MachineName(p) ensures SameAt(f, files, p) { DirUnderSystems(stamp, systems, k, p); }
    assert SameHuman(systems[k].dir, f, files);
  }

  ghost predicate NoCarriageReturn(files: Files, systems: seq<System>) {
    forall k, j :: 0 <= k < |systems| && 0 <= j < |systems[k].entries| ==> TemplateCrFree(systems[k].entries[j].body(files).t)
  }

  /**
   Rendering reaches a fixpoint exactly without carriage returns: with the same inputs a second
   render writes and deletes nothing if and only if no planned body holds one.
   */
  lemma RenderFixpointIff(stamp: Stamp, files: Files, systems: seq<System>, roots: Roots)
    requires InputsOk(stamp, systems) && forall k :: 0 <= k < |systems| ==> HumanReads(systems[k])
    ensures var f := Render(stamp, files, systems, roots).files;
            Idle(Render(stamp, f, systems, roots), f) <==> NoCarriageReturn(files, systems)
  {
    hide Render, InputsOk, HumanReads, Text, ReadText, TemplateCrFree;
    SecondRenderIff(stamp, files, systems, roots);
    var f := Render(stamp, files, systems, roots).files;
    forall k, j | 0 <= k < |systems| && 0 <= j < |systems[k].entries|
      ensures var e := systems[k].entries[j];
              Text(e.body(f)) == ReadText(Text(e.body(files))) <==> TemplateCrFree(e.body(files).t)
    {
      BodiesKept(stamp, files, systems, roots, k, j);
      TextReadsIff(systems[k].entries[j].body(files));
    }
  }

  // ---------------------------------------------------------------------------
  // Stamps over runs

  /** Only purpose fields of human docs changed: machine docs are untouched and every template is the same. */
  ghost predicate PurposeEdit(systems: seq<System>, f: Files, g: Files) {
    forall k, j :: 0 <= k < |systems| && 0 <= j < |systems[k].entries| ==>
      var e := systems[k].entries[j];
      SameAt(g, f, e.path) && e.body(g).t == e.body(f).t
  }

  /** Every planned doc reads as rendered for the current tree and is stamped as `dates` says. */
  ghost predicate Stamped(systems: seq<System>, f: Files, dates: map<string, string>) {
    forall k, j :: 0 <= k < |systems| && 0 <= j < |systems[k].entries| ==>
      var e := systems[k].entries[j];
      e.path in dates && Shows(f, e, dates[e.path], e.body(f))
  }

  /** A doc keeps its stamp: it holds no carriage return, or is rendered on its own date again. */
  ghost predicate KeepsStamp(sys: System, e: Entry, t: Template, dates: map<string, string>) {
    TemplateCrFree(t) || (e.path in dates && sys.date == dates[e.path])
  }

  ghost predicate AllKeepStamps(systems: seq<System>, f: Files, dates: map<string, string>) {
    forall k, j :: 0 <= k < |systems| && 0 <= j < |systems[k].entries| ==>
      KeepsStamp(systems[k], systems[k].entries[j], systems[k].entries[j].body(f).t, dates)
  }

  lemma StampKeptIff(stamp: Stamp, f: Files, g: Files, e: Entry, d: string, date: string)
    requires EntryOk(e) && StampOk(stamp, e) && Shows(f, e, d, e.body(f))
    requires SameAt(g, f, e.path) && e.body(g).t == e.body(f).t
    ensures DateAfter(stamp, g, e, e.body(g), date) == if TemplateCrFree(e.body(f).t) then d else date
  {
    hide DateAfter, Head, Text, StampOk, EntryOk, ReadText, TemplateCrFree;
    assert Shows(g, e, d, e.body(f));
    RefillKeepsStampIff(stamp, g, e, e.body(f), e.body(g), d, date);
  }

  /** A doc shows one date only. */
  lemma OneDate(stamp: Stamp, f: Files, e: Entry, d: string, d': string, b: Body)
    requires EntryOk(e) && StampOk(stamp, e) && Shows(f, e, d, b) && Shows(f, e, d', b)
    ensures d == d'
  {
    StampShown(stamp, f, e, d, b);
    StampShown(stamp, f, e, d', b);
  }

  lemma DocStampIff(stamp: Stamp, f: Files, g: Files, systems: seq<System>, dates: map<string, string>, roots: Roots, k: nat, j: nat)
    requires InputsOk(stamp, systems) && (forall i :: 0 <= i < |systems| ==> HumanReads(systems[i]))
    requires Stamped(systems, f, dates) && PurposeEdit(systems, f, g)
    requires k < |systems| && j < |systems[k].entries|
    ensures var h := Render(stamp, g, systems, roots).files; var e := systems[k].entries[j];
            Shows(h, e, dates[e.path], e.body(h)) <==> KeepsStamp(systems[k], e, e.body(f).t, dates)
  {
    var e := systems[k].entries[j];
    assert SystemOk(stamp, systems[k]);
    TreeOutcome(stamp, g, systems, roots);
    BodiesKept(stamp, g, systems, roots, k, j);
    var h := Render(stamp, g, systems, roots).files;
    hide Render, InputsOk, HumanReads, Shows, EntryOk, StampOk, DateShaped, MachineName, Under, Stray, TemplateCrFree, UnderSome;
    StampKeptIff(stamp, f, g, e, dates[e.path], systems[k].date);
    assert Settled(stamp, g, systems[k].date, h, e);
    var d := DateAfter(stamp, g, e, e.body(g), systems[k].date);
    if Shows(h, e, dates[e.path], e.body(h)) { OneDate(stamp, h, e, d, dates[e.path], e.body(h)); }
  }

  /**
   A render after purpose edits keeps every stamp if and only if each doc holds no carriage
   return or is rendered on the date it already carries.
   */
  lemma RenderKeepsStampsIff(stamp: Stamp, f: Files, g: Files, systems: seq<System>, dates: map<string, string>, roots: Roots)
    requires InputsOk(stamp, systems) && (forall i :: 0 <= i < |systems| ==> HumanReads(systems[i]))
    requires Stamped(systems, f, dates) && PurposeEdit(systems, f, g)
    ensures Stamped(systems, Render(stamp, g, systems, roots).files, dates) <==> AllKeepStamps(systems, f, dates)
  {
    hide Render, InputsOk, HumanReads, Shows, PurposeEdit, KeepsStamp;
    var h := Render(stamp, g, systems, roots).files;
    forall k, j | 0 <= k < |systems| && 0 <= j < |systems[k].entries|
      ensures var e := systems[k].entries[j];
              e.path in dates && (Shows(h, e, dates[e.path], e.body(h)) <==> KeepsStamp(systems[k], e, e.body(f).t, dates))
    {
      DocStampIff(stamp, f, g, systems, dates, roots, k, j);
    }
  }

  /** The same docs in the same directories; the dates may differ. */
  ghost predicate SamePlan(a: seq<System>, b: seq<System>) {
    |a| == |b| && forall k :: 0 <= k < |a| ==> a[k].dir == b[k].dir && a[k].entries == b[k].entries
  }

  /** One round of a run: purpose edits on the previous tree, then a render with that round's capture dates. */
  datatype Round = Round(edited: Files, systems: seq<System>)

  ghost predicate IsRun(stamp: Stamp, plan: seq<System>, trees: seq<Files>, rounds: seq<Round>, roots: Roots)
  {
    && |trees| == |rounds| + 1 && (forall k :: 0 <= k < |plan| ==> HumanReads(plan[k]))
    && forall i :: 0 <= i < |rounds| ==>
         && InputsOk(stamp, rounds[i].systems) && SamePlan(rounds[i].systems, plan)
         && PurposeEdit(plan, trees[i], rounds[i].edited)
         && trees[i + 1] == Render(stamp, rounds[i].edited, rounds[i].systems, roots).files
  }

  lemma PlanAgrees(a: seq<System>, b: seq<System>, f: Files, g: Files, dates: map<string, string>)
    requires SamePlan(a, b)
    ensures Stamped(a, f, dates) <==> Stamped(b, f, dates)
    ensures PurposeEdit(a, f, g) <==> PurposeEdit(b, f, g)
    ensures (forall k :: 0 <= k < |b| ==> HumanReads(b[k])) ==> forall k :: 0 <= k < |a| ==> HumanReads(a[k])
  {
    hide Shows, SameAt, Under, MachineName;
  }

  /** In every round every doc of the first tree keeps its stamp. */
  ghost predicate RunKeeps(rounds: seq<Round>, n: nat, first: Files, dates: map<string, string>)
    requires n <= |rounds|
  {
    forall i :: 0 <= i < n ==> AllKeepStamps(rounds[i].systems, first, dates)
  }

  /** Edits and renders leave every template as it was in the first tree. */
  ghost predicate SameTemplates(plan: seq<System>, f: Files, g: Files) {
    forall k, j :: 0 <= k < |plan| && 0 <= j < |plan[k].entries| ==> plan[k].entries[j].body(f).t == plan[k].entries[j].body(g).t
  }

  lemma RoundKeepsTemplates(stamp: Stamp, plan: seq<System>, trees: seq<Files>, rounds: seq<Round>, roots: Roots, n: nat)
    requires IsRun(stamp, plan, trees, rounds, roots) && n < |rounds|
    ensures SameTemplates(plan, trees[n + 1], trees[n])
  {
    var round := rounds[n];
    PlanAgrees(round.systems, plan, trees[n], round.edited, map[]);
    hide Render, InputsOk, HumanReads;
    forall k, j | 0 <= k < |plan| && 0 <= j < |plan[k].entries|
      ensures plan[k].entries[j].body(trees[n + 1]).t == plan[k].entries[j].body(trees[n]).t
    {
      assert round.systems[k].entries == plan[k].entries;
      BodiesKept(stamp, round.edited, round.systems, roots, k, j);
    }
  }

  lemma SameKeeps(a: seq<System>, plan: seq<System>, f: Files, g: Files, dates: map<string, string>)
    requires SamePlan(a, plan) && SameTemplates(plan, f, g)
    ensures AllKeepStamps(a, f, dates) <==> AllKeepStamps(a, g, dates)
  {
    hide KeepsStamp;
    forall k, j | 0 <= k < |a| && 0 <= j < |a[k].entries| ensures a[k].entries[j].body(f).t == a[k].entries[j].body(g).t {
      assert a[k].entries == plan[k].entries;
    }
  }

  lemma {:induction false} TemplatesKept(stamp: Stamp, plan: seq<System>, trees: seq<Files>, rounds: seq<Round>, roots: Roots, n: nat)
    requires IsRun(stamp, plan, trees, rounds, roots) && n < |trees|
    ensures SameTemplates(plan, trees[n], trees[0])
  {
    hide IsRun;
    if n > 0 {
      assert |trees| == |rounds| + 1 by { RunLength(stamp, plan, trees, rounds, roots); }
      TemplatesKept(stamp, plan, trees, rounds, roots, n - 1);
      RoundKeepsTemplates(stamp, plan, trees, rounds, roots, n - 1);
    }
  }

  lemma RunLength(stamp: Stamp, plan: seq<System>, trees: seq<Files>, rounds: seq<Round>, roots: Roots)
    requires IsRun(stamp, plan, trees, rounds, roots)
    ensures |trees| == |rounds| + 1
  {
  }

  lemma RoundIff(stamp: Stamp, plan: seq<System>, trees: seq<Files>, rounds: seq<Round>, dates: map<string, string>, roots: Roots, n: nat)
    requires IsRun(stamp, plan, trees, rounds, roots) && n < |rounds| && Stamped(plan, trees[n], dates)
    ensures Stamped(plan, trees[n + 1], dates) <==> AllKeepStamps(rounds[n].systems, trees[0], dates)
  {
    TemplatesKept(stamp, plan, trees, rounds, roots, n);
    var round := rounds[n];
    assert SamePlan(round.systems, plan) && InputsOk(stamp, round.systems);
    hide Render, Stamped, PurposeEdit, HumanReads, InputsOk, SamePlan, AllKeepStamps, SameTemplates;
    PlanAgrees(round.systems, plan, trees[n], round.edited, dates);
    PlanAgrees(round.systems, plan, trees[n + 1], round.edited, dates);
    RenderKeepsStampsIff(stamp, trees[n], round.edited, round.systems, dates, roots);
    SameKeeps(round.systems, plan, trees[n], trees[0], dates);
  }

  /**
   Over a run of renders separated only by purpose edits no `generated_at` ever changes, if and
   only if in every round each doc holds no carriage return or is rendered on its own date.
   */
  lemma {:induction false} RunKeepsStampsIff(stamp: Stamp, plan: seq<System>, trees: seq<Files>, rounds: seq<Round>,
                                             dates: map<string, string>, roots: Roots, n: nat)
    requires IsRun(stamp, plan, trees, rounds, roots) && n < |trees| && n <= |rounds| && Stamped(plan, trees[0], dates)
    ensures (forall i :: 0 <= i <= n ==> Stamped(plan, trees[i], dates)) <==> RunKeeps(rounds, n, trees[0], dates)
  {
    hide Stamped, IsRun, AllKeepStamps;
    if n > 0 {
      RunKeepsStampsIff(stamp, plan, trees, rounds, dates, roots, n - 1);
      if Stamped(plan, trees[n - 1], dates) { RoundIff(stamp, plan, trees, rounds, dates, roots, n - 1); }
      assert RunKeeps(rounds, n, trees[0], dates) <==>
          RunKeeps(rounds, n - 1, trees[0], dates) && AllKeepStamps(rounds[n - 1].systems, trees[0], dates);
    }
  }

  // ---------------------------------------------------------------------------
  // Ownership

  /** Human-owned files, and everything outside the rendered systems, survive byte for byte. */
  lemma HumanFilesKept(stamp: Stamp, files: Files, systems: seq<System>, roots: Roots, p: string)
    requires InputsOk(stamp, systems) && p in files
    requires !MachineName(p) || !UnderSome(systems, 0, p)
    ensures var f := Render(stamp, files, systems, roots).files; p in f && f[p] == files[p]
  {
    SystemsOutcome(stamp, files, files, systems, 0);
    var g := RenderSystems(stamp, files, systems, 0).files;
    hide RenderSystems, InputsOk, Settled, Stray, MachineName, UnderSome;
    assert SameAt(g, files, p);
    RootsAddOnly(g, roots, p);
  }

  lemma RootsAddOnly(g: Files, roots: Roots, p: string)
    requires p in g
    ensures p in Bootstrapped(g, roots) && Bootstrapped(g, roots)[p] == g[p]
  {
  }
}
