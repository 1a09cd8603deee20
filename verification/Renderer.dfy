/** The renderer's loops over a tree it changes, each doing what the functions of `RenderTree` say. */
module Renderer {
  import R = RenderTree
  import opened Ordering
  import opened Snapshots
  import opened TextFiles
  import opened PurposeSlots
  import D = MachineDocs
  import opened MachineDocs
  import opened RenderTree
  import opened DocLayout
  import opened Settling
  import opened PlanLaws

  /** How a render of snapshots ends: two snapshots of one system are refused before anything is
   written, two docs of one path when their system's turn comes. */
  datatype RenderOutcome = Finished | DuplicateSystem | PathCollision(at: nat)

  predicate SystemLe(a: Snapshot, b: Snapshot) {
    StrLe(a.system, b.system)
  }

  predicate NamesDistinct(snapshots: seq<Snapshot>) {
    forall i, j :: 0 <= i < j < |snapshots| ==> snapshots[i].system != snapshots[j].system
  }

  /** The snapshot's docs have different paths. */
  predicate NoCollision(lib: Library, s: Snapshot) {
    DistinctPaths(SystemFor(lib, s).entries)
  }

  class KbTree {
    var files: Files
    var written: seq<string>
    var deleted: set<string>

    constructor (files: Files)
      ensures this.files == files && written == [] && deleted == {}
    {
      this.files, written, deleted := files, [], {};
    }

    method WriteMachine(stamp: Stamp, e: Entry, body: MachineDocs.Body, newDate: string)
      modifies this
      ensures files == D.WriteMachine(stamp, old(files), e, body, newDate).0 && deleted == old(deleted)
      ensures written == old(written) + (if D.WriteMachine(stamp, old(files), e, body, newDate).1 then [e.path] else [])
    {
      hide ReadText;
      var date := newDate;
      if e.path in files {
        var before := ReadText(files[e.path]);
        var oldDate := StampOf(stamp, before);
        if oldDate.Some? {
          var head := Head(e, oldDate.value);
          if head + Text(body) == before {
            assert written + [] == written;
            return;
          }
          if StartsWith(before, head) {
            var confined := PurposeConfined(before[|head|..], AbsentText(body), MarkedText(body));
            if confined { date := oldDate.value; }
          }
        }
      }
      files := files[e.path := Head(e, date) + Text(body)];
      written := written + [e.path];
    }

    method PruneSystem(sys: System)
      modifies this
      ensures files == Pruned(old(files), sys) && deleted == old(deleted) + Strays(old(files), sys) && written == old(written)
    {
      var todo := files.Keys;
      while todo != {}
        invariant todo <= old(files).Keys && written == old(written)
        invariant files == map p | p in old(files) && (p in todo || !Stray(sys, p)) :: old(files)[p]
        invariant deleted == old(deleted) + (set p | p in old(files) && p !in todo && Stray(sys, p))
      {
        var p :| p in todo;
        if Stray(sys, p) {
          files := files - {p};
          deleted := deleted + {p};
        }
        todo := todo - {p};
      }
    }

    method RenderSystem(stamp: Stamp, sys: System)
      modifies this
      ensures Applied(R.RenderSystem(stamp, old(files), sys), old(written), old(deleted), files, written, deleted)
    {
      var base := files;
      ghost var all := RenderEntries(stamp, base, base, sys, 0);
      for i := 0 to |sys.entries|
        invariant deleted == old(deleted)
        invariant Remaining(stamp, base, files, sys, i, old(written), written, all)
      {
        hide D.WriteMachine, RenderEntries, Remaining;
        var e := sys.entries[i];
        EntryDone(stamp, base, files, sys, i, old(written), written, all);
        WriteMachine(stamp, e, e.body(base), sys.date);
      }
      assert written + [] == written;
      PruneSystem(sys);
    }

    method Bootstrap(roots: Roots)
      modifies this
      ensures files == Bootstrapped(old(files), roots) && written == old(written) && deleted == old(deleted)
    {
      if "index.md" !in files { files := files["index.md" := roots.index]; }
      if "conventions.md" !in files { files := files["conventions.md" := roots.conventions]; }
    }

    /** Renders one system after the other, up to the first whose paths collide. */
    method RenderAll(lib: Library, estate: seq<Snapshot>) returns (done: nat)
      modifies this
      ensures done <= |estate| && (done < |estate| ==> !NoCollision(lib, estate[done]))
      ensures forall k :: 0 <= k < done ==> NoCollision(lib, estate[k])
      ensures Applied(RenderSystems(lib.stamp, old(files), Systems(lib, estate[..done]), 0), old(written), old(deleted), files, written, deleted)
    {
      NothingApplied(lib, files, written, deleted, estate);
      hide R.RenderSystem, NoCollision, SystemFor, RenderSystems, Systems, Applied;
      for i := 0 to |estate|
        invariant forall k :: 0 <= k < i ==> NoCollision(lib, estate[k])
        invariant Applied(RenderSystems(lib.stamp, old(files), Systems(lib, estate[..i]), 0), old(written), old(deleted), files, written, deleted)
      {
        if !NoCollision(lib, estate[i]) { return i; }
        ghost var before, ws, ds := files, written, deleted;
        var sys := SystemFor(lib, estate[i]);
        RenderSystem(lib.stamp, sys);
        NextApplied(lib, old(files), estate, i, old(written), old(deleted), before, ws, ds, files, written, deleted);
      }
      return |estate|;
    }

    /** Renders the snapshots' systems in the order of their names. */
    method RenderSnapshots(lib: Library, snapshots: seq<Snapshot>, roots: Roots) returns (o: RenderOutcome)
      modifies this
      ensures o.DuplicateSystem? <==> !NamesDistinct(snapshots)
      ensures o.DuplicateSystem? ==> files == old(files) && written == old(written) && deleted == old(deleted)
      ensures o.Finished? ==>
                && (forall s :: s in snapshots ==> NoCollision(lib, s))
                && Applied(Render(lib.stamp, old(files), Systems(lib, Sort(SystemLe, snapshots)), roots),
                           old(written), old(deleted), files, written, deleted)
      ensures o.Finished? ==>
                var estate := Sort(SystemLe, snapshots);
                EstateOk(lib, estate) && DirsDiffer(lib, estate) ==>
                  forall k, p :: 0 <= k < |estate| && Under(Dir(lib, estate[k]), p) && MachineName(p) ==> (p in files <==> DocPath(lib, estate[k], p))
      ensures o.PathCollision? ==>
                var estate := Sort(SystemLe, snapshots);
                && o.at < |estate| && !NoCollision(lib, estate[o.at]) && (forall k :: 0 <= k < o.at ==> NoCollision(lib, estate[k]))
                && Applied(RenderSystems(lib.stamp, old(files), Systems(lib, estate[..o.at]), 0),
                           old(written), old(deleted), files, written, deleted)
    {
      if !NamesDistinct(snapshots) { return DuplicateSystem; }
      ghost var start := files;
      hide NoCollision, RenderSystems, Systems, Sort;
      var estate := Sort(SystemLe, snapshots);
      SortMembers(SystemLe, snapshots);
      var done := RenderAll(lib, estate);
      if done < |estate| { return PathCollision(done); }
      assert estate[..done] == estate;
      forall s | s in snapshots ensures NoCollision(lib, s) { assert s in estate; }
      Bootstrap(roots);
      hide EstateOk, DirsDiffer, DocPath, Under, Dir, MachineName, SystemLe, Bootstrapped;
      if EstateOk(lib, estate) && DirsDiffer(lib, estate) {
        forall k, p | 0 <= k < |estate| && Under(Dir(lib, estate[k]), p) && MachineName(p) ensures p in files <==> DocPath(lib, estate[k], p) {
          RenderedDocs(lib, estate, start, roots, k, p);
        }
      }
      return Finished;
    }
  }

  /** The tree and its records after a render that did `r`. */
  ghost predicate Applied(r: Rendered, written: seq<string>, deleted: set<string>, files': Files, written': seq<string>, deleted': set<string>) {
    files' == r.files && written' == written + r.written && deleted' == deleted + r.deleted
  }

  /** What is still to be rendered completes what was done to the whole. */
  ghost predicate Remaining(stamp: Stamp, base: Files, files: Files, sys: System, i: nat, before: seq<string>, written: seq<string>, all: (Files, seq<string>))
    requires i <= |sys.entries|
  {
    var (f, ws) := RenderEntries(stamp, base, files, sys, i);
    f == all.0 && written + ws == before + all.1
  }

  lemma EntryDone(stamp: Stamp, base: Files, files: Files, sys: System, i: nat, before: seq<string>, written: seq<string>, all: (Files, seq<string>))
    requires i < |sys.entries| && Remaining(stamp, base, files, sys, i, before, written, all)
    ensures var e := sys.entries[i]; var (f, w) := D.WriteMachine(stamp, files, e, e.body(base), sys.date);
            Remaining(stamp, base, f, sys, i + 1, before, written + (if w then [e.path] else []), all)
  {
    hide D.WriteMachine;
    var e := sys.entries[i];
    var (f, w) := D.WriteMachine(stamp, files, e, e.body(base), sys.date);
    Appended(written, if w then [e.path] else [], RenderEntries(stamp, base, f, sys, i + 1).1);
  }

  lemma NothingApplied(lib: Library, files: Files, written: seq<string>, deleted: set<string>, estate: seq<Snapshot>)
    ensures Applied(RenderSystems(lib.stamp, files, Systems(lib, estate[..0]), 0), written, deleted, files, written, deleted)
  {
    assert Systems(lib, estate[..0]) == [];
    assert written + [] == written;
  }

  lemma NextApplied(lib: Library, start: Files, estate: seq<Snapshot>, i: nat, w0: seq<string>, d0: set<string>,
                   before: Files, ws: seq<string>, ds: set<string>, after: Files, ws': seq<string>, ds': set<string>)
    requires i < |estate| && Applied(RenderSystems(lib.stamp, start, Systems(lib, estate[..i]), 0), w0, d0, before, ws, ds)
    requires Applied(R.RenderSystem(lib.stamp, before, SystemFor(lib, estate[i])), ws, ds, after, ws', ds')
    ensures Applied(RenderSystems(lib.stamp, start, Systems(lib, estate[..i + 1]), 0), w0, d0, after, ws', ds')
  {
    hide R.RenderSystem, RenderSystems, SystemFor;
    var sys, systems := SystemFor(lib, estate[i]), Systems(lib, estate[..i]);
    assert Systems(lib, estate[..i + 1]) == systems + [sys];
    OneMoreSystem(lib.stamp, start, systems, sys, 0);
    var r := RenderSystems(lib.stamp, start, systems, 0);
    Appended(w0, r.written, R.RenderSystem(lib.stamp, before, sys).written);
  }

  /** Rendering one system after the others. */
  lemma {:induction false} OneMoreSystem(stamp: Stamp, files: Files, systems: seq<System>, sys: System, i: nat)
    requires i <= |systems|
    ensures var r := RenderSystems(stamp, files, systems, i);
            var last := R.RenderSystem(stamp, r.files, sys);
            RenderSystems(stamp, files, systems + [sys], i) == Rendered(last.files, r.written + last.written, r.deleted + last.deleted)
    decreases |systems| - i
  {
    hide R.RenderSystem;
    var all := systems + [sys];
    if i < |systems| {
      assert all[i] == systems[i];
      OneMoreSystem(stamp, R.RenderSystem(stamp, files, systems[i]).files, systems, sys, i + 1);
      var r := R.RenderSystem(stamp, files, systems[i]);
      var rest := RenderSystems(stamp, r.files, systems, i + 1);
      Appended(r.written, rest.written, R.RenderSystem(stamp, rest.files, sys).written);
    } else {
      var last := R.RenderSystem(stamp, files, sys);
      assert all[i] == sys && RenderSystems(stamp, last.files, all, i + 1) == Rendered(last.files, [], {});
    }
  }

  lemma Appended(a: seq<string>, b: seq<string>, c: seq<string>)
    ensures (a + b) + c == a + (b + c)
  {
  }
}
