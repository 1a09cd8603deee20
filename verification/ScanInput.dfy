/** `lineage/scan.py`, step 1: finalized diffs in, breaking and additive objects out. */
module ScanInput {
  import opened Basics
  import opened Snapshots
  import opened Canonical
  import opened Ordering
  import opened SubDiffs
  import opened SnapshotDiffs
  import opened SeverityFinal
  import Scan = ContaminationScan

  // ---------------------------------------------------------------------------
  // Texts

  function Label(c: Change): string {
    match c
    case ColumnAdded(_) => "column_added"
    case ColumnRemoved(_) => "column_removed"
    case ColumnTypeChanged(_, _, _) => "column_type_changed"
    case NullableTightened(_) => "column_nullable_tightened"
    case NullableLoosened(_) => "column_nullable_loosened"
    case DefaultChanged(_, _, _) => "column_default_changed"
    case OrdinalChanged(_, _, _) => "column_ordinal_changed"
    case PrimaryAdded(_) => "key_added"
    case ForeignAdded(_) => "key_added"
    case UniqueAdded(_) => "key_added"
    case PrimaryRemoved(_) => "key_removed"
    case ForeignRemoved(_) => "key_removed"
    case UniqueRemoved(_) => "key_removed"
    case PrimaryAltered(_, _) => "key_altered"
    case ForeignAltered(_, _) => "key_altered"
    case DefinitionChanged(_, _) => "definition_changed"
    case StatChanged(_, _, _) => "stat_changed"
  }

  /** The labels that stand for each severity. */
  lemma SeverityByLabel(c: Change)
    ensures SeverityOf(c) == Additive <==> Label(c) in {"column_added", "key_added"}
    ensures SeverityOf(c) == AdditiveWithNote <==> Label(c) in {"column_nullable_loosened", "column_default_changed"}
    ensures SeverityOf(c) == Breaking <==>
              Label(c) in {"column_removed", "column_type_changed", "column_nullable_tightened", "column_ordinal_changed",
                           "key_removed", "key_altered", "definition_changed", "stat_changed"}
  {
    LabelsDiffer();
  }

  /** Labels told apart by their length or one letter. */
  lemma LabelsDiffer()
    ensures |"column_added"| == 12 && |"key_added"| == 9 && |"column_removed"| == 14 && |"column_type_changed"| == 19
    ensures |"column_nullable_tightened"| == 25 && |"column_nullable_loosened"| == 24 && |"column_default_changed"| == 22
    ensures |"column_ordinal_changed"| == 22 && "column_ordinal_changed"[7] == 'o' && "column_default_changed"[7] == 'd'
    ensures |"key_removed"| == 11 && |"key_altered"| == 11 && |"definition_changed"| == 18 && |"stat_changed"| == 12
    ensures "stat_changed"[0] == 's' && "column_added"[0] == 'c'
  {
  }

  /** The detail shown with a label; a definition change shows none. */
  function Detail(c: Change): Option<string> {
    match c
    case ColumnAdded(x) => Some(x.name)
    case ColumnRemoved(x) => Some(x.name)
    case ColumnTypeChanged(k, _, _) => Some(k)
    case NullableTightened(k) => Some(k)
    case NullableLoosened(k) => Some(k)
    case DefaultChanged(k, _, _) => Some(k)
    case OrdinalChanged(k, _, _) => Some(k)
    case PrimaryAdded(_) => Some("primary")
    case PrimaryRemoved(_) => Some("primary")
    case PrimaryAltered(_, _) => Some("primary")
    case ForeignAdded(_) => Some("foreign")
    case ForeignRemoved(_) => Some("foreign")
    case ForeignAltered(_, _) => Some("foreign")
    case UniqueAdded(_) => Some("unique")
    case UniqueRemoved(_) => Some("unique")
    case DefinitionChanged(_, _) => None
    case StatChanged(f, _, _) => Some(f)
  }

  /** The detail names what differs: the column, the key, or the statistic. */
  lemma DetailOf(o: Object, n: Object, c: Change)
    ensures forall k, x, y :: ColumnDiffers(k, x, y, c) ==> Detail(c) == Some(k)
    ensures c.ColumnAdded? || c.ColumnRemoved? ==> Detail(c) == Some(c.column.name)
    ensures PrimaryDiffers(Listed(o.keys.primary), Listed(n.keys.primary), c) ==> Detail(c) == Some("primary")
    ensures ForeignDiffers(ForeignTable(o), ForeignTable(n), c) ==> Detail(c) == Some("foreign")
    ensures UniqueDiffers(Uniques(o), Uniques(n), c) ==> Detail(c) == Some("unique")
    ensures StatsDiffer(Included(o), o.stats, n.stats, c) ==> Detail(c) == if c.DefinitionChanged? then None else Some(c.stat)
  {
    hide ForeignTable, Uniques, Included;
  }

  function Describe(s: SubDiff): string {
    if Detail(s.change).None? then Label(s.change) else Label(s.change) + ": " + Detail(s.change).value
  }

  function Join(separator: string, parts: seq<string>): string {
    if parts == [] then "" else if |parts| == 1 then parts[0] else parts[0] + separator + Join(separator, parts[1..])
  }

  /** A joined text is its parts with the separator between them. */
  lemma {:induction false} JoinConcat(separator: string, a: seq<string>, b: seq<string>)
    requires a != [] && b != []
    ensures Join(separator, a + b) == Join(separator, a) + separator + Join(separator, b)
    ensures |a| == 1 ==> Join(separator, a) == a[0]
  {
    if |a| == 1 {
      assert (a + b)[1..] == b;
    } else {
      JoinConcat(separator, a[1..], b);
      assert (a + b)[1..] == a[1..] + b;
    }
  }

  /** The breaking ones, each as often as it is listed. */
  lemma {:induction false} OnlyBreakingCounts(subs: seq<SubDiff>, s: SubDiff)
    ensures multiset(OnlyBreaking(subs))[s] == if s.severity == Breaking then multiset(subs)[s] else 0
  {
    if subs != [] {
      OnlyBreakingCounts(subs[1..], s);
      assert subs == [subs[0]] + subs[1..];
    }
  }

  function OnlyBreaking(subs: seq<SubDiff>): seq<SubDiff> {
    if subs == [] then [] else (if subs[0].severity == Breaking then [subs[0]] else []) + OnlyBreaking(subs[1..])
  }

  function Labels(subs: seq<SubDiff>): set<string> {
    set s | s in subs :: Label(s.change)
  }

  const REMOVED := Scan.Change("removed", "object removed from snapshot")

  function ChangeText(labels: seq<string>): string {
    Join("+", if labels == [] then ["changed"] else labels)
  }

  function DetailText(subs: seq<SubDiff>): string {
    var text := Join("; ", Map(Describe, subs));
    if text == "" then "structural change" else text
  }

  /** The entry of a breaking object names its breaking changes, each label once, in order. */
  ghost predicate IsEntry(d: ObjectDiff, e: Scan.Change) {
    exists labels ::
      && Sorted(StrLe, labels) && Distinct(labels) && (forall l :: l in labels <==> l in Labels(OnlyBreaking(d.subs)))
      && e == Scan.Change(ChangeText(labels), DetailText(OnlyBreaking(d.subs)))
  }

  // ---------------------------------------------------------------------------
  // Classification of one diff

  function Names(system: string, ds: seq<ObjectDiff>): set<string> {
    set x | x in ds :: Fqn(system, x.id)
  }

  function RemovedNames(d: SnapshotDiff): set<string> {
    Names(d.system, d.removed)
  }

  function AddedNames(d: SnapshotDiff): set<string> {
    Names(d.system, d.added)
  }

  function BrokenNames(d: SnapshotDiff): set<string> {
    set x | x in d.structural && x.severity == Some(Breaking) :: Fqn(d.system, x.id)
  }

  function ChangedNames(d: SnapshotDiff): set<string> {
    set x | x in d.structural && x.severity != Some(Breaking) :: Fqn(d.system, x.id)
  }

  datatype Verdict = Verdict(breaking: map<string, Scan.Change>, additive: map<string, string>, grep: set<string>)

  method BreakingEntry(d: ObjectDiff) returns (e: Scan.Change)
    ensures IsEntry(d, e)
  {
    StrLeOrders();
    hide StrLe, Describe, Label, Join;
    var labels := SortedSet(StrLe, Labels(OnlyBreaking(d.subs)));
    e := Scan.Change(ChangeText(labels), DetailText(OnlyBreaking(d.subs)));
  }

  /** Where an entry comes from. */
  ghost predicate EntryIn(d: SnapshotDiff, f: string, e: Scan.Change) {
    || (f in RemovedNames(d) && e == REMOVED)
    || exists x :: x in d.structural && x.severity == Some(Breaking) && Fqn(d.system, x.id) == f && IsEntry(x, e)
  }

  ghost predicate NoteIn(d: SnapshotDiff, f: string, note: string) {
    exists x :: x in d.structural && x.severity != Some(Breaking) && Fqn(d.system, x.id) == f && note == Join("; ", Map(Describe, x.subs))
  }

  /** Names of the first `k` structural diffs. */
  function Upto(d: SnapshotDiff, k: nat): SnapshotDiff
    requires k <= |d.structural|
  {
    d.(structural := d.structural[..k])
  }

  lemma NamesNext(d: SnapshotDiff, k: nat)
    requires k < |d.structural|
    ensures var x := d.structural[k]; var f := Fqn(d.system, x.id);
            && BrokenNames(Upto(d, k + 1)) == BrokenNames(Upto(d, k)) + (if x.severity == Some(Breaking) then {f} else {})
            && ChangedNames(Upto(d, k + 1)) == ChangedNames(Upto(d, k)) + (if x.severity == Some(Breaking) then {} else {f})
  {
    hide Fqn;
    assert d.structural[..k + 1] == d.structural[..k] + [d.structural[k]];
  }

  lemma NamesOf(system: string, ds: seq<ObjectDiff>, k: nat)
    requires k < |ds|
    ensures Names(system, ds[..k + 1]) == Names(system, ds[..k]) + {Fqn(system, ds[k].id)} <= Names(system, ds)
  {
    hide Fqn;
    assert ds[..k + 1] == ds[..k] + [ds[k]];
  }

  lemma NamesOfNone(system: string)
    ensures Names(system, []) == {}
  {
  }

  method AddRemoved(d: SnapshotDiff, v: Verdict) returns (r: Verdict)
    ensures r.breaking.Keys == v.breaking.Keys + RemovedNames(d) && r.additive == v.additive
    ensures forall f :: f in r.breaking ==> (f in v.breaking && r.breaking[f] == v.breaking[f]) || EntryIn(d, f, r.breaking[f])
    ensures r.grep == v.grep + RemovedNames(d) + AddedNames(d)
  {
    hide Fqn, Names, IsEntry;
    var breaking, grep := v.breaking, v.grep;
    NamesOfNone(d.system);
    for k := 0 to |d.removed|
      invariant breaking.Keys == v.breaking.Keys + Names(d.system, d.removed[..k])
      invariant forall f :: f in breaking ==> (f in v.breaking && breaking[f] == v.breaking[f]) || EntryIn(d, f, breaking[f])
      invariant grep == v.grep + Names(d.system, d.removed[..k])
    {
      var f := Fqn(d.system, d.removed[k].id);
      NamesOf(d.system, d.removed, k);
      assert EntryIn(d, f, REMOVED);
      breaking := breaking[f := REMOVED];
      grep := grep + {f};
    }
    assert d.removed[..|d.removed|] == d.removed;
    for k := 0 to |d.added|
      invariant grep == v.grep + RemovedNames(d) + Names(d.system, d.added[..k])
    {
      NamesOf(d.system, d.added, k);
      grep := grep + {Fqn(d.system, d.added[k].id)};
    }
    assert d.added[..|d.added|] == d.added;
    r := Verdict(breaking, v.additive, grep);
  }

  /** Entries are those known before or come from the diff. */
  ghost predicate Traced(d: SnapshotDiff, v: Verdict, r: Verdict) {
    && (forall f :: f in r.breaking ==> (f in v.breaking && r.breaking[f] == v.breaking[f]) || EntryIn(d, f, r.breaking[f]))
    && (forall f :: f in r.additive ==> (f in v.additive && r.additive[f] == v.additive[f]) || NoteIn(d, f, r.additive[f]))
  }

  ghost predicate Collected(d: SnapshotDiff, v: Verdict, r: Verdict) {
    && r.breaking.Keys == v.breaking.Keys + BrokenNames(d) && r.additive.Keys == v.additive.Keys + ChangedNames(d)
    && r.grep == v.grep + BrokenNames(d) + ChangedNames(d)
  }

  lemma AddBroken(d: SnapshotDiff, k: nat, v: Verdict, r: Verdict, e: Scan.Change)
    requires k < |d.structural| && d.structural[k].severity == Some(Breaking) && IsEntry(d.structural[k], e)
    requires Collected(Upto(d, k), v, r) && Traced(d, v, r)
    ensures var f := Fqn(d.system, d.structural[k].id);
            var s := Verdict(r.breaking[f := e], r.additive, r.grep + {f});
            Collected(Upto(d, k + 1), v, s) && Traced(d, v, s)
  {
    hide Fqn, BrokenNames, ChangedNames, IsEntry, NoteIn;
    NamesNext(d, k);
    assert d.structural[k] in d.structural;
    assert EntryIn(d, Fqn(d.system, d.structural[k].id), e);
  }

  lemma AddNoted(d: SnapshotDiff, k: nat, v: Verdict, r: Verdict, note: string)
    requires k < |d.structural| && d.structural[k].severity != Some(Breaking) && note == Join("; ", Map(Describe, d.structural[k].subs))
    requires Collected(Upto(d, k), v, r) && Traced(d, v, r)
    ensures var f := Fqn(d.system, d.structural[k].id);
            var s := Verdict(r.breaking, r.additive[f := note], r.grep + {f});
            Collected(Upto(d, k + 1), v, s) && Traced(d, v, s)
  {
    hide Fqn, BrokenNames, ChangedNames, EntryIn, Join, Describe;
    NamesNext(d, k);
    assert d.structural[k] in d.structural;
    assert NoteIn(d, Fqn(d.system, d.structural[k].id), note);
  }

  method AddChanged(d: SnapshotDiff, v: Verdict) returns (r: Verdict)
    ensures Collected(d, v, r) && Traced(d, v, r)
  {
    NothingCollected(d, v);
    r := v;
    hide Fqn, Collected, Traced, IsEntry, Describe, Join, Map, Upto;
    for k := 0 to |d.structural|
      invariant Collected(Upto(d, k), v, r) && Traced(d, v, r)
    {
      var x := d.structural[k];
      var f := Fqn(d.system, x.id);
      if x.severity == Some(Breaking) {
        var e := BreakingEntry(x);
        AddBroken(d, k, v, r, e);
        r := Verdict(r.breaking[f := e], r.additive, r.grep + {f});
      } else {
        var note := Join("; ", Map(Describe, x.subs));
        AddNoted(d, k, v, r, note);
        r := Verdict(r.breaking, r.additive[f := note], r.grep + {f});
      }
    }
    UptoAll(d);
  }

  lemma UptoAll(d: SnapshotDiff)
    ensures Upto(d, |d.structural|) == d
  {
  }

  lemma NothingCollected(d: SnapshotDiff, v: Verdict)
    ensures Collected(Upto(d, 0), v, v) && Traced(d, v, v)
  {
    NoNames(d);
    hide BrokenNames, ChangedNames, EntryIn, NoteIn;
  }

  lemma NoNames(d: SnapshotDiff)
    ensures BrokenNames(Upto(d, 0)) == {} && ChangedNames(Upto(d, 0)) == {}
  {
  }

  // ---------------------------------------------------------------------------
  // All diffs

  datatype ClassifyResult = Classified(verdict: Verdict) | NotFinalized(system: string)

  /** A name in one of the sets that `f` gives. */
  ghost predicate Somewhere(diffs: seq<SnapshotDiff>, f: SnapshotDiff -> set<string>, name: string) {
    exists d :: d in diffs && name in f(d)
  }

  ghost predicate EntrySomewhere(diffs: seq<SnapshotDiff>, f: string, e: Scan.Change) {
    exists d :: d in diffs && EntryIn(d, f, e)
  }

  ghost predicate NoteSomewhere(diffs: seq<SnapshotDiff>, f: string, note: string) {
    exists d :: d in diffs && NoteIn(d, f, note)
  }

  /** The maps say of every object what the finalized diffs say. */
  ghost predicate IsVerdict(diffs: seq<SnapshotDiff>, v: Verdict) {
    && (forall f :: f in v.breaking <==> Somewhere(diffs, d => RemovedNames(d) + BrokenNames(d), f))
    && (forall f :: f in v.additive <==> Somewhere(diffs, ChangedNames, f))
    && (forall f :: f in v.grep <==> Somewhere(diffs, d => RemovedNames(d) + AddedNames(d) + BrokenNames(d) + ChangedNames(d), f))
    && (forall f :: f in v.breaking ==> EntrySomewhere(diffs, f, v.breaking[f]))
    && (forall f :: f in v.additive ==> NoteSomewhere(diffs, f, v.additive[f]))
  }

  lemma SomewhereNext(diffs: seq<SnapshotDiff>, d: SnapshotDiff, f: SnapshotDiff -> set<string>, name: string)
    ensures Somewhere(diffs + [d], f, name) <==> Somewhere(diffs, f, name) || name in f(d)
  {
    assert d in diffs + [d];
    assert forall x :: x in diffs ==> x in diffs + [d];
  }

  lemma EntryNext(diffs: seq<SnapshotDiff>, d: SnapshotDiff, f: string, e: Scan.Change, note: string)
    ensures EntrySomewhere(diffs, f, e) || EntryIn(d, f, e) ==> EntrySomewhere(diffs + [d], f, e)
    ensures NoteSomewhere(diffs, f, note) || NoteIn(d, f, note) ==> NoteSomewhere(diffs + [d], f, note)
  {
    hide EntryIn, NoteIn;
    assert d in diffs + [d];
    assert forall x :: x in diffs ==> x in diffs + [d];
  }

  lemma VerdictNext(diffs: seq<SnapshotDiff>, d: SnapshotDiff, v: Verdict, r: Verdict)
    requires IsVerdict(diffs, v)
    requires r.breaking.Keys == v.breaking.Keys + RemovedNames(d) + BrokenNames(d) && r.additive.Keys == v.additive.Keys + ChangedNames(d)
    requires r.grep == v.grep + RemovedNames(d) + AddedNames(d) + BrokenNames(d) + ChangedNames(d)
    requires forall f :: f in r.breaking ==> (f in v.breaking && r.breaking[f] == v.breaking[f]) || EntryIn(d, f, r.breaking[f])
    requires forall f :: f in r.additive ==> (f in v.additive && r.additive[f] == v.additive[f]) || NoteIn(d, f, r.additive[f])
    ensures IsVerdict(diffs + [d], r)
  {
    hide EntryIn, NoteIn, RemovedNames, BrokenNames, AddedNames, ChangedNames, Somewhere, EntrySomewhere, NoteSomewhere;
    forall f ensures f in r.breaking <==> Somewhere(diffs + [d], d => RemovedNames(d) + BrokenNames(d), f) {
      SomewhereNext(diffs, d, d => RemovedNames(d) + BrokenNames(d), f);
    }
    forall f ensures f in r.additive <==> Somewhere(diffs + [d], ChangedNames, f) {
      SomewhereNext(diffs, d, ChangedNames, f);
    }
    forall f ensures f in r.grep <==> Somewhere(diffs + [d], d => RemovedNames(d) + AddedNames(d) + BrokenNames(d) + ChangedNames(d), f) {
      SomewhereNext(diffs, d, d => RemovedNames(d) + AddedNames(d) + BrokenNames(d) + ChangedNames(d), f);
    }
    forall f | f in r.breaking ensures EntrySomewhere(diffs + [d], f, r.breaking[f]) {
      EntryNext(diffs, d, f, r.breaking[f], "");
    }
    forall f | f in r.additive ensures NoteSomewhere(diffs + [d], f, r.additive[f]) {
      EntryNext(diffs, d, f, REMOVED, r.additive[f]);
    }
  }

  /** Which names the classification gives each verdict, by the parts of the name. */
  ghost predicate IsBreaking(diffs: seq<SnapshotDiff>, name: string) {
    exists d, x :: d in diffs && (x in d.removed || (x in d.structural && x.severity == Some(Breaking))) && NameOf(name, d.system, x.id)
  }

  ghost predicate IsAdditive(diffs: seq<SnapshotDiff>, name: string) {
    exists d, x :: d in diffs && x in d.structural && x.severity != Some(Breaking) && NameOf(name, d.system, x.id)
  }

  lemma SetNames(d: SnapshotDiff, name: string)
    ensures name in RemovedNames(d) <==> exists x :: x in d.removed && NameOf(name, d.system, x.id)
    ensures name in BrokenNames(d) <==> exists x :: x in d.structural && x.severity == Some(Breaking) && NameOf(name, d.system, x.id)
    ensures name in ChangedNames(d) <==> exists x :: x in d.structural && x.severity != Some(Breaking) && NameOf(name, d.system, x.id)
  {
    hide NameOf, Fqn;
    forall i ensures NameOf(name, d.system, i) <==> name == Fqn(d.system, i) { FqnIsName(name, d.system, i); }
  }

  lemma BreakingNames(diffs: seq<SnapshotDiff>, name: string)
    ensures Somewhere(diffs, d => RemovedNames(d) + BrokenNames(d), name) <==> IsBreaking(diffs, name)
  {
    hide RemovedNames, BrokenNames, NameOf;
    if Somewhere(diffs, d => RemovedNames(d) + BrokenNames(d), name) {
      var d :| d in diffs && name in RemovedNames(d) + BrokenNames(d);
      SetNames(d, name);
    }
    if IsBreaking(diffs, name) {
      var d, x :| d in diffs && (x in d.removed || (x in d.structural && x.severity == Some(Breaking))) && NameOf(name, d.system, x.id);
      SetNames(d, name);
    }
  }

  lemma AdditiveNames(diffs: seq<SnapshotDiff>, name: string)
    ensures Somewhere(diffs, ChangedNames, name) <==> IsAdditive(diffs, name)
  {
    hide ChangedNames, NameOf;
    if Somewhere(diffs, ChangedNames, name) {
      var d :| d in diffs && name in ChangedNames(d);
      SetNames(d, name);
    }
    if IsAdditive(diffs, name) {
      var d, x :| d in diffs && x in d.structural && x.severity != Some(Breaking) && NameOf(name, d.system, x.id);
      SetNames(d, name);
    }
  }

  /** The verdict's names fall apart into the parts of the objects they stand for. */
  lemma VerdictNames(diffs: seq<SnapshotDiff>, v: Verdict, name: string)
    requires IsVerdict(diffs, v)
    ensures name in v.breaking <==> IsBreaking(diffs, name)
    ensures name in v.additive <==> IsAdditive(diffs, name)
  {
    hide Somewhere, IsBreaking, IsAdditive, EntrySomewhere, NoteSomewhere;
    BreakingNames(diffs, name);
    AdditiveNames(diffs, name);
  }

  lemma NoVerdict()
    ensures IsVerdict([], Verdict(map[], map[], {}))
  {
  }

  method ClassifyDiffs(diffs: seq<SnapshotDiff>) returns (r: ClassifyResult)
    ensures r.NotFinalized? <==> exists d :: d in diffs && !d.finalized
    ensures r.Classified? ==> IsVerdict(diffs, r.verdict)
    ensures r.Classified? ==> forall name :: (name in r.verdict.breaking <==> IsBreaking(diffs, name)) && (name in r.verdict.additive <==> IsAdditive(diffs, name))
  {
    hide IsBreaking, IsAdditive, IsVerdict, EntryIn, NoteIn, RemovedNames, BrokenNames, AddedNames, ChangedNames;
    var v := Verdict(map[], map[], {});
    NoVerdict();
    for k := 0 to |diffs|
      invariant IsVerdict(diffs[..k], v) && forall j :: 0 <= j < k ==> diffs[j].finalized
    {
      var d := diffs[k];
      if !d.finalized { return NotFinalized(d.system); }
      var a := AddRemoved(d, v);
      var b := AddChanged(d, a);
      VerdictNext(diffs[..k], d, v, b);
      assert diffs[..k + 1] == diffs[..k] + [d];
      v := b;
    }
    assert diffs[..|diffs|] == diffs;
    forall name ensures (name in v.breaking <==> IsBreaking(diffs, name)) && (name in v.additive <==> IsAdditive(diffs, name)) {
      VerdictNames(diffs, v, name);
    }
    r := Classified(v);
  }
}
