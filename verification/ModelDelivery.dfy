/**
 `connectors/powerbi/publisher.py`: delivery of result tables to a push model over calls
 that may fail.  A fault schedule says which remote calls fail; a failed call has no effect.
 */
module ModelDelivery {
  import opened Basics

  datatype Column = Column(name: string, dataType: string)

  datatype Row = Row(cells: map<string, string>)

  datatype TablePlan = TablePlan(name: string, columns: seq<Column>, rows: seq<Row>)

  /** The remote model: per-table columns and rows, and how many calls were made so far. */
  datatype World = World(columns: map<string, seq<Column>>, rows: map<string, seq<Row>>, calls: nat)

  /** Call number `n` fails exactly when the schedule says so. */
  type Faults = nat -> bool

  const MAX_ROWS_PER_POST := 10_000

  // ---------------------------------------------------------------------------
  // Remote calls

  function Counted(w: World): World {
    w.(calls := w.calls + 1)
  }

  function DeleteRows(f: Faults, w: World, t: string): (World, bool) {
    if f(w.calls) then (Counted(w), false) else (Counted(w).(rows := w.rows[t := []]), true)
  }

  function Held(w: World, t: string): seq<Row> {
    if t in w.rows then w.rows[t] else []
  }

  function PostRows(f: Faults, w: World, t: string, batch: seq<Row>): (World, bool) {
    if f(w.calls) then (Counted(w), false) else (Counted(w).(rows := w.rows[t := Held(w, t) + batch]), true)
  }

  function PutTable(f: Faults, w: World, t: string, columns: seq<Column>): (World, bool) {
    if f(w.calls) then (Counted(w), false) else (Counted(w).(columns := w.columns[t := columns]), true)
  }

  // ---------------------------------------------------------------------------
  // Row transport

  function BatchEnd(plan: TablePlan, start: nat): nat {
    Min(start + MAX_ROWS_PER_POST, |plan.rows|)
  }

  /** A post carries ten thousand rows, the last one what is left. */
  lemma PostSize(plan: TablePlan, start: nat)
    requires start < |plan.rows|
    ensures BatchEnd(plan, start) - start == if |plan.rows| - start >= 10000 then 10000 else |plan.rows| - start
  {
  }

  /** Posts the batches from `start` on, stopping at the first failed call. */
  function PushRows(f: Faults, w: World, plan: TablePlan, start: nat): (World, bool)
    decreases |plan.rows| - start
  {
    if start >= |plan.rows| then
      (w, true)
    else
      var (w', ok) := PostRows(f, w, plan.name, plan.rows[start..BatchEnd(plan, start)]);
      if ok then PushRows(f, w', plan, start + MAX_ROWS_PER_POST) else (w', false)
  }

  function ReplaceRows(f: Faults, w: World, plan: TablePlan): (World, bool) {
    var (w', ok) := DeleteRows(f, w, plan.name);
    if ok then PushRows(f, w', plan, 0) else (w', false)
  }

  /** Replaces the tables from index `i` on; the last component counts the tables fully replaced. */
  function ReplaceAll(f: Faults, w: World, plans: seq<TablePlan>, i: nat): (World, nat)
    requires i <= |plans|
    decreases |plans| - i
  {
    if i == |plans| then
      (w, i)
    else
      var (w', ok) := ReplaceRows(f, w, plans[i]);
      if ok then ReplaceAll(f, w', plans, i + 1) else (w', i)
  }

  function Others(a: World, b: World, t: string): bool {
    && a.columns == b.columns
    && a.rows.Keys + {t} == b.rows.Keys + {t}
    && forall s :: s in a.rows && s != t ==> a.rows[s] == b.rows[s]
  }

  /** A strict prefix of whole batches of the plan's rows. */
  ghost predicate StrictBatchPrefix(rows: seq<Row>, plan: TablePlan)
  {
    exists k: nat :: k * MAX_ROWS_PER_POST < |plan.rows| && rows == plan.rows[..k * MAX_ROWS_PER_POST]
  }

  /** Pushing appends all rows, or stops after whole batches. */
  lemma {:induction false} PushOutcome(f: Faults, w: World, plan: TablePlan, k: nat, base: seq<Row>)
    requires plan.name in w.rows
    requires w.rows[plan.name] == base + plan.rows[..Min(k * MAX_ROWS_PER_POST, |plan.rows|)]
    ensures var (w', ok) := PushRows(f, w, plan, k * MAX_ROWS_PER_POST);
            && Others(w, w', plan.name) && plan.name in w'.rows
            && (ok ==> w'.rows[plan.name] == base + plan.rows)
            && (!ok ==> exists part :: StrictBatchPrefix(part, plan) && w'.rows[plan.name] == base + part)
    decreases |plan.rows| - k * MAX_ROWS_PER_POST
  {
    var start := k * MAX_ROWS_PER_POST;
    if start < |plan.rows| {
      var end := BatchEnd(plan, start);
      var (w', ok) := PostRows(f, w, plan.name, plan.rows[start..end]);
      if ok {
        assert base + plan.rows[..start] + plan.rows[start..end] == base + plan.rows[..end];
        assert (k + 1) * MAX_ROWS_PER_POST == start + MAX_ROWS_PER_POST;
        PushOutcome(f, w', plan, k + 1, base);
      } else {
        assert StrictBatchPrefix(plan.rows[..start], plan);
      }
    } else {
      assert plan.rows[..|plan.rows|] == plan.rows;
    }
  }

  /** One table: new rows on success; on failure untouched or a strict batch prefix of the new rows. */
  lemma ReplaceOutcome(f: Faults, w: World, plan: TablePlan)
    requires plan.name in w.rows
    ensures var (w', ok) := ReplaceRows(f, w, plan);
            && Others(w, w', plan.name) && plan.name in w'.rows
            && (ok ==> w'.rows[plan.name] == plan.rows)
            && (!ok && f(w.calls) ==> w'.rows == w.rows)
            && (!ok && !f(w.calls) ==> StrictBatchPrefix(w'.rows[plan.name], plan))
  {
    var (w', ok) := DeleteRows(f, w, plan.name);
    if ok {
      PushOutcome(f, w', plan, 0, []);
      assert forall part: seq<Row> :: [] + part == part;
    }
  }

  predicate Names(plans: seq<TablePlan>, i: nat, j: nat, t: string)
    requires i <= j <= |plans|
  {
    exists k :: i <= k < j && plans[k].name == t
  }

  ghost predicate AllKnown(w: World, plans: seq<TablePlan>) {
    forall k :: 0 <= k < |plans| ==> plans[k].name in w.rows
  }

  /** The last plan for a name decides its rows when every replacement succeeds. */
  ghost predicate LastOfName(plans: seq<TablePlan>, k: nat)
    requires k < |plans|
  {
    forall j :: k < j < |plans| ==> plans[j].name != plans[k].name
  }

  /** The only plan for its table. */
  ghost predicate OnlyOfName(plans: seq<TablePlan>, k: nat)
    requires k < |plans|
  {
    forall j :: 0 <= j < |plans| && j != k ==> plans[j].name != plans[k].name
  }

  /** A run of replacements: what holds for every table of the model afterwards. */
  ghost predicate RunOutcome(w: World, w': World, plans: seq<TablePlan>, i: nat, done: nat)
    requires i <= done <= |plans|
  {
    && w'.columns == w.columns && w'.rows.Keys == w.rows.Keys
    && (forall t :: t in w.rows && !Names(plans, i, Min(done + 1, |plans|), t) ==> w'.rows[t] == w.rows[t])
    && (done == |plans| ==> forall k :: i <= k < |plans| && LastOfName(plans, k) && plans[k].name in w.rows ==>
          w'.rows[plans[k].name] == plans[k].rows)
    && (forall k :: i <= k < done && OnlyOfName(plans, k) && plans[k].name in w.rows ==> w'.rows[plans[k].name] == plans[k].rows)
    && (done < |plans| && plans[done].name in w.rows && !Names(plans, i, done, plans[done].name) ==>
          w'.rows[plans[done].name] == w.rows[plans[done].name] || StrictBatchPrefix(w'.rows[plans[done].name], plans[done]))
  }

  lemma {:induction false} ReplaceAllOutcome(f: Faults, w: World, plans: seq<TablePlan>, i: nat)
    requires i <= |plans| && AllKnown(w, plans)
    ensures var (w', done) := ReplaceAll(f, w, plans, i);
            i <= done <= |plans| && RunOutcome(w, w', plans, i, done)
    decreases |plans| - i
  {
    if i < |plans| {
      ReplaceOutcome(f, w, plans[i]);
      var (w1, ok) := ReplaceRows(f, w, plans[i]);
      if ok {
        ReplaceAllOutcome(f, w1, plans, i + 1);
        RunStep(w, w1, ReplaceAll(f, w1, plans, i + 1).0, plans, i, ReplaceAll(f, w1, plans, i + 1).1);
      }
    }
  }

  lemma RunStep(w: World, w1: World, w': World, plans: seq<TablePlan>, i: nat, done: nat)
    requires i < done <= |plans| && plans[i].name in w.rows && plans[i].name in w1.rows
    requires Others(w, w1, plans[i].name) && w1.rows[plans[i].name] == plans[i].rows
    requires RunOutcome(w1, w', plans, i + 1, done)
    ensures RunOutcome(w, w', plans, i, done)
  {
    hide StrictBatchPrefix, LastOfName, OnlyOfName;
    var end := Min(done + 1, |plans|);
    forall t | t in w.rows && !Names(plans, i, end, t) ensures w'.rows[t] == w.rows[t] {
      assert plans[i].name != t && !Names(plans, i + 1, end, t);
    }
    LastIsLast(plans, i, end);
    hide Names;
    if done < |plans| && !Names(plans, i, done, plans[done].name) {
      NotLater(plans, i, done);
    }
  }

  lemma LastIsLast(plans: seq<TablePlan>, i: nat, end: nat)
    requires i < end <= |plans|
    ensures LastOfName(plans, i) || OnlyOfName(plans, i) ==> !Names(plans, i + 1, end, plans[i].name)
  {
  }

  lemma NotLater(plans: seq<TablePlan>, i: nat, done: nat)
    requires i < done < |plans| && !Names(plans, i, done, plans[done].name)
    ensures plans[i].name != plans[done].name && !Names(plans, i + 1, done, plans[done].name)
  {
  }

  // ---------------------------------------------------------------------------
  // Rollback

  /** The previous delivery's result for a table: missing, not encodable, or its encoded rows. */
  datatype Prior = Absent | Unencodable | Encoded(rows: seq<Row>)

  type Previous = map<string, Prior>

  function PriorOf(previous: Previous, t: string): Prior {
    if t in previous then previous[t] else Absent
  }

  datatype TableState = NewRows | RestoredPrevious | RestoreFailed

  datatype Restoration = Restoration(world: World, states: map<string, TableState>, problems: seq<string>)

  /** Puts one replaced table back. */
  function RestoreTable(f: Faults, r: Restoration, t: string, previous: Previous): Restoration {
    match PriorOf(previous, t)
    case Absent => r.(states := r.states[t := NewRows], problems := r.problems + [t])
    case Unencodable => r.(states := r.states[t := RestoreFailed], problems := r.problems + [t])
    case Encoded(rows) =>
      var (w', ok) := ReplaceRows(f, r.world, TablePlan(t, [], rows));
      if ok then Restoration(w', r.states[t := RestoredPrevious], r.problems)
      else Restoration(w', r.states[t := RestoreFailed], r.problems + [t])
  }

  function Restore(f: Faults, r: Restoration, replaced: seq<string>, previous: Previous, i: nat): Restoration
    requires i <= |replaced|
    decreases |replaced| - i
  {
    if i == |replaced| then r else Restore(f, RestoreTable(f, r, replaced[i], previous), replaced, previous, i + 1)
  }

  ghost predicate Recovered(r: Restoration, previous: Previous, t: string)
  {
    && PriorOf(previous, t).Encoded? && t in r.world.rows && r.world.rows[t] == PriorOf(previous, t).rows
    && t in r.states && r.states[t] == RestoredPrevious
  }

  lemma RestoreTableOutcome(f: Faults, r: Restoration, t: string, previous: Previous)
    requires t in r.world.rows
    ensures var r' := RestoreTable(f, r, t, previous);
            && Others(r.world, r'.world, t) && r'.world.rows.Keys == r.world.rows.Keys
            && r'.states.Keys == r.states.Keys + {t}
            && (forall s :: s in r.states && s != t ==> r'.states[s] == r.states[s])
            && ((r'.problems == r.problems && Recovered(r', previous, t)) || r'.problems == r.problems + [t])
  {
    if PriorOf(previous, t).Encoded? {
      ReplaceOutcome(f, r.world, TablePlan(t, [], PriorOf(previous, t).rows));
    }
  }

  /** After the rollback: untouched tables kept, replaced ones put back or reported as problems. */
  ghost predicate RestoreOutcome(r: Restoration, r': Restoration, replaced: seq<string>, previous: Previous)
  {
    && r'.world.columns == r.world.columns && r'.world.rows.Keys == r.world.rows.Keys
    && r.problems <= r'.problems
    && (forall t :: t in r'.problems[|r.problems|..] ==> t in replaced)
    && (forall t :: t in r'.states <==> t in r.states || t in replaced)
    && (forall t :: t in r.world.rows && t !in replaced ==>
          r'.world.rows[t] == r.world.rows[t] && (t in r.states ==> r'.states[t] == r.states[t]))
    && (forall t :: t in replaced ==> Recovered(r', previous, t) || t in r'.problems)
  }

  lemma {:induction false} RestoreAll(f: Faults, r: Restoration, replaced: seq<string>, previous: Previous, i: nat)
    requires i <= |replaced| && forall t :: t in replaced ==> t in r.world.rows
    ensures RestoreOutcome(r, Restore(f, r, replaced, previous, i), replaced[i..], previous)
    decreases |replaced| - i
  {
    hide RestoreOutcome, RestoreTable, Recovered, Others;
    if i == |replaced| {
      RestoreNone(r, previous);
      assert replaced[i..] == [];
    } else {
      var t := replaced[i];
      assert t in replaced;
      RestoreTableOutcome(f, r, t, previous);
      var r1 := RestoreTable(f, r, t, previous);
      RestoreAll(f, r1, replaced, previous, i + 1);
      assert replaced[i..] == [t] + replaced[i + 1..];
      RestoreStep(r, r1, Restore(f, r1, replaced, previous, i + 1), t, replaced[i + 1..], previous);
    }
  }

  lemma RestoreNone(r: Restoration, previous: Previous)
    ensures RestoreOutcome(r, r, [], previous)
  {
  }

  lemma RestoreStep(r: Restoration, r1: Restoration, r': Restoration, t: string, rest: seq<string>, previous: Previous)
    requires t in r.world.rows && Others(r.world, r1.world, t) && t in r1.world.rows && r1.states.Keys == r.states.Keys + {t}
    requires forall s :: s in r.states && s != t ==> r1.states[s] == r.states[s]
    requires (r1.problems == r.problems && Recovered(r1, previous, t)) || r1.problems == r.problems + [t]
    requires RestoreOutcome(r1, r', rest, previous)
    ensures RestoreOutcome(r, r', [t] + rest, previous)
  {
    if t !in rest && r1.problems == r.problems {
      assert Recovered(r', previous, t);
    }
    if r1.problems != r.problems {
      assert r1.problems[|r.problems|] == t;
      assert r'.problems[|r.problems|] == t;
      assert r'.problems[|r.problems|..] == [t] + r'.problems[|r1.problems|..];
    }
  }

  /**
   The report on a replaced table whose rows were `planned` when the rollback began: what is said
   of it, whether it is named as a problem, and what it holds.
   */
  ghost predicate Reported(planned: seq<Row>, prior: Prior, rows: seq<Row>, state: TableState, problem: bool)
  {
    match prior
    case Absent => state == NewRows && problem && rows == planned
    case Unencodable => state == RestoreFailed && problem && rows == planned
    case Encoded(previous) =>
      || (state == RestoredPrevious && !problem && rows == previous)
      || (state == RestoreFailed && problem && (rows == planned || exists t :: StrictBatchPrefix(rows, TablePlan(t, [], previous))))
  }

  /** What a restoration says of a table that held `planned` before. */
  ghost predicate ReportedIn(r: Restoration, planned: seq<Row>, previous: Previous, t: string)
  {
    t in r.world.rows && t in r.states && Reported(planned, PriorOf(previous, t), r.world.rows[t], r.states[t], t in r.problems)
  }

  lemma RestoreTableReports(f: Faults, r: Restoration, t: string, previous: Previous)
    requires t in r.world.rows && t !in r.problems
    ensures ReportedIn(RestoreTable(f, r, t, previous), r.world.rows[t], previous, t)
  {
    if PriorOf(previous, t).Encoded? {
      ReplaceOutcome(f, r.world, TablePlan(t, [], PriorOf(previous, t).rows));
      hide ReplaceRows, StrictBatchPrefix;
    }
  }

  /** Restoring other tables changes nothing about this one. */
  lemma ReportedStays(r: Restoration, r': Restoration, rest: seq<string>, previous: Previous, planned: seq<Row>, t: string)
    requires ReportedIn(r, planned, previous, t) && RestoreOutcome(r, r', rest, previous) && t !in rest
    ensures ReportedIn(r', planned, previous, t)
  {
    hide Reported, Recovered;
    OtherProblems(r, r', rest, previous, t);
  }

  lemma OtherProblems(r: Restoration, r': Restoration, rest: seq<string>, previous: Previous, t: string)
    requires RestoreOutcome(r, r', rest, previous) && t !in rest
    ensures t in r'.problems <==> t in r.problems
  {
    hide Recovered;
    assert r'.problems == r.problems + r'.problems[|r.problems|..];
  }

  /** A table restored once is reported exactly as it is left. */
  lemma {:induction false} RestoreReports(f: Faults, r: Restoration, replaced: seq<string>, previous: Previous, i: nat, k: nat)
    requires i <= k < |replaced| && (forall t :: t in replaced ==> t in r.world.rows) && replaced[k] !in r.problems
    requires forall j :: i <= j < |replaced| && j != k ==> replaced[j] != replaced[k]
    ensures ReportedIn(Restore(f, r, replaced, previous, i), r.world.rows[replaced[k]], previous, replaced[k])
    decreases |replaced| - i
  {
    hide RestoreTable, RestoreOutcome, ReportedIn, Recovered, Others;
    var t, s := replaced[k], replaced[i];
    assert t in replaced && s in replaced;
    RestoreTableOutcome(f, r, s, previous);
    var r1 := RestoreTable(f, r, s, previous);
    if i == k {
      RestoreTableReports(f, r, t, previous);
      RestoreAll(f, r1, replaced, previous, i + 1);
      assert t !in replaced[i + 1..];
      ReportedStays(r1, Restore(f, r1, replaced, previous, i + 1), replaced[i + 1..], previous, r.world.rows[t], t);
    } else {
      assert r1.world.rows[t] == r.world.rows[t] by { OtherTable(r.world, r1.world, s, t); }
      RestoreReports(f, r1, replaced, previous, i + 1, k);
    }
  }

  lemma OtherTable(w: World, w': World, s: string, t: string)
    requires Others(w, w', s) && s != t && t in w.rows
    ensures t in w'.rows && w'.rows[t] == w.rows[t]
  {
    assert t in w'.rows.Keys + {s};
  }

  // ---------------------------------------------------------------------------
  // Revision

  /** The listing shows the plan's columns already. */
  predicate Agrees(listed: map<string, seq<Column>>, plan: TablePlan) {
    plan.name in listed && listed[plan.name] == plan.columns
  }

  /** Updates the schemas that differ from the listing; the last component counts the plans handled. */
  function PutSchemas(f: Faults, w: World, listed: map<string, seq<Column>>, plans: seq<TablePlan>, i: nat): (World, nat)
    requires i <= |plans|
    decreases |plans| - i
  {
    if i == |plans| then
      (w, i)
    else if Agrees(listed, plans[i]) then
      PutSchemas(f, w, listed, plans, i + 1)
    else
      var (w', ok) := PutTable(f, w, plans[i].name, plans[i].columns);
      if ok then PutSchemas(f, w', listed, plans, i + 1) else (w', i)
  }

  datatype Outcome =
    | Delivered
    | ListingFailed
    | TableSetChanged
    | SchemaFailed(at: nat)
    | DeliveryFailed(at: nat)
    | StateInconsistent(at: nat, states: map<string, TableState>, problems: seq<string>)

  function NamesOf(plans: seq<TablePlan>): seq<string> {
    seq(|plans|, i requires 0 <= i < |plans| => plans[i].name)
  }

  function Rollback(f: Faults, w: World, plans: seq<TablePlan>, done: nat, previous: Previous): (World, Outcome)
    requires done < |plans|
  {
    var replaced := NamesOf(plans[..done]);
    if replaced == [] then
      (w, DeliveryFailed(done))
    else
      var r := Restore(f, Restoration(w, map[], []), replaced, previous, 0);
      (r.world, if r.problems == [] then DeliveryFailed(done) else StateInconsistent(done, r.states, r.problems))
  }

  function ReplaceOrRollBack(f: Faults, w: World, plans: seq<TablePlan>, previous: Previous): (World, Outcome)
  {
    var (w', done) := ReplaceAll(f, w, plans, 0);
    if done >= |plans| then (w', Delivered) else Rollback(f, w', plans, done, previous)
  }

  function Revise(f: Faults, w: World, plans: seq<TablePlan>, previous: Previous): (World, Outcome)
  {
    if f(w.calls) then
      (Counted(w), ListingFailed)
    else if w.rows.Keys != set n | n in NamesOf(plans) then
      (Counted(w), TableSetChanged)
    else
      var (w1, put) := PutSchemas(f, Counted(w), w.columns, plans, 0);
      if put < |plans| then (w1, SchemaFailed(put)) else ReplaceOrRollBack(f, w1, plans, previous)
  }

  /** What a failed replacement may leave behind, table by table. */
  ghost predicate AfterFailure(w: World, w': World, plans: seq<TablePlan>, at: nat, previous: Previous, problems: seq<string>)
    requires at < |plans|
  {
    && w'.rows.Keys == w.rows.Keys
    && (forall t :: t in w.rows && !Names(plans, 0, at + 1, t) ==> w'.rows[t] == w.rows[t])
    && (forall t :: t in w.rows && Names(plans, 0, at, t) && t !in problems ==>
          PriorOf(previous, t).Encoded? && w'.rows[t] == PriorOf(previous, t).rows)
    && (var t := plans[at].name;
        t in w.rows && !Names(plans, 0, at, t) ==>
          w'.rows[t] == w.rows[t] || StrictBatchPrefix(w'.rows[t], plans[at]))
    && (forall t :: t in problems ==> Names(plans, 0, at, t))
  }

  /**
   The report of an inconsistent state: it covers exactly the replaced tables, and for a table
   with one plan it says restored exactly if the table is no problem and holds the previous rows,
   new rows exactly if there is no previous result and it holds the planned ones, and otherwise
   that its restore failed.
   */
  ghost predicate ReportExact(w': World, plans: seq<TablePlan>, at: nat, previous: Previous, states: map<string, TableState>, problems: seq<string>)
    requires at <= |plans|
  {
    && (forall t :: t in states <==> Names(plans, 0, at, t))
    && forall k :: 0 <= k < at && OnlyOfName(plans, k) ==>
         plans[k].name in states && plans[k].name in w'.rows &&
         TableReport(w'.rows[plans[k].name], plans[k].rows, PriorOf(previous, plans[k].name), states[plans[k].name], plans[k].name in problems)
  }

  ghost predicate TableReport(rows: seq<Row>, planned: seq<Row>, prior: Prior, state: TableState, problem: bool)
  {
    && (state == RestoredPrevious <==> !problem) && (state == RestoredPrevious ==> prior == Encoded(rows))
    && (state == NewRows <==> prior == Absent) && (state == NewRows ==> rows == planned)
    && (state == RestoreFailed ==> rows == planned || (prior.Encoded? && exists t :: StrictBatchPrefix(rows, TablePlan(t, [], prior.rows))))
  }

  lemma ReportMeans(planned: seq<Row>, prior: Prior, rows: seq<Row>, state: TableState, problem: bool)
    requires Reported(planned, prior, rows, state, problem)
    ensures TableReport(rows, planned, prior, state, problem)
  {
    hide StrictBatchPrefix;
  }

  /** The names of the replaced tables are in the model. */
  lemma ReplacedKnown(w: World, w1: World, plans: seq<TablePlan>, done: nat)
    requires done < |plans| && AllKnown(w, plans) && RunOutcome(w, w1, plans, 0, done)
    ensures forall t :: t in NamesOf(plans[..done]) ==> t in w1.rows
    ensures forall t :: t in NamesOf(plans[..done]) <==> Names(plans, 0, done, t)
  {
    hide StrictBatchPrefix, LastOfName, OnlyOfName;
    forall t ensures t in NamesOf(plans[..done]) <==> Names(plans, 0, done, t) { NamesOfIff(plans, done, t); }
  }

  lemma OneReport(f: Faults, w: World, w1: World, plans: seq<TablePlan>, done: nat, previous: Previous, k: nat)
    requires k < done < |plans| && AllKnown(w, plans) && RunOutcome(w, w1, plans, 0, done) && OnlyOfName(plans, k)
    ensures var r := Restore(f, Restoration(w1, map[], []), NamesOf(plans[..done]), previous, 0);
            ReportedIn(r, plans[k].rows, previous, plans[k].name)
  {
    ReplacedKnown(w, w1, plans, done);
    ReplacedRows(w, w1, plans, done, k);
    hide RunOutcome, Names, Restore, ReportedIn, AllKnown;
    var replaced := NamesOf(plans[..done]);
    assert forall j :: 0 <= j < done ==> replaced[j] == plans[j].name;
    RestoreReports(f, Restoration(w1, map[], []), replaced, previous, 0, k);
  }

  lemma RollbackReports(f: Faults, w: World, w1: World, plans: seq<TablePlan>, done: nat, previous: Previous)
    requires done < |plans| && AllKnown(w, plans) && RunOutcome(w, w1, plans, 0, done)
    ensures var r := Restore(f, Restoration(w1, map[], []), NamesOf(plans[..done]), previous, 0);
            ReportExact(r.world, plans, done, previous, r.states, r.problems)
  {
    hide RunOutcome, Names, AllKnown, Restore, TableReport, Reported, RestoreOutcome, OnlyOfName, NamesOf;
    var replaced, start := NamesOf(plans[..done]), Restoration(w1, map[], []);
    ReplacedKnown(w, w1, plans, done);
    RestoreAll(f, start, replaced, previous, 0);
    assert replaced[0..] == replaced;
    var r := Restore(f, start, replaced, previous, 0);
    RestoredKeys(start, r, replaced, previous);
    forall k | 0 <= k < done && OnlyOfName(plans, k)
      ensures plans[k].name in r.states && plans[k].name in r.world.rows
      ensures TableReport(r.world.rows[plans[k].name], plans[k].rows, PriorOf(previous, plans[k].name), r.states[plans[k].name], plans[k].name in r.problems)
    {
      var t := plans[k].name;
      OneReport(f, w, w1, plans, done, previous, k);
      ReportMeans(plans[k].rows, PriorOf(previous, t), r.world.rows[t], r.states[t], t in r.problems);
    }
  }

  lemma RestoredKeys(r: Restoration, r': Restoration, replaced: seq<string>, previous: Previous)
    requires RestoreOutcome(r, r', replaced, previous)
    ensures forall t :: t in r'.states <==> t in r.states || t in replaced
  {
    hide Recovered;
  }

  lemma ReplacedRows(w: World, w1: World, plans: seq<TablePlan>, done: nat, k: nat)
    requires k < done < |plans| && AllKnown(w, plans) && RunOutcome(w, w1, plans, 0, done) && OnlyOfName(plans, k)
    ensures plans[k].name in w1.rows && w1.rows[plans[k].name] == plans[k].rows
  {
    hide StrictBatchPrefix, Names, LastOfName;
  }

  lemma NamesOfIff(plans: seq<TablePlan>, n: nat, t: string)
    requires n <= |plans|
    ensures t in NamesOf(plans[..n]) <==> Names(plans, 0, n, t)
  {
    if Names(plans, 0, n, t) {
      var k :| 0 <= k < n && plans[k].name == t;
      assert NamesOf(plans[..n])[k] == t;
    }
  }

  lemma RollbackOutcome(f: Faults, w: World, w1: World, plans: seq<TablePlan>, done: nat, previous: Previous)
    requires done < |plans| && AllKnown(w, plans) && RunOutcome(w, w1, plans, 0, done)
    ensures var (w', o) := Rollback(f, w1, plans, done, previous);
            && w'.columns == w.columns && w'.rows.Keys == w.rows.Keys
            && ((o == DeliveryFailed(done) && AfterFailure(w, w', plans, done, previous, [])) ||
                (o.StateInconsistent? && o.at == done && o.problems != [] && AfterFailure(w, w', plans, done, previous, o.problems)
                 && ReportExact(w', plans, done, previous, o.states, o.problems)))
  {
    var replaced := NamesOf(plans[..done]);
    forall t ensures t in replaced <==> Names(plans, 0, done, t) { NamesOfIff(plans, done, t); }
    forall t | t in replaced ensures t in w1.rows { var k :| 0 <= k < done && plans[k].name == t; }
    assert forall t :: Names(plans, 0, done, t) ==> Names(plans, 0, done + 1, t);
    if replaced != [] {
      RestoreAll(f, Restoration(w1, map[], []), replaced, previous, 0);
      assert replaced[0..] == replaced;
      hide StrictBatchPrefix, Names, ReportExact;
      RollbackReports(f, w, w1, plans, done, previous);
      RollbackKeeps(w, w1, Restore(f, Restoration(w1, map[], []), replaced, previous, 0), plans, done, replaced, previous);
    }
  }

  lemma RollbackKeeps(w: World, w1: World, r: Restoration, plans: seq<TablePlan>, done: nat, replaced: seq<string>, previous: Previous)
    requires done < |plans| && RunOutcome(w, w1, plans, 0, done)
    requires forall t :: t in replaced <==> Names(plans, 0, done, t)
    requires forall t :: Names(plans, 0, done, t) ==> Names(plans, 0, done + 1, t)
    requires RestoreOutcome(Restoration(w1, map[], []), r, replaced, previous)
    ensures AfterFailure(w, r.world, plans, done, previous, r.problems)
    ensures r.problems == [] ==> AfterFailure(w, r.world, plans, done, previous, [])
  {
    hide StrictBatchPrefix, Names;
    assert r.problems[0..] == r.problems;
  }

  /** The columns after the schema updates of the first `n` plans. */
  function Reshaped(listed: map<string, seq<Column>>, plans: seq<TablePlan>, n: nat): map<string, seq<Column>>
    requires n <= |plans|
  {
    if n == 0 then listed else
    var before := Reshaped(listed, plans, n - 1);
    if Agrees(listed, plans[n - 1]) then before else before[plans[n - 1].name := plans[n - 1].columns]
  }

  /** Some of the first `n` plans gives the table other columns than the listing. */
  ghost predicate Differing(listed: map<string, seq<Column>>, plans: seq<TablePlan>, n: nat, t: string)
    requires n <= |plans|
  {
    exists k :: 0 <= k < n && plans[k].name == t && !Agrees(listed, plans[k])
  }

  /** A table's columns change exactly if some plan for it differs from the listing. */
  lemma {:induction false} ReshapedAt(listed: map<string, seq<Column>>, plans: seq<TablePlan>, n: nat, t: string)
    requires n <= |plans|
    ensures var c := Reshaped(listed, plans, n);
            if Differing(listed, plans, n, t) then t in c && (t !in listed || c[t] != listed[t])
            else (t in c <==> t in listed) && (t in c ==> c[t] == listed[t])
  {
    if n > 0 {
      ReshapedAt(listed, plans, n - 1, t);
      assert Differing(listed, plans, n, t) <==>
          Differing(listed, plans, n - 1, t) || (plans[n - 1].name == t && !Agrees(listed, plans[n - 1]));
    }
  }

  lemma {:induction false} ReshapedOnly(listed: map<string, seq<Column>>, plans: seq<TablePlan>, n: nat, k: nat)
    requires k < n <= |plans| && OnlyOfName(plans, k)
    ensures var c := Reshaped(listed, plans, n); plans[k].name in c && c[plans[k].name] == plans[k].columns
  {
    if k < n - 1 {
      ReshapedOnly(listed, plans, n - 1, k);
    } else {
      ReshapedAt(listed, plans, k, plans[k].name);
    }
  }

  /** The schema updates leave the columns as listed if and only if no plan differs from the listing. */
  lemma ReshapedSameIff(listed: map<string, seq<Column>>, plans: seq<TablePlan>, n: nat)
    requires n <= |plans|
    ensures Reshaped(listed, plans, n) == listed <==> forall k :: 0 <= k < n ==> Agrees(listed, plans[k])
  {
    hide Reshaped, Agrees;
    if forall k :: 0 <= k < n ==> Agrees(listed, plans[k]) {
      forall t ensures t in Reshaped(listed, plans, n) <==> t in listed { ReshapedAt(listed, plans, n, t); }
      forall t | t in listed ensures Reshaped(listed, plans, n)[t] == listed[t] { ReshapedAt(listed, plans, n, t); }
    } else {
      var k :| 0 <= k < n && !Agrees(listed, plans[k]);
      assert Differing(listed, plans, n, plans[k].name);
      ReshapedAt(listed, plans, n, plans[k].name);
    }
  }

  lemma {:induction false} PutOutcome(f: Faults, w: World, listed: map<string, seq<Column>>, plans: seq<TablePlan>, i: nat)
    requires i <= |plans| && w.columns == Reshaped(listed, plans, i)
    ensures var (w', put) := PutSchemas(f, w, listed, plans, i);
            && i <= put <= |plans| && w'.rows == w.rows && w'.columns == Reshaped(listed, plans, put)
            && (put < |plans| ==> !Agrees(listed, plans[put]))
    decreases |plans| - i
  {
    hide Agrees;
    if i < |plans| {
      if Agrees(listed, plans[i]) {
        PutOutcome(f, w, listed, plans, i + 1);
      } else {
        var (w1, ok) := PutTable(f, w, plans[i].name, plans[i].columns);
        if ok { PutOutcome(f, w1, listed, plans, i + 1); }
      }
    }
  }

  // ---------------------------------------------------------------------------
  // The delivery theorem

  /** What a replacement run leaves in the rows, whatever calls fail. */
  ghost predicate RowsGuarantee(w: World, w': World, o: Outcome, plans: seq<TablePlan>, previous: Previous)
  {
    && w'.rows.Keys == w.rows.Keys
    && match o
       case Delivered =>
         forall k :: 0 <= k < |plans| && LastOfName(plans, k) ==> plans[k].name in w'.rows && w'.rows[plans[k].name] == plans[k].rows
       case DeliveryFailed(at) => at < |plans| && AfterFailure(w, w', plans, at, previous, [])
       case StateInconsistent(at, states, problems) =>
         && at < |plans| && problems != [] && AfterFailure(w, w', plans, at, previous, problems)
         && ReportExact(w', plans, at, previous, states, problems)
       case _ => w'.rows == w.rows
  }

  /**
   What it leaves in the columns: once the schema updates went through, the new ones, whether or
   not the rows follow; a rollback never puts columns back.
   */
  ghost predicate ColumnsGuarantee(w: World, w': World, o: Outcome, plans: seq<TablePlan>)
  {
    match o
    case ListingFailed => w'.columns == w.columns
    case TableSetChanged => w'.columns == w.columns
    case SchemaFailed(at) => at < |plans| && !Agrees(w.columns, plans[at]) && w'.columns == Reshaped(w.columns, plans, at)
    case _ =>
      && w'.columns == Reshaped(w.columns, plans, |plans|)
      && forall k :: 0 <= k < |plans| && OnlyOfName(plans, k) ==>
           plans[k].name in w'.columns && w'.columns[plans[k].name] == plans[k].columns
  }

  /** What every revision run guarantees, whatever calls fail. */
  ghost predicate ReviseGuarantee(w: World, w': World, o: Outcome, plans: seq<TablePlan>, previous: Previous)
  {
    RowsGuarantee(w, w', o, plans, previous) && ColumnsGuarantee(w, w', o, plans)
  }

  lemma ReplaceGuarantee(f: Faults, w: World, plans: seq<TablePlan>, previous: Previous)
    requires AllKnown(w, plans)
    ensures var (w', o) := ReplaceOrRollBack(f, w, plans, previous);
            RowsGuarantee(w, w', o, plans, previous) && w'.columns == w.columns
  {
    hide StrictBatchPrefix, AfterFailure, Restore, LastOfName, OnlyOfName;
    ReplaceAllOutcome(f, w, plans, 0);
    var (w1, done) := ReplaceAll(f, w, plans, 0);
    if done < |plans| {
      RollbackOutcome(f, w, w1, plans, done, previous);
    }
  }

  lemma PlannedTablesKnown(w: World, plans: seq<TablePlan>)
    requires w.rows.Keys == set n | n in NamesOf(plans)
    ensures AllKnown(w, plans)
  {
    forall k | 0 <= k < |plans| ensures plans[k].name in w.rows {
      assert NamesOf(plans)[k] == plans[k].name;
      assert plans[k].name in NamesOf(plans);
    }
  }

  lemma PutThenReplace(f: Faults, w: World, plans: seq<TablePlan>, previous: Previous)
    requires AllKnown(w, plans)
    ensures var (w1, put) := PutSchemas(f, Counted(w), w.columns, plans, 0);
            && put <= |plans|
            && (put < |plans| ==> ReviseGuarantee(w, w1, SchemaFailed(put), plans, previous))
            && (put == |plans| ==>
                  var (w', o) := ReplaceOrRollBack(f, w1, plans, previous); ReviseGuarantee(w, w', o, plans, previous))
  {
    PutOutcome(f, Counted(w), w.columns, plans, 0);
    var (w1, put) := PutSchemas(f, Counted(w), w.columns, plans, 0);
    hide PutSchemas, ReplaceOrRollBack, Reshaped, ReviseGuarantee, AllKnown;
    if put == |plans| {
      assert AllKnown(w1, plans) by { StillKnown(w, w1, plans); }
      ReplaceAfterPut(f, w, w1, plans, previous);
    } else {
      PutStopped(w, w1, put, plans, previous);
    }
  }

  lemma StillKnown(w: World, w1: World, plans: seq<TablePlan>)
    requires AllKnown(w, plans) && w1.rows == w.rows
    ensures AllKnown(w1, plans)
  {
  }

  lemma PutStopped(w: World, w1: World, put: nat, plans: seq<TablePlan>, previous: Previous)
    requires put < |plans| && w1.rows == w.rows && w1.columns == Reshaped(w.columns, plans, put) && !Agrees(w.columns, plans[put])
    ensures ReviseGuarantee(w, w1, SchemaFailed(put), plans, previous)
  {
    hide Reshaped, Agrees;
  }

  lemma ReplaceAfterPut(f: Faults, w: World, w1: World, plans: seq<TablePlan>, previous: Previous)
    requires AllKnown(w1, plans) && w1.rows == w.rows && w1.columns == Reshaped(w.columns, plans, |plans|)
    ensures var (w', o) := ReplaceOrRollBack(f, w1, plans, previous); ReviseGuarantee(w, w', o, plans, previous)
  {
    hide ReplaceOrRollBack, Reshaped, RowsGuarantee, AllKnown, OnlyOfName;
    ReplaceGuarantee(f, w1, plans, previous);
    var (w', o) := ReplaceOrRollBack(f, w1, plans, previous);
    OutcomeKinds(f, w1, plans, previous);
    SameRows(w1, w, w', o, plans, previous);
    forall k | 0 <= k < |plans| && OnlyOfName(plans, k)
      ensures plans[k].name in w'.columns && w'.columns[plans[k].name] == plans[k].columns
    {
      ReshapedOnly(w.columns, plans, |plans|, k);
    }
  }

  lemma OutcomeKinds(f: Faults, w: World, plans: seq<TablePlan>, previous: Previous)
    ensures var o := ReplaceOrRollBack(f, w, plans, previous).1; o.Delivered? || o.DeliveryFailed? || o.StateInconsistent?
  {
  }

  /** Every fault schedule: complete on success; on failure the rows and columns of each table are accounted for. */
  lemma ReviseOutcome(f: Faults, w: World, plans: seq<TablePlan>, previous: Previous)
    ensures var (w', o) := Revise(f, w, plans, previous);
            && ReviseGuarantee(w, w', o, plans, previous)
            && (o.ListingFailed? <==> f(w.calls))
            && (o.TableSetChanged? <==> !f(w.calls) && w.rows.Keys != set n | n in NamesOf(plans))
  {
    OtherOutcomes(f, w, plans, previous);
    hide PutSchemas, ReplaceOrRollBack;
    if !f(w.calls) && w.rows.Keys == set n | n in NamesOf(plans) {
      hide ReviseGuarantee, AllKnown;
      PlannedTablesKnown(w, plans);
      PutThenReplace(f, w, plans, previous);
    }
  }

  lemma OtherOutcomes(f: Faults, w: World, plans: seq<TablePlan>, previous: Previous)
    ensures var o := Revise(f, w, plans, previous).1;
            && (o.ListingFailed? <==> f(w.calls))
            && (o.TableSetChanged? <==> !f(w.calls) && w.rows.Keys != set n | n in NamesOf(plans))
  {
    var w1 := PutSchemas(f, Counted(w), w.columns, plans, 0).0;
    OutcomeKinds(f, w1, plans, previous);
    hide PutSchemas, ReplaceOrRollBack, NamesOf;
  }

  lemma SameRows(w1: World, w: World, w': World, o: Outcome, plans: seq<TablePlan>, previous: Previous)
    requires w1.rows == w.rows && RowsGuarantee(w1, w', o, plans, previous)
    ensures RowsGuarantee(w, w', o, plans, previous)
  {
    hide StrictBatchPrefix, Names;
  }

  // ---------------------------------------------------------------------------
  // Complete-or-previous: exactly when it holds

  ghost predicate Faithful(previous: Previous, w: World) {
    forall t :: t in w.rows ==> PriorOf(previous, t) == Encoded(w.rows[t])
  }

  ghost predicate FirstOfName(plans: seq<TablePlan>, k: nat)
    requires k < |plans|
  {
    !Names(plans, 0, k, plans[k].name)
  }

  /** No partial write can be told apart from the previous rows. */
  ghost predicate Indivisible(w: World, plan: TablePlan) {
    plan.rows == [] || (Held(w, plan.name) == [] && |plan.rows| <= MAX_ROWS_PER_POST)
  }

  ghost predicate CompleteOrPrevious(f: Faults, w: World, plans: seq<TablePlan>, previous: Previous) {
    var (w', o) := Revise(f, w, plans, previous);
    o.Delivered? || o.StateInconsistent? || (w'.rows == w.rows && w'.columns == w.columns)
  }

  /** Nothing a failed call can leave behind differs from the previous model. */
  ghost predicate Reversible(w: World, plans: seq<TablePlan>) {
    && (forall k :: 0 <= k < |plans| && FirstOfName(plans, k) ==> Indivisible(w, plans[k]))
    && (forall k :: 0 <= k < |plans| ==> Agrees(w.columns, plans[k]))
  }

  lemma ReversibleKeeps(f: Faults, w: World, plans: seq<TablePlan>, previous: Previous)
    requires Faithful(previous, w) && Reversible(w, plans)
    ensures CompleteOrPrevious(f, w, plans, previous)
  {
    hide Revise, Faithful, AfterFailure, FirstOfName, Indivisible, LastOfName, OnlyOfName, Names, Reshaped, Agrees;
    ReviseOutcome(f, w, plans, previous);
    var (w', o) := Revise(f, w, plans, previous);
    ReshapedSameIff(w.columns, plans, |plans|);
    if o.DeliveryFailed? { IndivisibleKeepsAt(w, w', plans, o.at, previous); }
  }

  lemma IndivisibleKeepsAt(w: World, w': World, plans: seq<TablePlan>, at: nat, previous: Previous)
    requires at < |plans| && Faithful(previous, w) && AfterFailure(w, w', plans, at, previous, [])
    requires FirstOfName(plans, at) ==> Indivisible(w, plans[at])
    ensures w'.rows == w.rows
  {
    hide StrictBatchPrefix, Indivisible;
    forall t | t in w.rows ensures w'.rows[t] == w.rows[t] {
      if t == plans[at].name && !Names(plans, 0, at, t) {
        if w'.rows[t] != w.rows[t] { PrefixIsEmpty(w'.rows[t], plans[at], w); }
      } else {
        assert Names(plans, 0, at + 1, t) ==> Names(plans, 0, at, t);
      }
    }
  }

  lemma PrefixIsEmpty(rows: seq<Row>, plan: TablePlan, w: World)
    requires Indivisible(w, plan) && StrictBatchPrefix(rows, plan)
    ensures rows == Held(w, plan.name)
  {
    var k: nat :| k * MAX_ROWS_PER_POST < |plan.rows| && rows == plan.rows[..k * MAX_ROWS_PER_POST];
    if k > 0 { assert k * MAX_ROWS_PER_POST >= MAX_ROWS_PER_POST; }
  }

  function Never(): Faults {
    n => false
  }

  function Only(c: nat): Faults {
    n => n == c
  }

  ghost predicate Quiet(f: Faults, lo: nat, hi: nat) {
    forall n: nat :: lo <= n < hi ==> !f(n)
  }

  lemma {:induction false} PushQuiet(f: Faults, w: World, plan: TablePlan, start: nat)
    ensures PushRows(Never(), w, plan, start).1 && w.calls <= PushRows(Never(), w, plan, start).0.calls
    ensures Quiet(f, w.calls, PushRows(Never(), w, plan, start).0.calls) ==>
              PushRows(f, w, plan, start) == PushRows(Never(), w, plan, start)
    decreases |plan.rows| - start
  {
    if start < |plan.rows| {
      var w' := PostRows(Never(), w, plan.name, plan.rows[start..BatchEnd(plan, start)]).0;
      PushQuiet(f, w', plan, start + MAX_ROWS_PER_POST);
    }
  }

  lemma ReplaceQuiet(f: Faults, w: World, plan: TablePlan)
    ensures var q := ReplaceRows(Never(), w, plan);
            && q.1 && w.calls < q.0.calls
            && (Quiet(f, w.calls, q.0.calls) ==> ReplaceRows(f, w, plan) == q)
  {
    PushQuiet(f, DeleteRows(Never(), w, plan.name).0, plan, 0);
  }

  /** The world after the tables `i..k` were replaced without faults. */
  function Advanced(w: World, plans: seq<TablePlan>, i: nat, k: nat): World
    requires i <= k <= |plans|
    decreases k - i
  {
    if i == k then w else Advanced(ReplaceRows(Never(), w, plans[i]).0, plans, i + 1, k)
  }

  lemma {:induction false} AdvancedCalls(w: World, plans: seq<TablePlan>, i: nat, k: nat)
    requires i <= k <= |plans|
    ensures w.calls <= Advanced(w, plans, i, k).calls
    decreases k - i
  {
    if i < k {
      hide ReplaceRows;
      ReplaceQuiet(Never(), w, plans[i]);
      AdvancedCalls(ReplaceRows(Never(), w, plans[i]).0, plans, i + 1, k);
    }
  }

  lemma QuietWithin(f: Faults, lo: nat, mid: nat, hi: nat)
    requires Quiet(f, lo, hi) && lo <= mid <= hi
    ensures Quiet(f, lo, mid) && Quiet(f, mid, hi)
  {
  }

  lemma {:induction false} ReplaceUpTo(f: Faults, w: World, plans: seq<TablePlan>, i: nat, k: nat)
    requires i <= k <= |plans| && Quiet(f, w.calls, Advanced(w, plans, i, k).calls)
    ensures ReplaceAll(f, w, plans, i) == ReplaceAll(f, Advanced(w, plans, i, k), plans, k)
    decreases k - i
  {
    if i < k {
      hide ReplaceRows, Quiet;
      var w' := ReplaceRows(Never(), w, plans[i]).0;
      ReplaceQuiet(f, w, plans[i]);
      AdvancedCalls(w', plans, i + 1, k);
      QuietWithin(f, w.calls, w'.calls, Advanced(w', plans, i + 1, k).calls);
      ReplaceUpTo(f, w', plans, i + 1, k);
    }
  }

  /** Without a failing call the revision is delivered. */
  lemma FaultFree(w: World, plans: seq<TablePlan>, previous: Previous)
    requires w.rows.Keys == (set n | n in NamesOf(plans))
    ensures Revise(Never(), w, plans, previous).1 == Delivered
  {
    PutQuiet(Never(), Counted(w), w.columns, plans, 0);
    var w1 := PutSchemas(Never(), Counted(w), w.columns, plans, 0).0;
    hide PutSchemas, NamesOf, Advanced;
    ReplaceUpTo(Never(), w1, plans, 0, |plans|);
    ReviseReaches(Never(), w, w1, plans, previous);
    hide Revise;
  }

  lemma {:induction false} AdvancedRows(w: World, plans: seq<TablePlan>, i: nat, k: nat)
    requires i <= k <= |plans| && AllKnown(w, plans)
    ensures var w' := Advanced(w, plans, i, k);
            w'.rows.Keys == w.rows.Keys && forall t :: t in w.rows && !Names(plans, i, k, t) ==> w'.rows[t] == w.rows[t]
    decreases k - i
  {
    if i < k {
      ReplaceOutcome(Never(), w, plans[i]);
      ReplaceQuiet(Never(), w, plans[i]);
      hide ReplaceRows, StrictBatchPrefix;
      var w1 := ReplaceRows(Never(), w, plans[i]).0;
      assert w1.rows.Keys == w.rows.Keys;
      AdvancedRows(w1, plans, i + 1, k);
      forall t | t in w.rows && !Names(plans, i, k, t) ensures Advanced(w, plans, i, k).rows[t] == w.rows[t] {
        assert plans[i].name != t && !Names(plans, i + 1, k, t);
      }
    }
  }

  lemma {:induction false} PutQuiet(f: Faults, w: World, listed: map<string, seq<Column>>, plans: seq<TablePlan>, i: nat)
    requires i <= |plans|
    ensures var q := PutSchemas(Never(), w, listed, plans, i);
            && q.1 == |plans| && w.calls <= q.0.calls
            && (Quiet(f, w.calls, q.0.calls) ==> PutSchemas(f, w, listed, plans, i) == q)
    decreases |plans| - i
  {
    if i < |plans| {
      if Agrees(listed, plans[i]) {
        PutQuiet(f, w, listed, plans, i + 1);
      } else {
        PutQuiet(f, PutTable(Never(), w, plans[i].name, plans[i].columns).0, listed, plans, i + 1);
      }
    }
  }

  lemma {:induction false} RestoreQuiet(f: Faults, r: Restoration, replaced: seq<string>, previous: Previous, i: nat)
    requires i <= |replaced| && (forall n :: n >= r.world.calls ==> !f(n))
    requires forall t :: t in replaced ==> PriorOf(previous, t).Encoded?
    ensures Restore(f, r, replaced, previous, i).problems == r.problems
    decreases |replaced| - i
  {
    if i < |replaced| {
      var t := replaced[i];
      assert t in replaced;
      ReplaceQuiet(f, r.world, TablePlan(t, [], PriorOf(previous, t).rows));
      RestoreQuiet(f, RestoreTable(f, r, t, previous), replaced, previous, i + 1);
    }
  }

  /** Failing the right post leaves the table neither complete nor previous. */
  lemma BrokenPost(w: World, plan: TablePlan) returns (c: nat)
    requires !Indivisible(w, plan) && plan.name in w.rows
    ensures c > w.calls
    ensures var (w', ok) := ReplaceRows(Only(c), w, plan);
            !ok && w'.calls == c + 1 && w'.rows.Keys == w.rows.Keys && w'.rows[plan.name] != w.rows[plan.name]
            && (forall t :: t in w.rows && t != plan.name ==> w'.rows[t] == w.rows[t])
  {
    var w1 := DeleteRows(Never(), w, plan.name).0;
    if w.rows[plan.name] != [] {
      c := w.calls + 1;
      assert PushRows(Only(c), w1, plan, 0) == (Counted(w1), false);
    } else {
      c := w.calls + 2;
      var batch := plan.rows[0..MAX_ROWS_PER_POST];
      var w2 := PostRows(Only(c), w1, plan.name, batch).0;
      assert w2.rows[plan.name] == batch;
      assert PushRows(Only(c), w2, plan, MAX_ROWS_PER_POST) == (Counted(w2), false);
      assert PushRows(Only(c), w1, plan, 0) == PushRows(Only(c), w2, plan, MAX_ROWS_PER_POST);
    }
  }

  lemma StopsAt(f: Faults, w: World, plans: seq<TablePlan>, k: nat)
    requires k < |plans| && !ReplaceRows(f, w, plans[k]).1
    ensures ReplaceAll(f, w, plans, k) == (ReplaceRows(f, w, plans[k]).0, k)
  {
    hide ReplaceRows;
  }

  lemma SomeFaultStopsAt(w: World, plans: seq<TablePlan>, k: nat) returns (c: nat, w3: World)
    requires AllKnown(w, plans) && k < |plans| && FirstOfName(plans, k) && !Indivisible(w, plans[k])
    ensures c >= w.calls && ReplaceAll(Only(c), w, plans, 0) == (w3, k)
    ensures w3.calls == c + 1 && w3.rows.Keys == w.rows.Keys && w3.rows[plans[k].name] != w.rows[plans[k].name]
  {
    hide ReplaceRows, ReplaceAll, Advanced, Names;
    var w2 := Advanced(w, plans, 0, k);
    AdvancedRows(w, plans, 0, k);
    AdvancedCalls(w, plans, 0, k);
    c := BrokenPost(w2, plans[k]);
    ReplaceUpTo(Only(c), w, plans, 0, k);
    w3 := ReplaceRows(Only(c), w2, plans[k]).0;
    StopsAt(Only(c), w2, plans, k);
  }

  lemma SomeFaultBreaks(w: World, plans: seq<TablePlan>, previous: Previous, k: nat) returns (c: nat)
    requires Faithful(previous, w)
    requires w.rows.Keys == (set n | n in NamesOf(plans))
    requires k < |plans| && FirstOfName(plans, k) && !Indivisible(w, plans[k])
    ensures !CompleteOrPrevious(Only(c), w, plans, previous)
  {
    PlannedTablesKnown(w, plans);
    var w1 := PutSchemas(Never(), Counted(w), w.columns, plans, 0).0;
    PutQuiet(Never(), Counted(w), w.columns, plans, 0);
    PutRows(w, plans);
    hide PutSchemas, ReplaceAll, Rollback, Faithful, FirstOfName, Revise, NamesOf, Indivisible, AllKnown;
    assert AllKnown(w1, plans) && !Indivisible(w1, plans[k]) by { SameTables(w, w1, plans, k); }
    var w3: World;
    c, w3 := SomeFaultStopsAt(w1, plans, k);
    PutQuiet(Only(c), Counted(w), w.columns, plans, 0);
    RollbackLeaves(Only(c), w, w3, plans, k, previous);
    ReviseReaches(Only(c), w, w1, plans, previous);
  }

  lemma SameTables(w: World, w1: World, plans: seq<TablePlan>, k: nat)
    requires w1.rows == w.rows && k < |plans| && AllKnown(w, plans) && !Indivisible(w, plans[k])
    ensures AllKnown(w1, plans) && !Indivisible(w1, plans[k])
  {
  }

  lemma ReviseReaches(f: Faults, w: World, w1: World, plans: seq<TablePlan>, previous: Previous)
    requires !f(w.calls) && w.rows.Keys == (set n | n in NamesOf(plans))
    requires PutSchemas(f, Counted(w), w.columns, plans, 0) == (w1, |plans|)
    ensures Revise(f, w, plans, previous) == ReplaceOrRollBack(f, w1, plans, previous)
  {
    hide PutSchemas, ReplaceOrRollBack, NamesOf;
  }

  lemma PutRows(w: World, plans: seq<TablePlan>)
    ensures PutSchemas(Never(), Counted(w), w.columns, plans, 0).0.rows == w.rows
  {
    PutSchemasRows(Never(), Counted(w), w.columns, plans, 0);
  }

  lemma {:induction false} PutSchemasRows(f: Faults, w: World, listed: map<string, seq<Column>>, plans: seq<TablePlan>, i: nat)
    requires i <= |plans|
    ensures PutSchemas(f, w, listed, plans, i).0.rows == w.rows
    decreases |plans| - i
  {
    if i < |plans| {
      if Agrees(listed, plans[i]) {
        PutSchemasRows(f, w, listed, plans, i + 1);
      } else {
        PutSchemasRows(f, PutTable(f, w, plans[i].name, plans[i].columns).0, listed, plans, i + 1);
      }
    }
  }

  /** The rollback does not reach the table that was being replaced. */
  lemma RollbackLeaves(f: Faults, w: World, w3: World, plans: seq<TablePlan>, k: nat, previous: Previous)
    requires k < |plans| && FirstOfName(plans, k) && AllKnown(w, plans) && Faithful(previous, w)
    requires w3.rows.Keys == w.rows.Keys && w3.rows[plans[k].name] != w.rows[plans[k].name]
    requires forall n :: n >= w3.calls ==> !f(n)
    ensures var (w', o) := Rollback(f, w3, plans, k, previous);
            o == DeliveryFailed(k) && w'.rows != w.rows
  {
    var replaced := NamesOf(plans[..k]);
    forall t ensures t in replaced <==> Names(plans, 0, k, t) { NamesOfIff(plans, k, t); }
    forall t | t in replaced ensures t in w.rows { var j :| 0 <= j < k && plans[j].name == t; }
    var r := Restoration(w3, map[], []);
    RestoreAll(f, r, replaced, previous, 0);
    assert replaced[0..] == replaced;
    RestoreQuiet(f, r, replaced, previous, 0);
    var r' := Restore(f, r, replaced, previous, 0);
    hide Restore;
    assert plans[k].name !in replaced;
    assert r'.world.rows[plans[k].name] == w3.rows[plans[k].name];
  }

  lemma FirstDeleteFails(w: World, plans: seq<TablePlan>, previous: Previous)
    requires plans != []
    ensures ReplaceOrRollBack(Only(w.calls), w, plans, previous) == (Counted(w), DeliveryFailed(0))
  {
    assert ReplaceRows(Only(w.calls), w, plans[0]) == (Counted(w), false);
    assert NamesOf(plans[..0]) == [];
  }

  /** One failing call after changed columns: the model keeps the new columns with the old rows. */
  lemma ChangedColumnsStay(w: World, plans: seq<TablePlan>, previous: Previous, k: nat) returns (c: nat)
    requires w.rows.Keys == (set n | n in NamesOf(plans))
    requires k < |plans| && !Agrees(w.columns, plans[k])
    ensures var (w', o) := Revise(Only(c), w, plans, previous);
            o == DeliveryFailed(0) && w'.rows == w.rows && w'.columns != w.columns
    ensures !CompleteOrPrevious(Only(c), w, plans, previous)
  {
    PutOutcome(Never(), Counted(w), w.columns, plans, 0);
    PutQuiet(Never(), Counted(w), w.columns, plans, 0);
    var w1 := PutSchemas(Never(), Counted(w), w.columns, plans, 0).0;
    c := w1.calls;
    PutQuiet(Only(c), Counted(w), w.columns, plans, 0);
    hide PutSchemas, Revise, ReplaceOrRollBack, NamesOf, Agrees, Reshaped;
    ReshapedSameIff(w.columns, plans, |plans|);
    FirstDeleteFails(w1, plans, previous);
    ReviseReaches(Only(c), w, w1, plans, previous);
  }

  /**
   With the previous rows at hand, a failed revision leaves rows and columns as they were (or
   says loudly that it did not) under every fault schedule, if and only if no planned columns
   differ from the listing and each planned table is empty, or was empty before and fits one post.
   */
  lemma CompleteOrPreviousIff(w: World, plans: seq<TablePlan>, previous: Previous)
    requires Faithful(previous, w) && w.rows.Keys == (set n | n in NamesOf(plans))
    ensures (forall f: Faults :: CompleteOrPrevious(f, w, plans, previous)) <==> Reversible(w, plans)
  {
    hide Revise, CompleteOrPrevious, Faithful, Indivisible, FirstOfName, Agrees, NamesOf;
    if Reversible(w, plans) {
      forall f: Faults ensures CompleteOrPrevious(f, w, plans, previous) { ReversibleKeeps(f, w, plans, previous); }
    } else if !forall k :: 0 <= k < |plans| ==> Agrees(w.columns, plans[k]) {
      var k :| 0 <= k < |plans| && !Agrees(w.columns, plans[k]);
      var c := ChangedColumnsStay(w, plans, previous, k);
    } else {
      var k :| 0 <= k < |plans| && FirstOfName(plans, k) && !Indivisible(w, plans[k]);
      var c := SomeFaultBreaks(w, plans, previous, k);
    }
  }

  /** The smallest such model: one empty table whose column changes its type. */
  lemma ColumnTypeChangeStays() returns (w': World)
    ensures var w := World(map["t" := [Column("a", "Int64")]], map["t" := []], 0);
            var plans := [TablePlan("t", [Column("a", "String")], [])];
            && Revise(Only(2), w, plans, map["t" := Encoded([])]) == (w', DeliveryFailed(0))
            && w'.rows == w.rows && w'.columns == map["t" := [Column("a", "String")]]
  {
    var w := World(map["t" := [Column("a", "Int64")]], map["t" := []], 0);
    var plans := [TablePlan("t", [Column("a", "String")], [])];
    assert NamesOf(plans) == ["t"];
    assert (set n | n in NamesOf(plans)) == {"t"} == w.rows.Keys;
    assert Column("a", "Int64") != Column("a", "String") by { assert |"Int64"| == 5 && |"String"| == 6; }
    assert w.columns["t"] != plans[0].columns by { assert w.columns["t"][0] != plans[0].columns[0]; }
    var w1 := World(w.columns["t" := plans[0].columns], w.rows, 2);
    assert PutSchemas(Only(2), w1, w.columns, plans, 1) == (w1, 1);
    FirstDeleteFails(w1, plans, map["t" := Encoded([])]);
    w' := Counted(w1);
  }

  // ---------------------------------------------------------------------------
  // First delivery

  /** Pushes the plans from index `i` on; the last component counts the plans fully pushed. */
  function PushAll(f: Faults, w: World, plans: seq<TablePlan>, i: nat): (World, nat)
    requires i <= |plans|
    decreases |plans| - i
  {
    if i == |plans| then
      (w, i)
    else
      var (w', ok) := PushRows(f, w, plans[i], 0);
      if ok then PushAll(f, w', plans, i + 1) else (w', i)
  }

  datatype CreateOutcome = Complete | NotCreated | RolledBack(at: nat) | PartialModelLeft(at: nat) | CompleteButUnlisted

  /** The columns a new model gives a table; of two plans for one table the last counts. */
  function ColumnsFor(plans: seq<TablePlan>, t: string): seq<Column> {
    if plans == [] then []
    else if plans[|plans| - 1].name == t then plans[|plans| - 1].columns
    else ColumnsFor(plans[..|plans| - 1], t)
  }

  lemma {:induction false} ColumnsForOnly(plans: seq<TablePlan>, n: nat, k: nat)
    requires k < n <= |plans| && OnlyOfName(plans, k)
    ensures ColumnsFor(plans[..n], plans[k].name) == plans[k].columns
  {
    if k < n - 1 {
      ColumnsForOnly(plans, n - 1, k);
      assert plans[..n][..n - 1] == plans[..n - 1];
    }
  }

  function EmptyModel(plans: seq<TablePlan>, calls: nat): World {
    World(map t | t in NamesOf(plans) :: ColumnsFor(plans, t), map t | t in NamesOf(plans) :: [], calls)
  }

  /** The create path: the model afterwards (`None` when the workspace holds none) and the outcome. */
  function Create(f: Faults, calls: nat, plans: seq<TablePlan>): (Option<World>, CreateOutcome)
  {
    if f(calls) then
      (None, NotCreated)
    else
      var (w, done) := PushAll(f, EmptyModel(plans, calls + 1), plans, 0);
      if done < |plans| then
        if f(w.calls) then (Some(Counted(w)), PartialModelLeft(done)) else (None, RolledBack(done))
      else
        (Some(Counted(w)), if f(w.calls) then CompleteButUnlisted else Complete)
  }

  /** Everything the plans `i..j` deliver to table `t`, in order. */
  function Gathered(plans: seq<TablePlan>, i: nat, j: nat, t: string): seq<Row>
    requires i <= j <= |plans|
    decreases j - i
  {
    if i == j then [] else (if plans[i].name == t then plans[i].rows else []) + Gathered(plans, i + 1, j, t)
  }

  ghost predicate PushedOnto(w: World, w': World, plans: seq<TablePlan>, i: nat, done: nat, t: string)
    requires i <= done <= |plans| && t in w.rows && t in w'.rows
  {
    if done < |plans| && plans[done].name == t then
      exists part :: StrictBatchPrefix(part, plans[done]) && w'.rows[t] == w.rows[t] + Gathered(plans, i, done, t) + part
    else
      w'.rows[t] == w.rows[t] + Gathered(plans, i, done, t)
  }

  lemma {:induction false} PushAllOutcome(f: Faults, w: World, plans: seq<TablePlan>, i: nat)
    requires i <= |plans| && AllKnown(w, plans)
    ensures var (w', done) := PushAll(f, w, plans, i);
            && i <= done <= |plans| && w'.rows.Keys == w.rows.Keys && w'.columns == w.columns
            && forall t :: t in w.rows ==> PushedOnto(w, w', plans, i, done, t)
    decreases |plans| - i
  {
    if i < |plans| {
      var p := plans[i];
      assert w.rows[p.name] == w.rows[p.name] + p.rows[..0];
      PushOutcome(f, w, p, 0, w.rows[p.name]);
      var (w1, ok) := PushRows(f, w, p, 0);
      assert w1.rows.Keys == w.rows.Keys;
      hide PushRows, StrictBatchPrefix;
      if ok {
        PushAllOutcome(f, w1, plans, i + 1);
        var (w', done) := PushAll(f, w1, plans, i + 1);
        forall t | t in w.rows ensures PushedOnto(w, w', plans, i, done, t) {
          assert PushedOnto(w1, w', plans, i + 1, done, t);
          PushedStep(w, w1, w', plans, i, done, t);
        }
      }
    }
  }

  lemma PushedStep(w: World, w1: World, w': World, plans: seq<TablePlan>, i: nat, done: nat, t: string)
    requires i < done <= |plans| && t in w.rows && t in w1.rows && t in w'.rows
    requires w1.rows[t] == w.rows[t] + (if plans[i].name == t then plans[i].rows else [])
    requires PushedOnto(w1, w', plans, i + 1, done, t)
    ensures PushedOnto(w, w', plans, i, done, t)
  {
    var mine, rest := if plans[i].name == t then plans[i].rows else [], Gathered(plans, i + 1, done, t);
    assert w.rows[t] + mine + rest == w.rows[t] + (mine + rest);
  }

  /** First delivery under every fault schedule: complete, absent, or loudly partial. */
  lemma CreateGuarantee(f: Faults, calls: nat, plans: seq<TablePlan>)
    ensures var (model, o) := Create(f, calls, plans);
            && (model.None? <==> o.NotCreated? || o.RolledBack?)
            && (o.Complete? || o.CompleteButUnlisted? ==>
                  forall k :: 0 <= k < |plans| ==>
                    plans[k].name in model.value.rows &&
                    model.value.rows[plans[k].name] == Gathered(plans, 0, |plans|, plans[k].name))
            && (model.Some? ==> forall k :: 0 <= k < |plans| && OnlyOfName(plans, k) ==>
                  plans[k].name in model.value.columns && model.value.columns[plans[k].name] == plans[k].columns)
            && (o.PartialModelLeft? ==>
                  && o.at < |plans| && model.value.rows.Keys == (set t | t in NamesOf(plans))
                  && forall t :: t in model.value.rows ==> PartlyDelivered(model.value.rows[t], plans, o.at, t))
  {
    hide PushAll, PartlyDelivered, OnlyOfName;
    CompletePush(f, plans, calls + 1);
    NewColumns(f, plans, calls + 1);
  }

  /** What a table holds when table `at` failed: all that came before, and of that table a strict batch prefix. */
  ghost predicate PartlyDelivered(rows: seq<Row>, plans: seq<TablePlan>, at: nat, t: string)
    requires at < |plans|
  {
    if plans[at].name == t then
      exists part :: StrictBatchPrefix(part, plans[at]) && rows == Gathered(plans, 0, at, t) + part
    else
      rows == Gathered(plans, 0, at, t)
  }

  lemma EmptyModelKnows(plans: seq<TablePlan>, calls: nat)
    ensures AllKnown(EmptyModel(plans, calls), plans)
    ensures forall k :: 0 <= k < |plans| ==> plans[k].name in NamesOf(plans)
  {
    forall k | 0 <= k < |plans| ensures plans[k].name in NamesOf(plans) { assert NamesOf(plans)[k] == plans[k].name; }
  }

  lemma EmptyModelColumns(plans: seq<TablePlan>, calls: nat, k: nat)
    requires k < |plans| && OnlyOfName(plans, k)
    ensures var w := EmptyModel(plans, calls); plans[k].name in w.columns && w.columns[plans[k].name] == plans[k].columns
  {
    EmptyModelKnows(plans, calls);
    ColumnsForOnly(plans, |plans|, k);
    hide ColumnsFor;
    assert plans[..|plans|] == plans;
  }

  lemma NewColumns(f: Faults, plans: seq<TablePlan>, calls: nat)
    ensures var (w', done) := PushAll(f, EmptyModel(plans, calls), plans, 0);
            forall k :: 0 <= k < |plans| && OnlyOfName(plans, k) ==>
              plans[k].name in w'.columns && w'.columns[plans[k].name] == plans[k].columns
  {
    EmptyModelKnows(plans, calls);
    hide PushAll, PushedOnto, OnlyOfName, EmptyModel, NamesOf;
    PushAllOutcome(f, EmptyModel(plans, calls), plans, 0);
    forall k | 0 <= k < |plans| && OnlyOfName(plans, k)
      ensures var w := EmptyModel(plans, calls); plans[k].name in w.columns && w.columns[plans[k].name] == plans[k].columns
    {
      EmptyModelColumns(plans, calls, k);
    }
  }

  lemma CompletePush(f: Faults, plans: seq<TablePlan>, calls: nat)
    ensures var (w', done) := PushAll(f, EmptyModel(plans, calls), plans, 0);
            && done <= |plans|
            && (done == |plans| ==> forall k :: 0 <= k < |plans| ==>
                  plans[k].name in w'.rows && w'.rows[plans[k].name] == Gathered(plans, 0, |plans|, plans[k].name))
            && w'.rows.Keys == (set t | t in NamesOf(plans))
            && (done < |plans| ==> forall t :: t in w'.rows ==> PartlyDelivered(w'.rows[t], plans, done, t))
  {
    var w := EmptyModel(plans, calls);
    EmptyModelKnows(plans, calls);
    PushAllOutcome(f, w, plans, 0);
    var (w', done) := PushAll(f, w, plans, 0);
    hide PushAll, Gathered, StrictBatchPrefix;
    forall t | t in w'.rows && done < |plans| ensures PartlyDelivered(w'.rows[t], plans, done, t) {
      assert PushedOnto(w, w', plans, 0, done, t);
      assert w.rows[t] == [] && [] + Gathered(plans, 0, done, t) == Gathered(plans, 0, done, t);
    }
    forall k | 0 <= k < |plans| && done == |plans|
      ensures w'.rows[plans[k].name] == Gathered(plans, 0, |plans|, plans[k].name)
    {
      var t := plans[k].name;
      assert PushedOnto(w, w', plans, 0, done, t);
      assert w.rows[t] == [];
    }
  }

  // ---------------------------------------------------------------------------
  // Cleaning up after one fault

  /** A push that stops, stopped at the call it made last. */
  lemma {:induction false} PushStopsAtFault(f: Faults, w: World, plan: TablePlan, start: nat)
    ensures var (w', ok) := PushRows(f, w, plan, start); w.calls <= w'.calls && (!ok ==> w.calls < w'.calls && f(w'.calls - 1))
    decreases |plan.rows| - start
  {
    if start < |plan.rows| {
      var (w', ok) := PostRows(f, w, plan.name, plan.rows[start..BatchEnd(plan, start)]);
      if ok { PushStopsAtFault(f, w', plan, start + MAX_ROWS_PER_POST); }
    }
  }

  lemma {:induction false} PushAllStopsAtFault(f: Faults, w: World, plans: seq<TablePlan>, i: nat)
    requires i <= |plans|
    ensures var (w', done) := PushAll(f, w, plans, i);
            i <= done <= |plans| && w.calls <= w'.calls && (done < |plans| ==> w.calls < w'.calls && f(w'.calls - 1))
    decreases |plans| - i
  {
    hide PushRows;
    if i < |plans| {
      PushStopsAtFault(f, w, plans[i], 0);
      var (w', ok) := PushRows(f, w, plans[i], 0);
      if ok { PushAllStopsAtFault(f, w', plans, i + 1); }
    }
  }

  /** After one failing call a first delivery leaves no partial model, and without one it is complete. */
  lemma OneFaultCleansUp(c: nat, calls: nat, plans: seq<TablePlan>)
    ensures !Create(Only(c), calls, plans).1.PartialModelLeft?
    ensures Create(Never(), calls, plans).1 == Complete
  {
    hide PushAll;
    PushAllStopsAtFault(Only(c), EmptyModel(plans, calls + 1), plans, 0);
    PushAllStopsAtFault(Never(), EmptyModel(plans, calls + 1), plans, 0);
  }
}
