/** `core/src/freshness.ts`: freshness reports and their reconciliation with the warning table. */
module Freshness {
  import opened Basics
  import opened Ordering

  datatype Mode = Schedule | Webhook | Manual

  datatype SystemPolicy = SystemPolicy(scheduleIntervalS: Option<int>, webhook: bool, freshnessThresholdS: real)

  datatype Report = Report(system: string, ageS: Option<real>, thresholdS: real, warning: bool, mode: Mode)

  datatype Event = Warned(system: string) | Cleared(system: string)

  /** The `freshness_warnings` table (system to recorded report) and the health events so far. */
  datatype Monitor = Monitor(rows: map<string, Report>, events: seq<Event>)

  function ModeOf(p: SystemPolicy): Mode {
    if p.scheduleIntervalS.Some? then Schedule else if p.webhook then Webhook else Manual
  }

  function Age(captured: Option<real>, now: real): Option<real> {
    match captured
    case None => None
    case Some(c) => Some(if now - c > 0.0 then now - c else 0.0)
  }

  function ReportFor(system: string, p: SystemPolicy, captured: Option<real>, now: real): Report {
    var age := Age(captured, now);
    Report(system, age, p.freshnessThresholdS, age.None? || age.value > p.freshnessThresholdS, ModeOf(p))
  }

  ghost predicate DistinctSystems(reports: seq<Report>) {
    forall i, j :: 0 <= i < j < |reports| ==> reports[i].system != reports[j].system
  }

  /** The text by which JavaScript orders a policy's entries: name, comma, and the printed policy object. */
  function EntryText(system: string): string {
    system + ",[object Object]"
  }

  predicate EntryLe(a: string, b: string) {
    StrLe(EntryText(a), EntryText(b))
  }

  lemma EntryOrder()
    ensures TotalPreorder(EntryLe)
  {
    StrLeOrders();
    hide StrLe, EntryText;
    forall x, y ensures EntryLe(x, y) || EntryLe(y, x) {}
    forall x, y, z | EntryLe(x, y) && EntryLe(y, z) ensures EntryLe(x, z) {}
  }

  /** Entries are in the order of their names, unless one name starts with the other. */
  lemma EntryOrderOfNames(a: string, b: string, k: nat)
    requires k < |a| && k < |b| && a[..k] == b[..k] && a[k] != b[k]
    ensures EntryLe(a, b) <==> StrLe(a, b)
  {
    var x, y := EntryText(a), EntryText(b);
    assert x[..k] == a[..k] && y[..k] == b[..k] && x[k] == a[k] && y[k] == b[k];
    FirstDifference(a, b, k);
    FirstDifference(x, y, k);
  }

  lemma {:induction false} FirstDifference(a: string, b: string, k: nat)
    requires k < |a| && k < |b| && a[..k] == b[..k] && a[k] != b[k]
    ensures StrLe(a, b) <==> a[k] < b[k]
  {
    if k > 0 {
      assert a[0] == a[..k][0] == b[..k][0] == b[0];
      assert a[1..][..k - 1] == a[..k][1..] && b[1..][..k - 1] == b[..k][1..];
      FirstDifference(a[1..], b[1..], k - 1);
    }
  }

  /** A longer name comes first if it goes on with a character below the comma. */
  lemma LongerNameFirst(name: string, c: char, rest: string)
    requires c < ','
    ensures EntryLe(name + [c] + rest, name) && !EntryLe(name, name + [c] + rest)
  {
    var x, y := EntryText(name + [c] + rest), EntryText(name);
    assert x == name + ([c] + rest + ",[object Object]") && y == name + ",[object Object]";
    assert x[..|name|] == name == y[..|name|] && x[|name|] == c && y[|name|] == ',';
    FirstDifference(x, y, |name|);
    FirstDifference(y, x, |name|);
  }

  /** The age is never negative, and a system warns without a snapshot or beyond its threshold. */
  ghost predicate RightReport(r: Report, p: SystemPolicy, captured: map<string, real>, now: real) {
    && r.thresholdS == p.freshnessThresholdS
    && (r.mode == Schedule <==> p.scheduleIntervalS.Some?) && (r.mode == Webhook <==> p.scheduleIntervalS.None? && p.webhook)
    && (r.ageS.None? <==> r.system !in captured)
    && (r.system in captured ==>
          var since := now - captured[r.system];
          r.ageS.value >= 0.0 && r.ageS.value >= since && (r.ageS.value == 0.0 || r.ageS.value == since))
    && (r.warning <==> r.ageS.None? || r.ageS.value > p.freshnessThresholdS)
  }

  function Systems(reports: seq<Report>): seq<string> {
    seq(|reports|, i requires 0 <= i < |reports| => reports[i].system)
  }

  /** One report per policy entry, in entry order; `captured` holds the latest accepted snapshot's capture time. */
  method ComputeFreshness(policy: map<string, SystemPolicy>, captured: map<string, real>, now: real) returns (reports: seq<Report>)
    ensures Sorted(EntryLe, Systems(reports)) && DistinctSystems(reports)
    ensures forall s :: s in Systems(reports) <==> s in policy
    ensures forall r :: r in reports ==> r.system in policy && RightReport(r, policy[r.system], captured, now)
  {
    EntryOrder();
    hide EntryLe;
    var order := SortedSet(EntryLe, policy.Keys);
    reports := [];
    for i := 0 to |order|
      invariant Systems(reports) == order[..i]
      invariant forall r :: r in reports ==> r.system in policy && RightReport(r, policy[r.system], captured, now)
    {
      assert order[i] in order;
      var at := if order[i] in captured then Some(captured[order[i]]) else None;
      var r := ReportFor(order[i], policy[order[i]], at, now);
      assert Systems(reports + [r]) == Systems(reports) + [r.system];
      reports := reports + [r];
    }
    assert order[..|order|] == order;
    assert forall i :: 0 <= i < |reports| ==> reports[i].system == Systems(reports)[i];
  }

  /** One report against the systems that had a row when the tick began. */
  function Reconcile(m: Monitor, active: set<string>, r: Report): Monitor {
    if r.warning && r.system !in active then
      Monitor(m.rows[r.system := r], m.events + [Warned(r.system)])
    else if !r.warning && r.system in active then
      Monitor(m.rows - {r.system}, m.events + [Cleared(r.system)])
    else if r.warning then
      m.(rows := if r.system in m.rows then m.rows[r.system := r] else m.rows)
    else
      m
  }

  function ReconcileAll(m: Monitor, active: set<string>, reports: seq<Report>): Monitor {
    if reports == [] then m else Reconcile(ReconcileAll(m, active, reports[..|reports| - 1]), active, reports[|reports| - 1])
  }

  /** One tick: `active` is read once, before the loop. */
  function Tick(m: Monitor, reports: seq<Report>): Monitor {
    ReconcileAll(m, m.rows.Keys, reports)
  }

  /** The table as an object; the loop updates rows and emits events one report at a time. */
  class WarningTable {
    var monitor: Monitor

    constructor ()
      ensures monitor == Monitor(map[], [])
    {
      monitor := Monitor(map[], []);
    }

    method ApplyFreshness(reports: seq<Report>)
      modifies this
      ensures monitor == Tick(old(monitor), reports)
    {
      var active := monitor.rows.Keys;
      for i := 0 to |reports|
        invariant monitor == ReconcileAll(old(monitor), active, reports[..i])
      {
        var r := reports[i];
        if r.warning && r.system !in active {
          monitor := Monitor(monitor.rows[r.system := r], monitor.events + [Warned(r.system)]);
        } else if !r.warning && r.system in active {
          monitor := Monitor(monitor.rows - {r.system}, monitor.events + [Cleared(r.system)]);
        } else if r.warning && r.system in monitor.rows {
          monitor := monitor.(rows := monitor.rows[r.system := r]);
        }
        assert reports[..i + 1][..i] == reports[..i];
      }
      assert reports[..|reports|] == reports;
    }
  }

  /** The events of one system, in order. */
  function EventsOf(events: seq<Event>, system: string): seq<Event> {
    if events == [] then
      []
    else
      var rest, last := EventsOf(events[..|events| - 1], system), events[|events| - 1];
      if last.system == system then rest + [last] else rest
  }

  lemma EventsSnoc(events: seq<Event>, e: Event, system: string)
    ensures EventsOf(events + [e], system) == EventsOf(events, system) + (if e.system == system then [e] else [])
  {
    assert (events + [e])[..|events|] == events;
  }

  /** Warned and cleared strictly alternate, starting with a warning. */
  ghost predicate Alternates(events: seq<Event>, system: string)
  {
    forall i :: 0 <= i < |events| ==> events[i] == if i % 2 == 0 then Warned(system) else Cleared(system)
  }

  /** The history of every system agrees with the table: a row stands exactly after an odd number of events. */
  ghost predicate Consistent(m: Monitor)
  {
    forall s :: Alternates(EventsOf(m.events, s), s) && (s in m.rows <==> |EventsOf(m.events, s)| % 2 == 1)
  }

  /** Systems not yet reported in this tick still are as they were when it began. */
  ghost predicate Pending(m: Monitor, active: set<string>, reports: seq<Report>, i: nat)
  {
    forall k :: i <= k < |reports| ==> (reports[k].system in m.rows <==> reports[k].system in active)
  }

  lemma ReconcileKeeps(m: Monitor, active: set<string>, r: Report)
    requires Consistent(m) && (r.system in m.rows <==> r.system in active)
    ensures Consistent(Reconcile(m, active, r))
    ensures r.system in Reconcile(m, active, r).rows <==> r.warning
    ensures forall s :: s != r.system ==> (s in Reconcile(m, active, r).rows <==> s in m.rows)
  {
    var m' := Reconcile(m, active, r);
    forall s ensures Alternates(EventsOf(m'.events, s), s) && (s in m'.rows <==> |EventsOf(m'.events, s)| % 2 == 1) {
      assert Alternates(EventsOf(m.events, s), s) && (s in m.rows <==> |EventsOf(m.events, s)| % 2 == 1);
      if |m'.events| > |m.events| {
        EventsSnoc(m.events, m'.events[|m.events|], s);
      }
    }
  }

  lemma {:induction false} TickPrefix(m: Monitor, reports: seq<Report>, i: nat)
    requires Consistent(m) && DistinctSystems(reports) && i <= |reports|
    ensures var m' := ReconcileAll(m, m.rows.Keys, reports[..i]);
            && Consistent(m') && Pending(m', m.rows.Keys, reports, i)
            && (forall k :: 0 <= k < i ==> (reports[k].system in m'.rows <==> reports[k].warning))
            && (forall s :: (forall k :: 0 <= k < |reports| ==> reports[k].system != s) ==> (s in m'.rows <==> s in m.rows))
  {
    if i > 0 {
      TickPrefix(m, reports, i - 1);
      assert reports[..i][..i - 1] == reports[..i - 1];
      ReconcileKeeps(ReconcileAll(m, m.rows.Keys, reports[..i - 1]), m.rows.Keys, reports[i - 1]);
    }
  }

  /** After a tick every reported system has a row exactly when its report warns; the others are left alone. */
  lemma TickReconciles(m: Monitor, reports: seq<Report>)
    requires Consistent(m) && DistinctSystems(reports)
    ensures Consistent(Tick(m, reports))
    ensures forall k :: 0 <= k < |reports| ==> (reports[k].system in Tick(m, reports).rows <==> reports[k].warning)
    ensures forall s :: (forall k :: 0 <= k < |reports| ==> reports[k].system != s) ==> (s in Tick(m, reports).rows <==> s in m.rows)
  {
    TickPrefix(m, reports, |reports|);
    assert reports[..|reports|] == reports;
  }

  /** The monitor after a whole run of non-overlapping ticks from an empty table. */
  function Run(ticks: seq<seq<Report>>): Monitor {
    if ticks == [] then Monitor(map[], []) else Tick(Run(ticks[..|ticks| - 1]), ticks[|ticks| - 1])
  }

  /** Over any run of ticks, each system's events alternate and the table tells which one came last. */
  lemma {:induction false} RunAlternates(ticks: seq<seq<Report>>)
    requires forall i :: 0 <= i < |ticks| ==> DistinctSystems(ticks[i])
    ensures Consistent(Run(ticks))
  {
    if ticks != [] {
      RunAlternates(ticks[..|ticks| - 1]);
      TickReconciles(Run(ticks[..|ticks| - 1]), ticks[|ticks| - 1]);
    }
  }
}
