/**
 `connectors/sdk/service.py`: one claimed job, as interleaved steps of the main thread, the
 heartbeat thread and the worker.  Every action is one atomic step of one thread.
 */
module JobRunner {

  datatype Kind = Complete | Fail | Defer

  datatype Event =
    | Terminal(kind: Kind)       // a complete, fail or defer call is sent
    | Beat                       // a heartbeat is sent
    | LostSet                    // the heartbeat thread raises `lost`
    | CancelledSet               // the heartbeat thread raises `cancelled`
    | LostObserved               // the main thread reads `lost` as set
    | Abandoned                  // the start call failed
    | Escaped                    // an error left the job's own handler

  /** Where the main thread stands in `execute`. */
  datatype Main =
    | Deciding                           // before the job's try block
    | Resolving                          // resolving the credentials
    | StartingDoomed                     // start call after a credential failure
    | Starting
    | LoopTest | CheckLost | CheckCancelled
    | LeaveLoop | FinalLost | FinalCancelled
    | Sending(kind: Kind, guarded: bool) // about to send; guarded calls sit inside the job's try block
    | Handling                           // the catch-all handler
    | Finished

  datatype Heart = Off | Waiting | Due | InFlight | Losing | Cancelling | Stopped

  datatype State = State(
    main: Main, heart: Heart, working: bool, stop: bool, lost: bool, cancelled: bool, log: seq<Event>)

  const INITIAL := State(Deciding, Off, false, false, false, false, [])

  datatype Action =
    // main thread, before the work starts
    | Refuse | Accept | CredentialsFail | CredentialsResolve | DoomedStartFails | DoomedStarts | StartFails | StartsCancelled | Starts
    // main thread, around the work
    | SeeWorking | SeeDone | ReadLost | ReadCancelled | StopHeart | ReadFinalLost | ReadFinalCancelled(kind: Kind)
    // main thread, terminal calls and failures
    | Send | SendRaises | Bug
    // worker
    | WorkEnds
    // heartbeat thread
    | HeartWakes | HeartBeats | HeartStops | HeartErrs | HeartHears(cancel: bool) | HeartLoses | RaiseLost | RaiseCancelled | HeartDies

  /** `protocolOnly`: client calls raise nothing but protocol errors. */
  predicate Enabled(protocolOnly: bool, s: State, a: Action)
  {
    match a
    case Refuse => s.main.Deciding?
    case Accept => s.main.Deciding?
    case CredentialsFail => s.main.Resolving?
    case CredentialsResolve => s.main.Resolving?
    case DoomedStartFails => s.main.StartingDoomed?
    case DoomedStarts => s.main.StartingDoomed?
    case StartFails => s.main.Starting?
    case StartsCancelled => s.main.Starting?
    case Starts => s.main.Starting?
    case SeeWorking => s.main.LoopTest? && s.working
    case SeeDone => s.main.LoopTest? && !s.working
    case ReadLost => s.main.CheckLost?
    case ReadCancelled => s.main.CheckCancelled?
    case StopHeart => s.main.LeaveLoop?
    case ReadFinalLost => s.main.FinalLost?
    case ReadFinalCancelled(_) => s.main.FinalCancelled?
    case Send => s.main.Sending? || s.main.Handling?
    case SendRaises => !protocolOnly && (s.main.Sending? || s.main.Handling?)
    case Bug => !s.main.Finished?
    case WorkEnds => s.working
    case HeartWakes => s.heart.Waiting? && !s.stop
    case HeartBeats => s.heart.Due?
    case HeartStops => s.heart.Waiting? && s.stop
    case HeartErrs => s.heart.InFlight?
    case HeartHears(_) => s.heart.InFlight?
    case HeartLoses => s.heart.InFlight?
    case RaiseLost => s.heart.Losing?
    case RaiseCancelled => s.heart.Cancelling?
    case HeartDies => !protocolOnly && s.heart.InFlight?
  }

  function Logged(s: State, e: Event): State {
    s.(log := s.log + [e])
  }

  /** Outside the job's try block, or in its handler. */
  predicate Unguarded(s: State) {
    s.main.Deciding? || s.main.Handling? || (s.main.Sending? && !s.main.guarded)
  }

  /** A runner-side error: the catch-all handler takes it, unless it is outside the try block or in the handler. */
  function Raised(s: State): State {
    if Unguarded(s) then Logged(s, Escaped).(main := Finished)
    else s.(main := Handling, stop := true)
  }

  function TerminalKind(s: State): Kind {
    if s.main.Sending? then s.main.kind else Fail
  }

  function Do(protocolOnly: bool, s: State, a: Action): State
    requires Enabled(protocolOnly, s, a)
  {
    match a
    case Refuse => s.(main := Sending(Fail, false))
    case Accept => s.(main := Resolving)
    case CredentialsFail => s.(main := StartingDoomed)
    case CredentialsResolve => s.(main := Starting)
    case DoomedStartFails => Logged(s, Abandoned).(main := Finished)
    case DoomedStarts => s.(main := Sending(Fail, true))
    case StartFails => Logged(s, Abandoned).(main := Finished)
    case StartsCancelled => s.(main := Sending(Fail, true))
    case Starts => s.(main := LoopTest, heart := Waiting, working := true)
    case SeeWorking => s.(main := CheckLost)
    case SeeDone => s.(main := LeaveLoop)
    case ReadLost => if s.lost then Logged(s, LostObserved).(main := Finished, stop := true) else s.(main := CheckCancelled)
    case ReadCancelled => s.(main := if s.cancelled then Sending(Fail, true) else LoopTest)
    case StopHeart => s.(main := FinalLost, stop := true)
    case ReadFinalLost => if s.lost then Logged(s, LostObserved).(main := Finished) else s.(main := FinalCancelled)
    case ReadFinalCancelled(kind) => s.(main := Sending(if s.cancelled then Fail else kind, true))
    case Send => Logged(s, Terminal(TerminalKind(s))).(main := Finished, stop := true)
    case SendRaises => Raised(Logged(s, Terminal(TerminalKind(s))))
    case Bug => Raised(s)
    case WorkEnds => s.(working := false)
    case HeartWakes => s.(heart := Due)
    case HeartBeats => Logged(s, Beat).(heart := InFlight)
    case HeartStops => s.(heart := Stopped)
    case HeartErrs => s.(heart := Waiting)
    case HeartHears(cancel) => s.(heart := if cancel then Cancelling else Waiting)
    case HeartLoses => s.(heart := Losing)
    case RaiseLost => Logged(s, LostSet).(heart := Stopped, lost := true)
    case RaiseCancelled => Logged(s, CancelledSet).(heart := Stopped, cancelled := true)
    case HeartDies => s.(heart := Stopped)
  }

  /** `s` is the state after some run of enabled actions from the claim. */
  ghost predicate Reaches(protocolOnly: bool, run: seq<Action>, s: State)
  {
    if run == [] then
      s == INITIAL
    else
      var last := run[|run| - 1];
      exists before :: Reaches(protocolOnly, run[..|run| - 1], before) && Enabled(protocolOnly, before, last) && s == Do(protocolOnly, before, last)
  }

  // ---------------------------------------------------------------------------
  // What a log may look like

  ghost predicate OneTerminal(log: seq<Event>) {
    forall i, j :: 0 <= i < j < |log| ==> !(log[i].Terminal? && log[j].Terminal?)
  }

  /** Nothing terminal after the main thread has seen the lease lost. */
  ghost predicate SilentAfterLoss(log: seq<Event>) {
    forall i, j :: 0 <= i < j < |log| && log[i].LostObserved? ==> !log[j].Terminal?
  }

  /** No heartbeat after the heartbeat thread has raised one of its flags. */
  ghost predicate NoBeatAfterFlag(log: seq<Event>) {
    forall i, j :: 0 <= i < j < |log| && (log[i].LostSet? || log[i].CancelledSet?) ==> !log[j].Beat?
  }

  /** A finished job sent a terminal call, or its log says why it sent none. */
  ghost predicate Accounted(log: seq<Event>) {
    exists i :: 0 <= i < |log| && (log[i].Terminal? || log[i].Abandoned? || log[i].LostObserved? || log[i].Escaped?)
  }

  ghost predicate Has(log: seq<Event>, e: Event) {
    exists i :: 0 <= i < |log| && log[i] == e
  }

  ghost predicate HasTerminal(log: seq<Event>) {
    exists i :: 0 <= i < |log| && log[i].Terminal?
  }

  ghost predicate Invariant(protocolOnly: bool, s: State)
  {
    && SilentAfterLoss(s.log) && NoBeatAfterFlag(s.log)
    && (s.main.Deciding? || s.main.Resolving? || s.main.StartingDoomed? || s.main.Starting? ==> s.heart.Off?)
    && (Has(s.log, LostObserved) ==> s.main.Finished? && Has(s.log, LostSet))
    && (Has(s.log, LostSet) || Has(s.log, CancelledSet) ==> s.heart.Stopped?)
    && (s.lost <==> Has(s.log, LostSet)) && (s.cancelled <==> Has(s.log, CancelledSet))
    && (s.main.Finished? ==> Accounted(s.log))
    && (protocolOnly ==> OneTerminal(s.log) && (HasTerminal(s.log) ==> s.main.Finished?))
  }

  lemma HasMore(log: seq<Event>, e: Event)
    ensures forall f :: Has(log + [e], f) <==> Has(log, f) || f == e
    ensures HasTerminal(log + [e]) <==> HasTerminal(log) || e.Terminal?
    ensures Accounted(log) ==> Accounted(log + [e])
    ensures e.Terminal? || e.Abandoned? || e.LostObserved? || e.Escaped? ==> Accounted(log + [e])
  {
    var more := log + [e];
    assert more[|log|] == e && forall i :: 0 <= i < |log| ==> more[i] == log[i];
    forall f ensures Has(more, f) <==> Has(log, f) || f == e {
      if Has(log, f) { var i :| 0 <= i < |log| && log[i] == f; assert more[i] == f; }
    }
    if HasTerminal(log) { var i :| 0 <= i < |log| && log[i].Terminal?; assert more[i].Terminal?; }
    if Accounted(log) {
      var i :| 0 <= i < |log| && (log[i].Terminal? || log[i].Abandoned? || log[i].LostObserved? || log[i].Escaped?);
      assert more[i] == log[i];
    }
  }

  lemma LogMore(log: seq<Event>, e: Event)
    requires SilentAfterLoss(log) && NoBeatAfterFlag(log)
    requires e.Terminal? ==> !Has(log, LostObserved)
    requires e.Beat? ==> !Has(log, LostSet) && !Has(log, CancelledSet)
    ensures SilentAfterLoss(log + [e]) && NoBeatAfterFlag(log + [e])
    ensures OneTerminal(log) && (e.Terminal? ==> !HasTerminal(log)) ==> OneTerminal(log + [e])
  {
    var more := log + [e];
    assert forall i :: 0 <= i < |log| ==> more[i] == log[i];
  }

  /** The event an action logs, if any. */
  function EventOf(s: State, a: Action): seq<Event> {
    match a
    case DoomedStartFails => [Abandoned]
    case StartFails => [Abandoned]
    case ReadLost => if s.lost then [LostObserved] else []
    case ReadFinalLost => if s.lost then [LostObserved] else []
    case Send => [Terminal(TerminalKind(s))]
    case Bug => if Unguarded(s) then [Escaped] else []
    case HeartBeats => [Beat]
    case RaiseLost => [LostSet]
    case RaiseCancelled => [CancelledSet]
    case _ => []
  }

  lemma QuietStep(protocolOnly: bool, s: State, a: Action)
    requires Invariant(protocolOnly, s) && Enabled(protocolOnly, s, a) && !a.SendRaises? && EventOf(s, a) == []
    ensures Invariant(protocolOnly, Do(protocolOnly, s, a))
  {
    hide SilentAfterLoss, NoBeatAfterFlag, OneTerminal, Has, HasTerminal, Accounted;
    assert Do(protocolOnly, s, a).log == s.log;
  }

  lemma LoggedStep(protocolOnly: bool, s: State, a: Action)
    requires Invariant(protocolOnly, s) && Enabled(protocolOnly, s, a) && !a.SendRaises? && EventOf(s, a) != []
    ensures Invariant(protocolOnly, Do(protocolOnly, s, a))
  {
    hide SilentAfterLoss, NoBeatAfterFlag, OneTerminal, Has, HasTerminal, Accounted;
    var e := EventOf(s, a)[0];
    assert Do(protocolOnly, s, a).log == s.log + [e];
    HasMore(s.log, e);
    LogMore(s.log, e);
  }

  lemma RaisesStep(s: State)
    requires Invariant(false, s) && Enabled(false, s, SendRaises)
    ensures Invariant(false, Do(false, s, SendRaises))
  {
    hide SilentAfterLoss, NoBeatAfterFlag, OneTerminal, Has, HasTerminal, Accounted;
    var e := Terminal(TerminalKind(s));
    HasMore(s.log, e);
    LogMore(s.log, e);
    HasMore(s.log + [e], Escaped);
    LogMore(s.log + [e], Escaped);
  }

  /** A read of a flag that was raised decides: a lost lease ends the job, a cancellation fails it. */
  lemma ReadsDecide(protocolOnly: bool, s: State, a: Action)
    requires Invariant(protocolOnly, s) && Enabled(protocolOnly, s, a)
    ensures (a.ReadLost? || a.ReadFinalLost?) && LostSet in s.log ==> Do(protocolOnly, s, a).main == Finished
    ensures (a.ReadCancelled? || a.ReadFinalCancelled?) && CancelledSet in s.log ==> Do(protocolOnly, s, a).main == Sending(Fail, true)
  {
    hide SilentAfterLoss, NoBeatAfterFlag, OneTerminal, HasTerminal, Accounted;
  }

  /** Every step of every thread keeps the invariant, and no raised flag is overlooked. */
  lemma StepKeeps(protocolOnly: bool, s: State, a: Action)
    requires Invariant(protocolOnly, s) && Enabled(protocolOnly, s, a)
    ensures Invariant(protocolOnly, Do(protocolOnly, s, a))
    ensures (a.ReadLost? || a.ReadFinalLost?) && LostSet in s.log ==> Do(protocolOnly, s, a).main == Finished
    ensures (a.ReadCancelled? || a.ReadFinalCancelled?) && CancelledSet in s.log ==> Do(protocolOnly, s, a).main == Sending(Fail, true)
  {
    hide Invariant;
    ReadsDecide(protocolOnly, s, a);
    if a.SendRaises? {
      RaisesStep(s);
    } else if EventOf(s, a) == [] {
      QuietStep(protocolOnly, s, a);
    } else {
      LoggedStep(protocolOnly, s, a);
    }
  }

  lemma {:induction false} RunKeeps(protocolOnly: bool, run: seq<Action>, s: State)
    requires Reaches(protocolOnly, run, s)
    ensures Invariant(protocolOnly, s)
  {
    if run != [] {
      var last := run[|run| - 1];
      var before :| Reaches(protocolOnly, run[..|run| - 1], before) && Enabled(protocolOnly, before, last) && s == Do(protocolOnly, before, last);
      RunKeeps(protocolOnly, run[..|run| - 1], before);
      StepKeeps(protocolOnly, before, last);
    }
  }

  lemma ReachesMore(protocolOnly: bool, run: seq<Action>, s: State, a: Action)
    requires Reaches(protocolOnly, run, s) && Enabled(protocolOnly, s, a)
    ensures Reaches(protocolOnly, run + [a], Do(protocolOnly, s, a))
  {
    var more := run + [a];
    assert more[..|more| - 1] == run && more[|more| - 1] == a;
  }

  // ---------------------------------------------------------------------------
  // What a read of a raised flag decides

  /** A run has one final state, and one for each of its prefixes. */
  lemma {:induction false} OneState(protocolOnly: bool, run: seq<Action>, s: State, t: State)
    requires Reaches(protocolOnly, run, s) && Reaches(protocolOnly, run, t)
    ensures s == t
  {
    if run != [] {
      var front, last := run[..|run| - 1], run[|run| - 1];
      var x :| Reaches(protocolOnly, front, x) && Enabled(protocolOnly, x, last) && s == Do(protocolOnly, x, last);
      var y :| Reaches(protocolOnly, front, y) && Enabled(protocolOnly, y, last) && t == Do(protocolOnly, y, last);
      OneState(protocolOnly, front, x, y);
    }
  }

  lemma {:induction false} StepAt(protocolOnly: bool, run: seq<Action>, s: State, i: nat) returns (before: State)
    requires Reaches(protocolOnly, run, s) && i < |run|
    ensures Reaches(protocolOnly, run[..i], before) && Enabled(protocolOnly, before, run[i])
    ensures Reaches(protocolOnly, run[..i + 1], Do(protocolOnly, before, run[i]))
  {
    var n := |run| - 1;
    before :| Reaches(protocolOnly, run[..n], before) && Enabled(protocolOnly, before, run[n]) && s == Do(protocolOnly, before, run[n]);
    if i == n {
      assert run[..i + 1] == run;
    } else {
      before := StepAt(protocolOnly, run[..n], before, i);
      assert run[..n][..i] == run[..i] && run[..n][..i + 1] == run[..i + 1];
    }
  }

  /** Everything a step appends to the log. */
  function News(s: State, a: Action): seq<Event> {
    if a.SendRaises? then [Terminal(TerminalKind(s))] + (if Unguarded(s) then [Escaped] else []) else EventOf(s, a)
  }

  lemma StepLogs(protocolOnly: bool, s: State, a: Action)
    requires Enabled(protocolOnly, s, a)
    ensures Do(protocolOnly, s, a).log == s.log + News(s, a)
  {
    if a.SendRaises? {
      assert Unguarded(s) <==> Unguarded(Logged(s, Terminal(TerminalKind(s))));
    }
  }

  /** The main thread makes no call any more, or (when `mayFail`) at most `fail` calls. */
  predicate Closing(s: State, mayFail: bool) {
    s.main.Finished? || (mayFail && (s.main.Handling? || (s.main.Sending? && s.main.kind == Fail)))
  }

  predicate Sends(a: Action) {
    a.Send? || a.SendRaises?
  }

  predicate Looks(a: Action) {
    a.SeeWorking? || a.SeeDone? || a.ReadLost? || a.ReadCancelled? || a.ReadFinalLost? || a.ReadFinalCancelled?
  }

  /** From position `n` on the log holds no terminal call but, when `mayFail`, `fail` calls. */
  ghost predicate QuietFrom(log: seq<Event>, n: nat, mayFail: bool) {
    forall j :: n <= j < |log| && log[j].Terminal? ==> mayFail && log[j] == Terminal(Fail)
  }

  lemma ClosingStep(protocolOnly: bool, s: State, a: Action, mayFail: bool)
    requires Closing(s, mayFail) && Enabled(protocolOnly, s, a)
    ensures Closing(Do(protocolOnly, s, a), mayFail) && !Looks(a) && (Sends(a) ==> mayFail)
    ensures forall e :: e in News(s, a) && e.Terminal? ==> mayFail && e == Terminal(Fail)
  {
  }

  lemma QuietStepFrom(protocolOnly: bool, s: State, a: Action, mayFail: bool, n: nat)
    requires Closing(s, mayFail) && Enabled(protocolOnly, s, a) && n <= |s.log| && QuietFrom(s.log, n, mayFail)
    ensures Closing(Do(protocolOnly, s, a), mayFail) && s.log <= Do(protocolOnly, s, a).log && QuietFrom(Do(protocolOnly, s, a).log, n, mayFail)
    ensures !Looks(a) && (Sends(a) ==> mayFail)
  {
    ClosingStep(protocolOnly, s, a, mayFail);
    StepLogs(protocolOnly, s, a);
    hide Do, Enabled, Closing, News, Looks, Sends;
  }

  lemma LastStep(protocolOnly: bool, run: seq<Action>, s: State) returns (before: State)
    requires Reaches(protocolOnly, run, s) && run != []
    ensures var n := |run| - 1;
            Reaches(protocolOnly, run[..n], before) && Enabled(protocolOnly, before, run[n]) && s == Do(protocolOnly, before, run[n])
  {
    hide Enabled, Do;
    var n := |run| - 1;
    before :| Reaches(protocolOnly, run[..n], before) && Enabled(protocolOnly, before, run[n]) && s == Do(protocolOnly, before, run[n]);
  }

  lemma {:induction false} ClosingRun(protocolOnly: bool, run: seq<Action>, s: State, i: nat, mid: State, mayFail: bool)
    requires i <= |run| && Reaches(protocolOnly, run, s) && Reaches(protocolOnly, run[..i], mid) && Closing(mid, mayFail)
    ensures Closing(s, mayFail) && mid.log <= s.log && QuietFrom(s.log, |mid.log|, mayFail)
    ensures forall k :: i <= k < |run| ==> !Looks(run[k]) && (Sends(run[k]) ==> mayFail)
    decreases |run|
  {
    hide Closing, QuietFrom, Reaches, Do, Enabled, Looks, Sends;
    if i == |run| {
      assert run[..i] == run;
      OneState(protocolOnly, run, s, mid);
      assert QuietFrom(s.log, |mid.log|, mayFail) by { NothingLogged(s.log, mayFail); }
    } else {
      var n := |run| - 1;
      var before := LastStep(protocolOnly, run, s);
      assert run[..n][..i] == run[..i];
      ClosingRun(protocolOnly, run[..n], before, i, mid, mayFail);
      QuietStepFrom(protocolOnly, before, run[n], mayFail, |mid.log|);
      assert forall k :: i <= k < n ==> run[k] == run[..n][k];
    }
  }

  lemma NothingLogged(log: seq<Event>, mayFail: bool)
    ensures QuietFrom(log, |log|, mayFail)
  {
  }

  /**
   In every run, once the main thread reads `lost` while it is raised, nothing terminal is
   logged or sent any more.
   */
  lemma LossSilences(protocolOnly: bool, run: seq<Action>, s: State, i: nat, before: State)
    requires Reaches(protocolOnly, run, s) && i < |run| && (run[i].ReadLost? || run[i].ReadFinalLost?)
    requires Reaches(protocolOnly, run[..i], before) && LostSet in before.log
    ensures before.log <= s.log && forall j :: |before.log| <= j < |s.log| ==> !s.log[j].Terminal?
    ensures forall k :: i < k < |run| ==> !run[k].Send? && !run[k].SendRaises?
  {
    hide Reaches;
    var was := StepAt(protocolOnly, run, s, i);
    OneState(protocolOnly, run[..i], was, before);
    RunKeeps(protocolOnly, run[..i], before);
    var mid := Do(protocolOnly, before, run[i]);
    assert Has(before.log, LostSet);
    assert before.lost && mid.main.Finished? && mid.log == before.log + [LostObserved];
    hide Do, Enabled, Invariant, Has;
    ClosingRun(protocolOnly, run, s, i + 1, mid, false);
    assert s.log[|before.log|] == mid.log[|before.log|];
  }

  /**
   In every interleaving: no terminal call after a read of the raised `lost` flag, no heartbeat
   after a raised flag, a loss is observed only after it was raised, and no finished job ends
   unaccounted.
   */
  lemma Safety(protocolOnly: bool, run: seq<Action>, s: State)
    requires Reaches(protocolOnly, run, s)
    ensures SilentAfterLoss(s.log) && NoBeatAfterFlag(s.log)
    ensures Has(s.log, LostObserved) ==> Has(s.log, LostSet)
    ensures s.main.Finished? ==> Accounted(s.log)
    ensures protocolOnly ==> OneTerminal(s.log)
    ensures forall i, before :: 0 <= i < |run| && (run[i].ReadLost? || run[i].ReadFinalLost?) && Reaches(protocolOnly, run[..i], before) ==>
              LostSet in before.log ==> QuietFrom(s.log, |before.log|, false)
  {
    RunKeeps(protocolOnly, run, s);
    hide Reaches, SilentAfterLoss, NoBeatAfterFlag, OneTerminal, Has, Accounted;
    forall i, before | 0 <= i < |run| && (run[i].ReadLost? || run[i].ReadFinalLost?) && Reaches(protocolOnly, run[..i], before) && LostSet in before.log
      ensures QuietFrom(s.log, |before.log|, false)
    {
      LossSilences(protocolOnly, run, s, i, before);
    }
  }

  /**
   In every run, once the main thread reads `cancelled` while it is raised, it looks at nothing
   more and every terminal call from there on is `fail`.
   */
  lemma CancelFails(protocolOnly: bool, run: seq<Action>, s: State, i: nat, before: State)
    requires Reaches(protocolOnly, run, s) && i < |run| && (run[i].ReadCancelled? || run[i].ReadFinalCancelled?)
    requires Reaches(protocolOnly, run[..i], before) && CancelledSet in before.log
    ensures before.log <= s.log && forall j :: |before.log| <= j < |s.log| && s.log[j].Terminal? ==> s.log[j].kind == Fail
    ensures forall k :: i < k < |run| ==> !Looks(run[k])
  {
    hide Reaches;
    var was := StepAt(protocolOnly, run, s, i);
    OneState(protocolOnly, run[..i], was, before);
    RunKeeps(protocolOnly, run[..i], before);
    var mid := Do(protocolOnly, before, run[i]);
    assert Has(before.log, CancelledSet);
    assert before.cancelled && Closing(mid, true) && mid.log == before.log;
    hide Do, Enabled, Invariant, Has, Closing, Looks;
    ClosingRun(protocolOnly, run, s, i + 1, mid, true);
  }

  /** A heartbeat that fails is tried again, until the main thread stops the thread. */
  lemma BeatsOn(protocolOnly: bool, run: seq<Action>, s: State)
    requires Reaches(protocolOnly, run, s) && s.heart.InFlight?
    ensures exists t :: Reaches(protocolOnly, run + [HeartErrs], t) && (Enabled(protocolOnly, t, HeartWakes) <==> !s.stop)
    ensures exists t :: Reaches(protocolOnly, run + [HeartHears(false)], t) && (Enabled(protocolOnly, t, HeartWakes) <==> !s.stop)
  {
    BeatsAfter(protocolOnly, s, HeartErrs);
    BeatsAfter(protocolOnly, s, HeartHears(false));
    hide Reaches, Do, Enabled;
    ReachesMore(protocolOnly, run, s, HeartErrs);
    ReachesMore(protocolOnly, run, s, HeartHears(false));
  }

  lemma BeatsAfter(protocolOnly: bool, s: State, a: Action)
    requires s.heart.InFlight? && (a == HeartErrs || a == HeartHears(false))
    ensures Enabled(protocolOnly, s, a) && (Enabled(protocolOnly, Do(protocolOnly, s, a), HeartWakes) <==> !s.stop)
  {
  }

  /** The heartbeat thread was never started, or is told to stop, when the main thread is past its work. */
  predicate HeartBound(s: State) {
    && (s.main.Deciding? || s.main.Resolving? || s.main.StartingDoomed? || s.main.Starting? ==> s.heart.Off?)
    && (s.main.Sending? && !s.main.guarded ==> s.heart.Off?)
    && (s.main.FinalLost? || s.main.Handling? || s.main.Finished? ==> s.stop || s.heart.Off?)
  }

  lemma HeartBoundStep(protocolOnly: bool, s: State, a: Action)
    requires HeartBound(s) && Enabled(protocolOnly, s, a)
    ensures HeartBound(Do(protocolOnly, s, a))
  {
  }

  /** A heartbeat that is still to be sent. */
  function DueBeats(s: State): nat {
    if s.heart.Due? then 1 else 0
  }

  lemma FinishedStep(protocolOnly: bool, s: State, a: Action)
    requires HeartBound(s) && Enabled(protocolOnly, s, a) && s.main.Finished?
    ensures Do(protocolOnly, s, a).main.Finished?
    ensures DueBeats(Do(protocolOnly, s, a)) + (if a.HeartBeats? then 1 else 0) <= DueBeats(s)
  {
  }

  lemma {:induction false} RunHeartBound(protocolOnly: bool, run: seq<Action>, s: State)
    requires Reaches(protocolOnly, run, s)
    ensures HeartBound(s)
  {
    if run != [] {
      hide Reaches, Do, Enabled, HeartBound;
      var before := LastStep(protocolOnly, run, s);
      RunHeartBound(protocolOnly, run[..|run| - 1], before);
      HeartBoundStep(protocolOnly, before, run[|run| - 1]);
    }
  }

  /** In every run at most one heartbeat, the one that was due, is sent after the main thread has finished. */
  lemma {:induction false} LastBeat(protocolOnly: bool, run: seq<Action>, s: State, i: nat, mid: State)
    requires i <= |run| && Reaches(protocolOnly, run, s) && Reaches(protocolOnly, run[..i], mid) && mid.main.Finished?
    ensures s.main.Finished? && Beats(run) + DueBeats(s) <= Beats(run[..i]) + DueBeats(mid) <= Beats(run[..i]) + 1
    decreases |run|
  {
    hide Reaches, Do, Enabled, HeartBound;
    if i == |run| {
      assert run[..i] == run;
      OneState(protocolOnly, run, s, mid);
    } else {
      var n := |run| - 1;
      var before := LastStep(protocolOnly, run, s);
      assert run[..n][..i] == run[..i];
      LastBeat(protocolOnly, run[..n], before, i, mid);
      RunHeartBound(protocolOnly, run[..n], before);
      hide DueBeats;
      FinishedStep(protocolOnly, before, run[n]);
    }
  }

  // ---------------------------------------------------------------------------
  // Which results are sent, and what the log counts

  /** At position `i` of the run the outcome `k` was taken up: the work had ended, and no cancellation was raised. */
  ghost predicate Taken(protocolOnly: bool, run: seq<Action>, i: nat, k: Kind) {
    && i < |run| && run[i] == ReadFinalCancelled(k) && WorkEnds in run[..i]
    && exists before :: Reaches(protocolOnly, run[..i], before) && CancelledSet !in before.log
  }

  ghost predicate SomeTaken(protocolOnly: bool, run: seq<Action>, k: Kind) {
    exists i :: Taken(protocolOnly, run, i, k)
  }

  lemma TakenMore(protocolOnly: bool, run: seq<Action>, a: Action, k: Kind)
    requires SomeTaken(protocolOnly, run, k)
    ensures SomeTaken(protocolOnly, run + [a], k)
  {
    hide Reaches;
    var i: nat :| Taken(protocolOnly, run, i, k);
    TakenAt(protocolOnly, run, a, i, k);
  }

  lemma TakenAt(protocolOnly: bool, run: seq<Action>, a: Action, i: nat, k: Kind)
    requires Taken(protocolOnly, run, i, k)
    ensures Taken(protocolOnly, run + [a], i, k)
  {
    hide Reaches;
    var more := run + [a];
    assert more[..i] == run[..i] && more[i] == run[i];
  }

  /** Past the loop the work has ended; a result is sent only after it was taken up. */
  ghost predicate Progress(protocolOnly: bool, run: seq<Action>, s: State) {
    && (s.main.LoopTest? || s.main.CheckLost? || s.main.CheckCancelled? ==> s.working || WorkEnds in run)
    && (s.main.LeaveLoop? || s.main.FinalLost? || s.main.FinalCancelled? ==> WorkEnds in run)
    && (s.main.Sending? && s.main.kind != Fail ==> SomeTaken(protocolOnly, run, s.main.kind))
    && (forall k :: k != Fail && Terminal(k) in s.log ==> SomeTaken(protocolOnly, run, k))
  }

  lemma ProgressStep(protocolOnly: bool, run: seq<Action>, s: State, a: Action)
    requires Reaches(protocolOnly, run, s) && Invariant(protocolOnly, s) && Enabled(protocolOnly, s, a) && Progress(protocolOnly, run, s)
    ensures Progress(protocolOnly, run + [a], Do(protocolOnly, s, a))
  {
    hide Reaches, SomeTaken;
    var more, t := run + [a], Do(protocolOnly, s, a);
    forall k | SomeTaken(protocolOnly, run, k) ensures SomeTaken(protocolOnly, more, k) { TakenMore(protocolOnly, run, a, k); }
    if a.ReadFinalCancelled? && !s.cancelled { TakesUp(protocolOnly, run, s, a.kind); }
    hide Invariant;
    assert more[|run|] == a;
    ResultStep(protocolOnly, s, a);
    hide Do, Enabled;
  }

  lemma ResultStep(protocolOnly: bool, s: State, a: Action)
    requires Enabled(protocolOnly, s, a)
    ensures forall k :: k != Fail && Terminal(k) in Do(protocolOnly, s, a).log && Terminal(k) !in s.log ==> s.main == Sending(k, s.main.guarded)
  {
  }

  lemma TakesUp(protocolOnly: bool, run: seq<Action>, s: State, k: Kind)
    requires Reaches(protocolOnly, run, s) && Invariant(protocolOnly, s) && !s.cancelled && WorkEnds in run
    ensures SomeTaken(protocolOnly, run + [ReadFinalCancelled(k)], k)
  {
    hide Reaches;
    var more := run + [ReadFinalCancelled(k)];
    assert more[..|run|] == run;
    assert CancelledSet !in s.log by {
      assert !Has(s.log, CancelledSet);
    }
    assert Taken(protocolOnly, more, |run|, k);
  }

  lemma {:induction false} RunProgresses(protocolOnly: bool, run: seq<Action>, s: State)
    requires Reaches(protocolOnly, run, s)
    ensures Progress(protocolOnly, run, s)
  {
    if run != [] {
      var front, last := run[..|run| - 1], run[|run| - 1];
      var before :| Reaches(protocolOnly, front, before) && Enabled(protocolOnly, before, last) && s == Do(protocolOnly, before, last);
      RunKeeps(protocolOnly, front, before);
      RunProgresses(protocolOnly, front, before);
      ProgressStep(protocolOnly, front, before, last);
      assert front + [last] == run;
    }
  }

  /** A result or deferral is sent only if the work had ended and it was taken up while no cancellation was raised. */
  lemma ResultsAreTaken(protocolOnly: bool, run: seq<Action>, s: State, k: Kind)
    requires Reaches(protocolOnly, run, s) && k != Fail && Terminal(k) in s.log
    ensures exists i, before :: 0 <= i < |run| && run[i] == ReadFinalCancelled(k) && WorkEnds in run[..i]
                               && Reaches(protocolOnly, run[..i], before) && CancelledSet !in before.log
  {
    RunProgresses(protocolOnly, run, s);
    hide Reaches;
  }

  /** Calls in a run and in its log. */
  function Beats(run: seq<Action>): nat {
    if run == [] then 0 else Beats(run[..|run| - 1]) + (if run[|run| - 1].HeartBeats? then 1 else 0)
  }

  function Calls(run: seq<Action>): nat {
    if run == [] then 0 else Calls(run[..|run| - 1]) + (if Sends(run[|run| - 1]) then 1 else 0)
  }

  function LoggedBeats(log: seq<Event>): nat {
    if log == [] then 0 else LoggedBeats(log[..|log| - 1]) + (if log[|log| - 1].Beat? then 1 else 0)
  }

  function LoggedCalls(log: seq<Event>): nat {
    if log == [] then 0 else LoggedCalls(log[..|log| - 1]) + (if log[|log| - 1].Terminal? then 1 else 0)
  }

  lemma LogNext(log: seq<Event>, e: Event)
    ensures LoggedBeats(log + [e]) == LoggedBeats(log) + (if e.Beat? then 1 else 0)
    ensures LoggedCalls(log + [e]) == LoggedCalls(log) + (if e.Terminal? then 1 else 0)
  {
    assert (log + [e])[..|log|] == log;
  }

  /** The log misses no heartbeat and no terminal call. */
  lemma {:induction false} EveryCallLogged(protocolOnly: bool, run: seq<Action>, s: State)
    requires Reaches(protocolOnly, run, s)
    ensures LoggedBeats(s.log) == Beats(run) && LoggedCalls(s.log) == Calls(run)
    ensures LostSet in s.log <==> RaiseLost in run
    ensures CancelledSet in s.log <==> RaiseCancelled in run
  {
    if run != [] {
      hide Reaches, Do, Enabled, LoggedBeats, LoggedCalls, Sends;
      var before := LastStep(protocolOnly, run, s);
      var front, last := run[..|run| - 1], run[|run| - 1];
      EveryCallLogged(protocolOnly, front, before);
      CallStep(protocolOnly, before, last);
      assert run == front + [last];
    }
  }

  lemma CallStep(protocolOnly: bool, s: State, a: Action)
    requires Enabled(protocolOnly, s, a)
    ensures var t := Do(protocolOnly, s, a);
            && LoggedBeats(t.log) == LoggedBeats(s.log) + (if a.HeartBeats? then 1 else 0)
            && LoggedCalls(t.log) == LoggedCalls(s.log) + (if Sends(a) then 1 else 0)
            && (LostSet in t.log <==> LostSet in s.log || a.RaiseLost?)
            && (CancelledSet in t.log <==> CancelledSet in s.log || a.RaiseCancelled?)
  {
    hide LoggedBeats, LoggedCalls, Enabled;
    StepLogs(protocolOnly, s, a);
    hide Do;
    var more := News(s, a);
    if more == [] {
      assert s.log + more == s.log;
    } else if |more| == 1 {
      LogNext(s.log, more[0]);
      assert s.log + more == s.log + [more[0]];
    } else {
      LogNext(s.log, more[0]);
      LogNext(s.log + [more[0]], more[1]);
      assert s.log + more == s.log + [more[0]] + [more[1]];
    }
  }

  /** A cancelled start whose terminal call is about to be sent. */
  lemma CancelledStart(protocolOnly: bool) returns (run: seq<Action>, s: State)
    ensures Reaches(protocolOnly, run, s) && s == INITIAL.(main := Sending(Fail, true))
  {
    run, s := [], INITIAL;
    assert Reaches(protocolOnly, run, s);
    hide Reaches;
    ReachesMore(protocolOnly, run, s, Accept);
    run, s := run + [Accept], Do(protocolOnly, s, Accept);
    ReachesMore(protocolOnly, run, s, CredentialsResolve);
    run, s := run + [CredentialsResolve], Do(protocolOnly, s, CredentialsResolve);
    ReachesMore(protocolOnly, run, s, StartsCancelled);
    run, s := run + [StartsCancelled], Do(protocolOnly, s, StartsCancelled);
  }

  /** A terminal call that raises something else makes the catch-all handler send a second one. */
  lemma TwoTerminals(protocolOnly: bool) returns (run: seq<Action>, s: State)
    requires !protocolOnly
    ensures Reaches(protocolOnly, run, s) && !OneTerminal(s.log)
  {
    hide Reaches;
    run, s := CancelledStart(protocolOnly);
    ReachesMore(protocolOnly, run, s, SendRaises);
    run, s := run + [SendRaises], Do(protocolOnly, s, SendRaises);
    ReachesMore(protocolOnly, run, s, Send);
    run, s := run + [Send], Do(protocolOnly, s, Send);
    assert s.log == [Terminal(Fail), Terminal(Fail)];
    assert s.log[0].Terminal? && s.log[1].Terminal?;
  }

  /** At most one terminal call in every interleaving, exactly when client calls raise only protocol errors. */
  lemma OneTerminalIffProtocolOnly(protocolOnly: bool)
    ensures (forall run, s :: Reaches(protocolOnly, run, s) ==> OneTerminal(s.log)) <==> protocolOnly
  {
    if protocolOnly {
      forall run, s | Reaches(protocolOnly, run, s) ensures OneTerminal(s.log) { Safety(protocolOnly, run, s); }
    } else {
      var run, s := TwoTerminals(protocolOnly);
    }
  }
}
