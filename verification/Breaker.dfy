/** The blocking circuit breaker. */
module Breaker {
  import opened Common

  datatype Setup = Setup(concurrency: nat, maxRetries: Option<nat>)

  type Caller = nat

  type Answer = string

  /** How a send ends; the hook for transient failures may itself raise. */
  datatype Outcome = Success(answer: Answer) | Transient(hookRaises: bool) | Permanent

  datatype Reason = NotTransient | RetriesExhausted | HookRaised | Cancelled

  /** Where a call is suspended. */
  datatype Phase =
    | AtLoopStart
    | AwaitingLock
    | Sleeping
    | AwaitingProbe
    | Probing
    | AwaitingSend
    | Sending
    | Returned(answer: Answer)
    | Raised(reason: Reason)
  {
    predicate HasLock() { Sleeping? || AwaitingProbe? || Probing? }
    predicate InFlight() { Probing? || Sending? }
    predicate IsOver() { Returned? || Raised? }
  }

  datatype Event =
    | Slept(caller: Caller, retry: nat)
    | Started(caller: Caller, probing: bool)
    | Ended(caller: Caller, probing: bool, outcome: Outcome)

  /** The breaker and all calls of it; `log` is what has happened so far. */
  datatype State = State(
    failures: nat, lock: Option<Caller>, permits: nat, phases: map<Caller, Phase>, log: seq<Event>)
  {
    predicate Healthy() { failures == 0 }
  }

  /** A call begins, goes on behind an await, is answered by its send, or is cancelled. */
  datatype Action =
    | Begin(caller: Caller)
    | GoOn(caller: Caller)
    | Answered(caller: Caller, outcome: Outcome)
    | Cancel(caller: Caller)

  predicate IsExhausted(attempts: nat, maxRetries: Option<nat>) {
    maxRetries.Some? && attempts > maxRetries.value
  }

  function Initial(setup: Setup): State { State(0, None, setup.concurrency, map[], []) }

  predicate Enabled(state: State, action: Action) {
    var c := action.caller;
    if action.Begin? then c !in state.phases
    else
      && c in state.phases
      && match action
         case GoOn(_) =>
           match state.phases[c] {
             case AtLoopStart => true
             case AwaitingLock => state.lock.None?
             case Sleeping => true
             case AwaitingProbe => state.permits > 0
             case AwaitingSend => state.permits > 0
             case _ => false
           }
         case Answered(_, _) => state.phases[c].InFlight()
         case _ => !state.phases[c].IsOver()
  }

  function Move(state: State, c: Caller, phase: Phase): State {
    state.(phases := state.phases[c := phase])
  }

  /** What one call does between two awaits. */
  function Resume(state: State, c: Caller): State
    requires Enabled(state, GoOn(c))
  {
    match state.phases[c]
    case AtLoopStart => Move(state, c, if state.Healthy() then AwaitingSend else AwaitingLock)
    case AwaitingLock =>
      if state.Healthy() then Move(state, c, AwaitingSend)
      else Move(state.(lock := Some(c), log := state.log + [Slept(c, state.failures)]), c, Sleeping)
    case Sleeping => Move(state, c, AwaitingProbe)
    case AwaitingProbe =>
      Move(state.(permits := state.permits - 1, log := state.log + [Started(c, true)]), c, Probing)
    case AwaitingSend =>
      if !state.Healthy() then Move(state, c, AtLoopStart)
      else Move(state.(permits := state.permits - 1, log := state.log + [Started(c, false)]), c, Sending)
  }

  /** Leaves the blocks that a call is in. */
  function Release(state: State, c: Caller): State
    requires c in state.phases
  {
    var phase := state.phases[c];
    state.(lock := if phase.HasLock() then None else state.lock,
           permits := if phase.InFlight() then state.permits + 1 else state.permits)
  }

  function NewFailures(failures: nat, probing: bool, outcome: Outcome): nat {
    match outcome
    case Success(_) => 0
    case Transient(_) => if probing then failures + 1 else if failures > 1 then failures else 1
    case Permanent => failures
  }

  /** Where an answered send leaves its call, with the failure count that it leaves. */
  function Resolution(failures: nat, outcome: Outcome, maxRetries: Option<nat>): Phase {
    match outcome
    case Success(answer) => Returned(answer)
    case Permanent => Raised(NotTransient)
    case Transient(hookRaises) =>
      if hookRaises then Raised(HookRaised)
      else if IsExhausted(failures, maxRetries) then Raised(RetriesExhausted)
      else AtLoopStart
  }

  function Settle(state: State, c: Caller, outcome: Outcome, maxRetries: Option<nat>): State
    requires Enabled(state, Answered(c, outcome))
  {
    var probing := state.phases[c].Probing?;
    var failures := NewFailures(state.failures, probing, outcome);
    Move(Release(state, c).(failures := failures, log := state.log + [Ended(c, probing, outcome)]),
         c, Resolution(failures, outcome, maxRetries))
  }

  function Apply(state: State, action: Action, setup: Setup): State
    requires Enabled(state, action)
  {
    match action
    case Begin(c) => Move(state, c, AtLoopStart)
    case GoOn(c) => Resume(state, c)
    case Answered(c, outcome) => Settle(state, c, outcome, setup.maxRetries)
    case Cancel(c) => Move(Release(state, c), c, Raised(Cancelled))
  }

  /** The state behind any interleaving of actions that are possible when they happen. */
  function Run(actions: seq<Action>, setup: Setup): Option<State> {
    if actions == [] then Some(Initial(setup))
    else
      match Run(actions[..|actions| - 1], setup)
      case None => None
      case Some(state) =>
        var last := actions[|actions| - 1];
        if Enabled(state, last) then Some(Apply(state, last, setup)) else None
  }

  // -------------------------------------------------------------------- the lock

  function InFlight(state: State): set<Caller> {
    set c | c in state.phases && state.phases[c].InFlight()
  }

  /** Permits and sends in flight add up, and the probe lock is held by whom it says. */
  ghost predicate IsSafe(state: State, setup: Setup) {
    && state.permits + |InFlight(state)| == setup.concurrency
    && (forall c <- state.phases :: state.phases[c].HasLock() <==> state.lock == Some(c))
    && (state.lock.Some? ==> state.lock.value in state.phases)
  }

  lemma MoveInFlight(state: State, c: Caller, phase: Phase)
    requires c in state.phases || !phase.InFlight()
    ensures var was := c in state.phases && state.phases[c].InFlight();
            |InFlight(Move(state, c, phase))|
            == |InFlight(state)| + (if phase.InFlight() then 1 else 0) - (if was then 1 else 0)
  {
    var before, after := InFlight(state), InFlight(Move(state, c, phase));
    assert after == if phase.InFlight() then before + {c} else before - {c};
  }

  lemma StepIsSafe(state: State, action: Action, setup: Setup)
    requires Enabled(state, action) && IsSafe(state, setup)
    ensures IsSafe(Apply(state, action, setup), setup)
  {
    hide InFlight, NewFailures, Resolution;
    var c, next := action.caller, Apply(state, action, setup);
    var phase := next.phases[c];
    assert next.phases == state.phases[c := phase] && !(action.Begin? && phase.InFlight());
    SamePhases(Move(state, c, phase), next);
    MoveInFlight(state, c, phase);
    if action.Answered? {
      ResolutionIsNotInFlight(NewFailures(state.failures, state.phases[c].Probing?, action.outcome), action.outcome,
                              setup.maxRetries);
    }
  }

  lemma SamePhases(a: State, b: State)
    requires a.phases == b.phases
    ensures InFlight(a) == InFlight(b)
  {
  }

  lemma ResolutionIsNotInFlight(failures: nat, outcome: Outcome, maxRetries: Option<nat>)
    ensures var phase := Resolution(failures, outcome, maxRetries); !phase.InFlight() && !phase.HasLock()
  {
  }

  lemma {:induction false} RunsAreSafe(actions: seq<Action>, setup: Setup)
    requires Run(actions, setup).Some?
    ensures IsSafe(Run(actions, setup).value, setup)
  {
    if actions == [] {
      assert InFlight(Initial(setup)) == {};
    } else {
      var before := actions[..|actions| - 1];
      RunsAreSafe(before, setup);
      StepIsSafe(Run(before, setup).value, actions[|actions| - 1], setup);
    }
  }

  /**
   * In every interleaving at most `concurrency` sends are in flight, at most one of them is a
   * probe, and the one that probes holds the probe lock.
   */
  lemma {:induction false} SendsAreLimited(actions: seq<Action>, setup: Setup)
    requires Run(actions, setup).Some?
    ensures var state := Run(actions, setup).value;
            && |InFlight(state)| <= setup.concurrency
            && (forall c <- state.phases | state.phases[c].Probing? :: state.lock == Some(c))
            && forall c, d | c in state.phases && d in state.phases
                  && state.phases[c].Probing? && state.phases[d].Probing? :: c == d
  {
    hide Run;
    RunsAreSafe(actions, setup);
  }

  /** While a call is under way some call can go on or has its send to wait for: no deadlock. */
  lemma NeverStuck(actions: seq<Action>, setup: Setup, c: Caller)
    requires Run(actions, setup).Some? && setup.concurrency > 0
    requires var state := Run(actions, setup).value; c in state.phases && !state.phases[c].IsOver()
    ensures exists d :: Enabled(Run(actions, setup).value, GoOn(d))
                        || Enabled(Run(actions, setup).value, Answered(d, Permanent))
  {
    hide Run;
    var state := Run(actions, setup).value;
    RunsAreSafe(actions, setup);
    if InFlight(state) != {} {
      var d :| d in InFlight(state);
      assert Enabled(state, Answered(d, Permanent));
    } else if state.lock.Some? {
      assert |InFlight(state)| == 0 && state.lock.value !in InFlight(state);
      assert Enabled(state, GoOn(state.lock.value));
    } else {
      assert |InFlight(state)| == 0 && c !in InFlight(state);
      assert Enabled(state, GoOn(c));
    }
  }

  // ----------------------------------------------------------------- the counter

  predicate IsSuccess(event: Event) { event.Ended? && event.outcome.Success? }

  predicate IsFailure(event: Event) { event.Ended? && event.outcome.Transient? }

  predicate IsFailedProbe(event: Event) { IsFailure(event) && event.probing }

  /** What happened since the last success. */
  function SinceSuccess(log: seq<Event>): seq<Event> {
    if log == [] || IsSuccess(log[|log| - 1]) then []
    else SinceSuccess(log[..|log| - 1]) + [log[|log| - 1]]
  }

  function FailedProbes(log: seq<Event>): nat {
    if log == [] then 0
    else FailedProbes(log[..|log| - 1]) + if IsFailedProbe(log[|log| - 1]) then 1 else 0
  }

  /** Whether the first transient failure was not a probe. */
  predicate BeganWithoutProbe(log: seq<Event>) {
    log != [] && if IsFailure(log[0]) then !log[0].probing else BeganWithoutProbe(log[1..])
  }

  /** The failed probes since the last success, and one more if it was no probe that failed first. */
  function Count(log: seq<Event>): nat {
    FailedProbes(SinceSuccess(log)) + if BeganWithoutProbe(SinceSuccess(log)) then 1 else 0
  }

  predicate HasFailure(log: seq<Event>) {
    exists i :: 0 <= i < |log| && IsFailure(log[i])
  }

  lemma {:induction false} BeganWithoutProbeSnoc(log: seq<Event>, event: Event)
    ensures BeganWithoutProbe(log + [event])
         == if HasFailure(log) then BeganWithoutProbe(log) else IsFailure(event) && !event.probing
  {
    if log == [] {
      assert (log + [event])[1..] == [];
    } else {
      assert (log + [event])[1..] == log[1..] + [event];
      BeganWithoutProbeSnoc(log[1..], event);
      if HasFailure(log) && !IsFailure(log[0]) {
        var i :| 0 <= i < |log| && IsFailure(log[i]);
        assert IsFailure(log[1..][i - 1]);
      }
      if HasFailure(log[1..]) {
        var i :| 0 <= i < |log[1..]| && IsFailure(log[1..][i]);
        assert IsFailure(log[i + 1]);
      }
    }
  }

  /** The count is positive as soon as something has failed. */
  lemma {:induction false} FailuresCount(log: seq<Event>)
    ensures HasFailure(log) <==> FailedProbes(log) + (if BeganWithoutProbe(log) then 1 else 0) > 0
  {
    if log != [] {
      var n := |log| - 1;
      FailuresCount(log[..n]);
      BeganWithoutProbeSnoc(log[..n], log[n]);
      assert log[..n] + [log[n]] == log;
      assert forall i | 0 <= i < n :: log[..n][i] == log[i];
    }
  }

  /** How one more event changes the count. */
  lemma CountNext(log: seq<Event>, event: Event)
    ensures Count(log + [event])
         == if event.Ended? then NewFailures(Count(log), event.probing, event.outcome) else Count(log)
  {
    hide SinceSuccess, FailedProbes, BeganWithoutProbe, HasFailure;
    var since := SinceSuccess(log);
    SinceNext(log, event);
    FailedProbesNext(since, event);
    if !IsSuccess(event) {
      BeganWithoutProbeSnoc(since, event);
      FailuresCount(since);
    }
  }

  lemma SinceNext(log: seq<Event>, event: Event)
    ensures SinceSuccess(log + [event]) == if IsSuccess(event) then [] else SinceSuccess(log) + [event]
  {
    assert (log + [event])[..|log|] == log;
  }

  lemma FailedProbesNext(log: seq<Event>, event: Event)
    ensures FailedProbes(log + [event]) == FailedProbes(log) + if IsFailedProbe(event) then 1 else 0
    ensures FailedProbes([]) == 0 && !BeganWithoutProbe([])
  {
    assert (log + [event])[..|log|] == log;
  }

  /** The failure count is what the log says. */
  lemma {:induction false} FailuresAreCounted(actions: seq<Action>, setup: Setup)
    requires Run(actions, setup).Some?
    ensures Run(actions, setup).value.failures == Count(Run(actions, setup).value.log)
  {
    hide Count;
    if actions == [] {
      assert Count([]) == 0 by { NothingCounts(); }
    } else {
      var before, last := actions[..|actions| - 1], actions[|actions| - 1];
      FailuresAreCounted(before, setup);
      forall event { CountNext(Run(before, setup).value.log, event); }
    }
  }

  lemma NothingCounts()
    ensures Count([]) == 0
  {
  }

  // ------------------------------------------------------------- what calls end with

  /** Where the log says that the call behind an ended send is. */
  function ResolutionOf(log: seq<Event>, i: nat, setup: Setup): Phase
    requires i < |log| && log[i].Ended?
  {
    Resolution(Count(log[..i + 1]), log[i].outcome, setup.maxRetries)
  }

  predicate IsLastOf(log: seq<Event>, i: nat, c: Caller) {
    i < |log| && log[i].caller == c && forall j | i < j < |log| :: log[j].caller != c
  }

  /** Nothing but an ended send ends a call, and every ended send resolves its call at once. */
  ghost predicate IsResolved(state: State, setup: Setup) {
    && (forall i | 0 <= i < |state.log| :: state.log[i].caller in state.phases)
    && (forall i | 0 <= i < |state.log| && state.log[i].Ended? && ResolutionOf(state.log, i, setup).IsOver() ::
          state.phases[state.log[i].caller] == ResolutionOf(state.log, i, setup)
          && IsLastOf(state.log, i, state.log[i].caller))
    && forall c <- state.phases | state.phases[c].IsOver() && state.phases[c] != Raised(Cancelled) ::
         exists i :: 0 <= i < |state.log| && IsLastOf(state.log, i, c) && state.log[i].Ended?
                     && ResolutionOf(state.log, i, setup) == state.phases[c]
  }

  /** Every sleep lasts as its failure count says, every send that is no probe starts without failures. */
  ghost predicate IsTimely(log: seq<Event>) {
    && (forall i | 0 <= i < |log| && log[i].Slept? :: log[i].retry == Count(log[..i]) > 0)
    && forall i | 0 <= i < |log| && log[i].Started? && !log[i].probing :: Count(log[..i]) == 0
  }

  lemma {:induction false} RunsAreTimely(actions: seq<Action>, setup: Setup)
    requires Run(actions, setup).Some?
    ensures IsTimely(Run(actions, setup).value.log)
  {
    hide Count;
    if actions != [] {
      var before := actions[..|actions| - 1];
      RunsAreTimely(before, setup);
      FailuresAreCounted(before, setup);
      var log, now := Run(before, setup).value.log, Run(actions, setup).value.log;
      assert log[..|log|] == log && now[..|log|] == log;
      forall i | 0 <= i < |log| ensures now[..i] == log[..i] && now[i] == log[i] {
      }
    }
  }

  lemma SamePrefix(log: seq<Event>, more: seq<Event>, i: nat, setup: Setup)
    requires i < |log| && log <= more && log[i].Ended?
    ensures more[i] == log[i] && ResolutionOf(more, i, setup) == ResolutionOf(log, i, setup)
  {
    assert more[..i + 1] == log[..i + 1];
  }

  /** What a step adds to the log is at most one event, of the call that steps. */
  lemma StepLogs(state: State, action: Action, setup: Setup)
    requires Enabled(state, action)
    ensures var next := Apply(state, action, setup);
            && next.phases.Keys == state.phases.Keys + {action.caller}
            && (forall d <- state.phases | d != action.caller :: next.phases[d] == state.phases[d])
            && (next.log == state.log
                || exists event: Event :: event.caller == action.caller && next.log == state.log + [event])
            && (action.Answered? ==>
                && next.log
                   == state.log + [Ended(action.caller, state.phases[action.caller].Probing?, action.outcome)]
                && next.phases[action.caller] == Resolution(next.failures, action.outcome, setup.maxRetries))
            && (!action.Answered? ==>
                && (next.phases[action.caller].IsOver() ==> next.phases[action.caller] == Raised(Cancelled))
                && forall i | |state.log| <= i < |next.log| :: !next.log[i].Ended?)
            && (action.caller in state.phases ==> !state.phases[action.caller].IsOver())
  {
    hide Resolution, NewFailures;
    var c := action.caller;
    if action.GoOn? {
      var next := Resume(state, c);
      assert next.log == state.log || next.log == state.log + [Slept(c, state.failures)]
          || next.log == state.log + [Started(c, true)] || next.log == state.log + [Started(c, false)];
    } else if action.Answered? {
      var event := Ended(c, state.phases[c].Probing?, action.outcome);
      assert event.caller == c && Settle(state, c, action.outcome, setup.maxRetries).log == state.log + [event];
    }
  }

  lemma StepIsResolved(state: State, action: Action, setup: Setup)
    requires Enabled(state, action) && IsResolved(state, setup)
    requires Count(Apply(state, action, setup).log) == Apply(state, action, setup).failures
    ensures IsResolved(Apply(state, action, setup), setup)
  {
    hide Count, Apply, Resolution;
    var c, next := action.caller, Apply(state, action, setup);
    StepLogs(state, action, setup);
    var log, more := state.log, next.log;
    assert log <= more && more[..|more|] == more;
    forall i | 0 <= i < |more| && more[i].Ended? && ResolutionOf(more, i, setup).IsOver()
      ensures next.phases[more[i].caller] == ResolutionOf(more, i, setup) && IsLastOf(more, i, more[i].caller)
    {
      if i < |log| {
        SamePrefix(log, more, i, setup);
      } else {
        assert more[..i + 1] == more;
      }
    }
    forall d <- next.phases | next.phases[d].IsOver() && next.phases[d] != Raised(Cancelled)
      ensures exists i :: 0 <= i < |more| && IsLastOf(more, i, d) && more[i].Ended?
                          && ResolutionOf(more, i, setup) == next.phases[d]
    {
      if d == c {
        var i := |log|;
        assert more[..i + 1] == more && IsLastOf(more, i, c) && ResolutionOf(more, i, setup) == next.phases[c];
      } else {
        var i :| 0 <= i < |log| && IsLastOf(log, i, d) && log[i].Ended?
                 && ResolutionOf(log, i, setup) == state.phases[d];
        SamePrefix(log, more, i, setup);
        assert IsLastOf(more, i, d);
      }
    }
  }

  lemma {:induction false} RunsAreResolved(actions: seq<Action>, setup: Setup)
    requires Run(actions, setup).Some?
    ensures IsResolved(Run(actions, setup).value, setup)
  {
    hide IsResolved, Count, Apply;
    if actions == [] {
      NothingIsResolved(setup);
    } else {
      var before := actions[..|actions| - 1];
      RunsAreResolved(before, setup);
      FailuresAreCounted(actions, setup);
      StepIsResolved(Run(before, setup).value, actions[|actions| - 1], setup);
    }
  }

  lemma NothingIsResolved(setup: Setup)
    ensures IsResolved(Initial(setup), setup)
  {
  }

  /** A call returns the answer of its own last send, which succeeded. */
  lemma ReturnsOwnAnswer(actions: seq<Action>, setup: Setup, c: Caller)
    requires Run(actions, setup).Some?
    requires var state := Run(actions, setup).value; c in state.phases && state.phases[c].Returned?
    ensures var state := Run(actions, setup).value;
            exists i :: 0 <= i < |state.log| && IsLastOf(state.log, i, c) && state.log[i].Ended?
                        && state.log[i].outcome == Success(state.phases[c].answer)
  {
    hide Run, Count;
    RunsAreResolved(actions, setup);
    var state := Run(actions, setup).value;
    var i :| 0 <= i < |state.log| && IsLastOf(state.log, i, c) && state.log[i].Ended?
             && ResolutionOf(state.log, i, setup) == state.phases[c];
    assert state.log[i].outcome == Success(state.phases[c].answer);
  }

  /** A failed send after which the count is above the limit, with a hook that does not raise. */
  predicate Exhausts(log: seq<Event>, i: nat, setup: Setup) {
    && i < |log| && IsFailure(log[i]) && !log[i].outcome.hookRaises
    && setup.maxRetries.Some? && Count(log[..i + 1]) > setup.maxRetries.value
  }

  /**
   * A call ends with `RetriesExhaustedError` exactly when its last send, and no send before, failed
   * transiently and left the failure count above the limit.
   */
  lemma ExhaustedExactly(actions: seq<Action>, setup: Setup, c: Caller)
    requires Run(actions, setup).Some?
    ensures var state := Run(actions, setup).value;
            (c in state.phases && state.phases[c] == Raised(RetriesExhausted))
            <==> exists i: nat :: Exhausts(state.log, i, setup) && IsLastOf(state.log, i, c)
    ensures var log := Run(actions, setup).value.log;
            forall i: nat | Exhausts(log, i, setup) :: IsLastOf(log, i, log[i].caller)
  {
    hide Run, Count;
    RunsAreResolved(actions, setup);
    var state := Run(actions, setup).value;
    forall i: nat | Exhausts(state.log, i, setup) ensures IsLastOf(state.log, i, state.log[i].caller)
      ensures state.phases[state.log[i].caller] == Raised(RetriesExhausted)
    {
      assert ResolutionOf(state.log, i, setup) == Raised(RetriesExhausted);
    }
    if c in state.phases && state.phases[c] == Raised(RetriesExhausted) {
      var i :| 0 <= i < |state.log| && IsLastOf(state.log, i, c) && state.log[i].Ended?
               && ResolutionOf(state.log, i, setup) == state.phases[c];
      assert Exhausts(state.log, i, setup);
    }
  }

  /** More failures than are allowed, as counted behind an event. */
  predicate IsAboveLimit(log: seq<Event>, i: nat, setup: Setup)
    requires i < |log|
  {
    setup.maxRetries.Some? && Count(log[..i + 1]) > setup.maxRetries.value
  }

  /**
   * What the end of a send does to its call: an answer is returned, an error that is not transient and
   * one of the hook are raised, a transient one above the limit exhausts the retries; each of these is
   * the last that the call does. Any other transient error leaves the call in its loop.
   */
  lemma OutcomesDecide(actions: seq<Action>, setup: Setup, i: nat)
    requires Run(actions, setup).Some?
    requires i < |Run(actions, setup).value.log| && Run(actions, setup).value.log[i].Ended?
    ensures var state := Run(actions, setup).value;
            var c, outcome := state.log[i].caller, state.log[i].outcome;
            && c in state.phases
            && (outcome.Success? ==> IsLastOf(state.log, i, c) && state.phases[c] == Returned(outcome.answer))
            && (outcome.Permanent? ==> IsLastOf(state.log, i, c) && state.phases[c] == Raised(NotTransient))
            && (outcome == Transient(true) ==> IsLastOf(state.log, i, c) && state.phases[c] == Raised(HookRaised))
            && (outcome == Transient(false) && IsAboveLimit(state.log, i, setup) ==>
                  IsLastOf(state.log, i, c) && state.phases[c] == Raised(RetriesExhausted))
            && (outcome == Transient(false) && !IsAboveLimit(state.log, i, setup) && IsLastOf(state.log, i, c) ==>
                  !state.phases[c].IsOver() || state.phases[c] == Raised(Cancelled))
  {
    hide Run, Count;
    RunsAreResolved(actions, setup);
    var state := Run(actions, setup).value;
    var c := state.log[i].caller;
    if IsLastOf(state.log, i, c) && state.phases[c].IsOver() && state.phases[c] != Raised(Cancelled) {
      var j :| 0 <= j < |state.log| && IsLastOf(state.log, j, c) && state.log[j].Ended?
               && ResolutionOf(state.log, j, setup) == state.phases[c];
      assert i == j;
    }
  }

  /** A call that is over and was not cancelled ended as its last send says. */
  lemma EndingsAreOutcomes(actions: seq<Action>, setup: Setup, c: Caller)
    requires Run(actions, setup).Some?
    requires var state := Run(actions, setup).value;
             c in state.phases && state.phases[c].IsOver() && state.phases[c] != Raised(Cancelled)
    ensures var state := Run(actions, setup).value;
            exists i :: 0 <= i < |state.log| && IsLastOf(state.log, i, c) && state.log[i].Ended? &&
              match state.phases[c] {
                case Returned(answer) => state.log[i].outcome == Success(answer)
                case Raised(reason) =>
                  if reason.NotTransient? then state.log[i].outcome == Permanent
                  else if reason.HookRaised? then state.log[i].outcome == Transient(true)
                  else state.log[i].outcome == Transient(false) && IsAboveLimit(state.log, i, setup)
                case _ => false
              }
  {
    hide Run, Count;
    RunsAreResolved(actions, setup);
    var state := Run(actions, setup).value;
    var i :| 0 <= i < |state.log| && IsLastOf(state.log, i, c) && state.log[i].Ended?
             && ResolutionOf(state.log, i, setup) == state.phases[c];
  }

  // ------------------------------------------------------------ the order of events

  function LastOf(log: seq<Event>, c: Caller): Option<Event> {
    if log == [] then None
    else if log[|log| - 1].caller == c then Some(log[|log| - 1])
    else LastOf(log[..|log| - 1], c)
  }

  /** A call begins a sleep or a send that is no probe afresh; it probes after a sleep; it ends what it started. */
  predicate Follows(event: Event, before: Option<Event>) {
    match event
    case Slept(_, _) => before.None? || before.value.Ended?
    case Started(_, probing) =>
      if probing then before.Some? && before.value.Slept? else before.None? || before.value.Ended?
    case Ended(_, probing, _) => before.Some? && before.value.Started? && before.value.probing == probing
  }

  /** Where a call is, in terms of what it did last. */
  predicate IsAfter(phase: Phase, last: Option<Event>) {
    if phase == Raised(Cancelled) then true
    else if phase.Sleeping? || phase.AwaitingProbe? then last.Some? && last.value.Slept?
    else if phase.InFlight() then last.Some? && last.value.Started? && last.value.probing == phase.Probing?
    else last.None? || last.value.Ended?
  }

  ghost predicate IsOrderly(state: State) {
    && (forall i | 0 <= i < |state.log| :: Follows(state.log[i], LastOf(state.log[..i], state.log[i].caller)))
    && (forall c <- state.phases :: IsAfter(state.phases[c], LastOf(state.log, c)))
    && forall c | c !in state.phases :: LastOf(state.log, c) == None
  }

  lemma LastOfOneMore(log: seq<Event>, event: Event, c: Caller)
    ensures LastOf(log + [event], c) == if event.caller == c then Some(event) else LastOf(log, c)
  {
    assert (log + [event])[..|log|] == log;
  }

  /** A step adds at most one event, which follows what its call did before. */
  lemma StepFollows(state: State, action: Action, setup: Setup)
    requires Enabled(state, action) && IsOrderly(state)
    ensures var next, c := Apply(state, action, setup), action.caller;
            && next.phases == state.phases[c := next.phases[c]] && IsAfter(next.phases[c], LastOf(next.log, c))
            && (next.log == state.log
                || exists event: Event :: event.caller == c && next.log == state.log + [event]
                                          && Follows(event, LastOf(state.log, c)))
  {
    hide LastOf, NewFailures, Resolution;
    var c, next := action.caller, Apply(state, action, setup);
    forall event { LastOfOneMore(state.log, event, c); }
    if action.Answered? {
      var failures := NewFailures(state.failures, state.phases[c].Probing?, action.outcome);
      ResolutionIsNotInFlight(failures, action.outcome, setup.maxRetries);
      ResolutionWaitsForNothing(failures, action.outcome, setup.maxRetries);
    }
    if next.log != state.log {
      var event := next.log[|state.log|];
      assert event.caller == c && next.log == state.log + [event] && Follows(event, LastOf(state.log, c));
    }
  }

  lemma StepIsOrderly(state: State, action: Action, setup: Setup)
    requires Enabled(state, action) && IsOrderly(state)
    ensures IsOrderly(Apply(state, action, setup))
  {
    hide LastOf, Apply, Enabled, Follows, IsAfter;
    var c, next := action.caller, Apply(state, action, setup);
    StepFollows(state, action, setup);
    forall event, d { LastOfOneMore(state.log, event, d); }
    forall i | 0 <= i < |next.log| ensures Follows(next.log[i], LastOf(next.log[..i], next.log[i].caller)) {
      assert next.log[..i] == if i < |state.log| then state.log[..i] else state.log;
    }
  }

  lemma ResolutionWaitsForNothing(failures: nat, outcome: Outcome, maxRetries: Option<nat>)
    ensures var phase := Resolution(failures, outcome, maxRetries);
            !phase.Sleeping? && !phase.AwaitingProbe? && phase != Raised(Cancelled)
  {
  }

  /** In every run a call sleeps right before each of its probes, and every send ends before its next one. */
  lemma {:induction false} RunsAreOrderly(actions: seq<Action>, setup: Setup)
    requires Run(actions, setup).Some?
    ensures IsOrderly(Run(actions, setup).value)
  {
    hide Apply, IsOrderly;
    if actions == [] {
      assert IsOrderly(Initial(setup)) by { NothingIsOrderly(setup); }
    } else {
      var before := actions[..|actions| - 1];
      RunsAreOrderly(before, setup);
      StepIsOrderly(Run(before, setup).value, actions[|actions| - 1], setup);
    }
  }

  lemma NothingIsOrderly(setup: Setup)
    ensures IsOrderly(Initial(setup))
  {
  }

  /** `n` steps of one call, without waiting for anybody. */
  function Steps(state: State, c: Caller, n: nat): Option<State> {
    if n == 0 then Some(state)
    else
      var before := Steps(state, c, n - 1);
      if before.Some? && Enabled(before.value, GoOn(c)) then Some(Resume(before.value, c)) else None
  }

  /**
   * A call that nobody hinders sends at once while the breaker is healthy; otherwise it sleeps for the
   * failures there are and then probes, holding the lock.
   */
  lemma GoesStraight(state: State, c: Caller)
    requires c in state.phases && state.phases[c].AtLoopStart? && state.permits > 0
    ensures state.failures == 0 ==>
              Steps(state, c, 2) == Some(state.(permits := state.permits - 1, phases := state.phases[c := Sending],
                                                log := state.log + [Started(c, false)]))
    ensures state.failures > 0 && state.lock.None? ==>
              Steps(state, c, 4) == Some(state.(permits := state.permits - 1, phases := state.phases[c := Probing],
                                                lock := Some(c),
                                                log := state.log + [Slept(c, state.failures), Started(c, true)]))
  {
    assert Steps(state, c, 0) == Some(state);
    var waiting := Move(state, c, if state.Healthy() then AwaitingSend else AwaitingLock);
    assert Steps(state, c, 1) == Some(waiting);
    if state.Healthy() {
      assert Steps(state, c, 2) == Some(Resume(waiting, c));
      assert Resume(waiting, c).phases == state.phases[c := Sending];
    } else if state.lock.None? {
      var asleep := Resume(waiting, c);
      assert Steps(state, c, 2) == Some(asleep) && asleep.phases[c] == Sleeping;
      var awake := Resume(asleep, c);
      assert Steps(state, c, 3) == Some(awake) && awake.phases[c] == AwaitingProbe;
      var probing := Resume(awake, c);
      assert Steps(state, c, 4) == Some(probing);
      assert probing.phases == state.phases[c := Probing];
      assert probing.log == state.log + [Slept(c, state.failures), Started(c, true)];
    }
  }

  // ------------------------------------------------------------ the growing backoff

  /** No success between two events. */
  predicate NoSuccess(log: seq<Event>, i: nat, j: nat)
    requires i <= j <= |log|
  {
    forall k | i <= k < j :: !IsSuccess(log[k])
  }

  /** From a positive count on, and until a success, only failed probes count. */
  lemma {:induction false} OnlyProbesCount(log: seq<Event>, i: nat, j: nat)
    requires i <= j <= |log| && NoSuccess(log, i, j) && Count(log[..i]) > 0
    ensures Count(log[..j]) == Count(log[..i]) + FailedProbes(log[i..j])
    decreases j
  {
    hide Count;
    if i < j {
      OnlyProbesCount(log, i, j - 1);
      CountNext(log[..j - 1], log[j - 1]);
      assert log[..j] == log[..j - 1] + [log[j - 1]] && log[i..j][..j - 1 - i] == log[i..j - 1];
    } else {
      assert log[i..j] == [];
    }
  }

  /**
   * The backoff that all calls share grows: until something succeeds, each sleep is longer than an
   * earlier one by the number of probes that failed in between.
   */
  lemma {:induction false} SleepsGrow(actions: seq<Action>, setup: Setup, i: nat, j: nat)
    requires Run(actions, setup).Some?
    requires var log := Run(actions, setup).value.log;
             i < j < |log| && log[i].Slept? && log[j].Slept? && NoSuccess(log, i, j)
    ensures var log := Run(actions, setup).value.log;
            log[j].retry == log[i].retry + FailedProbes(log[i..j])
  {
    hide Run, Count;
    RunsAreTimely(actions, setup);
    OnlyProbesCount(Run(actions, setup).value.log, i, j);
  }

  // ------------------------------------------------------------- one call among others

  /** What happens at an await of a call: what the others do, and what the await comes to. */
  datatype Turn = Turn(others: seq<Action>, cancelled: bool, outcome: Outcome)

  /** The actions of other calls, as far as they are possible. */
  function Others(state: State, c: Caller, actions: seq<Action>, setup: Setup): State {
    if actions == [] then state
    else
      var n := |actions| - 1;
      var before := Others(state, c, actions[..n], setup);
      if actions[n].caller != c && Enabled(before, actions[n]) then Apply(before, actions[n], setup) else before
  }

  /** Whether the call can go on behind its await. */
  predicate IsReady(state: State, c: Caller) {
    c in state.phases && (state.phases[c].InFlight() || Enabled(state, GoOn(c)))
  }

  /** The step of the call itself, if it is possible. */
  function OwnStep(state: State, c: Caller, turn: Turn, setup: Setup): State
    requires c in state.phases && !state.phases[c].IsOver()
  {
    if turn.cancelled then Apply(state, Cancel(c), setup)
    else if state.phases[c].InFlight() then Apply(state, Answered(c, turn.outcome), setup)
    else if Enabled(state, GoOn(c)) then Apply(state, GoOn(c), setup)
    else state
  }

  /** A call among others, until it is over or nothing more happens; it is not suspended at its loop's start. */
  function Drive(state: State, c: Caller, turns: seq<Turn>, setup: Setup): State
    requires c in state.phases
    decreases |turns|, state.phases[c].AtLoopStart?
  {
    if state.phases[c].IsOver() then state
    else if state.phases[c].AtLoopStart? then Drive(Resume(state, c), c, turns, setup)
    else if turns == [] then state
    else
      OthersLeave(state, c, turns[0].others, setup);
      Drive(OwnStep(Others(state, c, turns[0].others, setup), c, turns[0], setup), c, turns[1..], setup)
  }

  lemma {:induction false} OthersLeave(state: State, c: Caller, actions: seq<Action>, setup: Setup)
    requires c in state.phases
    ensures var after := Others(state, c, actions, setup);
            c in after.phases && after.phases[c] == state.phases[c]
  {
    hide Apply, Enabled;
    if actions != [] {
      var n := |actions| - 1;
      OthersLeave(state, c, actions[..n], setup);
      var before := Others(state, c, actions[..n], setup);
      if actions[n].caller != c && Enabled(before, actions[n]) {
        StepLogs(before, actions[n], setup);
      }
    }
  }

  /** The others do what they do in turn, as far as it is possible; none of them acts for the call. */
  lemma OthersActInTurn(state: State, c: Caller, actions: seq<Action>, action: Action, setup: Setup)
    ensures Others(state, c, [], setup) == state
    ensures var before := Others(state, c, actions, setup);
            Others(state, c, actions + [action], setup)
            == if action.caller != c && Enabled(before, action) then Apply(before, action, setup) else before
  {
    hide Apply, Enabled;
    assert (actions + [action])[..|actions|] == actions;
  }

  /**
   * What becomes of a call in a turn: cancelled, it is over at once and leaves what it holds; otherwise its
   * send ends as the turn says, or it goes on, or it waits.
   */
  lemma TurnDecides(state: State, c: Caller, turn: Turn, setup: Setup)
    requires c in state.phases && !state.phases[c].IsOver()
    ensures var next, phase := OwnStep(state, c, turn, setup), state.phases[c];
            && c in next.phases
            && (turn.cancelled ==> next.phases[c] == Raised(Cancelled) && next.log == state.log)
            && (turn.cancelled && phase.HasLock() ==> next.lock == None)
            && (turn.cancelled && phase.InFlight() ==> next.permits == state.permits + 1)
            && (!turn.cancelled && phase.InFlight() ==>
                  next.log == state.log + [Ended(c, phase.Probing?, turn.outcome)])
            && (!turn.cancelled && !phase.InFlight() ==>
                  Steps(state, c, 1) == if next == state then None else Some(next))
  {
    hide NewFailures, Resolution;
    assert Steps(state, c, 0) == Some(state);
    if !turn.cancelled && !state.phases[c].InFlight() && Enabled(state, GoOn(c)) {
      assert Resume(state, c).phases[c] != state.phases[c];
    }
  }

  /** A call takes its turns one after the other until it is over. */
  lemma TurnsInTurn(state: State, c: Caller, turn: Turn, turns: seq<Turn>, setup: Setup)
    requires c in state.phases
    ensures state.phases[c].IsOver() ==> Drive(state, c, turns, setup) == state
    ensures state.phases[c].AtLoopStart? ==> Drive(state, c, turns, setup) == Drive(Resume(state, c), c, turns, setup)
    ensures !state.phases[c].IsOver() && !state.phases[c].AtLoopStart? ==>
              && Drive(state, c, [], setup) == state
              && var others := Others(state, c, turn.others, setup);
                 && c in others.phases && others.phases[c] == state.phases[c]
                 && c in OwnStep(others, c, turn, setup).phases
                 && Drive(state, c, [turn] + turns, setup) == Drive(OwnStep(others, c, turn, setup), c, turns, setup)
  {
    hide Others, OwnStep;
    OthersLeave(state, c, turn.others, setup);
    if !state.phases[c].IsOver() {
      OwnStepKeepsCall(Others(state, c, turn.others, setup), c, turn, setup);
    }
    assert ([turn] + turns)[1..] == turns;
  }

  lemma StartDrives(state: State, c: Caller, turns: seq<Turn>, setup: Setup)
    requires c in state.phases && state.phases[c].AtLoopStart?
    ensures Drive(state, c, turns, setup)
         == Drive(Move(state, c, if state.Healthy() then AwaitingSend else AwaitingLock), c, turns, setup)
  {
    hide Others, OwnStep;
  }

  /** What a call that is not waiting for its send does where it can go on. */
  lemma ReadyGoesOn(state: State, c: Caller, turn: Turn, setup: Setup)
    requires IsReady(state, c) && !state.phases[c].InFlight() && !state.phases[c].IsOver() && !turn.cancelled
    ensures OwnStep(state, c, turn, setup)
         == match state.phases[c]
            case AtLoopStart => Move(state, c, if state.Healthy() then AwaitingSend else AwaitingLock)
            case AwaitingLock =>
              if state.Healthy() then Move(state, c, AwaitingSend)
              else Move(state.(lock := Some(c), log := state.log + [Slept(c, state.failures)]), c, Sleeping)
            case Sleeping => Move(state, c, AwaitingProbe)
            case AwaitingProbe =>
              Move(state.(permits := state.permits - 1, log := state.log + [Started(c, true)]), c, Probing)
            case AwaitingSend =>
              if !state.Healthy() then Move(state, c, AtLoopStart)
              else Move(state.(permits := state.permits - 1, log := state.log + [Started(c, false)]), c, Sending)
  {
  }

  lemma {:induction false} OthersRun(actions: seq<Action>, c: Caller, others: seq<Action>, setup: Setup)
    requires Run(actions, setup).Some?
    ensures exists more :: Run(actions + more, setup) == Some(Others(Run(actions, setup).value, c, others, setup))
  {
    hide Apply, Enabled, Run;
    var start := Run(actions, setup).value;
    if others == [] {
      assert actions + [] == actions;
    } else {
      var n := |others| - 1;
      OthersRun(actions, c, others[..n], setup);
      var more :| Run(actions + more, setup) == Some(Others(start, c, others[..n], setup));
      if others[n].caller != c && Enabled(Run(actions + more, setup).value, others[n]) {
        RunOneMore(actions + more, others[n], setup);
        assert actions + more + [others[n]] == actions + (more + [others[n]]);
      }
    }
  }

  lemma RunOneMore(actions: seq<Action>, action: Action, setup: Setup)
    requires Run(actions, setup).Some? && Enabled(Run(actions, setup).value, action)
    ensures Run(actions + [action], setup) == Some(Apply(Run(actions, setup).value, action, setup))
  {
    hide Apply, Enabled;
    assert (actions + [action])[..|actions|] == actions;
  }

  /** A call among others is an interleaving: whatever holds of all runs holds of it. */
  lemma {:induction false} DrivenRuns(actions: seq<Action>, c: Caller, turns: seq<Turn>, setup: Setup)
    requires Run(actions, setup).Some? && c in Run(actions, setup).value.phases
    ensures exists more :: Run(actions + more, setup) == Some(Drive(Run(actions, setup).value, c, turns, setup))
    decreases |turns|, Run(actions, setup).value.phases[c].AtLoopStart?
  {
    hide Apply, Run, Others;
    var state := Run(actions, setup).value;
    if state.phases[c].IsOver() || (turns == [] && !state.phases[c].AtLoopStart?) {
      assert actions + [] == actions;
    } else if state.phases[c].AtLoopStart? {
      assert Apply(state, GoOn(c), setup) == Resume(state, c) by { ApplyGoOn(state, c, setup); }
      RunOneMore(actions, GoOn(c), setup);
      DrivenRuns(actions + [GoOn(c)], c, turns, setup);
      var more :| Run(actions + [GoOn(c)] + more, setup) == Some(Drive(state, c, turns, setup));
      assert actions + [GoOn(c)] + more == actions + ([GoOn(c)] + more);
    } else {
      OthersLeave(state, c, turns[0].others, setup);
      OthersRun(actions, c, turns[0].others, setup);
      var others :| Run(actions + others, setup) == Some(Others(state, c, turns[0].others, setup));
      OwnRuns(actions + others, c, turns[0], setup);
      var between := Run(actions + others, setup).value;
      var own :| Run(actions + others + own, setup) == Some(OwnStep(between, c, turns[0], setup));
      OwnStepKeepsCall(between, c, turns[0], setup);
      DrivenRuns(actions + others + own, c, turns[1..], setup);
      var more :| Run(actions + others + own + more, setup) == Some(Drive(state, c, turns, setup));
      assert actions + others + own + more == actions + (others + own + more);
    }
  }

  lemma SettledDrives(state: State, c: Caller, turns: seq<Turn>, next: nat, setup: Setup)
    requires 0 < next <= |turns| && c in state.phases && state.phases[c].InFlight() && !turns[next - 1].cancelled
    ensures var after := Settle(state, c, turns[next - 1].outcome, setup.maxRetries);
            && OwnStep(state, c, turns[next - 1], setup) == after && c in after.phases
            && (after.phases[c] != AtLoopStart ==> Drive(after, c, turns[next..], setup) == after)
  {
    hide Others, NewFailures;
  }

  lemma ApplyGoOn(state: State, c: Caller, setup: Setup)
    requires Enabled(state, GoOn(c))
    ensures Apply(state, GoOn(c), setup) == Resume(state, c)
  {
    hide Resume, Enabled;
  }

  lemma OwnStepKeepsCall(state: State, c: Caller, turn: Turn, setup: Setup)
    requires c in state.phases && !state.phases[c].IsOver()
    ensures c in OwnStep(state, c, turn, setup).phases
  {
    hide Resolution, NewFailures;
  }

  lemma OwnRuns(actions: seq<Action>, c: Caller, turn: Turn, setup: Setup)
    requires Run(actions, setup).Some?
    requires var state := Run(actions, setup).value; c in state.phases && !state.phases[c].IsOver()
    ensures exists more :: Run(actions + more, setup) == Some(OwnStep(Run(actions, setup).value, c, turn, setup))
  {
    hide Apply, Run;
    var state := Run(actions, setup).value;
    var action := if turn.cancelled then Cancel(c)
                  else if state.phases[c].InFlight() then Answered(c, turn.outcome) else GoOn(c);
    if Enabled(state, action) {
      RunOneMore(actions, action, setup);
    } else {
      assert actions + [] == actions;
    }
  }

  // -------------------------------------------------------------- the breaker itself

  class BlockingCircuitBreaker {
    const setup: Setup
    var failures: nat
    var lock: Option<Caller>
    var permits: nat
    var phases: map<Caller, Phase>
    var log: seq<Event>

    function Now(): State
      reads this
    {
      State(failures, lock, permits, phases, log)
    }

    constructor (setup: Setup)
      ensures this.setup == setup && Now() == Initial(setup)
    {
      this.setup := setup;
      failures, lock, permits := 0, None, setup.concurrency;
      phases, log := map[], [];
    }

    /** A call enters the loop. */
    method BeginCall(c: Caller)
      requires Enabled(Now(), Begin(c))
      modifies this`phases
      ensures Now() == Apply(old(Now()), Begin(c), setup)
    {
      phases := phases[c := AtLoopStart];
    }

    /** `call`, from the await at which it is suspended to the next one. */
    method ResumeCall(c: Caller)
      requires Enabled(Now(), GoOn(c))
      modifies this
      ensures Now() == Apply(old(Now()), GoOn(c), setup)
    {
      var healthy := failures == 0;
      match phases[c] {
        case AtLoopStart =>
          phases := phases[c := if healthy then AwaitingSend else AwaitingLock];
        case AwaitingLock =>
          if healthy {
            phases := phases[c := AwaitingSend];
          } else {
            lock := Some(c);
            log := log + [Slept(c, failures)];
            phases := phases[c := Sleeping];
          }
        case Sleeping =>
          phases := phases[c := AwaitingProbe];
        case AwaitingProbe =>
          permits := permits - 1;
          log := log + [Started(c, true)];
          phases := phases[c := Probing];
        case AwaitingSend =>
          if !healthy {
            phases := phases[c := AtLoopStart];
          } else {
            permits := permits - 1;
            log := log + [Started(c, false)];
            phases := phases[c := Sending];
          }
      }
    }

    /** The rest of `_attempt`, once its send has ended. */
    method RecordOutcome(c: Caller, probing: bool, outcome: Outcome) returns (phase: Phase)
      modifies this`failures, this`log
      ensures failures == NewFailures(old(failures), probing, outcome)
      ensures log == old(log) + [Ended(c, probing, outcome)]
      ensures phase == Resolution(failures, outcome, setup.maxRetries)
    {
      log := log + [Ended(c, probing, outcome)];
      match outcome {
        case Permanent => return Raised(NotTransient);
        case Success(answer) =>
          failures := 0;
          return Returned(answer);
        case Transient(hookRaises) =>
          failures := if probing then failures + 1 else if failures > 1 then failures else 1;
          if hookRaises {
            return Raised(HookRaised);
          }
          if IsExhausted(failures, setup.maxRetries) {
            return Raised(RetriesExhausted);
          }
          return AtLoopStart;
      }
    }

    /** Leaving the `async with` blocks. */
    method ReleaseBlocks(c: Caller)
      requires c in phases
      modifies this`permits, this`lock
      ensures Now() == Release(old(Now()), c)
    {
      if phases[c].InFlight() {
        permits := permits + 1;
      }
      if phases[c].HasLock() {
        lock := None;
      }
    }

    method AnswerCall(c: Caller, outcome: Outcome)
      requires Enabled(Now(), Answered(c, outcome))
      modifies this
      ensures Now() == Apply(old(Now()), Answered(c, outcome), setup)
    {
      var phase := RecordOutcome(c, phases[c].Probing?, outcome);
      ReleaseBlocks(c);
      phases := phases[c := phase];
    }

    method CancelCall(c: Caller)
      requires Enabled(Now(), Cancel(c))
      modifies this
      ensures Now() == Apply(old(Now()), Cancel(c), setup)
    {
      ReleaseBlocks(c);
      phases := phases[c := Raised(Cancelled)];
    }

    /** What other calls do in the meantime. */
    method RunOthers(c: Caller, actions: seq<Action>)
      modifies this
      ensures Now() == Others(old(Now()), c, actions, setup)
    {
      for i := 0 to |actions|
        invariant Now() == Others(old(Now()), c, actions[..i], setup)
      {
        hide Apply, Enabled;
        assert actions[..i + 1][..i] == actions[..i];
        var action := actions[i];
        if action.caller != c && Enabled(Now(), action) {
          match action {
            case Begin(d) => BeginCall(d);
            case GoOn(d) => ResumeCall(d);
            case Answered(d, outcome) => AnswerCall(d, outcome);
            case Cancel(d) => CancelCall(d);
          }
        }
      }
      assert actions[..|actions|] == actions;
    }

    /** An await: turns pass until the call can go on or is cancelled; `going` tells whether it goes on. */
    method Await(c: Caller, turns: seq<Turn>, i: nat) returns (next: nat, going: bool)
      requires i <= |turns| && c in phases && !phases[c].IsOver() && !phases[c].AtLoopStart?
      modifies this
      ensures i <= next <= |turns| && c in phases
      ensures going ==> i < next && !turns[next - 1].cancelled && phases[c] == old(phases[c]) && IsReady(Now(), c)
      ensures going ==> Drive(old(Now()), c, turns[i..], setup)
                        == Drive(OwnStep(Now(), c, turns[next - 1], setup), c, turns[next..], setup)
      ensures !going ==> Now() == Drive(old(Now()), c, turns[i..], setup)
    {
      next := i;
      while next < |turns|
        invariant i <= next <= |turns| && c in phases && phases[c] == old(phases[c])
        invariant Drive(old(Now()), c, turns[i..], setup) == Drive(Now(), c, turns[next..], setup)
      {
        hide Others, Apply, Resume;
        var turn := turns[next];
        assert turns[next..][0] == turn && turns[next..][1..] == turns[next + 1..];
        OthersLeave(Now(), c, turn.others, setup);
        RunOthers(c, turn.others);
        next := next + 1;
        if turn.cancelled {
          CancelCall(c);
          return next, false;
        }
        if phases[c].InFlight() || Enabled(Now(), GoOn(c)) {
          return next, true;
        }
      }
      return next, false;
    }

    /** `_attempt`, of a call whose send is in flight: what it comes to, unless it does not come to anything. */
    method Attempt(c: Caller, turns: seq<Turn>, i: nat) returns (next: nat, going: bool)
      requires i <= |turns| && c in phases && phases[c].InFlight()
      modifies this
      ensures i <= next <= |turns| && c in phases
      ensures going ==> i < next && phases[c] == AtLoopStart
                        && Drive(old(Now()), c, turns[i..], setup) == Drive(Now(), c, turns[next..], setup)
      ensures !going ==> Now() == Drive(old(Now()), c, turns[i..], setup)
    {
      hide Others, Resume, Drive, Settle;
      next, going := Await(c, turns, i);
      if going {
        SettledDrives(Now(), c, turns, next, setup);
        AnswerCall(c, turns[next - 1].outcome);
        going := phases[c] == AtLoopStart;
      }
    }

    /** The block of the probe lock, of a call that was put to sleep in it. */
    method Probe(c: Caller, turns: seq<Turn>, i: nat) returns (next: nat, going: bool)
      requires i <= |turns| && c in phases && phases[c].Sleeping?
      modifies this
      ensures i <= next <= |turns| && c in phases
      ensures going ==> i < next && phases[c] == AtLoopStart
                        && Drive(old(Now()), c, turns[i..], setup) == Drive(Now(), c, turns[next..], setup)
      ensures !going ==> Now() == Drive(old(Now()), c, turns[i..], setup)
    {
      hide Others, Drive, Resume, OwnStep, IsReady;
      next, going := Await(c, turns, i);
      if !going {
        return;
      }
      ReadyGoesOn(Now(), c, turns[next - 1], setup);
      phases := phases[c := AwaitingProbe];
      next, going := Await(c, turns, next);
      if !going {
        return;
      }
      ReadyGoesOn(Now(), c, turns[next - 1], setup);
      permits := permits - 1;
      log := log + [Started(c, true)];
      phases := phases[c := Probing];
      next, going := Attempt(c, turns, next);
    }

    /** The block of the semaphore, of a call that is no probe: it may have become unhealthy meanwhile. */
    method Send(c: Caller, turns: seq<Turn>, i: nat) returns (next: nat, going: bool)
      requires i <= |turns| && c in phases && phases[c].AwaitingSend?
      modifies this
      ensures i <= next <= |turns| && c in phases
      ensures going ==> i < next && phases[c] == AtLoopStart
                        && Drive(old(Now()), c, turns[i..], setup) == Drive(Now(), c, turns[next..], setup)
      ensures !going ==> Now() == Drive(old(Now()), c, turns[i..], setup)
    {
      hide Others, Drive, Resume, OwnStep, IsReady, Apply;
      next, going := Await(c, turns, i);
      if !going {
        return;
      }
      ReadyGoesOn(Now(), c, turns[next - 1], setup);
      if failures != 0 {
        phases := phases[c := AtLoopStart];
        return;
      }
      permits := permits - 1;
      log := log + [Started(c, false)];
      phases := phases[c := Sending];
      next, going := Attempt(c, turns, next);
    }

    /** `call`: the loop, and in it the blocks of the lock and of the semaphore. */
    method Call(c: Caller, turns: seq<Turn>) returns (result: Phase)
      requires c !in phases
      modifies this
      ensures Now() == Drive(Apply(old(Now()), Begin(c), setup), c, turns, setup)
      ensures c in phases && result == phases[c]
    {
      BeginCall(c);
      ghost var end := Drive(Now(), c, turns, setup);
      var i, going := 0, true;
      assert turns[0..] == turns;
      while true
        invariant i <= |turns| && c in phases && phases[c] == AtLoopStart
        invariant Drive(Now(), c, turns[i..], setup) == end
        decreases |turns| - i
      {
        hide Others, Drive, Resume, OwnStep, IsReady, Apply;
        StartDrives(Now(), c, turns[i..], setup);
        if failures != 0 {
          phases := phases[c := AwaitingLock];
          i, going := Await(c, turns, i);
          if !going {
            return phases[c];
          }
          ReadyGoesOn(Now(), c, turns[i - 1], setup);
          if failures != 0 {
            lock := Some(c);
            log := log + [Slept(c, failures)];
            phases := phases[c := Sleeping];
            assert Drive(Now(), c, turns[i..], setup) == end;
            i, going := Probe(c, turns, i);
            if !going {
              return phases[c];
            }
            continue;
          }
        }
        phases := phases[c := AwaitingSend];
        assert Drive(Now(), c, turns[i..], setup) == end;
        i, going := Send(c, turns, i);
        if !going {
          return phases[c];
        }
      }
    }
  }
}
