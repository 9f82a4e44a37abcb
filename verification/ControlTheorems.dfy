/** What the supervisory policy guarantees after every sequence of entry-point calls,
    whatever the output callbacks answer. */
module ControlTheorems {
  import opened Wrappers
  import opened Control

  // ---------------------------------------------------------------- runs

  datatype Event =
    | Configured(output: Option<nat>)
    | RunRequested(requested: bool)
    | InterlockSet(closed: bool)
    | HealthReported(health: Health, score: nat, anomaly: nat)
    | ActionRequested(action: Action)

  /** The controller after one call, and the call's result where it has one. */
  function Step(answers: Answers, c: Controller, e: Event): (Controller, Outcome) {
    match e
    case Configured(output) => ConfigureOutput(answers, c, output)
    case RunRequested(requested) => (SetLocalRunRequest(answers, c, requested), OK)
    case InterlockSet(closed) => (SetInterlock(answers, c, closed), OK)
    case HealthReported(health, score, anomaly) => (UpdateHealth(answers, c, health, score, anomaly), OK)
    case ActionRequested(action) => Act(answers, c, action)
  }

  function Run(answers: Answers, c: Controller, es: seq<Event>): Controller
    decreases |es|
  {
    if es == [] then c else Run(answers, Step(answers, c, es[0]).0, es[1..])
  }

  // ---------------------------------------------------------------- the invariant

  /** The last permit this adapter accepted, over all calls ever made to it. */
  function LastAccepted(trace: seq<Call>, adapter: nat): Option<bool> {
    if trace == [] then None
    else
      var last := trace[|trace| - 1];
      if last.adapter == adapter && last.accepted then Some(last.permit)
      else LastAccepted(trace[..|trace| - 1], adapter)
  }

  /** The published permit is what the installed adapter last accepted, unless an output
      failure is latched. */
  predicate OutputAgrees(c: Controller) {
    (c.adapter.Some? && !Has(c.s.latched, FAULT_OUTPUT_FAILURE)) ==>
      LastAccepted(c.trace, c.adapter.value) == Some(c.s.permit)
  }

  /** The installed adapter's last call is the last of all and asked for exactly the
      published permit, whatever it answered. */
  predicate LastCallAgrees(c: Controller) {
    c.adapter.Some? ==>
      && c.trace != []
      && c.trace[|c.trace| - 1].adapter == c.adapter.value
      && c.trace[|c.trace| - 1].permit == c.s.permit
  }

  /** What holds whatever the inputs are, also in the middle of an input update. */
  predicate Consistent(c: Controller) {
    && (c.s.state.FAULT_LATCHED? <==> c.s.latched != 0)
    && (c.s.supervised <==> c.s.state in {ARMED, ACTIVE, DEGRADED})
    && (c.s.outputAvailable <==> c.adapter.Some?)
    && (c.s.supervised ==> c.adapter.Some?)
    && (c.s.permit ==> c.s.state in {ACTIVE, DEGRADED})
    && OutputAgrees(c)
    && LastCallAgrees(c)
  }

  predicate Inv(c: Controller) {
    && Consistent(c)
    && c.s.active == ActiveFaults(c.s)
    && (c.s.supervised ==> c.s.interlock && c.s.health in {READY, WARNING})
    && (c.s.permit ==> c.s.localRequest)
  }

  /** Spelled out: what the invariant says about an asserted permit. */
  lemma PermitMeans(c: Controller)
    requires Inv(c) && c.s.permit
    ensures c.s.supervised && c.s.latched == 0 && c.s.interlock && c.s.localRequest
    ensures c.s.health in {READY, WARNING} && c.s.state in {ACTIVE, DEGRADED}
    ensures c.adapter.Some? && LastAccepted(c.trace, c.adapter.value) == Some(true)
    ensures c.s.active == 0
  {
    LatchBits(c.s.latched);
  }

  /** In every run, while any fault is latched, output failure included, the last thing
      asked of the installed adapter was 0. */
  lemma LatchedAsksZero(answers: Answers, es: seq<Event>)
    ensures var c := Run(answers, INITIAL, es);
      c.s.latched != 0 && c.adapter.Some? ==>
        c.trace != [] && c.trace[|c.trace| - 1].adapter == c.adapter.value && !c.trace[|c.trace| - 1].permit
  {
    hide Run, LastAccepted, ActiveFaults;
    ReachableInv(answers, es);
  }

  lemma LatchBits(b: bv16)
    ensures b == 0 ==> !Has(b, FAULT_OUTPUT_FAILURE)
    ensures Has(With(b, FAULT_OUTPUT_FAILURE), FAULT_OUTPUT_FAILURE)
    ensures With(b, FAULT_OUTPUT_FAILURE) != 0
  {
  }

  lemma WithIsNonZero(b: bv16, f: bv16)
    requires f != 0
    ensures With(b, f) != 0
  {
  }

  /** One accepted call is the last accepted one; a refused call changes nothing. */
  lemma LastAcceptedOfAsk(answers: Answers, c: Controller, permit: bool)
    requires c.adapter.Some?
    ensures var (asked, accepted) := Ask(answers, c, permit);
      LastAccepted(asked.trace, c.adapter.value)
        == if accepted then Some(permit) else LastAccepted(c.trace, c.adapter.value)
  {
    var (asked, _) := Ask(answers, c, permit);
    assert asked.trace[..|asked.trace| - 1] == c.trace;
  }

  /** Asking for 0 touches only the output-failure bit and the trace. */
  lemma SafeOffFields(answers: Answers, c: Controller)
    ensures var c' := SafeOff(answers, c);
      && c'.adapter == c.adapter
      && (c.adapter.None? ==> c' == c)
      && (c.adapter.Some? ==>
            && c'.trace == c.trace + [Call(c.adapter.value, false, answers(|c.trace|))]
            && c'.s
               == c.s.(latched := if answers(|c.trace|) then c.s.latched else With(c.s.latched, FAULT_OUTPUT_FAILURE)))
  {
    hide With;
  }

  /** What latching does to each field. */
  lemma LatchFaultFields(answers: Answers, c: Controller, faults: bv16, reason: nat)
    ensures var c' := LatchFault(answers, c, faults, reason);
      && c'.s.state == FAULT_LATCHED && !c'.s.supervised && !c'.s.permit
      && c'.adapter == c.adapter && c'.s.outputAvailable == c.s.outputAvailable
      && c'.s.localRequest == c.s.localRequest && c'.s.interlock == c.s.interlock && c'.s.health == c.s.health
      && c'.s.active == ActiveFaults(c'.s)
      && (c.adapter.None? ==> c'.trace == c.trace && c'.s.latched == With(c.s.latched, faults))
      && (c.adapter.Some? ==>
            && c'.trace == c.trace + [Call(c.adapter.value, false, answers(|c.trace|))]
            && c'.s.latched
               == if answers(|c.trace|) then With(c.s.latched, faults)
                  else With(With(c.s.latched, faults), FAULT_OUTPUT_FAILURE))
  {
    hide LiveFaults, Increment, CountLatch, With, SafeOff;
    SafeOffFields(answers, c.(s := MarkLatched(c.s, faults)));
  }

  /** Latching always ends safe, consistent and refreshed, and forgets no latched fault. */
  lemma LatchFaultEnds(answers: Answers, c: Controller, faults: bv16, reason: nat)
    requires faults != 0 && (c.s.outputAvailable <==> c.adapter.Some?)
    ensures Inv(LatchFault(answers, c, faults, reason))
    ensures LatchFault(answers, c, faults, reason).s.latched != 0
    ensures Has(c.s.latched, FAULT_OUTPUT_FAILURE) ==>
      Has(LatchFault(answers, c, faults, reason).s.latched, FAULT_OUTPUT_FAILURE)
    ensures LatchFault(answers, c, faults, reason).adapter == c.adapter
  {
    hide LatchFault, ActiveFaults, LastAccepted, With, Has;
    LatchFaultFields(answers, c, faults, reason);
    WithIsNonZero(c.s.latched, faults);
    LatchBits(With(c.s.latched, faults));
    LatchKeepsBit(c.s.latched, faults);
    if c.adapter.Some? {
      LastAcceptedOfAsk(answers, c, false);
    }
  }

  lemma ActiveBits(s: Status)
    ensures Has(ActiveFaults(s), FAULT_INTERLOCK_OPEN) <==> !s.interlock
    ensures Has(ActiveFaults(s), FAULT_HEALTH_NOT_READY) <==> s.health.UNTRAINED? || s.health.LEARNING?
    ensures Has(ActiveFaults(s), FAULT_HEALTH_ALARM) <==> s.health.ALARM?
  {
  }

  lemma EvaluateLatchedKeepsInv(answers: Answers, c: Controller)
    requires Consistent(c) && c.s.active == ActiveFaults(c.s) && c.s.latched != 0
    ensures Inv(EvaluateLatched(answers, c))
  {
    hide LatchFault, LiveFaults, With, Has, LastAccepted;
    if c.adapter.Some? {
      LastAcceptedOfAsk(answers, c, false);
      LatchFaultEnds(answers, Ask(answers, c, false).0, FAULT_OUTPUT_FAILURE, REASON_OUTPUT_FAILURE);
    }
  }

  lemma EvaluateDisabledKeepsInv(answers: Answers, c: Controller)
    requires Consistent(c) && c.s.active == ActiveFaults(c.s) && c.s.latched == 0 && !c.s.supervised
    ensures Inv(EvaluateDisabled(answers, c))
  {
    hide LatchFault, LiveFaults, With, Has, LastAccepted;
    if c.adapter.Some? {
      LastAcceptedOfAsk(answers, c, false);
      LatchFaultEnds(answers, Ask(answers, c, false).0, FAULT_OUTPUT_FAILURE, REASON_OUTPUT_FAILURE);
    }
  }

  lemma EvaluateSupervisedKeepsInv(answers: Answers, c: Controller)
    requires Consistent(c) && c.s.active == ActiveFaults(c.s) && c.s.latched == 0 && c.s.supervised
    ensures Inv(EvaluateSupervised(answers, c))
  {
    hide LatchFault, LiveFaults, With, Has, LastAccepted;
    ActiveBits(c.s);
    LatchFaultEnds(answers, c, FAULT_INTERLOCK_OPEN, REASON_INTERLOCK);
    LatchFaultEnds(answers, c, FAULT_HEALTH_NOT_READY, REASON_HEALTH_NOT_READY);
    LatchFaultEnds(answers, c, FAULT_HEALTH_ALARM, REASON_HEALTH_ALARM);
    LastAcceptedOfAsk(answers, c, c.s.localRequest);
    LatchFaultEnds(answers, Ask(answers, c, c.s.localRequest).0, FAULT_OUTPUT_FAILURE, REASON_OUTPUT_FAILURE);
  }

  /** Evaluation restores the whole invariant after any input change. */
  lemma EvaluateKeepsInv(answers: Answers, c: Controller)
    requires Consistent(c)
    ensures Inv(Evaluate(answers, c))
  {
    hide LiveFaults, Has, LastAccepted, EvaluateLatched, EvaluateDisabled, EvaluateSupervised, Inv;
    var c1 := Refresh(c);
    if c1.s.latched != 0 {
      EvaluateLatchedKeepsInv(answers, c1);
    } else if !c1.s.supervised {
      EvaluateDisabledKeepsInv(answers, c1);
    } else {
      EvaluateSupervisedKeepsInv(answers, c1);
    }
  }

  lemma ConfigureKeepsInv(answers: Answers, c: Controller, output: Option<nat>)
    requires Inv(c)
    ensures Inv(ConfigureOutput(answers, c, output).0)
  {
    hide LatchFault, LiveFaults, With, Has, LastAccepted;
    if output.Some? {
      var c1 := c.(adapter := output, s := c.s.(outputAvailable := true));
      LastAcceptedOfAsk(answers, c1, false);
      LatchFaultEnds(answers, Ask(answers, c1, false).0, FAULT_OUTPUT_FAILURE, REASON_OUTPUT_FAILURE);
    }
  }

  lemma ActKeepsInv(answers: Answers, c: Controller, action: Action)
    requires Inv(c)
    ensures Inv(Act(answers, c, action).0)
  {
    hide LatchFault, LiveFaults, With, Has, LastAccepted;
    LatchBits(c.s.latched);
    if c.adapter.Some? {
      LastAcceptedOfAsk(answers, c, false);
      var c1 := c.(s := c.s.(supervised := false));
      LatchFaultEnds(answers, Ask(answers, c, false).0, FAULT_OUTPUT_FAILURE, REASON_OUTPUT_FAILURE);
      LatchFaultEnds(answers, Ask(answers, c1, false).0, FAULT_OUTPUT_FAILURE, REASON_OUTPUT_FAILURE);
    }
  }

  lemma StepKeepsInv(answers: Answers, c: Controller, e: Event)
    requires Inv(c)
    ensures Inv(Step(answers, c, e).0)
  {
    hide Evaluate, ConfigureOutput, Act, LastAccepted, LiveFaults;
    match e
    case Configured(output) => ConfigureKeepsInv(answers, c, output);
    case RunRequested(requested) => EvaluateKeepsInv(answers, c.(s := c.s.(localRequest := requested)));
    case InterlockSet(closed) => EvaluateKeepsInv(answers, c.(s := c.s.(interlock := closed)));
    case HealthReported(health, score, anomaly) =>
      EvaluateKeepsInv(answers, c.(s := c.s.(health := health, healthScore := score, anomalyScore := anomaly)));
    case ActionRequested(action) => ActKeepsInv(answers, c, action);
  }

  lemma {:induction false} RunKeepsInv(answers: Answers, c: Controller, es: seq<Event>)
    requires Inv(c)
    ensures Inv(Run(answers, c, es))
    decreases |es|
  {
    if es != [] {
      hide Inv, Step;
      StepKeepsInv(answers, c, es[0]);
      RunKeepsInv(answers, Step(answers, c, es[0]).0, es[1..]);
    }
  }

  /** The invariant holds after every sequence of calls, whatever the callbacks answer. */
  lemma ReachableInv(answers: Answers, es: seq<Event>)
    ensures Inv(Run(answers, INITIAL, es))
  {
    RunKeepsInv(answers, INITIAL, es);
  }

  // ---------------------------------------------------------------- calls with permit 1

  predicate NoAssert(trace: seq<Call>, from: nat) {
    forall i :: from <= i < |trace| ==> !trace[i].permit
  }

  /** Latching asks for 0 only. */
  lemma LatchFaultAsksZero(answers: Answers, c: Controller, faults: bv16, reason: nat)
    ensures var c' := LatchFault(answers, c, faults, reason); c.trace <= c'.trace && NoAssert(c'.trace, |c.trace|)
  {
    hide LiveFaults, With, Has, Adds;
  }

  /** No host action and no adapter installation ever asks for 1. */
  lemma ActionsNeverAssert(answers: Answers, c: Controller, action: Action, output: Option<nat>)
    ensures var c' := Act(answers, c, action).0; c.trace <= c'.trace && NoAssert(c'.trace, |c.trace|)
    ensures var c' := ConfigureOutput(answers, c, output).0; c.trace <= c'.trace && NoAssert(c'.trace, |c.trace|)
  {
    hide LatchFault, LiveFaults, With, Has;
    if c.adapter.Some? {
      LatchFaultAsksZero(answers, Ask(answers, c, false).0, FAULT_OUTPUT_FAILURE, REASON_OUTPUT_FAILURE);
      var c1 := c.(s := c.s.(supervised := false));
      LatchFaultAsksZero(answers, Ask(answers, c1, false).0, FAULT_OUTPUT_FAILURE, REASON_OUTPUT_FAILURE);
    }
    if output.Some? {
      var c1 := c.(adapter := output, s := c.s.(outputAvailable := true));
      LatchFaultAsksZero(answers, Ask(answers, c1, false).0, FAULT_OUTPUT_FAILURE, REASON_OUTPUT_FAILURE);
    }
  }

  /** Evaluation asks for 1 only while supervised, unlatched and locally requested. */
  lemma EvaluateAssertsOnlyWhenSupervised(answers: Answers, c: Controller)
    ensures var c' := Evaluate(answers, c);
      && c.trace <= c'.trace
      && (!NoAssert(c'.trace, |c.trace|) ==> c.s.supervised && c.s.latched == 0 && c.s.localRequest)
  {
    hide LatchFault, LiveFaults, With, Has;
    var c1 := Refresh(c);
    LatchFaultAsksZero(answers, c1, FAULT_INTERLOCK_OPEN, REASON_INTERLOCK);
    LatchFaultAsksZero(answers, c1, FAULT_HEALTH_NOT_READY, REASON_HEALTH_NOT_READY);
    LatchFaultAsksZero(answers, c1, FAULT_HEALTH_ALARM, REASON_HEALTH_ALARM);
    if c.adapter.Some? {
      LatchFaultAsksZero(answers, Ask(answers, c1, false).0, FAULT_OUTPUT_FAILURE, REASON_OUTPUT_FAILURE);
      LatchFaultAsksZero(answers, Ask(answers, c1, c.s.localRequest).0, FAULT_OUTPUT_FAILURE, REASON_OUTPUT_FAILURE);
    }
  }

  /** The three phases of recovery, in the order they must be passed. */
  predicate MustClear(c: Controller) {
    c.s.latched != 0
  }

  predicate MustArm(c: Controller) {
    c.s.latched == 0 && !c.s.supervised
  }

  predicate MustRequest(c: Controller) {
    c.s.latched == 0 && c.s.supervised && !c.s.localRequest
  }

  predicate Asserts(answers: Answers, c: Controller, e: Event) {
    !NoAssert(Step(answers, c, e).0.trace, |c.trace|)
  }

  predicate IsRequest(e: Event) {
    e == RunRequested(true)
  }

  predicate Succeeds(answers: Answers, c: Controller, e: Event, action: Action) {
    e == ActionRequested(action) && Step(answers, c, e).1 == OK
  }

  /** How one step can leave each phase. */
  lemma PhaseStep(answers: Answers, c: Controller, e: Event)
    requires Inv(c)
    ensures var c' := Step(answers, c, e).0;
      && (MustClear(c) ==> !Asserts(answers, c, e))
      && (MustClear(c) ==> MustClear(c') || (Succeeds(answers, c, e, CLEAR_FAULT) && MustArm(c')))
      && (MustArm(c) ==> !Asserts(answers, c, e))
      && (MustArm(c) ==> MustClear(c') || MustArm(c') || (Succeeds(answers, c, e, ARM) && MustRequest(c')))
      && (MustRequest(c) && !IsRequest(e) ==> !Asserts(answers, c, e))
      && (MustRequest(c) && !IsRequest(e) ==> MustClear(c') || MustArm(c') || MustRequest(c'))
  {
    hide LatchFault, LiveFaults, With, Has, LastAccepted, ConfigureOutput, Act, Evaluate;
    match e
    case Configured(output) =>
      ActionsNeverAssert(answers, c, ARM, output);
      ConfigurePhase(answers, c, output);
    case ActionRequested(action) =>
      ActionsNeverAssert(answers, c, action, None);
      ActionPhase(answers, c, action);
    case RunRequested(requested) => EvaluatePhase(answers, c, c.(s := c.s.(localRequest := requested)));
    case InterlockSet(closed) => EvaluatePhase(answers, c, c.(s := c.s.(interlock := closed)));
    case HealthReported(health, score, anomaly) =>
      EvaluatePhase(answers, c, c.(s := c.s.(health := health, healthScore := score, anomalyScore := anomaly)));
  }

  lemma ConfigurePhase(answers: Answers, c: Controller, output: Option<nat>)
    requires Inv(c)
    ensures var c' := ConfigureOutput(answers, c, output).0;
      && (MustClear(c) ==> MustClear(c'))
      && (MustArm(c) ==> MustClear(c') || MustArm(c'))
      && (MustRequest(c) ==> MustClear(c') || MustRequest(c'))
  {
    hide LatchFault, LiveFaults, With, Has, LastAccepted;
    if output.Some? {
      var c1 := c.(adapter := output, s := c.s.(outputAvailable := true));
      LatchFaultEnds(answers, Ask(answers, c1, false).0, FAULT_OUTPUT_FAILURE, REASON_OUTPUT_FAILURE);
    }
  }

  lemma ActionPhase(answers: Answers, c: Controller, action: Action)
    requires Inv(c)
    ensures var (c', r) := Act(answers, c, action);
      && (MustClear(c) ==> MustClear(c') || (action == CLEAR_FAULT && r == OK && MustArm(c')))
      && (MustArm(c) ==> MustClear(c') || MustArm(c') || (action == ARM && r == OK && MustRequest(c')))
      && (MustRequest(c) ==> MustClear(c') || MustArm(c') || MustRequest(c'))
  {
    hide LatchFault, LiveFaults, With, Has, LastAccepted;
    if c.adapter.Some? {
      var c1 := c.(s := c.s.(supervised := false));
      LatchFaultEnds(answers, Ask(answers, c, false).0, FAULT_OUTPUT_FAILURE, REASON_OUTPUT_FAILURE);
      LatchFaultEnds(answers, Ask(answers, c1, false).0, FAULT_OUTPUT_FAILURE, REASON_OUTPUT_FAILURE);
    }
  }

  /** Evaluation never unlatches and never supervises. */
  lemma EvaluatePhase(answers: Answers, c: Controller, c1: Controller)
    requires Consistent(c1) && c1.s.latched == c.s.latched && c1.s.supervised == c.s.supervised && c1.trace == c.trace
    ensures var c' := Evaluate(answers, c1);
      && c.trace <= c'.trace
      && (MustClear(c) ==> MustClear(c') && NoAssert(c'.trace, |c.trace|))
      && (MustArm(c) ==> (MustClear(c') || MustArm(c')) && NoAssert(c'.trace, |c.trace|))
      && (MustRequest(c) && !c1.s.localRequest ==> (MustClear(c') || MustRequest(c')) && NoAssert(c'.trace, |c.trace|))
  {
    hide LatchFault, LiveFaults, With, Has, LastAccepted;
    EvaluateAssertsOnlyWhenSupervised(answers, c1);
    EvaluateKeepsInv(answers, c1);
    var c2 := Refresh(c1);
    LatchFaultEnds(answers, c2, FAULT_INTERLOCK_OPEN, REASON_INTERLOCK);
    LatchFaultEnds(answers, c2, FAULT_HEALTH_NOT_READY, REASON_HEALTH_NOT_READY);
    LatchFaultEnds(answers, c2, FAULT_HEALTH_ALARM, REASON_HEALTH_ALARM);
    if c1.adapter.Some? {
      LatchFaultEnds(answers, Ask(answers, c2, false).0, FAULT_OUTPUT_FAILURE, REASON_OUTPUT_FAILURE);
      LatchFaultEnds(answers, Ask(answers, c2, c1.s.localRequest).0, FAULT_OUTPUT_FAILURE, REASON_OUTPUT_FAILURE);
    }
  }

  /** The controller before the i-th event. */
  function Before(answers: Answers, c: Controller, es: seq<Event>, i: nat): Controller
    requires i <= |es|
  {
    Run(answers, c, es[..i])
  }

  lemma {:induction false} BeforeStep(answers: Answers, c: Controller, es: seq<Event>, i: nat)
    requires i < |es|
    ensures Before(answers, c, es, i + 1) == Step(answers, Before(answers, c, es, i), es[i]).0
    decreases |es|
  {
    hide Step;
    if i == 0 {
      assert es[..1][1..] == [] && es[..0] == [] && es[..1][0] == es[0];
      RunUnfolds(answers, c, es[..1]);
    } else {
      assert es[..i][1..] == es[1..][..i - 1] && es[..i + 1][1..] == es[1..][..i];
      BeforeStep(answers, Step(answers, c, es[0]).0, es[1..], i - 1);
    }
  }

  ghost predicate SuccessAt(answers: Answers, c: Controller, es: seq<Event>, i: int, action: Action) {
    0 <= i < |es| && Succeeds(answers, Before(answers, c, es, i), es[i], action)
  }

  ghost predicate AssertsAt(answers: Answers, c: Controller, es: seq<Event>, i: int) {
    0 <= i < |es| && Asserts(answers, Before(answers, c, es, i), es[i])
  }

  datatype Phase = NeedsClear | NeedsArm | NeedsRequest | Free

  ghost function PhaseAt(answers: Answers, c: Controller, es: seq<Event>, i: nat): Phase
    requires i <= |es|
  {
    var here := Before(answers, c, es, i);
    if MustClear(here) then NeedsClear else if MustArm(here) then NeedsArm
    else if MustRequest(here) then NeedsRequest else Free
  }

  ghost predicate InvAt(answers: Answers, c: Controller, es: seq<Event>, i: nat)
    requires i <= |es|
  {
    Inv(Before(answers, c, es, i))
  }

  lemma PhaseStepAt(answers: Answers, c: Controller, es: seq<Event>, i: nat)
    requires i < |es| && InvAt(answers, c, es, i)
    ensures InvAt(answers, c, es, i + 1)
    ensures PhaseAt(answers, c, es, i) in {NeedsClear, NeedsArm} ==> !AssertsAt(answers, c, es, i)
    ensures PhaseAt(answers, c, es, i) == NeedsClear ==>
      || PhaseAt(answers, c, es, i + 1) == NeedsClear
      || (SuccessAt(answers, c, es, i, CLEAR_FAULT) && PhaseAt(answers, c, es, i + 1) == NeedsArm)
    ensures PhaseAt(answers, c, es, i) == NeedsArm ==>
      || PhaseAt(answers, c, es, i + 1) in {NeedsClear, NeedsArm}
      || (SuccessAt(answers, c, es, i, ARM) && PhaseAt(answers, c, es, i + 1) == NeedsRequest)
    ensures PhaseAt(answers, c, es, i) == NeedsRequest && !IsRequest(es[i]) ==>
      !AssertsAt(answers, c, es, i) && PhaseAt(answers, c, es, i + 1) != Free
  {
    hide Inv, Step, Before, Asserts;
    var here := Before(answers, c, es, i);
    BeforeStep(answers, c, es, i);
    StepKeepsInv(answers, here, es[i]);
    PhaseStep(answers, here, es[i]);
  }

  /** Without a successful CLEAR_FAULT, a latched controller stays latched. */
  lemma {:induction false} StaysLatched(answers: Answers, c: Controller, es: seq<Event>, first: nat, last: nat)
    requires first <= last <= |es| && InvAt(answers, c, es, first) && PhaseAt(answers, c, es, first) == NeedsClear
    requires forall k :: first <= k < last ==> !SuccessAt(answers, c, es, k, CLEAR_FAULT)
    ensures InvAt(answers, c, es, last) && PhaseAt(answers, c, es, last) == NeedsClear
    decreases last
  {
    hide PhaseAt, SuccessAt, InvAt, AssertsAt;
    if first < last {
      StaysLatched(answers, c, es, first, last - 1);
      PhaseStepAt(answers, c, es, last - 1);
    }
  }

  /** Without a successful ARM, a controller that must be armed stays unarmed. */
  lemma {:induction false} StaysUnarmed(answers: Answers, c: Controller, es: seq<Event>, first: nat, last: nat)
    requires
      && first <= last <= |es|
      && InvAt(answers, c, es, first)
      && PhaseAt(answers, c, es, first) in {NeedsClear, NeedsArm}
    requires forall k :: first <= k < last ==> !SuccessAt(answers, c, es, k, ARM)
    ensures InvAt(answers, c, es, last) && PhaseAt(answers, c, es, last) in {NeedsClear, NeedsArm}
    decreases last
  {
    hide PhaseAt, SuccessAt, InvAt, AssertsAt;
    if first < last {
      StaysUnarmed(answers, c, es, first, last - 1);
      PhaseStepAt(answers, c, es, last - 1);
    }
  }

  /** Without a local run request, a controller that lacks one never becomes free to assert. */
  lemma {:induction false} StaysUnrequested(answers: Answers, c: Controller, es: seq<Event>, first: nat, last: nat)
    requires first <= last <= |es| && InvAt(answers, c, es, first) && PhaseAt(answers, c, es, first) != Free
    requires forall k :: first <= k < last ==> !IsRequest(es[k])
    ensures InvAt(answers, c, es, last) && PhaseAt(answers, c, es, last) != Free
    decreases last
  {
    hide PhaseAt, SuccessAt, InvAt, AssertsAt, IsRequest;
    if first < last {
      StaysUnrequested(answers, c, es, first, last - 1);
      PhaseStepAt(answers, c, es, last - 1);
    }
  }

  /** The first success of an action at or after a point, when there is one. */
  lemma {:induction false} FirstSuccess(answers: Answers, c: Controller, es: seq<Event>, first: nat, last: nat,
                                        action: Action)
    returns (k: nat)
    requires first <= last <= |es|
    requires exists i :: first <= i < last && SuccessAt(answers, c, es, i, action)
    ensures first <= k < last && SuccessAt(answers, c, es, k, action)
    ensures forall i :: first <= i < k ==> !SuccessAt(answers, c, es, i, action)
    decreases last - first
  {
    hide SuccessAt;
    if SuccessAt(answers, c, es, first, action) {
      k := first;
    } else {
      k := FirstSuccess(answers, c, es, first + 1, last, action);
    }
  }

  /** Unsupervised, without a local request, healthy, interlock closed, adapter installed,
      which accepts the next call. */
  predicate ReadyToReset(answers: Answers, c: Controller) {
    && !c.s.supervised && !c.s.localRequest && c.s.health == READY && c.s.interlock
    && c.adapter.Some? && answers(|c.trace|)
  }

  /** The same with nothing latched. */
  predicate ReadyToArm(answers: Answers, c: Controller) {
    && c.s.latched == 0 && !c.s.localRequest && c.s.health == READY && c.s.interlock
    && c.adapter.Some? && answers(|c.trace|)
  }

  /** What a success demands, and nothing more. */
  lemma SuccessDemands(answers: Answers, c: Controller, e: Event)
    ensures Succeeds(answers, c, e, CLEAR_FAULT) <==> e == ActionRequested(CLEAR_FAULT) && ReadyToReset(answers, c)
    ensures Succeeds(answers, c, e, ARM) <==> e == ActionRequested(ARM) && ReadyToArm(answers, c)
  {
    hide LatchFault, ActiveFaults;
  }

  /** After a fault is latched, no callback is asked for 1 until there has been a
      successful CLEAR_FAULT, then a successful ARM, then a local run request, in that
      order, the first two in a state fit for them: in every run, whatever the callbacks
      answer. */
  lemma FaultBlocksPermit(answers: Answers, es: seq<Event>, latchedAt: nat, assertAt: nat)
    requires latchedAt <= assertAt < |es|
    ensures Before(answers, INITIAL, es, latchedAt).s.latched != 0 && AssertsAt(answers, INITIAL, es, assertAt) ==>
      exists clear: nat, arm: nat, request: nat ::
        && latchedAt <= clear < arm < request <= assertAt
        && SuccessAt(answers, INITIAL, es, clear, CLEAR_FAULT)
        && ReadyToReset(answers, Before(answers, INITIAL, es, clear))
        && SuccessAt(answers, INITIAL, es, arm, ARM)
        && ReadyToArm(answers, Before(answers, INITIAL, es, arm))
        && IsRequest(es[request])
  {
    hide *;
    if Before(answers, INITIAL, es, latchedAt).s.latched != 0 && AssertsAt(answers, INITIAL, es, assertAt) {
      LatchedPhase(answers, es, latchedAt);
      var clear := ClearBeforeAssert(answers, INITIAL, es, latchedAt, assertAt);
      var arm := ArmBeforeAssert(answers, INITIAL, es, clear + 1, assertAt);
      var request := RequestBeforeAssert(answers, INITIAL, es, arm + 1, assertAt);
      SuccessAtDemands(answers, INITIAL, es, clear);
      SuccessAtDemands(answers, INITIAL, es, arm);
    }
  }

  lemma SuccessAtDemands(answers: Answers, c: Controller, es: seq<Event>, i: nat)
    requires i < |es|
    ensures SuccessAt(answers, c, es, i, CLEAR_FAULT) ==> ReadyToReset(answers, Before(answers, c, es, i))
    ensures SuccessAt(answers, c, es, i, ARM) ==> ReadyToArm(answers, Before(answers, c, es, i))
  {
    hide Succeeds, ReadyToReset, ReadyToArm, Before;
    SuccessDemands(answers, Before(answers, c, es, i), es[i]);
  }

  lemma LatchedPhase(answers: Answers, es: seq<Event>, i: nat)
    requires i <= |es| && Before(answers, INITIAL, es, i).s.latched != 0
    ensures InvAt(answers, INITIAL, es, i) && PhaseAt(answers, INITIAL, es, i) == NeedsClear
  {
    hide Inv, Run;
    ReachableInv(answers, es[..i]);
  }

  lemma ClearBeforeAssert(answers: Answers, c: Controller, es: seq<Event>, first: nat, last: nat) returns (k: nat)
    requires first <= last < |es| && InvAt(answers, c, es, first) && PhaseAt(answers, c, es, first) == NeedsClear
    ensures AssertsAt(answers, c, es, last) ==>
      && first <= k < last && SuccessAt(answers, c, es, k, CLEAR_FAULT)
      && InvAt(answers, c, es, k + 1) && PhaseAt(answers, c, es, k + 1) in {NeedsClear, NeedsArm}
  {
    hide PhaseAt, SuccessAt, InvAt, AssertsAt;
    k := first;
    if forall i :: first <= i < last ==> !SuccessAt(answers, c, es, i, CLEAR_FAULT) {
      StaysLatched(answers, c, es, first, last);
      PhaseStepAt(answers, c, es, last);
    } else {
      k := FirstSuccess(answers, c, es, first, last, CLEAR_FAULT);
      StaysLatched(answers, c, es, first, k);
      PhaseStepAt(answers, c, es, k);
    }
  }

  lemma ArmBeforeAssert(answers: Answers, c: Controller, es: seq<Event>, first: nat, last: nat) returns (k: nat)
    requires
      && first <= last < |es|
      && InvAt(answers, c, es, first)
      && PhaseAt(answers, c, es, first) in {NeedsClear, NeedsArm}
    ensures AssertsAt(answers, c, es, last) ==>
      && first <= k < last && SuccessAt(answers, c, es, k, ARM)
      && InvAt(answers, c, es, k + 1) && PhaseAt(answers, c, es, k + 1) != Free
  {
    hide PhaseAt, SuccessAt, InvAt, AssertsAt;
    k := first;
    if forall i :: first <= i < last ==> !SuccessAt(answers, c, es, i, ARM) {
      StaysUnarmed(answers, c, es, first, last);
      PhaseStepAt(answers, c, es, last);
    } else {
      k := FirstSuccess(answers, c, es, first, last, ARM);
      StaysUnarmed(answers, c, es, first, k);
      PhaseStepAt(answers, c, es, k);
    }
  }

  lemma RequestBeforeAssert(answers: Answers, c: Controller, es: seq<Event>, first: nat, last: nat) returns (k: nat)
    requires first <= last < |es| && InvAt(answers, c, es, first) && PhaseAt(answers, c, es, first) != Free
    ensures AssertsAt(answers, c, es, last) ==> first <= k <= last && IsRequest(es[k])
  {
    hide PhaseAt, SuccessAt, InvAt, AssertsAt, IsRequest;
    k := last;
    if forall i :: first <= i < last ==> !IsRequest(es[i]) {
      StaysUnrequested(answers, c, es, first, last);
      PhaseStepAt(answers, c, es, last);
    } else {
      k :| first <= k < last && IsRequest(es[k]);
    }
  }

  // ---------------------------------------------------------------- output failures

  /** A latched output failure disappears in one way only: a successful CLEAR_FAULT whose
      one callback call asked the installed adapter for 0 and was accepted. */
  lemma OutputFailureClearedByZero(answers: Answers, c: Controller, e: Event)
    requires Inv(c) && Has(c.s.latched, FAULT_OUTPUT_FAILURE)
    ensures !Has(Step(answers, c, e).0.s.latched, FAULT_OUTPUT_FAILURE) ==>
      && Succeeds(answers, c, e, CLEAR_FAULT) && c.adapter.Some?
      && Step(answers, c, e).0.trace == c.trace + [Call(c.adapter.value, false, true)]
  {
    hide Has, Evaluate, ConfigureOutput, Disarm, ClearFault, Arm, ActiveFaults, LastAccepted;
    LatchBits(c.s.latched);
    match e
    case Configured(output) => ConfigureKeepsFailure(answers, c, output);
    case RunRequested(requested) => EvaluateKeepsFailure(answers, c.(s := c.s.(localRequest := requested)));
    case InterlockSet(closed) => EvaluateKeepsFailure(answers, c.(s := c.s.(interlock := closed)));
    case HealthReported(health, score, anomaly) =>
      EvaluateKeepsFailure(answers, c.(s := c.s.(health := health, healthScore := score, anomalyScore := anomaly)));
    case ActionRequested(action) => ActionsOnFailure(answers, c);
  }

  lemma EvaluateKeepsFailure(answers: Answers, c: Controller)
    requires Consistent(c) && Has(c.s.latched, FAULT_OUTPUT_FAILURE)
    ensures Has(Evaluate(answers, c).s.latched, FAULT_OUTPUT_FAILURE)
  {
    hide LatchFault, ActiveFaults, LastAccepted, With, Has, EvaluateSupervised, EvaluateDisabled;
    LatchBits(c.s.latched);
    if c.adapter.Some? {
      LatchFaultEnds(answers, Ask(answers, Refresh(c), false).0, FAULT_OUTPUT_FAILURE, REASON_OUTPUT_FAILURE);
    }
  }

  lemma ConfigureKeepsFailure(answers: Answers, c: Controller, output: Option<nat>)
    requires Inv(c) && Has(c.s.latched, FAULT_OUTPUT_FAILURE)
    ensures Has(ConfigureOutput(answers, c, output).0.s.latched, FAULT_OUTPUT_FAILURE)
  {
    hide LatchFault, ActiveFaults, LastAccepted, With, Has;
    if output.Some? {
      var c1 := c.(adapter := output, s := c.s.(outputAvailable := true));
      LatchFaultEnds(answers, Ask(answers, c1, false).0, FAULT_OUTPUT_FAILURE, REASON_OUTPUT_FAILURE);
    }
  }

  lemma ActionsOnFailure(answers: Answers, c: Controller)
    requires Inv(c) && Has(c.s.latched, FAULT_OUTPUT_FAILURE)
    ensures Has(Disarm(answers, c).0.s.latched, FAULT_OUTPUT_FAILURE)
    ensures Arm(answers, c) == (c, ERROR_DENIED)
    ensures var (c', r) := ClearFault(answers, c);
      || Has(c'.s.latched, FAULT_OUTPUT_FAILURE)
      || (r == OK && c.adapter.Some? && c'.trace == c.trace + [Call(c.adapter.value, false, true)])
  {
    hide LatchFault, ActiveFaults, LastAccepted, With, Has;
    LatchBits(c.s.latched);
    if c.adapter.Some? {
      var c1 := c.(s := c.s.(supervised := false));
      LatchFaultEnds(answers, Ask(answers, c, false).0, FAULT_OUTPUT_FAILURE, REASON_OUTPUT_FAILURE);
      LatchFaultEnds(answers, Ask(answers, c1, false).0, FAULT_OUTPUT_FAILURE, REASON_OUTPUT_FAILURE);
    }
  }

  lemma LatchKeepsBit(b: bv16, f: bv16)
    ensures Has(b, FAULT_OUTPUT_FAILURE) ==> Has(With(b, f), FAULT_OUTPUT_FAILURE)
  {
  }

  // ---------------------------------------------------------------- recovery is always possible

  const RECOVERY: seq<Event> := [
    RunRequested(false), InterlockSet(true), HealthReported(READY, 1000, 0),
    ActionRequested(DISARM), ActionRequested(CLEAR_FAULT), ActionRequested(ARM), RunRequested(true)]

  /** From every reachable state with an adapter installed, seven fixed calls reach
      ACTIVE with the permit asserted, if the adapter accepts from now on. */
  lemma RecoveryReachesActive(answers: Answers, es: seq<Event>)
    requires Run(answers, INITIAL, es).adapter.Some?
    requires forall n :: n >= |Run(answers, INITIAL, es).trace| ==> answers(n)
    ensures var c := Run(answers, Run(answers, INITIAL, es), RECOVERY);
      c.s.state == ACTIVE && c.s.permit && c.s.latched == 0
  {
    hide Run;
    RecoverFrom(answers, Run(answers, INITIAL, es));
  }

  lemma RecoverFrom(answers: Answers, c: Controller)
    requires AcceptsFrom(answers, c)
    ensures var c' := Run(answers, c, RECOVERY); c'.s.state == ACTIVE && c'.s.permit && c'.s.latched == 0
  {
    hide Evaluate, Disarm, ClearFault, Arm, Run;
    EvaluateKeepsInputs(answers, c.(s := c.s.(localRequest := false)));
    var c1 := SetLocalRunRequest(answers, c, false);
    EvaluateKeepsInputs(answers, c1.(s := c1.s.(interlock := true)));
    var c2 := SetInterlock(answers, c1, true);
    EvaluateKeepsInputs(answers, c2.(s := c2.s.(health := READY, healthScore := 1000, anomalyScore := 0)));
    var c3 := UpdateHealth(answers, c2, READY, 1000, 0);
    DisarmAccepted(answers, c3);
    ClearAccepted(answers, Disarm(answers, c3).0);
    ArmAccepted(answers, ClearFault(answers, Disarm(answers, c3).0).0);
    ArmedRequestActivates(answers, Arm(answers, ClearFault(answers, Disarm(answers, c3).0).0).0);
    UnfoldRecovery(answers, c);
  }

  lemma UnfoldRecovery(answers: Answers, c: Controller)
    ensures Run(answers, c, RECOVERY)
      == (var c3 := UpdateHealth(answers, SetInterlock(answers, SetLocalRunRequest(answers, c, false), true), READY,
                                 1000, 0);
          SetLocalRunRequest(answers, Arm(answers, ClearFault(answers, Disarm(answers, c3).0).0).0, true))
  {
    hide SetLocalRunRequest, SetInterlock, UpdateHealth, Arm, ClearFault, Disarm, ConfigureOutput;
    RunUnfolds(answers, c, RECOVERY);
    var d1 := Step(answers, c, RECOVERY[0]).0;
    assert RECOVERY[1..][0] == InterlockSet(true);
    RunUnfolds(answers, d1, RECOVERY[1..]);
    var d2 := Step(answers, d1, InterlockSet(true)).0;
    assert RECOVERY[1..][1..] == RECOVERY[2..];
    RunUnfolds(answers, d2, RECOVERY[2..]);
    var d3 := Step(answers, d2, HealthReported(READY, 1000, 0)).0;
    assert RECOVERY[2..][1..] == RECOVERY[3..];
    RunUnfolds(answers, d3, RECOVERY[3..]);
    var d4 := Step(answers, d3, ActionRequested(DISARM)).0;
    assert RECOVERY[3..][1..] == RECOVERY[4..];
    RunUnfolds(answers, d4, RECOVERY[4..]);
    var d5 := Step(answers, d4, ActionRequested(CLEAR_FAULT)).0;
    assert RECOVERY[4..][1..] == RECOVERY[5..];
    RunUnfolds(answers, d5, RECOVERY[5..]);
    var d6 := Step(answers, d5, ActionRequested(ARM)).0;
    assert RECOVERY[5..][1..] == RECOVERY[6..];
    RunUnfolds(answers, d6, RECOVERY[6..]);
    assert RECOVERY[6..][1..] == [];
  }

  lemma RunUnfolds(answers: Answers, c: Controller, es: seq<Event>)
    requires es != []
    ensures Run(answers, c, es) == Run(answers, Step(answers, c, es[0]).0, es[1..])
    ensures es[1..] == [] ==> Run(answers, c, es) == Step(answers, c, es[0]).0
  {
    hide Step;
  }

  /** The inputs of a controller, which only the callers change. */
  predicate SameInputs(c: Controller, d: Controller) {
    && d.adapter == c.adapter && |d.trace| >= |c.trace|
    && d.s.localRequest == c.s.localRequest && d.s.interlock == c.s.interlock && d.s.health == c.s.health
  }

  lemma LatchKeepsInputs(answers: Answers, c: Controller, faults: bv16, reason: nat)
    ensures SameInputs(c, LatchFault(answers, c, faults, reason))
  {
    hide LatchFault, ActiveFaults, With;
    LatchFaultFields(answers, c, faults, reason);
  }

  lemma ApplyKeepsInputs(answers: Answers, c: Controller, permit: bool)
    ensures SameInputs(c, ApplyOutput(answers, c, permit).0)
  {
    hide LatchFault, ActiveFaults, With;
    if c.adapter.Some? {
      LatchKeepsInputs(answers, Ask(answers, c, permit).0, FAULT_OUTPUT_FAILURE, REASON_OUTPUT_FAILURE);
    }
  }

  lemma EvaluateDisabledKeepsInputs(answers: Answers, c: Controller)
    ensures SameInputs(c, EvaluateDisabled(answers, c))
  {
    hide LatchFault;
    if c.adapter.Some? {
      LatchKeepsInputs(answers, Ask(answers, c, false).0, FAULT_OUTPUT_FAILURE, REASON_OUTPUT_FAILURE);
    }
  }

  lemma EvaluateSupervisedKeepsInputs(answers: Answers, c: Controller)
    ensures SameInputs(c, EvaluateSupervised(answers, c))
  {
    hide LatchFault, ApplyOutput, Has;
    LatchKeepsInputs(answers, c, FAULT_INTERLOCK_OPEN, REASON_INTERLOCK);
    LatchKeepsInputs(answers, c, FAULT_HEALTH_NOT_READY, REASON_HEALTH_NOT_READY);
    LatchKeepsInputs(answers, c, FAULT_HEALTH_ALARM, REASON_HEALTH_ALARM);
    ApplyKeepsInputs(answers, c, c.s.localRequest);
  }

  /** Evaluation keeps the inputs and the adapter. */
  lemma EvaluateKeepsInputs(answers: Answers, c: Controller)
    ensures SameInputs(c, Evaluate(answers, c))
  {
    hide ActiveFaults, ApplyOutput, EvaluateDisabled, EvaluateSupervised;
    EvaluateDisabledKeepsInputs(answers, Refresh(c));
    EvaluateSupervisedKeepsInputs(answers, Refresh(c));
    ApplyKeepsInputs(answers, Refresh(c), false);
  }

  /** Every callback call from here on is accepted. */
  ghost predicate AcceptsFrom(answers: Answers, c: Controller) {
    c.adapter.Some? && forall n :: n >= |c.trace| ==> answers(n)
  }

  predicate Safe(c: Controller) {
    !c.s.localRequest && c.s.interlock && c.s.health.READY?
  }

  lemma DisarmAccepted(answers: Answers, c: Controller)
    requires AcceptsFrom(answers, c) && Safe(c)
    ensures var c' := Disarm(answers, c).0; AcceptsFrom(answers, c') && Safe(c') && !c'.s.supervised
  {
    hide LatchFault, ActiveFaults;
  }

  lemma ClearAccepted(answers: Answers, c: Controller)
    requires AcceptsFrom(answers, c) && Safe(c) && !c.s.supervised
    ensures var c' := ClearFault(answers, c).0; AcceptsFrom(answers, c') && Safe(c') && c'.s.latched == 0
  {
    hide LatchFault, ActiveFaults;
  }

  lemma ArmAccepted(answers: Answers, c: Controller)
    requires AcceptsFrom(answers, c) && Safe(c) && c.s.latched == 0
    ensures var c' := Arm(answers, c).0; AcceptsFrom(answers, c') && Safe(c') && c'.s.latched == 0 && c'.s.supervised
  {
    hide LatchFault, ActiveFaults;
  }

  lemma ArmedRequestActivates(answers: Answers, c: Controller)
    requires AcceptsFrom(answers, c) && Safe(c) && c.s.supervised && c.s.latched == 0
    ensures var c' := SetLocalRunRequest(answers, c, true); c'.s.state == ACTIVE && c'.s.permit && c'.s.latched == 0
  {
    hide LatchFault, LiveFaults, With, Has;
    ActiveBits(c.s.(localRequest := true));
  }

  // ---------------------------------------------------------------- replacing an adapter

  /** Installing an adapter makes no call of any other one and always ends without the
      permit, for every state and every answer: a replaced adapter keeps what it last
      accepted.  While no output failure is latched that is the published permit, so it is
      left released exactly when the permit was not published. */
  lemma ReplacedAdapterIsNotReleased(answers: Answers, c: Controller, next: nat)
    requires Inv(c) && c.adapter.Some? && next != c.adapter.value
    ensures var (c', r) := ConfigureOutput(answers, c, Some(next));
      && !c'.s.permit
      && LastAccepted(c'.trace, c.adapter.value) == LastAccepted(c.trace, c.adapter.value)
      && (!Has(c.s.latched, FAULT_OUTPUT_FAILURE) ==>
            && LastAccepted(c'.trace, c.adapter.value) == Some(c.s.permit)
            && (LastAccepted(c'.trace, c.adapter.value) == Some(false) <==> !c.s.permit))
  {
    hide LastAccepted, LatchFault, ActiveFaults, Has;
    ConfigureCallsOnlyNext(answers, c, next);
  }

  /** The case in which one replaces an adapter: it refused to be released.  The permit is
      unpublished and an output failure latched, but what the adapter last accepted is 1. */
  lemma RefusedReleaseStaysAsserted(answers: Answers, c: Controller)
    requires Inv(c) && c.s.permit && !answers(|c.trace|) && !answers(|c.trace| + 1)
    ensures var (c', r) := Disarm(answers, c);
      && Inv(c') && r == ERROR_OUTPUT && !c'.s.permit && Has(c'.s.latched, FAULT_OUTPUT_FAILURE)
      && c'.adapter == c.adapter && LastAccepted(c'.trace, c.adapter.value) == Some(true)
      && c'.s.health == c.s.health && c'.s.interlock == c.s.interlock && |c'.trace| == |c.trace| + 2
  {
    hide LastAccepted, LatchFault, ActiveFaults, With, Has;
    var (c', _) := Disarm(answers, c);
    var asked := Ask(answers, c.(s := c.s.(supervised := false)), false).0;
    ActKeepsInv(answers, c, DISARM);
    LatchFaultFields(answers, asked, FAULT_OUTPUT_FAILURE, REASON_OUTPUT_FAILURE);
    LatchBits(With(asked.s.latched, FAULT_OUTPUT_FAILURE));
    RefusedCall(c.trace, c.adapter.value);
    RefusedCall(asked.trace, c.adapter.value);
    LatchBits(c.s.latched);
  }

  lemma RefusedCall(trace: seq<Call>, adapter: nat)
    ensures LastAccepted(trace + [Call(adapter, false, false)], adapter) == LastAccepted(trace, adapter)
  {
    assert (trace + [Call(adapter, false, false)])[..|trace|] == trace;
  }

  /** Where the controller is then: it keeps its state, without the permit, exactly when
      the new adapter accepts 0; otherwise it is latched with an output failure. */
  lemma ReplacementKeepsState(answers: Answers, c: Controller, next: nat)
    requires Inv(c) && c.adapter.Some?
    ensures var (c', r) := ConfigureOutput(answers, c, Some(next));
      && (r == OK <==> answers(|c.trace|))
      && c'.s.state == (if r == OK then c.s.state else FAULT_LATCHED)
      && (c'.s.state in {ACTIVE, DEGRADED} && !c'.s.permit <==> c.s.state in {ACTIVE, DEGRADED} && answers(|c.trace|))
      && (r != OK ==> Has(c'.s.latched, FAULT_OUTPUT_FAILURE))
  {
    hide LastAccepted, LatchFault, ActiveFaults, With, Has;
    var c1 := c.(adapter := Some(next), s := c.s.(outputAvailable := true));
    var asked := Ask(answers, c1, false).0;
    LatchFaultFields(answers, asked, FAULT_OUTPUT_FAILURE, REASON_OUTPUT_FAILURE);
    LatchBits(asked.s.latched);
    LatchBits(With(asked.s.latched, FAULT_OUTPUT_FAILURE));
  }

  lemma ConfigureCallsOnlyNext(answers: Answers, c: Controller, next: nat)
    requires c.adapter.Some? && next != c.adapter.value
    ensures var (c', _) := ConfigureOutput(answers, c, Some(next));
      !c'.s.permit && LastAccepted(c'.trace, c.adapter.value) == LastAccepted(c.trace, c.adapter.value)
  {
    hide LatchFault, LastAccepted, ActiveFaults;
    var c1 := c.(adapter := Some(next), s := c.s.(outputAvailable := true));
    var asked := Ask(answers, c1, false).0;
    OtherCall(c.trace, Call(next, false, answers(|c.trace|)), c.adapter.value);
    LatchFaultFields(answers, asked, FAULT_OUTPUT_FAILURE, REASON_OUTPUT_FAILURE);
    OtherCall(asked.trace, Call(next, false, answers(|asked.trace|)), c.adapter.value);
  }

  lemma OtherCall(trace: seq<Call>, call: Call, adapter: nat)
    requires call.adapter != adapter
    ensures LastAccepted(trace + [call], adapter) == LastAccepted(trace, adapter)
  {
    assert (trace + [call])[..|trace|] == trace;
  }

  // ---------------------------------------------------------------- only the installed adapter is called

  /** Every call made on the way was of the installed adapter. */
  predicate CallsInstalled(c: Controller, c': Controller) {
    && c'.adapter == c.adapter && c.trace <= c'.trace
    && forall i :: |c.trace| <= i < |c'.trace| ==> Some(c'.trace[i].adapter) == c.adapter
  }

  lemma LatchCallsInstalled(answers: Answers, c: Controller, faults: bv16, reason: nat)
    ensures CallsInstalled(c, LatchFault(answers, c, faults, reason))
  {
    hide LatchFault, ActiveFaults, With;
    LatchFaultFields(answers, c, faults, reason);
  }

  lemma ApplyCallsInstalled(answers: Answers, c: Controller, permit: bool)
    ensures CallsInstalled(c, ApplyOutput(answers, c, permit).0)
  {
    hide LatchFault, ActiveFaults;
    if c.adapter.Some? {
      LatchCallsInstalled(answers, Ask(answers, c, permit).0, FAULT_OUTPUT_FAILURE, REASON_OUTPUT_FAILURE);
    }
  }

  lemma EvaluateCallsInstalled(answers: Answers, c: Controller)
    ensures CallsInstalled(c, Evaluate(answers, c))
  {
    hide ActiveFaults, LatchFault, ApplyOutput, Has;
    var c1 := Refresh(c);
    ApplyCallsInstalled(answers, c1, false);
    ApplyCallsInstalled(answers, c1, c1.s.localRequest);
    LatchCallsInstalled(answers, c1, FAULT_INTERLOCK_OPEN, REASON_INTERLOCK);
    LatchCallsInstalled(answers, c1, FAULT_HEALTH_NOT_READY, REASON_HEALTH_NOT_READY);
    LatchCallsInstalled(answers, c1, FAULT_HEALTH_ALARM, REASON_HEALTH_ALARM);
    if c.adapter.Some? {
      LatchCallsInstalled(answers, Ask(answers, c1, false).0, FAULT_OUTPUT_FAILURE, REASON_OUTPUT_FAILURE);
    }
  }

  lemma ActCallsInstalled(answers: Answers, c: Controller, action: Action)
    ensures CallsInstalled(c, Act(answers, c, action).0)
  {
    hide ActiveFaults, LatchFault, ApplyOutput;
    ApplyCallsInstalled(answers, c, false);
    if c.adapter.Some? {
      var c1 := c.(s := c.s.(supervised := false));
      LatchCallsInstalled(answers, Ask(answers, c, false).0, FAULT_OUTPUT_FAILURE, REASON_OUTPUT_FAILURE);
      LatchCallsInstalled(answers, Ask(answers, c1, false).0, FAULT_OUTPUT_FAILURE, REASON_OUTPUT_FAILURE);
    }
  }

  lemma ConfigureCallsInstalled(answers: Answers, c: Controller, next: nat)
    ensures CallsInstalled(c.(adapter := Some(next)), ConfigureOutput(answers, c, Some(next)).0)
  {
    hide ActiveFaults, LatchFault;
    var c1 := c.(adapter := Some(next), s := c.s.(outputAvailable := true));
    LatchCallsInstalled(answers, Ask(answers, c1, false).0, FAULT_OUTPUT_FAILURE, REASON_OUTPUT_FAILURE);
  }

  lemma {:induction false} OthersKeepLastAccepted(trace: seq<Call>, trace': seq<Call>, other: nat)
    requires trace <= trace' && forall i :: |trace| <= i < |trace'| ==> trace'[i].adapter != other
    ensures LastAccepted(trace', other) == LastAccepted(trace, other)
    decreases |trace'|
  {
    if |trace| < |trace'| {
      OthersKeepLastAccepted(trace, trace'[..|trace'| - 1], other);
    } else {
      assert trace' == trace;
    }
  }

  /** A step that does not install this adapter, while another one or none is installed,
      neither asks it anything nor installs it. */
  lemma StepLeavesOthers(answers: Answers, c: Controller, e: Event, other: nat)
    requires c.adapter != Some(other) && e != Configured(Some(other))
    ensures var c' := Step(answers, c, e).0;
      c'.adapter != Some(other) && LastAccepted(c'.trace, other) == LastAccepted(c.trace, other)
  {
    hide Evaluate, Act, ConfigureOutput, LastAccepted;
    match e
    case Configured(output) =>
      NothingConfigured(answers, c);
      if output.Some? {
        ConfigureCallsInstalled(answers, c, output.value);
        OthersKeepLastAccepted(c.trace, Step(answers, c, e).0.trace, other);
      }
    case RunRequested(requested) =>
      EvaluateCallsInstalled(answers, c.(s := c.s.(localRequest := requested)));
      OthersKeepLastAccepted(c.trace, Step(answers, c, e).0.trace, other);
    case InterlockSet(closed) =>
      EvaluateCallsInstalled(answers, c.(s := c.s.(interlock := closed)));
      OthersKeepLastAccepted(c.trace, Step(answers, c, e).0.trace, other);
    case HealthReported(health, score, anomaly) =>
      EvaluateCallsInstalled(answers, c.(s := c.s.(health := health, healthScore := score, anomalyScore := anomaly)));
      OthersKeepLastAccepted(c.trace, Step(answers, c, e).0.trace, other);
    case ActionRequested(action) =>
      ActCallsInstalled(answers, c, action);
      OthersKeepLastAccepted(c.trace, Step(answers, c, e).0.trace, other);
  }

  lemma NothingConfigured(answers: Answers, c: Controller)
    ensures ConfigureOutput(answers, c, None).0 == c
  {
  }

  /** So once replaced, an adapter keeps what it last accepted through every run that does
      not install it again, whatever is cleared, armed and requested meanwhile. */
  lemma {:induction false} ReplacedKeepsLastAccepted(answers: Answers, c: Controller, es: seq<Event>, other: nat)
    requires c.adapter != Some(other) && forall i :: 0 <= i < |es| ==> es[i] != Configured(Some(other))
    ensures LastAccepted(Run(answers, c, es).trace, other) == LastAccepted(c.trace, other)
    decreases |es|
  {
    hide Step, LastAccepted;
    if es != [] {
      StepLeavesOthers(answers, c, es[0], other);
      ReplacedKeepsLastAccepted(answers, Step(answers, c, es[0]).0, es[1..], other);
    }
  }

  /** A run in which it matters: from an asserted permit a DISARM whose two calls are refused,
      then another adapter that accepts from then on, and the seven recovery calls: the
      controller is ACTIVE again with nothing latched, and what the replaced adapter last
      accepted is still 1. */
  lemma ReplacedStaysAsserted(answers: Answers, c: Controller, next: nat)
    requires Inv(c) && c.s.permit && next != c.adapter.value
    requires !answers(|c.trace|) && !answers(|c.trace| + 1) && forall n :: n >= |c.trace| + 2 ==> answers(n)
    ensures var replaced := ConfigureOutput(answers, Disarm(answers, c).0, Some(next)).0;
      var c' := Run(answers, replaced, RECOVERY);
      && c'.s.state == ACTIVE && c'.s.permit && c'.s.latched == 0
      && LastAccepted(c'.trace, c.adapter.value) == Some(true)
  {
    hide LastAccepted, Run, LatchFault, ActiveFaults, Has, Disarm, ConfigureOutput;
    RefusedReleaseStaysAsserted(answers, c);
    var disarmed := Disarm(answers, c).0;
    ReplacedAdapterIsNotReleased(answers, disarmed, next);
    ConfigureCallsInstalled(answers, disarmed, next);
    var replaced := ConfigureOutput(answers, disarmed, Some(next)).0;
    RecoverFrom(answers, replaced);
    ReplacedKeepsLastAccepted(answers, replaced, RECOVERY, c.adapter.value);
  }
}
