/** What each entry point of the supervisory policy demands and does, condition by condition
    and field by field. */
module ControlPolicy {
  import opened Wrappers
  import opened Control
  import opened ControlTheorems

  /** The state was entered: a change is counted and gives its reason. */
  predicate Entered(before: Status, after: Status, state: ControlState, reason: nat) {
    && after.state == state
    && after.reason == (if before.state == state then before.reason else reason)
    && after.transitions
       == (if before.state == state || before.transitions == 0xFFFF_FFFF then before.transitions
           else before.transitions + 1)
  }

  /** What the caller reports and what is installed is as before. */
  predicate InputsKept(before: Controller, after: Controller) {
    && after.adapter == before.adapter
    && after.s.localRequest == before.s.localRequest && after.s.interlock == before.s.interlock
    && after.s.health == before.s.health
    && after.s.healthScore == before.s.healthScore && after.s.anomalyScore == before.s.anomalyScore
    && after.s.outputAvailable == before.s.outputAvailable
  }

  /** The installed adapter was asked, and no other call was made. */
  predicate Asked(answers: Answers, before: Controller, after: Controller, permit: bool) {
    before.adapter.Some?
    && after.trace == before.trace + [Call(before.adapter.value, permit, answers(|before.trace|))]
  }

  /** Faults were latched: permit and supervision are gone, the adapter was asked for 0, a
      refusal added its own bit, and the episode was counted if a bit was new. */
  predicate Tripped(answers: Answers, before: Controller, after: Controller, faults: bv16, reason: nat) {
    && InputsKept(before, after)
    && !after.s.permit && !after.s.supervised
    && Entered(before.s, after.s, FAULT_LATCHED, reason)
    && (before.adapter.None? ==> after.trace == before.trace)
    && (before.adapter.Some? ==> Asked(answers, before, after, false))
    && after.s.latched
       == (if before.adapter.Some? && !answers(|before.trace|) then With(With(before.s.latched, faults), 0x0008)
           else With(before.s.latched, faults))
    && after.s.latches
       == (if With(before.s.latched, faults) == before.s.latched || before.s.latches == 0xFFFF_FFFF
           then before.s.latches
           else before.s.latches + 1)
    && after.s.active == ActiveFaults(after.s)
  }

  /** Setting bits sets those and keeps the rest. */
  lemma WithIsUnion(mask: bv16, bits: bv16, bit: bv16)
    ensures Has(With(mask, bits), bit) <==> Has(mask, bit) || Has(bits, bit)
  {
    assert (mask | bits) & bit == (mask & bit) | (bits & bit);
  }

  /** Something is added iff the mask changes. */
  lemma AddsIsChange(mask: bv16, bits: bv16)
    ensures Adds(mask, bits) <==> With(mask, bits) != mask
  {
    assert (mask | bits) ^ mask == bits & !mask;
  }

  lemma LatchMeans(answers: Answers, c: Controller, faults: bv16, reason: nat)
    ensures Tripped(answers, c, LatchFault(answers, c, faults, reason), faults, reason)
  {
    AddsIsChange(c.s.latched, faults);
    LatchFaultFields(answers, c, faults, reason);
    hide ActiveFaults, Adds, With;
  }

  /** Each live fault bit is its own condition. */
  lemma LiveFaultBits(s: Status)
    ensures ActiveFaults(s) & 0x0001 != 0 <==> s.health in {UNTRAINED, LEARNING}
    ensures ActiveFaults(s) & 0x0002 != 0 <==> s.health == ALARM
    ensures ActiveFaults(s) & 0x0004 != 0 <==> !s.interlock
    ensures ActiveFaults(s) & 0x0008 != 0 <==> s.latched & 0x0008 != 0
    ensures ActiveFaults(s) & 0x0010 != 0 <==> !s.outputAvailable
    ensures ActiveFaults(s) & 0xFFE0 == 0
  {
  }

  // ---------------------------------------------------------------- host actions

  /** The adapter refused a call, which was latched. */
  predicate RefusedAndTripped(answers: Answers, before: Controller, after: Controller, permit: bool) {
    && before.adapter.Some? && !answers(|before.trace|)
    && Tripped(answers, before.(trace := before.trace + [Call(before.adapter.value, permit, false)]), after, 0x0008,
               0x83)
  }

  lemma RefusalMeans(answers: Answers, c: Controller, permit: bool)
    requires c.adapter.Some? && !answers(|c.trace|)
    ensures RefusedAndTripped(answers, c, LatchFault(answers, Ask(answers, c, permit).0, 0x0008, 0x83), permit)
  {
    hide LatchFault, Tripped;
    LatchMeans(answers, Ask(answers, c, permit).0, 0x0008, 0x83);
  }

  /** The adapter accepted 0, or there is none to ask. */
  predicate Released(answers: Answers, before: Controller, after: Controller) {
    && (before.adapter.None? ==> after.trace == before.trace)
    && (before.adapter.Some? ==> answers(|before.trace|) && Asked(answers, before, after, false))
    && !after.s.permit
  }

  predicate MasksKept(before: Controller, after: Controller) {
    after.s.latched == before.s.latched && after.s.latches == before.s.latches
  }

  /** A reset is permitted unsupervised, without a local request, healthy, with the interlock
      closed and an adapter installed.  A refused one changes nothing; a permitted one succeeds
      iff the adapter accepts 0, and then nothing is latched any more. */
  lemma ClearFaultMeans(answers: Answers, c: Controller)
    ensures var (c', r) := Act(answers, c, CLEAR_FAULT);
      var permitted := !c.s.supervised && !c.s.localRequest && c.s.health == READY && c.s.interlock && c.adapter.Some?;
      && (r == ERROR_DENIED <==> !permitted)
      && (r == ERROR_DENIED ==> c' == c)
      && (r == OK <==> permitted && answers(|c.trace|))
      && (r == OK ==>
            && InputsKept(c, c') && Released(answers, c, c') && !c'.s.supervised
            && c'.s.latched == 0 && c'.s.latches == c.s.latches && Entered(c.s, c'.s, DISABLED, 3)
            && c'.s.active == ActiveFaults(c'.s))
      && (r == ERROR_OUTPUT <==> permitted && !answers(|c.trace|))
      && (r == ERROR_OUTPUT ==> RefusedAndTripped(answers, c, c', false))
  {
    hide LatchFault, LiveFaults, RefusedAndTripped;
    if c.adapter.Some? && !answers(|c.trace|) {
      RefusalMeans(answers, c, false);
    }
  }

  /** Arming is permitted with nothing latched, without a local request, healthy, with the
      interlock closed and an adapter installed. */
  lemma ArmMeans(answers: Answers, c: Controller)
    ensures var (c', r) := Act(answers, c, ARM);
      var permitted := c.s.latched == 0 && !c.s.localRequest && c.s.health == READY && c.s.interlock && c.adapter.Some?;
      && (r == ERROR_DENIED <==> !permitted)
      && (r == ERROR_DENIED ==> c' == c)
      && (r == OK <==> permitted && answers(|c.trace|))
      && (r == OK ==>
            && InputsKept(c, c') && Released(answers, c, c') && c'.s.supervised
            && MasksKept(c, c') && Entered(c.s, c'.s, ARMED, 1)
            && c'.s.active == ActiveFaults(c'.s))
      && (r == ERROR_OUTPUT <==> permitted && !answers(|c.trace|))
      && (r == ERROR_OUTPUT ==> RefusedAndTripped(answers, c, c', false))
  {
    hide LatchFault, LiveFaults, RefusedAndTripped;
    if c.adapter.Some? && !answers(|c.trace|) {
      RefusalMeans(answers, c, false);
    }
  }

  /** Disarming is always permitted, and keeps what is latched. */
  lemma DisarmMeans(answers: Answers, c: Controller)
    ensures Act(answers, c, DISARM) == Disarm(answers, c)
    ensures var (c', r) := Disarm(answers, c);
      && (r == OK <==> c.adapter.None? || answers(|c.trace|))
      && (r == OK ==>
            && InputsKept(c, c') && Released(answers, c, c') && !c'.s.supervised
            && MasksKept(c, c') && Entered(c.s, c'.s, if c.s.latched != 0 then FAULT_LATCHED else DISABLED, 2)
            && c'.s.active == ActiveFaults(c'.s))
      && (r != OK ==> r == ERROR_OUTPUT && RefusedAndTripped(answers, c, c', false))
  {
    hide LatchFault, LiveFaults, Tripped;
    if c.adapter.Some? && !answers(|c.trace|) {
      RefusalMeans(answers, c.(s := c.s.(supervised := false)), false);
      UnsupervisedTrip(answers, c, Disarm(answers, c).0);
    }
  }

  lemma UnsupervisedTrip(answers: Answers, c: Controller, after: Controller)
    requires RefusedAndTripped(answers, c.(s := c.s.(supervised := false)), after, false)
    ensures RefusedAndTripped(answers, c, after, false)
  {
    hide ActiveFaults;
  }

  /** Any other action code is denied. */
  lemma UndefinedIsDenied(answers: Answers, c: Controller, code: nat)
    ensures Act(answers, c, UNDEFINED(code)) == (c, ERROR_DENIED)
  {
  }

  /** Installing an adapter asks it for 0, and changes the state only by a refusal. */
  lemma ConfigureMeans(answers: Answers, c: Controller, next: nat)
    ensures ConfigureOutput(answers, c, None) == (c, ERROR_NULL_ARGUMENT)
    ensures var installed := c.(adapter := Some(next), s := c.s.(outputAvailable := true));
      var (c', r) := ConfigureOutput(answers, c, Some(next));
      && (r == OK <==> answers(|c.trace|))
      && (r == OK ==>
            && InputsKept(installed, c') && Released(answers, installed, c') && MasksKept(c, c')
            && c'.s.supervised == c.s.supervised && c'.s.state == c.s.state
            && c'.s.transitions == c.s.transitions && c'.s.reason == c.s.reason
            && c'.s.active == ActiveFaults(c'.s))
      && (r != OK ==> r == ERROR_OUTPUT && RefusedAndTripped(answers, installed, c', false))
  {
    hide LatchFault, LiveFaults, RefusedAndTripped;
    if !answers(|c.trace|) {
      RefusalMeans(answers, c.(adapter := Some(next), s := c.s.(outputAvailable := true)), false);
    }
  }

  // ---------------------------------------------------------------- evaluation

  /** The first live fault that supervision does not tolerate, and its reason. */
  function Intolerable(s: Status): Option<(bv16, nat)> {
    if !s.interlock then Some((0x0004, 0x82))
    else match s.health
      case UNTRAINED => Some((0x0001, 0x80))
      case LEARNING => Some((0x0001, 0x80))
      case ALARM => Some((0x0002, 0x81))
      case READY => None
      case WARNING => None
  }

  /** The three cases of evaluation. */
  predicate Idle(answers: Answers, c: Controller, c': Controller) {
    if c.adapter.None? || answers(|c.trace|) then
      && InputsKept(c, c') && Released(answers, c, c') && MasksKept(c, c') && !c'.s.supervised
      && Entered(c.s, c'.s, if c.s.latched != 0 then FAULT_LATCHED else DISABLED, c.s.reason)
    else RefusedAndTripped(answers, c, c', false)
  }

  predicate Driven(answers: Answers, c: Controller, c': Controller) {
    if c.adapter.Some? && answers(|c.trace|) then
      && InputsKept(c, c') && Asked(answers, c, c', c.s.localRequest) && MasksKept(c, c')
      && c'.s.supervised && c'.s.permit == c.s.localRequest
      && (if !c.s.localRequest then Entered(c.s, c'.s, ARMED, 0x85)
          else if c.s.health == WARNING then Entered(c.s, c'.s, DEGRADED, 0x86)
          else Entered(c.s, c'.s, ACTIVE, if c.s.state == DEGRADED then 0x87 else 0x84))
    else RefusedAndTripped(answers, c, c', c.s.localRequest)
  }

  /** Evaluation, by what is latched, supervised, live and requested. */
  lemma EvaluateMeans(answers: Answers, c: Controller)
    requires Consistent(c)
    ensures var c' := Evaluate(answers, c);
      if c.s.latched != 0 || !c.s.supervised then Idle(answers, c, c')
      else match Intolerable(c.s)
        case Some((fault, reason)) => Tripped(answers, c, c', fault, reason)
        case None => Driven(answers, c, c')
  {
    hide ActiveFaults, Idle, Driven, Tripped, EvaluateLatched, EvaluateDisabled, EvaluateSupervised, Intolerable;
    hide LastAccepted;
    var c1 := Refresh(c);
    if c1.s.latched != 0 {
      LatchedMeans(answers, c, c1);
    } else if !c1.s.supervised {
      DisabledMeans(answers, c, c1);
    } else {
      SupervisedMeans(answers, c, c1);
    }
  }

  lemma SameTrip(answers: Answers, c: Controller, c1: Controller, after: Controller, faults: bv16, reason: nat)
    requires c1.trace == c.trace && c1.adapter == c.adapter && exists a :: c1.s == c.s.(active := a)
    requires Tripped(answers, c1, after, faults, reason)
    ensures Tripped(answers, c, after, faults, reason)
  {
    hide ActiveFaults, With;
  }

  lemma SameRefusal(answers: Answers, c: Controller, c1: Controller, after: Controller, permit: bool)
    requires c1.trace == c.trace && c1.adapter == c.adapter && exists a :: c1.s == c.s.(active := a)
    requires RefusedAndTripped(answers, c1, after, permit)
    ensures RefusedAndTripped(answers, c, after, permit)
  {
    hide Tripped;
    var call := Call(c.adapter.value, permit, false);
    SameTrip(answers, c.(trace := c.trace + [call]), c1.(trace := c1.trace + [call]), after, 0x0008, 0x83);
  }

  lemma LatchedMeans(answers: Answers, c: Controller, c1: Controller)
    requires c1 == Refresh(c) && c.s.latched != 0 && (c.s.outputAvailable <==> c.adapter.Some?)
    requires !c.s.supervised && !c.s.permit
    ensures Idle(answers, c, EvaluateLatched(answers, c1))
  {
    hide LatchFault, LiveFaults, Tripped;
    if c.adapter.Some? && !answers(|c.trace|) {
      RefusalMeans(answers, c1, false);
      TrippedStays(answers, c1, LatchFault(answers, Ask(answers, c1, false).0, 0x0008, 0x83));
      SameRefusal(answers, c, c1, EvaluateLatched(answers, c1), false);
    }
  }

  /** What latched stays as it is when supervision is dropped and the state entered again. */
  lemma TrippedStays(answers: Answers, c: Controller, c': Controller)
    requires RefusedAndTripped(answers, c, c', false)
    ensures To(c'.(s := c'.s.(supervised := false)), FAULT_LATCHED, c'.s.reason) == c'
  {
  }

  lemma DisabledMeans(answers: Answers, c: Controller, c1: Controller)
    requires c1 == Refresh(c) && c.s.latched == 0 && !c.s.supervised
    ensures Idle(answers, c, EvaluateDisabled(answers, c1))
  {
    hide LatchFault, LiveFaults, Tripped;
    if c.adapter.Some? && !answers(|c.trace|) {
      RefusalMeans(answers, c1, false);
      SameRefusal(answers, c, c1, EvaluateDisabled(answers, c1), false);
    }
  }

  lemma SupervisedMeans(answers: Answers, c: Controller, c1: Controller)
    requires c1 == Refresh(c) && c.s.supervised && c.adapter.Some?
    ensures var c' := EvaluateSupervised(answers, c1);
      match Intolerable(c.s)
      case Some((fault, reason)) => Tripped(answers, c, c', fault, reason)
      case None => Driven(answers, c, c')
  {
    hide LatchFault, LiveFaults, Tripped, Has;
    ActiveBits(c.s);
    assert c1.s == c.s.(active := c1.s.active);
    match Intolerable(c.s)
    case Some((fault, reason)) =>
      LatchMeans(answers, c1, fault, reason);
      SameTrip(answers, c, c1, LatchFault(answers, c1, fault, reason), fault, reason);
    case None =>
      if !answers(|c.trace|) {
        RefusalMeans(answers, c1, c.s.localRequest);
        SameRefusal(answers, c, c1, EvaluateSupervised(answers, c1), c.s.localRequest);
      }
  }

  /** Every report is recorded as given, and no other input changes. */
  lemma ReportsAreRecorded(answers: Answers, c: Controller, requested: bool, closed: bool, health: Health, score: nat,
                           anomaly: nat)
    requires Inv(c)
    ensures InputsKept(c.(s := c.s.(localRequest := requested)), SetLocalRunRequest(answers, c, requested))
    ensures InputsKept(c.(s := c.s.(interlock := closed)), SetInterlock(answers, c, closed))
    ensures InputsKept(c.(s := c.s.(health := health, healthScore := score, anomalyScore := anomaly)),
                       UpdateHealth(answers, c, health, score, anomaly))
  {
    hide LastAccepted, ActiveFaults, Evaluate;
    EvaluateKeepsReports(answers, c.(s := c.s.(localRequest := requested)));
    EvaluateKeepsReports(answers, c.(s := c.s.(interlock := closed)));
    EvaluateKeepsReports(answers, c.(s := c.s.(health := health, healthScore := score, anomalyScore := anomaly)));
  }

  lemma EvaluateKeepsReports(answers: Answers, c: Controller)
    requires Consistent(c)
    ensures InputsKept(c, Evaluate(answers, c))
  {
    hide Evaluate, ActiveFaults, LastAccepted, With, Entered;
    EvaluateMeans(answers, c);
  }
}
