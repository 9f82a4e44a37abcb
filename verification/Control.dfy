/** The supervisory control policy: five states, latched and live fault masks, and an
    output callback that may refuse any call.  The functions describe one entry point
    each; class GuardianControl updates the status in place and is proved to do exactly
    what they say. */
module Control {
  import opened Wrappers

  const FAULT_HEALTH_NOT_READY: bv16 := 0x0001
  const FAULT_HEALTH_ALARM: bv16 := 0x0002
  const FAULT_INTERLOCK_OPEN: bv16 := 0x0004
  const FAULT_OUTPUT_FAILURE: bv16 := 0x0008
  const FAULT_OUTPUT_UNAVAILABLE: bv16 := 0x0010

  const REASON_HEALTH_NOT_READY: nat := 0x80
  const REASON_HEALTH_ALARM: nat := 0x81
  const REASON_INTERLOCK: nat := 0x82
  const REASON_OUTPUT_FAILURE: nat := 0x83
  const REASON_LOCAL_RUN: nat := 0x84
  const REASON_LOCAL_STOP: nat := 0x85
  const REASON_HEALTH_WARNING: nat := 0x86
  const REASON_HEALTH_RECOVERED: nat := 0x87

  const UINT32_MAX: nat := 0xFFFF_FFFF

  datatype ControlState = DISABLED | ARMED | ACTIVE | DEGRADED | FAULT_LATCHED

  datatype Health = UNTRAINED | LEARNING | READY | WARNING | ALARM

  datatype Action = ARM | DISARM | CLEAR_FAULT | UNDEFINED(code: nat)

  datatype Outcome = OK | ERROR_NULL_ARGUMENT | ERROR_DENIED | ERROR_OUTPUT

  /** One call of an output adapter: which adapter, the permit asked for, the answer. */
  datatype Call = Call(adapter: nat, permit: bool, accepted: bool)

  datatype Status = Status(
    state: ControlState,
    supervised: bool,
    localRequest: bool,
    permit: bool,
    interlock: bool,
    health: Health,
    outputAvailable: bool,
    latched: bv16,
    active: bv16,
    healthScore: nat,
    anomalyScore: nat,
    transitions: nat,
    latches: nat,
    reason: nat)

  /** The controller, its installed adapter, and every callback call made so far. */
  datatype Controller = Controller(s: Status, adapter: Option<nat>, trace: seq<Call>)

  /** How the callbacks answer: the n-th call ever made is accepted iff answers(n). */
  type Answers = nat -> bool

  // ---------------------------------------------------------------- building blocks

  /** A fault mask with more bits set. */
  function With(mask: bv16, bits: bv16): bv16 {
    mask | bits
  }

  /** Some of these bits are set in the mask. */
  predicate Has(mask: bv16, bits: bv16) {
    mask & bits != 0
  }

  /** Some of these bits are not yet in the mask. */
  predicate Adds(mask: bv16, bits: bv16) {
    bits & !mask != 0
  }

  function Increment(n: nat): nat {
    if n == UINT32_MAX then n else n + 1
  }

  function ActionReason(a: Action): nat {
    match a
    case ARM => 1
    case DISARM => 2
    case CLEAR_FAULT => 3
    case UNDEFINED(code) => code
  }

  function To(c: Controller, state: ControlState, reason: nat): Controller {
    if c.s.state == state then c
    else c.(s := c.s.(state := state, transitions := Increment(c.s.transitions), reason := reason))
  }

  /** The live fault mask of the current inputs. */
  function LiveFaults(health: Health, interlock: bool, outputAvailable: bool, latched: bv16): bv16 {
    (if health.UNTRAINED? || health.LEARNING? then FAULT_HEALTH_NOT_READY else 0)
    | (if health.ALARM? then FAULT_HEALTH_ALARM else 0)
    | (if !interlock then FAULT_INTERLOCK_OPEN else 0)
    | (if !outputAvailable then FAULT_OUTPUT_UNAVAILABLE else 0)
    | (latched & FAULT_OUTPUT_FAILURE)
  }

  function ActiveFaults(s: Status): bv16 {
    LiveFaults(s.health, s.interlock, s.outputAvailable, s.latched)
  }

  function Refresh(c: Controller): Controller {
    c.(s := c.s.(active := ActiveFaults(c.s)))
  }

  /** One callback call. */
  function Ask(answers: Answers, c: Controller, permit: bool): (Controller, bool)
    requires c.adapter.Some?
  {
    var accepted := answers(|c.trace|);
    (c.(trace := c.trace + [Call(c.adapter.value, permit, accepted)]), accepted)
  }

  /** Count an episode only if it latches a new bit. */
  function CountLatch(latched: bv16, faults: bv16, latches: nat): nat {
    if Adds(latched, faults) then Increment(latches) else latches
  }

  function MarkLatched(s: Status, faults: bv16): Status {
    s.(latched := With(s.latched, faults), latches := CountLatch(s.latched, faults, s.latches), supervised := false,
       permit := false)
  }

  /** Ask for 0; a refusal is itself latched. */
  function SafeOff(answers: Answers, c: Controller): Controller {
    if c.adapter.None? then c
    else
      var (asked, accepted) := Ask(answers, c, false);
      if accepted then asked else asked.(s := asked.s.(latched := With(asked.s.latched, FAULT_OUTPUT_FAILURE)))
  }

  /** Latch faults and force the logical output safe. */
  function LatchFault(answers: Answers, c: Controller, faults: bv16, reason: nat): Controller {
    Refresh(To(SafeOff(answers, c.(s := MarkLatched(c.s, faults))), FAULT_LATCHED, reason))
  }

  function ApplyOutput(answers: Answers, c: Controller, permit: bool): (Controller, Outcome) {
    if c.adapter.None? then (Refresh(c.(s := c.s.(outputAvailable := false))), ERROR_DENIED)
    else
      var (asked, accepted) := Ask(answers, c, permit);
      if accepted then (asked.(s := asked.s.(permit := permit)), OK)
      else (LatchFault(answers, asked, FAULT_OUTPUT_FAILURE, REASON_OUTPUT_FAILURE), ERROR_OUTPUT)
  }

  function EvaluateLatched(answers: Answers, c: Controller): Controller {
    var (asked, _) := ApplyOutput(answers, c, false);
    var c1 := asked.(s := asked.s.(supervised := false));
    To(c1, FAULT_LATCHED, c1.s.reason)
  }

  function EvaluateDisabled(answers: Answers, c: Controller): Controller {
    if c.adapter.Some? && !Ask(answers, c, false).1
    then LatchFault(answers, Ask(answers, c, false).0, FAULT_OUTPUT_FAILURE, REASON_OUTPUT_FAILURE)
    else
      var c1 := if c.adapter.Some? then Ask(answers, c, false).0 else c;
      var c2 := c1.(s := c1.s.(permit := false));
      To(c2, DISABLED, c2.s.reason)
  }

  function EvaluateSupervised(answers: Answers, c: Controller): Controller {
    if Has(c.s.active, FAULT_INTERLOCK_OPEN) then LatchFault(answers, c, FAULT_INTERLOCK_OPEN, REASON_INTERLOCK)
    else if Has(c.s.active, FAULT_HEALTH_NOT_READY) then
      LatchFault(answers, c, FAULT_HEALTH_NOT_READY, REASON_HEALTH_NOT_READY)
    else if Has(c.s.active, FAULT_HEALTH_ALARM) then LatchFault(answers, c, FAULT_HEALTH_ALARM, REASON_HEALTH_ALARM)
    else
      var (applied, outcome) := ApplyOutput(answers, c, c.s.localRequest);
      if outcome != OK then applied
      else if !c.s.localRequest then To(applied, ARMED, REASON_LOCAL_STOP)
      else if applied.s.health.WARNING? then To(applied, DEGRADED, REASON_HEALTH_WARNING)
      else To(applied, ACTIVE, if applied.s.state.DEGRADED? then REASON_HEALTH_RECOVERED else REASON_LOCAL_RUN)
  }

  /** Re-evaluate the policy after an input changed. */
  function Evaluate(answers: Answers, c: Controller): Controller {
    var c1 := Refresh(c);
    if c1.s.latched != 0 then EvaluateLatched(answers, c1)
    else if !c1.s.supervised then EvaluateDisabled(answers, c1)
    else EvaluateSupervised(answers, c1)
  }

  // ---------------------------------------------------------------- entry points

  const INITIAL := Controller(
    Status(DISABLED, false, false, false, false, UNTRAINED, false, 0,
           FAULT_HEALTH_NOT_READY | FAULT_INTERLOCK_OPEN | FAULT_OUTPUT_UNAVAILABLE, 1000, 0, 0, 0, 0),
    None, [])

  /** `output` is absent when the argument or its callback is missing. */
  function ConfigureOutput(answers: Answers, c: Controller, output: Option<nat>): (Controller, Outcome) {
    if output.None? then (c, ERROR_NULL_ARGUMENT)
    else
      var c1 := c.(adapter := output, s := c.s.(outputAvailable := true));
      var (asked, accepted) := Ask(answers, c1, false);
      if accepted then (Refresh(asked.(s := asked.s.(permit := false))), OK)
      else (LatchFault(answers, asked, FAULT_OUTPUT_FAILURE, REASON_OUTPUT_FAILURE), ERROR_OUTPUT)
  }

  function SetLocalRunRequest(answers: Answers, c: Controller, requested: bool): Controller {
    Evaluate(answers, c.(s := c.s.(localRequest := requested)))
  }

  function SetInterlock(answers: Answers, c: Controller, closed: bool): Controller {
    Evaluate(answers, c.(s := c.s.(interlock := closed)))
  }

  function UpdateHealth(answers: Answers, c: Controller, health: Health, score: nat, anomaly: nat): Controller {
    Evaluate(answers, c.(s := c.s.(health := health, healthScore := score, anomalyScore := anomaly)))
  }

  function Disarm(answers: Answers, c: Controller): (Controller, Outcome) {
    var c1 := c.(s := c.s.(supervised := false));
    if c1.adapter.Some? && !Ask(answers, c1, false).1
    then (LatchFault(answers, Ask(answers, c1, false).0, FAULT_OUTPUT_FAILURE, REASON_OUTPUT_FAILURE), ERROR_OUTPUT)
    else
      var c2 := if c1.adapter.Some? then Ask(answers, c1, false).0 else c1;
      var c3 := c2.(s := c2.s.(permit := false));
      (Refresh(To(c3, if c3.s.latched != 0 then FAULT_LATCHED else DISABLED, ActionReason(DISARM))), OK)
  }

  function ClearFault(answers: Answers, c: Controller): (Controller, Outcome) {
    if c.s.supervised || c.s.localRequest || !c.s.health.READY? || !c.s.interlock || c.adapter.None?
    then (c, ERROR_DENIED)
    else
      var (asked, accepted) := Ask(answers, c, false);
      if !accepted then (LatchFault(answers, asked, FAULT_OUTPUT_FAILURE, REASON_OUTPUT_FAILURE), ERROR_OUTPUT)
      else (Refresh(To(asked.(s := asked.s.(latched := 0, permit := false)), DISABLED, ActionReason(CLEAR_FAULT))), OK)
  }

  function Arm(answers: Answers, c: Controller): (Controller, Outcome) {
    if c.s.latched != 0 || c.s.localRequest || !c.s.health.READY? || !c.s.interlock || c.adapter.None?
    then (c, ERROR_DENIED)
    else
      var (applied, outcome) := ApplyOutput(answers, c, false);
      if outcome != OK then (applied, ERROR_OUTPUT)
      else (Refresh(To(applied.(s := applied.s.(supervised := true)), ARMED, ActionReason(ARM))), OK)
  }

  function Act(answers: Answers, c: Controller, action: Action): (Controller, Outcome) {
    match action
    case DISARM => Disarm(answers, c)
    case CLEAR_FAULT => ClearFault(answers, c)
    case ARM => Arm(answers, c)
    case UNDEFINED(_) => (c, ERROR_DENIED)
  }

  // ---------------------------------------------------------------- unfolding, one level at a time

  lemma MarkUnfolds(s: Status, faults: bv16)
    ensures MarkLatched(s, faults)
      == s.(latched := With(s.latched, faults),
            latches := if Adds(s.latched, faults) then Increment(s.latches) else s.latches,
            supervised := false, permit := false)
  {
    hide With, Adds, Increment;
  }

  lemma SafeOffUnfolds(answers: Answers, c: Controller)
    ensures c.adapter.None? ==> SafeOff(answers, c) == c
    ensures c.adapter.Some? ==>
      SafeOff(answers, c) == (var (asked, accepted) := Ask(answers, c, false);
        if accepted then asked else asked.(s := asked.s.(latched := With(asked.s.latched, FAULT_OUTPUT_FAILURE))))
  {
    hide With, Ask;
  }

  lemma LatchUnfolds(answers: Answers, c: Controller, faults: bv16, reason: nat)
    ensures LatchFault(answers, c, faults, reason)
      == Refresh(To(SafeOff(answers, c.(s := MarkLatched(c.s, faults))), FAULT_LATCHED, reason))
  {
    hide Refresh, To, SafeOff, MarkLatched;
  }

  // ---------------------------------------------------------------- the same, in place

  class GuardianControl {
    const answers: Answers   // the environment: how the callbacks answer
    var s: Status
    var adapter: Option<nat>
    var trace: seq<Call>     // every callback call so far

    ghost function View(): Controller
      reads this
    {
      Controller(s, adapter, trace)
    }

    constructor (answers: Answers)
      ensures View() == INITIAL && this.answers == answers
    {
      this.answers := answers;
      s := Status(DISABLED, false, false, false, false, UNTRAINED, false, 0,
                  FAULT_HEALTH_NOT_READY | FAULT_INTERLOCK_OPEN | FAULT_OUTPUT_UNAVAILABLE, 1000, 0, 0, 0, 0);
      adapter, trace := None, [];
    }

    method Callback(permit: bool) returns (accepted: bool)
      requires adapter.Some?
      modifies this`trace
      ensures (View(), accepted) == Ask(answers, old(View()), permit)
    {
      accepted := answers(|trace|);
      trace := trace + [Call(adapter.value, permit, accepted)];
    }

    method MoveTo(state: ControlState, reason: nat)
      modifies this`s
      ensures View() == To(old(View()), state, reason)
    {
      if s.state != state {
        s := s.(state := state, transitions := Increment(s.transitions), reason := reason);
      }
    }

    method RefreshFaults()
      modifies this`s
      ensures View() == Refresh(old(View()))
    {
      var faults: bv16 := 0;
      if s.health.UNTRAINED? || s.health.LEARNING? {
        faults := faults | FAULT_HEALTH_NOT_READY;
      }
      if s.health.ALARM? {
        faults := faults | FAULT_HEALTH_ALARM;
      }
      if !s.interlock {
        faults := faults | FAULT_INTERLOCK_OPEN;
      }
      if !s.outputAvailable {
        faults := faults | FAULT_OUTPUT_UNAVAILABLE;
      }
      if Has(s.latched, FAULT_OUTPUT_FAILURE) {
        faults := faults | FAULT_OUTPUT_FAILURE;
      }
      s := s.(active := faults);
    }

    method Latch(faults: bv16, reason: nat)
      modifies this`s, this`trace
      ensures View() == LatchFault(answers, old(View()), faults, reason)
    {
      hide LatchFault, MarkLatched, SafeOff, To, Refresh, Ask, With, Adds, Increment;
      LatchUnfolds(answers, Controller(s, adapter, trace), faults, reason);
      var anyNew := Adds(s.latched, faults);
      s := s.(latched := With(s.latched, faults));
      if anyNew {
        s := s.(latches := Increment(s.latches));
      }
      s := s.(supervised := false);
      s := s.(permit := false);
      MarkUnfolds(old(s), faults);
      ghost var c := Controller(s, adapter, trace);
      if adapter.Some? {
        var accepted := Callback(false);
        if !accepted {
          s := s.(latched := With(s.latched, FAULT_OUTPUT_FAILURE));
        }
      }
      SafeOffUnfolds(answers, c);
      assert View() == SafeOff(answers, c);
      MoveTo(FAULT_LATCHED, reason);
      assert View() == To(SafeOff(answers, c), FAULT_LATCHED, reason);
      RefreshFaults();
      assert View() == Refresh(To(SafeOff(answers, c), FAULT_LATCHED, reason));
    }

    method Apply(permit: bool) returns (r: Outcome)
      modifies this`s, this`trace
      ensures (View(), r) == ApplyOutput(answers, old(View()), permit)
    {
      if adapter.None? {
        s := s.(outputAvailable := false);
        RefreshFaults();
        return ERROR_DENIED;
      }
      var accepted := Callback(permit);
      if !accepted {
        Latch(FAULT_OUTPUT_FAILURE, REASON_OUTPUT_FAILURE);
        return ERROR_OUTPUT;
      }
      s := s.(permit := permit);
      r := OK;
    }

    method Reevaluate()
      modifies this`s, this`trace
      ensures View() == Evaluate(answers, old(View()))
    {
      hide LatchFault, ApplyOutput, LiveFaults, With, Has, Adds;
      RefreshFaults();
      if s.latched != 0 {
        var _ := Apply(false);
        s := s.(supervised := false);
        MoveTo(FAULT_LATCHED, s.reason);
        return;
      }
      if !s.supervised {
        if adapter.Some? {
          var accepted := Callback(false);
          if !accepted {
            Latch(FAULT_OUTPUT_FAILURE, REASON_OUTPUT_FAILURE);
            return;
          }
        }
        s := s.(permit := false);
        MoveTo(DISABLED, s.reason);
        return;
      }
      if Has(s.active, FAULT_INTERLOCK_OPEN) {
        Latch(FAULT_INTERLOCK_OPEN, REASON_INTERLOCK);
        return;
      }
      if Has(s.active, FAULT_HEALTH_NOT_READY) {
        Latch(FAULT_HEALTH_NOT_READY, REASON_HEALTH_NOT_READY);
        return;
      }
      if Has(s.active, FAULT_HEALTH_ALARM) {
        Latch(FAULT_HEALTH_ALARM, REASON_HEALTH_ALARM);
        return;
      }
      if !s.localRequest {
        var r := Apply(false);
        if r == OK {
          MoveTo(ARMED, REASON_LOCAL_STOP);
        }
        return;
      }
      var r := Apply(true);
      if r != OK {
        return;
      }
      if s.health.WARNING? {
        MoveTo(DEGRADED, REASON_HEALTH_WARNING);
      } else {
        MoveTo(ACTIVE, if s.state.DEGRADED? then REASON_HEALTH_RECOVERED else REASON_LOCAL_RUN);
      }
    }

    method Configure(output: Option<nat>) returns (r: Outcome)
      modifies this
      ensures (View(), r) == ConfigureOutput(answers, old(View()), output)
    {
      if output.None? {
        return ERROR_NULL_ARGUMENT;
      }
      adapter := output;
      s := s.(outputAvailable := true);
      var accepted := Callback(false);
      if !accepted {
        Latch(FAULT_OUTPUT_FAILURE, REASON_OUTPUT_FAILURE);
        return ERROR_OUTPUT;
      }
      s := s.(permit := false);
      RefreshFaults();
      r := OK;
    }

    method SetRun(requested: bool)
      modifies this`s, this`trace
      ensures View() == SetLocalRunRequest(answers, old(View()), requested)
    {
      s := s.(localRequest := requested);
      Reevaluate();
    }

    method SetLocalInterlock(closed: bool)
      modifies this`s, this`trace
      ensures View() == SetInterlock(answers, old(View()), closed)
    {
      s := s.(interlock := closed);
      Reevaluate();
    }

    method ReportHealth(health: Health, score: nat, anomaly: nat)
      modifies this`s, this`trace
      ensures View() == UpdateHealth(answers, old(View()), health, score, anomaly)
    {
      s := s.(health := health);
      s := s.(healthScore := score);
      s := s.(anomalyScore := anomaly);
      Reevaluate();
    }

    method Execute(action: Action) returns (r: Outcome)
      modifies this`s, this`trace
      ensures (View(), r) == Act(answers, old(View()), action)
    {
      hide LatchFault, ApplyOutput, LiveFaults, With, Has, Adds;
      if action == DISARM {
        s := s.(supervised := false);
        if adapter.Some? {
          var accepted := Callback(false);
          if !accepted {
            Latch(FAULT_OUTPUT_FAILURE, REASON_OUTPUT_FAILURE);
            return ERROR_OUTPUT;
          }
        }
        s := s.(permit := false);
        if s.latched != 0 {
          MoveTo(FAULT_LATCHED, ActionReason(action));
        } else {
          MoveTo(DISABLED, ActionReason(action));
        }
        RefreshFaults();
        return OK;
      }
      if action == CLEAR_FAULT {
        if s.supervised || s.localRequest || !s.health.READY? || !s.interlock || adapter.None? {
          return ERROR_DENIED;
        }
        var accepted := Callback(false);
        if !accepted {
          Latch(FAULT_OUTPUT_FAILURE, REASON_OUTPUT_FAILURE);
          return ERROR_OUTPUT;
        }
        s := s.(latched := 0);
        s := s.(permit := false);
        MoveTo(DISABLED, ActionReason(action));
        RefreshFaults();
        return OK;
      }
      if action == ARM {
        if s.latched != 0 || s.localRequest || !s.health.READY? || !s.interlock || adapter.None? {
          return ERROR_DENIED;
        }
        var applied := Apply(false);
        if applied != OK {
          return ERROR_OUTPUT;
        }
        s := s.(supervised := true);
        MoveTo(ARMED, ActionReason(action));
        RefreshFaults();
        return OK;
      }
      r := ERROR_DENIED;
    }
  }
}
