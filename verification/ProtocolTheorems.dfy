/** What holds after every run of the interleaved system, from empty stores, by callers
    that meet the drivers' demands. */
module ProtocolTheorems {
  import opened Wrappers
  import opened FreshnessState
  import opened Authorization
  import opened F = FreshnessBackend
  import opened Lifecycles
  import opened Protocol
  import opened ProtocolInvariant
  import T = AuthorizationBackend

  // ---------------------------------------------------------------- generations

  /** A later store content never has a lower generation, and the generation identifies
      the content. */
  lemma GenerationsIdentifyStates(es: seq<Event>, more: seq<Event>, id: string, a: State, b: State)
    requires AllowedRun(INIT, es) && AllowedRun(Run(INIT, es), more)
    requires Current(Run(INIT, es), id) == StateValid(a)
    requires Current(Run(Run(INIT, es), more), id) == StateValid(b)
    ensures a.generation <= b.generation
    ensures a.generation == b.generation ==> a == b
  {
    hide Run, AllowedRun, Inv, INIT;
    var sys, sys' := Run(INIT, es), Run(Run(INIT, es), more);
    ReachableInv(es);
    RunKeepsInv(sys, more);
    RunExtends(sys, more);
    StoredIsLast(sys, id);
    StoredIsLast(sys', id);
  }

  lemma StoredIsLast(sys: System, id: string)
    requires Inv(sys)
    ensures FreshLog(sys, id) != [] ==> FreshLog(sys, id)[|FreshLog(sys, id)| - 1].generation == |FreshLog(sys, id)| - 1
  {
    LastGeneration(id, FreshLog(sys, id));
  }

  // ---------------------------------------------------------------- tenures

  /** Two entries of one history: transition sequences never fall, and inside one tenure
      the epochs are fixed and the high-water mark never falls. */
  lemma {:induction false} TenurePair(id: string, log: seq<State>, i: nat, j: nat)
    requires FreshHistory(id, log) && i <= j < |log|
    ensures log[i].transitionSequence <= log[j].transitionSequence
    ensures log[i].transitionSequence == log[j].transitionSequence ==>
      && log[i].currentEpoch == log[j].currentEpoch && log[i].previousEpoch == log[j].previousEpoch
      && (log[i].highestLogicalTime.Some? ==>
        log[j].highestLogicalTime.Some? && log[i].highestLogicalTime.value <= log[j].highestLogicalTime.value)
    decreases j
  {
    if i < j {
      assert FreshEntry(id, log, j);
      TenurePair(id, log, i, j - 1);
    }
  }

  /** In one tenure later accepted times are strictly later. */
  lemma TenureStrict(id: string, log: seq<State>, i: nat, j: nat)
    requires FreshHistory(id, log) && i < j < |log|
    requires log[i].transitionSequence == log[j].transitionSequence && log[i].highestLogicalTime.Some?
    ensures log[j].highestLogicalTime.Some? && log[i].highestLogicalTime.value < log[j].highestLogicalTime.value
  {
    TenurePair(id, log, i, j - 1);
    TenurePair(id, log, i, j);
    TenurePair(id, log, j - 1, j);
    assert FreshEntry(id, log, j);
  }

  /** A logical time committed in the tenure `transitionSequence`. */
  predicate CommittedTime(log: seq<State>, i: int, transitionSequence: int, time: int) {
    0 <= i < |log| && log[i].transitionSequence == transitionSequence && log[i].highestLogicalTime == Some(time)
  }

  /** The one stored number is the maximum of the whole tenure, so the constant-time
      verdict agrees with the full history: candidate means later than every committed
      time, replay means equal to the latest, rollback means earlier than the latest. */
  lemma VerdictAgreesWithHistory(es: seq<Event>, stmt: Statement, s: State)
    requires AllowedRun(INIT, es) && stmt.Valid()
    requires Current(Run(INIT, es), stmt.producerId) == StateValid(s) && stmt.epoch == s.currentEpoch
    ensures var log := FreshLog(Run(INIT, es), stmt.producerId);
      && (Evaluate(Some(s), stmt) == Ok(FRESH_CANDIDATE) <==>
        forall i, t :: CommittedTime(log, i, s.transitionSequence, t) ==> t < stmt.time)
      && (Evaluate(Some(s), stmt) == Ok(REPLAY) <==>
        (exists i :: CommittedTime(log, i, s.transitionSequence, stmt.time))
        && (forall i, t :: CommittedTime(log, i, s.transitionSequence, t) ==> t <= stmt.time))
      && (Evaluate(Some(s), stmt) == Ok(LOGICAL_TIME_ROLLBACK) <==>
        exists i, t :: CommittedTime(log, i, s.transitionSequence, t) && t > stmt.time)
  {
    hide Run, AllowedRun, INIT, FreshStep, TransitionStep;
    var sys := Run(INIT, es);
    var id, log := stmt.producerId, FreshLog(sys, stmt.producerId);
    var last := |log| - 1;
    ReachableInv(es);
    LastGeneration(id, log);
    forall i, t | CommittedTime(log, i, s.transitionSequence, t)
      ensures s.highestLogicalTime.Some? && t <= s.highestLogicalTime.value
    {
      TenurePair(id, log, i, last);
    }
    if s.highestLogicalTime.Some? {
      assert CommittedTime(log, last, s.transitionSequence, s.highestLogicalTime.value);
    }
  }

  // ---------------------------------------------------------------- at most once

  /** No statement is reported FRESH twice in one tenure: two different decisions that
      were both told FRESH for the same producer, epoch and time installed their states
      in different tenures. */
  lemma FreshAtMostOncePerTenure(es: seq<Event>, c: nat, d: nat)
    requires AllowedRun(INIT, es)
    requires var sessions := Run(INIT, es).sessions;
      c in sessions && d in sessions && c != d && sessions[c].FreshDone? && sessions[d].FreshDone?
      && sessions[c].stmt == sessions[d].stmt
    ensures var sessions := Run(INIT, es).sessions;
      sessions[c].write.candidate.transitionSequence != sessions[d].write.candidate.transitionSequence
  {
    hide Run, AllowedRun, INIT, FreshStep, TransitionStep, FreshOk, TxOk;
    ReachableInv(es);
    DistinctDecisions(Run(INIT, es), c, d);
  }

  lemma DistinctDecisions(sys: System, c: nat, d: nat)
    requires Inv(sys) && c in sys.sessions && d in sys.sessions && c != d
    requires sys.sessions[c].FreshDone? && sys.sessions[d].FreshDone? && sys.sessions[c].stmt == sys.sessions[d].stmt
    ensures sys.sessions[c].write.candidate.transitionSequence != sys.sessions[d].write.candidate.transitionSequence
  {
    hide FreshStep, TransitionStep, TxOk, FreshHistory;
    var a, b := sys.sessions[c].write.candidate, sys.sessions[d].write.candidate;
    var id := sys.sessions[c].stmt.producerId;
    var log := FreshLog(sys, id);
    assert SessionOk(sys, sys.sessions[c]) && SessionOk(sys, sys.sessions[d]);
    assert Owns(sys.sessions[c], id, a.generation) && Owns(sys.sessions[d], id, b.generation);
    assert a.generation != b.generation;
    assert FreshHistory(id, log);
    if a.transitionSequence == b.transitionSequence {
      if a.generation < b.generation {
        TenureStrict(id, log, a.generation, b.generation);
      } else {
        TenureStrict(id, log, b.generation, a.generation);
      }
    }
  }

  /** An undisturbed, fault-free decision on a candidate is reported FRESH, and leaves
      the advanced state in the store. */
  lemma UndisturbedCandidateIsFresh(sys: System, c: nat, stmt: Statement, s: State)
    requires Inv(sys) && c !in sys.sessions && Current(sys, stmt.producerId) == StateValid(s)
    requires Evaluate(Some(s), stmt) == Ok(FRESH_CANDIDATE) && s.generation < 0xFFFF_FFFF_FFFF_FFFF
    ensures var sys' :=
      Step(Step(Step(sys, BeginEstablish(c, stmt, false)), CommitFresh(c, NoFault)), VerifyFresh(c, false));
      && c in sys'.sessions && sys'.sessions[c].FreshDone?
      && Current(sys', stmt.producerId) == StateValid(Advance(s, stmt.time))
  {
    hide FreshOk, TxOk, SessionsOk, FreshStep, TransitionStep;
    LastStored(sys, stmt.producerId);
    PreparedIsAdvance(StateValid(s), stmt) by {
      StoredIsValid(sys, stmt.producerId);
    }
    var one := Step(sys, BeginEstablish(c, stmt, false));
    var w := PreparedWrite(stmt.producerId, Some(s), Advance(s, stmt.time));
    assert one == Become(sys, c, FreshPrepared(stmt, w));
    var two := Step(one, CommitFresh(c, NoFault));
    assert FreshLog(two, stmt.producerId) == FreshLog(sys, stmt.producerId) + [w.candidate];
  }

  lemma StoredIsValid(sys: System, id: string)
    requires Inv(sys)
    ensures Current(sys, id).StateValid? ==> Current(sys, id).state.Valid()
  {
    LastGeneration(id, FreshLog(sys, id));
  }

  // ---------------------------------------------------------------- superseded epochs

  /** From the moment a transition is stored until the next one, through any number of
      accepted statements, every statement of the superseded epoch is an epoch rollback. */
  lemma SupersededEpochRollsBack(es: seq<Event>, id: string, i: nat, j: nat, stmt: Statement)
    requires AllowedRun(INIT, es)
    requires var log := FreshLog(Run(INIT, es), id);
      i + 1 <= j < |log| && TransitionStep(log[i], log[i + 1])
      && log[j].transitionSequence == log[i + 1].transitionSequence
      && stmt.Valid() && stmt.producerId == id && stmt.epoch == log[i].currentEpoch
    ensures Evaluate(Some(FreshLog(Run(INIT, es), id)[j]), stmt) == Ok(EPOCH_ROLLBACK)
  {
    hide Run, AllowedRun, INIT, FreshStep;
    ReachableInv(es);
    var log := FreshLog(Run(INIT, es), id);
    assert FreshHistory(id, log);
    TenurePair(id, log, i + 1, j);
    assert FreshEntry(id, log, j) && FreshEntry(id, log, i + 1);
  }

  // ---------------------------------------------------------------- transactions

  /** In every scope the committed generations are exactly 0, 1, 2, ..., the consumed
      authorization sequences strictly increase, and a bootstrap scope is committed once. */
  lemma CommittedTransactions(es: seq<Event>, scope: Scope, i: nat, j: nat)
    requires AllowedRun(INIT, es) && i <= j < |TxLog(Run(INIT, es), scope)|
    ensures var log := TxLog(Run(INIT, es), scope);
      && log[j].generation == j
      && (i < j ==> log[i].sequence < log[j].sequence && log[i].generation != log[j].generation)
      && (scope.purposeDomain == BOOTSTRAP_AUTHORITY ==> |log| == 1)
  {
    hide Run, AllowedRun, INIT;
    ReachableInv(es);
    var log := TxLog(Run(INIT, es), scope);
    assert TxHistory(scope, log);
    SequencesRise(scope, log, i, j);
    assert TxEntry(scope, log, j) && TxEntry(scope, log, |log| - 1);
    assert BOOTSTRAP_AUTHORITY != EPOCH_TRANSITION_AUTHORITY;
  }

  lemma {:induction false} SequencesRise(scope: Scope, log: seq<Transaction>, i: nat, j: nat)
    requires TxHistory(scope, log) && i <= j < |log|
    ensures log[i].sequence <= log[j].sequence && (i < j ==> log[i].sequence < log[j].sequence)
    ensures log[i].generation == i && log[j].generation == j
    decreases j
  {
    assert TxEntry(scope, log, j);
    if i < j {
      SequencesRise(scope, log, i, j - 1);
    }
  }

  // ---------------------------------------------------------------- agreement of the two stores

  /** Every stored freshness state is an accepted statement's successor of the entry
      before it, or the resulting state of a transaction that was already committed;
      this holds at every point of every run, hence wherever sessions crashed. */
  lemma EveryEntryIsAccountedFor(es: seq<Event>, id: string, i: nat)
    requires AllowedRun(INIT, es) && i < |FreshLog(Run(INIT, es), id)|
    ensures var sys := Run(INIT, es); var log := FreshLog(sys, id);
      (i > 0 && FreshStep(log[i - 1], log[i])) || exists t: Transaction :: InTx(sys, t) && t.freshness == log[i]
  {
    hide Run, AllowedRun, INIT, FreshStep;
    ReachableInv(es);
    assert Justified(Run(INIT, es), id, i);
  }

  /** When a lifecycle or a re-run reconciliation reports success, its transaction is
      committed and the freshness store holds exactly its resulting state. */
  lemma SuccessMeansProjected(es: seq<Event>, e: Event, t: Transaction)
    requires AllowedRun(INIT, es) && Allowed(Run(INIT, es), e)
    requires var sys := Run(INIT, es); var sys' := Step(sys, e);
      && (e.c in sys'.sessions && sys'.sessions[e.c] == Projected(t))
      && !(e.c in sys.sessions && sys.sessions[e.c] == Projected(t))
    ensures var sys' := Step(Run(INIT, es), e);
      InTx(sys', t) && Current(sys', t.freshness.producerId) == StateValid(t.freshness)
  {
    hide Run, AllowedRun, INIT, Inv, InTx;
    ReachableInv(es);
    ReportStep(Run(INIT, es), e, t);
  }

  lemma ReportStep(sys: System, e: Event, t: Transaction)
    requires Inv(sys) && Allowed(sys, e)
    requires var sys' := Step(sys, e);
      && (e.c in sys'.sessions && sys'.sessions[e.c] == Projected(t))
      && !(e.c in sys.sessions && sys.sessions[e.c] == Projected(t))
    ensures InTx(Step(sys, e), t) && Current(Step(sys, e), t.freshness.producerId) == StateValid(t.freshness)
  {
    hide Inv, InTx, AfterLoad, BootstrapGates, TransitionGates, EvaluateReplay, SessionOk;
    StepKeepsInv(sys, e);
    ProjectedIsInTx(Step(sys, e), e.c, t);
    if e.VerifyProjection? || e.LoadProjection? {
      CommittedProjection(sys, e.c);
    }
  }

  lemma ProjectedIsInTx(sys: System, c: nat, t: Transaction)
    requires Inv(sys) && c in sys.sessions && sys.sessions[c] == Projected(t)
    ensures InTx(sys, t)
  {
    hide FreshOk, TxOk;
    assert SessionOk(sys, sys.sessions[c]);
  }

  lemma CommittedProjection(sys: System, c: nat)
    requires Inv(sys) && c in sys.sessions
    ensures sys.sessions[c].ProjectionCommitted? ==>
      && sys.sessions[c].write.candidate == sys.sessions[c].transaction.freshness
      && sys.sessions[c].write.producerId == sys.sessions[c].transaction.freshness.producerId
  {
    hide FreshOk, TxOk;
    assert SessionOk(sys, sys.sessions[c]);
  }

  // ---------------------------------------------------------------- what the transaction store's comparison costs

  /** Two consecutive transactions of one scope grant adjacent freshness states.  So once
      both are projected, nothing was accepted in the tenure between them: after an
      accepted statement, the same authority cannot take the producer to another epoch. */
  lemma ConsecutiveGrantsAreAdjacent(es: seq<Event>, scope: Scope, k: nat)
    requires AllowedRun(INIT, es) && 0 < k < |TxLog(Run(INIT, es), scope)|
    requires InFresh(Run(INIT, es), TxLog(Run(INIT, es), scope)[k].freshness)
    ensures var sys := Run(INIT, es);
      var earlier, later := TxLog(sys, scope)[k - 1].freshness, TxLog(sys, scope)[k].freshness;
      && later.generation == earlier.generation + 1
      && InFresh(sys, earlier) && earlier.highestLogicalTime == None
  {
    hide Run, AllowedRun, INIT, FreshStep;
    ReachableInv(es);
    AdjacentGrants(Run(INIT, es), scope, k);
  }

  lemma AdjacentGrants(sys: System, scope: Scope, k: nat)
    requires Inv(sys) && 0 < k < |TxLog(sys, scope)| && InFresh(sys, TxLog(sys, scope)[k].freshness)
    ensures var earlier, later := TxLog(sys, scope)[k - 1].freshness, TxLog(sys, scope)[k].freshness;
      && later.generation == earlier.generation + 1
      && InFresh(sys, earlier) && earlier.highestLogicalTime == None
  {
    hide Initial;
    var a, b := TxLog(sys, scope)[k - 1].freshness, TxLog(sys, scope)[k].freshness;
    var log := FreshLog(sys, b.producerId);
    TransactionIsInTx(sys, scope, k - 1);
    TransactionIsInTx(sys, scope, k);
    assert TxHistory(scope, TxLog(sys, scope));
    assert TxEntry(scope, TxLog(sys, scope), k) && TxEntry(scope, TxLog(sys, scope), k - 1);
    assert TransitionStep(a, b) && b.generation > 0;
    assert FreshHistory(b.producerId, log);
    assert FreshEntry(b.producerId, log, b.generation - 1);
    GrantedTransition(sys, scope, k - 1);
    assert Grantable(log, a) && Grantable(log, b);
    var before := log[b.generation - 1];
    assert TransitionStep(before, b) && a.generation == before.generation;
    assert before.currentEpoch == a.currentEpoch && before.transitionSequence == a.transitionSequence;
    assert a.generation > 0 && TransitionStep(log[a.generation - 1], a);
    assert TransitionStep(log[a.generation - 1], before);
    assert before == a;
  }

  /** A transaction of a scope that later holds a transition grants a transition itself. */
  lemma GrantedTransition(sys: System, scope: Scope, k: nat)
    requires Inv(sys) && k + 1 < |TxLog(sys, scope)|
    ensures TxLog(sys, scope)[k].freshness.generation > 0
  {
    var log := TxLog(sys, scope);
    assert TxHistory(scope, log) && TxEntry(scope, log, k) && TxEntry(scope, log, k + 1);
    assert log[k + 1].operation == EpochTransitionOperation;
    assert BOOTSTRAP_AUTHORITY != EPOCH_TRANSITION_AUTHORITY;
  }

  /** Callers that always pass a previous transaction generation to a transition, as the
      annotation of that parameter says. */
  predicate AlwaysWithGeneration(es: seq<Event>) {
    forall i :: 0 <= i < |es| && es[i].BeginTransition? ==> es[i].previousGeneration.Some?
  }

  ghost predicate BootstrapOnly(sys: System) {
    && (forall t :: InTx(sys, t) ==> t.operation == BootstrapOperation)
    && (forall scope :: TxLog(sys, scope) != [] ==> scope.purposeDomain == BOOTSTRAP_AUTHORITY)
    && (forall c :: c in sys.sessions ==> BootstrapSession(sys.sessions[c]))
  }

  /** With such callers no epoch transition is ever committed over the host store, from
      empty stores: the first one in its scope has no generation to name. */
  lemma WithGenerationNoTransition(es: seq<Event>, id: string, i: nat)
    requires AllowedRun(INIT, es) && AlwaysWithGeneration(es) && i < |FreshLog(Run(INIT, es), id)|
    ensures FreshLog(Run(INIT, es), id)[i].transitionSequence == 0
    ensures forall t :: InTx(Run(INIT, es), t) ==> t.operation == BootstrapOperation
  {
    hide Run, AllowedRun;
    InitIsInv();
    RunBootstrapOnly(INIT, es);
    ReachableInv(es);
    NoTransitions(Run(INIT, es), id, i);
  }

  lemma {:induction false} NoTransitions(sys: System, id: string, i: nat)
    requires Inv(sys) && BootstrapOnly(sys) && i < |FreshLog(sys, id)|
    ensures FreshLog(sys, id)[i].transitionSequence == 0
  {
    var log := FreshLog(sys, id);
    assert FreshHistory(id, log) && FreshEntry(id, log, i) && Justified(sys, id, i);
    if i > 0 {
      NoTransitions(sys, id, i - 1);
      if !FreshStep(log[i - 1], log[i]) {
        var t :| InTx(sys, t) && t.freshness == log[i];
        TransactionIsValid(sys, t);
      }
    }
  }

  lemma {:induction false} RunBootstrapOnly(sys: System, es: seq<Event>)
    requires Inv(sys) && BootstrapOnly(sys) && AllowedRun(sys, es) && AlwaysWithGeneration(es)
    ensures BootstrapOnly(Run(sys, es))
    decreases |es|
  {
    hide Inv, BootstrapOnly, Step, Allowed;
    if es != [] {
      StepKeepsInv(sys, es[0]);
      StepBootstrapOnly(sys, es[0]);
      assert forall i :: 0 <= i < |es[1..]| ==> es[1..][i] == es[i + 1];
      RunBootstrapOnly(Step(sys, es[0]), es[1..]);
    }
  }

  lemma StepBootstrapOnly(sys: System, e: Event)
    requires Inv(sys) && BootstrapOnly(sys) && Allowed(sys, e)
    requires e.BeginTransition? ==> e.previousGeneration.Some?
    ensures BootstrapOnly(Step(sys, e))
  {
    hide Inv, Step, BootstrapOnly;
    if e.CommitTx? && e.c in sys.sessions && sys.sessions[e.c].TxPrepared? {
      CommitStepIs(sys, e);
      CommitBootstrapOnly(sys, e.c, sys.sessions[e.c].prepared, e.fault);
    } else {
      OtherStep(sys, e);
      SameTransactions(sys, Step(sys, e), e.c);
    }
  }

  lemma CommitStepIs(sys: System, e: Event)
    requires e.CommitTx? && e.c in sys.sessions && sys.sessions[e.c].TxPrepared?
    ensures Step(sys, e) == CommitTransaction(sys, e.c, sys.sessions[e.c].prepared, e.fault)
  {
    hide CommitTransaction;
  }

  predicate BootstrapSession(s: Session) {
    s.TxPrepared? ==> s.prepared.candidate.operation == BootstrapOperation || s.prepared.previousGeneration.Some?
  }

  /** Any other step leaves the transactions alone and changes one session. */
  lemma OtherStep(sys: System, e: Event)
    requires Allowed(sys, e) && (e.BeginTransition? ==> e.previousGeneration.Some?)
    requires !(e.CommitTx? && e.c in sys.sessions && sys.sessions[e.c].TxPrepared?)
    ensures var sys' := Step(sys, e);
      && sys'.tx == sys.tx
      && (forall c :: c in sys'.sessions && c != e.c ==> c in sys.sessions && sys'.sessions[c] == sys.sessions[c])
      && (e.c in sys'.sessions ==>
            BootstrapSession(sys'.sessions[e.c]) || (e.c in sys.sessions && sys'.sessions[e.c] == sys.sessions[e.c]))
  {
    hide AfterLoad, EvaluateReplay, BootstrapGates, TransitionGates, ReconcileAfterLoad, CommitEffect, T.CommitEffect,
      VerifyResult, T.VerifyResult;
    if e.BeginBootstrap? {
      BootstrapOperationOf(e);
    } else if e.BeginTransition? {
      TransitionGenerationOf(e);
    }
  }

  lemma SameTransactions(sys: System, sys': System, c: nat)
    requires BootstrapOnly(sys) && sys'.tx == sys.tx
    requires forall d :: d in sys'.sessions && d != c ==> d in sys.sessions && sys'.sessions[d] == sys.sessions[d]
    requires c in sys'.sessions ==>
      BootstrapSession(sys'.sessions[c]) || (c in sys.sessions && sys'.sessions[c] == sys.sessions[c])
    ensures BootstrapOnly(sys')
  {
    assert forall scope :: TxLog(sys', scope) == TxLog(sys, scope);
    assert forall t :: InTx(sys', t) == InTx(sys, t);
  }

  lemma BootstrapOperationOf(e: Event)
    requires e.BeginBootstrap? && e.grant.Valid()
    ensures var gates :=
      BootstrapGates(e.ordinary, e.trigger, Some(e.grant), EvaluateReplay(Some(e.grant), e.previousReplay, e.scopes),
                     e.previousReplay);
      gates.Ok? ==> gates.value.candidate.operation == BootstrapOperation
  {
  }

  lemma TransitionGenerationOf(e: Event)
    requires e.BeginTransition? && e.grant.Valid()
    ensures var gates :=
      TransitionGates(e.ordinary, e.trigger, Some(e.grant), EvaluateReplay(Some(e.grant), e.previousReplay, e.scopes),
                                         e.previousReplay, e.previous, e.previousGeneration);
      gates.Ok? ==> gates.value.previousGeneration == e.previousGeneration
  {
  }

  lemma CommitBootstrapOnly(sys: System, c: nat, p: Prepared, fault: CommitFault)
    requires Inv(sys) && BootstrapOnly(sys) && c in sys.sessions && sys.sessions[c] == TxPrepared(p)
    ensures BootstrapOnly(CommitTransaction(sys, c, p, fault))
  {
    hide FreshOk, FreshStep, TransitionStep, Initial;
    var scope, log := p.candidate.scope, TxLog(sys, p.candidate.scope);
    var sys' := CommitTransaction(sys, c, p, fault);
    assert SessionOk(sys, sys.sessions[c]);
    assert BOOTSTRAP_AUTHORITY != EPOCH_TRANSITION_AUTHORITY;
    if T.Accepts(CurrentTx(sys, scope), p) {
      assert p.candidate.operation == BootstrapOperation;
    }
    forall t | InTx(sys', t) ensures t.operation == BootstrapOperation {
      if TxLog(sys', t.scope) == TxLog(sys, t.scope) {
        assert InTx(sys, t);
      } else {
        assert t == p.candidate || InTx(sys, t);
      }
    }
  }
}
