/** When a statement already told FRESH can be told FRESH again: the exact condition for
    every run, and a run in which it happens, every trigger and every argument of which is
    what the stores held. */
module ReenteredEpochs {
  import opened Wrappers
  import opened FreshnessState
  import opened Authorization
  import opened F = FreshnessBackend
  import opened Lifecycles
  import opened Protocol
  import opened ProtocolInvariant
  import opened ProtocolTheorems
  import T = AuthorizationBackend
  import Decimal

  // ---------------------------------------------------------------- exactly when

  /** The producer is back in the statement's epoch, in another tenure than the one in which
      `candidate` was installed, and nothing as late has been accepted there. */
  predicate BackInLaterTenure(s: State, stmt: Statement, candidate: State) {
    && s.currentEpoch == stmt.epoch
    && s.transitionSequence != candidate.transitionSequence
    && (s.highestLogicalTime.None? || s.highestLogicalTime.value < stmt.time)
  }

  /** In every run, a statement that was told FRESH is a candidate again exactly when the
      producer is back in its epoch, in a later tenure, with nothing as late accepted there. */
  lemma FreshAgainIff(es: seq<Event>, d: nat, s: State)
    requires AllowedRun(INIT, es)
    requires d in Run(INIT, es).sessions && Run(INIT, es).sessions[d].FreshDone?
    requires Current(Run(INIT, es), Run(INIT, es).sessions[d].stmt.producerId) == StateValid(s)
    ensures var session := Run(INIT, es).sessions[d];
      Evaluate(Some(s), session.stmt) == Ok(FRESH_CANDIDATE) <==>
        BackInLaterTenure(s, session.stmt, session.write.candidate)
  {
    hide Run;
    ReachableInv(es);
    FreshAgain(Run(INIT, es), d, s);
  }

  lemma FreshAgain(sys: System, d: nat, s: State)
    requires Inv(sys) && d in sys.sessions && sys.sessions[d].FreshDone?
    requires Current(sys, sys.sessions[d].stmt.producerId) == StateValid(s)
    ensures var session := sys.sessions[d];
      Evaluate(Some(s), session.stmt) == Ok(FRESH_CANDIDATE) <==>
        BackInLaterTenure(s, session.stmt, session.write.candidate)
  {
    var stmt, w := sys.sessions[d].stmt, sys.sessions[d].write;
    var log := FreshLog(sys, stmt.producerId);
    assert SessionOk(sys, sys.sessions[d]);
    assert FreshHistory(stmt.producerId, log);
    LastGeneration(stmt.producerId, log);
    StoredIsValid(sys, stmt.producerId);
    TenurePair(stmt.producerId, log, w.candidate.generation, |log| - 1);
  }

  /** The way back is never direct: right after leaving an epoch its statements are epoch
      rollbacks, which trigger no transition, whatever the authorization. */
  lemma DirectReturnIsRefused(s: State, away: State, stmt: Statement, ordinary: bool, trigger: Outcome,
                              authenticated: Authenticated, replay: ReplayOutcome, previousReplay: Option<ReplayState>,
                              previous: State, previousGeneration: Option<int>)
    requires TransitionStep(s, away) && stmt.Valid() && stmt.producerId == s.producerId && stmt.epoch == s.currentEpoch
    requires AfterLoad(StateValid(away), stmt) == Err(trigger.code)
    ensures trigger.code == OUT_EPOCH_ROLLBACK
    ensures TransitionGates(ordinary, trigger, authenticated, replay, previousReplay, previous, previousGeneration)
      == Err(if ordinary then TRIGGER_REQUIRED else ORDINARY_AUTHENTICATION_REQUIRED)
  {
  }

  // ---------------------------------------------------------------- runs by callers who read the stores

  function StoredTransaction(sys: System, scope: Scope): Option<Transaction> {
    var log := TxLog(sys, scope);
    if log == [] then None else Some(log[|log| - 1])
  }

  /** The caller's arguments are what the stores hold: the trigger is the outcome of a
      freshness decision on its statement, the previous states are the stored ones. */
  predicate Genuine(sys: System, e: Event) {
    match e
    case BeginBootstrap(_, _, trigger, o, previousReplay, _) =>
      && TriggerIsCurrent(sys, trigger)
      && ReplayIsStored(sys, o, previousReplay)
    case BeginTransition(_, _, trigger, o, previousReplay, _, previous, previousGeneration) =>
      && TriggerIsCurrent(sys, trigger)
      && ReplayIsStored(sys, o, previousReplay)
      && GenerationIsStored(sys, o, previousGeneration)
      && Current(sys, o.producerId) == StateValid(previous)
    case _ => true
  }

  predicate TriggerIsCurrent(sys: System, trigger: Outcome) {
    && trigger.statement.Valid()
    && AfterLoad(Current(sys, trigger.statement.producerId), trigger.statement) == Err(trigger.code)
  }

  predicate ReplayIsStored(sys: System, o: Object, previousReplay: Option<ReplayState>) {
    previousReplay ==
      match StoredTransaction(sys, ScopeOf(o))
      case None => None
      case Some(t) => Some(t.replayState)
  }

  predicate GenerationIsStored(sys: System, o: Object, previousGeneration: Option<int>) {
    previousGeneration ==
      match StoredTransaction(sys, ScopeOf(o))
      case None => None
      case Some(t) => Some(t.generation)
  }

  predicate GenuineRun(sys: System, es: seq<Event>)
    decreases |es|
  {
    es == [] || (Allowed(sys, es[0]) && Genuine(sys, es[0]) && GenuineRun(Step(sys, es[0]), es[1..]))
  }

  lemma {:induction false} GenuineIsAllowed(sys: System, es: seq<Event>)
    requires GenuineRun(sys, es)
    ensures AllowedRun(sys, es)
    decreases |es|
  {
    hide Step, Allowed, Genuine;
    if es != [] {
      GenuineIsAllowed(Step(sys, es[0]), es[1..]);
    }
  }

  lemma {:induction false} RunsCompose(sys: System, a: seq<Event>, b: seq<Event>)
    requires GenuineRun(sys, a) && GenuineRun(Run(sys, a), b)
    ensures GenuineRun(sys, a + b) && Run(sys, a + b) == Run(Run(sys, a), b)
    decreases |a|
  {
    hide Step, Allowed, Genuine;
    if a == [] {
      assert a + b == b;
    } else {
      RunsCompose(Step(sys, a[0]), a[1..], b);
      assert (a + b)[0] == a[0] && (a + b)[1..] == a[1..] + b;
    }
  }

  lemma {:induction false} OneMore(sys: System, es: seq<Event>, e: Event)
    requires GenuineRun(sys, es) && Allowed(Run(sys, es), e) && Genuine(Run(sys, es), e)
    ensures GenuineRun(sys, es + [e]) && Run(sys, es + [e]) == Step(Run(sys, es), e)
  {
    hide Step, Allowed, Genuine;
    var last := Run(sys, es);
    assert [e][0] == e && [e][1..] == [];
    assert Run(Step(last, e), []) == Step(last, e) && GenuineRun(Step(last, e), []);
    assert GenuineRun(last, [e]) && Run(last, [e]) == Step(last, e);
    RunsCompose(sys, es, [e]);
  }

  // ---------------------------------------------------------------- undisturbed sessions

  /** The six calls of a lifecycle, nothing failing. */
  function LifecycleEvents(begin: Event): seq<Event> {
    [begin, CommitTx(begin.c, NoFault), VerifyTx(begin.c, false),
     LoadProjection(begin.c, false), CommitProjection(begin.c, NoFault), VerifyProjection(begin.c, false)]
  }

  function EstablishEvents(c: nat, stmt: Statement): seq<Event> {
    [BeginEstablish(c, stmt, false), CommitFresh(c, NoFault), VerifyFresh(c, false)]
  }

  function WithState(sys: System, s: State): System {
    sys.(states := sys.states[s.producerId := FreshLog(sys, s.producerId) + [s]])
  }

  function WithTransaction(sys: System, t: Transaction): System {
    sys.(tx := sys.tx[t.scope := TxLog(sys, t.scope) + [t]])
  }

  /** Both stores after a transaction was committed and projected by session c. */
  function Installed(sys: System, c: nat, t: Transaction): System {
    Become(WithState(WithTransaction(sys, t), t.freshness), c, Projected(t))
  }

  lemma CommitTxStep(sys: System, c: nat, p: Prepared)
    requires
      && T.Accepts(CurrentTx(sys, p.candidate.scope), p)
      && CurrentTx(sys, p.candidate.scope) != T.StateValid(p.candidate)
    ensures Step(Become(sys, c, TxPrepared(p)), CommitTx(c, NoFault))
      == Become(WithTransaction(sys, p.candidate), c, TxCommitted(p))
    ensures CurrentTx(WithTransaction(sys, p.candidate), p.candidate.scope) == T.StateValid(p.candidate)
  {
    hide T.Accepts;
    assert CurrentTx(Become(sys, c, TxPrepared(p)), p.candidate.scope) == CurrentTx(sys, p.candidate.scope);
  }

  lemma VerifyTxStep(sys: System, c: nat, p: Prepared)
    requires CurrentTx(sys, p.candidate.scope) == T.StateValid(p.candidate)
    ensures Step(Become(sys, c, TxCommitted(p)), VerifyTx(c, false)) == Become(sys, c, TxVerified(p.candidate))
  {
    assert CurrentTx(Become(sys, c, TxCommitted(p)), p.candidate.scope) == CurrentTx(sys, p.candidate.scope);
  }

  /** Nothing is projected yet, or something older. */
  predicate Behind(stored: LoadResult, target: State) {
    stored.NotEstablished? || (stored.StateValid? && stored.state.generation < target.generation)
  }

  function ProjectionOf(sys: System, t: Transaction): PreparedWrite {
    var stored := Current(sys, t.freshness.producerId);
    PreparedWrite(t.freshness.producerId, if stored.StateValid? then Some(stored.state) else None, t.freshness)
  }

  lemma LoadProjectionStep(sys: System, c: nat, t: Transaction)
    requires Behind(Current(sys, t.freshness.producerId), t.freshness)
    ensures Step(Become(sys, c, TxVerified(t)), LoadProjection(c, false))
      == Become(sys, c, ProjectionPrepared(t, ProjectionOf(sys, t)))
  {
    assert Current(Become(sys, c, TxVerified(t)), t.freshness.producerId) == Current(sys, t.freshness.producerId);
  }

  /** One accepted commit into the freshness store. */
  lemma CommitWriteStep(sys: System, c: nat, w: PreparedWrite, before: Session, after: Session)
    requires w.producerId == w.candidate.producerId && Accepts(Current(sys, w.producerId), w.previous)
    requires w.previous != Some(w.candidate)
    ensures CommitWrite(Become(sys, c, before), c, w, NoFault, after) == Become(WithState(sys, w.candidate), c, after)
    ensures Current(WithState(sys, w.candidate), w.producerId) == StateValid(w.candidate)
  {
    assert Current(Become(sys, c, before), w.producerId) == Current(sys, w.producerId);
  }

  lemma CommitProjectionStep(sys: System, c: nat, t: Transaction)
    requires Behind(Current(sys, t.freshness.producerId), t.freshness)
    ensures Step(Become(sys, c, ProjectionPrepared(t, ProjectionOf(sys, t))), CommitProjection(c, NoFault))
      == Become(WithState(sys, t.freshness), c, ProjectionCommitted(t, ProjectionOf(sys, t)))
    ensures Current(WithState(sys, t.freshness), t.freshness.producerId) == StateValid(t.freshness)
  {
    hide CommitWrite;
    var w := ProjectionOf(sys, t);
    CommitWriteStep(sys, c, w, ProjectionPrepared(t, w), ProjectionCommitted(t, w));
  }

  lemma VerifyProjectionStep(sys: System, c: nat, t: Transaction, w: PreparedWrite)
    requires Current(sys, t.freshness.producerId) == StateValid(t.freshness)
    requires w.producerId == t.freshness.producerId && w.candidate == t.freshness
    ensures Step(Become(sys, c, ProjectionCommitted(t, w)), VerifyProjection(c, false)) == Become(sys, c, Projected(t))
  {
    assert Current(Become(sys, c, ProjectionCommitted(t, w)), t.freshness.producerId)
      == Current(sys, t.freshness.producerId);
  }

  /** Events whose callers have nothing to answer for. */
  predicate Unconditional(e: Event) {
    !e.BeginBootstrap? && !e.BeginTransition?
  }

  lemma ThreeEvents(sys: System, e: Event, f: Event, g: Event)
    requires Allowed(sys, e) && Genuine(sys, e) && Unconditional(f) && Unconditional(g)
    ensures GenuineRun(sys, [e, f, g]) && Run(sys, [e, f, g]) == Step(Step(Step(sys, e), f), g)
  {
    var s1, s2 := Step(sys, e), Step(Step(sys, e), f);
    assert Allowed(s1, f) && Genuine(s1, f) && Allowed(s2, g) && Genuine(s2, g);
    hide Step, Allowed, Genuine;
    assert GenuineRun(sys, []) && Run(sys, []) == sys;
    OneMore(sys, [], e);
    OneMore(sys, [] + [e], f);
    OneMore(sys, [] + [e] + [f], g);
    assert [] + [e] + [f] + [g] == [e, f, g];
  }

  /** A prepared lifecycle whose comparisons succeed installs its transaction. */
  lemma LifecycleGoesThrough(sys: System, begin: Event, p: Prepared)
    requires Allowed(sys, begin) && Genuine(sys, begin)
    requires Step(sys, begin) == Become(sys, begin.c, TxPrepared(p))
    requires
      && T.Accepts(CurrentTx(sys, p.candidate.scope), p)
      && CurrentTx(sys, p.candidate.scope) != T.StateValid(p.candidate)
    requires Behind(Current(sys, p.candidate.freshness.producerId), p.candidate.freshness)
    ensures
      && GenuineRun(sys, LifecycleEvents(begin))
      && Run(sys, LifecycleEvents(begin)) == Installed(sys, begin.c, p.candidate)
  {
    var c, t := begin.c, p.candidate;
    var committed := WithTransaction(sys, t);
    assert Current(committed, t.freshness.producerId) == Current(sys, t.freshness.producerId);
    var first := [begin, CommitTx(c, NoFault), VerifyTx(c, false)];
    var second := [LoadProjection(c, false), CommitProjection(c, NoFault), VerifyProjection(c, false)];
    assert first + second == LifecycleEvents(begin);
    hide *;
    ThreeEvents(sys, begin, CommitTx(c, NoFault), VerifyTx(c, false));
    CommitTxStep(sys, c, p);
    VerifyTxStep(committed, c, p);
    ProjectionGoesThrough(committed, c, t);
    RunsCompose(sys, first, second);
  }

  /** Reconciliation of a committed transaction over an older record, nothing failing. */
  lemma ProjectionGoesThrough(sys: System, c: nat, t: Transaction)
    requires Behind(Current(sys, t.freshness.producerId), t.freshness)
    ensures var es := [LoadProjection(c, false), CommitProjection(c, NoFault), VerifyProjection(c, false)];
      && GenuineRun(Become(sys, c, TxVerified(t)), es)
      && Run(Become(sys, c, TxVerified(t)), es) == Become(WithState(sys, t.freshness), c, Projected(t))
  {
    var w := ProjectionOf(sys, t);
    assert w.producerId == t.freshness.producerId && w.candidate == t.freshness;
    var start, e := Become(sys, c, TxVerified(t)), LoadProjection(c, false);
    assert Allowed(start, e) && Genuine(start, e);
    hide Step, Allowed, Genuine, Become, WithState, Current, ProjectionOf, Behind;
    ThreeEvents(start, e, CommitProjection(c, NoFault), VerifyProjection(c, false));
    LoadProjectionStep(sys, c, t);
    CommitProjectionStep(sys, c, t);
    VerifyProjectionStep(WithState(sys, t.freshness), c, t, w);
  }

  /** A freshness decision on a candidate, nothing failing. */
  lemma DecisionGoesThrough(sys: System, c: nat, stmt: Statement, s: State) returns (w: PreparedWrite)
    requires Inv(sys) && c !in sys.sessions && Current(sys, stmt.producerId) == StateValid(s)
    requires Evaluate(Some(s), stmt) == Ok(FRESH_CANDIDATE) && s.generation < 0xFFFF_FFFF_FFFF_FFFF
    ensures GenuineRun(sys, EstablishEvents(c, stmt))
    ensures w.candidate == Advance(s, stmt.time)
    ensures Run(sys, EstablishEvents(c, stmt)) == Become(WithState(sys, Advance(s, stmt.time)), c, FreshDone(stmt, w))
  {
    w := PreparedWrite(stmt.producerId, Some(s), Advance(s, stmt.time));
    var e := BeginEstablish(c, stmt, false);
    assert Allowed(sys, e) && Genuine(sys, e);
    ThreeEvents(sys, e, CommitFresh(c, NoFault), VerifyFresh(c, false));
    BeginEstablishStep(sys, c, stmt, s, w);
    FreshSteps(sys, c, stmt, s, w);
  }

  lemma BeginEstablishStep(sys: System, c: nat, stmt: Statement, s: State, w: PreparedWrite)
    requires Inv(sys) && c !in sys.sessions && Current(sys, stmt.producerId) == StateValid(s)
    requires Evaluate(Some(s), stmt) == Ok(FRESH_CANDIDATE) && s.generation < 0xFFFF_FFFF_FFFF_FFFF
    requires w == PreparedWrite(stmt.producerId, Some(s), Advance(s, stmt.time))
    ensures Step(sys, BeginEstablish(c, stmt, false)) == Become(sys, c, FreshPrepared(stmt, w))
    ensures w.candidate.producerId == stmt.producerId && s.producerId == stmt.producerId
  {
    hide Inv;
    StoredIsValid(sys, stmt.producerId);
  }

  lemma FreshSteps(sys: System, c: nat, stmt: Statement, s: State, w: PreparedWrite)
    requires
      && Current(sys, stmt.producerId) == StateValid(s)
      && w == PreparedWrite(stmt.producerId, Some(s), Advance(s, stmt.time))
    requires w.candidate.producerId == stmt.producerId
    ensures Step(Step(Become(sys, c, FreshPrepared(stmt, w)), CommitFresh(c, NoFault)), VerifyFresh(c, false))
      == Become(WithState(sys, w.candidate), c, FreshDone(stmt, w))
  {
    assert w.candidate != s;
    hide Advance;
    CommitWriteStep(sys, c, w, FreshPrepared(stmt, w), FreshCommitted(stmt, w));
    var after := Become(WithState(sys, w.candidate), c, FreshCommitted(stmt, w));
    assert Step(Become(sys, c, FreshPrepared(stmt, w)), CommitFresh(c, NoFault))
      == after by { hide CommitWrite, WithState; }
    assert Current(after, w.producerId) == Current(WithState(sys, w.candidate), w.producerId);
    hide WithState, CommitWrite;
  }

  // ---------------------------------------------------------------- undisturbed lifecycles

  function Trigger(code: OutcomeCode, stmt: Statement): Outcome {
    Outcome(code, stmt, None)
  }

  function StoredReplay(sys: System, scope: Scope): Option<ReplayState> {
    match StoredTransaction(sys, scope)
    case None => None
    case Some(t) => Some(t.replayState)
  }

  function StoredGeneration(sys: System, scope: Scope): Option<int> {
    match StoredTransaction(sys, scope)
    case None => None
    case Some(t) => Some(t.generation)
  }

  function BootstrapEvent(sys: System, c: nat, o: Object, stmt: Statement): Event {
    BeginBootstrap(c, true, Trigger(OUT_FIRST_SEEN, stmt), o, StoredReplay(sys, ScopeOf(o)), 0)
  }

  function TransitionEvent(sys: System, c: nat, o: Object, stmt: Statement, s: State): Event {
    BeginTransition(c, true, Trigger(OUT_EPOCH_TRANSITION_REQUIRED, stmt), o, StoredReplay(sys, ScopeOf(o)), 0, s,
                    StoredGeneration(sys, ScopeOf(o)))
  }

  /** The transaction that a lifecycle over these stores commits. */
  function TransactionOf(sys: System, o: Object, freshness: State): Transaction {
    var scope := ScopeOf(o);
    Transaction(ReplayState(scope, o.sequence), scope,
                match StoredTransaction(sys, scope) case None => 0 case Some(t) => t.generation + 1,
                freshness, o.Operation(), o.authorizationId, o.sequence)
  }

  /** A bootstrap of a producer unknown to both stores, nothing failing, authorized for the
      first statement's epoch with no time of its own. */
  lemma BootstrapGoesThrough(sys: System, c: nat, o: Object, stmt: Statement)
    requires c !in sys.sessions && stmt.Valid() && o.Valid() && o.Bootstrap? && o.initialHighWater == HIGH_WATER_UNSET
    requires o.producerId == stmt.producerId && o.producerEpoch == stmt.epoch
    requires Current(sys, stmt.producerId) == NotEstablished && StoredTransaction(sys, ScopeOf(o)) == None
    ensures var es := LifecycleEvents(BootstrapEvent(sys, c, o, stmt));
      && GenuineRun(sys, es)
      && Run(sys, es) == Installed(sys, c, TransactionOf(sys, o, MakeUnset(stmt.producerId, stmt.epoch, None, 0, 0)))
  {
    var begin := BootstrapEvent(sys, c, o, stmt);
    var p := Prepared(None, None, None, TransactionOf(sys, o, MakeUnset(stmt.producerId, stmt.epoch, None, 0, 0)));
    assert BootstrapGates(true, begin.trigger, Some(o), EvaluateReplay(Some(o), None, 0), None) == Ok(p);
    assert Step(sys, begin) == Become(sys, c, TxPrepared(p));
    assert Genuine(sys, begin) && Allowed(sys, begin);
    hide *;
    BootstrapFits(sys, o, p);
    LifecycleGoesThrough(sys, begin, p);
  }

  lemma BootstrapFits(sys: System, o: Object, p: Prepared)
    requires p.previousGeneration == None && StoredTransaction(sys, p.candidate.scope) == None
    requires Current(sys, p.candidate.freshness.producerId) == NotEstablished
    ensures
      && T.Accepts(CurrentTx(sys, p.candidate.scope), p)
      && CurrentTx(sys, p.candidate.scope) != T.StateValid(p.candidate)
    ensures Behind(Current(sys, p.candidate.freshness.producerId), p.candidate.freshness)
  {
  }

  /** The transaction store lets this authorization follow on the freshness record s. */
  predicate MayFollow(sys: System, o: Object, s: State) {
    match StoredTransaction(sys, ScopeOf(o))
    case None => true
    case Some(t) =>
      && t.scope == ScopeOf(o) && t.replayState == ReplayState(t.scope, t.sequence) && t.freshness == s
      && t.sequence < o.sequence && 0 <= t.generation < Decimal.UINT64_MAX
  }

  /** A transition to an epoch that is neither the current nor the previous one, nothing
      failing, as the first of its scope or over the record its scope granted last. */
  lemma TransitionGoesThrough(sys: System, c: nat, o: Object, stmt: Statement, s: State)
    requires Inv(sys) && c !in sys.sessions && stmt.Valid() && o.Valid() && o.EpochTransition?
    requires o.producerId == stmt.producerId && o.fromEpoch == s.currentEpoch && o.toEpoch == stmt.epoch
    requires Current(sys, stmt.producerId) == StateValid(s) && s.previousEpoch != Some(stmt.epoch)
    requires o.transitionSequence == s.transitionSequence + 1 && s.generation < Decimal.UINT64_MAX
    requires MayFollow(sys, o, s)
    ensures var es := LifecycleEvents(TransitionEvent(sys, c, o, stmt, s));
      && GenuineRun(sys, es)
      && Run(sys, es) == Installed(sys, c, TransactionOf(sys, o, Transition(s, stmt.epoch, o.transitionSequence)))
  {
    var begin := TransitionEvent(sys, c, o, stmt, s);
    var t := TransactionOf(sys, o, Transition(s, stmt.epoch, o.transitionSequence));
    var p := Prepared(StoredReplay(sys, ScopeOf(o)), Some(s), StoredGeneration(sys, ScopeOf(o)), t);
    TransitionBegins(sys, c, o, stmt, s, p);
    TransitionFits(sys, o, s, p);
    hide *;
    LifecycleGoesThrough(sys, begin, p);
  }

  lemma TransitionBegins(sys: System, c: nat, o: Object, stmt: Statement, s: State, p: Prepared)
    requires Inv(sys) && c !in sys.sessions && stmt.Valid() && o.Valid() && o.EpochTransition?
    requires o.producerId == stmt.producerId && o.fromEpoch == s.currentEpoch && o.toEpoch == stmt.epoch
    requires Current(sys, stmt.producerId) == StateValid(s) && s.previousEpoch != Some(stmt.epoch)
    requires o.transitionSequence == s.transitionSequence + 1 && s.generation < Decimal.UINT64_MAX
    requires MayFollow(sys, o, s)
    requires p == Prepared(StoredReplay(sys, ScopeOf(o)), Some(s), StoredGeneration(sys, ScopeOf(o)),
                           TransactionOf(sys, o, Transition(s, stmt.epoch, o.transitionSequence)))
    ensures var begin := TransitionEvent(sys, c, o, stmt, s);
      Step(sys, begin) == Become(sys, c, TxPrepared(p)) && Allowed(sys, begin) && Genuine(sys, begin)
  {
    StoredIsValid(sys, stmt.producerId);
    LastStored(sys, stmt.producerId);
    hide Inv;
    var begin := TransitionEvent(sys, c, o, stmt, s);
    GatesPass(o, stmt, s, begin.trigger, begin.previousReplay, begin.previousGeneration, p.candidate);
    hide TransitionGates, EvaluateReplay, Transition;
  }

  lemma GatesPass(o: Object, stmt: Statement, s: State, trigger: Outcome, previousReplay: Option<ReplayState>,
                  previousGeneration: Option<int>, t: Transaction)
    requires
      && s.Valid()
      && stmt.Valid()
      && o.Valid()
      && o.EpochTransition?
      && trigger == Trigger(OUT_EPOCH_TRANSITION_REQUIRED, stmt)
    requires o.producerId == stmt.producerId == s.producerId && o.fromEpoch == s.currentEpoch && o.toEpoch == stmt.epoch
    requires o.transitionSequence == s.transitionSequence + 1 && s.generation < Decimal.UINT64_MAX
    requires previousReplay.Some? ==>
      previousReplay.value.scope == ScopeOf(o) && previousReplay.value.sequence < o.sequence
    requires previousGeneration.Some? ==> 0 <= previousGeneration.value < Decimal.UINT64_MAX
    requires t == Transaction(ReplayState(ScopeOf(o), o.sequence), ScopeOf(o),
                              if previousGeneration.None? then 0 else previousGeneration.value + 1,
                              Transition(s, stmt.epoch, o.transitionSequence), EpochTransitionOperation,
                              o.authorizationId, o.sequence)
    ensures TransitionGates(true, trigger, Some(o), EvaluateReplay(Some(o), previousReplay, 0), previousReplay, s,
                            previousGeneration)
      == Ok(Prepared(previousReplay, Some(s), previousGeneration, t))
  {
  }

  lemma TransitionFits(sys: System, o: Object, s: State, p: Prepared)
    requires
      && Current(sys, p.candidate.freshness.producerId) == StateValid(s)
      && s.generation < p.candidate.freshness.generation
    requires MayFollow(sys, o, s) && p.candidate.scope == ScopeOf(o)
    requires
      && p.previousReplay == StoredReplay(sys, ScopeOf(o))
      && p.previousGeneration == StoredGeneration(sys, ScopeOf(o))
    requires p.previousFreshness == Some(s)
    requires StoredTransaction(sys, ScopeOf(o)).Some? ==>
      StoredTransaction(sys, ScopeOf(o)).value.generation < p.candidate.generation
    ensures
      && T.Accepts(CurrentTx(sys, p.candidate.scope), p)
      && CurrentTx(sys, p.candidate.scope) != T.StateValid(p.candidate)
    ensures Behind(Current(sys, p.candidate.freshness.producerId), p.candidate.freshness)
  {
  }

  // ---------------------------------------------------------------- it does happen

  /** A run by store-reading callers that ends with this record and this transaction in the
      transition scope, sessions 0 to n - 1 finished, and session 1 told FRESH for stmt. */
  ghost predicate Reached(es: seq<Event>, n: nat, s: State, scope: Scope, t: Option<Transaction>, stmt: Statement) {
    var sys := Run(INIT, es);
    && GenuineRun(INIT, es)
    && Current(sys, stmt.producerId) == StateValid(s)
    && StoredTransaction(sys, scope) == t
    && (forall k :: k in sys.sessions ==> k < n)
    && 1 in sys.sessions && sys.sessions[1].FreshDone? && sys.sessions[1].stmt == stmt
  }

  lemma AfterTransition(sys: System, c: nat, t: Transaction, id: string)
    requires t.freshness.producerId == id
    ensures var sys' := Installed(sys, c, t);
      && Current(sys', id) == StateValid(t.freshness) && StoredTransaction(sys', t.scope) == Some(t)
      && (forall scope :: scope != t.scope ==> StoredTransaction(sys', scope) == StoredTransaction(sys, scope))
      && sys'.sessions == sys.sessions[c := Projected(t)]
  {
  }

  lemma AfterDecision(sys: System, c: nat, s: State, session: Session, id: string)
    requires s.producerId == id
    ensures var sys' := Become(WithState(sys, s), c, session);
      && Current(sys', id) == StateValid(s)
      && (forall scope :: StoredTransaction(sys', scope) == StoredTransaction(sys, scope))
      && sys'.sessions == sys.sessions[c := session]
  {
  }

  /** One more transition by the same authority. */
  lemma ThenTransition(es: seq<Event>, n: nat, s: State, t: Option<Transaction>, first: Statement, o: Object,
                       stmt: Statement)
    returns (es': seq<Event>, t': Transaction)
    requires n >= 2 && Reached(es, n, s, ScopeOf(o), t, first) && stmt.Valid() && o.Valid() && o.EpochTransition?
    requires
      && o.producerId == stmt.producerId == first.producerId
      && o.fromEpoch == s.currentEpoch
      && o.toEpoch == stmt.epoch
    requires
      && s.previousEpoch != Some(stmt.epoch)
      && o.transitionSequence == s.transitionSequence + 1
      && s.generation < Decimal.UINT64_MAX
    requires MayFollow(Run(INIT, es), o, s) && s.producerId == first.producerId
    ensures Reached(es', n + 1, Transition(s, stmt.epoch, o.transitionSequence), ScopeOf(o), Some(t'), first)
    ensures t' == TransactionOf(Run(INIT, es), o, Transition(s, stmt.epoch, o.transitionSequence))
  {
    var sys := Run(INIT, es);
    var more := LifecycleEvents(TransitionEvent(sys, n, o, stmt, s));
    t' := TransactionOf(sys, o, Transition(s, stmt.epoch, o.transitionSequence));
    es' := es + more;
    assert t'.scope == ScopeOf(o) && t'.freshness == Transition(s, stmt.epoch, o.transitionSequence);
    assert t'.freshness.producerId == first.producerId;
    hide *;
    ReachedIs(es, n, s, ScopeOf(o), t, first);
    GenuineIsAllowed(INIT, es);
    ReachableInv(es);
    TransitionGoesThrough(sys, n, o, stmt, s);
    RunsCompose(INIT, es, more);
    AfterTransition(sys, n, t', first.producerId);
    ReachedNext(es', n, t'.freshness, t'.scope, Some(t'), first, sys.sessions, Projected(t'));
  }

  lemma ReachedIs(es: seq<Event>, n: nat, s: State, scope: Scope, t: Option<Transaction>, stmt: Statement)
    requires Reached(es, n, s, scope, t, stmt)
    ensures var sys := Run(INIT, es);
      && GenuineRun(INIT, es) && Current(sys, stmt.producerId) == StateValid(s) && StoredTransaction(sys, scope) == t
      && n !in sys.sessions && (forall k :: k in sys.sessions ==> k < n)
      && 1 in sys.sessions && sys.sessions[1].FreshDone? && sys.sessions[1].stmt == stmt
  {
    hide Run, GenuineRun, Current, StoredTransaction;
  }

  lemma ReachedNext(es: seq<Event>, n: nat, s: State, scope: Scope, t: Option<Transaction>, stmt: Statement,
                    sessions: map<nat, Session>, session: Session)
    requires n >= 2 && forall k :: k in sessions ==> k < n
    requires 1 in sessions && sessions[1].FreshDone? && sessions[1].stmt == stmt
    requires var sys := Run(INIT, es);
      && GenuineRun(INIT, es) && Current(sys, stmt.producerId) == StateValid(s) && StoredTransaction(sys, scope) == t
      && sys.sessions == sessions[n := session]
    ensures Reached(es, n + 1, s, scope, t, stmt)
  {
    hide Run, GenuineRun, Current, StoredTransaction;
  }

  /** Bootstrap into an epoch and the first statement of it told FRESH. */
  lemma FirstStay(o: Object, stmt: Statement, scope: Scope) returns (es: seq<Event>)
    requires stmt.Valid() && o.Valid() && o.Bootstrap? && o.initialHighWater == HIGH_WATER_UNSET
    requires
      && o.producerId == stmt.producerId
      && o.producerEpoch == stmt.epoch
      && scope.purposeDomain == EPOCH_TRANSITION_AUTHORITY
    ensures Reached(es, 2, Advance(MakeUnset(stmt.producerId, stmt.epoch, None, 0, 0), stmt.time), scope, None, stmt)
  {
    hide *;
    var s := MakeUnset(stmt.producerId, stmt.epoch, None, 0, 0);
    var t := TransactionOf(INIT, o, s);
    var boot := LifecycleEvents(BootstrapEvent(INIT, 0, o, stmt));
    var sys := Installed(INIT, 0, t);
    var more := EstablishEvents(1, stmt);
    es := boot + more;
    FirstStayFacts(o, stmt, scope);
    BootstrapGoesThrough(INIT, 0, o, stmt);
    AfterTransition(INIT, 0, t, stmt.producerId);
    GenuineIsAllowed(INIT, boot);
    ReachableInv(boot);
    var w := DecisionGoesThrough(sys, 1, stmt, s);
    RunsCompose(INIT, boot, more);
    AfterDecision(sys, 1, Advance(s, stmt.time), FreshDone(stmt, w), stmt.producerId);
    ReachedFirst(es, Advance(s, stmt.time), scope, stmt, sys.sessions, w);
  }

  lemma FirstStayFacts(o: Object, stmt: Statement, scope: Scope)
    requires stmt.Valid() && o.Bootstrap? && scope.purposeDomain == EPOCH_TRANSITION_AUTHORITY
    ensures var s := MakeUnset(stmt.producerId, stmt.epoch, None, 0, 0); var t := TransactionOf(INIT, o, s);
      && StoredTransaction(INIT, ScopeOf(o)) == None && StoredTransaction(INIT, scope) == None
      && INIT.sessions == map[] && Current(INIT, stmt.producerId) == NotEstablished
      && ScopeOf(o) != scope && t.freshness == s && t.scope == ScopeOf(o)
      && s.producerId == stmt.producerId && s.generation == 0 && Advance(s, stmt.time).producerId == stmt.producerId
      && Evaluate(Some(s), stmt) == Ok(FRESH_CANDIDATE)
  {
    assert BOOTSTRAP_AUTHORITY != EPOCH_TRANSITION_AUTHORITY;
  }

  lemma ReachedFirst(es: seq<Event>, s: State, scope: Scope, stmt: Statement, sessions: map<nat, Session>,
                     w: PreparedWrite)
    requires forall k :: k in sessions ==> k < 1
    requires var sys := Run(INIT, es);
      && GenuineRun(INIT, es) && Current(sys, stmt.producerId) == StateValid(s) && StoredTransaction(sys, scope) == None
      && sys.sessions == sessions[1 := FreshDone(stmt, w)]
    ensures Reached(es, 2, s, scope, None, stmt)
  {
    hide Run, GenuineRun, Current, StoredTransaction;
  }

  /** For any three epochs: bootstrap into the first and FRESH there; transitions to the
      second, the third and back to the first; and the same statement is told FRESH again,
      in the fourth tenure.  Callers only ever pass what the stores hold. */
  lemma FreshTwice(id: string, authorityId: string, authorizationId: string, a: string, b: string, c: string, time: int)
    returns (es: seq<Event>)
    requires ValidProducerId(id) && ValidProducerId(authorityId) && ValidEpoch(authorizationId)
    requires ValidEpoch(a) && ValidEpoch(b) && ValidEpoch(c) && a != b && b != c && a != c && ValidLogicalTime(time)
    ensures GenuineRun(INIT, es)
    ensures var sessions := Run(INIT, es).sessions;
      && 1 in sessions && sessions[1].FreshDone? && sessions[1].stmt == Statement(id, a, time)
      && 5 in sessions && sessions[5].FreshDone? && sessions[5].stmt == Statement(id, a, time)
  {
    var stmt := Statement(id, a, time);
    var scope := Scope(authorityId, EPOCH_TRANSITION_AUTHORITY, id);
    var s1 := Advance(MakeUnset(id, a, None, 0, 0), time);
    var ab := EpochTransition(authorizationId, authorityId, id, 1, a, b, 1);
    var bc := EpochTransition(authorizationId, authorityId, id, 2, b, c, 2);
    var ca := EpochTransition(authorizationId, authorityId, id, 3, c, a, 3);
    var s2 := Transition(s1, b, 1);
    var s3 := Transition(s2, c, 2);
    var s4 := Transition(s3, a, 3);
    assert ScopeOf(ab) == ScopeOf(bc) == ScopeOf(ca) == scope;
    assert ab.Valid() && bc.Valid() && ca.Valid();
    assert Evaluate(Some(s4), stmt) == Ok(FRESH_CANDIDATE);
    hide Run, GenuineRun, Current, StoredTransaction, Evaluate, Object.Valid, ValidProducerId, ValidEpoch,
      ValidLogicalTime;
    var es1 := FirstStay(Bootstrap(authorizationId, authorityId, id, 0, a, HIGH_WATER_UNSET, None), stmt, scope);
    var es2, t2 := ThenTransition(es1, 2, s1, None, stmt, ab, Statement(id, b, time));
    var es3, t3 := ThenTransition(es2, 3, s2, Some(t2), stmt, bc, Statement(id, c, time));
    var es4, t4 := ThenTransition(es3, 4, s3, Some(t3), stmt, ca, stmt);
    es := es4 + EstablishEvents(5, stmt);
    SecondFresh(es4, s4, scope, t4, stmt);
  }

  lemma SecondFresh(es: seq<Event>, s: State, scope: Scope, t: Transaction, stmt: Statement)
    requires Reached(es, 5, s, scope, Some(t), stmt) && Evaluate(Some(s), stmt) == Ok(FRESH_CANDIDATE)
    requires s.generation < 0xFFFF_FFFF_FFFF_FFFF && s.producerId == stmt.producerId
    ensures var es' := es + EstablishEvents(5, stmt); var sessions := Run(INIT, es').sessions;
      && GenuineRun(INIT, es')
      && 1 in sessions && sessions[1].FreshDone? && sessions[1].stmt == stmt
      && 5 in sessions && sessions[5].FreshDone? && sessions[5].stmt == stmt
  {
    var sys := Run(INIT, es);
    hide Run, GenuineRun, Current, StoredTransaction, Evaluate, WithState, Become, EstablishEvents;
    GenuineIsAllowed(INIT, es);
    ReachableInv(es);
    var w := DecisionGoesThrough(sys, 5, stmt, s);
    RunsCompose(INIT, es, EstablishEvents(5, stmt));
    AfterDecision(sys, 5, Advance(s, stmt.time), FreshDone(stmt, w), stmt.producerId);
  }
}
