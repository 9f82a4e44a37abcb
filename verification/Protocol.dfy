/** Any number of freshness decisions, bootstraps, epoch transitions and re-run
    reconciliations, interleaved call by call over the two stores.  A session is one
    invocation of a driver; between two of its backend calls any other session may run,
    any call may fail, and a session that takes no further step has crashed.  A commit is
    one atomic step.  For each key the system keeps everything ever committed, oldest
    first; what a store holds is the last entry. */
module Protocol {
  import opened Wrappers
  import opened FreshnessState
  import opened Authorization
  import opened F = FreshnessBackend
  import opened Lifecycles
  import T = AuthorizationBackend

  datatype Session =
    | FreshPrepared(stmt: Statement, write: PreparedWrite)
    | FreshCommitted(stmt: Statement, write: PreparedWrite)
    | FreshDone(stmt: Statement, write: PreparedWrite)         // reported FRESH
    | TxPrepared(prepared: Prepared)
    | TxCommitted(prepared: Prepared)
    | TxVerified(transaction: Transaction)                     // about to project
    | ProjectionPrepared(transaction: Transaction, write: PreparedWrite)
    | ProjectionCommitted(transaction: Transaction, write: PreparedWrite)
    | Projected(transaction: Transaction)                      // reported consumed, or reconciled
    | Ended

  datatype System = System(
    states: map<string, seq<State>>,
    tx: map<Scope, seq<Transaction>>,
    sessions: map<nat, Session>)

  const INIT := System(map[], map[], map[])

  datatype Event =
    | BeginEstablish(c: nat, stmt: Statement, fails: bool)
    | CommitFresh(c: nat, fault: CommitFault)
    | VerifyFresh(c: nat, fails: bool)
    | BeginBootstrap(c: nat, ordinary: bool, trigger: Outcome, grant: Object,
                     previousReplay: Option<ReplayState>, scopes: int)
    | BeginTransition(c: nat, ordinary: bool, trigger: Outcome, grant: Object,
                      previousReplay: Option<ReplayState>, scopes: int,
                      previous: State, previousGeneration: Option<int>)
    | CommitTx(c: nat, fault: CommitFault)
    | VerifyTx(c: nat, fails: bool)
    | BeginReconcile(c: nat, scope: Scope, generation: nat)
    | LoadProjection(c: nat, fails: bool)
    | CommitProjection(c: nat, fault: CommitFault)
    | VerifyProjection(c: nat, fails: bool)

  function FreshLog(sys: System, id: string): seq<State> {
    if id in sys.states then sys.states[id] else []
  }

  function TxLog(sys: System, scope: Scope): seq<Transaction> {
    if scope in sys.tx then sys.tx[scope] else []
  }

  function Current(sys: System, id: string): LoadResult {
    var log := FreshLog(sys, id);
    if log == [] then NotEstablished else StateValid(log[|log| - 1])
  }

  function CurrentTx(sys: System, scope: Scope): T.LoadResult {
    var log := TxLog(sys, scope);
    if log == [] then T.NotEstablished else T.StateValid(log[|log| - 1])
  }

  // ---------------------------------------------------------------- one step

  function Become(sys: System, c: nat, s: Session): System {
    sys.(sessions := sys.sessions[c := s])
  }

  /** One atomic commit into the freshness store; the session continues as `s` if it is
      told that the commit succeeded. */
  function CommitWrite(sys: System, c: nat, w: PreparedWrite, fault: CommitFault, s: Session): System {
    var current := Current(sys, w.producerId);
    var (result, after) := CommitEffect(current, w, fault);
    var sys' := Become(sys, c, if result == PersistResult.Committed(w.candidate) then s else Ended);
    if after == current then sys'
    else sys'.(states := sys'.states[w.producerId := FreshLog(sys, w.producerId) + [w.candidate]])
  }

  function CommitTransaction(sys: System, c: nat, p: Prepared, fault: CommitFault): System {
    var current := CurrentTx(sys, p.candidate.scope);
    var (result, after) := T.CommitEffect(current, p, fault);
    var sys' := Become(sys, c, if result == T.Committed(p.candidate) then TxCommitted(p) else Ended);
    if after == current then sys'
    else sys'.(tx := sys'.tx[p.candidate.scope := TxLog(sys, p.candidate.scope) + [p.candidate]])
  }

  function Begin(sys: System, c: nat, gates: Result<Prepared, LifecycleCode>): System {
    match gates
    case Err(_) => Become(sys, c, Ended)
    case Ok(p) => Become(sys, c, if T.PrepareResult(p) == T.PreparedOk(p.candidate) then TxPrepared(p) else Ended)
  }

  function BeginStep(sys: System, e: Event): System
    requires e.BeginEstablish? || e.BeginBootstrap? || e.BeginTransition? || e.BeginReconcile?
  {
    if e.c in sys.sessions then sys
    else
      match e
      case BeginEstablish(c, stmt, fails) =>
        if !stmt.Valid() then Become(sys, c, Ended)
        else
          (match AfterLoad(if fails then StateUnavailable else Current(sys, stmt.producerId), stmt)
           case Err(_) => Become(sys, c, Ended)
           case Ok(w) => Become(sys, c, FreshPrepared(stmt, w)))
      case BeginBootstrap(c, ordinary, trigger, o, previousReplay, scopes) =>
        Begin(sys, c,
              BootstrapGates(ordinary, trigger, Some(o), EvaluateReplay(Some(o), previousReplay, scopes),
                             previousReplay))
      case BeginTransition(c, ordinary, trigger, o, previousReplay, scopes, previous, previousGeneration) =>
        Begin(sys, c, TransitionGates(ordinary, trigger, Some(o), EvaluateReplay(Some(o), previousReplay, scopes),
                                      previousReplay, previous, previousGeneration))
      case BeginReconcile(c, scope, generation) =>
        if generation < |TxLog(sys, scope)| then Become(sys, c, TxVerified(TxLog(sys, scope)[generation])) else sys
  }

  function ContinueStep(sys: System, e: Event, session: Session): System {
    match (e, session)
    case (CommitFresh(c, fault), FreshPrepared(stmt, w)) => CommitWrite(sys, c, w, fault, FreshCommitted(stmt, w))
    case (VerifyFresh(c, fails), FreshCommitted(stmt, w)) =>
      var seen := if fails then StateUnavailable else Current(sys, w.producerId);
      Become(sys, c, if VerifyResult(seen, w).Verified? then FreshDone(stmt, w) else Ended)
    case (CommitTx(c, fault), TxPrepared(p)) => CommitTransaction(sys, c, p, fault)
    case (VerifyTx(c, fails), TxCommitted(p)) =>
      var seen := if fails then T.StateUnavailable else CurrentTx(sys, p.candidate.scope);
      Become(sys, c, if T.VerifyResult(seen, p).Verified? then TxVerified(p.candidate) else Ended)
    case (LoadProjection(c, fails), TxVerified(t)) =>
      (match ReconcileAfterLoad(if fails then StateUnavailable else Current(sys, t.freshness.producerId), t.freshness)
       case Err(code) => Become(sys, c, if code.Success() then Projected(t) else Ended)
       case Ok(w) => Become(sys, c, ProjectionPrepared(t, w)))
    case (CommitProjection(c, fault), ProjectionPrepared(t, w)) =>
      CommitWrite(sys, c, w, fault, ProjectionCommitted(t, w))
    case (VerifyProjection(c, fails), ProjectionCommitted(t, w)) =>
      var seen := if fails then StateUnavailable else Current(sys, w.producerId);
      Become(sys, c, if VerifyResult(seen, w).Verified? then Projected(t) else Ended)
    case _ => sys
  }

  function Step(sys: System, e: Event): System {
    if e.BeginEstablish? || e.BeginBootstrap? || e.BeginTransition? || e.BeginReconcile? then BeginStep(sys, e)
    else if e.c in sys.sessions then ContinueStep(sys, e, sys.sessions[e.c])
    else sys
  }

  /** What the drivers demand of their callers: validated authorization objects, and for
      a transition a previous state the freshness store held. */
  predicate Allowed(sys: System, e: Event) {
    match e
    case BeginBootstrap(_, _, _, o, _, _) => o.Valid()
    case BeginTransition(_, _, _, o, _, _, previous, _) => o.Valid() && previous in FreshLog(sys, previous.producerId)
    case _ => true
  }

  function Run(sys: System, es: seq<Event>): System
    decreases |es|
  {
    if es == [] then sys else Run(Step(sys, es[0]), es[1..])
  }

  predicate AllowedRun(sys: System, es: seq<Event>)
    decreases |es|
  {
    es == [] || (Allowed(sys, es[0]) && AllowedRun(Step(sys, es[0]), es[1..]))
  }

  // ---------------------------------------------------------------- the invariant

  /** The history of one producer: it starts at generation 0, every later entry is one
      accepted statement or one epoch transition on, and the generation is the index. */
  predicate FreshHistory(id: string, log: seq<State>) {
    forall i :: 0 <= i < |log| ==> FreshEntry(id, log, i)
  }

  predicate FreshEntry(id: string, log: seq<State>, i: int)
    requires 0 <= i < |log|
  {
    && log[i].Valid() && log[i].producerId == id && log[i].generation == i
    && (i == 0 ==> Initial(log[0]))
    && (i > 0 ==> FreshStep(log[i - 1], log[i]) || TransitionStep(log[i - 1], log[i]))
  }

  /** A state that reconciliation may install over some prefix of this history. */
  predicate Grantable(log: seq<State>, s: State) {
    if s.generation == 0 then Initial(s)
    else 0 < s.generation <= |log| && TransitionStep(log[s.generation - 1], s)
  }

  /** The history of one scope: generations 0, 1, 2, ..., strictly rising sequences, and
      bootstrap scopes hold one transaction. */
  predicate TxHistory(scope: Scope, log: seq<Transaction>) {
    forall i :: 0 <= i < |log| ==> TxEntry(scope, log, i)
  }

  predicate TxEntry(scope: Scope, log: seq<Transaction>, i: int)
    requires 0 <= i < |log|
  {
    && log[i].Valid() && log[i].scope == scope && log[i].generation == i
    && Purpose(log[i].operation) == scope.purposeDomain
    && (log[i].operation == BootstrapOperation ==> i == 0 && Initial(log[i].freshness))
    && (log[i].operation == EpochTransitionOperation ==> log[i].freshness.generation > 0)
    && (i > 0 ==> log[i - 1].sequence < log[i].sequence && TransitionStep(log[i - 1].freshness, log[i].freshness))
  }

  predicate InTx(sys: System, t: Transaction) {
    0 <= t.generation < |TxLog(sys, t.scope)| && TxLog(sys, t.scope)[t.generation] == t
  }

  predicate InFresh(sys: System, s: State) {
    0 <= s.generation < |FreshLog(sys, s.producerId)| && FreshLog(sys, s.producerId)[s.generation] == s
  }

  /** The write advances a state the store held by the session's own statement. */
  predicate FreshWriteOk(sys: System, stmt: Statement, w: PreparedWrite) {
    && stmt.Valid()
    && w.Valid() && w.producerId == stmt.producerId
    && w.previous.Some? && InFresh(sys, w.previous.value)
    && stmt.epoch == w.previous.value.currentEpoch
    && w.candidate == Advance(w.previous.value, stmt.time)
    && FreshStep(w.previous.value, w.candidate)
  }

  predicate PreparedOk(sys: System, p: Prepared) {
    && p.candidate.Valid()
    && Purpose(p.candidate.operation) == p.candidate.scope.purposeDomain
    && Grantable(FreshLog(sys, p.candidate.freshness.producerId), p.candidate.freshness)
    && (p.candidate.operation == BootstrapOperation ==> p.previousGeneration == None && Initial(p.candidate.freshness))
    && (p.candidate.operation == EpochTransitionOperation ==> p.candidate.freshness.generation > 0)
    && match p.previousGeneration
       case None => p.candidate.generation == 0
       case Some(g) =>
         && p.candidate.generation == g + 1
         && (p.previousReplay.Some? ==>
           p.previousReplay.value.scope == p.candidate.scope && p.previousReplay.value.sequence < p.candidate.sequence)
         && p.previousFreshness.Some? && TransitionStep(p.previousFreshness.value, p.candidate.freshness)
  }

  predicate ProjectionOk(sys: System, t: Transaction, w: PreparedWrite) {
    && InTx(sys, t)
    && w.Valid() && w.candidate == t.freshness
    && (w.previous.Some? ==> w.previous.value.generation < w.candidate.generation)
  }

  predicate SessionOk(sys: System, s: Session) {
    match s
    case FreshPrepared(stmt, w) => FreshWriteOk(sys, stmt, w)
    case FreshCommitted(stmt, w) => FreshWriteOk(sys, stmt, w) && InFresh(sys, w.candidate)
    case FreshDone(stmt, w) => FreshWriteOk(sys, stmt, w) && InFresh(sys, w.candidate)
    case TxPrepared(p) => PreparedOk(sys, p)
    case TxCommitted(p) => InTx(sys, p.candidate)
    case TxVerified(t) => InTx(sys, t)
    case ProjectionPrepared(t, w) => ProjectionOk(sys, t, w)
    case ProjectionCommitted(t, w) => ProjectionOk(sys, t, w) && InFresh(sys, t.freshness)
    case Projected(t) => InTx(sys, t) && InFresh(sys, t.freshness)
    case Ended => true
  }

  /** The sessions that were told their write of this producer's generation succeeded. */
  predicate Owns(s: Session, id: string, generation: int) {
    (s.FreshCommitted? || s.FreshDone?) && s.write.producerId == id && s.write.candidate.generation == generation
  }

  ghost predicate Granted(sys: System, s: State) {
    exists t: Transaction :: InTx(sys, t) && t.freshness == s
  }

  ghost predicate FreshOk(sys: System) {
    && (forall id :: FreshHistory(id, FreshLog(sys, id)))
    // every entry is an accepted statement or the result of a committed transaction
    && (forall id, i :: 0 <= i < |FreshLog(sys, id)| ==> Justified(sys, id, i))
  }

  ghost predicate Justified(sys: System, id: string, i: int)
    requires 0 <= i < |FreshLog(sys, id)|
  {
    (i > 0 && FreshStep(FreshLog(sys, id)[i - 1], FreshLog(sys, id)[i])) || Granted(sys, FreshLog(sys, id)[i])
  }

  ghost predicate TxOk(sys: System) {
    && (forall scope :: TxHistory(scope, TxLog(sys, scope)))
    && (forall t: Transaction :: InTx(sys, t) ==> Grantable(FreshLog(sys, t.freshness.producerId), t.freshness))
  }

  ghost predicate SessionsOk(sys: System) {
    && (forall c :: c in sys.sessions ==> SessionOk(sys, sys.sessions[c]))
    && (forall c, d, id, g ::
      c in sys.sessions && d in sys.sessions && Owns(sys.sessions[c], id, g) && Owns(sys.sessions[d], id, g) ==> c == d)
  }

  ghost predicate Inv(sys: System) {
    FreshOk(sys) && TxOk(sys) && SessionsOk(sys)
  }
}
