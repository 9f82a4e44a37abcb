/** Every step of the interleaved system keeps both histories legal and every session's
    claim true, and only adds to what was committed. */
module ProtocolInvariant {
  import opened Wrappers
  import opened FreshnessState
  import opened Authorization
  import opened F = FreshnessBackend
  import opened Lifecycles
  import opened Protocol
  import T = AuthorizationBackend

  // ---------------------------------------------------------------- everything only grows

  ghost predicate Extends(sys: System, sys': System) {
    && (forall id :: FreshLog(sys, id) <= FreshLog(sys', id))
    && (forall scope :: TxLog(sys, scope) <= TxLog(sys', scope))
  }

  lemma StepExtends(sys: System, e: Event)
    ensures Extends(sys, Step(sys, e))
  {
  }

  lemma {:induction false} RunExtends(sys: System, es: seq<Event>)
    ensures Extends(sys, Run(sys, es))
    decreases |es|
  {
    if es != [] {
      StepExtends(sys, es[0]);
      RunExtends(Step(sys, es[0]), es[1..]);
      ExtendsTransitive(sys, Step(sys, es[0]), Run(sys, es));
    }
  }

  lemma ExtendsTransitive(a: System, b: System, c: System)
    requires Extends(a, b) && Extends(b, c)
    ensures Extends(a, c)
  {
    forall id ensures FreshLog(a, id) <= FreshLog(c, id) {
      assert FreshLog(a, id) <= FreshLog(b, id) <= FreshLog(c, id);
    }
    forall scope ensures TxLog(a, scope) <= TxLog(c, scope) {
      assert TxLog(a, scope) <= TxLog(b, scope) <= TxLog(c, scope);
    }
  }

  lemma SessionOkGrows(sys: System, sys': System, s: Session)
    requires Extends(sys, sys') && SessionOk(sys, s)
    ensures SessionOk(sys', s)
  {
    hide Advance, FreshStep, TransitionStep, Initial;
  }

  lemma GrantableGrows(log: seq<State>, log': seq<State>, s: State)
    requires log <= log' && Grantable(log, s)
    ensures Grantable(log', s)
  {
  }

  // ---------------------------------------------------------------- every step keeps the invariant

  /** A step that changes one session only. */
  lemma BecomeKeepsInv(sys: System, c: nat, s: Session)
    requires Inv(sys) && SessionOk(sys, s)
    requires forall id, g :: Owns(s, id, g) ==> c in sys.sessions && Owns(sys.sessions[c], id, g)
    ensures Inv(Become(sys, c, s))
  {
    hide SessionOk, FreshHistory, TxHistory, Grantable, FreshStep, TransitionStep;
    var sys' := Become(sys, c, s);
    SameStores(sys, sys');
    forall d | d in sys'.sessions ensures SessionOk(sys', sys'.sessions[d]) {
      SessionOkGrows(sys, sys', sys'.sessions[d]);
    }
  }

  lemma SameStores(sys: System, sys': System)
    requires sys.states == sys'.states && sys.tx == sys'.tx
    ensures Extends(sys, sys')
    ensures FreshOk(sys) <==> FreshOk(sys')
    ensures TxOk(sys) <==> TxOk(sys')
  {
    hide FreshHistory, TxHistory, Grantable, FreshStep, TransitionStep;
    assert forall id :: FreshLog(sys, id) == FreshLog(sys', id);
    assert forall scope :: TxLog(sys, scope) == TxLog(sys', scope);
    assert forall t :: InTx(sys, t) == InTx(sys', t);
    assert forall s :: Granted(sys, s) == Granted(sys', s);
    assert forall id, i :: 0 <= i < |FreshLog(sys, id)| ==> Justified(sys, id, i) == Justified(sys', id, i);
  }

  /** A candidate that may follow the current state of its producer. */
  ghost predicate NextState(sys: System, s: State) {
    var log := FreshLog(sys, s.producerId);
    && s.Valid() && s.generation == |log|
    && (log == [] ==> Initial(s))
    && (log != [] ==> FreshStep(log[|log| - 1], s) || TransitionStep(log[|log| - 1], s))
    && ((log != [] && FreshStep(log[|log| - 1], s)) || Granted(sys, s))
  }

  /** Appending to the freshness store. */
  lemma AppendFreshKeepsStores(sys: System, s: State)
    requires Inv(sys) && NextState(sys, s)
    ensures var sys' := sys.(states := sys.states[s.producerId := FreshLog(sys, s.producerId) + [s]]);
      FreshOk(sys') && TxOk(sys') && Extends(sys, sys')
  {
    hide Grantable, FreshStep, TransitionStep, Initial, TxHistory;
    var log := FreshLog(sys, s.producerId);
    var sys' := sys.(states := sys.states[s.producerId := log + [s]]);
    forall id ensures FreshHistory(id, FreshLog(sys', id)) {
      assert FreshHistory(id, FreshLog(sys, id));
      if id == s.producerId {
        AppendFreshHistory(id, log, s);
      }
    }
    assert forall scope :: TxLog(sys', scope) == TxLog(sys, scope);
    assert forall t :: InTx(sys', t) == InTx(sys, t);
    forall id, i | 0 <= i < |FreshLog(sys', id)|
      ensures Justified(sys', id, i)
    {
      if i < |FreshLog(sys, id)| {
        assert Justified(sys, id, i);
      }
    }
    forall t: Transaction | InTx(sys', t) ensures Grantable(FreshLog(sys', t.freshness.producerId), t.freshness) {
      GrantableGrows(FreshLog(sys, t.freshness.producerId), FreshLog(sys', t.freshness.producerId), t.freshness);
    }
  }

  lemma AppendFreshHistory(id: string, log: seq<State>, s: State)
    requires FreshHistory(id, log) && s.Valid() && s.producerId == id && s.generation == |log|
    requires log == [] ==> Initial(s)
    requires log != [] ==> FreshStep(log[|log| - 1], s) || TransitionStep(log[|log| - 1], s)
    ensures FreshHistory(id, log + [s])
  {
    hide FreshStep, TransitionStep, Initial;
    forall i | 0 <= i < |log| ensures FreshEntry(id, log + [s], i) {
      assert FreshEntry(id, log, i);
    }
  }

  /** A commit into the freshness store, by a freshness decision or a projection. */
  lemma CommitWriteKeepsInv(sys: System, c: nat, w: PreparedWrite, fault: CommitFault, s: Session)
    requires Inv(sys) && w.Valid() && c in sys.sessions
    requires Accepts(Current(sys, w.producerId), w.previous) ==> NextState(sys, w.candidate)
    requires forall sys' :: Extends(sys, sys') && InFresh(sys', w.candidate) ==> SessionOk(sys', s)
    requires forall id, g :: Owns(s, id, g) ==> id == w.producerId && g == w.candidate.generation
    ensures Inv(CommitWrite(sys, c, w, fault, s))
  {
    hide SessionOk, FreshHistory, TxHistory, Grantable, FreshStep, TransitionStep, Initial;
    var current := Current(sys, w.producerId);
    var (result, after) := CommitEffect(current, w, fault);
    if after == current {
      if result == PersistResult.Committed(w.candidate) {
        assert false by {
          assert NextState(sys, w.candidate) && after == StateValid(w.candidate);
          assert FreshHistory(w.producerId, FreshLog(sys, w.producerId));
          LastGeneration(w.producerId, FreshLog(sys, w.producerId));
        }
      }
      EndedIsOk(sys);
      BecomeKeepsInv(sys, c, Ended);
    } else {
      var log := FreshLog(sys, w.producerId);
      var mid := sys.(states := sys.states[w.producerId := log + [w.candidate]]);
      var sys' := CommitWrite(sys, c, w, fault, s);
      AppendFreshKeepsStores(sys, w.candidate);
      SameStores(mid, sys');
      ExtendsTransitive(sys, mid, sys');
      assert InFresh(sys', w.candidate);
      forall d | d in sys'.sessions ensures SessionOk(sys', sys'.sessions[d]) {
        if d != c {
          SessionOkGrows(sys, sys', sys.sessions[d]);
        } else {
          EndedIsOk(sys');
        }
      }
      forall d, id, g | d in sys.sessions && Owns(sys.sessions[d], id, g) ensures g < |FreshLog(sys, id)| {
        OwnerIsStored(sys, sys.sessions[d]);
      }
    }
  }

  lemma EndedIsOk(sys: System)
    ensures SessionOk(sys, Ended) && forall id, g :: !Owns(Ended, id, g)
  {
  }

  lemma OwnerIsStored(sys: System, s: Session)
    requires SessionOk(sys, s) && (s.FreshCommitted? || s.FreshDone?)
    ensures s.write.candidate.generation < |FreshLog(sys, s.write.producerId)|
  {
  }

  lemma LastGeneration(id: string, log: seq<State>)
    requires FreshHistory(id, log)
    ensures log != [] ==> FreshEntry(id, log, |log| - 1)
  {
  }

  /** A prepared freshness decision whose commit is accepted is the next legal state. */
  lemma FreshWriteIsNext(sys: System, stmt: Statement, w: PreparedWrite)
    requires Inv(sys) && FreshWriteOk(sys, stmt, w) && Accepts(Current(sys, w.producerId), w.previous)
    ensures NextState(sys, w.candidate)
  {
    LastGeneration(w.producerId, FreshLog(sys, w.producerId));
  }

  /** A prepared projection whose commit is accepted is the next legal state: however
      stale the transaction is, nothing was skipped or overwritten. */
  lemma ProjectionIsNext(sys: System, t: Transaction, w: PreparedWrite)
    requires Inv(sys) && ProjectionOk(sys, t, w) && Accepts(Current(sys, w.producerId), w.previous)
    ensures NextState(sys, w.candidate)
  {
    hide FreshStep, TransitionStep, Initial;
    var log := FreshLog(sys, w.producerId);
    assert Grantable(log, t.freshness);
    LastGeneration(w.producerId, log);
    assert Granted(sys, w.candidate);
  }

  lemma CommitTransactionKeepsInv(sys: System, c: nat, p: Prepared, fault: CommitFault)
    requires Inv(sys) && c in sys.sessions && PreparedOk(sys, p)
    ensures Inv(CommitTransaction(sys, c, p, fault))
  {
    hide SessionOk, FreshHistory, Grantable, FreshStep, TransitionStep, Initial;
    var scope := p.candidate.scope;
    var current := CurrentTx(sys, scope);
    var (result, after) := T.CommitEffect(current, p, fault);
    EndedIsOk(sys);
    assert TxHistory(scope, TxLog(sys, scope));
    if after == current {
      assert result != T.Committed(p.candidate);
      BecomeKeepsInv(sys, c, Ended);
    } else {
      var sys' := CommitTransaction(sys, c, p, fault);
      AppendTxKeepsStores(sys, p);
      var mid := sys.(tx := sys.tx[scope := TxLog(sys, scope) + [p.candidate]]);
      SameStores(mid, sys');
      ExtendsTransitive(sys, mid, sys');
      forall d | d in sys'.sessions ensures SessionOk(sys', sys'.sessions[d]) {
        if d != c {
          SessionOkGrows(sys, sys', sys.sessions[d]);
        } else {
          CommittedIsOk(sys', p);
        }
      }
    }
  }

  lemma CommittedIsOk(sys: System, p: Prepared)
    ensures SessionOk(sys, Ended)
    ensures InTx(sys, p.candidate) ==> SessionOk(sys, TxCommitted(p))
  {
  }

  /** Appending to the transaction store. */
  lemma AppendTxKeepsStores(sys: System, p: Prepared)
    requires Inv(sys) && PreparedOk(sys, p) && T.Accepts(CurrentTx(sys, p.candidate.scope), p)
    ensures var sys' := sys.(tx := sys.tx[p.candidate.scope := TxLog(sys, p.candidate.scope) + [p.candidate]]);
      FreshOk(sys') && TxOk(sys') && Extends(sys, sys') && InTx(sys', p.candidate)
  {
    hide FreshHistory, FreshStep, TransitionStep, Initial, Grantable, TxEntry;
    var scope := p.candidate.scope;
    var log := TxLog(sys, scope);
    var sys' := sys.(tx := sys.tx[scope := log + [p.candidate]]);
    assert TxHistory(scope, log);
    AppendTxHistory(scope, log, p);
    forall s ensures TxHistory(s, TxLog(sys', s)) {
      assert TxHistory(s, TxLog(sys, s));
    }
    assert forall id :: FreshLog(sys', id) == FreshLog(sys, id);
    TxAppended(sys, sys', p.candidate);
    forall t: Transaction | InTx(sys', t) ensures Grantable(FreshLog(sys', t.freshness.producerId), t.freshness) {
      assert InTx(sys, t) || t == p.candidate;
    }
    forall id, i | 0 <= i < |FreshLog(sys', id)| ensures Justified(sys', id, i) {
      assert Justified(sys, id, i);
    }
  }

  /** The transactions after an append: the old ones and the new one. */
  lemma TxAppended(sys: System, sys': System, t: Transaction)
    requires sys' == sys.(tx := sys.tx[t.scope := TxLog(sys, t.scope) + [t]]) && t.generation == |TxLog(sys, t.scope)|
    ensures Extends(sys, sys')
    ensures forall u :: InTx(sys', u) <==> InTx(sys, u) || u == t
    ensures forall s :: Granted(sys, s) ==> Granted(sys', s)
  {
    forall u ensures InTx(sys', u) <==> InTx(sys, u) || u == t {
      if u.scope != t.scope {
        assert TxLog(sys', u.scope) == TxLog(sys, u.scope);
      }
    }
    forall s | Granted(sys, s) ensures Granted(sys', s) {
      var u :| InTx(sys, u) && u.freshness == s;
      assert InTx(sys', u);
    }
  }

  lemma AppendTxHistory(scope: Scope, log: seq<Transaction>, p: Prepared)
    requires TxHistory(scope, log) && scope == p.candidate.scope
    requires p.candidate.Valid() && Purpose(p.candidate.operation) == scope.purposeDomain
    requires p.candidate.operation == BootstrapOperation ==>
      p.previousGeneration == None && Initial(p.candidate.freshness)
    requires p.candidate.operation == EpochTransitionOperation ==> p.candidate.freshness.generation > 0
    requires p.previousGeneration == None ==> p.candidate.generation == 0
    requires p.previousGeneration.Some? ==>
      && p.candidate.generation == p.previousGeneration.value + 1
      && (p.previousReplay.Some? ==> p.previousReplay.value.sequence < p.candidate.sequence)
      && p.previousFreshness.Some? && TransitionStep(p.previousFreshness.value, p.candidate.freshness)
    requires T.Accepts(if log == [] then T.NotEstablished else T.StateValid(log[|log| - 1]), p)
    ensures TxHistory(scope, log + [p.candidate]) && p.candidate.generation == |log|
  {
    hide FreshStep, TransitionStep, Initial;
    if log != [] {
      assert TxEntry(scope, log, |log| - 1);
    }
    forall i | 0 <= i < |log| ensures TxEntry(scope, log + [p.candidate], i) {
      assert TxEntry(scope, log, i);
    }
    assert TxEntry(scope, log + [p.candidate], |log|);
  }

  lemma BeginKeepsInv(sys: System, e: Event)
    requires Inv(sys) && Allowed(sys, e)
    requires e.BeginEstablish? || e.BeginBootstrap? || e.BeginTransition? || e.BeginReconcile?
    ensures Inv(BeginStep(sys, e))
  {
    hide FreshHistory, TxHistory, FreshStep, TransitionStep, Initial, AfterLoad, BootstrapGates, TransitionGates,
      EvaluateReplay;
    EndedIsOk(sys);
    BecomeKeepsInv(sys, e.c, Ended);
    if e.c !in sys.sessions {
      match e
      case BeginEstablish(c, stmt, fails) =>
        if stmt.Valid() && BeginStep(sys, e) != Become(sys, c, Ended) {
          EstablishIsOk(sys, stmt, fails);
          var w := AfterLoad(Current(sys, stmt.producerId), stmt).value;
          BecomeKeepsInv(sys, c, FreshPrepared(stmt, w));
        }
      case BeginBootstrap(c, ordinary, trigger, o, previousReplay, scopes) =>
        var gates := BootstrapGates(ordinary, trigger, Some(o), EvaluateReplay(Some(o), previousReplay, scopes),
                                    previousReplay);
        if gates.Ok? {
          BootstrapIsOk(sys, ordinary, trigger, o, previousReplay, scopes, gates.value);
          BecomeKeepsInv(sys, c, TxPrepared(gates.value));
        }
      case BeginTransition(c, ordinary, trigger, o, previousReplay, scopes, previous, previousGeneration) =>
        var gates := TransitionGates(ordinary, trigger, Some(o), EvaluateReplay(Some(o), previousReplay, scopes),
                                     previousReplay, previous, previousGeneration);
        if gates.Ok? {
          TransitionIsOk(sys, ordinary, trigger, o, previousReplay, scopes, previous, previousGeneration, gates.value);
          BecomeKeepsInv(sys, c, TxPrepared(gates.value));
        }
      case BeginReconcile(c, scope, generation) =>
        if generation < |TxLog(sys, scope)| {
          var t := TxLog(sys, scope)[generation];
          assert InTx(sys, t) by {
            TransactionIsInTx(sys, scope, generation);
          }
          BecomeKeepsInv(sys, c, TxVerified(t));
        }
    }
  }

  lemma TransactionIsInTx(sys: System, scope: Scope, i: nat)
    requires TxOk(sys) && i < |TxLog(sys, scope)|
    ensures InTx(sys, TxLog(sys, scope)[i])
  {
    assert TxHistory(scope, TxLog(sys, scope));
    assert TxEntry(scope, TxLog(sys, scope), i);
  }

  lemma EstablishIsOk(sys: System, stmt: Statement, fails: bool)
    requires Inv(sys) && stmt.Valid()
    requires AfterLoad(if fails then StateUnavailable else Current(sys, stmt.producerId), stmt).Ok?
    ensures !fails && FreshWriteOk(sys, stmt, AfterLoad(Current(sys, stmt.producerId), stmt).value)
  {
    var log := FreshLog(sys, stmt.producerId);
    LastGeneration(stmt.producerId, log);
    PreparedIsAdvance(Current(sys, stmt.producerId), stmt);
  }

  lemma BootstrapIsOk(sys: System, ordinary: bool, trigger: Outcome, o: Object, previousReplay: Option<ReplayState>,
                      scopes: int, p: Prepared)
    requires o.Valid()
    requires BootstrapGates(ordinary, trigger, Some(o), EvaluateReplay(Some(o), previousReplay, scopes),
                            previousReplay) == Ok(p)
    ensures PreparedOk(sys, p)
  {
    BootstrapGatesMean(ordinary, trigger, o, previousReplay, scopes, p);
  }

  lemma TransitionIsOk(sys: System, ordinary: bool, trigger: Outcome, o: Object, previousReplay: Option<ReplayState>,
                       scopes: int, previous: State, previousGeneration: Option<int>, p: Prepared)
    requires Inv(sys) && o.Valid() && previous in FreshLog(sys, previous.producerId)
    requires TransitionGates(ordinary, trigger, Some(o), EvaluateReplay(Some(o), previousReplay, scopes),
                             previousReplay, previous, previousGeneration) == Ok(p)
    ensures PreparedOk(sys, p)
  {
    hide EvaluateReplay, TransitionGates;
    var log := FreshLog(sys, previous.producerId);
    assert FreshHistory(previous.producerId, log);
    var i :| 0 <= i < |log| && log[i] == previous;
    assert FreshEntry(previous.producerId, log, i);
    TransitionGatesMean(ordinary, trigger, o, previousReplay, scopes, previous, previousGeneration, p);
    ReplayAdvances(o, previousReplay, scopes);
  }

  /** A replay candidate advances the sequence of the scope it was evaluated in. */
  lemma ReplayAdvances(o: Object, previousReplay: Option<ReplayState>, scopes: int)
    ensures EvaluateReplay(Some(o), previousReplay, scopes).Candidate? && previousReplay.Some? ==>
      previousReplay.value.scope == ScopeOf(o) && previousReplay.value.sequence < o.sequence
  {
  }

  lemma ContinueKeepsInv(sys: System, e: Event)
    requires Inv(sys) && e.c in sys.sessions
    ensures Inv(ContinueStep(sys, e, sys.sessions[e.c]))
  {
    hide FreshHistory, TxHistory, Grantable, FreshStep, TransitionStep, Initial, Advance;
    var c, session := e.c, sys.sessions[e.c];
    EndedIsOk(sys);
    BecomeKeepsInv(sys, c, Ended);
    match (e, session)
    case (CommitFresh(_, fault), FreshPrepared(stmt, w)) =>
      CommitFreshKeepsInv(sys, c, stmt, w, fault);
    case (VerifyFresh(_, _), FreshCommitted(stmt, w)) =>
      BecomeKeepsInv(sys, c, FreshDone(stmt, w));
    case (CommitTx(_, fault), TxPrepared(p)) =>
      CommitTransactionKeepsInv(sys, c, p, fault);
    case (VerifyTx(_, _), TxCommitted(p)) =>
      BecomeKeepsInv(sys, c, TxVerified(p.candidate));
    case (LoadProjection(_, fails), TxVerified(t)) =>
      LoadProjectionKeepsInv(sys, c, t, fails);
    case (CommitProjection(_, fault), ProjectionPrepared(t, w)) =>
      CommitProjectionKeepsInv(sys, c, t, w, fault);
    case (VerifyProjection(_, _), ProjectionCommitted(t, w)) =>
      BecomeKeepsInv(sys, c, Projected(t));
    case _ =>
  }

  lemma CommitFreshKeepsInv(sys: System, c: nat, stmt: Statement, w: PreparedWrite, fault: CommitFault)
    requires Inv(sys) && c in sys.sessions && sys.sessions[c] == FreshPrepared(stmt, w)
    ensures Inv(CommitWrite(sys, c, w, fault, FreshCommitted(stmt, w)))
  {
    hide FreshHistory, TxHistory, Grantable, FreshStep, TransitionStep, Initial, Advance, CommitWrite;
    if Accepts(Current(sys, w.producerId), w.previous) {
      FreshWriteIsNext(sys, stmt, w);
    }
    forall sys' | Extends(sys, sys') && InFresh(sys', w.candidate) ensures SessionOk(sys', FreshCommitted(stmt, w)) {
      SessionOkGrows(sys, sys', sys.sessions[c]);
    }
    CommitWriteKeepsInv(sys, c, w, fault, FreshCommitted(stmt, w));
  }

  lemma CommitProjectionKeepsInv(sys: System, c: nat, t: Transaction, w: PreparedWrite, fault: CommitFault)
    requires Inv(sys) && c in sys.sessions && sys.sessions[c] == ProjectionPrepared(t, w)
    ensures Inv(CommitWrite(sys, c, w, fault, ProjectionCommitted(t, w)))
  {
    hide FreshHistory, TxHistory, Grantable, FreshStep, TransitionStep, Initial, Advance, CommitWrite;
    if Accepts(Current(sys, w.producerId), w.previous) {
      ProjectionIsNext(sys, t, w);
    }
    forall sys' | Extends(sys, sys') && InFresh(sys', w.candidate) ensures SessionOk(sys', ProjectionCommitted(t, w)) {
      SessionOkGrows(sys, sys', sys.sessions[c]);
    }
    CommitWriteKeepsInv(sys, c, w, fault, ProjectionCommitted(t, w));
  }

  lemma LoadProjectionKeepsInv(sys: System, c: nat, t: Transaction, fails: bool)
    requires Inv(sys) && InTx(sys, t) && c in sys.sessions && sys.sessions[c] == TxVerified(t)
    ensures Inv(ContinueStep(sys, LoadProjection(c, fails), TxVerified(t)))
  {
    hide Inv, SessionOk, ReconcileAfterLoad, InTx;
    EndedIsOk(sys);
    BecomeKeepsInv(sys, c, Ended);
    ReconcileLoadIsOk(sys, t, fails);
    match ReconcileAfterLoad(if fails then StateUnavailable else Current(sys, t.freshness.producerId), t.freshness)
    case Err(code) =>
      if code.Success() {
        BecomeKeepsInv(sys, c, Projected(t));
      }
    case Ok(w) => BecomeKeepsInv(sys, c, ProjectionPrepared(t, w));
  }

  lemma ReconcileLoadIsOk(sys: System, t: Transaction, fails: bool)
    requires Inv(sys) && InTx(sys, t)
    ensures match ReconcileAfterLoad(if fails then StateUnavailable else Current(sys, t.freshness.producerId),
                                     t.freshness)
      case Err(code) => code.Success() ==> SessionOk(sys, Projected(t))
      case Ok(w) => SessionOk(sys, ProjectionPrepared(t, w))
  {
    hide TxOk, SessionsOk, FreshOk, Initial, FreshStep, TransitionStep;
    LastStored(sys, t.freshness.producerId);
    TransactionIsValid(sys, t);
  }

  lemma LastStored(sys: System, id: string)
    requires FreshOk(sys)
    ensures Current(sys, id).StateValid? ==>
      InFresh(sys, Current(sys, id).state) && Current(sys, id).state.producerId == id
  {
    LastGeneration(id, FreshLog(sys, id));
  }

  lemma TransactionIsValid(sys: System, t: Transaction)
    requires TxOk(sys) && InTx(sys, t)
    ensures t.Valid() && TxEntry(t.scope, TxLog(sys, t.scope), t.generation)
  {
    assert TxHistory(t.scope, TxLog(sys, t.scope));
    assert TxEntry(t.scope, TxLog(sys, t.scope), t.generation);
  }

  lemma StepKeepsInv(sys: System, e: Event)
    requires Inv(sys) && Allowed(sys, e)
    ensures Inv(Step(sys, e))
  {
    hide Inv, ContinueStep, BeginStep, Allowed;
    if e.BeginEstablish? || e.BeginBootstrap? || e.BeginTransition? || e.BeginReconcile? {
      BeginKeepsInv(sys, e);
    } else if e.c in sys.sessions {
      ContinueKeepsInv(sys, e);
    }
  }

  lemma {:induction false} RunKeepsInv(sys: System, es: seq<Event>)
    requires Inv(sys) && AllowedRun(sys, es)
    ensures Inv(Run(sys, es))
    decreases |es|
  {
    hide Inv, Step, Allowed;
    if es != [] {
      StepKeepsInv(sys, es[0]);
      RunKeepsInv(Step(sys, es[0]), es[1..]);
    }
  }

  lemma InitIsInv()
    ensures Inv(INIT)
  {
  }

  lemma ReachableInv(es: seq<Event>)
    requires AllowedRun(INIT, es)
    ensures Inv(Run(INIT, es))
  {
    InitIsInv();
    RunKeepsInv(INIT, es);
  }
}
