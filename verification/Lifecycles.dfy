/** The drivers over the two stores: establishing freshness, projecting a verified
    transaction into the freshness store, and the bootstrap and epoch-transition
    lifecycles.  The decisions between two backend calls are functions, shared with the
    interleaved model in module Protocol. */
module Lifecycles {
  import opened Wrappers
  import opened FreshnessState
  import opened Authorization
  import opened F = FreshnessBackend
  import opened HostFiles
  import T = AuthorizationBackend
  import Decimal

  // ---------------------------------------------------------------- establishing freshness

  datatype OutcomeCode =
    | FRESH
    | OUT_FIRST_SEEN
    | OUT_REPLAY
    | OUT_LOGICAL_TIME_ROLLBACK
    | OUT_EPOCH_TRANSITION_REQUIRED
    | OUT_EPOCH_ROLLBACK
    | FRESHNESS_STATE_INVALID
    | FRESHNESS_STATE_UNAVAILABLE
    | FRESHNESS_STATE_ROLLBACK
    | FRESHNESS_STATE_PERSIST_FAILURE
    | FRESHNESS_GENERATION_EXHAUSTED
    | REQUEST_REJECTED   // a field validator raised

  datatype Outcome = Outcome(code: OutcomeCode, statement: Statement, state: Option<State>)

  function TerminalCode(v: Verdict): OutcomeCode
    requires v != FRESH_CANDIDATE
  {
    match v
    case FIRST_SEEN => OUT_FIRST_SEEN
    case REPLAY => OUT_REPLAY
    case LOGICAL_TIME_ROLLBACK => OUT_LOGICAL_TIME_ROLLBACK
    case EPOCH_ROLLBACK => OUT_EPOCH_ROLLBACK
    case EPOCH_TRANSITION_REQUIRED => OUT_EPOCH_TRANSITION_REQUIRED
  }

  /** From the loaded state to a prepared write, or to a terminal outcome. */
  function AfterLoad(loaded: LoadResult, stmt: Statement): Result<PreparedWrite, OutcomeCode> {
    match loaded
    case NotEstablished => Err(OUT_FIRST_SEEN)
    case StateInvalid => Err(FRESHNESS_STATE_INVALID)
    case StateUnavailable => Err(FRESHNESS_STATE_UNAVAILABLE)
    case StateRollback => Err(FRESHNESS_STATE_ROLLBACK)
    case StateValid(s) =>
      match Evaluate(Some(s), stmt)
      case Err(_) => Err(REQUEST_REJECTED)
      case Ok(v) =>
        if v != FRESH_CANDIDATE then Err(TerminalCode(v))
        else if s.generation == Decimal.UINT64_MAX then Err(FRESHNESS_GENERATION_EXHAUSTED)
        else
          match PrepareWrite(Some(s), Advance(s, stmt.time))
          case None => Err(FRESHNESS_STATE_PERSIST_FAILURE)
          case Some(p) => Ok(p)
  }

  /** What a prepared write is, seen from the state it was prepared over. */
  lemma PreparedIsAdvance(loaded: LoadResult, stmt: Statement)
    requires loaded.StateValid? && loaded.state.Valid() && stmt.Valid() && loaded.state.producerId == stmt.producerId
    ensures AfterLoad(loaded, stmt).Ok?
      <==> Evaluate(Some(loaded.state), stmt) == Ok(FRESH_CANDIDATE) && loaded.state.generation < Decimal.UINT64_MAX
    ensures AfterLoad(loaded, stmt).Ok? ==>
      && AfterLoad(loaded, stmt).value
        == PreparedWrite(stmt.producerId, Some(loaded.state), Advance(loaded.state, stmt.time))
      && AfterLoad(loaded, stmt).value.Valid()
      && FreshStep(loaded.state, Advance(loaded.state, stmt.time))
  {
  }

  /** The statement is of the stored epoch and later than everything accepted in it. */
  predicate IsLater(s: State, stmt: Statement) {
    stmt.epoch == s.currentEpoch && (s.highestLogicalTime == None || s.highestLogicalTime.value < stmt.time)
  }

  /** Which outcome a stored record allows, by comparing epochs and times alone. */
  predicate Judged(s: State, stmt: Statement, code: OutcomeCode) {
    && (code == OUT_REPLAY <==> stmt.epoch == s.currentEpoch && s.highestLogicalTime == Some(stmt.time))
    && (code == OUT_LOGICAL_TIME_ROLLBACK <==>
      stmt.epoch == s.currentEpoch && s.highestLogicalTime.Some? && stmt.time < s.highestLogicalTime.value)
    && (code == OUT_EPOCH_ROLLBACK <==> s.previousEpoch == Some(stmt.epoch))
    && (code == OUT_EPOCH_TRANSITION_REQUIRED <==>
      stmt.epoch != s.currentEpoch && s.previousEpoch != Some(stmt.epoch))
    && (code == FRESHNESS_GENERATION_EXHAUSTED <==> IsLater(s, stmt) && s.generation == Decimal.UINT64_MAX)
    && (code in {FRESH, FRESHNESS_STATE_PERSIST_FAILURE} <==> IsLater(s, stmt) && s.generation < Decimal.UINT64_MAX)
  }

  /** The record a fresh statement leaves. */
  function Accepting(s: State, stmt: Statement): State {
    s.(highWaterState := SET, highestLogicalTime := Some(stmt.time), generation := s.generation + 1)
  }

  /** The decision is exactly that comparison; a prepared write is exactly that record. */
  lemma AfterLoadJudges(s: State, stmt: Statement)
    requires s.Valid() && stmt.Valid() && s.producerId == stmt.producerId
    ensures AfterLoad(StateValid(s), stmt).Err? ==> Judged(s, stmt, AfterLoad(StateValid(s), stmt).error)
    ensures AfterLoad(StateValid(s), stmt).Ok? ==>
      && Judged(s, stmt, FRESH) && Judged(s, stmt, FRESHNESS_STATE_PERSIST_FAILURE)
      && AfterLoad(StateValid(s), stmt).value == PreparedWrite(stmt.producerId, Some(s), Accepting(s, stmt))
  {
  }

  datatype EstablishFaults = EstablishFaults(loadFails: bool, commit: HostFaults, verifyFails: bool)

  /** One uninterrupted freshness decision.  FRESH exactly when the statement was a
      candidate for the stored state and nothing failed; then the store holds the
      advanced state.  Otherwise the store is unchanged, or it already holds the advanced
      state while a persistence failure is reported. */
  method EstablishFreshness(backend: HostFreshnessBackend, stmt: Statement, f: EstablishFaults)
    returns (outcome: Outcome)
    modifies backend.disk
    ensures outcome.statement == stmt
    ensures forall id :: id != stmt.producerId ==> backend.Stored(id) == old(backend.Stored(id))
    ensures !stmt.Valid() ==> outcome.code == REQUEST_REJECTED && backend.disk.files == old(backend.disk.files)
    ensures stmt.Valid() ==>
      var stored := if f.loadFails then StateUnavailable else old(backend.Stored(stmt.producerId));
      match AfterLoad(stored, stmt)
      case Err(code) => outcome.code == code && backend.disk.files == old(backend.disk.files)
      case Ok(p) =>
        var fault := Abstract(backend.sha256, p.candidate, f.commit);
        && stored == StateValid(p.previous.value)
        && p.candidate == Advance(p.previous.value, stmt.time)
        && Evaluate(p.previous, stmt) == Ok(FRESH_CANDIDATE)
        && backend.Stored(stmt.producerId)
          == (if fault.NoFault? || fault.FailsAfter? then StateValid(p.candidate) else stored)
        && outcome.code == (if fault.NoFault? && !f.verifyFails then FRESH else FRESHNESS_STATE_PERSIST_FAILURE)
        && (outcome.code == FRESH ==> outcome.state == Some(p.candidate))
    ensures stmt.Valid() && f.loadFails ==> outcome.code == FRESHNESS_STATE_UNAVAILABLE
    ensures stmt.Valid() && !f.loadFails ==>
      match old(backend.Stored(stmt.producerId))
      case NotEstablished => outcome.code == OUT_FIRST_SEEN
      case StateInvalid => outcome.code == FRESHNESS_STATE_INVALID
      case StateValid(s) =>
        && Judged(s, stmt, outcome.code)
        && (outcome.code == FRESH ==> backend.Stored(stmt.producerId) == StateValid(Accepting(s, stmt)))
        && (Abstract(backend.sha256, Accepting(s, stmt), f.commit).NoFault? && !f.verifyFails ==>
              outcome.code != FRESHNESS_STATE_PERSIST_FAILURE)
      case _ => false
  {
    hide LoadFrom, Abstract, CarriesRecord, ReachesRename;
    if !stmt.Valid() {
      return Outcome(REQUEST_REJECTED, stmt, None);
    }
    var loaded := backend.Load(stmt.producerId, f.loadFails);
    backend.StoredCases(stmt.producerId);
    if loaded.StateValid? {
      AfterLoadJudges(loaded.state, stmt);
    }
    hide Judged, Accepting;
    var next := AfterLoad(loaded, stmt);
    if next.Err? {
      return Outcome(next.error, stmt, None);
    }
    var prepared := next.value;
    PreparedIsAdvance(loaded, stmt);
    var committed := backend.Commit(prepared, f.commit);
    if !committed.Committed? {
      return Outcome(FRESHNESS_STATE_PERSIST_FAILURE, stmt, None);
    }
    var verified := backend.Verify(prepared, f.verifyFails);
    if verified != Verified(prepared.candidate) {
      return Outcome(FRESHNESS_STATE_PERSIST_FAILURE, stmt, None);
    }
    outcome := Outcome(FRESH, stmt, Some(prepared.candidate));
  }

  // ---------------------------------------------------------------- reconciliation

  datatype ReconciliationCode =
    | RECONCILED
    | ALREADY_RECONCILED
    | REC_STATE_INVALID
    | REC_STATE_UNAVAILABLE
    | REC_STATE_ROLLBACK
    | REC_STATE_CONFLICT
    | REC_PERSIST_FAILURE
  {
    predicate Success() {
      RECONCILED? || ALREADY_RECONCILED?
    }
  }

  /** From the loaded projection to the write that installs `target`, or to an end. */
  function ReconcileAfterLoad(loaded: LoadResult, target: State): Result<PreparedWrite, ReconciliationCode> {
    match loaded
    case StateInvalid => Err(REC_STATE_INVALID)
    case StateUnavailable => Err(REC_STATE_UNAVAILABLE)
    case StateRollback => Err(REC_STATE_ROLLBACK)
    case NotEstablished => ReconcileWrite(None, target)
    case StateValid(current) =>
      if current == target then Err(ALREADY_RECONCILED)
      else if current.generation >= target.generation then Err(REC_STATE_CONFLICT)
      else ReconcileWrite(Some(current), target)
  }

  function ReconcileWrite(previous: Option<State>, target: State): Result<PreparedWrite, ReconciliationCode> {
    match PrepareWrite(previous, target)
    case None => Err(REC_PERSIST_FAILURE)
    case Some(p) => Ok(p)
  }

  datatype ReconcileFaults = ReconcileFaults(loadFails: bool, commit: HostFaults, verifyFails: bool)

  predicate NoReconcileFaults(sha256: string -> string, target: State, f: ReconcileFaults) {
    !f.loadFails && Abstract(sha256, target, f.commit).NoFault? && !f.verifyFails
  }

  /** The end of one reconciliation and the record it leaves behind. */
  function ReconcileEffect(stored: LoadResult, target: State, loadFails: bool, fault: CommitFault, verifyFails: bool)
    : (ReconciliationCode, LoadResult)
  {
    match ReconcileAfterLoad(if loadFails then StateUnavailable else stored, target)
    case Err(code) => (code, stored)
    case Ok(p) =>
      var (result, after) := CommitEffect(stored, p, fault);
      (if result.Committed? && !verifyFails then RECONCILED else REC_PERSIST_FAILURE, after)
  }

  /** Success means the store holds exactly the target; a changed record is the target;
      the stored generation never falls; and a run without faults over a readable record
      ends reconciled or in conflict, reconciled exactly when the store was empty, behind
      the target, or already there. */
  lemma ReconcileMeans(stored: LoadResult, target: State, loadFails: bool, fault: CommitFault, verifyFails: bool)
    ensures var (code, after) := ReconcileEffect(stored, target, loadFails, fault, verifyFails);
      && (code.Success() ==> after == StateValid(target))
      && (after == stored || after == StateValid(target))
      && (stored.StateValid? ==> after.StateValid? && stored.state.generation <= after.state.generation)
      && (!loadFails && fault.NoFault? && !verifyFails ==>
        && (code.Success() <==> Projects(stored, target))
        && (stored.StateValid? || stored.NotEstablished? ==> code.Success() || code == REC_STATE_CONFLICT))
  {
  }

  /** Where a target can still be projected. */
  predicate Projects(stored: LoadResult, target: State) {
    match stored
    case NotEstablished => true
    case StateValid(current) => current == target || current.generation < target.generation
    case _ => false
  }

  /** Whatever interrupted the first run, a second run without faults ends as an
      undisturbed first run would have, except that it may find the work already done;
      and after a success it changes nothing more. */
  lemma ReconcileRetry(stored: LoadResult, target: State, loadFails: bool, fault: CommitFault, verifyFails: bool)
    ensures var (first, middle) := ReconcileEffect(stored, target, loadFails, fault, verifyFails);
      var (second, last) := ReconcileEffect(middle, target, false, NoFault, false);
      var (alone, undisturbed) := ReconcileEffect(stored, target, false, NoFault, false);
      && last == undisturbed
      && second.Success() == alone.Success()
      && (first.Success() ==> second == ALREADY_RECONCILED && last == middle)
      && (first == REC_STATE_CONFLICT ==> second == REC_STATE_CONFLICT && last == stored)
  {
  }

  /** Project the resulting state of one verified transaction.  At every content of the
      directory a crash could leave, the record is the old one or the target. */
  method Reconcile(target: State, backend: HostFreshnessBackend, f: ReconcileFaults)
    returns (code: ReconciliationCode)
    requires target.Valid()
    modifies backend.disk
    ensures (code, backend.Stored(target.producerId))
      == ReconcileEffect(old(backend.Stored(target.producerId)), target, f.loadFails,
                         Abstract(backend.sha256, target, f.commit), f.verifyFails)
    ensures forall id :: id != target.producerId ==> backend.Stored(id) == old(backend.Stored(id))
    ensures var stored := old(backend.Stored(target.producerId));
      && (code == REC_STATE_UNAVAILABLE <==> f.loadFails)
      && (code == REC_STATE_INVALID <==> !f.loadFails && stored == StateInvalid)
      && (code == ALREADY_RECONCILED <==> !f.loadFails && stored == StateValid(target))
      && (code == REC_STATE_CONFLICT <==>
        !f.loadFails && stored.StateValid? && stored.state != target && stored.state.generation >= target.generation)
      && (code in {RECONCILED, REC_PERSIST_FAILURE} <==>
        && !f.loadFails
        && (stored == NotEstablished || (stored.StateValid? && stored.state.generation < target.generation)))
    ensures |old(backend.disk.trail)| <= |backend.disk.trail|
    ensures backend.disk.trail[..|old(backend.disk.trail)|] == old(backend.disk.trail)
    ensures forall i :: |old(backend.disk.trail)| <= i < |backend.disk.trail| ==>
      var after := LoadFrom(backend.sha256, backend.disk.trail[i], target.producerId);
      after == old(backend.Stored(target.producerId)) || after == StateValid(target)
    ensures forall i, id :: |old(backend.disk.trail)| <= i < |backend.disk.trail| && id != target.producerId ==>
      LoadFrom(backend.sha256, backend.disk.trail[i], id) == old(backend.Stored(id))
  {
    hide LoadFrom, Abstract, CarriesRecord, ReachesRename;
    var loaded := backend.Load(target.producerId, f.loadFails);
    backend.StoredCases(target.producerId);
    var next := ReconcileAfterLoad(loaded, target);
    if next.Err? {
      return next.error;
    }
    var prepared := next.value;
    var committed := backend.Commit(prepared, f.commit);
    if committed != PersistResult.Committed(target) {
      return REC_PERSIST_FAILURE;
    }
    var verified := backend.Verify(prepared, f.verifyFails);
    if verified != PersistResult.Verified(target) {
      return REC_PERSIST_FAILURE;
    }
    code := RECONCILED;
  }

  // ---------------------------------------------------------------- commit, verify, project

  datatype LifecycleFaults = LifecycleFaults(commit: HostFaults, verifyFails: bool, reconcile: ReconcileFaults)

  /** How far the durable part of a lifecycle got. */
  datatype Stage =
    | PREPARE_REFUSED
    | COMMIT_FAILED
    | VERIFY_FAILED
    | NOT_RECONCILED(code: ReconciliationCode)
    | CONSUMED

  predicate NoLifecycleFaults(transactions: T.HostAuthorizationBackend, freshness: HostFreshnessBackend,
                              p: Prepared, f: LifecycleFaults)
  {
    && T.Abstract(transactions.sha256, p.candidate, f.commit).NoFault? && !f.verifyFails
    && NoReconcileFaults(freshness.sha256, p.candidate.freshness, f.reconcile)
  }

  /** When an uninterrupted, fault-free lifecycle consumes its authorization. */
  predicate Consumes(stored: T.LoadResult, projected: LoadResult, p: Prepared) {
    && T.PrepareResult(p).PreparedOk?
    && T.Accepts(stored, p)
    && Projects(projected, p.candidate.freshness)
  }

  /** The two directories at one moment: a content a crash could leave behind. */
  datatype Disks = Disks(transactions: Files, projections: Files)

  /** Every content the two directories pass through: first the transaction directory
      changes over the old projections, then the projections under its final content. */
  function Contents(committing: seq<Files>, projections: Files, transactions: Files,
                    projecting: seq<Files>): seq<Disks> {
    seq(|committing|, i requires 0 <= i < |committing| => Disks(committing[i], projections))
    + seq(|projecting|, i requires 0 <= i < |projecting| => Disks(transactions, projecting[i]))
  }

  /** What a lifecycle may have done to the stores, finished or not: no other scope or
      producer is touched; the scope holds what it held or the candidate its comparison
      accepted; the producer holds what it held or, with the candidate committed, exactly
      the candidate's resulting state. */
  ghost predicate Durable(transactionSha: string -> string, freshnessSha: string -> string, p: Prepared, before: Disks,
                          now: Disks) {
    && TransactionDurable(transactionSha, p, before.transactions, now.transactions)
    && ProjectionDurable(freshnessSha, p, before.projections, now.projections)
    && (LoadFrom(freshnessSha, now.projections, p.candidate.freshness.producerId)
          != LoadFrom(freshnessSha, before.projections, p.candidate.freshness.producerId) ==>
        T.LoadFrom(transactionSha, now.transactions, p.candidate.scope) == T.StateValid(p.candidate))
  }

  ghost predicate TransactionDurable(sha256: string -> string, p: Prepared, before: Files, now: Files) {
    var scope := p.candidate.scope;
    && (forall s :: s != scope ==> T.LoadFrom(sha256, now, s) == T.LoadFrom(sha256, before, s))
    && (T.LoadFrom(sha256, now, scope) == T.LoadFrom(sha256, before, scope)
        || (T.LoadFrom(sha256, now, scope) == T.StateValid(p.candidate)
            && T.Accepts(T.LoadFrom(sha256, before, scope), p)))
  }

  ghost predicate ProjectionDurable(sha256: string -> string, p: Prepared, before: Files, now: Files) {
    var id := p.candidate.freshness.producerId;
    && (forall i :: i != id ==> LoadFrom(sha256, now, i) == LoadFrom(sha256, before, i))
    && (LoadFrom(sha256, now, id) == LoadFrom(sha256, before, id)
        || LoadFrom(sha256, now, id) == StateValid(p.candidate.freshness))
  }

  lemma ContentsAreDurable(transactionSha: string -> string, freshnessSha: string -> string, p: Prepared, before: Disks,
                           committing: seq<Files>, transactions: Files, projecting: seq<Files>)
    ensures var crashes := Contents(committing, before.projections, transactions, projecting);
      && (forall i :: 0 <= i < |committing| ==>
            TransactionDurable(transactionSha, p, before.transactions, committing[i]))
      && TransactionDurable(transactionSha, p, before.transactions, transactions)
      && (forall i :: 0 <= i < |projecting| ==> ProjectionDurable(freshnessSha, p, before.projections, projecting[i]))
      && (projecting != []
          ==> T.LoadFrom(transactionSha, transactions, p.candidate.scope) == T.StateValid(p.candidate)) ==>
        forall i :: 0 <= i < |crashes| ==> Durable(transactionSha, freshnessSha, p, before, crashes[i])
  {
    hide LoadFrom, T.LoadFrom, TransactionDurable, ProjectionDurable;
    var crashes := Contents(committing, before.projections, transactions, projecting);
    Unprojected(freshnessSha, p, before.projections);
    assert forall i :: 0 <= i < |committing| ==> crashes[i] == Disks(committing[i], before.projections);
    assert forall i :: |committing| <= i < |crashes| ==>
      crashes[i] == Disks(transactions, projecting[i - |committing|]);
  }

  lemma Unprojected(sha256: string -> string, p: Prepared, before: Files)
    ensures ProjectionDurable(sha256, p, before, before)
  {
    hide LoadFrom;
  }

  /** The durable half shared by both lifecycles.  Consumed means both stores agree.  The
      ghost result lists every content of the two directories during the call. */
  method ExecuteTransaction(p: Prepared, transactions: T.HostAuthorizationBackend,
                            freshness: HostFreshnessBackend, f: LifecycleFaults)
    returns (stage: Stage, ghost crashes: seq<Disks>)
    requires p.candidate.Valid() && transactions.disk != freshness.disk
    modifies transactions.disk, freshness.disk
    ensures stage == CONSUMED ==>
      && transactions.Stored(p.candidate.scope) == T.StateValid(p.candidate)
      && freshness.Stored(p.candidate.freshness.producerId) == StateValid(p.candidate.freshness)
    ensures stage == PREPARE_REFUSED <==>
      p.previousGeneration.Some? && p.candidate.generation <= p.previousGeneration.value
    ensures stage == PREPARE_REFUSED ==> transactions.disk.files == old(transactions.disk.files)
    ensures stage in {PREPARE_REFUSED, COMMIT_FAILED, VERIFY_FAILED} ==>
      freshness.disk.files == old(freshness.disk.files)
    ensures stage == VERIFY_FAILED || stage.NOT_RECONCILED? ==>
      transactions.Stored(p.candidate.scope) == T.StateValid(p.candidate)
    ensures var before := Disks(old(transactions.disk.files), old(freshness.disk.files));
      && Durable(transactions.sha256, freshness.sha256, p, before, Disks(transactions.disk.files, freshness.disk.files))
      && forall i :: 0 <= i < |crashes| ==> Durable(transactions.sha256, freshness.sha256, p, before, crashes[i])
    ensures old(transactions.disk.trail) <= transactions.disk.trail && old(freshness.disk.trail) <= freshness.disk.trail
    ensures crashes == Contents(transactions.disk.trail[|old(transactions.disk.trail)|..], old(freshness.disk.files),
                                transactions.disk.files, freshness.disk.trail[|old(freshness.disk.trail)|..])
    ensures NoLifecycleFaults(transactions, freshness, p, f) ==>
      (stage == CONSUMED <==>
        Consumes(old(transactions.Stored(p.candidate.scope)), old(freshness.Stored(p.candidate.freshness.producerId)),
                 p))
  {
    hide LoadFrom, T.LoadFrom, Abstract, T.Abstract, T.Accepts, CarriesRecord, ReachesRename,
      T.CarriesTransaction, T.ReachesRename;
    ghost var before := Disks(transactions.disk.files, freshness.disk.files);
    ghost var transactionTrail, freshnessTrail := transactions.disk.trail, freshness.disk.trail;
    crashes := [];
    Unprojected(freshness.sha256, p, before.projections);
    if T.PrepareResult(p) != T.PreparedOk(p.candidate) {
      return PREPARE_REFUSED, crashes;
    }
    var committed := CommitDurably(p, transactions, f.commit);
    ghost var committing, after := transactions.disk.trail[|transactionTrail|..], transactions.disk.files;
    crashes := Contents(committing, freshness.disk.files, after, []);
    ContentsAreDurable(transactions.sha256, freshness.sha256, p, before, committing, after, []);
    if committed != T.Committed(p.candidate) {
      return COMMIT_FAILED, crashes;
    }
    var verified := transactions.Verify(p, f.verifyFails);
    if verified != T.Verified(p.candidate) {
      return VERIFY_FAILED, crashes;
    }
    var code := ProjectDurably(p, freshness, f.reconcile);
    ghost var projecting := freshness.disk.trail[|freshnessTrail|..];
    crashes := crashes + Contents([], before.projections, transactions.disk.files, projecting);
    assert crashes == Contents(committing, before.projections, after, projecting);
    ContentsAreDurable(transactions.sha256, freshness.sha256, p, before, committing, after, projecting);
    stage := if code.Success() then CONSUMED else NOT_RECONCILED(code);
  }

  /** The commit, as the durable record sees it. */
  method CommitDurably(p: Prepared, transactions: T.HostAuthorizationBackend, f: HostFaults)
    returns (r: T.PersistResult)
    requires p.candidate.Valid()
    modifies transactions.disk
    ensures (r, transactions.Stored(p.candidate.scope))
      == T.CommitEffect(old(transactions.Stored(p.candidate.scope)), p, T.Abstract(transactions.sha256, p.candidate, f))
    ensures old(transactions.disk.trail) <= transactions.disk.trail
    ensures TransactionDurable(transactions.sha256, p, old(transactions.disk.files), transactions.disk.files)
    ensures var committing := transactions.disk.trail[|old(transactions.disk.trail)|..];
      forall i :: 0 <= i < |committing| ==>
        TransactionDurable(transactions.sha256, p, old(transactions.disk.files), committing[i])
  {
    hide LoadFrom, T.LoadFrom, Abstract, T.Abstract, T.Accepts, CarriesRecord, ReachesRename,
      T.CarriesTransaction, T.ReachesRename;
    ghost var before, trail := transactions.disk.files, transactions.disk.trail;
    r := transactions.Commit(p, f);
    forall s | s != p.candidate.scope
      ensures T.LoadFrom(transactions.sha256, transactions.disk.files, s) == T.LoadFrom(transactions.sha256, before, s)
    {
      assert transactions.Stored(s) == old(transactions.Stored(s));
    }
    ghost var committing := transactions.disk.trail[|trail|..];
    forall i | 0 <= i < |committing| ensures TransactionDurable(transactions.sha256, p, before, committing[i]) {
      assert committing[i] == transactions.disk.trail[|trail| + i];
      forall s | s != p.candidate.scope
        ensures T.LoadFrom(transactions.sha256, committing[i], s) == T.LoadFrom(transactions.sha256, before, s)
      {
        assert old(transactions.Stored(s)) == T.LoadFrom(transactions.sha256, before, s);
      }
    }
  }

  /** The projection, as the durable record sees it. */
  method ProjectDurably(p: Prepared, freshness: HostFreshnessBackend, f: ReconcileFaults)
    returns (code: ReconciliationCode)
    requires p.candidate.Valid()
    modifies freshness.disk
    ensures (code, freshness.Stored(p.candidate.freshness.producerId))
      == ReconcileEffect(old(freshness.Stored(p.candidate.freshness.producerId)), p.candidate.freshness, f.loadFails,
                         Abstract(freshness.sha256, p.candidate.freshness, f.commit), f.verifyFails)
    ensures old(freshness.disk.trail) <= freshness.disk.trail
    ensures ProjectionDurable(freshness.sha256, p, old(freshness.disk.files), freshness.disk.files)
    ensures var projecting := freshness.disk.trail[|old(freshness.disk.trail)|..];
      forall i :: 0 <= i < |projecting| ==>
        ProjectionDurable(freshness.sha256, p, old(freshness.disk.files), projecting[i])
  {
    hide LoadFrom, T.LoadFrom, Abstract, T.Abstract, CarriesRecord, ReachesRename, T.CarriesTransaction,
      T.ReachesRename;
    ghost var before, trail := freshness.disk.files, freshness.disk.trail;
    code := Reconcile(p.candidate.freshness, freshness, f);
    forall id | id != p.candidate.freshness.producerId
      ensures LoadFrom(freshness.sha256, freshness.disk.files, id) == LoadFrom(freshness.sha256, before, id)
    {
      assert freshness.Stored(id) == old(freshness.Stored(id));
    }
    ghost var projecting := freshness.disk.trail[|trail|..];
    forall i | 0 <= i < |projecting| ensures ProjectionDurable(freshness.sha256, p, before, projecting[i]) {
      assert projecting[i] == freshness.disk.trail[|trail| + i];
      forall id | id != p.candidate.freshness.producerId
        ensures LoadFrom(freshness.sha256, projecting[i], id) == LoadFrom(freshness.sha256, before, id)
      {
        assert old(freshness.Stored(id)) == LoadFrom(freshness.sha256, before, id);
      }
    }
  }

  // ---------------------------------------------------------------- the two lifecycles

  datatype LifecycleCode =
    | AUTHORIZED
    | ORDINARY_AUTHENTICATION_REQUIRED
    | TRIGGER_REQUIRED                      // FIRST_SEEN, or EPOCH_TRANSITION_REQUIRED
    | AUTHORIZATION_AUTHENTICATION_REQUIRED
    | AUTHORIZATION_OBJECT_INVALID
    | AUTHORIZATION_REPLAY_NOT_CANDIDATE
    | PRODUCER_MISMATCH
    | EPOCH_MISMATCH                        // bootstrap
    | LOGICAL_TIME_MISMATCH                 // bootstrap
    | FROM_EPOCH_MISMATCH                   // transition
    | TO_EPOCH_MISMATCH                     // transition
    | TRANSITION_SEQUENCE_EXHAUSTED         // transition
    | TRANSITION_SEQUENCE_MISMATCH          // transition
    | TARGET_GENERATION_EXHAUSTED       // transition
    | TRANSACTION_PREPARE_FAILURE
    | STAGE_FAILURE(stage: Stage)

  function InitialFreshnessState(a: Object): State
    requires a.Bootstrap?
  {
    match a.initialHighWater
    case HIGH_WATER_UNSET => MakeUnset(a.producerId, a.producerEpoch, None, 0, 0)
    case HIGH_WATER_ESTABLISHED => State(a.producerId, a.producerEpoch, None, SET, a.initialLogicalTime, 0, 0)
  }

  /** Every bootstrap gate before the first backend call, in order. */
  function BootstrapGates(ordinaryAuthenticated: bool, trigger: Outcome, authenticated: Authenticated,
                          replay: ReplayOutcome, previousReplay: Option<ReplayState>): Result<Prepared, LifecycleCode>
  {
    if !ordinaryAuthenticated then Err(ORDINARY_AUTHENTICATION_REQUIRED)
    else if trigger.code != OUT_FIRST_SEEN then Err(TRIGGER_REQUIRED)
    else if authenticated.None? then Err(AUTHORIZATION_AUTHENTICATION_REQUIRED)
    else if !authenticated.value.Bootstrap? then Err(AUTHORIZATION_OBJECT_INVALID)
    else if !replay.Candidate? then Err(AUTHORIZATION_REPLAY_NOT_CANDIDATE)
    else
      var a := authenticated.value;
      if a.producerId != trigger.statement.producerId then Err(PRODUCER_MISMATCH)
      else if a.producerEpoch != trigger.statement.epoch then Err(EPOCH_MISMATCH)
      else if a.initialHighWater == HIGH_WATER_ESTABLISHED && a.initialLogicalTime != Some(trigger.statement.time)
      then Err(LOGICAL_TIME_MISMATCH)
      else if !InitialFreshnessState(a).Valid() then Err(AUTHORIZATION_OBJECT_INVALID)
      else
        match Prepare(replay, previousReplay, None, InitialFreshnessState(a), None, BootstrapOperation)
        case Err(_) => Err(TRANSACTION_PREPARE_FAILURE)
        case Ok(p) => Ok(p)
  }

  /** Every epoch-transition gate before the first backend call, in order. */
  function TransitionGates(ordinaryAuthenticated: bool, trigger: Outcome, authenticated: Authenticated,
                           replay: ReplayOutcome, previousReplay: Option<ReplayState>, previous: State,
                           previousGeneration: Option<int>): Result<Prepared, LifecycleCode>
  {
    if !ordinaryAuthenticated then Err(ORDINARY_AUTHENTICATION_REQUIRED)
    else if trigger.code != OUT_EPOCH_TRANSITION_REQUIRED then Err(TRIGGER_REQUIRED)
    else if authenticated.None? then Err(AUTHORIZATION_AUTHENTICATION_REQUIRED)
    else if !authenticated.value.EpochTransition? then Err(AUTHORIZATION_OBJECT_INVALID)
    else if !replay.Candidate? then Err(AUTHORIZATION_REPLAY_NOT_CANDIDATE)
    else
      var a := authenticated.value;
      if a.producerId != previous.producerId then Err(PRODUCER_MISMATCH)
      else if a.producerId != trigger.statement.producerId then Err(PRODUCER_MISMATCH)
      else if a.fromEpoch != previous.currentEpoch then Err(FROM_EPOCH_MISMATCH)
      else if a.toEpoch != trigger.statement.epoch then Err(TO_EPOCH_MISMATCH)
      else if previous.transitionSequence == Decimal.UINT64_MAX then Err(TRANSITION_SEQUENCE_EXHAUSTED)
      else if a.transitionSequence != previous.transitionSequence + 1 then Err(TRANSITION_SEQUENCE_MISMATCH)
      else if previous.generation == Decimal.UINT64_MAX then Err(TARGET_GENERATION_EXHAUSTED)
      else if !Transition(previous, a.toEpoch, a.transitionSequence).Valid() then Err(AUTHORIZATION_OBJECT_INVALID)
      else
        match Prepare(replay, previousReplay, Some(previous), Transition(previous, a.toEpoch, a.transitionSequence),
                      previousGeneration, EpochTransitionOperation)
        case Err(_) => Err(TRANSACTION_PREPARE_FAILURE)
        case Ok(p) => Ok(p)
  }

  /** What passing the bootstrap gates means: the candidate grants exactly an initial
      state of the triggering producer and epoch, and it can only be the first
      transaction of its scope. */
  lemma BootstrapGatesMean(ordinaryAuthenticated: bool, trigger: Outcome, a: Object,
                           previousReplay: Option<ReplayState>,
                           scopes: int, p: Prepared)
    requires a.Valid()
    requires BootstrapGates(ordinaryAuthenticated, trigger, Some(a), EvaluateReplay(Some(a), previousReplay, scopes),
                            previousReplay) == Ok(p)
    ensures a.Bootstrap? && p.candidate.scope == ScopeOf(a) && p.candidate.operation == BootstrapOperation
    ensures
      && Initial(p.candidate.freshness)
      && p.candidate.freshness.producerId == a.producerId == trigger.statement.producerId
    ensures p.candidate.freshness.currentEpoch == trigger.statement.epoch
    ensures p.previousGeneration == None && Succeeds(None, p.candidate)
    ensures p.candidate.freshness.highestLogicalTime in {None, Some(trigger.statement.time)}
  {
  }

  /** What passing the transition gates means: the candidate grants the exact next epoch
      state after `previous`, and it is a legal successor of whatever it is committed over. */
  lemma TransitionGatesMean(ordinaryAuthenticated: bool, trigger: Outcome, a: Object,
                            previousReplay: Option<ReplayState>,
                            scopes: int, previous: State, previousGeneration: Option<int>, p: Prepared)
    requires a.Valid() && previous.Valid()
    requires TransitionGates(ordinaryAuthenticated, trigger, Some(a), EvaluateReplay(Some(a), previousReplay, scopes),
                             previousReplay, previous, previousGeneration) == Ok(p)
    ensures a.EpochTransition? && p.candidate.scope == ScopeOf(a) && p.candidate.operation == EpochTransitionOperation
    ensures TransitionStep(previous, p.candidate.freshness) && p.candidate.freshness.producerId == a.producerId
    ensures p.candidate.freshness.currentEpoch == trigger.statement.epoch
    ensures p.previousGeneration == previousGeneration && p.previousFreshness == Some(previous)
    ensures EvaluateReplay(Some(a), previousReplay, scopes).Candidate?
    ensures p.previousReplay == previousReplay && p.candidate.sequence == a.sequence && p.candidate.Valid()
    ensures p.candidate.generation == if previousGeneration == None then 0 else previousGeneration.value + 1
    ensures previousGeneration == None ==> Succeeds(None, p.candidate)
    ensures forall t: Transaction ::
      t.Valid() && T.Accepts(T.StateValid(t), p) && previousGeneration.Some? ==> Succeeds(Some(t), p.candidate)
  {
  }

  // ---------------------------------------------------------------- what each lifecycle demands

  /** The object is a bootstrap authorization for exactly this trigger. */
  predicate BootstrapFits(a: Object, trigger: Statement) {
    && a.Bootstrap?
    && a.producerId == trigger.producerId && a.producerEpoch == trigger.epoch
    && (a.initialHighWater == HIGH_WATER_ESTABLISHED ==> a.initialLogicalTime == Some(trigger.time))
  }

  /** The record a bootstrap authorization grants: no epoch behind it, nothing counted. */
  function BootstrapGrant(a: Object): State
    requires a.Bootstrap?
  {
    if a.initialHighWater == HIGH_WATER_UNSET
    then State(a.producerId, a.producerEpoch, None, UNSET, None, 0, 0)
    else State(a.producerId, a.producerEpoch, None, SET, a.initialLogicalTime, 0, 0)
  }

  /** Everything a bootstrap demands before it touches a store. */
  predicate MayBootstrap(ordinaryAuthenticated: bool, trigger: Outcome, authenticated: Authenticated,
                         replay: ReplayOutcome, previousReplay: Option<ReplayState>)
  {
    && ordinaryAuthenticated && trigger.code == OUT_FIRST_SEEN
    && authenticated.Some? && BootstrapFits(authenticated.value, trigger.statement)
    && replay.Candidate? && replay.previous == previousReplay
    && BootstrapGrant(authenticated.value).Valid()
  }

  /** The one transaction it may commit: the first of its scope. */
  function BootstrapTransaction(a: Object, replay: ReplayOutcome): Transaction
    requires a.Bootstrap? && replay.Candidate?
  {
    Transaction(replay.candidate, replay.candidate.scope, 0, BootstrapGrant(a), BootstrapOperation,
                replay.authorizationId, replay.candidate.sequence)
  }

  /** The refusals of a bootstrap, each exactly when its own check is the first to fail. */
  predicate BootstrapRefused(ordinaryAuthenticated: bool, trigger: Outcome, authenticated: Authenticated,
                             replay: ReplayOutcome, previousReplay: Option<ReplayState>, code: LifecycleCode)
  {
    var told := ordinaryAuthenticated && trigger.code == OUT_FIRST_SEEN;
    var bootstrap := told && authenticated.Some? && authenticated.value.Bootstrap?;
    var candidate := bootstrap && replay.Candidate?;
    && (code == ORDINARY_AUTHENTICATION_REQUIRED <==> !ordinaryAuthenticated)
    && (code == TRIGGER_REQUIRED <==> ordinaryAuthenticated && trigger.code != OUT_FIRST_SEEN)
    && (code == AUTHORIZATION_AUTHENTICATION_REQUIRED <==> told && authenticated.None?)
    && (code == AUTHORIZATION_REPLAY_NOT_CANDIDATE <==> bootstrap && !replay.Candidate?)
    && (code == PRODUCER_MISMATCH <==> candidate && authenticated.value.producerId != trigger.statement.producerId)
    && (code == EPOCH_MISMATCH <==>
      && candidate && authenticated.value.producerId == trigger.statement.producerId
      && authenticated.value.producerEpoch != trigger.statement.epoch)
    && (code == LOGICAL_TIME_MISMATCH <==>
      && candidate && authenticated.value.producerId == trigger.statement.producerId
      && authenticated.value.producerEpoch == trigger.statement.epoch
      && !BootstrapFits(authenticated.value, trigger.statement))
    && (code == AUTHORIZATION_OBJECT_INVALID <==>
      || (told && authenticated.Some? && !authenticated.value.Bootstrap?)
      || (candidate && BootstrapFits(authenticated.value, trigger.statement)
          && !BootstrapGrant(authenticated.value).Valid()))
    && (code == TRANSACTION_PREPARE_FAILURE <==>
      && candidate && BootstrapFits(authenticated.value, trigger.statement)
      && BootstrapGrant(authenticated.value).Valid() && replay.previous != previousReplay)
  }

  /** The gates let through exactly what is demanded, and prepare exactly that transaction. */
  lemma BootstrapGatesDecide(ordinaryAuthenticated: bool, trigger: Outcome, authenticated: Authenticated,
                             replay: ReplayOutcome, previousReplay: Option<ReplayState>)
    ensures var gates := BootstrapGates(ordinaryAuthenticated, trigger, authenticated, replay, previousReplay);
      && (gates.Ok? <==> MayBootstrap(ordinaryAuthenticated, trigger, authenticated, replay, previousReplay))
      && (gates.Ok? ==>
            gates.value == Prepared(previousReplay, None, None, BootstrapTransaction(authenticated.value, replay)))
      && (gates.Err? ==>
            BootstrapRefused(ordinaryAuthenticated, trigger, authenticated, replay, previousReplay, gates.error))
      && (gates.Ok? ==> forall code :: code == AUTHORIZED || code.STAGE_FAILURE? ==>
            BootstrapRefused(ordinaryAuthenticated, trigger, authenticated, replay, previousReplay, code))
  {
  }

  /** The object is a transition authorization for exactly this trigger and this record. */
  predicate TransitionFits(a: Object, trigger: Statement, previous: State) {
    && a.EpochTransition?
    && a.producerId == previous.producerId == trigger.producerId
    && a.fromEpoch == previous.currentEpoch && a.toEpoch == trigger.epoch
    && a.transitionSequence == previous.transitionSequence + 1 <= Decimal.UINT64_MAX
    && previous.generation < Decimal.UINT64_MAX
  }

  /** The record a transition authorization grants after `previous`. */
  function TransitionGrant(a: Object, previous: State): State
    requires a.EpochTransition?
  {
    State(a.producerId, a.toEpoch, Some(a.fromEpoch), UNSET, None, a.transitionSequence, previous.generation + 1)
  }

  /** Everything a transition demands before it touches a store. */
  predicate MayTransition(ordinaryAuthenticated: bool, trigger: Outcome, authenticated: Authenticated,
                          replay: ReplayOutcome, previousReplay: Option<ReplayState>, previous: State,
                          previousGeneration: Option<int>)
  {
    && ordinaryAuthenticated && trigger.code == OUT_EPOCH_TRANSITION_REQUIRED
    && authenticated.Some? && TransitionFits(authenticated.value, trigger.statement, previous)
    && replay.Candidate? && replay.previous == previousReplay
    && TransitionGrant(authenticated.value, previous).Valid()
    && (previousGeneration.Some? ==> 0 <= previousGeneration.value < Decimal.UINT64_MAX)
  }

  /** The one transaction it may commit: the next of its scope. */
  function TransitionTransaction(a: Object, replay: ReplayOutcome, previous: State, previousGeneration: Option<int>)
    : Transaction
    requires a.EpochTransition? && replay.Candidate?
  {
    Transaction(replay.candidate, replay.candidate.scope,
                if previousGeneration.None? then 0 else previousGeneration.value + 1,
                TransitionGrant(a, previous), EpochTransitionOperation, replay.authorizationId,
                replay.candidate.sequence)
  }

  /** The refusals of a transition, each exactly when its own check is the first to fail. */
  predicate TransitionRefused(ordinaryAuthenticated: bool, trigger: Outcome, authenticated: Authenticated,
                              replay: ReplayOutcome, previousReplay: Option<ReplayState>, previous: State,
                              previousGeneration: Option<int>, code: LifecycleCode)
  {
    var told := ordinaryAuthenticated && trigger.code == OUT_EPOCH_TRANSITION_REQUIRED;
    var transition := told && authenticated.Some? && authenticated.value.EpochTransition?;
    var candidate := transition && replay.Candidate?;
    && (code == ORDINARY_AUTHENTICATION_REQUIRED <==> !ordinaryAuthenticated)
    && (code == TRIGGER_REQUIRED <==> ordinaryAuthenticated && trigger.code != OUT_EPOCH_TRANSITION_REQUIRED)
    && (code == AUTHORIZATION_AUTHENTICATION_REQUIRED <==> told && authenticated.None?)
    && (code == AUTHORIZATION_OBJECT_INVALID <==>
      || (told && authenticated.Some? && !authenticated.value.EpochTransition?)
      || (candidate && TransitionFits(authenticated.value, trigger.statement, previous)
          && !TransitionGrant(authenticated.value, previous).Valid()))
    && (code == TRANSACTION_PREPARE_FAILURE <==>
      && candidate && TransitionFits(authenticated.value, trigger.statement, previous)
      && TransitionGrant(authenticated.value, previous).Valid()
      && (replay.previous != previousReplay
          || (previousGeneration.Some? && !(0 <= previousGeneration.value < Decimal.UINT64_MAX))))
    && (code == AUTHORIZATION_REPLAY_NOT_CANDIDATE <==> transition && !replay.Candidate?)
    && (candidate ==>
      var a, stmt := authenticated.value, trigger.statement;
      var subject := a.producerId == previous.producerId == stmt.producerId;
      var epochs := subject && a.fromEpoch == previous.currentEpoch && a.toEpoch == stmt.epoch;
      var counted := epochs && previous.transitionSequence != Decimal.UINT64_MAX;
      && (code == PRODUCER_MISMATCH <==> !subject)
      && (code == FROM_EPOCH_MISMATCH <==> subject && a.fromEpoch != previous.currentEpoch)
      && (code == TO_EPOCH_MISMATCH <==> subject && a.fromEpoch == previous.currentEpoch && a.toEpoch != stmt.epoch)
      && (code == TRANSITION_SEQUENCE_EXHAUSTED <==> epochs && previous.transitionSequence == Decimal.UINT64_MAX)
      && (code == TRANSITION_SEQUENCE_MISMATCH <==>
        counted && a.transitionSequence != previous.transitionSequence + 1)
      && (code == TARGET_GENERATION_EXHAUSTED <==>
        && counted && a.transitionSequence == previous.transitionSequence + 1
        && previous.generation == Decimal.UINT64_MAX))
  }

  lemma TransitionGatesDecide(ordinaryAuthenticated: bool, trigger: Outcome, authenticated: Authenticated,
                              replay: ReplayOutcome, previousReplay: Option<ReplayState>, previous: State,
                              previousGeneration: Option<int>)
    requires previous.Valid()
    ensures var gates :=
      TransitionGates(ordinaryAuthenticated, trigger, authenticated, replay, previousReplay, previous,
                      previousGeneration);
      && (gates.Ok? <==> MayTransition(ordinaryAuthenticated, trigger, authenticated, replay, previousReplay, previous,
                                       previousGeneration))
      && (gates.Ok? ==>
            gates.value == Prepared(previousReplay, Some(previous), previousGeneration,
                                    TransitionTransaction(authenticated.value, replay, previous, previousGeneration)))
      && (gates.Err? ==>
            TransitionRefused(ordinaryAuthenticated, trigger, authenticated, replay, previousReplay, previous,
                              previousGeneration, gates.error))
      && (gates.Ok? ==> forall code :: code == AUTHORIZED || code.STAGE_FAILURE? ==>
            TransitionRefused(ordinaryAuthenticated, trigger, authenticated, replay, previousReplay, previous,
                              previousGeneration, code))
  {
  }

  /** When an undisturbed bootstrap can succeed: its scope is empty, and the producer is
      unknown or already holds exactly the granted record. */
  lemma BootstrapConsumedIff(stored: T.LoadResult, projected: LoadResult, p: Prepared)
    requires p.previousGeneration == None && p.candidate.freshness.generation == 0
    requires projected.StateValid? ==> projected.state.Valid()
    ensures Consumes(stored, projected, p)
      <==> stored.NotEstablished? && (projected.NotEstablished? || projected == StateValid(p.candidate.freshness))
  {
  }

  predicate ReplayWellFormed(replay: ReplayOutcome) {
    replay.Candidate? ==> ValidUint64(replay.candidate.sequence)
  }

  method ExecuteBootstrap(ordinaryAuthenticated: bool, trigger: Outcome, authenticated: Authenticated,
                          replay: ReplayOutcome, previousReplay: Option<ReplayState>,
                          transactions: T.HostAuthorizationBackend, freshness: HostFreshnessBackend, f: LifecycleFaults)
    returns (code: LifecycleCode, ghost crashes: seq<Disks>)
    requires ReplayWellFormed(replay) && transactions.disk != freshness.disk
    modifies transactions.disk, freshness.disk
    ensures var gates := BootstrapGates(ordinaryAuthenticated, trigger, authenticated, replay, previousReplay);
      match gates
      case Err(e) =>
        && code == e && crashes == []
        && transactions.disk.files == old(transactions.disk.files)
        && transactions.disk.trail == old(transactions.disk.trail)
        && freshness.disk.files == old(freshness.disk.files) && freshness.disk.trail == old(freshness.disk.trail)
      case Ok(p) =>
        && (code == AUTHORIZED || code.STAGE_FAILURE?)
        && (code == AUTHORIZED ==>
          && transactions.Stored(p.candidate.scope) == T.StateValid(p.candidate)
          && freshness.Stored(trigger.statement.producerId) == StateValid(p.candidate.freshness)
          && Initial(p.candidate.freshness))
        && (var before := Disks(old(transactions.disk.files), old(freshness.disk.files));
            && Durable(transactions.sha256, freshness.sha256, p, before,
                       Disks(transactions.disk.files, freshness.disk.files))
            && forall i :: 0 <= i < |crashes| ==> Durable(transactions.sha256, freshness.sha256, p, before, crashes[i]))
        && old(transactions.disk.trail) <= transactions.disk.trail && old(freshness.disk.trail) <= freshness.disk.trail
        && crashes == Contents(transactions.disk.trail[|old(transactions.disk.trail)|..], old(freshness.disk.files),
                               transactions.disk.files, freshness.disk.trail[|old(freshness.disk.trail)|..])
        && (NoLifecycleFaults(transactions, freshness, p, f) ==>
          (code == AUTHORIZED <==>
            Consumes(old(transactions.Stored(p.candidate.scope)), old(freshness.Stored(trigger.statement.producerId)),
                     p)))
    ensures BootstrapRefused(ordinaryAuthenticated, trigger, authenticated, replay, previousReplay, code)
    ensures code == AUTHORIZED || code.STAGE_FAILURE?
      <==> MayBootstrap(ordinaryAuthenticated, trigger, authenticated, replay, previousReplay)
    ensures transactions.disk.trail != old(transactions.disk.trail) || freshness.disk.trail != old(freshness.disk.trail)
        || transactions.disk.files != old(transactions.disk.files) || freshness.disk.files != old(freshness.disk.files)
      ==> MayBootstrap(ordinaryAuthenticated, trigger, authenticated, replay, previousReplay)
    ensures MayBootstrap(ordinaryAuthenticated, trigger, authenticated, replay, previousReplay) ==>
      var t := BootstrapTransaction(authenticated.value, replay);
      var projected := old(freshness.Stored(trigger.statement.producerId));
      NoLifecycleFaults(transactions, freshness, Prepared(previousReplay, None, None, t), f) ==>
        (code == AUTHORIZED <==>
          && old(transactions.Stored(t.scope)).NotEstablished?
          && (projected.NotEstablished? || projected == StateValid(t.freshness)))
    ensures code == AUTHORIZED ==>
      && transactions.Stored(replay.candidate.scope)
        == T.StateValid(BootstrapTransaction(authenticated.value, replay))
      && freshness.Stored(trigger.statement.producerId) == StateValid(BootstrapGrant(authenticated.value))
  {
    BootstrapGatesDecide(ordinaryAuthenticated, trigger, authenticated, replay, previousReplay);
    hide LoadFrom, T.LoadFrom, Abstract, T.Abstract, BootstrapRefused;
    var gates := BootstrapGates(ordinaryAuthenticated, trigger, authenticated, replay, previousReplay);
    if gates.Err? {
      return gates.error, [];
    }
    freshness.StoredCases(trigger.statement.producerId);
    BootstrapConsumedIff(transactions.Stored(gates.value.candidate.scope),
                         freshness.Stored(trigger.statement.producerId), gates.value);
    var stage;
    stage, crashes := ExecuteTransaction(gates.value, transactions, freshness, f);
    code := if stage == CONSUMED then AUTHORIZED else STAGE_FAILURE(stage);
  }

  method ExecuteEpochTransition(ordinaryAuthenticated: bool, trigger: Outcome, authenticated: Authenticated,
                                replay: ReplayOutcome, previousReplay: Option<ReplayState>, previous: State,
                                previousGeneration: Option<int>,
                                transactions: T.HostAuthorizationBackend, freshness: HostFreshnessBackend,
                                f: LifecycleFaults)
    returns (code: LifecycleCode, ghost crashes: seq<Disks>)
    requires ReplayWellFormed(replay) && previous.Valid() && transactions.disk != freshness.disk
    modifies transactions.disk, freshness.disk
    ensures var gates :=
      TransitionGates(ordinaryAuthenticated, trigger, authenticated, replay, previousReplay, previous,
                      previousGeneration);
      match gates
      case Err(e) =>
        && code == e && crashes == []
        && transactions.disk.files == old(transactions.disk.files)
        && transactions.disk.trail == old(transactions.disk.trail)
        && freshness.disk.files == old(freshness.disk.files) && freshness.disk.trail == old(freshness.disk.trail)
      case Ok(p) =>
        && (code == AUTHORIZED || code.STAGE_FAILURE?)
        && (code == AUTHORIZED ==>
          && transactions.Stored(p.candidate.scope) == T.StateValid(p.candidate)
          && freshness.Stored(previous.producerId) == StateValid(p.candidate.freshness)
          && TransitionStep(previous, p.candidate.freshness))
        && (var before := Disks(old(transactions.disk.files), old(freshness.disk.files));
            && Durable(transactions.sha256, freshness.sha256, p, before,
                       Disks(transactions.disk.files, freshness.disk.files))
            && forall i :: 0 <= i < |crashes| ==> Durable(transactions.sha256, freshness.sha256, p, before, crashes[i]))
        && old(transactions.disk.trail) <= transactions.disk.trail && old(freshness.disk.trail) <= freshness.disk.trail
        && crashes == Contents(transactions.disk.trail[|old(transactions.disk.trail)|..], old(freshness.disk.files),
                               transactions.disk.files, freshness.disk.trail[|old(freshness.disk.trail)|..])
        && (NoLifecycleFaults(transactions, freshness, p, f) ==>
          (code == AUTHORIZED <==>
            Consumes(old(transactions.Stored(p.candidate.scope)), old(freshness.Stored(previous.producerId)), p)))
    ensures TransitionRefused(ordinaryAuthenticated, trigger, authenticated, replay, previousReplay, previous,
                              previousGeneration, code)
    ensures code == AUTHORIZED || code.STAGE_FAILURE?
      <==> MayTransition(ordinaryAuthenticated, trigger, authenticated, replay, previousReplay, previous,
                         previousGeneration)
    ensures transactions.disk.trail != old(transactions.disk.trail) || freshness.disk.trail != old(freshness.disk.trail)
        || transactions.disk.files != old(transactions.disk.files) || freshness.disk.files != old(freshness.disk.files)
      ==> MayTransition(ordinaryAuthenticated, trigger, authenticated, replay, previousReplay, previous,
                        previousGeneration)
    ensures code == AUTHORIZED ==>
      && transactions.Stored(replay.candidate.scope)
        == T.StateValid(TransitionTransaction(authenticated.value, replay, previous, previousGeneration))
      && freshness.Stored(previous.producerId) == StateValid(TransitionGrant(authenticated.value, previous))
  {
    TransitionGatesDecide(ordinaryAuthenticated, trigger, authenticated, replay, previousReplay, previous,
                          previousGeneration);
    hide LoadFrom, T.LoadFrom, Abstract, T.Abstract, TransitionRefused;
    var gates := TransitionGates(ordinaryAuthenticated, trigger, authenticated, replay, previousReplay, previous,
                                 previousGeneration);
    if gates.Err? {
      return gates.error, [];
    }
    var stage;
    stage, crashes := ExecuteTransaction(gates.value, transactions, freshness, f);
    code := if stage == CONSUMED then AUTHORIZED else STAGE_FAILURE(stage);
  }

  // ---------------------------------------------------------------- effect on later statements

  /** After bootstrap the triggering statement is a candidate if the high-water mark was
      left unset, and a replay if it was established. */
  lemma TriggerAfterBootstrap(ordinaryAuthenticated: bool, trigger: Outcome, a: Object,
                              previousReplay: Option<ReplayState>,
                              scopes: int, p: Prepared)
    requires a.Valid() && trigger.statement.Valid()
    requires BootstrapGates(ordinaryAuthenticated, trigger, Some(a), EvaluateReplay(Some(a), previousReplay, scopes),
                            previousReplay) == Ok(p)
    ensures Evaluate(Some(p.candidate.freshness), trigger.statement)
      == Ok(if a.initialHighWater == HIGH_WATER_UNSET then FRESH_CANDIDATE else REPLAY)
  {
  }

  /** After an authorized transition the triggering statement is a candidate. */
  lemma TriggerAfterTransition(ordinaryAuthenticated: bool, trigger: Outcome, a: Object,
                               previousReplay: Option<ReplayState>,
                               scopes: int, previous: State, previousGeneration: Option<int>, p: Prepared)
    requires a.Valid() && previous.Valid() && trigger.statement.Valid()
    requires TransitionGates(ordinaryAuthenticated, trigger, Some(a), EvaluateReplay(Some(a), previousReplay, scopes),
                             previousReplay, previous, previousGeneration) == Ok(p)
    ensures Evaluate(Some(p.candidate.freshness), trigger.statement) == Ok(FRESH_CANDIDATE)
  {
  }

  /** With the host store, a transition can be consumed over an unestablished scope only
      with no previous generation, and over an established one only if the state it starts
      from is exactly the one that scope's last transaction granted.  The conditions are
      the guards of the commit, so they can be checked before the call. */
  lemma TransitionConsumedIff(stored: T.LoadResult, projected: LoadResult, p: Prepared)
    requires p.previousFreshness.Some? && TransitionStep(p.previousFreshness.value, p.candidate.freshness)
    requires T.PrepareResult(p).PreparedOk? && projected == StateValid(p.previousFreshness.value)
    ensures p.previousGeneration == None ==> (Consumes(stored, projected, p) <==> stored.NotEstablished?)
    ensures p.previousGeneration.Some? ==>
      (Consumes(stored, projected, p) <==>
        && stored.StateValid?
        && p.previousGeneration == Some(stored.transaction.generation)
        && p.previousReplay == Some(stored.transaction.replayState)
        && p.previousFreshness == Some(stored.transaction.freshness))
  {
  }
}
