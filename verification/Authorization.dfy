/** Authorization objects, their anti-replay evaluation and the composite transaction
    that binds replay progress and freshness state into one generation. */
module Authorization {
  import opened Wrappers
  import opened FreshnessState
  import Decimal

  const AUTHORIZATION_REPLAY_MAX_SCOPES: int := 4_096
  const BOOTSTRAP_AUTHORITY := "BOOTSTRAP_AUTHORITY"
  const EPOCH_TRANSITION_AUTHORITY := "EPOCH_TRANSITION_AUTHORITY"

  datatype Operation = BootstrapOperation | EpochTransitionOperation

  datatype InitialHighWater = HIGH_WATER_UNSET | HIGH_WATER_ESTABLISHED

  /** A structurally validated authorization object. */
  datatype Object =
    | Bootstrap(authorizationId: string, authorityId: string, producerId: string, sequence: int,
                producerEpoch: string, initialHighWater: InitialHighWater, initialLogicalTime: Option<int>)
    | EpochTransition(authorizationId: string, authorityId: string, producerId: string, sequence: int,
                      fromEpoch: string, toEpoch: string, transitionSequence: int)
  {
    predicate Valid() {
      && |authorizationId| == 32 && (forall i :: 0 <= i < 32 ==> IsLowerHex(authorizationId[i]))
      && ValidProducerId(authorityId)   // the same grammar as producer identifiers
      && ValidProducerId(producerId)
      && ValidUint64(sequence)
      && match this
         case Bootstrap(_, _, _, _, epoch, highWater, time) =>
           && ValidEpoch(epoch)
           && (highWater == HIGH_WATER_UNSET <==> time.None?)
           && (time.Some? ==> ValidLogicalTime(time.value))
         case EpochTransition(_, _, _, _, from, to, transitionSequence) =>
           && ValidEpoch(from) && ValidEpoch(to) && from != to
           && ValidUint64(transitionSequence)
    }

    function Operation(): Operation {
      if Bootstrap? then BootstrapOperation else EpochTransitionOperation
    }
  }

  /** The outcome of authenticating a signed authorization: at most an object. */
  type Authenticated = Option<Object>

  // ---------------------------------------------------------------- anti-replay

  datatype Scope = Scope(authorityId: string, purposeDomain: string, producerId: string)

  /** The highest authorization sequence consumed in one scope. */
  datatype ReplayState = ReplayState(scope: Scope, sequence: int)

  datatype ReplayCode =
    | AUTHORIZATION_NOT_AUTHENTICATED
    | AUTHORIZATION_REPLAY
    | AUTHORIZATION_SEQUENCE_EXHAUSTED
    | AUTHORIZATION_CAPACITY_EXCEEDED
    | AUTHORIZATION_STATE_INVALID

  datatype ReplayOutcome =
    | Candidate(previous: Option<ReplayState>, candidate: ReplayState, authorizationId: string)
    | NotCandidate(code: ReplayCode)

  function Purpose(op: Operation): string {
    match op
    case BootstrapOperation => BOOTSTRAP_AUTHORITY
    case EpochTransitionOperation => EPOCH_TRANSITION_AUTHORITY
  }

  function ScopeOf(o: Object): Scope {
    Scope(o.authorityId, Purpose(o.Operation()), o.producerId)
  }

  function EvaluateReplay(authenticated: Authenticated, previous: Option<ReplayState>,
                          establishedScopes: int): ReplayOutcome {
    if authenticated.None? then NotCandidate(AUTHORIZATION_NOT_AUTHENTICATED)
    else
      var o := authenticated.value;
      if !ValidUint64(o.sequence) then NotCandidate(AUTHORIZATION_STATE_INVALID)
      else
        var candidate := Candidate(previous, ReplayState(ScopeOf(o), o.sequence), o.authorizationId);
        match previous
        case None =>
          if establishedScopes < 0 then NotCandidate(AUTHORIZATION_STATE_INVALID)
          else if establishedScopes >= AUTHORIZATION_REPLAY_MAX_SCOPES then
            NotCandidate(AUTHORIZATION_CAPACITY_EXCEEDED)
          else candidate
        case Some(p) =>
          if p.scope != ScopeOf(o) then NotCandidate(AUTHORIZATION_STATE_INVALID)
          else if p.sequence == Decimal.UINT64_MAX then NotCandidate(AUTHORIZATION_SEQUENCE_EXHAUSTED)
          else if o.sequence <= p.sequence then NotCandidate(AUTHORIZATION_REPLAY)
          else candidate
  }

  /** The scope an authorization consumes its sequence in. */
  function ConsumedIn(o: Object): Scope {
    Scope(o.authorityId, if o.Bootstrap? then "BOOTSTRAP_AUTHORITY" else "EPOCH_TRANSITION_AUTHORITY", o.producerId)
  }

  /** The anti-replay decision: an authenticated object is a candidate iff its sequence is
      beyond the stored one of its own scope, or there is none and room for a new scope; each
      refusal is told apart. */
  lemma ReplayDecides(o: Object, previous: Option<ReplayState>, scopes: int)
    requires ValidUint64(o.sequence)
    ensures EvaluateReplay(None, previous, scopes) == NotCandidate(AUTHORIZATION_NOT_AUTHENTICATED)
    ensures ScopeOf(o) == ConsumedIn(o)
    ensures var r := EvaluateReplay(Some(o), previous, scopes);
      && (r.Candidate? ==>
            r == Candidate(previous, ReplayState(ConsumedIn(o), o.sequence), o.authorizationId))
      && (previous == None ==>
            && (r.Candidate? <==> 0 <= scopes < 4096)
            && (r == NotCandidate(AUTHORIZATION_CAPACITY_EXCEEDED) <==> scopes >= 4096)
            && (r == NotCandidate(AUTHORIZATION_STATE_INVALID) <==> scopes < 0))
      && (previous.Some? ==>
            var known := previous.value.scope == ConsumedIn(o);
            && (previous.value.sequence <= Decimal.UINT64_MAX ==>
                  (r.Candidate? <==> known && previous.value.sequence < o.sequence))
            && (r == NotCandidate(AUTHORIZATION_STATE_INVALID) <==> !known)
            && (r == NotCandidate(AUTHORIZATION_SEQUENCE_EXHAUSTED) <==>
              known && previous.value.sequence == Decimal.UINT64_MAX)
            && (previous.value.sequence < Decimal.UINT64_MAX ==>
                  (r == NotCandidate(AUTHORIZATION_REPLAY) <==> known && o.sequence <= previous.value.sequence)))
  {
  }

  // ---------------------------------------------------------------- composite transaction

  /** One generation of one scope: what was consumed and the freshness state it grants. */
  datatype Transaction = Transaction(
    replayState: ReplayState,
    scope: Scope,
    generation: int,
    freshness: State,
    operation: Operation,
    authorizationId: string,
    sequence: int)
  {
    predicate Valid() {
      && ValidUint64(generation)
      && replayState.scope == scope
      && replayState.sequence == sequence
      && ValidUint64(sequence)
      && freshness.Valid()
    }
  }

  /** A candidate bound to the exact prior states its commit must find. */
  datatype Prepared = Prepared(
    previousReplay: Option<ReplayState>,
    previousFreshness: Option<State>,
    previousGeneration: Option<int>,
    candidate: Transaction)

  datatype PrepareError = NOT_CANDIDATE | TRANSACTION_INVALID | GENERATION_EXHAUSTED

  function Prepare(replay: ReplayOutcome, previousReplay: Option<ReplayState>, previousFreshness: Option<State>,
                   resulting: State, previousGeneration: Option<int>, operation: Operation)
    : Result<Prepared, PrepareError>
  {
    if !replay.Candidate? then Err(NOT_CANDIDATE)
    else if previousReplay != replay.previous then Err(TRANSACTION_INVALID)
    else if previousGeneration.Some? && !ValidUint64(previousGeneration.value) then Err(TRANSACTION_INVALID)
    else if previousGeneration == Some(Decimal.UINT64_MAX) then Err(GENERATION_EXHAUSTED)
    else
      var generation := if previousGeneration.None? then 0 else previousGeneration.value + 1;
      Ok(Prepared(previousReplay, previousFreshness, previousGeneration,
                  Transaction(replay.candidate, replay.candidate.scope, generation, resulting, operation,
                              replay.authorizationId, replay.candidate.sequence)))
  }

  /** What is prepared over a candidate outcome, and the three refusals in their order. */
  lemma PrepareDecides(replay: ReplayOutcome, previousReplay: Option<ReplayState>, previousFreshness: Option<State>,
                       resulting: State, previousGeneration: Option<int>, operation: Operation)
    ensures var r := Prepare(replay, previousReplay, previousFreshness, resulting, previousGeneration, operation);
      var bound := replay.Candidate? && replay.previous == previousReplay;
      && (r == Err(NOT_CANDIDATE) <==> !replay.Candidate?)
      && (r == Err(GENERATION_EXHAUSTED) <==> bound && previousGeneration == Some(0xFFFF_FFFF_FFFF_FFFF))
      && (r == Err(TRANSACTION_INVALID) <==>
        && replay.Candidate?
        && (replay.previous != previousReplay
            || (previousGeneration.Some? && !(0 <= previousGeneration.value <= 0xFFFF_FFFF_FFFF_FFFF))))
      && (r.Ok? ==>
            var next := if previousGeneration == None then 0 else previousGeneration.value + 1;
            && r.value.previousReplay == previousReplay && r.value.previousFreshness == previousFreshness
            && r.value.previousGeneration == previousGeneration
            && r.value.candidate.generation == next <= 0xFFFF_FFFF_FFFF_FFFF
            && r.value.candidate.scope == replay.candidate.scope
            && r.value.candidate.replayState == replay.candidate
            && r.value.candidate.sequence == replay.candidate.sequence
            && r.value.candidate.freshness == resulting && r.value.candidate.operation == operation
            && r.value.candidate.authorizationId == replay.authorizationId)
  {
  }

  /** `next` may be committed over `current` in one scope: the generation advances by
      one and the consumed sequence strictly. */
  predicate Succeeds(current: Option<Transaction>, next: Transaction) {
    && next.Valid()
    && match current
       case None => next.generation == 0
       case Some(t) => t.scope == next.scope && next.generation == t.generation + 1 && t.sequence < next.sequence
  }

  /** What makes a replay outcome and a preparation over it safe to commit: whichever
      state the commit compares against, the candidate is its legal successor. */
  lemma PreparedSucceeds(o: Object, previousReplay: Option<ReplayState>, scopes: int, previousFreshness: Option<State>,
                         resulting: State, previousGeneration: Option<int>, p: Prepared, current: Transaction)
    requires Prepare(EvaluateReplay(Some(o), previousReplay, scopes), previousReplay, previousFreshness,
                     resulting, previousGeneration, o.Operation()) == Ok(p)
    requires resulting.Valid() && current.Valid()
    ensures p.candidate.scope == ScopeOf(o) && p.candidate.Valid()
    ensures previousGeneration == None ==> Succeeds(None, p.candidate)
    ensures previousGeneration == Some(current.generation) && previousReplay == Some(current.replayState)
      ==> Succeeds(Some(current), p.candidate)
  {
  }
}
