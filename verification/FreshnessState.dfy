/** Producer identity grammar, the stored freshness record and its pure evaluator. */
module FreshnessState {
  import opened Wrappers
  import Decimal

  const SAFE_INTEGER: int := 9_007_199_254_740_991

  predicate IsIdChar(c: char) {
    'A' <= c <= 'Z' || 'a' <= c <= 'z' || '0' <= c <= '9' || c == '.' || c == '_' || c == ':' || c == '-'
  }

  predicate ValidProducerId(id: string) {
    1 <= |id| <= 128 && forall i :: 0 <= i < |id| ==> IsIdChar(id[i])
  }

  predicate IsLowerHex(c: char) {
    '0' <= c <= '9' || 'a' <= c <= 'f'
  }

  predicate ValidEpoch(epoch: string) {
    |epoch| == 32 && forall i :: 0 <= i < |epoch| ==> IsLowerHex(epoch[i])
  }

  predicate ValidLogicalTime(time: int) {
    0 <= time <= SAFE_INTEGER
  }

  predicate ValidUint64(n: int) {
    0 <= n <= Decimal.UINT64_MAX
  }

  datatype HighWaterState = UNSET | SET

  /** One freshness record of one producer. */
  datatype State = State(
    producerId: string,
    currentEpoch: string,
    previousEpoch: Option<string>,
    highWaterState: HighWaterState,
    highestLogicalTime: Option<int>,
    transitionSequence: int,
    generation: int)
  {
    /** The construction checks. */
    predicate Valid() {
      && ValidProducerId(producerId)
      && ValidEpoch(currentEpoch)
      && (previousEpoch.Some? ==> ValidEpoch(previousEpoch.value) && previousEpoch.value != currentEpoch)
      && (highWaterState == UNSET <==> highestLogicalTime.None?)
      && (highestLogicalTime.Some? ==> ValidLogicalTime(highestLogicalTime.value))
      && ValidUint64(transitionSequence)
      && ValidUint64(generation)
    }
  }

  function MakeUnset(producerId: string, epoch: string, previousEpoch: Option<string>,
                     transitionSequence: int, generation: int): State {
    State(producerId, epoch, previousEpoch, UNSET, None, transitionSequence, generation)
  }

  /** An authenticated claim of one producer about its own logical clock. */
  datatype Statement = Statement(producerId: string, epoch: string, time: int)
  {
    predicate Valid() {
      ValidProducerId(producerId) && ValidEpoch(epoch) && ValidLogicalTime(time)
    }
  }

  datatype Verdict =
    | FIRST_SEEN
    | FRESH_CANDIDATE
    | REPLAY
    | LOGICAL_TIME_ROLLBACK
    | EPOCH_ROLLBACK
    | EPOCH_TRANSITION_REQUIRED

  datatype EvaluationError = SchemaError | ProducerMismatch | MissingHighWater

  function Evaluate(state: Option<State>, stmt: Statement): Result<Verdict, EvaluationError> {
    if !stmt.Valid() then Err(SchemaError)
    else if state.None? then Ok(FIRST_SEEN)
    else
      var s := state.value;
      if s.producerId != stmt.producerId then Err(ProducerMismatch)
      else if stmt.epoch == s.currentEpoch then
        if s.highWaterState == UNSET then Ok(FRESH_CANDIDATE)
        else if s.highestLogicalTime.None? then Err(MissingHighWater)
        else if stmt.time > s.highestLogicalTime.value then Ok(FRESH_CANDIDATE)
        else if stmt.time == s.highestLogicalTime.value then Ok(REPLAY)
        else Ok(LOGICAL_TIME_ROLLBACK)
      else if s.previousEpoch == Some(stmt.epoch) then Ok(EPOCH_ROLLBACK)
      else Ok(EPOCH_TRANSITION_REQUIRED)
  }

  /** The state a fresh statement installs. */
  function Advance(s: State, time: int): State {
    State(s.producerId, s.currentEpoch, s.previousEpoch, SET, Some(time), s.transitionSequence, s.generation + 1)
  }

  /** The state an authorized epoch transition installs. */
  function Transition(s: State, toEpoch: string, transitionSequence: int): State {
    State(s.producerId, toEpoch, Some(s.currentEpoch), UNSET, None, transitionSequence, s.generation + 1)
  }

  // ---------------------------------------------------------------- the two legal successions

  /** `t` is `s` after one accepted statement of the current epoch. */
  predicate FreshStep(s: State, t: State) {
    && s.Valid() && t.Valid()
    && t.highestLogicalTime.Some?
    && t == Advance(s, t.highestLogicalTime.value)
    && (s.highestLogicalTime.Some? ==> s.highestLogicalTime.value < t.highestLogicalTime.value)
  }

  /** `t` is `s` after one epoch transition to the exact next sequence number. */
  predicate TransitionStep(s: State, t: State) {
    && s.Valid() && t.Valid()
    && t.currentEpoch != s.currentEpoch
    && t == Transition(s, t.currentEpoch, s.transitionSequence + 1)
  }

  /** A state bootstrap may install: nothing behind it. */
  predicate Initial(s: State) {
    s.Valid() && s.previousEpoch == None && s.transitionSequence == 0 && s.generation == 0
  }

  /** The grammars and bounds, in numbers. */
  lemma StatementValidIff(stmt: Statement)
    ensures stmt.Valid() <==>
      && 1 <= |stmt.producerId| <= 128
      && (forall c :: c in stmt.producerId ==>
            'A' <= c <= 'Z' || 'a' <= c <= 'z' || '0' <= c <= '9' || c in "._:-")
      && |stmt.epoch| == 32 && (forall c :: c in stmt.epoch ==> '0' <= c <= '9' || 'a' <= c <= 'f')
      && 0 <= stmt.time < 0x20_0000_0000_0000
  {
    assert forall i :: 0 <= i < |stmt.producerId| ==> stmt.producerId[i] in stmt.producerId;
    assert forall i :: 0 <= i < |stmt.epoch| ==> stmt.epoch[i] in stmt.epoch;
  }

  lemma StateValidIff(s: State)
    ensures s.Valid() <==>
      && Statement(s.producerId, s.currentEpoch,
                   if s.highestLogicalTime == None then 0 else s.highestLogicalTime.value).Valid()
      && (s.previousEpoch != None ==> ValidEpoch(s.previousEpoch.value) && s.previousEpoch.value != s.currentEpoch)
      && (s.highWaterState == SET <==> s.highestLogicalTime != None)
      && 0 <= s.transitionSequence < 0x1_0000_0000_0000_0000 && 0 <= s.generation < 0x1_0000_0000_0000_0000
  {
  }

  /** Exactly the statements evaluated as candidates advance the state legally. */
  lemma CandidateIffFreshStep(s: State, stmt: Statement)
    requires s.Valid() && stmt.Valid() && s.producerId == stmt.producerId && s.generation < Decimal.UINT64_MAX
    ensures Evaluate(Some(s), stmt) == Ok(FRESH_CANDIDATE)
      <==> stmt.epoch == s.currentEpoch && FreshStep(s, Advance(s, stmt.time))
  {
  }

  /** After a transition every statement of the new epoch is a candidate, whatever its
      time, and every statement of the superseded epoch is an epoch rollback. */
  lemma VerdictsAfterTransition(s: State, t: State, stmt: Statement)
    requires TransitionStep(s, t) && stmt.Valid() && stmt.producerId == s.producerId
    ensures stmt.epoch == t.currentEpoch ==> Evaluate(Some(t), stmt) == Ok(FRESH_CANDIDATE)
    ensures stmt.epoch == s.currentEpoch ==> Evaluate(Some(t), stmt) == Ok(EPOCH_ROLLBACK)
  {
  }
}
