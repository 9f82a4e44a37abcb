/** The host store of composite transactions: one record per replay scope. */
module AuthorizationBackend {
  import opened Wrappers
  import opened FreshnessState
  import opened Authorization
  import opened HostFiles
  import F = FreshnessBackend
  import Json
  import JsonOrder

  const SCHEMA_VERSION := "guardian-f401:m15:authorization-transaction-state:v1"

  const STATE_KEYS: seq<string> := [
    "authorization_id", "authorization_sequence", "generation", "operation_type",
    "replay_scope", "replay_state", "resulting_freshness_state"]
  const SCOPE_KEYS: seq<string> := ["authority_id", "producer_id", "purpose_domain"]
  const REPLAY_STATE_KEYS: seq<string> := ["authorization_sequence", "scope"]

  // ---------------------------------------------------------------- text of one transaction

  function OperationText(op: Operation): string {
    match op
    case BootstrapOperation => "bootstrap"
    case EpochTransitionOperation => "epoch-transition"
  }

  function ParseOperation(v: Json.Value): Option<Operation> {
    if v == Json.Text("bootstrap") then Some(BootstrapOperation)
    else if v == Json.Text("epoch-transition") then Some(EpochTransitionOperation)
    else None
  }

  function ScopeMapping(s: Scope): seq<Json.Member> {
    [ Json.Member("authority_id", Json.Text(s.authorityId)),
      Json.Member("producer_id", Json.Text(s.producerId)),
      Json.Member("purpose_domain", Json.Text(s.purposeDomain)) ]
  }

  function ReplayStateMapping(r: ReplayState): seq<Json.Member> {
    [ Json.Member("authorization_sequence", Json.Number(r.sequence)),
      Json.Member("scope", Json.Object(ScopeMapping(r.scope))) ]
  }

  function TransactionMapping(t: Transaction): seq<Json.Member> {
    [ Json.Member("authorization_id", Json.Text(t.authorizationId)),
      Json.Member("authorization_sequence", Json.Number(t.sequence)),
      Json.Member("generation", Json.Number(t.generation)),
      Json.Member("operation_type", Json.Text(OperationText(t.operation))),
      Json.Member("replay_scope", Json.Object(ScopeMapping(t.scope))),
      Json.Member("replay_state", Json.Object(ReplayStateMapping(t.replayState))),
      Json.Member("resulting_freshness_state", Json.Object(F.StateMapping(t.freshness))) ]
  }

  function ParseScope(v: Json.Value): Option<Scope> {
    if !v.Object? || !F.HasExactly(v.members, SCOPE_KEYS) then None
    else
      var m := F.Sorted(v.members, SCOPE_KEYS);
      if m[0].value.Text? && m[1].value.Text? && m[2].value.Text?
      then Some(Scope(m[0].value.s, m[2].value.s, m[1].value.s))
      else None
  }

  function ParseReplayState(v: Json.Value): (r: Option<ReplayState>)
    ensures r.Some? ==> ValidUint64(r.value.sequence)
  {
    if !v.Object? || !F.HasExactly(v.members, REPLAY_STATE_KEYS) then None
    else
      var m := F.Sorted(v.members, REPLAY_STATE_KEYS);
      var scope := ParseScope(m[1].value);
      if scope.Some? && m[0].value.Number? && ValidUint64(m[0].value.n)
      then Some(ReplayState(scope.value, m[0].value.n))
      else None
  }

  function ParseFreshness(v: Json.Value): (r: Option<State>)
    ensures r.Some? ==> r.value.Valid()
  {
    if !v.Object? || !F.HasExactly(v.members, F.STATE_KEYS) then None
    else F.StateOfMembers(v.members)
  }

  function TransactionOfMembers(members: seq<Json.Member>): (r: Option<Transaction>)
    requires F.HasExactly(members, STATE_KEYS)
    ensures r.Some? ==> r.value.Valid()
  {
    var m := F.Sorted(members, STATE_KEYS);
    var operation := ParseOperation(m[3].value);
    var scope := ParseScope(m[4].value);
    var replay := ParseReplayState(m[5].value);
    var freshness := ParseFreshness(m[6].value);
    if m[0].value.Text? && m[1].value.Number? && m[2].value.Number?
       && operation.Some? && scope.Some? && replay.Some? && freshness.Some? then
      var t := Transaction(replay.value, scope.value, m[2].value.n, freshness.value, operation.value,
                           m[0].value.s, m[1].value.n);
      if t.Valid() then Some(t) else None
    else None
  }

  function Serialize(sha256: string -> string, t: Transaction): string {
    Json.Print(F.Document(sha256, SCHEMA_VERSION, TransactionMapping(t))) + "\n"
  }

  function ParseTransaction(sha256: string -> string, raw: string): (r: Option<Transaction>)
    ensures r.Some? ==> r.value.Valid()
  {
    match F.ParseDocument(sha256, SCHEMA_VERSION, STATE_KEYS, raw)
    case None => None
    case Some(members) => TransactionOfMembers(members)
  }

  lemma ScopeRoundTrip(s: Scope)
    ensures JsonOrder.DistinctMembers(ScopeMapping(s)) && ParseScope(Json.Object(ScopeMapping(s))) == Some(s)
  {
    assert "producer_id" != "purpose_domain" && |"producer_id"| != |"authority_id"|;
    F.SortedIsIdentity(ScopeMapping(s), SCOPE_KEYS);
  }

  lemma ReplayStateRoundTrip(r: ReplayState)
    requires ValidUint64(r.sequence)
    ensures
      && JsonOrder.DistinctMembers(ReplayStateMapping(r))
      && ParseReplayState(Json.Object(ReplayStateMapping(r))) == Some(r)
  {
    hide ParseScope;
    ScopeRoundTrip(r.scope);
    assert |"scope"| != |"authorization_sequence"|;
    F.SortedIsIdentity(ReplayStateMapping(r), REPLAY_STATE_KEYS);
  }

  lemma FreshnessRoundTrip(s: State)
    requires s.Valid()
    ensures JsonOrder.DistinctMembers(F.StateMapping(s)) && ParseFreshness(Json.Object(F.StateMapping(s))) == Some(s)
  {
    F.StateKeysDistinct(s);
    F.MappingRoundTrip(s);
  }

  lemma TransactionKeysDistinct(t: Transaction)
    ensures JsonOrder.DistinctMembers(TransactionMapping(t))
  {
    assert "replay_scope" != "replay_state" by {
      assert "replay_scope"[8] == 'c' && "replay_state"[8] == 't';
    }
    assert forall i :: 0 <= i < 7 ==> |TransactionMapping(t)[i].name| == [16, 22, 10, 14, 12, 12, 25][i];
  }

  lemma MappingRoundTrip(t: Transaction)
    requires t.Valid()
    ensures F.HasExactly(TransactionMapping(t), STATE_KEYS)
    ensures TransactionOfMembers(TransactionMapping(t)) == Some(t)
  {
    hide ParseScope, ParseReplayState, ParseFreshness, F.HasExactly, F.Sorted, ScopeMapping, ReplayStateMapping,
      F.StateMapping;
    ScopeRoundTrip(t.scope);
    ReplayStateRoundTrip(t.replayState);
    FreshnessRoundTrip(t.freshness);
    TransactionKeysDistinct(t);
    F.SortedIsIdentity(TransactionMapping(t), STATE_KEYS);
  }

  lemma MappingIsPrintable(t: Transaction)
    ensures Json.NoFloats(Json.Object(TransactionMapping(t)))
    ensures Json.DistinctNames(Json.Object(TransactionMapping(t)))
  {
    TransactionKeysDistinct(t);
    ScopeIsPrintable(t.scope);
    ReplayStateIsPrintable(t.replayState);
    F.MappingIsPrintable(t.freshness);
    hide ScopeMapping, ReplayStateMapping, F.StateMapping;
  }

  lemma ScopeIsPrintable(s: Scope)
    ensures Json.NoFloats(Json.Object(ScopeMapping(s))) && Json.DistinctNames(Json.Object(ScopeMapping(s)))
  {
    ScopeRoundTrip(s);
  }

  lemma ReplayStateIsPrintable(r: ReplayState)
    ensures Json.NoFloats(Json.Object(ReplayStateMapping(r))) && Json.DistinctNames(Json.Object(ReplayStateMapping(r)))
  {
    ScopeIsPrintable(r.scope);
    assert |"scope"| != |"authorization_sequence"|;
    hide ScopeMapping;
  }

  lemma ScopeIsSorted(s: Scope)
    ensures JsonOrder.KeysSorted(Json.Object(ScopeMapping(s)))
  {
    JsonOrder.LessAt("authority_id", "producer_id", 0);
    JsonOrder.LessAt("producer_id", "purpose_domain", 1);
    hide JsonOrder.Less, JsonOrder.Ordered;
    JsonOrder.OrderedIf(ScopeMapping(s));
  }

  lemma ReplayStateIsSorted(r: ReplayState)
    ensures JsonOrder.KeysSorted(Json.Object(ReplayStateMapping(r)))
  {
    JsonOrder.LessAt("authorization_sequence", "scope", 0);
    ScopeIsSorted(r.scope);
    hide JsonOrder.Less, JsonOrder.Ordered, ScopeMapping;
    JsonOrder.OrderedIf(ReplayStateMapping(r));
  }

  lemma StateKeyLess(k: nat)
    requires k < 6
    ensures JsonOrder.Less(STATE_KEYS[k], STATE_KEYS[k + 1])
  {
    hide JsonOrder.Less;
    JsonOrder.LessAt(STATE_KEYS[k], STATE_KEYS[k + 1],
                     if k == 0 then 14 else if k == 4 then 8 else if k == 5 then 2 else 0);
  }

  lemma StateKeysOrdered()
    ensures JsonOrder.NamesOrdered(STATE_KEYS)
  {
    hide JsonOrder.Less;
    forall k | 0 <= k < |STATE_KEYS| - 1 ensures JsonOrder.Less(STATE_KEYS[k], STATE_KEYS[k + 1]) {
      StateKeyLess(k);
    }
  }

  /** The stored object is in order at every depth. */
  lemma MappingIsSorted(t: Transaction)
    ensures JsonOrder.KeysSorted(Json.Object(TransactionMapping(t)))
  {
    ScopeIsSorted(t.scope);
    ReplayStateIsSorted(t.replayState);
    F.StateKeysSorted(t.freshness);
    StateKeysOrdered();
    hide JsonOrder.Less, JsonOrder.Ordered, JsonOrder.NamesOrdered, ScopeMapping, ReplayStateMapping, F.StateMapping;
    JsonOrder.OrderedByNames(TransactionMapping(t), STATE_KEYS);
  }

  /** The stored text of every well-formed transaction parses back to it, whatever its
      identifiers contain and whatever the digest function is. */
  lemma RoundTrip(sha256: string -> string, t: Transaction)
    requires t.Valid()
    ensures ParseTransaction(sha256, Serialize(sha256, t)) == Some(t)
  {
    hide Json.Print, Json.Parse, TransactionOfMembers, JsonOrder.KeysSorted, Json.NoFloats, Json.DistinctNames,
      F.ParseDocument, F.Document,
      ScopeMapping, ReplayStateMapping, F.StateMapping;
    MappingIsPrintable(t);
    MappingIsSorted(t);
    F.DocumentRoundTrip(sha256, SCHEMA_VERSION, STATE_KEYS, TransactionMapping(t));
    MappingRoundTrip(t);
  }

  // ---------------------------------------------------------------- exactly which texts are accepted

  /** The members of a stored scope, replay state and transaction, by name. */
  predicate IsScope(v: Json.Value, s: Scope) {
    && v.Object? && |v.members| == 3
    && F.Lookup(v.members, "authority_id") == Some(Json.Text(s.authorityId))
    && F.Lookup(v.members, "purpose_domain") == Some(Json.Text(s.purposeDomain))
    && F.Lookup(v.members, "producer_id") == Some(Json.Text(s.producerId))
  }

  predicate IsReplayState(v: Json.Value, r: ReplayState) {
    && v.Object? && |v.members| == 2
    && F.Lookup(v.members, "scope").Some? && IsScope(F.Lookup(v.members, "scope").value, r.scope)
    && F.Lookup(v.members, "authorization_sequence") == Some(Json.Number(r.sequence))
  }

  predicate IsTransaction(v: Json.Value, t: Transaction) {
    && v.Object? && |v.members| == 7
    && F.Lookup(v.members, "replay_state").Some?
    && IsReplayState(F.Lookup(v.members, "replay_state").value, t.replayState)
    && F.Lookup(v.members, "replay_scope").Some?
    && IsScope(F.Lookup(v.members, "replay_scope").value, t.scope)
    && F.Lookup(v.members, "generation") == Some(Json.Number(t.generation))
    && F.Lookup(v.members, "resulting_freshness_state").Some?
    && F.IsRecord(F.Lookup(v.members, "resulting_freshness_state").value, t.freshness)
    && F.Lookup(v.members, "operation_type")
       == Some(Json.Text(if t.operation == BootstrapOperation then "bootstrap" else "epoch-transition"))
    && F.Lookup(v.members, "authorization_id") == Some(Json.Text(t.authorizationId))
    && F.Lookup(v.members, "authorization_sequence") == Some(Json.Number(t.sequence))
  }

  /** The text is a certified document of a transaction. */
  ghost predicate CarriesTransaction(sha256: string -> string, raw: string, t: Transaction) {
    exists state ::
      F.Certified(sha256, "guardian-f401:m15:authorization-transaction-state:v1", raw, state) && IsTransaction(state, t)
  }

  lemma ScopeByName(v: Json.Value, s: Scope)
    ensures ParseScope(v) == Some(s) <==> IsScope(v, s)
  {
    hide F.Lookup;
    if v.Object? {
      F.HasThree(v.members, SCOPE_KEYS);
    }
  }

  lemma ReplayStateByName(v: Json.Value, r: ReplayState)
    ensures ParseReplayState(v) == Some(r) <==> ValidUint64(r.sequence) && IsReplayState(v, r)
  {
    hide F.Lookup, ParseScope, IsScope;
    if v.Object? {
      HasTwo(v.members, REPLAY_STATE_KEYS);
      if F.Lookup(v.members, "scope").Some? {
        ScopeByName(F.Lookup(v.members, "scope").value, r.scope);
      }
    }
  }

  lemma HasTwo(members: seq<Json.Member>, keys: seq<string>)
    requires |keys| == 2
    ensures F.HasExactly(members, keys)
      <==> |members| == 2 && F.Lookup(members, keys[0]).Some? && F.Lookup(members, keys[1]).Some?
  {
    hide F.Lookup;
  }

  lemma FreshnessByName(v: Json.Value, s: State)
    ensures ParseFreshness(v) == Some(s) <==> s.Valid() && F.IsRecord(v, s)
  {
    hide F.HasExactly, F.StateOfMembers, State.Valid, F.IsRecord;
    if v.Object? {
      F.MembersAreRecord(v.members, s);
    } else {
      RecordIsObject(v, s);
    }
  }

  lemma RecordIsObject(v: Json.Value, s: State)
    ensures F.IsRecord(v, s) ==> v.Object?
  {
  }

  lemma HasStateKeys(members: seq<Json.Member>)
    ensures F.HasExactly(members, STATE_KEYS) <==>
      && |members| == 7
      && F.Lookup(members, "replay_state").Some? && F.Lookup(members, "replay_scope").Some?
      && F.Lookup(members, "generation").Some? && F.Lookup(members, "resulting_freshness_state").Some?
      && F.Lookup(members, "operation_type").Some? && F.Lookup(members, "authorization_id").Some?
      && F.Lookup(members, "authorization_sequence").Some?
  {
    hide F.Lookup;
    var keys := STATE_KEYS;
    assert keys[0] == "authorization_id" && keys[1] == "authorization_sequence" && keys[2] == "generation";
    assert keys[3] == "operation_type" && keys[4] == "replay_scope" && keys[5] == "replay_state";
    assert keys[6] == "resulting_freshness_state";
  }

  lemma MembersAreTransaction(members: seq<Json.Member>, t: Transaction)
    ensures F.HasExactly(members, STATE_KEYS) && TransactionOfMembers(members) == Some(t)
      <==> t.Valid() && IsTransaction(Json.Object(members), t)
  {
    hide F.Lookup, F.HasExactly, F.Sorted, F.IsRecord, ParseScope, ParseReplayState, ParseFreshness, IsScope,
      IsReplayState;
    HasStateKeys(members);
    if F.HasExactly(members, STATE_KEYS) {
      ScopeByName(F.Lookup(members, "replay_scope").value, t.scope);
      ReplayStateByName(F.Lookup(members, "replay_state").value, t.replayState);
      FreshnessByName(F.Lookup(members, "resulting_freshness_state").value, t.freshness);
    }
  }

  /** A text is read as a transaction exactly when it is a certified document of that
      well-formed transaction. */
  lemma ParseTransactionIff(sha256: string -> string, raw: string, t: Transaction)
    ensures ParseTransaction(sha256, raw) == Some(t) <==> t.Valid() && CarriesTransaction(sha256, raw, t)
  {
    hide F.ParseDocument, F.Certified, IsTransaction, F.HasExactly, TransactionOfMembers, Transaction.Valid;
    if ParseTransaction(sha256, raw) == Some(t) {
      var members := F.ParseDocument(sha256, SCHEMA_VERSION, STATE_KEYS, raw).value;
      F.AcceptedDocuments(sha256, SCHEMA_VERSION, STATE_KEYS, raw, members);
      MembersAreTransaction(members, t);
    }
    if t.Valid() && CarriesTransaction(sha256, raw, t) {
      var state :| F.Certified(sha256, SCHEMA_VERSION, raw, state) && IsTransaction(state, t);
      TransactionIsObject(state, t);
      MembersAreTransaction(state.members, t);
      F.AcceptedDocuments(sha256, SCHEMA_VERSION, STATE_KEYS, raw, state.members);
    }
  }

  lemma ScopeSorts(v: Json.Value, s: Scope)
    requires IsScope(v, s) && Json.DistinctNames(v)
    ensures JsonOrder.SortKeys(v) == Json.Object(ScopeMapping(s))
  {
    hide F.Lookup, JsonOrder.Ordered, JsonOrder.SortMembers;
    ScopeIsSorted(s);
    F.SortsTo(v.members, ScopeMapping(s));
  }

  lemma ReplayStateSorts(v: Json.Value, r: ReplayState)
    requires IsReplayState(v, r) && Json.DistinctNames(v)
    ensures JsonOrder.SortKeys(v) == Json.Object(ReplayStateMapping(r))
  {
    hide F.Lookup, JsonOrder.Ordered, JsonOrder.SortMembers, IsScope, ScopeMapping;
    ReplayStateIsSorted(r);
    F.LookupStands(v.members, "scope");
    ScopeSorts(F.Lookup(v.members, "scope").value, r.scope);
    F.SortsTo(v.members, ReplayStateMapping(r));
  }

  /** Sorted at every depth, the state object of a transaction is its canonical mapping. */
  lemma TransactionSorts(v: Json.Value, t: Transaction)
    requires IsTransaction(v, t) && Json.DistinctNames(v)
    ensures JsonOrder.SortKeys(v) == Json.Object(TransactionMapping(t))
  {
    hide F.Lookup, JsonOrder.Ordered, JsonOrder.SortMembers, IsScope, IsReplayState, F.IsRecord, ScopeMapping,
      ReplayStateMapping, F.StateMapping;
    MappingIsSorted(t);
    F.LookupStands(v.members, "replay_state");
    F.LookupStands(v.members, "replay_scope");
    F.LookupStands(v.members, "resulting_freshness_state");
    ReplayStateSorts(F.Lookup(v.members, "replay_state").value, t.replayState);
    ScopeSorts(F.Lookup(v.members, "replay_scope").value, t.scope);
    F.RecordSorts(F.Lookup(v.members, "resulting_freshness_state").value, t.freshness);
    F.SortsTo(v.members, TransactionMapping(t));
  }

  /** Every text that is read carries the digest of the transaction it yields, and the schema
      version of its store. */
  lemma LoadedTextCarriesItsDigest(sha256: string -> string, raw: string, t: Transaction)
    requires ParseTransaction(sha256, raw) == Some(t)
    ensures Json.Parse(raw).Some? && Json.Parse(raw).value.Object?
    ensures var top := Json.Parse(raw).value.members;
      && F.Lookup(top, "schema_version")
         == Some(Json.Text("guardian-f401:m15:authorization-transaction-state:v1"))
      && F.Lookup(top, "integrity_sha256")
         == Some(Json.Text(sha256(F.Material(SCHEMA_VERSION, TransactionMapping(t)))))
  {
    hide ParseTransaction, IsTransaction, Json.Print, F.Lookup, TransactionMapping, JsonOrder.SortKeys, F.IsObjectOf,
      Json.Parse;
    ParseTransactionIff(sha256, raw, t);
    var state :| F.Certified(sha256, SCHEMA_VERSION, raw, state) && IsTransaction(state, t);
    F.CertifiedParts(sha256, SCHEMA_VERSION, raw, state);
    TransactionSorts(state, t);
  }

  lemma TransactionIsObject(v: Json.Value, t: Transaction)
    requires IsTransaction(v, t)
    ensures v == Json.Object(v.members)
  {
  }

  // ---------------------------------------------------------------- loading and committing

  datatype LoadResult =
    | NotEstablished
    | StateInvalid
    | StateUnavailable
    | StateValid(transaction: Transaction)

  datatype PersistResult =
    | PreparedOk(transaction: Transaction)
    | Committed(transaction: Transaction)
    | Verified(transaction: Transaction)
    | PersistFailure
    | StalePreparation

  /** The storage key of a scope: its canonical text, hence different for different scopes. */
  function ScopeKey(s: Scope): string {
    Json.Print(Json.Object(ScopeMapping(s)))
  }

  lemma ScopeKeyIsInjective(a: Scope, b: Scope)
    requires ScopeKey(a) == ScopeKey(b)
    ensures a == b
  {
    Json.PrintIsInjective(Json.Object(ScopeMapping(a)), Json.Object(ScopeMapping(b)));
    ScopeRoundTrip(a);
    ScopeRoundTrip(b);
  }

  function LoadFrom(sha256: string -> string, files: Files, scope: Scope): LoadResult {
    match AtKey(files, ScopeKey(scope))
    case None => NotEstablished
    case Some(raw) =>
      match ParseTransaction(sha256, raw)
      case None => StateInvalid
      case Some(t) => if t.scope == scope then StateValid(t) else StateInvalid
  }

  function PrepareResult(p: Prepared): PersistResult {
    if p.previousGeneration.Some? && p.candidate.generation <= p.previousGeneration.value then StalePreparation
    else PreparedOk(p.candidate)
  }

  /** What a commit must find: nothing, or exactly the generation, replay state and
      resulting freshness state the candidate was prepared over. */
  predicate Accepts(current: LoadResult, p: Prepared) {
    match p.previousGeneration
    case None => current.NotEstablished?
    case Some(g) =>
      && current.StateValid?
      && current.transaction.generation == g
      && p.previousReplay == Some(current.transaction.replayState)
      && p.previousFreshness == Some(current.transaction.freshness)
  }

  function CommitEffect(current: LoadResult, p: Prepared, fault: F.CommitFault): (PersistResult, LoadResult) {
    match fault
    case CannotCreate => (PersistFailure, current)
    case CannotLoad => (StalePreparation, current)
    case FailsBefore => (if Accepts(current, p) then PersistFailure else StalePreparation, current)
    case FailsAfter =>
      if Accepts(current, p) then (PersistFailure, StateValid(p.candidate)) else (StalePreparation, current)
    case NoFault =>
      if Accepts(current, p) then (Committed(p.candidate), StateValid(p.candidate)) else (StalePreparation, current)
  }

  function VerifyResult(current: LoadResult, p: Prepared): PersistResult {
    if current == StateValid(p.candidate) then Verified(p.candidate) else PersistFailure
  }

  function AcceptsText(sha256: string -> string, candidate: Transaction): string -> bool {
    raw => ParseTransaction(sha256, raw) == Some(candidate)
  }

  function Abstract(sha256: string -> string, candidate: Transaction, f: F.HostFaults): F.CommitFault {
    if f.mkdirFails then F.CannotCreate
    else if f.loadFails then F.CannotLoad
    else
      match ReplaceOutcome(Serialize(sha256, candidate), AcceptsText(sha256, candidate), f.write)
      case NotReplaced => F.FailsBefore
      case ReplacedUnsynced => F.FailsAfter
      case Replaced => F.NoFault
  }

  /** Nothing stops a commit of this candidate between creating the directory and the rename. */
  ghost predicate ReachesRename(sha256: string -> string, candidate: Transaction, f: F.HostFaults) {
    && !f.mkdirFails && !f.loadFails && !f.write.writeFails && !f.write.replaceFails
    && match f.write.readBack
       case Faithful => true
       case ReadFails => false
       case Corrupted(bytes) => CarriesTransaction(sha256, bytes, candidate)
  }

  /** The store holds exactly what the candidate was prepared over: nothing, or a record of
      that generation with that replay state and that freshness state. */
  predicate IsAsPrepared(current: LoadResult, p: Prepared) {
    || (p.previousGeneration == None && current == NotEstablished)
    || (&& current.StateValid?
        && p.previousGeneration == Some(current.transaction.generation)
        && p.previousReplay == Some(current.transaction.replayState)
        && p.previousFreshness == Some(current.transaction.freshness))
  }

  /** The effect of a commit in terms of each single fault. */
  lemma CommitEffectIs(sha256: string -> string, current: LoadResult, p: Prepared, f: F.HostFaults)
    requires p.candidate.Valid()
    ensures var asPrepared := IsAsPrepared(current, p);
      var renamed := asPrepared && ReachesRename(sha256, p.candidate, f);
      CommitEffect(current, p, Abstract(sha256, p.candidate, f))
        == (if renamed && !f.write.syncFails then Committed(p.candidate)
            else if f.mkdirFails || (!f.loadFails && asPrepared) then PersistFailure
            else StalePreparation,
            if renamed then StateValid(p.candidate) else current)
  {
    hide ParseTransaction, Serialize, CarriesTransaction, Transaction.Valid;
    RoundTrip(sha256, p.candidate);
    if f.write.readBack.Corrupted? {
      ParseTransactionIff(sha256, f.write.readBack.bytes, p.candidate);
    }
  }

  class HostAuthorizationBackend {
    const sha256: string -> string
    const disk: HostDirectory

    constructor (sha256: string -> string)
      ensures fresh(disk) && disk.files == map[] && this.sha256 == sha256
    {
      this.sha256 := sha256;
      disk := new HostDirectory();
    }

    ghost function Stored(scope: Scope): LoadResult
      reads this, disk
    {
      LoadFrom(sha256, disk.files, scope)
    }

    method Load(scope: Scope, unavailable: bool) returns (r: LoadResult)
      ensures r == if unavailable then StateUnavailable else Stored(scope)
      ensures r == StateUnavailable <==> unavailable
      ensures r == NotEstablished <==> !unavailable && AtKey(disk.files, ScopeKey(scope)) == None
      ensures forall t: Transaction :: r == StateValid(t) <==>
        && !unavailable && AtKey(disk.files, ScopeKey(scope)).Some?
        && t.Valid() && t.scope == scope && CarriesTransaction(sha256, AtKey(disk.files, ScopeKey(scope)).value, t)
    {
      hide ParseTransaction, CarriesTransaction, ScopeKey;
      forall raw, t
        ensures ParseTransaction(sha256, raw) == Some(t) <==> t.Valid() && CarriesTransaction(sha256, raw, t)
      {
        ParseTransactionIff(sha256, raw, t);
      }
      if unavailable {
        return StateUnavailable;
      }
      if CommittedFile(ScopeKey(scope)) !in disk.files {
        return NotEstablished;
      }
      var parsed := ParseTransaction(sha256, disk.files[CommittedFile(ScopeKey(scope))]);
      if parsed.None? || parsed.value.scope != scope {
        return StateInvalid;
      }
      r := StateValid(parsed.value);
    }

    /** Compare-and-swap on generation, replay state and freshness state, with the same
        crash guarantee as the freshness store. */
    method Commit(p: Prepared, f: F.HostFaults) returns (r: PersistResult)
      requires p.candidate.Valid()
      modifies disk
      ensures (r, Stored(p.candidate.scope))
        == CommitEffect(old(Stored(p.candidate.scope)), p, Abstract(sha256, p.candidate, f))
      ensures var asPrepared := IsAsPrepared(old(Stored(p.candidate.scope)), p);
        var renamed := asPrepared && ReachesRename(sha256, p.candidate, f);
        && r == (if renamed && !f.write.syncFails then Committed(p.candidate)
                 else if f.mkdirFails || (!f.loadFails && asPrepared) then PersistFailure
                 else StalePreparation)
        && Stored(p.candidate.scope) == if renamed then StateValid(p.candidate) else old(Stored(p.candidate.scope))
      ensures forall s :: s != p.candidate.scope ==> Stored(s) == old(Stored(s))
      ensures |old(disk.trail)| <= |disk.trail| && disk.trail[..|old(disk.trail)|] == old(disk.trail)
      ensures forall i :: |old(disk.trail)| <= i < |disk.trail| ==>
        var after := LoadFrom(sha256, disk.trail[i], p.candidate.scope);
        after == old(Stored(p.candidate.scope))
          || (after == StateValid(p.candidate) && Accepts(old(Stored(p.candidate.scope)), p))
      ensures forall i, s :: |old(disk.trail)| <= i < |disk.trail| && s != p.candidate.scope ==>
        LoadFrom(sha256, disk.trail[i], s) == old(Stored(s))
    {
      hide ParseTransaction, Serialize, ScopeKey, Accepts, LoadFrom, CarriesTransaction, ReachesRename, IsAsPrepared,
        Transaction.Valid, ReplaceOutcome, AtKey;
      CommitEffectIs(sha256, Stored(p.candidate.scope), p, f);
      if f.mkdirFails {
        return PersistFailure;
      }
      var scope := p.candidate.scope;
      var current := Load(scope, f.loadFails);
      UnavailableIsStale(p);
      if !Accepts(current, p) {
        return StalePreparation;
      }
      var raw := Serialize(sha256, p.candidate);
      ReadsBack(p.candidate, raw);
      OtherScopesKept(scope);
      var outcome := disk.Replace(ScopeKey(scope), raw, AcceptsText(sha256, p.candidate), f.write);
      r := if outcome == Replaced then Committed(p.candidate) else PersistFailure;
    }

    lemma UnavailableIsStale(p: Prepared)
      ensures !Accepts(StateUnavailable, p)
    {
    }

    /** A committed file holding the candidate's text loads as the candidate, and a file
        left alone loads as before. */
    lemma ReadsBack(candidate: Transaction, raw: string)
      requires candidate.Valid() && raw == Serialize(sha256, candidate)
      ensures ParseTransaction(sha256, raw) == Some(candidate)
      ensures forall files: Files :: AtKey(files, ScopeKey(candidate.scope)) == Some(raw) ==>
        LoadFrom(sha256, files, candidate.scope) == StateValid(candidate)
      ensures forall a: Files, b: Files ::
        AtKey(a, ScopeKey(candidate.scope)) == AtKey(b, ScopeKey(candidate.scope)) ==>
          LoadFrom(sha256, a, candidate.scope) == LoadFrom(sha256, b, candidate.scope)
    {
      RoundTrip(sha256, candidate);
    }

    lemma OtherScopesKept(scope: Scope)
      ensures forall a: Files, b: Files, s ::
        SameCommitted(a, b, ScopeKey(scope)) && s != scope ==> LoadFrom(sha256, a, s) == LoadFrom(sha256, b, s)
    {
      forall a: Files, b: Files, s | SameCommitted(a, b, ScopeKey(scope)) && s != scope
        ensures LoadFrom(sha256, a, s) == LoadFrom(sha256, b, s)
      {
        if ScopeKey(s) == ScopeKey(scope) {
          ScopeKeyIsInjective(s, scope);
        }
      }
    }

    method Verify(p: Prepared, unavailable: bool) returns (r: PersistResult)
      ensures r == VerifyResult(if unavailable then StateUnavailable else Stored(p.candidate.scope), p)
      ensures r == if !unavailable && Stored(p.candidate.scope) == StateValid(p.candidate) then Verified(p.candidate)
                   else PersistFailure
    {
      var loaded := Load(p.candidate.scope, unavailable);
      r := if loaded == StateValid(p.candidate) then Verified(p.candidate) else PersistFailure;
    }
  }
}
