/** The host freshness store: the text of one stored record, and the compare-and-swap
    backend over the host directory. */
module FreshnessBackend {
  import opened Wrappers
  import opened FreshnessState
  import opened HostFiles
  import Json
  import JsonOrder

  const SCHEMA_VERSION := "guardian-f401:m15:freshness-state:v1"

  const TOP_LEVEL_KEYS: seq<string> := ["integrity_sha256", "schema_version", "state"]

  /** In the order of the canonical printer: sorted. */
  const STATE_KEYS: seq<string> := [
    "current_epoch", "generation", "high_water_state", "highest_logical_time",
    "previous_epoch", "producer_id", "transition_sequence"]

  // ---------------------------------------------------------------- members of a parsed object

  function Lookup(members: seq<Json.Member>, name: string): Option<Json.Value> {
    if members == [] then None
    else if members[0].name == name then Some(members[0].value)
    else Lookup(members[1..], name)
  }

  /** The object has exactly the listed member names; parsed names are distinct. */
  predicate HasExactly(members: seq<Json.Member>, keys: seq<string>) {
    && |members| == |keys|
    && (forall i :: 0 <= i < |keys| ==> Lookup(members, keys[i]).Some?)
  }

  /** The members under these names, in the order of the names. */
  function Sorted(members: seq<Json.Member>, keys: seq<string>): (sorted: seq<Json.Member>)
    requires HasExactly(members, keys)
    ensures |sorted| == |keys|
    ensures forall i :: 0 <= i < |keys| ==> sorted[i] == Json.Member(keys[i], Lookup(members, keys[i]).value)
  {
    seq(|keys|, i requires 0 <= i < |keys| => Json.Member(keys[i], Lookup(members, keys[i]).value))
  }

  lemma {:induction false} LookupFinds(members: seq<Json.Member>, i: nat)
    requires i < |members| && JsonOrder.DistinctMembers(members)
    ensures Lookup(members, members[i].name) == Some(members[i].value)
  {
    if i > 0 {
      LookupFinds(members[1..], i - 1);
    }
  }

  lemma SortedIsIdentity(members: seq<Json.Member>, keys: seq<string>)
    requires JsonOrder.DistinctMembers(members) && |members| == |keys|
    requires forall i :: 0 <= i < |keys| ==> members[i].name == keys[i]
    ensures HasExactly(members, keys) && Sorted(members, keys) == members
  {
    forall i | 0 <= i < |keys|
      ensures Lookup(members, keys[i]) == Some(members[i].value)
    {
      LookupFinds(members, i);
    }
  }

  // ---------------------------------------------------------------- text of one record

  function HighWaterText(h: HighWaterState): string {
    match h
    case UNSET => "HIGH_WATER_UNSET"
    case SET => "HIGH_WATER_SET"
  }

  function ParseHighWater(v: Json.Value): Option<HighWaterState> {
    if v == Json.Text("HIGH_WATER_UNSET") then Some(UNSET)
    else if v == Json.Text("HIGH_WATER_SET") then Some(SET)
    else None
  }

  function StateMapping(s: State): seq<Json.Member> {
    [ Json.Member("current_epoch", Json.Text(s.currentEpoch)),
      Json.Member("generation", Json.Number(s.generation)),
      Json.Member("high_water_state", Json.Text(HighWaterText(s.highWaterState))),
      Json.Member("highest_logical_time",
                  if s.highestLogicalTime.None? then Json.Null else Json.Number(s.highestLogicalTime.value)),
      Json.Member("previous_epoch",
                  if s.previousEpoch.None? then Json.Null else Json.Text(s.previousEpoch.value)),
      Json.Member("producer_id", Json.Text(s.producerId)),
      Json.Member("transition_sequence", Json.Number(s.transitionSequence)) ]
  }

  function OptionalText(v: Json.Value): Option<Option<string>> {
    match v
    case Null => Some(None)
    case Text(s) => Some(Some(s))
    case _ => None
  }

  function OptionalNumber(v: Json.Value): Option<Option<int>> {
    match v
    case Null => Some(None)
    case Number(n) => Some(Some(n))
    case _ => None
  }

  /** A record rebuilt from its seven members, if every construction check passes. */
  function StateOfMembers(members: seq<Json.Member>): (r: Option<State>)
    requires HasExactly(members, STATE_KEYS)
    ensures r.Some? ==> r.value.Valid()
  {
    var m := Sorted(members, STATE_KEYS);
    var highWater := ParseHighWater(m[2].value);
    var time := OptionalNumber(m[3].value);
    var previous := OptionalText(m[4].value);
    if m[0].value.Text? && m[1].value.Number? && highWater.Some? && time.Some? && previous.Some?
       && m[5].value.Text? && m[6].value.Number? then
      var s := State(m[5].value.s, m[0].value.s, previous.value, highWater.value, time.value,
                     m[6].value.n, m[1].value.n);
      if s.Valid() then Some(s) else None
    else None
  }

  /** The integrity field: the digest of the canonical text of schema and state. */
  function IntegrityDigest(sha256: string -> string, schema: string, mapping: seq<Json.Member>): string {
    sha256(Json.Print(Json.Object([
      Json.Member("schema_version", Json.Text(schema)),
      Json.Member("state", Json.Object(mapping)) ])))
  }

  function Document(sha256: string -> string, schema: string, mapping: seq<Json.Member>): Json.Value {
    Json.Object([
      Json.Member("integrity_sha256", Json.Text(IntegrityDigest(sha256, schema, mapping))),
      Json.Member("schema_version", Json.Text(schema)),
      Json.Member("state", Json.Object(mapping)) ])
  }

  function Serialize(sha256: string -> string, s: State): string {
    Json.Print(Document(sha256, SCHEMA_VERSION, StateMapping(s))) + "\n"
  }

  /** The members of the state object of one stored document, integrity checked.  The
      digest is taken over the object sorted at every depth. */
  function ParseDocument(sha256: string -> string, schema: string, keys: seq<string>, raw: string)
    : (r: Option<seq<Json.Member>>)
    ensures r.Some? ==> HasExactly(r.value, keys)
  {
    var document := Json.Parse(raw);
    if document.None? || !document.value.Object? || !HasExactly(document.value.members, TOP_LEVEL_KEYS) then None
    else
      var top := Sorted(document.value.members, TOP_LEVEL_KEYS);
      var state := top[2].value;
      if top[1].value != Json.Text(schema) || !state.Object? || !HasExactly(state.members, keys) then None
      else if top[0].value != Json.Text(IntegrityDigest(sha256, schema, JsonOrder.SortMembers(state.members))) then None
      else Some(state.members)
  }

  function ParseState(sha256: string -> string, raw: string): (r: Option<State>)
    ensures r.Some? ==> r.value.Valid()
  {
    match ParseDocument(sha256, SCHEMA_VERSION, STATE_KEYS, raw)
    case None => None
    case Some(members) => StateOfMembers(members)
  }

  /** Reading back a written document gives its state object. */
  lemma DocumentRoundTrip(sha256: string -> string, schema: string, keys: seq<string>, mapping: seq<Json.Member>)
    requires |mapping| == |keys| && forall i :: 0 <= i < |keys| ==> mapping[i].name == keys[i]
    requires Json.NoFloats(Json.Object(mapping)) && Json.DistinctNames(Json.Object(mapping))
    requires JsonOrder.KeysSorted(Json.Object(mapping))
    ensures ParseDocument(sha256, schema, keys, Json.Print(Document(sha256, schema, mapping)) + "\n") == Some(mapping)
  {
    hide Json.Print, Json.Parse;
    var document := Document(sha256, schema, mapping);
    assert Json.DistinctNames(document) && Json.NoFloats(document) by {
      assert "integrity_sha256" != "schema_version";
      assert "integrity_sha256" != "state" && "schema_version" != "state";
    }
    Json.ParseOfPrint(document);
    SortedIsIdentity(document.members, TOP_LEVEL_KEYS);
    SortedIsIdentity(mapping, keys);
    JsonOrder.SortOfMembers(mapping);
  }

  /** The stored text of every well-formed record parses back to that record, whatever
      the digest function is. */
  lemma RoundTrip(sha256: string -> string, s: State)
    requires s.Valid()
    ensures ParseState(sha256, Serialize(sha256, s)) == Some(s)
  {
    hide Json.Print, Json.Parse;
    var mapping := StateMapping(s);
    StateKeysDistinct(s);
    StateKeysSorted(s);
    DocumentRoundTrip(sha256, SCHEMA_VERSION, STATE_KEYS, mapping);
    MappingRoundTrip(s);
  }

  lemma StateKeysDistinct(s: State)
    ensures JsonOrder.DistinctMembers(StateMapping(s))
  {
    assert forall i :: 0 <= i < 7 ==> |StateMapping(s)[i].name| == [13, 10, 16, 20, 14, 11, 19][i];
  }

  lemma StateKeyLess(k: nat)
    requires k < 6
    ensures JsonOrder.Less(STATE_KEYS[k], STATE_KEYS[k + 1])
  {
    hide JsonOrder.Less;
    JsonOrder.LessAt(STATE_KEYS[k], STATE_KEYS[k + 1], if k == 2 then 4 else if k == 4 then 2 else 0);
  }

  lemma StateKeysSorted(s: State)
    ensures JsonOrder.KeysSorted(Json.Object(StateMapping(s)))
  {
    hide JsonOrder.Less, JsonOrder.Ordered;
    forall k | 0 <= k < |STATE_KEYS| - 1 ensures JsonOrder.Less(STATE_KEYS[k], STATE_KEYS[k + 1]) {
      StateKeyLess(k);
    }
    JsonOrder.OrderedByNames(StateMapping(s), STATE_KEYS);
  }

  lemma MappingRoundTrip(s: State)
    requires s.Valid()
    requires JsonOrder.DistinctMembers(StateMapping(s))
    ensures HasExactly(StateMapping(s), STATE_KEYS) && StateOfMembers(StateMapping(s)) == Some(s)
  {
    hide HasExactly, Sorted, JsonOrder.DistinctMembers;
    SortedIsIdentity(StateMapping(s), STATE_KEYS);
  }

  // ---------------------------------------------------------------- exactly which texts are accepted

  /** An object with exactly these members, in any order. */
  predicate IsObjectOf(v: Json.Value, members: seq<Json.Member>) {
    && v.Object? && |v.members| == |members|
    && forall i :: 0 <= i < |members| ==> Lookup(v.members, members[i].name) == Some(members[i].value)
  }

  lemma ObjectOfThree(v: Json.Value, a: Json.Member, b: Json.Member, c: Json.Member)
    ensures IsObjectOf(v, [a, b, c])
      <==> (&& v.Object? && |v.members| == 3
            && Lookup(v.members, a.name) == Some(a.value)
            && Lookup(v.members, b.name) == Some(b.value)
            && Lookup(v.members, c.name) == Some(c.value))
  {
    hide Lookup;
    var all := [a, b, c];
    assert all[0] == a && all[1] == b && all[2] == c;
  }

  lemma ObjectOfSeven(v: Json.Value, a: Json.Member, b: Json.Member, c: Json.Member, d: Json.Member, e: Json.Member,
                      f: Json.Member, g: Json.Member)
    ensures IsObjectOf(v, [a, b, c, d, e, f, g])
      <==> (&& v.Object? && |v.members| == 7
            && Lookup(v.members, a.name) == Some(a.value)
            && Lookup(v.members, b.name) == Some(b.value)
            && Lookup(v.members, c.name) == Some(c.value)
            && Lookup(v.members, d.name) == Some(d.value)
            && Lookup(v.members, e.name) == Some(e.value)
            && Lookup(v.members, f.name) == Some(f.value)
            && Lookup(v.members, g.name) == Some(g.value))
  {
    hide Lookup;
    var all := [a, b, c, d, e, f, g];
    assert all[0] == a && all[1] == b && all[2] == c && all[3] == d && all[4] == e && all[5] == f && all[6] == g;
  }

  /** The text is a document of this schema about this state object, and carries the digest
      of exactly that: of the two members, in order at every depth, printed compactly. */
  predicate Certified(sha256: string -> string, schema: string, raw: string, state: Json.Value) {
    match Json.Parse(raw)
    case None => false
    case Some(document) =>
      IsObjectOf(document, [
        Json.Member("schema_version", Json.Text(schema)),
        Json.Member("state", state),
        Json.Member("integrity_sha256", Json.Text(sha256(Json.Print(Json.Object([
          Json.Member("schema_version", Json.Text(schema)),
          Json.Member("state", JsonOrder.SortKeys(state)) ]))))) ])
  }

  /** Nothing else is accepted, and all of it is. */
  lemma AcceptedDocuments(sha256: string -> string, schema: string, keys: seq<string>, raw: string,
                          members: seq<Json.Member>)
    ensures ParseDocument(sha256, schema, keys, raw) == Some(members)
      <==> Certified(sha256, schema, raw, Json.Object(members)) && HasExactly(members, keys)
  {
    hide Json.Print, JsonOrder.SortMembers, Json.Parse, Lookup;
    match Json.Parse(raw)
    case None =>
    case Some(document) =>
      assert JsonOrder.SortKeys(Json.Object(members)) == Json.Object(JsonOrder.SortMembers(members));
      var digest := Json.Text(IntegrityDigest(sha256, schema, JsonOrder.SortMembers(members)));
      ObjectOfThree(document, Json.Member("schema_version", Json.Text(schema)),
                    Json.Member("state", Json.Object(members)), Json.Member("integrity_sha256", digest));
      if document.Object? {
        HasThree(document.members, TOP_LEVEL_KEYS);
      }
  }

  lemma HasThree(members: seq<Json.Member>, keys: seq<string>)
    requires |keys| == 3
    ensures HasExactly(members, keys)
      <==> (&& |members| == 3 && Lookup(members, keys[0]).Some? && Lookup(members, keys[1]).Some?
            && Lookup(members, keys[2]).Some?)
  {
    hide Lookup;
  }

  /** A document with any digest and any schema text in place of its own is refused, unless
      they are its own. */
  lemma AlteredDocumentIsRefused(sha256: string -> string, schema: string, keys: seq<string>,
                                 mapping: seq<Json.Member>, digest: string, version: string)
    requires |mapping| == |keys| && forall i :: 0 <= i < |keys| ==> mapping[i].name == keys[i]
    requires Json.NoFloats(Json.Object(mapping)) && Json.DistinctNames(Json.Object(mapping))
    requires JsonOrder.KeysSorted(Json.Object(mapping))
    ensures var raw := Json.Print(Json.Object([
        Json.Member("integrity_sha256", Json.Text(digest)),
        Json.Member("schema_version", Json.Text(version)),
        Json.Member("state", Json.Object(mapping)) ])) + "\n";
      ParseDocument(sha256, schema, keys, raw)
        == if version == schema && digest == IntegrityDigest(sha256, schema, mapping) then Some(mapping) else None
  {
    hide Json.Print, Json.Parse;
    var document := Json.Object([
      Json.Member("integrity_sha256", Json.Text(digest)),
      Json.Member("schema_version", Json.Text(version)),
      Json.Member("state", Json.Object(mapping)) ]);
    assert Json.DistinctNames(document) && Json.NoFloats(document) by {
      assert "integrity_sha256" != "schema_version";
      assert "integrity_sha256" != "state" && "schema_version" != "state";
    }
    Json.ParseOfPrint(document);
    SortedIsIdentity(document.members, TOP_LEVEL_KEYS);
    SortedIsIdentity(mapping, keys);
    JsonOrder.SortOfMembers(mapping);
  }

  /** The members of a stored record, by name. */
  predicate IsRecord(v: Json.Value, s: State) {
    IsObjectOf(v, [
      Json.Member("producer_id", Json.Text(s.producerId)),
      Json.Member("current_epoch", Json.Text(s.currentEpoch)),
      Json.Member("previous_epoch",
                  if s.previousEpoch == None then Json.Null else Json.Text(s.previousEpoch.value)),
      Json.Member("high_water_state",
                  Json.Text(if s.highWaterState == SET then "HIGH_WATER_SET" else "HIGH_WATER_UNSET")),
      Json.Member("highest_logical_time",
                  if s.highestLogicalTime == None then Json.Null else Json.Number(s.highestLogicalTime.value)),
      Json.Member("transition_sequence", Json.Number(s.transitionSequence)),
      Json.Member("generation", Json.Number(s.generation)) ])
  }

  /** The text is a certified document of a record. */
  ghost predicate CarriesRecord(sha256: string -> string, raw: string, s: State) {
    exists state :: Certified(sha256, "guardian-f401:m15:freshness-state:v1", raw, state) && IsRecord(state, s)
  }

  lemma RecordByName(v: Json.Value, s: State)
    ensures IsRecord(v, s) <==>
      && v.Object? && |v.members| == 7
      && Lookup(v.members, "producer_id") == Some(Json.Text(s.producerId))
      && Lookup(v.members, "current_epoch") == Some(Json.Text(s.currentEpoch))
      && Lookup(v.members, "previous_epoch")
         == Some(if s.previousEpoch == None then Json.Null else Json.Text(s.previousEpoch.value))
      && Lookup(v.members, "high_water_state")
         == Some(Json.Text(if s.highWaterState == SET then "HIGH_WATER_SET" else "HIGH_WATER_UNSET"))
      && Lookup(v.members, "highest_logical_time")
         == Some(if s.highestLogicalTime == None then Json.Null else Json.Number(s.highestLogicalTime.value))
      && Lookup(v.members, "transition_sequence") == Some(Json.Number(s.transitionSequence))
      && Lookup(v.members, "generation") == Some(Json.Number(s.generation))
  {
    hide Lookup, IsObjectOf;
    ObjectOfSeven(v,
      Json.Member("producer_id", Json.Text(s.producerId)),
      Json.Member("current_epoch", Json.Text(s.currentEpoch)),
      Json.Member("previous_epoch", if s.previousEpoch == None then Json.Null else Json.Text(s.previousEpoch.value)),
      Json.Member("high_water_state",
                  Json.Text(if s.highWaterState == SET then "HIGH_WATER_SET" else "HIGH_WATER_UNSET")),
      Json.Member("highest_logical_time",
                  if s.highestLogicalTime == None then Json.Null else Json.Number(s.highestLogicalTime.value)),
      Json.Member("transition_sequence", Json.Number(s.transitionSequence)),
      Json.Member("generation", Json.Number(s.generation)));
  }

  lemma HasStateKeys(members: seq<Json.Member>)
    ensures HasExactly(members, STATE_KEYS) <==>
      && |members| == 7
      && Lookup(members, "producer_id").Some? && Lookup(members, "current_epoch").Some?
      && Lookup(members, "previous_epoch").Some? && Lookup(members, "high_water_state").Some?
      && Lookup(members, "highest_logical_time").Some? && Lookup(members, "transition_sequence").Some?
      && Lookup(members, "generation").Some?
  {
    hide Lookup;
    var keys := STATE_KEYS;
    assert keys[0] == "current_epoch" && keys[1] == "generation" && keys[2] == "high_water_state";
    assert keys[3] == "highest_logical_time" && keys[4] == "previous_epoch" && keys[5] == "producer_id";
    assert keys[6] == "transition_sequence";
  }

  lemma MembersAreRecord(members: seq<Json.Member>, s: State)
    ensures HasExactly(members, STATE_KEYS) && StateOfMembers(members) == Some(s)
      <==> s.Valid() && IsRecord(Json.Object(members), s)
  {
    hide Lookup, State.Valid, IsRecord, HasExactly, Sorted;
    RecordByName(Json.Object(members), s);
    HasStateKeys(members);
  }

  /** A text is read as a record exactly when it is a certified document of that
      well-formed record. */
  lemma ParseStateIff(sha256: string -> string, raw: string, s: State)
    ensures ParseState(sha256, raw) == Some(s) <==> s.Valid() && CarriesRecord(sha256, raw, s)
  {
    hide ParseDocument, Certified, IsRecord, HasExactly, StateOfMembers, State.Valid;
    if ParseState(sha256, raw) == Some(s) {
      var members := ParseDocument(sha256, SCHEMA_VERSION, STATE_KEYS, raw).value;
      AcceptedDocuments(sha256, SCHEMA_VERSION, STATE_KEYS, raw, members);
      MembersAreRecord(members, s);
    }
    if s.Valid() && CarriesRecord(sha256, raw, s) {
      var state :| Certified(sha256, SCHEMA_VERSION, raw, state) && IsRecord(state, s);
      RecordIsObject(state, s);
      MembersAreRecord(state.members, s);
      AcceptedDocuments(sha256, SCHEMA_VERSION, STATE_KEYS, raw, state.members);
    }
  }

  /** What is digested for a record. */
  function Material(schema: string, mapping: seq<Json.Member>): string {
    Json.Print(Json.Object([
      Json.Member("schema_version", Json.Text(schema)), Json.Member("state", Json.Object(mapping)) ]))
  }

  /** A record of which only the state is edited loads exactly if the digest of the old
      material, which differs from the new, is also the digest of the new: a collision. */
  lemma EditedRecordNeedsCollision(sha256: string -> string, was: State, now: State)
    requires was.Valid() && now.Valid() && was != now
    ensures var before := Material(SCHEMA_VERSION, StateMapping(was));
      var after := Material(SCHEMA_VERSION, StateMapping(now));
      var edited := Json.Print(Json.Object([
        Json.Member("integrity_sha256", Json.Text(sha256(before))),
        Json.Member("schema_version", Json.Text(SCHEMA_VERSION)),
        Json.Member("state", Json.Object(StateMapping(now))) ])) + "\n";
      && before != after
      && ParseState(sha256, edited) == if sha256(before) == sha256(after) then Some(now) else None
  {
    hide Json.Print, Json.Parse, Json.NoFloats, Json.DistinctNames, ParseDocument, State.Valid, StateOfMembers,
      StateMapping, JsonOrder.KeysSorted;
    StateKeysDistinct(was);
    StateKeysDistinct(now);
    StateKeysSorted(now);
    MappingRoundTrip(was);
    MappingRoundTrip(now);
    MappingIsPrintable(was);
    MappingIsPrintable(now);
    if Material(SCHEMA_VERSION, StateMapping(was)) == Material(SCHEMA_VERSION, StateMapping(now)) {
      MaterialIsInjective(SCHEMA_VERSION, StateMapping(was), StateMapping(now));
    }
    AlteredDocumentIsRefused(sha256, SCHEMA_VERSION, STATE_KEYS, StateMapping(now),
                             sha256(Material(SCHEMA_VERSION, StateMapping(was))), SCHEMA_VERSION);
  }

  lemma MaterialIsInjective(schema: string, a: seq<Json.Member>, b: seq<Json.Member>)
    requires Json.NoFloats(Json.Object(a)) && Json.NoFloats(Json.Object(b))
    requires Material(schema, a) == Material(schema, b)
    ensures a == b
  {
    hide Json.Print;
    var v := Json.Object([
      Json.Member("schema_version", Json.Text(schema)), Json.Member("state", Json.Object(a)) ]);
    var w := Json.Object([
      Json.Member("schema_version", Json.Text(schema)), Json.Member("state", Json.Object(b)) ]);
    Json.PrintIsInjective(v, w);
    assert v.members[1].value.members == w.members[1].value.members;
  }

  lemma MappingIsPrintable(s: State)
    ensures Json.NoFloats(Json.Object(StateMapping(s))) && Json.DistinctNames(Json.Object(StateMapping(s)))
    ensures |StateMapping(s)| == |STATE_KEYS| && forall i :: 0 <= i < 7 ==> StateMapping(s)[i].name == STATE_KEYS[i]
  {
    StateKeysDistinct(s);
  }

  lemma {:induction false} LookupStands(members: seq<Json.Member>, name: string)
    requires Lookup(members, name).Some?
    ensures exists j :: 0 <= j < |members| && members[j] == Json.Member(name, Lookup(members, name).value)
  {
    if members[0].name == name {
      assert members[0] == Json.Member(name, Lookup(members, name).value);
    } else {
      LookupStands(members[1..], name);
      var j :| 0 <= j < |members[1..]| && members[1..][j] == Json.Member(name, Lookup(members[1..], name).value);
      assert members[j + 1] == members[1..][j];
    }
  }

  /** Sorting an object of which each member is known by name. */
  lemma SortsTo(members: seq<Json.Member>, target: seq<Json.Member>)
    requires JsonOrder.DistinctMembers(members) && JsonOrder.Ordered(target) && |members| == |target|
    requires forall i :: 0 <= i < |target| ==>
      && Lookup(members, target[i].name).Some?
      && target[i].value == JsonOrder.SortKeys(Lookup(members, target[i].name).value)
    ensures JsonOrder.SortMembers(members) == target
  {
    hide Lookup, JsonOrder.Ordered, JsonOrder.DistinctMembers, JsonOrder.SortMembers, JsonOrder.SortKeys;
    forall i | 0 <= i < |target|
      ensures JsonOrder.HasSorted(members, target[i])
    {
      LookupStands(members, target[i].name);
    }
    JsonOrder.SortByName(members, target);
  }

  /** Sorted, the state object of a record is its canonical mapping. */
  lemma RecordSorts(v: Json.Value, s: State)
    requires IsRecord(v, s) && Json.DistinctNames(v)
    ensures JsonOrder.SortKeys(v) == Json.Object(StateMapping(s))
  {
    hide Lookup, IsRecord, JsonOrder.Ordered, JsonOrder.SortMembers;
    RecordByName(v, s);
    StateKeysSorted(s);
    var target := StateMapping(s);
    forall i | 0 <= i < 7
      ensures Lookup(v.members, target[i].name) == Some(target[i].value)
      ensures target[i].value == JsonOrder.SortKeys(target[i].value)
    {
    }
    SortsTo(v.members, target);
  }

  /** Every text that is read carries the digest of the record it yields, and the schema
      version of its store. */
  lemma LoadedTextCarriesItsDigest(sha256: string -> string, raw: string, s: State)
    requires ParseState(sha256, raw) == Some(s)
    ensures Json.Parse(raw).Some? && Json.Parse(raw).value.Object?
    ensures var top := Json.Parse(raw).value.members;
      && Lookup(top, "schema_version") == Some(Json.Text("guardian-f401:m15:freshness-state:v1"))
      && Lookup(top, "integrity_sha256") == Some(Json.Text(sha256(Material(SCHEMA_VERSION, StateMapping(s)))))
  {
    hide ParseState, IsRecord, Json.Print, Lookup, StateMapping, JsonOrder.SortKeys, IsObjectOf, Json.Parse;
    ParseStateIff(sha256, raw, s);
    var state :| Certified(sha256, SCHEMA_VERSION, raw, state) && IsRecord(state, s);
    CertifiedParts(sha256, SCHEMA_VERSION, raw, state);
    RecordSorts(state, s);
  }

  lemma CertifiedParts(sha256: string -> string, schema: string, raw: string, state: Json.Value)
    requires Certified(sha256, schema, raw, state)
    ensures Json.Parse(raw).Some? && Json.Parse(raw).value.Object? && Json.DistinctNames(state)
    ensures var top := Json.Parse(raw).value.members;
      && Lookup(top, "schema_version") == Some(Json.Text(schema))
      && Lookup(top, "integrity_sha256") == Some(Json.Text(sha256(Json.Print(Json.Object([
          Json.Member("schema_version", Json.Text(schema)),
          Json.Member("state", JsonOrder.SortKeys(state)) ])))))
  {
    hide Lookup, IsObjectOf, Json.Print, JsonOrder.SortKeys;
    var document := Json.Parse(raw).value;
    var digest := Json.Text(sha256(Json.Print(Json.Object([
      Json.Member("schema_version", Json.Text(schema)),
      Json.Member("state", JsonOrder.SortKeys(state)) ]))));
    ObjectOfThree(document, Json.Member("schema_version", Json.Text(schema)), Json.Member("state", state),
                  Json.Member("integrity_sha256", digest));
    LookupStands(document.members, "state");
  }

  lemma RecordIsObject(v: Json.Value, s: State)
    requires IsRecord(v, s)
    ensures v == Json.Object(v.members)
  {
  }

  // ---------------------------------------------------------------- loading and committing

  datatype LoadResult =
    | NotEstablished
    | StateInvalid
    | StateUnavailable
    | StateRollback
    | StateValid(state: State)

  datatype PersistResult = Committed(state: State) | Verified(state: State) | PersistFailure

  /** A candidate bound to the exact state it replaces. */
  datatype PreparedWrite = PreparedWrite(producerId: string, previous: Option<State>, candidate: State)
  {
    predicate Valid() {
      && ValidProducerId(producerId)
      && candidate.Valid() && candidate.producerId == producerId
      && (previous.Some? ==> previous.value.producerId == producerId)
    }
  }

  /** What the store holds for one producer; the candidate file plays no part. */
  function LoadFrom(sha256: string -> string, files: Files, producerId: string): LoadResult {
    match AtKey(files, producerId)
    case None => NotEstablished
    case Some(raw) =>
      match ParseState(sha256, raw)
      case None => StateInvalid
      case Some(s) => if s.producerId == producerId then StateValid(s) else StateInvalid
  }

  function PrepareWrite(previous: Option<State>, candidate: State): Option<PreparedWrite> {
    if previous.Some? && candidate.generation <= previous.value.generation then None
    else Some(PreparedWrite(candidate.producerId, previous, candidate))
  }

  /** The compare half of compare-and-swap. */
  predicate Accepts(current: LoadResult, previous: Option<State>) {
    match previous
    case None => current.NotEstablished?
    case Some(s) => current == StateValid(s)
  }

  /** The ways one atomic commit can go, as its caller and later readers see it: nothing
      fails, the directory cannot be created, the committed file cannot be read,
      something fails before the rename, or the directory sync after the rename fails. */
  datatype CommitFault = NoFault | CannotCreate | CannotLoad | FailsBefore | FailsAfter

  function CommitEffect(current: LoadResult, p: PreparedWrite, fault: CommitFault): (PersistResult, LoadResult) {
    if fault.CannotCreate? || fault.CannotLoad? || !Accepts(current, p.previous) || fault.FailsBefore?
    then (PersistFailure, current)
    else if fault.FailsAfter? then (PersistFailure, StateValid(p.candidate))
    else (Committed(p.candidate), StateValid(p.candidate))
  }

  function VerifyResult(current: LoadResult, p: PreparedWrite): PersistResult {
    if current == StateValid(p.candidate) then Verified(p.candidate) else PersistFailure
  }

  /** Every fault the host can cause in one commit. */
  datatype HostFaults = HostFaults(mkdirFails: bool, loadFails: bool, write: WriteFaults)

  function AcceptsText(sha256: string -> string, candidate: State): string -> bool {
    raw => ParseState(sha256, raw) == Some(candidate)
  }

  /** The abstract fault one concrete combination of host faults amounts to. */
  function Abstract(sha256: string -> string, candidate: State, f: HostFaults): CommitFault {
    if f.mkdirFails then CannotCreate
    else if f.loadFails then CannotLoad
    else
      match ReplaceOutcome(Serialize(sha256, candidate), AcceptsText(sha256, candidate), f.write)
      case NotReplaced => FailsBefore
      case ReplacedUnsynced => FailsAfter
      case Replaced => NoFault
  }

  /** Nothing stops a commit of this candidate before the rename; what is read back from the
      candidate file may differ in bytes, but is a certified document of the candidate. */
  ghost predicate ReachesRename(sha256: string -> string, candidate: State, f: HostFaults) {
    && !f.mkdirFails && !f.loadFails && !f.write.writeFails && !f.write.replaceFails
    && match f.write.readBack
       case Faithful => true
       case ReadFails => false
       case Corrupted(bytes) => CarriesRecord(sha256, bytes, candidate)
  }

  /** The stored record is exactly the one the candidate was prepared over. */
  predicate IsAsPrepared(current: LoadResult, previous: Option<State>) {
    (previous == None && current == NotEstablished) || (previous.Some? && current == StateValid(previous.value))
  }

  /** The effect of a commit in terms of each single fault. */
  lemma CommitEffectIs(sha256: string -> string, current: LoadResult, p: PreparedWrite, f: HostFaults)
    requires p.candidate.Valid()
    ensures var renamed := IsAsPrepared(current, p.previous) && ReachesRename(sha256, p.candidate, f);
      CommitEffect(current, p, Abstract(sha256, p.candidate, f))
        == (if renamed && !f.write.syncFails then Committed(p.candidate) else PersistFailure,
            if renamed then StateValid(p.candidate) else current)
  {
    hide ParseState, Serialize, CarriesRecord, State.Valid;
    RoundTrip(sha256, p.candidate);
    if f.write.readBack.Corrupted? {
      ParseStateIff(sha256, f.write.readBack.bytes, p.candidate);
    }
  }

  class HostFreshnessBackend {
    const sha256: string -> string
    const disk: HostDirectory

    constructor (sha256: string -> string)
      ensures fresh(disk) && disk.files == map[] && this.sha256 == sha256
    {
      this.sha256 := sha256;
      disk := new HostDirectory();
    }

    ghost function Stored(producerId: string): LoadResult
      reads this, disk
    {
      LoadFrom(sha256, disk.files, producerId)
    }

    method Load(producerId: string, unavailable: bool) returns (r: LoadResult)
      requires ValidProducerId(producerId)
      ensures r == if unavailable then StateUnavailable else Stored(producerId)
      ensures r.StateValid? ==> r.state.Valid() && r.state.producerId == producerId
      ensures r == StateUnavailable <==> unavailable
      ensures r == NotEstablished <==> !unavailable && AtKey(disk.files, producerId) == None
      ensures forall s: State :: r == StateValid(s) <==>
        && !unavailable && AtKey(disk.files, producerId).Some?
        && s.Valid() && s.producerId == producerId && CarriesRecord(sha256, AtKey(disk.files, producerId).value, s)
    {
      hide ParseState, CarriesRecord;
      forall raw, s ensures ParseState(sha256, raw) == Some(s) <==> s.Valid() && CarriesRecord(sha256, raw, s) {
        ParseStateIff(sha256, raw, s);
      }
      if unavailable {
        return StateUnavailable;
      }
      if CommittedFile(producerId) !in disk.files {
        return NotEstablished;
      }
      var parsed := ParseState(sha256, disk.files[CommittedFile(producerId)]);
      if parsed.None? || parsed.value.producerId != producerId {
        return StateInvalid;
      }
      r := StateValid(parsed.value);
    }

    /** One commit is compare-and-swap.  Whatever fails, and at every content of the
        directory a crash could leave, this producer's record is the old one or the
        candidate, and every other record is untouched. */
    method Commit(p: PreparedWrite, f: HostFaults) returns (r: PersistResult)
      requires p.Valid()
      modifies disk
      ensures (r, Stored(p.producerId)) == CommitEffect(old(Stored(p.producerId)), p, Abstract(sha256, p.candidate, f))
      ensures var asPrepared := IsAsPrepared(old(Stored(p.producerId)), p.previous);
        var renamed := asPrepared && ReachesRename(sha256, p.candidate, f);
        && r == (if renamed && !f.write.syncFails then Committed(p.candidate) else PersistFailure)
        && Stored(p.producerId) == if renamed then StateValid(p.candidate) else old(Stored(p.producerId))
      ensures forall id :: id != p.producerId ==> Stored(id) == old(Stored(id))
      ensures |old(disk.trail)| <= |disk.trail| && disk.trail[..|old(disk.trail)|] == old(disk.trail)
      ensures forall i :: |old(disk.trail)| <= i < |disk.trail| ==>
        var after := LoadFrom(sha256, disk.trail[i], p.producerId);
        after == old(Stored(p.producerId))
          || (after == StateValid(p.candidate) && Accepts(old(Stored(p.producerId)), p.previous))
      ensures forall i, id :: |old(disk.trail)| <= i < |disk.trail| && id != p.producerId ==>
        LoadFrom(sha256, disk.trail[i], id) == old(Stored(id))
    {
      hide ParseState, Serialize, CarriesRecord, State.Valid, ReachesRename, IsAsPrepared, ReplaceOutcome;
      CommitEffectIs(sha256, Stored(p.producerId), p, f);
      if f.mkdirFails {
        return PersistFailure;
      }
      var current := Load(p.producerId, f.loadFails);
      if !Accepts(current, p.previous) {
        return PersistFailure;
      }
      var raw := Serialize(sha256, p.candidate);
      ReadsBack(p.candidate, raw);
      var outcome := disk.Replace(p.producerId, raw, AcceptsText(sha256, p.candidate), f.write);
      r := if outcome == Replaced then Committed(p.candidate) else PersistFailure;
    }

    lemma StoredCases(producerId: string)
      ensures Stored(producerId) in {NotEstablished, StateInvalid} || Stored(producerId).StateValid?
      ensures Stored(producerId).StateValid? ==> Stored(producerId).state.Valid()
    {
    }

    /** A committed file holding the candidate's text loads as the candidate. */
    lemma ReadsBack(candidate: State, raw: string)
      requires candidate.Valid() && raw == Serialize(sha256, candidate)
      ensures forall files: Files :: AtKey(files, candidate.producerId) == Some(raw) ==>
        LoadFrom(sha256, files, candidate.producerId) == StateValid(candidate)
    {
      RoundTrip(sha256, candidate);
    }

    method Verify(p: PreparedWrite, unavailable: bool) returns (r: PersistResult)
      requires p.Valid()
      ensures r == VerifyResult(if unavailable then StateUnavailable else Stored(p.producerId), p)
      ensures r == if !unavailable && Stored(p.producerId) == StateValid(p.candidate) then Verified(p.candidate)
                   else PersistFailure
    {
      var loaded := Load(p.producerId, unavailable);
      r := if loaded == StateValid(p.candidate) then Verified(p.candidate) else PersistFailure;
    }
  }
}
