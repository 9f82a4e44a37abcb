/** The signed bytes spelled out: where each field of a transcript stands, and the exact text
    of a canonical authorization object. */
module SignedBytes {
  import opened Wrappers
  import opened FreshnessState
  import opened Authorization
  import opened Transcript
  import Decimal
  import Json
  import JsonOrder

  // ---------------------------------------------------------------- layout

  /** A number from its bytes, the most significant first. */
  function BigEndian(b: bytes): nat {
    if b == [] then 0 else 256 * BigEndian(b[..|b| - 1]) + b[|b| - 1]
  }

  /** At this place stands a length of so many bytes, and then content of that length. */
  predicate IsField(t: bytes, at: nat, width: nat, content: bytes) {
    && at + width + |content| <= |t|
    && BigEndian(t[at..at + width]) == |content|
    && t[at + width..at + width + |content|] == content
  }

  lemma FieldAfter(front: bytes, lead: bytes, content: bytes, rest: bytes)
    requires BigEndian(lead) == |content|
    ensures IsField(front + (lead + (content + rest)), |front|, |lead|, content)
    ensures front + (lead + (content + rest)) == (front + lead + content) + rest
  {
    hide BigEndian;
    LeadStands(front, lead, content + rest);
    Associate(front, lead, content + rest);
    LeadStands(front + lead, content, rest);
    Associate(front + lead, content, rest);
  }

  lemma LeadStands(front: bytes, lead: bytes, rest: bytes)
    ensures (front + (lead + rest))[|front|..|front| + |lead|] == lead
  {
  }

  lemma Associate(a: bytes, b: bytes, c: bytes)
    ensures a + (b + c) == (a + b) + c
  {
  }

  lemma LengthBytes(n: nat)
    ensures n < 0x1_0000 ==> |U16(n)| == 2 && BigEndian(U16(n)) == n
    ensures n < 0x1_0000_0000 ==> |U32(n)| == 4 && BigEndian(U32(n)) == n
  {
    if n < 0x1_0000 {
      TwoDigits(U16(n));
    }
    if n < 0x1_0000_0000 {
      FourDigits(U32(n));
      FourBytes(n);
    }
  }

  lemma TwoDigits(b: bytes)
    requires |b| == 2
    ensures BigEndian(b) == 256 * (b[0] as int) + b[1] as int
  {
    assert b[..1][..0] == [];
    assert BigEndian(b[..1]) == 256 * BigEndian(b[..1][..0]) + b[..1][0];
  }

  lemma FourDigits(b: bytes)
    requires |b| == 4
    ensures BigEndian(b)
      == 0x100_0000 * (b[0] as int) + 0x1_0000 * (b[1] as int) + 0x100 * (b[2] as int) + b[3] as int
  {
    TwoDigits(b[..2]);
    assert b[..3][..2] == b[..2];
    assert BigEndian(b[..3]) == 256 * BigEndian(b[..3][..2]) + b[..3][2];
  }

  /** The purposes as they are signed. */
  lemma PurposeTexts()
    ensures PurposeText(BootstrapPurpose) == "GUARDIAN-F401:M15:AUTHORIZATION:V1:BOOTSTRAP"
    ensures PurposeText(TransitionPurpose) == "GUARDIAN-F401:M15:AUTHORIZATION:V1:EPOCH-TRANSITION"
    ensures PurposeText(Observation) == "GUARDIAN-F401:M15:SIGNED-ASSURANCE:V1:OBSERVATION"
    ensures PurposeText(Decision) == "GUARDIAN-F401:M15:SIGNED-ASSURANCE:V1:DECISION"
    ensures PurposeText(Witness) == "GUARDIAN-F401:M15:SIGNED-ASSURANCE:V1:WITNESS"
  {
  }

  /** The purpose, then key, principal and object, each after its big-endian length, and
      nothing else; there is no transcript exactly when a length does not fit. */
  lemma Layout(p: Purpose, key: bytes, principal: bytes, canonical: bytes)
    ensures Build(p, key, principal, canonical).None?
      <==> |key| >= 0x1_0000 || |principal| >= 0x1_0000 || |canonical| >= 0x1_0000_0000
    ensures IsAscii(PurposeText(p))
    ensures Build(p, key, principal, canonical).Some? ==>
      var t, n := Build(p, key, principal, canonical).value, |PurposeText(p)|;
      && n + 2 + |key| + 2 + |principal| + 4 + |canonical| == |t|
      && t[..n] == Ascii(PurposeText(p))
      && IsField(t, n, 2, key)
      && IsField(t, n + 2 + |key|, 2, principal)
      && IsField(t, n + 2 + |key| + 2 + |principal|, 4, canonical)
  {
    hide PurposeText, U16, U32, BigEndian, IsField;
    PurposesAreAscii(p);
    if Build(p, key, principal, canonical).Some? {
      LengthBytes(|key|);
      LengthBytes(|principal|);
      LengthBytes(|canonical|);
      var front := Ascii(PurposeText(p));
      var afterKey, afterPrincipal := front + U16(|key|) + key, front + U16(|key|) + key + U16(|principal|) + principal;
      FieldAfter(front, U16(|key|), key, U16(|principal|) + (principal + (U32(|canonical|) + canonical)));
      FieldAfter(afterKey, U16(|principal|), principal, U32(|canonical|) + canonical);
      FieldAfter(afterPrincipal, U32(|canonical|), canonical, []);
      assert canonical + [] == canonical;
    }
  }

  // ---------------------------------------------------------------- canonical text

  /** One member, by its text. */
  function TextField(name: string, text: string): string {
    "\"" + name + "\":\"" + text + "\""
  }

  function Joined(fields: seq<string>): string {
    if fields == [] then ""
    else if |fields| == 1 then fields[0]
    else fields[0] + "," + Joined(fields[1..])
  }

  /** The members of a canonical authorization, as they stand in its text. */
  function CanonicalFields(o: Object): seq<string>
    requires o.Valid()
  {
    match o
    case Bootstrap(id, authority, producer, sequence, epoch, state, time) =>
      [ TextField("authority_id", authority),
        TextField("authorization_id", id),
        TextField("authorization_sequence", Decimal.Print(sequence)),
        TextField("authorization_type", "bootstrap"),
        TextField("initial_high_water_state",
                  if state == HIGH_WATER_UNSET then "HIGH_WATER_UNSET" else "HIGH_WATER_ESTABLISHED"),
        "\"initial_logical_time\":" + (if time == None then "null" else Decimal.Print(time.value)),
        TextField("producer_epoch", epoch),
        TextField("producer_id", producer),
        TextField("schema_version", "guardian-f401:m15:bootstrap-authorization:v1") ]
    case EpochTransition(id, authority, producer, sequence, fromEpoch, toEpoch, transition) =>
      [ TextField("authority_id", authority),
        TextField("authorization_id", id),
        TextField("authorization_sequence", Decimal.Print(sequence)),
        TextField("authorization_type", "epoch-transition"),
        TextField("from_epoch", fromEpoch),
        TextField("producer_id", producer),
        TextField("schema_version", "guardian-f401:m15:epoch-transition-authorization:v1"),
        TextField("to_epoch", toEpoch),
        TextField("transition_sequence", Decimal.Print(transition)) ]
  }

  lemma {:induction false} PrintsJoined(members: seq<Json.Member>, fields: seq<string>)
    requires |members| == |fields| && forall i :: 0 <= i < |members| ==> Json.PrintMember(members[i]) == fields[i]
    ensures Json.PrintMembers(members) == Joined(fields)
  {
    hide Json.PrintMember;
    if |members| >= 2 {
      PrintsJoined(members[1..], fields[1..]);
    }
  }

  lemma PlainMemberPrints(m: Json.Member)
    requires Json.PrintText(m.name) == "\"" + m.name + "\"" && m.value.Text?
    requires Json.Print(m.value) == "\"" + m.value.s + "\""
    ensures Json.PrintMember(m) == TextField(m.name, m.value.s)
  {
  }

  lemma TimePrints(time: Option<int>)
    requires time.Some? ==> time.value >= 0
    ensures var m := Json.Member("initial_logical_time", if time.None? then Json.Null else Json.Number(time.value));
      Json.PrintText(m.name) == "\"" + m.name + "\"" ==>
        Json.PrintMember(m)
          == "\"initial_logical_time\":" + (if time == None then "null" else Decimal.Print(time.value))
  {
    hide Decimal.Print, Json.PrintChars;
  }

  lemma FieldPrints(o: Object, k: nat)
    requires o.Valid() && k < 9
    ensures Json.PrintMember(CanonicalMembers(o)[k]) == CanonicalFields(o)[k]
  {
    hide Json.PrintText, Json.Print, Json.PrintMember, Decimal.Print, TextField;
    FieldsPrintPlain(o, k);
    BootstrapSchema();
    TransitionSchema();
    hide BOOTSTRAP_SCHEMA, TRANSITION_SCHEMA;
    var m := CanonicalMembers(o)[k];
    if m.value.Text? {
      PlainMemberPrints(m);
    } else {
      TimePrints(o.initialLogicalTime);
    }
  }

  lemma BootstrapSchema()
    ensures BOOTSTRAP_SCHEMA == "guardian-f401:m15:bootstrap-authorization:v1"
  {
  }

  lemma TransitionSchema()
    ensures TRANSITION_SCHEMA == "guardian-f401:m15:epoch-transition-authorization:v1"
  {
  }

  /** The canonical text, character by character. */
  lemma CanonicalText(o: Object)
    requires o.Valid()
    ensures Canonical(o) == "{" + Joined(CanonicalFields(o)) + "}"
  {
    hide *;
    CanonicalPrints(o);
    NineEach(o);
    forall k | 0 <= k < 9 ensures Json.PrintMember(CanonicalMembers(o)[k]) == CanonicalFields(o)[k] {
      FieldPrints(o, k);
    }
    PrintsJoined(CanonicalMembers(o), CanonicalFields(o));
  }

  lemma CanonicalPrints(o: Object)
    requires o.Valid()
    ensures Canonical(o) == "{" + Json.PrintMembers(CanonicalMembers(o)) + "}"
  {
    CanonicalIsSorted(o);
    hide Json.PrintMembers, CanonicalMembers, Mapping, JsonOrder.SortKeys, Object.Valid;
  }

  lemma NineEach(o: Object)
    requires o.Valid()
    ensures |CanonicalMembers(o)| == |CanonicalFields(o)| == 9
  {
    hide TextField, Decimal.Print;
  }

  /** What is signed for an authorization: the purpose of its kind, the key identifier, the
      authority named in the object, and its canonical text; and when there is something to
      sign. */
  lemma AuthorizationLayout(o: Object, keyId: string, authorityId: string)
    requires o.Valid()
    ensures BuildAuthorization(o, keyId, authorityId).Some?
      <==> ValidProducerId(keyId) && authorityId == o.authorityId && |Canonical(o)| <= 8192
    ensures BuildAuthorization(o, keyId, authorityId).Some? ==>
      var purpose := if o.Bootstrap? then "GUARDIAN-F401:M15:AUTHORIZATION:V1:BOOTSTRAP"
                     else "GUARDIAN-F401:M15:AUTHORIZATION:V1:EPOCH-TRANSITION";
      var t, n := BuildAuthorization(o, keyId, authorityId).value, |purpose|;
      && IsAscii(purpose) && IsAscii(keyId) && IsAscii(authorityId) && IsAscii(Canonical(o))
      && n + 2 + |keyId| + 2 + |authorityId| + 4 + |Canonical(o)| == |t|
      && t[..n] == Ascii(purpose)
      && IsField(t, n, 2, Ascii(keyId))
      && IsField(t, n + 2 + |keyId|, 2, Ascii(authorityId))
      && IsField(t, n + 2 + |keyId| + 2 + |authorityId|, 4, Ascii(Canonical(o)))
  {
    hide Canonical, PurposeText, IsField, Build, Ascii;
    PurposeTexts();
    CanonicalIsAscii(o);
    if authorityId == o.authorityId {
      IdentifierIsAscii(authorityId);
    }
    if BuildAuthorization(o, keyId, authorityId).Some? {
      IdentifierIsAscii(keyId);
    }
    if ValidProducerId(keyId) && authorityId == o.authorityId && |Canonical(o)| <= 8192 {
      IdentifierIsAscii(keyId);
      Layout(if o.Bootstrap? then BootstrapPurpose else TransitionPurpose, Ascii(keyId), Ascii(authorityId),
             Ascii(Canonical(o)));
    }
  }
}
