/** The bytes that are signed: a purpose, then length-delimited key, principal and
    canonical object. */
module Transcript {
  import opened Wrappers
  import opened Characters
  import opened FreshnessState
  import opened Authorization
  import Decimal
  import Json
  import JsonOrder

  type bytes = seq<byte>

  datatype Purpose = BootstrapPurpose | TransitionPurpose | Observation | Decision | Witness

  const AUTHORIZATION_PREFIX := "GUARDIAN-F401:M15:AUTHORIZATION:V1:"
  const ASSURANCE_PREFIX := "GUARDIAN-F401:M15:SIGNED-ASSURANCE:V1:"

  predicate ForAuthorization(p: Purpose) {
    p.BootstrapPurpose? || p.TransitionPurpose?
  }

  function Prefix(p: Purpose): string {
    if ForAuthorization(p) then AUTHORIZATION_PREFIX else ASSURANCE_PREFIX
  }

  function Suffix(p: Purpose): string {
    match p
    case BootstrapPurpose => "BOOTSTRAP"
    case TransitionPurpose => "EPOCH-TRANSITION"
    case Observation => "OBSERVATION"
    case Decision => "DECISION"
    case Witness => "WITNESS"
  }

  function PurposeText(p: Purpose): string {
    Prefix(p) + Suffix(p)
  }

  predicate IsAscii(s: string) {
    forall i :: 0 <= i < |s| ==> (s[i] as int) < 128
  }

  function Ascii(s: string): (b: bytes)
    requires IsAscii(s)
    ensures |b| == |s|
  {
    seq(|s|, i requires 0 <= i < |s| => s[i] as int)
  }

  function U16(n: nat): bytes
    requires n < 0x1_0000
  {
    [n / 256, n % 256]
  }

  function U32(n: nat): bytes
    requires n < 0x1_0000_0000
  {
    [n / 0x100_0000, n / 0x1_0000 % 256, n / 256 % 256, n % 256]
  }

  predicate PurposeIsAscii(p: Purpose) {
    IsAscii(PurposeText(p))
  }

  lemma PrefixIsAscii(p: Purpose)
    ensures IsAscii(Prefix(p))
  {
    assert IsAscii(AUTHORIZATION_PREFIX);
    assert IsAscii(ASSURANCE_PREFIX);
  }

  lemma SuffixIsAscii(p: Purpose)
    ensures IsAscii(Suffix(p))
  {
    match p
    case BootstrapPurpose =>
    case TransitionPurpose =>
    case Observation =>
    case Decision =>
    case Witness =>
  }

  lemma PurposesAreAscii(p: Purpose)
    ensures PurposeIsAscii(p)
  {
    hide Prefix, Suffix;
    PrefixIsAscii(p);
    SuffixIsAscii(p);
    AsciiConcat(Prefix(p), Suffix(p));
  }

  /** The layout shared by every signed message; None where a length does not fit. */
  function Build(p: Purpose, key: bytes, principal: bytes, canonical: bytes): Option<bytes> {
    if |key| > 0xFFFF || |principal| > 0xFFFF || |canonical| > 0xFFFF_FFFF then None
    else
      PurposesAreAscii(p);
      Some(Ascii(PurposeText(p))
          + (U16(|key|) + (key + (U16(|principal|) + (principal + (U32(|canonical|) + canonical))))))
  }

  // ---------------------------------------------------------------- injectivity

  lemma AsciiInjective(s: string, t: string)
    requires IsAscii(s) && IsAscii(t) && Ascii(s) == Ascii(t)
    ensures s == t
  {
    forall i | 0 <= i < |s| ensures s[i] == t[i] {
      assert Ascii(s)[i] == Ascii(t)[i];
    }
  }

  lemma AsciiAt(s: string, x: bytes, i: nat)
    requires IsAscii(s)
    ensures i < |s| ==> (Ascii(s) + x)[i] == s[i] as int
  {
  }

  /** Where two purposes differ, inside both. */
  function DifferAt(p: Purpose, q: Purpose): nat {
    if ForAuthorization(p) != ForAuthorization(q) then 18 else |Prefix(p)|
  }

  lemma PurposesDiffer(p: Purpose, q: Purpose)
    requires p != q
    ensures var i := DifferAt(p, q);
      i < |PurposeText(p)| && i < |PurposeText(q)| && PurposeText(p)[i] != PurposeText(q)[i]
  {
    if ForAuthorization(p) == ForAuthorization(q) {
      assert PurposeText(p)[|Prefix(p)|] == Suffix(p)[0] && PurposeText(q)[|Prefix(q)|] == Suffix(q)[0];
    } else {
      assert AUTHORIZATION_PREFIX[18] == 'A' && ASSURANCE_PREFIX[18] == 'S';
    }
  }

  lemma U16Prefix(m: nat, x: bytes, n: nat, y: bytes)
    requires m < 0x1_0000 && n < 0x1_0000 && U16(m) + x == U16(n) + y
    ensures m == n && x == y
  {
    var s, t := U16(m) + x, U16(n) + y;
    assert s[0] == m / 256 && t[0] == n / 256 && s[1] == m % 256 && t[1] == n % 256;
    assert x == s[2..] && y == t[2..];
  }

  lemma U32Prefix(m: nat, x: bytes, n: nat, y: bytes)
    requires m < 0x1_0000_0000 && n < 0x1_0000_0000 && U32(m) + x == U32(n) + y
    ensures m == n && x == y
  {
    var s, t := U32(m) + x, U32(n) + y;
    assert s[0] == U32(m)[0] && t[0] == U32(n)[0] && s[1] == U32(m)[1] && t[1] == U32(n)[1];
    assert s[2] == U32(m)[2] && t[2] == U32(n)[2] && s[3] == U32(m)[3] && t[3] == U32(n)[3];
    assert x == s[4..] && y == t[4..];
    FourBytes(m);
    FourBytes(n);
  }

  lemma FourBytes(n: nat)
    requires n < 0x1_0000_0000
    ensures n == 0x100_0000 * (U32(n)[0] as int) + 0x1_0000 * (U32(n)[1] as int)
                 + 0x100 * (U32(n)[2] as int) + U32(n)[3] as int
  {
    var a, b := n / 256, n / 0x1_0000;
    assert b == a / 256 && n / 0x100_0000 == b / 256;
  }

  lemma SameLengthPrefix(a: bytes, x: bytes, b: bytes, y: bytes)
    requires |a| == |b| && a + x == b + y
    ensures a == b && x == y
  {
    assert a == (a + x)[..|a|] && b == (b + y)[..|b|];
    assert x == (a + x)[|a|..] && y == (b + y)[|b|..];
  }

  /** A purpose's bytes start no message of another purpose. */
  lemma PurposeOfMessage(p: Purpose, x: bytes, q: Purpose, y: bytes)
    requires IsAscii(PurposeText(p)) && IsAscii(PurposeText(q))
    requires Ascii(PurposeText(p)) + x == Ascii(PurposeText(q)) + y
    ensures p == q && x == y
  {
    hide PurposeText;
    AsciiAt(PurposeText(p), x, DifferAt(p, q));
    AsciiAt(PurposeText(q), y, DifferAt(p, q));
    if p != q {
      PurposesDiffer(p, q);
      assert false;
    }
    SameLengthPrefix(Ascii(PurposeText(p)), x, Ascii(PurposeText(q)), y);
  }

  /** Equal transcripts have equal purpose, key, principal and object. */
  lemma TranscriptIsInjective(p: Purpose, key: bytes, principal: bytes, canonical: bytes,
                              p': Purpose, key': bytes, principal': bytes, canonical': bytes)
    requires Build(p, key, principal, canonical).Some?
    requires Build(p, key, principal, canonical) == Build(p', key', principal', canonical')
    ensures p == p' && key == key' && principal == principal' && canonical == canonical'
  {
    hide PurposeText, U16, U32;
    PurposesAreAscii(p);
    PurposesAreAscii(p');
    var o, o' := U32(|canonical|) + canonical, U32(|canonical'|) + canonical';
    var r, r' := U16(|principal|) + (principal + o), U16(|principal'|) + (principal' + o');
    PurposeOfMessage(p, U16(|key|) + (key + r), p', U16(|key'|) + (key' + r'));
    U16Prefix(|key|, key + r, |key'|, key' + r');
    SameLengthPrefix(key, r, key', r');
    U16Prefix(|principal|, principal + o, |principal'|, principal' + o');
    SameLengthPrefix(principal, o, principal', o');
    U32Prefix(|canonical|, canonical, |canonical'|, canonical');
  }

  // ---------------------------------------------------------------- authorization objects

  const SCHEMA_PREFIX := "guardian-f401:m15:"
  const BOOTSTRAP_SCHEMA := SCHEMA_PREFIX + "bootstrap-authorization:v1"
  const TRANSITION_SCHEMA := SCHEMA_PREFIX + "epoch-transition-authorization:v1"
  const CANONICAL_MAX_BYTES: nat := 8192

  function Counter(n: int): Json.Value
    requires ValidUint64(n)
  {
    Json.Text(Decimal.Print(n))
  }

  function HighWaterText(state: InitialHighWater): string {
    if state.HIGH_WATER_UNSET? then "HIGH_WATER_UNSET" else "HIGH_WATER_ESTABLISHED"
  }

  /** The mapping as it is built, in no particular order. */
  function Mapping(o: Object): seq<Json.Member>
    requires o.Valid()
  {
    match o
    case Bootstrap(id, authority, producer, sequence, epoch, state, time) =>
      [Json.Member("schema_version", Json.Text(BOOTSTRAP_SCHEMA)),
       Json.Member("authorization_type", Json.Text("bootstrap")),
       Json.Member("authorization_id", Json.Text(id)),
       Json.Member("authority_id", Json.Text(authority)),
       Json.Member("producer_id", Json.Text(producer)),
       Json.Member("authorization_sequence", Counter(sequence)),
       Json.Member("producer_epoch", Json.Text(epoch)),
       Json.Member("initial_high_water_state", Json.Text(HighWaterText(state))),
       Json.Member("initial_logical_time", if time.None? then Json.Null else Json.Number(time.value))]
    case EpochTransition(id, authority, producer, sequence, fromEpoch, toEpoch, transition) =>
      [Json.Member("schema_version", Json.Text(TRANSITION_SCHEMA)),
       Json.Member("authorization_type", Json.Text("epoch-transition")),
       Json.Member("authorization_id", Json.Text(id)),
       Json.Member("authority_id", Json.Text(authority)),
       Json.Member("producer_id", Json.Text(producer)),
       Json.Member("authorization_sequence", Counter(sequence)),
       Json.Member("from_epoch", Json.Text(fromEpoch)),
       Json.Member("to_epoch", Json.Text(toEpoch)),
       Json.Member("transition_sequence", Counter(transition))]
  }

  /** The same members in the order of section 3.2.3 of RFC 8785. */
  function CanonicalMembers(o: Object): seq<Json.Member>
    requires o.Valid()
  {
    match o
    case Bootstrap(id, authority, producer, sequence, epoch, state, time) =>
      [Json.Member("authority_id", Json.Text(authority)),
       Json.Member("authorization_id", Json.Text(id)),
       Json.Member("authorization_sequence", Counter(sequence)),
       Json.Member("authorization_type", Json.Text("bootstrap")),
       Json.Member("initial_high_water_state", Json.Text(HighWaterText(state))),
       Json.Member("initial_logical_time", if time.None? then Json.Null else Json.Number(time.value)),
       Json.Member("producer_epoch", Json.Text(epoch)),
       Json.Member("producer_id", Json.Text(producer)),
       Json.Member("schema_version", Json.Text(BOOTSTRAP_SCHEMA))]
    case EpochTransition(id, authority, producer, sequence, fromEpoch, toEpoch, transition) =>
      [Json.Member("authority_id", Json.Text(authority)),
       Json.Member("authorization_id", Json.Text(id)),
       Json.Member("authorization_sequence", Counter(sequence)),
       Json.Member("authorization_type", Json.Text("epoch-transition")),
       Json.Member("from_epoch", Json.Text(fromEpoch)),
       Json.Member("producer_id", Json.Text(producer)),
       Json.Member("schema_version", Json.Text(TRANSITION_SCHEMA)),
       Json.Member("to_epoch", Json.Text(toEpoch)),
       Json.Member("transition_sequence", Counter(transition))]
  }

  const BOOTSTRAP_KEYS := ["authority_id", "authorization_id", "authorization_sequence", "authorization_type",
    "initial_high_water_state", "initial_logical_time", "producer_epoch", "producer_id", "schema_version"]
  const TRANSITION_KEYS := ["authority_id", "authorization_id", "authorization_sequence", "authorization_type",
    "from_epoch", "producer_id", "schema_version", "to_epoch", "transition_sequence"]

  lemma BootstrapKeyLess(k: nat)
    requires k < 8
    ensures JsonOrder.Less(BOOTSTRAP_KEYS[k], BOOTSTRAP_KEYS[k + 1])
  {
    hide JsonOrder.Less;
    JsonOrder.LessAt(BOOTSTRAP_KEYS[k], BOOTSTRAP_KEYS[k + 1],
      if k == 0 then 7 else if k <= 2 then 14 else if k == 4 then 8 else if k == 6 then 9 else 0);
  }

  lemma TransitionKeyLess(k: nat)
    requires k < 8
    ensures JsonOrder.Less(TRANSITION_KEYS[k], TRANSITION_KEYS[k + 1])
  {
    hide JsonOrder.Less;
    JsonOrder.LessAt(TRANSITION_KEYS[k], TRANSITION_KEYS[k + 1],
                     if k == 0 then 7 else if k <= 2 then 14 else if k == 7 then 1 else 0);
  }

  lemma KeysAreOrdered()
    ensures JsonOrder.NamesOrdered(BOOTSTRAP_KEYS) && JsonOrder.NamesOrdered(TRANSITION_KEYS)
  {
    hide JsonOrder.Less;
    forall k | 0 <= k < 8 ensures JsonOrder.Less(BOOTSTRAP_KEYS[k], BOOTSTRAP_KEYS[k + 1]) {
      BootstrapKeyLess(k);
    }
    forall k | 0 <= k < 8 ensures JsonOrder.Less(TRANSITION_KEYS[k], TRANSITION_KEYS[k + 1]) {
      TransitionKeyLess(k);
    }
  }

  lemma CanonicalIsOrdered(o: Object)
    requires o.Valid()
    ensures JsonOrder.Ordered(CanonicalMembers(o))
  {
    KeysAreOrdered();
    hide JsonOrder.NamesOrdered, JsonOrder.Ordered, Counter, HighWaterText;
    JsonOrder.OrderedByNames(CanonicalMembers(o), if o.Bootstrap? then BOOTSTRAP_KEYS else TRANSITION_KEYS);
  }

  lemma NamesDiffer(o: Object)
    requires o.Valid()
    ensures JsonOrder.DistinctMembers(Mapping(o))
  {
    hide Counter, HighWaterText;
    assert "schema_version"[0] != "producer_epoch"[0];
    assert forall i :: 0 <= i < 9 ==>
      |Mapping(o)[i].name|
        == (if o.Bootstrap? then [14, 18, 16, 12, 11, 22, 14, 24, 20] else [14, 18, 16, 12, 11, 22, 10, 8, 19])[i];
  }

  lemma ValuesAreScalar(o: Object)
    requires o.Valid()
    ensures forall i :: 0 <= i < |Mapping(o)| ==> JsonOrder.SortKeys(Mapping(o)[i].value) == Mapping(o)[i].value
  {
  }

  /** Where each member of the mapping stands in the canonical order, and back. */
  lemma SameAsMapping(o: Object)
    requires o.Valid()
    ensures JsonOrder.SameMembers(Mapping(o), CanonicalMembers(o))
  {
    hide JsonOrder.SameMembers, Counter, HighWaterText;
    if o.Bootstrap? {
      SameInBootstrap(o);
    } else {
      SameInTransition(o);
    }
  }

  lemma SameInBootstrap(o: Object)
    requires o.Valid() && o.Bootstrap?
    ensures JsonOrder.SameMembers(Mapping(o), CanonicalMembers(o))
  {
    hide JsonOrder.SameMembers, Counter, HighWaterText;
    JsonOrder.SameByPositions(Mapping(o), CanonicalMembers(o), [8, 3, 1, 0, 7, 2, 6, 4, 5],
                              [3, 2, 5, 1, 7, 8, 6, 4, 0]);
  }

  lemma SameInTransition(o: Object)
    requires o.Valid() && o.EpochTransition?
    ensures JsonOrder.SameMembers(Mapping(o), CanonicalMembers(o))
  {
    hide JsonOrder.SameMembers, Counter, HighWaterText;
    JsonOrder.SameByPositions(Mapping(o), CanonicalMembers(o), [6, 3, 1, 0, 5, 2, 4, 7, 8],
                              [3, 2, 5, 1, 6, 4, 0, 7, 8]);
  }

  /** Sorting the mapping gives the canonical members. */
  lemma CanonicalIsSorted(o: Object)
    requires o.Valid()
    ensures JsonOrder.SortKeys(Json.Object(Mapping(o))) == Json.Object(CanonicalMembers(o))
  {
    hide JsonOrder.Ordered, JsonOrder.DistinctMembers, JsonOrder.SortMembers, JsonOrder.SameMembers, Mapping,
      CanonicalMembers;
    CanonicalIsOrdered(o);
    NamesDiffer(o);
    ValuesAreScalar(o);
    SameAsMapping(o);
    JsonOrder.SortIs(Mapping(o), CanonicalMembers(o));
  }

  /** The mapping sorted and printed.  By FieldsPrintPlain nothing in it needs an escape, so
      this is the canonical form of section 3.2 of RFC 8785. */
  function Canonical(o: Object): string
    requires o.Valid()
  {
    Json.Print(JsonOrder.SortKeys(Json.Object(Mapping(o))))
  }

  /** Printable ASCII other than the two characters that need escapes. */
  predicate Plain(s: string) {
    forall i :: 0 <= i < |s| ==> ' ' <= s[i] <= '~' && s[i] != '"' && s[i] != '\\'
  }

  lemma {:induction false} PlainPrints(s: string)
    requires Plain(s)
    ensures Json.PrintChars(s) == s && Json.PrintText(s) == "\"" + s + "\""
  {
    if s != "" {
      PlainPrints(s[1..]);
      assert s == [s[0]] + s[1..];
    }
  }

  /** A name or a text value without escapes. */
  predicate PlainMember(m: Json.Member) {
    Plain(m.name) && (m.value.Text? ==> Plain(m.value.s))
  }

  lemma IdentifiersArePlain(o: Object)
    requires o.Valid()
    ensures Plain(o.authorizationId) && Plain(o.authorityId) && Plain(o.producerId)
    ensures o.Bootstrap? ==> Plain(o.producerEpoch) && Plain(HighWaterText(o.initialHighWater))
    ensures o.EpochTransition? ==> Plain(o.fromEpoch) && Plain(o.toEpoch)
  {
  }

  lemma CounterIsPlain(n: int)
    requires ValidUint64(n)
    ensures Plain(Counter(n).s)
  {
  }

  lemma ConstantsArePlain()
    ensures Plain(BOOTSTRAP_SCHEMA) && Plain(TRANSITION_SCHEMA) && Plain("bootstrap") && Plain("epoch-transition")
  {
    assert Plain(SCHEMA_PREFIX);
    SchemaNamesArePlain();
  }

  lemma SchemaNamesArePlain()
    ensures Plain("bootstrap-authorization:v1") && Plain("epoch-transition-authorization:v1")
  {
  }

  lemma CommonKeysArePlain()
    ensures Plain("authority_id") && Plain("authorization_id") && Plain("authorization_sequence")
    ensures Plain("authorization_type") && Plain("producer_id") && Plain("schema_version")
  {
  }

  lemma OtherKeysArePlain()
    ensures Plain("initial_high_water_state") && Plain("initial_logical_time") && Plain("producer_epoch")
    ensures Plain("from_epoch") && Plain("to_epoch") && Plain("transition_sequence")
  {
  }

  lemma KeyIsPlain(k: nat)
    requires k < 9
    ensures Plain(BOOTSTRAP_KEYS[k]) && Plain(TRANSITION_KEYS[k])
  {
    hide Plain;
    CommonKeysArePlain();
    OtherKeysArePlain();
  }

  lemma MembersArePlain(o: Object, k: nat)
    requires o.Valid() && k < |CanonicalMembers(o)|
    ensures PlainMember(CanonicalMembers(o)[k])
  {
    hide Plain, Counter, HighWaterText;
    IdentifiersArePlain(o);
    ConstantsArePlain();
    CounterIsPlain(o.sequence);
    if o.EpochTransition? {
      CounterIsPlain(o.transitionSequence);
    }
    KeyIsPlain(k);
    assert CanonicalMembers(o)[k].name == if o.Bootstrap? then BOOTSTRAP_KEYS[k] else TRANSITION_KEYS[k];
  }

  /** Every name and every text field of the canonical object prints without escapes, as
      section 3.2.2.2 of RFC 8785 wants, so the compact printer gives the canonical form. */
  lemma FieldsPrintPlain(o: Object, k: nat)
    requires o.Valid() && k < |CanonicalMembers(o)|
    ensures var m := CanonicalMembers(o)[k];
      && Json.PrintText(m.name) == "\"" + m.name + "\""
      && (m.value.Text? ==> Json.Print(m.value) == "\"" + m.value.s + "\"")
  {
    var m := CanonicalMembers(o)[k];
    MembersArePlain(o, k);
    hide CanonicalMembers, Plain;
    PlainPrints(m.name);
    if m.value.Text? {
      PlainPrints(m.value.s);
    }
  }

  /** Different authorization objects have different canonical forms. */
  lemma CanonicalIsInjective(o: Object, o': Object)
    requires o.Valid() && o'.Valid() && Canonical(o) == Canonical(o')
    ensures o == o'
  {
    var v, v' := Json.Object(CanonicalMembers(o)), Json.Object(CanonicalMembers(o'));
    CanonicalIsSorted(o);
    CanonicalIsSorted(o');
    CanonicalHasNoFloats(o);
    CanonicalHasNoFloats(o');
    hide Mapping, CanonicalMembers, JsonOrder.SortKeys;
    Json.PrintIsInjective(v, v');
    SameMembers(o, o');
  }

  lemma CanonicalHasNoFloats(o: Object)
    requires o.Valid()
    ensures Json.NoFloats(Json.Object(CanonicalMembers(o)))
  {
    CanonicalIsFlat(o);
    hide CanonicalMembers;
  }

  lemma CounterInjective(m: int, n: int)
    requires ValidUint64(m) && ValidUint64(n) && Counter(m) == Counter(n)
    ensures m == n
  {
    Decimal.ValueOfPrint(m);
    Decimal.ValueOfPrint(n);
  }

  lemma SameMembers(o: Object, o': Object)
    requires o.Valid() && o'.Valid() && CanonicalMembers(o) == CanonicalMembers(o')
    ensures o == o'
  {
    var ms, ms' := CanonicalMembers(o), CanonicalMembers(o');
    assert ms[0] == ms'[0] && ms[1] == ms'[1] && ms[2] == ms'[2] && ms[3] == ms'[3] && ms[4] == ms'[4];
    assert ms[5] == ms'[5] && ms[6] == ms'[6] && ms[7] == ms'[7] && ms[8] == ms'[8];
    hide Counter;
    CounterInjective(o.sequence, o'.sequence);
    if o.EpochTransition? && o'.EpochTransition? {
      CounterInjective(o.transitionSequence, o'.transitionSequence);
    }
  }

  // ---------------------------------------------------------------- authorization transcripts

  lemma AsciiConcat(a: string, b: string)
    requires IsAscii(a) && IsAscii(b)
    ensures IsAscii(a + b)
  {
  }

  lemma {:induction false} CharsAreAscii(s: string)
    ensures IsAscii(Json.PrintChars(s))
  {
    if s != "" {
      CharsAreAscii(s[1..]);
      CharIsAscii(s[0]);
      AsciiConcat(Json.PrintChar(s[0]), Json.PrintChars(s[1..]));
    }
  }

  lemma CharIsAscii(c: char)
    ensures IsAscii(Json.PrintChar(c))
  {
    if (c as int) >= 0x1_0000 {
      var n := c as int - 0x1_0000;
      EscapeIsAscii(0xD800 + n / 0x400);
      EscapeIsAscii(0xDC00 + n % 0x400);
    } else {
      EscapeIsAscii(c as int);
    }
  }

  lemma EscapeIsAscii(unit: nat)
    requires unit < 0x1_0000
    ensures IsAscii(Json.UnicodeEscape(unit))
  {
  }

  lemma TextIsAscii(s: string)
    ensures IsAscii(Json.PrintText(s))
  {
    CharsAreAscii(s);
  }

  /** A value without nesting or fractions. */
  predicate Flat(v: Json.Value) {
    v.Null? || v.Number? || v.Text?
  }

  lemma FlatIsAscii(v: Json.Value)
    requires Flat(v)
    ensures IsAscii(Json.Print(v))
  {
    match v
    case Text(s) => TextIsAscii(s);
    case _ =>
  }

  lemma {:induction false} MembersAreAscii(ms: seq<Json.Member>)
    requires forall i :: 0 <= i < |ms| ==> Flat(ms[i].value)
    ensures IsAscii(Json.PrintMembers(ms))
  {
    if ms != [] {
      hide Flat, Json.Print;
      MembersAreAscii(ms[1..]);
      TextIsAscii(ms[0].name);
      FlatIsAscii(ms[0].value);
      AsciiConcat(Json.PrintText(ms[0].name), ":");
      AsciiConcat(Json.PrintText(ms[0].name) + ":", Json.Print(ms[0].value));
      AsciiConcat(Json.PrintMember(ms[0]), ",");
      AsciiConcat(Json.PrintMember(ms[0]) + ",", Json.PrintMembers(ms[1..]));
    }
  }

  lemma CanonicalIsAscii(o: Object)
    requires o.Valid()
    ensures IsAscii(Canonical(o))
  {
    CanonicalIsFlat(o);
    CanonicalIsSorted(o);
    hide CanonicalMembers, Mapping, Flat, JsonOrder.SortKeys;
    ObjectIsAscii(CanonicalMembers(o));
  }

  lemma ObjectIsAscii(ms: seq<Json.Member>)
    requires forall i :: 0 <= i < |ms| ==> Flat(ms[i].value)
    ensures IsAscii(Json.Print(Json.Object(ms)))
  {
    MembersAreAscii(ms);
    hide Json.PrintMembers, Flat;
    AsciiConcat("{", Json.PrintMembers(ms));
    AsciiConcat("{" + Json.PrintMembers(ms), "}");
  }

  lemma CanonicalIsFlat(o: Object)
    requires o.Valid()
    ensures forall i :: 0 <= i < |CanonicalMembers(o)| ==> Flat(CanonicalMembers(o)[i].value)
  {
    CountersAreFlat(o);
    hide Counter;
  }

  lemma CountersAreFlat(o: Object)
    requires o.Valid()
    ensures Flat(Counter(o.sequence)) && (o.EpochTransition? ==> Flat(Counter(o.transitionSequence)))
  {
  }

  /** The identifier of a signing key; the grammar is that of a producer identifier. */
  function BuildAuthorization(o: Object, keyId: string, authorityId: string): Option<bytes>
    requires o.Valid()
  {
    if !ValidProducerId(keyId) || !IsAscii(authorityId) || !(1 <= |authorityId| <= 128) then None
    else if o.authorityId != authorityId then None
    else if |Canonical(o)| > CANONICAL_MAX_BYTES then None
    else
      IdentifierIsAscii(keyId);
      CanonicalIsAscii(o);
      Build(if o.Bootstrap? then BootstrapPurpose else TransitionPurpose, Ascii(keyId), Ascii(authorityId),
            Ascii(Canonical(o)))
  }

  lemma IdentifierIsAscii(id: string)
    requires ValidProducerId(id)
    ensures IsAscii(id)
  {
  }

  /** Distinct keys, authorities or authorization objects give distinct signed bytes. */
  lemma AuthorizationTranscriptIsInjective(o: Object, keyId: string, authorityId: string,
                                           o': Object, keyId': string, authorityId': string)
    requires o.Valid() && o'.Valid() && BuildAuthorization(o, keyId, authorityId).Some?
    requires BuildAuthorization(o, keyId, authorityId) == BuildAuthorization(o', keyId', authorityId')
    ensures o == o' && keyId == keyId' && authorityId == authorityId'
  {
    hide Canonical, Build, ValidProducerId;
    IdentifierIsAscii(keyId);
    IdentifierIsAscii(keyId');
    CanonicalIsAscii(o);
    CanonicalIsAscii(o');
    TranscriptIsInjective(
      if o.Bootstrap? then BootstrapPurpose else TransitionPurpose, Ascii(keyId), Ascii(authorityId),
      Ascii(Canonical(o)),
      if o'.Bootstrap? then BootstrapPurpose else TransitionPurpose, Ascii(keyId'), Ascii(authorityId'),
      Ascii(Canonical(o')));
    AsciiInjective(keyId, keyId');
    AsciiInjective(authorityId, authorityId');
    AsciiInjective(Canonical(o), Canonical(o'));
    CanonicalIsInjective(o, o');
  }

  /** No transcript of one purpose is a transcript of another. */
  lemma PurposesAreSeparate(p: Purpose, key: bytes, principal: bytes, canonical: bytes,
                            p': Purpose, key': bytes, principal': bytes, canonical': bytes)
    requires p != p' && Build(p, key, principal, canonical).Some?
    ensures Build(p, key, principal, canonical) != Build(p', key', principal', canonical')
  {
    hide Build;
    if Build(p, key, principal, canonical) == Build(p', key', principal', canonical') {
      TranscriptIsInjective(p, key, principal, canonical, p', key', principal', canonical');
    }
  }
}
