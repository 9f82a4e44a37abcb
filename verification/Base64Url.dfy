/** Unpadded base64url (sections 5 and 3.5 of RFC 4648): signatures are decoded leniently
    and then compared with their own encoding. */
module Base64Url {
  import opened Wrappers
  import opened Characters

  type digit = x: int | 0 <= x < 64

  const SIGNATURE_BYTES: nat := 64
  const SIGNATURE_CHARS: nat := 86

  // ---------------------------------------------------------------- the alphabet

  function Letter(d: digit): char {
    if d < 26 then 'A' + d as char
    else if d < 52 then 'a' + (d - 26) as char
    else if d < 62 then '0' + (d - 52) as char
    else if d == 62 then '-' else '_'
  }

  predicate InAlphabet(c: char) {
    'A' <= c <= 'Z' || 'a' <= c <= 'z' || '0' <= c <= '9' || c == '-' || c == '_'
  }

  function DigitOf(c: char): digit
    requires InAlphabet(c)
  {
    if c == '-' then 62
    else if c == '_' then 63
    else if c <= '9' then c as int - '0' as int + 52
    else if c <= 'Z' then c as int - 'A' as int
    else c as int - 'a' as int + 26
  }

  lemma LetterRoundTrip(d: digit)
    ensures InAlphabet(Letter(d)) && DigitOf(Letter(d)) == d
  {
  }

  lemma DigitRoundTrip(c: char)
    requires InAlphabet(c)
    ensures Letter(DigitOf(c)) == c
  {
  }

  // ---------------------------------------------------------------- groups of three bytes

  function Group(a: byte, b: byte, c: byte): (g: seq<digit>)
    ensures |g| == 4
  {
    [a / 4, a % 4 * 16 + b / 16, b % 16 * 4 + c / 64, c % 64]
  }

  function Ungroup(d0: digit, d1: digit, d2: digit, d3: digit): (g: seq<byte>)
    ensures |g| == 3
  {
    [d0 * 4 + d1 / 16, d1 % 16 * 16 + d2 / 4, d2 % 4 * 64 + d3]
  }

  function EncodeDigits(b: seq<byte>): seq<digit> {
    if b == [] then []
    else if |b| == 1 then Group(b[0], 0, 0)[..2]
    else if |b| == 2 then Group(b[0], b[1], 0)[..3]
    else Group(b[0], b[1], b[2]) + EncodeDigits(b[3..])
  }

  /** Lenient decoding drops the spare bits of the last digit; one digit alone is an error. */
  function DecodeDigits(d: seq<digit>): Option<seq<byte>> {
    if d == [] then Some([])
    else if |d| == 1 then None
    else if |d| == 2 then Some(Ungroup(d[0], d[1], 0, 0)[..1])
    else if |d| == 3 then Some(Ungroup(d[0], d[1], d[2], 0)[..2])
    else
      match DecodeDigits(d[4..])
      case None => None
      case Some(rest) => Some(Ungroup(d[0], d[1], d[2], d[3]) + rest)
  }

  lemma UngroupGroup(a: byte, b: byte, c: byte)
    ensures var g := Group(a, b, c); Ungroup(g[0], g[1], g[2], g[3]) == [a, b, c]
  {
  }

  lemma GroupUngroup(d0: digit, d1: digit, d2: digit, d3: digit)
    ensures var g := Ungroup(d0, d1, d2, d3); Group(g[0], g[1], g[2]) == [d0, d1, d2, d3]
  {
    var g := Ungroup(d0, d1, d2, d3);
    assert g[0] / 4 == d0 && g[0] % 4 == d1 / 16;
    assert g[1] / 16 == d1 % 16 && g[1] % 16 == d2 / 4;
    assert g[2] / 64 == d2 % 4 && g[2] % 64 == d3;
    hide Ungroup;
    assert d1 / 16 * 16 + d1 % 16 == d1 && d2 / 4 * 4 + d2 % 4 == d2;
  }

  lemma {:induction false} DecodeOfEncodeDigits(b: seq<byte>)
    ensures DecodeDigits(EncodeDigits(b)) == Some(b)
  {
    hide Group, Ungroup;
    if |b| == 1 {
      OneByte(b[0]);
      assert b == [b[0]];
    } else if |b| == 2 {
      TwoBytes(b[0], b[1]);
      assert b == [b[0], b[1]];
    } else if b != [] {
      var g, rest := Group(b[0], b[1], b[2]), EncodeDigits(b[3..]);
      DecodeOfEncodeDigits(b[3..]);
      UngroupGroup(b[0], b[1], b[2]);
      assert (g + rest)[4..] == rest;
      assert b == [b[0], b[1], b[2]] + b[3..];
    }
  }

  lemma OneByte(a: byte)
    ensures DecodeDigits(Group(a, 0, 0)[..2]) == Some([a])
  {
    UngroupGroup(a, 0, 0);
    var d := Group(a, 0, 0);
    assert d[..2] == [d[0], d[1]] && d[2] == 0 && d[3] == 0;
    assert Ungroup(d[0], d[1], 0, 0) == [a, 0, 0] && [a, 0, 0][..1] == [a];
  }

  lemma TwoBytes(a: byte, b: byte)
    ensures DecodeDigits(Group(a, b, 0)[..3]) == Some([a, b])
  {
    UngroupGroup(a, b, 0);
    var d := Group(a, b, 0);
    assert d[..3] == [d[0], d[1], d[2]] && d[3] == 0;
    hide Ungroup, Group;
    assert Ungroup(d[0], d[1], d[2], 0) == [a, b, 0] && [a, b, 0][..2] == [a, b];
  }

  /** The bits of the last digit that no byte uses are zero. */
  predicate SpareBitsZero(d: seq<digit>) {
    && |d| % 4 != 1
    && (|d| % 4 == 2 ==> d[|d| - 1] % 16 == 0)
    && (|d| % 4 == 3 ==> d[|d| - 1] % 4 == 0)
  }

  lemma {:induction false} EncodeOfDecodeDigits(d: seq<digit>)
    ensures DecodeDigits(d).Some? <==> |d| % 4 != 1
    ensures |d| % 4 != 1 ==> (EncodeDigits(DecodeDigits(d).value) == d <==> SpareBitsZero(d))
  {
    hide Group, Ungroup;
    if |d| == 2 {
      TwoDigits(d[0], d[1]);
      assert d == [d[0], d[1]];
    } else if |d| == 3 {
      ThreeDigits(d[0], d[1], d[2]);
      assert d == [d[0], d[1], d[2]];
    } else if |d| >= 4 {
      EncodeOfDecodeDigits(d[4..]);
      assert |d[4..]| % 4 == |d| % 4;
      if |d| % 4 != 1 {
        GroupOnFront(d);
        SpareBitsOfTail(d);
      }
    }
  }

  /** Four more digits in front are decoded and encoded on their own. */
  lemma GroupOnFront(d: seq<digit>)
    requires |d| >= 4 && DecodeDigits(d[4..]).Some?
    ensures DecodeDigits(d).Some?
    ensures EncodeDigits(DecodeDigits(d).value) == d <==> EncodeDigits(DecodeDigits(d[4..]).value) == d[4..]
  {
    hide *;
    GroupUngroup(d[0], d[1], d[2], d[3]);
    DecodeUnfolds(d);
    var g, rest := Ungroup(d[0], d[1], d[2], d[3]), DecodeDigits(d[4..]).value;
    EncodeUnfolds(g, rest);
    SameTail([d[0], d[1], d[2], d[3]], EncodeDigits(rest), d[4..]);
    assert d == [d[0], d[1], d[2], d[3]] + d[4..];
  }

  lemma DecodeUnfolds(d: seq<digit>)
    requires |d| >= 4 && DecodeDigits(d[4..]).Some?
    ensures DecodeDigits(d) == Some(Ungroup(d[0], d[1], d[2], d[3]) + DecodeDigits(d[4..]).value)
  {
    hide Ungroup;
  }

  lemma EncodeUnfolds(g: seq<byte>, rest: seq<byte>)
    requires |g| == 3
    ensures EncodeDigits(g + rest) == Group(g[0], g[1], g[2]) + EncodeDigits(rest)
  {
    hide Group;
    assert (g + rest)[3..] == rest;
  }

  lemma SameTail(front: seq<digit>, a: seq<digit>, b: seq<digit>)
    ensures front + a == front + b <==> a == b
  {
    assert (front + a)[|front|..] == a && (front + b)[|front|..] == b;
  }

  lemma SpareBitsOfTail(d: seq<digit>)
    requires |d| >= 4
    ensures SpareBitsZero(d) <==> SpareBitsZero(d[4..])
  {
    assert |d[4..]| % 4 == |d| % 4;
    if |d| > 4 {
      assert d[4..][|d| - 5] == d[|d| - 1];
    }
  }

  lemma TwoDigits(d0: digit, d1: digit)
    ensures EncodeDigits(Ungroup(d0, d1, 0, 0)[..1]) == [d0, d1] <==> d1 % 16 == 0
  {
    var a := d0 * 4 + d1 / 16;
    assert Ungroup(d0, d1, 0, 0)[..1] == [a];
    assert Group(a, 0, 0)[..2] == [a / 4, a % 4 * 16];
    assert a / 4 == d0 && a % 4 == d1 / 16;
    assert [a / 4, a % 4 * 16][1] == d1 / 16 * 16 && [d0, d1][1] == d1;
  }

  lemma ThreeDigits(d0: digit, d1: digit, d2: digit)
    ensures EncodeDigits(Ungroup(d0, d1, d2, 0)[..2]) == [d0, d1, d2] <==> d2 % 4 == 0
  {
    var g := Ungroup(d0, d1, d2 / 4 * 4, 0);
    GroupUngroup(d0, d1, d2 / 4 * 4, 0);
    assert d2 / 4 * 4 / 4 == d2 / 4;
    assert Ungroup(d0, d1, d2, 0)[..2] == [g[0], g[1]] && g[2] == 0;
    hide Ungroup, Group;
    assert Group(g[0], g[1], 0)[..3] == [d0, d1, d2 / 4 * 4];
    assert [d0, d1, d2 / 4 * 4][2] == d2 / 4 * 4 && [d0, d1, d2][2] == d2;
  }

  // ---------------------------------------------------------------- values

  /** The alphabet of section 5 of RFC 4648: three runs, then the two safe characters. */
  lemma LettersInOrder(d: digit)
    ensures Letter(0) == 'A' && Letter(26) == 'a' && Letter(52) == '0' && Letter(62) == '-' && Letter(63) == '_'
    ensures d < 61 && d != 25 && d != 51 ==> Letter(d + 1) as int == Letter(d) as int + 1
  {
  }

  /** Three bytes and four digits as one number of 24 bits. */
  function OfBytes(a: int, b: int, c: int): int {
    0x1_0000 * a + 0x100 * b + c
  }

  function OfDigits(d0: int, d1: int, d2: int, d3: int): int {
    0x4_0000 * d0 + 0x1000 * d1 + 0x40 * d2 + d3
  }

  lemma GroupKeepsNumber(a: byte, b: byte, c: byte)
    ensures var g := Group(a, b, c); OfDigits(g[0], g[1], g[2], g[3]) == OfBytes(a, b, c)
  {
  }

  /** Encoding writes every group of three bytes, and what is left over filled up with zero
      bits, as the digits of the same number. */
  lemma {:induction false} EncodingKeepsNumbers(b: seq<byte>, i: nat)
    requires i <= |b| / 3
    ensures var d := EncodeDigits(b);
      && |d| == (4 * |b| + 2) / 3
      && (i < |b| / 3 ==>
            OfDigits(d[4 * i], d[4 * i + 1], d[4 * i + 2], d[4 * i + 3])
            == OfBytes(b[3 * i], b[3 * i + 1], b[3 * i + 2]))
      && (i == |b| / 3 && |b| % 3 == 1 ==> OfDigits(d[4 * i], d[4 * i + 1], 0, 0) == OfBytes(b[3 * i], 0, 0))
      && (i == |b| / 3 && |b| % 3 == 2 ==>
            OfDigits(d[4 * i], d[4 * i + 1], d[4 * i + 2], 0) == OfBytes(b[3 * i], b[3 * i + 1], 0))
  {
    if |b| < 3 {
      if b != [] {
        GroupKeepsNumber(b[0], if |b| == 2 then b[1] else 0, 0);
      }
    } else {
      var g := Group(b[0], b[1], b[2]);
      GroupKeepsNumber(b[0], b[1], b[2]);
      EncodingKeepsNumbers(b[3..], if i == 0 then 0 else i - 1);
      hide Group, OfDigits, OfBytes;
      assert EncodeDigits(b) == g + EncodeDigits(b[3..]);
    }
  }

  // ---------------------------------------------------------------- texts

  function Letters(d: seq<digit>): string {
    seq(|d|, i requires 0 <= i < |d| => Letter(d[i]))
  }

  predicate AlphabetOnly(t: string) {
    forall i :: 0 <= i < |t| ==> InAlphabet(t[i])
  }

  function Digits(t: string): seq<digit>
    requires AlphabetOnly(t)
  {
    seq(|t|, i requires 0 <= i < |t| => DigitOf(t[i]))
  }

  function Encode(b: seq<byte>): string {
    Letters(EncodeDigits(b))
  }

  /** Check the alphabet, decode, and require the text to be its own canonical encoding. */
  function Decode(t: string): Option<seq<byte>> {
    if !AlphabetOnly(t) then None
    else
      match DecodeDigits(Digits(t))
      case None => None
      case Some(b) => if Encode(b) == t then Some(b) else None
  }

  lemma DigitsOfLetters(d: seq<digit>)
    ensures AlphabetOnly(Letters(d)) && Digits(Letters(d)) == d
  {
    forall i | 0 <= i < |d| ensures InAlphabet(Letters(d)[i]) && DigitOf(Letters(d)[i]) == d[i] {
      LetterRoundTrip(d[i]);
    }
  }

  lemma LettersOfDigits(t: string)
    requires AlphabetOnly(t)
    ensures Letters(Digits(t)) == t
  {
    forall i | 0 <= i < |t| ensures Letters(Digits(t))[i] == t[i] {
      DigitRoundTrip(t[i]);
    }
  }

  /** Decoding inverts encoding, for byte strings of every length. */
  lemma DecodeOfEncode(b: seq<byte>)
    ensures Decode(Encode(b)) == Some(b)
  {
    hide Letters, Digits, AlphabetOnly, EncodeDigits, DecodeDigits;
    DigitsOfLetters(EncodeDigits(b));
    DecodeOfEncodeDigits(b);
  }

  /** Exactly which texts are accepted; each is the encoding of what it decodes to. */
  lemma AcceptedIff(t: string)
    ensures Decode(t).Some? <==> AlphabetOnly(t) && SpareBitsZero(Digits(t))
    ensures Decode(t).Some? ==> Encode(Decode(t).value) == t
  {
    hide Letters, Digits, AlphabetOnly, EncodeDigits, DecodeDigits, SpareBitsZero;
    if AlphabetOnly(t) {
      LettersOfDigits(t);
      EncodeOfDecodeDigits(Digits(t));
      SpareBitsExcludeOne(Digits(t));
      match DecodeDigits(Digits(t))
      case None =>
      case Some(b) =>
        DigitsOfLetters(EncodeDigits(b));
    }
  }

  lemma SpareBitsExcludeOne(d: seq<digit>)
    ensures SpareBitsZero(d) ==> |d| % 4 != 1
  {
  }

  lemma {:induction false} EncodedLength(b: seq<byte>)
    ensures |Encode(b)| == (4 * |b| + 2) / 3
  {
    if |b| >= 3 {
      EncodedLength(b[3..]);
    }
  }

  // ---------------------------------------------------------------- signatures

  /** The length check, then canonical decoding, then the byte length check. */
  function DecodeSignature(t: string): Option<seq<byte>> {
    if |t| != SIGNATURE_CHARS then None
    else
      match Decode(t)
      case None => None
      case Some(b) => if |b| != SIGNATURE_BYTES then None else Some(b)
  }

  function EncodeSignature(b: seq<byte>): Option<string> {
    if |b| != SIGNATURE_BYTES then None else Some(Encode(b))
  }

  /** Signatures and accepted signature texts correspond one to one. */
  lemma SignatureBijection(b: seq<byte>, t: string)
    ensures EncodeSignature(b) == Some(t) <==> DecodeSignature(t) == Some(b)
  {
    hide Encode, Decode;
    DecodeOfEncode(b);
    EncodedLength(b);
    AcceptedIff(t);
  }

  /** An 86-character text is a signature iff its characters are in the alphabet and the
      last one carries no spare bits; the byte length check never fails. */
  lemma SignatureAcceptedIff(t: string)
    ensures DecodeSignature(t).Some?
      <==> |t| == SIGNATURE_CHARS && AlphabetOnly(t) && DigitOf(t[SIGNATURE_CHARS - 1]) % 16 == 0
  {
    hide Encode, Decode;
    AcceptedIff(t);
    match Decode(t)
    case None =>
    case Some(b) => EncodedLength(b);
  }
}
