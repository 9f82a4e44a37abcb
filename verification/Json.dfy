/** JSON values, the compact ASCII printer used for stored and signed documents, and a
    parser for the whole of RFC 8259 syntax.  The main result is ParseOfPrint: parsing
    the printed form of any printable value gives that value back. */
module Json {
  import opened Wrappers
  import opened Characters
  import Decimal

  datatype Value =
    | Null
    | Bool(flag: bool)
    | Number(n: int)
    | Float(literal: string)
    | Text(s: string)
    | List(items: seq<Value>)
    | Object(members: seq<Member>)

  datatype Member = Member(name: string, value: Value)

  type Parsed<T> = Option<(T, string)>

  // ---------------------------------------------------------------- characters

  function HexChar(d: nat): (c: char)
    requires d < 16
  {
    if d < 10 then ('0' as int + d) as char else ('a' as int + d - 10) as char
  }

  /** The six characters of one `\uXXXX` escape. */
  function UnicodeEscape(unit: nat): (s: string)
    requires unit < 0x1_0000
    ensures |s| == 6 && s[0] == '\\' && s[1] == 'u'
  {
    ['\\', 'u', HexChar(unit / 0x1000), HexChar(unit / 0x100 % 0x10),
     HexChar(unit / 0x10 % 0x10), HexChar(unit % 0x10)]
  }

  /** One character inside a string literal: printable ASCII stands for itself, the
      rest is escaped, outside the basic plane as a surrogate pair. */
  function PrintChar(c: char): (s: string)
    ensures |s| > 0
  {
    if c == '"' then "\\\""
    else if c == '\\' then "\\\\"
    else if c == '\n' then "\\n"
    else if c == '\r' then "\\r"
    else if c == '\t' then "\\t"
    else if c == 8 as char then "\\b"
    else if c == 12 as char then "\\f"
    else if ' ' <= c <= '~' then [c]
    else if (c as int) < 0x1_0000 then UnicodeEscape(c as int)
    else
      var n := c as int - 0x1_0000;
      UnicodeEscape(0xD800 + n / 0x400) + UnicodeEscape(0xDC00 + n % 0x400)
  }

  function PrintChars(s: string): string {
    if s == "" then "" else PrintChar(s[0]) + PrintChars(s[1..])
  }

  // ---------------------------------------------------------------- printer

  function PrintInt(n: int): (s: string)
    ensures |s| > 0
  {
    if n < 0 then "-" + Decimal.Print(-n) else Decimal.Print(n)
  }

  function PrintText(s: string): string {
    "\"" + PrintChars(s) + "\""
  }

  function Print(v: Value): (s: string)
    ensures v.Float? || |s| > 0
    decreases v
  {
    match v
    case Null => "null"
    case Bool(flag) => if flag then "true" else "false"
    case Number(n) => PrintInt(n)
    case Float(literal) => literal
    case Text(s) => PrintText(s)
    case List(items) => "[" + PrintItems(items) + "]"
    case Object(members) => "{" + PrintMembers(members) + "}"
  }

  function PrintItems(items: seq<Value>): string
    decreases items
  {
    if items == [] then ""
    else if |items| == 1 then Print(items[0])
    else Print(items[0]) + "," + PrintItems(items[1..])
  }

  function PrintMember(m: Member): string
    decreases m
  {
    PrintText(m.name) + ":" + Print(m.value)
  }

  function PrintMembers(members: seq<Member>): string
    decreases members
  {
    if members == [] then ""
    else if |members| == 1 then PrintMember(members[0])
    else PrintMember(members[0]) + "," + PrintMembers(members[1..])
  }

  // ---------------------------------------------------------------- parser

  function SkipWs(s: string): (r: string)
    ensures |r| <= |s|
    ensures r == "" || !IsBlank(r[0])
  {
    if s != "" && IsBlank(s[0]) then SkipWs(s[1..]) else s
  }

  function ParseHex4(s: string): (r: Parsed<nat>)
    ensures r.Some? ==> r.value.0 < 0x1_0000 && |r.value.1| + 4 == |s|
  {
    if |s| >= 4 && IsHex(s[0]) && IsHex(s[1]) && IsHex(s[2]) && IsHex(s[3]) then
      Some((0x1000 * HexValue(s[0]) + 0x100 * HexValue(s[1]) + 0x10 * HexValue(s[2]) + HexValue(s[3]), s[4..]))
    else None
  }

  /** The rest of a `\uXXXX` escape; a high surrogate needs its low surrogate. */
  function ParseUnicode(s: string): (r: Parsed<char>)
    ensures r.Some? ==> |r.value.1| < |s|
  {
    match ParseHex4(s)
    case None => None
    case Some((unit, rest)) =>
      if unit < 0xD800 || unit >= 0xE000 then Some((unit as char, rest))
      else if unit < 0xDC00 && |rest| >= 2 && rest[0] == '\\' && rest[1] == 'u' then
        match ParseHex4(rest[2..])
        case None => None
        case Some((low, rest')) =>
          if 0xDC00 <= low < 0xE000 then
            Some(((0x1_0000 + (unit - 0xD800) * 0x400 + (low - 0xDC00)) as char, rest'))
          else None
      else None
  }

  function ParseEscape(s: string): (r: Parsed<char>)
    ensures r.Some? ==> |r.value.1| < |s|
  {
    if s == "" then None
    else if s[0] == '"' || s[0] == '\\' || s[0] == '/' then Some((s[0], s[1..]))
    else if s[0] == 'n' then Some(('\n', s[1..]))
    else if s[0] == 'r' then Some(('\r', s[1..]))
    else if s[0] == 't' then Some(('\t', s[1..]))
    else if s[0] == 'b' then Some((8 as char, s[1..]))
    else if s[0] == 'f' then Some((12 as char, s[1..]))
    else if s[0] == 'u' then ParseUnicode(s[1..])
    else None
  }

  /** The characters of a string literal after its opening quote. */
  function ParseChars(s: string): (r: Parsed<string>)
    ensures r.Some? ==> |r.value.1| < |s|
  {
    if s == "" then None
    else if s[0] == '"' then Some(("", s[1..]))
    else if s[0] == '\\' then
      match ParseEscape(s[1..])
      case None => None
      case Some((c, rest)) =>
        match ParseChars(rest)
        case None => None
        case Some((tail, rest')) => Some(([c] + tail, rest'))
    else if s[0] < ' ' then None
    else
      match ParseChars(s[1..])
      case None => None
      case Some((tail, rest)) => Some(([s[0]] + tail, rest))
  }

  /** The number of leading digits. */
  function DigitRun(s: string): (k: nat)
    ensures k <= |s| && Decimal.AllDigits(s[..k])
    ensures k < |s| ==> !Decimal.IsDigit(s[k])
  {
    if s != "" && Decimal.IsDigit(s[0]) then 1 + DigitRun(s[1..]) else 0
  }

  /** The length of an optional fraction, then of an optional exponent. */
  function FractionLength(s: string): (k: nat)
    ensures k <= |s|
  {
    if s != "" && s[0] == '.' && DigitRun(s[1..]) > 0 then 1 + DigitRun(s[1..]) else 0
  }

  function ExponentLength(s: string): (k: nat)
    ensures k <= |s|
  {
    if s == "" || (s[0] != 'e' && s[0] != 'E') then 0
    else
      var start := if |s| > 1 && (s[1] == '+' || s[1] == '-') then 2 else 1;
      var digits := DigitRun(s[start..]);
      if digits > 0 then start + digits else 0
  }

  function ParseNumber(s: string): (r: Parsed<Value>)
    ensures r.Some? ==> |r.value.1| < |s|
  {
    var negative := s != "" && s[0] == '-';
    var body := if negative then s[1..] else s;
    var run := DigitRun(body);
    if run == 0 then None
    else
      var k := if body[0] == '0' then 1 else run;
      assert forall i :: 0 <= i < k ==> body[..k][i] == body[..run][i];
      ParseNumberTail(s, negative, body[..k], body[k..])
  }

  /** The rest of a number behind its sign and whole digits; with a fraction or an exponent
      it is kept as a literal. */
  function ParseNumberTail(s: string, negative: bool, whole: string, tail: string): (r: Parsed<Value>)
    requires Decimal.AllDigits(whole) && |tail| <= |s|
    ensures r.Some? && |r.value.1| <= |tail|
  {
    var frac := FractionLength(tail);
    var exp := ExponentLength(tail[frac..]);
    var rest := tail[frac + exp..];
    if frac + exp > 0 then Some((Float(s[..|s| - |rest|]), rest))
    else Some((Number(Signed(negative, Decimal.Value(whole))), rest))
  }

  function Signed(negative: bool, magnitude: nat): int {
    if negative then -(magnitude as int) else magnitude
  }

  function ParseWord(s: string, word: string, v: Value): (r: Parsed<Value>)
    requires word != ""
    ensures r.Some? ==> |r.value.1| < |s|
  {
    if word <= s then Some((v, s[|word|..])) else None
  }

  function ParseValue(s: string): (r: Parsed<Value>)
    ensures r.Some? ==> |r.value.1| < |s|
    decreases |s|, 0
  {
    if s == "" then None
    else if s[0] == '"' then
      match ParseChars(s[1..])
      case None => None
      case Some((t, rest)) => Some((Text(t), rest))
    else if s[0] == '[' then
      var inner := SkipWs(s[1..]);
      if inner != "" && inner[0] == ']' then Some((List([]), inner[1..]))
      else
        match ParseItems(inner)
        case None => None
        case Some((items, rest)) => Some((List(items), rest))
    else if s[0] == '{' then
      var inner := SkipWs(s[1..]);
      if inner != "" && inner[0] == '}' then Some((Object([]), inner[1..]))
      else
        match ParseMembers(inner)
        case None => None
        case Some((members, rest)) => Some((Object(members), rest))
    else if s[0] == 'n' then ParseWord(s, "null", Null)
    else if s[0] == 't' then ParseWord(s, "true", Bool(true))
    else if s[0] == 'f' then ParseWord(s, "false", Bool(false))
    else ParseNumber(s)
  }

  /** One or more comma-separated values and the closing bracket. */
  function ParseItems(s: string): (r: Parsed<seq<Value>>)
    ensures r.Some? ==> |r.value.1| < |s|
    decreases |s|, 1
  {
    match ParseValue(s)
    case None => None
    case Some((v, rest)) =>
      var t := SkipWs(rest);
      if t == "" then None
      else if t[0] == ']' then Some(([v], t[1..]))
      else if t[0] == ',' then
        match ParseItems(SkipWs(t[1..]))
        case None => None
        case Some((vs, rest')) => Some(([v] + vs, rest'))
      else None
  }

  function ParseMember(s: string): (r: Parsed<Member>)
    ensures r.Some? ==> |r.value.1| < |s|
    decreases |s|, 1
  {
    if s == "" || s[0] != '"' then None
    else
      match ParseChars(s[1..])
      case None => None
      case Some((name, rest)) =>
        var t := SkipWs(rest);
        if t == "" || t[0] != ':' then None
        else
          match ParseValue(SkipWs(t[1..]))
          case None => None
          case Some((v, rest')) => Some((Member(name, v), rest'))
  }

  /** One or more comma-separated members and the closing brace. */
  function ParseMembers(s: string): (r: Parsed<seq<Member>>)
    ensures r.Some? ==> |r.value.1| < |s|
    decreases |s|, 2
  {
    match ParseMember(s)
    case None => None
    case Some((m, rest)) =>
      var t := SkipWs(rest);
      if t == "" then None
      else if t[0] == '}' then Some(([m], t[1..]))
      else if t[0] == ',' then
        match ParseMembers(SkipWs(t[1..]))
        case None => None
        case Some((ms, rest')) => Some(([m] + ms, rest'))
      else None
  }

  /** No object anywhere in the value repeats a member name. */
  predicate DistinctNames(v: Value) {
    match v
    case List(items) => forall i :: 0 <= i < |items| ==> DistinctNames(items[i])
    case Object(members) =>
      && (forall i, j :: 0 <= i < j < |members| ==> members[i].name != members[j].name)
      && (forall i :: 0 <= i < |members| ==> DistinctNames(members[i].value))
    case _ => true
  }

  /** Parse one whole document: white space around a single value, no repeated names. */
  function Parse(s: string): Option<Value> {
    match ParseValue(SkipWs(s))
    case None => None
    case Some((v, rest)) => if SkipWs(rest) == "" && DistinctNames(v) then Some(v) else None
  }

  // ---------------------------------------------------------------- parsing what was printed

  lemma HexOfChar(d: nat)
    requires d < 16
    ensures IsHex(HexChar(d)) && HexValue(HexChar(d)) == d
  {
  }

  lemma HexDigitsOf(unit: nat)
    requires unit < 0x1_0000
    ensures 0x1000 * (unit / 0x1000) + 0x100 * (unit / 0x100 % 0x10) + 0x10 * (unit / 0x10 % 0x10) + unit % 0x10 == unit
  {
    var a, b, c := unit / 0x10, unit / 0x100, unit / 0x1000;
    assert b == a / 0x10 && c == b / 0x10;
  }

  lemma Hex4OfEscape(unit: nat, rest: string)
    requires unit < 0x1_0000
    ensures ParseHex4((UnicodeEscape(unit) + rest)[2..]) == Some((unit, rest))
  {
    var a, b, c, d := unit / 0x1000, unit / 0x100 % 0x10, unit / 0x10 % 0x10, unit % 0x10;
    HexDigitsOf(unit);
    HexOfChar(a);
    HexOfChar(b);
    HexOfChar(c);
    HexOfChar(d);
    Hex4Of(HexChar(a), HexChar(b), HexChar(c), HexChar(d), rest);
    assert (UnicodeEscape(unit) + rest)[2..] == [HexChar(a), HexChar(b), HexChar(c), HexChar(d)] + rest;
  }

  lemma Hex4Of(a: char, b: char, c: char, d: char, rest: string)
    requires IsHex(a) && IsHex(b) && IsHex(c) && IsHex(d)
    ensures ParseHex4([a, b, c, d] + rest)
      == Some((0x1000 * HexValue(a) + 0x100 * HexValue(b) + 0x10 * HexValue(c) + HexValue(d), rest))
  {
    assert ([a, b, c, d] + rest)[4..] == rest;
  }

  lemma EscapeOfPrint(c: char, rest: string)
    requires PrintChar(c)[0] == '\\'
    ensures ParseEscape((PrintChar(c) + rest)[1..]) == Some((c, rest))
  {
    hide ParseHex4, UnicodeEscape, ParseUnicode;
    var s := (PrintChar(c) + rest)[1..];
    if |PrintChar(c)| == 2 {
      assert s[1..] == rest;
    } else if (c as int) < 0x1_0000 {
      BasicOfPrint(c, rest);
      assert s[1..] == (UnicodeEscape(c as int) + rest)[2..];
    } else {
      var n := c as int - 0x1_0000;
      var high, low := 0xD800 + n / 0x400, 0xDC00 + n % 0x400;
      SurrogatesOfPrint(c, high, low, rest);
      assert s[1..] == (UnicodeEscape(high) + (UnicodeEscape(low) + rest))[2..];
    }
  }

  lemma BasicOfPrint(c: char, rest: string)
    requires (c as int) < 0x1_0000
    ensures ParseUnicode((UnicodeEscape(c as int) + rest)[2..]) == Some((c, rest))
  {
    hide ParseHex4, UnicodeEscape;
    Hex4OfEscape(c as int, rest);
  }

  lemma SurrogatesOfPrint(c: char, high: nat, low: nat, rest: string)
    requires (c as int) >= 0x1_0000
    requires high == 0xD800 + (c as int - 0x1_0000) / 0x400 && low == 0xDC00 + (c as int - 0x1_0000) % 0x400
    ensures ParseUnicode((UnicodeEscape(high) + (UnicodeEscape(low) + rest))[2..]) == Some((c, rest))
  {
    hide ParseHex4, UnicodeEscape;
    var rest' := UnicodeEscape(low) + rest;
    Hex4OfEscape(high, rest');
    Hex4OfEscape(low, rest);
  }

  lemma {:induction false} CharsOfPrint(s: string, rest: string)
    ensures ParseChars(PrintChars(s) + "\"" + rest) == Some((s, rest))
  {
    var t := PrintChars(s) + "\"" + rest;
    if s == "" {
      assert t[1..] == rest;
    } else {
      var tail := PrintChars(s[1..]) + "\"" + rest;
      assert t == PrintChar(s[0]) + tail;
      CharsOfPrint(s[1..], rest);
      if PrintChar(s[0])[0] == '\\' {
        EscapeOfPrint(s[0], tail);
      } else {
        assert t[1..] == tail;
      }
      assert [s[0]] + s[1..] == s;
    }
  }

  /** What may follow a number without becoming part of it. */
  predicate EndsNumber(rest: string) {
    rest == "" || !(Decimal.IsDigit(rest[0]) || rest[0] in ".eE")
  }

  lemma {:induction false} DigitRunOf(digits: string, rest: string)
    requires Decimal.AllDigits(digits) && EndsNumber(rest)
    ensures DigitRun(digits + rest) == |digits|
  {
    if digits == "" {
      assert digits + rest == rest;
    } else {
      assert (digits + rest)[1..] == digits[1..] + rest;
      DigitRunOf(digits[1..], rest);
    }
  }

  lemma NumberOfDigits(negative: bool, digits: string, rest: string)
    requires Decimal.Canonical(digits) && EndsNumber(rest)
    ensures ParseNumber((if negative then "-" else "") + digits + rest)
      == Some((Number(Signed(negative, Decimal.Value(digits))), rest))
  {
    var s := (if negative then "-" else "") + digits + rest;
    var body := digits + rest;
    assert s[0] == if negative then '-' else digits[0];
    assert (if negative then s[1..] else s) == body;
    DigitRunOf(digits, rest);
    assert body[..|digits|] == digits;
    assert body[|digits|..] == rest;
    NoFraction(rest);
    assert rest[0..] == rest && rest[0 + 0..] == rest;
  }

  lemma NoFraction(rest: string)
    requires EndsNumber(rest)
    ensures FractionLength(rest) == 0 && ExponentLength(rest) == 0
  {
  }

  lemma NumberOfPrint(n: int, rest: string)
    requires EndsNumber(rest)
    ensures ParseValue(PrintInt(n) + rest) == Some((Number(n), rest))
  {
    hide ParseNumber, ParseValue, Decimal.Value;
    var magnitude: nat := if n < 0 then -n else n;
    var digits := Decimal.Print(magnitude);
    Decimal.PrintIsCanonical(magnitude);
    Decimal.ValueOfPrint(magnitude);
    NumberOfDigits(n < 0, digits, rest);
    var s := PrintInt(n) + rest;
    assert s == (if n < 0 then "-" else "") + digits + rest;
    assert s[0] == if n < 0 then '-' else digits[0];
    NumberIsDispatched(s);
  }

  lemma NumberIsDispatched(s: string)
    requires s != "" && (s[0] == '-' || Decimal.IsDigit(s[0]))
    ensures ParseValue(s) == ParseNumber(s)
  {
    hide ParseNumber, ParseChars, ParseItems, ParseMembers, ParseWord, SkipWs;
  }

  /** Values whose printed form stays inside the integer and string grammar. */
  predicate NoFloats(v: Value) {
    match v
    case Float(_) => false
    case List(items) => forall i :: 0 <= i < |items| ==> NoFloats(items[i])
    case Object(members) => forall i :: 0 <= i < |members| ==> NoFloats(members[i].value)
    case _ => true
  }

  lemma {:induction false} PrintStart(v: Value)
    requires NoFloats(v)
    ensures !IsBlank(Print(v)[0]) && Print(v)[0] != ']' && Print(v)[0] != '}'
  {
    if v.Number? && v.n >= 0 {
      assert Decimal.IsDigit(Print(v)[0]);
    }
  }

  /** Reading back one printed value, whatever follows it. */
  lemma {:induction false} ValueOfPrint(v: Value, rest: string)
    requires NoFloats(v) && EndsNumber(rest)
    ensures ParseValue(Print(v) + rest) == Some((v, rest))
    decreases v, 1
  {
    var s := Print(v) + rest;
    match v
    case Null => assert "null" <= s && s[4..] == rest;
    case Bool(flag) => assert Print(v) <= s && s[|Print(v)|..] == rest;
    case Number(n) => NumberOfPrint(n, rest);
    case Text(t) =>
      CharsOfPrint(t, rest);
      assert s[1..] == PrintChars(t) + "\"" + rest;
    case List(items) =>
      if items != [] {
        ItemsOfPrint(items, rest);
      }
      ListOfPrint(items, rest);
    case Object(members) =>
      if members != [] {
        MembersOfPrint(members, rest);
      }
      ObjectOfPrint(members, rest);
  }

  lemma ListOfPrint(items: seq<Value>, rest: string)
    requires forall i :: 0 <= i < |items| ==> NoFloats(items[i])
    requires items != [] ==> ParseItems(PrintItems(items) + "]" + rest) == Some((items, rest))
    ensures ParseValue(Print(List(items)) + rest) == Some((List(items), rest))
  {
    var s := Print(List(items)) + rest;
    var inner := PrintItems(items) + "]" + rest;
    assert s[0] == '[' && s[1..] == inner;
    if items == [] {
      assert inner == "]" + rest;
    } else {
      ItemsStart(items);
    }
    hide ParseItems, NoFloats, PrintItems, Print;
    ListOfItems(s, items, rest);
  }

  lemma ListOfItems(s: string, items: seq<Value>, rest: string)
    requires s != "" && s[0] == '['
    requires items == [] ==> s[1..] == "]" + rest
    requires items != [] ==> s[1..] != "" && !IsBlank(s[1..][0]) && s[1..][0] != ']'
    requires items != [] ==> ParseItems(s[1..]) == Some((items, rest))
    ensures ParseValue(s) == Some((List(items), rest))
  {
    hide ParseItems;
    assert SkipWs(s[1..]) == s[1..];
    assert items == [] ==> s[1..][1..] == rest;
  }

  lemma ItemsStart(items: seq<Value>)
    requires items != [] && NoFloats(items[0])
    ensures PrintItems(items) != "" && !IsBlank(PrintItems(items)[0]) && PrintItems(items)[0] != ']'
  {
    assert !items[0].Float?;
    PrintStart(items[0]);
    var first := Print(items[0]);
    hide NoFloats, Print;
    assert PrintItems(items)[0] == first[0];
  }

  lemma ObjectOfPrint(members: seq<Member>, rest: string)
    requires members != [] ==> ParseMembers(PrintMembers(members) + "}" + rest) == Some((members, rest))
    ensures ParseValue(Print(Object(members)) + rest) == Some((Object(members), rest))
  {
    var s := Print(Object(members)) + rest;
    var inner := PrintMembers(members) + "}" + rest;
    assert s[0] == '{' && s[1..] == inner;
    if members == [] {
      assert inner == "}" + rest;
      assert inner[1..] == rest;
    } else {
      assert inner[0] == '"';
      assert SkipWs(inner) == inner;
    }
  }

  lemma {:induction false} ItemsOfPrint(items: seq<Value>, rest: string)
    requires items != [] && forall i :: 0 <= i < |items| ==> NoFloats(items[i])
    ensures ParseItems(PrintItems(items) + "]" + rest) == Some((items, rest))
    decreases items
  {
    var s := PrintItems(items) + "]" + rest;
    var first := Print(items[0]);
    if |items| == 1 {
      var t := "]" + rest;
      assert s == first + t;
      ValueOfPrint(items[0], t);
      assert t[1..] == rest && items == [items[0]];
    } else {
      var tail := PrintItems(items[1..]) + "]" + rest;
      var t := "," + tail;
      assert s == first + t;
      ValueOfPrint(items[0], t);
      ItemsOfPrint(items[1..], rest);
      PrintStart(items[1]);
      assert tail[0] == Print(items[1])[0];
      ItemsStep(s, items[0], t, tail, items[1..], rest);
      assert [items[0]] + items[1..] == items;
    }
  }

  lemma ItemsStep(s: string, v: Value, t: string, tail: string, vs: seq<Value>, rest: string)
    requires ParseValue(s) == Some((v, t)) && t == "," + tail
    requires tail != "" && !IsBlank(tail[0]) && ParseItems(tail) == Some((vs, rest))
    ensures ParseItems(s) == Some(([v] + vs, rest))
  {
    hide ParseValue;
    assert SkipWs(t) == t && t[1..] == tail && SkipWs(tail) == tail;
  }

  lemma {:induction false} MemberOfPrint(m: Member, rest: string)
    requires NoFloats(m.value) && EndsNumber(rest)
    ensures ParseMember(PrintMember(m) + rest) == Some((m, rest))
    decreases m, 0
  {
    hide ParseValue, ParseChars, Print, PrintChars, EndsNumber;
    var s := PrintMember(m) + rest;
    var v := Print(m.value) + rest;
    var t := ":" + v;
    assert s[1..] == PrintChars(m.name) + "\"" + t;
    CharsOfPrint(m.name, t);
    PrintStart(m.value);
    assert t[1..] == v && v[0] == Print(m.value)[0];
    ValueOfPrint(m.value, rest);
  }

  lemma {:induction false} MembersOfPrint(members: seq<Member>, rest: string)
    requires members != [] && forall i :: 0 <= i < |members| ==> NoFloats(members[i].value)
    ensures ParseMembers(PrintMembers(members) + "}" + rest) == Some((members, rest))
    decreases members
  {
    hide ParseMembers, ParseMember, PrintMember, NoFloats, SkipWs;
    var s := PrintMembers(members) + "}" + rest;
    var first := PrintMember(members[0]);
    if |members| == 1 {
      var t := "}" + rest;
      assert s == first + t;
      MemberOfPrint(members[0], t);
      MembersEnd(s, members[0], t, rest);
      assert members == [members[0]];
    } else {
      var tail := PrintMembers(members[1..]) + "}" + rest;
      var t := "," + tail;
      assert s == first + t;
      MemberOfPrint(members[0], t);
      MembersOfPrint(members[1..], rest);
      MembersStart(members[1..]);
      MembersStep(s, members[0], t, tail, members[1..], rest);
      assert [members[0]] + members[1..] == members;
    }
  }

  lemma MembersStart(members: seq<Member>)
    requires members != []
    ensures PrintMembers(members) != "" && PrintMembers(members)[0] == '"'
  {
    hide Print, PrintChars;
  }

  lemma MembersEnd(s: string, m: Member, t: string, rest: string)
    requires ParseMember(s) == Some((m, t)) && t == "}" + rest
    ensures ParseMembers(s) == Some(([m], rest))
  {
    hide ParseMember;
    assert SkipWs(t) == t && t[1..] == rest;
  }

  lemma MembersStep(s: string, m: Member, t: string, tail: string, ms: seq<Member>, rest: string)
    requires ParseMember(s) == Some((m, t)) && t == "," + tail
    requires tail != "" && tail[0] == '"' && ParseMembers(tail) == Some((ms, rest))
    ensures ParseMembers(s) == Some(([m] + ms, rest))
  {
    hide ParseMember;
    assert SkipWs(t) == t && t[1..] == tail && SkipWs(tail) == tail;
  }

  /** Parsing the printed form of a value, with or without a final newline. */
  lemma ParseOfPrint(v: Value)
    requires NoFloats(v) && DistinctNames(v)
    ensures Parse(Print(v)) == Some(v)
    ensures Parse(Print(v) + "\n") == Some(v)
  {
    PrintStart(v);
    assert Print(v) + "" == Print(v);
    ValueOfPrint(v, "");
    ValueOfPrint(v, "\n");
    assert "\n"[1..] == "";
  }

  /** Different values have different printed forms. */
  lemma PrintIsInjective(v: Value, w: Value)
    requires NoFloats(v) && NoFloats(w) && Print(v) == Print(w)
    ensures v == w
  {
    assert Print(v) + "" == Print(v);
    ValueOfPrint(v, "");
    ValueOfPrint(w, "");
  }
}
