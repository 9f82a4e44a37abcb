/** What the parser accepts: every accepted text is a text of sections 2 to 7 of RFC 8259,
    and the value that is read is what that text denotes. */
module JsonReading {
  import opened Wrappers
  import opened Characters
  import Decimal
  import Json
  import JsonLiterals
  import X = JsonText

  // ---------------------------------------------------------------- denotation

  /** What a syntax tree denotes: names and strings by their code points, whole numbers by
      their value, other numbers by their text. */
  ghost predicate Denotes(t: X.Value, v: Json.Value)
    decreases t
  {
    match t
    case Str(items) => X.ItemsOk(items) && v.Text? && X.Name(items) == JsonLiterals.Codes(v.s)
    case Scalar(scalar) => ScalarDenotes(scalar, v)
    case Arr(_, elements) => v.List? && ElementsDenote(elements, v.items)
    case Obj(_, members) => v.Object? && MembersDenote(members, v.members)
  }

  predicate ScalarDenotes(t: X.Scalar, v: Json.Value) {
    match t
    case True => v == Json.Bool(true)
    case False => v == Json.Bool(false)
    case Null => v == Json.Null
    case Number(negative, whole, fraction, exponent) =>
      if fraction + exponent == "" then
        Decimal.AllDigits(whole)
        && v == Json.Number(if negative then -(Decimal.Value(whole) as int) else Decimal.Value(whole))
      else v == Json.Float(X.ScalarText(t))
  }

  ghost predicate ElementsDenote(es: X.Elements, vs: seq<Json.Value>)
    decreases es
  {
    match es
    case NoElements => vs == []
    case Element(_, value, _, rest) => vs != [] && Denotes(value, vs[0]) && ElementsDenote(rest, vs[1..])
  }

  ghost predicate MembersDenote(ms: X.Members, vs: seq<Json.Member>)
    decreases ms
  {
    match ms
    case NoMembers => vs == []
    case Member(_, name, _, _, value, _, rest) =>
      && vs != [] && X.ItemsOk(name) && X.Name(name) == JsonLiterals.Codes(vs[0].name)
      && Denotes(value, vs[0].value) && MembersDenote(rest, vs[1..])
  }

  // ---------------------------------------------------------------- strings

  /** The items of one escape, after its backslash. */
  lemma EscapeRead(s: string) returns (items: seq<X.Item>)
    requires Json.ParseEscape(s).Some?
    ensures var (c, rest) := Json.ParseEscape(s).value;
      && X.ItemsOk(items) && ['\\'] + s == X.ItemsText(items) + rest
      && forall more: seq<nat> :: X.CodePoints(X.Units(items) + more) == [c as nat] + X.CodePoints(more)
  {
    hide X.CodePoints;
    if s[0] == 'u' {
      items := UnicodeRead(s[1..]);
      assert ['\\', 'u'] + s[1..] == ['\\'] + s;
    } else {
      items := [X.Escape(s[0])];
      JsonLiterals.OneItem(items[0]);
      assert X.Units(items) == [X.Unit(items[0])];
      AloneStays(X.Unit(items[0]));
    }
  }

  lemma AloneStays(unit: nat)
    requires unit < 0xD800 || unit >= 0xDC00
    ensures forall more: seq<nat> :: X.CodePoints([unit] + more) == [unit] + X.CodePoints(more)
  {
    forall more: seq<nat> ensures X.CodePoints([unit] + more) == [unit] + X.CodePoints(more) {
      assert ([unit] + more)[1..] == more;
    }
  }

  lemma PairJoins(high: nat, low: nat)
    requires 0xD800 <= high < 0xDC00 && 0xDC00 <= low < 0xE000
    ensures forall more: seq<nat> ::
      X.CodePoints([high, low] + more) == [0x1_0000 + (high - 0xD800) * 0x400 + (low - 0xDC00)] + X.CodePoints(more)
  {
    forall more: seq<nat>
      ensures X.CodePoints([high, low] + more)
        == [0x1_0000 + (high - 0xD800) * 0x400 + (low - 0xDC00)] + X.CodePoints(more)
    {
      assert ([high, low] + more)[2..] == more;
    }
  }

  lemma HexRead(s: string) returns (item: X.Item)
    requires Json.ParseHex4(s).Some?
    ensures var (unit, rest) := Json.ParseHex4(s).value;
      X.ItemOk(item) && item.Hex? && X.Unit(item) == unit && ['\\', 'u'] + s == X.ItemText(item) + rest
  {
    item := X.Hex(s[0], s[1], s[2], s[3]);
    assert s == [s[0], s[1], s[2], s[3]] + s[4..];
  }

  lemma UnicodeRead(s: string) returns (items: seq<X.Item>)
    requires Json.ParseUnicode(s).Some?
    ensures var (c, rest) := Json.ParseUnicode(s).value;
      && X.ItemsOk(items) && ['\\', 'u'] + s == X.ItemsText(items) + rest
      && forall more: seq<nat> :: X.CodePoints(X.Units(items) + more) == [c as nat] + X.CodePoints(more)
  {
    hide X.CodePoints, Json.ParseHex4, X.ItemsText, X.ItemText, X.Unit, X.ItemOk;
    var first := HexRead(s);
    var (unit, rest) := Json.ParseHex4(s).value;
    if unit < 0xD800 || unit >= 0xE000 {
      items := [first];
      JsonLiterals.OneItem(first);
      assert X.Units(items) == [unit];
      AloneStays(unit);
    } else {
      var second := HexRead(rest[2..]);
      var (low, rest') := Json.ParseHex4(rest[2..]).value;
      items := [first, second];
      JsonLiterals.TwoItems(first, second);
      assert X.Units(items) == [unit, low];
      assert rest == ['\\', 'u'] + rest[2..];
      PairJoins(unit, low);
    }
  }

  /** One character of a string, as it is read and as it stands. */
  lemma OneRead(s: string) returns (front: seq<X.Item>, c: char, after: string)
    requires Json.ParseChars(s).Some? && s[0] != '"'
    ensures |after| < |s| && Json.ParseChars(after).Some?
    ensures X.ItemsOk(front) && s == X.ItemsText(front) + after
    ensures forall more: seq<nat> :: X.CodePoints(X.Units(front) + more) == [c as nat] + X.CodePoints(more)
    ensures var (t, rest) := Json.ParseChars(after).value; Json.ParseChars(s).value == ([c] + t, rest)
  {
    hide X.CodePoints, X.ItemsText, Json.ParseEscape;
    if s[0] == '\\' {
      front := EscapeRead(s[1..]);
      c, after := Json.ParseEscape(s[1..]).value.0, Json.ParseEscape(s[1..]).value.1;
      assert s == ['\\'] + s[1..];
    } else {
      front, c, after := [X.Plain(s[0])], s[0], s[1..];
      JsonLiterals.OneItem(front[0]);
      assert X.Units(front) == [s[0] as nat];
      AloneStays(s[0] as nat);
      assert s == [s[0]] + s[1..];
    }
  }

  lemma NoCharacters(s: string)
    requires Json.ParseChars(s).Some? && s[0] == '"'
    ensures Json.ParseChars(s) == Some(("", s[1..])) && X.ItemsOk([]) && s == X.ItemsText([]) + ("\"" + s[1..])
    ensures X.Name([]) == JsonLiterals.Codes("")
  {
    JsonLiterals.NoText();
    assert X.Units([]) == [];
  }

  lemma {:induction false} CharsRead(s: string) returns (items: seq<X.Item>)
    requires Json.ParseChars(s).Some?
    ensures var (t, rest) := Json.ParseChars(s).value;
      X.ItemsOk(items) && s == X.ItemsText(items) + ("\"" + rest) && X.Name(items) == JsonLiterals.Codes(t)
    decreases |s|
  {
    if s[0] == '"' {
      items := [];
      NoCharacters(s);
    } else {
      var front, c, after := OneRead(s);
      hide Json.ParseChars, X.CodePoints, X.ItemsText;
      var (t, rest) := Json.ParseChars(after).value;
      var back := CharsRead(after);
      items := front + back;
      Together(front, back, after, rest, s);
      assert JsonLiterals.Codes([c] + t) == [c as nat] + JsonLiterals.Codes(t);
    }
  }

  lemma Together(front: seq<X.Item>, back: seq<X.Item>, after: string, rest: string, s: string)
    requires X.ItemsOk(front) && X.ItemsOk(back)
    requires s == X.ItemsText(front) + after && after == X.ItemsText(back) + ("\"" + rest)
    ensures X.ItemsOk(front + back) && s == X.ItemsText(front + back) + ("\"" + rest)
    ensures X.Units(front + back) == X.Units(front) + X.Units(back)
  {
    hide X.ItemsText;
    JsonLiterals.UnitsConcat(front, back);
    JsonLiterals.ItemsTextConcat(front, back);
  }

  // ---------------------------------------------------------------- numbers and blanks

  lemma {:induction false} BlanksRead(s: string)
    ensures var n := |s| - |Json.SkipWs(s)|;
      0 <= n <= |s| && s == s[..n] + Json.SkipWs(s) && X.BlanksOk(s[..n])
  {
    if s != "" && IsBlank(s[0]) {
      BlanksRead(s[1..]);
      var n := |s[1..]| - |Json.SkipWs(s[1..])|;
      assert s[..n + 1] == [s[0]] + s[1..][..n];
    }
  }

  predicate FractionOk(f: string) {
    f != "" ==> f[0] == '.' && X.DigitsOk(f[1..])
  }

  lemma FractionRead(s: string)
    ensures Json.FractionLength(s) <= |s| && FractionOk(s[..Json.FractionLength(s)])
  {
    var k := Json.FractionLength(s);
    if k > 0 {
      assert s[..k][1..] == s[1..][..k - 1];
    }
  }

  lemma ExponentRead(s: string)
    ensures Json.ExponentLength(s) <= |s|
    ensures Json.ExponentLength(s) > 0 ==> X.ExponentOk(s[..Json.ExponentLength(s)])
  {
    var k := Json.ExponentLength(s);
    if k > 0 {
      var start := if |s| > 1 && (s[1] == '+' || s[1] == '-') then 2 else 1;
      assert s[..k][start..] == s[start..][..k - start];
    }
  }

  predicate WholeOk(w: string) {
    X.DigitsOk(w) && Decimal.AllDigits(w) && (w[0] == '0' ==> |w| == 1)
  }

  lemma WholeRead(body: string, k: nat)
    requires Json.DigitRun(body) > 0 && k == if body[0] == '0' then 1 else Json.DigitRun(body)
    ensures k <= |body| && WholeOk(body[..k])
  {
    var run := Json.DigitRun(body);
    assert forall i :: 0 <= i < k ==> body[..k][i] == body[..run][i];
  }

  lemma WholeIsRead(s: string) returns (whole: string, tail: string)
    requires Json.ParseNumber(s).Some?
    ensures s != "" && WholeOk(whole) && s == (if s[0] == '-' then "-" else "") + (whole + tail)
    ensures |tail| <= |s| && Decimal.AllDigits(whole)
    ensures Json.ParseNumber(s) == Json.ParseNumberTail(s, s[0] == '-', whole, tail)
  {
    hide Json.ParseNumberTail, X.DigitsOk;
    var body := if s[0] == '-' then s[1..] else s;
    var k := if body[0] == '0' then 1 else Json.DigitRun(body);
    WholeRead(body, k);
    AllDigitsOf(body[..k]);
    whole, tail := body[..k], body[k..];
    assert body == whole + tail;
  }

  lemma TailIsRead(s: string, negative: bool, whole: string, tail: string)
    returns (fraction: string, exponent: string, rest: string)
    requires Decimal.AllDigits(whole) && |tail| <= |s|
    ensures FractionOk(fraction) && (exponent != "" ==> X.ExponentOk(exponent))
    ensures tail == (fraction + exponent) + rest
    ensures Json.ParseNumberTail(s, negative, whole, tail)
      == Some((if fraction + exponent != "" then Json.Float(s[..|s| - |rest|])
               else Json.Number(Json.Signed(negative, Decimal.Value(whole))), rest))
  {
    hide Json.FractionLength, Json.ExponentLength, Decimal.Value, Decimal.AllDigits, FractionOk, X.ExponentOk;
    var frac := Json.FractionLength(tail);
    FractionRead(tail);
    var exp := Json.ExponentLength(tail[frac..]);
    ExponentRead(tail[frac..]);
    ThreeParts(tail, frac, exp);
    fraction, exponent, rest := tail[..frac], tail[frac..][..exp], tail[frac + exp..];
  }

  lemma ThreeParts(tail: string, frac: nat, exp: nat)
    requires frac + exp <= |tail|
    ensures tail == (tail[..frac] + tail[frac..][..exp]) + tail[frac + exp..]
    ensures tail[..frac] + tail[frac..][..exp] != "" <==> frac + exp > 0
    ensures exp == 0 ==> tail[frac..][..exp] == ""
  {
    assert |tail[..frac] + tail[frac..][..exp]| == frac + exp;
  }

  lemma NumberRead(s: string) returns (t: X.Scalar)
    requires Json.ParseNumber(s).Some?
    ensures var (v, rest) := Json.ParseNumber(s).value;
      X.ScalarOk(t) && s == X.ScalarText(t) + rest && ScalarDenotes(t, v)
  {
    hide *;
    var whole, tail := WholeIsRead(s);
    var fraction, exponent, rest := TailIsRead(s, s[0] == '-', whole, tail);
    t := X.Number(s[0] == '-', whole, fraction, exponent);
    NumberText(t, s, tail, rest);
    NumberOk(t);
    NumberDenotes(t, if t.fraction + t.exponent != "" then Json.Float(X.ScalarText(t))
                     else Json.Number(Json.Signed(t.negative, Decimal.Value(t.whole))));
  }

  lemma AllDigitsOf(w: string)
    requires WholeOk(w)
    ensures Decimal.AllDigits(w)
  {
  }

  lemma NumberOk(t: X.Scalar)
    requires t.Number? && WholeOk(t.whole) && FractionOk(t.fraction)
    requires t.exponent != "" ==> X.ExponentOk(t.exponent)
    ensures X.ScalarOk(t)
  {
    hide X.ExponentOk, X.DigitsOk;
  }

  lemma NumberText(t: X.Scalar, s: string, tail: string, rest: string)
    requires t.Number? && tail == (t.fraction + t.exponent) + rest
    requires s == (if t.negative then "-" else "") + (t.whole + tail)
    ensures s == X.ScalarText(t) + rest && s[..|s| - |rest|] == X.ScalarText(t)
  {
    Regroup(t.whole, t.fraction + t.exponent, rest);
    Regroup(if t.negative then "-" else "", t.whole + (t.fraction + t.exponent), rest);
    FrontOf(X.ScalarText(t), rest);
  }

  lemma FrontOf(a: string, b: string)
    ensures (a + b)[..|a + b| - |b|] == a
  {
  }

  lemma NumberDenotes(t: X.Scalar, v: Json.Value)
    requires t.Number? && Decimal.AllDigits(t.whole)
    requires v == if t.fraction + t.exponent != "" then Json.Float(X.ScalarText(t))
                  else Json.Number(Json.Signed(t.negative, Decimal.Value(t.whole)))
    ensures ScalarDenotes(t, v)
  {
    hide X.ScalarText, Decimal.Value;
  }

  // ---------------------------------------------------------------- values

  /** A tree whose text the input starts with, and which denotes what was read. */
  ghost predicate Reads(s: string, t: X.Value, v: Json.Value, rest: string) {
    X.ValueOk(t) && s == X.Text(t) + rest && Denotes(t, v)
  }

  lemma TextRead(s: string) returns (t: X.Value)
    requires s != "" && s[0] == '"' && Json.ParseValue(s).Some?
    ensures Reads(s, t, Json.ParseValue(s).value.0, Json.ParseValue(s).value.1)
  {
    hide Json.ParseChars, X.ItemsText, X.Name;
    var items := CharsRead(s[1..]);
    t := X.Str(items);
    assert s == "\"" + s[1..];
  }

  lemma WordRead(s: string, word: string)
    requires word <= s
    ensures s == word + s[|word|..]
  {
  }

  lemma ScalarRead(s: string) returns (t: X.Value)
    requires s != "" && s[0] !in "\"[{" && Json.ParseValue(s).Some?
    ensures Reads(s, t, Json.ParseValue(s).value.0, Json.ParseValue(s).value.1)
  {
    hide Json.ParseNumber, X.ScalarOk;
    if s[0] == 'n' {
      t := X.Scalar(X.Null);
      WordRead(s, "null");
    } else if s[0] == 't' {
      t := X.Scalar(X.True);
      WordRead(s, "true");
    } else if s[0] == 'f' {
      t := X.Scalar(X.False);
      WordRead(s, "false");
    } else {
      var n := NumberRead(s);
      t := X.Scalar(n);
      return;
    }
    WordsAreOk();
  }

  lemma WordsAreOk()
    ensures X.ScalarOk(X.Null) && X.ScalarOk(X.True) && X.ScalarOk(X.False)
  {
  }

  lemma {:induction false} ValueRead(s: string) returns (t: X.Value)
    requires Json.ParseValue(s).Some?
    ensures Reads(s, t, Json.ParseValue(s).value.0, Json.ParseValue(s).value.1)
    decreases |s|, 1
  {
    hide Reads;
    if s[0] == '"' {
      t := TextRead(s);
    } else if s[0] == '[' {
      t := ListRead(s);
    } else if s[0] == '{' {
      t := ObjectRead(s);
    } else {
      t := ScalarRead(s);
    }
  }

  lemma Regroup(a: string, b: string, c: string)
    ensures (a + b) + c == a + (b + c)
  {
  }

  /** What stands between a bracket or a comma and what is read next, as blanks. */
  lemma Skipped(s: string) returns (blank: string)
    ensures X.BlanksOk(blank) && s == blank + Json.SkipWs(s)
  {
    BlanksRead(s);
    blank := s[..|s| - |Json.SkipWs(s)|];
  }

  // ---------------------------------------------------------------- lists

  ghost predicate ReadsItems(s: string, es: X.Elements, vs: seq<Json.Value>, rest: string) {
    && es.Element? && es.before == "" && X.ElementsOk(es) && s == X.ElementsText(es) + ("]" + rest)
    && ElementsDenote(es, vs)
  }

  lemma ListOf(s: string, blank: string, inner: string, es: X.Elements, vs: seq<Json.Value>, rest: string)
    requires X.BlanksOk(blank) && s == "[" + (blank + inner) && ReadsItems(inner, es, vs, rest)
    ensures Reads(s, X.Arr("", es.(before := blank)), Json.List(vs), rest)
  {
    LeadingBlanks(es, blank);
    hide X.ElementsText, X.ElementsOk, ElementsDenote;
    assert X.Text(X.Arr("", es.(before := blank))) == "[" + ((blank + X.ElementsText(es)) + "]");
    assert X.BlanksOk("");
  }

  lemma EmptyListOf(s: string, blank: string, rest: string)
    requires X.BlanksOk(blank) && s == "[" + (blank + ("]" + rest))
    ensures Reads(s, X.Arr(blank, X.NoElements), Json.List([]), rest)
  {
  }

  lemma LeadingBlanks(es: X.Elements, blank: string)
    requires es.Element? && es.before == "" && X.BlanksOk(blank)
    ensures X.ElementsText(es.(before := blank)) == blank + X.ElementsText(es)
    ensures X.ElementsOk(es) ==> X.ElementsOk(es.(before := blank))
    ensures forall vs :: ElementsDenote(es, vs) ==> ElementsDenote(es.(before := blank), vs)
  {
    hide X.Text;
  }

  lemma LastItem(s: string, t: X.Value, v: Json.Value, after: string, rest: string)
    requires X.BlanksOk(after) && Reads(s, t, v, after + ("]" + rest))
    ensures ReadsItems(s, X.Element("", t, after, X.NoElements), [v], rest)
  {
    hide X.Text, X.ValueOk, Denotes;
    var es := X.Element("", t, after, X.NoElements);
    assert X.ElementsText(es) == X.Text(t) + after;
    Regroup(X.Text(t), after, "]" + rest);
    assert [v][1..] == [] && X.BlanksOk("") && X.ElementsOk(X.NoElements);
    assert ElementsDenote(X.NoElements, []);
  }

  lemma OneMoreItem(s: string, t: X.Value, v: Json.Value, after: string, blank: string, more: string, es: X.Elements,
                    vs: seq<Json.Value>, rest: string)
    requires X.BlanksOk(after) && X.BlanksOk(blank)
    requires Reads(s, t, v, after + ("," + (blank + more))) && ReadsItems(more, es, vs, rest)
    ensures ReadsItems(s, X.Element("", t, after, es.(before := blank)), [v] + vs, rest)
  {
    LeadingBlanks(es, blank);
    hide X.Text, X.ValueOk, Denotes;
    var all, tail := X.Element("", t, after, es.(before := blank)), es.(before := blank);
    ElementIs(t, v, after, tail, vs);
    hide X.ElementsText, X.ElementsOk, ElementsDenote;
    Regroup5(X.Text(t), after, ",", blank, X.ElementsText(es), "]" + rest);
  }

  lemma Regroup5(a: string, b: string, c: string, d: string, e: string, f: string)
    ensures (a + (b + (c + (d + e)))) + f == a + (b + (c + (d + (e + f))))
  {
  }

  lemma ElementIs(t: X.Value, v: Json.Value, after: string, tail: X.Elements, vs: seq<Json.Value>)
    requires tail.Element? && X.BlanksOk(after)
    ensures var all := X.Element("", t, after, tail);
      && X.ElementsText(all) == X.Text(t) + (after + ("," + X.ElementsText(tail)))
      && (X.ElementsOk(all) <==> X.ValueOk(t) && X.ElementsOk(tail))
      && (ElementsDenote(all, [v] + vs) <==> Denotes(t, v) && ElementsDenote(tail, vs))
  {
    hide X.Text, X.ValueOk, Denotes;
    assert ([v] + vs)[1..] == vs;
    var text := X.Text(t) + (after + ("," + X.ElementsText(tail)));
    assert "" + text == text;
  }

  lemma {:induction false} ListRead(s: string) returns (t: X.Value)
    requires s != "" && s[0] == '[' && Json.ParseValue(s).Some?
    ensures Reads(s, t, Json.ParseValue(s).value.0, Json.ParseValue(s).value.1)
    decreases |s|, 0
  {
    hide Reads, ReadsItems, Json.SkipWs, Json.ParseItems;
    var inner := Json.SkipWs(s[1..]);
    var blank := Skipped(s[1..]);
    assert s == "[" + s[1..];
    if inner != "" && inner[0] == ']' {
      t := X.Arr(blank, X.NoElements);
      assert inner == "]" + inner[1..];
      EmptyListOf(s, blank, inner[1..]);
    } else {
      var es := ItemsRead(inner);
      t := X.Arr("", es.(before := blank));
      ListOf(s, blank, inner, es, Json.ParseItems(inner).value.0, Json.ParseItems(inner).value.1);
    }
  }

  lemma {:induction false} ItemsRead(s: string) returns (es: X.Elements)
    requires Json.ParseItems(s).Some?
    ensures ReadsItems(s, es, Json.ParseItems(s).value.0, Json.ParseItems(s).value.1) && es.Element?
    decreases |s|, 2
  {
    hide Reads, ReadsItems, Json.SkipWs, Json.ParseValue;
    var t := ValueRead(s);
    var (v, rest) := Json.ParseValue(s).value;
    var next := Json.SkipWs(rest);
    var after := Skipped(rest);
    if next[0] == ']' {
      es := X.Element("", t, after, X.NoElements);
      assert next == "]" + next[1..];
      LastItem(s, t, v, after, next[1..]);
    } else {
      var more := Json.SkipWs(next[1..]);
      var blank := Skipped(next[1..]);
      assert next == "," + next[1..];
      var tail := ItemsRead(more);
      es := X.Element("", t, after, tail.(before := blank));
      OneMoreItem(s, t, v, after, blank, more, tail, Json.ParseItems(more).value.0, Json.ParseItems(more).value.1);
    }
  }

  // ---------------------------------------------------------------- objects

  ghost predicate ReadsMembers(s: string, ms: X.Members, vs: seq<Json.Member>, rest: string) {
    && ms.Member? && ms.before == "" && X.MembersOk(ms) && s == X.MembersText(ms) + ("}" + rest)
    && MembersDenote(ms, vs)
  }

  /** One member without what follows it. */
  ghost predicate ReadsMember(s: string, m: X.Members, v: Json.Member, rest: string) {
    && m.Member? && m.before == "" && m.after == "" && m.rest == X.NoMembers
    && X.MembersOk(m) && s == X.MembersText(m) + rest && MembersDenote(m, [v])
  }

  lemma ObjectOf(s: string, blank: string, inner: string, ms: X.Members, vs: seq<Json.Member>, rest: string)
    requires X.BlanksOk(blank) && s == "{" + (blank + inner) && ReadsMembers(inner, ms, vs, rest)
    ensures Reads(s, X.Obj("", ms.(before := blank)), Json.Object(vs), rest)
  {
    LeadingMemberBlanks(ms, blank);
    ObjectText(ms.(before := blank));
    hide X.MembersText, X.MembersOk, MembersDenote, X.Text;
    Regroup(blank, X.MembersText(ms), "}");
    Regroup("{", blank + (X.MembersText(ms) + "}"), rest);
    Regroup(blank, X.MembersText(ms) + "}", rest);
    Regroup(X.MembersText(ms), "}", rest);
    assert X.BlanksOk("");
  }

  lemma ObjectText(ms: X.Members)
    requires ms.Member?
    ensures X.Text(X.Obj("", ms)) == "{" + (X.MembersText(ms) + "}")
  {
    hide X.MembersText;
  }

  lemma EmptyObjectOf(s: string, blank: string, rest: string)
    requires X.BlanksOk(blank) && s == "{" + (blank + ("}" + rest))
    ensures Reads(s, X.Obj(blank, X.NoMembers), Json.Object([]), rest)
  {
  }

  lemma LeadingMemberBlanks(ms: X.Members, blank: string)
    requires ms.Member? && ms.before == "" && X.BlanksOk(blank)
    ensures X.MembersText(ms.(before := blank)) == blank + X.MembersText(ms)
    ensures X.MembersOk(ms) ==> X.MembersOk(ms.(before := blank))
    ensures forall vs :: MembersDenote(ms, vs) ==> MembersDenote(ms.(before := blank), vs)
  {
    hide X.Text, X.Quoted, X.Name;
  }

  /** The same member with something behind it. */
  lemma MemberFollowed(m: X.Members, v: Json.Member, after: string, tail: X.Members, vs: seq<Json.Member>)
    requires m.Member? && m.before == "" && m.after == "" && m.rest == X.NoMembers && X.BlanksOk(after)
    requires X.MembersOk(m) && MembersDenote(m, [v])
    ensures var all := m.(after := after, rest := tail);
      && X.MembersText(all)
         == X.MembersText(m) + (after + (if tail == X.NoMembers then "" else "," + X.MembersText(tail)))
      && (X.MembersOk(tail) ==> X.MembersOk(all))
      && (MembersDenote(tail, vs) ==> MembersDenote(all, [v] + vs))
  {
    hide X.Text, X.Quoted, X.Name, X.ValueOk, Denotes, X.ItemsOk;
    FollowedText(m, after, if tail == X.NoMembers then "" else "," + X.MembersText(tail));
    assert ([v] + vs)[1..] == vs && [v][1..] == [];
  }

  lemma FollowedText(m: X.Members, after: string, more: string)
    requires m.Member? && m.before == "" && m.after == "" && m.rest == X.NoMembers
    ensures m.before + (X.Quoted(m.name) + (m.gap + (":" + (m.lead + (X.Text(m.value) + (after + more))))))
      == X.MembersText(m) + (after + more)
  {
    hide X.Text, X.Quoted;
  }

  lemma LastMember(s: string, m: X.Members, v: Json.Member, after: string, rest: string)
    requires X.BlanksOk(after) && ReadsMember(s, m, v, after + ("}" + rest))
    ensures ReadsMembers(s, m.(after := after), [v], rest)
  {
    NoMembersOk();
    MemberFollowed(m, v, after, X.NoMembers, []);
    hide X.MembersText, X.MembersOk, MembersDenote;
    assert [v] + [] == [v] && after + "" == after;
    assert m.(after := after, rest := X.NoMembers) == m.(after := after);
    Regroup(X.MembersText(m), after, "}" + rest);
  }

  lemma NoMembersOk()
    ensures X.MembersOk(X.NoMembers) && MembersDenote(X.NoMembers, [])
  {
  }

  lemma OneMoreMember(s: string, m: X.Members, v: Json.Member, after: string, blank: string, more: string,
                      ms: X.Members, vs: seq<Json.Member>, rest: string)
    requires X.BlanksOk(after) && X.BlanksOk(blank)
    requires ReadsMember(s, m, v, after + ("," + (blank + more))) && ReadsMembers(more, ms, vs, rest)
    ensures ReadsMembers(s, m.(after := after, rest := ms.(before := blank)), [v] + vs, rest)
  {
    LeadingMemberBlanks(ms, blank);
    MemberFollowed(m, v, after, ms.(before := blank), vs);
    hide X.MembersText, X.MembersOk, MembersDenote;
    Regroup5(X.MembersText(m), after, ",", blank, X.MembersText(ms), "}" + rest);
  }

  lemma MemberOf(s: string, items: seq<X.Item>, name: string, gap: string, lead: string, valueText: string, t: X.Value,
                 v: Json.Value, rest: string)
    requires X.ItemsOk(items) && X.Name(items) == JsonLiterals.Codes(name)
    requires X.BlanksOk(gap) && X.BlanksOk(lead) && Reads(valueText, t, v, rest)
    requires s == "\"" + (X.ItemsText(items) + ("\"" + (gap + (":" + (lead + valueText)))))
    ensures ReadsMember(s, X.Member("", items, gap, lead, t, "", X.NoMembers), Json.Member(name, v), rest)
  {
    var m := X.Member("", items, gap, lead, t, "", X.NoMembers);
    OneMemberText(items, gap, lead, t);
    OneMemberOk(m, Json.Member(name, v));
    var behind := gap + (":" + (lead + valueText));
    QuotedThen(items, behind);
    assert valueText == X.Text(t) + rest;
    hide *;
    Regroup5(X.Quoted(items), gap, ":", lead, X.Text(t), rest);
    MemberReads(s, m, Json.Member(name, v), rest);
  }

  lemma QuotedThen(items: seq<X.Item>, behind: string)
    ensures X.Quoted(items) + behind == "\"" + (X.ItemsText(items) + ("\"" + behind))
  {
    hide X.ItemsText;
  }

  lemma MemberReads(s: string, m: X.Members, v: Json.Member, rest: string)
    requires m.Member? && m.before == "" && m.after == "" && m.rest == X.NoMembers
    requires X.MembersOk(m) && s == X.MembersText(m) + rest && MembersDenote(m, [v])
    ensures ReadsMember(s, m, v, rest)
  {
    hide X.MembersText, X.MembersOk, MembersDenote;
  }

  lemma OneMemberText(items: seq<X.Item>, gap: string, lead: string, t: X.Value)
    ensures X.MembersText(X.Member("", items, gap, lead, t, "", X.NoMembers))
      == X.Quoted(items) + (gap + (":" + (lead + X.Text(t))))
  {
    hide X.Quoted, X.Text;
    assert X.Text(t) + ("" + "") == X.Text(t);
  }

  lemma OneMemberOk(m: X.Members, v: Json.Member)
    requires m.Member? && m.before == "" && m.after == "" && m.rest == X.NoMembers
    requires X.ItemsOk(m.name) && X.Name(m.name) == JsonLiterals.Codes(v.name)
    requires X.BlanksOk(m.gap) && X.BlanksOk(m.lead) && X.ValueOk(m.value) && Denotes(m.value, v.value)
    ensures X.MembersOk(m) && MembersDenote(m, [v])
  {
    hide X.Name, X.ValueOk, Denotes, X.ItemsOk;
    assert [v][1..] == [];
    assert MembersDenote(X.NoMembers, []);
  }

  lemma {:induction false} ObjectRead(s: string) returns (t: X.Value)
    requires s != "" && s[0] == '{' && Json.ParseValue(s).Some?
    ensures Reads(s, t, Json.ParseValue(s).value.0, Json.ParseValue(s).value.1)
    decreases |s|, 0
  {
    hide Reads, ReadsMembers, Json.SkipWs, Json.ParseMembers;
    var inner := Json.SkipWs(s[1..]);
    var blank := Skipped(s[1..]);
    assert s == "{" + s[1..];
    if inner != "" && inner[0] == '}' {
      t := X.Obj(blank, X.NoMembers);
      assert inner == "}" + inner[1..];
      EmptyObjectOf(s, blank, inner[1..]);
    } else {
      var ms := MembersRead(inner);
      t := X.Obj("", ms.(before := blank));
      ObjectOf(s, blank, inner, ms, Json.ParseMembers(inner).value.0, Json.ParseMembers(inner).value.1);
    }
  }

  lemma {:induction false} MemberRead(s: string) returns (m: X.Members)
    requires Json.ParseMember(s).Some?
    ensures ReadsMember(s, m, Json.ParseMember(s).value.0, Json.ParseMember(s).value.1)
    decreases |s|, 2
  {
    hide Reads, ReadsMember, Json.SkipWs, Json.ParseValue, Json.ParseChars, X.ItemsText, X.Name;
    var items := CharsRead(s[1..]);
    var (name, rest) := Json.ParseChars(s[1..]).value;
    var colon := Json.SkipWs(rest);
    var gap := Skipped(rest);
    var value := Json.SkipWs(colon[1..]);
    var lead := Skipped(colon[1..]);
    assert s == "\"" + s[1..] && colon == ":" + colon[1..];
    var t := ValueRead(value);
    m := X.Member("", items, gap, lead, t, "", X.NoMembers);
    MemberOf(s, items, name, gap, lead, value, t, Json.ParseValue(value).value.0, Json.ParseValue(value).value.1);
  }

  lemma {:induction false} MembersRead(s: string) returns (ms: X.Members)
    requires Json.ParseMembers(s).Some?
    ensures ReadsMembers(s, ms, Json.ParseMembers(s).value.0, Json.ParseMembers(s).value.1) && ms.Member?
    decreases |s|, 3
  {
    hide ReadsMember, ReadsMembers, Json.SkipWs, Json.ParseMember;
    var m := MemberRead(s);
    assert m.Member? by {
      MemberIsOne(s, m, Json.ParseMember(s).value.0, Json.ParseMember(s).value.1);
    }
    var (v, rest) := Json.ParseMember(s).value;
    var next := Json.SkipWs(rest);
    var after := Skipped(rest);
    if next[0] == '}' {
      ms := m.(after := after);
      assert next == "}" + next[1..];
      LastMember(s, m, v, after, next[1..]);
    } else {
      var more := Json.SkipWs(next[1..]);
      var blank := Skipped(next[1..]);
      assert next == "," + next[1..];
      var tail := MembersRead(more);
      ms := m.(after := after, rest := tail.(before := blank));
      OneMoreMember(s, m, v, after, blank, more, tail, Json.ParseMembers(more).value.0,
                    Json.ParseMembers(more).value.1);
    }
  }

  lemma MemberIsOne(s: string, m: X.Members, v: Json.Member, rest: string)
    requires ReadsMember(s, m, v, rest)
    ensures m.Member?
  {
  }

  // ---------------------------------------------------------------- whole documents

  /** Everything that is accepted is blanks, a text of the grammar, and blanks; the value read
      is what that text denotes, and no object in it repeats a name. */
  lemma AcceptedIsText(s: string) returns (before: string, t: X.Value, after: string)
    requires Json.Parse(s).Some?
    ensures X.BlanksOk(before) && X.BlanksOk(after) && X.ValueOk(t) && s == before + (X.Text(t) + after)
    ensures Denotes(t, Json.Parse(s).value) && Json.DistinctNames(Json.Parse(s).value)
  {
    hide Json.SkipWs, Json.ParseValue, Json.DistinctNames, X.Text, X.ValueOk, Denotes;
    before := Skipped(s);
    t := ValueRead(Json.SkipWs(s));
    var rest := Json.ParseValue(Json.SkipWs(s)).value.1;
    after := Skipped(rest);
    assert after == rest;
  }
}
