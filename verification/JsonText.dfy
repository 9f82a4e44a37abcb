/** JSON texts by their concrete syntax (sections 2 to 7 of RFC 8259): every character of
    a text belongs to the tree, so a member's raw source is part of it. */
module JsonText {
  import opened Wrappers
  import opened Characters

  // ---------------------------------------------------------------- strings

  datatype Item = Plain(c: char) | Escape(c: char) | Hex(d0: char, d1: char, d2: char, d3: char)

  predicate ItemOk(item: Item) {
    match item
    case Plain(c) => c >= ' ' && c != '"' && c != '\\'
    case Escape(c) => c in "\"\\/bfnrt"
    case Hex(d0, d1, d2, d3) => IsHex(d0) && IsHex(d1) && IsHex(d2) && IsHex(d3)
  }

  function ItemText(item: Item): (s: string)
    ensures |s| > 0
  {
    match item
    case Plain(c) => [c]
    case Escape(c) => ['\\', c]
    case Hex(d0, d1, d2, d3) => ['\\', 'u', d0, d1, d2, d3]
  }

  function ItemsText(items: seq<Item>): string {
    if items == [] then "" else ItemText(items[0]) + ItemsText(items[1..])
  }

  predicate ItemsOk(items: seq<Item>) {
    forall i :: 0 <= i < |items| ==> ItemOk(items[i])
  }

  function Quoted(items: seq<Item>): string {
    "\"" + (ItemsText(items) + "\"")
  }

  // ---------------------------------------------------------------- what a string denotes

  function Unit(item: Item): nat
    requires ItemOk(item)
  {
    match item
    case Plain(c) => c as nat
    case Escape(c) =>
      if c == 'b' then 8 else if c == 'f' then 12 else if c == 'n' then 10
      else if c == 'r' then 13 else if c == 't' then 9 else c as nat
    case Hex(d0, d1, d2, d3) => 4096 * HexValue(d0) + 256 * HexValue(d1) + 16 * HexValue(d2) + HexValue(d3)
  }

  function Units(items: seq<Item>): seq<nat>
    requires ItemsOk(items)
  {
    seq(|items|, i requires 0 <= i < |items| => Unit(items[i]))
  }

  /** A high surrogate followed by a low one denotes one code point; a lone one stays. */
  function CodePoints(units: seq<nat>): seq<nat> {
    if |units| < 2 then units
    else if 0xD800 <= units[0] < 0xDC00 && 0xDC00 <= units[1] < 0xE000
    then [0x10000 + (units[0] - 0xD800) * 0x400 + (units[1] - 0xDC00)] + CodePoints(units[2..])
    else [units[0]] + CodePoints(units[1..])
  }

  function Name(items: seq<Item>): seq<nat>
    requires ItemsOk(items)
  {
    CodePoints(Units(items))
  }

  /** Reading the characters between the quotes back into items. */
  function ParseItems(s: string): (r: Option<seq<Item>>)
    ensures r.Some? ==> ItemsOk(r.value)
    decreases |s|
  {
    if s == "" then Some([])
    else if s[0] == '\\' then
      if |s| >= 2 && s[1] in "\"\\/bfnrt" then Prepend(Escape(s[1]), ParseItems(s[2..]))
      else if |s| >= 6 && s[1] == 'u' && IsHex(s[2]) && IsHex(s[3]) && IsHex(s[4]) && IsHex(s[5])
      then Prepend(Hex(s[2], s[3], s[4], s[5]), ParseItems(s[6..]))
      else None
    else if s[0] >= ' ' && s[0] != '"' then Prepend(Plain(s[0]), ParseItems(s[1..]))
    else None
  }

  function Prepend(item: Item, r: Option<seq<Item>>): (result: Option<seq<Item>>) {
    match r
    case None => None
    case Some(items) => Some([item] + items)
  }

  lemma ParseOfItem(item: Item, rest: string)
    requires ItemOk(item)
    ensures ParseItems(ItemText(item) + rest) == Prepend(item, ParseItems(rest))
  {
    var s := ItemText(item) + rest;
    match item
    case Plain(c) => assert s[1..] == rest;
    case Escape(c) => assert s[2..] == rest;
    case Hex(d0, d1, d2, d3) => assert s[6..] == rest;
  }

  lemma {:induction false} ParseOfItems(items: seq<Item>)
    requires ItemsOk(items)
    ensures ParseItems(ItemsText(items)) == Some(items)
  {
    if items != [] {
      hide ParseItems;
      ParseOfItems(items[1..]);
      ParseOfItem(items[0], ItemsText(items[1..]));
      assert [items[0]] + items[1..] == items;
    }
  }

  /** Reading is exact: the items are those that make up the text. */
  lemma {:induction false} ParseItemsIff(s: string, items: seq<Item>)
    ensures ParseItems(s) == Some(items) <==> ItemsOk(items) && ItemsText(items) == s
    decreases |s|
  {
    if ItemsOk(items) && ItemsText(items) == s {
      ParseOfItems(items);
    }
    if ParseItems(s) == Some(items) && s != "" {
      var n := |ItemText(items[0])|;
      assert ParseItems(s) == Prepend(items[0], ParseItems(s[n..])) && s == ItemText(items[0]) + s[n..];
      ParseItemsIff(s[n..], items[1..]);
    }
  }

  // ---------------------------------------------------------------- values

  datatype Scalar =
    | True | False | Null
    | Number(negative: bool, whole: string, fraction: string, exponent: string)

  datatype Value =
    | Str(items: seq<Item>)
    | Scalar(scalar: Scalar)
    | Arr(blank: string, elements: Elements)
    | Obj(blank: string, members: Members)

  datatype Elements =
    | NoElements
    | Element(before: string, value: Value, after: string, rest: Elements)

  datatype Members =
    | NoMembers
    | Member(before: string, name: seq<Item>, gap: string, lead: string, value: Value, after: string, rest: Members)

  predicate BlanksOk(s: string) {
    forall i :: 0 <= i < |s| ==> IsBlank(s[i])
  }

  predicate DigitsOk(s: string) {
    |s| > 0 && forall i :: 0 <= i < |s| ==> '0' <= s[i] <= '9'
  }

  predicate ExponentOk(s: string) {
    && |s| >= 2 && (s[0] == 'e' || s[0] == 'E')
    && (DigitsOk(s[1..]) || ((s[1] == '+' || s[1] == '-') && DigitsOk(s[2..])))
  }

  predicate ScalarOk(v: Scalar) {
    v.Number? ==>
      && DigitsOk(v.whole) && (v.whole[0] == '0' ==> |v.whole| == 1)
      && (v.fraction != "" ==> v.fraction[0] == '.' && DigitsOk(v.fraction[1..]))
      && (v.exponent != "" ==> ExponentOk(v.exponent))
  }

  function ScalarText(v: Scalar): string {
    match v
    case True => "true"
    case False => "false"
    case Null => "null"
    case Number(negative, whole, fraction, exponent) =>
      (if negative then "-" else "") + (whole + (fraction + exponent))
  }

  predicate ValueOk(v: Value) {
    match v
    case Str(items) => ItemsOk(items)
    case Scalar(scalar) => ScalarOk(scalar)
    case Arr(blank, elements) => BlanksOk(blank) && ElementsOk(elements)
    case Obj(blank, members) => BlanksOk(blank) && MembersOk(members)
  }

  predicate ElementsOk(es: Elements) {
    es.Element? ==> BlanksOk(es.before) && ValueOk(es.value) && BlanksOk(es.after) && ElementsOk(es.rest)
  }

  predicate MembersOk(ms: Members) {
    ms.Member? ==>
      && BlanksOk(ms.before) && ItemsOk(ms.name) && BlanksOk(ms.gap) && BlanksOk(ms.lead)
      && ValueOk(ms.value) && BlanksOk(ms.after) && MembersOk(ms.rest)
  }

  function Text(v: Value): string {
    match v
    case Str(items) => Quoted(items)
    case Scalar(scalar) => ScalarText(scalar)
    case Arr(blank, elements) => "[" + ((if elements.NoElements? then blank else ElementsText(elements)) + "]")
    case Obj(blank, members) => "{" + ((if members.NoMembers? then blank else MembersText(members)) + "}")
  }

  function ElementsText(es: Elements): string {
    match es
    case NoElements => ""
    case Element(before, value, after, rest) =>
      before + (Text(value) + (after + (if rest.NoElements? then "" else "," + ElementsText(rest))))
  }

  function MembersText(ms: Members): string {
    match ms
    case NoMembers => ""
    case Member(before, name, gap, lead, value, after, rest) =>
      before + (Quoted(name) + (gap + (":" + (lead + (Text(value) + (after
        + (if rest.NoMembers? then "" else "," + MembersText(rest))))))))
  }
}
