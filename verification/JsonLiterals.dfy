/** String literals of any code points, lone surrogates included: what the ASCII printer
    writes for them and exactly which of them it gives back. */
module JsonLiterals {
  import opened Wrappers
  import opened JsonText
  import Json

  type CodePoint = n: nat | n < 0x11_0000

  predicate IsHigh(n: nat) {
    0xD800 <= n < 0xDC00
  }

  predicate IsLow(n: nat) {
    0xDC00 <= n < 0xE000
  }

  function HexItem(unit: nat): (item: Item)
    requires unit < 0x1_0000
    ensures ItemOk(item)
  {
    Hex(Json.HexChar(unit / 0x1000), Json.HexChar(unit / 0x100 % 0x10), Json.HexChar(unit / 0x10 % 0x10),
        Json.HexChar(unit % 0x10))
  }

  /** The code units of one code point. */
  function UnitsOf(n: CodePoint): seq<nat> {
    if n < 0x1_0000 then [n] else [0xD800 + (n - 0x1_0000) / 0x400, 0xDC00 + (n - 0x1_0000) % 0x400]
  }

  /** How one code point is written: itself, an escape, or escaped code units. */
  function ItemsOf(n: CodePoint): (items: seq<Item>)
    ensures ItemsOk(items)
  {
    if n == '"' as int then [Escape('"')]
    else if n == '\\' as int then [Escape('\\')]
    else if n == 10 then [Escape('n')]
    else if n == 13 then [Escape('r')]
    else if n == 9 then [Escape('t')]
    else if n == 8 then [Escape('b')]
    else if n == 12 then [Escape('f')]
    else if 32 <= n <= 126 then [Plain(n as char)]
    else if n < 0x1_0000 then [HexItem(n)]
    else [HexItem(UnitsOf(n)[0]), HexItem(UnitsOf(n)[1])]
  }

  function LiteralItems(s: seq<CodePoint>): (items: seq<Item>)
    ensures ItemsOk(items)
  {
    if s == [] then [] else ItemsOf(s[0]) + LiteralItems(s[1..])
  }

  function Utf16(s: seq<CodePoint>): seq<nat> {
    if s == [] then [] else UnitsOf(s[0]) + Utf16(s[1..])
  }

  // ---------------------------------------------------------------- what the literal denotes

  lemma UnitOfHexItem(unit: nat)
    requires unit < 0x1_0000
    ensures Unit(HexItem(unit)) == unit
  {
    Json.HexDigitsOf(unit);
    Json.HexOfChar(unit / 0x1000);
    Json.HexOfChar(unit / 0x100 % 0x10);
    Json.HexOfChar(unit / 0x10 % 0x10);
    Json.HexOfChar(unit % 0x10);
  }

  lemma UnitsOfItems(n: CodePoint)
    ensures Units(ItemsOf(n)) == UnitsOf(n)
  {
    hide HexItem;
    if n < 0x1_0000 {
      UnitOfHexItem(n);
    } else {
      UnitOfHexItem(UnitsOf(n)[0]);
      UnitOfHexItem(UnitsOf(n)[1]);
    }
  }

  lemma UnitsConcat(a: seq<Item>, b: seq<Item>)
    requires ItemsOk(a) && ItemsOk(b)
    ensures ItemsOk(a + b) && Units(a + b) == Units(a) + Units(b)
  {
    hide ItemOk, Unit;
  }

  lemma {:induction false} UnitsOfLiteral(s: seq<CodePoint>)
    ensures Units(LiteralItems(s)) == Utf16(s)
  {
    hide ItemsOf, UnitsOf, Units, ItemsOk;
    if s == [] {
      NoUnits();
    } else {
      UnitsOfLiteral(s[1..]);
      UnitsOfItems(s[0]);
      UnitsConcat(ItemsOf(s[0]), LiteralItems(s[1..]));
    }
  }

  lemma NoUnits()
    ensures ItemsOk([]) && Units([]) == []
  {
  }

  /** A high surrogate code point directly before a low one. */
  ghost predicate HasSplitPair(s: seq<CodePoint>) {
    exists i :: 0 <= i < |s| - 1 && IsHigh(s[i]) && IsLow(s[i + 1])
  }

  lemma SplitPairUnfolds(s: seq<CodePoint>)
    requires s != []
    ensures HasSplitPair(s) <==> (|s| >= 2 && IsHigh(s[0]) && IsLow(s[1])) || HasSplitPair(s[1..])
  {
    hide IsHigh, IsLow;
    if HasSplitPair(s[1..]) {
      var i :| 0 <= i < |s[1..]| - 1 && IsHigh(s[1..][i]) && IsLow(s[1..][i + 1]);
      assert IsHigh(s[i + 1]) && IsLow(s[i + 2]);
    }
    if HasSplitPair(s) {
      var i :| 0 <= i < |s| - 1 && IsHigh(s[i]) && IsLow(s[i + 1]);
      assert i > 0 ==> s[1..][i - 1] == s[i] && s[1..][i] == s[i + 1];
    }
  }

  /** Only a low surrogate code point starts with a low unit. */
  lemma FirstUnit(s: seq<CodePoint>)
    ensures Utf16(s) == [] <==> s == []
    ensures s != [] ==> (IsLow(Utf16(s)[0]) <==> IsLow(s[0]))
  {
  }

  lemma {:induction false} CodePointsOfUnits(s: seq<CodePoint>)
    ensures CodePoints(Utf16(s)) == s <==> !HasSplitPair(s)
  {
    if s != [] {
      CodePointsOfUnits(s[1..]);
      SplitPairUnfolds(s);
      FirstUnit(s[1..]);
      var rest := Utf16(s[1..]);
      assert s == [s[0]] + s[1..];
      if s[0] >= 0x1_0000 {
        assert Utf16(s)[2..] == rest;
        assert CodePoints(Utf16(s)) == [s[0]] + CodePoints(rest);
        assert CodePoints(Utf16(s))[1..] == CodePoints(rest);
      } else if IsHigh(s[0]) && |s| >= 2 && IsLow(s[1]) {
        assert CodePoints(Utf16(s))[0] >= 0x1_0000;
      } else {
        assert Utf16(s)[1..] == rest;
        assert CodePoints(Utf16(s)) == [s[0]] + CodePoints(rest);
        assert CodePoints(Utf16(s))[1..] == CodePoints(rest);
      }
    }
  }

  /** Printing a string and decoding the literal gives the string back exactly when no high
      surrogate stands directly before a low one. */
  lemma LiteralRoundTripIff(s: seq<CodePoint>)
    ensures ParseItems(ItemsText(LiteralItems(s))) == Some(LiteralItems(s))
    ensures Name(LiteralItems(s)) == s <==> !HasSplitPair(s)
  {
    ParseOfItems(LiteralItems(s));
    UnitsOfLiteral(s);
    hide LiteralItems, Utf16, Units, CodePoints, HasSplitPair;
    CodePointsOfUnits(s);
  }

  // ---------------------------------------------------------------- the same printer

  function Codes(s: string): (r: seq<CodePoint>)
    ensures |r| == |s|
  {
    seq(|s|, i requires 0 <= i < |s| => s[i] as int)
  }

  lemma {:induction false} ItemsTextConcat(a: seq<Item>, b: seq<Item>)
    ensures ItemsText(a + b) == ItemsText(a) + ItemsText(b)
    decreases |a|
  {
    hide ItemText;
    if a == [] {
      assert a + b == b;
    } else {
      ItemsTextConcat(a[1..], b);
      assert (a + b)[1..] == a[1..] + b && (a + b)[0] == a[0];
      assert ItemsText(a + b) == ItemText(a[0]) + ItemsText(a[1..] + b);
      assert ItemsText(a) == ItemText(a[0]) + ItemsText(a[1..]);
    }
  }

  lemma OneItem(item: Item)
    ensures ItemsText([item]) == ItemText(item)
  {
    assert [item][1..] == [] && ItemsText([]) == "";
  }

  lemma TwoItems(a: Item, b: Item)
    ensures ItemsText([a, b]) == ItemText(a) + ItemText(b)
  {
    OneItem(a);
    OneItem(b);
    ItemsTextConcat([a], [b]);
    assert [a] + [b] == [a, b];
  }

  lemma CharPrintsAsItems(c: char)
    ensures ItemsText(ItemsOf(c as int)) == Json.PrintChar(c)
  {
    hide ItemsText;
    var items := ItemsOf(c as int);
    if |items| == 1 {
      OneItem(items[0]);
    } else {
      TwoItems(items[0], items[1]);
    }
  }

  /** On strings without surrogates this is the printer of stored and signed documents. */
  lemma {:induction false} PrintsAlike(s: string)
    ensures ItemsText(LiteralItems(Codes(s))) == Json.PrintChars(s)
  {
    hide ItemsOf, ItemsText, Json.PrintChar;
    if s == "" {
      assert Codes(s) == [];
      NoText();
    } else {
      PrintsAlike(s[1..]);
      CharPrintsAsItems(s[0]);
      assert Codes(s)[1..] == Codes(s[1..]);
      ItemsTextConcat(ItemsOf(s[0] as int), LiteralItems(Codes(s[1..])));
    }
  }

  lemma NoText()
    ensures ItemsText([]) == ""
  {
  }
}
