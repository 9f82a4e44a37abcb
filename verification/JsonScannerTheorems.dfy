/** On every syntactically valid object text, both scanners return exactly the source of
    the first member with the wanted name. */
module JsonScannerTheorems {
  import opened Wrappers
  import opened Characters
  import opened JsonText
  import opened JsonScanner

  lemma SplitAt(a: string, b: string)
    ensures (a + b)[|a|..] == b && (a + b)[..|a|] == a
  {
  }

  // ---------------------------------------------------------------- strings

  /** A scan inside a string passes over whole items. */
  lemma {:induction false} StringPassesItems(items: seq<Item>, post: string)
    requires ItemsOk(items)
    ensures StringTail(ItemsText(items) + ("\"" + post), false) == Found(|ItemsText(items)| + 1)
    decreases |items|
  {
    if items == [] {
      assert "" + ("\"" + post) == "\"" + post;
    } else {
      var rest := ItemsText(items[1..]) + ("\"" + post);
      StringPassesItems(items[1..], post);
      assert ItemsText(items) + ("\"" + post) == ItemText(items[0]) + rest;
      StringPassesItem(items[0], rest);
    }
  }

  lemma {:induction false} StringPassesPlain(p: string, rest: string)
    requires forall i :: 0 <= i < |p| ==> p[i] != '"' && p[i] != '\\'
    ensures StringTail(p + rest, false) == After(|p|, StringTail(rest, false))
  {
    if p == "" {
      assert p + rest == rest;
    } else {
      StringPassesPlain(p[1..], rest);
      assert (p + rest)[1..] == p[1..] + rest && (p + rest)[0] == p[0];
    }
  }

  /** A backslash and the character it escapes are passed together. */
  lemma StringPassesEscape(c: char, rest: string)
    ensures StringTail(['\\', c] + rest, false) == After(2, StringTail(rest, false))
  {
    var s := ['\\', c] + rest;
    assert s[1..] == [c] + rest && s[1..][1..] == rest;
    assert StringTail(s, false) == After(1, StringTail(s[1..], true));
    assert StringTail(s[1..], true) == After(1, StringTail(s[1..][1..], false));
  }

  lemma StringPassesItem(item: Item, rest: string)
    requires ItemOk(item)
    ensures StringTail(ItemText(item) + rest, false) == After(|ItemText(item)|, StringTail(rest, false))
  {
    match item
    case Plain(c) => StringPassesPlain([c], rest);
    case Escape(c) => StringPassesEscape(c, rest);
    case Hex(d0, d1, d2, d3) =>
      hide StringTail;
      var digits := [d0, d1, d2, d3];
      assert ItemText(item) + rest == ['\\', 'u'] + (digits + rest);
      StringPassesEscape('u', digits + rest);
      StringPassesPlain(digits, rest);
  }

  lemma LengthOfQuoted(items: seq<Item>, post: string)
    requires ItemsOk(items)
    ensures StringLength(Quoted(items) + post) == Found(|Quoted(items)|)
  {
    StringPassesItems(items, post);
    assert (Quoted(items) + post)[1..] == ItemsText(items) + ("\"" + post);
  }

  lemma DecodeOfQuoted(items: seq<Item>)
    requires ItemsOk(items)
    ensures Decode(Quoted(items)) == Some(Name(items))
  {
    hide ParseItems, ItemsText, Name;
    var quoted, text := Quoted(items), ItemsText(items);
    ParseOfItems(items);
    assert quoted == "\"" + (text + "\"") && |quoted| == |text| + 2;
    assert quoted[1..|quoted| - 1] == text;
  }

  // ---------------------------------------------------------------- containers

  /** A container scan outside strings passes over p and is then as it was before. */
  ghost predicate Transparent(p: string) {
    forall stack: string, post: string {:trigger ContainerTail(p + post, stack, false, false)} :: stack != "" ==>
      ContainerTail(p + post, stack, false, false) == After(|p|, ContainerTail(post, stack, false, false))
  }

  lemma PassOver(p: string, stack: string, post: string)
    requires Transparent(p) && stack != ""
    ensures ContainerTail(p + post, stack, false, false) == After(|p|, ContainerTail(post, stack, false, false))
  {
    hide ContainerTail;
  }

  lemma TransparentConcat(p: string, q: string)
    requires Transparent(p) && Transparent(q)
    ensures Transparent(p + q)
  {
    forall stack: string, post: string | stack != ""
      ensures ContainerTail((p + q) + post, stack, false, false)
        == After(|p + q|, ContainerTail(post, stack, false, false))
    {
      assert (p + q) + post == p + (q + post);
      hide ContainerTail, Transparent;
      PassOver(p, stack, q + post);
      PassOver(q, stack, post);
    }
    hide ContainerTail;
  }

  predicate Neutral(c: char) {
    c != '"' && c != '[' && c != ']' && c != '{' && c != '}'
  }

  lemma {:induction false} TransparentNeutral(p: string)
    requires forall i :: 0 <= i < |p| ==> Neutral(p[i])
    ensures Transparent(p)
  {
    if p == "" {
      forall stack: string, post: string | stack != ""
        ensures ContainerTail(p + post, stack, false, false) == After(|p|, ContainerTail(post, stack, false, false))
      {
        assert p + post == post;
      }
      hide ContainerTail;
    } else {
      assert forall i :: 0 <= i < |p[1..]| ==> Neutral(p[1..][i]);
      TransparentNeutral(p[1..]);
      forall stack: string, post: string | stack != ""
        ensures ContainerTail(p + post, stack, false, false) == After(|p|, ContainerTail(post, stack, false, false))
      {
        assert (p + post)[1..] == p[1..] + post && (p + post)[0] == p[0];
        PassOver(p[1..], stack, post);
      }
      hide ContainerTail;
    }
  }

  /** Inside a string, a container scan follows the string scan. */
  lemma {:induction false} ContainerFollowsString(s: string, stack: string, escaped: bool)
    requires StringTail(s, escaped).Found?
    ensures var n := StringTail(s, escaped).n;
      ContainerTail(s, stack, true, escaped) == After(n, ContainerTail(s[n..], stack, false, false))
    decreases |s|
  {
    if !escaped && s[0] == '"' {
      assert StringTail(s, escaped).n == 1;
    } else {
      var e := !escaped && s[0] == '\\';
      ContainerFollowsString(s[1..], stack, e);
      var n := StringTail(s[1..], e).n;
      assert StringTail(s, escaped) == Found(n + 1);
      assert s[n + 1..] == s[1..][n..];
      assert ContainerTail(s, stack, true, escaped) == After(1, ContainerTail(s[1..], stack, true, e));
    }
  }

  lemma TransparentQuoted(items: seq<Item>)
    requires ItemsOk(items)
    ensures Transparent(Quoted(items))
  {
    var p := Quoted(items);
    forall stack: string, post: string | stack != ""
      ensures ContainerTail(p + post, stack, false, false) == After(|p|, ContainerTail(post, stack, false, false))
    {
      var tail := ItemsText(items) + ("\"" + post);
      assert (p + post)[0] == '"' && (p + post)[1..] == tail;
      StringPassesItems(items, post);
      assert tail == (ItemsText(items) + "\"") + post;
      SplitAt(ItemsText(items) + "\"", post);
      ContainerFollowsString(tail, stack, false);
    }
    hide ContainerTail, Quoted;
  }

  lemma TransparentBracketed(open: char, p: string, close: char)
    requires Transparent(p) && (open == '[' || open == '{') && close != open && Opener(close) == open && close in "]}"
    ensures Transparent([open] + (p + [close]))
  {
    forall stack: string, post: string | stack != ""
      ensures ContainerTail(([open] + (p + [close])) + post, stack, false, false)
        == After(|p| + 2, ContainerTail(post, stack, false, false))
    {
      BracketedPasses(open, p, close, stack, post);
    }
    hide ContainerTail;
  }

  lemma BracketedPasses(open: char, p: string, close: char, stack: string, post: string)
    requires Transparent(p) && (open == '[' || open == '{') && Opener(close) == open && close in "]}"
    requires stack != ""
    ensures ContainerTail(([open] + (p + [close])) + post, stack, false, false)
      == After(|p| + 2, ContainerTail(post, stack, false, false))
  {
    var s := ([open] + (p + [close])) + post;
    var inner := [close] + post;
    assert s[1..] == p + inner && s[0] == open;
    assert ContainerTail(s, stack, false, false) == After(1, ContainerTail(p + inner, stack + [open], false, false));
    PassOver(p, stack + [open], inner);
    assert inner[1..] == post;
    assert (stack + [open])[..|stack + [open]| - 1] == stack;
    assert ContainerTail(inner, stack + [open], false, false) == After(1, ContainerTail(post, stack, false, false));
  }

  /** A whole container, scanned from its opening bracket, ends at its closing one. */
  lemma LengthOfBracketed(version: Version, open: char, p: string, close: char, post: string)
    requires Transparent(p) && (open == '[' || open == '{') && Opener(close) == open && close in "]}"
    ensures ValueLength(version, ([open] + (p + [close])) + post) == Found(|p| + 2)
  {
    var s := ([open] + (p + [close])) + post;
    var inner := [close] + post;
    assert s[1..] == p + inner && s[0] == open;
    PassOver(p, [open], inner);
    assert ContainerTail(inner, [open], false, false) == Found(1);
  }

  // ---------------------------------------------------------------- every valid value is transparent

  lemma BlanksAreNeutral(s: string)
    requires BlanksOk(s)
    ensures forall i :: 0 <= i < |s| ==> Neutral(s[i])
  {
  }

  /** What a scalar's text is made of. */
  predicate ScalarChar(c: char) {
    || '0' <= c <= '9' || c == '-' || c == '+' || c == '.' || c == 'e' || c == 'E'
    || c in "truefalsn"
  }

  predicate ScalarChars(s: string) {
    forall i :: 0 <= i < |s| ==> ScalarChar(s[i])
  }

  lemma ScalarConcat(a: string, b: string)
    requires ScalarChars(a) && ScalarChars(b)
    ensures ScalarChars(a + b)
  {
    hide ScalarChar;
  }

  lemma DigitsAreScalar(s: string)
    requires DigitsOk(s)
    ensures ScalarChars(s)
  {
  }

  lemma FractionChars(s: string)
    requires s != "" ==> s[0] == '.' && DigitsOk(s[1..])
    ensures ScalarChars(s)
  {
    if s != "" {
      DigitsAreScalar(s[1..]);
      ScalarConcat(s[..1], s[1..]);
      assert s == s[..1] + s[1..];
    }
  }

  lemma ExponentChars(s: string)
    requires s != "" ==> ExponentOk(s)
    ensures ScalarChars(s)
  {
    if s != "" {
      if DigitsOk(s[1..]) {
        DigitsAreScalar(s[1..]);
        ScalarConcat(s[..1], s[1..]);
        assert s == s[..1] + s[1..];
      } else {
        DigitsAreScalar(s[2..]);
        ScalarConcat(s[..2], s[2..]);
        assert s == s[..2] + s[2..];
      }
    }
  }

  lemma ScalarTextChars(v: Scalar)
    requires ScalarOk(v)
    ensures ScalarText(v) != "" && ScalarChars(ScalarText(v))
  {
    match v
    case Number(negative, whole, fraction, exponent) =>
      assert ScalarChars(if negative then "-" else "") by { hide DigitsOk, ExponentOk; }
      hide ScalarChars;
      DigitsAreScalar(whole);
      FractionChars(fraction);
      ExponentChars(exponent);
      ScalarConcat(fraction, exponent);
      ScalarConcat(whole, fraction + exponent);
      ScalarConcat(if negative then "-" else "", whole + (fraction + exponent));
    case _ =>
  }

  lemma TransparentValue(v: Value)
    requires ValueOk(v)
    ensures Transparent(Text(v))
  {
    hide Transparent;
    match v
    case Str(items) => TransparentQuoted(items);
    case Scalar(scalar) =>
      ScalarTextChars(scalar);
      TransparentNeutral(ScalarText(scalar));
    case Arr(blank, elements) =>
      TransparentInside(v);
      TransparentBracketed('[', Inside(v), ']');
    case Obj(blank, members) =>
      TransparentInside(v);
      TransparentBracketed('{', Inside(v), '}');
  }

  /** The text between a container's brackets. */
  function Inside(v: Value): string
    requires v.Arr? || v.Obj?
  {
    match v
    case Arr(blank, elements) => if elements.NoElements? then blank else ElementsText(elements)
    case Obj(blank, members) => if members.NoMembers? then blank else MembersText(members)
  }

  lemma TransparentInside(v: Value)
    requires (v.Arr? || v.Obj?) && ValueOk(v)
    ensures Transparent(Inside(v))
    decreases v, 0
  {
    hide Transparent;
    match v
    case Arr(blank, elements) =>
      BlanksAreNeutral(blank);
      TransparentNeutral(blank);
      TransparentElements(elements);
    case Obj(blank, members) =>
      BlanksAreNeutral(blank);
      TransparentNeutral(blank);
      TransparentMembers(members);
  }

  lemma TransparentBlanks(s: string)
    requires BlanksOk(s)
    ensures Transparent(s)
  {
    hide Transparent;
    BlanksAreNeutral(s);
    TransparentNeutral(s);
  }

  lemma TransparentElements(es: Elements)
    requires ElementsOk(es)
    ensures Transparent(ElementsText(es))
  {
    hide Transparent;
    match es
    case NoElements => TransparentNeutral("");
    case Element(before, value, after, rest) =>
      TransparentElements(rest);
      TransparentNeutral(",");
      TransparentNeutral("");
      TransparentConcat(",", ElementsText(rest));
      var tail := if rest.NoElements? then "" else "," + ElementsText(rest);
      TransparentBlanks(after);
      TransparentConcat(after, tail);
      TransparentValue(value);
      TransparentConcat(Text(value), after + tail);
      TransparentBlanks(before);
      TransparentConcat(before, Text(value) + (after + tail));
  }

  lemma TransparentMembers(ms: Members)
    requires MembersOk(ms)
    ensures Transparent(MembersText(ms))
  {
    hide Transparent;
    match ms
    case NoMembers => TransparentNeutral("");
    case Member(before, name, gap, lead, value, after, rest) =>
      TransparentMembers(rest);
      TransparentNeutral(",");
      TransparentNeutral("");
      TransparentConcat(",", MembersText(rest));
      var t0 := if rest.NoMembers? then "" else "," + MembersText(rest);
      TransparentBlanks(after);
      TransparentConcat(after, t0);
      var t1 := after + t0;
      TransparentValue(value);
      TransparentConcat(Text(value), t1);
      var t2 := Text(value) + t1;
      TransparentBlanks(lead);
      TransparentConcat(lead, t2);
      var t3 := lead + t2;
      TransparentNeutral(":");
      TransparentConcat(":", t3);
      var t4 := ":" + t3;
      TransparentBlanks(gap);
      TransparentConcat(gap, t4);
      var t5 := gap + t4;
      TransparentQuoted(name);
      TransparentConcat(Quoted(name), t5);
      TransparentBlanks(before);
      TransparentConcat(before, Quoted(name) + t5);
  }

  // ---------------------------------------------------------------- one member

  lemma {:induction false} BlanksOf(b: string, rest: string)
    requires BlanksOk(b) && (rest == "" || !IsBlank(rest[0]))
    ensures Blanks(b + rest) == |b| && (b + rest)[|b|..] == rest
  {
    if b == "" {
      assert b + rest == rest;
    } else {
      BlanksOf(b[1..], rest);
      assert (b + rest)[1..] == b[1..] + rest && (b + rest)[0] == b[0];
    }
  }

  lemma {:induction false} ScalarRun(version: Version, p: string, rest: string)
    requires forall i :: 0 <= i < |p| ==> !Stops(version, p[i])
    requires rest != "" && Stops(version, rest[0])
    ensures ScalarLength(version, p + rest) == |p|
  {
    if p == "" {
      assert p + rest == rest;
    } else {
      ScalarRun(version, p[1..], rest);
      assert (p + rest)[1..] == p[1..] + rest && (p + rest)[0] == p[0];
    }
  }

  lemma StartOfValue(v: Value)
    requires ValueOk(v)
    ensures Text(v) != "" && !IsBlank(Text(v)[0])
    ensures v.Scalar? ==> Text(v)[0] !in "\"[{"
  {
    if v.Scalar? {
      ScalarTextChars(v.scalar);
    }
  }

  /** What a scanner takes for the value: a scalar's slice also holds the blanks after it. */
  function Source(v: Value, after: string): string {
    if v.Scalar? then Text(v) + after else Text(v)
  }

  lemma LengthOfScalar(version: Version, v: Value, after: string, separator: string)
    requires v.Scalar? && ValueOk(v) && BlanksOk(after) && separator != "" && separator[0] in ",}"
    ensures ValueLength(version, Text(v) + (after + separator)) == Found(|Text(v)| + |after|)
  {
    StartOfValue(v);
    ScalarTextChars(v.scalar);
    var p := Text(v) + after;
    assert Text(v) + (after + separator) == p + separator;
    assert forall i :: 0 <= i < |after| ==> !Stops(version, after[i]);
    assert forall i :: 0 <= i < |Text(v)| ==> !Stops(version, Text(v)[i]);
    hide Stops, ScalarChars;
    assert forall i :: 0 <= i < |p| ==> !Stops(version, p[i]);
    assert Stops(version, separator[0]) by { CommaStops(version); }
    ScalarRun(version, p, separator);
  }

  lemma CommaStops(version: Version)
    ensures Stops(version, ',') && Stops(version, '}')
  {
  }

  lemma LengthOfValue(version: Version, v: Value, after: string, separator: string)
    requires ValueOk(v) && BlanksOk(after) && separator != "" && separator[0] in ",}"
    ensures ValueLength(version, Text(v) + (after + separator)) == Found(|Source(v, after)|)
  {
    match v
    case Str(items) => LengthOfQuoted(items, after + separator);
    case Scalar(scalar) => LengthOfScalar(version, v, after, separator);
    case Arr(blank, elements) =>
      TransparentInside(v);
      hide Transparent, ValueLength;
      LengthOfBracketed(version, '[', Inside(v), ']', after + separator);
    case Obj(blank, members) =>
      TransparentInside(v);
      hide Transparent, ValueLength;
      LengthOfBracketed(version, '{', Inside(v), '}', after + separator);
  }

  /** Reading one member of a valid text. */
  lemma ReadMemberOf(version: Version, ms: Members, separator: string)
    requires ms.Member? && MembersOk(ms) && separator != "" && separator[0] in ",}"
    ensures ReadMember(version, MemberThen(ms, separator))
      == Entry(Name(ms.name), Source(ms.value, ms.after), if ms.value.Scalar? then separator else ms.after + separator)
  {
    var t1 := ms.after + separator;
    var t2 := Text(ms.value) + t1;
    var t3 := ":" + (ms.lead + t2);
    var t4 := ms.gap + t3;
    BlanksOf(ms.before, Quoted(ms.name) + t4);
    ReadNameOf(ms.name, t4);
    BlanksOf(ms.gap, t3);
    ReadValueOf(version, Name(ms.name), ms.lead, ms.value, ms.after, separator);
    hide ReadName, ReadValue, Blanks, Quoted, Text;
  }

  /** A member's text, and then more. */
  function MemberThen(ms: Members, more: string): string
    requires ms.Member?
  {
    ms.before + (Quoted(ms.name) + (ms.gap + (":" + (ms.lead + (Text(ms.value) + (ms.after + more))))))
  }

  lemma ReadNameOf(name: seq<Item>, rest: string)
    requires ItemsOk(name)
    ensures ReadName(Quoted(name) + rest) == Entry(Name(name), Quoted(name), rest)
  {
    LengthOfQuoted(name, rest);
    DecodeOfQuoted(name);
    SplitAt(Quoted(name), rest);
    assert (Quoted(name) + rest)[0] == '"';
    hide Quoted, Decode, StringLength;
  }

  lemma ReadValueOf(version: Version, name: seq<nat>, lead: string, v: Value, after: string, separator: string)
    requires BlanksOk(lead) && ValueOk(v) && BlanksOk(after) && separator != "" && separator[0] in ",}"
    ensures ReadValue(version, name, ":" + (lead + (Text(v) + (after + separator))))
      == Entry(name, Source(v, after), if v.Scalar? then separator else after + separator)
  {
    hide Blanks, ValueLength, Text;
    var t2 := Text(v) + (after + separator);
    StartOfValue(v);
    BlanksOf(lead, t2);
    LengthOfValue(version, v, after, separator);
    assert (":" + (lead + t2))[1..] == lead + t2;
    if v.Scalar? {
      assert t2 == (Text(v) + after) + separator;
      SplitAt(Text(v) + after, separator);
    } else {
      SplitAt(Text(v), after + separator);
    }
  }

  // ---------------------------------------------------------------- every member

  /** The source of the first member with this name. */
  function FirstMember(ms: Members, target: seq<nat>): Outcome
    requires MembersOk(ms)
  {
    match ms
    case NoMembers => Schema
    case Member(_, name, _, _, value, after, rest) =>
      if Name(name) == target then Raw(Source(value, after)) else FirstMember(rest, target)
  }

  /** What follows a member inside its object. */
  function Separated(rest: Members, trail: string): string {
    if rest.NoMembers? then "}" + trail else "," + (MembersText(rest) + ("}" + trail))
  }

  function More(rest: Members): string {
    if rest.NoMembers? then "" else "," + MembersText(rest)
  }

  lemma MembersTextIs(ms: Members)
    requires ms.Member?
    ensures MembersText(ms) == MemberThen(ms, More(ms.rest))
  {
    hide Text, Quoted;
  }

  lemma MoreIsSeparated(rest: Members, trail: string)
    ensures More(rest) + ("}" + trail) == Separated(rest, trail)
  {
    hide MembersText;
  }

  lemma MemberTextIs(ms: Members, trail: string)
    requires ms.Member?
    ensures MembersText(ms) + ("}" + trail) == MemberThen(ms, Separated(ms.rest, trail))
  {
    hide *;
    MembersTextIs(ms);
    MoreIsSeparated(ms.rest, trail);
    MemberThenConcat(ms, More(ms.rest), "}" + trail);
  }

  lemma MemberThenConcat(ms: Members, more: string, end: string)
    requires ms.Member?
    ensures MemberThen(ms, more) + end == MemberThen(ms, more + end)
  {
    hide Text, Quoted;
    var t0 := ms.after + more;
    assert t0 + end == ms.after + (more + end);
    var t1 := Text(ms.value) + t0;
    assert t1 + end == Text(ms.value) + (t0 + end);
    var t2 := ms.lead + t1;
    assert t2 + end == ms.lead + (t1 + end);
    var t3 := ":" + t2;
    assert t3 + end == ":" + (t2 + end);
    var t4 := ms.gap + t3;
    assert t4 + end == ms.gap + (t3 + end);
    var t5 := Quoted(ms.name) + t4;
    assert t5 + end == Quoted(ms.name) + (t4 + end);
    assert (ms.before + t5) + end == ms.before + (t5 + end);
  }

  lemma SeparatorIs(rest: Members, trail: string)
    ensures var s := Separated(rest, trail);
      && s != "" && s[0] in ",}" && !IsBlank(s[0])
      && (s[0] == ',' <==> rest.Member?)
      && (rest.Member? ==> s[1..] == MembersText(rest) + ("}" + trail))
  {
    hide MembersText;
  }

  /** Extraction after a member that has been read. */
  lemma ExtractStep(version: Version, text: string, target: seq<nat>, blanks: string, separator: string)
    requires BlanksOk(blanks) && separator != "" && !IsBlank(separator[0]) && separator[0] in ",}"
    ensures var e := ReadMember(version, text); e.Entry? && e.rest == blanks + separator ==>
      ExtractMember(version, text, target)
        == if e.name == target then Raw(e.source)
           else if separator[0] == ',' then ExtractMember(version, separator[1..], target)
           else Schema
  {
    hide ReadMember, Blanks;
    BlanksOf(blanks, separator);
  }

  lemma {:induction false} ExtractFromMembers(version: Version, ms: Members, trail: string, target: seq<nat>)
    requires ms.Member? && MembersOk(ms)
    ensures ExtractMember(version, MembersText(ms) + ("}" + trail), target) == FirstMember(ms, target)
  {
    hide ReadMember, ExtractMember, Blanks, MembersText, MemberThen, Name, Source, Separated, BlanksOk, ItemsOk;
    var separator := Separated(ms.rest, trail);
    SeparatorIs(ms.rest, trail);
    MemberTextIs(ms, trail);
    ReadMemberOf(version, ms, separator);
    NoBlanks(separator);
    ExtractStep(version, MembersText(ms) + ("}" + trail), target, if ms.value.Scalar? then "" else ms.after, separator);
    if ms.rest.Member? {
      ExtractFromMembers(version, ms.rest, trail, target);
    }
  }

  lemma NoBlanks(s: string)
    ensures "" + s == s && BlanksOk("")
  {
  }

  /** On every valid object text, with blanks around it, both scanners return exactly the
      source of the first member with the target name, or report that there is none. */
  lemma ExtractIsExact(version: Version, before: string, envelope: Value, trail: string, target: seq<nat>)
    requires envelope.Obj? && ValueOk(envelope) && BlanksOk(before) && BlanksOk(trail)
    ensures Extract(version, before + (Text(envelope) + trail), target) == FirstMember(envelope.members, target)
  {
    var ms := envelope.members;
    var inside := if ms.NoMembers? then envelope.blank else MembersText(ms);
    var body := inside + ("}" + trail);
    assert Text(envelope) + trail == "{" + body;
    BlanksOf(before, "{" + body);
    assert ("{" + body)[1..] == body;
    if ms.NoMembers? {
      BlanksOf(envelope.blank, "}" + trail);
    } else {
      ExtractFromMembers(version, ms, trail, target);
    }
    hide Blanks, MembersText, Text;
  }

  /** With distinct names, it is the source of the member itself, whichever it is. */
  ghost predicate IsMember(ms: Members, name: seq<nat>, source: string)
    requires MembersOk(ms)
  {
    ms.Member? && ((Name(ms.name) == name && Source(ms.value, ms.after) == source) || IsMember(ms.rest, name, source))
  }

  ghost predicate DistinctNames(ms: Members)
    requires MembersOk(ms)
  {
    ms.Member? ==> (forall source :: !IsMember(ms.rest, Name(ms.name), source)) && DistinctNames(ms.rest)
  }

  lemma {:induction false} MemberIsFirst(ms: Members, name: seq<nat>, source: string)
    requires MembersOk(ms) && DistinctNames(ms)
    ensures FirstMember(ms, name) == Raw(source) <==> IsMember(ms, name, source)
    decreases ms
  {
    if ms.Member? {
      MemberIsFirst(ms.rest, name, source);
    }
  }

  // ---------------------------------------------------------------- the two versions

  /** A closing square bracket comes before any comma or closing brace. */
  ghost predicate BracketFirst(s: string) {
    exists i :: 0 <= i < |s| && s[i] == ']' && forall j :: 0 <= j < i ==> s[j] != ',' && s[j] != '}'
  }

  lemma {:induction false} ScalarLengthsAgree(s: string)
    ensures ScalarLength(AuthorizationScanner, s) == ScalarLength(WrapperScanner, s) <==> !BracketFirst(s)
  {
    if s != "" {
      ScalarLengthsAgree(s[1..]);
      if s[0] == ']' {
        assert BracketFirst(s);
      } else if s[0] != ',' && s[0] != '}' {
        if BracketFirst(s[1..]) {
          var i :| 0 <= i < |s[1..]| && s[1..][i] == ']'
            && forall j :: 0 <= j < i ==> s[1..][j] != ',' && s[1..][j] != '}';
          assert s[i + 1] == ']' && forall j :: 0 <= j < i + 1 ==> s[j] == if j == 0 then s[0] else s[1..][j - 1];
        }
        if BracketFirst(s) {
          var i :| 0 <= i < |s| && s[i] == ']' && forall j :: 0 <= j < i ==> s[j] != ',' && s[j] != '}';
          assert s[1..][i - 1] == ']' && forall j :: 0 <= j < i - 1 ==> s[1..][j] == s[j + 1];
        }
      }
    }
  }

  /** For every text, valid or not, the two versions find the same end of a value except
      when it starts like a scalar and `]` comes before any `,` or `}`. */
  lemma VersionsAgreeIff(s: string)
    ensures ValueLength(AuthorizationScanner, s) == ValueLength(WrapperScanner, s)
      <==> (s != "" && s[0] !in "\"[{" ==> !BracketFirst(s))
  {
    ScalarLengthsAgree(s);
  }

  /** The wrapper version took a scalar that has a closing square bracket in it. */
  predicate TookBracket(source: string) {
    source != "" && source[0] !in "\"[{" && ']' in source
  }

  /** Where the two extractions part: at the first member, on the way the wrapper version
      takes, whose scalar has a bracket in it, if that member is the target or the wrapper
      version gets through the rest without an error. */
  predicate Parts(text: string, target: seq<nat>)
    decreases |text|
  {
    match ReadMember(WrapperScanner, text)
    case Entry(name, source, rest) =>
      if TookBracket(source) then name == target || ExtractMember(WrapperScanner, text, target) != InvalidJson
      else if name == target then false
      else
        var s := rest[Blanks(rest)..];
        s != "" && s[0] == ',' && Parts(s[1..], target)
    case _ => false
  }

  /** How the two lengths of a scalar compare. */
  lemma {:induction false} ScalarLengths(s: string)
    ensures var a, w := ScalarLength(AuthorizationScanner, s), ScalarLength(WrapperScanner, s);
      && a <= w
      && (a < w <==> ']' in s[..w])
      && (a < w ==> s[a] == ']')
  {
    if s != "" && !Stops(WrapperScanner, s[0]) {
      ScalarLengths(s[1..]);
      var w := ScalarLength(WrapperScanner, s);
      assert s[..w] == [s[0]] + s[1..][..w - 1];
    }
  }

  /** Values are cut alike unless the wrapper version takes a bracket; then the authorization
      version stops at it. */
  lemma ValuesCompare(s: string)
    ensures ValueLength(AuthorizationScanner, s).Failed? <==> ValueLength(WrapperScanner, s).Failed?
    ensures ValueLength(WrapperScanner, s).Found? ==>
      var a, w := ValueLength(AuthorizationScanner, s).n, ValueLength(WrapperScanner, s).n;
      if TookBracket(s[..w]) then a < w && s[a] == ']' else a == w
  {
    hide StringLength, ContainerTail, ScalarLength;
    ScalarLengths(s);
    if ValueLength(WrapperScanner, s).Found? {
      var w := ValueLength(WrapperScanner, s).n;
      assert w > 0 ==> s[..w][0] == s[0];
    }
  }

  /** Members are read alike unless the wrapper version takes a bracket; then the
      authorization version has another source and stands before the bracket. */
  lemma MembersCompare(text: string)
    ensures var a, w := ReadMember(AuthorizationScanner, text), ReadMember(WrapperScanner, text);
      if w.Entry? && TookBracket(w.source)
      then a.Entry? && a.name == w.name && a.source != w.source && a.rest != "" && a.rest[0] == ']'
      else a == w
  {
    hide ReadName, Blanks, ValueLength, TookBracket;
    var e := ReadName(text[Blanks(text)..]);
    if e.Entry? {
      MemberValuesCompare(e.name, e.rest[Blanks(e.rest)..]);
    }
  }

  lemma MemberValuesCompare(name: seq<nat>, s: string)
    ensures var a, w := ReadValue(AuthorizationScanner, name, s), ReadValue(WrapperScanner, name, s);
      if w.Entry? && TookBracket(w.source)
      then a.Entry? && a.name == w.name && a.source != w.source && a.rest != "" && a.rest[0] == ']'
      else a == w
  {
    hide Blanks, ValueLength, TookBracket;
    if s != "" && s[0] == ':' {
      var v := s[1..][Blanks(s[1..])..];
      ValuesCompare(v);
    }
  }

  lemma BracketIsNotBlank(s: string)
    requires s != "" && s[0] == ']'
    ensures Blanks(s) == 0 && s[0..] == s
  {
  }

  /** From any member on. */
  lemma {:induction false} ExtractMembersAgreeIff(text: string, target: seq<nat>)
    ensures ExtractMember(AuthorizationScanner, text, target) == ExtractMember(WrapperScanner, text, target)
      <==> !Parts(text, target)
    decreases |text|
  {
    hide ReadMember, TookBracket, Blanks;
    MembersCompare(text);
    var a, w := ReadMember(AuthorizationScanner, text), ReadMember(WrapperScanner, text);
    if w.Entry? {
      if TookBracket(w.source) {
        BracketIsNotBlank(a.rest);
      } else {
        var s := w.rest[Blanks(w.rest)..];
        if s != "" && s[0] == ',' {
          ExtractMembersAgreeIff(s[1..], target);
        }
      }
    }
  }

  /** For every text, valid or not, and every target: the two versions have the same outcome
      exactly when the text starts with an object and their extractions do not part. */
  lemma ExtractionsAgreeIff(text: string, target: seq<nat>)
    ensures Extract(AuthorizationScanner, text, target) == Extract(WrapperScanner, text, target)
      <==> (var s := text[Blanks(text)..]; s != "" && s[0] == '{' && !Parts(s[1..], target))
  {
    hide Parts, ExtractMember, Blanks;
    var s := text[Blanks(text)..];
    if s != "" && s[0] == '{' {
      ExtractMembersAgreeIff(s[1..], target);
    }
  }
}
