/** What the scanners find on any text at all, valid or not: the ends of strings and
    containers by their shape, and the members on the way to a target. */
module JsonScannerShape {
  import opened Wrappers
  import opened Characters
  import opened JsonScanner
  import opened JsonScannerTheorems

  // ---------------------------------------------------------------- strings

  /** Between the quotes: characters, and escapes of any character. */
  datatype Piece = Plain(c: char) | Escaped(c: char)

  predicate PieceOk(p: Piece) {
    p.Plain? ==> p.c != '"' && p.c != '\\'
  }

  predicate PiecesOk(pieces: seq<Piece>) {
    forall i :: 0 <= i < |pieces| ==> PieceOk(pieces[i])
  }

  function PieceText(p: Piece): string {
    match p
    case Plain(c) => [c]
    case Escaped(c) => ['\\', c]
  }

  function PiecesText(pieces: seq<Piece>): string {
    if pieces == [] then "" else PieceText(pieces[0]) + PiecesText(pieces[1..])
  }

  /** A string literal: quotes around pieces. */
  ghost predicate IsLiteral(s: string) {
    exists pieces :: PiecesOk(pieces) && s == "\"" + (PiecesText(pieces) + "\"")
  }

  lemma {:induction false} PiecesPass(pieces: seq<Piece>, post: string)
    requires PiecesOk(pieces)
    ensures StringTail(PiecesText(pieces) + ("\"" + post), false) == Found(|PiecesText(pieces)| + 1)
    decreases |pieces|
  {
    if pieces == [] {
      assert "" + ("\"" + post) == "\"" + post;
    } else {
      var rest := PiecesText(pieces[1..]) + ("\"" + post);
      PiecesPass(pieces[1..], post);
      assert PiecesText(pieces) + ("\"" + post) == PieceText(pieces[0]) + rest;
      if pieces[0].Plain? {
        StringPassesPlain([pieces[0].c], rest);
      } else {
        StringPassesEscape(pieces[0].c, rest);
      }
    }
  }

  /** The pieces that a scan inside a string has passed. */
  lemma {:induction false} PiecesOf(s: string) returns (pieces: seq<Piece>)
    requires StringTail(s, false).Found?
    ensures PiecesOk(pieces) && s[..StringTail(s, false).n] == PiecesText(pieces) + "\""
    decreases |s|
  {
    if s[0] == '"' {
      pieces := [];
      assert PiecesText([]) == "";
    } else if s[0] == '\\' {
      assert StringTail(s, false) == After(1, StringTail(s[1..], true)) && s[1..] != "";
      assert StringTail(s[1..], true) == After(1, StringTail(s[1..][1..], false)) && s[1..][1..] == s[2..];
      var more := PiecesOf(s[2..]);
      pieces := [Escaped(s[1])] + more;
      assert s[..StringTail(s, false).n] == ['\\', s[1]] + s[2..][..StringTail(s[2..], false).n];
      assert PiecesText(pieces) == ['\\', s[1]] + PiecesText(more);
    } else {
      var more := PiecesOf(s[1..]);
      pieces := [Plain(s[0])] + more;
      assert s[..StringTail(s, false).n] == [s[0]] + s[1..][..StringTail(s[1..], false).n];
      assert PiecesText(pieces) == [s[0]] + PiecesText(more);
    }
  }

  /** On every text: the end found for a string is the end of the one literal it starts with. */
  lemma StringEndIff(s: string, n: nat)
    ensures StringLength(s) == Found(n) <==> n <= |s| && IsLiteral(s[..n])
  {
    if StringLength(s) == Found(n) {
      var pieces := PiecesOf(s[1..]);
      assert s[..n] == "\"" + s[1..][..n - 1];
    }
    if n <= |s| && IsLiteral(s[..n]) {
      var pieces :| PiecesOk(pieces) && s[..n] == "\"" + (PiecesText(pieces) + "\"");
      PiecesPass(pieces, s[n..]);
      assert s == s[..n] + s[n..];
      assert s[1..] == PiecesText(pieces) + ("\"" + s[n..]);
    }
  }

  // ---------------------------------------------------------------- containers

  /** A bracketed text: brackets match, and brackets inside strings are only characters. */
  datatype Lex = Other(c: char) | Str(pieces: seq<Piece>) | Nest(open: char, inner: seq<Lex>)

  function Closer(open: char): char {
    if open == '[' then ']' else '}'
  }

  predicate LexOk(t: Lex) {
    match t
    case Other(c) => c != '"' && c != '[' && c != ']' && c != '{' && c != '}'
    case Str(pieces) => PiecesOk(pieces)
    case Nest(open, inner) => (open == '[' || open == '{') && forall i :: 0 <= i < |inner| ==> LexOk(inner[i])
  }

  function LexText(t: Lex): string
    decreases t
  {
    match t
    case Other(c) => [c]
    case Str(pieces) => "\"" + (PiecesText(pieces) + "\"")
    case Nest(open, inner) => [open] + (LexesText(inner) + [Closer(open)])
  }

  function LexesText(ts: seq<Lex>): string
    decreases ts
  {
    if ts == [] then "" else LexText(ts[0]) + LexesText(ts[1..])
  }

  ghost predicate IsBracketed(s: string) {
    exists t: Lex :: t.Nest? && LexOk(t) && s == LexText(t)
  }

  lemma TransparentString(pieces: seq<Piece>)
    requires PiecesOk(pieces)
    ensures Transparent("\"" + (PiecesText(pieces) + "\""))
  {
    var p := "\"" + (PiecesText(pieces) + "\"");
    forall stack: string, post: string | stack != ""
      ensures ContainerTail(p + post, stack, false, false) == After(|p|, ContainerTail(post, stack, false, false))
    {
      var tail := PiecesText(pieces) + ("\"" + post);
      assert (p + post)[0] == '"' && (p + post)[1..] == tail;
      PiecesPass(pieces, post);
      assert tail == (PiecesText(pieces) + "\"") + post;
      SplitAt(PiecesText(pieces) + "\"", post);
      ContainerFollowsString(tail, stack, false);
    }
    hide ContainerTail;
  }

  lemma {:induction false} TransparentLex(t: Lex)
    requires LexOk(t)
    ensures Transparent(LexText(t))
    decreases t
  {
    match t
    case Other(c) => TransparentNeutral([c]);
    case Str(pieces) => TransparentString(pieces);
    case Nest(open, inner) =>
      TransparentLexes(inner);
      TransparentBracketed(open, LexesText(inner), Closer(open));
  }

  lemma {:induction false} TransparentLexes(ts: seq<Lex>)
    requires forall i :: 0 <= i < |ts| ==> LexOk(ts[i])
    ensures Transparent(LexesText(ts))
    decreases ts
  {
    hide Transparent;
    if ts == [] {
      TransparentNeutral("");
    } else {
      TransparentLex(ts[0]);
      TransparentLexes(ts[1..]);
      TransparentConcat(LexText(ts[0]), LexesText(ts[1..]));
    }
  }

  // ---------------------------------------------------------------- what a container scan has passed

  predicate Openers(stack: string) {
    forall i :: 0 <= i < |stack| ==> stack[i] == '[' || stack[i] == '{'
  }

  predicate LexesOk(ts: seq<Lex>) {
    forall i :: 0 <= i < |ts| ==> LexOk(ts[i])
  }

  predicate LevelsOk(levels: seq<seq<Lex>>) {
    forall i :: 0 <= i < |levels| ==> LexesOk(levels[i])
  }

  /** The rest of every open bracket, the innermost first. */
  function Closing(stack: string, levels: seq<seq<Lex>>): string
    requires |stack| == |levels|
  {
    if stack == "" then ""
    else
      var top := |stack| - 1;
      LexesText(levels[top]) + ([Closer(stack[top])] + Closing(stack[..top], levels[..top]))
  }

  function OnTop(t: Lex, levels: seq<seq<Lex>>): seq<seq<Lex>>
    requires levels != []
  {
    levels[..|levels| - 1] + [[t] + levels[|levels| - 1]]
  }

  lemma ClosingIs(stack: string, levels: seq<seq<Lex>>)
    requires |stack| == |levels| > 0
    ensures var top := |stack| - 1;
      Closing(stack, levels)
        == LexesText(levels[top]) + ([Closer(stack[top])] + Closing(stack[..top], levels[..top]))
  {
    hide LexesText;
  }

  lemma LexesTextIs(t: Lex, ts: seq<Lex>)
    ensures LexesText([t] + ts) == LexText(t) + LexesText(ts)
  {
    hide LexText;
    assert ([t] + ts)[1..] == ts;
  }

  lemma OnTopOk(t: Lex, levels: seq<seq<Lex>>)
    requires LexOk(t) && LevelsOk(levels) && levels != []
    ensures LevelsOk(OnTop(t, levels))
  {
    hide LexOk;
    assert LexesOk([t] + levels[|levels| - 1]);
  }

  lemma OnTopCloses(t: Lex, stack: string, levels: seq<seq<Lex>>)
    requires LexOk(t) && LevelsOk(levels) && |stack| == |levels| > 0
    ensures LevelsOk(OnTop(t, levels)) && Closing(stack, OnTop(t, levels)) == LexText(t) + Closing(stack, levels)
  {
    hide *;
    var top := |stack| - 1;
    OnTopOk(t, levels);
    OnTopIs(t, levels);
    ClosingIs(stack, levels);
    ClosingIs(stack, OnTop(t, levels));
    LexesTextIs(t, levels[top]);
    Regroup(LexText(t), LexesText(levels[top]), [Closer(stack[top])] + Closing(stack[..top], levels[..top]));
  }

  lemma OnTopIs(t: Lex, levels: seq<seq<Lex>>)
    requires levels != []
    ensures var top := |levels| - 1;
      |OnTop(t, levels)| == |levels| && OnTop(t, levels)[..top] == levels[..top]
      && OnTop(t, levels)[top] == [t] + levels[top]
  {
  }

  lemma Regroup(a: string, b: string, c: string)
    ensures (a + b) + c == a + (b + c)
  {
  }

  /** One level, the innermost, closed at once. */
  lemma PopCloses(stack: string, levels: seq<seq<Lex>>)
    requires stack != "" && |levels| == |stack| - 1
    ensures Closing(stack, levels + [[]]) == [Closer(stack[|stack| - 1])] + Closing(stack[..|stack| - 1], levels)
  {
    assert (levels + [[]])[..|stack| - 1] == levels;
  }

  /** A bracket opened here is closed before the level around it goes on. */
  lemma NestCloses(open: char, stack: string, levels: seq<seq<Lex>>)
    requires (open == '[' || open == '{') && LevelsOk(levels) && |levels| == |stack| + 1 && stack != ""
    ensures var outer := levels[..|stack|];
      var nested := OnTop(Nest(open, levels[|stack|]), outer);
      LevelsOk(nested) && Closing(stack, nested) == [open] + Closing(stack + [open], levels)
  {
    hide *;
    var outer, t := levels[..|stack|], Nest(open, levels[|stack|]);
    NestIs(open, levels, |stack|);
    OnTopCloses(t, stack, outer);
    assert (stack + [open])[..|stack|] == stack && (stack + [open])[|stack|] == open;
    ClosingIs(stack + [open], levels);
    Regroup([open], LexesText(levels[|stack|]) + [Closer(open)], Closing(stack, outer));
    Regroup(LexesText(levels[|stack|]), [Closer(open)], Closing(stack, outer));
  }

  lemma NestIs(open: char, levels: seq<seq<Lex>>, n: nat)
    requires (open == '[' || open == '{') && LevelsOk(levels) && |levels| == n + 1
    ensures LexOk(Nest(open, levels[n])) && LevelsOk(levels[..n])
    ensures LexText(Nest(open, levels[n])) == [open] + (LexesText(levels[n]) + [Closer(open)])
  {
    assert LexesOk(levels[n]);
  }

  lemma {:induction false} LevelsOf(s: string, stack: string) returns (levels: seq<seq<Lex>>)
    requires stack != "" && Openers(stack) && ContainerTail(s, stack, false, false).Found?
    ensures |levels| == |stack| && LevelsOk(levels)
    ensures s[..ContainerTail(s, stack, false, false).n] == Closing(stack, levels)
    decreases |s|, 1
  {
    hide LevelsOk, Closing;
    if s[0] == '"' {
      levels := LevelsAfterString(s, stack);
    } else if s[0] in "[{" {
      levels := LevelsAfterOpen(s, stack);
    } else if s[0] in "]}" {
      levels := LevelsAfterClose(s, stack);
    } else {
      var n := ContainerTail(s, stack, false, false).n;
      var rest := LevelsOf(s[1..], stack);
      levels := OnTop(Other(s[0]), rest);
      OnTopCloses(Other(s[0]), stack, rest);
      assert s[..n] == [s[0]] + s[1..][..n - 1];
    }
  }

  lemma {:induction false} LevelsAfterClose(s: string, stack: string) returns (levels: seq<seq<Lex>>)
    requires stack != "" && Openers(stack) && ContainerTail(s, stack, false, false).Found? && s[0] in "]}"
    ensures |levels| == |stack| && LevelsOk(levels)
    ensures s[..ContainerTail(s, stack, false, false).n] == Closing(stack, levels)
    decreases |s|, 0
  {
    var n := ContainerTail(s, stack, false, false).n;
    assert Closer(stack[|stack| - 1]) == s[0];
    if |stack| == 1 {
      levels := [[]];
      var none: seq<seq<Lex>> := [];
      PopCloses(stack, none);
      assert none + [[]] == levels && Closing("", none) == "" && s[..1] == [s[0]];
    } else {
      hide Closing;
      var rest := LevelsOf(s[1..], stack[..|stack| - 1]);
      levels := rest + [[]];
      PopCloses(stack, rest);
      assert s[..n] == [s[0]] + s[1..][..n - 1];
    }
  }

  lemma {:induction false} LevelsAfterString(s: string, stack: string) returns (levels: seq<seq<Lex>>)
    requires stack != "" && Openers(stack) && ContainerTail(s, stack, false, false).Found? && s[0] == '"'
    ensures |levels| == |stack| && LevelsOk(levels)
    ensures s[..ContainerTail(s, stack, false, false).n] == Closing(stack, levels)
    decreases |s|, 0
  {
    hide LevelsOk, Closing, LexText, LexOk, PiecesText, OnTop;
    var n := ContainerTail(s, stack, false, false).n;
    InStringEnds(s[1..], stack, false);
    ContainerFollowsString(s[1..], stack, false);
    var k := StringTail(s[1..], false).n;
    assert s[1..][k..] == s[1 + k..];
    assert ContainerTail(s, stack, false, false) == After(1 + k, ContainerTail(s[1 + k..], stack, false, false));
    hide ContainerTail, StringTail;
    var pieces := PiecesOf(s[1..]);
    var rest := LevelsOf(s[1 + k..], stack);
    levels := OnTop(Str(pieces), rest);
    StrIs(pieces);
    OnTopCloses(Str(pieces), stack, rest);
    assert s[..n] == ("\"" + s[1..][..k]) + s[1 + k..][..n - 1 - k];
    OnTopIs(Str(pieces), rest);
  }

  lemma StrIs(pieces: seq<Piece>)
    requires PiecesOk(pieces)
    ensures LexOk(Str(pieces)) && LexText(Str(pieces)) == "\"" + (PiecesText(pieces) + "\"")
  {
  }

  /** A container scan that gets to an end has left every string it entered. */
  lemma {:induction false} InStringEnds(s: string, stack: string, escaped: bool)
    requires ContainerTail(s, stack, true, escaped).Found?
    ensures StringTail(s, escaped).Found?
    decreases |s|
  {
    if escaped {
      InStringEnds(s[1..], stack, false);
    } else if s[0] != '"' {
      InStringEnds(s[1..], stack, s[0] == '\\');
    }
  }

  lemma {:induction false} LevelsAfterOpen(s: string, stack: string) returns (levels: seq<seq<Lex>>)
    requires stack != "" && Openers(stack) && ContainerTail(s, stack, false, false).Found? && s[0] in "[{"
    ensures |levels| == |stack| && LevelsOk(levels)
    ensures s[..ContainerTail(s, stack, false, false).n] == Closing(stack, levels)
    decreases |s|, 0
  {
    var n := ContainerTail(s, stack, false, false).n;
    var rest := LevelsOf(s[1..], stack + [s[0]]);
    levels := OnTop(Nest(s[0], rest[|stack|]), rest[..|stack|]);
    NestCloses(s[0], stack, rest);
    assert s[..n] == [s[0]] + s[1..][..n - 1];
  }

  /** On every text, for both versions: the end found for a container is the end of the one
      bracketed text it starts with; mismatched or unclosed brackets have none. */
  lemma ContainerEndIff(version: Version, s: string, n: nat)
    requires s != "" && s[0] in "[{"
    ensures ValueLength(version, s) == Found(n) <==> n <= |s| && IsBracketed(s[..n])
  {
    if ValueLength(version, s) == Found(n) {
      var levels := LevelsOf(s[1..], [s[0]]);
      var t := Nest(s[0], levels[0]);
      assert Closing([s[0]], levels) == LexesText(levels[0]) + ([Closer(s[0])] + "");
      assert [Closer(s[0])] + "" == [Closer(s[0])];
      assert s[..n] == [s[0]] + s[1..][..n - 1];
      assert LexOk(t) && LexText(t) == s[..n];
    }
    if n <= |s| && IsBracketed(s[..n]) {
      var t: Lex :| t.Nest? && LexOk(t) && s[..n] == LexText(t);
      TransparentLexes(t.inner);
      LengthOfBracketed(version, t.open, LexesText(t.inner), Closer(t.open), s[n..]);
      assert s == s[..n] + s[n..];
    }
  }

  // ---------------------------------------------------------------- scalars and blanks

  predicate Ends(version: Version, c: char) {
    c == ',' || c == '}' || (version == AuthorizationScanner && c == ']')
  }

  /** A run up to the first character of a kind, or to the end. */
  predicate RunsTo(s: string, n: nat, stops: char -> bool) {
    n <= |s| && (forall i :: 0 <= i < n ==> !stops(s[i])) && (n < |s| ==> stops(s[n]))
  }

  lemma {:induction false} ScalarRunIff(version: Version, s: string, n: nat)
    ensures ScalarLength(version, s) == n <==> RunsTo(s, n, c => Ends(version, c))
  {
    if s != "" && !Stops(version, s[0]) && n > 0 {
      ScalarRunIff(version, s[1..], n - 1);
      if RunsTo(s[1..], n - 1, c => Ends(version, c)) {
        forall i | 0 <= i < n ensures !Ends(version, s[i]) {
          if i > 0 {
            assert s[i] == s[1..][i - 1];
          }
        }
      }
      if RunsTo(s, n, c => Ends(version, c)) {
        forall i | 0 <= i < n - 1 ensures !Ends(version, s[1..][i]) {
          assert s[1..][i] == s[i + 1];
        }
      }
    }
  }

  lemma {:induction false} BlanksIff(s: string, n: nat)
    ensures Blanks(s) == n <==> RunsTo(s, n, c => c !in " \t\r\n")
  {
    if s != "" && IsBlank(s[0]) && n > 0 {
      BlanksIff(s[1..], n - 1);
      if RunsTo(s[1..], n - 1, c => c !in " \t\r\n") {
        forall i | 0 <= i < n ensures s[i] in " \t\r\n" {
          if i > 0 {
            assert s[i] == s[1..][i - 1];
          }
        }
      }
      if RunsTo(s, n, c => c !in " \t\r\n") {
        forall i | 0 <= i < n - 1 ensures s[1..][i] in " \t\r\n" {
          assert s[1..][i] == s[i + 1];
        }
      }
    }
  }

  /** A value by its shape, with what follows it. */
  ghost predicate IsValue(version: Version, source: string, rest: string) {
    var s := source + rest;
    s != "" && if s[0] == '"' then IsLiteral(source)
    else if s[0] in "[{" then IsBracketed(source)
    else RunsTo(s, |source|, c => Ends(version, c))
  }

  /** On every text: the end found for a value, of any kind. */
  lemma ValueEndIff(version: Version, s: string, n: nat)
    ensures ValueLength(version, s) == Found(n) <==> n <= |s| && IsValue(version, s[..n], s[n..])
  {
    if n <= |s| {
      assert s[..n] + s[n..] == s;
    }
    if s != "" {
      if s[0] == '"' {
        StringEndIff(s, n);
      } else if s[0] in "[{" {
        ContainerEndIff(version, s, n);
      } else {
        ScalarRunIff(version, s, n);
      }
    }
  }

  // ---------------------------------------------------------------- one member

  /** A member as it stands in a text; `after` are the blanks between its value and what
      follows. */
  datatype Member = Member(before: string, literal: string, gap: string, lead: string, source: string, after: string)

  function MemberText(m: Member): string {
    m.before + (m.literal + (m.gap + (":" + (m.lead + m.source))))
  }

  predicate OnlyBlanks(s: string) {
    forall i :: 0 <= i < |s| ==> s[i] in " \t\r\n"
  }

  /** Blanks, a decodable name, blanks, a colon, blanks, and a value, before this rest. */
  ghost predicate MemberOk(version: Version, m: Member, rest: string) {
    && OnlyBlanks(m.before) && OnlyBlanks(m.gap) && OnlyBlanks(m.lead)
    && IsLiteral(m.literal) && |m.literal| >= 2 && Decode(m.literal).Some?
    && IsValue(version, m.source, rest) && (m.source + rest)[0] !in " \t\r\n"
  }

  ghost predicate StartsWith(version: Version, text: string, m: Member, name: seq<nat>, rest: string) {
    text == MemberText(m) + rest && MemberOk(version, m, rest) && Decode(m.literal) == Some(name)
  }

  lemma SkipsBlanks(b: string, s: string)
    requires OnlyBlanks(b) && s != "" && s[0] !in " \t\r\n"
    ensures Blanks(b + s) == |b| && (b + s)[|b|..] == s
  {
    BlanksIff(b + s, |b|);
  }

  lemma BlankSplit(s: string)
    ensures OnlyBlanks(s[..Blanks(s)]) && s == s[..Blanks(s)] + s[Blanks(s)..]
    ensures s[Blanks(s)..] != "" ==> s[Blanks(s)..][0] !in " \t\r\n"
  {
    BlanksIff(s, Blanks(s));
  }

  lemma NameIsRead(literal: string, name: seq<nat>, rest: string)
    requires IsLiteral(literal) && |literal| >= 2 && Decode(literal) == Some(name)
    ensures (literal + rest)[0] == '"' && ReadName(literal + rest) == Entry(name, literal, rest)
  {
    var named := literal + rest;
    StringEndIff(named, |literal|);
    assert named[..|literal|] == literal && named[|literal|..] == rest;
    hide IsLiteral, Decode;
  }

  lemma ValueIsRead(version: Version, name: seq<nat>, lead: string, source: string, rest: string)
    requires OnlyBlanks(lead) && IsValue(version, source, rest) && (source + rest)[0] !in " \t\r\n"
    ensures ReadValue(version, name, ":" + (lead + (source + rest))) == Entry(name, source, rest)
  {
    var value := source + rest;
    SkipsBlanks(lead, value);
    ValueEndIff(version, value, |source|);
    assert value[..|source|] == source && value[|source|..] == rest;
    assert (":" + (lead + value))[1..] == lead + value;
    hide Blanks, ValueLength, IsValue;
  }

  /** A member that the text starts with is the one that is read. */
  lemma MemberIsRead(version: Version, text: string, m: Member, name: seq<nat>, rest: string)
    requires StartsWith(version, text, m, name, rest)
    ensures ReadMember(version, text) == Entry(name, m.source, rest)
  {
    hide IsLiteral, IsValue, Decode, ReadName, ReadValue, Blanks;
    var colon := ":" + (m.lead + (m.source + rest));
    NameIsRead(m.literal, name, m.gap + colon);
    ValueIsRead(version, name, m.lead, m.source, rest);
    SkipsBlanks(m.before, m.literal + (m.gap + colon));
    SkipsBlanks(m.gap, colon);
    MemberRegroups(m, rest);
  }

  lemma MemberRegroups(m: Member, rest: string)
    ensures MemberText(m) + rest == m.before + (m.literal + (m.gap + (":" + (m.lead + (m.source + rest)))))
  {
  }

  lemma NameOf(s: string)
    requires ReadName(s).Entry?
    ensures var e := ReadName(s);
      IsLiteral(e.source) && |e.source| >= 2 && Decode(e.source) == Some(e.name) && s == e.source + e.rest
  {
    StringEndIff(s, StringLength(s).n);
    hide IsLiteral, Decode, StringLength;
  }

  lemma ValueOf(version: Version, name: seq<nat>, s: string) returns (lead: string)
    requires ReadValue(version, name, s).Entry?
    ensures var e := ReadValue(version, name, s);
      && OnlyBlanks(lead) && IsValue(version, e.source, e.rest) && (e.source + e.rest)[0] !in " \t\r\n"
      && s == ":" + (lead + (e.source + e.rest))
  {
    var l := Blanks(s[1..]);
    BlankSplit(s[1..]);
    var value := s[1..][l..];
    var k := ValueLength(version, value).n;
    ValueEndIff(version, value, k);
    lead := s[1..][..l];
    assert value == value[..k] + value[k..];
    assert s == ":" + s[1..];
    hide Blanks, ValueLength;
    assert ReadValue(version, name, s) == Entry(name, value[..k], value[k..]);
  }

  /** A member that is read is one that the text starts with. */
  lemma ReadIsMember(version: Version, text: string) returns (m: Member)
    requires ReadMember(version, text).Entry?
    ensures var e := ReadMember(version, text); StartsWith(version, text, m, e.name, e.rest) && m.source == e.source
  {
    hide IsLiteral, IsValue, Decode, ReadName, ReadValue, Blanks;
    BlankSplit(text);
    var n := ReadName(text[Blanks(text)..]);
    NameOf(text[Blanks(text)..]);
    BlankSplit(n.rest);
    var e := ReadMember(version, text);
    var lead := ValueOf(version, n.name, n.rest[Blanks(n.rest)..]);
    m := Member(text[..Blanks(text)], n.source, n.rest[..Blanks(n.rest)], lead, e.source, "");
    MemberRegroups(m, e.rest);
  }

  // ---------------------------------------------------------------- all members on the way

  /** The text starts with these members, none of them with this name, each with a comma
      behind it, and goes on with the rest. */
  ghost predicate Passes(version: Version, text: string, target: seq<nat>, ms: seq<Member>, rest: string)
    decreases |ms|
  {
    if ms == [] then text == rest
    else exists name, tail :: PassesOne(version, text, target, ms[0], name, tail)
                              && Passes(version, tail, target, ms[1..], rest)
  }

  ghost predicate PassesOne(version: Version, text: string, target: seq<nat>, m: Member, name: seq<nat>, tail: string) {
    StartsWith(version, text, m, name, m.after + ("," + tail)) && OnlyBlanks(m.after) && name != target
  }

  /** Here stands the wanted member. */
  ghost predicate Hits(version: Version, text: string, target: seq<nat>, source: string) {
    exists m, rest :: StartsWith(version, text, m, target, rest) && m.source == source
  }

  /** Here the object ends without it: at once, or after one more member. */
  ghost predicate EndsWithout(version: Version, text: string, target: seq<nat>) {
    || (exists blanks, rest :: AtEnd(text, blanks, rest))
    || (exists m, name, rest :: LastOne(version, text, target, m, name, rest))
  }

  predicate AtEnd(text: string, blanks: string, rest: string) {
    text == blanks + rest && OnlyBlanks(blanks) && (rest == "" || rest[0] == '}')
  }

  ghost predicate LastOne(version: Version, text: string, target: seq<nat>, m: Member, name: seq<nat>, rest: string) {
    && StartsWith(version, text, m, name, m.after + rest) && OnlyBlanks(m.after) && name != target
    && rest != "" && rest[0] == '}'
  }

  lemma OneIsPassed(version: Version, text: string, target: seq<nat>, m: Member, name: seq<nat>, tail: string)
    requires PassesOne(version, text, target, m, name, tail)
    ensures ExtractMember(version, text, target) == ExtractMember(version, tail, target)
  {
    hide StartsWith;
    MemberIsRead(version, text, m, name, m.after + ("," + tail));
    SkipsBlanks(m.after, "," + tail);
    hide ReadMember, Blanks;
    assert ("," + tail)[1..] == tail;
  }

  lemma {:induction false} AllArePassed(version: Version, text: string, target: seq<nat>, ms: seq<Member>, rest: string)
    requires Passes(version, text, target, ms, rest)
    ensures ExtractMember(version, text, target) == ExtractMember(version, rest, target)
    decreases |ms|
  {
    hide PassesOne, ExtractMember;
    if ms != [] {
      var name, tail :| PassesOne(version, text, target, ms[0], name, tail)
                        && Passes(version, tail, target, ms[1..], rest);
      OneIsPassed(version, text, target, ms[0], name, tail);
      AllArePassed(version, tail, target, ms[1..], rest);
    }
  }

  lemma HitIsExtracted(version: Version, text: string, target: seq<nat>, source: string)
    requires Hits(version, text, target, source)
    ensures ExtractMember(version, text, target) == Raw(source)
  {
    hide StartsWith;
    var m, rest :| StartsWith(version, text, m, target, rest) && m.source == source;
    MemberIsRead(version, text, m, target, rest);
    hide ReadMember;
  }

  lemma EndIsRead(version: Version, text: string, blanks: string, rest: string)
    requires AtEnd(text, blanks, rest)
    ensures ReadMember(version, text) == End
  {
    BlanksIff(text, |blanks|);
    assert text[|blanks|..] == rest;
    hide ReadValue;
  }

  lemma LastIsMissing(version: Version, text: string, target: seq<nat>, m: Member, name: seq<nat>, rest: string)
    requires LastOne(version, text, target, m, name, rest)
    ensures ExtractMember(version, text, target) == Schema
  {
    hide StartsWith, ReadMember, Blanks;
    MemberIsRead(version, text, m, name, m.after + rest);
    SkipsBlanks(m.after, rest);
  }

  lemma EndIsMissing(version: Version, text: string, target: seq<nat>)
    requires EndsWithout(version, text, target)
    ensures ExtractMember(version, text, target) == Schema
  {
    hide StartsWith;
    if blanks, rest :| AtEnd(text, blanks, rest) {
      EndIsRead(version, text, blanks, rest);
    } else {
      hide LastOne;
      var m, name, rest :| LastOne(version, text, target, m, name, rest);
      LastIsMissing(version, text, target, m, name, rest);
    }
  }

  lemma ExtractStep(version: Version, text: string, target: seq<nat>)
    ensures var e := ReadMember(version, text);
      && (e == End ==> ExtractMember(version, text, target) == Schema)
      && (e == Bad ==> ExtractMember(version, text, target) == InvalidJson)
      && (e.Entry? ==>
            && |e.rest| < |text|
            && ExtractMember(version, text, target)
               == if e.name == target then Raw(e.source) else ExtractNext(version, e.rest[Blanks(e.rest)..], target))
  {
    hide Blanks;
  }

  function ExtractNext(version: Version, next: string, target: seq<nat>): Outcome {
    if next != "" && next[0] == ',' then ExtractMember(version, next[1..], target)
    else if next != "" && next[0] == '}' then Schema
    else InvalidJson
  }

  lemma NextIs(version: Version, next: string, target: seq<nat>)
    ensures ExtractNext(version, next, target) != InvalidJson ==> next != "" && (next[0] == ',' || next[0] == '}')
    ensures next != "" && next[0] == ',' ==>
      ExtractNext(version, next, target) == ExtractMember(version, next[1..], target)
    ensures next != "" && next[0] == '}' ==> ExtractNext(version, next, target) == Schema
  {
    hide ExtractMember;
  }

  lemma Here(version: Version, text: string, target: seq<nat>)
    ensures Passes(version, text, target, [], text)
    ensures ReadMember(version, text).End? ==> EndsWithout(version, text, target)
    ensures forall m, rest :: StartsWith(version, text, m, target, rest) ==> Hits(version, text, target, m.source)
    ensures forall m, name, rest :: LastOne(version, text, target, m, name, rest) ==> EndsWithout(version, text, target)
  {
    hide StartsWith, LastOne;
    if ReadMember(version, text).End? {
      NothingMore(version, text);
    }
  }

  /** The members passed on the way to where the extraction ends, and what stands there. */
  lemma {:induction false} WayOf(version: Version, text: string, target: seq<nat>)
    returns (ms: seq<Member>, rest: string)
    requires ExtractMember(version, text, target) != InvalidJson
    ensures Passes(version, text, target, ms, rest)
    ensures match ExtractMember(version, text, target)
            case Raw(source) => Hits(version, rest, target, source)
            case _ => EndsWithout(version, rest, target)
    decreases |text|
  {
    hide *;
    ms, rest := [], text;
    ExtractStep(version, text, target);
    Here(version, text, target);
    if ReadMember(version, text).Entry? {
      var m := ReadIsMember(version, text);
      var e := ReadMember(version, text);
      if e.name != target {
        var next := e.rest[Blanks(e.rest)..];
        NextIs(version, next, target);
        m := Followed(version, text, target, m, e.name, e.rest, next);
        if next[0] == ',' {
          ms, rest := WayOf(version, next[1..], target);
          Extends(version, text, target, m, e.name, next[1..], ms, rest);
          ms := [m] + ms;
        }
      }
    }
  }

  /** What stands behind a member of another name: a comma, or the end. */
  lemma Followed(version: Version, text: string, target: seq<nat>, m: Member, name: seq<nat>, rest: string,
                 next: string) returns (m': Member)
    requires StartsWith(version, text, m, name, rest) && name != target && next == rest[Blanks(rest)..]
    requires next != ""
    ensures next[0] == ',' ==> PassesOne(version, text, target, m', name, next[1..])
    ensures next[0] == '}' ==> LastOne(version, text, target, m', name, next)
  {
    hide StartsWith;
    BlankSplit(rest);
    m' := WithAfter(version, text, m, name, rest, rest[..Blanks(rest)]);
    hide Blanks, OnlyBlanks;
    assert next == [next[0]] + next[1..];
  }

  lemma NothingMore(version: Version, text: string)
    requires ReadMember(version, text).End?
    ensures AtEnd(text, text[..Blanks(text)], text[Blanks(text)..])
  {
    BlankSplit(text);
  }

  lemma WithAfter(version: Version, text: string, m: Member, name: seq<nat>, rest: string, after: string)
    returns (m': Member)
    requires StartsWith(version, text, m, name, rest)
    ensures StartsWith(version, text, m', name, rest) && m'.after == after && m'.source == m.source
  {
    m' := m.(after := after);
  }

  lemma Extends(version: Version, text: string, target: seq<nat>, m: Member, name: seq<nat>, tail: string,
                ms: seq<Member>, rest: string)
    requires PassesOne(version, text, target, m, name, tail) && Passes(version, tail, target, ms, rest)
    ensures Passes(version, text, target, [m] + ms, rest)
  {
    hide PassesOne;
    assert ([m] + ms)[1..] == ms && ([m] + ms)[0] == m;
  }

  /** On every text: what is extracted is the value of the first member with the wanted name,
      all members before it being well-formed with a comma behind each; the name is missing
      where such members lead to the end of the object; anything else is invalid. */
  lemma ExtractedIff(version: Version, text: string, target: seq<nat>, source: string)
    ensures ExtractMember(version, text, target) == Raw(source)
      <==> exists ms, rest :: Passes(version, text, target, ms, rest) && Hits(version, rest, target, source)
    ensures ExtractMember(version, text, target) == Schema
      <==> exists ms, rest :: Passes(version, text, target, ms, rest) && EndsWithout(version, rest, target)
  {
    hide Passes, Hits, EndsWithout, ExtractMember;
    if ExtractMember(version, text, target) != InvalidJson {
      var ms, rest := WayOf(version, text, target);
    }
    if ms, rest :| Passes(version, text, target, ms, rest) && Hits(version, rest, target, source) {
      AllArePassed(version, text, target, ms, rest);
      HitIsExtracted(version, rest, target, source);
    }
    if ms, rest :| Passes(version, text, target, ms, rest) && EndsWithout(version, rest, target) {
      AllArePassed(version, text, target, ms, rest);
      EndIsMissing(version, rest, target);
    }
  }

  /** The two versions name a text that is no object differently; in one that is, extraction
      starts behind the brace. */
  lemma ExtractStarts(version: Version, text: string, target: seq<nat>)
    ensures Extract(version, text, target)
      == (var s := text[Blanks(text)..];
          if s != "" && s[0] == '{' then ExtractMember(version, s[1..], target)
          else if version == AuthorizationScanner then InvalidJson
          else Schema)
  {
    hide ExtractMember;
  }
}
