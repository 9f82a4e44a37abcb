/** Blanking comments and literals out of C sources before they are searched. */
module SourceStripper {
  datatype Mode = Code | LineComment | BlockComment | Literal(quote: char, escaped: bool)

  function Blank(c: char): char {
    if c == '\n' then '\n' else ' '
  }

  /** The rest of a text from a mode on. */
  function Strip(s: string, mode: Mode): (r: string)
    ensures |r| == |s|
  {
    if s == "" then ""
    else
      match mode
      case Code =>
        if |s| >= 2 && s[0] == '/' && s[1] == '/' then [' ', ' '] + Strip(s[2..], LineComment)
        else if |s| >= 2 && s[0] == '/' && s[1] == '*' then [' ', ' '] + Strip(s[2..], BlockComment)
        else if s[0] == '"' || s[0] == '\'' then [' '] + Strip(s[1..], Literal(s[0], false))
        else [s[0]] + Strip(s[1..], Code)
      case LineComment => [Blank(s[0])] + Strip(s[1..], if s[0] == '\n' then Code else LineComment)
      case BlockComment =>
        if |s| >= 2 && s[0] == '*' && s[1] == '/' then [' ', ' '] + Strip(s[2..], Code)
        else [Blank(s[0])] + Strip(s[1..], BlockComment)
      case Literal(quote, escaped) => [Blank(s[0])] + Strip(s[1..], AfterLiteral(quote, escaped, s[0]))
  }

  function AfterLiteral(quote: char, escaped: bool, c: char): Mode {
    if escaped then Literal(quote, false)
    else if c == '\\' then Literal(quote, true)
    else if c == quote then Code
    else Literal(quote, false)
  }

  // ---------------------------------------------------------------- what stripping does

  /** Characters stay or become blanks, and exactly the newlines are newlines. */
  ghost predicate Blanked(s: string, r: string) {
    && |r| == |s|
    && forall i :: 0 <= i < |s| ==> (r[i] == s[i] || r[i] == ' ') && (r[i] == '\n' <==> s[i] == '\n')
  }

  lemma BlankedConcat(s0: string, s1: string, r0: string, r1: string)
    requires Blanked(s0, r0) && Blanked(s1, r1)
    ensures Blanked(s0 + s1, r0 + r1)
  {
  }

  /** Stripping keeps the length and every newline at its offset, and changes characters
      only to blanks. */
  lemma {:induction false} StripOnlyBlanks(s: string, mode: Mode)
    ensures Blanked(s, Strip(s, mode))
    decreases |s|
  {
    if s != "" {
      var n := if TakesTwo(s, mode) then 2 else 1;
      var next := NextMode(s, mode);
      StripOnlyBlanks(s[n..], next);
      HeadIsBlanked(s, mode);
      BlankedConcat(s[..n], s[n..], Head(s, mode), Strip(s[n..], next));
      assert s == s[..n] + s[n..];
    }
  }

  /** The mode's decision on the first characters. */
  predicate TakesTwo(s: string, mode: Mode) {
    && |s| >= 2
    && ((mode.Code? && s[0] == '/' && (s[1] == '/' || s[1] == '*'))
        || (mode.BlockComment? && s[0] == '*' && s[1] == '/'))
  }

  function NextMode(s: string, mode: Mode): Mode
    requires s != ""
  {
    if TakesTwo(s, mode) then (if mode.BlockComment? then Code else if s[1] == '/' then LineComment else BlockComment)
    else
      match mode
      case Code => if s[0] == '"' || s[0] == '\'' then Literal(s[0], false) else Code
      case LineComment => if s[0] == '\n' then Code else LineComment
      case BlockComment => BlockComment
      case Literal(quote, escaped) => AfterLiteral(quote, escaped, s[0])
  }

  function Head(s: string, mode: Mode): string
    requires s != ""
  {
    if TakesTwo(s, mode) then [' ', ' ']
    else if mode.Code? then [if s[0] == '"' || s[0] == '\'' then ' ' else s[0]]
    else [Blank(s[0])]
  }

  lemma HeadIsBlanked(s: string, mode: Mode)
    requires s != ""
    ensures var n := if TakesTwo(s, mode) then 2 else 1;
      Blanked(s[..n], Head(s, mode)) && Strip(s, mode) == Head(s, mode) + Strip(s[n..], NextMode(s, mode))
  {
  }

  /** No literal and no comment starts anywhere. */
  ghost predicate Clean(r: string) {
    && (forall i :: 0 <= i < |r| ==> r[i] != '"' && r[i] != '\'')
    && (forall i :: 0 <= i < |r| - 1 ==> !(r[i] == '/' && (r[i + 1] == '/' || r[i + 1] == '*')))
  }

  lemma CleanConcat(a: string, b: string)
    requires Clean(a) && Clean(b)
    requires a != "" && a[|a| - 1] == '/' && b != "" ==> b[0] != '/' && b[0] != '*'
    ensures Clean(a + b)
  {
  }

  lemma {:induction false} StripIsClean(s: string, mode: Mode)
    ensures Clean(Strip(s, mode))
    decreases |s|
  {
    if s != "" {
      var n := if TakesTwo(s, mode) then 2 else 1;
      var rest := Strip(s[n..], NextMode(s, mode));
      StripIsClean(s[n..], NextMode(s, mode));
      HeadIsBlanked(s, mode);
      StripOnlyBlanks(s[n..], NextMode(s, mode));
      CleanConcat(Head(s, mode), rest);
    }
  }

  lemma {:induction false} CleanIsUnchanged(r: string)
    requires Clean(r)
    ensures Strip(r, Code) == r
  {
    if r != "" {
      forall i | 0 <= i < |r[1..]| - 1 ensures !(r[1..][i] == '/' && (r[1..][i + 1] == '/' || r[1..][i + 1] == '*')) {
        assert r[1..][i] == r[i + 1];
      }
      CleanIsUnchanged(r[1..]);
      assert r == [r[0]] + r[1..];
    }
  }

  /** Stripping twice is stripping once. */
  lemma StripIsIdempotent(s: string)
    ensures Strip(Strip(s, Code), Code) == Strip(s, Code)
  {
    StripIsClean(s, Code);
    CleanIsUnchanged(Strip(s, Code));
  }

  // ---------------------------------------------------------------- piece by piece

  /** Every character but a newline blanked. */
  function Blanks(s: string): (r: string)
    ensures |r| == |s|
  {
    seq(|s|, i requires 0 <= i < |s| => if s[i] == '\n' then '\n' else ' ')
  }

  /** What stands between the quotes of a literal: characters, and escapes of any character. */
  datatype Piece = Plain(c: char) | Escaped(c: char)

  function PieceText(p: Piece): string {
    match p
    case Plain(c) => [c]
    case Escaped(c) => ['\\', c]
  }

  function PiecesText(pieces: seq<Piece>): string {
    if pieces == [] then "" else PieceText(pieces[0]) + PiecesText(pieces[1..])
  }

  predicate Inside(quote: char, pieces: seq<Piece>) {
    forall i :: 0 <= i < |pieces| ==> pieces[i].Plain? ==> pieces[i].c != quote && pieces[i].c != '\\'
  }

  lemma BlanksConcat(a: string, b: string)
    ensures Blanks(a + b) == Blanks(a) + Blanks(b)
  {
  }

  lemma OneBlank(c: char)
    ensures Blanks([c]) == [Blank(c)]
  {
  }

  lemma StripHead(c: char, rest: string, mode: Mode)
    requires !TakesTwo([c] + rest, mode)
    ensures Strip([c] + rest, mode) == Head([c] + rest, mode) + Strip(rest, NextMode([c] + rest, mode))
  {
    HeadIsBlanked([c] + rest, mode);
    assert ([c] + rest)[1..] == rest;
  }

  /** Code is kept: any character that opens neither a literal nor a comment. */
  lemma CodeIsKept(c: char, rest: string)
    requires c != '"' && c != '\''
    requires c == '/' && rest != "" ==> rest[0] != '/' && rest[0] != '*'
    ensures Strip([c] + rest, Code) == [c] + Strip(rest, Code)
  {
    StripHead(c, rest, Code);
  }

  lemma PieceIsBlanked(quote: char, p: Piece, rest: string)
    requires p.Plain? ==> p.c != quote && p.c != '\\'
    ensures Strip(PieceText(p) + rest, Literal(quote, false))
      == Blanks(PieceText(p)) + Strip(rest, Literal(quote, false))
  {
    hide Strip;
    if p.Plain? {
      StripHead(p.c, rest, Literal(quote, false));
      OneBlank(p.c);
    } else {
      StripHead('\\', [p.c] + rest, Literal(quote, false));
      StripHead(p.c, rest, Literal(quote, true));
      assert PieceText(p) + rest == ['\\'] + ([p.c] + rest);
    }
  }

  lemma {:induction false} PiecesAreBlanked(quote: char, pieces: seq<Piece>, rest: string)
    requires Inside(quote, pieces)
    ensures Strip(PiecesText(pieces) + rest, Literal(quote, false))
      == Blanks(PiecesText(pieces)) + Strip(rest, Literal(quote, false))
  {
    hide Strip, PieceText;
    if pieces == [] {
      assert PiecesText(pieces) + rest == rest && Blanks("") == "";
    } else {
      hide Blanks;
      var p, tail := pieces[0], PiecesText(pieces[1..]);
      PiecesAreBlanked(quote, pieces[1..], rest);
      PieceIsBlanked(quote, p, tail + rest);
      BlanksConcat(PieceText(p), tail);
      assert PiecesText(pieces) + rest == PieceText(p) + (tail + rest);
    }
  }

  /** A literal is blanked up to its first quote that is not escaped, and what follows is
      code again. */
  lemma LiteralIsBlanked(quote: char, pieces: seq<Piece>, rest: string)
    requires (quote == '"' || quote == '\'') && Inside(quote, pieces)
    ensures var literal := [quote] + PiecesText(pieces) + [quote];
      Strip(literal + rest, Code) == Blanks(literal) + Strip(rest, Code)
  {
    hide Strip;
    var body, literal := PiecesText(pieces), [quote] + PiecesText(pieces) + [quote];
    StripHead(quote, body + ([quote] + rest), Code);
    PiecesAreBlanked(quote, pieces, [quote] + rest);
    StripHead(quote, rest, Literal(quote, false));
    assert literal + rest == [quote] + (body + ([quote] + rest));
    assert Blanks(literal) == [' '] + Blanks(body) + [' '];
  }

  /** A literal that never ends is blanked to the end. */
  lemma OpenLiteralIsBlanked(quote: char, pieces: seq<Piece>)
    requires (quote == '"' || quote == '\'') && Inside(quote, pieces)
    ensures Strip([quote] + PiecesText(pieces), Code) == Blanks([quote] + PiecesText(pieces))
  {
    assert Strip("", Literal(quote, false)) == "";
    hide Strip;
    StripHead(quote, PiecesText(pieces), Code);
    PiecesAreBlanked(quote, pieces, "");
    assert PiecesText(pieces) + "" == PiecesText(pieces);
    assert Blanks([quote] + PiecesText(pieces)) == [' '] + Blanks(PiecesText(pieces));
  }

  predicate NoBlockEnd(body: string) {
    forall i :: 0 <= i < |body| - 1 ==> !(body[i] == '*' && body[i + 1] == '/')
  }

  lemma {:induction false} BlockBody(body: string, rest: string)
    requires NoBlockEnd(body) && (body != "" && body[|body| - 1] == '*' && rest != "" ==> rest[0] != '/')
    ensures Strip(body + rest, BlockComment) == Blanks(body) + Strip(rest, BlockComment)
  {
    hide Strip;
    if body == "" {
      assert body + rest == rest && Blanks(body) == "";
    } else {
      hide Blanks;
      var tail := body[1..];
      assert NoBlockEnd(tail) by {
        forall i | 0 <= i < |tail| - 1 ensures !(tail[i] == '*' && tail[i + 1] == '/') {
          assert tail[i] == body[i + 1] && tail[i + 1] == body[i + 2];
        }
      }
      BlockBody(tail, rest);
      assert body == [body[0]] + tail;
      if |tail| > 0 {
        assert tail[0] == body[0 + 1] && !(body[0] == '*' && body[0 + 1] == '/');
      }
      StripHead(body[0], tail + rest, BlockComment);
      assert body + rest == [body[0]] + (tail + rest);
      BlanksConcat([body[0]], tail);
      OneBlank(body[0]);
    }
  }

  /** A block comment is blanked up to the first end mark, and what follows is code again. */
  lemma BlockIsBlanked(body: string, rest: string)
    requires NoBlockEnd(body)
    ensures var comment := "/*" + body + "*/"; Strip(comment + rest, Code) == Blanks(comment) + Strip(rest, Code)
  {
    hide Strip;
    var comment := "/*" + body + "*/";
    BlockBody(body, "*/" + rest);
    HeadIsBlanked("/*" + (body + ("*/" + rest)), Code);
    HeadIsBlanked("*/" + rest, BlockComment);
    assert ("/*" + (body + ("*/" + rest)))[2..] == body + ("*/" + rest) && ("*/" + rest)[2..] == rest;
    assert comment + rest == "/*" + (body + ("*/" + rest));
    assert Blanks(comment) == [' ', ' '] + Blanks(body) + [' ', ' '];
  }

  lemma {:induction false} LineBody(body: string, rest: string)
    requires '\n' !in body
    ensures Strip(body + rest, LineComment) == Blanks(body) + Strip(rest, LineComment)
  {
    hide Strip;
    if body == "" {
      assert body + rest == rest && Blanks(body) == "";
    } else {
      hide Blanks;
      var tail := body[1..];
      LineBody(tail, rest);
      assert body == [body[0]] + tail;
      StripHead(body[0], tail + rest, LineComment);
      assert body + rest == [body[0]] + (tail + rest);
      BlanksConcat([body[0]], tail);
      OneBlank(body[0]);
    }
  }

  /** A line comment is blanked up to its newline, which stays, and what follows is code. */
  lemma LineIsBlanked(body: string, rest: string)
    requires '\n' !in body
    ensures var comment := "//" + body + "\n"; Strip(comment + rest, Code) == Blanks(comment) + Strip(rest, Code)
  {
    var comment := "//" + body + "\n";
    LineBody(body, "\n" + rest);
    HeadIsBlanked("//" + (body + ("\n" + rest)), Code);
    StripHead('\n', rest, LineComment);
    assert ("//" + (body + ("\n" + rest)))[2..] == body + ("\n" + rest);
    assert comment + rest == "//" + (body + ("\n" + rest));
    assert Blanks(comment) == [' ', ' '] + Blanks(body) + ['\n'];
  }

  // ---------------------------------------------------------------- the loops

  /** What the output will be when this much is written and this much is left. */
  ghost function Final(text: string, index: nat, mode: Mode, out: string): string
    requires index <= |text|
  {
    out + Strip(text[index..], mode)
  }

  predicate Pair(text: string, index: nat, a: char, b: char)
    requires index < |text|
  {
    text[index] == a && index + 1 < |text| && text[index + 1] == b
  }

  lemma Step(text: string, index: nat, mode: Mode, out: string)
    requires index < |text|
    ensures var rest := text[index..];
      var n := if TakesTwo(rest, mode) then 2 else 1;
      Final(text, index, mode, out) == Final(text, index + n, NextMode(rest, mode), out + Head(rest, mode))
  {
    HeadIsBlanked(text[index..], mode);
    var n := if TakesTwo(text[index..], mode) then 2 else 1;
    assert text[index + n..] == text[index..][n..];
  }

  lemma StepCode(text: string, index: nat, out: string)
    requires index < |text|
    ensures var c := text[index];
      Final(text, index, Code, out)
        == if Pair(text, index, '/', '/') then Final(text, index + 2, LineComment, out + [' ', ' '])
           else if Pair(text, index, '/', '*') then Final(text, index + 2, BlockComment, out + [' ', ' '])
           else if c == '"' || c == '\'' then Final(text, index + 1, Literal(c, false), out + [' '])
           else Final(text, index + 1, Code, out + [c])
  {
    hide Final;
    Step(text, index, Code, out);
  }

  lemma StepLine(text: string, index: nat, out: string)
    requires index < |text|
    ensures Final(text, index, LineComment, out)
      == if text[index] == '\n' then Final(text, index, Code, out) else Final(text, index + 1, LineComment, out + [' '])
  {
    hide Final;
    Step(text, index, LineComment, out);
    Step(text, index, Code, out);
  }

  lemma StepBlock(text: string, index: nat, out: string)
    requires index < |text|
    ensures Final(text, index, BlockComment, out)
      == if Pair(text, index, '*', '/') then Final(text, index + 2, Code, out + [' ', ' '])
         else Final(text, index + 1, BlockComment, out + [Blank(text[index])])
  {
    hide Final;
    Step(text, index, BlockComment, out);
  }

  lemma StepLiteral(text: string, index: nat, quote: char, escaped: bool, out: string)
    requires index < |text|
    ensures Final(text, index, Literal(quote, escaped), out)
      == Final(text, index + 1, AfterLiteral(quote, escaped, text[index]), out + [Blank(text[index])])
  {
    hide Final;
    Step(text, index, Literal(quote, escaped), out);
  }

  lemma AtEnd(text: string, mode: Mode, out: string)
    ensures Final(text, |text|, mode, out) == out
  {
  }

  /** The rest of a line comment. */
  method BlankLine(text: string, start: nat, written: string) returns (index: nat, out: string)
    requires start <= |text|
    ensures start <= index <= |text| && Final(text, index, Code, out) == Final(text, start, LineComment, written)
  {
    hide Final;
    index, out := start, written;
    while index < |text| && text[index] != '\n'
      invariant start <= index <= |text|
      invariant Final(text, index, LineComment, out) == Final(text, start, LineComment, written)
    {
      StepLine(text, index, out);
      out := out + [' '];
      index := index + 1;
    }
    if index < |text| {
      StepLine(text, index, out);
    } else {
      AtEnd(text, LineComment, out);
      AtEnd(text, Code, out);
    }
  }

  /** The rest of a block comment, which may be unterminated. */
  method BlankBlock(text: string, start: nat, written: string) returns (index: nat, out: string)
    requires start <= |text|
    ensures start <= index <= |text| && Final(text, index, Code, out) == Final(text, start, BlockComment, written)
  {
    hide Final;
    index, out := start, written;
    while index < |text|
      invariant start <= index <= |text|
      invariant Final(text, index, BlockComment, out) == Final(text, start, BlockComment, written)
    {
      StepBlock(text, index, out);
      if text[index] == '*' && index + 1 < |text| && text[index + 1] == '/' {
        out := out + [' ', ' '];
        index := index + 2;
        return;
      }
      out := out + [if text[index] == '\n' then '\n' else ' '];
      index := index + 1;
    }
    AtEnd(text, BlockComment, out);
    AtEnd(text, Code, out);
  }

  /** The rest of a literal, which may be unterminated. */
  method BlankLiteral(text: string, start: nat, quote: char, written: string) returns (index: nat, out: string)
    requires start <= |text|
    ensures
      && start <= index <= |text|
      && Final(text, index, Code, out) == Final(text, start, Literal(quote, false), written)
  {
    hide Final;
    var escaped := false;
    index, out := start, written;
    while index < |text|
      invariant start <= index <= |text|
      invariant Final(text, index, Literal(quote, escaped), out) == Final(text, start, Literal(quote, false), written)
    {
      StepLiteral(text, index, quote, escaped, out);
      var c := text[index];
      out := out + [if c == '\n' then '\n' else ' '];
      index := index + 1;
      if escaped {
        escaped := false;
      } else if c == '\\' {
        escaped := true;
      } else if c == quote {
        return;
      }
    }
    AtEnd(text, Literal(quote, escaped), out);
    AtEnd(text, Code, out);
  }

  method StripCommentsAndLiterals(text: string) returns (out: string)
    ensures out == Strip(text, Code)
  {
    out := "";
    var index := 0;
    assert Final(text, 0, Code, "") == Strip(text, Code);
    hide Final, Strip;
    while index < |text|
      invariant 0 <= index <= |text| && Final(text, index, Code, out) == Strip(text, Code)
    {
      StepCode(text, index, out);
      var current := text[index];
      if current == '/' && index + 1 < |text| && text[index + 1] == '/' {
        index, out := BlankLine(text, index + 2, out + [' ', ' ']);
      } else if current == '/' && index + 1 < |text| && text[index + 1] == '*' {
        index, out := BlankBlock(text, index + 2, out + [' ', ' ']);
      } else if current == '"' || current == '\'' {
        index, out := BlankLiteral(text, index + 1, current, out + [' ']);
      } else {
        out := out + [current];
        index := index + 1;
      }
    }
    AtEnd(text, Code, out);
  }
}
