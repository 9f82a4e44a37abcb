/** Scanning raw JSON for the exact source of one top-level member.  Two versions exist,
    for signed authorizations and for signed wrappers. */
module JsonScanner {
  import opened Wrappers
  import opened Characters
  import opened JsonText

  datatype Version = AuthorizationScanner | WrapperScanner

  /** How many characters a scan consumes, or that it raises. */
  datatype Scan = Found(n: nat) | Failed

  function After(k: nat, r: Scan): Scan {
    match r
    case Found(n) => Found(k + n)
    case Failed => Failed
  }

  function Blanks(s: string): (n: nat)
    ensures n <= |s|
  {
    if s != "" && IsBlank(s[0]) then 1 + Blanks(s[1..]) else 0
  }

  /** From inside a string to just after its closing quote. */
  function StringTail(s: string, escaped: bool): (r: Scan)
    ensures r.Found? ==> 1 <= r.n <= |s|
  {
    if s == "" then Failed
    else if escaped then After(1, StringTail(s[1..], false))
    else if s[0] == '\\' then After(1, StringTail(s[1..], true))
    else if s[0] == '"' then Found(1)
    else After(1, StringTail(s[1..], false))
  }

  /** From inside a container to just after the bracket that empties the stack. */
  function ContainerTail(s: string, stack: string, inString: bool, escaped: bool): (r: Scan)
    ensures r.Found? ==> 1 <= r.n <= |s|
  {
    if s == "" then Failed
    else if inString then
      if escaped then After(1, ContainerTail(s[1..], stack, true, false))
      else if s[0] == '\\' then After(1, ContainerTail(s[1..], stack, true, true))
      else After(1, ContainerTail(s[1..], stack, s[0] != '"', false))
    else if s[0] == '"' then After(1, ContainerTail(s[1..], stack, true, false))
    else if s[0] in "[{" then After(1, ContainerTail(s[1..], stack + [s[0]], false, false))
    else if s[0] in "]}" then
      if stack == "" || stack[|stack| - 1] != Opener(s[0]) then Failed
      else if |stack| == 1 then Found(1)
      else After(1, ContainerTail(s[1..], stack[..|stack| - 1], false, false))
    else After(1, ContainerTail(s[1..], stack, false, false))
  }

  function Opener(close: char): char {
    if close == ']' then '[' else '{'
  }

  /** The characters that end a scalar. */
  predicate Stops(version: Version, c: char) {
    c == ',' || c == '}' || (version.AuthorizationScanner? && c == ']')
  }

  function ScalarLength(version: Version, s: string): (n: nat)
    ensures n <= |s|
  {
    if s == "" || Stops(version, s[0]) then 0 else 1 + ScalarLength(version, s[1..])
  }

  function StringLength(s: string): (r: Scan)
    ensures r.Found? ==> 2 <= r.n <= |s|
  {
    if s == "" || s[0] != '"' then Failed else After(1, StringTail(s[1..], false))
  }

  function ValueLength(version: Version, s: string): (r: Scan)
    ensures r.Found? ==> r.n <= |s|
  {
    if s == "" then Failed
    else if s[0] == '"' then StringLength(s)
    else if s[0] in "[{" then After(1, ContainerTail(s[1..], [s[0]], false, false))
    else Found(ScalarLength(version, s))
  }

  datatype Outcome = Raw(source: string) | InvalidJson | Schema

  /** The code points a string literal denotes; None where decoding it raises. */
  function Decode(literal: string): Option<seq<nat>>
    requires |literal| >= 2
  {
    match ParseItems(literal[1..|literal| - 1])
    case None => None
    case Some(items) => Some(Name(items))
  }

  /** What stands after an opening brace or a comma: the object's end, something invalid,
      or a member with its name, raw value and the text that follows. */
  datatype Entry = End | Bad | Entry(name: seq<nat>, source: string, rest: string)

  function ReadName(s: string): (e: Entry)
    ensures e.Entry? ==> |e.rest| < |s|
  {
    if s == "" || s[0] == '}' then End
    else if StringLength(s).Failed? then Bad
    else
      var literal := s[..StringLength(s).n];
      match Decode(literal)
      case None => Bad
      case Some(name) => Entry(name, literal, s[|literal|..])
  }

  function ReadValue(version: Version, name: seq<nat>, s: string): (e: Entry)
    ensures e != End && (e.Entry? ==> e.name == name && |e.rest| < |s|)
  {
    if s == "" || s[0] != ':' then Bad
    else
      var v := s[1..][Blanks(s[1..])..];
      match ValueLength(version, v)
      case Failed => Bad
      case Found(n) => Entry(name, v[..n], v[n..])
  }

  function ReadMember(version: Version, text: string): (e: Entry)
    ensures e.Entry? ==> |e.rest| < |text|
  {
    match ReadName(text[Blanks(text)..])
    case Entry(name, literal, rest) => ReadValue(version, name, rest[Blanks(rest)..])
    case other => other
  }

  /** Member by member, from just after the opening brace or a comma. */
  function ExtractMember(version: Version, text: string, target: seq<nat>): Outcome
    decreases |text|
  {
    match ReadMember(version, text)
    case End => Schema
    case Bad => InvalidJson
    case Entry(name, source, rest) =>
      if name == target then Raw(source)
      else
        var s := rest[Blanks(rest)..];
        if s != "" && s[0] == ',' then ExtractMember(version, s[1..], target)
        else if s != "" && s[0] == '}' then Schema
        else InvalidJson
  }

  function Extract(version: Version, text: string, target: seq<nat>): Outcome {
    var s := text[Blanks(text)..];
    if s == "" || s[0] != '{' then (if version.AuthorizationScanner? then InvalidJson else Schema)
    else ExtractMember(version, s[1..], target)
  }

  // ---------------------------------------------------------------- the loops

  lemma Advance(text: string, index: nat)
    requires index < |text|
    ensures text[index..] != "" && text[index..][0] == text[index] && text[index..][1..] == text[index + 1..]
  {
  }

  method SkipBlanks(text: string, start: nat) returns (index: nat)
    requires start <= |text|
    ensures index == start + Blanks(text[start..]) && index <= |text|
    ensures text[index..] == text[start..][Blanks(text[start..])..]
  {
    index := start;
    while index < |text| && IsBlank(text[index])
      invariant start <= index <= |text|
      invariant start + Blanks(text[start..]) == index + Blanks(text[index..])
    {
      Advance(text, index);
      index := index + 1;
    }
  }

  method ScanStringEnd(text: string, start: nat) returns (end: Scan)
    requires start <= |text|
    ensures end == After(start, StringLength(text[start..]))
  {
    if start >= |text| || text[start] != '"' {
      return Failed;
    }
    Advance(text, start);
    var index, escaped := start + 1, false;
    while index < |text|
      invariant start < index <= |text|
      invariant After(start, StringLength(text[start..])) == After(index, StringTail(text[index..], escaped))
    {
      Advance(text, index);
      var c := text[index];
      if escaped {
        escaped := false;
      } else if c == '\\' {
        escaped := true;
      } else if c == '"' {
        return Found(index + 1);
      }
      index := index + 1;
    }
    end := Failed;
  }

  /** Where a container scan that stands at index will end. */
  function EndFrom(text: string, index: nat, stack: string, inString: bool, escaped: bool): Scan
    requires index <= |text|
  {
    After(index, ContainerTail(text[index..], stack, inString, escaped))
  }

  /** One character of a container. */
  lemma EndStep(text: string, index: nat, stack: string, inString: bool, escaped: bool)
    requires index < |text|
    ensures var c := text[index];
      EndFrom(text, index, stack, inString, escaped)
        == if inString then EndFrom(text, index + 1, stack, escaped || c != '"', !escaped && c == '\\')
           else if c == '"' then EndFrom(text, index + 1, stack, true, false)
           else if c == '[' || c == '{' then EndFrom(text, index + 1, stack + [c], false, false)
           else if c == ']' || c == '}' then
             if stack == "" || stack[|stack| - 1] != Opener(c) then Failed
             else if |stack| == 1 then Found(index + 1)
             else EndFrom(text, index + 1, stack[..|stack| - 1], false, false)
           else EndFrom(text, index + 1, stack, false, false)
  {
    Advance(text, index);
    hide Opener;
  }

  lemma EndOfText(text: string, stack: string, inString: bool, escaped: bool)
    ensures EndFrom(text, |text|, stack, inString, escaped) == Failed
  {
  }

  /** A container's end, by either version's initial state. */
  lemma ContainerStart(version: Version, text: string, start: nat)
    requires start < |text| && text[start] in "[{"
    ensures After(start, ValueLength(version, text[start..])) == EndFrom(text, start + 1, [text[start]], false, false)
    ensures After(start, ValueLength(version, text[start..])) == EndFrom(text, start, "", false, false)
  {
    Advance(text, start);
    assert [] + [text[start]] == [text[start]];
    hide ContainerTail;
    EndStep(text, start, "", false, false);
  }

  function ScalarEndFrom(version: Version, text: string, index: nat): nat
    requires index <= |text|
  {
    index + ScalarLength(version, text[index..])
  }

  lemma ScalarStart(version: Version, text: string, start: nat)
    requires start < |text| && text[start] !in "[{" && text[start] != '"'
    ensures After(start, ValueLength(version, text[start..])) == Found(ScalarEndFrom(version, text, start))
  {
    Advance(text, start);
  }

  lemma ScalarStep(version: Version, text: string, index: nat)
    requires index <= |text|
    ensures index == |text| ==> ScalarEndFrom(version, text, index) == index
    ensures index < |text| ==>
      ScalarEndFrom(version, text, index) == if Stops(version, text[index]) then index
        else ScalarEndFrom(version, text, index + 1)
  {
    if index < |text| {
      Advance(text, index);
    }
  }

  lemma StringStart(version: Version, text: string, start: nat)
    requires start < |text|
    ensures text[start] == '"' ==> ValueLength(version, text[start..]) == StringLength(text[start..])
  {
    Advance(text, start);
  }

  /** The end of a value in a signed authorization; the stack starts empty. */
  method ScanAuthorizationValueEnd(text: string, start: nat) returns (end: Scan)
    requires start <= |text|
    ensures end == After(start, ValueLength(AuthorizationScanner, text[start..]))
  {
    if start >= |text| {
      return Failed;
    }
    hide ValueLength, EndFrom, ScalarEndFrom, StringLength;
    StringStart(AuthorizationScanner, text, start);
    if text[start] == '"' {
      end := ScanStringEnd(text, start);
      return;
    }
    ghost var goal := After(start, ValueLength(AuthorizationScanner, text[start..]));
    if text[start] in "[{" {
      var stack, index, inString, escaped := "", start, false, false;
      ContainerStart(AuthorizationScanner, text, start);
      while index < |text|
        invariant start <= index <= |text| && (escaped ==> inString)
        invariant goal == EndFrom(text, index, stack, inString, escaped)
      {
        EndStep(text, index, stack, inString, escaped);
        var c := text[index];
        if inString {
          if escaped {
            escaped := false;
          } else if c == '\\' {
            escaped := true;
          } else if c == '"' {
            inString := false;
          }
        } else {
          if c == '"' {
            inString := true;
          } else if c == '[' || c == '{' {
            stack := stack + [c];
          } else if c == ']' || c == '}' {
            if stack == "" {
              break;
            }
            var opener := stack[|stack| - 1];
            stack := stack[..|stack| - 1];
            if opener != Opener(c) {
              return Failed;
            }
            if stack == "" {
              return Found(index + 1);
            }
          }
        }
        index := index + 1;
      }
      if index == |text| {
        EndOfText(text, stack, inString, escaped);
      }
      return Failed;
    }
    var index := start;
    ScalarStart(AuthorizationScanner, text, start);
    while index < |text| && text[index] !in ",}]"
      invariant start <= index <= |text|
      invariant goal == Found(ScalarEndFrom(AuthorizationScanner, text, index))
    {
      ScalarStep(AuthorizationScanner, text, index);
      index := index + 1;
    }
    ScalarStep(AuthorizationScanner, text, index);
    end := Found(index);
  }

  /** The end of a value in a signed wrapper; the stack starts with the opening bracket. */
  method ScanWrapperValueEnd(text: string, start: nat) returns (end: Scan)
    requires start <= |text|
    ensures end == After(start, ValueLength(WrapperScanner, text[start..]))
  {
    if start >= |text| {
      return Failed;
    }
    hide ValueLength, EndFrom, ScalarEndFrom, StringLength;
    StringStart(WrapperScanner, text, start);
    if text[start] == '"' {
      end := ScanStringEnd(text, start);
      return;
    }
    ghost var goal := After(start, ValueLength(WrapperScanner, text[start..]));
    if text[start] in "[{" {
      var stack, index, inString, escaped := [text[start]], start + 1, false, false;
      ContainerStart(WrapperScanner, text, start);
      while index < |text|
        invariant start < index <= |text| && (escaped ==> inString)
        invariant goal == EndFrom(text, index, stack, inString, escaped)
      {
        EndStep(text, index, stack, inString, escaped);
        var c := text[index];
        if inString {
          if escaped {
            escaped := false;
          } else if c == '\\' {
            escaped := true;
          } else if c == '"' {
            inString := false;
          }
          index := index + 1;
          continue;
        }
        if c == '"' {
          inString := true;
          index := index + 1;
          continue;
        }
        if c == '[' || c == '{' {
          stack := stack + [c];
        } else if c == '}' {
          if stack == "" || stack[|stack| - 1] != '{' {
            return Failed;
          }
          stack := stack[..|stack| - 1];
          if stack == "" {
            return Found(index + 1);
          }
        } else if c == ']' {
          if stack == "" || stack[|stack| - 1] != '[' {
            return Failed;
          }
          stack := stack[..|stack| - 1];
          if stack == "" {
            return Found(index + 1);
          }
        }
        index := index + 1;
      }
      EndOfText(text, stack, inString, escaped);
      return Failed;
    }
    var index := start;
    ScalarStart(WrapperScanner, text, start);
    while index < |text|
      invariant start <= index <= |text|
      invariant goal == Found(ScalarEndFrom(WrapperScanner, text, index))
    {
      ScalarStep(WrapperScanner, text, index);
      if text[index] in ",}" {
        break;
      }
      index := index + 1;
    }
    ScalarStep(WrapperScanner, text, index);
    end := Found(index);
  }

  method ScanValueEnd(version: Version, text: string, start: nat) returns (end: Scan)
    requires start <= |text|
    ensures end == After(start, ValueLength(version, text[start..]))
  {
    match version
    case AuthorizationScanner => end := ScanAuthorizationValueEnd(text, start);
    case WrapperScanner => end := ScanWrapperValueEnd(text, start);
  }

  /** The name at index, or why there is none. */
  method ScanName(text: string, start: nat) returns (entry: Entry)
    requires start <= |text|
    ensures entry == ReadName(text[start..])
    ensures entry.Entry? ==> 2 <= |entry.source| <= |text| - start && entry.rest == text[start + |entry.source|..]
  {
    hide StringLength, Decode;
    if start >= |text| || text[start] == '}' {
      return End;
    }
    var scan := ScanStringEnd(text, start);
    if scan.Failed? {
      return Bad;
    }
    var literal := text[start..scan.n];
    assert literal == text[start..][..scan.n - start];
    assert text[start..][|literal|..] == text[scan.n..];
    match Decode(literal)
    case None => return Bad;
    case Some(name) => return Entry(name, literal, text[scan.n..]);
  }

  /** The colon at index and the value after it. */
  method ScanMemberValue(version: Version, text: string, start: nat, name: seq<nat>) returns (entry: Entry, end: nat)
    requires start <= |text|
    ensures entry == ReadValue(version, name, text[start..])
    ensures entry.Entry? ==> start < end <= |text| && entry.rest == text[end..]
  {
    end := start;
    if start >= |text| || text[start] != ':' {
      return Bad, start;
    }
    hide ValueLength, Blanks;
    Advance(text, start);
    var index := SkipBlanks(text, start + 1);
    var scan := ScanValueEnd(version, text, index);
    if scan.Failed? {
      return Bad, start;
    }
    end := scan.n;
    assert text[index..end] == text[index..][..end - index];
    assert text[index..][end - index..] == text[end..];
    entry := Entry(name, text[index..end], text[end..]);
  }

  /** A whole member from index on, or why there is none. */
  method ScanMember(version: Version, text: string, start: nat) returns (entry: Entry, end: nat)
    requires start <= |text|
    ensures entry == ReadMember(version, text[start..])
    ensures entry.Entry? ==> start < end <= |text| && entry.rest == text[end..]
  {
    hide ReadName, ReadValue, Blanks;
    end := start;
    var keyStart := SkipBlanks(text, start);
    var name := ScanName(text, keyStart);
    if !name.Entry? {
      return name, start;
    }
    var colon := SkipBlanks(text, keyStart + |name.source|);
    entry, end := ScanMemberValue(version, text, colon, name.name);
  }

  /** The raw source of the first member with this name. */
  method ExtractTopLevelMemberRaw(version: Version, text: string, target: seq<nat>) returns (r: Outcome)
    ensures r == Extract(version, text, target)
  {
    hide ReadMember, Blanks;
    var index := SkipBlanks(text, 0);
    assert text[0..] == text;
    if index >= |text| || text[index] != '{' {
      return if version.AuthorizationScanner? then InvalidJson else Schema;
    }
    Advance(text, index);
    index := index + 1;
    hide Extract;
    while true
      invariant index <= |text|
      invariant Extract(version, text, target) == ExtractMember(version, text[index..], target)
      decreases |text| - index
    {
      var entry, end := ScanMember(version, text, index);
      if entry.End? {
        return Schema;
      }
      if entry.Bad? {
        return InvalidJson;
      }
      if entry.name == target {
        return Raw(entry.source);
      }
      var next := SkipBlanks(text, end);
      if next < |text| && text[next] == ',' {
        Advance(text, next);
        index := next + 1;
        continue;
      }
      if next < |text| && text[next] == '}' {
        return Schema;
      }
      return InvalidJson;
    }
  }
}
