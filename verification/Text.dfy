/** The string operations shared by the line-oriented parsers. */
module Text {
  import opened Options

  /** White space as `trim` and `\s` understand it. */
  predicate IsSpace(c: char) {
    || ('\t' <= c <= '\r') || c == ' ' || c == '\U{A0}' || c == '\U{1680}' || ('\U{2000}' <= c <= '\U{200A}')
    || c == '\U{2028}' || c == '\U{2029}' || c == '\U{202F}' || c == '\U{205F}' || c == '\U{3000}' || c == '\U{FEFF}'
  }

  /** Where `^` and `$` match in a multi-line pattern, and what `.` does not match. */
  predicate IsLineBreak(c: char) {
    c == '\n' || c == '\r' || c == '\U{2028}' || c == '\U{2029}'
  }

  /** The code points of the white space and line terminators of ECMAScript. */
  lemma SpacesAre(c: char)
    ensures IsSpace(c) <==>
              (c as int) in [9, 10, 11, 12, 13, 32, 160, 5760, 8192, 8193, 8194, 8195, 8196, 8197, 8198, 8199, 8200, 8201,
                             8202, 8232, 8233, 8239, 8287, 12288, 65279]
    ensures IsLineBreak(c) <==> (c as int) in [10, 13, 8232, 8233]
  {
  }

  lemma CapitalsAre(c: char)
    ensures c in "ABCDEFGHIJKLMNOPQRSTUVWXYZ" <==> 'A' <= c <= 'Z'
  {
  }

  lemma SmallLettersAre(c: char)
    ensures c in "abcdefghijklmnopqrstuvwxyz" <==> 'a' <= c <= 'z'
  {
  }

  lemma DigitsAre(c: char)
    ensures c in "0123456789" <==> '0' <= c <= '9'
  {
  }

  predicate AllSpace(s: string) {
    forall i :: 0 <= i < |s| ==> IsSpace(s[i])
  }

  predicate NoSpace(s: string) {
    forall i :: 0 <= i < |s| ==> !IsSpace(s[i])
  }

  function TrimStart(s: string): string {
    if s != "" && IsSpace(s[0]) then TrimStart(s[1..]) else s
  }

  function TrimEnd(s: string): string {
    if s != "" && IsSpace(s[|s| - 1]) then TrimEnd(s[..|s| - 1]) else s
  }

  /** Trimming takes blanks, and all of them. */
  lemma {:induction false} TrimStartTakesBlanks(s: string) returns (before: string)
    ensures s == before + TrimStart(s) && AllSpace(before)
    ensures TrimStart(s) != "" ==> !IsSpace(TrimStart(s)[0])
    decreases |s|
  {
    if s != "" && IsSpace(s[0]) {
      var rest := TrimStartTakesBlanks(s[1..]);
      before := [s[0]] + rest;
    } else {
      before := "";
    }
  }

  lemma {:induction false} TrimEndTakesBlanks(s: string) returns (after: string)
    ensures s == TrimEnd(s) + after && AllSpace(after)
    ensures TrimEnd(s) != "" ==> !IsSpace(TrimEnd(s)[|TrimEnd(s)| - 1])
    decreases |s|
  {
    if s != "" && IsSpace(s[|s| - 1]) {
      var rest := TrimEndTakesBlanks(s[..|s| - 1]);
      after := rest + [s[|s| - 1]];
    } else {
      after := "";
    }
  }

  function Trim(s: string): string {
    TrimEnd(TrimStart(s))
  }

  predicate IsTrimmed(s: string) {
    s == "" || (!IsSpace(s[0]) && !IsSpace(s[|s| - 1]))
  }

  lemma TrimmedIsFixed(s: string)
    ensures IsTrimmed(Trim(s))
    ensures Trim(s) == s <==> IsTrimmed(s)
  {
    var before := TrimStartTakesBlanks(s);
    var after := TrimEndTakesBlanks(TrimStart(s));
    if Trim(s) != "" { assert Trim(s)[0] == TrimStart(s)[0]; }
  }

  /** Where the trimmed text sits. */
  lemma TrimTakesBlanks(s: string) returns (before: string, after: string)
    ensures s == before + Trim(s) + after && AllSpace(before) && AllSpace(after)
  {
    before := TrimStartTakesBlanks(s);
    after := TrimEndTakesBlanks(TrimStart(s));
    assert before + (Trim(s) + after) == before + Trim(s) + after;
  }

  lemma TrimIsPart(s: string, c: char)
    requires c !in s
    ensures c !in Trim(s)
  {
    var before, after := TrimTakesBlanks(s);
    assert c in Trim(s) ==> c in before + Trim(s) + after;
  }

  /** Blank surroundings do not matter: they are all that `Trim` removes. */
  lemma TrimOfPadded(before: string, core: string, after: string)
    requires AllSpace(before) && AllSpace(after) && IsTrimmed(core)
    ensures Trim(before + core + after) == core
  {
    if core == "" {
      TrimOfBlank(before + core + after);
    } else {
      TrimStartSkips(before, core + after);
      assert before + core + after == before + (core + after);
      TrimEndSkips(core, after);
    }
  }

  lemma {:induction false} TrimOfBlank(s: string)
    requires AllSpace(s)
    ensures Trim(s) == ""
  {
    TrimStartSkips(s, "");
    assert s + "" == s;
  }

  lemma {:induction false} TrimStartSkips(before: string, s: string)
    requires AllSpace(before) && (s == "" || !IsSpace(s[0]))
    ensures TrimStart(before + s) == s
    decreases |before|
  {
    if before == "" {
      assert before + s == s;
    } else {
      assert (before + s)[1..] == before[1..] + s;
      TrimStartSkips(before[1..], s);
    }
  }

  lemma {:induction false} TrimEndSkips(s: string, after: string)
    requires AllSpace(after) && (s == "" || !IsSpace(s[|s| - 1]))
    ensures TrimEnd(s + after) == s
    decreases |after|
  {
    if after == "" {
      assert s + after == s;
    } else {
      assert (s + after)[..|s + after| - 1] == s + after[..|after| - 1];
      TrimEndSkips(s, after[..|after| - 1]);
    }
  }

  /** indexOf, with None for -1 */
  function IndexOf(s: string, c: char): (r: Option<nat>)
    ensures r.Some? ==> r.value < |s| && s[r.value] == c
  {
    if s == "" then None
    else if s[0] == c then Some(0)
    else
      var r := IndexOf(s[1..], c);
      if r.None? then None else Some(r.value + 1)
  }

  lemma {:induction false} IndexOfIsFirst(s: string, c: char)
    ensures IndexOf(s, c).None? <==> c !in s
    ensures IndexOf(s, c).Some? ==> c !in s[..IndexOf(s, c).value]
  {
    if s != "" && s[0] != c {
      IndexOfIsFirst(s[1..], c);
      assert s == [s[0]] + s[1..];
      var r := IndexOf(s[1..], c);
      if r.Some? { assert s[..r.value + 1] == [s[0]] + s[1..][..r.value]; }
    }
  }

  lemma {:induction false} IndexOfFirst(a: string, c: char, b: string)
    requires c !in a
    ensures IndexOf(a + [c] + b, c) == Some(|a|)
    decreases |a|
  {
    var s := a + [c] + b;
    if a == "" {
      assert s[0] == c;
    } else {
      assert s[0] == a[0] && s[1..] == a[1..] + [c] + b;
      IndexOfFirst(a[1..], c, b);
    }
  }

  predicate StartsWith(s: string, prefix: string) {
    prefix <= s
  }

  // ---------------------------------------------------------------------------------------------
  // Lines
  // ---------------------------------------------------------------------------------------------

  /** split('\n'): the pieces between line feeds; the last one is what follows the last line feed. */
  function Lines(s: string): (r: seq<string>)
    ensures |r| >= 1 && AreLines(r)
  {
    if s == "" then [""]
    else
      var r := Lines(s[1..]);
      if s[0] == '\n' then [""] + r else [[s[0]] + r[0]] + r[1..]
  }

  function Full(s: string): seq<string> {
    Lines(s)[..|Lines(s)| - 1]
  }

  function Leftover(s: string): string {
    Lines(s)[|Lines(s)| - 1]
  }

  lemma {:induction false} LineThenRest(line: string, rest: string)
    requires '\n' !in line
    ensures Lines(line + "\n" + rest) == [line] + Lines(rest)
  {
    var s := line + "\n" + rest;
    if line == "" {
      assert s[1..] == rest;
    } else {
      assert s[1..] == line[1..] + "\n" + rest;
      LineThenRest(line[1..], rest);
      assert [line[0]] + line[1..] == line;
    }
  }

  lemma {:induction false} OneLine(line: string)
    requires '\n' !in line
    ensures Lines(line) == [line]
  {
    if line != "" {
      OneLine(line[1..]);
      assert [line[0]] + line[1..] == line;
    }
  }

  lemma CutFirstLine(a: string) returns (first: string, rest: string)
    requires '\n' in a
    ensures a == first + "\n" + rest && '\n' !in first
  {
    IndexOfIsFirst(a, '\n');
    var i := IndexOf(a, '\n').value;
    first, rest := a[..i], a[i + 1..];
  }

  /** Only the unfinished last line of the first part matters to the second. */
  lemma {:induction false} LinesOfParts(a: string, b: string)
    ensures Lines(a + b) == Full(a) + Lines(Leftover(a) + b)
    decreases |a|
  {
    if '\n' in a {
      var first, rest := CutFirstLine(a);
      LinesOfParts(rest, b);
      LinesOfPartsStep(first, rest, b);
    } else {
      OneLine(a);
      assert Full(a) == [] && [] + Lines(a + b) == Lines(a + b);
    }
  }

  lemma LinesOfPartsStep(first: string, rest: string, b: string)
    requires '\n' !in first && Lines(rest + b) == Full(rest) + Lines(Leftover(rest) + b)
    ensures var a := first + "\n" + rest; Lines(a + b) == Full(a) + Lines(Leftover(a) + b)
  {
    var a := first + "\n" + rest;
    Reassociate(first, "\n", rest, b);
    LineThenRest(first, rest + b);
    LineThenRest(first, rest);
    FrontAndLast(first, Lines(a), Lines(rest));
    Reassociate([], [first], Full(rest), Lines(Leftover(rest) + b));
    assert [] + [first] + Full(rest) == [first] + Full(rest);
  }

  lemma FrontAndLast<T>(first: T, all: seq<T>, rest: seq<T>)
    requires |rest| > 0 && all == [first] + rest
    ensures all[..|all| - 1] == [first] + rest[..|rest| - 1] && all[|all| - 1] == rest[|rest| - 1]
  {
  }

  lemma Reassociate<T>(a: seq<T>, b: seq<T>, c: seq<T>, d: seq<T>)
    ensures a + b + c + d == a + b + (c + d)
  {
  }

  /** Every line followed by a line feed. */
  function Concat<T>(parts: seq<seq<T>>): seq<T> {
    if parts == [] then [] else parts[0] + Concat(parts[1..])
  }

  function Unlines(lines: seq<string>): string {
    if lines == [] then "" else lines[0] + "\n" + Unlines(lines[1..])
  }

  predicate AreLines(lines: seq<string>) {
    forall i :: 0 <= i < |lines| ==> '\n' !in lines[i]
  }

  lemma {:induction false} LinesOfUnlines(lines: seq<string>, rest: string)
    requires AreLines(lines)
    ensures Lines(Unlines(lines) + rest) == lines + Lines(rest)
    decreases |lines|
  {
    if lines == [] {
      assert Unlines(lines) + rest == rest;
    } else {
      LinesOfUnlines(lines[1..], rest);
      LineThenRest(lines[0], Unlines(lines[1..]) + rest);
      Reassociate(lines[0], "\n", Unlines(lines[1..]), rest);
      Reassociate([], [lines[0]], lines[1..], Lines(rest));
      assert lines == [] + [lines[0]] + lines[1..];
    }
  }

  lemma {:induction false} UnlinesOfParts(a: seq<string>, b: seq<string>)
    ensures Unlines(a + b) == Unlines(a) + Unlines(b)
    decreases |a|
  {
    if a == [] {
      assert a + b == b;
    } else {
      assert (a + b)[1..] == a[1..] + b;
      UnlinesOfParts(a[1..], b);
    }
  }

  /** The lines of a text that is closed with a line feed if it is not empty. */
  function ClosedLines(text: string): seq<string> {
    if text == "" then [] else if text[|text| - 1] == '\n' then Full(text) else Lines(text)
  }

  lemma UnlinesCons(first: string, rest: seq<string>)
    ensures Unlines([first] + rest) == first + "\n" + Unlines(rest)
  {
    assert ([first] + rest)[1..] == rest;
  }

  lemma PutInFront(c: string, a: string, b: string, d: string)
    ensures c + a + b + d == c + (a + b + d)
  {
  }

  lemma UnlinesOfLonger(c: char, r: seq<string>)
    requires |r| > 0
    ensures Unlines([[c] + r[0]] + r[1..]) == [c] + Unlines(r)
    ensures Unlines([""] + r) == "\n" + Unlines(r)
  {
    UnlinesCons([c] + r[0], r[1..]);
    UnlinesCons(r[0], r[1..]);
    assert [r[0]] + r[1..] == r;
    PutInFront([c], r[0], "\n", Unlines(r[1..]));
    UnlinesCons("", r);
    assert "" + "\n" == "\n";
  }

  lemma {:induction false} UnlinesOfLines(text: string)
    ensures Unlines(Lines(text)) == text + "\n"
  {
    if text != "" {
      UnlinesOfLines(text[1..]);
      UnlinesOfLonger(text[0], Lines(text[1..]));
      assert [text[0]] + (text[1..] + "\n") == text + "\n";
    } else {
      assert [""][1..] == [];
    }
  }

  lemma LeftoverOfClosed(text: string)
    requires text != "" && text[|text| - 1] == '\n'
    ensures Leftover(text) == ""
  {
    var n := |text| - 1;
    assert text == text[..n] + "\n";
    LinesOfParts(text[..n], "\n");
    LineThenRest(Leftover(text[..n]), "");
    assert Leftover(text[..n]) + "\n" + "" == Leftover(text[..n]) + "\n";
    assert Lines("") == [""];
  }

  lemma ClosedText(text: string)
    ensures AreLines(ClosedLines(text))
    ensures Unlines(ClosedLines(text)) == text + if text != "" && text[|text| - 1] != '\n' then "\n" else ""
  {
    if text != "" {
      UnlinesOfLines(text);
      if text[|text| - 1] == '\n' {
        LeftoverOfClosed(text);
        assert Lines(text) == Full(text) + [""];
        UnlinesOfParts(Full(text), [""]);
        assert Unlines([""]) == "\n";
        assert (Unlines(Full(text)) + "\n")[..|text|] == text;
      }
    }
  }
}
