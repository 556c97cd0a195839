/** Reading values from the `.env` file. */
module EnvFile {
  import opened Options
  import opened Text

  datatype Entry = Entry(key: string, value: string)

  function Unquote(v: string): string {
    var n := |v|;
    if n >= 2 && ((v[0] == '"' && v[n - 1] == '"') || (v[0] == '\'' && v[n - 1] == '\'')) then v[1..n - 1] else v
  }

  function Assignment(trimmed: string): Option<Entry> {
    var eqIdx := IndexOf(trimmed, '=');
    if trimmed == "" || trimmed[0] == '#' || eqIdx.None? then None
    else Some(Entry(Trim(trimmed[..eqIdx.value]), Unquote(Trim(trimmed[eqIdx.value + 1..]))))
  }

  /** What one line says. */
  function EntryOf(line: string): Option<Entry> {
    Assignment(Trim(line))
  }

  predicate Says(line: string, key: string) {
    EntryOf(line).Some? && EntryOf(line).value.key == key
  }

  /** The last line that says something about the key counts. */
  function LastOf(lines: seq<string>, key: string): Option<string> {
    if lines == [] then None
    else if Says(lines[|lines| - 1], key) then Some(EntryOf(lines[|lines| - 1]).value.value)
    else LastOf(lines[..|lines| - 1], key)
  }

  function FileValue(text: string, key: string): Option<string> {
    LastOf(Lines(text), key)
  }

  /** The file first, even with an empty value; then a non-empty variable of the process. */
  function Answer(file: Option<string>, process: map<string, string>, key: string): Option<string> {
    var inFile := if file.Some? then FileValue(file.value, key) else None;
    if inFile.Some? then inFile
    else if key in process && process[key] != "" then Some(process[key])
    else None
  }

  predicate NoneSays(lines: seq<string>, from: nat, key: string) {
    forall j :: from <= j < |lines| ==> !Says(lines[j], key)
  }

  lemma {:induction false} LastLineCounts(lines: seq<string>, i: nat, key: string)
    requires i < |lines| && Says(lines[i], key) && NoneSays(lines, i + 1, key)
    ensures LastOf(lines, key) == Some(EntryOf(lines[i]).value.value)
    decreases |lines|
  {
    var n := |lines| - 1;
    if i < n {
      assert !Says(lines[n], key);
      LastLineCounts(lines[..n], i, key);
    }
  }

  lemma {:induction false} NobodySays(lines: seq<string>, key: string)
    requires NoneSays(lines, 0, key)
    ensures LastOf(lines, key) == None
    decreases |lines|
  {
    if lines != [] { NobodySays(lines[..|lines| - 1], key); }
  }

  /** The last line of the file for the key counts, even if its value is empty; a variable of the process counts only
      if no line is there, and if it is not empty. */
  lemma AnswerComesFrom(text: string, process: map<string, string>, key: string, i: nat)
    ensures i < |Lines(text)| && Says(Lines(text)[i], key) && NoneSays(Lines(text), i + 1, key) ==>
              Answer(Some(text), process, key) == Some(EntryOf(Lines(text)[i]).value.value)
    ensures NoneSays(Lines(text), 0, key) ==> Answer(Some(text), process, key) == Answer(None, process, key)
    ensures Answer(None, process, key) == if key in process && process[key] != "" then Some(process[key]) else None
  {
    if i < |Lines(text)| && Says(Lines(text)[i], key) && NoneSays(Lines(text), i + 1, key) {
      LastLineCounts(Lines(text), i, key);
    }
    if NoneSays(Lines(text), 0, key) { NobodySays(Lines(text), key); }
  }

  predicate IsQuote(c: char) {
    c == '"' || c == '\''
  }

  /** One pair of quotes of one kind around the value is dropped; any other value is kept as it is. */
  lemma UnquoteIff(v: string, q: char)
    requires IsQuote(q)
    ensures Unquote([q] + v + [q]) == v
    ensures Unquote(v) == v <==> |v| < 2 || v[0] != v[|v| - 1] || !IsQuote(v[0])
  {
    assert ([q] + v + [q])[1..|v| + 1] == v;
  }

  /** A line `KEY="v"` or `KEY='v'` reads as v, blanks inside the quotes and all, and `KEY=v` without such a pair as v
      without blanks around it. */
  lemma QuotedLineReads(key: string, v: string, q: char)
    requires key != "" && IsTrimmed(key) && key[0] != '#' && '=' !in key && IsQuote(q)
    ensures EntryOf(key + "=" + ([q] + v + [q])) == Some(Entry(key, v))
    ensures v == "" || v[0] != v[|v| - 1] || !IsQuote(v[0]) ==>
              IsTrimmed(v) ==> EntryOf(key + "=" + v) == Some(Entry(key, v))
  {
    UnquoteIff(v, q);
    PlainLineReads(key, [q] + v + [q]);
    if IsTrimmed(v) { PlainLineReads(key, v); }
  }

  lemma PlainLineReads(key: string, v: string)
    requires key != "" && IsTrimmed(key) && key[0] != '#' && '=' !in key && IsTrimmed(v)
    ensures EntryOf(key + "=" + v) == Some(Entry(key, Unquote(v)))
  {
    var line := key + "=" + v;
    assert line[0] == key[0] && line[|line| - 1] == if v == "" then '=' else v[|v| - 1];
    TrimmedIsFixed(line);
    IndexOfFirst(key, '=', v);
    assert key + ['='] + v == line;
    assert line[..|key|] == key && line[|key| + 1..] == v;
    TrimmedIsFixed(key);
    TrimmedIsFixed(v);
  }

  method ReadLine(line: string) returns (entry: Option<Entry>)
    ensures entry == EntryOf(line)
  {
    var trimmed := Trim(line);
    if trimmed == "" || trimmed[0] == '#' { return None; }
    var eqIdx := IndexOf(trimmed, '=');
    if eqIdx.None? { return None; }
    var key := Trim(trimmed[..eqIdx.value]);
    var value := Trim(trimmed[eqIdx.value + 1..]);
    var n := |value|;
    if n >= 2 && ((value[0] == '"' && value[n - 1] == '"') || (value[0] == '\'' && value[n - 1] == '\'')) {
      value := value[1..n - 1];
    }
    entry := Some(Entry(key, value));
  }

  method ReadLines(keys: seq<string>, content: string) returns (result: map<string, string>)
    ensures forall key :: key in result <==> key in keys && FileValue(content, key).Some?
    ensures forall key :: key in result ==> FileValue(content, key) == Some(result[key])
  {
    result := map[];
    var wanted := set i | 0 <= i < |keys| :: keys[i];
    var lines := Lines(content);
    for i := 0 to |lines|
      invariant forall key :: key in result <==> key in keys && LastOf(lines[..i], key).Some?
      invariant forall key :: key in result ==> LastOf(lines[..i], key) == Some(result[key])
    {
      assert lines[..i + 1][..i] == lines[..i];
      var entry := ReadLine(lines[i]);
      if entry.Some? && entry.value.key in wanted {
        result := result[entry.value.key := entry.value.value];
      }
    }
    assert lines[..|lines|] == lines;
  }

  method ReadEnvFile(keys: seq<string>, file: Option<string>, process: map<string,
      string>) returns (result: map<string, string>)
    ensures forall key :: key in result <==> key in keys && Answer(file, process, key).Some?
    ensures forall key :: key in result ==> Answer(file, process, key) == Some(result[key])
  {
    result := map[];
    if file.Some? {
      result := ReadLines(keys, file.value);
    }
    ghost var fromFile := result;
    for i := 0 to |keys|
      invariant forall key :: key in fromFile ==> key in result
      invariant forall key :: key in result <==> key in fromFile || (key in keys[..i] && Answer(file, process, key).Some?)
      invariant forall key :: key in result ==> Answer(file, process, key) == Some(result[key])
    {
      assert keys[i] in keys && keys[..i + 1] == keys[..i] + [keys[i]];
      if keys[i] in result { continue; }
      if keys[i] in process && |process[keys[i]]| > 0 {
        result := result[keys[i] := process[keys[i]]];
      }
    }
    assert keys[..|keys|] == keys;
  }

  // ---------------------------------------------------------------------------------------------
  // Laws
  // ---------------------------------------------------------------------------------------------

  lemma {:induction false} LastOfParts(a: seq<string>, b: seq<string>, key: string)
    ensures LastOf(a + b, key) == if LastOf(b, key).Some? then LastOf(b, key) else LastOf(a, key)
    decreases |b|
  {
    if b == [] {
      assert a + b == a;
    } else {
      assert (a + b)[..|a + b| - 1] == a + b[..|b| - 1];
      LastOfParts(a, b[..|b| - 1], key);
    }
  }

  lemma {:induction false} SilentLines(lines: seq<string>, key: string)
    requires forall i :: 0 <= i < |lines| ==> !Says(lines[i], key)
    ensures LastOf(lines, key) == None
    decreases |lines|
  {
    if lines != [] { SilentLines(lines[..|lines| - 1], key); }
  }

  lemma EmptyLineIsSilent(key: string)
    ensures !Says("", key)
  {
  }

  lemma LastOfSnoc(lines: seq<string>, last: string, key: string)
    ensures LastOf(lines + [last], key) == if Says(last, key) then Some(EntryOf(last).value.value) else LastOf(lines, key)
  {
    assert (lines + [last])[..|lines|] == lines;
  }

  lemma ClosedSays(text: string, key: string)
    ensures LastOf(ClosedLines(text), key) == FileValue(text, key)
  {
    EmptyLineIsSilent(key);
    if text == "" {
      assert LastOf([""], key) == LastOf([""][..0], key);
    } else if text[|text| - 1] == '\n' {
      LeftoverOfClosed(text);
      assert Lines(text) == Full(text) + [""];
      LastOfParts(Full(text), [""], key);
      assert LastOf([""], key) == LastOf([""][..0], key);
    }
  }

  lemma UnlinesSay(lines: seq<string>, key: string)
    requires AreLines(lines)
    ensures FileValue(Unlines(lines), key) == LastOf(lines, key)
  {
    LinesOfUnlines(lines, "");
    assert Unlines(lines) + "" == Unlines(lines);
    EmptyLineIsSilent(key);
    LastOfParts(lines, [""], key);
    assert LastOf([""], key) == LastOf([""][..0], key);
  }

  lemma TrimIgnoresLead(lead: string, s: string)
    requires AllSpace(lead)
    ensures Trim(lead + s) == Trim(s)
  {
    var before, after := TrimTakesBlanks(s);
    TrimmedIsFixed(s);
    assert lead + s == (lead + before) + Trim(s) + after;
    TrimOfPadded(lead + before, Trim(s), after);
  }

  /** Trailing blanks do not change what a line says. */
  lemma EntryOfTrimEnd(line: string)
    ensures Trim(TrimEnd(line)) == Trim(line) && EntryOf(TrimEnd(line)) == EntryOf(line)
  {
    var before, after := TrimTakesBlanks(TrimEnd(line));
    TrimmedIsFixed(TrimEnd(line));
    var core := Trim(TrimEnd(line));
    var blank := TrimEndTakesBlanks(line);
    assert line == TrimEnd(line) + blank;
    Reassociate(before, core, after, blank);
    TrimOfPadded(before, core, after + blank);
  }

  lemma NotBlank(s: string)
    requires s != "" && !IsSpace(s[0])
    ensures !AllSpace(s)
  {
  }

  lemma TrimKeepsFirst(s: string)
    requires s != "" && !IsSpace(s[0])
    ensures Trim(s) != "" && Trim(s)[0] == s[0]
  {
    var after := TrimEndTakesBlanks(s);
    NotBlank(s);
    assert s == TrimEnd(s) + after && after != s;
  }

  lemma CommentIsSilent(rest: string, key: string)
    ensures !Says("#" + rest, key)
  {
    TrimKeepsFirst("#" + rest);
  }
}
