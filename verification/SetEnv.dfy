/** Writing one key into the `.env` file: replace the first matching line, or append. */
module SetEnv {
  import opened Options
  import opened Text
  import opened EnvFile

  /** `/^[A-Z][A-Z0-9_]*$/` */
  predicate IsKey(key: string) {
    && key != "" && 'A' <= key[0] <= 'Z'
    && forall i :: 0 <= i < |key| ==> 'A' <= key[i] <= 'Z' || '0' <= key[i] <= '9' || key[i] == '_'
  }

  /** `^KEY=` at position i, in multi-line mode. */
  predicate MatchesAt(content: string, key: string, i: nat) {
    && i + |key| + 1 <= |content| && content[i..i + |key| + 1] == key + "="
    && (i == 0 || IsLineBreak(content[i - 1]))
  }

  function MatchFrom(content: string, key: string, i: nat): (r: Option<nat>)
    ensures r.Some? ==> i <= r.value && MatchesAt(content, key, r.value)
    ensures r.Some? ==> forall j :: i <= j < r.value ==> !MatchesAt(content, key, j)
    ensures r.None? ==> forall j :: i <= j <= |content| ==> !MatchesAt(content, key, j)
    decreases |content| - i
  {
    if MatchesAt(content, key, i) then Some(i)
    else if i < |content| then MatchFrom(content, key, i + 1)
    else None
  }

  /** The end of the line that a match reaches to. */
  function EndOfLine(content: string, i: nat): (r: nat)
    requires i <= |content|
    ensures i <= r <= |content|
    ensures forall j :: i <= j < r ==> !IsLineBreak(content[j])
    ensures r < |content| ==> IsLineBreak(content[r])
    decreases |content| - i
  {
    if i == |content| || IsLineBreak(content[i]) then i else EndOfLine(content, i + 1)
  }

  /** The replacement patterns of `String.prototype.replace`, for a pattern without groups. */
  function Expand(template: string, before: string, matched: string, after: string): string {
    if |template| < 2 then template
    else if template[0] == '$' && template[1] == '$' then "$" + Expand(template[2..], before, matched, after)
    else if template[0] == '$' && template[1] == '&' then matched + Expand(template[2..], before, matched, after)
    else if template[0] == '$' && template[1] == '`' then before + Expand(template[2..], before, matched, after)
    else if template[0] == '$' && template[1] == '\'' then after + Expand(template[2..], before, matched, after)
    else [template[0]] + Expand(template[1..], before, matched, after)
  }

  function Updated(content: string, key: string, value: string): string {
    var newLine := key + "=" + value;
    var at := MatchFrom(content, key, 0);
    if at.Some? then
      var end := EndOfLine(content, at.value);
      var before, matched, after := content[..at.value], content[at.value..end], content[end..];
      before + Expand(newLine, before, matched, after) + after
    else
      content + (if content != "" && content[|content| - 1] != '\n' then "\n" else "") + newLine + "\n"
  }

  /** `file` is the text of the file, if there is one; None is returned for the exception that refuses a
      key, before anything is written. */
  method Run(file: Option<string>, key: string, value: string) returns (written: Option<string>)
    ensures written == if IsKey(key) then Some(Updated(if file.Some? then file.value else "", key, value)) else None
  {
    if !IsKey(key) { return None; }
    var content := "";
    if file.Some? { content := file.value; }
    var at := MatchFrom(content, key, 0);
    var newLine := key + "=" + value;
    if at.Some? {
      var end := EndOfLine(content, at.value);
      content := content[..at.value] + Expand(newLine, content[..at.value], content[at.value..end], content[end..]) + content[end..];
    } else {
      var sep := if content != "" && content[|content| - 1] != '\n' then "\n" else "";
      content := content + sep + newLine + "\n";
    }
    written := Some(content);
  }

  // ---------------------------------------------------------------------------------------------
  // What a line with the key says
  // ---------------------------------------------------------------------------------------------

  lemma {:induction false} TrimEndKeeps(x: string, rest: string)
    requires x != "" && !IsSpace(x[|x| - 1])
    ensures TrimEnd(x + rest) == x + TrimEnd(rest)
    decreases |rest|
  {
    if rest == "" {
      assert x + rest == x;
    } else {
      assert (x + rest)[|x + rest| - 1] == rest[|rest| - 1];
      assert (x + rest)[..|x + rest| - 1] == x + rest[..|rest| - 1];
      TrimEndKeeps(x, rest[..|rest| - 1]);
    }
  }

  lemma KeyHasNoBlank(key: string)
    requires IsKey(key)
    ensures '=' !in key && IsTrimmed(key) && Trim(key) == key && key[0] != '#'
  {
    TrimmedIsFixed(key);
  }

  /** After blanks, `KEY=rest` says that the key has the trimmed and unquoted rest. */
  lemma KeyLineSays(pre: string, key: string, rest: string)
    requires IsKey(key) && AllSpace(pre)
    ensures EntryOf(pre + (key + "=" + rest)) == Some(Entry(key, Unquote(Trim(rest))))
  {
    KeyHasNoBlank(key);
    var x := key + "=";
    TrimIgnoresLead(pre, x + rest);
    assert x[0] == key[0] && x[|x| - 1] == '=';
    assert !IsSpace((x + rest)[0]);
    assert TrimStart(x + rest) == x + rest;
    TrimEndKeeps(x, rest);
    var trimmed := x + TrimEnd(rest);
    assert trimmed == key + ['='] + TrimEnd(rest);
    IndexOfFirst(key, '=', TrimEnd(rest));
    assert trimmed[..|key|] == key && trimmed[|key| + 1..] == TrimEnd(rest);
    EntryOfTrimEnd(rest);
  }

  // ---------------------------------------------------------------------------------------------
  // The lines around the match
  // ---------------------------------------------------------------------------------------------

  lemma {:induction false} PrependLine(x: string, s: string)
    requires '\n' !in x
    ensures Lines(x + s) == [x + Lines(s)[0]] + Lines(s)[1..]
    decreases |x|
  {
    if x == "" {
      assert x + s == s && x + Lines(s)[0] == Lines(s)[0];
    } else {
      assert (x + s)[1..] == x[1..] + s;
      PrependLine(x[1..], s);
      assert x == [x[0]] + x[1..];
      assert [x[0]] + (x[1..] + Lines(s)[0]) == x + Lines(s)[0];
    }
  }

  lemma LinesAround(before: string, x: string, after: string)
    requires '\n' !in x
    ensures Lines(before + x + after) == Full(before) + ([Leftover(before) + x + Lines(after)[0]] + Lines(after)[1..])
  {
    assert before + x + after == before + (x + after);
    LinesOfParts(before, x + after);
    assert Leftover(before) + (x + after) == (Leftover(before) + x) + after;
    assert '\n' !in Leftover(before);
    PrependLine(Leftover(before) + x, after);
  }

  /** What a text says whose middle piece is in one line. */
  lemma SaysAround(before: string, x: string, after: string, key: string)
    requires '\n' !in x
    ensures FileValue(before + x + after, key)
         == var later := LastOf(Lines(after)[1..], key);
            var line := Leftover(before) + x + Lines(after)[0];
            if later.Some? then later
            else if Says(line, key) then Some(EntryOf(line).value.value)
            else LastOf(Full(before), key)
  {
    var line := Leftover(before) + x + Lines(after)[0];
    LinesAround(before, x, after);
    LastOfParts(Full(before), [line] + Lines(after)[1..], key);
    LastOfParts([line], Lines(after)[1..], key);
    assert LastOf([line], key) == if Says(line, key) then Some(EntryOf(line).value.value) else LastOf([line][..0], key);
  }
}
