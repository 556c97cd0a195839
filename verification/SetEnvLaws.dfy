/** When a value that was set is the value that is read. */
module SetEnvLaws {
  import opened Options
  import opened Text
  import opened EnvFile
  import opened SetEnv

  /** A value that reaches the file as it is and that the reader takes as it is. */
  predicate IsPlain(v: string) {
    IsTrimmed(v) && '\n' !in v && Unquote(v) == v && NoPattern(v)
  }

  predicate NoPattern(s: string) {
    forall i :: 0 <= i < |s| - 1 && s[i] == '$' ==> s[i + 1] !in "$&`'"
  }

  lemma {:induction false} PlainIsNotExpanded(s: string, before: string, matched: string, after: string)
    requires NoPattern(s)
    ensures Expand(s, before, matched, after) == s
    decreases |s|
  {
    if |s| >= 2 {
      assert NoPattern(s[1..]) by {
        forall i | 0 <= i < |s[1..]| - 1 && s[1..][i] == '$'
          ensures s[1..][i + 1] !in "$&`'"
        {
          assert s[i + 1 + 1] !in "$&`'";
        }
      }
      PlainIsNotExpanded(s[1..], before, matched, after);
      assert s == [s[0]] + s[1..];
      assert s[0] == '$' ==> s[0 + 1] !in "$&`'";
    }
  }

  lemma NewLineIsPlain(key: string, v: string)
    requires IsKey(key) && NoPattern(v)
    ensures NoPattern(key + "=" + v)
  {
    var s := key + "=" + v;
    forall i | 0 <= i < |s| - 1 && s[i] == '$'
      ensures s[i + 1] !in "$&`'"
    {
      assert i > |key|;
      assert s[i] == v[i - |key| - 1] && s[i + 1] == v[i - |key| - 1 + 1];
    }
  }

  // ---------------------------------------------------------------------------------------------
  // The surroundings of the match
  // ---------------------------------------------------------------------------------------------

  /** The first match, and the text around it. */
  datatype Match = Match(before: string, matched: string, after: string)

  function FindMatch(content: string, key: string): Option<Match> {
    var at := MatchFrom(content, key, 0);
    if at.None? then None
    else
      var end := EndOfLine(content, at.value);
      Some(Match(content[..at.value], content[at.value..end], content[end..]))
  }

  /** The parts of the reader's line on either side of the match. */
  function Pre(m: Match): string {
    Leftover(m.before)
  }

  function Post(m: Match): string {
    Lines(m.after)[0]
  }

  function Later(m: Match): seq<string> {
    Lines(m.after)[1..]
  }

  /** What a caller can check before setting a key: it has no line yet, or the first one has a reader's
      line to itself and none after it speaks of the key. */
  predicate IsClear(content: string, key: string) {
    var m := FindMatch(content, key);
    m.Some? ==> AllSpace(Pre(m.value)) && AllSpace(Post(m.value)) && LastOf(Later(m.value), key).None?
  }

  lemma KeyHasNoBreak(key: string, i: nat)
    requires IsKey(key) && i <= |key|
    ensures !IsLineBreak((key + "=")[i])
  {
  }

  lemma EndIsBeyond(content: string, key: string, at: nat, j: nat)
    requires IsKey(key) && MatchesAt(content, key, at) && at <= j <= |content|
    requires j < |content| ==> IsLineBreak(content[j])
    ensures j >= at + |key| + 1
  {
    forall i | at <= i <= at + |key|
      ensures !IsLineBreak(content[i])
    {
      KeyHasNoBreak(key, i - at);
      assert content[at..at + |key| + 1][i - at] == content[i];
    }
  }

  lemma MatchParts(content: string, key: string)
    requires IsKey(key) && FindMatch(content, key).Some?
    ensures var m := FindMatch(content, key).value;
            && content == m.before + m.matched + m.after
            && key + "=" <= m.matched && '\n' !in m.matched
  {
    var at := MatchFrom(content, key, 0).value;
    var end := EndOfLine(content, at);
    EndIsBeyond(content, key, at, end);
    PieceHasNoBreak(content, at, end);
    assert content[at..end][..|key| + 1] == content[at..at + |key| + 1];
  }

  lemma PieceHasNoBreak(content: string, at: nat, end: nat)
    requires at <= end <= |content| && forall j :: at <= j < end ==> !IsLineBreak(content[j])
    ensures '\n' !in content[at..end]
  {
  }

  /** The new text, for a plain value. */
  lemma UpdatedPlain(content: string, key: string, v: string)
    requires IsKey(key) && NoPattern(v)
    ensures FindMatch(content, key).Some? ==>
              var m := FindMatch(content, key).value;
              Updated(content, key, v) == m.before + (key + "=" + v) + m.after
  {
    NewLineIsPlain(key, v);
    var m := FindMatch(content, key);
    if m.Some? { PlainIsNotExpanded(key + "=" + v, m.value.before, m.value.matched, m.value.after); }
  }

  /** A line whose part after `KEY=` is a plain value and blanks. */
  lemma PlainLineSays(pre: string, key: string, v: string, post: string)
    requires IsKey(key) && AllSpace(pre) && AllSpace(post) && IsTrimmed(v) && Unquote(v) == v
    ensures EntryOf(pre + (key + "=" + v) + post) == Some(Entry(key, v))
  {
    KeyLineSays(pre, key, v + post);
    Regroup(pre, key + "=", v, post);
    TrimOfFollowed(v, post);
  }

  lemma Regroup(a: string, b: string, c: string, d: string)
    ensures a + (b + (c + d)) == a + (b + c) + d
  {
  }

  lemma TrimOfFollowed(v: string, post: string)
    requires AllSpace(post) && IsTrimmed(v)
    ensures Trim(v + post) == v
  {
    TrimOfPadded("", v, post);
    assert "" + v + post == v + post;
  }

  lemma MatchedLineSays(pre: string, key: string, matched: string, post: string)
    requires IsKey(key) && AllSpace(pre) && key + "=" <= matched
    ensures Says(pre + matched + post, key)
  {
    var rest := matched[|key| + 1..];
    assert matched == key + "=" + rest;
    KeyLineSays(pre, key, rest + post);
    Regroup(pre, key + "=", rest, post);
  }

  // ---------------------------------------------------------------------------------------------
  // Replacing
  // ---------------------------------------------------------------------------------------------

  lemma ReplacedSays(content: string, key: string, v: string, k: string)
    requires IsKey(key) && IsPlain(v) && FindMatch(content, key).Some? && IsClear(content, key)
    ensures FileValue(Updated(content, key, v), k) == if k == key then Some(v) else FileValue(content, k)
  {
    var m := FindMatch(content, key).value;
    MatchParts(content, key);
    UpdatedPlain(content, key, v);
    SaysAround(m.before, key + "=" + v, m.after, k);
    SaysAround(m.before, m.matched, m.after, k);
    PlainLineSays(Pre(m), key, v, Post(m));
    MatchedLineSays(Pre(m), key, m.matched, Post(m));
  }

  // ---------------------------------------------------------------------------------------------
  // Appending
  // ---------------------------------------------------------------------------------------------

  /** Appending: the last line decides for the key, and every other key is as before. */
  lemma AppendedSays(content: string, key: string, v: string, k: string)
    requires IsKey(key) && '\n' !in v && FindMatch(content, key).None?
    ensures FileValue(Updated(content, key, v), k) == if k == key then Some(Unquote(Trim(v))) else FileValue(content, k)
  {
    var lines, line := ClosedLines(content), key + "=" + v;
    AppendedText(content, line);
    ClosedText(content);
    UnlinesSay(lines + [line], k);
    LastOfSnoc(lines, line, k);
    ClosedSays(content, k);
    KeyLineSays("", key, v);
    assert "" + line == line;
  }

  lemma AppendedText(content: string, line: string)
    ensures content + (if content != "" && content[|content| - 1] != '\n' then "\n" else "") + line + "\n"
         == Unlines(ClosedLines(content) + [line])
  {
    ClosedText(content);
    UnlinesOfParts(ClosedLines(content), [line]);
    UnlinesCons(line, []);
    assert [line] + [] == [line] && line + "\n" + "" == line + "\n";
  }

  /** Where the key has no line yet, exactly which values are read back. */
  lemma AppendedIsReadBackIff(content: string, key: string, v: string)
    requires IsKey(key) && FindMatch(content, key).None?
    ensures FileValue(Updated(content, key, v), key) == Some(v) <==> IsTrimmed(v) && '\n' !in v && Unquote(v) == v
  {
    if '\n' in v {
      FileValueIsOneLine(Updated(content, key, v), key);
    } else {
      AppendedSays(content, key, v, key);
      ReadableIff(v);
    }
  }

  lemma ReadableIff(v: string)
    ensures Unquote(Trim(v)) == v <==> IsTrimmed(v) && Unquote(v) == v
  {
    TrimmedIsFixed(v);
    var before, after := TrimTakesBlanks(v);
    assert |v| == |before| + |Trim(v)| + |after|;
  }

  lemma FileValueIsOneLine(text: string, key: string)
    ensures FileValue(text, key).Some? ==> '\n' !in FileValue(text, key).value
  {
    LastIsOneLine(Lines(text), key);
  }

  lemma {:induction false} LastIsOneLine(lines: seq<string>, key: string)
    requires AreLines(lines)
    ensures LastOf(lines, key).Some? ==> '\n' !in LastOf(lines, key).value
    decreases |lines|
  {
    if lines != [] {
      var last := lines[|lines| - 1];
      LastIsOneLine(lines[..|lines| - 1], key);
      if Says(last, key) { ValueIsPart(last); }
    }
  }

  lemma ValueIsPart(line: string)
    requires '\n' !in line && EntryOf(line).Some?
    ensures '\n' !in EntryOf(line).value.value
  {
    var t := Trim(line);
    TrimIsPart(line, '\n');
    var rest := t[IndexOf(t, '=').value + 1..];
    assert '\n' !in rest;
    TrimIsPart(rest, '\n');
  }

  // ---------------------------------------------------------------------------------------------
  // The law, and where it fails
  // ---------------------------------------------------------------------------------------------

  /** Setting a plain value and reading: the key has the new value and every other key its old one,
      if the file is clear for the key. */
  lemma SetThenRead(content: string, key: string, v: string, k: string)
    requires IsKey(key) && IsPlain(v) && IsClear(content, key)
    ensures FileValue(Updated(content, key, v), k) == if k == key then Some(v) else FileValue(content, k)
  {
    if FindMatch(content, key).Some? {
      ReplacedSays(content, key, v, k);
    } else {
      AppendedSays(content, key, v, k);
      TrimmedIsFixed(v);
    }
  }

  lemma KeptEquals(s: string)
    requires '=' in s
    ensures '=' in Unquote(Trim(s))
  {
    var before, after := TrimTakesBlanks(s);
    BlankHasNoEquals(before);
    BlankHasNoEquals(after);
    var t := Trim(s);
    assert '=' in before + t + after ==> '=' in before || '=' in t || '=' in after;
    var i :| 0 <= i < |t| && t[i] == '=';
    if Unquote(t) != t { assert t[1..|t| - 1][i - 1] == '='; }
  }

  lemma BlankHasNoEquals(s: string)
    requires AllSpace(s)
    ensures '=' !in s
  {
  }

  /** If something stands before `KEY=` on the reader's line, the line does not give the key a value
      without an equals sign. */
  lemma CrowdedLine(pre: string, key: string, rest: string)
    requires IsKey(key) && !AllSpace(pre)
    ensures Says(pre + (key + "=" + rest), key) ==> '=' in EntryOf(pre + (key + "=" + rest)).value.value
  {
    var blank := TrimStartTakesBlanks(pre);
    var p := TrimStart(pre);
    assert p != "";
    KeyHasNoBlank(key);
    var x := p + key + "=";
    var line := pre + (key + "=" + rest);
    assert line == blank + (x + rest);
    TrimIgnoresLead(blank, x + rest);
    assert (x + rest)[0] == p[0];
    assert TrimStart(x + rest) == x + rest;
    assert x[|x| - 1] == '=';
    TrimEndKeeps(x, rest);
    CrowdedAssignment(p, key, TrimEnd(rest));
  }

  lemma CrowdedAssignment(p: string, key: string, rest: string)
    requires IsKey(key) && p != "" && !IsSpace(p[0])
    ensures var a := Assignment(p + key + "=" + rest);
            a.Some? && a.value.key == key ==> '=' in a.value.value
  {
    KeyHasNoBlank(key);
    var t := p + key + "=" + rest;
    var i := IndexOf(p, '=');
    IndexOfIsFirst(p, '=');
    if i.Some? {
      var k := i.value;
      assert t == p[..k] + ['='] + (p[k + 1..] + key + "=" + rest);
      IndexOfFirst(p[..k], '=', p[k + 1..] + key + "=" + rest);
      var tail := p[k + 1..] + key + "=" + rest;
      assert t[k + 1..] == tail;
      assert tail[|p| - k - 1 + |key|] == '=';
      KeptEquals(tail);
    } else {
      assert t == (p + key) + ['='] + rest;
      IndexOfFirst(p + key, '=', rest);
      assert t[..|p + key|] == p + key;
      assert (p + key)[0] == p[0] && (p + key)[|p + key| - 1] == key[|key| - 1];
      TrimmedIsFixed(p + key);
      assert |p + key| > |key|;
    }
  }

  lemma TrailedValue(v: string, post: string)
    requires (v == "0" || v == "1") && !AllSpace(post)
    ensures Unquote(Trim(v + post)) != v
  {
    assert TrimStart(v + post) == v + post;
    TrimEndKeeps(v, post);
    var after := TrimEndTakesBlanks(post);
    assert TrimEnd(post) == "" ==> post == after;
    assert (v + TrimEnd(post))[0] == v[0];
  }

  /** In a file that is not clear for the key, not both of these values are read back. */
  lemma UnclearFails(content: string, key: string)
    requires IsKey(key) && !IsClear(content, key)
    ensures FileValue(Updated(content, key, "0"), key) != Some("0") || FileValue(Updated(content, key, "1"), key) != Some("1")
  {
    var m := FindMatch(content, key).value;
    MatchParts(content, key);
    UnclearLine(content, key, "0");
    UnclearLine(content, key, "1");
  }

  /** What the file answers does not depend on the new value, or is not the new value. */
  lemma UnclearLine(content: string, key: string, v: string)
    requires IsKey(key) && !IsClear(content, key) && (v == "0" || v == "1")
    ensures var m := FindMatch(content, key).value;
            var later := LastOf(Later(m), key);
            FileValue(Updated(content, key, v), key) == Some(v) ==>
              FileValue(Updated(content, key, v), key) == if later.Some? then later else LastOf(Full(m.before), key)
  {
    var m := FindMatch(content, key).value;
    UpdatedPlain(content, key, v);
    SaysAround(m.before, key + "=" + v, m.after, key);
    Regroup(Pre(m), key + "=", v, Post(m));
    if !AllSpace(Pre(m)) {
      CrowdedLine(Pre(m), key, v + Post(m));
    } else if !AllSpace(Post(m)) {
      KeyLineSays(Pre(m), key, v + Post(m));
      TrailedValue(v, Post(m));
    }
  }

  /** Setting and then reading gives the new value, for every plain value, exactly when the file is clear
      for the key. */
  lemma SetThenReadIff(content: string, key: string)
    requires IsKey(key)
    ensures (forall v :: IsPlain(v) ==> FileValue(Updated(content, key, v), key) == Some(v)) <==> IsClear(content, key)
  {
    if IsClear(content, key) {
      forall v | IsPlain(v)
        ensures FileValue(Updated(content, key, v), key) == Some(v)
      {
        SetThenRead(content, key, v, key);
      }
    } else {
      UnclearFails(content, key);
      DigitsArePlain();
    }
  }

  lemma DigitsArePlain()
    ensures IsPlain("0") && IsPlain("1")
  {
  }

  // ---------------------------------------------------------------------------------------------
  // Which values survive a replacement
  // ---------------------------------------------------------------------------------------------

  /** Whether the expansion puts the matched line in. */
  predicate PutsMatch(template: string) {
    if |template| < 2 then false
    else if template[0] == '$' && template[1] == '&' then true
    else if template[0] == '$' && template[1] in "$`'" then PutsMatch(template[2..])
    else PutsMatch(template[1..])
  }

  lemma {:induction false} MatchIsPut(template: string, matched: string) returns (before: string, after: string)
    requires PutsMatch(template)
    ensures Expand(template, "", matched, "") == before + matched + after
    decreases |template|
  {
    if template[0] == '$' && template[1] == '&' {
      before, after := "", Expand(template[2..], "", matched, "");
      assert before + matched + after == matched + after;
    } else if template[0] == '$' && template[1] in "$`'" {
      var b, a := MatchIsPut(template[2..], matched);
      before, after := (if template[1] == '$' then "$" else "") + b, a;
      assert before + matched + after == (if template[1] == '$' then "$" else "") + (b + matched + a);
    } else {
      var b, a := MatchIsPut(template[1..], matched);
      before, after := [template[0]] + b, a;
      assert before + matched + after == [template[0]] + (b + matched + a);
    }
  }

  lemma LaterPattern(s: string)
    requires |s| >= 2 && !NoPattern(s) && !(s[0] == '$' && s[1] in "$&`'")
    ensures !NoPattern(s[1..])
  {
    var i :| 0 <= i < |s| - 1 && s[i] == '$' && s[i + 1] in "$&`'";
    assert s[1..][i - 1] == '$' && s[1..][i - 1 + 1] in "$&`'";
  }

  /** Without it, nothing grows, and a pattern makes the text shorter. */
  lemma {:induction false} OtherPatternsShrink(template: string, matched: string)
    requires !PutsMatch(template)
    ensures |Expand(template, "", matched, "")| <= |template|
    ensures !NoPattern(template) ==> |Expand(template, "", matched, "")| < |template|
    decreases |template|
  {
    if |template| >= 2 {
      if template[0] == '$' && template[1] in "$`'" {
        OtherPatternsShrink(template[2..], matched);
      } else {
        OtherPatternsShrink(template[1..], matched);
        if !NoPattern(template) { LaterPattern(template); }
      }
    }
  }

  lemma {:induction false} HeadIsNotExpanded(head: string, v: string, matched: string)
    requires '$' !in head
    ensures Expand(head + v, "", matched, "") == head + Expand(v, "", matched, "")
    decreases |head|
  {
    if head == "" {
      assert head + v == v;
    } else {
      assert (head + v)[0] == head[0] && (head + v)[1..] == head[1..] + v;
      OneIsNotExpanded(head + v, matched);
      HeadIsNotExpanded(head[1..], v, matched);
      assert head == [head[0]] + head[1..];
    }
  }

  lemma OneIsNotExpanded(s: string, matched: string)
    requires s != "" && s[0] != '$'
    ensures Expand(s, "", matched, "") == [s[0]] + Expand(s[1..], "", matched, "")
  {
    if |s| == 1 {
      assert s[1..] == "" && s == [s[0]];
    }
  }

  lemma TrimKeepsMiddle(a: string, m: string, b: string)
    requires m != "" && IsTrimmed(m)
    ensures |Trim(a + m + b)| >= |m|
  {
    var s := a + m + b;
    var before, after := TrimTakesBlanks(s);
    BlankEnds(before, Trim(s), after, a, m, b);
  }

  lemma BlankEnds(before: string, t: string, after: string, a: string, m: string, b: string)
    requires before + t + after == a + m + b && AllSpace(before) && AllSpace(after)
    requires m != "" && !IsSpace(m[0]) && !IsSpace(m[|m| - 1])
    ensures |t| >= |m|
  {
    var s := a + m + b;
    assert s[|a|] == m[0] && s[|a| + |m| - 1] == m[|m| - 1];
    BlankBefore(s, before, t + after, |a|);
    BlankAfter(s, before + t, after, |a| + |m| - 1);
  }

  lemma BlankBefore(s: string, before: string, rest: string, k: nat)
    requires s == before + rest && k < |s|
    ensures AllSpace(before) && k < |before| ==> IsSpace(s[k])
  {
  }

  lemma BlankAfter(s: string, rest: string, after: string, k: nat)
    requires s == rest + after && k < |s|
    ensures AllSpace(after) && k >= |rest| ==> IsSpace(s[k])
  {
  }

  lemma UnquoteIsShorter(v: string)
    ensures |v| - 2 <= |Unquote(v)| <= |v|
  {
  }

  lemma TrimIsShorter(v: string)
    ensures |Trim(v)| <= |v|
  {
    var before, after := TrimTakesBlanks(v);
    assert |v| == |before| + |Trim(v)| + |after|;
  }

  /** A line longer than the value, alone in the file. */
  function LongLine(key: string, n: nat): string {
    key + "=" + Xs(n)
  }

  function Xs(n: nat): (r: string)
    ensures |r| == n && forall i :: 0 <= i < n ==> r[i] == 'x'
  {
    seq(n, _ => 'x')
  }

  lemma LongLineMatches(key: string, n: nat)
    requires IsKey(key)
    ensures FindMatch(LongLine(key, n), key) == Some(Match("", LongLine(key, n), "")) && IsClear(LongLine(key, n), key)
  {
    var c := LongLine(key, n);
    assert c[0..|key| + 1] == key + "=" && MatchesAt(c, key, 0);
    forall i | 0 <= i < |c|
      ensures !IsLineBreak(c[i])
    {
      if i <= |key| { KeyHasNoBreak(key, i); }
    }
    assert EndOfLine(c, 0) == |c|;
    assert c[..0] == "" && c[0..|c|] == c && c[|c|..] == "";
    var m := Match("", c, "");
    assert Pre(m) == "" && Post(m) == "" && Later(m) == [];
  }

  lemma LongLineUpdated(key: string, n: nat, v: string)
    requires IsKey(key)
    ensures Updated(LongLine(key, n), key, v) == key + "=" + Expand(v, "", LongLine(key, n), "")
  {
    LongLineMatches(key, n);
    var head := key + "=";
    KeyHasNoDollar(key);
    HeadIsNotExpanded(head, v, LongLine(key, n));
    assert "" + Expand(head + v, "", LongLine(key, n), "") + "" == Expand(head + v, "", LongLine(key, n), "");
  }

  lemma KeyHasNoDollar(key: string)
    requires IsKey(key)
    ensures '$' !in key + "="
  {
  }

  lemma {:induction false} ExpandIsOneLine(template: string, matched: string)
    requires '\n' !in template && '\n' !in matched
    ensures '\n' !in Expand(template, "", matched, "")
    decreases |template|
  {
    if |template| >= 2 {
      ExpandIsOneLine(template[1..], matched);
      ExpandIsOneLine(template[2..], matched);
    }
  }

  lemma LineSays(key: string, rest: string)
    requires IsKey(key) && '\n' !in rest
    ensures FileValue(key + "=" + rest, key) == Some(Unquote(Trim(rest)))
  {
    var line := key + "=" + rest;
    KeyHasNoBlank(key);
    forall i | 0 <= i < |key|
      ensures key[i] != '\n'
    {
      KeyHasNoBreak(key, i);
    }
    OneLine(line);
    KeyLineSays("", key, rest);
    assert "" + line == line;
    LastOfSnoc([], line, key);
    assert [] + [line] == [line];
  }

  lemma LongLineIsOneLine(key: string, n: nat)
    requires IsKey(key)
    ensures '\n' !in LongLine(key, n) && IsTrimmed(LongLine(key, n)) && |LongLine(key, n)| > n
  {
    forall i | 0 <= i <= |key|
      ensures (key + "=")[i] != '\n'
    {
      KeyHasNoBreak(key, i);
    }
  }

  /** Written over a long line, a value that is not plain does not come back. */
  lemma NotPlainIsLost(key: string, v: string)
    requires IsKey(key) && !IsPlain(v)
    ensures FileValue(Updated(LongLine(key, |v| + 2), key, v), key) != Some(v)
  {
    var n := |v| + 2;
    var matched := LongLine(key, n);
    var content := Updated(matched, key, v);
    if '\n' in v {
      FileValueIsOneLine(content, key);
    } else {
      var expanded := Expand(v, "", matched, "");
      LongLineUpdated(key, n, v);
      LongLineIsOneLine(key, n);
      ExpandIsOneLine(v, matched);
      LineSays(key, expanded);
      if NoPattern(v) {
        PlainIsNotExpanded(v, "", matched, "");
        ReadableIff(v);
      } else if PutsMatch(v) {
        var before, after := MatchIsPut(v, matched);
        TrimKeepsMiddle(before, matched, after);
        UnquoteIsShorter(Trim(expanded));
      } else {
        OtherPatternsShrink(v, matched);
        TrimIsShorter(expanded);
        UnquoteIsShorter(Trim(expanded));
      }
    }
  }

  /** Exactly which values can be relied on: a value is read back from every file that is clear for its key
      and has a line for it, if and only if it is plain. */
  lemma ReplacedIsReadBackIffPlain(key: string, v: string)
    requires IsKey(key)
    ensures (forall content :: FindMatch(content, key).Some? && IsClear(content, key) ==>
               FileValue(Updated(content, key, v), key) == Some(v)) <==> IsPlain(v)
  {
    if IsPlain(v) {
      forall content | FindMatch(content, key).Some? && IsClear(content, key)
        ensures FileValue(Updated(content, key, v), key) == Some(v)
      {
        SetThenRead(content, key, v, key);
      }
    } else {
      LongLineMatches(key, |v| + 2);
      NotPlainIsLost(key, v);
    }
  }

  lemma DuplicateMatch()
    ensures FindMatch("K=a\nK=b", "K") == Some(Match("", "K=a", "\nK=b"))
  {
    var content := "K=a\nK=b";
    assert content[0..2] == "K=" && MatchesAt(content, "K", 0);
    assert EndOfLine(content, 3) == 3 && EndOfLine(content, 2) == 3 && EndOfLine(content, 1) == 3;
    assert content[..0] == "" && content[0..3] == "K=a" && content[3..] == "\nK=b";
  }

  lemma LaterOfDuplicate()
    ensures Later(Match("", "K=a", "\nK=b")) == ["K=b"] && LastOf(["K=b"], "K").Some?
  {
    LineThenRest("", "K=b");
    OneLine("K=b");
    assert "" + "\n" + "K=b" == "\nK=b";
    KeyLineSays("", "K", "b");
    assert "" + ("K" + "=" + "b") == "K=b";
    assert Says(["K=b"][0], "K");
  }

  /** For instance: a second line for the key hides the new value, and the reader answers with the old one. */
  lemma DuplicateHidesNewValue()
    ensures !IsClear("K=a\nK=b", "K") && Updated("K=a\nK=b", "K", "c") == "K=c\nK=b"
    ensures FileValue("K=c\nK=b", "K") == Some("b")
  {
    DuplicateMatch();
    LaterOfDuplicate();
    SpokenForIsNotClear("K=a\nK=b", "K");
    DuplicateUpdated();
    LaterIsRead();
  }

  lemma LaterIsRead()
    ensures FileValue("K=c\nK=b", "K") == Some("b")
  {
    LastLineIsRead(["K=c"], "K", "b");
    assert ["K=c"][1..] == [] && Unlines(["K=c"]) == "K=c" + "\n" + "";
    assert "K=c\nK=b" == Unlines(["K=c"]) + ("K" + "=" + "b");
  }

  lemma LastLineIsRead(lines: seq<string>, key: string, v: string)
    requires AreLines(lines) && IsKey(key) && '\n' !in key && '\n' !in v && IsTrimmed(v) && Unquote(v) == v
    ensures FileValue(Unlines(lines) + (key + "=" + v), key) == Some(v)
  {
    LinesOfUnlines(lines, key + "=" + v);
    OneLine(key + "=" + v);
    assert Lines(Unlines(lines) + (key + "=" + v)) == lines + [key + "=" + v];
    LastOfSnoc(lines, key + "=" + v, key);
    KeyLineSays("", key, v);
    assert "" + (key + "=" + v) == key + "=" + v;
    TrimmedIsFixed(v);
  }

  lemma SpokenForIsNotClear(content: string, key: string)
    requires FindMatch(content, key).Some? && LastOf(Later(FindMatch(content, key).value), key).Some?
    ensures !IsClear(content, key)
  {
  }

  lemma DuplicateUpdated()
    ensures Updated("K=a\nK=b", "K", "c") == "K=c\nK=b"
  {
    DuplicateMatch();
    UpdatedPlain("K=a\nK=b", "K", "c");
    assert "" + ("K" + "=" + "c") + "\nK=b" == "K=c\nK=b";
  }

  /** A replacement pattern in a value is expanded when a line is replaced, and read so. */
  lemma PatternIsExpanded()
    ensures Updated("K=x", "K", "$&") == "K=K=x" && FileValue("K=K=x", "K") == Some("K=x")
  {
    ExpandedIsRead();
    MatchIsExpanded();
  }

  lemma ExpandedIsRead()
    ensures FileValue("K=K=x", "K") == Some("K=x")
  {
    LastLineIsRead([], "K", "K=x");
    assert Unlines([]) + ("K" + "=" + "K=x") == "K=K=x";
  }

  lemma MatchIsExpanded()
    ensures Updated("K=x", "K", "$&") == "K=K=x"
  {
    var content := "K=x";
    assert content[0..2] == "K=" && MatchesAt(content, "K", 0);
    assert EndOfLine(content, 3) == 3 && EndOfLine(content, 2) == 3 && EndOfLine(content, 1) == 3;
    assert content[..0] == "" && content[0..3] == "K=x" && content[3..] == "";
    var t := "K" + "=" + "$&";
    assert t[1..] == "=$&" && t[1..][1..] == "$&" && t[1..][1..][2..] == "";
    assert Expand("$&", "", "K=x", "") == "K=x" + Expand("$&"[2..], "", "K=x", "");
    assert Expand("=$&", "", "K=x", "") == ['='] + Expand("=$&"[1..], "", "K=x", "");
  }

  // ---------------------------------------------------------------------------------------------
  // What is written
  // ---------------------------------------------------------------------------------------------

  /** The keys that are accepted: a capital letter, then capital letters, digits and underscores. */
  lemma KeysAre(key: string)
    ensures var letters := "ABCDEFGHIJKLMNOPQRSTUVWXYZ";
            IsKey(key) <==>
              key != "" && key[0] in letters && forall i :: 0 <= i < |key| ==> key[i] in letters + "0123456789" + "_"
  {
    if key != "" { CapitalsAre(key[0]); }
    forall i | 0 <= i < |key|
      ensures key[i] in "ABCDEFGHIJKLMNOPQRSTUVWXYZ" + "0123456789" + "_" <==>
                'A' <= key[i] <= 'Z' || '0' <= key[i] <= '9' || key[i] == '_'
    {
      KeyCharacter(key[i]);
    }
  }

  lemma KeyCharacter(c: char)
    ensures c in "ABCDEFGHIJKLMNOPQRSTUVWXYZ" + "0123456789" + "_" <==> 'A' <= c <= 'Z' || '0' <= c <= '9' || c == '_'
  {
    CapitalsAre(c);
    DigitsAre(c);
    InParts(c, "ABCDEFGHIJKLMNOPQRSTUVWXYZ", "0123456789", "_");
  }

  lemma InParts<T>(x: T, a: seq<T>, b: seq<T>, c: seq<T>)
    ensures x in a + b + c <==> x in a || x in b || x in c
  {
  }

  /** At the start of a line stands the key with its equals sign. */
  predicate StartsLineAt(content: string, key: string, i: nat) {
    i <= |content| && (i == 0 || content[i - 1] in "\n\r\U{2028}\U{2029}") && key + "=" <= content[i..]
  }

  lemma MatchesIffStartsLine(content: string, key: string, i: nat)
    ensures MatchesAt(content, key, i) <==> StartsLineAt(content, key, i)
  {
    if i <= |content| && key + "=" <= content[i..] {
      assert content[i..][..|key| + 1] == content[i..i + |key| + 1];
    }
    if MatchesAt(content, key, i) {
      assert content[i..][..|key| + 1] == content[i..i + |key| + 1];
    }
  }

  /** The first line that starts so, up to its line break, is replaced by the new one; without such a line the new one
      is appended as a line of its own. */
  lemma UpdatedAt(content: string, key: string, v: string, i: nat)
    requires NoPattern(v) && IsKey(key)
    ensures (forall j: nat :: !StartsLineAt(content, key, j)) ==>
              Updated(content, key, v) ==
                content + (if content == "" || content[|content| - 1] == '\n' then "" else "\n") + (key + "=" + v) + "\n"
    ensures StartsLineAt(content, key, i) && (forall j: nat :: j < i ==> !StartsLineAt(content, key, j)) ==>
              Updated(content, key, v) == content[..i] + (key + "=" + v) + content[EndOfLine(content, i)..]
  {
    forall j: nat
      ensures MatchesAt(content, key, j) <==> StartsLineAt(content, key, j)
    {
      MatchesIffStartsLine(content, key, j);
    }
    UpdatedPlain(content, key, v);
    var at := MatchFrom(content, key, 0);
    if StartsLineAt(content, key, i) && forall j: nat :: j < i ==> !StartsLineAt(content, key, j) {
      assert at == Some(i);
    }
  }

  /** The four replacement patterns; any other dollar sign stays. */
  lemma PatternsAre(before: string, matched: string, after: string, c: char)
    ensures Expand(['$', c], before, matched, after) ==
            if c == '$' then "$" else if c == '&' then matched else if c == '`' then before
            else if c == '\'' then after else ['$', c]
  {
    var s := ['$', c];
    assert s[2..] == "" && s[1..] == [c];
  }
}
