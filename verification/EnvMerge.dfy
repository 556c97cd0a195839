/** Carrying the keys of an older `.env` file over into the current one. */
module EnvMerge {
  import opened Options
  import opened Text
  import opened EnvFile

  predicate IsLetter(c: char) {
    'A' <= c <= 'Z' || 'a' <= c <= 'z' || c == '_'
  }

  /** `/^[A-Z_][A-Z0-9_]*$/i` */
  predicate IsIdentifier(key: string) {
    key != "" && IsLetter(key[0]) && forall i :: 0 <= i < |key| ==> IsLetter(key[i]) || '0' <= key[i] <= '9'
  }

  datatype Pair = Pair(key: string, line: string)

  function PairOf(line: string): Option<Pair> {
    var eq := IndexOf(line, '=');
    if line == "" || line[0] == '#' || eq.None? || eq.value == 0 then None
    else
      var key := Trim(line[..eq.value]);
      if IsIdentifier(key) then Some(Pair(key, line)) else None
  }

  function ParseLine(raw: string): Option<Pair> {
    PairOf(TrimEnd(raw))
  }

  /** A map in the order in which its keys were first set. */
  datatype Ordered = Ordered(keys: seq<string>, at: map<string, string>)

  function Put(m: Ordered, p: Pair): Ordered {
    Ordered(if p.key in m.at then m.keys else m.keys + [p.key], m.at[p.key := p.line])
  }

  function Parse(lines: seq<string>): Ordered {
    if lines == [] then Ordered([], map[])
    else
      var m, p := Parse(lines[..|lines| - 1]), ParseLine(lines[|lines| - 1]);
      if p.Some? then Put(m, p.value) else m
  }

  /** The lines of the keys that the current file does not have. */
  function Missing(keys: seq<string>, v1: map<string, string>, v2: map<string, string>): seq<string>
    requires forall k :: k in keys ==> k in v1
  {
    if keys == [] then []
    else
      var last := keys[|keys| - 1];
      var rest := Missing(keys[..|keys| - 1], v1, v2);
      if last in v2 then rest else rest + [v1[last]]
  }

  const BLOCK_START := "# ── migrated from v1 ──"

  predicate Includes(s: string, part: string) {
    part <= s || (s != "" && Includes(s[1..], part))
  }

  predicate KeysAgree(m: Ordered) {
    && (forall i, j :: 0 <= i < j < |m.keys| ==> m.keys[i] != m.keys[j])
    && (forall k :: k in m.keys ==> k in m.at)
    && (forall k :: k in m.at ==> k in m.keys)
  }

  lemma {:induction false} ParsedKeysAgree(lines: seq<string>)
    ensures KeysAgree(Parse(lines))
    decreases |lines|
  {
    if lines != [] {
      ParsedKeysAgree(lines[..|lines| - 1]);
    }
  }

  function Appended(v1Text: string, v2Text: string): seq<string> {
    ParsedKeysAgree(Lines(v1Text));
    var v1, v2 := Parse(Lines(v1Text)), Parse(Lines(v2Text));
    Missing(v1.keys, v1.at, v2.at)
  }

  function Extend(v2Text: string, appended: seq<string>): string {
    v2Text
    + (if v2Text != "" && v2Text[|v2Text| - 1] != '\n' then "\n" else "")
    + (if Includes(v2Text, BLOCK_START) then "" else "\n" + BLOCK_START + "\n")
    + Unlines(appended)
  }

  /** The text the file has afterwards; it is written only if something is missing. */
  function Merged(v1Text: string, v2Text: string): string {
    var appended := Appended(v1Text, v2Text);
    if appended == [] then v2Text else Extend(v2Text, appended)
  }

  // ---------------------------------------------------------------------------------------------
  // The two readers agree
  // ---------------------------------------------------------------------------------------------

  lemma {:induction false} IndexAfterLead(lead: string, s: string, c: char)
    requires c !in lead
    ensures IndexOf(lead + s, c) == if IndexOf(s, c).None? then None else Some(|lead| + IndexOf(s, c).value)
    decreases |lead|
  {
    if lead == "" {
      assert lead + s == s;
    } else {
      assert (lead + s)[1..] == lead[1..] + s;
      IndexAfterLead(lead[1..], s, c);
    }
  }

  lemma BlankLacks(s: string, c: char)
    requires AllSpace(s) && !IsSpace(c)
    ensures c !in s
  {
  }

  lemma CommentKey(t: string, n: nat)
    requires 0 < n <= |t| && t[0] == '#'
    ensures !IsIdentifier(Trim(t[..n]))
  {
    TrimKeepsFirst(t[..n]);
  }

  lemma KeyIsNotEmpty(t: string)
    requires IndexOf(t, '=') == Some(0)
    ensures Trim(t[..0]) == "" && !IsIdentifier(Trim(t[..0]))
  {
    TrimmedIsFixed("");
    assert t[..0] == "";
  }

  lemma PairWithoutLead(t: string)
    requires IsTrimmed(t)
    ensures PairOf(t).Some? <==> Assignment(t).Some? && IsIdentifier(Assignment(t).value.key)
    ensures PairOf(t).Some? ==> PairOf(t).value == Pair(Assignment(t).value.key, t)
  {
    if IndexOf(t, '=') == Some(0) { KeyIsNotEmpty(t); }
  }

  lemma BlankIsNoComment(lead: string, t: string)
    requires lead != "" && AllSpace(lead)
    ensures (lead + t)[0] != '#'
  {
    assert (lead + t)[0] == lead[0] && IsSpace(lead[0]);
  }

  /** Where the first equals sign of `lead + t` is, and the key before it. */
  lemma LeadingBlanks(lead: string, t: string)
    requires AllSpace(lead)
    ensures IndexOf(t, '=').None? ==> IndexOf(lead + t, '=').None?
    ensures IndexOf(t, '=').Some? ==>
              && IndexOf(lead + t, '=') == Some(|lead| + IndexOf(t, '=').value)
              && Trim((lead + t)[..|lead| + IndexOf(t, '=').value]) == Trim(t[..IndexOf(t, '=').value])
  {
    BlankLacks(lead, '=');
    IndexAfterLead(lead, t, '=');
    var eq := IndexOf(t, '=');
    if eq.Some? { KeyAfterLead(lead, t, eq.value); }
  }

  lemma PairFromParts(lead: string, t: string)
    requires lead != "" && t != "" && (lead + t)[0] != '#'
    requires IndexOf(t, '=').None? ==> IndexOf(lead + t, '=').None?
    requires IndexOf(t, '=').Some? ==>
               && IndexOf(lead + t, '=') == Some(|lead| + IndexOf(t, '=').value)
               && Trim((lead + t)[..|lead| + IndexOf(t, '=').value]) == Trim(t[..IndexOf(t, '=').value])
    requires t[0] == '#' && IndexOf(t, '=').Some? ==> !IsIdentifier(Trim(t[..IndexOf(t, '=').value]))
    ensures PairOf(lead + t).Some? <==> Assignment(t).Some? && IsIdentifier(Assignment(t).value.key)
    ensures PairOf(lead + t).Some? ==> PairOf(lead + t).value == Pair(Assignment(t).value.key, lead + t)
  {
  }

  lemma PairWithLead(lead: string, t: string)
    requires lead != "" && AllSpace(lead) && t != ""
    ensures PairOf(lead + t).Some? <==> Assignment(t).Some? && IsIdentifier(Assignment(t).value.key)
    ensures PairOf(lead + t).Some? ==> PairOf(lead + t).value == Pair(Assignment(t).value.key, lead + t)
  {
    BlankIsNoComment(lead, t);
    LeadingBlanks(lead, t);
    var eq := IndexOf(t, '=');
    if eq.Some? && t[0] == '#' { CommentKey(t, eq.value); }
    PairFromParts(lead, t);
  }

  lemma KeyAfterLead(lead: string, t: string, n: nat)
    requires AllSpace(lead) && n <= |t|
    ensures Trim((lead + t)[..|lead| + n]) == Trim(t[..n])
  {
    assert (lead + t)[..|lead| + n] == lead + t[..n];
    TrimIgnoresLead(lead, t[..n]);
  }

  /** The migration finds an identifier key on exactly the lines on which the reader finds it, and keeps
      a line that the reader understands in the same way. */
  lemma ParseAgreesWithReader(raw: string)
    ensures ParseLine(raw).Some? <==> EntryOf(raw).Some? && IsIdentifier(EntryOf(raw).value.key)
    ensures ParseLine(raw).Some? ==>
              ParseLine(raw).value.key == EntryOf(raw).value.key && EntryOf(ParseLine(raw).value.line) == EntryOf(raw)
  {
    var line := TrimEnd(raw);
    EntryOfTrimEnd(raw);
    TrimmedIsFixed(line);
    var lead, after := TrimTakesBlanks(line);
    var t := Trim(line);
    if t == "" {
      BlankLine(raw, lead, after);
    } else {
      NothingAfter(raw, lead, t, after);
      if lead == "" {
        assert line == t;
        PairWithoutLead(t);
      } else {
        PairWithLead(lead, t);
      }
    }
  }

  lemma BlankLine(raw: string, lead: string, after: string)
    requires TrimEnd(raw) == lead + "" + after && AllSpace(lead) && AllSpace(after)
    ensures TrimEnd(raw) == ""
  {
    var gone := TrimEndTakesBlanks(raw);
    assert AllSpace(lead + "" + after);
  }

  lemma NothingAfter(raw: string, lead: string, t: string, after: string)
    requires TrimEnd(raw) == lead + t + after && AllSpace(after)
    ensures TrimEnd(raw) == lead + t
  {
    var gone := TrimEndTakesBlanks(raw);
    EndIsBlank(lead + t, after);
    assert after == "" ==> lead + t + after == lead + t;
  }

  lemma EndIsBlank(x: string, after: string)
    ensures after != "" && AllSpace(after) ==> x + after != "" && IsSpace((x + after)[|x + after| - 1])
  {
    assert after != "" ==> (x + after)[|x + after| - 1] == after[|after| - 1];
  }

  // ---------------------------------------------------------------------------------------------
  // What the merged file says
  // ---------------------------------------------------------------------------------------------

  lemma TrimEndLacks(s: string, c: char)
    requires c !in s
    ensures c !in TrimEnd(s)
  {
    var gone := TrimEndTakesBlanks(s);
    assert c in TrimEnd(s) ==> c in TrimEnd(s) + gone;
  }

  /** The parsed map holds exactly the identifier keys the reader would find, each with a line that says
      what the reader would answer. */
  lemma {:induction false} ParsedSaysTheSame(lines: seq<string>, key: string)
    requires AreLines(lines)
    ensures var m := Parse(lines);
            && (key in m.at <==> IsIdentifier(key) && LastOf(lines, key).Some?)
            && (key in m.at ==> EntryOf(m.at[key]) == Some(Entry(key, LastOf(lines, key).value)) && '\n' !in m.at[key])
    decreases |lines|
  {
    if lines != [] {
      var n := |lines| - 1;
      ParsedSaysTheSame(lines[..n], key);
      ParseAgreesWithReader(lines[n]);
      TrimEndLacks(lines[n], '\n');
    }
  }

  /** Every line says what its key says, in one line. */
  predicate IsTable(at: map<string, string>) {
    forall k :: k in at ==> Says(at[k], k) && '\n' !in at[k]
  }

  lemma ParsedIsTable(lines: seq<string>)
    requires AreLines(lines)
    ensures IsTable(Parse(lines).at)
  {
    forall k | k in Parse(lines).at
      ensures Says(Parse(lines).at[k], k) && '\n' !in Parse(lines).at[k]
    {
      ParsedSaysTheSame(lines, k);
    }
  }

  lemma {:induction false} MissingAreLines(keys: seq<string>, v1: map<string, string>, v2: map<string, string>)
    requires IsTable(v1) && forall k :: k in keys ==> k in v1
    ensures AreLines(Missing(keys, v1, v2))
    decreases |keys|
  {
    if keys != [] {
      MissingAreLines(keys[..|keys| - 1], v1, v2);
    }
  }

  lemma {:induction false} MissingSays(keys: seq<string>, v1: map<string, string>, v2: map<string, string>, key: string)
    requires IsTable(v1) && forall k :: k in keys ==> k in v1
    ensures LastOf(Missing(keys, v1, v2), key)
         == if key in keys && key !in v2 then Some(EntryOf(v1[key]).value.value) else None
    decreases |keys|
  {
    if keys != [] {
      var n := |keys| - 1;
      var last := keys[n];
      assert keys == keys[..n] + [last];
      MissingSays(keys[..n], v1, v2, key);
      assert Says(v1[last], last);
      LastOfSnoc(Missing(keys[..n], v1, v2), v1[last], key);
    }
  }

  lemma AppendedSays(v1Text: string, v2Text: string, key: string)
    ensures AreLines(Appended(v1Text, v2Text))
    ensures LastOf(Appended(v1Text, v2Text), key)
         == if IsIdentifier(key) && FileValue(v2Text, key).None? then FileValue(v1Text, key) else None
  {
    var l1, l2 := Lines(v1Text), Lines(v2Text);
    ParsedKeysAgree(l1);
    ParsedIsTable(l1);
    MissingAreLines(Parse(l1).keys, Parse(l1).at, Parse(l2).at);
    MissingSays(Parse(l1).keys, Parse(l1).at, Parse(l2).at, key);
    ParsedSaysTheSame(l1, key);
    ParsedSaysTheSame(l2, key);
  }

  function BannerLines(v2Text: string): seq<string> {
    if Includes(v2Text, BLOCK_START) then [] else ["", BLOCK_START]
  }

  lemma BannerIsSilent(v2Text: string, key: string)
    ensures LastOf(BannerLines(v2Text), key) == None
  {
    CommentIsSilent(BLOCK_START[1..], key);
    assert "#" + BLOCK_START[1..] == BLOCK_START;
    EmptyLineIsSilent(key);
    SilentLines(BannerLines(v2Text), key);
  }

  lemma BannerText(v2Text: string)
    ensures AreLines(BannerLines(v2Text))
    ensures Unlines(BannerLines(v2Text)) == if Includes(v2Text, BLOCK_START) then "" else "\n" + BLOCK_START + "\n"
  {
    var banner := BLOCK_START;
    assert '\n' !in banner;
    UnlinesOfTwo("", banner);
    assert "" + "\n" + banner + "\n" == "\n" + banner + "\n";
  }

  lemma UnlinesOfTwo(a: string, b: string)
    ensures Unlines([a, b]) == a + "\n" + b + "\n"
  {
    assert [a, b][1..] == [b] && [b][1..] == [];
    assert Unlines([b]) == b + "\n" + "";
    assert Unlines([a, b]) == a + "\n" + Unlines([b]);
  }

  lemma MergedIsUnlines(v1Text: string, v2Text: string)
    requires Appended(v1Text, v2Text) != []
    ensures Merged(v1Text, v2Text) == Unlines(ClosedLines(v2Text) + BannerLines(v2Text) + Appended(v1Text, v2Text))
  {
    ClosedText(v2Text);
    BannerText(v2Text);
    UnlinesOfParts(ClosedLines(v2Text) + BannerLines(v2Text), Appended(v1Text, v2Text));
    UnlinesOfParts(ClosedLines(v2Text), BannerLines(v2Text));
  }

  /** After the merge the reader finds, for every identifier key, the value of the current file if that
      has the key and otherwise the last value of the older one; other keys keep their value. */
  lemma MergedSays(v1Text: string, v2Text: string, key: string)
    ensures FileValue(Merged(v1Text, v2Text), key)
         == if FileValue(v2Text, key).Some? || !IsIdentifier(key) then FileValue(v2Text, key) else FileValue(v1Text, key)
  {
    AppendedSays(v1Text, v2Text, key);
    if Appended(v1Text, v2Text) != [] {
      MergedIsUnlines(v1Text, v2Text);
      HeadSays(v2Text, key);
      var head := ClosedLines(v2Text) + BannerLines(v2Text);
      UnlinesSay(head + Appended(v1Text, v2Text), key);
      LastOfParts(head, Appended(v1Text, v2Text), key);
    }
  }

  lemma HeadSays(v2Text: string, key: string)
    ensures AreLines(ClosedLines(v2Text) + BannerLines(v2Text))
    ensures LastOf(ClosedLines(v2Text) + BannerLines(v2Text), key) == FileValue(v2Text, key)
  {
    ClosedText(v2Text);
    ClosedSays(v2Text, key);
    BannerIsSilent(v2Text, key);
    BannerText(v2Text);
    LastOfParts(ClosedLines(v2Text), BannerLines(v2Text), key);
  }

  /** Nothing of the current file is rewritten: its text stays, and comes first. */
  lemma MergedKeepsText(v1Text: string, v2Text: string)
    ensures v2Text <= Merged(v1Text, v2Text)
  {
  }

  lemma {:induction false} NothingMissingIff(keys: seq<string>, v1: map<string, string>, v2: map<string, string>)
    requires forall k :: k in keys ==> k in v1
    ensures Missing(keys, v1, v2) == [] <==> forall k :: k in keys ==> k in v2
    decreases |keys|
  {
    if keys != [] {
      var n := |keys| - 1;
      assert keys == keys[..n] + [keys[n]];
      NothingMissingIff(keys[..n], v1, v2);
    }
  }

  /** The file is written exactly when the older file has an identifier key that the current one has not. */
  lemma WritesIff(v1Text: string, v2Text: string)
    ensures Appended(v1Text, v2Text) == [] <==>
              forall key :: IsIdentifier(key) && FileValue(v1Text, key).Some? ==> FileValue(v2Text, key).Some?
  {
    var l1, l2 := Lines(v1Text), Lines(v2Text);
    var m1, m2 := Parse(l1), Parse(l2);
    ParsedKeysAgree(l1);
    NothingMissingIff(m1.keys, m1.at, m2.at);
    forall key
      ensures key in m1.keys <==> IsIdentifier(key) && FileValue(v1Text, key).Some?
      ensures key in m2.at <==> IsIdentifier(key) && FileValue(v2Text, key).Some?
    {
      ParsedSaysTheSame(l1, key);
      ParsedSaysTheSame(l2, key);
      assert key in m1.keys <==> key in m1.at;
    }
  }

  /** A second merge writes nothing. */
  lemma SecondMergeWritesNothing(v1Text: string, v2Text: string)
    ensures Appended(v1Text, Merged(v1Text, v2Text)) == []
    ensures Merged(v1Text, Merged(v1Text, v2Text)) == Merged(v1Text, v2Text)
  {
    forall key | IsIdentifier(key) && FileValue(v1Text, key).Some?
      ensures FileValue(Merged(v1Text, v2Text), key).Some?
    {
      MergedSays(v1Text, v2Text, key);
    }
    WritesIff(v1Text, Merged(v1Text, v2Text));
  }

  // ---------------------------------------------------------------------------------------------
  // The step
  // ---------------------------------------------------------------------------------------------

  method ParseEnv(text: string) returns (out: Ordered)
    ensures out == Parse(Lines(text))
  {
    out := Ordered([], map[]);
    var lines := Lines(text);
    for i := 0 to |lines|
      invariant out == Parse(lines[..i])
    {
      assert lines[..i + 1][..i] == lines[..i];
      var line := TrimEnd(lines[i]);
      if line == "" || line[0] == '#' { continue; }
      var eq := IndexOf(line, '=');
      if eq.None? || eq.value == 0 { continue; }
      var key := Trim(line[..eq.value]);
      if !IsIdentifier(key) { continue; }
      out := Ordered(if key in out.at then out.keys else out.keys + [key], out.at[key := line]);
    }
    assert lines[..|lines|] == lines;
  }

  method FindMissing(v1Lines: Ordered, v2Lines: Ordered) returns (appended: seq<string>, copied: seq<string>)
    requires forall k :: k in v1Lines.keys ==> k in v1Lines.at
    ensures appended == Missing(v1Lines.keys, v1Lines.at, v2Lines.at) && |copied| == |appended|
  {
    appended, copied := [], [];
    for i := 0 to |v1Lines.keys|
      invariant appended == Missing(v1Lines.keys[..i], v1Lines.at, v2Lines.at)
      invariant |copied| == |appended|
    {
      assert v1Lines.keys[..i + 1][..i] == v1Lines.keys[..i];
      var key := v1Lines.keys[i];
      if key in v2Lines.at { continue; }
      copied := copied + [key];
      appended := appended + [v1Lines.at[key]];
    }
    assert v1Lines.keys[..|v1Lines.keys|] == v1Lines.keys;
  }

  /** Without an older file nothing happens. `written` is the new text of the current file, if any. */
  method MigrateEnv(v1: Option<string>, v2: Option<string>) returns (written: Option<string>, copied: seq<string>)
    ensures var v2Text := if v2.Some? then v2.value else "";
            && (v1.None? ==> written.None?)
            && (v1.Some? ==> written == if Appended(v1.value, v2Text) == [] then None else Some(Merged(v1.value, v2Text)))
            && |copied| == if v1.None? then 0 else |Appended(v1.value, v2Text)|
  {
    copied, written := [], None;
    if v1.None? { return; }
    var v1Lines := ParseEnv(v1.value);
    var v2Text := if v2.Some? then v2.value else "";
    var v2Lines := ParseEnv(v2Text);
    ParsedKeysAgree(Lines(v1.value));
    var appended;
    appended, copied := FindMissing(v1Lines, v2Lines);
    if |appended| > 0 {
      var result := AppendLines(v2Text, appended);
      written := Some(result);
    }
  }

  method AppendLines(v2Text: string, appended: seq<string>) returns (result: string)
    ensures result == Extend(v2Text, appended)
  {
    result := v2Text;
    result := result + if result != "" && result[|result| - 1] != '\n' then "\n" else "";
    result := result + if Includes(v2Text, BLOCK_START) then "" else "\n" + BLOCK_START + "\n";
    result := result + Unlines(appended);
  }

  // ---------------------------------------------------------------------------------------------
  // The appended text
  // ---------------------------------------------------------------------------------------------

  /** The keys that are carried over: a letter or an underscore, then letters, digits and underscores. */
  lemma IdentifiersAre(key: string)
    ensures var letters := "ABCDEFGHIJKLMNOPQRSTUVWXYZ" + "_" + "abcdefghijklmnopqrstuvwxyz";
            IsIdentifier(key) <==>
              key != "" && key[0] in letters && forall i :: 0 <= i < |key| ==> key[i] in letters + "0123456789"
  {
    forall c: char
      ensures c in "ABCDEFGHIJKLMNOPQRSTUVWXYZ" + "_" + "abcdefghijklmnopqrstuvwxyz" <==> IsLetter(c)
      ensures c in "0123456789" <==> '0' <= c <= '9'
    {
      CapitalsAre(c);
      SmallLettersAre(c);
      DigitsAre(c);
    }
  }

  /** Line i is the first that sets the key. */
  predicate SetsFirst(lines: seq<string>, i: nat, key: string) {
    && i < |lines| && Sets(lines[i], key)
    && forall j :: 0 <= j < i ==> !Sets(lines[j], key)
  }

  predicate Sets(raw: string, key: string) {
    ParseLine(raw).Some? && ParseLine(raw).value.key == key
  }

  predicate Precedes<T(==)>(x: T, y: T, xs: seq<T>) {
    exists p, q :: 0 <= p < q < |xs| && xs[p] == x && xs[q] == y
  }

  lemma {:induction false} ParsedHasKey(lines: seq<string>, i: nat, key: string)
    requires i < |lines| && Sets(lines[i], key)
    ensures key in Parse(lines).keys
    decreases |lines|
  {
    ParsedKeysAgree(lines);
    ParsedKeysAgree(lines[..|lines| - 1]);
    if i < |lines| - 1 { ParsedHasKey(lines[..|lines| - 1], i, key); }
  }

  lemma {:induction false} NeverSetIsNoKey(lines: seq<string>, key: string)
    requires forall j :: 0 <= j < |lines| ==> !Sets(lines[j], key)
    ensures key !in Parse(lines).keys
    decreases |lines|
  {
    if lines != [] {
      assert !Sets(lines[|lines| - 1], key);
      NeverSetIsNoKey(lines[..|lines| - 1], key);
    }
  }

  lemma PrecedesInMore<T>(x: T, y: T, xs: seq<T>, more: seq<T>)
    requires Precedes(x, y, xs)
    ensures Precedes(x, y, xs + more)
  {
    var p, q :| 0 <= p < q < |xs| && xs[p] == x && xs[q] == y;
    assert (xs + more)[p] == x && (xs + more)[q] == y;
  }

  lemma PrecedesLast<T>(x: T, y: T, xs: seq<T>)
    requires x in xs
    ensures Precedes(x, y, xs + [y])
  {
    var p :| 0 <= p < |xs| && xs[p] == x;
    assert (xs + [y])[p] == x && (xs + [y])[|xs|] == y;
  }

  lemma KeysGrow(lines: seq<string>)
    requires lines != []
    ensures var n := |lines| - 1;
            var p, rest := ParseLine(lines[n]), Parse(lines[..n]).keys;
            Parse(lines).keys == rest + if p.Some? && p.value.key !in rest then [p.value.key] else []
  {
    ParsedKeysAgree(lines[..|lines| - 1]);
  }

  lemma FirstInFront(lines: seq<string>, i: nat, key: string)
    requires SetsFirst(lines, i, key) && i < |lines| - 1
    ensures SetsFirst(lines[..|lines| - 1], i, key)
  {
  }

  /** Keys are listed in the order in which they are first set. */
  lemma {:induction false} KeysInOrder(lines: seq<string>, a: string, i: nat, b: string, j: nat)
    requires SetsFirst(lines, i, a) && SetsFirst(lines, j, b) && i < j
    ensures Precedes(a, b, Parse(lines).keys)
    decreases |lines|
  {
    var n := |lines| - 1;
    var rest, p := Parse(lines[..n]).keys, ParseLine(lines[n]);
    KeysGrow(lines);
    if j < n {
      FirstInFront(lines, i, a);
      FirstInFront(lines, j, b);
      KeysInOrder(lines[..n], a, i, b, j);
      PrecedesInMore(a, b, rest, if p.Some? && p.value.key !in rest then [p.value.key] else []);
    } else {
      ParsedHasKey(lines[..n], i, a);
      NeverSetIsNoKey(lines[..n], b);
      PrecedesLast(a, b, rest);
    }
  }

  /** The lines of missing keys keep that order. */
  lemma {:induction false} MissingInOrder(keys: seq<string>, v1: map<string, string>, v2: map<string, string>, p: nat,
      q: nat)
    requires forall k :: k in keys ==> k in v1
    requires p < q < |keys| && keys[p] !in v2 && keys[q] !in v2
    ensures Precedes(v1[keys[p]], v1[keys[q]], Missing(keys, v1, v2))
    decreases |keys|
  {
    var n := |keys| - 1;
    var rest := Missing(keys[..n], v1, v2);
    if q < n {
      MissingInOrder(keys[..n], v1, v2, p, q);
      PrecedesInMore(v1[keys[p]], v1[keys[q]], rest, if keys[n] in v2 then [] else [v1[keys[n]]]);
    } else {
      MissingHas(keys[..n], v1, v2, p);
      PrecedesLast(v1[keys[p]], v1[keys[q]], rest);
    }
  }

  lemma {:induction false} MissingHas(keys: seq<string>, v1: map<string, string>, v2: map<string, string>, p: nat)
    requires forall k :: k in keys ==> k in v1
    requires p < |keys| && keys[p] !in v2
    ensures v1[keys[p]] in Missing(keys, v1, v2)
    decreases |keys|
  {
    if p < |keys| - 1 { MissingHas(keys[..|keys| - 1], v1, v2, p); }
  }

  /** Two keys that the current file lacks are appended in the order in which the older file first sets them. */
  lemma AppendedInOrder(v1Text: string, v2Text: string, a: string, i: nat, b: string, j: nat)
    requires SetsFirst(Lines(v1Text), i, a) && SetsFirst(Lines(v1Text), j, b) && i < j
    requires a !in Parse(Lines(v2Text)).at && b !in Parse(Lines(v2Text)).at
    ensures var v1 := Parse(Lines(v1Text));
            && a in v1.at && b in v1.at
            && Precedes(v1.at[a], v1.at[b], Appended(v1Text, v2Text))
  {
    var v1, v2 := Parse(Lines(v1Text)), Parse(Lines(v2Text));
    ParsedKeysAgree(Lines(v1Text));
    KeysInOrder(Lines(v1Text), a, i, b, j);
    var p, q :| 0 <= p < q < |v1.keys| && v1.keys[p] == a && v1.keys[q] == b;
    MissingInOrder(v1.keys, v1.at, v2.at, p, q);
  }

  lemma {:induction false} IncludesIff(s: string, part: string)
    ensures Includes(s, part) <==> exists i: nat :: i <= |s| && part <= s[i..]
    decreases |s|
  {
    if s != "" {
      IncludesIff(s[1..], part);
      if i: nat :| i <= |s[1..]| && part <= s[1..][i..] { assert s[i + 1..] == s[1..][i..]; }
      if i: nat :| i <= |s| && part <= s[i..] {
        if i > 0 { assert s[i..] == s[1..][i - 1..]; }
      }
    }
    if part <= s { assert s[0..] == s; }
  }

  /** What is written: the current text, closed by a line feed, an empty line and the banner unless it is there already,
      and the missing lines. */
  lemma MergedText(v1Text: string, v2Text: string)
    ensures Appended(v1Text, v2Text) != [] ==>
              Merged(v1Text, v2Text) ==
                v2Text
                + (if v2Text == "" || v2Text[|v2Text| - 1] == '\n' then "" else "\n")
                + (if exists i: nat :: i <= |v2Text| && "# ── migrated from v1 ──" <= v2Text[i..] then ""
                   else "\n" + "# ── migrated from v1 ──" + "\n")
                + Unlines(Appended(v1Text, v2Text))
  {
    IncludesIff(v2Text, BLOCK_START);
  }
}
