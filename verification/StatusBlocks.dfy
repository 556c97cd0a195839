/** Setup steps print status blocks; the runner parses them back out of a stream that arrives in
    arbitrary pieces. */
module StatusBlocks {
  import opened Options
  import opened Text

  const START: string := "=== NANOCLAW SETUP: "
  const CLOSE: string := " ==="
  const END: string := "=== END ==="
  const STATUS: string := "STATUS"

  /** Assigning a string to this property of an object literal has no effect. */
  const PROTO: string := "__proto__"

  type Fields = map<string, string>

  datatype Block = Block(kind: string, fields: Fields)

  datatype Parser = Parser(lineBuf: string, current: Option<Block>, blocks: seq<Block>, transcript: string)

  const EMPTY := Parser("", None, [], "")

  // ---------------------------------------------------------------------------------------------
  // Lines
  // ---------------------------------------------------------------------------------------------

  function Word(s: string): (r: string)
    ensures r <= s && NoSpace(r) && (|r| < |s| ==> IsSpace(s[|r|]))
  {
    if s == "" || IsSpace(s[0]) then ""
    else
      assert [s[0]] + Word(s[1..]) <= s;
      [s[0]] + Word(s[1..])
  }

  /** The step name of a start line. */
  function StartOf(line: string): Option<string> {
    if !StartsWith(line, START) then None
    else
      var rest := line[|START|..];
      var name := Word(rest);
      if name != "" && StartsWith(rest[|name|..], CLOSE) then Some(name) else None
  }

  /** What the regular expression says: the line begins with the marker, some word without white
      space, and the closing marker. */
  predicate MatchesStart(line: string, name: string) {
    name != "" && NoSpace(name) && StartsWith(line, START + name + CLOSE)
  }

  lemma PrefixOfPrefix(line: string, a: string, b: string)
    ensures StartsWith(line, a + b) ==> StartsWith(line, a)
  {
  }

  /** `StartOf` finds the match if there is one, and there is never more than one. */
  lemma StartOfIsTheMatch(line: string, name: string)
    ensures MatchesStart(line, name) <==> StartOf(line) == Some(name)
  {
    if StartsWith(line, START) {
      var rest := line[|START|..];
      assert line == START + rest;
      if MatchesStart(line, name) {
        assert rest[..|name| + |CLOSE|] == name + CLOSE by {
          assert line[..|START| + |name| + |CLOSE|] == START + name + CLOSE;
        }
        assert rest[|name|] == CLOSE[0];
        WordIsMaximal(rest, name);
      }
      if StartOf(line) == Some(name) {
        assert rest == name + rest[|name|..];
        assert line == START + name + rest[|name|..];
      }
    } else {
      PrefixOfPrefix(line, START, name + CLOSE);
      assert START + (name + CLOSE) == START + name + CLOSE;
    }
  }

  lemma {:induction false} WordIsMaximal(s: string, name: string)
    requires name <= s && NoSpace(name) && |name| < |s| && IsSpace(s[|name|])
    ensures Word(s) == name
  {
    if name != "" {
      assert s[0] == name[0];
      WordIsMaximal(s[1..], name[1..]);
      assert name == [name[0]] + name[1..];
    }
  }

  predicate IsMarker(line: string) {
    StartOf(line).Some? || StartsWith(line, END)
  }

  /** The key and value of a field line. */
  function FieldOf(line: string): Option<(string, string)> {
    var colon := IndexOf(line, ':');
    if colon.None? || Trim(line[..colon.value]) == "" then None
    else Some((Trim(line[..colon.value]), Trim(line[colon.value + 1..])))
  }

  function Put(fields: Fields, key: string, value: string): Fields {
    if key == PROTO then fields else fields[key := value]
  }

  function ProcessLine(p: Parser, line: string): Parser {
    if StartOf(line).Some? then p.(current := Some(Block(StartOf(line).value, map[])))
    else if StartsWith(line, END) then
      if p.current.Some? then p.(blocks := p.blocks + [p.current.value], current := None) else p
    else if p.current.None? || FieldOf(line).None? then p
    else
      var f := FieldOf(line).value;
      p.(current := Some(p.current.value.(fields := Put(p.current.value.fields, f.0, f.1))))
  }

  function ProcessLines(p: Parser, lines: seq<string>): Parser
    decreases |lines|
  {
    if lines == [] then p else ProcessLines(ProcessLine(p, lines[0]), lines[1..])
  }

  function Write(p: Parser, chunk: string): Parser {
    var text := p.lineBuf + chunk;
    ProcessLines(p, Full(text)).(lineBuf := Leftover(text), transcript := p.transcript + chunk)
  }

  // ---------------------------------------------------------------------------------------------
  // How the text is cut into chunks does not matter
  // ---------------------------------------------------------------------------------------------

  lemma {:induction false} ProcessInParts(p: Parser, a: seq<string>, b: seq<string>)
    ensures ProcessLines(p, a + b) == ProcessLines(ProcessLines(p, a), b)
    decreases |a|
  {
    if a == [] {
      assert a + b == b;
    } else {
      assert (a + b)[1..] == a[1..] + b;
      ProcessInParts(ProcessLine(p, a[0]), a[1..], b);
    }
  }

  /** Parsing never looks at the line buffer or the transcript. */
  lemma {:induction false} LinesIgnoreBuffers(p: Parser, lines: seq<string>, buf: string, transcript: string)
    ensures ProcessLines(p.(lineBuf := buf, transcript := transcript), lines)
         == ProcessLines(p, lines).(lineBuf := buf, transcript := transcript)
    decreases |lines|
  {
    if lines != [] {
      LinesIgnoreBuffers(ProcessLine(p, lines[0]), lines[1..], buf, transcript);
    }
  }

  lemma PartsOfText(text: string, b: string)
    ensures var more := Leftover(text) + b;
            Full(text + b) == Full(text) + Full(more) && Leftover(text + b) == Leftover(more)
  {
    LinesOfParts(text, b);
  }

  lemma WriteInTwo(p: Parser, a: string, b: string)
    ensures Write(Write(p, a), b) == Write(p, a + b)
  {
    var text := p.lineBuf + a;
    var more := Leftover(text) + b;
    PartsOfText(text, b);
    Reassociate([], p.lineBuf, a, b);
    assert [] + p.lineBuf == p.lineBuf;
    ProcessInParts(p, Full(text), Full(more));
    LinesIgnoreBuffers(ProcessLines(p, Full(text)), Full(more), Leftover(text), p.transcript + a);
    Reassociate([], p.transcript, a, b);
    assert [] + p.transcript == p.transcript;
  }

  function WriteAll(p: Parser, chunks: seq<string>): Parser
    decreases |chunks|
  {
    if chunks == [] then p else WriteAll(Write(p, chunks[0]), chunks[1..])
  }

  /** A parser that still has no full line buffered; every parser is in this state after a write. */
  predicate Drained(p: Parser) {
    '\n' !in p.lineBuf
  }

  lemma WriteNothing(p: Parser)
    requires Drained(p)
    ensures Write(p, "") == p
  {
    assert p.lineBuf + "" == p.lineBuf && p.transcript + "" == p.transcript;
    OneLine(p.lineBuf);
  }

  /** The same text gives the same blocks, transcript and leftover however it is cut into chunks. */
  lemma {:induction false} ChunkingDoesNotMatter(p: Parser, chunks: seq<string>)
    requires Drained(p)
    ensures WriteAll(p, chunks) == Write(p, Concat(chunks))
    decreases |chunks|
  {
    if chunks == [] {
      WriteNothing(p);
    } else {
      ChunkingDoesNotMatter(Write(p, chunks[0]), chunks[1..]);
      WriteInTwo(p, chunks[0], Concat(chunks[1..]));
    }
  }

  // ---------------------------------------------------------------------------------------------
  // The printer
  // ---------------------------------------------------------------------------------------------

  datatype Field = Field(key: string, value: string)

  function FieldLine(f: Field): string {
    f.key + ": " + f.value
  }

  function FieldLines(fields: seq<Field>): seq<string> {
    if fields == [] then [] else [FieldLine(fields[0])] + FieldLines(fields[1..])
  }

  function BlockLines(step: string, fields: seq<Field>): seq<string> {
    [START + step + CLOSE] + FieldLines(fields) + [END]
  }

  /** What the printer puts on its output. */
  function Emit(step: string, fields: seq<Field>): string {
    Unlines(BlockLines(step, fields))
  }

  function Join(lines: seq<string>): string
    requires lines != []
  {
    if |lines| == 1 then lines[0] else lines[0] + "\n" + Join(lines[1..])
  }

  lemma {:induction false} JoinThenLineFeed(lines: seq<string>)
    requires lines != []
    ensures Join(lines) + "\n" == Unlines(lines)
    decreases |lines|
  {
    if |lines| > 1 {
      JoinThenLineFeed(lines[1..]);
    } else {
      assert lines[1..] == [] && lines[0] + "\n" + "" == lines[0] + "\n";
    }
  }

  /** emitStatus; `console.log` ends its output with a line feed. */
  method EmitStatus(step: string, fields: seq<Field>) returns (output: string)
    ensures output == Emit(step, fields)
  {
    var lines := [START + step + CLOSE];
    for i := 0 to |fields|
      invariant lines != [] && lines + FieldLines(fields[i..]) == [START + step + CLOSE] + FieldLines(fields)
    {
      assert fields[i..][1..] == fields[i + 1..];
      lines := lines + [fields[i].key + ": " + fields[i].value];
    }
    assert fields[|fields|..] == [] && lines + FieldLines([]) == lines;
    lines := lines + [END];
    JoinThenLineFeed(lines);
    output := Join(lines) + "\n";
  }

  class StatusStream {
    var lineBuf: string
    var current: Option<Block>
    var blocks: seq<Block>
    var transcript: string

    function View(): Parser
      reads this
    {
      Parser(lineBuf, current, blocks, transcript)
    }

    constructor ()
      ensures View() == EMPTY
    {
      lineBuf, current, blocks, transcript := "", None, [], "";
    }

    /** Returns the block that this line closed, for the `onBlock` callback. */
    method HandleLine(line: string) returns (closed: Option<Block>)
      modifies this`current, this`blocks
      ensures View() == ProcessLine(old(View()), line)
      ensures blocks == old(blocks) + if closed.Some? then [closed.value] else []
    {
      closed := None;
      var start := StartOf(line);
      if start.Some? {
        current := Some(Block(start.value, map[]));
        return;
      }
      if StartsWith(line, END) {
        if current.Some? {
          closed := current;
          blocks := blocks + [current.value];
          current := None;
        }
        return;
      }
      if current.None? {
        return;
      }
      var colon := IndexOf(line, ':');
      if colon.None? {
        return;
      }
      var key := Trim(line[..colon.value]);
      var value := Trim(line[colon.value + 1..]);
      if key != "" && key != PROTO {
        current := Some(current.value.(fields := current.value.fields[key := value]));
      }
    }

    method WriteChunk(chunk: string)
      modifies this
      ensures View() == Write(old(View()), chunk)
    {
      transcript := transcript + chunk;
      lineBuf := lineBuf + chunk;
      ghost var text := lineBuf;
      ghost var done: seq<string> := [];
      LinesIgnoreBuffers(old(View()), [], text, transcript);
      var idx := IndexOf(lineBuf, '\n');
      while idx.Some?
        invariant idx == IndexOf(lineBuf, '\n')
        invariant Lines(text) == done + Lines(lineBuf)
        invariant transcript == old(transcript) + chunk
        invariant View() == ProcessLines(old(View()), done).(lineBuf := lineBuf, transcript := transcript)
        decreases |lineBuf|
      {
        var line := lineBuf[..idx.value];
        var rest := lineBuf[idx.value + 1..];
        IndexOfIsFirst(lineBuf, '\n');
        NextLine(text, done, lineBuf, line, rest);
        ProcessOneMore(old(View()), done, line, rest, transcript);
        lineBuf := rest;
        var _ := HandleLine(line);
        done := done + [line];
        idx := IndexOf(lineBuf, '\n');
      }
      IndexOfIsFirst(lineBuf, '\n');
      LastLine(text, done, lineBuf);
    }
  }

  lemma NextLine(text: string, done: seq<string>, buf: string, line: string, rest: string)
    requires Lines(text) == done + Lines(buf) && |line| < |buf| && buf[|line|] == '\n' && '\n' !in line
    requires line == buf[..|line|] && rest == buf[|line| + 1..]
    ensures Lines(text) == done + [line] + Lines(rest)
  {
    assert buf == line + "\n" + rest;
    LineThenRest(line, rest);
    assert done + ([line] + Lines(rest)) == done + [line] + Lines(rest);
  }

  lemma LastLine(text: string, done: seq<string>, buf: string)
    requires Lines(text) == done + Lines(buf) && '\n' !in buf
    ensures Full(text) == done && Leftover(text) == buf
  {
    OneLine(buf);
  }

  lemma ProcessOneMore(p: Parser, done: seq<string>, line: string, buf': string, transcript: string)
    ensures ProcessLine(ProcessLines(p, done).(lineBuf := buf', transcript := transcript), line)
         == ProcessLines(p, done + [line]).(lineBuf := buf', transcript := transcript)
  {
    ProcessInParts(p, done, [line]);
    assert ProcessLines(ProcessLines(p, done), [line]) == ProcessLine(ProcessLines(p, done), line);
  }
}
