/** Printed status blocks are parsed back exactly, and exactly when their parts are well-formed. */
module StatusRoundTrip {
  import opened Options
  import opened Text
  import opened StatusBlocks
  import Utf8

  predicate GoodStep(step: string) {
    step != "" && NoSpace(step)
  }

  predicate CleanKey(key: string) {
    key != "" && IsTrimmed(key) && ':' !in key && '\n' !in key && key != "__proto__"
  }

  predicate CleanValue(value: string) {
    IsTrimmed(value) && '\n' !in value
  }

  /** The last condition is not implied by the others: the key `=== END ===` satisfies them. */
  predicate GoodField(f: Field) {
    CleanKey(f.key) && CleanValue(f.value) && !IsMarker(FieldLine(f))
  }

  predicate GoodFields(fields: seq<Field>) {
    forall i :: 0 <= i < |fields| ==> GoodField(fields[i])
  }

  /** The properties of one object. */
  predicate DistinctKeys(fields: seq<Field>) {
    forall i, j :: 0 <= i < j < |fields| ==> fields[i].key != fields[j].key
  }

  function ToMap(fields: seq<Field>): Fields {
    if fields == [] then map[] else map[fields[0].key := fields[0].value] + ToMap(fields[1..])
  }

  lemma {:induction false} ToMapHasEach(fields: seq<Field>)
    requires DistinctKeys(fields)
    ensures forall i :: 0 <= i < |fields| ==> fields[i].key in ToMap(fields) && ToMap(fields)[fields[i].key] == fields[i].value
    ensures forall k :: k in ToMap(fields) ==> exists i :: 0 <= i < |fields| && fields[i].key == k
    decreases |fields|
  {
    if fields != [] {
      var rest := fields[1..];
      ToMapHasEach(rest);
      forall i | 0 <= i < |fields|
        ensures fields[i].key in ToMap(fields) && ToMap(fields)[fields[i].key] == fields[i].value
      {
        if i > 0 {
          assert fields[i] == rest[i - 1];
        } else {
          assert forall j :: 0 <= j < |rest| ==> rest[j] == fields[j + 1];
        }
      }
      forall k | k in ToMap(fields)
        ensures exists i :: 0 <= i < |fields| && fields[i].key == k
      {
        if k in ToMap(rest) {
          var j :| 0 <= j < |rest| && rest[j].key == k;
          assert fields[j + 1].key == k;
        } else {
          assert fields[0].key == k;
        }
      }
    }
  }

  // ---------------------------------------------------------------------------------------------
  // Well-formed output is read back
  // ---------------------------------------------------------------------------------------------

  lemma TrimOfValue(value: string)
    requires IsTrimmed(value)
    ensures Trim(" " + value) == value
  {
    TrimOfPadded(" ", value, "");
    assert " " + value + "" == " " + value;
  }

  lemma CutAtColon(key: string, rest: string, line: string)
    requires ':' !in key && line == key + [':'] + rest
    ensures IndexOf(line, ':') == Some(|key|) && line[..|key|] == key && line[|key| + 1..] == rest
  {
    IndexOfFirst(key, ':', rest);
  }

  lemma FieldLineParses(f: Field)
    requires CleanKey(f.key) && IsTrimmed(f.value)
    ensures FieldOf(FieldLine(f)) == Some((f.key, f.value))
  {
    var line := FieldLine(f);
    assert line == f.key + [':'] + (" " + f.value);
    CutAtColon(f.key, " " + f.value, line);
    TrimmedIsFixed(f.key);
    TrimOfValue(f.value);
  }

  lemma StartLineParses(step: string)
    requires GoodStep(step)
    ensures StartOf(START + step + CLOSE) == Some(step)
  {
    StartOfIsTheMatch(START + step + CLOSE, step);
  }

  lemma EndIsNotStart()
    ensures StartOf(END) == None && StartsWith(END, END)
  {
    assert END[4] != START[4];
  }

  lemma OneFieldFills(p: Parser, f: Field)
    requires p.current.Some? && GoodField(f)
    ensures ProcessLine(p, FieldLine(f))
         == p.(current := Some(p.current.value.(fields := p.current.value.fields[f.key := f.value])))
  {
    FieldLineParses(f);
  }

  lemma MapInsertThenAdd(m: Fields, key: string, value: string, more: Fields)
    ensures m[key := value] + more == m + (map[key := value] + more)
  {
  }

  lemma {:induction false} FieldLinesFill(p: Parser, fields: seq<Field>)
    requires p.current.Some? && GoodFields(fields)
    ensures ProcessLines(p, FieldLines(fields))
         == p.(current := Some(p.current.value.(fields := p.current.value.fields + ToMap(fields))))
    decreases |fields|
  {
    var b := p.current.value;
    if fields == [] {
      assert b.fields + map[] == b.fields;
    } else {
      var f, rest := fields[0], fields[1..];
      assert GoodFields(rest);
      OneFieldFills(p, f);
      assert FieldLines(fields)[1..] == FieldLines(rest);
      FieldLinesFill(ProcessLine(p, FieldLine(f)), rest);
      MapInsertThenAdd(b.fields, f.key, f.value, ToMap(rest));
    }
  }

  lemma BlockLinesClose(p: Parser, step: string, fields: seq<Field>)
    requires GoodStep(step) && GoodFields(fields)
    ensures ProcessLines(p, BlockLines(step, fields))
         == p.(current := None, blocks := p.blocks + [Block(step, ToMap(fields))])
  {
    var start := START + step + CLOSE;
    StartLineParses(step);
    EndIsNotStart();
    var begun := ProcessLine(p, start);
    ProcessInParts(p, [start] + FieldLines(fields), [END]);
    ProcessInParts(p, [start], FieldLines(fields));
    assert ProcessLines(p, [start]) == begun;
    FieldLinesFill(begun, fields);
    assert map[] + ToMap(fields) == ToMap(fields);
    var filled := ProcessLines(begun, FieldLines(fields));
    assert ProcessLines(filled, [END]) == ProcessLine(filled, END);
  }

  /** A step's output: other lines, and whole status blocks. */
  datatype Item = Noise(line: string) | Status(step: string, fields: seq<Field>)

  predicate GoodItem(item: Item) {
    match item
    case Noise(line) => '\n' !in line && StartOf(line).None?
    case Status(step, fields) => GoodStep(step) && GoodFields(fields)
  }

  predicate GoodItems(items: seq<Item>) {
    forall i :: 0 <= i < |items| ==> GoodItem(items[i])
  }

  function ItemLines(item: Item): seq<string> {
    match item
    case Noise(line) => [line]
    case Status(step, fields) => BlockLines(step, fields)
  }

  function OutputLines(items: seq<Item>): seq<string> {
    if items == [] then [] else ItemLines(items[0]) + OutputLines(items[1..])
  }

  function Output(items: seq<Item>): string {
    if items == [] then ""
    else
      var first := match items[0] case Noise(line) => line + "\n" case Status(step, fields) => Emit(step, fields);
      first + Output(items[1..])
  }

  function Emitted(items: seq<Item>): seq<Block> {
    if items == [] then []
    else
      (match items[0] case Noise(_) => [] case Status(step, fields) => [Block(step, ToMap(fields))])
      + Emitted(items[1..])
  }

  lemma {:induction false} OutputIsUnlines(items: seq<Item>)
    ensures Output(items) == Unlines(OutputLines(items))
    decreases |items|
  {
    if items != [] {
      OutputIsUnlines(items[1..]);
      UnlinesOfParts(ItemLines(items[0]), OutputLines(items[1..]));
      if items[0].Noise? {
        assert [items[0].line][1..] == [];
        assert items[0].line + "\n" + "" == items[0].line + "\n";
      }
    }
  }

  lemma NoSpaceNoLineFeed(s: string)
    requires NoSpace(s)
    ensures '\n' !in s
  {
  }

  lemma {:induction false} FieldLinesAreLines(fields: seq<Field>)
    requires forall i :: 0 <= i < |fields| ==> '\n' !in fields[i].key && '\n' !in fields[i].value
    ensures AreLines(FieldLines(fields))
    ensures |FieldLines(fields)| == |fields|
    ensures forall i :: 0 <= i < |fields| ==> FieldLines(fields)[i] == FieldLine(fields[i])
    decreases |fields|
  {
    if fields != [] {
      FieldLinesAreLines(fields[1..]);
      assert '\n' !in FieldLine(fields[0]);
    }
  }

  lemma BlockLinesAreLines(step: string, fields: seq<Field>)
    requires NoSpace(step)
    requires forall i :: 0 <= i < |fields| ==> '\n' !in fields[i].key && '\n' !in fields[i].value
    ensures AreLines(BlockLines(step, fields))
  {
    NoSpaceNoLineFeed(step);
    assert '\n' !in START && '\n' !in CLOSE && '\n' !in END;
    FieldLinesAreLines(fields);
  }

  lemma {:induction false} OutputLinesAreLines(items: seq<Item>)
    requires GoodItems(items)
    ensures AreLines(OutputLines(items))
    decreases |items|
  {
    if items != [] {
      assert GoodItem(items[0]);
      if items[0].Status? {
        assert forall i :: 0 <= i < |items[0].fields| ==> GoodField(items[0].fields[i]);
        BlockLinesAreLines(items[0].step, items[0].fields);
      }
      OutputLinesAreLines(items[1..]);
    }
  }

  lemma ItemLinesParse(p: Parser, item: Item)
    requires p.current.None? && GoodItem(item)
    ensures ProcessLines(p, ItemLines(item)) == p.(blocks := p.blocks + Emitted([item]))
  {
    assert [item][1..] == [];
    if item.Status? {
      BlockLinesClose(p, item.step, item.fields);
      assert Emitted([item]) == [Block(item.step, ToMap(item.fields))];
    } else {
      assert [item.line][1..] == [] && Emitted([item]) == [] && p.blocks + [] == p.blocks;
      assert ProcessLines(p, [item.line]) == ProcessLine(p, item.line);
    }
  }

  lemma EmittedHead(items: seq<Item>)
    requires items != []
    ensures Emitted(items) == Emitted([items[0]]) + Emitted(items[1..])
  {
    assert [items[0]][1..] == [];
  }

  lemma {:induction false} OutputLinesParse(p: Parser, items: seq<Item>)
    requires p.current.None? && GoodItems(items)
    ensures ProcessLines(p, OutputLines(items)) == p.(blocks := p.blocks + Emitted(items))
    decreases |items|
  {
    if items == [] {
      assert p.blocks + [] == p.blocks;
    } else {
      assert GoodItem(items[0]) && GoodItems(items[1..]);
      ProcessInParts(p, ItemLines(items[0]), OutputLines(items[1..]));
      ItemLinesParse(p, items[0]);
      EmittedHead(items);
      OutputLinesParse(p.(blocks := p.blocks + Emitted([items[0]])), items[1..]);
      Reassociate([], p.blocks, Emitted([items[0]]), Emitted(items[1..]));
      assert [] + p.blocks == p.blocks;
    }
  }

  /** Whatever whole blocks a step prints between other lines, and however its output is cut into
      chunks, exactly those blocks are parsed, in order, and nothing is left over. */
  lemma OutputRoundTrip(items: seq<Item>, chunks: seq<string>)
    requires GoodItems(items) && Concat(chunks) == Output(items)
    ensures WriteAll(EMPTY, chunks) == Parser("", None, Emitted(items), Output(items))
  {
    ChunkingDoesNotMatter(EMPTY, chunks);
    OutputIsUnlines(items);
    OutputLinesAreLines(items);
    var lines := OutputLines(items);
    LinesOfUnlines(lines, "");
    assert Unlines(lines) + "" == Unlines(lines) && "" + Output(items) == Output(items);
    assert Full(Output(items)) == lines && Leftover(Output(items)) == "";
    OutputLinesParse(EMPTY, items);
    assert EMPTY.blocks + Emitted(items) == Emitted(items);
  }

  // ---------------------------------------------------------------------------------------------
  // Nothing else is
  // ---------------------------------------------------------------------------------------------

  predicate CleanBlock(b: Block) {
    GoodStep(b.kind) && forall k :: k in b.fields ==> CleanKey(k) && CleanValue(b.fields[k])
  }

  predicate CleanParser(p: Parser) {
    (p.current.Some? ==> CleanBlock(p.current.value)) && forall i :: 0 <= i < |p.blocks| ==> CleanBlock(p.blocks[i])
  }

  lemma FieldOfIsClean(line: string)
    requires '\n' !in line && FieldOf(line).Some?
    ensures var f := FieldOf(line).value;
            (f.0 != PROTO ==> CleanKey(f.0)) && CleanValue(f.1)
  {
    var i := IndexOf(line, ':').value;
    var key, value := line[..i], line[i + 1..];
    IndexOfIsFirst(line, ':');
    assert '\n' !in key && '\n' !in value;
    TrimIsPart(key, ':');
    TrimIsPart(key, '\n');
    TrimIsPart(value, '\n');
    TrimmedIsFixed(key);
    TrimmedIsFixed(value);
  }

  lemma StartIsGood(line: string)
    requires StartOf(line).Some?
    ensures GoodStep(StartOf(line).value)
  {
  }

  lemma PutKeepsClean(b: Block, f: (string, string))
    requires CleanBlock(b) && (f.0 != PROTO ==> CleanKey(f.0)) && CleanValue(f.1)
    ensures CleanBlock(b.(fields := Put(b.fields, f.0, f.1)))
  {
  }

  lemma SetKeepsClean(p: Parser, b: Block)
    requires CleanParser(p) && CleanBlock(b)
    ensures CleanParser(p.(current := Some(b)))
    ensures CleanParser(p.(blocks := p.blocks + [b], current := None))
  {
    var more := p.blocks + [b];
    assert forall i :: 0 <= i < |more| ==> CleanBlock(more[i]);
  }

  lemma LineKeepsClean(p: Parser, line: string)
    requires CleanParser(p) && '\n' !in line
    ensures CleanParser(ProcessLine(p, line))
  {
    if StartOf(line).Some? {
      StartIsGood(line);
      SetKeepsClean(p, Block(StartOf(line).value, map[]));
    } else if p.current.Some? {
      var b := p.current.value;
      if StartsWith(line, END) {
        SetKeepsClean(p, b);
      } else if FieldOf(line).Some? {
        var f := FieldOf(line).value;
        FieldOfIsClean(line);
        PutKeepsClean(b, f);
        SetKeepsClean(p, b.(fields := Put(b.fields, f.0, f.1)));
      }
    }
  }

  lemma {:induction false} ParsedIsClean(p: Parser, lines: seq<string>)
    requires CleanParser(p) && AreLines(lines)
    ensures CleanParser(ProcessLines(p, lines))
    decreases |lines|
  {
    if lines != [] {
      LineKeepsClean(p, lines[0]);
      assert AreLines(lines[1..]);
      ParsedIsClean(ProcessLine(p, lines[0]), lines[1..]);
    }
  }

  predicate LacksKey(p: Parser, key: string) {
    && (p.current.Some? ==> key !in p.current.value.fields)
    && forall i :: 0 <= i < |p.blocks| ==> key !in p.blocks[i].fields
  }

  predicate Sets(line: string, key: string) {
    !IsMarker(line) && FieldOf(line).Some? && FieldOf(line).value.0 == key
  }

  predicate NeverSets(lines: seq<string>, key: string) {
    forall i :: 0 <= i < |lines| ==> !Sets(lines[i], key)
  }

  lemma {:induction false} KeyStaysOut(p: Parser, lines: seq<string>, key: string)
    requires LacksKey(p, key) && NeverSets(lines, key)
    ensures LacksKey(ProcessLines(p, lines), key)
    decreases |lines|
  {
    if lines != [] {
      assert LacksKey(ProcessLine(p, lines[0]), key);
      assert forall i :: 0 <= i < |lines[1..]| ==> lines[1..][i] == lines[i + 1];
      KeyStaysOut(ProcessLine(p, lines[0]), lines[1..], key);
    }
  }

  lemma BlocksOfWrite(text: string)
    ensures Write(EMPTY, text).blocks == ProcessLines(EMPTY, Full(text)).blocks
    ensures AreLines(Full(text))
  {
    assert "" + text == text;
  }

  lemma BlockLineAt(step: string, fields: seq<Field>, i: nat)
    requires forall i :: 0 <= i < |fields| ==> '\n' !in fields[i].key && '\n' !in fields[i].value
    requires i < |BlockLines(step, fields)|
    ensures |BlockLines(step, fields)| == |fields| + 2
    ensures BlockLines(step, fields)[i] ==
              if i == 0 then START + step + CLOSE else if i <= |fields| then FieldLine(fields[i - 1]) else END
  {
    FieldLinesAreLines(fields);
  }

  lemma OtherFieldSetsOtherKey(f: Field, g: Field)
    requires CleanKey(f.key) && CleanValue(f.value)
    requires f.key == g.key ==> IsMarker(FieldLine(f))
    ensures !Sets(FieldLine(f), g.key)
  {
    FieldLineParses(f);
  }

  lemma SameKeyIsMarker(fields: seq<Field>, j: nat, i: nat)
    requires DistinctKeys(fields) && j < |fields| && i < |fields| && IsMarker(FieldLine(fields[j]))
    ensures fields[i].key == fields[j].key ==> IsMarker(FieldLine(fields[i]))
  {
  }

  /** The kinds of lines in a block, each taken by itself. */
  lemma BlockNeverSets(step: string, fields: seq<Field>, j: nat)
    requires DistinctKeys(fields) && GoodStep(step) && j < |fields| && IsMarker(FieldLine(fields[j]))
    requires forall i :: 0 <= i < |fields| ==> CleanKey(fields[i].key) && CleanValue(fields[i].value)
    ensures NeverSets(BlockLines(step, fields), fields[j].key)
  {
    var key := fields[j].key;
    StartSetsNothing(step, key);
    EndSetsNothing(key);
    forall i | 0 <= i < |fields|
      ensures !Sets(FieldLine(fields[i]), key)
    {
      SameKeyIsMarker(fields, j, i);
      OtherFieldSetsOtherKey(fields[i], fields[j]);
    }
    BlockOfSilentLines(step, fields, key);
  }

  lemma BlockOfSilentLines(step: string, fields: seq<Field>, key: string)
    requires !Sets(START + step + CLOSE, key) && !Sets(END, key)
    requires forall i :: 0 <= i < |fields| ==> !Sets(FieldLine(fields[i]), key)
    requires forall i :: 0 <= i < |fields| ==> '\n' !in fields[i].key && '\n' !in fields[i].value
    ensures NeverSets(BlockLines(step, fields), key)
  {
    forall i | 0 <= i < |BlockLines(step, fields)|
      ensures !Sets(BlockLines(step, fields)[i], key)
    {
      BlockLineAt(step, fields, i);
    }
  }

  lemma StartSetsNothing(step: string, key: string)
    requires GoodStep(step)
    ensures !Sets(START + step + CLOSE, key)
  {
    StartLineParses(step);
  }

  lemma EndSetsNothing(key: string)
    ensures !Sets(END, key)
  {
    EndIsNotStart();
  }

  lemma FullOfEmit(step: string, fields: seq<Field>)
    requires AreLines(BlockLines(step, fields))
    ensures Full(Emit(step, fields)) == BlockLines(step, fields)
  {
    var lines := BlockLines(step, fields);
    LinesOfUnlines(lines, "");
    assert Unlines(lines) + "" == Unlines(lines);
  }

  /** A field whose line looks like a marker never reaches its block. */
  lemma MarkerFieldIsLost(step: string, fields: seq<Field>, j: nat)
    requires DistinctKeys(fields) && GoodStep(step) && j < |fields| && IsMarker(FieldLine(fields[j]))
    requires forall i :: 0 <= i < |fields| ==> CleanKey(fields[i].key) && CleanValue(fields[i].value)
    ensures LacksKey(Write(EMPTY, Emit(step, fields)), fields[j].key)
  {
    BlockLinesAreLines(step, fields);
    FullOfEmit(step, fields);
    BlockNeverSets(step, fields, j);
    KeyStaysOut(EMPTY, BlockLines(step, fields), fields[j].key);
    assert "" + Emit(step, fields) == Emit(step, fields);
  }

  /** A printed block comes back as printed exactly when its step is a word, its keys and values are
      clean one-line strings, and none of its lines looks like a marker. */
  lemma EmitIsReadBackIffGood(step: string, fields: seq<Field>)
    requires DistinctKeys(fields)
    ensures Write(EMPTY, Emit(step, fields)).blocks == [Block(step, ToMap(fields))] <==> GoodStep(step) && GoodFields(fields)
  {
    if GoodStep(step) && GoodFields(fields) {
      var items := [Status(step, fields)];
      assert items[1..] == [];
      assert Output(items) == Emit(step, fields) + "" == Emit(step, fields);
      assert Emitted(items) == [Block(step, ToMap(fields))] + [];
      assert [Emit(step, fields)][1..] == [];
      assert Concat([Emit(step, fields)]) == Emit(step, fields) + "";
      OutputRoundTrip(items, [Emit(step, fields)]);
      assert WriteAll(EMPTY, [Emit(step, fields)]) == Write(EMPTY, Emit(step, fields));
    } else {
      NotReadBack(step, fields);
    }
  }

  lemma NotReadBack(step: string, fields: seq<Field>)
    requires DistinctKeys(fields) && !(GoodStep(step) && GoodFields(fields))
    ensures Write(EMPTY, Emit(step, fields)).blocks != [Block(step, ToMap(fields))]
  {
    var blocks := Write(EMPTY, Emit(step, fields)).blocks;
    ToMapHasEach(fields);
    ReadBackIsClean(Emit(step, fields));
    if blocks == [Block(step, ToMap(fields))] {
      assert CleanBlock(blocks[0]);
      var j :| 0 <= j < |fields| && !GoodField(fields[j]);
      MarkerFieldIsLost(step, fields, j);
    }
  }

  lemma ReadBackIsClean(text: string)
    ensures forall i :: 0 <= i < |Write(EMPTY, text).blocks| ==> CleanBlock(Write(EMPTY, text).blocks[i])
  {
    BlocksOfWrite(text);
    ParsedIsClean(EMPTY, Full(text));
  }

  /** The keys that the plain rules about white space and colons overlook. */
  lemma MarkerLikeKeyIsLost()
    ensures var f := Field("=== END ===", "x");
            && CleanKey(f.key) && CleanValue(f.value)
            && Write(EMPTY, Emit("S", [f])).blocks != [Block("S", ToMap([f]))]
  {
    var f := Field("=== END ===", "x");
    assert CleanKey(f.key);
    assert FieldLine(f)[..|END|] == END;
    EmitIsReadBackIffGood("S", [f]);
    assert !GoodField([f][0]);
  }

  // ---------------------------------------------------------------------------------------------
  // The result of a step
  // ---------------------------------------------------------------------------------------------

  predicate HasStatus(b: Block) {
    STATUS in b.fields && b.fields[STATUS] != ""
  }

  /** A status that is not empty. */
  predicate SaysStatus(b: Block) {
    "STATUS" in b.fields && b.fields["STATUS"] != ""
  }

  predicate IsTerminal(blocks: seq<Block>, i: int) {
    0 <= i < |blocks| && SaysStatus(blocks[i]) && forall j :: i < j < |blocks| ==> !SaysStatus(blocks[j])
  }

  /** The last block with a STATUS field. */
  function Terminal(blocks: seq<Block>): Option<Block> {
    if blocks == [] then None
    else if HasStatus(blocks[|blocks| - 1]) then Some(blocks[|blocks| - 1])
    else Terminal(blocks[..|blocks| - 1])
  }

  lemma {:induction false} TerminalIsLastWithStatus(blocks: seq<Block>, b: Block)
    ensures Terminal(blocks) == Some(b) <==> exists i :: IsTerminal(blocks, i) && blocks[i] == b
    decreases |blocks|
  {
    if blocks != [] {
      var last, front := |blocks| - 1, blocks[..|blocks| - 1];
      if HasStatus(blocks[last]) {
        assert IsTerminal(blocks, last);
      } else {
        TerminalIsLastWithStatus(front, b);
        assert forall i :: IsTerminal(blocks, i) <==> IsTerminal(front, i);
      }
    }
  }

  predicate StepSucceeded(exitCode: Option<int>, blocks: seq<Block>) {
    var t := Terminal(blocks);
    exitCode == Some(0) && t.Some? && STATUS in t.value.fields && t.value.fields[STATUS] in ["success", "skipped"]
  }

  predicate SaysSucceeded(b: Block) {
    "STATUS" in b.fields && b.fields["STATUS"] in ["success", "skipped"]
  }

  /** Whatever else a step prints and however its output arrives, it counts as succeeded if and only if it
      exits with zero and the last block it printed with a status says success or skipped. */
  lemma StepSucceedsIff(items: seq<Item>, chunks: seq<string>, exitCode: Option<int>)
    requires GoodItems(items) && Concat(chunks) == Output(items)
    ensures StepSucceeded(exitCode, WriteAll(EMPTY, chunks).blocks)
       <==> exitCode == Some(0) && exists i :: IsTerminal(Emitted(items), i) && SaysSucceeded(Emitted(items)[i])
  {
    OutputRoundTrip(items, chunks);
    var blocks := Emitted(items);
    var t := Terminal(blocks);
    if t.Some? { TerminalIsLastWithStatus(blocks, t.value); }
    if i :| IsTerminal(blocks, i) && SaysSucceeded(blocks[i]) {
      TerminalIsLastWithStatus(blocks, blocks[i]);
    }
  }

  // ---------------------------------------------------------------------------------------------
  // The printed form
  // ---------------------------------------------------------------------------------------------

  function FieldText(fields: seq<Field>): string {
    if fields == [] then "" else fields[0].key + ": " + fields[0].value + "\n" + FieldText(fields[1..])
  }

  lemma {:induction false} FieldLinesAsText(fields: seq<Field>)
    ensures Unlines(FieldLines(fields)) == FieldText(fields)
    decreases |fields|
  {
    if fields != [] {
      assert FieldLines(fields)[1..] == FieldLines(fields[1..]);
      FieldLinesAsText(fields[1..]);
    }
  }

  /** A printed block, character by character. */
  lemma PrintedForm(step: string, fields: seq<Field>)
    ensures Emit(step, fields) == "=== NANOCLAW SETUP: " + step + " ===" + "\n" + (FieldText(fields) + "=== END ===\n")
  {
    var last: seq<string> := ["=== END ==="];
    var lines := BlockLines(step, fields);
    assert lines == ["=== NANOCLAW SETUP: " + step + " ==="] + (FieldLines(fields) + last);
    assert lines[1..] == FieldLines(fields) + last;
    UnlinesOfParts(FieldLines(fields), last);
    FieldLinesAsText(fields);
    assert last[1..] == [] && Unlines(last) == "=== END ===" + "\n" + "" == "=== END ===\n";
  }

  // ---------------------------------------------------------------------------------------------
  // The output as bytes
  // ---------------------------------------------------------------------------------------------

  /** The output arrives in buffers of bytes, of which each is decoded by itself. The stream sees what was printed
      if and only if no buffer starts inside a character, and then exactly the printed blocks are parsed. */
  lemma BuffersRoundTripIff(items: seq<Item>, buffers: seq<Utf8.Bytes>)
    requires GoodItems(items) && Concat(buffers) == Utf8.Encode(Output(items))
    ensures var p := WriteAll(EMPTY, Utf8.DecodeEach(buffers));
            && (p.transcript == Output(items) <==> Utf8.CutsAreSafe(buffers))
            && (Utf8.CutsAreSafe(buffers) ==> p == Parser("", None, Emitted(items), Output(items)))
  {
    var chunks := Utf8.DecodeEach(buffers);
    ChunkingDoesNotMatter(EMPTY, chunks);
    assert WriteAll(EMPTY, chunks).transcript == "" + Concat(chunks) == Concat(chunks);
    Utf8.DecodedIffCutsAreSafe(Output(items), buffers);
    if Utf8.CutsAreSafe(buffers) { OutputRoundTrip(items, chunks); }
  }
}
