/** Composing a group's CLAUDE.md, its fragments directory, and the one-time cutover.

    Each operation is the list of file operations it performs, so that a run interrupted between any
    two of them is a prefix of the list. */
module ClaudeMd {
  import opened Options
  import opened Sets
  import Text

  datatype Entry = Link(target: string) | File(content: string)

  /** A name in the group's directory, or in its `.claude-fragments` directory. */
  datatype Path = Root(name: string) | Fragment(name: string)

  type Files = map<Path, Entry>

  datatype Op =
    | Unlink(path: Path)
    | Symlink(path: Path, target: string)
    | Write(path: Path, content: string)
    | Rename(path: Path, to: Path)

  /** A write to a symbolic link goes to its target, which is not among these files. */
  function Apply(fs: Files, op: Op): Files {
    match op
    case Unlink(p) => fs - {p}
    case Symlink(p, target) => fs[p := Link(target)]
    case Write(p, content) => if p in fs && fs[p].Link? then fs else fs[p := File(content)]
    case Rename(p, to) => if p in fs then (fs - {p})[to := fs[p]] else fs
  }

  function ApplyAll(fs: Files, ops: seq<Op>): Files
    decreases |ops|
  {
    if ops == [] then fs else ApplyAll(Apply(fs, ops[0]), ops[1..])
  }

  const SHARED := Root(".claude-shared.md")
  const ENTRY := Root("CLAUDE.md")
  const LOCAL := Root("CLAUDE.local.md")
  const OLD_GLOBAL := Root(".claude-global.md")
  const SHARED_TARGET := "/app/CLAUDE.md"
  const HEADER := "<!-- Composed at spawn: do not edit -->"  // one line; nothing depends on its words

  // ---------------------------------------------------------------------------------------------
  // The wanted fragments
  // ---------------------------------------------------------------------------------------------

  datatype Wanted = AsLink(target: string) | Inline(content: string)

  /** The ordered map of wanted fragments, as the list of its entries. */
  datatype Item = Item(name: string, wanted: Wanted)

  datatype Server = Server(name: string, instructions: Option<string>)

  /** `skills` are those that ship an `instructions.md`. */
  function SkillItem(skill: string): Item {
    Item("skill-" + skill + ".md", AsLink("/app/skills/" + skill + "/instructions.md"))
  }

  const TOOL_SUFFIX := ".instructions.md"

  /** `/^(.+)\.instructions\.md$/` */
  function ModuleOf(entry: string): Option<string> {
    var n := |entry| - |TOOL_SUFFIX|;
    if n > 0 && entry[n..] == TOOL_SUFFIX && forall i :: 0 <= i < n ==> !Text.IsLineBreak(entry[i]) then Some(entry[..n]) else None
  }

  function ToolItem(entry: string, cliDisabled: bool): Option<Item> {
    var m := ModuleOf(entry);
    if m.None? || (m.value == "cli" && cliDisabled) then None
    else Some(Item("module-" + m.value + ".md", AsLink("/app/src/mcp-tools/" + entry)))
  }

  function ServerItem(s: Server): Option<Item> {
    if s.instructions.None? || s.instructions.value == "" then None
    else Some(Item("mcp-" + s.name + ".md", Inline(s.instructions.value)))
  }

  function SkillItems(skills: seq<string>): seq<Item> {
    if skills == [] then [] else SkillItems(skills[..|skills| - 1]) + [SkillItem(skills[|skills| - 1])]
  }

  function Add(items: seq<Item>, item: Option<Item>): seq<Item> {
    if item.Some? then items + [item.value] else items
  }

  function ToolItems(entries: seq<string>, cliDisabled: bool): seq<Item> {
    if entries == [] then [] else Add(ToolItems(entries[..|entries| - 1], cliDisabled), ToolItem(entries[|entries| - 1], cliDisabled))
  }

  function ServerItems(servers: seq<Server>): seq<Item> {
    if servers == [] then [] else Add(ServerItems(servers[..|servers| - 1]), ServerItem(servers[|servers| - 1]))
  }

  datatype Sources = Sources(skills: seq<string>, tools: seq<string>, cliDisabled: bool, servers: seq<Server>)

  function Desired(from: Sources): seq<Item> {
    SkillItems(from.skills) + ToolItems(from.tools, from.cliDisabled) + ServerItems(from.servers)
  }

  predicate Has(items: seq<Item>, name: string) {
    exists i :: 0 <= i < |items| && items[i].name == name
  }

  predicate DistinctNames(items: seq<Item>) {
    forall i, j :: 0 <= i < j < |items| ==> items[i].name != items[j].name
  }

  function Names(items: seq<Item>): (r: set<string>)
    ensures forall name :: name in r <==> Has(items, name)
  {
    set i | 0 <= i < |items| :: items[i].name
  }

  // ---------------------------------------------------------------------------------------------
  // Sorting
  // ---------------------------------------------------------------------------------------------

  predicate Less(a: string, b: string) {
    if b == "" then false
    else if a == "" then true
    else a[0] < b[0] || (a[0] == b[0] && Less(a[1..], b[1..]))
  }

  lemma {:induction false} LessIsTotal(a: string, b: string)
    ensures a == b || Less(a, b) || Less(b, a)
    ensures Less(a, b) ==> a != b && !Less(b, a)
  {
    if a != "" && b != "" {
      LessIsTotal(a[1..], b[1..]);
      assert a == [a[0]] + a[1..] && b == [b[0]] + b[1..];
    }
  }

  lemma {:induction false} LessIsTransitive(a: string, b: string, c: string)
    requires Less(a, b) && Less(b, c)
    ensures Less(a, c)
  {
    if a != "" && a[0] == b[0] && b[0] == c[0] { LessIsTransitive(a[1..], b[1..], c[1..]); }
  }

  predicate IsLeast(m: string, names: set<string>) {
    m in names && forall x :: x in names && x != m ==> Less(m, x)
  }

  lemma {:induction false} LeastExists(names: set<string>)
    requires names != {}
    ensures exists m :: IsLeast(m, names)
    decreases |names|
  {
    var x := Pick(names);
    var rest := names - {x};
    assert names == {x} + rest;
    if rest == {} {
      assert IsLeast(x, names);
    } else {
      LeastExists(rest);
      var m :| IsLeast(m, rest);
      LessIsTotal(x, m);
      if Less(m, x) {
        assert IsLeast(m, names);
      } else {
        forall y | y in names && y != x
          ensures Less(x, y)
        {
          if y != m { LessIsTransitive(x, m, y); }
        }
        assert IsLeast(x, names);
      }
    }
  }

  lemma LeastIsUnique(a: string, b: string, names: set<string>)
    requires IsLeast(a, names) && IsLeast(b, names)
    ensures a == b
  {
    LessIsTotal(a, b);
  }

  function Least(names: set<string>): (m: string)
    requires names != {}
    ensures IsLeast(m, names)
  {
    LeastExists(names);
    assert forall a, b :: IsLeast(a, names) && IsLeast(b, names) ==> a == b by {
      forall a, b | IsLeast(a, names) && IsLeast(b, names)
        ensures a == b
      {
        LeastIsUnique(a, b, names);
      }
    }
    var m :| IsLeast(m, names);
    m
  }

  function Sorted(names: set<string>): seq<string>
    decreases |names|
  {
    if names == {} then [] else [Least(names)] + Sorted(names - {Least(names)})
  }

  // ---------------------------------------------------------------------------------------------
  // The composed entry
  // ---------------------------------------------------------------------------------------------

  function Import(name: string): string {
    "@./.claude-fragments/" + name
  }

  function Imports(names: seq<string>): (r: seq<string>)
    ensures |r| == |names| && forall i :: 0 <= i < |r| ==> r[i] == Import(names[i])
  {
    seq(|names|, i requires 0 <= i < |names| => Import(names[i]))
  }

  /** `[header, ...imports, ''].join('\n')` */
  function Body(items: seq<Item>): string {
    Text.Unlines([HEADER, "@./.claude-shared.md"] + Imports(Sorted(Names(items))))
  }

  // ---------------------------------------------------------------------------------------------
  // The operations
  // ---------------------------------------------------------------------------------------------

  function SyncOps(fs: Files, p: Path, target: string): seq<Op> {
    if p in fs && fs[p] == Link(target) then []
    else (if p in fs then [Unlink(p)] else []) + [Symlink(p, target)]
  }

  /** `pid` is the process id in decimal. */
  function TmpOf(p: Path, pid: string): Path {
    p.(name := p.name + ".tmp-" + pid)
  }

  function AtomicOps(p: Path, content: string, pid: string): seq<Op> {
    [Write(TmpOf(p, pid), content), Rename(TmpOf(p, pid), p)]
  }

  function StaleOps(listing: seq<string>, items: seq<Item>): seq<Op> {
    if listing == [] then []
    else
      var rest, last := StaleOps(listing[..|listing| - 1], items), listing[|listing| - 1];
      if Has(items, last) then rest else rest + [Unlink(Fragment(last))]
  }

  function ItemOps(fs: Files, item: Item, pid: string): seq<Op> {
    match item.wanted
    case AsLink(target) => SyncOps(fs, Fragment(item.name), target)
    case Inline(content) => AtomicOps(Fragment(item.name), content, pid)
  }

  function FragmentOps(fs: Files, items: seq<Item>, pid: string): seq<Op> {
    if items == [] then []
    else
      var rest := FragmentOps(fs, items[..|items| - 1], pid);
      rest + ItemOps(ApplyAll(fs, rest), items[|items| - 1], pid)
  }

  function LocalOps(fs: Files): seq<Op> {
    if LOCAL in fs then [] else [Write(LOCAL, "")]
  }

  /** The file operations before the entry is rewritten. */
  function ReconcileOps(fs: Files, listing: seq<string>, items: seq<Item>, pid: string): seq<Op> {
    var first := SyncOps(fs, SHARED, SHARED_TARGET) + StaleOps(listing, items);
    first + FragmentOps(ApplyAll(fs, first), items, pid)
  }

  /** `listing` is what reading the fragments directory gives. */
  function ComposeOps(fs: Files, listing: seq<string>, items: seq<Item>, pid: string): seq<Op> {
    ReconcileOps(fs, listing, items, pid) + AtomicOps(ENTRY, Body(items), pid) + LocalOps(fs)
  }

  function CutoverOps(fs: Files): seq<Op> {
    (if OLD_GLOBAL in fs then [Unlink(OLD_GLOBAL)] else [])
    + (if ENTRY in fs && LOCAL !in fs then [Rename(ENTRY, LOCAL)] else [])
  }
}
