/** What each source contributes to the files of a group, name by name. */
module ClaudeMdFragments {
  import opened Options
  import opened ClaudeMd
  import opened ClaudeMdLaws
  import opened ClaudeMdRuns
  import Text

  function Composed(fs: Files, listing: seq<string>, from: Sources, pid: string): Files {
    ApplyAll(fs, ComposeOps(fs, listing, Desired(from), pid))
  }

  ghost predicate CanCompose(fs: Files, listing: seq<string>, from: Sources, pid: string) {
    Lists(listing, fs) && NoLinks(fs) && ProperSources(from) && IsPid(pid)
  }

  /** An item is at its name. */
  lemma ItemIsThere(fs: Files, listing: seq<string>, from: Sources, pid: string, item: Item)
    requires CanCompose(fs, listing, from, pid) && item in Desired(from)
    ensures At(Composed(fs, listing, from, pid), Fragment(item.name)) == Some(EntryOf(item.wanted))
  {
    SourcesDoNotCollide(from);
    var i :| 0 <= i < |Desired(from)| && Desired(from)[i] == item;
    EachFragmentIsThere(fs, listing, Desired(from), pid, i);
  }

  lemma {:induction false} SkillIsDesired(skills: seq<string>, skill: string)
    requires skill in skills
    ensures SkillItem(skill) in SkillItems(skills)
    decreases |skills|
  {
    var n := |skills| - 1;
    if skill in skills[..n] { SkillIsDesired(skills[..n], skill); }
    assert skills == skills[..n] + [skills[n]];
  }

  lemma {:induction false} ToolIsDesired(entries: seq<string>, cliDisabled: bool, entry: string)
    requires entry in entries && ToolItem(entry, cliDisabled).Some?
    ensures ToolItem(entry, cliDisabled).value in ToolItems(entries, cliDisabled)
    decreases |entries|
  {
    var n := |entries| - 1;
    if entry in entries[..n] { ToolIsDesired(entries[..n], cliDisabled, entry); }
    assert entries == entries[..n] + [entries[n]];
  }

  lemma {:induction false} ServerIsDesired(servers: seq<Server>, server: Server)
    requires server in servers && ServerItem(server).Some?
    ensures ServerItem(server).value in ServerItems(servers)
    decreases |servers|
  {
    var n := |servers| - 1;
    if server in servers[..n] { ServerIsDesired(servers[..n], server); }
    assert servers == servers[..n] + [servers[n]];
  }

  /** Every skill that ships instructions is linked. */
  lemma SkillIsLinked(fs: Files, listing: seq<string>, from: Sources, pid: string, skill: string)
    requires CanCompose(fs, listing, from, pid) && skill in from.skills
    ensures At(Composed(fs, listing, from, pid), Fragment("skill-" + skill + ".md"))
         == Some(Link("/app/skills/" + skill + "/instructions.md"))
  {
    SkillIsDesired(from.skills, skill);
    ItemIsThere(fs, listing, from, pid, SkillItem(skill));
  }

  predicate IsModuleName(x: string) {
    x != "" && forall i :: 0 <= i < |x| ==> !Text.IsLineBreak(x[i])
  }

  lemma ModuleOfEntry(entry: string)
    ensures forall x :: ModuleOf(entry) == Some(x) <==> IsModuleName(x) && entry == x + ".instructions.md"
  {
    forall x
      ensures ModuleOf(entry) == Some(x) <==> IsModuleName(x) && entry == x + ".instructions.md"
    {
      if entry == x + ".instructions.md" { assert entry[..|x|] == x && entry[|x|..] == ".instructions.md"; }
      if ModuleOf(entry) == Some(x) { assert entry == entry[..|x|] + entry[|x|..]; }
    }
  }

  lemma DisabledHasNoSource(from: Sources)
    requires from.cliDisabled
    ensures var name := "module-" + "cli" + ".md";
            !IsSkillName(name, from) && !IsModuleFile(name, from) && !IsServerName(name, from)
  {
    var name := "module-" + "cli" + ".md";
    assert name[0] == 'm' && name[1] == 'o';
    if y :| IsLinkedModule(y, from) && name == "module-" + y + ".md" {
      PaddedNamesDiffer("module-", y, "cli");
    }
  }

  /** Every module that ships instructions is linked, but for `cli` when that is disabled. */
  lemma ModuleIsLinkedIff(fs: Files, listing: seq<string>, from: Sources, pid: string, x: string)
    requires CanCompose(fs, listing, from, pid) && IsModuleName(x) && x + ".instructions.md" in from.tools
    ensures At(Composed(fs, listing, from, pid), Fragment("module-" + x + ".md"))
         == if x == "cli" && from.cliDisabled then None
            else Some(Link("/app/src/mcp-tools/" + x + ".instructions.md"))
  {
    var entry := x + ".instructions.md";
    ModuleOfEntry(entry);
    if x == "cli" && from.cliDisabled {
      if At(Composed(fs, listing, from, pid), Fragment("module-" + x + ".md")).Some? {
        FragmentHasSource(fs, listing, from, pid, "module-" + x + ".md");
        DisabledHasNoSource(from);
      }
    } else {
      ToolIsDesired(from.tools, from.cliDisabled, entry);
      ItemIsThere(fs, listing, from, pid, ToolItem(entry, from.cliDisabled).value);
      assert "/app/src/mcp-tools/" + entry == "/app/src/mcp-tools/" + x + ".instructions.md";
    }
  }

  /** The instructions of every server that has some are written out. */
  lemma ServerIsInlined(fs: Files, listing: seq<string>, from: Sources, pid: string, server: Server)
    requires CanCompose(fs, listing, from, pid) && server in from.servers
    ensures server.instructions.Some? && server.instructions.value != "" ==>
              At(Composed(fs, listing, from, pid), Fragment("mcp-" + server.name + ".md"))
              == Some(File(server.instructions.value))
  {
    if server.instructions.Some? && server.instructions.value != "" {
      ServerIsDesired(from.servers, server);
      ItemIsThere(fs, listing, from, pid, ServerItem(server).value);
    }
  }

  predicate IsSkillName(name: string, from: Sources) {
    exists i :: 0 <= i < |from.skills| && name == "skill-" + from.skills[i] + ".md"
  }

  predicate IsLinkedModule(x: string, from: Sources) {
    IsModuleName(x) && x + ".instructions.md" in from.tools && !(x == "cli" && from.cliDisabled)
  }

  ghost predicate IsModuleFile(name: string, from: Sources) {
    exists x :: IsLinkedModule(x, from) && name == "module-" + x + ".md"
  }

  predicate IsServerName(name: string, from: Sources) {
    exists i :: 0 <= i < |from.servers| && name == "mcp-" + from.servers[i].name + ".md"
                && from.servers[i].instructions.Some? && from.servers[i].instructions.value != ""
  }

  /** No other fragment is left. */
  lemma FragmentHasSource(fs: Files, listing: seq<string>, from: Sources, pid: string, name: string)
    requires CanCompose(fs, listing, from, pid)
    requires At(Composed(fs, listing, from, pid), Fragment(name)).Some?
    ensures IsSkillName(name, from) || IsModuleFile(name, from) || IsServerName(name, from)
  {
    SourcesDoNotCollide(from);
    ComposeConverges(fs, listing, Desired(from), pid);
    assert Has(Desired(from), name);
    var i :| 0 <= i < |Desired(from)| && Desired(from)[i].name == name;
    DesiredHasSource(from, Desired(from)[i]);
  }

  lemma DesiredHasSource(from: Sources, item: Item)
    requires item in Desired(from)
    ensures IsSkillName(item.name, from) || IsModuleFile(item.name, from) || IsServerName(item.name, from)
  {
    if item in SkillItems(from.skills) {
      var i :| 0 <= i < |SkillItems(from.skills)| && SkillItems(from.skills)[i] == item;
      SkillOrigin(from.skills, i);
    } else if item in ToolItems(from.tools, from.cliDisabled) {
      var items := ToolItems(from.tools, from.cliDisabled);
      var i :| 0 <= i < |items| && items[i] == item;
      var j := ToolOrigin(from.tools, from.cliDisabled, i);
      ModuleOfEntry(from.tools[j]);
      assert IsLinkedModule(ModuleOf(from.tools[j]).value, from);
    } else {
      var i :| 0 <= i < |ServerItems(from.servers)| && ServerItems(from.servers)[i] == item;
      var j := ServerOrigin(from.servers, i);
    }
  }

  /** The other files of the group: the link to the shared base, the entry with its lines, and the local file; the
      rest is as it was, but for the temporary file of this process. */
  lemma OtherFilesAre(fs: Files, listing: seq<string>, from: Sources, pid: string, name: string)
    requires CanCompose(fs, listing, from, pid)
    ensures var now := At(Composed(fs, listing, from, pid), Root(name));
            && (name == ".claude-shared.md" ==> now == Some(Link("/app/CLAUDE.md")))
            && (name == "CLAUDE.md" ==> now == Some(File(Body(Desired(from)))))
            && (name == "CLAUDE.local.md" ==> now == if Root(name) in fs then At(fs, Root(name)) else Some(File("")))
            && (name !in [".claude-shared.md", "CLAUDE.md", "CLAUDE.local.md", "CLAUDE.md.tmp-" + pid] ==>
                  now == At(fs, Root(name)))
  {
    SourcesDoNotCollide(from);
    ComposeConverges(fs, listing, Desired(from), pid);
    TmpOfEntry(pid);
    assert "CLAUDE.md" + ".tmp-" + pid == "CLAUDE.md.tmp-" + pid;
  }

  /** The cutover: the old link goes, and the entry becomes the local file unless there is one. */
  lemma CutoverLeaves(fs: Files, name: string)
    ensures var now := At(ApplyAll(fs, CutoverOps(fs)), Root(name));
            var moves := Root("CLAUDE.md") in fs && Root("CLAUDE.local.md") !in fs;
            now == if name == ".claude-global.md" || (moves && name == "CLAUDE.md") then None
                   else if moves && name == "CLAUDE.local.md" then At(fs, Root("CLAUDE.md"))
                   else At(fs, Root(name))
  {
    assert OLD_GLOBAL.name[1] == 'c' && ENTRY.name[1] == 'L' && LOCAL.name[1] == 'L';
    var unlinks := if OLD_GLOBAL in fs then [Unlink(OLD_GLOBAL)] else [];
    var renames := if ENTRY in fs && LOCAL !in fs then [Rename(ENTRY, LOCAL)] else [];
    ApplyParts(fs, unlinks, renames);
    if OLD_GLOBAL in fs { ApplyOne(fs, Unlink(OLD_GLOBAL)); }
    if ENTRY in fs && LOCAL !in fs { ApplyOne(ApplyAll(fs, unlinks), Rename(ENTRY, LOCAL)); }
  }

  /** The order of names is that of their first different characters, a prefix coming first. */
  lemma {:induction false} LessIff(a: string, b: string)
    ensures Less(a, b) <==> ComesFirst(a, b)
    decreases |a|
  {
    if a != "" && b != "" && a[0] == b[0] {
      LessIff(a[1..], b[1..]);
      if ComesFirst(a[1..], b[1..]) {
        var k: nat :| DiffersAt(a[1..], b[1..], k);
        assert DiffersAt(a, b, k + 1) by {
          assert a[..k + 1] == [a[0]] + a[1..][..k] && b[..k + 1] == [b[0]] + b[1..][..k];
        }
      }
      if ComesFirst(a, b) {
        var k: nat :| DiffersAt(a, b, k);
        assert k > 0;
        assert DiffersAt(a[1..], b[1..], k - 1) by {
          assert a[..k][1..] == a[1..][..k - 1] && b[..k][1..] == b[1..][..k - 1];
        }
      }
    } else if Less(a, b) {
      assert DiffersAt(a, b, 0);
    } else if k: nat :| DiffersAt(a, b, k) {
      SameFirst(a, b, k);
    }
  }

  lemma SameFirst(a: string, b: string, k: nat)
    requires DiffersAt(a, b, k)
    ensures k > 0 ==> a[0] == b[0]
  {
    assert k > 0 ==> a[..k][0] == b[..k][0];
  }

  predicate DiffersAt(a: string, b: string, k: nat) {
    k <= |a| && k < |b| && a[..k] == b[..k] && (k == |a| || a[k] < b[k])
  }

  ghost predicate ComesFirst(a: string, b: string) {
    exists k: nat :: DiffersAt(a, b, k)
  }

  ghost predicate IsOrdered(names: seq<string>, items: seq<Item>) {
    && (forall i, j :: 0 <= i < j < |names| ==> ComesFirst(names[i], names[j]))
    && (forall name :: name in names <==> exists i :: 0 <= i < |items| && items[i].name == name)
  }

  lemma SortedIsOrdered(items: seq<Item>)
    ensures IsOrdered(Sorted(Names(items)), items)
  {
    var names := Sorted(Names(items));
    SortedIsSorted(Names(items));
    forall i, j | 0 <= i < j < |names|
      ensures ComesFirst(names[i], names[j])
    {
      LessIff(names[i], names[j]);
    }
    forall name
      ensures name in names <==> exists i :: 0 <= i < |items| && items[i].name == name
    {
      assert name in Names(items) <==> Has(items, name);
    }
  }

  lemma BodyAsText(items: seq<Item>)
    ensures Body(items) == HEADER + "\n" + ("@./.claude-shared.md\n" + ImportText(Sorted(Names(items))))
  {
    var names := Sorted(Names(items));
    ImportsAsText(names);
    var rest := ["@./.claude-shared.md"] + Imports(names);
    assert rest[1..] == Imports(names) && "@./.claude-shared.md" + "\n" == "@./.claude-shared.md\n";
    assert Text.Unlines(rest) == "@./.claude-shared.md\n" + ImportText(names);
    assert [HEADER, "@./.claude-shared.md"] + Imports(names) == [HEADER] + rest;
    assert ([HEADER] + rest)[1..] == rest;
  }

  /** The entry after its header: the shared base and each fragment, in that order. */
  lemma EntryText(items: seq<Item>)
    ensures exists names :: IsOrdered(names, items)
              && Body(items) == HEADER + "\n" + ("@./.claude-shared.md\n" + ImportText(names))
  {
    SortedIsOrdered(items);
    BodyAsText(items);
  }

  function ImportText(names: seq<string>): string {
    if names == [] then "" else "@./.claude-fragments/" + names[0] + "\n" + ImportText(names[1..])
  }

  lemma {:induction false} ImportsAsText(names: seq<string>)
    ensures Text.Unlines(Imports(names)) == ImportText(names)
    decreases |names|
  {
    if names != [] {
      assert Imports(names)[1..] == Imports(names[1..]);
      ImportsAsText(names[1..]);
    }
  }
}
