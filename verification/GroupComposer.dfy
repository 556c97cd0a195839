/** Composing and cutting over one group, one file operation at a time. */
module GroupComposer {
  import opened Options
  import opened ClaudeMd
  import opened ClaudeMdLaws
  import opened ClaudeMdRuns
  import Text

  lemma BeforeLocal(fs: Files, listing: seq<string>, items: seq<Item>, pid: string)
    ensures var ops := ReconcileOps(fs, listing, items, pid) + AtomicOps(ENTRY, Body(items), pid);
            (LOCAL in ApplyAll(fs, ops)) == (LOCAL in fs)
  {
    var first := ReconcileOps(fs, listing, items, pid);
    ReconcileIsOnlyFragments(fs, listing, items, pid);
    TmpOfEntry(pid);
    assert forall i :: 0 <= i < |first| ==> OnFragments(first[i]) && Spares(first[i], LOCAL);
    SparedStays(fs, first + AtomicOps(ENTRY, Body(items), pid), LOCAL);
  }

  class Composer {
    var files: Files

    constructor (files: Files)
      ensures this.files == files
    {
      this.files := files;
    }

    /** One operation of the file system. */
    method Do(op: Op)
      modifies this
      ensures files == Apply(old(files), op)
    {
      files := Apply(files, op);
    }

    method SyncSymlink(p: Path, target: string)
      modifies this
      ensures files == ApplyAll(old(files), SyncOps(old(files), p, target))
      ensures files == old(files)[p := Link(target)]
    {
      SyncAt(files, p, target);
      if p in files && files[p] == Link(target) {
        assert files == files[p := Link(target)];
        return;
      }
      if p in files { Do(Unlink(p)); }
      Do(Symlink(p, target));
      assert files == old(files)[p := Link(target)];
    }

    method WriteAtomic(p: Path, content: string, pid: string)
      modifies this
      ensures files == ApplyAll(old(files), AtomicOps(p, content, pid))
    {
      var tmp := TmpOf(p, pid);
      ApplyTwo(files, Write(tmp, content), Rename(tmp, p));
      Do(Write(tmp, content));
      Do(Rename(tmp, p));
    }

    method FindDesired(from: Sources) returns (items: seq<Item>)
      ensures items == Desired(from)
    {
      items := [];
      for i := 0 to |from.skills|
        invariant items == SkillItems(from.skills[..i])
      {
        assert from.skills[..i + 1][..i] == from.skills[..i];
        items := items + [SkillItem(from.skills[i])];
      }
      assert from.skills[..|from.skills|] == from.skills;
      ghost var skills := items;
      for i := 0 to |from.tools|
        invariant items == skills + ToolItems(from.tools[..i], from.cliDisabled)
      {
        assert from.tools[..i + 1][..i] == from.tools[..i];
        var item := ToolItem(from.tools[i], from.cliDisabled);
        if item.Some? { items := items + [item.value]; }
      }
      assert from.tools[..|from.tools|] == from.tools;
      ghost var tools := items;
      for i := 0 to |from.servers|
        invariant items == tools + ServerItems(from.servers[..i])
      {
        assert from.servers[..i + 1][..i] == from.servers[..i];
        var item := ServerItem(from.servers[i]);
        if item.Some? { items := items + [item.value]; }
      }
      assert from.servers[..|from.servers|] == from.servers;
    }

    method DropStale(listing: seq<string>, items: seq<Item>)
      modifies this
      ensures files == ApplyAll(old(files), StaleOps(listing, items))
    {
      for i := 0 to |listing|
        invariant files == ApplyAll(old(files), StaleOps(listing[..i], items))
      {
        assert listing[..i + 1][..i] == listing[..i];
        if !Has(items, listing[i]) {
          ApplyParts(old(files), StaleOps(listing[..i], items), [Unlink(Fragment(listing[i]))]);
          ApplyOne(files, Unlink(Fragment(listing[i])));
          Do(Unlink(Fragment(listing[i])));
        }
      }
      assert listing[..|listing|] == listing;
    }

    method WriteDesired(items: seq<Item>, pid: string)
      modifies this
      ensures files == ApplyAll(old(files), FragmentOps(old(files), items, pid))
    {
      for i := 0 to |items|
        invariant files == ApplyAll(old(files), FragmentOps(old(files), items[..i], pid))
      {
        assert items[..i + 1][..i] == items[..i];
        ApplyParts(old(files), FragmentOps(old(files), items[..i], pid), ItemOps(files, items[i], pid));
        var p := Fragment(items[i].name);
        match items[i].wanted {
          case AsLink(target) => SyncSymlink(p, target);
          case Inline(content) => WriteAtomic(p, content, pid);
        }
      }
      assert items[..|items|] == items;
    }

    method BuildBody(items: seq<Item>) returns (body: string)
      ensures body == Body(items)
    {
      var lines := [HEADER, "@./.claude-shared.md"];
      var names := Sorted(Names(items));
      for i := 0 to |names|
        invariant lines == [HEADER, "@./.claude-shared.md"] + Imports(names[..i])
      {
        lines := lines + [Import(names[i])];
      }
      assert names[..|names|] == names;
      body := Text.Unlines(lines);
    }

    method ComposeGroupClaudeMd(from: Sources, listing: seq<string>, pid: string)
      modifies this
      ensures files == ApplyAll(old(files), ComposeOps(old(files), listing, Desired(from), pid))
    {
      ghost var fs := files;
      var items := FindDesired(from);
      ghost var sync, stale := SyncOps(fs, SHARED, SHARED_TARGET), StaleOps(listing, items);
      SyncSymlink(SHARED, SHARED_TARGET);
      DropStale(listing, items);
      ApplyParts(fs, sync, stale);
      ghost var fragments := FragmentOps(files, items, pid);
      WriteDesired(items, pid);
      ApplyParts(fs, sync + stale, fragments);
      ghost var first := ReconcileOps(fs, listing, items, pid);
      assert files == ApplyAll(fs, first);
      var body := BuildBody(items);
      WriteAtomic(ENTRY, body, pid);
      ghost var entry := AtomicOps(ENTRY, body, pid);
      ApplyParts(fs, first, entry);
      BeforeLocal(fs, listing, items, pid);
      ApplyParts(fs, first + entry, LocalOps(fs));
      if LOCAL !in files {
        ApplyOne(files, Write(LOCAL, ""));
        Do(Write(LOCAL, ""));
      }
    }

    method MigrateToClaudeLocal()
      modifies this
      ensures files == ApplyAll(old(files), CutoverOps(old(files)))
    {
      ghost var fs := files;
      ghost var unlinks := if OLD_GLOBAL in fs then [Unlink(OLD_GLOBAL)] else [];
      ghost var renames := if ENTRY in fs && LOCAL !in fs then [Rename(ENTRY, LOCAL)] else [];
      ApplyParts(fs, unlinks, renames);
      assert OLD_GLOBAL.name[1] == 'c' && ENTRY.name[1] == 'L' && LOCAL.name[1] == 'L';
      if OLD_GLOBAL in files {
        ApplyOne(files, Unlink(OLD_GLOBAL));
        Do(Unlink(OLD_GLOBAL));
      }
      if ENTRY in files && LOCAL !in files {
        ApplyOne(files, Rename(ENTRY, LOCAL));
        Do(Rename(ENTRY, LOCAL));
      }
    }
  }
}
