/** What composing and the cutover promise: convergence from any contents, also after interruptions,
    and the preservation of the group's own text. */
module ClaudeMdLaws {
  import opened Options
  import opened ClaudeMd
  import Text

  function At(fs: Files, p: Path): Option<Entry> {
    if p in fs then Some(fs[p]) else None
  }

  lemma {:induction false} ApplyParts(fs: Files, a: seq<Op>, b: seq<Op>)
    ensures ApplyAll(fs, a + b) == ApplyAll(ApplyAll(fs, a), b)
    decreases |a|
  {
    if a == [] {
      assert a + b == b;
    } else {
      assert (a + b)[1..] == a[1..] + b;
      ApplyParts(Apply(fs, a[0]), a[1..], b);
    }
  }

  lemma ApplyOne(fs: Files, op: Op)
    ensures ApplyAll(fs, [op]) == Apply(fs, op)
  {
    assert ApplyAll(Apply(fs, op), [op][1..]) == Apply(fs, op);
  }

  lemma ApplyTwo(fs: Files, a: Op, b: Op)
    ensures ApplyAll(fs, [a, b]) == Apply(Apply(fs, a), b)
  {
    assert [a, b] == [a] + [b];
    ApplyParts(fs, [a], [b]);
    ApplyOne(fs, a);
    ApplyOne(Apply(fs, a), b);
  }

  // ---------------------------------------------------------------------------------------------
  // The wanted names
  // ---------------------------------------------------------------------------------------------

  predicate EndsInMd(name: string) {
    |name| >= 3 && name[|name| - 3..] == ".md"
  }

  predicate NamesAreMd(items: seq<Item>) {
    forall i :: 0 <= i < |items| ==> EndsInMd(items[i].name)
  }

  predicate IsPid(pid: string) {
    pid != "" && forall i :: 0 <= i < |pid| ==> '0' <= pid[i] <= '9'
  }

  predicate NoRepeats(s: seq<string>) {
    forall i, j :: 0 <= i < j < |s| ==> s[i] != s[j]
  }

  predicate AllStart(items: seq<Item>, prefix: string) {
    forall i :: 0 <= i < |items| ==> prefix <= items[i].name
  }

  lemma PaddedNamesDiffer(prefix: string, a: string, b: string)
    requires prefix + a + ".md" == prefix + b + ".md"
    ensures a == b
  {
    var x, y := prefix + a + ".md", prefix + b + ".md";
    assert x[|prefix|..|x| - 3] == a && y[|prefix|..|y| - 3] == b;
  }

  predicate Fits(items: seq<Item>, prefix: string) {
    DistinctNames(items) && NamesAreMd(items) && AllStart(items, prefix)
  }

  lemma AddFits(rest: seq<Item>, item: Option<Item>, prefix: string)
    requires Fits(rest, prefix)
    requires item.Some? ==> !Has(rest, item.value.name) && EndsInMd(item.value.name) && prefix <= item.value.name
    ensures Fits(Add(rest, item), prefix)
  {
    if item.Some? {
      assert forall i :: 0 <= i < |rest| ==> rest[i].name != item.value.name;
    }
  }

  lemma {:induction false} SkillOrigin(skills: seq<string>, i: nat)
    requires i < |SkillItems(skills)|
    ensures |SkillItems(skills)| == |skills| && SkillItems(skills)[i] == SkillItem(skills[i])
    decreases |skills|
  {
    var n := |skills| - 1;
    if i < |SkillItems(skills[..n])| {
      SkillOrigin(skills[..n], i);
    } else if n > 0 {
      SkillOrigin(skills[..n], 0);
    }
  }

  lemma {:induction false} SkillItemsFit(skills: seq<string>)
    requires NoRepeats(skills)
    ensures Fits(SkillItems(skills), "skill-")
    decreases |skills|
  {
    if skills != [] {
      var n := |skills| - 1;
      var rest, item := SkillItems(skills[..n]), SkillItem(skills[n]);
      SkillItemsFit(skills[..n]);
      if Has(rest, item.name) {
        var i :| 0 <= i < |rest| && rest[i].name == item.name;
        SkillOrigin(skills[..n], i);
        PaddedNamesDiffer("skill-", skills[i], skills[n]);
      }
      AddFits(rest, Some(item), "skill-");
    }
  }

  lemma ToolNamesDiffer(a: string, b: string, cliDisabled: bool)
    requires ToolItem(a, cliDisabled).Some? && ToolItem(b, cliDisabled).Some?
    requires ToolItem(a, cliDisabled).value.name == ToolItem(b, cliDisabled).value.name
    ensures a == b
  {
    PaddedNamesDiffer("module-", ModuleOf(a).value, ModuleOf(b).value);
    assert a == ModuleOf(a).value + TOOL_SUFFIX && b == ModuleOf(b).value + TOOL_SUFFIX;
  }

  lemma {:induction false} ToolOrigin(entries: seq<string>, cliDisabled: bool, i: nat) returns (j: nat)
    requires i < |ToolItems(entries, cliDisabled)|
    ensures j < |entries| && ToolItem(entries[j], cliDisabled) == Some(ToolItems(entries, cliDisabled)[i])
    decreases |entries|
  {
    var n := |entries| - 1;
    if i < |ToolItems(entries[..n], cliDisabled)| {
      j := ToolOrigin(entries[..n], cliDisabled, i);
    } else {
      j := n;
    }
  }

  lemma {:induction false} ToolItemsFit(entries: seq<string>, cliDisabled: bool)
    requires NoRepeats(entries)
    ensures Fits(ToolItems(entries, cliDisabled), "module-")
    decreases |entries|
  {
    if entries != [] {
      var n := |entries| - 1;
      var rest, item := ToolItems(entries[..n], cliDisabled), ToolItem(entries[n], cliDisabled);
      ToolItemsFit(entries[..n], cliDisabled);
      if item.Some? && Has(rest, item.value.name) {
        var i :| 0 <= i < |rest| && rest[i].name == item.value.name;
        var j := ToolOrigin(entries[..n], cliDisabled, i);
        ToolNamesDiffer(entries[j], entries[n], cliDisabled);
      }
      AddFits(rest, item, "module-");
    }
  }

  predicate DistinctServers(servers: seq<Server>) {
    forall i, j :: 0 <= i < j < |servers| ==> servers[i].name != servers[j].name
  }

  lemma {:induction false} ServerOrigin(servers: seq<Server>, i: nat) returns (j: nat)
    requires i < |ServerItems(servers)|
    ensures j < |servers| && ServerItem(servers[j]) == Some(ServerItems(servers)[i])
    decreases |servers|
  {
    var n := |servers| - 1;
    if i < |ServerItems(servers[..n])| {
      j := ServerOrigin(servers[..n], i);
    } else {
      j := n;
    }
  }

  lemma {:induction false} ServerItemsFit(servers: seq<Server>)
    requires DistinctServers(servers)
    ensures Fits(ServerItems(servers), "mcp-")
    decreases |servers|
  {
    if servers != [] {
      var n := |servers| - 1;
      var rest, item := ServerItems(servers[..n]), ServerItem(servers[n]);
      ServerItemsFit(servers[..n]);
      if item.Some? && Has(rest, item.value.name) {
        var i :| 0 <= i < |rest| && rest[i].name == item.value.name;
        var j := ServerOrigin(servers[..n], i);
        PaddedNamesDiffer("mcp-", servers[j].name, servers[n].name);
      }
      AddFits(rest, item, "mcp-");
    }
  }

  predicate ProperSources(from: Sources) {
    NoRepeats(from.skills) && NoRepeats(from.tools) && DistinctServers(from.servers)
  }

  /** The three kinds of fragments never collide, so that no fragment replaces another. */
  lemma SourcesDoNotCollide(from: Sources)
    requires ProperSources(from)
    ensures DistinctNames(Desired(from)) && NamesAreMd(Desired(from))
  {
    SkillItemsFit(from.skills);
    ToolItemsFit(from.tools, from.cliDisabled);
    ServerItemsFit(from.servers);
    var a, b, c := SkillItems(from.skills), ToolItems(from.tools, from.cliDisabled), ServerItems(from.servers);
    forall i, j | 0 <= i < |a| && 0 <= j < |b|
      ensures a[i].name != b[j].name
    {
      assert a[i].name[0] == 's' && b[j].name[0] == 'm';
    }
    forall i, j | 0 <= i < |a| && 0 <= j < |c|
      ensures a[i].name != c[j].name
    {
      assert a[i].name[0] == 's' && c[j].name[0] == 'm';
    }
    forall i, j | 0 <= i < |b| && 0 <= j < |c|
      ensures b[i].name != c[j].name
    {
      assert b[i].name[1] == 'o' && c[j].name[1] == 'c';
    }
  }

  /** A temporary file is never a wanted fragment. */
  lemma TmpIsNotWanted(items: seq<Item>, name: string, pid: string)
    requires NamesAreMd(items) && IsPid(pid)
    ensures !Has(items, TmpOf(Fragment(name), pid).name)
  {
    var tmp := name + ".tmp-" + pid;
    assert tmp[|tmp| - 3..][2] == pid[|pid| - 1];
    assert !EndsInMd(tmp);
  }

  // ---------------------------------------------------------------------------------------------
  // What a complete run leaves
  // ---------------------------------------------------------------------------------------------

  function EntryOf(w: Wanted): Entry {
    match w
    case AsLink(target) => Link(target)
    case Inline(content) => File(content)
  }

  function WantedAt(items: seq<Item>, name: string): (r: Option<Wanted>)
    ensures r.Some? <==> Has(items, name)
  {
    if items == [] then None
    else
      var rest := items[..|items| - 1];
      assert items == rest + [items[|items| - 1]];
      assert Has(rest, name) ==> Has(items, name) by {
        if Has(rest, name) {
          var i :| 0 <= i < |rest| && rest[i].name == name;
          assert items[i].name == name;
        }
      }
      if items[|items| - 1].name == name then Some(items[|items| - 1].wanted) else WantedAt(rest, name)
  }

  lemma {:induction false} WantedAtIndex(items: seq<Item>, i: nat)
    requires DistinctNames(items) && i < |items|
    ensures WantedAt(items, items[i].name) == Some(items[i].wanted)
    decreases |items|
  {
    var n := |items| - 1;
    if i < n { WantedAtIndex(items[..n], i); }
  }

  lemma SyncAt(fs: Files, p: Path, target: string)
    ensures ApplyAll(fs, SyncOps(fs, p, target)) == fs[p := Link(target)]
  {
    if p in fs && fs[p] == Link(target) {
      assert fs[p := Link(target)] == fs;
    } else if p in fs {
      assert SyncOps(fs, p, target) == [Unlink(p), Symlink(p, target)];
      ApplyTwo(fs, Unlink(p), Symlink(p, target));
      assert (fs - {p})[p := Link(target)] == fs[p := Link(target)];
    } else {
      ApplyOne(fs, Symlink(p, target));
      assert SyncOps(fs, p, target) == [Symlink(p, target)];
    }
  }

  lemma TmpDiffers(p: Path, pid: string)
    ensures TmpOf(p, pid) != p
  {
    assert |TmpOf(p, pid).name| > |p.name|;
  }

  lemma AtomicAt(fs: Files, p: Path, content: string, pid: string)
    requires At(fs, TmpOf(p, pid)).Some? ==> At(fs, TmpOf(p, pid)).value.File?
    ensures ApplyAll(fs, AtomicOps(p, content, pid)) == (fs - {TmpOf(p, pid)})[p := File(content)]
  {
    var tmp := TmpOf(p, pid);
    TmpDiffers(p, pid);
    ApplyTwo(fs, Write(tmp, content), Rename(tmp, p));
    assert fs[tmp := File(content)] - {tmp} == fs - {tmp};
  }

  lemma {:induction false} StaleAt(fs: Files, listing: seq<string>, items: seq<Item>, p: Path)
    ensures At(ApplyAll(fs, StaleOps(listing, items)), p)
         == if p.Fragment? && p.name in listing && !Has(items, p.name) then None else At(fs, p)
    decreases |listing|
  {
    if listing != [] {
      var n := |listing| - 1;
      var rest, last := StaleOps(listing[..n], items), listing[n];
      assert listing == listing[..n] + [last];
      StaleAt(fs, listing[..n], items, p);
      if !Has(items, last) {
        ApplyParts(fs, rest, [Unlink(Fragment(last))]);
        ApplyOne(ApplyAll(fs, rest), Unlink(Fragment(last)));
      }
    }
  }

  predicate OnlyWanted(fs: Files, all: seq<Item>) {
    forall p :: p in fs && p.Fragment? ==> Has(all, p.name)
  }

  /** The fragments of `items`, and elsewhere what was there. */
  function FragmentOr(items: seq<Item>, p: Path, before: Option<Entry>): Option<Entry> {
    if p.Fragment? && Has(items, p.name) then Some(EntryOf(WantedAt(items, p.name).value)) else before
  }

  lemma ItemAt(fs: Files, item: Item, all: seq<Item>, pid: string)
    requires OnlyWanted(fs, all) && NamesAreMd(all) && IsPid(pid)
    ensures ApplyAll(fs, ItemOps(fs, item, pid)) == fs[Fragment(item.name) := EntryOf(item.wanted)]
  {
    match item.wanted
    case AsLink(target) => SyncAt(fs, Fragment(item.name), target);
    case Inline(content) =>
      var tmp := TmpOf(Fragment(item.name), pid);
      TmpIsNotWanted(all, item.name, pid);
      assert tmp !in fs;
      AtomicAt(fs, Fragment(item.name), content, pid);
      assert fs - {tmp} == fs;
  }

  lemma {:induction false} FragmentsAt(fs: Files, items: seq<Item>, all: seq<Item>, pid: string)
    requires OnlyWanted(fs, all) && NamesAreMd(all) && IsPid(pid) && items <= all
    ensures forall p :: At(ApplyAll(fs, FragmentOps(fs, items, pid)), p) == FragmentOr(items, p, At(fs, p))
    ensures OnlyWanted(ApplyAll(fs, FragmentOps(fs, items, pid)), all)
    decreases |items|
  {
    if items != [] {
      var n := |items| - 1;
      var rest, last := items[..n], items[n];
      FragmentsAt(fs, rest, all, pid);
      var mid := ApplyAll(fs, FragmentOps(fs, rest, pid));
      ApplyParts(fs, FragmentOps(fs, rest, pid), ItemOps(mid, last, pid));
      ItemAt(mid, last, all, pid);
      assert all[n].name == last.name;
      var result := ApplyAll(fs, FragmentOps(fs, items, pid));
      assert result == mid[Fragment(last.name) := EntryOf(last.wanted)];
      forall p
        ensures At(result, p) == FragmentOr(items, p, At(fs, p))
      {
        assert At(mid, p) == FragmentOr(rest, p, At(fs, p));
        assert WantedAt(items, p.name) == if last.name == p.name then Some(last.wanted) else WantedAt(rest, p.name);
      }
    }
  }

  /** What the path `p` holds after composing from `fs`. */
  function ComposedAt(fs: Files, items: seq<Item>, pid: string, p: Path): Option<Entry> {
    if p.Fragment? then FragmentOr(items, p, None)
    else if p == SHARED then Some(Link(SHARED_TARGET))
    else if p == ENTRY then Some(File(Body(items)))
    else if p == LOCAL && LOCAL !in fs then Some(File(""))
    else if p == TmpOf(ENTRY, pid) then None
    else At(fs, p)
  }

  /** The names the entry and the local file are written under are not symbolic links. */
  predicate NoLinks(fs: Files) {
    forall p :: p in fs && (p == LOCAL || IsEntryTmp(p)) ==> fs[p].File?
  }

  predicate IsEntryTmp(p: Path) {
    p.Root? && "CLAUDE.md.tmp-" <= p.name
  }

  predicate Lists(listing: seq<string>, fs: Files) {
    forall p :: p in fs && p.Fragment? ==> p.name in listing
  }

  lemma TmpOfEntry(pid: string)
    ensures IsEntryTmp(TmpOf(ENTRY, pid))
    ensures TmpOf(ENTRY, pid) != LOCAL && TmpOf(ENTRY, pid) != SHARED
  {
    assert TmpOf(ENTRY, pid).name[..14] == "CLAUDE.md.tmp-";
    assert TmpOf(ENTRY, pid).name[7] == 'm' && LOCAL.name[7] == 'l';
  }

  /** What the path holds before the entry is rewritten. */
  function ReconciledEntry(fs: Files, items: seq<Item>, p: Path): Option<Entry> {
    if p == SHARED then Some(Link(SHARED_TARGET))
    else if p.Fragment? then FragmentOr(items, p, None)
    else At(fs, p)
  }

  function PrunedEntry(fs: Files, items: seq<Item>, p: Path): Option<Entry> {
    if p == SHARED then Some(Link(SHARED_TARGET))
    else if p.Fragment? && !Has(items, p.name) then None
    else At(fs, p)
  }

  lemma PrunedAt(fs: Files, listing: seq<string>, items: seq<Item>)
    requires Lists(listing, fs)
    ensures var pruned := ApplyAll(fs, SyncOps(fs, SHARED, SHARED_TARGET) + StaleOps(listing, items));
            (forall p :: At(pruned, p) == PrunedEntry(fs, items, p)) && OnlyWanted(pruned, items)
  {
    var sync, stale := SyncOps(fs, SHARED, SHARED_TARGET), StaleOps(listing, items);
    SyncAt(fs, SHARED, SHARED_TARGET);
    var synced := ApplyAll(fs, sync);
    ApplyParts(fs, sync, stale);
    var pruned := ApplyAll(fs, sync + stale);
    forall p
      ensures At(pruned, p) == PrunedEntry(fs, items, p)
    {
      StaleAt(synced, listing, items, p);
    }
    forall p | p in pruned && p.Fragment?
      ensures Has(items, p.name)
    {
      assert At(pruned, p).Some?;
    }
  }

  lemma ReconciledAt(fs: Files, listing: seq<string>, items: seq<Item>, pid: string)
    requires Lists(listing, fs) && NamesAreMd(items) && IsPid(pid)
    ensures forall p :: At(ApplyAll(fs, ReconcileOps(fs, listing, items, pid)), p) == ReconciledEntry(fs, items, p)
  {
    var first := SyncOps(fs, SHARED, SHARED_TARGET) + StaleOps(listing, items);
    var pruned := ApplyAll(fs, first);
    PrunedAt(fs, listing, items);
    FragmentsAt(pruned, items, items, pid);
    ApplyParts(fs, first, FragmentOps(pruned, items, pid));
    forall p
      ensures FragmentOr(items, p, At(pruned, p)) == ReconciledEntry(fs, items, p)
    {
      assert At(pruned, p) == PrunedEntry(fs, items, p);
    }
  }

  lemma EntryTmpNames(p: Path)
    requires IsEntryTmp(p)
    ensures p != SHARED && p != ENTRY && p != LOCAL
  {
    assert p.name[0] == 'C' && p.name[7] == 'm' && |p.name| > |ENTRY.name|;
    assert SHARED.name[0] == '.' && LOCAL.name[7] == 'l';
  }

  /** What the end of a run leaves at the path: the entry and the local file are written. */
  function EndedEntry(a: Files, body: string, pid: string, p: Path): Option<Entry> {
    if p == ENTRY then Some(File(body))
    else if p == LOCAL && LOCAL !in a then Some(File(""))
    else if p == TmpOf(ENTRY, pid) then None
    else At(a, p)
  }

  lemma EndedAt(a: Files, body: string, pid: string, local: seq<Op>)
    requires NoLinks(a) && local == LocalOps(a)
    ensures forall p :: At(ApplyAll(a, AtomicOps(ENTRY, body, pid) + local), p) == EndedEntry(a, body, pid, p)
  {
    TmpOfEntry(pid);
    EntryTmpNames(TmpOf(ENTRY, pid));
    AtomicAt(a, ENTRY, body, pid);
    ApplyParts(a, AtomicOps(ENTRY, body, pid), local);
    if LOCAL !in a { ApplyOne((a - {TmpOf(ENTRY, pid)})[ENTRY := File(body)], Write(LOCAL, "")); }
  }

  lemma ReconciledThenEnded(fs: Files, a: Files, items: seq<Item>, pid: string, p: Path)
    requires At(a, p) == ReconciledEntry(fs, items, p) && (LOCAL in a) == (LOCAL in fs)
    ensures EndedEntry(a, Body(items), pid, p) == ComposedAt(fs, items, pid, p)
  {
    TmpOfEntry(pid);
  }

  lemma ReconciledHasNoLinks(fs: Files, a: Files, items: seq<Item>)
    requires NoLinks(fs) && forall p :: At(a, p) == ReconciledEntry(fs, items, p)
    ensures NoLinks(a) && (LOCAL in a) == (LOCAL in fs)
  {
    forall p | p in a && (p == LOCAL || IsEntryTmp(p))
      ensures a[p].File?
    {
      if IsEntryTmp(p) { EntryTmpNames(p); }
      assert At(a, p) == At(fs, p);
    }
    assert At(a, LOCAL) == ReconciledEntry(fs, items, LOCAL);
  }

  lemma ComposeInParts(fs: Files, listing: seq<string>, items: seq<Item>, pid: string)
    ensures ComposeOps(fs, listing, items, pid)
         == ReconcileOps(fs, listing, items, pid) + (AtomicOps(ENTRY, Body(items), pid) + LocalOps(fs))
  {
    var first, entry := ReconcileOps(fs, listing, items, pid), AtomicOps(ENTRY, Body(items), pid);
    assert first + entry + LocalOps(fs) == first + (entry + LocalOps(fs));
  }

  /** From any contents, composing leaves exactly the wanted fragments, the entry and the link, keeps the
      local file or makes an empty one, and touches nothing else. */
  lemma ComposeConverges(fs: Files, listing: seq<string>, items: seq<Item>, pid: string)
    requires Lists(listing, fs) && NoLinks(fs) && NamesAreMd(items) && IsPid(pid)
    ensures forall p :: At(ApplyAll(fs, ComposeOps(fs, listing, items, pid)), p) == ComposedAt(fs, items, pid, p)
  {
    var first := ReconcileOps(fs, listing, items, pid);
    var rest := AtomicOps(ENTRY, Body(items), pid) + LocalOps(fs);
    ReconciledAt(fs, listing, items, pid);
    var a := ApplyAll(fs, first);
    ReconciledHasNoLinks(fs, a, items);
    EndedAt(a, Body(items), pid, LocalOps(fs));
    ApplyParts(fs, first, rest);
    ComposeInParts(fs, listing, items, pid);
    forall p
      ensures EndedEntry(a, Body(items), pid, p) == ComposedAt(fs, items, pid, p)
    {
      ReconciledThenEnded(fs, a, items, pid, p);
    }
  }

  /** The fragments a complete run leaves, item by item. */
  lemma EachFragmentIsThere(fs: Files, listing: seq<string>, items: seq<Item>, pid: string, i: nat)
    requires Lists(listing, fs) && NoLinks(fs) && NamesAreMd(items) && DistinctNames(items) && IsPid(pid) && i < |items|
    ensures At(ApplyAll(fs, ComposeOps(fs, listing, items, pid)), Fragment(items[i].name)) == Some(EntryOf(items[i].wanted))
  {
    ComposeConverges(fs, listing, items, pid);
    WantedAtIndex(items, i);
  }

  lemma SameFiles(a: Files, b: Files)
    requires forall p :: At(a, p) == At(b, p)
    ensures a == b
  {
    assert forall p :: p in a <==> At(a, p).Some?;
    assert forall p :: p in b <==> At(b, p).Some?;
    forall p | p in a
      ensures p in b && a[p] == b[p]
    {
      assert At(a, p) == At(b, p);
    }
  }

  lemma ComposedHasNoLinks(fs: Files, items: seq<Item>, pid: string, once: Files)
    requires NoLinks(fs) && forall p :: At(once, p) == ComposedAt(fs, items, pid, p)
    ensures NoLinks(once) && LOCAL in once
  {
    TmpOfEntry(pid);
    forall p | p in once && (p == LOCAL || IsEntryTmp(p))
      ensures once[p].File?
    {
      if IsEntryTmp(p) { EntryTmpNames(p); }
      assert At(once, p) == ComposedAt(fs, items, pid, p);
    }
    assert At(once, LOCAL) == ComposedAt(fs, items, pid, LOCAL);
  }

  lemma ComposedTwice(fs: Files, items: seq<Item>, pid: string, once: Files, p: Path)
    requires At(once, p) == ComposedAt(fs, items, pid, p) && LOCAL in once
    ensures ComposedAt(once, items, pid, p) == At(once, p)
  {
    TmpOfEntry(pid);
  }

  /** A second run changes nothing. */
  lemma SecondComposeChangesNothing(fs: Files, listing: seq<string>, items: seq<Item>, pid: string,
      listing': seq<string>)
    requires Lists(listing, fs) && NoLinks(fs) && NamesAreMd(items) && IsPid(pid)
    requires Lists(listing', ApplyAll(fs, ComposeOps(fs, listing, items, pid)))
    ensures var once := ApplyAll(fs, ComposeOps(fs, listing, items, pid));
            ApplyAll(once, ComposeOps(once, listing', items, pid)) == once
  {
    var once := ApplyAll(fs, ComposeOps(fs, listing, items, pid));
    ComposeConverges(fs, listing, items, pid);
    ComposedHasNoLinks(fs, items, pid, once);
    ComposeConverges(once, listing', items, pid);
    forall p
      ensures ComposedAt(once, items, pid, p) == At(once, p)
    {
      ComposedTwice(fs, items, pid, once, p);
    }
    SameFiles(ApplyAll(once, ComposeOps(once, listing', items, pid)), once);
  }
}
