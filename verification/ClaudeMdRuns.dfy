/** Interrupted composing, the composed entry, and the text that the cutover preserves. */
module ClaudeMdRuns {
  import opened Options
  import opened ClaudeMd
  import opened ClaudeMdLaws
  import Text

  // ---------------------------------------------------------------------------------------------
  // Operations that leave a path alone
  // ---------------------------------------------------------------------------------------------

  predicate Spares(op: Op, p: Path) {
    op.path != p && (op.Rename? ==> op.to != p)
  }

  predicate AllSpare(ops: seq<Op>, p: Path) {
    forall i :: 0 <= i < |ops| ==> Spares(ops[i], p)
  }

  lemma {:induction false} SparedStays(fs: Files, ops: seq<Op>, p: Path)
    requires AllSpare(ops, p)
    ensures At(ApplyAll(fs, ops), p) == At(fs, p)
    decreases |ops|
  {
    if ops != [] {
      assert Spares(ops[0], p);
      SparedStays(Apply(fs, ops[0]), ops[1..], p);
    }
  }

  /** The operations of a run, apart from those on the entry: only fragments, the shared link, temporary
      files of the entry and, where it is missing, the local file. */
  predicate Tame(fs: Files, op: Op) {
    match op
    case Unlink(p) => p.Fragment? || p == SHARED
    case Symlink(p, _) => p.Fragment? || p == SHARED
    case Write(p, content) => p.Fragment? || IsEntryTmp(p) || (p == LOCAL && LOCAL !in fs && content == "")
    case Rename(p, to) => (p.Fragment? && to.Fragment?) || (IsEntryTmp(p) && to == ENTRY)
  }

  predicate AllTame(fs: Files, ops: seq<Op>) {
    forall i :: 0 <= i < |ops| ==> Tame(fs, ops[i])
  }

  predicate OnFragments(op: Op) {
    && (op.path.Fragment? || (op.path == SHARED && (op.Unlink? || op.Symlink?)))
    && (op.Rename? ==> op.to.Fragment?)
  }

  predicate OnlyFragments(ops: seq<Op>) {
    forall i :: 0 <= i < |ops| ==> OnFragments(ops[i])
  }

  lemma {:induction false} StaleIsOnlyFragments(listing: seq<string>, items: seq<Item>)
    ensures OnlyFragments(StaleOps(listing, items))
    decreases |listing|
  {
    if listing != [] { StaleIsOnlyFragments(listing[..|listing| - 1], items); }
  }

  lemma {:induction false} FragmentOpsAreOnlyFragments(fs: Files, items: seq<Item>, pid: string)
    ensures OnlyFragments(FragmentOps(fs, items, pid))
    decreases |items|
  {
    if items != [] { FragmentOpsAreOnlyFragments(fs, items[..|items| - 1], pid); }
  }

  lemma ReconcileIsOnlyFragments(fs: Files, listing: seq<string>, items: seq<Item>, pid: string)
    ensures OnlyFragments(ReconcileOps(fs, listing, items, pid))
  {
    StaleIsOnlyFragments(listing, items);
    FragmentOpsAreOnlyFragments(ApplyAll(fs, SyncOps(fs, SHARED, SHARED_TARGET) + StaleOps(listing, items)), items, pid);
  }

  lemma ComposeIsTame(fs: Files, listing: seq<string>, items: seq<Item>, pid: string)
    ensures AllTame(fs, ComposeOps(fs, listing, items, pid))
  {
    ReconcileIsOnlyFragments(fs, listing, items, pid);
    TmpOfEntry(pid);
    var first, entry := ReconcileOps(fs, listing, items, pid), AtomicOps(ENTRY, Body(items), pid);
    assert AllTame(fs, entry) && AllTame(fs, LocalOps(fs));
    assert forall i :: 0 <= i < |first| ==> OnFragments(first[i]);
  }

  // ---------------------------------------------------------------------------------------------
  // Interrupted runs
  // ---------------------------------------------------------------------------------------------

  /** What interrupted runs leave alone: everything but the fragments, the shared link, the entry and
      its temporary files; the local file can only appear, empty. */
  ghost predicate Kept(fs: Files, now: Files) {
    && NoLinks(now)
    && forall p: Path :: p.Root? && p != SHARED && p != ENTRY && !IsEntryTmp(p) ==>
         At(now, p) == At(fs, p) || (p == LOCAL && LOCAL !in fs && At(now, p) == Some(File("")))
  }

  lemma StepKeeps(fs: Files, now: Files, op: Op)
    requires Kept(fs, now) && Tame(fs, op)
    ensures Kept(fs, Apply(now, op))
  {
    var after := Apply(now, op);
    EntryIsNotTmp();
    forall p | p in after && (p == LOCAL || IsEntryTmp(p))
      ensures after[p].File?
    {
      if IsEntryTmp(p) { EntryTmpNames(p); }
      assert p in now ==> now[p].File?;
    }
    forall p: Path | p.Root? && p != SHARED && p != ENTRY && !IsEntryTmp(p)
      ensures At(after, p) == At(fs, p) || (p == LOCAL && LOCAL !in fs && At(after, p) == Some(File("")))
    {
      assert At(now, p) == At(fs, p) || (p == LOCAL && LOCAL !in fs && At(now, p) == Some(File("")));
    }
  }

  lemma EntryIsNotTmp()
    ensures !IsEntryTmp(ENTRY) && !IsEntryTmp(LOCAL) && !IsEntryTmp(SHARED)
  {
    if IsEntryTmp(ENTRY) { EntryTmpNames(ENTRY); }
    if IsEntryTmp(LOCAL) { EntryTmpNames(LOCAL); }
    if IsEntryTmp(SHARED) { EntryTmpNames(SHARED); }
  }

  lemma {:induction false} TameRunKeeps(fs: Files, now: Files, ops: seq<Op>)
    requires Kept(fs, now) && AllTame(fs, ops)
    ensures Kept(fs, ApplyAll(now, ops))
    decreases |ops|
  {
    if ops != [] {
      assert Tame(fs, ops[0]);
      StepKeeps(fs, now, ops[0]);
      assert AllTame(fs, ops[1..]);
      TameRunKeeps(fs, Apply(now, ops[0]), ops[1..]);
    }
  }

  /** A run that stops after `done` file operations. */
  datatype Attempt = Attempt(listing: seq<string>, items: seq<Item>, pid: string, done: nat)

  function Cut(ops: seq<Op>, done: nat): seq<Op> {
    if done <= |ops| then ops[..done] else ops
  }

  function AfterAttempt(fs: Files, a: Attempt): Files {
    ApplyAll(fs, Cut(ComposeOps(fs, a.listing, a.items, a.pid), a.done))
  }

  function AfterAttempts(fs: Files, attempts: seq<Attempt>): Files {
    if attempts == [] then fs else AfterAttempt(AfterAttempts(fs, attempts[..|attempts| - 1]), attempts[|attempts| - 1])
  }

  lemma AttemptKeeps(fs: Files, now: Files, a: Attempt)
    requires Kept(fs, now)
    ensures Kept(fs, AfterAttempt(now, a))
  {
    var ops := ComposeOps(now, a.listing, a.items, a.pid);
    ComposeIsTame(now, a.listing, a.items, a.pid);
    LocalIsKept(fs, now);
    TameForBoth(fs, now, ops, a.done);
    TameRunKeeps(fs, now, Cut(ops, a.done));
  }

  lemma LocalIsKept(fs: Files, now: Files)
    requires Kept(fs, now)
    ensures LOCAL in fs ==> LOCAL in now
  {
    EntryIsNotTmp();
    assert At(now, LOCAL) == At(fs, LOCAL) || (LOCAL !in fs && At(now, LOCAL) == Some(File("")));
  }

  lemma TameForBoth(fs: Files, now: Files, ops: seq<Op>, done: nat)
    requires AllTame(now, ops) && (LOCAL in fs ==> LOCAL in now)
    ensures AllTame(fs, Cut(ops, done))
  {
    forall i | 0 <= i < |Cut(ops, done)|
      ensures Tame(fs, Cut(ops, done)[i])
    {
      assert Tame(now, ops[i]);
    }
  }

  lemma {:induction false} AttemptsKeep(fs: Files, attempts: seq<Attempt>)
    requires NoLinks(fs)
    ensures Kept(fs, AfterAttempts(fs, attempts))
    decreases |attempts|
  {
    if attempts != [] {
      var n := |attempts| - 1;
      AttemptsKeep(fs, attempts[..n]);
      AttemptKeeps(fs, AfterAttempts(fs, attempts[..n]), attempts[n]);
    }
  }

  /** However many runs were interrupted between whichever file operations, with whatever they wanted
      then, the next complete run leaves what it would have left without them, but for temporary files
      of the entry. */
  lemma InterruptedRunsConverge(fs: Files, attempts: seq<Attempt>, listing: seq<string>, items: seq<Item>, pid: string)
    requires NoLinks(fs) && NamesAreMd(items) && IsPid(pid)
    requires Lists(listing, AfterAttempts(fs, attempts))
    ensures var now := AfterAttempts(fs, attempts);
            var result := ApplyAll(now, ComposeOps(now, listing, items, pid));
            forall p :: !IsEntryTmp(p) ==> At(result, p) == ComposedAt(fs, items, pid, p)
  {
    var now := AfterAttempts(fs, attempts);
    AttemptsKeep(fs, attempts);
    ComposeConverges(now, listing, items, pid);
    EntryIsNotTmp();
    TmpOfEntry(pid);
    forall p | !IsEntryTmp(p)
      ensures ComposedAt(now, items, pid, p) == ComposedAt(fs, items, pid, p)
    {
      if p.Root? && p != SHARED && p != ENTRY {
        assert At(now, p) == At(fs, p) || (p == LOCAL && LOCAL !in fs && At(now, p) == Some(File("")));
      }
    }
  }

  lemma EntryAfterRename(a: Files, body: string, pid: string, rest: seq<Op>)
    requires NoLinks(a) && AllSpare(rest, ENTRY)
    ensures At(ApplyAll(ApplyAll(a, AtomicOps(ENTRY, body, pid)), rest), ENTRY) == Some(File(body))
  {
    TmpOfEntry(pid);
    AtomicAt(a, ENTRY, body, pid);
    SparedStays(ApplyAll(a, AtomicOps(ENTRY, body, pid)), rest, ENTRY);
  }

  lemma CutInThree(first: seq<Op>, a: Op, b: Op, last: seq<Op>, done: nat)
    ensures var cut := Cut(first + [a, b] + last, done);
            && (done <= |first| ==> cut == first[..done])
            && (done == |first| + 1 ==> cut == first + [a])
            && (done >= |first| + 2 ==> cut == first + [a, b] + Cut(last, done - |first| - 2))
  {
  }

  /** At every moment of a run the entry is the one from before or the complete new one. */
  lemma EntryIsNeverPartial(fs: Files, listing: seq<string>, items: seq<Item>, pid: string, done: nat)
    requires NoLinks(fs)
    ensures var now := AfterAttempt(fs, Attempt(listing, items, pid, done));
            At(now, ENTRY) == At(fs, ENTRY) || At(now, ENTRY) == Some(File(Body(items)))
  {
    var first, entry, local := ReconcileOps(fs, listing, items, pid), AtomicOps(ENTRY, Body(items), pid), LocalOps(fs);
    TmpOfEntry(pid);
    EntryIsNotTmp();
    ReconcileSparesEntry(fs, listing, items, pid);
    CutInThree(first, entry[0], entry[1], local, done);
    if done <= |first| {
      SparedStays(fs, first[..done], ENTRY);
    } else if done == |first| + 1 {
      assert AllSpare(first + [entry[0]], ENTRY);
      SparedStays(fs, first + [entry[0]], ENTRY);
    } else {
      var rest := Cut(local, done - |first| - 2);
      TameEntry(fs, first);
      ApplyParts(fs, first, entry);
      ApplyParts(fs, first + entry, rest);
      EntryAfterRename(ApplyAll(fs, first), Body(items), pid, rest);
    }
  }

  lemma ReconcileSparesEntry(fs: Files, listing: seq<string>, items: seq<Item>, pid: string)
    ensures OnlyFragments(ReconcileOps(fs, listing, items, pid)) && AllSpare(ReconcileOps(fs, listing, items, pid), ENTRY)
  {
    var first := ReconcileOps(fs, listing, items, pid);
    ReconcileIsOnlyFragments(fs, listing, items, pid);
    assert forall i :: 0 <= i < |first| ==> OnFragments(first[i]);
  }

  lemma TameEntry(fs: Files, first: seq<Op>)
    requires NoLinks(fs) && OnlyFragments(first)
    ensures NoLinks(ApplyAll(fs, first))
  {
    EntryIsNotTmp();
    assert AllTame(fs, first) by {
      assert forall i :: 0 <= i < |first| ==> OnFragments(first[i]);
    }
    TameRunKeeps(fs, fs, first);
  }

  // ---------------------------------------------------------------------------------------------
  // The local file
  // ---------------------------------------------------------------------------------------------

  datatype Action = Compose(attempt: Attempt) | Cutover(done: nat)

  function Act(fs: Files, action: Action): Files {
    match action
    case Compose(a) => AfterAttempt(fs, a)
    case Cutover(done) => ApplyAll(fs, Cut(CutoverOps(fs), done))
  }

  function After(fs: Files, actions: seq<Action>): Files
    decreases |actions|
  {
    if actions == [] then fs else After(Act(fs, actions[0]), actions[1..])
  }

  lemma ComposeSparesLocal(fs: Files, a: Attempt)
    requires LOCAL in fs
    ensures AllSpare(ComposeOps(fs, a.listing, a.items, a.pid), LOCAL)
  {
    ReconcileIsOnlyFragments(fs, a.listing, a.items, a.pid);
    TmpOfEntry(a.pid);
    var first := ReconcileOps(fs, a.listing, a.items, a.pid);
    assert forall i :: 0 <= i < |first| ==> OnFragments(first[i]) && Spares(first[i], LOCAL);
  }

  /** A local file is never touched again, by complete or interrupted runs of either kind. */
  lemma {:induction false} LocalStays(fs: Files, actions: seq<Action>)
    requires LOCAL in fs
    ensures At(After(fs, actions), LOCAL) == At(fs, LOCAL)
    decreases |actions|
  {
    if actions != [] {
      match actions[0] {
        case Compose(a) =>
          ComposeSparesLocal(fs, a);
          SparedStays(fs, Cut(ComposeOps(fs, a.listing, a.items, a.pid), a.done), LOCAL);
        case Cutover(done) =>
          SparedStays(fs, Cut(CutoverOps(fs), done), LOCAL);
      }
      assert At(Act(fs, actions[0]), LOCAL) == At(fs, LOCAL);
      LocalStays(Act(fs, actions[0]), actions[1..]);
    }
  }

  lemma CutoverMoves(fs: Files)
    requires ENTRY in fs && LOCAL !in fs
    ensures At(ApplyAll(fs, CutoverOps(fs)), LOCAL) == At(fs, ENTRY)
  {
    assert OLD_GLOBAL.name[1] == 'c' && ENTRY.name[1] == 'L' && LOCAL.name[1] == 'L';
    if OLD_GLOBAL in fs {
      assert CutoverOps(fs) == [Unlink(OLD_GLOBAL), Rename(ENTRY, LOCAL)];
      ApplyTwo(fs, Unlink(OLD_GLOBAL), Rename(ENTRY, LOCAL));
    } else {
      assert CutoverOps(fs) == [Rename(ENTRY, LOCAL)];
      ApplyOne(fs, Rename(ENTRY, LOCAL));
    }
  }

  /** A complete cutover removes the old link, and a second one finds nothing to do. */
  lemma SecondCutoverDoesNothing(fs: Files)
    ensures OLD_GLOBAL !in ApplyAll(fs, CutoverOps(fs)) && CutoverOps(ApplyAll(fs, CutoverOps(fs))) == []
  {
    assert OLD_GLOBAL.name[1] == 'c' && ENTRY.name[1] == 'L' && LOCAL.name[1] == 'L';
    if OLD_GLOBAL in fs && ENTRY in fs && LOCAL !in fs {
      assert CutoverOps(fs) == [Unlink(OLD_GLOBAL), Rename(ENTRY, LOCAL)];
      ApplyTwo(fs, Unlink(OLD_GLOBAL), Rename(ENTRY, LOCAL));
    } else if OLD_GLOBAL in fs {
      assert CutoverOps(fs) == [Unlink(OLD_GLOBAL)];
      ApplyOne(fs, Unlink(OLD_GLOBAL));
    } else if ENTRY in fs && LOCAL !in fs {
      assert CutoverOps(fs) == [Rename(ENTRY, LOCAL)];
      ApplyOne(fs, Rename(ENTRY, LOCAL));
    }
  }

  /** After the cutover, whatever is composed or cut over later, the local file holds the text that the
      entry had, exactly when there was no local file before, or one with that very text. */
  lemma CutoverPreservesTextIff(fs: Files, text: string, actions: seq<Action>)
    requires At(fs, ENTRY) == Some(File(text))
    ensures At(After(ApplyAll(fs, CutoverOps(fs)), actions), LOCAL) == Some(File(text))
       <==> LOCAL !in fs || fs[LOCAL] == File(text)
  {
    var moved := ApplyAll(fs, CutoverOps(fs));
    if LOCAL in fs {
      SparedStays(fs, CutoverOps(fs), LOCAL);
    } else {
      CutoverMoves(fs);
    }
    LocalStays(moved, actions);
  }

  /** Composed before the cutover, the text is gone: the local file is empty from then on. */
  lemma ComposeBeforeCutoverLosesText(fs: Files, listing: seq<string>, items: seq<Item>, pid: string,
      actions: seq<Action>)
    requires LOCAL !in fs && Lists(listing, fs) && NoLinks(fs) && NamesAreMd(items) && IsPid(pid)
    ensures At(After(ApplyAll(fs, ComposeOps(fs, listing, items, pid)), actions), LOCAL) == Some(File(""))
  {
    var composed := ApplyAll(fs, ComposeOps(fs, listing, items, pid));
    ComposeConverges(fs, listing, items, pid);
    assert At(composed, LOCAL) == ComposedAt(fs, items, pid, LOCAL);
    LocalStays(composed, actions);
  }

  // ---------------------------------------------------------------------------------------------
  // The composed entry
  // ---------------------------------------------------------------------------------------------

  ghost predicate IsSortedListOf(s: seq<string>, names: set<string>) {
    && (forall i, j :: 0 <= i < j < |s| ==> Less(s[i], s[j]))
    && (forall x :: x in s <==> x in names)
  }

  lemma {:induction false} SortedIsSorted(names: set<string>)
    ensures IsSortedListOf(Sorted(names), names)
    decreases |names|
  {
    if names != {} {
      var m := Least(names);
      SortedIsSorted(names - {m});
      ConsIsSorted(m, Sorted(names - {m}), names);
    }
  }

  lemma ConsIsSorted(m: string, rest: seq<string>, names: set<string>)
    requires IsLeast(m, names) && IsSortedListOf(rest, names - {m})
    ensures IsSortedListOf([m] + rest, names)
  {
    forall i | 0 <= i < |rest|
      ensures Less(m, rest[i])
    {
      assert rest[i] in rest;
    }
  }

  /** The sorted listing is the only one, so that it does not matter how it is computed. */
  lemma {:induction false} SortedIsUnique(s: seq<string>, names: set<string>)
    requires IsSortedListOf(s, names)
    ensures s == Sorted(names)
    decreases |s|
  {
    if s != [] {
      assert s[0] in names;
      assert IsLeast(s[0], names) by {
        forall x | x in names && x != s[0]
          ensures Less(s[0], x)
        {
          var i :| 0 <= i < |s| && s[i] == x;
        }
      }
      LeastIsUnique(s[0], Least(names), names);
      assert IsSortedListOf(s[1..], names - {s[0]}) by {
        forall x
          ensures x in s[1..] <==> x in names - {s[0]}
        {
          LessIsTotal(s[0], s[0]);
          if x in names - {s[0]} {
            var i :| 0 <= i < |s| && s[i] == x;
            assert s[1..][i - 1] == x;
          }
          if x in s[1..] {
            var i :| 0 <= i < |s[1..]| && s[1..][i] == x;
            assert Less(s[0], s[i + 1]);
          }
        }
      }
      SortedIsUnique(s[1..], names - {s[0]});
    } else {
      assert names == {};
    }
  }

  predicate OneLineNames(items: seq<Item>) {
    forall i :: 0 <= i < |items| ==> '\n' !in items[i].name
  }

  /** Line by line, the entry names the shared base and then every wanted fragment once, in order, exactly
      when no name has a line feed. */
  lemma BodyNamesEachFragmentOnce(items: seq<Item>)
    ensures IsSortedListOf(Sorted(Names(items)), Names(items))
    ensures Text.Lines(Body(items)) == [HEADER, "@./.claude-shared.md"] + Imports(Sorted(Names(items))) + [""]
       <==> OneLineNames(items)
  {
    var sorted := Sorted(Names(items));
    SortedIsSorted(Names(items));
    var lines := [HEADER, "@./.claude-shared.md"] + Imports(sorted);
    if OneLineNames(items) {
      OneLineImports(items);
      Text.LinesOfUnlines(lines, "");
      assert Text.Unlines(lines) + "" == Text.Unlines(lines);
    } else {
      var j :| 0 <= j < |items| && '\n' in items[j].name;
      assert items[j].name in Names(items) && items[j].name in sorted;
      var i :| 0 <= i < |sorted| && sorted[i] == items[j].name;
      assert '\n' in Import(sorted[i]) && (lines + [""])[2 + i] == Import(sorted[i]);
      assert Text.AreLines(Text.Lines(Body(items)));
    }
  }

  lemma OneLineImports(items: seq<Item>)
    requires OneLineNames(items) && IsSortedListOf(Sorted(Names(items)), Names(items))
    ensures Text.AreLines([HEADER, "@./.claude-shared.md"] + Imports(Sorted(Names(items))))
  {
    var sorted := Sorted(Names(items));
    HeaderIsOneLine();
    forall i | 0 <= i < |sorted|
      ensures '\n' !in Import(sorted[i])
    {
      assert sorted[i] in Names(items);
      var j :| 0 <= j < |items| && items[j].name == sorted[i];
      assert '\n' !in "@./.claude-fragments/";
    }
  }

  lemma HeaderIsOneLine()
    ensures '\n' !in HEADER && '\n' !in "@./.claude-shared.md"
  {
  }
}
