/** Lists of the chat state adapter: the order in which they are read, and what appending does to it. */
module StateStoreLists {
  import opened Options
  import opened Sets
  import opened StateStore
  import opened StateStoreLaws

  // ---------------------------------------------------------------------------------------------
  // Reading in the order of the indices
  // ---------------------------------------------------------------------------------------------

  lemma WithoutMin(rows: Rows)
    requires rows.Keys != {}
    ensures var m := MinOf(rows.Keys);
            Listing(rows) == [rows[m]] + Listing(rows - {m}) && (rows - {m}).Keys == rows.Keys - {m}
  {
  }

  /** The indices in the order in which a list is read. */
  function Indices(keys: set<int>): seq<int>
    decreases |keys|
  {
    if keys == {} then [] else [MinOf(keys)] + Indices(keys - {MinOf(keys)})
  }

  predicate Increasing(s: seq<int>) {
    forall i, j :: 0 <= i < j < |s| ==> s[i] < s[j]
  }

  lemma {:induction false} IndicesAreIncreasing(keys: set<int>)
    ensures Increasing(Indices(keys)) && forall k :: k in Indices(keys) <==> k in keys
    decreases |keys|
  {
    if keys != {} {
      var m := MinOf(keys);
      IndicesAreIncreasing(keys - {m});
      var rest := Indices(keys - {m});
      assert forall i :: 0 <= i < |rest| ==> rest[i] in keys - {m};
    }
  }

  /** A list is read by increasing index, every row once. */
  lemma {:induction false} ListingFollowsIndices(rows: Rows)
    ensures |Listing(rows)| == |Indices(rows.Keys)|
    ensures forall i :: 0 <= i < |Listing(rows)| ==>
              Indices(rows.Keys)[i] in rows && Listing(rows)[i] == rows[Indices(rows.Keys)[i]]
    decreases |rows.Keys|
  {
    if rows.Keys != {} {
      var m := MinOf(rows.Keys);
      WithoutMin(rows);
      ListingFollowsIndices(rows - {m});
    }
  }

  lemma ListingInOrder(rows: Rows)
    ensures Increasing(Indices(rows.Keys)) && |Listing(rows)| == |Indices(rows.Keys)|
    ensures forall k :: k in Indices(rows.Keys) <==> k in rows
    ensures forall i :: 0 <= i < |Listing(rows)| ==>
              Indices(rows.Keys)[i] in rows && Listing(rows)[i] == rows[Indices(rows.Keys)[i]]
  {
    IndicesAreIncreasing(rows.Keys);
    ListingFollowsIndices(rows);
  }

  // ---------------------------------------------------------------------------------------------
  // Appending
  // ---------------------------------------------------------------------------------------------

  lemma MinStays(rows: Rows, next: int, row: ListRow)
    requires rows.Keys != {} && forall k :: k in rows ==> k < next
    ensures var grown := rows[next := row];
            MinOf(grown.Keys) == MinOf(rows.Keys) && grown[MinOf(rows.Keys)] == rows[MinOf(rows.Keys)]
            && grown - {MinOf(rows.Keys)} == (rows - {MinOf(rows.Keys)})[next := row]
  {
    var grown := rows[next := row];
    var m := MinOf(rows.Keys);
    assert m in rows && m in grown.Keys;
    assert MinOf(grown.Keys) in grown;
    assert next in grown.Keys;
  }

  lemma {:induction false} ListingOfGrown(rows: Rows, next: int, row: ListRow)
    requires forall k :: k in rows ==> k < next
    ensures Listing(rows[next := row]) == Listing(rows) + [row]
    decreases |rows.Keys|
  {
    var grown := rows[next := row];
    assert next in grown.Keys;
    WithoutMin(grown);
    if rows.Keys == {} {
      OnlyRow(rows, next, row);
    } else {
      var m := MinOf(rows.Keys);
      MinStays(rows, next, row);
      WithoutMin(rows);
      ListingOfGrown(rows - {m}, next, row);
      assert [rows[m]] + (Listing(rows - {m}) + [row]) == [rows[m]] + Listing(rows - {m}) + [row];
    }
  }

  lemma OnlyRow(rows: Rows, next: int, row: ListRow)
    requires rows.Keys == {}
    ensures Listing(rows[next := row]) == [row] && Listing(rows) == []
  {
    var grown := rows[next := row];
    assert grown.Keys == {next};
    WithoutMin(grown);
    assert (grown - {next}).Keys == {};
  }

  predicate IsSuffix<T(==)>(s: seq<T>, t: seq<T>) {
    |s| <= |t| && s == t[|t| - |s|..]
  }

  lemma {:induction false} ListingAbove(rows: Rows, cutoff: int)
    ensures IsSuffix(Listing(Above(rows, cutoff)), Listing(rows))
    decreases |rows.Keys|
  {
    if rows.Keys == {} {
      assert Above(rows, cutoff).Keys == {};
    } else {
      var m := MinOf(rows.Keys);
      WithoutMin(rows);
      if m > cutoff {
        assert forall k :: k in rows ==> k in rows.Keys;
        assert Above(rows, cutoff) == rows;
      } else {
        assert Above(rows, cutoff) == Above(rows - {m}, cutoff);
        ListingAbove(rows - {m}, cutoff);
      }
    }
  }

  lemma VisibleCommutes(rows: Rows, next: int, row: ListRow, cutoff: int, now: int)
    requires row.expires.None? || row.expires.value > now
    ensures Visible(rows[next := row], now) == Visible(rows, now)[next := row]
    ensures Visible(Above(rows, cutoff), now) == Above(Visible(rows, now), cutoff)
  {
  }

  lemma ValuesOfSuffix(s: seq<ListRow>, t: seq<ListRow>)
    requires IsSuffix(s, t)
    ensures IsSuffix(Values(s), Values(t))
  {
  }

  lemma ValuesOfGrown(s: seq<ListRow>, row: ListRow)
    ensures Values(s + [row]) == Values(s) + [row.value]
  {
  }

  lemma GrownIsSeen(rows: Rows, next: int, row: ListRow, later: int)
    requires forall k :: k in rows ==> k < next
    requires row.expires.None? || row.expires.value > later
    ensures Values(Listing(Visible(rows[next := row], later))) == Values(Listing(Visible(rows, later))) + [row.value]
  {
    VisibleCommutes(rows, next, row, 0, later);
    assert forall k :: k in Visible(rows, later) ==> k in rows;
    ListingOfGrown(Visible(rows, later), next, row);
    ValuesOfGrown(Listing(Visible(rows, later)), row);
  }

  lemma TrimIsSeenAsSuffix(rows: Rows, cutoff: int, later: int)
    ensures IsSuffix(Values(Listing(Visible(Above(rows, cutoff), later))), Values(Listing(Visible(rows, later))))
  {
    assert Visible(Above(rows, cutoff), later) == Above(Visible(rows, later), cutoff);
    ListingAbove(Visible(rows, later), cutoff);
    ValuesOfSuffix(Listing(Above(Visible(rows, later), cutoff)), Listing(Visible(rows, later)));
  }

  function SeenValues(rows: Rows, now: int): seq<Value> {
    Values(Listing(Visible(rows, now)))
  }

  lemma SelfSuffix<T>(s: seq<T>)
    ensures IsSuffix(s, s)
  {
  }

  lemma AppendedRowsAreSeen(rows: Rows, row: ListRow, maxLength: Option<int>, later: int)
    requires row.expires.None? || row.expires.value > later
    ensures IsSuffix(SeenValues(Append(rows, row, maxLength), later), SeenValues(rows, later) + [row.value])
    ensures maxLength.None? || maxLength.value == 0 ==>
              SeenValues(Append(rows, row, maxLength), later) == SeenValues(rows, later) + [row.value]
  {
    var next := NextIdx(rows);
    NextIsBeyond(rows);
    GrownIsSeen(rows, next, row, later);
    SelfSuffix(SeenValues(rows, later) + [row.value]);
    if maxLength.Some? { TrimIsSeenAsSuffix(rows[next := row], next - maxLength.value, later); }
  }

  /** What a reader sees after an append, as long as the new value has not expired: a suffix of what it
      saw before followed by the new value, and all of it when no length is given. */
  lemma AppendIsSeenAsSuffix(s: Store, key: string, value: Value, maxLength: Option<int>, ttl: Option<int>, now: int,
      later: int)
    requires Expiry(now, ttl).None? || Expiry(now, ttl).value > later
    ensures var s' := AppendToList(s, key, value, maxLength, ttl, now);
            && IsSuffix(GetList(s', key, later), GetList(s, key, later) + [value])
            && (maxLength.None? || maxLength.value == 0 ==> GetList(s', key, later) == GetList(s, key, later) + [value])
  {
    AppendedRowsAreSeen(RowsOf(s, key), ListRow(value, Expiry(now, ttl)), maxLength, later);
  }

  // ---------------------------------------------------------------------------------------------
  // A cleanup before an append
  // ---------------------------------------------------------------------------------------------

  lemma {:induction false} ListingSize(rows: Rows)
    ensures |Listing(rows)| == |rows.Keys|
    decreases |rows.Keys|
  {
    if rows.Keys != {} {
      WithoutMin(rows);
      ListingSize(rows - {MinOf(rows.Keys)});
    }
  }

  /** The rows a reader sees after an append: of the old ones, those that are not trimmed. */
  function SeenAfter(rows: Rows, next: int, maxLength: Option<int>, later: int): Rows {
    var seen := Visible(rows, later);
    if maxLength.Some? && maxLength.value != 0 && next - maxLength.value >= 0 then Above(seen, next - maxLength.value) else seen
  }

  lemma AppendIsSeen(rows: Rows, row: ListRow, maxLength: Option<int>, later: int)
    requires NonNegative(rows) && (maxLength.Some? ==> maxLength.value >= 0)
    ensures var before := Listing(SeenAfter(rows, NextIdx(rows), maxLength, later));
            Listing(Visible(Append(rows, row, maxLength), later))
            == if row.expires.None? || row.expires.value > later then before + [row] else before
  {
    var next := NextIdx(rows);
    NextIsBeyond(rows);
    var kept := SeenAfter(rows, next, maxLength, later);
    var seen := Visible(Append(rows, row, maxLength), later);
    assert forall k :: k in kept ==> k in rows && k < next;
    if row.expires.None? || row.expires.value > later {
      assert seen == kept[next := row];
      ListingOfGrown(kept, next, row);
    } else {
      assert seen == kept;
    }
  }

  lemma NegativeLengthEmpties(rows: Rows, row: ListRow, maxLength: int, later: int)
    requires NonNegative(rows) && maxLength < 0
    ensures Listing(Visible(Append(rows, row, Some(maxLength)), later)) == []
  {
    NextIsBeyond(rows);
    var next := NextIdx(rows);
    if rows.Keys != {} { assert MaxOf(rows.Keys) in rows; }
    assert next >= 0;
    assert Visible(Append(rows, row, Some(maxLength)), later).Keys == {};
  }

  /** A row that is still to be seen, which the append trims, but would not if the expired rows after it
      had been cleaned up before. */
  predicate IsSpared(rows: Rows, t: int, maxLength: int, later: int, i: int) {
    && i in Visible(rows, later)
    && NextIdx(CleanRows(rows, t)) - maxLength < i <= NextIdx(rows) - maxLength
  }

  lemma CleanedSeen(rows: Rows, t: int, maxLength: Option<int>, later: int)
    requires NonNegative(rows) && t <= later && (maxLength.Some? ==> maxLength.value >= 0)
    ensures var plain := SeenAfter(rows, NextIdx(rows), maxLength, later);
            var cleaned := SeenAfter(CleanRows(rows, t), NextIdx(CleanRows(rows, t)), maxLength, later);
            && plain.Keys <= cleaned.Keys && (plain.Keys == cleaned.Keys ==> plain == cleaned)
            && (plain.Keys != cleaned.Keys <==>
                  maxLength.Some? && maxLength.value > 0 && exists i :: i in rows && IsSpared(rows, t, maxLength.value, later, i))
  {
    var c := CleanRows(rows, t);
    VisibleSurvivesCleaning(rows, t, later);
    CleaningLowersNext(rows, t);
    var plain := SeenAfter(rows, NextIdx(rows), maxLength, later);
    var cleaned := SeenAfter(c, NextIdx(c), maxLength, later);
    assert forall i :: i in Visible(rows, later) ==> i in rows && i >= 0;
    if maxLength.Some? && maxLength.value > 0 {
      if i :| i in rows && IsSpared(rows, t, maxLength.value, later, i) {
        assert i in cleaned && i !in plain;
      }
      if plain.Keys != cleaned.Keys {
        assert cleaned.Keys == plain.Keys + (cleaned.Keys - plain.Keys);
        var i := Pick(cleaned.Keys - plain.Keys);
        assert i in rows && IsSpared(rows, t, maxLength.value, later, i);
      }
    }
  }

  lemma CleaningLowersNext(rows: Rows, t: int)
    requires NonNegative(rows)
    ensures 0 <= NextIdx(CleanRows(rows, t)) <= NextIdx(rows)
  {
    var c := CleanRows(rows, t);
    NextIsBeyond(rows);
    if c.Keys != {} {
      assert MaxOf(c.Keys) in c && MaxOf(c.Keys) in rows;
    }
    if rows.Keys != {} { assert MaxOf(rows.Keys) in rows; }
  }

  lemma SameListingIff(plain: Rows, cleaned: Rows, tail: seq<ListRow>)
    requires plain.Keys <= cleaned.Keys && (plain.Keys == cleaned.Keys ==> plain == cleaned)
    ensures Values(Listing(plain) + tail) == Values(Listing(cleaned) + tail) <==> plain.Keys == cleaned.Keys
  {
    ListingSize(plain);
    ListingSize(cleaned);
    if plain.Keys != cleaned.Keys {
      ProperSubset(plain.Keys, cleaned.Keys);
      assert |Values(Listing(plain) + tail)| < |Values(Listing(cleaned) + tail)|;
    }
  }

  lemma ProperSubset(a: set<int>, b: set<int>)
    requires a <= b && a != b
    ensures |a| < |b|
  {
    assert b == a + (b - a) && a * (b - a) == {};
    assert b - a != {};
  }

  predicate SparesRow(rows: Rows, t: int, maxLength: Option<int>, later: int) {
    maxLength.Some? && maxLength.value > 0 && exists i :: i in rows && IsSpared(rows, t, maxLength.value, later, i)
  }

  lemma CleanedRowsAppendIff(rows: Rows, t: int, row: ListRow, maxLength: Option<int>, later: int)
    requires NonNegative(rows) && NonNegative(CleanRows(rows, t)) && t <= later
    ensures Values(Listing(Visible(Append(CleanRows(rows, t), row, maxLength), later)))
         == Values(Listing(Visible(Append(rows, row, maxLength), later)))
       <==> !SparesRow(rows, t, maxLength, later)
  {
    var c := CleanRows(rows, t);
    if maxLength.Some? && maxLength.value < 0 {
      NegativeLengthEmpties(rows, row, maxLength.value, later);
      NegativeLengthEmpties(c, row, maxLength.value, later);
    } else {
      AppendIsSeen(rows, row, maxLength, later);
      AppendIsSeen(c, row, maxLength, later);
      CleanedSeen(rows, t, maxLength, later);
      var tail := if row.expires.None? || row.expires.value > later then [row] else [];
      var plain := SeenAfter(rows, NextIdx(rows), maxLength, later);
      var cleaned := SeenAfter(c, NextIdx(c), maxLength, later);
      SameListingIff(plain, cleaned, tail);
      assert Listing(plain) + [] == Listing(plain) && Listing(cleaned) + [] == Listing(cleaned);
    }
  }

  /** A cleanup is not always invisible to lists: what is read after an append differs exactly if the append
      trims a row that it would have spared after the cleanup, which lowers the next index. */
  lemma CleanupBeforeAppendIff(s: Store, key: string, t: int, value: Value, maxLength: Option<int>, ttl: Option<int>,
      now: int, later: int)
    requires AllNonNegative(s) && t <= later
    ensures GetList(AppendToList(Cleanup(s, t), key, value, maxLength, ttl, now), key, later)
         == GetList(AppendToList(s, key, value, maxLength, ttl, now), key, later)
       <==> !SparesRow(RowsOf(s, key), t, maxLength, later)
  {
    var rows := RowsOf(s, key);
    assert NonNegative(rows) && NonNegative(CleanRows(rows, t));
    assert RowsOf(Cleanup(s, t), key) == CleanRows(rows, t);
    CleanedRowsAppendIff(rows, t, ListRow(value, Expiry(now, ttl)), maxLength, later);
  }

  const TWO_APPENDS: seq<Event> := [
    Event(1, OpAppend("k", "a", None, None)),
    Event(1, OpAppend("k", "b", None, Some(9)))]

  lemma RowsOfTwoAppends()
    ensures RowsOf(Run(EMPTY, TWO_APPENDS), "k") == map[0 := ListRow("a", None), 1 := ListRow("b", Some(10))]
  {
    var e, f := TWO_APPENDS[0], TWO_APPENDS[1];
    assert TWO_APPENDS[1..] == [f] && [f][1..] == [];
    var s1 := Step(EMPTY, e).0;
    assert Run(EMPTY, TWO_APPENDS) == Run(s1, [f]) == Run(Step(s1, f).0, []);
    var one := map[0 := ListRow("a", None)];
    assert RowsOf(s1, "k") == one;
    assert 0 in one.Keys && MaxOf(one.Keys) == 0;
  }

  /** For instance: with two rows of which the second has expired, a third one appended with room for two
      pushes the first one out, unless any cleanup has run before. */
  lemma CleanupShowsAfterAppend()
    ensures var s := Run(EMPTY, TWO_APPENDS);
            GetList(AppendToList(Step(s, Event(20, OpConnect)).0, "k", "c", Some(2), None, 20), "k", 20)
            != GetList(AppendToList(s, "k", "c", Some(2), None, 20), "k", 20)
  {
    var s := Run(EMPTY, TWO_APPENDS);
    var rows := RowsOf(s, "k");
    RowsOfTwoAppends();
    IndicesStayNonNegative(EMPTY, TWO_APPENDS);
    assert 1 in rows.Keys && MaxOf(rows.Keys) in rows;
    var c := CleanRows(rows, 20);
    assert c == map[0 := ListRow("a", None)];
    assert 0 in c.Keys && MaxOf(c.Keys) in c;
    assert 0 in rows && IsSpared(rows, 20, 2, 20, 0);
    CleanupBeforeAppendIff(s, "k", 20, "c", Some(2), None, 20, 20);
  }

  // ---------------------------------------------------------------------------------------------
  // A cleanup anywhere in a run
  // ---------------------------------------------------------------------------------------------

  predicate IsGone(row: ListRow, now: int) {
    row.expires.Some? && row.expires.value <= now
  }

  predicate IsSharedBelow(plain: Rows, cleaned: Rows, i: int, shift: int) {
    i in cleaned ==> i + shift in plain && plain[i + shift] == cleaned[i]
  }

  predicate IsSharedAbove(plain: Rows, cleaned: Rows, j: int, shift: int, t: int) {
    j in plain ==> (j - shift in cleaned && cleaned[j - shift] == plain[j]) || Expired(plain[j].expires, t)
  }

  /** Two tables of one list, of which the second had a cleanup at `t` that the first had not. From the indices
      `from + shift` and `from` on they hold the same rows, but for some that had expired at `t`; below there
      are only rows that no reader sees any more. */
  ghost predicate Agree(plain: Rows, cleaned: Rows, from: int, shift: int, t: int, now: int) {
    && NonNegative(plain) && NonNegative(cleaned) && from >= 0 && from + shift >= 0 && t <= now
    && (forall i {:trigger IsSharedBelow(plain, cleaned, i, shift)} ::
          i in cleaned && i >= from ==> IsSharedBelow(plain, cleaned, i, shift))
    && (forall j {:trigger IsSharedAbove(plain, cleaned, j, shift, t)} ::
          j in plain && j >= from + shift ==> IsSharedAbove(plain, cleaned, j, shift, t))
    && (forall i :: i in cleaned && i < from ==> IsGone(cleaned[i], now))
    && (forall j :: j in plain && j < from + shift ==> IsGone(plain[j], now))
    && ((exists i :: i in cleaned && i >= from) ==> NextIdx(plain) == NextIdx(cleaned) + shift)
  }

  ghost predicate Alike(plain: Rows, cleaned: Rows, t: int, now: int) {
    exists from, shift :: Agree(plain, cleaned, from, shift, t, now)
  }

  lemma AgreeAtStart(rows: Rows, t: int)
    requires NonNegative(rows)
    requires NextIdx(CleanRows(rows, t)) == NextIdx(rows) || forall i :: i in rows ==> IsGone(rows[i], t)
    ensures Alike(rows, CleanRows(rows, t), t, t)
  {
    var c := CleanRows(rows, t);
    if NextIdx(c) == NextIdx(rows) {
      assert Agree(rows, c, 0, 0, t, t);
    } else {
      AgreeWhenGone(rows, c, t, t);
    }
  }

  lemma AgreeWhenGone(plain: Rows, cleaned: Rows, t: int, now: int)
    requires NonNegative(plain) && NonNegative(cleaned) && t <= now
    requires forall i :: i in plain ==> IsGone(plain[i], now)
    requires forall i :: i in cleaned ==> IsGone(cleaned[i], now)
    ensures Agree(plain, cleaned, NextIdx(cleaned), NextIdx(plain) - NextIdx(cleaned), t, now)
  {
    NextIsBeyond(plain);
    NextIsBeyond(cleaned);
    NextIsNotNegative(plain);
    NextIsNotNegative(cleaned);
  }

  lemma NextIsNotNegative(rows: Rows)
    requires NonNegative(rows)
    ensures NextIdx(rows) >= 0
  {
    if rows.Keys != {} { assert MaxOf(rows.Keys) in rows; }
  }

  /** If no rows are shared any more, everything is gone, and the next row starts a new shared part. */
  lemma AgreeNext(plain: Rows, cleaned: Rows, t: int, now: int) returns (from: int, shift: int)
    requires Alike(plain, cleaned, t, now)
    ensures Agree(plain, cleaned, from, shift, t, now) && NextIdx(plain) == NextIdx(cleaned) + shift
    ensures from <= NextIdx(cleaned)
  {
    from, shift :| Agree(plain, cleaned, from, shift, t, now);
    NextIsBeyond(cleaned);
    if !exists i :: i in cleaned && i >= from {
      AllIsGone(plain, cleaned, from, shift, t, now);
      AgreeWhenGone(plain, cleaned, t, now);
      from, shift := NextIdx(cleaned), NextIdx(plain) - NextIdx(cleaned);
    }
  }

  lemma AllIsGone(plain: Rows, cleaned: Rows, from: int, shift: int, t: int, now: int)
    requires Agree(plain, cleaned, from, shift, t, now) && !exists i :: i in cleaned && i >= from
    ensures forall j :: j in plain ==> IsGone(plain[j], now)
    ensures forall i :: i in cleaned ==> IsGone(cleaned[i], now)
  {
    forall j | j in plain
      ensures IsGone(plain[j], now)
    {
      if j >= from + shift { assert IsSharedAbove(plain, cleaned, j, shift, t); }
    }
  }

  lemma AlikeLater(plain: Rows, cleaned: Rows, t: int, now: int, later: int)
    requires Alike(plain, cleaned, t, now) && now <= later
    ensures Alike(plain, cleaned, t, later)
  {
    var from, shift :| Agree(plain, cleaned, from, shift, t, now);
    assert Agree(plain, cleaned, from, shift, t, later);
  }

  lemma AlikeAfterAppend(plain: Rows, cleaned: Rows, t: int, now: int, row: ListRow, maxLength: Option<int>)
    requires Alike(plain, cleaned, t, now)
    ensures Alike(Append(plain, row, maxLength), Append(cleaned, row, maxLength), t, now)
  {
    var from, shift := AgreeNext(plain, cleaned, t, now);
    NextIsBeyond(plain);
    NextIsBeyond(cleaned);
    NextIsNotNegative(plain);
    NextIsNotNegative(cleaned);
    GrownAgree(plain, cleaned, from, shift, t, now, row);
    if maxLength.Some? && maxLength.value != 0 {
      var p, c := plain[NextIdx(plain) := row], cleaned[NextIdx(cleaned) := row];
      NextOfGrown(plain, row);
      NextOfGrown(cleaned, row);
      TrimmedAgree(p, c, from, shift, t, now, NextIdx(cleaned) - maxLength.value);
      AboveNothing(p, NextIdx(plain) - maxLength.value);
      AboveNothing(c, NextIdx(cleaned) - maxLength.value);
    }
  }

  lemma AboveNothing(rows: Rows, cutoff: int)
    requires NonNegative(rows)
    ensures cutoff < 0 ==> Above(rows, cutoff) == rows
  {
  }

  lemma NextOfGrown(rows: Rows, row: ListRow)
    ensures NextIdx(rows[NextIdx(rows) := row]) == NextIdx(rows) + 1
  {
    NextIsBeyond(rows);
    var grown := rows[NextIdx(rows) := row];
    assert NextIdx(rows) in grown.Keys && MaxOf(grown.Keys) in grown;
  }

  lemma GrownAgree(plain: Rows, cleaned: Rows, from: int, shift: int, t: int, now: int, row: ListRow)
    requires Agree(plain, cleaned, from, shift, t, now)
    requires NextIdx(plain) == NextIdx(cleaned) + shift && from <= NextIdx(cleaned)
    ensures Agree(plain[NextIdx(plain) := row], cleaned[NextIdx(cleaned) := row], from, shift, t, now)
  {
    var p, c := plain[NextIdx(plain) := row], cleaned[NextIdx(cleaned) := row];
    NextIsNotNegative(cleaned);
    NextIsNotNegative(plain);
    NextIsBeyond(plain);
    NextIsBeyond(cleaned);
    NextOfGrown(plain, row);
    NextOfGrown(cleaned, row);
    forall i | i in c && i >= from
      ensures IsSharedBelow(p, c, i, shift)
    {
      assert i in cleaned ==> IsSharedBelow(plain, cleaned, i, shift);
    }
    forall j | j in p && j >= from + shift
      ensures IsSharedAbove(p, c, j, shift, t)
    {
      assert j in plain ==> IsSharedAbove(plain, cleaned, j, shift, t);
    }
  }

  lemma NextOfAbove(rows: Rows, cutoff: int)
    ensures Above(rows, cutoff).Keys != {} ==> NextIdx(Above(rows, cutoff)) == NextIdx(rows)
  {
    var kept := Above(rows, cutoff);
    if kept.Keys != {} {
      var top := MaxOf(rows.Keys);
      assert MaxOf(kept.Keys) in kept && MaxOf(kept.Keys) in rows.Keys && top in rows;
      assert top in kept.Keys;
    }
  }

  lemma TrimmedAgree(plain: Rows, cleaned: Rows, from: int, shift: int, t: int, now: int, cutoff: int)
    requires Agree(plain, cleaned, from, shift, t, now)
    requires NextIdx(plain) == NextIdx(cleaned) + shift
    ensures Agree(Above(plain, cutoff + shift), Above(cleaned, cutoff), from, shift, t, now)
  {
    var p, c := Above(plain, cutoff + shift), Above(cleaned, cutoff);
    NextOfAbove(plain, cutoff + shift);
    NextOfAbove(cleaned, cutoff);
    forall i | i in c && i >= from
      ensures IsSharedBelow(p, c, i, shift)
    {
      assert IsSharedBelow(plain, cleaned, i, shift);
    }
    forall j | j in p && j >= from + shift
      ensures IsSharedAbove(p, c, j, shift, t)
    {
      assert IsSharedAbove(plain, cleaned, j, shift, t);
    }
    if i :| i in c && i >= from {
      assert IsSharedBelow(p, c, i, shift);
      assert i in c.Keys && i + shift in p.Keys;
    }
  }

  lemma AlikeAfterCleanup(plain: Rows, cleaned: Rows, t: int, now: int)
    requires Alike(plain, cleaned, t, now)
    ensures Alike(CleanRows(plain, now), CleanRows(cleaned, now), t, now)
  {
    var from, shift :| Agree(plain, cleaned, from, shift, t, now);
    CleanedAgree(plain, cleaned, from, shift, t, now);
  }

  lemma CleanedAgree(plain: Rows, cleaned: Rows, from: int, shift: int, t: int, now: int)
    requires Agree(plain, cleaned, from, shift, t, now)
    ensures Agree(CleanRows(plain, now), CleanRows(cleaned, now), from, shift, t, now)
  {
    var p, c := CleanRows(plain, now), CleanRows(cleaned, now);
    forall i | i in c && i >= from
      ensures IsSharedBelow(p, c, i, shift)
    {
      assert IsSharedBelow(plain, cleaned, i, shift);
    }
    forall j | j in p && j >= from + shift
      ensures IsSharedAbove(p, c, j, shift, t)
    {
      assert IsSharedAbove(plain, cleaned, j, shift, t);
    }
    if i :| i in c && i >= from {
      TopsOfCleaned(plain, cleaned, from, shift, t, now, i);
    }
  }

  lemma TopsOfCleaned(plain: Rows, cleaned: Rows, from: int, shift: int, t: int, now: int, i: int)
    requires Agree(plain, cleaned, from, shift, t, now) && i in CleanRows(cleaned, now) && i >= from
    ensures NextIdx(CleanRows(plain, now)) == NextIdx(CleanRows(cleaned, now)) + shift
  {
    var p, c := CleanRows(plain, now), CleanRows(cleaned, now);
    var hi := NextIdx(c) - 1;
    TopIsThere(c, i);
    assert IsSharedBelow(plain, cleaned, hi, shift);
    var top := NextIdx(p) - 1;
    TopIsThere(p, hi + shift);
    assert IsSharedAbove(plain, cleaned, top, shift, t);
    TopsMeet(p, c, shift);
  }

  lemma TopsMeet(p: Rows, c: Rows, shift: int)
    requires NextIdx(c) - 1 + shift in p && NextIdx(p) - 1 - shift in c
    ensures NextIdx(p) == NextIdx(c) + shift
  {
    NextIsBeyond(p);
    NextIsBeyond(c);
  }

  lemma TopIsThere(rows: Rows, i: int)
    requires i in rows
    ensures i <= NextIdx(rows) - 1 && NextIdx(rows) - 1 in rows
  {
    assert i in rows.Keys;
  }

  // What a reader sees of two such tables.

  predicate IsShifted(a: Rows, b: Rows, shift: int) {
    && (forall i {:trigger IsSharedBelow(b, a, i, shift)} :: i in a ==> IsSharedBelow(b, a, i, shift))
    && (forall j :: j in b ==> j - shift in a)
  }

  lemma {:induction false} ListingOfShifted(a: Rows, b: Rows, shift: int)
    requires IsShifted(a, b, shift)
    ensures Listing(a) == Listing(b)
    decreases |a.Keys|
  {
    if a.Keys == {} {
      assert forall j :: j in b ==> j - shift in a.Keys;
      assert b.Keys == {};
    } else {
      var m := MinOf(a.Keys);
      assert m in a && IsSharedBelow(b, a, m, shift);
      assert m + shift in b.Keys;
      MinOfShifted(a, b, shift);
      WithoutMin(a);
      WithoutMin(b);
      ShiftedWithout(a, b, shift, m);
      ListingOfShifted(a - {m}, b - {m + shift}, shift);
    }
  }

  lemma MinOfShifted(a: Rows, b: Rows, shift: int)
    requires IsShifted(a, b, shift) && a.Keys != {} && b.Keys != {}
    ensures MinOf(b.Keys) == MinOf(a.Keys) + shift
  {
    var lo, first := MinOf(a.Keys), MinOf(b.Keys);
    assert lo in a && IsSharedBelow(b, a, lo, shift) && lo + shift in b.Keys;
    assert first in b && first - shift in a.Keys;
  }

  lemma ShiftedWithout(a: Rows, b: Rows, shift: int, m: int)
    requires IsShifted(a, b, shift)
    ensures IsShifted(a - {m}, b - {m + shift}, shift)
  {
    forall i | i in a - {m}
      ensures IsSharedBelow(b - {m + shift}, a - {m}, i, shift)
    {
      assert IsSharedBelow(b, a, i, shift);
    }
  }

  lemma AlikeIsSeenAlike(plain: Rows, cleaned: Rows, t: int, now: int, later: int)
    requires Alike(plain, cleaned, t, now) && now <= later
    ensures Values(Listing(Visible(plain, later))) == Values(Listing(Visible(cleaned, later)))
  {
    var from, shift :| Agree(plain, cleaned, from, shift, t, now);
    SeenIsShifted(plain, cleaned, from, shift, t, now, later);
    ListingOfShifted(Visible(cleaned, later), Visible(plain, later), shift);
  }

  lemma SeenIsShifted(plain: Rows, cleaned: Rows, from: int, shift: int, t: int, now: int, later: int)
    requires Agree(plain, cleaned, from, shift, t, now) && now <= later
    ensures IsShifted(Visible(cleaned, later), Visible(plain, later), shift)
  {
    var p, c := Visible(plain, later), Visible(cleaned, later);
    forall i | i in c
      ensures IsSharedBelow(p, c, i, shift)
    {
      assert i >= from;
      assert IsSharedBelow(plain, cleaned, i, shift);
    }
    forall j | j in p
      ensures j - shift in c
    {
      assert j >= from + shift;
      assert IsSharedAbove(plain, cleaned, j, shift, t);
    }
  }

  /** The time of the cleanup that an event brings, or its own. */
  function CleanupTime(e: Event): int {
    if e.op.OpGet? then e.now - e.op.lag else e.now
  }

  /** A clock that does not go back, also between the cleanup of a `get` and the event before. */
  predicate SteadyFrom(events: seq<Event>, start: int)
    decreases |events|
  {
    events == [] || (start <= CleanupTime(events[0]) <= events[0].now && SteadyFrom(events[1..], events[0].now))
  }

  predicate IsListKey(key: string) {
    !("queue:" <= key)
  }

  /** What an event does to the list of that key. */
  function RowsStep(rows: Rows, e: Event, key: string): Rows {
    match e.op
    case OpConnect => CleanRows(rows, e.now)
    case OpGet(_, lag) => CleanRows(rows, e.now - lag)
    case OpAppend(k, value, maxLength, ttl) =>
      if k == key then Append(rows, ListRow(value, Expiry(e.now, ttl)), maxLength) else rows
    case _ => rows
  }

  lemma RowsAfterStep(s: Store, e: Event, key: string)
    requires IsListKey(key)
    ensures RowsOf(Step(s, e).0, key) == RowsStep(RowsOf(s, key), e, key)
  {
    match e.op
    case OpEnqueue(thread, _, _) => QueueKeysDiffer(thread, thread);
    case OpDequeue(thread) => QueueKeysDiffer(thread, thread);
    case OpConnect =>
    case OpGet(_, _) =>
    case OpAppend(_, _, _, _) =>
    case _ => OthersKeepLists(s, e);
  }

  lemma AlikeAfterRowsStep(p: Rows, c: Rows, e: Event, key: string, t: int, now: int)
    requires Alike(p, c, t, now) && now <= CleanupTime(e) <= e.now
    ensures Alike(RowsStep(p, e, key), RowsStep(c, e, key), t, e.now)
  {
    AlikeLater(p, c, t, now, e.now);
    if e.op.OpConnect? || e.op.OpGet? {
      AlikeAfterTimedCleanup(p, c, t, now, CleanupTime(e), e.now);
    } else if e.op.OpAppend? && e.op.key == key {
      AlikeAfterAppend(p, c, t, e.now, ListRow(e.op.value, Expiry(e.now, e.op.ttl)), e.op.maxLength);
    }
  }

  lemma AlikeAfterTimedCleanup(p: Rows, c: Rows, t: int, was: int, time: int, now: int)
    requires Alike(p, c, t, was) && was <= time <= now
    ensures Alike(CleanRows(p, time), CleanRows(c, time), t, now)
  {
    AlikeLater(p, c, t, was, time);
    AlikeAfterCleanup(p, c, t, time);
    AlikeLater(CleanRows(p, time), CleanRows(c, time), t, time, now);
  }

  lemma AlikeAfterStep(a: Store, b: Store, e: Event, key: string, t: int, now: int)
    requires IsListKey(key) && Alike(RowsOf(a, key), RowsOf(b, key), t, now)
    requires now <= CleanupTime(e) <= e.now
    ensures Alike(RowsOf(Step(a, e).0, key), RowsOf(Step(b, e).0, key), t, e.now)
  {
    RowsAfterStep(a, e, key);
    RowsAfterStep(b, e, key);
    AlikeAfterRowsStep(RowsOf(a, key), RowsOf(b, key), e, key, t, now);
  }

  lemma {:induction false} AlikeAfterRun(a: Store, b: Store, events: seq<Event>, key: string, t: int, now: int)
    requires IsListKey(key) && Alike(RowsOf(a, key), RowsOf(b, key), t, now) && SteadyFrom(events, now)
    ensures Alike(RowsOf(Run(a, events), key), RowsOf(Run(b, events), key), t, LastTime(events, now))
    decreases |events|
  {
    if events != [] {
      AlikeAfterStep(a, b, events[0], key, t, now);
      AlikeAfterRun(Step(a, events[0]).0, Step(b, events[0]).0, events[1..], key, t, events[0].now);
    }
  }

  /** No later reader of the list can tell whether the cleanup ran. */
  ghost predicate IsInvisibleTo(s: Store, t: int, key: string) {
    forall events, later :: SteadyFrom(events, t) && LastTime(events, t) <= later ==>
      GetList(Run(Cleanup(s, t), events), key, later) == GetList(Run(s, events), key, later)
  }

  /** A cleanup changes no later answer of `getList`, through every run, if and only if it leaves the next index
      as it is or nobody could see a row of the list any more. */
  lemma CleanupBeforeRunIff(s: Store, t: int, key: string)
    requires AllNonNegative(s) && IsListKey(key)
    ensures var rows := RowsOf(s, key);
            IsInvisibleTo(s, t, key) <==>
              NextIdx(CleanRows(rows, t)) == NextIdx(rows) || forall i :: i in rows ==> IsGone(rows[i], t)
  {
    var rows := RowsOf(s, key);
    assert NonNegative(rows);
    assert RowsOf(Cleanup(s, t), key) == CleanRows(rows, t);
    if NextIdx(CleanRows(rows, t)) == NextIdx(rows) || forall i :: i in rows ==> IsGone(rows[i], t) {
      AgreeAtStart(rows, t);
      forall events, later | SteadyFrom(events, t) && LastTime(events, t) <= later
        ensures GetList(Run(Cleanup(s, t), events), key, later) == GetList(Run(s, events), key, later)
      {
        AlikeAfterRun(s, Cleanup(s, t), events, key, t, t);
        AlikeIsSeenAlike(RowsOf(Run(s, events), key), RowsOf(Run(Cleanup(s, t), events), key), t, LastTime(events, t), later);
      }
    } else {
      var i :| i in rows && !IsGone(rows[i], t);
      AppendShowsCleanup(s, t, key, i);
    }
  }

  /** The append that leaves room for the rows after `i` only. */
  lemma AppendShowsCleanup(s: Store, t: int, key: string, i: int)
    requires AllNonNegative(s) && i in RowsOf(s, key) && !IsGone(RowsOf(s, key)[i], t)
    requires NextIdx(CleanRows(RowsOf(s, key), t)) != NextIdx(RowsOf(s, key))
    ensures !IsInvisibleTo(s, t, key)
  {
    var rows := RowsOf(s, key);
    assert NonNegative(rows);
    var n := NextIdx(rows);
    NextIsBeyond(rows);
    CleaningLowersNext(rows, t);
    var e := Event(t, OpAppend(key, "", Some(n - i), None));
    assert IsSpared(rows, t, n - i, t, i);
    CleanupBeforeAppendIff(s, key, t, "", Some(n - i), None, t, t);
    OneAppend(s, e);
    OneAppend(Cleanup(s, t), e);
    assert GetList(Run(Cleanup(s, t), [e]), key, t) != GetList(Run(s, [e]), key, t);
  }

  lemma OneAppend(s: Store, e: Event)
    requires e.op.OpAppend?
    ensures Run(s, [e]) == AppendToList(s, e.op.key, e.op.value, e.op.maxLength, e.op.ttl, e.now)
    ensures SteadyFrom([e], e.now) && LastTime([e], e.now) == e.now
  {
    assert [e][0] == e && [e][1..] == [];
    assert Run(Step(s, e).0, []) == Step(s, e).0;
  }
}
