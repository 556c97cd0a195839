/** The tables behind the chat state adapter: keys and values, locks, lists and queues.

    Values are the stored JSON texts. Every operation is given the time `now` at which it runs. */
module StateStore {
  import opened Options
  import opened Sets

  type Value = string
  type Token = string

  datatype KvRow = KvRow(value: Value, expires: Option<int>)
  datatype LockRow = LockRow(token: Token, expires: int)
  datatype ListRow = ListRow(value: Value, expires: Option<int>)

  type Rows = map<int, ListRow>

  datatype Store = Store(
    kv: map<string, KvRow>,
    locks: map<string, LockRow>,
    lists: map<string, Rows>,
    subscriptions: set<string>)

  const EMPTY := Store(map[], map[], map[], {})

  // ---------------------------------------------------------------------------------------------
  // Expiry
  // ---------------------------------------------------------------------------------------------

  /** `ttlMs ? now + ttlMs : null` */
  function Expiry(now: int, ttl: Option<int>): Option<int> {
    if ttl.Some? && ttl.value != 0 then Some(now + ttl.value) else None
  }

  /** `expires_at IS NOT NULL AND expires_at < now` */
  predicate Expired(expires: Option<int>, now: int) {
    expires.Some? && expires.value < now
  }

  /** The same test in the host language, where an expiry of zero counts as none. */
  predicate Stale(expires: Option<int>, now: int) {
    expires.Some? && expires.value != 0 && expires.value < now
  }

  function CleanRows(rows: Rows, now: int): Rows {
    map i | i in rows && !Expired(rows[i].expires, now) :: rows[i]
  }

  function Cleanup(s: Store, now: int): Store {
    s.(kv := map k | k in s.kv && !Expired(s.kv[k].expires, now) :: s.kv[k],
       locks := map t | t in s.locks && s.locks[t].expires >= now :: s.locks[t],
       lists := map k | k in s.lists :: CleanRows(s.lists[k], now))
  }

  // ---------------------------------------------------------------------------------------------
  // Keys and values
  // ---------------------------------------------------------------------------------------------

  function Lookup(kv: map<string, KvRow>, key: string, now: int): Option<Value> {
    if key in kv && !Stale(kv[key].expires, now) then Some(kv[key].value) else None
  }

  /** The cleanup inside `get` reads the clock first, `lag` milliseconds before the row is tested. */
  function Get(s: Store, key: string, lag: nat, now: int): (Store, Option<Value>) {
    var c := Cleanup(s, now - lag);
    if key in c.kv && Stale(c.kv[key].expires, now) then (c.(kv := c.kv - {key}), None)
    else (c, Lookup(c.kv, key, now))
  }

  function Set(s: Store, key: string, value: Value, ttl: Option<int>, now: int): Store {
    s.(kv := s.kv[key := KvRow(value, Expiry(now, ttl))])
  }

  function SetIfNotExists(s: Store, key: string, value: Value, ttl: Option<int>, now: int): (Store, bool) {
    if key in s.kv && !Stale(s.kv[key].expires, now) then (s, false)
    else (Set(s, key, value, ttl, now), true)
  }

  // ---------------------------------------------------------------------------------------------
  // Locks
  // ---------------------------------------------------------------------------------------------

  function Acquire(s: Store, thread: string, token: Token, ttl: int, now: int): (Store, bool) {
    if thread in s.locks && s.locks[thread].expires >= now then (s, false)
    else (s.(locks := s.locks[thread := LockRow(token, now + ttl)]), true)
  }

  predicate Holds(s: Store, thread: string, token: Token) {
    thread in s.locks && s.locks[thread].token == token
  }

  function Release(s: Store, thread: string, token: Token): Store {
    if Holds(s, thread, token) then s.(locks := s.locks - {thread}) else s
  }

  function Extend(s: Store, thread: string, token: Token, ttl: int, now: int): (Store, bool) {
    if Holds(s, thread, token) then (s.(locks := s.locks[thread := LockRow(token, now + ttl)]), true) else (s, false)
  }

  function ForceRelease(s: Store, thread: string): Store {
    s.(locks := s.locks - {thread})
  }

  // ---------------------------------------------------------------------------------------------
  // Lists and queues
  // ---------------------------------------------------------------------------------------------

  function RowsOf(s: Store, key: string): Rows {
    if key in s.lists then s.lists[key] else map[]
  }

  predicate IsLowest(m: int, keys: set<int>) {
    m in keys && forall k :: k in keys ==> m <= k
  }

  predicate IsHighest(m: int, keys: set<int>) {
    m in keys && forall k :: k in keys ==> k <= m
  }

  lemma {:induction false} BoundsExist(keys: set<int>)
    requires keys != {}
    ensures exists m :: IsLowest(m, keys)
    ensures exists m :: IsHighest(m, keys)
    decreases |keys|
  {
    var x := Pick(keys);
    var rest := keys - {x};
    assert keys == {x} + rest;
    if rest == {} {
      assert IsLowest(x, keys) && IsHighest(x, keys);
    } else {
      BoundsExist(rest);
      var lo :| IsLowest(lo, rest);
      var hi :| IsHighest(hi, rest);
      assert IsLowest(if x < lo then x else lo, keys);
      assert IsHighest(if x > hi then x else hi, keys);
    }
  }

  function MinOf(keys: set<int>): (m: int)
    requires keys != {}
    ensures m in keys && forall k :: k in keys ==> m <= k
  {
    BoundsExist(keys);
    var m :| IsLowest(m, keys);
    m
  }

  function MaxOf(keys: set<int>): (m: int)
    requires keys != {}
    ensures m in keys && forall k :: k in keys ==> k <= m
  {
    BoundsExist(keys);
    var m :| IsHighest(m, keys);
    m
  }

  /** `(MAX(idx) ?? -1) + 1` */
  function NextIdx(rows: Rows): int {
    if rows.Keys == {} then 0 else MaxOf(rows.Keys) + 1
  }

  /** `ORDER BY idx ASC` */
  function Listing(rows: Rows): seq<ListRow>
    decreases |rows.Keys|
  {
    if rows.Keys == {} then []
    else
      var m := MinOf(rows.Keys);
      assert (rows - {m}).Keys == rows.Keys - {m};
      [rows[m]] + Listing(rows - {m})
  }

  /** The rows that `idx <= cutoff` leaves. */
  function Above(rows: Rows, cutoff: int): Rows {
    map i | i in rows && i > cutoff :: rows[i]
  }

  function Append(rows: Rows, row: ListRow, maxLength: Option<int>): Rows {
    var next := NextIdx(rows);
    var grown := rows[next := row];
    if maxLength.None? || maxLength.value == 0 || next - maxLength.value < 0 then grown
    else Above(grown, next - maxLength.value)
  }

  function AppendToList(s: Store, key: string, value: Value, maxLength: Option<int>, ttl: Option<int>,
      now: int): Store {
    s.(lists := s.lists[key := Append(RowsOf(s, key), ListRow(value, Expiry(now, ttl)), maxLength)])
  }

  function Values(rows: seq<ListRow>): seq<Value> {
    seq(|rows|, i requires 0 <= i < |rows| => rows[i].value)
  }

  function Visible(rows: Rows, now: int): Rows {
    map i | i in rows && (rows[i].expires.None? || rows[i].expires.value > now) :: rows[i]
  }

  function GetList(s: Store, key: string, now: int): seq<Value> {
    Values(Listing(Visible(RowsOf(s, key), now)))
  }

  function QueueKey(thread: string): string {
    "queue:" + thread
  }

  /** The first half of `enqueue`; the second, after an `await`, asks for the depth. */
  function Enqueue(s: Store, thread: string, value: Value, maxSize: int, now: int): Store {
    AppendToList(s, QueueKey(thread), value, Some(maxSize), None, now)
  }

  function QueueDepth(s: Store, thread: string): nat {
    |RowsOf(s, QueueKey(thread))|
  }

  function Dequeue(s: Store, thread: string): (Store, Option<Value>) {
    var rows := RowsOf(s, QueueKey(thread));
    if rows.Keys == {} then (s, None)
    else
      var m := MinOf(rows.Keys);
      (s.(lists := s.lists[QueueKey(thread) := rows - {m}]), Some(rows[m].value))
  }

  // ---------------------------------------------------------------------------------------------
  // Runs
  // ---------------------------------------------------------------------------------------------

  datatype Op =
    | OpConnect
    | OpGet(key: string, lag: nat)
    | OpSet(key: string, value: Value, ttl: Option<int>)
    | OpSetIfNotExists(key: string, value: Value, ttl: Option<int>)
    | OpDelete(key: string)
    | OpSubscribe(thread: string, on: bool)
    | OpAcquire(thread: string, token: Token, lockTtl: int)
    | OpRelease(thread: string, token: Token)
    | OpExtend(thread: string, token: Token, lockTtl: int)
    | OpForceRelease(thread: string)
    | OpAppend(key: string, value: Value, maxLength: Option<int>, ttl: Option<int>)
    | OpEnqueue(thread: string, value: Value, maxSize: int)
    | OpQueueDepth(thread: string)
    | OpDequeue(thread: string)

  datatype Event = Event(now: int, op: Op)

  datatype Reply = Done | Found(value: Option<Value>) | Flag(yes: bool) | Depth(n: nat)

  function Step(s: Store, e: Event): (Store, Reply) {
    match e.op
    case OpConnect => (Cleanup(s, e.now), Done)
    case OpGet(key, lag) => var r := Get(s, key, lag, e.now); (r.0, Found(r.1))
    case OpSet(key, value, ttl) => (Set(s, key, value, ttl, e.now), Done)
    case OpSetIfNotExists(key, value, ttl) => var r := SetIfNotExists(s, key, value, ttl, e.now); (r.0, Flag(r.1))
    case OpDelete(key) => (s.(kv := s.kv - {key}), Done)
    case OpSubscribe(thread, on) =>
      (s.(subscriptions := if on then s.subscriptions + {thread} else s.subscriptions - {thread}), Done)
    case OpAcquire(thread, token, ttl) => var r := Acquire(s, thread, token, ttl, e.now); (r.0, Flag(r.1))
    case OpRelease(thread, token) => (Release(s, thread, token), Done)
    case OpExtend(thread, token, ttl) => var r := Extend(s, thread, token, ttl, e.now); (r.0, Flag(r.1))
    case OpForceRelease(thread) => (ForceRelease(s, thread), Done)
    case OpAppend(key, value, maxLength, ttl) => (AppendToList(s, key, value, maxLength, ttl, e.now), Done)
    case OpEnqueue(thread, value, maxSize) => (Enqueue(s, thread, value, maxSize, e.now), Done)
    case OpQueueDepth(thread) => (s, Depth(QueueDepth(s, thread)))
    case OpDequeue(thread) => var r := Dequeue(s, thread); (r.0, Found(r.1))
  }

  function Run(s: Store, events: seq<Event>): Store
    decreases |events|
  {
    if events == [] then s else Run(Step(s, events[0]).0, events[1..])
  }

  function Replies(s: Store, events: seq<Event>): seq<Reply>
    decreases |events|
  {
    if events == [] then [] else [Step(s, events[0]).1] + Replies(Step(s, events[0]).0, events[1..])
  }

  predicate ClockFrom(events: seq<Event>, start: int)
    decreases |events|
  {
    events == [] || (start <= events[0].now && ClockFrom(events[1..], events[0].now))
  }
}
