/** The chat state adapter as a mutable object over its four tables. */
module StateAdapter {
  import opened Options
  import opened StateStore

  /** The lock handed to the caller; `extendLock` moves its expiry. */
  class Lock {
    const threadId: string
    const token: Token
    var expiresAt: int

    constructor (threadId: string, token: Token, expiresAt: int)
      ensures this.threadId == threadId && this.token == token && this.expiresAt == expiresAt
    {
      this.threadId := threadId;
      this.token := token;
      this.expiresAt := expiresAt;
    }
  }

  class SqliteStateAdapter {
    var kv: map<string, KvRow>
    var locks: map<string, LockRow>
    var lists: map<string, Rows>
    var subscriptions: set<string>

    ghost function View(): Store
      reads this
    {
      Store(kv, locks, lists, subscriptions)
    }

    constructor ()
      ensures View() == EMPTY
    {
      kv, locks, lists, subscriptions := map[], map[], map[], {};
    }

    method Cleanup(now: int)
      modifies this
      ensures View() == StateStore.Cleanup(old(View()), now)
    {
      kv := map k | k in kv && !Expired(kv[k].expires, now) :: kv[k];
      locks := map t | t in locks && locks[t].expires >= now :: locks[t];
      lists := map k | k in lists :: CleanRows(lists[k], now);
    }

    method Connect(now: int)
      modifies this
      ensures View() == Step(old(View()), Event(now, OpConnect)).0
    {
      Cleanup(now);
    }

    // -------------------------------------------------------------------------------------------
    // Keys and values
    // -------------------------------------------------------------------------------------------

    method Get(key: string, lag: nat, now: int) returns (value: Option<Value>)
      modifies this
      ensures (View(), Found(value)) == Step(old(View()), Event(now, OpGet(key, lag)))
    {
      Cleanup(now - lag);
      if key !in kv { return None; }
      if Stale(kv[key].expires, now) {
        kv := kv - {key};
        return None;
      }
      value := Some(kv[key].value);
    }

    method Set(key: string, value: Value, ttl: Option<int>, now: int)
      modifies this
      ensures View() == Step(old(View()), Event(now, OpSet(key, value, ttl))).0
    {
      kv := kv[key := KvRow(value, Expiry(now, ttl))];
    }

    method SetIfNotExists(key: string, value: Value, ttl: Option<int>, now: int) returns (inserted: bool)
      modifies this
      ensures (View(), Flag(inserted)) == Step(old(View()), Event(now, OpSetIfNotExists(key, value, ttl)))
    {
      if key in kv && Stale(kv[key].expires, now) {
        kv := kv - {key};
      }
      inserted := key !in kv;
      if inserted {
        kv := kv[key := KvRow(value, Expiry(now, ttl))];
        assert kv == old(kv)[key := KvRow(value, Expiry(now, ttl))];
      }
    }

    method Delete(key: string, now: int)
      modifies this
      ensures View() == Step(old(View()), Event(now, OpDelete(key))).0
    {
      kv := kv - {key};
    }

    // -------------------------------------------------------------------------------------------
    // Subscriptions
    // -------------------------------------------------------------------------------------------

    method Subscribe(thread: string, now: int)
      modifies this
      ensures View() == Step(old(View()), Event(now, OpSubscribe(thread, true))).0
    {
      subscriptions := subscriptions + {thread};
    }

    method Unsubscribe(thread: string, now: int)
      modifies this
      ensures View() == Step(old(View()), Event(now, OpSubscribe(thread, false))).0
    {
      subscriptions := subscriptions - {thread};
    }

    method IsSubscribed(thread: string) returns (subscribed: bool)
      ensures subscribed == (thread in View().subscriptions)
    {
      subscribed := thread in subscriptions;
    }

    // -------------------------------------------------------------------------------------------
    // Locks
    // -------------------------------------------------------------------------------------------

    method AcquireLock(thread: string, token: Token, ttl: int, now: int) returns (lock: Lock?)
      modifies this
      ensures (View(), Flag(lock != null)) == Step(old(View()), Event(now, OpAcquire(thread, token, ttl)))
      ensures lock != null ==>
                fresh(lock) && Holds(View(), lock.threadId, lock.token)
                && lock.threadId == thread && lock.token == token && lock.expiresAt == locks[thread].expires
    {
      var expiresAt := now + ttl;
      if thread in locks && locks[thread].expires < now {
        locks := locks - {thread};
      }
      if thread in locks { return null; }
      locks := locks[thread := LockRow(token, expiresAt)];
      assert locks == old(locks)[thread := LockRow(token, expiresAt)];
      lock := new Lock(thread, token, expiresAt);
    }

    method ReleaseLock(lock: Lock, now: int)
      modifies this
      ensures View() == Step(old(View()), Event(now, OpRelease(lock.threadId, lock.token))).0
    {
      if lock.threadId in locks && locks[lock.threadId].token == lock.token {
        locks := locks - {lock.threadId};
      }
    }

    /** The object follows the row: a refused extension leaves both alone. */
    method ExtendLock(lock: Lock, ttl: int, now: int) returns (extended: bool)
      modifies this, lock
      ensures (View(), Flag(extended)) == Step(old(View()), Event(now, OpExtend(lock.threadId, lock.token, ttl)))
      ensures extended ==> Holds(View(), lock.threadId, lock.token) && lock.expiresAt == locks[lock.threadId].expires
      ensures !extended ==> lock.expiresAt == old(lock.expiresAt)
    {
      var newExpiry := now + ttl;
      extended := lock.threadId in locks && locks[lock.threadId].token == lock.token;
      if extended {
        locks := locks[lock.threadId := LockRow(lock.token, newExpiry)];
        lock.expiresAt := newExpiry;
      }
    }

    method ForceReleaseLock(thread: string, now: int)
      modifies this
      ensures View() == Step(old(View()), Event(now, OpForceRelease(thread))).0
    {
      locks := locks - {thread};
    }

    // -------------------------------------------------------------------------------------------
    // Lists and queues
    // -------------------------------------------------------------------------------------------

    method AppendToList(key: string, value: Value, maxLength: Option<int>, ttl: Option<int>, now: int)
      modifies this
      ensures View() == Step(old(View()), Event(now, OpAppend(key, value, maxLength, ttl))).0
    {
      var rows := if key in lists then lists[key] else map[];
      var next := NextIdx(rows);
      rows := rows[next := ListRow(value, Expiry(now, ttl))];
      if maxLength.Some? && maxLength.value != 0 {
        var cutoff := next - maxLength.value;
        if cutoff >= 0 {
          rows := Above(rows, cutoff);
        }
      }
      lists := lists[key := rows];
    }

    /** The unexpired values in the order of their indices. */
    method GetList(key: string, now: int) returns (values: seq<Value>)
      ensures values == StateStore.GetList(View(), key, now)
    {
      ghost var listing := Listing(Visible(RowsOf(View(), key), now));
      var rows := if key in lists then lists[key] else map[];
      var pending := map i | i in rows && (rows[i].expires.None? || rows[i].expires.value > now) :: rows[i];
      values := [];
      ghost var taken := [];
      while pending.Keys != {}
        invariant listing == taken + Listing(pending)
        invariant values == Values(taken)
        decreases |pending.Keys|
      {
        var m := MinOf(pending.Keys);
        values := values + [pending[m].value];
        taken := taken + [pending[m]];
        assert (pending - {m}).Keys == pending.Keys - {m};
        pending := pending - {m};
      }
      assert taken == listing;
    }

    method QueueDepth(thread: string, now: int) returns (depth: nat)
      ensures (View(), Depth(depth)) == Step(View(), Event(now, OpQueueDepth(thread)))
    {
      var key := QueueKey(thread);
      depth := if key in lists then |lists[key]| else 0;
    }

    /** An `await`: other operations run. */
    method Await() returns (ghost others: seq<Event>)
      modifies this
      ensures View() == Run(old(View()), others)
    {
      others := [];
    }

    /** Appends, and then counts what is there after whatever ran in between. */
    method Enqueue(thread: string, entry: Value, maxSize: int, now: int) returns (depth: nat, ghost others: seq<Event>)
      modifies this
      ensures View() == Run(Step(old(View()), Event(now, OpEnqueue(thread, entry, maxSize))).0, others)
      ensures Step(View(), Event(now, OpQueueDepth(thread))).1 == Depth(depth)
    {
      AppendToList(QueueKey(thread), entry, Some(maxSize), None, now);
      others := Await();
      depth := QueueDepth(thread, now);
    }

    method Dequeue(thread: string, now: int) returns (entry: Option<Value>)
      modifies this
      ensures (View(), Found(entry)) == Step(old(View()), Event(now, OpDequeue(thread)))
    {
      var key := QueueKey(thread);
      var rows := if key in lists then lists[key] else map[];
      if rows.Keys == {} { return None; }
      var m := MinOf(rows.Keys);
      entry := Some(rows[m].value);
      lists := lists[key := rows - {m}];
    }
  }
}
