/**
 The replay cache shared by all handshakes of a process, and its agreement with the
 complete history of accepted keys.

 Times are clock readings in nanoseconds, the resolution of the monotonic clock.
 */
module ReplayCache {
  import opened Bytes

  const TTL: nat := 60 * SECOND

  datatype Key = Key(fingerprint: Bytes, nonce: Bytes)
  datatype Entry = Entry(key: Key, time: int)

  /** The fields of the cache: a set for look-up and a queue, oldest entry first. */
  datatype Cache = Cache(inner: set<Key>, order: seq<Entry>, maxEntries: nat)

  function NewCache(maxEntries: nat): Cache {
    Cache({}, [], maxEntries)
  }

  /** How many entries a cache of this configuration ends up holding: an insertion always keeps itself. */
  function Capacity(maxEntries: nat): (n: nat)
    ensures n >= 1 && n >= maxEntries && (n == 1 || n == maxEntries)
  {
    if maxEntries == 0 then 1 else maxEntries
  }

  function PopFront(c: Cache): Cache
    requires c.order != []
  {
    c.(inner := c.inner - {c.order[0].key}, order := c.order[1..])
  }

  function EvictExpired(c: Cache, now: int): Cache
    decreases |c.order|
  {
    if c.order != [] && now - c.order[0].time > TTL then EvictExpired(PopFront(c), now) else c
  }

  function Inserted(c: Cache, key: Key, now: int): Cache {
    var c2 := if |c.inner| >= c.maxEntries && c.order != [] then PopFront(c) else c;
    c2.(inner := c2.inner + {key}, order := c2.order + [Entry(key, now)])
  }

  function CheckStep(c: Cache, key: Key, now: int): (Cache, bool) {
    var c1 := EvictExpired(c, now);
    if key in c1.inner then
      (c1, false)
    else
      (Inserted(c1, key, now), true)
  }

  /** The mutable cache. `Model` is its value; each call is `CheckStep` on that value. */
  class NonceCache {
    var inner: set<Key>
    var order: seq<Entry>
    const maxEntries: nat

    ghost function Model(): Cache
      reads this
    {
      Cache(inner, order, maxEntries)
    }

    constructor (maxEntries: nat)
      ensures Model() == NewCache(maxEntries)
    {
      inner, order := {}, [];
      this.maxEntries := maxEntries;
    }

    method CheckAndInsert(key: Key, now: int) returns (isNew: bool)
      modifies this
      ensures (Model(), isNew) == CheckStep(old(Model()), key, now)
    {
      while order != [] && now - order[0].time > TTL
        invariant EvictExpired(Model(), now) == EvictExpired(old(Model()), now)
        decreases |order|
      {
        inner, order := inner - {order[0].key}, order[1..];
      }
      if key in inner {
        return false;
      }
      if |inner| >= maxEntries && order != [] {
        inner, order := inner - {order[0].key}, order[1..];
      }
      inner, order := inner + {key}, order + [Entry(key, now)];
      return true;
    }
  }

  // ---------------------------------------------------------------------------------------
  // The unbounded accept log and its window.

  ghost predicate Sorted(log: seq<Entry>) {
    forall a, b :: 0 <= a <= b < |log| ==> log[a].time <= log[b].time
  }

  /** No entry is from the future of `now`. */
  ghost predicate NoneAfter(log: seq<Entry>, now: int) {
    forall n :: 0 <= n < |log| ==> log[n].time <= now
  }

  ghost predicate DistinctKeys(es: seq<Entry>) {
    forall a, b :: 0 <= a < b < |es| ==> es[a].key != es[b].key
  }

  ghost function KeysOf(es: seq<Entry>): set<Key> {
    set n | 0 <= n < |es| :: es[n].key
  }

  /** Accept number `n` is among the last `capacity` accepts and at most one TTL old. */
  ghost predicate InWindow(log: seq<Entry>, n: nat, now: int, capacity: nat) {
    n < |log| <= n + capacity && now - log[n].time <= TTL
  }

  ghost predicate SeenInWindow(log: seq<Entry>, key: Key, now: int, capacity: nat) {
    exists n: nat :: InWindow(log, n, now, capacity) && log[n].key == key
  }

  /** `es` is the suffix of the log that holds exactly the accepts in the window. */
  ghost predicate IsWindow(es: seq<Entry>, log: seq<Entry>, now: int, capacity: nat) {
    && |es| <= |log|
    && es == log[|log| - |es|..]
    && forall n: nat :: InWindow(log, n, now, capacity) <==> |log| - |es| <= n < |log|
  }

  /** The queue is the window of the log, and the set holds its keys, no key twice. */
  ghost predicate Agrees(c: Cache, log: seq<Entry>, now: int) {
    && Sorted(log)
    && NoneAfter(log, now)
    && c.inner == KeysOf(c.order)
    && DistinctKeys(c.order)
    && IsWindow(c.order, log, now, Capacity(c.maxEntries))
  }

  lemma NewAgrees(maxEntries: nat, now: int)
    ensures Agrees(NewCache(maxEntries), [], now)
  {
  }

  lemma KeysOfPop(es: seq<Entry>)
    requires es != [] && DistinctKeys(es)
    ensures KeysOf(es[1..]) == KeysOf(es) - {es[0].key} && DistinctKeys(es[1..])
  {
  }

  lemma KeysOfPush(es: seq<Entry>, e: Entry)
    requires DistinctKeys(es) && e.key !in KeysOf(es)
    ensures KeysOf(es + [e]) == KeysOf(es) + {e.key} && DistinctKeys(es + [e])
  {
    assert forall n :: 0 <= n < |es| ==> es[n].key in KeysOf(es);
    forall k ensures k in KeysOf(es + [e]) <==> k in KeysOf(es) + {e.key} {
      if k in KeysOf(es) {
        var n :| 0 <= n < |es| && es[n].key == k;
        assert (es + [e])[n].key == k;
      }
      if k == e.key {
        assert (es + [e])[|es|].key == k;
      }
    }
  }

  lemma {:induction false} KeysOfSize(es: seq<Entry>)
    requires DistinctKeys(es)
    ensures |KeysOf(es)| == |es|
  {
    if es == [] {
      assert KeysOf(es) == {};
    } else {
      KeysOfPop(es);
      KeysOfSize(es[1..]);
      assert es[0].key in KeysOf(es);
      assert KeysOf(es) == KeysOf(es[1..]) + {es[0].key};
    }
  }

  /** What the queue is before or between evictions: a suffix that still holds the whole window. */
  ghost predicate CoversWindow(es: seq<Entry>, log: seq<Entry>, now: int, capacity: nat) {
    && |es| <= |log| && |es| <= capacity
    && es == log[|log| - |es|..]
    && forall n: nat :: InWindow(log, n, now, capacity) ==> |log| - |es| <= n
  }

  /** The first loop of a call brings the cache to the window at the new clock reading. */
  lemma {:induction false} EvictReachesWindow(c: Cache, log: seq<Entry>, now: int)
    requires Sorted(log) && NoneAfter(log, now)
    requires c.inner == KeysOf(c.order) && DistinctKeys(c.order)
    requires CoversWindow(c.order, log, now, Capacity(c.maxEntries))
    ensures Agrees(EvictExpired(c, now), log, now) && EvictExpired(c, now).maxEntries == c.maxEntries
    decreases |c.order|
  {
    if c.order != [] {
      var start := |log| - |c.order|;
      assert c.order[0] == log[start];
      if now - c.order[0].time > TTL {
        KeysOfPop(c.order);
        assert !InWindow(log, start, now, Capacity(c.maxEntries));
        EvictReachesWindow(PopFront(c), log, now);
      }
    }
  }

  ghost function LogAfter(log: seq<Entry>, key: Key, now: int, isNew: bool): seq<Entry> {
    if isNew then log + [Entry(key, now)] else log
  }

  /** Time only closes windows. */
  lemma WindowShrinks(log: seq<Entry>, before: int, now: int, capacity: nat)
    requires before <= now
    ensures forall n: nat :: InWindow(log, n, now, capacity) ==> InWindow(log, n, before, capacity)
  {
  }

  lemma SetIsWindowKeys(c: Cache, log: seq<Entry>, now: int, key: Key)
    requires Agrees(c, log, now)
    ensures key in c.inner <==> SeenInWindow(log, key, now, Capacity(c.maxEntries))
  {
  }

  /**
   One call keeps the agreement, and its verdict is membership in the window of the log:
   refused exactly when the key is among the last `Capacity` accepts at most one TTL old.
   */
  lemma CallRefinesLog(c: Cache, log: seq<Entry>, before: int, key: Key, now: int)
    requires Agrees(c, log, before) && before <= now
    ensures var (c', isNew) := CheckStep(c, key, now);
            && c'.maxEntries == c.maxEntries
            && Agrees(c', LogAfter(log, key, now, isNew), now)
            && (isNew <==> !SeenInWindow(log, key, now, Capacity(c.maxEntries)))
  {
    WindowShrinks(log, before, now, Capacity(c.maxEntries));
    assert c.order == [] || InWindow(log, |log| - |c.order|, before, Capacity(c.maxEntries));
    EvictReachesWindow(c, log, now);
    var c1 := EvictExpired(c, now);
    SetIsWindowKeys(c1, log, now, key);
    if key !in c1.inner {
      InsertKeepsAgreement(c1, log, key, now);
    }
  }

  lemma InsertKeepsAgreement(c: Cache, log: seq<Entry>, key: Key, now: int)
    requires Agrees(c, log, now) && key !in c.inner
    ensures Agrees(Inserted(c, key, now), log + [Entry(key, now)], now)
  {
    var capacity := Capacity(c.maxEntries);
    assert c.order == [] || InWindow(log, |log| - |c.order|, now, capacity);
    KeysOfSize(c.order);
    if |c.inner| >= c.maxEntries && c.order != [] {
      KeysOfPop(c.order);
      PushKeepsAgreement(PopFront(c), log, key, now);
    } else {
      PushKeepsAgreement(c, log, key, now);
    }
  }

  /** Pushing makes the window one longer, less the accept that the capacity now leaves out. */
  lemma PushKeepsAgreement(c: Cache, log: seq<Entry>, key: Key, now: int)
    requires Sorted(log) && NoneAfter(log, now)
    requires c.inner == KeysOf(c.order) && DistinctKeys(c.order) && key !in c.inner
    requires |c.order| <= |log| && c.order == log[|log| - |c.order|..]
    requires forall n: nat :: |log| <= n + Capacity(c.maxEntries) - 1 ==>
               (InWindow(log, n, now, Capacity(c.maxEntries)) <==> |log| - |c.order| <= n < |log|)
    requires |c.order| < Capacity(c.maxEntries)
    ensures Agrees(c.(inner := c.inner + {key}, order := c.order + [Entry(key, now)]), log + [Entry(key, now)], now)
  {
    var capacity := Capacity(c.maxEntries);
    var e := Entry(key, now);
    KeysOfPush(c.order, e);
    assert (log + [e])[|log| - |c.order|..] == c.order + [e];
    forall n: nat
      ensures InWindow(log + [e], n, now, capacity) <==> |log| - |c.order| <= n < |log| + 1
    {
      assert n < |log| ==> (log + [e])[n] == log[n];
      assert |log| <= n + capacity - 1 ==> (InWindow(log, n, now, capacity) <==> |log| - |c.order| <= n < |log|);
    }
  }

  // ---------------------------------------------------------------------------------------
  // Whole runs.

  datatype Call = Call(key: Key, now: int)

  ghost predicate ClockNondecreasing(calls: seq<Call>) {
    forall a, b :: 0 <= a <= b < |calls| ==> calls[a].now <= calls[b].now
  }

  /** The cache, and the log of accepted keys, after a sequence of calls on a new cache. */
  ghost function Run(maxEntries: nat, calls: seq<Call>): (Cache, seq<Entry>) {
    if calls == [] then (NewCache(maxEntries), []) else
      var last := calls[|calls| - 1];
      var (c, log) := Run(maxEntries, calls[..|calls| - 1]);
      var (c', isNew) := CheckStep(c, last.key, last.now);
      (c', LogAfter(log, last.key, last.now, isNew))
  }

  /** No key was accepted while it was in the window: repeats are beyond the capacity or more than one TTL apart. */
  ghost predicate AcceptedFresh(log: seq<Entry>, capacity: nat) {
    forall i, j :: 0 <= i < j < |log| && log[i].key == log[j].key ==>
      j - i > capacity || log[j].time - log[i].time > TTL
  }

  lemma ExtendFresh(log: seq<Entry>, key: Key, now: int, capacity: nat)
    requires AcceptedFresh(log, capacity)
    requires !SeenInWindow(log, key, now, capacity)
    ensures AcceptedFresh(log + [Entry(key, now)], capacity)
  {
    forall i: nat | i < |log| && log[i].key == key ensures |log| - i > capacity || now - log[i].time > TTL {
      assert !InWindow(log, i, now, capacity);
    }
  }

  /** After every call of every run, the cache is the window of the full history. */
  lemma {:induction false} RunAgrees(maxEntries: nat, calls: seq<Call>, now: int)
    requires ClockNondecreasing(calls)
    requires calls != [] ==> calls[|calls| - 1].now == now
    ensures var (c, log) := Run(maxEntries, calls);
            c.maxEntries == maxEntries && Agrees(c, log, now) && AcceptedFresh(log, Capacity(maxEntries))
  {
    if calls == [] {
      NewAgrees(maxEntries, now);
    } else {
      var prev := calls[..|calls| - 1];
      var before := if prev == [] then now else prev[|prev| - 1].now;
      RunAgrees(maxEntries, prev, before);
      var (c, log) := Run(maxEntries, prev);
      var key := calls[|calls| - 1].key;
      CallRefinesLog(c, log, before, key, now);
      if CheckStep(c, key, now).1 {
        ExtendFresh(log, key, now, Capacity(maxEntries));
      }
    }
  }

  /**
   Two accepts of one key at most a TTL apart are separated by at least `capacity` accepts,
   and the first `capacity` of them carry keys that differ from each other and from it.
   */
  lemma RepeatNeedsFullTurnover(log: seq<Entry>, capacity: nat, i: nat, j: nat)
    requires Sorted(log) && AcceptedFresh(log, capacity)
    requires i < j < |log| && log[i].key == log[j].key
    requires log[j].time - log[i].time <= TTL
    ensures i + capacity < j
    ensures DistinctKeys(log[i..i + capacity + 1])
  {
    var stretch := log[i..i + capacity + 1];
    forall a, b | 0 <= a < b < |stretch| ensures stretch[a].key != stretch[b].key {
      assert stretch[a] == log[i + a] && stretch[b] == log[i + b];
      assert log[i].time <= log[i + a].time && log[i + b].time <= log[j].time;
    }
  }
}
