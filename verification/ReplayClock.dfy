/**
 Whether the lifetime of cache entries covers the freshness of payloads, by the resolution of a clock that shows both
 times: timestamps are whole seconds, cache times are not.
 */
module ReplayClock {
  import opened Bytes
  import opened Crypto
  import opened IdentityBind
  import opened ReplayCache
  import opened Handshake
  import HandshakeRuns

  /** A new cache takes one key twice in a row exactly when the two readings are more than 60 s apart. */
  lemma BackToBack(key: Key, maxEntries: nat, first: int, second: int)
    requires first <= second
    ensures var (c1, ok1) := CheckStep(NewCache(maxEntries), key, first);
            ok1 && (CheckStep(c1, key, second).1 <==> second - first > TTL)
  {
    var c1 := CheckStep(NewCache(maxEntries), key, first).0;
    assert c1 == Cache({key}, [Entry(key, first)], maxEntries);
    assert PopFront(c1) == NewCache(maxEntries);
    assert EvictExpired(NewCache(maxEntries), second) == NewCache(maxEntries);
    assert EvictExpired(c1, second) == if second - first > TTL then NewCache(maxEntries) else c1;
  }

  /** The seconds of a reading in nanoseconds. */
  function Seconds(t: int): int {
    t / SECOND
  }

  /** The payload that `keys` stamped `timestamp` is fresh at the reading `t`, and names its owner. */
  ghost predicate FreshAt(c: Primitives, keys: IdentityKeys, nonce: Bytes12, timestamp: i64, t: int) {
    && I64_MIN <= Seconds(t) <= I64_MAX
    && Verify(c, IdentityBind.Create(c, keys, timestamp, nonce), keys.Fingerprint(c), Seconds(t)).Ok?
  }

  /** It is fresh at both readings, and a new cache takes it at both. */
  ghost predicate TakenTwiceInARow(
    c: Primitives, keys: IdentityKeys, nonce: Bytes12, maxEntries: nat, timestamp: i64, first: int, second: int)
  {
    var key := Key(keys.Fingerprint(c), nonce);
    var (c1, ok1) := CheckStep(NewCache(maxEntries), key, first);
    && first <= second
    && FreshAt(c, keys, nonce, timestamp, first) && FreshAt(c, keys, nonce, timestamp, second)
    && ok1 && CheckStep(c1, key, second).1
  }

  /** Taken twice in a row: exactly when fresh at two readings more than 60 s apart. */
  lemma TakenTwiceIff(
    c: Primitives, keys: IdentityKeys, nonce: Bytes12, maxEntries: nat, timestamp: i64, first: int, second: int)
    ensures TakenTwiceInARow(c, keys, nonce, maxEntries, timestamp, first, second) <==>
            && FreshAt(c, keys, nonce, timestamp, first) && FreshAt(c, keys, nonce, timestamp, second)
            && second - first > TTL
  {
    if first <= second {
      BackToBack(Key(keys.Fingerprint(c), nonce), maxEntries, first, second);
    }
  }

  /** A payload stamped 30 s is fresh during second 0 and during second 60. */
  lemma FreshFromZeroToSixty(c: Primitives, keys: IdentityKeys, nonce: Bytes12, t: int)
    requires SignaturesVerify(c) && (Seconds(t) == 0 || Seconds(t) == 60)
    ensures FreshAt(c, keys, nonce, 30, t)
  {
    IdentityBind.CreatedVerifies(c, keys, 30, nonce, keys.Fingerprint(c), Seconds(t));
  }

  /**
   With clock readings between whole seconds the two windows do not quite meet: a payload stamped 30 s is fresh both at
   0.9 s and at 60.95 s, which lie more than 60 s apart, and a cache of any size takes it twice in a row.
   */
  lemma SubSecondReadingsLeaveAGap(c: Primitives, keys: IdentityKeys, nonce: Bytes12, maxEntries: nat)
    requires SignaturesVerify(c)
    ensures TakenTwiceInARow(c, keys, nonce, maxEntries, 30, 900_000_000, 60_950_000_000)
  {
    FreshFromZeroToSixty(c, keys, nonce, 900_000_000);
    FreshFromZeroToSixty(c, keys, nonce, 60_950_000_000);
    TakenTwiceIff(c, keys, nonce, maxEntries, 30, 900_000_000, 60_950_000_000);
  }

  /** The reading at tick number `k`. */
  function AtTick(k: int, tick: nat): int {
    k * tick
  }

  lemma TicksAreSeconds(tick: nat, perSecond: nat)
    requires tick * perSecond == SECOND <= tick
    ensures tick == SECOND
  {
    assert perSecond >= 1;
    assert tick * (perSecond - 1) >= 0;
  }

  /** The tick after the sixtieth second. */
  lemma TickAfterSixty(tick: nat, perSecond: nat)
    requires tick * perSecond == SECOND && tick < SECOND
    ensures AtTick(60 * perSecond + 1, tick) == TTL + tick && Seconds(TTL + tick) == 60 && tick > 0
  {
    assert (60 * perSecond + 1) * tick == 60 * (tick * perSecond) + tick;
  }

  lemma FinerTicksReplay(c: Primitives, keys: IdentityKeys, nonce: Bytes12, maxEntries: nat, tick: nat, perSecond: nat)
    requires SignaturesVerify(c) && tick * perSecond == SECOND && tick < SECOND
    ensures TakenTwiceInARow(c, keys, nonce, maxEntries, 30, AtTick(0, tick), AtTick(60 * perSecond + 1, tick))
  {
    var first, second := AtTick(0, tick), AtTick(60 * perSecond + 1, tick);
    TickAfterSixty(tick, perSecond);
    assert first == 0 && Seconds(first) == 0;
    FreshFromZeroToSixty(c, keys, nonce, first);
    FreshFromZeroToSixty(c, keys, nonce, second);
    TakenTwiceIff(c, keys, nonce, maxEntries, 30, first, second);
  }

  lemma WholeSecondsDoNotReplay(
    c: Primitives, keys: IdentityKeys, nonce: Bytes12, maxEntries: nat, timestamp: i64, i: int, j: int)
    ensures !TakenTwiceInARow(c, keys, nonce, maxEntries, timestamp, AtTick(i, SECOND), AtTick(j, SECOND))
  {
    var first, second := AtTick(i, SECOND), AtTick(j, SECOND);
    TakenTwiceIff(c, keys, nonce, maxEntries, timestamp, first, second);
    if FreshAt(c, keys, nonce, timestamp, first) && FreshAt(c, keys, nonce, timestamp, second) {
      HandshakeRuns.SkewsMeet(Clock(Seconds(first), first), Clock(Seconds(second), second), timestamp);
      assert HandshakeRuns.OnTheSecond(Clock(Seconds(first), first), 0);
      assert HandshakeRuns.OnTheSecond(Clock(Seconds(second), second), 0);
    }
  }

  /**
   For a clock that divides the second into `perSecond` ticks: some payload can be taken twice in a row exactly when a
   tick is shorter than a second, whatever the capacity.
   */
  lemma TwiceInARowIffTicksAreFiner(
    c: Primitives, keys: IdentityKeys, nonce: Bytes12, maxEntries: nat, tick: nat, perSecond: nat)
    requires SignaturesVerify(c) && tick * perSecond == SECOND
    ensures (exists timestamp: i64, i: int, j: int ::
               TakenTwiceInARow(c, keys, nonce, maxEntries, timestamp, AtTick(i, tick), AtTick(j, tick)))
            <==> tick < SECOND
  {
    if tick < SECOND {
      FinerTicksReplay(c, keys, nonce, maxEntries, tick, perSecond);
    } else {
      TicksAreSeconds(tick, perSecond);
      forall timestamp: i64, i: int, j: int
        ensures !TakenTwiceInARow(c, keys, nonce, maxEntries, timestamp, AtTick(i, tick), AtTick(j, tick))
      {
        WholeSecondsDoNotReplay(c, keys, nonce, maxEntries, timestamp, i, j);
      }
    }
  }
}
