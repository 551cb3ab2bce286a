/**
 The documented limit of ten active connections: how far overlapping connects exceed it, and with which overlap it
 holds.
 */
module ConnectionLimit {
  import opened Bytes
  import opened ConnectionManager

  /** Different fingerprints, numbered from zero. */
  datatype Roster = Roster(at: nat -> Bytes20, size: nat, key: Bytes32)

  ghost predicate Distinct(r: Roster) {
    forall i: nat, j: nat :: i < j < r.size ==> r.at(i) != r.at(j)
  }

  function Info(r: Roster, i: nat): PeerInfo {
    PeerInfo(r.at(i), [], Some(r.key), 0)
  }

  /** `m` handles in the map, none of them for a peer from `m` on. */
  ghost predicate HandlesUpTo(r: Roster, active: map<Bytes20, nat>, m: nat) {
    |active| == m && forall i: nat :: m <= i < r.size ==> r.at(i) !in active
  }

  /**
   The pending connects are the `k` calls from `m` on, to the peers of those numbers, and there are no later calls.
   */
  ghost predicate CallsUpTo(r: Roster, calls: map<nat, Call>, m: nat, k: nat) {
    && |PendingIn(calls)| == k
    && (forall id :: m <= id < m + k ==> id in calls && calls[id] == Call(Info(r, id), Pending))
    && (forall id :: m + k <= id ==> id !in calls)
  }

  ghost predicate Crowd(r: Roster, s: State, m: nat, k: nat) {
    s.peers == map[] && HandlesUpTo(r, s.active, m) && CallsUpTo(r, s.calls, m, k)
  }

  // ---------------------------------------------------------------------------------------
  // Reachability with at most `n` connects pending.

  ghost predicate Leads(s: State, steps: seq<Step>, s': State, n: nat) {
    IsRun(s, steps) && After(s, steps) == s' && PendingAtMost(s, steps, n)
  }

  ghost predicate Reaches(s: State, s': State, n: nat) {
    exists steps :: Leads(s, steps, s', n)
  }

  lemma {:induction false} LeadsAppend(s: State, a: seq<Step>, s1: State, b: seq<Step>, s': State, n: nat)
    requires Leads(s, a, s1, n) && Leads(s1, b, s', n)
    ensures Leads(s, a + b, s', n)
    decreases |a|
  {
    if a == [] {
      assert a + b == b;
    } else {
      LeadsAppend(Next(s, a[0]).0, a[1..], s1, b, s', n);
      assert (a + b)[1..] == a[1..] + b;
    }
  }

  lemma ReachesByStep(s: State, step: Step, s': State, n: nat)
    requires Enabled(s, step) && Next(s, step).0 == s'
    requires |PendingCalls(s)| <= n && |PendingCalls(s')| <= n
    ensures Reaches(s, s', n)
  {
    var steps := [step];
    assert steps[0] == step && steps[1..] == [];
    assert IsRun(s', []) && After(s', []) == s' && PendingAtMost(s', [], n);
    assert Leads(s, steps, s', n);
  }

  lemma ReachesTransitive(s: State, s1: State, s': State, n: nat)
    requires Reaches(s, s1, n) && Reaches(s1, s', n)
    ensures Reaches(s, s', n)
  {
    var a :| Leads(s, a, s1, n);
    var b :| Leads(s1, b, s', n);
    LeadsAppend(s, a, s1, b, s', n);
  }

  lemma ReachesInThree(s0: State, s1: State, s2: State, s3: State, n: nat)
    requires Reaches(s0, s1, n) && Reaches(s1, s2, n) && Reaches(s2, s3, n)
    ensures Reaches(s0, s3, n)
  {
    ReachesTransitive(s0, s1, s2, n);
    ReachesTransitive(s0, s2, s3, n);
  }

  // ---------------------------------------------------------------------------------------
  // One more connect, begun or completed, in any state.

  ghost function Known(s: State, info: PeerInfo): State {
    s.(peers := s.peers[info.fingerprint := info], trusted := s.trusted + {info.fingerprint})
  }

  ghost function WithCall(s: State, id: nat, info: PeerInfo, phase: Phase): State {
    s.(calls := s.calls[id := Call(info, phase)])
  }

  /** A peer is discovered and trusted. */
  lemma Meet(s: State, info: PeerInfo, n: nat)
    requires |s.peers| < MAX_PEERS && |PendingCalls(s)| <= n
    ensures Reaches(s, Known(s, info), n)
  {
    var s1 := s.(peers := s.peers[info.fingerprint := info]);
    ReachesByStep(s, AddPeer(info), s1, n);
    ReachesByStep(s1, Trust({info.fingerprint}), Known(s, info), n);
    ReachesTransitive(s, s1, Known(s, info), n);
  }

  lemma PassLookUp(s: State, id: nat, info: PeerInfo, n: nat)
    requires id !in s.calls && info.fingerprint !in s.active && |PendingCalls(s)| <= n
    requires info.fingerprint in s.peers && s.peers[info.fingerprint] == info
    ensures Reaches(s, WithCall(s, id, info, Found), n)
  {
    PendingUpdate(s.calls, id, Call(info, Found));
    ReachesByStep(s, LookUp(id, info.fingerprint), WithCall(s, id, info, Found), n);
  }

  lemma PassTrust(s: State, id: nat, info: PeerInfo, n: nat)
    requires id !in s.calls && info.fingerprint in s.trusted && |PendingCalls(s)| <= n
    ensures Reaches(WithCall(s, id, info, Found), WithCall(s, id, info, Cleared), n)
  {
    var s1, s2 := WithCall(s, id, info, Found), WithCall(s, id, info, Cleared);
    PendingUpdate(s.calls, id, Call(info, Found));
    PendingUpdate(s.calls, id, Call(info, Cleared));
    assert s1.calls[id := Call(info, Cleared)] == s2.calls;
    ReachesByStep(s1, CheckTrust(id), s2, n);
  }

  /** The limit check sees only handles, not pending connects. */
  lemma PassLimit(s: State, id: nat, info: PeerInfo, n: nat)
    requires id !in s.calls && |s.active| < MAX_ACTIVE_CONNECTIONS && |PendingCalls(s)| < n
    ensures Reaches(WithCall(s, id, info, Cleared), WithCall(s, id, info, Pending), n)
  {
    var s1, s2 := WithCall(s, id, info, Cleared), WithCall(s, id, info, Pending);
    PendingUpdate(s.calls, id, Call(info, Cleared));
    PendingUpdate(s.calls, id, Call(info, Pending));
    assert s1.calls[id := Call(info, Pending)] == s2.calls;
    ReachesByStep(s1, CheckLimit(id), s2, n);
  }

  lemma Ask(s: State, id: nat, info: PeerInfo, n: nat)
    requires id !in s.calls && info.fingerprint !in s.active && info.fingerprint in s.trusted
    requires info.fingerprint in s.peers && s.peers[info.fingerprint] == info
    requires |s.active| < MAX_ACTIVE_CONNECTIONS && |PendingCalls(s)| < n
    ensures Reaches(s, WithCall(s, id, info, Pending), n)
  {
    PassLookUp(s, id, info, n);
    PassTrust(s, id, info, n);
    PassLimit(s, id, info, n);
    ReachesInThree(s, WithCall(s, id, info, Found), WithCall(s, id, info, Cleared), WithCall(s, id, info, Pending), n);
  }

  /** The clean-up forgets peers that were last seen at time 0. */
  lemma Forget(s: State, n: nat)
    requires |PendingCalls(s)| <= n && forall fp :: fp in s.peers ==> s.peers[fp].lastSeen == 0
    ensures Reaches(s, s.(peers := map[]), n)
  {
    assert Fresh(s.peers, STALE) == map[];
    ReachesByStep(s, Cleanup(STALE), s.(peers := map[]), n);
  }

  /** While fewer than ten handles are in the map, one more connect can become pending, and its peer be forgotten. */
  lemma BeginAny(s: State, id: nat, info: PeerInfo, n: nat) returns (s': State)
    requires s.peers == map[] && id !in s.calls && info.fingerprint !in s.active && info.lastSeen == 0
    requires |s.active| < MAX_ACTIVE_CONNECTIONS && |PendingCalls(s)| < n
    ensures Reaches(s, s', n)
    ensures s'.peers == map[] && s'.active == s.active && s'.calls == s.calls[id := Call(info, Pending)]
  {
    var s1 := Known(s, info);
    var s2 := WithCall(s1, id, info, Pending);
    Meet(s, info, n);
    Ask(s1, id, info, n);
    PendingUpdate(s.calls, id, Call(info, Pending));
    Forget(s2, n);
    s' := s2.(peers := map[]);
    ReachesInThree(s, s1, s2, s', n);
  }

  // ---------------------------------------------------------------------------------------
  // Crowds.

  lemma CallsGrow(r: Roster, calls: map<nat, Call>, m: nat, k: nat, i: nat)
    requires CallsUpTo(r, calls, m, k) && i == m + k
    ensures CallsUpTo(r, calls[i := Call(Info(r, i), Pending)], m, k + 1)
  {
    var calls' := calls[i := Call(Info(r, i), Pending)];
    PendingUpdate(calls, i, Call(Info(r, i), Pending));
    assert i !in calls && |PendingIn(calls) + {i}| == k + 1;
    forall id | m <= id < m + (k + 1) ensures id in calls' && calls'[id] == Call(Info(r, id), Pending) {
      assert id < i ==> id in calls && calls[id] == Call(Info(r, id), Pending);
    }
    forall id | m + (k + 1) <= id ensures id !in calls' {
      assert id !in calls;
    }
  }

  lemma CallsMove(r: Roster, calls: map<nat, Call>, m: nat, k: nat)
    requires CallsUpTo(r, calls, m, k + 1)
    ensures CallsUpTo(r, calls[m := Call(Info(r, m), Running)], m + 1, k)
  {
    var calls' := calls[m := Call(Info(r, m), Running)];
    PendingUpdate(calls, m, Call(Info(r, m), Running));
    assert m in PendingIn(calls) && PendingIn(calls') == PendingIn(calls) - {m};
    assert forall id :: m + 1 <= id < m + 1 + k ==> id in calls && calls'[id] == calls[id];
  }

  lemma HandlesGrow(r: Roster, active: map<Bytes20, nat>, m: nat)
    requires Distinct(r) && HandlesUpTo(r, active, m) && m < r.size
    ensures HandlesUpTo(r, active[r.at(m) := m], m + 1)
  {
    var active' := active[r.at(m) := m];
    assert active'.Keys == active.Keys + {r.at(m)};
    assert |active'| == |active'.Keys| && |active| == |active.Keys|;
  }

  lemma Begin(r: Roster, s: State, m: nat, k: nat, n: nat) returns (s': State)
    requires Distinct(r) && Crowd(r, s, m, k) && m < MAX_ACTIVE_CONNECTIONS && m + k < r.size && k < n
    ensures Reaches(s, s', n) && Crowd(r, s', m, k + 1)
  {
    var i := m + k;
    assert i !in s.calls && r.at(i) !in s.active && |PendingCalls(s)| == k;
    CallsGrow(r, s.calls, m, k, i);
    s' := BeginAny(s, i, Info(r, i), n);
  }

  /** The first pending connect completes; nothing checks the limit again. */
  lemma Complete(r: Roster, s: State, m: nat, k: nat, n: nat) returns (s': State)
    requires Distinct(r) && Crowd(r, s, m, k + 1) && m + k < r.size && k < n
    ensures Reaches(s, s', n) && Crowd(r, s', m + 1, k)
  {
    assert s.calls[m] == Call(Info(r, m), Pending);
    s' := Next(s, TaskConnects(m)).0;
    CallsMove(r, s.calls, m, k);
    HandlesGrow(r, s.active, m);
    ReachesByStep(s, TaskConnects(m), s', n);
  }

  /** One connect after another, up to ten handles. */
  lemma {:induction false} OneByOne(r: Roster, m: nat, n: nat) returns (s: State)
    requires Distinct(r) && m <= MAX_ACTIVE_CONNECTIONS && m <= r.size && n >= 1
    ensures Reaches(START, s, n) && Crowd(r, s, m, 0)
  {
    if m == 0 {
      s := START;
      assert PendingCalls(START) == {};
      assert Leads(START, [], START, n);
    } else {
      var s0 := OneByOne(r, m - 1, n);
      var s1 := Begin(r, s0, m - 1, 0, n);
      s := Complete(r, s1, m - 1, 0, n);
      ReachesInThree(START, s0, s1, s, n);
    }
  }

  /** `k` connects begun before any of them completes. */
  lemma {:induction false} BeginAll(r: Roster, s: State, m: nat, k: nat, n: nat) returns (s': State)
    requires Distinct(r) && Crowd(r, s, m, 0) && m < MAX_ACTIVE_CONNECTIONS && m + k <= r.size && k <= n
    ensures Reaches(s, s', n) && Crowd(r, s', m, k)
  {
    if k == 0 {
      s' := s;
      assert Leads(s, [], s, n);
    } else {
      var s1 := BeginAll(r, s, m, k - 1, n);
      s' := Begin(r, s1, m, k - 1, n);
      ReachesTransitive(s, s1, s', n);
    }
  }

  lemma {:induction false} CompleteAll(r: Roster, s: State, m: nat, k: nat, n: nat) returns (s': State)
    requires Distinct(r) && Crowd(r, s, m, k) && m + k <= r.size && k <= n
    ensures Reaches(s, s', n) && Crowd(r, s', m + k, 0)
    decreases k
  {
    if k == 0 {
      s' := s;
      assert Leads(s, [], s, n);
    } else {
      var s1 := Complete(r, s, m, k - 1, n);
      s' := CompleteAll(r, s1, m + 1, k - 1, n);
      ReachesTransitive(s, s1, s', n);
    }
  }

  // ---------------------------------------------------------------------------------------
  // The limit.

  lemma OverlapFills(r: Roster, m: nat, n: nat) returns (s: State)
    requires Distinct(r) && m == MAX_ACTIVE_CONNECTIONS - 1 && 1 <= n && m + n <= r.size
    ensures Reaches(START, s, n) && |s.active| == m + n
  {
    var s1 := OneByOne(r, m, n);
    var s2 := BeginAll(r, s1, m, n, n);
    s := CompleteAll(r, s2, m, n, n);
    ReachesInThree(START, s1, s2, s, n);
  }

  /** All fingerprints: the numbers below 256^20 in 20 bytes. */
  lemma AllPrints(width: nat) returns (r: Roster)
    requires width == 20
    ensures Distinct(r) && r.size == Span(width)
  {
    r := Roster(i => ToLE(i, 20), Span(width), seq(32, _ => 0));
    forall i: nat, j: nat | i < j < r.size ensures r.at(i) != r.at(j) {
      LERoundTrip(i, width);
      LERoundTrip(j, width);
    }
  }

  /**
   For every overlap `n >= 1`, as far as there are fingerprints: some run with at most `n` connects pending at once has
   exactly `9 + n` active connections, so the bound of `ActiveBounded` is the best possible.
   */
  lemma BoundIsAttained(n: nat) returns (s: State)
    requires 1 <= n && MAX_ACTIVE_CONNECTIONS - 1 + n <= Span(20)
    ensures Reaches(START, s, n) && |s.active| == MAX_ACTIVE_CONNECTIONS - 1 + n
  {
    var r := AllPrints(20);
    s := OverlapFills(r, MAX_ACTIVE_CONNECTIONS - 1, n);
  }

  lemma {:induction false} PendingMonotone(s: State, steps: seq<Step>, m: nat, n: nat)
    requires IsRun(s, steps) && PendingAtMost(s, steps, m) && m <= n
    ensures PendingAtMost(s, steps, n)
    decreases |steps|
  {
    if steps != [] {
      PendingMonotone(Next(s, steps[0]).0, steps[1..], m, n);
    }
  }

  ghost predicate KeepsLimit(n: nat) {
    forall steps :: IsRun(START, steps) && PendingAtMost(START, steps, n) ==>
      |After(START, steps).active| <= MAX_ACTIVE_CONNECTIONS
  }

  lemma ManyFingerprints()
    ensures Span(20) >= MAX_ACTIVE_CONNECTIONS + 1
  {
    assert Span(20) == 256 * Span(19);
  }

  /** At most ten active in every run with at most `n` connects pending at once: exactly when `n` is at most 1. */
  lemma LimitHoldsIffConnectsDoNotOverlap(n: nat)
    ensures KeepsLimit(n) <==> n <= 1
  {
    if n <= 1 {
      forall steps | IsRun(START, steps) && PendingAtMost(START, steps, n)
        ensures |After(START, steps).active| <= MAX_ACTIVE_CONNECTIONS
      {
        ActiveBounded(steps, n);
      }
    } else {
      ManyFingerprints();
      var two := 2;
      var s := BoundIsAttained(two);
      var steps :| Leads(START, steps, s, two);
      PendingMonotone(START, steps, two, n);
      assert |After(START, steps).active| == 11;
    }
  }
}
