/**
 Runs that exist: two honest sessions that both reach a transport, and sessions on different caches that take one
 payload. So the theorems about runs are not empty, and the bound on replays holds exactly on one cache.
 */
module HandshakeWitness {
  import opened Bytes
  import opened Crypto
  import opened IdentityBind
  import opened ReplayCache
  import opened Handshake
  import opened HandshakeRuns

  ghost predicate Leads(c: Primitives, n: Noise, honest: set<Bytes32>, w: World, steps: seq<Step>, w': World) {
    IsRun(c, n, honest, w, steps) && After(c, n, honest, w, steps) == w'
  }

  ghost predicate Reaches(c: Primitives, n: Noise, honest: set<Bytes32>, w: World, w': World) {
    exists steps :: Leads(c, n, honest, w, steps, w')
  }

  lemma {:induction false} LeadsAppend(
    c: Primitives, n: Noise, honest: set<Bytes32>, w: World, a: seq<Step>, w1: World, b: seq<Step>, w': World)
    requires Leads(c, n, honest, w, a, w1) && Leads(c, n, honest, w1, b, w')
    ensures Leads(c, n, honest, w, a + b, w')
    decreases |a|
  {
    if a == [] {
      assert a + b == b;
    } else {
      LeadsAppend(c, n, honest, Next(c, n, w, a[0]), a[1..], w1, b, w');
      assert (a + b)[1..] == a[1..] + b;
    }
  }

  lemma ReachesByStep(c: Primitives, n: Noise, honest: set<Bytes32>, w: World, step: Step, w': World)
    requires Enabled(c, n, honest, w, step) && Next(c, n, w, step) == w'
    ensures Reaches(c, n, honest, w, w')
  {
    var steps := [step];
    assert steps[0] == step && steps[1..] == [];
    assert IsRun(c, n, honest, w', []) && After(c, n, honest, w', []) == w';
    assert Leads(c, n, honest, w, steps, w');
  }

  lemma ReachesTransitive(c: Primitives, n: Noise, honest: set<Bytes32>, w: World, w1: World, w': World)
    requires Reaches(c, n, honest, w, w1) && Reaches(c, n, honest, w1, w')
    ensures Reaches(c, n, honest, w, w')
  {
    var a :| Leads(c, n, honest, w, a, w1);
    var b :| Leads(c, n, honest, w1, b, w');
    LeadsAppend(c, n, honest, w, a, w1, b, w');
  }

  lemma OpenTwo(c: Primitives, n: Noise, honest: set<Bytes32>, w: World, first: Opening, second: Opening)
    requires w.members == map[]
    ensures Reaches(c, n, honest, w, Opened(Opened(w, 0, first), 1, second))
  {
    var w1 := Opened(w, 0, first);
    ReachesByStep(c, n, honest, w, Open(0, first), w1);
    ReachesByStep(c, n, honest, w1, Open(1, second), Opened(w1, 1, second));
    ReachesTransitive(c, n, honest, w, w1, Opened(w1, 1, second));
  }

  /** Session `id` is still in its handshake, on a cache that nothing was checked against yet. */
  ghost predicate Listening(w: World, id: nat) {
    && id in w.members && w.members[id].transport.None? && w.members[id].cache in w.caches
    && exists maxEntries :: w.caches[w.members[id].cache].cache == NewCache(maxEntries)
  }

  /** A payload that was created just now reaches a listening session through a paired end, and is accepted. */
  lemma Deliver(c: Primitives, n: Noise, honest: set<Bytes32>, w: World, id: nat, sender: Session, nonce: Bytes12)
    returns (message: Bytes, w': World)
    requires SignaturesVerify(c) && NoiseDelivers(c, n) && ClockInRange(w.now.wall) && Listening(w, id)
    requires Paired(c, n, sender.noise, w.members[id].session.noise) && sender.noise.MyTurn()
    requires w.members[id].session.remoteFingerprint == Some(sender.ours.Fingerprint(c))
    requires var p := Create(c, sender.ours, w.now.wall, nonce);
             (p.ed25519Public, SignaturePayload(p)) in w.signed
    ensures SendIdentity(c, n, sender, w.now.wall, nonce) == Ok((Advance(sender, message), message))
    ensures sender.noise.transcript == [] ==> SealedBy(n, sender.noise, message)
    ensures Reaches(c, n, honest, w, w')
    ensures exists cache' ::
              var s := Knowing(c, w.members[id].session, message, sender.ours, w.now.wall, nonce);
              w' == Accepting(w, id, s, Create(c, sender.ours, w.now.wall, nonce), cache')
  {
    var m := w.members[id];
    var maxEntries :| w.caches[m.cache].cache == NewCache(maxEntries);
    var p := Create(c, sender.ours, w.now.wall, nonce);
    NewAgrees(maxEntries, w.now.mono);
    var cache': Cache;
    message, cache' :=
      HonestDelivery(c, n, sender, m.session, w.now.wall, nonce, NewCache(maxEntries), [], w.now.mono, w.now);
    var s := Knowing(c, m.session, message, sender.ours, w.now.wall, nonce);
    SealedIsDelivered(c, n, sender, m.session, w.now.wall, nonce, message);
    w' := Accepting(w, id, s, p, cache');
    ReachesByStep(c, n, honest, w, Receive(id, message), w');
  }

  lemma SealedIsDelivered(
    c: Primitives, n: Noise, sender: Session, receiver: Session, timestamp: i64, nonce: Bytes12, message: Bytes)
    requires NoiseDelivers(c, n) && Paired(c, n, sender.noise, receiver.noise) && sender.noise.MyTurn()
    requires SendIdentity(c, n, sender, timestamp, nonce) == Ok((Advance(sender, message), message))
    ensures Delivered(n, receiver, message) == Some(Create(c, sender.ours, timestamp, nonce))
  {
    var p := Create(c, sender.ours, timestamp, nonce);
    assert n.open(receiver.noise, n.seal(sender.noise, ToBytes(p))) == Some(ToBytes(p));
    ParseSerialized(p);
  }

  // ---------------------------------------------------------------------------------------
  // Both ends reach a transport.

  /** Session `x` sends its payload and session `y` accepts it. */
  lemma Exchange(c: Primitives, n: Noise, honest: set<Bytes32>, w: World, x: nat, y: nat, nonce: Bytes12)
    returns (message: Bytes, w': World)
    requires SignaturesVerify(c) && NoiseDelivers(c, n) && ClockInRange(w.now.wall) && Listening(w, y)
    requires x != y && x in w.members && w.members[x].transport.None? && w.members[x].cache in w.caches
    requires w.members[x].cache != w.members[y].cache
    requires Paired(c, n, w.members[x].session.noise, w.members[y].session.noise)
    requires w.members[x].session.noise.MyTurn()
    requires w.members[y].session.remoteFingerprint == Some(w.members[x].session.ours.Fingerprint(c))
    ensures Reaches(c, n, honest, w, w') && w'.now == w.now
    ensures w.members[x].session.noise.transcript == [] ==> SealedBy(n, w.members[x].session.noise, message)
    ensures x in w'.members && w'.members[x] == w.members[x].(session := Advance(w.members[x].session, message))
    ensures w'.caches.Keys == w.caches.Keys && w'.caches[w.members[x].cache] == w.caches[w.members[x].cache]
    ensures var keys := w.members[x].session.ours;
            var s := Knowing(c, w.members[y].session, message, keys, w.now.wall, nonce);
            y in w'.members && w'.members[y] == w.members[y].(session := s, accept := Some(|w.accepts|))
  {
    var sender := w.members[x].session;
    var p := Create(c, sender.ours, w.now.wall, nonce);
    message := n.seal(sender.noise, ToBytes(p));
    var w1 := Signing(w, p).(members := w.members[x := w.members[x].(session := Advance(sender, message))]);
    assert SendIdentity(c, n, sender, w.now.wall, nonce) == Ok((Advance(sender, message), message));
    ReachesByStep(c, n, honest, w, SendOurs(x, nonce), w1);
    var sent: Bytes;
    sent, w' := Deliver(c, n, honest, w1, y, sender, nonce);
    assert w'.caches.Keys == w.caches.Keys;
    ReachesTransitive(c, n, honest, w, w1, w');
  }

  lemma FinishOne(c: Primitives, n: Noise, honest: set<Bytes32>, w: World, id: nat) returns (w': World)
    requires id in w.members && w.members[id].session.noise.Finished() && w.members[id].session.verifiedRemote.Some?
    ensures Reaches(c, n, honest, w, w')
    ensures w'.members == w.members[id := w.members[id].(transport := Some(w.members[id].session.noise))]
  {
    w' := w.(members := w.members[id := w.members[id].(transport := Some(w.members[id].session.noise))]);
    ReachesByStep(c, n, honest, w, Finish(id), w');
  }

  /** How the two ends of an honest handshake are opened, each on a cache of its own. */
  function Honestly(
    c: Primitives, ours: IdentityKeys, initiator: bool, peer: IdentityKeys, ephemeral: Bytes32, cache: nat): Opening
  {
    Opening(ours, initiator, peer.Fingerprint(c), peer.XPublic(c), ephemeral, cache, OWN_CACHE_ENTRIES)
  }

  /**
   Two honest sessions, opened as the program opens them, at a clock in range: some run brings both to a transport.
   */
  lemma BothEndsReachTransport(
    c: Primitives, n: Noise, honest: set<Bytes32>, alice: IdentityKeys, bob: IdentityKeys, ephA: Bytes32, ephB: Bytes32,
    nonceA: Bytes12, nonceB: Bytes12, t0: Clock) returns (w: World)
    requires SignaturesVerify(c) && NoiseDelivers(c, n) && ClockInRange(t0.wall)
    ensures Reaches(c, n, honest, Start(t0), w)
    ensures 0 in w.members && 1 in w.members && w.members[0].transport.Some? && w.members[1].transport.Some?
    ensures Paired(c, n, w.members[0].transport.value, w.members[1].transport.value)
    ensures w.members[0].session.remoteFingerprint == Some(bob.Fingerprint(c))
    ensures w.members[1].session.remoteFingerprint == Some(alice.Fingerprint(c))
  {
    var howA, howB := Honestly(c, alice, true, bob, ephA, 0), Honestly(c, bob, false, alice, ephB, 1);
    var w0 := Opened(Opened(Start(t0), 0, howA), 1, howB);
    OpenTwo(c, n, honest, Start(t0), howA, howB);
    var a0, b0 := w0.members[0].session, w0.members[1].session;
    assert w0.caches[0].cache == NewCache(OWN_CACHE_ENTRIES) && w0.caches[1].cache == NewCache(OWN_CACHE_ENTRIES);
    var msg1, w1 := Exchange(c, n, honest, w0, 0, 1, nonceA);
    SealedStays(n, a0.noise, msg1, [msg1]);
    var msg2, w2 := Exchange(c, n, honest, w1, 1, 0, nonceB);
    SealedStays(n, a0.noise, msg1, [msg1, msg2]);
    var w3 := FinishOne(c, n, honest, w2, 0);
    w := FinishOne(c, n, honest, w3, 1);
    ReachesTransitive(c, n, honest, Start(t0), w0, w1);
    ReachesTransitive(c, n, honest, Start(t0), w1, w2);
    ReachesTransitive(c, n, honest, Start(t0), w2, w3);
    ReachesTransitive(c, n, honest, Start(t0), w3, w);
  }

  /** What the initiator's state sealed first, it sealed first, however far it got since. */
  lemma SealedStays(n: Noise, i: NoiseState, message: Bytes, transcript: seq<Bytes>)
    requires i.transcript == [] && SealedBy(n, i, message)
    ensures SealedBy(n, i.(transcript := transcript), message)
  {
    assert i.(transcript := transcript).(transcript := []) == i.(transcript := []);
  }

  // ---------------------------------------------------------------------------------------
  // Replays across caches.

  /** Two listening responders on different caches, of any capacity, take one payload one after the other. */
  lemma TwoCachesTakeOnePayload(
    c: Primitives, n: Noise, honest: set<Bytes32>, alice: IdentityKeys, bob: IdentityKeys, eph: Bytes32, nonce: Bytes12,
    k: nat, l: nat, maxEntries: nat, t0: Clock) returns (w: World)
    requires SignaturesVerify(c) && NoiseDelivers(c, n) && ClockInRange(t0.wall) && k != l
    ensures Reaches(c, n, honest, Start(t0), w)
    ensures |w.accepts| == 2 && w.accepts[0].payload == w.accepts[1].payload
    ensures w.accepts[0].cache == k && w.accepts[1].cache == l
    ensures w.accepts[0].now == w.accepts[1].now == t0
  {
    var p := Create(c, alice, t0.wall, nonce);
    var how := Honestly(c, bob, false, alice, eph, k).(maxEntries := maxEntries);
    var sender := NewSession(alice, true, bob.Fingerprint(c), bob.XPublic(c), eph);
    var w1 := Signing(Start(t0), p);
    ReachesByStep(c, n, honest, Start(t0), OthersBind(p), w1);
    var w2 := Opened(Opened(w1, 0, how), 1, how.(cache := l));
    OpenTwo(c, n, honest, w1, how, how.(cache := l));
    assert w2.caches[k].cache == NewCache(maxEntries) && w2.caches[l].cache == NewCache(maxEntries);
    var m1, w3 := Deliver(c, n, honest, w2, 0, sender, nonce);
    assert w3.caches[l] == w2.caches[l];
    var m2: Bytes;
    m2, w := Deliver(c, n, honest, w3, 1, sender, nonce);
    ReachesTransitive(c, n, honest, Start(t0), w1, w2);
    ReachesTransitive(c, n, honest, Start(t0), w2, w3);
    ReachesTransitive(c, n, honest, Start(t0), w3, w);
  }

  /** Accept `j` on cache `l` repeats accept `i` on cache `k`. */
  ghost predicate Repeats(w: World, i: nat, j: nat, k: nat, l: nat) {
    && i < j < |w.accepts| && w.accepts[i].cache == k && w.accepts[j].cache == l
    && SignaturePayload(w.accepts[i].payload) == SignaturePayload(w.accepts[j].payload)
  }

  /** In every run, a payload accepted on cache `k` and again on cache `l` within a TTL has a turnover in between. */
  ghost predicate BoundHolds(c: Primitives, n: Noise, honest: set<Bytes32>, k: nat, l: nat) {
    forall t0, w, i: nat, j: nat ::
      Reaches(c, n, honest, Start(t0), w) && Repeats(w, i, j, k, l) ==> ReplayIsBounded(c, w, i, j)
  }

  /** Between accepts on two caches the bound on replays holds exactly if they are one cache. */
  lemma BoundHoldsIffOneCache(c: Primitives, n: Noise, honest: set<Bytes32>, k: nat, l: nat)
    requires SignaturesVerify(c) && NoiseDelivers(c, n)
    ensures BoundHolds(c, n, honest, k, l) <==> k == l
  {
    if k == l {
      forall t0, w, i: nat, j: nat | Reaches(c, n, honest, Start(t0), w) && Repeats(w, i, j, k, l)
        ensures ReplayIsBounded(c, w, i, j)
      {
        var steps :| Leads(c, n, honest, Start(t0), steps, w);
        ReplayNeedsTurnover(c, n, honest, t0, steps, i, j);
      }
    } else {
      var zero := seq(32, _ => 0);
      var keys, nonce, t0 := IdentityKeys(zero, zero), seq(12, _ => 0), Clock(0, 0);
      var w := TwoCachesTakeOnePayload(c, n, honest, keys, keys, zero, nonce, k, l, 1, t0);
      assert Repeats(w, 0, 1, k, l);
      assert OtherKeysBetween(c, w.accepts, 0, 1) == {};
      assert !ReplayIsBounded(c, w, 0, 1);
    }
  }
}
