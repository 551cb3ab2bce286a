/**
 Every run of a process: many initiator and responder sessions, each on a replay cache of its own or on one it shares
 with others, on a network that delivers whatever bytes it likes to whichever session it likes. Signing keys are also
 used elsewhere, for payloads of other processes and for discovery beacons.

 Nothing is assumed of the Noise functions. Of signatures it is assumed only, delivery by delivery, that what verifies
 under an honest key was signed with it. The wall clock may jump; the monotonic clock does not go back.
 */
module HandshakeRuns {
  import opened Bytes
  import opened Crypto
  import opened IdentityBind
  import opened ReplayCache
  import opened Handshake
  import Beacon

  /**
   A payload that passed `verify_identity_payload`, the clock readings of that call, what had been created by then, and
   the number of the cache it was checked against, with its place among the accepts there.
   */
  datatype Accept = Accept(payload: Payload, now: Clock, bound: set<Payload>, cache: nat, place: nat)

  /** A cache, and the numbers of the accepts on it, in order. */
  datatype Kept = Kept(cache: Cache, log: seq<nat>)

  /**
   A live session; `accept` is the number of the accept its verified remote came from, `given` the X25519 key it was
   opened with, `cache` the number of its cache.
   */
  datatype Member = Member(
    session: Session,
    accept: Option<nat>,
    transport: Option<NoiseState>,
    given: Bytes32,
    cache: nat)

  datatype World = World(
    members: map<nat, Member>,
    caches: map<nat, Kept>,
    accepts: seq<Accept>,
    signed: set<(Bytes32, Bytes)>,   // every (public key, bytes) ever signed
    bound: set<Payload>,             // every identity payload ever created
    now: Clock)

  /** What a session is opened with; a cache number that is not in use stands for a new cache of `maxEntries`. */
  datatype Opening = Opening(
    ours: IdentityKeys,
    initiator: bool,
    expected: Bytes20,
    remoteX: Bytes32,
    ephemeral: Bytes32,
    cache: nat,
    maxEntries: nat)

  datatype Step =
    | Tick(now: Clock)
    | Open(id: nat, how: Opening)
    | SendOurs(id: nat, nonce: Bytes12)
    | Receive(id: nat, message: Bytes)
    | Finish(id: nat)
    | OthersBind(payload: Payload)
    | OthersBeacon(publicKey: Bytes32, beacon: Beacon.Beacon)

  ghost function Start(now: Clock): World {
    World(map[], map[], [], {}, {}, now)
  }

  ghost function Opened(w: World, id: nat, how: Opening): World {
    var session := NewSession(how.ours, how.initiator, how.expected, how.remoteX, how.ephemeral);
    w.(members := w.members[id := Member(session, None, None, how.remoteX, how.cache)],
       caches := if how.cache in w.caches then w.caches else w.caches[how.cache := Kept(NewCache(how.maxEntries), [])])
  }

  ghost function Signing(w: World, p: Payload): World {
    w.(signed := w.signed + {(p.ed25519Public, SignaturePayload(p))}, bound := w.bound + {p})
  }

  /** A session that failed or stopped is gone. */
  ghost function Dropped(w: World, id: nat): World {
    w.(members := w.members - {id})
  }

  /** The payload that a delivery puts before `verify_identity_payload`, if Noise and the parser let it through. */
  ghost function Delivered(n: Noise, s: Session, message: Bytes): Option<Payload> {
    match ReadMessage(n, s, message)
    case Err(_) => None
    case Ok((_, bytes)) => match FromBytes(bytes) case Err(_) => None case Ok(p) => Some(p)
  }

  /** The world after session `id` took in payload `p`. */
  ghost function Accepting(w: World, id: nat, s': Session, p: Payload, cache': Cache): World
    requires id in w.members && w.members[id].cache in w.caches
  {
    var m := w.members[id];
    var log := w.caches[m.cache].log;
    w.(caches := w.caches[m.cache := Kept(cache', log + [|w.accepts|])],
       accepts := w.accepts + [Accept(p, w.now, w.bound, m.cache, |log|)],
       members := w.members[id := m.(session := s', accept := Some(|w.accepts|))])
  }

  ghost function Received(c: Primitives, n: Noise, w: World, id: nat, message: Bytes): World
    requires id in w.members && w.members[id].cache in w.caches
  {
    var m := w.members[id];
    var kept := w.caches[m.cache];
    var (cache', r) := ReceiveIdentity(c, n, m.session, kept.cache, message, w.now);
    var d := Delivered(n, m.session, message);
    if r.Ok? && d.Some? then Accepting(w, id, r.value, d.value, cache')
    else Dropped(w.(caches := w.caches[m.cache := kept.(cache := cache')]), id)
  }

  ghost function Next(c: Primitives, n: Noise, w: World, step: Step): World
    requires Ready(w, step)
  {
    match step
    case Tick(now) => w.(now := now)
    case Open(id, how) => Opened(w, id, how)
    case SendOurs(id, nonce) =>
      var m := w.members[id];
      var p := IdentityBind.Create(c, m.session.ours, w.now.wall, nonce);
      (match SendIdentity(c, n, m.session, w.now.wall, nonce)
       case Err(_) => Dropped(Signing(w, p), id)
       case Ok((s, _)) => Signing(w, p).(members := w.members[id := m.(session := s)]))
    case Receive(id, message) => Received(c, n, w, id, message)
    case Finish(id) =>
      var m := w.members[id];
      (match IntoTransport(m.session)
       case Err(_) => Dropped(w, id)
       case Ok(t) => w.(members := w.members[id := m.(transport := Some(t))]))
    case OthersBind(p) => Signing(w, p)
    case OthersBeacon(pk, b) => w.(signed := w.signed + {(pk, Beacon.SignedBytes(b))})
  }

  /** What verifies under an honest key was signed with it. */
  ghost predicate Unforged(c: Primitives, honest: set<Bytes32>, w: World, p: Payload) {
    p.ed25519Public in honest && c.verify(p.ed25519Public, SignaturePayload(p), p.signature)
    ==> (p.ed25519Public, SignaturePayload(p)) in w.signed
  }

  /** The session a step is about is in the right state for it. */
  ghost predicate Ready(w: World, step: Step) {
    match step
    case Tick(now) => w.now.mono <= now.mono
    case Open(id, _) => id !in w.members
    case SendOurs(id, _) => id in w.members && w.members[id].transport.None?
    case Receive(id, _) => id in w.members && w.members[id].transport.None? && w.members[id].cache in w.caches
    case Finish(id) => id in w.members
    case OthersBind(_) => true
    case OthersBeacon(_, b) => b.version == 1
  }

  ghost predicate Enabled(c: Primitives, n: Noise, honest: set<Bytes32>, w: World, step: Step) {
    && Ready(w, step)
    && (step.Receive? ==>
          var d := Delivered(n, w.members[step.id].session, step.message);
          d.Some? ==> Unforged(c, honest, w, d.value))
  }

  /** A run is a sequence of steps, each enabled where it happens. */
  ghost predicate IsRun(c: Primitives, n: Noise, honest: set<Bytes32>, w: World, steps: seq<Step>)
    decreases |steps|
  {
    steps == [] ||
    (Enabled(c, n, honest, w, steps[0]) && IsRun(c, n, honest, Next(c, n, w, steps[0]), steps[1..]))
  }

  ghost function After(c: Primitives, n: Noise, honest: set<Bytes32>, w: World, steps: seq<Step>): World
    requires IsRun(c, n, honest, w, steps)
    decreases |steps|
  {
    if steps == [] then w else After(c, n, honest, Next(c, n, w, steps[0]), steps[1..])
  }

  // ---------------------------------------------------------------------------------------
  // The invariant.

  ghost function EntryOf(c: Primitives, a: Accept): Entry {
    Entry(Key(c.derive(a.payload.ed25519Public, a.payload.x25519Public), a.payload.nonce), a.now.mono)
  }

  /** The entries of the accepts whose numbers are in `log`. */
  ghost function EntriesAt(c: Primitives, accepts: seq<Accept>, log: seq<nat>): (es: seq<Entry>)
    requires forall p :: 0 <= p < |log| ==> log[p] < |accepts|
    ensures |es| == |log| && forall p :: 0 <= p < |es| ==> es[p] == EntryOf(c, accepts[log[p]])
  {
    seq(|log|, p requires 0 <= p < |log| => EntryOf(c, accepts[log[p]]))
  }

  ghost predicate Explained(bound: set<Payload>, e: (Bytes32, Bytes)) {
    || (exists p :: p in bound && p.ed25519Public == e.0 && e.1 == SignaturePayload(p))
    || (exists b: Beacon.Beacon :: b.version == 1 && e.1 == Beacon.SignedBytes(b))
  }

  /** `p` is, signature aside, an identity payload that was created. */
  ghost predicate WasCreated(bound: set<Payload>, p: Payload) {
    exists q :: q in bound && p == q.(signature := p.signature)
  }

  /** Accepted: version 1, fresh at its check, signed, and created before if its key is honest. */
  ghost predicate SoundAccept(c: Primitives, honest: set<Bytes32>, bound: set<Payload>, a: Accept) {
    && a.bound <= bound
    && a.payload.version == 1
    && -TIMESTAMP_SKEW_SECS <= a.payload.timestamp - a.now.wall <= TIMESTAMP_SKEW_SECS
    && c.verify(a.payload.ed25519Public, SignaturePayload(a.payload), a.payload.signature)
    && (a.payload.ed25519Public in honest ==> WasCreated(a.bound, a.payload))
  }

  ghost predicate SoundMember(c: Primitives, accepts: seq<Accept>, m: Member) {
    && m.session.remoteFingerprint.Some? && m.session.noise.remotePublic == m.given
    && (m.accept.Some? <==> m.session.verifiedRemote.Some?)
    && (m.accept.Some? ==>
          && m.accept.value < |accepts| && accepts[m.accept.value].cache == m.cache
          && var p := accepts[m.accept.value].payload;
             var v := m.session.verifiedRemote.value;
             && v.fingerprint == m.session.remoteFingerprint.value == c.derive(p.ed25519Public, p.x25519Public)
             && v.ed25519Public == p.ed25519Public && v.x25519Public == p.x25519Public && v.nonce == p.nonce)
    && (m.transport.Some? ==> m.accept.Some? && m.session.noise.Finished() && m.transport.value == m.session.noise)
  }

  ghost predicate AllExplained(signed: set<(Bytes32, Bytes)>, bound: set<Payload>) {
    forall e :: e in signed ==> Explained(bound, e)
  }

  ghost predicate AllSound(c: Primitives, honest: set<Bytes32>, bound: set<Payload>, accepts: seq<Accept>) {
    forall i :: 0 <= i < |accepts| ==> SoundAccept(c, honest, bound, accepts[i])
  }

  /** Members are sound, and no two rest on the same accept. */
  ghost predicate MembersSound(c: Primitives, accepts: seq<Accept>, members: map<nat, Member>) {
    && (forall id :: id in members ==> SoundMember(c, accepts, members[id]))
    && (forall i, j :: i in members && j in members && i != j && members[i].accept.Some? ==>
          members[i].accept != members[j].accept)
  }

  /** The cache was the window of the log at its last call. */
  ghost predicate CacheSound(cache: Cache, log: seq<Entry>, now: int) {
    && AcceptedFresh(log, Capacity(cache.maxEntries))
    && exists called: int :: called <= now && Agrees(cache, log, called)
  }

  /** `log` lists accepts on cache `k`, in order, each at its place. */
  ghost predicate LogSound(accepts: seq<Accept>, log: seq<nat>, k: nat) {
    && (forall p :: 0 <= p < |log| ==>
          log[p] < |accepts| && accepts[log[p]].cache == k && accepts[log[p]].place == p)
    && (forall p, q :: 0 <= p < q < |log| ==> log[p] < log[q])
  }

  /** Accept `i` is on the log of its cache. */
  ghost predicate Logged(caches: map<nat, Kept>, a: Accept, i: nat) {
    a.cache in caches && a.place < |caches[a.cache].log| && caches[a.cache].log[a.place] == i
  }

  ghost predicate LogsComplete(accepts: seq<Accept>, caches: map<nat, Kept>) {
    forall i {:trigger Logged(caches, accepts[i], i)} :: 0 <= i < |accepts| ==> Logged(caches, accepts[i], i)
  }

  ghost predicate KeptSound(c: Primitives, kept: Kept, accepts: seq<Accept>, k: nat, now: int) {
    LogSound(accepts, kept.log, k) && CacheSound(kept.cache, EntriesAt(c, accepts, kept.log), now)
  }

  ghost predicate CachesSound(c: Primitives, caches: map<nat, Kept>, accepts: seq<Accept>, now: int) {
    && (forall k {:trigger KeptSound(c, caches[k], accepts, k, now)} :: k in caches ==>
          KeptSound(c, caches[k], accepts, k, now))
    && LogsComplete(accepts, caches)
  }

  ghost predicate OnCaches(members: map<nat, Member>, caches: map<nat, Kept>) {
    forall id :: id in members ==> members[id].cache in caches
  }

  ghost predicate Inv(c: Primitives, honest: set<Bytes32>, w: World) {
    && AllExplained(w.signed, w.bound)
    && AllSound(c, honest, w.bound, w.accepts)
    && MembersSound(c, w.accepts, w.members)
    && CachesSound(c, w.caches, w.accepts, w.now.mono)
    && OnCaches(w.members, w.caches)
  }

  lemma StartInv(c: Primitives, honest: set<Bytes32>, now: Clock)
    ensures Inv(c, honest, Start(now))
  {
  }

  lemma NewCacheSound(maxEntries: nat, now: int)
    ensures CacheSound(NewCache(maxEntries), [], now)
  {
    NewAgrees(maxEntries, now);
    assert now <= now && Agrees(NewCache(maxEntries), [], now);
  }

  lemma NewKeptSound(c: Primitives, accepts: seq<Accept>, k: nat, maxEntries: nat, now: int)
    ensures KeptSound(c, Kept(NewCache(maxEntries), []), accepts, k, now)
  {
    NewCacheSound(maxEntries, now);
    var none: seq<nat> := [];
    assert |EntriesAt(c, accepts, none)| == 0;
    assert EntriesAt(c, accepts, none) == [];
  }

  /** Adding a cache, or replacing one on the same log, by one that is sound. */
  lemma PutKeepsCaches(c: Primitives, caches: map<nat, Kept>, accepts: seq<Accept>, k: nat, kept: Kept, now: int)
    requires CachesSound(c, caches, accepts, now) && KeptSound(c, kept, accepts, k, now)
    requires k in caches ==> kept.log == caches[k].log
    ensures CachesSound(c, caches[k := kept], accepts, now)
  {
    var caches' := caches[k := kept];
    forall j | j in caches' ensures KeptSound(c, caches'[j], accepts, j, now) {
      assert j != k ==> KeptSound(c, caches[j], accepts, j, now);
    }
    forall i | 0 <= i < |accepts| ensures Logged(caches', accepts[i], i) {
      assert Logged(caches, accepts[i], i);
    }
  }

  lemma OpenKeepsInv(c: Primitives, honest: set<Bytes32>, w: World, id: nat, how: Opening)
    requires Inv(c, honest, w) && id !in w.members
    ensures Inv(c, honest, Opened(w, id, how))
  {
    var w' := Opened(w, id, how);
    var m := w'.members[id];
    assert SoundMember(c, w.accepts, m);
    ReplaceKeepsMembers(c, w.accepts, w.members, id, m);
    if how.cache !in w.caches {
      var kept := Kept(NewCache(how.maxEntries), []);
      NewKeptSound(c, w.accepts, how.cache, how.maxEntries, w.now.mono);
      PutKeepsCaches(c, w.caches, w.accepts, how.cache, kept, w.now.mono);
    }
    assert OnCaches(w'.members, w'.caches);
  }

  /** Signing more never unexplains a signature or an accept. */
  lemma SigningKeepsInv(c: Primitives, honest: set<Bytes32>, w: World, p: Payload)
    requires Inv(c, honest, w)
    ensures Inv(c, honest, Signing(w, p))
  {
  }

  lemma BeaconKeepsInv(c: Primitives, honest: set<Bytes32>, w: World, pk: Bytes32, b: Beacon.Beacon)
    requires Inv(c, honest, w) && b.version == 1
    ensures Inv(c, honest, w.(signed := w.signed + {(pk, Beacon.SignedBytes(b))}))
  {
  }

  /** The bytes a key signed for a payload come from creating that payload, not from a beacon. */
  lemma SignedMeansCreated(w: World, p: Payload)
    requires AllExplained(w.signed, w.bound)
    requires (p.ed25519Public, SignaturePayload(p)) in w.signed
    ensures WasCreated(w.bound, p)
  {
    var e := (p.ed25519Public, SignaturePayload(p));
    assert Explained(w.bound, e);
    if q :| q in w.bound && q.ed25519Public == e.0 && e.1 == SignaturePayload(q) {
      IdentityBind.SignedBytesInjective(p, q);
    } else {
      var b: Beacon.Beacon :| b.version == 1 && e.1 == Beacon.SignedBytes(b);
      Beacon.NeverAnIdentityPayload(b, p);
    }
  }

  /** What a delivery establishes, and what it does to the cache. */
  lemma ReceiveIsVerify(c: Primitives, n: Noise, s: Session, cache: Cache, message: Bytes, now: Clock)
    requires s.remoteFingerprint.Some?
    ensures var (cache', r) := ReceiveIdentity(c, n, s, cache, message, now);
            var d := Delivered(n, s, message);
            && (r.Ok? ==>
                  && d.Some?
                  && var v := Verify(c, d.value, s.remoteFingerprint.value, now.wall);
                     && v.Ok?
                     && r.value.verifiedRemote == Some(v.value)
                     && r.value.remoteFingerprint == s.remoteFingerprint
                     && r.value.noise.remotePublic == s.noise.remotePublic
                     && (cache', true) == CheckStep(cache, KeyOf(v.value), now.mono))
            && (r.Err? ==> cache' == cache || exists key :: (cache', false) == CheckStep(cache, key, now.mono))
            && (d.Some? && Verify(c, d.value, s.remoteFingerprint.value, now.wall).Ok? ==>
                  var v := Verify(c, d.value, s.remoteFingerprint.value, now.wall).value;
                  r.Ok? <==> CheckStep(cache, KeyOf(v), now.mono).1)
  {
  }

  /** A call at the present time leaves the cache sound, whatever its verdict. */
  lemma CallKeepsCacheSound(cache: Cache, log: seq<Entry>, key: Key, now: int)
    requires CacheSound(cache, log, now)
    ensures var (cache', isNew) := CheckStep(cache, key, now);
            && CacheSound(cache', LogAfter(log, key, now, isNew), now)
            && cache'.maxEntries == cache.maxEntries
            && (isNew <==> !SeenInWindow(log, key, now, Capacity(cache.maxEntries)))
  {
    var called: int :| called <= now && Agrees(cache, log, called);
    CallRefinesLog(cache, log, called, key, now);
    if CheckStep(cache, key, now).1 {
      ExtendFresh(log, key, now, Capacity(cache.maxEntries));
    }
  }

  /** A call that refuses its key, or no call at all, leaves the caches sound. */
  lemma UnacceptedKeepsCaches(
    c: Primitives, caches: map<nat, Kept>, accepts: seq<Accept>, k: nat, cache': Cache, now: int)
    requires CachesSound(c, caches, accepts, now) && k in caches
    requires cache' == caches[k].cache || exists key :: (cache', false) == CheckStep(caches[k].cache, key, now)
    ensures CachesSound(c, caches[k := caches[k].(cache := cache')], accepts, now)
    ensures caches[k := caches[k].(cache := cache')].Keys == caches.Keys
  {
    assert KeptSound(c, caches[k], accepts, k, now);
    if cache' != caches[k].cache {
      var key :| (cache', false) == CheckStep(caches[k].cache, key, now);
      CallKeepsCacheSound(caches[k].cache, EntriesAt(c, accepts, caches[k].log), key, now);
    }
    PutKeepsCaches(c, caches, accepts, k, caches[k].(cache := cache'), now);
  }

  lemma DropKeepsInv(c: Primitives, honest: set<Bytes32>, w: World, id: nat, caches': map<nat, Kept>)
    requires Inv(c, honest, w) && caches'.Keys == w.caches.Keys
    requires CachesSound(c, caches', w.accepts, w.now.mono)
    ensures Inv(c, honest, Dropped(w.(caches := caches'), id))
  {
    DropKeepsMembers(c, w.accepts, w.members, id);
  }

  lemma ReceiveKeepsInv(c: Primitives, n: Noise, honest: set<Bytes32>, w: World, id: nat, message: Bytes)
    requires Inv(c, honest, w) && Enabled(c, n, honest, w, Receive(id, message))
    ensures Inv(c, honest, Received(c, n, w, id, message))
  {
    var m := w.members[id];
    var s, cache := m.session, w.caches[m.cache].cache;
    assert SoundMember(c, w.accepts, m);
    ReceiveIsVerify(c, n, s, cache, message, w.now);
    var (cache', r) := ReceiveIdentity(c, n, s, cache, message, w.now);
    if r.Ok? {
      var p, v := Delivered(n, s, message).value, r.value.verifiedRemote.value;
      AcceptKeepsInv(c, honest, w, id, r.value, p, v, cache');
    } else {
      UnacceptedKeepsCaches(c, w.caches, w.accepts, m.cache, cache', w.now.mono);
      DropKeepsInv(c, honest, w, id, w.caches[m.cache := w.caches[m.cache].(cache := cache')]);
    }
  }

  /** The log of cache `k` after accept `a`, which is number `|accepts|`. */
  ghost function LogWith(log: seq<nat>, accepts: seq<Accept>, a: Accept, k: nat): seq<nat> {
    if a.cache == k then log + [|accepts|] else log
  }

  lemma AcceptKeepsLog(c: Primitives, accepts: seq<Accept>, log: seq<nat>, k: nat, a: Accept)
    requires LogSound(accepts, log, k) && (a.cache == k ==> a.place == |log|)
    ensures LogSound(accepts + [a], LogWith(log, accepts, a, k), k)
    ensures EntriesAt(c, accepts + [a], LogWith(log, accepts, a, k)) ==
            EntriesAt(c, accepts, log) + (if a.cache == k then [EntryOf(c, a)] else [])
  {
  }

  lemma AcceptKeepsKept(
    c: Primitives, kept: Kept, accepts: seq<Accept>, a: Accept, v: VerifiedIdentity, expected: Bytes20)
    requires KeptSound(c, kept, accepts, a.cache, a.now.mono) && a.place == |kept.log|
    requires Verify(c, a.payload, expected, a.now.wall) == Ok(v) && CheckStep(kept.cache, KeyOf(v), a.now.mono).1
    ensures var kept' := Kept(CheckStep(kept.cache, KeyOf(v), a.now.mono).0, kept.log + [|accepts|]);
            KeptSound(c, kept', accepts + [a], a.cache, a.now.mono)
  {
    AcceptKeepsLog(c, accepts, kept.log, a.cache, a);
    CallKeepsCacheSound(kept.cache, EntriesAt(c, accepts, kept.log), KeyOf(v), a.now.mono);
  }

  lemma OthersKeepKept(c: Primitives, kept: Kept, accepts: seq<Accept>, k: nat, a: Accept, now: int)
    requires KeptSound(c, kept, accepts, k, now) && a.cache != k
    ensures KeptSound(c, kept, accepts + [a], k, now)
  {
    AcceptKeepsLog(c, accepts, kept.log, k, a);
    assert EntriesAt(c, accepts, kept.log) + [] == EntriesAt(c, accepts, kept.log);
  }

  lemma AcceptKeepsComplete(caches: map<nat, Kept>, accepts: seq<Accept>, a: Accept, kept': Kept)
    requires LogsComplete(accepts, caches) && a.cache in caches && a.place == |caches[a.cache].log|
    requires kept'.log == caches[a.cache].log + [|accepts|]
    ensures LogsComplete(accepts + [a], caches[a.cache := kept'])
  {
    var accepts', caches' := accepts + [a], caches[a.cache := kept'];
    forall i | 0 <= i < |accepts'| ensures Logged(caches', accepts'[i], i) {
      assert i < |accepts| ==> Logged(caches, accepts[i], i);
    }
  }

  /** An accept extends the log of its cache and of no other. */
  lemma AcceptKeepsCaches(
    c: Primitives, caches: map<nat, Kept>, accepts: seq<Accept>, a: Accept, v: VerifiedIdentity, expected: Bytes20,
    kept': Kept)
    requires CachesSound(c, caches, accepts, a.now.mono) && a.cache in caches && a.place == |caches[a.cache].log|
    requires Verify(c, a.payload, expected, a.now.wall) == Ok(v)
    requires (kept'.cache, true) == CheckStep(caches[a.cache].cache, KeyOf(v), a.now.mono)
    requires kept'.log == caches[a.cache].log + [|accepts|]
    ensures CachesSound(c, caches[a.cache := kept'], accepts + [a], a.now.mono)
  {
    var caches' := caches[a.cache := kept'];
    forall k | k in caches' ensures KeptSound(c, caches'[k], accepts + [a], k, a.now.mono) {
      assert KeptSound(c, caches[k], accepts, k, a.now.mono);
      if k == a.cache {
        AcceptKeepsKept(c, caches[k], accepts, a, v, expected);
      } else {
        OthersKeepKept(c, caches[k], accepts, k, a, a.now.mono);
      }
    }
    AcceptKeepsComplete(caches, accepts, a, kept');
  }

  lemma AcceptKeepsInv(
    c: Primitives, honest: set<Bytes32>, w: World, id: nat, s': Session, p: Payload, v: VerifiedIdentity, cache': Cache)
    requires Inv(c, honest, w) && id in w.members && w.members[id].transport.None?
    requires Unforged(c, honest, w, p)
    requires s'.remoteFingerprint.Some? && s'.noise.remotePublic == w.members[id].given
    requires Verify(c, p, s'.remoteFingerprint.value, w.now.wall) == Ok(v) && s'.verifiedRemote == Some(v)
    requires (cache', true) == CheckStep(w.caches[w.members[id].cache].cache, KeyOf(v), w.now.mono)
    ensures Inv(c, honest, Accepting(w, id, s', p, cache'))
  {
    var k := w.members[id].cache;
    var log := w.caches[k].log;
    var a, kept' := Accept(p, w.now, w.bound, k, |log|), Kept(cache', log + [|w.accepts|]);
    NewAcceptSound(c, honest, w, a, v, s'.remoteFingerprint.value);
    AcceptKeepsCaches(c, w.caches, w.accepts, a, v, s'.remoteFingerprint.value, kept');
    var m' := w.members[id].(session := s', accept := Some(|w.accepts|));
    assert SoundMember(c, w.accepts + [a], m');
    NewAcceptKeepsMembers(c, w, id, m', a);
    assert OnCaches(w.members[id := m'], w.caches[k := kept']);
  }

  lemma NewAcceptSound(
    c: Primitives, honest: set<Bytes32>, w: World, a: Accept, v: VerifiedIdentity, expected: Bytes20)
    requires AllExplained(w.signed, w.bound) && AllSound(c, honest, w.bound, w.accepts)
    requires Unforged(c, honest, w, a.payload) && a.bound == w.bound
    requires Verify(c, a.payload, expected, a.now.wall) == Ok(v)
    ensures AllSound(c, honest, w.bound, w.accepts + [a])
  {
    if a.payload.ed25519Public in honest {
      SignedMeansCreated(w, a.payload);
    }
    assert SoundAccept(c, honest, w.bound, a);
  }

  lemma NewAcceptKeepsMembers(c: Primitives, w: World, id: nat, m: Member, a: Accept)
    requires MembersSound(c, w.accepts, w.members)
    requires m.accept == Some(|w.accepts|) && SoundMember(c, w.accepts + [a], m)
    ensures MembersSound(c, w.accepts + [a], w.members[id := m])
  {
  }

  /** Replacing a member by one that rests on the same accept. */
  lemma ReplaceKeepsMembers(c: Primitives, accepts: seq<Accept>, members: map<nat, Member>, id: nat, m: Member)
    requires MembersSound(c, accepts, members) && SoundMember(c, accepts, m)
    requires m.accept == if id in members then members[id].accept else None
    ensures MembersSound(c, accepts, members[id := m])
  {
  }

  lemma DropKeepsMembers(c: Primitives, accepts: seq<Accept>, members: map<nat, Member>, id: nat)
    requires MembersSound(c, accepts, members)
    ensures MembersSound(c, accepts, members - {id})
  {
  }

  lemma SendKeepsInv(c: Primitives, n: Noise, honest: set<Bytes32>, w: World, id: nat, nonce: Bytes12)
    requires Inv(c, honest, w) && Ready(w, SendOurs(id, nonce))
    ensures Inv(c, honest, Next(c, n, w, SendOurs(id, nonce)))
  {
    var m := w.members[id];
    assert SoundMember(c, w.accepts, m);
    SigningKeepsInv(c, honest, w, IdentityBind.Create(c, m.session.ours, w.now.wall, nonce));
    match SendIdentity(c, n, m.session, w.now.wall, nonce) {
      case Err(_) => DropKeepsMembers(c, w.accepts, w.members, id);
      case Ok((s, _)) => ReplaceKeepsMembers(c, w.accepts, w.members, id, m.(session := s));
    }
  }

  lemma FinishKeepsInv(c: Primitives, n: Noise, honest: set<Bytes32>, w: World, id: nat)
    requires Inv(c, honest, w) && Ready(w, Finish(id))
    ensures Inv(c, honest, Next(c, n, w, Finish(id)))
  {
    var m := w.members[id];
    assert SoundMember(c, w.accepts, m);
    match IntoTransport(m.session) {
      case Err(_) => DropKeepsMembers(c, w.accepts, w.members, id);
      case Ok(t) => ReplaceKeepsMembers(c, w.accepts, w.members, id, m.(transport := Some(t)));
    }
  }

  lemma TickKeepsCaches(c: Primitives, w: World, now: Clock)
    requires CachesSound(c, w.caches, w.accepts, w.now.mono) && w.now.mono <= now.mono
    ensures CachesSound(c, w.caches, w.accepts, now.mono)
  {
    forall k | k in w.caches ensures KeptSound(c, w.caches[k], w.accepts, k, now.mono) {
      assert KeptSound(c, w.caches[k], w.accepts, k, w.now.mono);
    }
  }

  /** Every step keeps the invariant. */
  lemma StepKeepsInv(c: Primitives, n: Noise, honest: set<Bytes32>, w: World, step: Step)
    requires Inv(c, honest, w) && Enabled(c, n, honest, w, step)
    ensures Inv(c, honest, Next(c, n, w, step))
  {
    match step
    case Tick(now) => TickKeepsCaches(c, w, now);
    case Open(id, how) => OpenKeepsInv(c, honest, w, id, how);
    case SendOurs(id, nonce) => SendKeepsInv(c, n, honest, w, id, nonce);
    case Receive(id, message) => ReceiveKeepsInv(c, n, honest, w, id, message);
    case Finish(id) => FinishKeepsInv(c, n, honest, w, id);
    case OthersBind(p) => SigningKeepsInv(c, honest, w, p);
    case OthersBeacon(pk, b) => BeaconKeepsInv(c, honest, w, pk, b);
  }

  lemma {:induction false} RunKeepsInv(c: Primitives, n: Noise, honest: set<Bytes32>, w: World, steps: seq<Step>)
    requires Inv(c, honest, w) && IsRun(c, n, honest, w, steps)
    ensures Inv(c, honest, After(c, n, honest, w, steps))
    decreases |steps|
  {
    if steps != [] {
      StepKeepsInv(c, n, honest, w, steps[0]);
      RunKeepsInv(c, n, honest, Next(c, n, w, steps[0]), steps[1..]);
    }
  }

  // ---------------------------------------------------------------------------------------
  // The theorems about whole runs.

  /** No two key pairs have the fingerprint `fp`. */
  ghost predicate NoCollision(c: Primitives, fp: Bytes20) {
    forall ed: Bytes32, x: Bytes32, ed': Bytes32, x': Bytes32 ::
      c.derive(ed, x) == fp && c.derive(ed', x') == fp ==> ed == ed' && x == x'
  }

  /** `p` names the owner's keys. */
  ghost predicate NamesKeysOf(c: Primitives, p: Payload, owner: IdentityKeys) {
    p.ed25519Public == owner.EdPublic(c) && p.x25519Public == owner.XPublic(c)
  }

  /**
   In every run, a session that holds a transport finished both Noise messages and rests on an accept of a signed
   version-1 payload, at most 30 s from the clock of its check, whose keys have the expected fingerprint. If no other
   keys have the owner's fingerprint, they are the owner's; and if they are an honest owner's, the owner had created
   that very payload when it was accepted.
   */
  lemma TransportIsAuthentic(
    c: Primitives, n: Noise, honest: set<Bytes32>, t0: Clock, steps: seq<Step>, id: nat,
    owner: IdentityKeys)
    requires IsRun(c, n, honest, Start(t0), steps)
    requires var w := After(c, n, honest, Start(t0), steps);
             && id in w.members && w.members[id].transport.Some?
             && w.members[id].session.remoteFingerprint == Some(owner.Fingerprint(c))
    ensures var w := After(c, n, honest, Start(t0), steps);
            var m := w.members[id];
            && m.session.noise.Finished()
            && m.accept.Some? && m.accept.value < |w.accepts|
            && var a := w.accepts[m.accept.value];
               var p := a.payload;
               && p.version == 1
               && -TIMESTAMP_SKEW_SECS <= p.timestamp - a.now.wall <= TIMESTAMP_SKEW_SECS
               && c.verify(p.ed25519Public, SignaturePayload(p), p.signature)
               && c.derive(p.ed25519Public, p.x25519Public) == owner.Fingerprint(c)
               && (NoCollision(c, owner.Fingerprint(c)) ==> NamesKeysOf(c, p, owner))
               && (NamesKeysOf(c, p, owner) && owner.EdPublic(c) in honest ==> WasCreated(a.bound, p))
  {
    StartInv(c, honest, t0);
    RunKeepsInv(c, n, honest, Start(t0), steps);
    var w := After(c, n, honest, Start(t0), steps);
    assert SoundMember(c, w.accepts, w.members[id]);
    assert SoundAccept(c, honest, w.bound, w.accepts[w.members[id].accept.value]);
  }

  /**
   If no two key pairs have the expected fingerprint, the Noise key of a transport is its verified peer's X25519 key
   exactly when the key that the session was opened with belongs, with some Ed25519 key, to that fingerprint. It does
   when key and fingerprint come from one verified beacon.
   */
  lemma TransportKeyIsVerifiedIffGivenBelongs(
    c: Primitives, n: Noise, honest: set<Bytes32>, t0: Clock, steps: seq<Step>, id: nat)
    requires IsRun(c, n, honest, Start(t0), steps)
    requires var w := After(c, n, honest, Start(t0), steps);
             id in w.members && w.members[id].transport.Some?
    ensures var m := After(c, n, honest, Start(t0), steps).members[id];
            && m.session.remoteFingerprint.Some? && m.session.verifiedRemote.Some?
            && var fp, v := m.session.remoteFingerprint.value, m.session.verifiedRemote.value;
               NoCollision(c, fp) ==>
                 (m.transport.value.remotePublic == v.x25519Public <==>
                  exists ed: Bytes32 :: c.derive(ed, m.given) == fp)
  {
    StartInv(c, honest, t0);
    RunKeepsInv(c, n, honest, Start(t0), steps);
    var w := After(c, n, honest, Start(t0), steps);
    var m := w.members[id];
    assert SoundMember(c, w.accepts, m);
    var v := m.session.verifiedRemote.value;
    assert c.derive(v.ed25519Public, v.x25519Public) == m.session.remoteFingerprint.value;
  }

  // ---------------------------------------------------------------------------------------
  // Replays on one cache.

  /** The keys accepted strictly between accepts `i` and `j`, on the cache of `j`, other than the key of `i`. */
  ghost function OtherKeysBetween(c: Primitives, accepts: seq<Accept>, i: nat, j: nat): set<Key>
    requires i < |accepts| && j < |accepts|
  {
    var key := EntryOf(c, accepts[i]).key;
    set m | i < m < j && accepts[m].cache == accepts[j].cache && EntryOf(c, accepts[m]).key != key
      :: EntryOf(c, accepts[m]).key
  }

  /** One key twice on one cache, at most a TTL apart: the cache turned over in between. */
  lemma CacheTurnover(c: Primitives, w: World, i: nat, j: nat)
    requires CachesSound(c, w.caches, w.accepts, w.now.mono)
    requires i < j < |w.accepts| && w.accepts[i].cache == w.accepts[j].cache && w.accepts[j].cache in w.caches
    requires EntryOf(c, w.accepts[i]).key == EntryOf(c, w.accepts[j]).key
    ensures w.accepts[i].now.mono <= w.accepts[j].now.mono
    ensures w.accepts[j].now.mono - w.accepts[i].now.mono <= TTL ==>
              |OtherKeysBetween(c, w.accepts, i, j)| >= Capacity(w.caches[w.accepts[j].cache].cache.maxEntries)
  {
    var k := w.accepts[j].cache;
    var kept, p, q := w.caches[k], w.accepts[i].place, w.accepts[j].place;
    assert KeptSound(c, kept, w.accepts, k, w.now.mono);
    var es, capacity := EntriesAt(c, w.accepts, kept.log), Capacity(kept.cache.maxEntries);
    assert Logged(w.caches, w.accepts[i], i) && Logged(w.caches, w.accepts[j], j);
    assert p < q;
    assert Sorted(es) && es[p].time <= es[q].time;
    if es[q].time - es[p].time <= TTL {
      RepeatNeedsFullTurnover(es, capacity, p, q);
      TurnoverIsCounted(c, w.accepts, kept.log, i, j, capacity);
    }
  }

  /** The entries after that of `i` on the log, `capacity` of them before that of `j`, have other keys. */
  lemma TurnoverIsCounted(c: Primitives, accepts: seq<Accept>, log: seq<nat>, i: nat, j: nat, capacity: nat)
    requires i < j < |accepts| && LogSound(accepts, log, accepts[j].cache)
    requires var p, q := accepts[i].place, accepts[j].place;
             && p + capacity < q < |log| && log[p] == i && log[q] == j
             && DistinctKeys(EntriesAt(c, accepts, log)[p..p + capacity + 1])
    ensures |OtherKeysBetween(c, accepts, i, j)| >= capacity
  {
    var p := accepts[i].place;
    var all := EntriesAt(c, accepts, log)[p..p + capacity + 1];
    KeysOfPop(all);
    KeysOfSize(all[1..]);
    forall key | key in KeysOf(all[1..]) ensures key in OtherKeysBetween(c, accepts, i, j) {
      var x :| 0 <= x < |all[1..]| && all[1..][x].key == key;
      LaterKeyIsBetween(c, accepts, log, i, j, capacity, x);
    }
    SubsetSize(KeysOf(all[1..]), OtherKeysBetween(c, accepts, i, j));
  }

  lemma LaterKeyIsBetween(
    c: Primitives, accepts: seq<Accept>, log: seq<nat>, i: nat, j: nat, capacity: nat, x: nat)
    requires i < j < |accepts| && LogSound(accepts, log, accepts[j].cache) && x < capacity
    requires var p, q := accepts[i].place, accepts[j].place;
             && p + capacity < q < |log| && log[p] == i && log[q] == j
             && DistinctKeys(EntriesAt(c, accepts, log)[p..p + capacity + 1])
    ensures var p := accepts[i].place;
            EntriesAt(c, accepts, log)[p..p + capacity + 1][1..][x].key in OtherKeysBetween(c, accepts, i, j)
  {
    var p := accepts[i].place;
    var all := EntriesAt(c, accepts, log)[p..p + capacity + 1];
    assert all[1..][x] == all[x + 1] == EntryOf(c, accepts[log[p + 1 + x]]);
    assert all[0] == EntryOf(c, accepts[i]) && all[0].key != all[x + 1].key;
    KeyIsBetween(c, accepts, log, i, j, p + 1 + x);
  }

  /** The accept at place `x`, between those of `i` and `j` on the log. */
  lemma KeyIsBetween(c: Primitives, accepts: seq<Accept>, log: seq<nat>, i: nat, j: nat, x: nat)
    requires i < j < |accepts| && LogSound(accepts, log, accepts[j].cache)
    requires var p, q := accepts[i].place, accepts[j].place;
             p < x < q < |log| && log[p] == i && log[q] == j
    ensures var key := EntryOf(c, accepts[log[x]]).key;
            key != EntryOf(c, accepts[i]).key ==> key in OtherKeysBetween(c, accepts, i, j)
  {
    assert log[accepts[i].place] < log[x] < log[accepts[j].place];
  }

  /** The wall clock shows the whole seconds of the monotonic clock, up to an offset. */
  predicate InStep(t: Clock, offset: int) {
    t.wall == (t.mono + offset) / SECOND
  }

  /** The readings were taken on whole seconds. */
  predicate OnTheSecond(t: Clock, offset: int) {
    t.wall * SECOND == t.mono + offset
  }

  /** Two readings near one timestamp are at most 60 s apart on the wall clock, and so on a clock in step with it. */
  lemma SkewsMeet(a: Clock, b: Clock, timestamp: i64)
    requires -TIMESTAMP_SKEW_SECS <= timestamp - a.wall <= TIMESTAMP_SKEW_SECS
    requires -TIMESTAMP_SKEW_SECS <= timestamp - b.wall <= TIMESTAMP_SKEW_SECS
    ensures -2 * TIMESTAMP_SKEW_SECS <= b.wall - a.wall <= 2 * TIMESTAMP_SKEW_SECS
    ensures forall offset :: InStep(a, offset) && InStep(b, offset) ==> b.mono - a.mono < 61 * SECOND
    ensures forall offset :: OnTheSecond(a, offset) && OnTheSecond(b, offset) ==> b.mono - a.mono <= TTL
  {
  }

  /** How far apart two accepts of the same signed payload on one cache are, and what lies between them. */
  ghost predicate ReplayIsBounded(c: Primitives, w: World, i: nat, j: nat)
    requires i < j < |w.accepts|
  {
    var a, b := w.accepts[i], w.accepts[j];
    b.now.mono - a.now.mono <= TTL ==>
      && b.cache in w.caches
      && |OtherKeysBetween(c, w.accepts, i, j)| >= Capacity(w.caches[b.cache].cache.maxEntries)
  }

  /** In one state, from the invariant. */
  lemma AcceptedTwice(c: Primitives, honest: set<Bytes32>, w: World, i: nat, j: nat)
    requires Inv(c, honest, w)
    requires i < j < |w.accepts| && w.accepts[i].cache == w.accepts[j].cache
    requires SignaturePayload(w.accepts[i].payload) == SignaturePayload(w.accepts[j].payload)
    ensures ReplayIsBounded(c, w, i, j)
    ensures var first, second := w.accepts[i].now, w.accepts[j].now;
            && first.mono <= second.mono
            && -2 * TIMESTAMP_SKEW_SECS <= second.wall - first.wall <= 2 * TIMESTAMP_SKEW_SECS
            && (forall o :: InStep(first, o) && InStep(second, o) ==> second.mono - first.mono < 61 * SECOND)
            && (forall o :: OnTheSecond(first, o) && OnTheSecond(second, o) ==> second.mono - first.mono <= TTL)
  {
    var a, b := w.accepts[i], w.accepts[j];
    assert Logged(w.caches, b, j);
    IdentityBind.SignedBytesInjective(a.payload, b.payload);
    assert SoundAccept(c, honest, w.bound, a) && SoundAccept(c, honest, w.bound, b);
    SkewsMeet(a.now, b.now, a.payload.timestamp);
    CacheTurnover(c, w, i, j);
  }

  /**
   In every run, when the same signed payload is accepted twice on one cache, by whatever sessions, at most 60 s apart
   on the monotonic clock, at least `Capacity` other keys were accepted on that cache in between. The two readings are
   at most 60 s apart on the wall clock; so for clocks in step they are less than 61 s apart, and at most 60 s if they
   were taken on whole seconds.
   */
  lemma ReplayNeedsTurnover(
    c: Primitives, n: Noise, honest: set<Bytes32>, t0: Clock, steps: seq<Step>, i: nat, j: nat)
    requires IsRun(c, n, honest, Start(t0), steps)
    requires var accepts := After(c, n, honest, Start(t0), steps).accepts;
             && i < j < |accepts| && accepts[i].cache == accepts[j].cache
             && SignaturePayload(accepts[i].payload) == SignaturePayload(accepts[j].payload)
    ensures var w := After(c, n, honest, Start(t0), steps);
            && ReplayIsBounded(c, w, i, j)
            && var first, second := w.accepts[i].now, w.accepts[j].now;
               && first.mono <= second.mono
               && -2 * TIMESTAMP_SKEW_SECS <= second.wall - first.wall <= 2 * TIMESTAMP_SKEW_SECS
               && (forall o :: InStep(first, o) && InStep(second, o) ==> second.mono - first.mono < 61 * SECOND)
               && (forall o :: OnTheSecond(first, o) && OnTheSecond(second, o) ==> second.mono - first.mono <= TTL)
  {
    StartInv(c, honest, t0);
    RunKeepsInv(c, n, honest, Start(t0), steps);
    AcceptedTwice(c, honest, After(c, n, honest, Start(t0), steps), i, j);
  }

  /** Two live sessions never rest on one accept, so the bound holds between any two transports on one cache. */
  lemma TransportsRestOnDifferentAccepts(
    c: Primitives, n: Noise, honest: set<Bytes32>, t0: Clock, steps: seq<Step>, a: nat, b: nat)
    requires IsRun(c, n, honest, Start(t0), steps)
    requires var w := After(c, n, honest, Start(t0), steps);
             && a in w.members && b in w.members && a != b
             && w.members[a].transport.Some? && w.members[b].transport.Some?
    ensures var w := After(c, n, honest, Start(t0), steps);
            w.members[a].accept.Some? && w.members[b].accept.Some? && w.members[a].accept != w.members[b].accept
  {
    StartInv(c, honest, t0);
    RunKeepsInv(c, n, honest, Start(t0), steps);
    var w := After(c, n, honest, Start(t0), steps);
    assert SoundMember(c, w.accepts, w.members[a]) && SoundMember(c, w.accepts, w.members[b]);
  }

  /**
   In every run, a delivery is accepted exactly when Noise and the parser let it through, it verifies, and its key is
   not in the window of the accepts on the session's own cache. Accepts on other caches do not count.
   */
  lemma AcceptedIffUnseenOnOwnCache(
    c: Primitives, n: Noise, honest: set<Bytes32>, t0: Clock, steps: seq<Step>, id: nat, message: Bytes)
    requires IsRun(c, n, honest, Start(t0), steps)
    requires Ready(After(c, n, honest, Start(t0), steps), Receive(id, message))
    ensures var w := After(c, n, honest, Start(t0), steps);
            var m := w.members[id];
            var kept, d := w.caches[m.cache], Delivered(n, m.session, message);
            && m.session.remoteFingerprint.Some?
            && LogsComplete(w.accepts, w.caches) && LogSound(w.accepts, kept.log, m.cache)
            && var fp := m.session.remoteFingerprint.value;
               |Received(c, n, w, id, message).accepts| > |w.accepts| <==>
               && d.Some? && Verify(c, d.value, fp, w.now.wall).Ok?
               && var v := Verify(c, d.value, fp, w.now.wall).value;
                  var own := EntriesAt(c, w.accepts, kept.log);
                  !SeenInWindow(own, KeyOf(v), w.now.mono, Capacity(kept.cache.maxEntries))
  {
    StartInv(c, honest, t0);
    RunKeepsInv(c, n, honest, Start(t0), steps);
    var w := After(c, n, honest, Start(t0), steps);
    var m := w.members[id];
    var kept := w.caches[m.cache];
    assert SoundMember(c, w.accepts, m) && KeptSound(c, kept, w.accepts, m.cache, w.now.mono);
    ReceiveIsVerify(c, n, m.session, kept.cache, message, w.now);
    var d := Delivered(n, m.session, message);
    if d.Some? && Verify(c, d.value, m.session.remoteFingerprint.value, w.now.wall).Ok? {
      var v := Verify(c, d.value, m.session.remoteFingerprint.value, w.now.wall).value;
      CallKeepsCacheSound(kept.cache, EntriesAt(c, w.accepts, kept.log), KeyOf(v), w.now.mono);
    }
  }

  /** So a session on a cache with no accepts takes every delivery that verifies, whatever was accepted elsewhere. */
  lemma NewCacheTakesWhatVerifies(
    c: Primitives, n: Noise, honest: set<Bytes32>, t0: Clock, steps: seq<Step>, id: nat, message: Bytes)
    requires IsRun(c, n, honest, Start(t0), steps)
    requires var w := After(c, n, honest, Start(t0), steps);
             && Ready(w, Receive(id, message))
             && forall i :: 0 <= i < |w.accepts| ==> w.accepts[i].cache != w.members[id].cache
    ensures var w := After(c, n, honest, Start(t0), steps);
            var m := w.members[id];
            var d := Delivered(n, m.session, message);
            && m.session.remoteFingerprint.Some?
            && (|Received(c, n, w, id, message).accepts| > |w.accepts| <==>
                d.Some? && Verify(c, d.value, m.session.remoteFingerprint.value, w.now.wall).Ok?)
  {
    AcceptedIffUnseenOnOwnCache(c, n, honest, t0, steps, id, message);
    var w := After(c, n, honest, Start(t0), steps);
    var log := w.caches[w.members[id].cache].log;
    if |log| > 0 {
      assert LogSound(w.accepts, log, w.members[id].cache) && log[0] < |w.accepts|;
    }
  }
}
