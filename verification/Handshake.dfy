/**
 The identity-bound Noise KK handshake: two messages, each carrying a signed payload, checked
 against the expected fingerprint and the shared replay cache.

 Noise is a pair of functions over an abstract handshake state (section 7.5 of the Noise Protocol
 Framework, revision 34, gives the KK pattern: two messages, initiator first).
 */
module Handshake {
  import opened Bytes
  import opened Crypto
  import opened IdentityBind
  import opened ReplayCache
  import Framing

  const MAX_HANDSHAKE_MSG_SIZE: nat := 4096
  const HANDSHAKE_MESSAGES: nat := 2
  const OWN_CACHE_ENTRIES: nat := 10000
  const MESSAGE_OVERHEAD: nat := 48   // an ephemeral key and an authentication tag

  /**
   The two clocks that a check reads: the wall clock, in the whole seconds of payload timestamps, and the monotonic
   clock of the replay cache, in nanoseconds. Nothing relates them.
   */
  datatype Clock = Clock(wall: i64, mono: int)

  datatype NoiseState = NoiseState(
    initiator: bool,
    localSecret: Bytes32,
    remotePublic: Bytes32,
    ephemeral: Bytes32,
    transcript: seq<Bytes>)
  {
    predicate Finished() { |transcript| >= HANDSHAKE_MESSAGES }
    predicate MyTurn() { !Finished() && (initiator <==> |transcript| % 2 == 0) }
    predicate PeerTurn() { !Finished() && (initiator <==> |transcript| % 2 == 1) }
  }

  /** The encryption inside handshake messages. */
  datatype Noise = Noise(
    seal: (NoiseState, Bytes) -> Bytes,
    open: (NoiseState, Bytes) -> Option<Bytes>)

  /**
   The two ends of one handshake: opposite roles, each other's static keys, the same messages so far, of which the
   first, if there is one, was sealed by the initiator's own state.
   */
  ghost predicate Paired(c: Primitives, n: Noise, a: NoiseState, b: NoiseState) {
    && a.initiator != b.initiator
    && a.remotePublic == c.xPublic(b.localSecret)
    && b.remotePublic == c.xPublic(a.localSecret)
    && a.transcript == b.transcript
    && (a.transcript != [] ==> SealedBy(n, if a.initiator then a else b, a.transcript[0]))
  }

  /** `message` is the first message of the initiator `i`. */
  ghost predicate SealedBy(n: Noise, i: NoiseState, message: Bytes) {
    exists payload: Bytes :: message == n.seal(i.(transcript := []), payload)
  }

  /** What Noise promises to paired ends. */
  ghost predicate NoiseDelivers(c: Primitives, n: Noise) {
    forall a: NoiseState, b: NoiseState, payload: Bytes ::
      Paired(c, n, a, b) && a.MyTurn() ==>
        && n.open(b, n.seal(a, payload)) == Some(payload)
        && |n.seal(a, payload)| == |payload| + MESSAGE_OVERHEAD
  }

  /** The promises are consistent: a transparent encryption and any keys satisfy them. */
  lemma PromisesHaveAModel() returns (c: Primitives, n: Noise)
    ensures SignaturesVerify(c) && NoiseDelivers(c, n)
  {
    c := Primitives(
      (ed: Bytes32, x: Bytes32) => ed[..20],
      (sk: Bytes32) => sk,
      (sk: Bytes32) => sk,
      (sk: Bytes32, m: Bytes) => sk + sk,
      (pk: Bytes32, m: Bytes, sig: Bytes64) => sig == pk + pk);
    var padding: Bytes := seq(MESSAGE_OVERHEAD, _ => 0);
    n := Noise(
      (s: NoiseState, payload: Bytes) => padding + payload,
      (s: NoiseState, m: Bytes) => if |m| >= MESSAGE_OVERHEAD then Some(m[MESSAGE_OVERHEAD..]) else None);
    forall a: NoiseState, b: NoiseState, payload: Bytes
      ensures n.open(b, n.seal(a, payload)) == Some(payload) && |n.seal(a, payload)| == |payload| + MESSAGE_OVERHEAD
    {
      assert (padding + payload)[MESSAGE_OVERHEAD..] == payload;
    }
  }

  datatype Session = Session(
    noise: NoiseState,
    ours: IdentityKeys,
    remoteFingerprint: Option<Bytes20>,
    verifiedRemote: Option<VerifiedIdentity>)

  /** A session at its start. */
  function NewSession(
    ours: IdentityKeys, initiator: bool, remoteFingerprint: Bytes20, remoteX: Bytes32, ephemeral: Bytes32): Session
  {
    Session(NoiseState(initiator, ours.xSecret, remoteX, ephemeral, []), ours, Some(remoteFingerprint), None)
  }

  function Advance(s: Session, message: Bytes): Session {
    s.(noise := s.noise.(transcript := s.noise.transcript + [message]))
  }

  function ReadMessage(n: Noise, s: Session, input: Bytes): Result<(Session, Bytes), SecurityError> {
    if |input| > MAX_HANDSHAKE_MSG_SIZE || !s.noise.PeerTurn() then Err(HandshakeFailed) else
      match n.open(s.noise, input)
      case None => Err(HandshakeFailed)
      case Some(payload) => Ok((Advance(s, input), payload))
  }

  function WriteMessage(n: Noise, s: Session, payload: Bytes): Result<(Session, Bytes), SecurityError> {
    if !s.noise.MyTurn() then Err(HandshakeFailed) else
      var message := n.seal(s.noise, payload);
      if |message| > MAX_HANDSHAKE_MSG_SIZE then Err(HandshakeFailed) else Ok((Advance(s, message), message))
  }

  function KeyOf(v: VerifiedIdentity): Key {
    Key(v.fingerprint, v.nonce)
  }

  /** Parse, verify, then consult the replay cache; only a verified payload touches the cache. */
  function VerifyIdentityPayload(c: Primitives, s: Session, cache: Cache, bytes: Bytes, now: Clock)
    : (Cache, Result<VerifiedIdentity, SecurityError>)
  {
    match FromBytes(bytes)
    case Err(e) => (cache, Err(IdentityBindingFailed))
    case Ok(payload) =>
      if s.remoteFingerprint.None? then (cache, Err(Internal)) else
        match Verify(c, payload, s.remoteFingerprint.value, now.wall)
        case Err(e) => (cache, Err(e))
        case Ok(v) =>
          var (cache', isNew) := CheckStep(cache, KeyOf(v), now.mono);
          (cache', if isNew then Ok(v) else Err(ReplayDetected))
  }

  /** The Noise state of an established transport. */
  function IntoTransport(s: Session): Result<NoiseState, SecurityError> {
    if !s.noise.Finished() then Err(HandshakeFailed)
    else if s.verifiedRemote.None? then Err(IdentityBindingFailed)
    else Ok(s.noise)
  }

  /** Sending our payload: the initiator's first step and the responder's reply. */
  function SendIdentity(
    c: Primitives, n: Noise, s: Session, timestamp: i64, nonce: Bytes12): Result<(Session, Bytes), SecurityError>
  {
    WriteMessage(n, s, ToBytes(Create(c, s.ours, timestamp, nonce)))
  }

  /** Receiving the peer's payload: read, verify, remember who it is. */
  function ReceiveIdentity(c: Primitives, n: Noise, s: Session, cache: Cache, message: Bytes, now: Clock)
    : (Cache, Result<Session, SecurityError>)
  {
    match ReadMessage(n, s, message)
    case Err(e) => (cache, Err(e))
    case Ok((s1, payload)) =>
      var (cache', r) := VerifyIdentityPayload(c, s1, cache, payload, now);
      match r
      case Err(e) => (cache', Err(e))
      case Ok(v) => (cache', Ok(s1.(verifiedRemote := Some(v))))
  }

  /** `recv_message`: one length-prefixed message from the head of the stream. */
  function RecvMessage(input: Bytes): Result<Bytes, SecurityError> {
    match Framing.DecodeOnce(input, MAX_HANDSHAKE_MSG_SIZE).0
    case Ok(message) => Ok(message)
    case Err(_) => Err(HandshakeFailed)
  }

  /** An established session: its transport, and who is at the other end. */
  datatype Outcome = Outcome(transport: NoiseState, peer: VerifiedIdentity)

  function Conclude(s: Session): Result<Outcome, SecurityError> {
    match IntoTransport(s)
    case Err(e) => Err(e)
    case Ok(t) => Ok(Outcome(t, s.verifiedRemote.value))
  }

  /** What goes out of a frame when the stream takes `room` bytes, and whether all of it did. */
  function Transmit(message: Bytes, room: nat): (Bytes, bool) {
    var frame := Framing.Frame(message);
    if |frame| <= room then (frame, true) else (frame[..room], false)
  }

  /**
   `perform_initiator_handshake`: the cache afterwards, the bytes sent, and the result, for the bytes that come in and
   the `room` there is to send.
   */
  function Initiate(
    c: Primitives, n: Noise, s: Session, cache: Cache,
    input: Bytes, room: nat, timestamp: i64, nonce: Bytes12, now: Clock)
    : (Cache, Bytes, Result<Outcome, SecurityError>)
  {
    match SendIdentity(c, n, s, timestamp, nonce)
    case Err(e) => (cache, [], Err(e))
    case Ok((s1, msg1)) =>
      var (sent, whole) := Transmit(msg1, room);
      if !whole then (cache, sent, Err(HandshakeFailed)) else
        match RecvMessage(input)
        case Err(e) => (cache, sent, Err(e))
        case Ok(msg2) =>
          match ReceiveIdentity(c, n, s1, cache, msg2, now)
          case (cache', Err(e)) => (cache', sent, Err(e))
          case (cache', Ok(s2)) => (cache', sent, Conclude(s2))
  }

  /** `perform_responder_handshake`. */
  function Respond(
    c: Primitives, n: Noise, s: Session, cache: Cache,
    input: Bytes, room: nat, timestamp: i64, nonce: Bytes12, now: Clock)
    : (Cache, Bytes, Result<Outcome, SecurityError>)
  {
    match RecvMessage(input)
    case Err(e) => (cache, [], Err(e))
    case Ok(msg1) =>
      match ReceiveIdentity(c, n, s, cache, msg1, now)
      case (cache', Err(e)) => (cache', [], Err(e))
      case (cache', Ok(s1)) =>
        match SendIdentity(c, n, s1, timestamp, nonce)
        case Err(e) => (cache', [], Err(e))
        case Ok((s2, msg2)) =>
          var (sent, whole) := Transmit(msg2, room);
          (cache', sent, if whole then Conclude(s2) else Err(HandshakeFailed))
  }

  /** The handshake object; its cache may be shared with other handshakes. */
  class NoiseHandshake {
    var state: NoiseState
    const ourIdentity: IdentityKeys
    const remoteFingerprint: Option<Bytes20>
    var verifiedRemote: Option<VerifiedIdentity>
    const nonceCache: NonceCache

    ghost function Model(): Session
      reads this
    {
      Session(state, ourIdentity, remoteFingerprint, verifiedRemote)
    }

    /** `new_initiator_with_cache` and `new_responder_with_cache`: on a cache shared with others. */
    constructor (
      ours: IdentityKeys, initiator: bool, fingerprint: Bytes20, remoteX: Bytes32, ephemeral: Bytes32,
      cache: NonceCache)
      ensures Model() == NewSession(ours, initiator, fingerprint, remoteX, ephemeral) && nonceCache == cache
    {
      state := NoiseState(initiator, ours.xSecret, remoteX, ephemeral, []);
      ourIdentity, remoteFingerprint, verifiedRemote, nonceCache := ours, Some(fingerprint), None, cache;
    }

    /** `new_initiator` and `new_responder`: on a new cache of its own. */
    constructor WithOwnCache(
      ours: IdentityKeys, initiator: bool, fingerprint: Bytes20, remoteX: Bytes32, ephemeral: Bytes32)
      ensures Model() == NewSession(ours, initiator, fingerprint, remoteX, ephemeral)
      ensures fresh(nonceCache) && nonceCache.Model() == NewCache(OWN_CACHE_ENTRIES)
    {
      state := NoiseState(initiator, ours.xSecret, remoteX, ephemeral, []);
      var cache := new NonceCache(OWN_CACHE_ENTRIES);
      ourIdentity, remoteFingerprint, verifiedRemote, nonceCache := ours, Some(fingerprint), None, cache;
    }

    method Read(n: Noise, input: Bytes) returns (r: Result<Bytes, SecurityError>)
      modifies this
      ensures match ReadMessage(n, old(Model()), input)
              case Ok((s, payload)) => Model() == s && r == Ok(payload)
              case Err(e) => Model() == old(Model()) && r == Err(e)
    {
      if |input| > MAX_HANDSHAKE_MSG_SIZE || !state.PeerTurn() {
        return Err(HandshakeFailed);
      }
      var payload := n.open(state, input);
      if payload.None? {
        return Err(HandshakeFailed);
      }
      state := state.(transcript := state.transcript + [input]);
      return Ok(payload.value);
    }

    method Write(n: Noise, payload: Bytes) returns (r: Result<Bytes, SecurityError>)
      modifies this
      ensures match WriteMessage(n, old(Model()), payload)
              case Ok((s, message)) => Model() == s && r == Ok(message)
              case Err(e) => Model() == old(Model()) && r == Err(e)
    {
      if !state.MyTurn() {
        return Err(HandshakeFailed);
      }
      var message := n.seal(state, payload);
      if |message| > MAX_HANDSHAKE_MSG_SIZE {
        return Err(HandshakeFailed);
      }
      state := state.(transcript := state.transcript + [message]);
      return Ok(message);
    }

    method VerifyPayload(c: Primitives, bytes: Bytes, now: Clock) returns (r: Result<VerifiedIdentity, SecurityError>)
      modifies nonceCache
      ensures (nonceCache.Model(), r) ==
              VerifyIdentityPayload(c, old(Model()), old(nonceCache.Model()), bytes, now)
    {
      var parsed := FromBytes(bytes);
      if parsed.Err? {
        return Err(IdentityBindingFailed);
      }
      if remoteFingerprint.None? {
        return Err(Internal);
      }
      r := Verify(c, parsed.value, remoteFingerprint.value, now.wall);
      if r.Ok? {
        var isNew := nonceCache.CheckAndInsert(KeyOf(r.value), now.mono);
        if !isNew {
          r := Err(ReplayDetected);
        }
      }
    }

    /** The receiving half of either role. */
    method Receive(
      c: Primitives, n: Noise, message: Bytes, now: Clock) returns (r: Result<VerifiedIdentity, SecurityError>)
      modifies this, nonceCache
      ensures var (cache, s) := ReceiveIdentity(c, n, old(Model()), old(nonceCache.Model()), message, now);
              && nonceCache.Model() == cache
              && (s.Ok? ==> Model() == s.value && r.Ok? && Some(r.value) == s.value.verifiedRemote)
              && (s.Err? ==> r == Err(s.error) && verifiedRemote == old(verifiedRemote))
    {
      var payload := Read(n, message);
      if payload.Err? {
        return Err(payload.error);
      }
      r := VerifyPayload(c, payload.value, now);
      if r.Ok? {
        verifiedRemote := Some(r.value);
      }
    }

    /** The sending half of either role. */
    method Send(c: Primitives, n: Noise, timestamp: i64, nonce: Bytes12) returns (r: Result<Bytes, SecurityError>)
      modifies this
      ensures match SendIdentity(c, n, old(Model()), timestamp, nonce)
              case Ok((s, message)) => Model() == s && r == Ok(message)
              case Err(e) => Model() == old(Model()) && r == Err(e)
    {
      var buffer := WriteBytes(Create(c, ourIdentity, timestamp, nonce));
      r := Write(n, buffer[..]);
    }

    method Finish() returns (r: Result<Outcome, SecurityError>)
      ensures r == Conclude(Model())
    {
      if !state.Finished() {
        return Err(HandshakeFailed);
      }
      if verifiedRemote.None? {
        return Err(IdentityBindingFailed);
      }
      return Ok(Outcome(state, verifiedRemote.value));
    }

    method PerformInitiator(
      c: Primitives, n: Noise, stream: Framing.ByteStream, room: nat, timestamp: i64, nonce: Bytes12, now: Clock)
      returns (sent: Bytes, r: Result<Outcome, SecurityError>)
      requires stream.Valid()
      modifies this, nonceCache, stream
      ensures var input := old(stream.Remaining());
              (nonceCache.Model(), sent, r) ==
              Initiate(c, n, old(Model()), old(nonceCache.Model()), input, room, timestamp, nonce, now)
    {
      sent := [];
      var msg1 := Send(c, n, timestamp, nonce);
      if msg1.Err? {
        r := Err(msg1.error);
        return;
      }
      var out := Transmit(msg1.value, room);
      sent := out.0;
      if !out.1 {
        r := Err(HandshakeFailed);
        return;
      }
      var msg2 := Framing.Decode(stream, MAX_HANDSHAKE_MSG_SIZE);
      if msg2.Err? {
        r := Err(HandshakeFailed);
        return;
      }
      var verified := Receive(c, n, msg2.value, now);
      if verified.Err? {
        r := Err(verified.error);
        return;
      }
      r := Finish();
    }

    method PerformResponder(
      c: Primitives, n: Noise, stream: Framing.ByteStream, room: nat, timestamp: i64, nonce: Bytes12, now: Clock)
      returns (sent: Bytes, r: Result<Outcome, SecurityError>)
      requires stream.Valid()
      modifies this, nonceCache, stream
      ensures var input := old(stream.Remaining());
              (nonceCache.Model(), sent, r) ==
              Respond(c, n, old(Model()), old(nonceCache.Model()), input, room, timestamp, nonce, now)
    {
      sent := [];
      var msg1 := Framing.Decode(stream, MAX_HANDSHAKE_MSG_SIZE);
      if msg1.Err? {
        r := Err(HandshakeFailed);
        return;
      }
      var verified := Receive(c, n, msg1.value, now);
      if verified.Err? {
        r := Err(verified.error);
        return;
      }
      var msg2 := Send(c, n, timestamp, nonce);
      if msg2.Err? {
        r := Err(msg2.error);
        return;
      }
      var out := Transmit(msg2.value, room);
      sent := out.0;
      if !out.1 {
        r := Err(HandshakeFailed);
        return;
      }
      r := Finish();
    }
  }

  // ---------------------------------------------------------------------------------------
  // Completion between honest ends.

  ghost predicate NeverUsed(log: seq<Entry>, key: Key) {
    forall n :: 0 <= n < |log| ==> log[n].key != key
  }

  predicate Near(timestamp: i64, now: Clock) {
    ClockInRange(now.wall) && -TIMESTAMP_SKEW_SECS <= timestamp - now.wall <= TIMESTAMP_SKEW_SECS
  }

  /** A handshake message survives its length-prefixed trip over the stream. */
  lemma MessageCrossesStream(message: Bytes)
    requires |message| <= MAX_HANDSHAKE_MSG_SIZE
    ensures RecvMessage(Framing.Frame(message)) == Ok(message)
  {
    Framing.DecodeFrame(message, [], MAX_HANDSHAKE_MSG_SIZE);
    assert Framing.Frame(message) + [] == Framing.Frame(message);
  }

  /** A session that took in `message` and knows `peer` at the other end. */
  ghost function Knowing(
    c: Primitives, s: Session, message: Bytes, peer: IdentityKeys, timestamp: i64, nonce: Bytes12): Session
  {
    var v := VerifiedIdentity(peer.EdPublic(c), peer.XPublic(c), peer.Fingerprint(c), timestamp, nonce);
    Advance(s, message).(verifiedRemote := Some(v))
  }

  /** One direction: what the sender wrote, a paired receiver with a near clock accepts. */
  lemma HonestDelivery(
    c: Primitives, n: Noise, sender: Session, receiver: Session, timestamp: i64, nonce: Bytes12,
    cache: Cache, log: seq<Entry>, before: int, now: Clock)
    returns (message: Bytes, cache': Cache)
    requires SignaturesVerify(c) && NoiseDelivers(c, n)
    requires Paired(c, n, sender.noise, receiver.noise) && sender.noise.MyTurn()
    requires receiver.remoteFingerprint == Some(sender.ours.Fingerprint(c))
    requires Near(timestamp, now)
    requires Agrees(cache, log, before) && before <= now.mono
    requires NeverUsed(log, Key(sender.ours.Fingerprint(c), nonce))
    ensures SendIdentity(c, n, sender, timestamp, nonce) == Ok((Advance(sender, message), message))
    ensures |message| == PAYLOAD_LEN + MESSAGE_OVERHEAD <= MAX_HANDSHAKE_MSG_SIZE
    ensures sender.noise.transcript == [] ==> SealedBy(n, sender.noise, message)
    ensures ReceiveIdentity(c, n, receiver, cache, message, now) ==
            (cache', Ok(Knowing(c, receiver, message, sender.ours, timestamp, nonce)))
    ensures Agrees(cache', log + [Entry(Key(sender.ours.Fingerprint(c), nonce), now.mono)], now.mono)
  {
    var p, key := Create(c, sender.ours, timestamp, nonce), Key(sender.ours.Fingerprint(c), nonce);
    message, cache' := n.seal(sender.noise, ToBytes(p)), CheckStep(cache, key, now.mono).0;
    assert n.open(receiver.noise, message) == Some(ToBytes(p));
    assert sender.noise.transcript == [] ==> sender.noise.(transcript := []) == sender.noise;
    ParseSerialized(p);
    CreatedVerifies(c, sender.ours, timestamp, nonce, sender.ours.Fingerprint(c), now.wall);
    CallRefinesLog(cache, log, before, key, now.mono);
  }

  /** What one end knows when it is done: both messages went through, and `peer` is at the other end. */
  ghost predicate Established(c: Primitives, r: Result<Outcome, SecurityError>, peer: IdentityKeys) {
    && r.Ok?
    && |r.value.transport.transcript| == HANDSHAKE_MESSAGES
    && r.value.peer.fingerprint == peer.Fingerprint(c)
    && r.value.peer.ed25519Public == peer.EdPublic(c)
    && r.value.peer.x25519Public == peer.XPublic(c)
  }

  /** A responder that accepts the message it is given and can reply, given that message in a frame. */
  lemma ResponderRuns(
    c: Primitives, n: Noise, s: Session, cache: Cache,
    msg1: Bytes, room: nat, timestamp: i64, nonce: Bytes12, now: Clock,
    cache': Cache, s1: Session, s2: Session, msg2: Bytes)
    requires |msg1| <= MAX_HANDSHAKE_MSG_SIZE && 4 + |msg2| <= room
    requires ReceiveIdentity(c, n, s, cache, msg1, now) == (cache', Ok(s1))
    requires SendIdentity(c, n, s1, timestamp, nonce) == Ok((s2, msg2))
    ensures Respond(c, n, s, cache, Framing.Frame(msg1), room, timestamp, nonce, now) ==
            (cache', Framing.Frame(msg2), Conclude(s2))
  {
    MessageCrossesStream(msg1);
  }

  /** An initiator that can speak and accepts the reply, given that reply in a frame. */
  lemma InitiatorRuns(
    c: Primitives, n: Noise, s: Session, cache: Cache,
    msg2: Bytes, room: nat, timestamp: i64, nonce: Bytes12, now: Clock,
    cache': Cache, s1: Session, s2: Session, msg1: Bytes)
    requires |msg2| <= MAX_HANDSHAKE_MSG_SIZE && 4 + |msg1| <= room
    requires SendIdentity(c, n, s, timestamp, nonce) == Ok((s1, msg1))
    requires ReceiveIdentity(c, n, s1, cache, msg2, now) == (cache', Ok(s2))
    ensures Initiate(c, n, s, cache, Framing.Frame(msg2), room, timestamp, nonce, now) ==
            (cache', Framing.Frame(msg1), Conclude(s2))
  {
    MessageCrossesStream(msg2);
  }

  /** One side's inputs to a handshake: its clock readings, its payload's stamp and nonce, and its room to send. */
  datatype Side = Side(timestamp: i64, nonce: Bytes12, now: Clock, room: nat)

  const HANDSHAKE_FRAME: nat := 4 + PAYLOAD_LEN + MESSAGE_OVERHEAD

  /** Both messages of an honest exchange, for whatever cache the initiator checks the reply against. */
  lemma HonestReply(
    c: Primitives, n: Noise, a0: Session, b0: Session, a: Side, b: Side,
    cacheB: Cache, cacheB': Cache, msg1: Bytes, cacheA: Cache, logA: seq<Entry>, before: int)
    returns (msg2: Bytes)
    requires SignaturesVerify(c) && NoiseDelivers(c, n) && Near(b.timestamp, a.now)
    requires Paired(c, n, a0.noise, b0.noise) && a0.noise.initiator && a0.noise.transcript == []
    requires a0.remoteFingerprint == Some(b0.ours.Fingerprint(c))
    requires SendIdentity(c, n, a0, a.timestamp, a.nonce) == Ok((Advance(a0, msg1), msg1))
    requires 4 + |msg1| == HANDSHAKE_FRAME <= a.room && HANDSHAKE_FRAME <= b.room && SealedBy(n, a0.noise, msg1)
    requires ReceiveIdentity(c, n, b0, cacheB, msg1, b.now) ==
             (cacheB', Ok(Knowing(c, b0, msg1, a0.ours, a.timestamp, a.nonce)))
    requires Agrees(cacheA, logA, before) && before <= a.now.mono
    requires NeverUsed(logA, Key(b0.ours.Fingerprint(c), b.nonce))
    ensures |msg2| == PAYLOAD_LEN + MESSAGE_OVERHEAD
    ensures var b2 := Advance(Knowing(c, b0, msg1, a0.ours, a.timestamp, a.nonce), msg2);
            Respond(c, n, b0, cacheB, Framing.Frame(msg1), b.room, b.timestamp, b.nonce, b.now) ==
            (cacheB', Framing.Frame(msg2), Conclude(b2))
    ensures var a2 := Knowing(c, Advance(a0, msg1), msg2, b0.ours, b.timestamp, b.nonce);
            var (_, out, r) := Initiate(c, n, a0, cacheA, Framing.Frame(msg2), a.room, a.timestamp, a.nonce, a.now);
            out == Framing.Frame(msg1) && r == Conclude(a2)
  {
    var a1, b1 := Advance(a0, msg1), Knowing(c, b0, msg1, a0.ours, a.timestamp, a.nonce);
    assert a1.noise.(transcript := []) == a0.noise;
    assert SealedBy(n, a1.noise, msg1);
    assert Paired(c, n, b1.noise, a1.noise);
    var cacheA2: Cache;
    msg2, cacheA2 := HonestDelivery(c, n, b1, a1, b.timestamp, b.nonce, cacheA, logA, before, a.now);
    ResponderRuns(c, n, b0, cacheB, msg1, b.room, b.timestamp, b.nonce, b.now, cacheB', b1, Advance(b1, msg2), msg2);
    var a2 := Knowing(c, a1, msg2, b0.ours, b.timestamp, b.nonce);
    InitiatorRuns(c, n, a0, cacheA, msg2, a.room, a.timestamp, a.nonce, a.now, cacheA2, a1, a2, msg1);
  }

  lemma BothConclude(
    c: Primitives, n: Noise, a0: Session, b0: Session, a: Side, b: Side, msg1: Bytes, msg2: Bytes)
    requires Paired(c, n, a0.noise, b0.noise) && a0.noise.initiator && a0.noise.transcript == []
    requires SealedBy(n, a0.noise, msg1)
    ensures var rA := Conclude(Knowing(c, Advance(a0, msg1), msg2, b0.ours, b.timestamp, b.nonce));
            var rB := Conclude(Advance(Knowing(c, b0, msg1, a0.ours, a.timestamp, a.nonce), msg2));
            && Established(c, rA, b0.ours) && Established(c, rB, a0.ours)
            && Paired(c, n, rA.value.transport, rB.value.transport)
  {
    var a2 := Advance(Advance(a0, msg1), msg2);
    assert a2.noise.(transcript := []) == a0.noise && a2.noise.transcript == [msg1, msg2];
    assert SealedBy(n, a2.noise, msg1);
  }

  /**
   Two honest ends that expect each other, with clocks within the skew of each other's payloads and unused nonces,
   joined by an undisturbed stream: what each sends, given to the other, brings both to transport after exactly two
   messages, on the same transcript, each knowing the other's keys. `shared` says whether they use one cache or one
   each.
   */
  lemma HonestHandshakeCompletes(
    c: Primitives, n: Noise, alice: IdentityKeys, bob: IdentityKeys, ephA: Bytes32, ephB: Bytes32, a: Side, b: Side,
    cacheA: Cache, logA: seq<Entry>, cacheB: Cache, logB: seq<Entry>, before: int, shared: bool)
    returns (sentA: Bytes, sentB: Bytes)
    requires SignaturesVerify(c) && NoiseDelivers(c, n)
    requires Near(a.timestamp, b.now) && Near(b.timestamp, a.now)
    requires HANDSHAKE_FRAME <= a.room && HANDSHAKE_FRAME <= b.room
    requires Agrees(cacheA, logA, before) && Agrees(cacheB, logB, before)
    requires before <= a.now.mono && before <= b.now.mono
    requires shared ==> cacheA == cacheB && logA == logB && b.now.mono <= a.now.mono
    requires NeverUsed(logB, Key(alice.Fingerprint(c), a.nonce)) && NeverUsed(logA, Key(bob.Fingerprint(c), b.nonce))
    requires shared ==> Key(alice.Fingerprint(c), a.nonce) != Key(bob.Fingerprint(c), b.nonce)
    ensures
      var a0 := NewSession(alice, true, bob.Fingerprint(c), bob.XPublic(c), ephA);
      var b0 := NewSession(bob, false, alice.Fingerprint(c), alice.XPublic(c), ephB);
      var (cacheB', outB, rB) := Respond(c, n, b0, cacheB, sentA, b.room, b.timestamp, b.nonce, b.now);
      var checked := if shared then cacheB' else cacheA;
      var (_, outA, rA) := Initiate(c, n, a0, checked, sentB, a.room, a.timestamp, a.nonce, a.now);
      && outA == sentA && outB == sentB
      && |sentA| == |sentB| == HANDSHAKE_FRAME <= 4 + MAX_HANDSHAKE_MSG_SIZE
      && Established(c, rA, bob) && Established(c, rB, alice)
      && Paired(c, n, rA.value.transport, rB.value.transport)
  {
    var a0 := NewSession(alice, true, bob.Fingerprint(c), bob.XPublic(c), ephA);
    var b0 := NewSession(bob, false, alice.Fingerprint(c), alice.XPublic(c), ephB);
    var msg1, cacheB' := HonestDelivery(c, n, a0, b0, a.timestamp, a.nonce, cacheB, logB, before, b.now);
    var logB' := logB + [Entry(Key(alice.Fingerprint(c), a.nonce), b.now.mono)];
    var msg2: Bytes;
    if shared {
      msg2 := HonestReply(c, n, a0, b0, a, b, cacheB, cacheB', msg1, cacheB', logB', b.now.mono);
    } else {
      msg2 := HonestReply(c, n, a0, b0, a, b, cacheB, cacheB', msg1, cacheA, logA, before);
    }
    sentA, sentB := Framing.Frame(msg1), Framing.Frame(msg2);
    BothConclude(c, n, a0, b0, a, b, msg1, msg2);
  }

  /**
   The handshake does not compare the Noise key it was built with to the key in the payload: a responder that was given
   the key of `other` for Alice's fingerprint accepts, from whoever holds that key, a payload that Alice created. Its
   transport is then keyed to `other` while its verified peer is Alice.
   */
  lemma MismatchedKeyGoesUnnoticed(
    c: Primitives, n: Noise, alice: IdentityKeys, bob: IdentityKeys, other: Bytes32, ephA: Bytes32, ephB: Bytes32,
    a: Side, b: Side, cache: Cache, log: seq<Entry>, before: int)
    returns (input: Bytes)
    requires SignaturesVerify(c) && NoiseDelivers(c, n)
    requires Near(a.timestamp, b.now) && HANDSHAKE_FRAME <= b.room
    requires Agrees(cache, log, before) && before <= b.now.mono && NeverUsed(log, Key(alice.Fingerprint(c), a.nonce))
    ensures var b0 := NewSession(bob, false, alice.Fingerprint(c), c.xPublic(other), ephB);
            var r := Respond(c, n, b0, cache, input, b.room, b.timestamp, b.nonce, b.now).2;
            && Established(c, r, alice)
            && r.value.transport.remotePublic == c.xPublic(other)
            && (r.value.transport.remotePublic == r.value.peer.x25519Public <==> c.xPublic(other) == alice.XPublic(c))
  {
    var b0 := NewSession(bob, false, alice.Fingerprint(c), c.xPublic(other), ephB);
    var a0 := Session(NoiseState(true, other, bob.XPublic(c), ephA, []), alice, None, None);
    var msg1, cache' := HonestDelivery(c, n, a0, b0, a.timestamp, a.nonce, cache, log, before, b.now);
    var a1, b1 := Advance(a0, msg1), Knowing(c, b0, msg1, alice, a.timestamp, a.nonce);
    assert a1.noise.(transcript := []) == a0.noise;
    assert SealedBy(n, a1.noise, msg1);
    assert Paired(c, n, b1.noise, a1.noise);
    var msg2 := n.seal(b1.noise, ToBytes(Create(c, bob, b.timestamp, b.nonce)));
    ResponderRuns(c, n, b0, cache, msg1, b.room, b.timestamp, b.nonce, b.now, cache', b1, Advance(b1, msg2), msg2);
    input := Framing.Frame(msg1);
  }
}
