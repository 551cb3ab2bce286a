/**
 What the two handshake functions answer on any input at all: a transport exactly when the peer's message came in,
 verified and was not a replay, and our own went out.
 */
module HandshakeAnswers {
  import opened Bytes
  import opened Crypto
  import opened IdentityBind
  import opened ReplayCache
  import opened Handshake
  import Framing

  /** `message` is the first framed message of the input, within the limit. */
  ghost predicate Comes(input: Bytes, message: Bytes) {
    |message| <= MAX_HANDSHAKE_MSG_SIZE && Framing.Frame(message) <= input
  }

  lemma ComesIff(input: Bytes, message: Bytes)
    ensures RecvMessage(input) == Ok(message) <==> Comes(input, message)
    ensures RecvMessage(input).Err? ==> RecvMessage(input) == Err(HandshakeFailed)
  {
    Framing.DecodeOnceMeans(input, MAX_HANDSHAKE_MSG_SIZE);
    var (r, rest) := Framing.DecodeOnce(input, MAX_HANDSHAKE_MSG_SIZE);
    if r == Ok(message) {
      assert Framing.StartsWith(input, message, rest);
    }
    if Comes(input, message) {
      assert Framing.StartsWith(input, message, input[|Framing.Frame(message)|..]);
    }
  }

  /** Reading and writing one message: exactly in turn, within 4096 bytes, and as Noise has it. */
  lemma MessageAnswers(n: Noise, s: Session, bytes: Bytes)
    ensures var ours := |s.noise.transcript| == (if s.noise.initiator then 0 else 1);
            var theirs := |s.noise.transcript| == (if s.noise.initiator then 1 else 0);
            var read, write, sealed := ReadMessage(n, s, bytes), WriteMessage(n, s, bytes), n.seal(s.noise, bytes);
            && (forall payload :: read == Ok((Advance(s, bytes), payload)) <==>
                  theirs && |bytes| <= 4096 && n.open(s.noise, bytes) == Some(payload))
            && (read.Ok? ==> read == Ok((Advance(s, bytes), read.value.1)))
            && (write == Ok((Advance(s, sealed), sealed)) <==> ours && |sealed| <= 4096)
            && (read.Err? ==> read == Err(HandshakeFailed))
            && (write.Ok? ==> write == Ok((Advance(s, sealed), sealed)))
            && (write.Err? ==> write == Err(HandshakeFailed))
            && (s.noise.Finished() <==> |s.noise.transcript| >= 2)
  {
  }

  /** Noise opens the message to a payload that verifies as `v`, whose key was not accepted in the window of the log. */
  ghost predicate Vouches(
    c: Primitives, n: Noise, noise: NoiseState, expected: Bytes20, message: Bytes, now: Clock,
    log: seq<Entry>, capacity: nat, v: VerifiedIdentity)
  {
    && (exists p :: n.open(noise, message) == Some(ToBytes(p)) && Verify(c, p, expected, now.wall) == Ok(v))
    && !SeenInWindow(log, Key(v.fingerprint, v.nonce), now.mono, capacity)
  }

  ghost predicate NobodyVouched(
    c: Primitives, n: Noise, noise: NoiseState, expected: Bytes20, message: Bytes, now: Clock,
    log: seq<Entry>, capacity: nat)
  {
    forall v :: !Vouches(c, n, noise, expected, message, now, log, capacity, v)
  }

  /** The peer's message came in and vouches for `v`. */
  ghost predicate Taken(
    c: Primitives, n: Noise, noise: NoiseState, expected: Bytes20, input: Bytes, now: Clock,
    log: seq<Entry>, capacity: nat, message: Bytes, v: VerifiedIdentity)
  {
    Comes(input, message) && Vouches(c, n, noise, expected, message, now, log, capacity, v)
  }

  /** Our message after those of `before`: our payload, sealed in our turn. */
  ghost function Ours(c: Primitives, n: Noise, s: Session, before: seq<Bytes>, timestamp: i64, nonce: Bytes12): Bytes {
    n.seal(s.noise.(transcript := before), ToBytes(Create(c, s.ours, timestamp, nonce)))
  }

  /** A receive succeeds exactly on a message that vouches for someone, and then knows who. */
  lemma ReceiveAnswers(
    c: Primitives, n: Noise, s: Session, cache: Cache, log: seq<Entry>, before: int, message: Bytes, now: Clock)
    requires Agrees(cache, log, before) && before <= now.mono
    requires s.noise.PeerTurn() && s.remoteFingerprint.Some? && |message| <= MAX_HANDSHAKE_MSG_SIZE
    ensures var (cache', r) := ReceiveIdentity(c, n, s, cache, message, now);
            var fp, capacity := s.remoteFingerprint.value, Capacity(cache.maxEntries);
            && (forall v :: Vouches(c, n, s.noise, fp, message, now, log, capacity, v) ==>
                  && r == Ok(Advance(s, message).(verifiedRemote := Some(v)))
                  && Agrees(cache', log + [Entry(KeyOf(v), now.mono)], now.mono))
            && (r.Ok? ==> exists v :: Vouches(c, n, s.noise, fp, message, now, log, capacity, v))
            && (r.Err? ==> cache' == cache || Agrees(cache', log, now.mono))
  {
    var fp, capacity := s.remoteFingerprint.value, Capacity(cache.maxEntries);
    forall v | Vouches(c, n, s.noise, fp, message, now, log, capacity, v)
      ensures var (cache', r) := ReceiveIdentity(c, n, s, cache, message, now);
              && r == Ok(Advance(s, message).(verifiedRemote := Some(v)))
              && Agrees(cache', log + [Entry(KeyOf(v), now.mono)], now.mono)
    {
      VouchedIsReceived(c, n, s, cache, log, before, message, now, v);
    }
    ReceivedWasVouched(c, n, s, cache, log, before, message, now);
  }

  lemma VouchedIsReceived(
    c: Primitives, n: Noise, s: Session, cache: Cache, log: seq<Entry>, before: int, message: Bytes, now: Clock,
    v: VerifiedIdentity)
    requires Agrees(cache, log, before) && before <= now.mono
    requires s.noise.PeerTurn() && s.remoteFingerprint.Some? && |message| <= MAX_HANDSHAKE_MSG_SIZE
    requires Vouches(c, n, s.noise, s.remoteFingerprint.value, message, now, log, Capacity(cache.maxEntries), v)
    ensures var (cache', r) := ReceiveIdentity(c, n, s, cache, message, now);
            && r == Ok(Advance(s, message).(verifiedRemote := Some(v)))
            && Agrees(cache', log + [Entry(KeyOf(v), now.mono)], now.mono)
  {
    var p :| n.open(s.noise, message) == Some(ToBytes(p)) && Verify(c, p, s.remoteFingerprint.value, now.wall) == Ok(v);
    ParseSerialized(p);
    CallRefinesLog(cache, log, before, KeyOf(v), now.mono);
  }

  lemma ReceivedWasVouched(
    c: Primitives, n: Noise, s: Session, cache: Cache, log: seq<Entry>, before: int, message: Bytes, now: Clock)
    requires Agrees(cache, log, before) && before <= now.mono
    requires s.noise.PeerTurn() && s.remoteFingerprint.Some? && |message| <= MAX_HANDSHAKE_MSG_SIZE
    ensures var (cache', r) := ReceiveIdentity(c, n, s, cache, message, now);
            var fp, capacity := s.remoteFingerprint.value, Capacity(cache.maxEntries);
            && (r.Ok? ==> exists v :: Vouches(c, n, s.noise, fp, message, now, log, capacity, v))
            && (r.Err? ==> cache' == cache || Agrees(cache', log, now.mono))
  {
    var fp := s.remoteFingerprint.value;
    match n.open(s.noise, message)
    case None =>
    case Some(bytes) =>
      SerializeParsed(bytes);
      match FromBytes(bytes) {
        case Err(_) =>
        case Ok(p) =>
          match Verify(c, p, fp, now.wall)
          case Err(_) =>
          case Ok(v) =>
            CallRefinesLog(cache, log, before, KeyOf(v), now.mono);
            assert CheckStep(cache, KeyOf(v), now.mono).1 ==>
                Vouches(c, n, s.noise, fp, message, now, log, Capacity(cache.maxEntries), v);
      }
  }

  /** Why a message is refused. */
  ghost function Refusal(
    c: Primitives, n: Noise, noise: NoiseState, expected: Bytes20, message: Bytes, now: Clock): SecurityError
  {
    match n.open(noise, message)
    case None => HandshakeFailed
    case Some(bytes) =>
      if |bytes| != PAYLOAD_LEN then IdentityBindingFailed
      else
        var r := Verify(c, FromBytes(bytes).value, expected, now.wall);
        if r.Err? then r.error else ReplayDetected
  }

  /** A refused message has its reason: not authentic, not a payload, what `Verify` says, or else a replay. */
  lemma RefusalIsReason(
    c: Primitives, n: Noise, s: Session, cache: Cache, message: Bytes, now: Clock)
    requires s.noise.PeerTurn() && s.remoteFingerprint.Some? && |message| <= MAX_HANDSHAKE_MSG_SIZE
    requires ReceiveIdentity(c, n, s, cache, message, now).1.Err?
    ensures ReceiveIdentity(c, n, s, cache, message, now).1 ==
            Err(Refusal(c, n, s.noise, s.remoteFingerprint.value, message, now))
  {
  }

  /**
   `perform_responder_handshake`, on any input: a transport exactly when the first message that came in vouches for a
   peer, and our reply fits a message and the room there is. Then the peer is that one, the transcript is the two
   messages, and the log of the cache has one more entry. When no message came in that vouches for anyone, nothing is
   sent, the log stays as it is, and the error says why.
   */
  lemma RespondAnswers(
    c: Primitives, n: Noise, s: Session, cache: Cache, log: seq<Entry>, before: int,
    input: Bytes, room: nat, timestamp: i64, nonce: Bytes12, now: Clock)
    requires Agrees(cache, log, before) && before <= now.mono
    requires !s.noise.initiator && s.noise.transcript == [] && s.remoteFingerprint.Some?
    ensures var (cache', sent, r) := Respond(c, n, s, cache, input, room, timestamp, nonce, now);
            var fp, capacity := s.remoteFingerprint.value, Capacity(cache.maxEntries);
            && (forall message, v :: Taken(c, n, s.noise, fp, input, now, log, capacity, message, v) ==>
                  var reply := Ours(c, n, s, [message], timestamp, nonce);
                  var frame := Framing.Frame(reply);
                  && Agrees(cache', log + [Entry(KeyOf(v), now.mono)], now.mono)
                  && (|reply| > MAX_HANDSHAKE_MSG_SIZE ==> r == Err(HandshakeFailed) && sent == [])
                  && (|reply| <= MAX_HANDSHAKE_MSG_SIZE && |frame| > room ==>
                        r == Err(HandshakeFailed) && sent == frame[..room])
                  && (|reply| <= MAX_HANDSHAKE_MSG_SIZE && |frame| <= room ==>
                        r == Ok(Outcome(s.noise.(transcript := [message, reply]), v)) && sent == frame))
            && ((forall message, v :: !Taken(c, n, s.noise, fp, input, now, log, capacity, message, v)) ==>
                  r.Err? && sent == [] && (cache' == cache || Agrees(cache', log, now.mono)))
            && ((forall message :: !Comes(input, message)) ==> r == Err(HandshakeFailed))
            && (forall message ::
                  Comes(input, message) && NobodyVouched(c, n, s.noise, fp, message, now, log, capacity) ==>
                    r == Err(Refusal(c, n, s.noise, fp, message, now)))
  {
    var fp, capacity := s.remoteFingerprint.value, Capacity(cache.maxEntries);
    match RecvMessage(input)
    case Err(_) =>
      forall message ensures !Comes(input, message) {
        ComesIff(input, message);
      }
    case Ok(msg) =>
      forall message ensures Comes(input, message) <==> message == msg {
        ComesIff(input, message);
      }
      assert Comes(input, msg);
      ReceiveAnswers(c, n, s, cache, log, before, msg, now);
      if !ReceiveIdentity(c, n, s, cache, msg, now).1.Ok? {
        RefusalIsReason(c, n, s, cache, msg, now);
        assert NobodyVouched(c, n, s.noise, fp, msg, now, log, capacity);
      } else {
        var v :| Vouches(c, n, s.noise, fp, msg, now, log, capacity, v);
        assert Taken(c, n, s.noise, fp, input, now, log, capacity, msg, v);
        ReplyAnswers(c, n, s, msg, v, room, timestamp, nonce);
      }
  }

  /** The second half: the reply of a session that took in `message` from `v`. */
  lemma ReplyAnswers(
    c: Primitives, n: Noise, s: Session, message: Bytes, v: VerifiedIdentity, room: nat, timestamp: i64, nonce: Bytes12)
    requires !s.noise.initiator && s.noise.transcript == []
    ensures var s1 := Advance(s, message).(verifiedRemote := Some(v));
            var reply := Ours(c, n, s, [message], timestamp, nonce);
            var r := SendIdentity(c, n, s1, timestamp, nonce);
            && (|reply| > MAX_HANDSHAKE_MSG_SIZE ==> r == Err(HandshakeFailed))
            && (|reply| <= MAX_HANDSHAKE_MSG_SIZE ==>
                  && r == Ok((Advance(s1, reply), reply))
                  && Conclude(Advance(s1, reply)) == Ok(Outcome(s.noise.(transcript := [message, reply]), v)))
  {
    assert [] + [message] == [message] && [message] + [Ours(c, n, s, [message], timestamp, nonce)] ==
           [message, Ours(c, n, s, [message], timestamp, nonce)];
  }

  /**
   `perform_initiator_handshake`, on any input: nothing happens unless our message fits a message and the room; then it
   goes out, and there is a transport exactly when the first message that comes in vouches for a peer.
   */
  lemma InitiateAnswers(
    c: Primitives, n: Noise, s: Session, cache: Cache, log: seq<Entry>, before: int,
    input: Bytes, room: nat, timestamp: i64, nonce: Bytes12, now: Clock)
    requires Agrees(cache, log, before) && before <= now.mono
    requires s.noise.initiator && s.noise.transcript == [] && s.remoteFingerprint.Some? && s.verifiedRemote.None?
    ensures var (cache', sent, r) := Initiate(c, n, s, cache, input, room, timestamp, nonce, now);
            var fp, capacity := s.remoteFingerprint.value, Capacity(cache.maxEntries);
            var first := Ours(c, n, s, [], timestamp, nonce);
            var frame, noise := Framing.Frame(first), s.noise.(transcript := [first]);
            && (|first| > MAX_HANDSHAKE_MSG_SIZE ==> r == Err(HandshakeFailed) && sent == [] && cache' == cache)
            && (|first| <= MAX_HANDSHAKE_MSG_SIZE && |frame| > room ==>
                  r == Err(HandshakeFailed) && sent == frame[..room] && cache' == cache)
            && (|first| <= MAX_HANDSHAKE_MSG_SIZE && |frame| <= room ==>
                  && sent == frame
                  && (forall message, v :: Taken(c, n, noise, fp, input, now, log, capacity, message, v) ==>
                        && r == Ok(Outcome(s.noise.(transcript := [first, message]), v))
                        && Agrees(cache', log + [Entry(KeyOf(v), now.mono)], now.mono))
                  && ((forall message, v :: !Taken(c, n, noise, fp, input, now, log, capacity, message, v)) ==>
                        r.Err? && (cache' == cache || Agrees(cache', log, now.mono)))
                  && ((forall message :: !Comes(input, message)) ==> r == Err(HandshakeFailed))
                  && (forall message ::
                        Comes(input, message) && NobodyVouched(c, n, noise, fp, message, now, log, capacity) ==>
                          r == Err(Refusal(c, n, noise, fp, message, now))))
  {
    var fp, capacity := s.remoteFingerprint.value, Capacity(cache.maxEntries);
    var first := Ours(c, n, s, [], timestamp, nonce);
    assert s.noise.(transcript := []) == s.noise && [] + [first] == [first];
    if |first| <= MAX_HANDSHAKE_MSG_SIZE && |Framing.Frame(first)| <= room {
      var s1 := Advance(s, first);
      assert SendIdentity(c, n, s, timestamp, nonce) == Ok((s1, first));
      assert s1.noise == s.noise.(transcript := [first]);
      match RecvMessage(input)
      case Err(_) =>
        forall message ensures !Comes(input, message) {
          ComesIff(input, message);
        }
      case Ok(msg) =>
        forall message ensures Comes(input, message) <==> message == msg {
          ComesIff(input, message);
        }
        assert Comes(input, msg);
        ReceiveAnswers(c, n, s1, cache, log, before, msg, now);
        if !ReceiveIdentity(c, n, s1, cache, msg, now).1.Ok? {
          RefusalIsReason(c, n, s1, cache, msg, now);
          assert NobodyVouched(c, n, s1.noise, fp, msg, now, log, capacity);
        } else {
          var v :| Vouches(c, n, s1.noise, fp, msg, now, log, capacity, v);
          assert Taken(c, n, s1.noise, fp, input, now, log, capacity, msg, v);
          assert [first] + [msg] == [first, msg];
        }
    }
  }
}
