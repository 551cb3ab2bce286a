/**
 The framed encrypted channel: Noise transport messages in length-prefixed frames over a byte stream. A receive is
 polled, holds the bytes it has taken off the stream while it waits, and loses them if it is abandoned.

 A cipher is one direction of a Noise transport, keyed by its message counter; section 3 of the Noise Protocol
 Framework, revision 34, limits messages to 65535 bytes, and section 5.1 reserves the last counter value.
 */
module Channel {
  import opened Bytes
  import opened Crypto
  import opened Framing

  const MAX_TRANSPORT_MSG_SIZE: nat := 1_048_576
  const AEAD_TAG_SIZE: nat := 16
  const MAX_TRANSPORT_FRAME_SIZE: nat := MAX_TRANSPORT_MSG_SIZE + AEAD_TAG_SIZE
  const NOISE_MAX_MESSAGE: nat := 65535
  const NONCE_LIMIT: nat := U64_LIMIT - 1

  datatype Cipher = Cipher(seal: (nat, Bytes) -> Bytes, open: (nat, Bytes) -> Option<Bytes>)

  /** What was sealed under a counter opens under it, and is one tag longer. */
  ghost predicate Correct(ci: Cipher) {
    forall n: nat, p: Bytes :: ci.open(n, ci.seal(n, p)) == Some(p) && |ci.seal(n, p)| == |p| + AEAD_TAG_SIZE
  }

  /** What opens is one tag longer than what comes out. */
  ghost predicate TagLengths(ci: Cipher) {
    forall n: nat, f: Bytes :: ci.open(n, f).Some? ==> |f| == |ci.open(n, f).value| + AEAD_TAG_SIZE
  }

  /** `write_message` and `read_message` of a Noise transport state, and the size checks around them. */
  function Encrypt(ci: Cipher, n: nat, p: Bytes): Result<Bytes, SecurityError> {
    if |p| > MAX_TRANSPORT_MSG_SIZE then Err(MessageTooLarge)
    else if |p| + AEAD_TAG_SIZE > NOISE_MAX_MESSAGE || n >= NONCE_LIMIT then Err(EncryptionFailed)
    else Ok(ci.seal(n, p))
  }

  function Decrypt(ci: Cipher, n: nat, frame: Bytes): Result<Bytes, SecurityError> {
    if |frame| > MAX_TRANSPORT_FRAME_SIZE then Err(MessageTooLarge)
    else if |frame| > NOISE_MAX_MESSAGE || n >= NONCE_LIMIT then Err(DecryptionFailed)
    else match ci.open(n, frame) case None => Err(DecryptionFailed) case Some(p) => Ok(p)
  }

  /** The transport of one end: a cipher and a counter for each direction. */
  class Transport {
    const outward: Cipher
    const inward: Cipher
    var sendNonce: nat
    var recvNonce: nat

    constructor (outward: Cipher, inward: Cipher)
      ensures this.outward == outward && this.inward == inward && sendNonce == 0 && recvNonce == 0
    {
      this.outward, this.inward := outward, inward;
      sendNonce, recvNonce := 0, 0;
    }

    /** A counter moves exactly on success. */
    method EncryptMessage(p: Bytes) returns (r: Result<Bytes, SecurityError>)
      modifies this`sendNonce
      ensures r == Encrypt(outward, old(sendNonce), p)
      ensures sendNonce == old(sendNonce) + (if r.Ok? then 1 else 0)
    {
      if |p| > MAX_TRANSPORT_MSG_SIZE {
        return Err(MessageTooLarge);
      }
      if |p| + AEAD_TAG_SIZE > NOISE_MAX_MESSAGE || sendNonce >= NONCE_LIMIT {
        return Err(EncryptionFailed);
      }
      r := Ok(outward.seal(sendNonce, p));
      sendNonce := sendNonce + 1;
    }

    method DecryptMessage(frame: Bytes) returns (r: Result<Bytes, SecurityError>)
      modifies this`recvNonce
      ensures r == Decrypt(inward, old(recvNonce), frame)
      ensures recvNonce == old(recvNonce) + (if r.Ok? then 1 else 0)
    {
      if |frame| > MAX_TRANSPORT_FRAME_SIZE {
        return Err(MessageTooLarge);
      }
      if |frame| > NOISE_MAX_MESSAGE || recvNonce >= NONCE_LIMIT {
        return Err(DecryptionFailed);
      }
      var p := inward.open(recvNonce, frame);
      if p.None? {
        return Err(DecryptionFailed);
      }
      recvNonce := recvNonce + 1;
      return Ok(p.value);
    }
  }

  datatype NetError =
    | EncryptFailed(e: SecurityError)
    | DecryptFailed(e: SecurityError)
    | Stream(why: ReadError)
    | SendFailed

  /** With a correct cipher, the assertion in `encode` never fires on what `encrypt` returned. */
  lemma EncodeNeverPanics(ci: Cipher, n: nat, p: Bytes)
    requires Correct(ci) && Encrypt(ci, n, p).Ok?
    ensures Encode(Encrypt(ci, n, p).value) == Some(Frame(ci.seal(n, p)))
    ensures |ci.seal(n, p)| <= NOISE_MAX_MESSAGE <= MAX_FRAME_SIZE
  {
  }

  // ---------------------------------------------------------------------------------------
  // One direction of a connection as a value.

  datatype Pipe = Pipe(
    sendNonce: nat,
    recvNonce: nat,
    sent: seq<Bytes>,         // plaintexts whose frames were written in full
    got: seq<Bytes>,          // plaintexts received
    errors: seq<NetError>,    // errors of receives
    flight: Bytes,            // written, not yet arrived
    arrived: Bytes,           // arrived, not yet read
    taken: Bytes,             // read by the receive under way
    lost: nat,                // how many bytes abandoned receives had taken
    torn: Bytes,              // what was written of a frame whose write failed
    broken: bool,             // a write has failed; the stream takes no more bytes
    closed: bool)             // the sender has closed the stream

  const EMPTY := Pipe(0, 0, [], [], [], [], [], [], 0, [], false, false)

  /** Sending `p` when the stream takes `room` more bytes; a write that does not fit fails part-way. */
  function Sent(ci: Cipher, s: Pipe, p: Bytes, room: nat): (Pipe, Result<(), NetError>) {
    match Encrypt(ci, s.sendNonce, p)
    case Err(e) => (s, Err(EncryptFailed(e)))
    case Ok(sealed) =>
      var frame := Frame(sealed);
      var s1 := s.(sendNonce := s.sendNonce + 1);
      if s.broken || s.closed then (s1, Err(SendFailed))
      else if |frame| <= room then (s1.(flight := s.flight + frame, sent := s.sent + [p]), Ok(()))
      else (s1.(flight := s.flight + frame[..room], torn := frame[..room], broken := true), Err(SendFailed))
  }

  function Arrived(s: Pipe, count: nat): Pipe {
    var k := if count <= |s.flight| then count else |s.flight|;
    s.(flight := s.flight[k..], arrived := s.arrived + s.flight[..k])
  }

  /** Polling a receive: it yields a plaintext or an error, or it waits. */
  function Polled(ci: Cipher, s: Pipe): (Pipe, Option<Result<Bytes, NetError>>) {
    var (r, held, left) := PollOnce(s.taken, s.arrived, s.closed && s.flight == [], MAX_FRAME_SIZE);
    var s1 := s.(taken := held, arrived := left);
    match r
    case None => (s1, None)
    case Some(Err(e)) => (s1.(errors := s.errors + [Stream(e)]), Some(Err(Stream(e))))
    case Some(Ok(frame)) =>
      match Decrypt(ci, s.recvNonce, frame)
      case Err(e) => (s1.(errors := s.errors + [DecryptFailed(e)]), Some(Err(DecryptFailed(e))))
      case Ok(p) => (s1.(recvNonce := s.recvNonce + 1, got := s.got + [p]), Some(Ok(p)))
  }

  /** A receive that is left to run, while bytes come in as `waits` says. */
  function Receive(ci: Cipher, s: Pipe, waits: seq<nat>): (Pipe, Option<Result<Bytes, NetError>>)
    decreases |waits|
  {
    var (s1, r) := Polled(ci, s);
    if r.Some? || waits == [] then (s1, r) else Receive(ci, Arrived(s1, waits[0]), waits[1..])
  }

  /** Dropping the receive under way. */
  function Abandoned(s: Pipe): Pipe {
    s.(taken := [], lost := s.lost + |s.taken|)
  }

  /** When encryption succeeds, and how it fails. */
  lemma EncryptAnswers(ci: Cipher, n: nat, p: Bytes)
    ensures Encrypt(ci, n, p) == Ok(ci.seal(n, p)) <==> |p| <= 65519 && n < NONCE_LIMIT
    ensures Encrypt(ci, n, p) == Err(MessageTooLarge) <==> |p| > 1_048_576
    ensures Encrypt(ci, n, p) == Err(EncryptionFailed) <==> |p| <= 1_048_576 && (|p| > 65519 || n >= NONCE_LIMIT)
  {
  }

  /** When decryption succeeds, and how it fails. */
  lemma DecryptAnswers(ci: Cipher, n: nat, frame: Bytes)
    ensures Decrypt(ci, n, frame).Ok? <==> |frame| <= 65535 && n < NONCE_LIMIT && ci.open(n, frame).Some?
    ensures Decrypt(ci, n, frame).Ok? ==> ci.open(n, frame) == Some(Decrypt(ci, n, frame).value)
    ensures Decrypt(ci, n, frame) == Err(MessageTooLarge) <==> |frame| > 1_048_592
    ensures Decrypt(ci, n, frame).Err? && |frame| <= 1_048_592 ==> Decrypt(ci, n, frame) == Err(DecryptionFailed)
  {
  }

  /**
   What a send answers: `Ok` exactly when its plaintext joined what was sent and its whole frame joined the flight. Any
   error leaves what was sent as it was. It is `Ok` exactly when the plaintext is within the Noise limit, the counter
   is not used up, the stream is open and whole, and there is room for the frame.
   */
  lemma SendAnswers(ci: Cipher, s: Pipe, p: Bytes, room: nat)
    requires Correct(ci)
    ensures var (s', r) := Sent(ci, s, p, room);
            && (r.Ok? <==> s'.sent == s.sent + [p] && s'.flight == s.flight + Frame(ci.seal(s.sendNonce, p)))
            && (r.Err? <==> s'.sent == s.sent)
            && (r.Ok? <==> && |p| <= 65519 && s.sendNonce < NONCE_LIMIT
                           && !s.broken && !s.closed && |p| + 20 <= room)
            && (r == Err(SendFailed) <==> && |p| <= 65519 && s.sendNonce < NONCE_LIMIT
                                          && (s.broken || s.closed || |p| + 20 > room))
            && (r.Ok? || r == Err(SendFailed) || r == Err(EncryptFailed(Encrypt(ci, s.sendNonce, p).error)))
            && (s'.sendNonce == s.sendNonce + 1 <==> |p| <= 65519 && s.sendNonce < NONCE_LIMIT)
  {
    assert s.sent + [p] != s.sent;
  }

  // ---------------------------------------------------------------------------------------
  // The objects.

  /** One direction of the socket. */
  class Wire {
    var flight: Bytes
    var arrived: Bytes
    var torn: Bytes
    var broken: bool
    var closed: bool

    constructor ()
      ensures flight == arrived == torn == [] && !broken && !closed
    {
      flight, arrived, torn, broken, closed := [], [], [], false, false;
    }

    /** `write_all`, when there is room for `room` bytes. */
    method WriteAll(frame: Bytes, room: nat) returns (ok: bool)
      modifies this`flight, this`torn, this`broken
      ensures ok == (!old(broken) && !closed && |frame| <= room)
      ensures broken == (old(broken) || (!closed && |frame| > room))
      ensures old(broken) || closed ==> flight == old(flight)
      ensures !old(broken) && !closed ==> flight == old(flight) + (if ok then frame else torn)
      ensures torn == if !ok && !old(broken) && !closed then frame[..room] else old(torn)
    {
      if broken || closed {
        return false;
      }
      if |frame| > room {
        torn, broken := frame[..room], true;
        flight := flight + torn;
        return false;
      }
      flight := flight + frame;
      return true;
    }

    method Deliver(count: nat)
      modifies this`flight, this`arrived
      ensures var k := if count <= |old(flight)| then count else |old(flight)|;
              flight == old(flight)[k..] && arrived == old(arrived) + old(flight)[..k]
    {
      var k := if count <= |flight| then count else |flight|;
      flight, arrived := flight[k..], arrived + flight[..k];
    }
  }

  /** One end of a connection, with the receive under way and a record of what went through. */
  class EncryptedConnection {
    const transport: Transport
    const output: Wire
    const input: Wire
    var taken: Bytes
    ghost var sent: seq<Bytes>
    ghost var got: seq<Bytes>
    ghost var errors: seq<NetError>
    ghost var lost: nat

    constructor (transport: Transport, output: Wire, input: Wire)
      ensures this.transport == transport && this.output == output && this.input == input
      ensures taken == [] && sent == got == [] && errors == [] && lost == 0
    {
      this.transport, this.output, this.input, taken := transport, output, input, [];
      sent, got, errors, lost := [], [], [], 0;
    }

    /** The direction from this end to its peer. */
    ghost function To(peer: EncryptedConnection): Pipe
      reads this, transport, output, peer, peer.transport
    {
      Pipe(transport.sendNonce, peer.transport.recvNonce, sent, peer.got, peer.errors, output.flight, output.arrived,
           peer.taken, peer.lost, output.torn, output.broken, output.closed)
    }

    /** What this end writes, the peer reads, under the same cipher. */
    ghost predicate Feeds(peer: EncryptedConnection) {
      && peer != this && peer.transport != transport
      && peer.input == output && peer.transport.inward == transport.outward
    }

    method Send(p: Bytes, room: nat, ghost peer: EncryptedConnection) returns (r: Result<(), NetError>)
      requires Correct(transport.outward) && Feeds(peer)
      modifies this`sent, transport`sendNonce, output
      ensures (To(peer), r) == Sent(transport.outward, old(To(peer)), p, room)
    {
      ghost var n := transport.sendNonce;
      var sealed := transport.EncryptMessage(p);
      if sealed.Err? {
        return Err(EncryptFailed(sealed.error));
      }
      EncodeNeverPanics(transport.outward, n, p);
      var written := output.WriteAll(Encode(sealed.value).value, room);
      if !written {
        return Err(SendFailed);
      }
      sent := sent + [p];
      return Ok(());
    }

    /** One poll of `recv`, resuming the decoder with the bytes it has taken. */
    method PollRecv(ghost peer: EncryptedConnection) returns (r: Option<Result<Bytes, NetError>>)
      requires peer.Feeds(this) && Waiting(taken, MAX_FRAME_SIZE)
      modifies this`taken, this`got, this`errors, transport`recvNonce, input`arrived
      ensures (peer.To(this), r) == Polled(transport.inward, old(peer.To(this)))
      ensures Waiting(taken, MAX_FRAME_SIZE)
    {
      var frame, held, left := PollDecode(taken, input.arrived, input.closed && input.flight == [], MAX_FRAME_SIZE);
      taken, input.arrived := held, left;
      match frame {
        case None =>
          return None;
        case Some(Err(e)) =>
          errors := errors + [Stream(e)];
          return Some(Err(Stream(e)));
        case Some(Ok(f)) =>
          var p := transport.DecryptMessage(f);
          if p.Err? {
            errors := errors + [DecryptFailed(p.error)];
            return Some(Err(DecryptFailed(p.error)));
          }
          got := got + [p.value];
          return Some(Ok(p.value));
      }
    }

    /** `recv` left to run: polled, and polled again when more bytes have come. */
    method Recv(waits: seq<nat>, ghost peer: EncryptedConnection) returns (r: Option<Result<Bytes, NetError>>)
      requires peer.Feeds(this) && Waiting(taken, MAX_FRAME_SIZE)
      modifies this`taken, this`got, this`errors, transport`recvNonce, input
      ensures (peer.To(this), r) == Receive(transport.inward, old(peer.To(this)), waits)
      ensures Waiting(taken, MAX_FRAME_SIZE)
    {
      r := PollRecv(peer);
      var i := 0;
      while r.None? && i < |waits|
        invariant i <= |waits| && Waiting(taken, MAX_FRAME_SIZE)
        invariant Receive(transport.inward, old(peer.To(this)), waits) ==
                  if r.Some? || i == |waits| then (peer.To(this), r)
                  else Receive(transport.inward, Arrived(peer.To(this), waits[i]), waits[i + 1..])
      {
        ghost var before := peer.To(this);
        input.Deliver(waits[i]);
        assert peer.To(this) == Arrived(before, waits[i]);
        r := PollRecv(peer);
        i := i + 1;
        assert i < |waits| ==> waits[i..][0] == waits[i] && waits[i..][1..] == waits[i + 1..];
      }
    }

    /** `close`: the stream is shut down for writing. */
    method Close(ghost peer: EncryptedConnection)
      requires Feeds(peer)
      modifies output`closed
      ensures To(peer) == old(To(peer)).(closed := true)
    {
      output.closed := true;
    }

    /** Dropping the future of `recv`. */
    method AbandonRecv(ghost peer: EncryptedConnection)
      requires peer.Feeds(this)
      modifies this`taken, this`lost
      ensures peer.To(this) == Abandoned(old(peer.To(this)))
    {
      lost := lost + |taken|;
      taken := [];
    }
  }
}
