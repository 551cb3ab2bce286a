/** The signed payload that each side sends inside its Noise handshake message. */
module IdentityBind {
  import opened Bytes
  import opened Crypto

  const TIMESTAMP_SKEW_SECS: int := 30
  const PAYLOAD_LEN: nat := 149

  /** "rubix-identity-bind-v1" */
  const DOMAIN_SEPARATOR: Bytes :=
    [114, 117, 98, 105, 120, 45, 105, 100, 101, 110, 116, 105, 116, 121, 45, 98, 105, 110, 100, 45, 118, 49]

  datatype Payload = Payload(
    version: byte,
    ed25519Public: Bytes32,
    x25519Public: Bytes32,
    timestamp: i64,
    nonce: Bytes12,
    signature: Bytes64)

  datatype VerifiedIdentity = VerifiedIdentity(
    ed25519Public: Bytes32,
    x25519Public: Bytes32,
    fingerprint: Bytes20,
    timestamp: i64,
    nonce: Bytes12)

  /** The canonical bytes that are signed. */
  function SignaturePayload(p: Payload): (s: Bytes)
    ensures |s| == 107
  {
    DOMAIN_SEPARATOR + [p.version] + p.ed25519Public + p.x25519Public + I64ToLE(p.timestamp) + p.nonce
  }

  function ToBytes(p: Payload): (s: Bytes)
    ensures |s| == PAYLOAD_LEN
  {
    [p.version] + p.ed25519Public + p.x25519Public + I64ToLE(p.timestamp) + p.nonce + p.signature
  }

  function FromBytes(s: Bytes): Result<Payload, SecurityError> {
    if |s| != PAYLOAD_LEN then Err(IdentityBindingFailed) else
      Ok(Payload(s[0], s[1..33], s[33..65], I64FromLE(s[65..73]), s[73..85], s[85..149]))
  }

  /** Serialization into a fixed buffer, field by field. */
  method WriteBytes(p: Payload) returns (out: array<byte>)
    ensures fresh(out) && out[..] == ToBytes(p)
  {
    out := new byte[149](_ => 0);
    out[0] := p.version;
    assert out[..1] == [p.version];
    CopyInto(out, 1, p.ed25519Public);
    CopyInto(out, 33, p.x25519Public);
    CopyInto(out, 65, I64ToLE(p.timestamp));
    CopyInto(out, 73, p.nonce);
    CopyInto(out, 85, p.signature);
    assert out[..149] == out[..];
  }

  /** Parsing inverts serialization. */
  lemma ParseSerialized(p: Payload)
    ensures FromBytes(ToBytes(p)) == Ok(p)
  {
    var s := ToBytes(p);
    I64RoundTrip(p.timestamp);
    assert s[1..33] == p.ed25519Public;
    assert s[33..65] == p.x25519Public;
    assert s[65..73] == I64ToLE(p.timestamp);
    assert s[73..85] == p.nonce;
    assert s[85..] == p.signature;
    assert s[85..149] == s[85..];
  }

  /** Every 149-byte string is the serialization of what it parses to; no other length parses. */
  lemma SerializeParsed(s: Bytes)
    ensures FromBytes(s).Ok? <==> |s| == PAYLOAD_LEN
    ensures FromBytes(s).Ok? ==> ToBytes(FromBytes(s).value) == s
  {
    if |s| == PAYLOAD_LEN {
      I64Canonical(s[65..73]);
    }
  }

  /** The signed bytes determine every field but the signature. */
  lemma SignedBytesInjective(p: Payload, q: Payload)
    requires SignaturePayload(p) == SignaturePayload(q)
    ensures p == q.(signature := p.signature)
  {
    var p1, q1 := DOMAIN_SEPARATOR + [p.version], DOMAIN_SEPARATOR + [q.version];
    var p2, q2 := p1 + p.ed25519Public, q1 + q.ed25519Public;
    var p3, q3 := p2 + p.x25519Public, q2 + q.x25519Public;
    SplitEqual(p3 + I64ToLE(p.timestamp), q3 + I64ToLE(q.timestamp), p.nonce, q.nonce);
    SplitEqual(p3, q3, I64ToLE(p.timestamp), I64ToLE(q.timestamp));
    SplitEqual(p2, q2, p.x25519Public, q.x25519Public);
    SplitEqual(p1, q1, p.ed25519Public, q.ed25519Public);
    SplitEqual(DOMAIN_SEPARATOR, DOMAIN_SEPARATOR, [p.version], [q.version]);
    assert [p.version][0] == [q.version][0];
    I64RoundTrip(p.timestamp);
    I64RoundTrip(q.timestamp);
  }

  function Unsigned(c: Primitives, keys: IdentityKeys, timestamp: i64, nonce: Bytes12): Payload {
    Payload(1, keys.EdPublic(c), keys.XPublic(c), timestamp, nonce, seq(64, _ => 0))
  }

  /** A new payload, with the clock reading and the random nonce as inputs. */
  function Create(c: Primitives, keys: IdentityKeys, timestamp: i64, nonce: Bytes12): Payload {
    var p := Unsigned(c, keys, timestamp, nonce);
    p.(signature := c.sign(keys.edSecret, SignaturePayload(p)))
  }

  function VerifySignatureAndFreshness(c: Primitives, p: Payload, now: i64): Result<(Bytes32, Bytes32), SecurityError> {
    if p.version != 1 then Err(IdentityBindingFailed)
    else if now + TIMESTAMP_SKEW_SECS > I64_MAX || now - TIMESTAMP_SKEW_SECS < I64_MIN then Err(Internal)
    else if p.timestamp > now + TIMESTAMP_SKEW_SECS then Err(ReplayDetected)
    else if p.timestamp < now - TIMESTAMP_SKEW_SECS then Err(ReplayDetected)
    else if !c.verify(p.ed25519Public, SignaturePayload(p), p.signature) then Err(IdentityBindingFailed)
    else Ok((p.ed25519Public, p.x25519Public))
  }

  function Verify(c: Primitives, p: Payload, expected: Bytes20, now: i64): (r: Result<VerifiedIdentity, SecurityError>)
    ensures r.Ok? ==>
              && p.version == 1
              && -TIMESTAMP_SKEW_SECS <= p.timestamp - now <= TIMESTAMP_SKEW_SECS
              && c.verify(p.ed25519Public, SignaturePayload(p), p.signature)
              && r.value.fingerprint == expected == c.derive(p.ed25519Public, p.x25519Public)
              && r.value.timestamp == p.timestamp && r.value.nonce == p.nonce
  {
    match VerifySignatureAndFreshness(c, p, now)
    case Err(e) => Err(e)
    case Ok((ed, x)) =>
      var fp := c.derive(ed, x);
      if fp != expected then Err(FingerprintMismatch)
      else Ok(VerifiedIdentity(ed, x, fp, p.timestamp, p.nonce))
  }

  /** A clock whose skew window does not leave the range of an i64. */
  predicate ClockInRange(now: i64) {
    I64_MIN + TIMESTAMP_SKEW_SECS <= now <= I64_MAX - TIMESTAMP_SKEW_SECS
  }

  /**
   A payload made by the owner of the expected fingerprint is accepted by exactly the clocks
   within the skew of its own, and yields the owner's identity; a clock outside the skew calls
   it a replay, and any other expectation is a mismatch. A clock whose window leaves the i64 range is an internal error.
   */
  lemma CreatedVerifies(c: Primitives, keys: IdentityKeys, timestamp: i64, nonce: Bytes12, expected: Bytes20, now: i64)
    requires SignaturesVerify(c)
    ensures var r := Verify(c, Create(c, keys, timestamp, nonce), expected, now);
            var near := -TIMESTAMP_SKEW_SECS <= timestamp - now <= TIMESTAMP_SKEW_SECS;
            && (!ClockInRange(now) ==> r == Err(Internal))
            && (ClockInRange(now) && !near ==> r == Err(ReplayDetected))
            && (ClockInRange(now) && near && expected != keys.Fingerprint(c) ==> r == Err(FingerprintMismatch))
            && (ClockInRange(now) && near && expected == keys.Fingerprint(c) ==>
                  r == Ok(VerifiedIdentity(keys.EdPublic(c), keys.XPublic(c), expected, timestamp, nonce)))
  {
    var u, p := Unsigned(c, keys, timestamp, nonce), Create(c, keys, timestamp, nonce);
    assert SignaturePayload(u) == SignaturePayload(p);
    assert c.verify(c.edPublic(keys.edSecret), SignaturePayload(u), c.sign(keys.edSecret, SignaturePayload(u)));
  }

  predicate Timely(p: Payload, now: i64) {
    -30 <= p.timestamp - now <= 30
  }

  /**
   What verification answers on any payload: who it is, exactly when all five checks hold, or the first that does
   not.
   */
  lemma VerifyAnswers(c: Primitives, p: Payload, expected: Bytes20, now: i64)
    ensures var r := Verify(c, p, expected, now);
            var signed := c.verify(p.ed25519Public, SignaturePayload(p), p.signature);
            var theirs := c.derive(p.ed25519Public, p.x25519Public) == expected;
            && (r.Ok? <==> p.version == 1 && ClockInRange(now) && Timely(p, now) && signed && theirs)
            && (r.Ok? ==> r.value == VerifiedIdentity(p.ed25519Public, p.x25519Public, expected, p.timestamp, p.nonce))
            && (r == Err(Internal) <==> p.version == 1 && !ClockInRange(now))
            && (r == Err(ReplayDetected) <==> p.version == 1 && ClockInRange(now) && !Timely(p, now))
            && (r == Err(FingerprintMismatch) <==>
                p.version == 1 && ClockInRange(now) && Timely(p, now) && signed && !theirs)
            && (r == Err(IdentityBindingFailed) <==>
                p.version != 1 || (ClockInRange(now) && Timely(p, now) && !signed))
  {
  }

  /** The 149 bytes: version, Ed25519 key, X25519 key, timestamp with its low byte first, nonce, signature. */
  lemma PayloadLayout(p: Payload, k: nat)
    requires k < 8
    ensures var s := ToBytes(p);
            && s[0] == p.version && s[1..33] == p.ed25519Public && s[33..65] == p.x25519Public
            && s[65 + k] == Digit(if p.timestamp < 0 then p.timestamp + U64_LIMIT else p.timestamp, k)
            && s[73..85] == p.nonce && s[85..] == p.signature
  {
    var t := if p.timestamp < 0 then p.timestamp + U64_LIMIT else p.timestamp;
    LEAt(t, 8, k);
    var s := ToBytes(p);
    assert s[65 + k] == I64ToLE(p.timestamp)[k];
  }

  /** The signed bytes: the domain text, then the payload up to its signature. */
  lemma SignedLayout(p: Payload)
    ensures SignaturePayload(p) == DOMAIN_SEPARATOR + ToBytes(p)[..85]
    ensures |DOMAIN_SEPARATOR| == |"rubix-identity-bind-v1"|
    ensures forall i :: 0 <= i < |DOMAIN_SEPARATOR| ==> DOMAIN_SEPARATOR[i] == "rubix-identity-bind-v1"[i] as int
  {
    var fields := [p.version] + p.ed25519Public + p.x25519Public + I64ToLE(p.timestamp) + p.nonce;
    assert ToBytes(p) == fields + p.signature;
    assert ToBytes(p)[..85] == fields;
  }
}
