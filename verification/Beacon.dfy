/** The signed discovery beacon broadcast over UDP. Text fields are UTF-8 bytes. */
module Beacon {
  import opened Bytes
  import opened Crypto
  import opened Fingerprint
  import IdentityBind

  const BEACON_MAX_AGE_SECS: int := 60

  datatype Beacon = Beacon(
    version: u16,
    displayName: Bytes,
    ed25519Public: Bytes,
    x25519Public: Bytes,
    fingerprint: Bytes,
    tcpPort: u16,
    timestamp: u64,
    signature: Bytes)

  datatype BeaconError =
    | Panicked                // not an error of the program: an overflow in a build that checks for it
    | TimestampInFuture
    | TooOld
    | InvalidKeyHex
    | InvalidKey
    | InvalidFingerprint
    | Mismatch
    | InvalidSignatureHex
    | InvalidSignatureLength
    | SignatureVerificationFailed

  function SignedBytes(b: Beacon): Bytes {
    ToLE(b.version, 2) + b.displayName + b.ed25519Public + b.x25519Public + b.fingerprint
    + ToLE(b.tcpPort, 2) + ToLE(b.timestamp, 8)
  }

  function Unsigned(
    c: Primitives, edSecret: Bytes32, xPublic: Bytes32, port: u16, name: Bytes, timestamp: u64): Beacon
  {
    var edPublic := c.edPublic(edSecret);
    var fp := Formatted(c.derive(edPublic, xPublic));
    Beacon(1, name, HexEncode(edPublic), HexEncode(xPublic), fp, port, timestamp, [])
  }

  function Create(c: Primitives, edSecret: Bytes32, xPublic: Bytes32, port: u16, name: Bytes, timestamp: u64): Beacon {
    var b := Unsigned(c, edSecret, xPublic, port, name, timestamp);
    b.(signature := HexEncode(c.sign(edSecret, SignedBytes(b))))
  }

  /** `+` on u64: a build with overflow checks panics where one without wraps around. */
  function Plus(a: u64, b: u64, checked: bool): Option<u64> {
    if a + b < U64_LIMIT then Some(a + b) else if checked then None else Some(a + b - U64_LIMIT)
  }

  /** Verification at the clock reading `now`. */
  function Verify(c: Primitives, b: Beacon, now: u64, checked: bool): Result<(), BeaconError> {
    var latest, expiry := Plus(now, BEACON_MAX_AGE_SECS, checked), Plus(b.timestamp, BEACON_MAX_AGE_SECS, checked);
    if latest.None? then Err(Panicked)
    else if b.timestamp > latest.value then Err(TimestampInFuture)
    else if expiry.None? then Err(Panicked)
    else if expiry.value < now then Err(TooOld)
    else
      var ed, x := HexDecode(b.ed25519Public), HexDecode(b.x25519Public);
      if ed.None? || x.None? then Err(InvalidKeyHex)
      else if |ed.value| != 32 || |x.value| != 32 then Err(InvalidKey)
      else
        var claimed := FromHex(b.fingerprint);
        if claimed.Err? then Err(InvalidFingerprint)
        else if c.derive(ed.value, x.value) != claimed.value then Err(Mismatch)
        else
          var sig := HexDecode(b.signature);
          if sig.None? then Err(InvalidSignatureHex)
          else if |sig.value| != 64 then Err(InvalidSignatureLength)
          else if !c.verify(ed.value, SignedBytes(b), sig.value) then Err(SignatureVerificationFailed)
          else Ok(())
  }

  /**
   A created beacon verifies at exactly the times within 60 s of its creation, as long as neither time is so close to
   the end of the u64 range that its window leaves it, whether the build checks for overflow or wraps around.
   */
  lemma CreatedVerifies(
    c: Primitives, edSecret: Bytes32, xPublic: Bytes32, port: u16, name: Bytes, timestamp: u64, now: u64, checked: bool)
    requires SignaturesVerify(c)
    ensures Verify(c, Create(c, edSecret, xPublic, port, name, timestamp), now, checked).Ok? <==>
            && -BEACON_MAX_AGE_SECS <= timestamp - now <= BEACON_MAX_AGE_SECS
            && now + BEACON_MAX_AGE_SECS < U64_LIMIT && timestamp + BEACON_MAX_AGE_SECS < U64_LIMIT
  {
    var u := Unsigned(c, edSecret, xPublic, port, name, timestamp);
    var edPublic := c.edPublic(edSecret);
    DecodeEncoded(edPublic);
    DecodeEncoded(xPublic);
    PrintedFormsParse(c.derive(edPublic, xPublic));
    var sig := c.sign(edSecret, SignedBytes(u));
    DecodeEncoded(sig);
    assert SignedBytes(u) == SignedBytes(u.(signature := HexEncode(sig)));
    assert c.verify(edPublic, SignedBytes(u), sig);
  }

  /** The field widths of every created beacon. */
  predicate Shaped(b: Beacon) {
    |b.ed25519Public| == 64 && |b.x25519Public| == 64 && |b.fingerprint| == FINGERPRINT_STRING_LEN
  }

  lemma CreatedShaped(c: Primitives, edSecret: Bytes32, xPublic: Bytes32, port: u16, name: Bytes, timestamp: u64)
    ensures Shaped(Create(c, edSecret, xPublic, port, name, timestamp))
  {
    PrintedFormsParse(c.derive(c.edPublic(edSecret), xPublic));
  }

  /** A created beacon says what it was given, and its texts decode to the keys and their fingerprint. */
  lemma CreatedCarries(c: Primitives, edSecret: Bytes32, xPublic: Bytes32, port: u16, name: Bytes, timestamp: u64)
    ensures var b := Create(c, edSecret, xPublic, port, name, timestamp);
            && b.version == 1 && b.displayName == name && b.tcpPort == port && b.timestamp == timestamp
            && HexDecode(b.ed25519Public) == Some(c.edPublic(edSecret)) && HexDecode(b.x25519Public) == Some(xPublic)
            && FromHex(b.fingerprint) == Ok(c.derive(c.edPublic(edSecret), xPublic))
            && HexDecode(b.signature) == Some(c.sign(edSecret, SignedBytes(b)))
  {
    var u := Unsigned(c, edSecret, xPublic, port, name, timestamp);
    DecodeEncoded(c.edPublic(edSecret));
    DecodeEncoded(xPublic);
    PrintedFormsParse(c.derive(c.edPublic(edSecret), xPublic));
    DecodeEncoded(c.sign(edSecret, SignedBytes(u)));
    assert SignedBytes(u) == SignedBytes(Create(c, edSecret, xPublic, port, name, timestamp));
  }

  /** The key text denotes a 32-byte key. */
  predicate IsKeyText(text: Bytes) {
    |text| == 64 && AllHex(text)
  }

  /**
   Which beacons verify: exactly those within 60 s, away from the end of the u64 range, whose key texts are 64 digits
   with the claimed fingerprint, and whose 128 signature digits verify under that very key.
   */
  lemma VerifiedIff(c: Primitives, b: Beacon, now: u64, checked: bool)
    ensures Verify(c, b, now, checked).Ok? <==>
            && -60 <= b.timestamp - now <= 60
            && now + 60 < U64_LIMIT && b.timestamp + 60 < U64_LIMIT
            && IsKeyText(b.ed25519Public) && IsKeyText(b.x25519Public)
            && FromHex(b.fingerprint) == Ok(c.derive(FromDigits(b.ed25519Public), FromDigits(b.x25519Public)))
            && |b.signature| == 128 && AllHex(b.signature)
            && c.verify(FromDigits(b.ed25519Public), SignedBytes(b), FromDigits(b.signature))
  {
  }

  /** Why a beacon is refused: the first check that fails, away from the end of the u64 range. */
  lemma RefusedBecause(c: Primitives, b: Beacon, now: u64, checked: bool)
    requires now + 60 < U64_LIMIT && b.timestamp + 60 < U64_LIMIT
    ensures var r := Verify(c, b, now, checked);
            var ed, x, sig := HexDecode(b.ed25519Public), HexDecode(b.x25519Public), HexDecode(b.signature);
            && (b.timestamp - now > 60 <==> r == Err(TimestampInFuture))
            && (b.timestamp - now < -60 <==> r == Err(TooOld))
            && (-60 <= b.timestamp - now <= 60 ==>
                  && (ed == None || x == None <==> r == Err(InvalidKeyHex))
                  && (ed.Some? && x.Some? ==>
                        && (|ed.value| != 32 || |x.value| != 32 <==> r == Err(InvalidKey))
                        && (|ed.value| == 32 && |x.value| == 32 ==>
                              var claimed := FromHex(b.fingerprint);
                              && (claimed.Err? <==> r == Err(InvalidFingerprint))
                              && (claimed.Ok? && claimed.value != c.derive(ed.value, x.value) <==> r == Err(Mismatch))
                              && (claimed == Ok(c.derive(ed.value, x.value)) ==>
                                    && (sig == None <==> r == Err(InvalidSignatureHex))
                                    && (sig.Some? && |sig.value| != 64 <==> r == Err(InvalidSignatureLength))
                                    && (r.Ok? || r == Err(SignatureVerificationFailed) <==>
                                        sig.Some? && |sig.value| == 64)))))
  {
  }

  /** A verified beacon has 64-digit keys whose fingerprint is the one it claims, signed by that very key. */
  lemma VerifiedIsSigned(c: Primitives, b: Beacon, now: u64, checked: bool)
    requires Verify(c, b, now, checked).Ok?
    ensures |b.ed25519Public| == 64 && |b.x25519Public| == 64 && AllHex(b.x25519Public)
    ensures |Digits(b.fingerprint)| == 40
    ensures var ed, x := FromDigits(b.ed25519Public), FromDigits(b.x25519Public);
            FromHex(b.fingerprint) == Ok(c.derive(ed, x)) && c.verify(ed, SignedBytes(b), FromDigits(b.signature))
  {
  }

  /** Everything signed but the port and the time, which come last and have fixed widths. */
  function SignedHead(b: Beacon): Bytes {
    ToLE(b.version, 2) + b.displayName + b.ed25519Public + b.x25519Public + b.fingerprint
  }

  lemma SameTail(a: Beacon, b: Beacon)
    requires SignedBytes(a) == SignedBytes(b)
    ensures SignedHead(a) == SignedHead(b) && a.tcpPort == b.tcpPort && a.timestamp == b.timestamp
  {
    var a5, b5 := SignedHead(a) + ToLE(a.tcpPort, 2), SignedHead(b) + ToLE(b.tcpPort, 2);
    assert SignedBytes(a) == a5 + ToLE(a.timestamp, 8) && SignedBytes(b) == b5 + ToLE(b.timestamp, 8);
    SplitEqual(a5, b5, ToLE(a.timestamp, 8), ToLE(b.timestamp, 8));
    SplitEqual(SignedHead(a), SignedHead(b), ToLE(a.tcpPort, 2), ToLE(b.tcpPort, 2));
    Spans();
    LERoundTrip(a.tcpPort, 2);
    LERoundTrip(b.tcpPort, 2);
    LERoundTrip(a.timestamp, 8);
    LERoundTrip(b.timestamp, 8);
  }

  /** Keys of one width and fingerprints of one length: the signed bytes determine every signed field. */
  lemma SameFields(a: Beacon, b: Beacon)
    requires SignedBytes(a) == SignedBytes(b) && |a.fingerprint| == |b.fingerprint|
    requires |a.ed25519Public| == |b.ed25519Public| && |a.x25519Public| == |b.x25519Public|
    ensures a == b.(signature := a.signature)
  {
    SameTail(a, b);
    var a1, b1 := ToLE(a.version, 2) + a.displayName, ToLE(b.version, 2) + b.displayName;
    var a2, b2 := a1 + a.ed25519Public, b1 + b.ed25519Public;
    var a3, b3 := a2 + a.x25519Public, b2 + b.x25519Public;
    SplitEqual(a3, b3, a.fingerprint, b.fingerprint);
    SplitEqual(a2, b2, a.x25519Public, b.x25519Public);
    SplitEqual(a1, b1, a.ed25519Public, b.ed25519Public);
    SplitEqual(ToLE(a.version, 2), ToLE(b.version, 2), a.displayName, b.displayName);
    Spans();
    LERoundTrip(a.version, 2);
    LERoundTrip(b.version, 2);
  }

  /** The signed bytes determine every signed field of beacons of the shape that `create` gives them. */
  lemma SignedBytesInjective(a: Beacon, b: Beacon)
    requires Shaped(a) && Shaped(b) && SignedBytes(a) == SignedBytes(b)
    ensures a == b.(signature := a.signature)
  {
    SameFields(a, b);
  }

  /** If what follows a hexadecimal digit is cut off one text and not off another, the other has more digits. */
  lemma LongerHasMoreDigits(head: Bytes, digit: byte, tail: Bytes, longer: Bytes)
    requires IsHexDigit(digit) && |tail| < |longer| <= |head| + 1 + |tail|
    requires longer == (head + [digit] + tail)[|head| + 1 + |tail| - |longer|..]
    ensures |Digits(longer)| > |Digits(tail)|
  {
    var extra := head[|head| + 1 + |tail| - |longer|..];
    assert longer == extra + ([digit] + tail);
    DigitsAppend(extra, [digit] + tail);
    DigitsCons(digit, tail);
  }

  /** The fingerprint text cannot reach into the key before it: that would give it more than 40 digits. */
  lemma NoLongerFingerprint(a: Beacon, b: Beacon)
    requires SignedHead(a) == SignedHead(b) && |Digits(a.fingerprint)| == |Digits(b.fingerprint)|
    requires a.x25519Public != [] && AllHex(a.x25519Public)
    ensures |b.fingerprint| <= |a.fingerprint|
  {
    if |a.fingerprint| < |b.fingerprint| {
      var k := |a.x25519Public| - 1;
      var head := ToLE(a.version, 2) + a.displayName + a.ed25519Public + a.x25519Public[..k];
      var digit := a.x25519Public[k];
      assert a.x25519Public == a.x25519Public[..k] + [digit];
      assert SignedHead(a) == head + [digit] + a.fingerprint;
      assert SignedHead(b)[|SignedHead(b)| - |b.fingerprint|..] == b.fingerprint;
      LongerHasMoreDigits(head, digit, a.fingerprint, b.fingerprint);
    }
  }

  /**
   Two verified beacons with the same signed bytes agree in every signed field, however their fingerprints are
   written.
   */
  lemma VerifiedInjective(c: Primitives, a: Beacon, t: u64, b: Beacon, u: u64, checked: bool)
    requires Verify(c, a, t, checked).Ok? && Verify(c, b, u, checked).Ok?
    requires SignedBytes(a) == SignedBytes(b)
    ensures a == b.(signature := a.signature)
  {
    VerifiedIsSigned(c, a, t, checked);
    VerifiedIsSigned(c, b, u, checked);
    SameTail(a, b);
    NoLongerFingerprint(a, b);
    NoLongerFingerprint(b, a);
    SameFields(a, b);
  }

  /** What a version-1 beacon signs is never what an identity payload signs. */
  lemma NeverAnIdentityPayload(b: Beacon, p: IdentityBind.Payload)
    requires b.version == 1
    ensures SignedBytes(b) != IdentityBind.SignaturePayload(p)
  {
    assert ToLE(1, 2) == [1] + ToLE(0, 1);
    assert SignedBytes(b)[0] == 1;
    assert IdentityBind.SignaturePayload(p)[0] == 114;
  }

  /**
   The signed bytes: version with its low byte first, name, keys, fingerprint, port and time with their low bytes
   first.
   */
  lemma SignedLayout(b: Beacon, k: nat)
    requires k < 8
    ensures var head := b.displayName + b.ed25519Public + b.x25519Public + b.fingerprint;
            var s, n := SignedBytes(b), |head|;
            && |s| == n + 12 && s[0] == b.version % 256 && s[1] == b.version / 256 && s[2..n + 2] == head
            && s[n + 2] == b.tcpPort % 256 && s[n + 3] == b.tcpPort / 256 && s[n + 4 + k] == Digit(b.timestamp, k)
  {
    var head := b.displayName + b.ed25519Public + b.x25519Public + b.fingerprint;
    assert SignedBytes(b) == ToLE(b.version, 2) + head + ToLE(b.tcpPort, 2) + ToLE(b.timestamp, 8);
    LEAt(b.version, 2, 0);
    LEAt(b.version, 2, 1);
    LEAt(b.tcpPort, 2, 0);
    LEAt(b.tcpPort, 2, 1);
    LEAt(b.timestamp, 8, k);
  }
}
