/** Length-prefixed frames: a big-endian u32 length, then that many bytes. */
module Framing {
  import opened Bytes

  const MAX_FRAME_SIZE: nat := 65536 + 64

  /** Why reading a frame stopped: the stream ended inside or before one, a length was too large, or a read failed. */
  datatype ReadError = ConnectionClosed | FrameTooLarge(size: nat) | RecvFailed

  function Frame(data: Bytes): (s: Bytes)
    ensures |s| == 4 + |data|
  {
    ToBE(|data|, 4) + data
  }

  /** Encoding; `None` is the panic on oversized data. */
  function Encode(data: Bytes): Option<Bytes> {
    if |data| <= MAX_FRAME_SIZE then Some(Frame(data)) else None
  }

  /** A finite byte stream. After its last byte it ends, or fails if `fails`. */
  class ByteStream {
    const data: Bytes
    const fails: bool
    var pos: nat

    ghost predicate Valid() reads this { pos <= |data| }

    ghost function Remaining(): Bytes
      reads this
      requires Valid()
    {
      data[pos..]
    }

    constructor (data: Bytes, fails: bool)
      ensures Valid() && Remaining() == data && this.fails == fails
    {
      this.data, this.fails, pos := data, fails, 0;
    }

    /** `read_exact`: the next `n` bytes; or, if there are fewer, an error, and those are gone. */
    method ReadExact(n: nat) returns (r: Result<Bytes, ReadError>)
      requires Valid()
      modifies this
      ensures Valid()
      ensures n <= |old(Remaining())| ==>
                r == Ok(old(Remaining())[..n]) && Remaining() == old(Remaining())[n..]
      ensures n > |old(Remaining())| ==>
                r == Err(if fails then RecvFailed else ConnectionClosed) && Remaining() == []
    {
      if n <= |data| - pos {
        r := Ok(data[pos..pos + n]);
        assert data[pos..][..n] == data[pos..pos + n];
        pos := pos + n;
      } else {
        r := Err(if fails then RecvFailed else ConnectionClosed);
        pos := |data|;
      }
    }
  }

  /** One read of a frame with a size limit: what comes out and what is left of the stream. */
  function DecodeOnce(s: Bytes, max: nat): (Result<Bytes, ReadError>, Bytes) {
    if |s| < 4 then (Err(ConnectionClosed), []) else
      var len := FromBE(s[..4]);
      if len > max then (Err(FrameTooLarge(len)), s[4..])
      else if |s| < 4 + len then (Err(ConnectionClosed), [])
      else (Ok(s[4..4 + len]), s[4 + len..])
  }

  /** The result of a read from a stream that may fail where another would end. */
  function Ending(r: Result<Bytes, ReadError>, fails: bool): Result<Bytes, ReadError> {
    if fails && r == Err(ConnectionClosed) then Err(RecvFailed) else r
  }

  method Decode(stream: ByteStream, max: nat) returns (r: Result<Bytes, ReadError>)
    requires stream.Valid()
    modifies stream
    ensures stream.Valid()
    ensures var (result, rest) := DecodeOnce(old(stream.Remaining()), max);
            r == Ending(result, stream.fails) && stream.Remaining() == rest
  {
    var lenBytes := stream.ReadExact(4);
    if lenBytes.Err? {
      return lenBytes;
    }
    var len := FromBE(lenBytes.value);
    if len > max {
      return Err(FrameTooLarge(len));
    }
    r := stream.ReadExact(len);
    assert |old(stream.Remaining())| >= 4 + len ==>
        old(stream.Remaining())[4..][..len] == old(stream.Remaining())[4..4 + len];
  }

  // ---------------------------------------------------------------------------------------
  // A read that waits for its bytes. What it has taken off the stream it holds itself.

  /** A read that holds `taken` is not done. */
  predicate Waiting(taken: Bytes, max: nat) {
    DecodeOnce(taken, max).0 == Err(ConnectionClosed)
  }

  /**
   Polling a read that holds `taken` when `arrived` is there to be read, and nothing will follow if `eof`: the result or
   `None` for waiting, what it holds then, and what is left.
   */
  function PollOnce(taken: Bytes, arrived: Bytes, eof: bool, max: nat)
    : (Option<Result<Bytes, ReadError>>, Bytes, Bytes)
  {
    var (r, rest) := DecodeOnce(taken + arrived, max);
    if r != Err(ConnectionClosed) then (Some(r), [], rest)
    else if eof then (Some(r), [], [])
    else (None, taken + arrived, [])
  }

  /** Filling a buffer up to `size` bytes, as far as there are any. */
  function Fill(buffer: Bytes, arrived: Bytes, size: nat): (r: (Bytes, Bytes))
    ensures r.0 + r.1 == buffer + arrived
    ensures |buffer| <= size ==> |r.0| <= size && (|r.0| < size ==> r.1 == [])
  {
    var k := if |buffer| >= size then 0 else if |arrived| <= size - |buffer| then |arrived| else size - |buffer|;
    assert buffer + arrived[..k] + arrived[k..] == buffer + arrived;
    (buffer + arrived[..k], arrived[k..])
  }

  /** The decoder as it is polled: header, length check, payload, resumed where it had to wait. */
  method PollDecode(taken: Bytes, arrived: Bytes, eof: bool, max: nat)
    returns (r: Option<Result<Bytes, ReadError>>, held: Bytes, left: Bytes)
    requires Waiting(taken, max)
    ensures (r, held, left) == PollOnce(taken, arrived, eof, max)
  {
    ghost var all := taken + arrived;
    held, left := taken, arrived;
    if |held| < 4 {
      var filled := Fill(held, left, 4);
      held, left := filled.0, filled.1;
      if |held| < 4 {
        assert held == held + left;
        return if eof then Some(Err(ConnectionClosed)) else None, if eof then [] else held, [];
      }
    }
    assert all[..4] == held[..4];
    var len := FromBE(held[..4]);
    assert |taken| >= 4 ==> taken[..4] == all[..4];
    if len > max {
      assert |held| == 4;
      assert all[4..] == left;
      return Some(Err(FrameTooLarge(len))), [], left;
    }
    var filled := Fill(held, left, 4 + len);
    held, left := filled.0, filled.1;
    if |held| < 4 + len {
      assert held == held + left;
      return if eof then Some(Err(ConnectionClosed)) else None, if eof then [] else held, [];
    }
    assert all[4..4 + len] == held[4..] && all[4 + len..] == left;
    return Some(Ok(held[4..])), [], left;
  }

  /** A poll makes no bytes, and a payload costs its frame. */
  lemma PollSizes(taken: Bytes, arrived: Bytes, eof: bool, max: nat)
    ensures var (r, held, left) := PollOnce(taken, arrived, eof, max);
            && |held| + |left| <= |taken| + |arrived|
            && (r.Some? && r.value.Ok? ==> |held| + |left| + 4 + |r.value.value| == |taken| + |arrived|)
  {
  }

  /** What has been read stays read as more bytes come; only waiting can change. */
  lemma DecodeMonotone(a: Bytes, b: Bytes, max: nat)
    ensures var (r, rest) := DecodeOnce(a, max);
            r != Err(ConnectionClosed) ==> DecodeOnce(a + b, max) == (r, rest + b)
  {
    if |a| >= 4 {
      assert (a + b)[..4] == a[..4];
      var len := FromBE(a[..4]);
      if len > max {
        assert (a + b)[4..] == a[4..] + b;
      } else if |a| >= 4 + len {
        assert (a + b)[4..4 + len] == a[4..4 + len];
        assert (a + b)[4 + len..] == a[4 + len..] + b;
      }
    }
  }

  /** Reading to the end in one go is one poll at the end of the stream, and reading in pieces makes no difference. */
  lemma PollsAddUp(taken: Bytes, a: Bytes, b: Bytes, eof: bool, max: nat)
    ensures var (r, held, left) := PollOnce([], a, true, max);
            r == Some(DecodeOnce(a, max).0) && held == [] && left == DecodeOnce(a, max).1
    ensures var (r, held, left) := PollOnce(taken, a, false, max);
            PollOnce(taken, a + b, eof, max) ==
            if r.None? then PollOnce(held, b, eof, max) else (r, held, left + b)
  {
    assert [] + a == a;
    assert taken + a + b == taken + (a + b);
    DecodeMonotone(taken + a, b, max);
  }

  /** Reading frames until the first error: the payloads, the bytes of the unfinished frame, and the error. */
  function DecodeAll(s: Bytes, max: nat): (seq<Bytes>, Bytes, ReadError)
    decreases |s|
  {
    match DecodeOnce(s, max)
    case (Err(e), _) => ([], s, e)
    case (Ok(payload), rest) =>
      var (payloads, tail, e) := DecodeAll(rest, max);
      ([payload] + payloads, tail, e)
  }

  function Concat(payloads: seq<Bytes>): Bytes {
    if payloads == [] then [] else Frame(payloads[0]) + Concat(payloads[1..])
  }

  predicate AllWithin(payloads: seq<Bytes>, max: nat) {
    forall i :: 0 <= i < |payloads| ==> |payloads[i]| <= max
  }

  /** A frame at the head of a stream is read back, and the rest is untouched. */
  lemma DecodeFrame(data: Bytes, rest: Bytes, max: nat)
    requires |data| <= max < U32_LIMIT
    ensures DecodeOnce(Frame(data) + rest, max) == (Ok(data), rest)
  {
    var s := Frame(data) + rest;
    Spans();
    BERoundTrip(|data|, 4);
    assert s[..4] == ToBE(|data|, 4);
    assert s[4..4 + |data|] == data;
    assert s[4 + |data|..] == rest;
  }

  /** A frame: the length, high byte first in four bytes, then the data. */
  lemma FrameLayout(data: Bytes, k: nat)
    requires k < 4
    ensures Frame(data)[k] == Digit(|data|, 3 - k) && Frame(data)[4..] == data
  {
    BEAt(|data|, 4, k);
  }

  /** Encoding fails exactly on oversized data. */
  lemma EncodeFailsIffOversized(data: Bytes)
    ensures Encode(data) == None <==> |data| > 65600
    ensures Encode(data).Some? ==> DecodeOnce(Encode(data).value, MAX_FRAME_SIZE) == (Ok(data), [])
  {
    if |data| <= MAX_FRAME_SIZE {
      DecodeFrame(data, [], MAX_FRAME_SIZE);
      assert Frame(data) + [] == Frame(data);
    }
  }

  /** The stream starts with the frame of `data`, and `rest` follows. */
  ghost predicate StartsWith(s: Bytes, data: Bytes, rest: Bytes) {
    s == Frame(data) + rest
  }

  /**
   What one read means: a payload exactly when the stream starts with its frame and it is within the limit; too large
   exactly when the length prefix says so, with only the prefix gone; closed in all other cases.
   */
  lemma DecodeOnceMeans(s: Bytes, max: nat)
    requires max < U32_LIMIT
    ensures forall data, rest ::
              DecodeOnce(s, max) == (Ok(data), rest) <==> StartsWith(s, data, rest) && |data| <= max
    ensures forall len: nat, rest ::
              DecodeOnce(s, max) == (Err(FrameTooLarge(len)), rest) <==>
              |s| >= 4 && len == FromBE(s[..4]) && len > max && rest == s[4..]
    ensures DecodeOnce(s, max).0 != Err(RecvFailed)
    ensures DecodeOnce(s, max).0 == Err(ConnectionClosed) ==> DecodeOnce(s, max).1 == []
  {
    forall data, rest
      ensures DecodeOnce(s, max) == (Ok(data), rest) <==> StartsWith(s, data, rest) && |data| <= max
    {
      if StartsWith(s, data, rest) && |data| <= max {
        DecodeFrame(data, rest, max);
      }
      if DecodeOnce(s, max) == (Ok(data), rest) {
        BECanonical(s[..4]);
        assert s == s[..4] + data + rest;
      }
    }
  }

  /** A strict prefix of a frame is never a frame: the reader sees the stream close. */
  lemma DecodeCutFrame(data: Bytes, k: nat, max: nat)
    requires |data| <= max < U32_LIMIT && k < |Frame(data)|
    ensures DecodeOnce(Frame(data)[..k], max) == (Err(ConnectionClosed), [])
  {
    if k >= 4 {
      Spans();
      BERoundTrip(|data|, 4);
      assert Frame(data)[..k][..4] == ToBE(|data|, 4);
    }
  }

  /** How many frames of the encoding of `payloads` are complete after `cut` bytes. */
  function WholeFrames(payloads: seq<Bytes>, cut: nat): (m: nat)
    ensures m <= |payloads|
  {
    if payloads == [] || cut < |Frame(payloads[0])| then 0
    else 1 + WholeFrames(payloads[1..], cut - |Frame(payloads[0])|)
  }

  lemma {:induction false} WholeFramesBounds(payloads: seq<Bytes>, cut: nat)
    ensures var m := WholeFrames(payloads, cut);
            && |Concat(payloads[..m])| <= cut
            && (m < |payloads| ==> cut < |Concat(payloads[..m + 1])|)
  {
    if payloads != [] {
      var m := WholeFrames(payloads, cut);
      if m > 0 {
        WholeFramesBounds(payloads[1..], cut - |Frame(payloads[0])|);
        assert payloads[..m][1..] == payloads[1..][..m - 1];
      }
      if m < |payloads| {
        assert payloads[..m + 1][1..] == payloads[1..][..m];
      }
    }
  }

  lemma {:induction false} AllFramesWhole(payloads: seq<Bytes>)
    ensures WholeFrames(payloads, |Concat(payloads)|) == |payloads|
  {
    if payloads != [] {
      AllFramesWhole(payloads[1..]);
    }
  }

  /**
   Cutting the encoding of a list of payloads anywhere yields exactly the payloads whose frames
   are whole, then `ConnectionClosed`.
   */
  lemma {:induction false} DecodeAnyPrefix(payloads: seq<Bytes>, cut: nat, max: nat)
    requires AllWithin(payloads, max) && max < U32_LIMIT && cut <= |Concat(payloads)|
    ensures var (got, tail, e) := DecodeAll(Concat(payloads)[..cut], max);
            got == payloads[..WholeFrames(payloads, cut)] && e == ConnectionClosed
  {
    if payloads != [] {
      var head, rest := Frame(payloads[0]), Concat(payloads[1..]);
      if cut < |head| {
        assert (head + rest)[..cut] == head[..cut];
        DecodeCutFrame(payloads[0], cut, max);
      } else {
        var k := cut - |head|;
        assert (head + rest)[..cut] == head + rest[..k];
        DecodeFrame(payloads[0], rest[..k], max);
        DecodeAnyPrefix(payloads[1..], k, max);
        var m := WholeFrames(payloads[1..], k);
        assert payloads[..m + 1] == [payloads[0]] + payloads[1..][..m];
      }
    }
  }

  /** Decoding the concatenated encodings returns exactly the list, then `ConnectionClosed`. */
  lemma DecodeAllOfConcat(payloads: seq<Bytes>, max: nat)
    requires AllWithin(payloads, max) && max < U32_LIMIT
    ensures DecodeAll(Concat(payloads), max) == (payloads, [], ConnectionClosed)
  {
    var s := Concat(payloads);
    DecodeAnyPrefix(payloads, |s|, max);
    assert s[..|s|] == s;
    AllFramesWhole(payloads);
    assert payloads[..|payloads|] == payloads;
    ReencodeDecoded(s, max);
  }

  /** Any stream at all is the encoding of what was decoded from it, followed by the unfinished tail. */
  lemma {:induction false} ReencodeDecoded(s: Bytes, max: nat)
    requires max < U32_LIMIT
    ensures var (payloads, tail, e) := DecodeAll(s, max);
            s == Concat(payloads) + tail && AllWithin(payloads, max)
    decreases |s|
  {
    var (r, rest) := DecodeOnce(s, max);
    if r.Ok? {
      BECanonical(s[..4]);
      assert s == Frame(r.value) + rest;
      ReencodeDecoded(rest, max);
      var (payloads, tail, e) := DecodeAll(rest, max);
      assert ([r.value] + payloads)[1..] == payloads;
    }
  }

  lemma {:induction false} ConcatAppend(a: seq<Bytes>, b: seq<Bytes>)
    ensures Concat(a + b) == Concat(a) + Concat(b)
  {
    if a == [] {
      assert a + b == b;
    } else {
      ConcatAppend(a[1..], b);
      ConcatCons(a[0], a[1..] + b);
      assert a + b == [a[0]] + (a[1..] + b);
      Associates(Frame(a[0]), Concat(a[1..]), Concat(b));
    }
  }

  lemma ConcatCons(p: Bytes, rest: seq<Bytes>)
    ensures Concat([p] + rest) == Frame(p) + Concat(rest)
  {
    assert ([p] + rest)[1..] == rest;
  }
}
