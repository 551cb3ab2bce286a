/** Bytes and the fixed-width integer encodings used on the wire and on disk. */
module Bytes {

  type byte = b: int | 0 <= b < 256
  type Bytes = seq<byte>

  datatype Option<+T> = None | Some(value: T)
  datatype Result<+T, +E> = Ok(value: T) | Err(error: E)

  const U16_LIMIT: nat := 0x1_0000
  const U32_LIMIT: nat := 0x1_0000_0000
  const U64_LIMIT: nat := 0x1_0000_0000_0000_0000
  const I64_MAX: int := 0x7FFF_FFFF_FFFF_FFFF
  const I64_MIN: int := -0x8000_0000_0000_0000

  /** One second of a clock that counts nanoseconds. */
  const SECOND: nat := 1_000_000_000

  type i64 = t: int | I64_MIN <= t <= I64_MAX
  type u64 = n: int | 0 <= n < U64_LIMIT
  type u16 = n: int | 0 <= n < U16_LIMIT

  type Bytes12 = s: Bytes | |s| == 12 witness seq(12, _ => 0)
  type Bytes20 = s: Bytes | |s| == 20 witness seq(20, _ => 0)
  type Bytes32 = s: Bytes | |s| == 32 witness seq(32, _ => 0)
  type Bytes64 = s: Bytes | |s| == 64 witness seq(64, _ => 0)

  /** The number of values that fit in `width` bytes. */
  function Span(width: nat): (n: nat)
    ensures n > 0
  {
    if width == 0 then 1 else 256 * Span(width - 1)
  }

  /** Little-endian, least significant byte first; higher bits are cut off. */
  function ToLE(n: nat, width: nat): (s: Bytes)
    ensures |s| == width
  {
    if width == 0 then [] else [n % 256] + ToLE(n / 256, width - 1)
  }

  function FromLE(s: Bytes): (n: nat)
    ensures n < Span(|s|)
  {
    if s == [] then 0 else s[0] + 256 * FromLE(s[1..])
  }

  lemma {:induction false} LERoundTrip(n: nat, width: nat)
    requires n < Span(width)
    ensures FromLE(ToLE(n, width)) == n
  {
    if width > 0 {
      LERoundTrip(n / 256, width - 1);
      assert ToLE(n, width)[1..] == ToLE(n / 256, width - 1);
    }
  }

  lemma {:induction false} LECanonical(s: Bytes)
    ensures ToLE(FromLE(s), |s|) == s
  {
    if s != [] {
      LECanonical(s[1..]);
      var n := FromLE(s);
      assert n / 256 == FromLE(s[1..]) && n % 256 == s[0];
      assert ToLE(n, |s|) == [n % 256] + ToLE(n / 256, |s| - 1);
      assert s == [s[0]] + s[1..];
    }
  }

  /** Big-endian, most significant byte first. */
  function ToBE(n: nat, width: nat): (s: Bytes)
    ensures |s| == width
  {
    if width == 0 then [] else ToBE(n / 256, width - 1) + [n % 256]
  }

  function FromBE(s: Bytes): (n: nat)
    ensures n < Span(|s|)
  {
    if s == [] then 0 else 256 * FromBE(s[..|s| - 1]) + s[|s| - 1]
  }

  lemma {:induction false} BERoundTrip(n: nat, width: nat)
    requires n < Span(width)
    ensures FromBE(ToBE(n, width)) == n
  {
    if width > 0 {
      BERoundTrip(n / 256, width - 1);
      var s := ToBE(n, width);
      assert s[..|s| - 1] == ToBE(n / 256, width - 1);
    }
  }

  lemma {:induction false} BECanonical(s: Bytes)
    ensures ToBE(FromBE(s), |s|) == s
  {
    if s != [] {
      var k := |s| - 1;
      BECanonical(s[..k]);
      var n := FromBE(s);
      assert n / 256 == FromBE(s[..k]) && n % 256 == s[k];
      assert ToBE(n, |s|) == ToBE(n / 256, k) + [n % 256];
      assert s == s[..k] + [s[k]];
    }
  }

  /** Digit number `k` to the base 256, the lowest first. */
  function Digit(n: nat, k: nat): nat
    decreases k
  {
    if k == 0 then n % 256 else Digit(n / 256, k - 1)
  }

  /** Byte `k` of a little-endian number is its digit number `k`. */
  lemma {:induction false} LEAt(n: nat, width: nat, k: nat)
    requires k < width
    ensures ToLE(n, width)[k] == Digit(n, k)
  {
    if k > 0 {
      LEAt(n / 256, width - 1, k - 1);
    }
  }

  /** Byte `k` of a big-endian number is a digit counted from the other end. */
  lemma {:induction false} BEAt(n: nat, width: nat, k: nat)
    requires k < width
    ensures ToBE(n, width)[k] == Digit(n, width - 1 - k)
  {
    if k < width - 1 {
      BEAt(n / 256, width - 1, k);
    }
  }

  lemma Spans()
    ensures Span(2) == U16_LIMIT && Span(4) == U32_LIMIT && Span(8) == U64_LIMIT
  {
  }

  /** `i64::to_le_bytes`: two's complement, eight bytes. */
  function I64ToLE(t: i64): (s: Bytes)
    ensures |s| == 8
  {
    ToLE(if t < 0 then t + U64_LIMIT else t, 8)
  }

  /** `i64::from_le_bytes`. */
  function I64FromLE(s: Bytes): i64
    requires |s| == 8
  {
    Spans();
    var n := FromLE(s);
    if n > I64_MAX then n - U64_LIMIT else n
  }

  lemma I64RoundTrip(t: i64)
    ensures I64FromLE(I64ToLE(t)) == t
  {
    Spans();
    LERoundTrip(if t < 0 then t + U64_LIMIT else t, 8);
  }

  lemma I64Canonical(s: Bytes)
    requires |s| == 8
    ensures I64ToLE(I64FromLE(s)) == s
  {
    Spans();
    LECanonical(s);
  }

  /** Splitting equal concatenations whose first parts have the same length. */
  lemma SplitEqual<T>(a: seq<T>, b: seq<T>, x: seq<T>, y: seq<T>)
    requires a + x == b + y
    requires |a| == |b|
    ensures a == b && x == y
  {
    assert a == (a + x)[..|a|] && b == (b + y)[..|b|];
    assert x == (a + x)[|a|..] && y == (b + y)[|b|..];
  }

  lemma SubsetSize<T>(a: set<T>, b: set<T>)
    requires a <= b
    ensures |a| <= |b|
  {
    assert b == a + (b - a);
  }

  lemma Associates<T>(a: seq<T>, b: seq<T>, c: seq<T>)
    ensures a + (b + c) == a + b + c
  {
  }

  /** `out[at..at + |src|].copy_from_slice(src)`. */
  method CopyInto(out: array<byte>, at: nat, src: Bytes)
    requires at + |src| <= out.Length
    modifies out
    ensures out[..at + |src|] == old(out[..at]) + src
    ensures out[at + |src|..] == old(out[at + |src|..])
  {
    for i := 0 to |src|
      invariant forall k :: 0 <= k < at || at + i <= k < out.Length ==> out[k] == old(out[k])
      invariant forall k :: at <= k < at + i ==> out[k] == src[k - at]
    {
      out[at + i] := src[i];
    }
  }
}
