/**
 Fingerprints and their text forms. Text is its UTF-8 bytes: hexadecimal digits are ASCII, and no
 byte of a multi-byte character is one, so filtering bytes is filtering characters.
 */
module Fingerprint {
  import opened Bytes

  const FINGERPRINT_BYTES: nat := 20
  const FINGERPRINT_STRING_LEN: nat := 49
  const DASH: byte := 45

  datatype DomainError = Validation | ResourceLimit

  predicate IsHexDigit(b: byte) {
    48 <= b <= 57 || 65 <= b <= 70 || 97 <= b <= 102
  }

  predicate AllHex(s: Bytes) {
    forall i :: 0 <= i < |s| ==> IsHexDigit(s[i])
  }

  function HexValue(b: byte): (n: nat)
    requires IsHexDigit(b)
    ensures n < 16
  {
    if b <= 57 then b - 48 else if b <= 70 then b - 55 else b - 87
  }

  function LowerDigit(n: nat): (b: byte)
    requires n < 16
    ensures IsHexDigit(b) && HexValue(b) == n
  {
    if n < 10 then 48 + n else 87 + n
  }

  /** `to_ascii_uppercase` on one byte. */
  function Upper(b: byte): byte {
    if 97 <= b <= 122 then b - 32 else b
  }

  function UpperAll(s: Bytes): (r: Bytes)
    ensures |r| == |s| && forall i :: 0 <= i < |s| ==> r[i] == Upper(s[i])
  {
    seq(|s|, i requires 0 <= i < |s| => Upper(s[i]))
  }

  /** `hex::encode`: two lower-case digits per byte. */
  function HexEncode(s: Bytes): (r: Bytes)
    ensures |r| == 2 * |s| && AllHex(r)
  {
    if s == [] then [] else [LowerDigit(s[0] / 16), LowerDigit(s[0] % 16)] + HexEncode(s[1..])
  }

  function FromDigits(ds: Bytes): (r: Bytes)
    requires AllHex(ds) && |ds| % 2 == 0
    ensures 2 * |r| == |ds|
  {
    if ds == [] then [] else [16 * HexValue(ds[0]) + HexValue(ds[1])] + FromDigits(ds[2..])
  }

  /** `hex::decode`. */
  function HexDecode(s: Bytes): Option<Bytes> {
    if |s| % 2 == 0 && AllHex(s) then Some(FromDigits(s)) else None
  }

  function Keep(b: byte): Bytes {
    if IsHexDigit(b) then [b] else []
  }

  /** The hexadecimal digits of a text, in order. */
  function Digits(s: Bytes): Bytes {
    if s == [] then [] else Keep(s[0]) + Digits(s[1..])
  }

  lemma {:induction false} DigitsAreHex(s: Bytes)
    ensures AllHex(Digits(s))
  {
    if s != [] {
      DigitsAreHex(s[1..]);
    }
  }

  function FromHex(text: Bytes): Result<Bytes20, DomainError> {
    DigitsAreHex(text);
    var ds := Digits(text);
    if |ds| != 2 * FINGERPRINT_BYTES then Err(Validation) else Ok(FromDigits(ds))
  }

  /** Groups of four separated by dashes. */
  function Grouped(ds: Bytes): Bytes {
    if |ds| <= 4 then ds else ds[..4] + [DASH] + Grouped(ds[4..])
  }

  function Formatted(fp: Bytes20): Bytes {
    Grouped(UpperAll(HexEncode(fp)))
  }

  // ---------------------------------------------------------------------------------------
  // The loops.

  lemma DigitsCons(b: byte, s: Bytes)
    ensures Digits([b] + s) == Keep(b) + Digits(s)
  {
  }

  lemma {:induction false} FromDigitsAt(ds: Bytes, i: nat)
    requires AllHex(ds) && |ds| % 2 == 0 && 2 * i + 1 < |ds|
    ensures FromDigits(ds)[i] == 16 * HexValue(ds[2 * i]) + HexValue(ds[2 * i + 1])
  {
    if i > 0 {
      FromDigitsAt(ds[2..], i - 1);
    }
  }

  lemma DigitsFrom(text: Bytes, k: nat)
    requires k < |text|
    ensures Digits(text[k..]) == Keep(text[k]) + Digits(text[k + 1..])
  {
    assert text[k..][1..] == text[k + 1..];
  }

  method FilterDigits(text: Bytes) returns (cleaned: Bytes)
    ensures cleaned == Digits(text)
  {
    cleaned := [];
    for k := 0 to |text|
      invariant cleaned + Digits(text[k..]) == Digits(text)
    {
      DigitsFrom(text, k);
      Associates(cleaned, Keep(text[k]), Digits(text[k + 1..]));
      if IsHexDigit(text[k]) {
        cleaned := cleaned + [text[k]];
      } else {
        assert cleaned + [] == cleaned;
      }
    }
    assert cleaned == cleaned + Digits(text[|text|..]);
  }

  method FillBytes(ds: Bytes) returns (bytes: array<byte>)
    requires AllHex(ds) && |ds| == 40
    ensures fresh(bytes) && bytes[..] == FromDigits(ds)
  {
    bytes := new byte[20](_ => 0);
    for i := 0 to 20
      invariant forall j :: 0 <= j < i ==> bytes[j] == FromDigits(ds)[j]
    {
      FromDigitsAt(ds, i);
      bytes[i] := 16 * HexValue(ds[2 * i]) + HexValue(ds[2 * i + 1]);
    }
  }

  method ParseHex(text: Bytes) returns (r: Result<Bytes20, DomainError>)
    ensures r == FromHex(text)
  {
    var cleaned := FilterDigits(text);
    if |cleaned| != 2 * FINGERPRINT_BYTES {
      return Err(Validation);
    }
    DigitsAreHex(text);
    var bytes := FillBytes(cleaned);
    return Ok(bytes[..]);
  }

  /** What is still to be printed of the groups once `at` digits are out. */
  function Rest(ds: Bytes, at: nat): Bytes
    requires at <= |ds|
  {
    if at == |ds| then [] else (if at > 0 then [DASH] else []) + Grouped(ds[at..])
  }

  lemma RestStep(ds: Bytes, at: nat)
    requires at + 4 <= |ds|
    ensures Rest(ds, at) == (if at > 0 then [DASH] else []) + ds[at..at + 4] + Rest(ds, at + 4)
  {
  }

  method Format(fp: Bytes20) returns (text: Bytes)
    ensures text == Formatted(fp)
  {
    var hex := UpperAll(HexEncode(fp));
    text := [];
    var at := 0;
    assert Rest(hex, 0) == Grouped(hex) by { assert hex[0..] == hex; }
    while at < |hex|
      invariant 0 <= at <= |hex| == 40 && at % 4 == 0
      invariant text + Rest(hex, at) == Grouped(hex)
    {
      RestStep(hex, at);
      if at > 0 {
        text := text + [DASH];
      }
      text := text + hex[at..at + 4];
      at := at + 4;
    }
  }

  // ---------------------------------------------------------------------------------------
  // Round trips.

  lemma {:induction false} DecodeEncoded(s: Bytes)
    ensures FromDigits(HexEncode(s)) == s && HexDecode(HexEncode(s)) == Some(s)
  {
    if s != [] {
      DecodeEncoded(s[1..]);
      var hex := HexEncode(s);
      assert hex[2..] == HexEncode(s[1..]);
      assert hex[0] == LowerDigit(s[0] / 16) && hex[1] == LowerDigit(s[0] % 16);
      assert FromDigits(hex) == [16 * HexValue(hex[0]) + HexValue(hex[1])] + FromDigits(hex[2..]);
      assert s == [s[0]] + s[1..];
    }
  }

  lemma {:induction false} DigitsOfHex(ds: Bytes)
    requires AllHex(ds)
    ensures Digits(ds) == ds
  {
    if ds != [] {
      DigitsOfHex(ds[1..]);
    }
  }

  lemma {:induction false} DigitsAppend(s: Bytes, t: Bytes)
    ensures Digits(s + t) == Digits(s) + Digits(t)
  {
    if s == [] {
      assert s + t == t;
    } else {
      DigitsAppend(s[1..], t);
      assert (s + t)[1..] == s[1..] + t;
      Associates(Keep(s[0]), Digits(s[1..]), Digits(t));
    }
  }

  lemma {:induction false} DigitsOfGrouped(ds: Bytes)
    requires AllHex(ds)
    ensures Digits(Grouped(ds)) == ds
    ensures |ds| > 0 ==> |Grouped(ds)| == |ds| + (|ds| - 1) / 4
  {
    if |ds| <= 4 {
      DigitsOfHex(ds);
    } else {
      var group, rest := ds[..4], [DASH] + Grouped(ds[4..]);
      DigitsOfGrouped(ds[4..]);
      DigitsCons(DASH, Grouped(ds[4..]));
      assert Digits(rest) == ds[4..];
      DigitsOfHex(group);
      DigitsAppend(group, rest);
      assert Grouped(ds) == group + rest;
      assert ds == group + ds[4..];
    }
  }

  lemma SameDigit(a: byte, b: byte)
    requires IsHexDigit(a) && IsHexDigit(b)
    ensures HexValue(a) == HexValue(b) <==> Upper(a) == Upper(b)
  {
  }

  lemma SameBytes(a: Bytes, b: Bytes, i: nat)
    requires AllHex(a) && AllHex(b) && |a| == |b| && |a| % 2 == 0 && 2 * i + 1 < |a|
    ensures FromDigits(a)[i] == FromDigits(b)[i] <==>
            Upper(a[2 * i]) == Upper(b[2 * i]) && Upper(a[2 * i + 1]) == Upper(b[2 * i + 1])
  {
    FromDigitsAt(a, i);
    FromDigitsAt(b, i);
    SameDigit(a[2 * i], b[2 * i]);
    SameDigit(a[2 * i + 1], b[2 * i + 1]);
  }

  /** Two digit strings with the same case folding denote the same bytes, and only those do. */
  lemma FoldDecides(a: Bytes, b: Bytes)
    requires AllHex(a) && AllHex(b) && |a| == |b| && |a| % 2 == 0
    ensures FromDigits(a) == FromDigits(b) <==> UpperAll(a) == UpperAll(b)
  {
    if UpperAll(a) == UpperAll(b) {
      forall i | 0 <= i < |FromDigits(a)| ensures FromDigits(a)[i] == FromDigits(b)[i] {
        assert UpperAll(a)[2 * i] == UpperAll(b)[2 * i] && UpperAll(a)[2 * i + 1] == UpperAll(b)[2 * i + 1];
        SameBytes(a, b, i);
      }
    }
    if FromDigits(a) == FromDigits(b) {
      forall k | 0 <= k < |a| ensures UpperAll(a)[k] == UpperAll(b)[k] {
        assert k == 2 * (k / 2) || k == 2 * (k / 2) + 1;
        SameBytes(a, b, k / 2);
      }
    }
  }

  /** `from_hex` reads a text through its case-folded hexadecimal digits, and through nothing else. */
  lemma FromHexDependsOnFoldedDigits(s: Bytes, t: Bytes)
    ensures FromHex(s).Ok? <==> |Digits(s)| == 40
    ensures FromHex(s).Ok? && FromHex(t).Ok? ==>
              (FromHex(s) == FromHex(t) <==> UpperAll(Digits(s)) == UpperAll(Digits(t)))
  {
    DigitsAreHex(s);
    DigitsAreHex(t);
    if |Digits(s)| == 40 && |Digits(t)| == 40 {
      FoldDecides(Digits(s), Digits(t));
    }
  }

  /** Both printed forms parse back: the grouped upper-case form and the serialized lower-case form. */
  lemma PrintedFormsParse(fp: Bytes20)
    ensures FromHex(Formatted(fp)) == Ok(fp) && |Formatted(fp)| == FINGERPRINT_STRING_LEN
    ensures FromHex(HexEncode(fp)) == Ok(fp)
  {
    var hex := HexEncode(fp);
    DecodeEncoded(fp);
    DigitsOfHex(hex);
    DigitsOfGrouped(UpperAll(hex));
    assert UpperAll(UpperAll(hex)) == UpperAll(hex);
    FoldDecides(hex, UpperAll(hex));
  }

  // ---------------------------------------------------------------------------------------
  // The printed characters.

  function UpperDigit(n: nat): (b: byte)
    requires n < 16
    ensures IsHexDigit(b) && HexValue(b) == n
  {
    if n < 10 then 48 + n else 55 + n
  }

  /** Half-byte number `d`, the upper half of each byte first. */
  function Nibble(s: Bytes, d: nat): (n: nat)
    requires d < 2 * |s|
    ensures n < 16
  {
    if d % 2 == 0 then s[d / 2] / 16 else s[d / 2] % 16
  }

  lemma {:induction false} HexEncodeAt(s: Bytes, d: nat)
    requires d < 2 * |s|
    ensures HexEncode(s)[d] == LowerDigit(Nibble(s, d))
  {
    var hex := HexEncode(s);
    assert hex == [LowerDigit(s[0] / 16), LowerDigit(s[0] % 16)] + HexEncode(s[1..]);
    if d >= 2 {
      HexEncodeAt(s[1..], d - 2);
      assert s[1..][(d - 2) / 2] == s[d / 2];
    }
  }

  lemma {:induction false} GroupedLength(ds: Bytes)
    requires ds != []
    ensures |Grouped(ds)| == |ds| + (|ds| - 1) / 4
  {
    if |ds| > 4 {
      GroupedLength(ds[4..]);
    }
  }

  lemma {:induction false} GroupedAt(ds: Bytes, k: nat)
    requires |ds| % 4 == 0 && ds != [] && k < |Grouped(ds)|
    ensures k - k / 5 < |ds|
    ensures Grouped(ds)[k] == if k % 5 == 4 then DASH else ds[k - k / 5]
  {
    if |ds| > 4 {
      var tail := ds[4..];
      var all := ds[..4] + [DASH] + Grouped(tail);
      assert Grouped(ds) == all;
      if k < 4 {
        assert all[k] == ds[k];
      } else if k == 4 {
        assert all[k] == DASH;
      } else {
        var j := k - 5;
        GroupedAt(tail, j);
        assert all[k] == Grouped(tail)[j];
        assert j / 5 == k / 5 - 1 && j % 5 == k % 5;
        assert tail[j - j / 5] == ds[k - k / 5];
      }
    }
  }

  /** The printed form, character by character: a dash after every four digits, and upper-case digits between them. */
  lemma FormattedAt(fp: Bytes20, k: nat)
    requires k < 49
    ensures |Formatted(fp)| == 49
    ensures Formatted(fp)[k] == if k % 5 == 4 then 45 else UpperDigit(Nibble(fp, k - k / 5))
  {
    var hex := HexEncode(fp);
    GroupedLength(UpperAll(hex));
    GroupedAt(UpperAll(hex), k);
    if k % 5 != 4 {
      HexEncodeAt(fp, k - k / 5);
    }
  }
}
