// pkg/math/math.go and the Go library calls around it: hexadecimal text.
module Hex {
  import opened Models

  const TWO_64: int := 0x1_0000_0000_0000_0000
  const TWO_63: int := 0x8000_0000_0000_0000
  const TWO_60: int := 0x1000_0000_0000_0000

  // ---------- Digits ----------

  function Digit(d: nat): char
    requires d < 16
  {
    if d < 10 then '0' + d as char else 'a' + (d - 10) as char
  }

  /** Value of a hexadecimal digit of either case, or 16 for any other character. */
  function DigitValue(c: char): (d: nat)
    ensures d <= 16
  {
    if '0' <= c <= '9' then (c - '0') as nat
    else if 'a' <= c <= 'f' then (c - 'a') as nat + 10
    else if 'A' <= c <= 'F' then (c - 'A') as nat + 10
    else 16
  }

  predicate AllHex(s: string) {
    forall i :: 0 <= i < |s| ==> DigitValue(s[i]) < 16
  }

  function HexValue(s: string): nat
    requires AllHex(s)
  {
    if s == "" then 0 else HexValue(s[..|s| - 1]) * 16 + DigitValue(s[|s| - 1])
  }

  function Lower(c: char): char {
    if 'A' <= c <= 'Z' then c - 'A' + 'a' else c
  }

  /** strings.ToLower on ASCII text. */
  function ToLower(s: string): (r: string)
    ensures |r| == |s|
  {
    seq(|s|, i requires 0 <= i < |s| => Lower(s[i]))
  }

  lemma ToLowerIdempotent(s: string)
    ensures ToLower(ToLower(s)) == ToLower(s)
  {}

  /** The two characters are the same, or the two cases of one letter. */
  predicate SameLetter(c: char, d: char) {
    || c == d
    || ('A' <= c <= 'Z' && d as int == c as int + 32)
    || ('A' <= d <= 'Z' && c as int == d as int + 32)
  }

  predicate SameSpelling(s: string, t: string) {
    |s| == |t| && forall i :: 0 <= i < |s| ==> SameLetter(s[i], t[i])
  }

  lemma LowerIff(c: char, d: char)
    ensures Lower(c) == Lower(d) <==> SameLetter(c, d)
  {}

  /** Two spellings give one store key exactly when they differ in the case of letters only, as a checksummed and a
      lower-case address do; a key has no upper-case letter. */
  lemma SameKeyIff(s: string, t: string)
    ensures ToLower(s) == ToLower(t) <==> SameSpelling(s, t)
    ensures forall i :: 0 <= i < |s| ==> !('A' <= ToLower(s)[i] <= 'Z')
  {
    if |s| == |t| {
      forall i | 0 <= i < |s| ensures ToLower(s)[i] == ToLower(t)[i] <==> SameLetter(s[i], t[i]) {
        LowerIff(s[i], t[i]);
      }
      if ToLower(s) == ToLower(t) {
        forall i | 0 <= i < |s| ensures SameLetter(s[i], t[i]) {
          assert ToLower(s)[i] == ToLower(t)[i];
        }
      }
    }
  }

  // ---------- Parsing ----------

  /** strings.TrimPrefix(s, "0x"). */
  function TrimPrefix(s: string): string {
    if |s| >= 2 && s[0] == '0' && s[1] == 'x' then s[2..] else s
  }

  /** big.Int.SetString(s, 16), with 0 for text it rejects: an optional sign, then at least one digit. */
  function ParseHexBigInt(text: string): int {
    var s := TrimPrefix(text);
    var digits := if s != "" && (s[0] == '+' || s[0] == '-') then s[1..] else s;
    if digits == "" || !AllHex(digits) then 0
    else
      var magnitude: int := HexValue(digits);
      if s[0] == '-' then -magnitude else magnitude
  }

  /** The last 20 bytes of a topic as a lower-case address; shorter text is kept whole. */
  function ParseHexAddress(text: string): Address {
    var s := TrimPrefix(text);
    if |s| >= 40 then "0x" + ToLower(s[|s| - 40..]) else "0x" + ToLower(s)
  }

  /** The value strconv.ParseUint(s, 16, 64) returns when its error is ignored: 0 at the first character
      that is no digit, and the greatest uint64 once the number no longer fits. n is the value so far. */
  function ScanUint(s: string, n: uint64): uint64 {
    if s == "" then n
    else if DigitValue(s[0]) == 16 then 0
    else if n >= TWO_60 then TWO_64 - 1
    else ScanUint(s[1..], n * 16 + DigitValue(s[0]))
  }

  function ParseHexUint(text: string): uint64 {
    ScanUint(TrimPrefix(text), 0)
  }

  /** big.Int.Int64: the low 64 bits of the magnitude as two's complement, with the sign applied. */
  function Int64Of(x: int): int {
    var low := (if x < 0 then -x else x) % TWO_64;
    var v := if low >= TWO_63 then low - TWO_64 else low;
    if x < 0 && v != -TWO_63 then -v else v
  }

  /** uint8(x.Uint64()). */
  function Uint8Of(x: int): uint8 {
    (if x < 0 then -x else x) % TWO_64 % 256
  }

  // ---------- Writing ----------

  /** n in exactly w lower-case hexadecimal digits. */
  function HexWord(n: nat, w: nat): (s: string)
    ensures |s| == w
  {
    if w == 0 then "" else HexWord(n / 16, w - 1) + [Digit(n % 16)]
  }

  /** fmt.Sprintf("%x", n). */
  function FormatHex(n: nat): (s: string)
    ensures s != ""
  {
    if n < 16 then [Digit(n)] else FormatHex(n / 16) + [Digit(n % 16)]
  }

  function AddressText(a: nat): Address {
    "0x" + HexWord(a, 40)
  }

  // ---------- Reading back what was written ----------

  lemma DigitRoundTrip(d: nat)
    requires d < 16
    ensures DigitValue(Digit(d)) == d && Lower(Digit(d)) == Digit(d)
    ensures Digit(d) != 'x' && Digit(d) != '+' && Digit(d) != '-'
  {}

  predicate IsLowerHex(c: char) {
    '0' <= c <= '9' || 'a' <= c <= 'f'
  }

  lemma {:induction false} HexWordDigits(n: nat, w: nat)
    ensures forall i :: 0 <= i < w ==> IsLowerHex(HexWord(n, w)[i])
  {
    if w > 0 { HexWordDigits(n / 16, w - 1); }
  }

  lemma LowerHexText(s: string)
    requires forall i :: 0 <= i < |s| ==> IsLowerHex(s[i])
    ensures AllHex(s) && ToLower(s) == s && TrimPrefix(s) == s
    ensures s != "" ==> s[0] != '+' && s[0] != '-'
  {}

  lemma {:induction false} HexWordReads(n: nat, w: nat)
    requires n < Pow(16, w)
    ensures AllHex(HexWord(n, w)) && HexValue(HexWord(n, w)) == n
  {
    HexWordDigits(n, w);
    LowerHexText(HexWord(n, w));
    if w > 0 {
      HexWordReads(n / 16, w - 1);
      DigitRoundTrip(n % 16);
      assert HexWord(n, w)[..w - 1] == HexWord(n / 16, w - 1);
    }
  }

  /** The low digits of a longer word are the shorter word. */
  lemma {:induction false} HexWordSuffix(n: nat, w: nat, k: nat)
    ensures HexWord(n, k + w)[k..] == HexWord(n, w)
  {
    if w > 0 {
      HexWordSuffix(n / 16, w - 1, k);
      assert HexWord(n, k + w) == HexWord(n / 16, k + w - 1) + [Digit(n % 16)];
    }
  }

  lemma {:induction false} PowMonotone(v: nat, w: nat)
    requires v <= w
    ensures Pow(16, v) <= Pow(16, w)
  {
    if v < w { PowMonotone(v, w - 1); }
  }

  lemma ParsePlain(text: string)
    requires TrimPrefix(text) != "" && forall i :: 0 <= i < |TrimPrefix(text)| ==> IsLowerHex(TrimPrefix(text)[i])
    ensures AllHex(TrimPrefix(text)) && ParseHexBigInt(text) == HexValue(TrimPrefix(text))
  {}

  /** A written word reads back as its number, whatever its width. */
  lemma WordRoundTrip(n: nat, w: nat)
    requires n < Pow(16, w) && w > 0
    ensures ParseHexBigInt(HexWord(n, w)) == n && ParseHexBigInt("0x" + HexWord(n, w)) == n
  {
    var s := HexWord(n, w);
    HexWordReads(n, w);
    HexWordDigits(n, w);
    LowerHexText(s);
    ParsePlain(s);
    assert ("0x" + s)[2..] == s;
    ParsePlain("0x" + s);
  }

  /** An address padded to a 32-byte topic reads back as its lower-case text. */
  lemma AddressRoundTrip(a: nat)
    requires a < Pow(16, 40)
    ensures ParseHexAddress("0x" + HexWord(a, 64)) == AddressText(a)
  {
    assert ("0x" + HexWord(a, 64))[2..] == HexWord(a, 64);
    HexWordSuffix(a, 40, 24);
    HexWordDigits(a, 40);
    LowerHexText(HexWord(a, 40));
  }

  /** (n*16 + d) followed by the rest of the digits is n followed by all of them. */
  lemma Shift(n: nat, d: nat, p: nat, rest: nat)
    ensures (n * 16 + d) * p + rest == n * (16 * p) + (d * p + rest)
    ensures p > 0 && n >= TWO_60 ==> n * (16 * p) >= TWO_64
  {}

  /** Scanning digits that fit computes n * 16^|s| + HexValue(s). */
  lemma {:induction false} ScanFits(s: string, n: uint64)
    requires AllHex(s) && n * Pow(16, |s|) + HexValue(s) < TWO_64
    ensures ScanUint(s, n) == n * Pow(16, |s|) + HexValue(s)
  {
    if s != "" {
      HexValueHead(s);
      Shift(n, DigitValue(s[0]), Pow(16, |s| - 1), HexValue(s[1..]));
      ScanFits(s[1..], n * 16 + DigitValue(s[0]));
    }
  }

  lemma Carry(d: nat, p: nat, rest: nat, last: nat)
    ensures (d * p + rest) * 16 + last == d * (16 * p) + (rest * 16 + last)
  {}

  lemma {:induction false} HexValueHead(s: string)
    requires AllHex(s) && s != ""
    ensures AllHex(s[1..]) && HexValue(s) == DigitValue(s[0]) * Pow(16, |s| - 1) + HexValue(s[1..])
  {
    if |s| > 1 {
      var t := s[..|s| - 1];
      HexValueHead(t);
      assert s[1..][..|s| - 2] == t[1..];
      assert HexValue(s[1..]) == HexValue(t[1..]) * 16 + DigitValue(s[|s| - 1]);
      Carry(DigitValue(s[0]), Pow(16, |s| - 2), HexValue(t[1..]), DigitValue(s[|s| - 1]));
    } else {
      assert s[..0] == "" && s[1..] == "";
    }
  }

  lemma {:induction false} FormatReads(n: nat)
    ensures AllHex(FormatHex(n)) && HexValue(FormatHex(n)) == n
  {
    if n < 16 {
      DigitRoundTrip(n);
      assert FormatHex(n)[..0] == "";
    } else {
      FormatReads(n / 16);
      DigitRoundTrip(n % 16);
      assert FormatHex(n)[..|FormatHex(n)| - 1] == FormatHex(n / 16);
    }
  }

  /** A block number or log index written with "0x%x" reads back as itself. */
  lemma QuantityRoundTrip(n: uint64)
    ensures ParseHexUint("0x" + FormatHex(n)) == n
  {
    FormatReads(n);
    assert ("0x" + FormatHex(n))[2..] == FormatHex(n);
    ScanFits(FormatHex(n), 0);
  }
}
