/**
  The Beacon API text codecs of `crates/pharos-api/src/serde_helpers.rs`: quoted decimal
  integers and `0x` hex (digits as in section 8 of RFC 4648, lower case on output).
 */
module Codec {
  import opened Types

  type Byte = b: nat | b < 256

  // ── decimal ─────────────────────────────────────────────────────────────────

  function Digit(d: nat): char
    requires d < 10
  {
    '0' + d as char
  }

  predicate IsDigit(c: char) { '0' <= c <= '9' }

  function DigitValue(c: char): (d: nat)
    requires IsDigit(c)
    ensures d < 10 && Digit(d) == c
  {
    (c - '0') as nat
  }

  predicate AllDigits(s: string) { forall i :: 0 <= i < |s| ==> IsDigit(s[i]) }

  /** `u64::to_string`. */
  function PrintDecimal(n: nat): (s: string)
    ensures s != [] && AllDigits(s)
  {
    if n < 10 then [Digit(n)] else PrintDecimal(n / 10) + [Digit(n % 10)]
  }

  function DecimalValue(s: string): nat
    requires AllDigits(s)
  {
    if s == [] then 0 else 10 * DecimalValue(s[..|s| - 1]) + DigitValue(s[|s| - 1])
  }

  /** `str::parse::<u64>`: an optional plus sign, then digits whose value fits. */
  function ParseU64(s: string): Option<nat> {
    var digits := if s != [] && s[0] == '+' then s[1..] else s;
    if digits != [] && AllDigits(digits) && DecimalValue(digits) <= U64_MAX then Some(DecimalValue(digits)) else None
  }

  function Zeros(k: nat): (s: string)
    ensures |s| == k && AllDigits(s) && forall i :: 0 <= i < k ==> s[i] == '0'
  {
    if k == 0 then [] else Zeros(k - 1) + ['0']
  }

  lemma {:induction false} ValueOfPrint(n: nat)
    ensures DecimalValue(PrintDecimal(n)) == n
  {
    if n >= 10 {
      ValueOfPrint(n / 10);
      var s := PrintDecimal(n);
      assert s[..|s| - 1] == PrintDecimal(n / 10);
    } else {
      assert DecimalValue([Digit(n)]) == 10 * DecimalValue([Digit(n)][..0]) + DigitValue(Digit(n));
    }
  }

  lemma ParseUndoesPrint(n: nat)
    requires n <= U64_MAX
    ensures ParseU64(PrintDecimal(n)) == Some(n)
  {
    ValueOfPrint(n);
    assert IsDigit(PrintDecimal(n)[0]);
  }

  /** Every digit text is the canonical one after some zeros. */
  lemma {:induction false} DigitsAreSpelled(s: string)
    requires s != [] && AllDigits(s)
    ensures exists k: nat :: s == Zeros(k) + PrintDecimal(DecimalValue(s))
  {
    var last := |s| - 1;
    var front, d := s[..last], DigitValue(s[last]);
    assert s == front + [Digit(d)] && DecimalValue(s) == 10 * DecimalValue(front) + d;
    if front == [] {
      assert s == Zeros(0) + PrintDecimal(d);
    } else {
      DigitsAreSpelled(front);
      var n := DecimalValue(front);
      var k: nat :| front == Zeros(k) + PrintDecimal(n);
      var j := OneMoreDigit(front, k, n, d);
      assert s == Zeros(j) + PrintDecimal(DecimalValue(s));
    }
  }

  lemma OneMoreDigit(front: string, k: nat, n: nat, d: nat) returns (j: nat)
    requires d < 10 && front == Zeros(k) + PrintDecimal(n)
    ensures front + [Digit(d)] == Zeros(j) + PrintDecimal(10 * n + d)
  {
    if n == 0 {
      j := k + 1;
      assert front == Zeros(k + 1);
    } else {
      j := k;
      assert (10 * n + d) / 10 == n && (10 * n + d) % 10 == d;
      assert front + [Digit(d)] == Zeros(k) + (PrintDecimal(n) + [Digit(d)]);
    }
  }

  lemma {:induction false} ZerosAddNothing(k: nat, s: string)
    requires AllDigits(s)
    ensures DecimalValue(Zeros(k) + s) == DecimalValue(s)
    decreases |s|, k
  {
    if s != [] {
      ZerosAddNothing(k, s[..|s| - 1]);
      assert (Zeros(k) + s)[..k + |s| - 1] == Zeros(k) + s[..|s| - 1];
    } else if k > 0 {
      ZerosAddNothing(k - 1, []);
      assert Zeros(k) + [] == Zeros(k) && Zeros(k - 1) + [] == Zeros(k - 1);
      assert Zeros(k)[..k - 1] == Zeros(k - 1);
    }
  }

  ghost predicate Spells(s: string, n: nat) {
    exists plus: bool, k: nat :: s == Spelling(plus, k, n)
  }

  function Spelling(plus: bool, k: nat, n: nat): string {
    (if plus then "+" else "") + (Zeros(k) + PrintDecimal(n))
  }

  lemma SpelledParses(plus: bool, k: nat, n: nat)
    requires n <= U64_MAX
    ensures ParseU64(Spelling(plus, k, n)) == Some(n)
  {
    var digits := Zeros(k) + PrintDecimal(n);
    ZerosAddNothing(k, PrintDecimal(n));
    ValueOfPrint(n);
    assert AllDigits(digits) && IsDigit(digits[0]);
    if plus {
      assert Spelling(plus, k, n) == ['+'] + digits;
    } else {
      assert Spelling(plus, k, n) == digits;
    }
  }

  lemma ParsedDigits(s: string, n: nat) returns (plus: bool, digits: string)
    requires ParseU64(s) == Some(n)
    ensures digits != [] && AllDigits(digits) && DecimalValue(digits) == n <= U64_MAX
    ensures s == (if plus then "+" else "") + digits
  {
    plus := s[0] == '+';
    digits := if plus then s[1..] else s;
  }

  lemma ParsedIsSpelled(s: string, n: nat)
    requires ParseU64(s) == Some(n)
    ensures n <= U64_MAX && Spells(s, n)
  {
    var plus, digits := ParsedDigits(s, n);
    DigitsAreSpelled(digits);
    var k: nat :| digits == Zeros(k) + PrintDecimal(n);
    assert s == Spelling(plus, k, n);
  }

  /** The accepted spellings of `n`: a plus sign or none, any zeros, then its digits. */
  lemma ParsesIffSpelled(s: string, n: nat)
    ensures ParseU64(s) == Some(n) <==> n <= U64_MAX && Spells(s, n)
  {
    if ParseU64(s) == Some(n) {
      ParsedIsSpelled(s, n);
    }
    if n <= U64_MAX && Spells(s, n) {
      var plus: bool, k: nat :| s == Spelling(plus, k, n);
      SpelledParses(plus, k, n);
    }
  }

  // ── hexadecimal ─────────────────────────────────────────────────────────────

  predicate IsHex(c: char) { '0' <= c <= '9' || 'a' <= c <= 'f' || 'A' <= c <= 'F' }
  predicate AllHex(s: string) { forall i :: 0 <= i < |s| ==> IsHex(s[i]) }

  function HexDigit(d: nat): (c: char)
    requires d < 16
    ensures IsHex(c) && HexValue(c) == d && Lower(c) == c
  {
    if d < 10 then '0' + d as char else 'a' + (d - 10) as char
  }

  function HexValue(c: char): (d: nat)
    requires IsHex(c)
    ensures d < 16
  {
    if c <= '9' then (c - '0') as nat else if c <= 'F' then (c - 'A') as nat + 10 else (c - 'a') as nat + 10
  }

  function Lower(c: char): (l: char)
    requires IsHex(c)
  {
    if 'A' <= c <= 'F' then c - 'A' + 'a' else c
  }

  function EncodePairs(bytes: seq<Byte>): (s: string)
    ensures |s| == 2 * |bytes| && AllHex(s)
  {
    if bytes == [] then []
    else [HexDigit(bytes[0] / 16), HexDigit(bytes[0] % 16)] + EncodePairs(bytes[1..])
  }

  function EncodeHex(bytes: seq<Byte>): (s: string) { "0x" + EncodePairs(bytes) }

  /** `hex::decode`: an even number of hex digits of either case. */
  function DecodePairs(s: string): (r: Option<seq<Byte>>)
    ensures r.Some? <==> |s| % 2 == 0 && AllHex(s)
    ensures r.Some? ==> 2 * |r.value| == |s|
  {
    if s == [] then Some([])
    else if |s| == 1 then None
    else
      var rest := DecodePairs(s[2..]);
      assert s == s[..2] + s[2..];
      if IsHex(s[0]) && IsHex(s[1]) && rest.Some?
      then Some([HexValue(s[0]) * 16 + HexValue(s[1])] + rest.value)
      else None
  }

  function StripPrefix(s: string): string { if "0x" <= s then s[2..] else s }

  function DecodeHex(s: string): Option<seq<Byte>> { DecodePairs(StripPrefix(s)) }

  /** The fixed-size decoders, for 4, 20, 32, 48 and 96 bytes. */
  function DecodeFixed(n: nat, s: string): Option<seq<Byte>> {
    var bytes := DecodeHex(s);
    if bytes.Some? && |bytes.value| == n then bytes else None
  }

  /** `hex_bytes::serialize`, as its loop writes it. */
  method SerializeHex(bytes: seq<Byte>) returns (out: string)
    ensures out == EncodeHex(bytes) && |out| == 2 + 2 * |bytes|
  {
    out := "0x";
    for i := 0 to |bytes|
      invariant out + EncodePairs(bytes[i..]) == EncodeHex(bytes)
    {
      out := out + [HexDigit(bytes[i] / 16), HexDigit(bytes[i] % 16)];
    }
  }

  function EncodeByte(b: Byte): string { [HexDigit(b / 16), HexDigit(b % 16)] }

  lemma ByteDigits(b: Byte)
    ensures HexValue(HexDigit(b / 16)) * 16 + HexValue(HexDigit(b % 16)) == b
  {
  }

  lemma DecodeTwo(c: char, d: char, rest: string)
    requires IsHex(c) && IsHex(d) && DecodePairs(rest).Some?
    ensures DecodePairs([c, d] + rest) == Some([HexValue(c) * 16 + HexValue(d)] + DecodePairs(rest).value)
  {
    assert ([c, d] + rest)[2..] == rest;
  }

  lemma DecodeFirst(b: Byte, rest: string)
    requires DecodePairs(rest).Some?
    ensures DecodePairs(EncodeByte(b) + rest) == Some([b] + DecodePairs(rest).value)
  {
    ByteDigits(b);
    DecodeTwo(HexDigit(b / 16), HexDigit(b % 16), rest);
  }

  lemma {:induction false} PairsRoundTrip(bytes: seq<Byte>)
    ensures DecodePairs(EncodePairs(bytes)) == Some(bytes)
  {
    if bytes != [] {
      PairsRoundTrip(bytes[1..]);
      DecodeFirst(bytes[0], EncodePairs(bytes[1..]));
      assert bytes == [bytes[0]] + bytes[1..];
    }
  }

  /** Hex digits never start with the prefix. */
  lemma HexHasNoPrefix(s: string)
    requires AllHex(s)
    ensures StripPrefix(s) == s && StripPrefix("0x" + s) == s
  {
    if |s| >= 2 { assert IsHex(s[1]); }
  }

  /** Decoding undoes encoding, with and without the prefix. */
  lemma HexRoundTrip(bytes: seq<Byte>)
    ensures DecodeHex(EncodeHex(bytes)) == Some(bytes)
    ensures DecodeHex(EncodePairs(bytes)) == Some(bytes)
    ensures DecodeFixed(|bytes|, EncodeHex(bytes)) == Some(bytes)
  {
    PairsRoundTrip(bytes);
    HexHasNoPrefix(EncodePairs(bytes));
  }

  lemma EncodingIsInjective(a: seq<Byte>, b: seq<Byte>)
    requires EncodeHex(a) == EncodeHex(b)
    ensures a == b
  {
    HexRoundTrip(a);
    HexRoundTrip(b);
  }

  /** The prefix changes nothing, except on a text that already carries it. */
  lemma PrefixIsOptionalIff(s: string)
    ensures DecodeHex("0x" + s) == DecodeHex(s) <==> !("0x" <= s && DecodeHex(s).Some?)
  {
    assert ("0x" + s)[2..] == s;
    if "0x" <= s { assert s[1] == 'x' && !IsHex('x'); }
  }

  function LowerAll(s: string): (l: string)
    requires AllHex(s)
    ensures |l| == |s|
  {
    if s == [] then [] else [Lower(s[0])] + LowerAll(s[1..])
  }

  /** Encoding what was decoded gives the same digits in lower case. */
  lemma {:induction false} EncodeNormalises(s: string)
    requires DecodePairs(s).Some?
    ensures EncodePairs(DecodePairs(s).value) == LowerAll(s)
  {
    if s != [] {
      EncodeNormalises(s[2..]);
      PairNormalises(s[0], s[1]);
      LowerTwo(s);
      FirstPair(s);
    }
  }

  lemma FirstPair(s: string)
    requires s != [] && DecodePairs(s).Some?
    ensures DecodePairs(s[2..]).Some?
    ensures DecodePairs(s).value == [HexValue(s[0]) * 16 + HexValue(s[1])] + DecodePairs(s[2..]).value
    ensures EncodePairs(DecodePairs(s).value)
         == EncodePairs([HexValue(s[0]) * 16 + HexValue(s[1])]) + EncodePairs(DecodePairs(s[2..]).value)
  {
    var bytes := DecodePairs(s).value;
    assert bytes[1..] == DecodePairs(s[2..]).value;
    assert [bytes[0]][1..] == [];
  }

  lemma PairNormalises(c: char, d: char)
    requires IsHex(c) && IsHex(d)
    ensures EncodePairs([HexValue(c) * 16 + HexValue(d)]) == [Lower(c), Lower(d)]
  {
    var b: nat := HexValue(c) * 16 + HexValue(d);
    assert b / 16 == HexValue(c) && b % 16 == HexValue(d);
    LowerIsDigit(c);
    LowerIsDigit(d);
    assert [b][1..] == [];
  }

  lemma LowerTwo(s: string)
    requires |s| >= 2 && AllHex(s)
    ensures LowerAll(s) == [Lower(s[0]), Lower(s[1])] + LowerAll(s[2..])
  {
    assert s[1..][1..] == s[2..];
  }

  lemma LowerIsDigit(c: char)
    requires IsHex(c)
    ensures HexDigit(HexValue(c)) == Lower(c)
  {
  }

  /** A fixed-size decoder accepts exactly texts of its own length, and reads their digits. */
  lemma FixedAcceptsIff(n: nat, s: string)
    ensures DecodeFixed(n, s).Some? <==> |StripPrefix(s)| == 2 * n && AllHex(StripPrefix(s))
    ensures DecodeFixed(n, s).Some? ==> EncodeHex(DecodeFixed(n, s).value) == "0x" + LowerAll(StripPrefix(s))
  {
    if DecodeFixed(n, s).Some? { EncodeNormalises(StripPrefix(s)); }
  }
}
