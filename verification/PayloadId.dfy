/**
  `params_to_payload_id` of `crates/pharos-conformance/src/engine.rs`: a payload id
  written as a hex quantity becomes eight bytes, and `getPayload` requests compare by
  those bytes. Texts are ASCII, so a character is a byte.
 */
module PayloadId {
  import opened Types
  import opened Codec

  // ── trimming and padding ────────────────────────────────────────────────────

  function DropQuotesLeft(s: string): string {
    if s != [] && s[0] == '"' then DropQuotesLeft(s[1..]) else s
  }

  function DropQuotesRight(s: string): string {
    if s != [] && s[|s| - 1] == '"' then DropQuotesRight(s[..|s| - 1]) else s
  }

  /** `trim_start_matches("0x")` strips the prefix as often as it occurs. */
  function DropPrefixes(s: string): string {
    if "0x" <= s then DropPrefixes(s[2..]) else s
  }

  function Trim(s: string): string { DropPrefixes(DropQuotesRight(DropQuotesLeft(s))) }

  function Pad(s: string): (p: string)
    ensures |p| >= 16
  {
    if |s| >= 16 then s else Zeros(16 - |s|) + s
  }

  /** `u8::from_str_radix` on two characters; a plus sign may lead, anything else reads as 0. */
  function Pair(c: char, d: char): Byte {
    if IsHex(c) && IsHex(d) then HexValue(c) * 16 + HexValue(d)
    else if c == '+' && IsHex(d) then HexValue(d)
    else 0
  }

  function Pairs(p: string, n: nat): seq<Byte>
    requires 2 * n <= |p|
  {
    if n == 0 then [] else Pairs(p, n - 1) + [Pair(p[2 * n - 2], p[2 * n - 1])]
  }

  function PayloadBytes(s: string): (bytes: seq<Byte>) { Pairs(Pad(Trim(s)), 8) }

  /** A missing or non-string parameter reads as zero. */
  method ParamsToPayloadId(param: Option<string>) returns (id: seq<Byte>)
    ensures id == PayloadBytes(if param.Some? then param.value else "0x0000000000000000")
  {
    id := FillBytes(Pad(Trim(if param.Some? then param.value else "0x0000000000000000")));
  }

  /** The byte array filled in place. */
  method FillBytes(padded: string) returns (id: seq<Byte>)
    requires |padded| >= 16
    ensures id == Pairs(padded, 8)
  {
    var bytes := new Byte[8];
    for i := 0 to 8
      invariant bytes[..i] == Pairs(padded, i)
    {
      bytes[i] := Pair(padded[2 * i], padded[2 * i + 1]);
      assert bytes[..i + 1] == bytes[..i] + [bytes[i]];
    }
    id := bytes[..];
  }

  // ── what the bytes mean ─────────────────────────────────────────────────────

  /** The number a hex text denotes. */
  function HexNumber(s: string): nat
    requires AllHex(s)
  {
    if s == [] then 0 else 16 * HexNumber(s[..|s| - 1]) + HexValue(s[|s| - 1])
  }

  /** Bytes read big-endian. */
  function BytesNumber(bytes: seq<Byte>): nat {
    if bytes == [] then 0 else 256 * BytesNumber(bytes[..|bytes| - 1]) + bytes[|bytes| - 1]
  }

  /** The number of the first `n` digits. */
  function FirstDigits(p: string, n: nat): nat
    requires n <= |p| && AllHex(p)
  {
    if n == 0 then 0 else 16 * FirstDigits(p, n - 1) + HexValue(p[n - 1])
  }

  lemma {:induction false} FirstDigitsAreNumber(p: string, n: nat)
    requires n <= |p| && AllHex(p)
    ensures FirstDigits(p, n) == HexNumber(p[..n])
  {
    if n > 0 {
      FirstDigitsAreNumber(p, n - 1);
      assert p[..n][..n - 1] == p[..n - 1];
    }
  }

  lemma LastByte(bytes: seq<Byte>, b: Byte)
    ensures BytesNumber(bytes + [b]) == 256 * BytesNumber(bytes) + b
  {
    assert (bytes + [b])[..|bytes|] == bytes;
  }

  lemma FirstPair(p: string, n: nat)
    requires 0 < n && 2 * n <= |p| && AllHex(p)
    ensures FirstDigits(p, 2 * n) == 256 * FirstDigits(p, 2 * n - 2) + Pair(p[2 * n - 2], p[2 * n - 1])
  {
    assert FirstDigits(p, 2 * n - 1) == 16 * FirstDigits(p, 2 * n - 2) + HexValue(p[2 * n - 2]);
  }

  lemma {:induction false} PairsLength(p: string, n: nat)
    requires 2 * n <= |p|
    ensures |Pairs(p, n)| == n
  {
    if n > 0 { PairsLength(p, n - 1); }
  }

  lemma PairsOneMore(p: string, n: nat)
    requires 0 < n && 2 * n <= |p|
    ensures BytesNumber(Pairs(p, n)) == 256 * BytesNumber(Pairs(p, n - 1)) + Pair(p[2 * n - 2], p[2 * n - 1])
  {
    LastByte(Pairs(p, n - 1), Pair(p[2 * n - 2], p[2 * n - 1]));
  }

  lemma {:induction false} PairsKeepNumber(p: string, n: nat)
    requires 2 * n <= |p| && AllHex(p)
    ensures BytesNumber(Pairs(p, n)) == FirstDigits(p, 2 * n)
  {
    if n > 0 {
      PairsKeepNumber(p, n - 1);
      FirstPair(p, n);
      PairsOneMore(p, n);
    }
  }

  lemma {:induction false} PaddingKeepsNumber(k: nat, s: string)
    requires AllHex(s)
    ensures AllHex(Zeros(k) + s) && HexNumber(Zeros(k) + s) == HexNumber(s)
    decreases |s|, k
  {
    if s != [] {
      PaddingKeepsNumber(k, s[..|s| - 1]);
      assert (Zeros(k) + s)[..k + |s| - 1] == Zeros(k) + s[..|s| - 1];
    } else if k > 0 {
      PaddingKeepsNumber(k - 1, []);
      assert Zeros(k) + [] == Zeros(k) && Zeros(k - 1) + [] == Zeros(k - 1);
      assert Zeros(k)[..k - 1] == Zeros(k - 1);
    }
  }

  /** Hex digits survive trimming, bare, prefixed or quoted. */
  lemma TrimKeepsDigits(s: string)
    requires AllHex(s)
    ensures Trim(s) == s && Trim("0x" + s) == s && Trim(['"'] + ("0x" + s) + ['"']) == s
  {
    NoQuotes(s);
    NoQuotes("0x" + s);
    HexHasNoPrefix(s);
    assert ("0x" + s)[2..] == s;
    DropQuotes("0x" + s);
  }

  lemma DropQuotes(s: string)
    requires s != [] && forall i :: 0 <= i < |s| ==> s[i] != '"'
    ensures DropQuotesRight(DropQuotesLeft(['"'] + s + ['"'])) == s
  {
    assert ['"'] + s + ['"'] == ['"'] + (s + ['"']);
    DropOneLeft(s + ['"']);
    DropOneRight(s);
    NoQuotes(s);
  }

  lemma DropOneLeft(s: string)
    requires s != [] && s[0] != '"'
    ensures DropQuotesLeft(['"'] + s) == s
  {
    assert (['"'] + s)[1..] == s;
  }

  lemma DropOneRight(s: string)
    ensures DropQuotesRight(s + ['"']) == DropQuotesRight(s)
  {
    assert (s + ['"'])[..|s|] == s;
  }

  lemma NoQuotes(s: string)
    requires forall i :: 0 <= i < |s| ==> s[i] != '"'
    ensures DropQuotesLeft(s) == s && DropQuotesRight(s) == s
  {
  }

  /** The digits that reach the bytes: at most the first sixteen. */
  function DigitsRead(s: string): string {
    var t := Trim(s); if |t| <= 16 then t else t[..16]
  }

  /** For every hex text, the eight bytes are the number that the digits read denote. */
  lemma BytesAreTheDigitsRead(s: string)
    requires AllHex(Trim(s))
    ensures |PayloadBytes(s)| == 8 && AllHex(DigitsRead(s))
    ensures BytesNumber(PayloadBytes(s)) == HexNumber(DigitsRead(s))
  {
    var t := Trim(s);
    if |t| < 16 {
      PaddingKeepsNumber(16 - |t|, t);
      assert Pad(t)[..16] == Pad(t);
    } else {
      assert t[..16] == DigitsRead(s);
    }
    PairsLength(Pad(t), 8);
    PairsKeepNumber(Pad(t), 8);
    FirstDigitsAreNumber(Pad(t), 16);
  }

  lemma {:induction false} BytesAreDetermined(a: seq<Byte>, b: seq<Byte>)
    requires |a| == |b|
    ensures BytesNumber(a) == BytesNumber(b) <==> a == b
  {
    if a != [] {
      var n := |a| - 1;
      assert a == a[..n] + [a[n]] && b == b[..n] + [b[n]];
      BytesAreDetermined(a[..n], b[..n]);
    }
  }

  /** The request comparison accepts two hex texts exactly when the digits read name one number. */
  lemma SpellingsAgreeIff(s: string, t: string)
    requires AllHex(Trim(s)) && AllHex(Trim(t))
    ensures AllHex(DigitsRead(s)) && AllHex(DigitsRead(t))
    ensures PayloadBytes(s) == PayloadBytes(t) <==> HexNumber(DigitsRead(s)) == HexNumber(DigitsRead(t))
  {
    BytesAreTheDigitsRead(s);
    BytesAreTheDigitsRead(t);
    BytesAreDetermined(PayloadBytes(s), PayloadBytes(t));
  }

  // ── longer texts ────────────────────────────────────────────────────────────

  lemma {:induction false} TakeDivides(s: string, n: nat)
    requires n <= |s| && AllHex(s)
    ensures HexNumber(s[..n]) <= HexNumber(s)
    ensures n < |s| && HexNumber(s) > 0 ==> HexNumber(s[..n]) < HexNumber(s)
    decreases |s|
  {
    if n < |s| {
      var front := s[..|s| - 1];
      TakeDivides(front, n);
      assert front[..n] == s[..n];
    } else {
      assert s[..n] == s;
    }
  }

  /** The bytes are the number exactly when it has at most sixteen digits or is zero. */
  lemma BytesAreTheNumberIff(s: string)
    requires AllHex(Trim(s))
    ensures BytesNumber(PayloadBytes(s)) == HexNumber(Trim(s)) <==> |Trim(s)| <= 16 || HexNumber(Trim(s)) == 0
  {
    BytesAreTheDigitsRead(s);
    if |Trim(s)| > 16 { TakeDivides(Trim(s), 16); }
  }

  /** Sixteen digits then a `1` or a `2`: different numbers that the comparison takes for one. */
  lemma SeventeenDigitsCollide(front: string)
    requires |front| == 16 && AllHex(front)
    ensures PayloadBytes(front + ['1']) == PayloadBytes(front + ['2'])
    ensures HexNumber(front + ['1']) != HexNumber(front + ['2'])
  {
    assert (front + ['1'])[..16] == front == (front + ['2'])[..16];
    TrimKeepsDigits(front + ['1']);
    TrimKeepsDigits(front + ['2']);
    SpellingsAgreeIff(front + ['1'], front + ['2']);
  }
}
