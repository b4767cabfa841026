/** Bytes and hexadecimal text. */
module Hex {
  import opened Text

  type Byte = x: int | 0 <= x < 256

  /** A byte as it sits in a protobuf string: a signed char. c & 0x00ff is its value. */
  type SignedChar = x: int | -128 <= x < 128

  function AsByte(c: SignedChar): (b: Byte)
    ensures b == c || b == c + 256
  {
    c % 256
  }

  function AsBytes(s: seq<SignedChar>): (r: seq<Byte>)
    ensures |r| == |s|
  {
    seq(|s|, i requires 0 <= i < |s| => AsByte(s[i]))
  }

  /** The char that holds the bits of a byte. */
  predicate HoldsByte(c: SignedChar, b: Byte) {
    if b < 128 then c == b else c == b - 256
  }

  /** The chars hold exactly these bytes. */
  predicate HoldBytes(s: seq<SignedChar>, bytes: seq<Byte>) {
    |s| == |bytes| && forall i :: 0 <= i < |s| ==> HoldsByte(s[i], bytes[i])
  }

  lemma AsByteExactly(c: SignedChar, b: Byte)
    ensures AsByte(c) == b <==> HoldsByte(c, b)
  {
  }

  lemma AsBytesExactly(s: seq<SignedChar>, bytes: seq<Byte>)
    ensures AsBytes(s) == bytes <==> HoldBytes(s, bytes)
  {
    if HoldBytes(s, bytes) {
      forall i | 0 <= i < |s|
        ensures AsByte(s[i]) == bytes[i]
      {
        AsByteExactly(s[i], bytes[i]);
      }
    } else if AsBytes(s) == bytes {
      forall i | 0 <= i < |s|
        ensures HoldsByte(s[i], bytes[i])
      {
        AsByteExactly(s[i], bytes[i]);
      }
    }
  }

  function ZeroBytes(n: nat): (r: seq<Byte>)
    ensures |r| == n
  {
    seq(n, _ => 0)
  }

  lemma ZeroBytesExactly(n: nat, bytes: seq<Byte>)
    ensures bytes == ZeroBytes(n) <==> |bytes| == n && forall i :: 0 <= i < n ==> bytes[i] == 0
  {
  }

  predicate IsHex(c: char) {
    '0' <= c <= '9' || 'a' <= c <= 'f' || 'A' <= c <= 'F'
  }

  function HexValue(c: char): (n: nat)
    requires IsHex(c)
    ensures n < 16
  {
    if '0' <= c <= '9' then c as int - '0' as int
    else if 'a' <= c <= 'f' then c as int - 'a' as int + 10
    else c as int - 'A' as int + 10
  }

  /** The digit std::hex prints. */
  function HexDigit(n: nat): (c: char)
    requires n < 16
    ensures IsHex(c) && HexValue(c) == n && ToLower(c) == c
  {
    if n < 10 then (n + '0' as int) as char else (n - 10 + 'a' as int) as char
  }

  function ToLower(c: char): char {
    if 'A' <= c <= 'F' then (c as int - 'A' as int + 'a' as int) as char else c
  }

  /** The sixteen digits, as they are written, read and lowered. */
  lemma HexDigitsInOrder(n: nat)
    requires n < 16
    ensures var lower, upper := "0123456789abcdef"[n], "0123456789ABCDEF"[n];
            && HexDigit(n) == lower && IsHex(lower) && IsHex(upper)
            && HexValue(lower) == n && HexValue(upper) == n && ToLower(upper) == lower
  {
  }

  /** And there are no others. */
  lemma OnlyHexDigits(c: char)
    requires IsHex(c)
    ensures c in "0123456789abcdef" || c in "0123456789ABCDEF"
  {
    assert c == "0123456789abcdef"[HexValue(c)] || c == "0123456789ABCDEF"[HexValue(c)];
  }

  function Lower(s: string): string {
    seq(|s|, i requires 0 <= i < |s| => ToLower(s[i]))
  }

  /** What a stream in std::hex mode prints for n: no leading zero. */
  function HexText(n: nat): string {
    if n < 16 then [HexDigit(n)] else HexText(n / 16) + [HexDigit(n % 16)]
  }

  /** A byte as the dumps print it: always two digits. */
  function HexByteText(b: Byte): string {
    (if b < 16 then "0" else "") + HexText(b)
  }

  lemma HexByteDigits(b: Byte)
    ensures HexByteText(b) == [HexDigit(b / 16), HexDigit(b % 16)]
  {
    assert HexText(b / 16) == [HexDigit(b / 16)];
  }

  function HexNumber(s: string): nat
    requires AllOf(s, IsHex)
  {
    if s == "" then 0 else 16 * HexNumber(s[..|s| - 1]) + HexValue(s[|s| - 1])
  }

  function HexPair(hi: char, lo: char): Byte
    requires IsHex(hi) && IsHex(lo)
  {
    16 * HexValue(hi) + HexValue(lo)
  }

  /** The bytes a hex string of even length denotes. */
  function HexBytes(s: string): (r: seq<Byte>)
    requires AllOf(s, IsHex) && |s| % 2 == 0
    ensures |r| == |s| / 2
  {
    if s == "" then [] else [HexPair(s[0], s[1])] + HexBytes(s[2..])
  }

  lemma {:induction false} HexBytesConcat(s: string, t: string)
    requires AllOf(s, IsHex) && |s| % 2 == 0
    requires AllOf(t, IsHex) && |t| % 2 == 0
    ensures AllOf(s + t, IsHex) && HexBytes(s + t) == HexBytes(s) + HexBytes(t)
    decreases |s|
  {
    if s == "" {
      assert s + t == t;
    } else {
      assert (s + t)[2..] == s[2..] + t;
      HexBytesConcat(s[2..], t);
    }
  }

  lemma HexPairFromDigits(hi: char, lo: char)
    requires IsHex(hi) && IsHex(lo)
    ensures HexPair(hi, lo) / 16 == HexValue(hi) && HexPair(hi, lo) % 16 == HexValue(lo)
    ensures HexDigit(HexValue(hi)) == ToLower(hi) && HexDigit(HexValue(lo)) == ToLower(lo)
  {
  }
}
