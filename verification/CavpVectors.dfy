/** How a hex string of a vector file becomes a C array of 32-bit words, and what a
    little-endian host then finds in that array's bytes. */
module CavpVectors {
  import opened Text
  import opened Hex

  // ----- nist2h.py: words and byte order

  function Zeros(n: nat): (r: string)
    ensures |r| == n
  {
    seq(n, _ => '0')
  }

  /** w.ljust(8, '0') */
  function PadWord(w: string): string {
    if |w| < 8 then w + Zeros(8 - |w|) else w
  }

  function Words32(v: string): (words: seq<string>)
    ensures forall i :: 0 <= i < |words| ==> |words[i]| == 8
    ensures |words| == (|v| + 7) / 8
  {
    if v == "" then []
    else if |v| <= 8 then [PadWord(v)]
    else [PadWord(v[..8])] + Words32(v[8..])
  }

  function Reverse(s: string): string {
    seq(|s|, i requires 0 <= i < |s| => s[|s| - 1 - i])
  }

  /** Swap the members of each pair of neighbours; a character left over is dropped. */
  function SwapPairs(s: string): string {
    seq(|s| / 2 * 2, i requires 0 <= i < |s| / 2 * 2 => if i % 2 == 0 then s[i + 1] else s[i - 1])
  }

  /** None is the exception for a word that is not 32 bits wide. */
  function Bswap32(w: string): Option<string> {
    if |w| != 8 then None else Some(SwapPairs(Reverse(w)))
  }

  function WordLiterals(words: seq<string>): string
    requires forall i :: 0 <= i < |words| ==> |words[i]| == 8
  {
    if words == [] then ""
    else
      var first := "0x" + Bswap32(words[0]).value;
      if |words| == 1 then first else first + (", " + WordLiterals(words[1..]))
  }

  /** The C initializer _format32 makes of a value. */
  function Initializer(v: string): string {
    "{" + (WordLiterals(Words32(v)) + "}")
  }

  // ----- the C side: literals, words in memory, the test's view of them

  predicate IsBlank(c: char) {
    c in " \t\n\r"
  }

  /** C takes any blanks between tokens. */
  function SkipBlanks(s: string): (r: string)
    ensures |r| <= |s|
  {
    TrimLeft(s, IsBlank)
  }

  /** The words of a brace-enclosed list, after its opening brace, and the text after
      its closing one. */
  function ReadWords(s: string): (r: Option<(seq<nat>, string)>)
    ensures r.Some? ==> |r.value.1| < |s|
    decreases |s|
  {
    var t := SkipBlanks(s);
    if StartsWith(t, '}') then Some(([], t[1..]))
    else if !HasPrefix(t, "0x") then None
    else
      var (digits, rest) := Run(t[2..], IsHex);
      var u := SkipBlanks(rest);
      if digits == "" then None
      else if StartsWith(u, '}') then Some(([HexNumber(digits)], u[1..]))
      else if StartsWith(u, ',') then
        match ReadWords(u[1..])
        case None => None
        case Some((words, tail)) => Some(([HexNumber(digits)] + words, tail))
      else None
  }

  /** A uint32_t as a little-endian host stores it. */
  function StoredWord(w: nat): (r: seq<Byte>)
    ensures |r| == 4
  {
    [w % 256, w / 256 % 256, w / 256 / 256 % 256, w / 256 / 256 / 256 % 256]
  }

  function StoredWords(words: seq<nat>): (r: seq<Byte>)
    ensures |r| == 4 * |words|
  {
    if words == [] then [] else StoredWord(words[0]) + StoredWords(words[1..])
  }

  /** A uint32_t[capacity] initialized with fewer words is zero from there on. */
  function Memory(words: seq<nat>, capacity: nat): (r: seq<Byte>)
    requires |words| <= capacity
    ensures |r| == 4 * capacity
  {
    StoredWords(words) + ZeroBytes(4 * (capacity - |words|))
  }

  /** set_key(test_case->key, test_case->key_len / 8) and its like. */
  function View(words: seq<nat>, capacity: nat, bits: nat): seq<Byte>
    requires |words| <= capacity && bits / 8 <= 4 * capacity
  {
    Memory(words, capacity)[..bits / 8]
  }

  // ----- one word

  lemma Bswap32Digits(w: string)
    requires |w| == 8
    ensures Bswap32(w) == Some([w[6], w[7], w[4], w[5], w[2], w[3], w[0], w[1]])
  {
    var r := Reverse(w);
    assert r == [w[7], w[6], w[5], w[4], w[3], w[2], w[1], w[0]];
    var z := SwapPairs(r);
    assert |z| == 8;
    assert z[0] == r[1] && z[1] == r[0] && z[2] == r[3] && z[3] == r[2];
    assert z[4] == r[5] && z[5] == r[4] && z[6] == r[7] && z[7] == r[6];
    assert z == [w[6], w[7], w[4], w[5], w[2], w[3], w[0], w[1]];
  }

  /** Swapping twice gives the word back. */
  lemma Bswap32Involution(w: string)
    requires |w| == 8
    ensures Bswap32(w).Some? && Bswap32(Bswap32(w).value) == Some(w)
  {
    Bswap32Digits(w);
    var z := Bswap32(w).value;
    Bswap32Digits(z);
    assert w == [z[6], z[7], z[4], z[5], z[2], z[3], z[0], z[1]];
  }

  lemma HexNumberStep(s: string, c: char)
    requires AllOf(s + [c], IsHex)
    ensures AllOf(s, IsHex) && IsHex(c)
    ensures HexNumber(s + [c]) == 16 * HexNumber(s) + HexValue(c)
  {
    assert (s + [c])[|s|] == c;
    assert forall i :: 0 <= i < |s| ==> s[i] == (s + [c])[i];
    assert (s + [c])[..|s|] == s;
  }

  lemma HexNumberPair(s: string, hi: char, lo: char)
    requires AllOf(s, IsHex) && IsHex(hi) && IsHex(lo)
    ensures AllOf(s + [hi, lo], IsHex)
    ensures HexNumber(s + [hi, lo]) == 256 * HexNumber(s) + HexPair(hi, lo)
  {
    assert s + [hi, lo] == s + [hi] + [lo];
    HexNumberStep(s + [hi], lo);
    HexNumberStep(s, hi);
  }

  function FourBytes(b3: Byte, b2: Byte, b1: Byte, b0: Byte): nat {
    256 * (256 * (256 * b3 + b2) + b1) + b0
  }

  lemma HexNumberOfHalf(w: string)
    requires |w| == 8 && AllOf(w, IsHex)
    ensures AllOf(w[..4], IsHex)
    ensures HexNumber(w[..4]) == 256 * HexPair(w[0], w[1]) + HexPair(w[2], w[3])
  {
    HexNumberPair(w[..0], w[0], w[1]);
    HexNumberPair(w[..2], w[2], w[3]);
    assert w[..0] + [w[0], w[1]] == w[..2];
    assert w[..2] + [w[2], w[3]] == w[..4];
  }

  lemma HexNumberOfWord(w: string)
    requires |w| == 8 && AllOf(w, IsHex)
    ensures HexNumber(w)
         == FourBytes(HexPair(w[0], w[1]), HexPair(w[2], w[3]), HexPair(w[4], w[5]), HexPair(w[6], w[7]))
  {
    HexNumberOfHalf(w);
    HexNumberPair(w[..4], w[4], w[5]);
    HexNumberPair(w[..6], w[6], w[7]);
    assert w[..4] + [w[4], w[5]] == w[..6];
    assert w[..6] + [w[6], w[7]] == w;
  }

  lemma OneByteDown(high: nat, low: Byte)
    ensures (256 * high + low) % 256 == low && (256 * high + low) / 256 == high
  {
  }

  lemma StoredFourBytes(b3: Byte, b2: Byte, b1: Byte, b0: Byte)
    ensures StoredWord(FourBytes(b3, b2, b1, b0)) == [b0, b1, b2, b3]
  {
    OneByteDown(256 * (256 * b3 + b2) + b1, b0);
    OneByteDown(256 * b3 + b2, b1);
    OneByteDown(b3, b2);
  }

  lemma HexBytesOfWord(w: string)
    requires |w| == 8 && AllOf(w, IsHex)
    ensures HexBytes(w) == [HexPair(w[0], w[1]), HexPair(w[2], w[3]), HexPair(w[4], w[5]), HexPair(w[6], w[7])]
  {
    assert HexBytes(w[6..]) == [HexPair(w[6], w[7])];
    assert w[4..][2..] == w[6..];
    assert HexBytes(w[4..]) == [HexPair(w[4], w[5]), HexPair(w[6], w[7])];
    assert w[2..][2..] == w[4..];
  }

  lemma NumberOfSwapped(w: string, z: string)
    requires |w| == 8 && AllOf(w, IsHex)
    requires z == [w[6], w[7], w[4], w[5], w[2], w[3], w[0], w[1]]
    ensures AllOf(z, IsHex)
    ensures HexNumber(z)
         == FourBytes(HexPair(w[6], w[7]), HexPair(w[4], w[5]), HexPair(w[2], w[3]), HexPair(w[0], w[1]))
  {
    HexNumberOfWord(z);
  }

  /** The swapped literal, stored little-endian, puts the bytes back in file order. */
  lemma StoredSwap(w: string)
    requires |w| == 8 && AllOf(w, IsHex)
    ensures Bswap32(w).Some? && AllOf(Bswap32(w).value, IsHex)
    ensures StoredWord(HexNumber(Bswap32(w).value)) == HexBytes(w)
  {
    Bswap32Digits(w);
    NumberOfSwapped(w, Bswap32(w).value);
    StoredFourBytes(HexPair(w[6], w[7]), HexPair(w[4], w[5]), HexPair(w[2], w[3]), HexPair(w[0], w[1]));
    HexBytesOfWord(w);
  }

  // ----- whole values

  /** The value with its last word filled up. */
  function PadValue(v: string): (r: string)
    ensures |r| % 2 == 0
    decreases |v|
  {
    if v == "" then ""
    else if |v| <= 8 then PadWord(v)
    else v[..8] + PadValue(v[8..])
  }

  function WordValues(words: seq<string>): (r: seq<nat>)
    requires forall i :: 0 <= i < |words| ==> |words[i]| == 8 && AllOf(words[i], IsHex)
    ensures |r| == |words|
  {
    if words == [] then []
    else
      StoredSwap(words[0]);
      [HexNumber(Bswap32(words[0]).value)] + WordValues(words[1..])
  }

  lemma {:induction false} WordsAreHex(v: string)
    requires AllOf(v, IsHex)
    ensures forall i :: 0 <= i < |Words32(v)| ==> |Words32(v)[i]| == 8 && AllOf(Words32(v)[i], IsHex)
    decreases |v|
  {
    if |v| > 8 {
      WordsAreHex(v[8..]);
    }
  }

  /** Words, swapped and stored little-endian, are the padded value's bytes in order. */
  lemma {:induction false} StoredWordsOfValue(v: string)
    requires AllOf(v, IsHex)
    ensures forall i :: 0 <= i < |Words32(v)| ==> |Words32(v)[i]| == 8 && AllOf(Words32(v)[i], IsHex)
    ensures AllOf(PadValue(v), IsHex)
    ensures StoredWords(WordValues(Words32(v))) == HexBytes(PadValue(v))
    decreases |v|
  {
    WordsAreHex(v);
    if v == "" {
    } else if |v| <= 8 {
      assert Words32(v)[1..] == [];
      StoredSwap(PadValue(v));
    } else {
      var head, tail := v[..8], v[8..];
      StoredWordsOfValue(tail);
      StoredSwap(head);
      HexBytesConcat(head, PadValue(tail));
      assert Words32(v)[0] == head && Words32(v)[1..] == Words32(tail);
    }
  }

  lemma PrefixThen(p: string, rest: string)
    ensures HasPrefix(p + rest, p) && (p + rest)[|p|..] == rest
  {
    assert (p + rest)[..|p|] == p;
  }

  lemma OtherPrefix(s: string, p: string)
    requires s != "" && p != "" && s[0] != p[0]
    ensures !HasPrefix(s, p)
  {
    assert |p| <= |s| ==> s[..|p|][0] == s[0];
  }

  lemma NothingToSkip(s: string)
    requires s == "" || !IsBlank(s[0])
    ensures SkipBlanks(s) == s
  {
  }

  lemma SkipsBlank(s: string)
    ensures SkipBlanks(" " + s) == SkipBlanks(s)
  {
    TrimLeftDropsPrefix(" ", s, IsBlank);
  }

  lemma FirstLiteral(w: string, after: string)
    requires |w| == 8 && AllOf(w, IsHex) && after != "" && after[0] in "},"
    ensures Bswap32(w).Some?
    ensures var text := "0x" + Bswap32(w).value + after;
            && SkipBlanks(text) == text && !StartsWith(text, '}') && HasPrefix(text, "0x")
            && Run(text[2..], IsHex) == (Bswap32(w).value, after) && SkipBlanks(after) == after
  {
    StoredSwap(w);
    Bswap32Digits(w);
    var digits := Bswap32(w).value;
    assert "0x" + digits + after == "0x" + (digits + after);
    PrefixThen("0x", digits + after);
    NothingToSkip("0x" + digits + after);
    NothingToSkip(after);
    RunStops(digits, after, IsHex);
  }

  lemma LastLiteral(w: string, rest: string)
    requires |w| == 8 && AllOf(w, IsHex)
    ensures Bswap32(w).Some? && AllOf(Bswap32(w).value, IsHex)
    ensures ReadWords("0x" + Bswap32(w).value + ("}" + rest)) == Some(([HexNumber(Bswap32(w).value)], rest))
  {
    StoredSwap(w);
    Bswap32Digits(w);
    FirstLiteral(w, "}" + rest);
    PrefixThen("}", rest);
  }

  lemma BlankFirst(s: string)
    ensures ReadWords(" " + s) == ReadWords(s)
  {
    SkipsBlank(s);
  }

  lemma InnerLiteral(w: string, onward: string, words: seq<nat>, rest: string)
    requires |w| == 8 && AllOf(w, IsHex) && ReadWords(onward) == Some((words, rest))
    ensures Bswap32(w).Some? && AllOf(Bswap32(w).value, IsHex)
    ensures ReadWords("0x" + Bswap32(w).value + (", " + onward))
         == Some(([HexNumber(Bswap32(w).value)] + words, rest))
  {
    StoredSwap(w);
    Bswap32Digits(w);
    FirstLiteral(w, ", " + onward);
    assert (", " + onward)[1..] == " " + onward;
    BlankFirst(onward);
  }

  /** A C compiler reads back the words that were written. */
  lemma {:induction false} LiteralsReadBack(words: seq<string>, rest: string)
    requires forall i :: 0 <= i < |words| ==> |words[i]| == 8 && AllOf(words[i], IsHex)
    ensures ReadWords(WordLiterals(words) + ("}" + rest)) == Some((WordValues(words), rest))
    decreases |words|
  {
    if words == [] {
      assert WordLiterals(words) + ("}" + rest) == "}" + rest;
      NothingToSkip("}" + rest);
    } else if |words| == 1 {
      LastLiteral(words[0], rest);
      assert words[1..] == [];
      assert WordValues(words) == [HexNumber(Bswap32(words[0]).value)];
    } else {
      LiteralsReadBack(words[1..], rest);
      LiteralsCons(words, rest);
      InnerLiteral(words[0], WordLiterals(words[1..]) + ("}" + rest), WordValues(words[1..]), rest);
    }
  }

  lemma Regroup(a: string, b: string, c: string, d: string)
    ensures a + (b + c) + d == a + (b + (c + d))
  {
  }

  lemma LiteralsCons(words: seq<string>, rest: string)
    requires |words| > 1 && forall i :: 0 <= i < |words| ==> |words[i]| == 8
    ensures WordLiterals(words) + ("}" + rest)
         == "0x" + Bswap32(words[0]).value + (", " + (WordLiterals(words[1..]) + ("}" + rest)))
  {
    Regroup("0x" + Bswap32(words[0]).value, ", ", WordLiterals(words[1..]), "}" + rest);
  }

  lemma InitializerReadsBack(v: string, rest: string)
    requires forall i :: 0 <= i < |Words32(v)| ==> |Words32(v)[i]| == 8 && AllOf(Words32(v)[i], IsHex)
    ensures HasPrefix(Initializer(v) + rest, "{")
    ensures ReadWords((Initializer(v) + rest)[1..]) == Some((WordValues(Words32(v)), rest))
  {
    var literals := WordLiterals(Words32(v));
    LiteralsReadBack(Words32(v), rest);
    Regroup("{", literals, "}", rest);
    PrefixThen("{", literals + ("}" + rest));
  }

  lemma WordsFit(n: nat, capacity: nat)
    requires n % 2 == 0 && n <= 8 * capacity
    ensures (n + 7) / 8 <= capacity && 4 * n / 8 == n / 2 && n / 2 <= 4 * capacity
  {
  }

  // ----- the whole array

  /** The padding is zeros, and never a whole word. */
  lemma {:induction false} PaddedValue(v: string) returns (n: nat)
    ensures n < 8 && PadValue(v) == v + Zeros(n)
    decreases |v|
  {
    if v == "" {
      n := 0;
    } else if |v| <= 8 {
      n := 8 - |v|;
      assert |v| == 8 ==> v + Zeros(0) == v;
    } else {
      n := PaddedValue(v[8..]);
      assert v[..8] + (v[8..] + Zeros(n)) == v[..8] + v[8..] + Zeros(n);
      assert v == v[..8] + v[8..];
    }
  }

  lemma {:induction false} ZeroDigits(n: nat)
    ensures AllOf(Zeros(2 * n), IsHex) && HexBytes(Zeros(2 * n)) == ZeroBytes(n)
    decreases n
  {
    if n > 0 {
      ZeroDigits(n - 1);
      assert Zeros(2 * n)[2..] == Zeros(2 * (n - 1));
      assert HexPair('0', '0') == 0;
    }
  }

  /** Words, swapped and stored, are the bytes the value denotes and then zeros only. */
  lemma StoredIsValueThenZeros(v: string) returns (n: nat)
    requires AllOf(v, IsHex) && |v| % 2 == 0
    ensures forall i :: 0 <= i < |Words32(v)| ==> |Words32(v)[i]| == 8 && AllOf(Words32(v)[i], IsHex)
    ensures StoredWords(WordValues(Words32(v))) == HexBytes(v) + ZeroBytes(n)
  {
    StoredWordsOfValue(v);
    var digits := PaddedValue(v);
    n := digits / 2;
    assert |PadValue(v)| == |v| + digits;
    ZeroDigits(n);
    HexBytesConcat(v, Zeros(2 * n));
  }

  /** The memory is these bytes and then zeros only. */
  predicate Fills(memory: seq<Byte>, bytes: seq<Byte>) {
    && |bytes| <= |memory|
    && (forall i :: 0 <= i < |bytes| ==> memory[i] == bytes[i])
    && (forall i :: |bytes| <= i < |memory| ==> memory[i] == 0)
  }

  lemma MemoryOf(words: seq<nat>, capacity: nat, bytes: seq<Byte>)
    requires |words| <= capacity && Fills(StoredWords(words), bytes)
    ensures Fills(Memory(words, capacity), bytes)
  {
    MoreZeros(StoredWords(words), 4 * (capacity - |words|), bytes);
  }

  lemma MoreZeros(stored: seq<Byte>, n: nat, bytes: seq<Byte>)
    requires Fills(stored, bytes)
    ensures Fills(stored + ZeroBytes(n), bytes)
  {
    var memory := stored + ZeroBytes(n);
    forall i | |bytes| <= i < |memory|
      ensures memory[i] == 0
    {
      if i < |stored| {
        assert memory[i] == stored[i];
      } else {
        assert memory[i] == ZeroBytes(n)[i - |stored|];
      }
    }
  }

  /** In memory the array is the bytes the hex string denotes and then zeros only. */
  lemma ArrayHoldsValue(v: string, words: seq<nat>, capacity: nat)
    requires AllOf(v, IsHex) && |v| % 2 == 0 && |v| <= 8 * capacity
    requires forall i :: 0 <= i < |Words32(v)| ==> |Words32(v)[i]| == 8 && AllOf(Words32(v)[i], IsHex)
    requires words == WordValues(Words32(v))
    ensures |words| <= capacity && Fills(Memory(words, capacity), HexBytes(v))
  {
    var n := StoredIsValueThenZeros(v);
    WordsFit(|v|, capacity);
    MemoryOf(words, capacity, HexBytes(v));
  }

  /** The array is the bytes the hex string denotes and then zeros only; viewed as the
      given number of bits it is just these bytes. */
  predicate Holds(words: seq<nat>, capacity: nat, bits: nat, v: string) {
    && |words| <= capacity && bits / 8 <= 4 * capacity
    && AllOf(v, IsHex) && |v| % 2 == 0
    && Fills(Memory(words, capacity), HexBytes(v))
    && View(words, capacity, bits) == HexBytes(v)
  }

  lemma ValueHolds(v: string, capacity: nat)
    requires AllOf(v, IsHex) && |v| % 2 == 0 && |v| <= 8 * capacity
    ensures forall i :: 0 <= i < |Words32(v)| ==> |Words32(v)[i]| == 8 && AllOf(Words32(v)[i], IsHex)
    ensures Holds(WordValues(Words32(v)), capacity, 4 * |v|, v)
  {
    StoredWordsOfValue(v);
    ArrayHoldsValue(v, WordValues(Words32(v)), capacity);
    WordsFit(|v|, capacity);
  }

  /** The end of the road: a hex string of the vector file, turned into words, swapped,
      written as a C initializer, compiled and viewed as bytes, is the bytes it denotes. */
  lemma VectorMeaning(v: string, capacity: nat, rest: string)
    requires AllOf(v, IsHex) && |v| % 2 == 0 && |v| <= 8 * capacity
    ensures HasPrefix(Initializer(v) + rest, "{")
    ensures match ReadWords((Initializer(v) + rest)[1..])
            case None => false
            case Some((words, tail)) => tail == rest && Holds(words, capacity, 4 * |v|, v)
  {
    ValueHolds(v, capacity);
    InitializerReadsBack(v, rest);
  }

  // ----- the test's hex dump

  function Dump(bytes: seq<Byte>): string {
    if bytes == [] then "" else HexByteText(bytes[0]) + Dump(bytes[1..])
  }

  lemma {:induction false} DumpSnoc(bytes: seq<Byte>, b: Byte)
    ensures Dump(bytes + [b]) == Dump(bytes) + HexByteText(b)
    decreases |bytes|
  {
    if bytes == [] {
      assert bytes + [b] == [b];
      assert HexByteText(b) + "" == HexByteText(b);
    } else {
      assert (bytes + [b])[1..] == bytes[1..] + [b];
      DumpSnoc(bytes[1..], b);
    }
  }

  method HexDump(bytes: seq<Byte>) returns (ss: string)
    ensures ss == Dump(bytes)
  {
    ss := "";
    for j := 0 to |bytes|
      invariant ss == Dump(bytes[..j])
    {
      assert bytes[..j + 1] == bytes[..j] + [bytes[j]];
      DumpSnoc(bytes[..j], bytes[j]);
      if bytes[j] < 16 {
        ss := ss + "0";
      }
      ss := ss + HexText(bytes[j]);
    }
    assert bytes[..|bytes|] == bytes;
  }

  /** Dumping the bytes of a hex string prints the string in lower case. */
  lemma {:induction false} DumpGivesTextBack(v: string)
    requires AllOf(v, IsHex) && |v| % 2 == 0
    ensures Dump(HexBytes(v)) == Lower(v)
    decreases |v|
  {
    if v != "" {
      HexPairFromDigits(v[0], v[1]);
      DumpGivesTextBack(v[2..]);
      HexByteDigits(HexPair(v[0], v[1]));
      assert Lower(v) == [ToLower(v[0]), ToLower(v[1])] + Lower(v[2..]);
      assert HexBytes(v)[1..] == HexBytes(v[2..]);
    }
  }
}
