/** The transport's byte log: escapes for bytes that do not print, a new prefixed line at
    every line feed, and how far the log determines what was sent. */
module ByteLog {
  import opened Text
  import opened Hex

  const LINE_FEED: Byte := 10
  const BACKSLASH: Byte := 92

  /** The verbosity from which on bytes are logged. */
  const INFO := 40

  predicate IsPrint(c: Byte) {
    32 <= c <= 126
  }

  function PrintBin(c: Byte): string {
    if c == BACKSLASH then "\\\\"
    else if IsPrint(c) then [c as char]
    else "\\x" + HexByteText(c)
  }

  /** Bytes escaped one by one, without a new line at a line feed. */
  function Escaped(bytes: seq<Byte>): string {
    if bytes == [] then "" else Escaped(bytes[..|bytes| - 1]) + PrintBin(bytes[|bytes| - 1])
  }

  lemma EscapedSnoc(bytes: seq<Byte>, c: Byte)
    ensures Escaped(bytes + [c]) == Escaped(bytes) + PrintBin(c)
  {
    assert (bytes + [c])[..|bytes|] == bytes;
  }

  function LogByte(prefix: string, c: Byte): string {
    if c == LINE_FEED then "\n" + prefix else PrintBin(c)
  }

  function LogBody(prefix: string, bytes: seq<Byte>): string {
    if bytes == [] then "" else LogByte(prefix, bytes[0]) + LogBody(prefix, bytes[1..])
  }

  /** What one frame leaves in the log. */
  function LogFrame(prefix: string, bytes: seq<Byte>): string {
    prefix + (LogBody(prefix, bytes) + "\n")
  }

  method PrintFrame(prefix: string, bytes: seq<Byte>) returns (out: string)
    ensures out == LogFrame(prefix, bytes)
  {
    out := prefix;
    for i := 0 to |bytes|
      invariant out == prefix + LogBody(prefix, bytes[..i])
    {
      LogBodySnoc(prefix, bytes, i);
      if bytes[i] == LINE_FEED {
        out := out + ("\n" + prefix);
      } else {
        out := out + PrintBin(bytes[i]);
      }
    }
    assert bytes[..|bytes|] == bytes;
    Regrouped(prefix, LogBody(prefix, bytes), "\n");
    out := out + "\n";
  }

  lemma SingleLogBody(prefix: string, c: Byte)
    ensures LogBody(prefix, [c]) == LogByte(prefix, c)
  {
    assert LogBody(prefix, [c]) == LogByte(prefix, c) + "";
  }

  lemma Regrouped(a: string, b: string, c: string)
    ensures a + b + c == a + (b + c)
  {
  }

  lemma LogBodySnoc(prefix: string, bytes: seq<Byte>, i: nat)
    requires i < |bytes|
    ensures prefix + LogBody(prefix, bytes[..i + 1]) == prefix + LogBody(prefix, bytes[..i]) + LogByte(prefix, bytes[i])
  {
    var before, c := bytes[..i], bytes[i];
    assert bytes[..i + 1] == before + [c];
    LogBodyConcat(prefix, before, [c]);
    SingleLogBody(prefix, c);
    Regrouped(prefix, LogBody(prefix, before), LogByte(prefix, c));
  }

  lemma {:induction false} LogBodyConcat(prefix: string, a: seq<Byte>, b: seq<Byte>)
    ensures LogBody(prefix, a + b) == LogBody(prefix, a) + LogBody(prefix, b)
    decreases |a|
  {
    if a == [] {
      assert a + b == b;
    } else {
      assert (a + b)[1..] == a[1..] + b;
      LogBodyConcat(prefix, a[1..], b);
    }
  }

  // ----- reading the log

  /** A byte that shows as itself, and so is never written in hex. */
  predicate Shows(c: int) {
    ' ' as int <= c <= '~' as int
  }

  /** The first logged byte of s and the text after it. */
  function TakeByte(prefix: string, s: string): (r: Option<(Byte, string)>)
    ensures r.Some? ==> |r.value.1| < |s|
  {
    if s == "" then None
    else if s[0] == '\n' then
      if HasPrefix(s[1..], prefix) then Some((LINE_FEED, s[1 + |prefix|..])) else None
    else if s[0] == '\\' then
      if |s| >= 2 && s[1] == '\\' then Some((BACKSLASH, s[2..]))
      else if |s| >= 4 && s[1] == 'x' && IsHex(s[2]) && IsHex(s[3]) && !Shows(HexPair(s[2], s[3]))
      then Some((HexPair(s[2], s[3]), s[4..]))
      else None
    else if Shows(s[0] as int) then Some((s[0] as int, s[1..]))
    else None
  }

  function ReadBody(prefix: string, s: string): Option<seq<Byte>>
    decreases |s|
  {
    if s == "\n" then Some([])
    else
      match TakeByte(prefix, s)
      case None => None
      case Some((c, rest)) =>
        match ReadBody(prefix, rest)
        case None => None
        case Some(bytes) => Some([c] + bytes)
  }

  function ReadFrame(prefix: string, s: string): Option<seq<Byte>> {
    if HasPrefix(s, prefix) then ReadBody(prefix, s[|prefix|..]) else None
  }

  lemma TakeLoggedByte(prefix: string, c: Byte, rest: string)
    ensures TakeByte(prefix, LogByte(prefix, c) + rest) == Some((c, rest))
  {
    var s := LogByte(prefix, c) + rest;
    if c == LINE_FEED {
      assert s[1..] == prefix + rest;
      assert (prefix + rest)[..|prefix|] == prefix;
    } else if c == BACKSLASH {
      assert s[0] == '\\' && s[1] == '\\' && s[2..] == rest;
    } else if IsPrint(c) {
      assert s[0] == c as char && s[1..] == rest;
    } else {
      HexByteDigits(c);
      var hi, lo := HexDigit(c / 16), HexDigit(c % 16);
      assert LogByte(prefix, c) == ['\\', 'x', hi, lo];
      assert s[0] == '\\' && s[1] == 'x' && s[2] == hi && s[3] == lo && s[4..] == rest;
    }
  }

  lemma BodyStep(prefix: string, s: string, c: Byte, rest: string, bytes: seq<Byte>)
    requires |s| > 1 && TakeByte(prefix, s) == Some((c, rest)) && ReadBody(prefix, rest) == Some(bytes)
    ensures ReadBody(prefix, s) == Some([c] + bytes)
  {
  }

  lemma {:induction false} BodyReadBack(prefix: string, bytes: seq<Byte>)
    ensures ReadBody(prefix, LogBody(prefix, bytes) + "\n") == Some(bytes)
    decreases |bytes|
  {
    if bytes != [] {
      var first, rest := LogByte(prefix, bytes[0]), LogBody(prefix, bytes[1..]) + "\n";
      BodyReadBack(prefix, bytes[1..]);
      EscapedAppends(first, LogBody(prefix, bytes[1..]), "\n");
      TakeLoggedByte(prefix, bytes[0], rest);
      assert |first| >= 1;
      BodyStep(prefix, first + rest, bytes[0], rest, bytes[1..]);
      assert bytes == [bytes[0]] + bytes[1..];
    }
  }

  /** The log of a frame determines the frame. */
  lemma FrameReadBack(prefix: string, bytes: seq<Byte>)
    ensures ReadFrame(prefix, LogFrame(prefix, bytes)) == Some(bytes)
  {
    var body := LogBody(prefix, bytes) + "\n";
    BodyReadBack(prefix, bytes);
    assert (prefix + body)[..|prefix|] == prefix && (prefix + body)[|prefix|..] == body;
  }

  lemma DifferentFramesPrintDifferently(prefix: string, a: seq<Byte>, b: seq<Byte>)
    ensures LogFrame(prefix, a) == LogFrame(prefix, b) <==> a == b
  {
    FrameReadBack(prefix, a);
    FrameReadBack(prefix, b);
  }

  lemma {:induction false} EscapedCons(bytes: seq<Byte>)
    requires bytes != []
    ensures Escaped(bytes) == PrintBin(bytes[0]) + Escaped(bytes[1..])
    decreases |bytes|
  {
    if |bytes| == 1 {
      assert bytes[..0] == [] && PrintBin(bytes[0]) + "" == "" + PrintBin(bytes[0]);
    } else {
      var init, last := bytes[..|bytes| - 1], bytes[|bytes| - 1];
      EscapedCons(init);
      assert init[1..] == bytes[1..][..|bytes| - 2];
      EscapedAppends(PrintBin(bytes[0]), Escaped(init[1..]), PrintBin(last));
    }
  }

  lemma EscapedAppends(a: string, b: string, c: string)
    ensures a + b + c == a + (b + c)
  {
  }

  lemma TakeEscapedByte(prefix: string, c: Byte, rest: string)
    ensures TakeByte(prefix, PrintBin(c) + rest) == Some((c, rest)) && |PrintBin(c)| >= 1
  {
    if c == LINE_FEED {
      HexByteDigits(c);
      assert PrintBin(c) == "\\x0a";
      var s := PrintBin(c) + rest;
      assert s[0] == '\\' && s[1] == 'x' && s[2] == '0' && s[3] == 'a' && s[4..] == rest;
    } else {
      TakeLoggedByte(prefix, c, rest);
    }
  }

  /** The escaped text determines the bytes as well. */
  lemma {:induction false} EscapedReadBack(prefix: string, bytes: seq<Byte>)
    ensures ReadFrame(prefix, prefix + (Escaped(bytes) + "\n")) == Some(bytes)
  {
    var body := Escaped(bytes) + "\n";
    EscapedBodyReadBack(prefix, bytes);
    assert (prefix + body)[..|prefix|] == prefix && (prefix + body)[|prefix|..] == body;
  }

  lemma {:induction false} EscapedBodyReadBack(prefix: string, bytes: seq<Byte>)
    ensures ReadBody(prefix, Escaped(bytes) + "\n") == Some(bytes)
    decreases |bytes|
  {
    if bytes != [] {
      var first, rest := PrintBin(bytes[0]), Escaped(bytes[1..]) + "\n";
      EscapedBodyReadBack(prefix, bytes[1..]);
      EscapedCons(bytes);
      EscapedAppends(first, Escaped(bytes[1..]), "\n");
      TakeEscapedByte(prefix, bytes[0], rest);
      BodyStep(prefix, first + rest, bytes[0], rest, bytes[1..]);
      assert bytes == [bytes[0]] + bytes[1..];
    }
  }

  // ----- several frames

  function LogSession(prefix: string, frames: seq<seq<Byte>>): string {
    if frames == [] then "" else LogFrame(prefix, frames[0]) + LogSession(prefix, frames[1..])
  }

  /** The frames with a line feed between neighbours. */
  function Joined(frames: seq<seq<Byte>>): seq<Byte>
    requires frames != []
  {
    if |frames| == 1 then frames[0] else frames[0] + ([LINE_FEED] + Joined(frames[1..]))
  }

  lemma TwoFrames(prefix: string, a: seq<Byte>, b: seq<Byte>)
    ensures LogFrame(prefix, a) + LogFrame(prefix, b) == LogFrame(prefix, a + ([LINE_FEED] + b))
  {
    var la, lb := LogBody(prefix, a), LogBody(prefix, b);
    LogBodyConcat(prefix, a, [LINE_FEED] + b);
    LogBodyConcat(prefix, [LINE_FEED], b);
    SingleLogBody(prefix, LINE_FEED);
    MergedLines(prefix, la, "\n", lb);
  }

  lemma MergedLines(p: string, a: string, n: string, b: string)
    ensures p + (a + n) + (p + (b + n)) == p + (a + (n + p + b) + n)
  {
    assert p + (a + n) + (p + (b + n)) == p + a + n + p + b + n;
  }

  lemma {:induction false} SessionIsOneFrame(prefix: string, frames: seq<seq<Byte>>)
    requires frames != []
    ensures LogSession(prefix, frames) == LogFrame(prefix, Joined(frames))
    decreases |frames|
  {
    if |frames| == 1 {
      assert LogSession(prefix, frames[1..]) == "";
      assert LogFrame(prefix, frames[0]) + "" == LogFrame(prefix, frames[0]);
    } else {
      SessionIsOneFrame(prefix, frames[1..]);
      TwoFrames(prefix, frames[0], Joined(frames[1..]));
    }
  }

  /** A frame boundary prints like a line feed: a session's log determines the frames
      exactly up to joining them with line feeds, and no further. */
  lemma SessionsPrintAlike(prefix: string, a: seq<seq<Byte>>, b: seq<seq<Byte>>)
    requires a != [] && b != []
    ensures LogSession(prefix, a) == LogSession(prefix, b) <==> Joined(a) == Joined(b)
  {
    SessionIsOneFrame(prefix, a);
    SessionIsOneFrame(prefix, b);
    DifferentFramesPrintDifferently(prefix, Joined(a), Joined(b));
  }

  /** So the log of two frames can be the log of one. */
  lemma BoundaryIsLost(prefix: string)
    ensures LogSession(prefix, [[1, 65], [1, 66]]) == LogSession(prefix, [[1, 65, LINE_FEED, 1, 66]])
  {
    var two: seq<seq<Byte>> := [[1, 65], [1, 66]];
    var one: seq<seq<Byte>> := [[1, 65, LINE_FEED, 1, 66]];
    assert Joined(two[1..]) == [1, 66];
    assert Joined(two) == Joined(one);
    SessionsPrintAlike(prefix, two, one);
  }
}
