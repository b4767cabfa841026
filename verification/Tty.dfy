/** The harness's UART side: a write loop that must deliver every byte once, and a line
    reader on a port that may have nothing to read yet. */
module Tty {
  import opened Hex
  import opened ByteLog

  // ----- writing

  /** What a write() call comes back with: some bytes taken (possibly none), the port
      busy (EAGAIN, EWOULDBLOCK), or another error. */
  datatype WriteOutcome = Took(count: nat) | Busy | Broken

  function Min(a: nat, b: nat): nat {
    if a < b then a else b
  }

  /** A port that follows a script of outcomes and then takes whatever it is given, so
      that stalls are finitely many but otherwise arbitrary. */
  class OutPort {
    var script: seq<WriteOutcome>
    var sent: seq<Byte>

    constructor (script: seq<WriteOutcome>)
      ensures this.script == script && sent == []
    {
      this.script := script;
      sent := [];
    }

    method Write(data: seq<Byte>) returns (r: WriteOutcome)
      modifies this
      ensures script == if old(script) == [] then [] else old(script)[1..]
      ensures old(script) != [] && !old(script)[0].Took? ==> r == old(script)[0] && sent == old(sent)
      ensures old(script) == [] || old(script)[0].Took? ==>
                && r == Took(if old(script) == [] then |data| else Min(old(script)[0].count, |data|))
                && sent == old(sent) + data[..r.count]
    {
      if script == [] {
        sent := sent + data;
        return Took(|data|);
      }
      var outcome := script[0];
      script := script[1..];
      if outcome.Took? {
        var count := Min(outcome.count, |data|);
        sent := sent + data[..count];
        return Took(count);
      }
      return outcome;
    }
  }

  /** How many of n bytes the script lets through before the write ends or breaks. */
  function Delivered(script: seq<WriteOutcome>, n: nat): (d: nat)
    ensures d <= n
    decreases |script|
  {
    if n == 0 || script == [] then n
    else
      match script[0]
      case Broken => 0
      case Busy => Delivered(script[1..], n)
      case Took(count) => var k := Min(count, n); k + Delivered(script[1..], n - k)
  }

  method BlockingWrite(port: OutPort, data: seq<Byte>, verbosity: int) returns (ok: bool, log: string)
    modifies port
    ensures log == if verbosity >= INFO then LogFrame("TX: ", data) else ""
    ensures port.sent == old(port.sent) + data[..Delivered(old(port.script), |data|)]
    ensures ok <==> Delivered(old(port.script), |data|) == |data|
  {
    log := "";
    if verbosity >= INFO {
      log := PrintFrame("TX: ", data);
    }
    ok := WriteAll(port, data);
  }

  /** The loop: false stands for the fatal error of a broken port. */
  method WriteAll(port: OutPort, data: seq<Byte>) returns (ok: bool)
    modifies port
    ensures port.sent == old(port.sent) + data[..Delivered(old(port.script), |data|)]
    ensures ok <==> Delivered(old(port.script), |data|) == |data|
  {
    var loc := 0;
    while loc < |data|
      invariant loc <= |data|
      invariant port.sent == old(port.sent) + data[..loc]
      invariant loc + Delivered(port.script, |data| - loc) == Delivered(old(port.script), |data|)
      decreases |data| - loc, |port.script|
    {
      var r := port.Write(data[loc..]);
      match r {
        case Broken =>
          return false;
        case Busy =>
        case Took(count) =>
          assert data[..loc] + data[loc..][..count] == data[..loc + count];
          loc := loc + count;
      }
    }
    return true;
  }

  predicate Unbroken(script: seq<WriteOutcome>) {
    forall i :: 0 <= i < |script| ==> !script[i].Broken?
  }

  /** On a port that only ever stalls or takes part of the data, everything is delivered:
      exactly the input, in order, once each. */
  lemma {:induction false} UnbrokenDeliversAll(script: seq<WriteOutcome>, n: nat)
    requires Unbroken(script)
    ensures Delivered(script, n) == n
    decreases |script|
  {
    if n != 0 && script != [] {
      if script[0].Took? {
        UnbrokenDeliversAll(script[1..], n - Min(script[0].count, n));
      } else {
        UnbrokenDeliversAll(script[1..], n);
      }
    }
  }

  function Taken(script: seq<WriteOutcome>): nat {
    if script == [] then 0 else (if script[0].Took? then script[0].count else 0) + Taken(script[1..])
  }

  /** In general the write succeeds exactly if no error comes before the outcomes have
      taken all of the data. */
  lemma {:induction false} DeliversAllExactly(script: seq<WriteOutcome>, n: nat)
    ensures Delivered(script, n) == n <==>
              forall i :: 0 <= i < |script| && script[i].Broken? ==> n <= Taken(script[..i])
    decreases |script|
  {
    if script == [] {
    } else if n == 0 {
    } else {
      var rest := script[1..];
      var k := if script[0].Took? then Min(script[0].count, n) else 0;
      DeliversAllExactly(rest, n - k);
      forall i | 0 <= i < |rest|
        ensures rest[i] == script[i + 1]
        ensures Taken(script[..i + 1]) == (if script[0].Took? then script[0].count else 0) + Taken(rest[..i])
      {
        assert script[..i + 1][1..] == rest[..i];
      }
      assert Taken(script[..0]) == 0;
      if script[0].Broken? {
      } else if forall i :: 0 <= i < |script| && script[i].Broken? ==> n <= Taken(script[..i]) {
        forall i | 0 <= i < |rest| && rest[i].Broken?
          ensures n - k <= Taken(rest[..i])
        {
          assert script[i + 1].Broken?;
        }
      }
    }
  }

  /** An error ends the write with what was taken before the first one. */
  lemma {:induction false} DeliveredUntilBroken(script: seq<WriteOutcome>, n: nat, i: nat)
    requires i < |script| && script[i].Broken? && Unbroken(script[..i])
    ensures Delivered(script, n) == Min(n, Taken(script[..i]))
    decreases |script|
  {
    if i > 0 && n > 0 {
      var k := if script[0].Took? then Min(script[0].count, n) else 0;
      assert script[..i][1..] == script[1..][..i - 1];
      assert !script[..i][0].Broken?;
      DeliveredUntilBroken(script[1..], n - k, i - 1);
    }
  }

  // ----- reading

  /** One read() call: a byte, or nothing there; late says whether by then more than four
      byte times had passed since the last byte. */
  datatype Arrival = Arrived(c: Byte) | Nothing(late: bool)

  /** A port with a pattern of arrivals; after it nothing comes any more. It may also not
      be open at all. */
  class InPort {
    const isOpen: bool
    var arrivals: seq<Arrival>

    constructor (isOpen: bool, arrivals: seq<Arrival>)
      ensures this.isOpen == isOpen && this.arrivals == arrivals
    {
      this.isOpen := isOpen;
      this.arrivals := arrivals;
    }

    method Read() returns (r: Arrival)
      modifies this
      ensures r == if old(arrivals) == [] then Nothing(true) else old(arrivals)[0]
      ensures arrivals == if old(arrivals) == [] then [] else old(arrivals)[1..]
    {
      if arrivals == [] {
        return Nothing(true);
      }
      r := arrivals[0];
      arrivals := arrivals[1..];
    }
  }

  /** The bytes among the arrivals. */
  function Stream(arrivals: seq<Arrival>): seq<Byte> {
    if arrivals == [] then []
    else (if arrivals[0].Arrived? then [arrivals[0].c] else []) + Stream(arrivals[1..])
  }

  /** What the line reader has when it stops, and the arrivals it leaves. */
  function ReadLine(arrivals: seq<Arrival>, line: seq<Byte>): (r: (seq<Byte>, seq<Arrival>))
    ensures |r.1| <= |arrivals|
    decreases |arrivals|
  {
    if arrivals == [] then (line, [])
    else
      match arrivals[0]
      case Arrived(c) =>
        if c == LINE_FEED then (line + [c], arrivals[1..]) else ReadLine(arrivals[1..], line + [c])
      case Nothing(late) =>
        if line == [] || late then (line, arrivals[1..]) else ReadLine(arrivals[1..], line)
  }

  /** What is left of the arrivals. */
  predicate IsRest(all: seq<Arrival>, rest: seq<Arrival>) {
    |rest| <= |all| && rest == all[|all| - |rest|..]
  }

  // ----- where a line ends

  /** A line feed, or nothing there and more than four byte times gone. */
  predicate EndsLine(a: Arrival) {
    a == Arrived(LINE_FEED) || a == Nothing(true)
  }

  /** If nothing is there at first the line is empty. Otherwise it is the bytes up to the
      first arrival that ends it, or all of them if none does. */
  predicate IsLine(arrivals: seq<Arrival>, line: seq<Byte>, rest: seq<Arrival>) {
    if arrivals == [] then line == [] && rest == []
    else if arrivals[0].Nothing? then line == [] && rest == arrivals[1..]
    else EndsAt(arrivals, |arrivals| - |rest|) && IsRest(arrivals, rest)
         && line == Stream(arrivals[..|arrivals| - |rest|])
  }

  /** Of the first n arrivals only the last ends the line, unless they are all there are. */
  predicate EndsAt(arrivals: seq<Arrival>, n: int) {
    && 0 <= n <= |arrivals|
    && (forall i :: 0 <= i < n - 1 ==> !EndsLine(arrivals[i]))
    && (n == |arrivals| || (n > 0 && EndsLine(arrivals[n - 1])))
  }

  lemma {:induction false} LineGoesOn(arrivals: seq<Arrival>, line: seq<Byte>)
    requires line != []
    ensures var (piece, rest) := ReadLine(arrivals, line);
            && EndsAt(arrivals, |arrivals| - |rest|) && IsRest(arrivals, rest)
            && piece == line + Stream(arrivals[..|arrivals| - |rest|])
    decreases |arrivals|
  {
    if arrivals == [] {
      assert line + Stream([]) == line;
    } else {
      var tail, taken := arrivals[1..], Stream(arrivals[..1]);
      FirstTaken(arrivals);
      if EndsLine(arrivals[0]) {
        assert line + [] == line;
      } else {
        assert line + taken == if arrivals[0].Arrived? then line + [arrivals[0].c] else line;
        LineGoesOn(tail, line + taken);
        LineGrows(arrivals, line, ReadLine(tail, line + taken).1);
      }
    }
  }

  lemma FirstTaken(arrivals: seq<Arrival>)
    requires arrivals != []
    ensures Stream(arrivals[..1]) == if arrivals[0].Arrived? then [arrivals[0].c] else []
  {
    assert arrivals[..1][1..] == [];
    assert Stream([]) == [];
  }

  lemma LineGrows(arrivals: seq<Arrival>, line: seq<Byte>, rest: seq<Arrival>)
    requires arrivals != [] && IsRest(arrivals[1..], rest)
    ensures line + Stream(arrivals[..1]) + Stream(arrivals[1..][..|arrivals| - 1 - |rest|])
         == line + Stream(arrivals[..|arrivals| - |rest|])
  {
    var n := |arrivals| - |rest|;
    assert arrivals[..n][1..] == arrivals[1..][..n - 1];
    assert arrivals[..1][1..] == [];
  }

  lemma LineUntilItsEnd(arrivals: seq<Arrival>)
    ensures var (line, rest) := ReadLine(arrivals, []); IsLine(arrivals, line, rest)
  {
    if arrivals != [] && arrivals[0].Arrived? {
      var c := arrivals[0].c;
      assert arrivals[..1][1..] == [] && [] + [c] == [c];
      assert Stream(arrivals[..1]) == [c];
      if c != LINE_FEED {
        LineGoesOn(arrivals[1..], [c]);
        LineGrows(arrivals, [], ReadLine(arrivals[1..], [c]).1);
      }
    }
  }

  lemma OnlyOneLine(arrivals: seq<Arrival>, line: seq<Byte>, rest: seq<Arrival>, line': seq<Byte>, rest': seq<Arrival>)
    requires IsLine(arrivals, line, rest) && IsLine(arrivals, line', rest')
    requires arrivals != []
    ensures line == line' && rest == rest'
  {
  }

  /** The inner loop: read on while bytes come and none of them is a line feed. */
  method ReadOn(port: InPort, start: seq<Byte>, escaped: string)
    returns (line: seq<Byte>, text: string, ended: bool, late: bool)
    requires escaped == Escaped(start)
    modifies port
    ensures ReadLine(old(port.arrivals), start)
         == if ended || line == [] || late then (line, port.arrivals) else ReadLine(port.arrivals, line)
    ensures text == Escaped(line)
    ensures |port.arrivals| <= |old(port.arrivals)|
    ensures !ended && !late ==> |port.arrivals| < |old(port.arrivals)|
  {
    line, text, ended, late := start, escaped, false, false;
    while true
      invariant ReadLine(port.arrivals, line) == ReadLine(old(port.arrivals), start)
      invariant text == Escaped(line)
      invariant |port.arrivals| <= |old(port.arrivals)|
      decreases |port.arrivals|
    {
      var r := port.Read();
      if r.Nothing? {
        late := r.late;
        return;
      }
      EscapedSnoc(line, r.c);
      line, text := line + [r.c], text + PrintBin(r.c);
      if r.c == LINE_FEED {
        ended := true;
        return;
      }
    }
  }

  /** What the reader logs of a line: on one line, its line feed escaped as well. */
  function LineLog(line: seq<Byte>, verbosity: int): string {
    if verbosity >= INFO && line != [] then "RX: " + Escaped(line) + "\n" else ""
  }

  method ReadLineUntilBlock(port: InPort, verbosity: int) returns (line: seq<Byte>, log: string)
    modifies port
    ensures port.isOpen ==> IsLine(old(port.arrivals), line, port.arrivals)
    ensures (line, port.arrivals) == if port.isOpen then ReadLine(old(port.arrivals), []) else ([], old(port.arrivals))
    ensures log == LineLog(line, verbosity)
  {
    line, log := [], "";
    if !port.isOpen {
      return;
    }
    LineUntilItsEnd(port.arrivals);
    var text := "";
    while true
      invariant ReadLine(port.arrivals, line) == ReadLine(old(port.arrivals), [])
      invariant text == Escaped(line)
      decreases |port.arrivals|
    {
      var ended, late;
      line, text, ended, late := ReadOn(port, line, text);
      if ended || line == [] || late {
        break;
      }
    }
    if verbosity >= INFO && line != [] {
      log := "RX: " + text + "\n";
    }
  }

  /** A line feed only as the last byte. */
  predicate IsPiece(line: seq<Byte>) {
    forall i :: 0 <= i < |line| - 1 ==> line[i] != LINE_FEED
  }

  predicate FeedFree(line: seq<Byte>) {
    forall i :: 0 <= i < |line| ==> line[i] != LINE_FEED
  }

  /** A line is exactly the bytes consumed for it, has a line feed at most at its end,
      and is empty only if the very first read found nothing. */
  lemma {:induction false} LineIsWhatWasRead(arrivals: seq<Arrival>, line: seq<Byte>)
    requires FeedFree(line)
    ensures var (piece, rest) := ReadLine(arrivals, line);
            && IsPiece(piece)
            && line + Stream(arrivals) == piece + Stream(rest)
            && (piece == [] ==> arrivals == [] || (arrivals[0].Nothing? && rest == arrivals[1..]))
            && (piece != [] && line == [] ==> arrivals != [] && |rest| < |arrivals|)
    decreases |arrivals|
  {
    if arrivals != [] {
      var tail := arrivals[1..];
      match arrivals[0]
      case Arrived(c) =>
        assert line + ([c] + Stream(tail)) == line + [c] + Stream(tail);
        if c != LINE_FEED {
          LineIsWhatWasRead(tail, line + [c]);
        }
      case Nothing(late) =>
        assert [] + Stream(tail) == Stream(tail);
        if line != [] && !late {
          LineIsWhatWasRead(tail, line);
        }
    }
  }

  function Concat(pieces: seq<seq<Byte>>): seq<Byte> {
    if pieces == [] then [] else Concat(pieces[..|pieces| - 1]) + pieces[|pieces| - 1]
  }

  /** The reader stopped at an arrival of nothing, or at the end. */
  predicate ReadsNothingBefore(all: seq<Arrival>, rest: seq<Arrival>) {
    IsRest(all, rest) && (rest == [] || (|rest| < |all| && all[|all| - |rest| - 1].Nothing?))
  }

  /** Nothing is lost or repeated: the pieces put together are the bytes consumed, none is
      empty, and each ends at its first line feed. */
  predicate Flushed(all: seq<Arrival>, pieces: seq<seq<Byte>>, rest: seq<Arrival>) {
    && Concat(pieces) + Stream(rest) == Stream(all)
    && forall i :: 0 <= i < |pieces| ==> pieces[i] != [] && IsPiece(pieces[i])
  }

  lemma RestOfRest(all: seq<Arrival>, before: seq<Arrival>, rest: seq<Arrival>)
    requires IsRest(all, before) && IsRest(before, rest)
    ensures IsRest(all, rest)
  {
  }

  lemma FlushedRest(all: seq<Arrival>, before: seq<Arrival>)
    requires IsRest(all, before)
    ensures var (line, rest) := ReadLine(before, []);
            if line == [] then ReadsNothingBefore(all, rest) else IsRest(all, rest) && |rest| < |before|
  {
    LineIsWhatWasRead(before, []);
    LineLeavesSuffix(before, []);
    RestOfRest(all, before, ReadLine(before, []).1);
  }

  lemma FlushedPiece(all: seq<Arrival>, pieces: seq<seq<Byte>>, before: seq<Arrival>)
    requires Flushed(all, pieces, before)
    ensures var (line, rest) := ReadLine(before, []);
            Flushed(all, if line == [] then pieces else pieces + [line], rest)
  {
    LineIsWhatWasRead(before, []);
    var (line, rest) := ReadLine(before, []);
    assert [] + Stream(before) == Stream(before) && [] + Stream(rest) == Stream(rest);
    if line != [] {
      PieceAdded(pieces, line, Stream(rest), Stream(before));
    }
  }

  /** Read lines until an empty one: where nothing is there to read, or at once if the
      terminal is closed. */
  method FlushConsole(port: InPort, verbosity: int) returns (pieces: seq<seq<Byte>>)
    modifies port
    ensures Flushed(old(port.arrivals), pieces, port.arrivals)
    ensures port.isOpen ==> ReadsNothingBefore(old(port.arrivals), port.arrivals)
    ensures !port.isOpen ==> pieces == [] && port.arrivals == old(port.arrivals)
  {
    pieces := [];
    while true
      invariant IsRest(old(port.arrivals), port.arrivals) && Flushed(old(port.arrivals), pieces, port.arrivals)
      invariant !port.isOpen ==> pieces == [] && port.arrivals == old(port.arrivals)
      decreases |port.arrivals|
    {
      FlushedRest(old(port.arrivals), port.arrivals);
      FlushedPiece(old(port.arrivals), pieces, port.arrivals);
      var line, _ := ReadLineUntilBlock(port, verbosity);
      if line == [] {
        return;
      }
      pieces := pieces + [line];
    }
  }

  lemma PieceAdded(pieces: seq<seq<Byte>>, line: seq<Byte>, rest: seq<Byte>, before: seq<Byte>)
    requires [] + before == line + rest
    ensures Concat(pieces + [line]) + rest == Concat(pieces) + before
  {
    assert (pieces + [line])[..|pieces|] == pieces;
    assert Concat(pieces) + line + rest == Concat(pieces) + (line + rest);
  }

  lemma {:induction false} LineLeavesSuffix(arrivals: seq<Arrival>, line: seq<Byte>)
    ensures var rest := ReadLine(arrivals, line).1; rest == arrivals[|arrivals| - |rest|..]
    decreases |arrivals|
  {
    if arrivals != [] {
      var next := if arrivals[0].Arrived? then line + [arrivals[0].c] else line;
      LineLeavesSuffix(arrivals[1..], next);
    }
  }
}
