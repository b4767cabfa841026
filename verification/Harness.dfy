/** The harness's SPI transport: framing of a message, the one-shot buffer for the
    device's answer, and the checks of message sizes. */
module Harness {
  import opened Text
  import opened Hex
  import opened ByteLog

  type UInt16 = x: int | 0 <= x < 0x1_0000

  const PROTO_BUFFER_MAX_LEN := 512
  const DATA_SIZE := PROTO_BUFFER_MAX_LEN - 2

  const NO_ERROR := 0
  const GENERIC_ERROR := 1
  const OVERFLOW_ERROR := 4
  const SERIALIZE_ERROR := 5

  function BigEndian(hi: Byte, lo: Byte): UInt16 {
    256 * hi + lo
  }

  function Frame(msgType: UInt16, payload: seq<Byte>): (r: seq<Byte>)
    ensures |r| == |payload| + 2
  {
    [msgType / 256, msgType % 256] + payload
  }

  /** What a caller of GetSpi gets to see. */
  datatype Received = Message(msgType: UInt16, payload: seq<Byte>) | Failed(code: int)

  function Decoded(buffer: seq<Byte>): Received {
    if |buffer| < 2 then Failed(GENERIC_ERROR) else Message(BigEndian(buffer[0], buffer[1]), buffer[2..])
  }

  /** The type travels in two bytes, the upper one first. */
  lemma FrameHeader(msgType: UInt16, payload: seq<Byte>, hi: Byte, lo: Byte)
    ensures hi as int * 0x100 + lo as int == msgType <==> Frame(msgType, payload)[..2] == [hi, lo]
    ensures Frame(msgType, payload)[2..] == payload
  {
  }

  /** The two header bytes and the payload are recovered. */
  lemma DecodedFrame(msgType: UInt16, payload: seq<Byte>)
    ensures Decoded(Frame(msgType, payload)) == Message(msgType, payload)
  {
    assert Frame(msgType, payload)[2..] == payload;
  }

  class RawMessage {
    var msgType: UInt16
    var dataLen: UInt16
    const data: array<Byte>

    constructor ()
      ensures data.Length == DATA_SIZE && fresh(data) && dataLen == 0
    {
      msgType, dataLen := 0, 0;
      data := new Byte[DATA_SIZE](_ => 0);
    }

    ghost predicate Valid()
      reads this
    {
      data.Length == DATA_SIZE && dataLen <= DATA_SIZE
    }

    ghost function Contents(): Received
      reads this, data
      requires Valid()
    {
      Message(msgType, data[..dataLen])
    }
  }

  /** A protobuf message: its bytes, and whether its required fields are set, without
      which it does not serialize. */
  datatype Proto = Proto(bytes: seq<Byte>, initialized: bool)

  type CallApp = (UInt16, seq<Byte>) -> (int, seq<Byte>)

  /** At verbosity 40, INFO, and above a frame is logged. */
  function SentLog(verbosity: int, frame: seq<Byte>): string {
    if verbosity >= 40 then LogFrame("SPI_TX: ", frame) else ""
  }

  class TestHarness {
    /** The device behind the client; its answers fit the reply buffer. */
    const callApp: CallApp
    var verbosity: int
    var outputBuffer: seq<Byte>
    var inputBuffer: seq<Byte>
    var log: string

    constructor (callApp: CallApp, verbosity: int)
      ensures this.callApp == callApp && this.verbosity == verbosity && log == ""
      ensures outputBuffer == ZeroBytes(PROTO_BUFFER_MAX_LEN)
    {
      this.callApp := callApp;
      this.verbosity := verbosity;
      outputBuffer := ZeroBytes(PROTO_BUFFER_MAX_LEN);
      inputBuffer := ZeroBytes(PROTO_BUFFER_MAX_LEN);
      log := "";
    }

    method Trace(prefix: string, bytes: seq<Byte>)
      modifies this`log
      ensures log == old(log) + (if verbosity >= INFO then LogFrame(prefix, bytes) else "")
    {
      if verbosity >= INFO {
        var line := PrintFrame(prefix, bytes);
        log := log + line;
      }
    }

    method SendSpi(msg: RawMessage) returns (code: int)
      requires msg.Valid()
      modifies this`inputBuffer, this`outputBuffer, this`log
      ensures inputBuffer == Frame(msg.msgType, msg.data[..msg.dataLen])
      ensures (code, outputBuffer) == callApp(msg.msgType, inputBuffer)
      ensures log == old(log) + SentLog(verbosity, inputBuffer)
    {
      inputBuffer := ZeroBytes(msg.dataLen + 2);
      inputBuffer := inputBuffer[0 := msg.msgType / 256];
      inputBuffer := inputBuffer[1 := msg.msgType % 256];
      inputBuffer := inputBuffer[..2] + msg.data[..msg.dataLen];
      Trace("SPI_TX: ", inputBuffer);
      var (result, reply) := callApp(msg.msgType, inputBuffer);
      outputBuffer := reply;
      return result;
    }

    method GetSpi(msg: RawMessage) returns (code: int)
      requires msg.Valid() && |outputBuffer| <= PROTO_BUFFER_MAX_LEN
      modifies this`outputBuffer, this`log, msg, msg.data
      ensures msg.Valid()
      ensures Decoded(old(outputBuffer)) == if code == NO_ERROR then msg.Contents() else Failed(code)
      ensures outputBuffer == if code == NO_ERROR then [] else old(outputBuffer)
      ensures code != NO_ERROR ==>
                msg.msgType == old(msg.msgType) && msg.data[..] == old(msg.data[..]) && log == old(log)
      ensures code == NO_ERROR ==>
                log == old(log) + (if verbosity >= INFO then LogFrame("SPI_RX: ", old(outputBuffer)) else "")
    {
      if |outputBuffer| < 2 {
        return GENERIC_ERROR;
      }
      Trace("SPI_RX: ", outputBuffer);
      msg.msgType := BigEndian(outputBuffer[0], outputBuffer[1]);
      msg.dataLen := |outputBuffer| - 2;
      forall i | 0 <= i < |outputBuffer| - 2 {
        msg.data[i] := outputBuffer[i + 2];
      }
      assert msg.data[..msg.dataLen] == outputBuffer[2..];
      outputBuffer := [];
      return NO_ERROR;
    }

    /** A message that fits is framed and sent; one that does not is refused before
        anything is sent. */
    method SendProto(msgType: UInt16, message: Proto) returns (code: int)
      modifies this`inputBuffer, this`outputBuffer, this`log
      ensures |message.bytes| > 510 ==> code == 4
      ensures |message.bytes| <= 510 && !message.initialized ==> code == 5
      ensures |message.bytes| > 510 || !message.initialized ==>
                outputBuffer == old(outputBuffer) && log == old(log)
      ensures |message.bytes| <= 510 && message.initialized ==>
                && (code, outputBuffer) == callApp(msgType, Frame(msgType, message.bytes))
                && log == old(log) + SentLog(verbosity, Frame(msgType, message.bytes))
    {
      var msg := new RawMessage();
      msg.msgType := msgType;
      if |message.bytes| > DATA_SIZE {
        return OVERFLOW_ERROR;
      }
      msg.dataLen := |message.bytes|;
      if !message.initialized {
        return SERIALIZE_ERROR;
      }
      forall i | 0 <= i < |message.bytes| {
        msg.data[i] := message.bytes[i];
      }
      assert msg.data[..msg.dataLen] == message.bytes;
      code := SendSpi(msg);
    }

    /** The subtype travels in front of the message. The size check lets through two sizes
        for which the array has no room, so the caller must not use those. */
    method SendOneofProto(msgType: UInt16, subtype: UInt16, message: Proto) returns (code: int)
      requires OneofRoom(|message.bytes|) || !OneofGuard(|message.bytes|)
      modifies this`inputBuffer, this`outputBuffer, this`log
      ensures !OneofGuard(|message.bytes|) ==> code == 4
      ensures OneofGuard(|message.bytes|) && !message.initialized ==> code == 5
      ensures !OneofGuard(|message.bytes|) || !message.initialized ==>
                outputBuffer == old(outputBuffer) && log == old(log)
      ensures OneofGuard(|message.bytes|) && message.initialized ==>
                && (code, outputBuffer) == callApp(msgType, Frame(msgType, Frame(subtype, message.bytes)))
                && log == old(log) + SentLog(verbosity, Frame(msgType, Frame(subtype, message.bytes)))
    {
      var msg := new RawMessage();
      msg.msgType := msgType;
      if |message.bytes| + 2 > PROTO_BUFFER_MAX_LEN {
        return OVERFLOW_ERROR;
      }
      msg.data[0] := subtype / 256;
      msg.data[1] := subtype % 256;
      msg.dataLen := |message.bytes| + 2;
      if !message.initialized {
        return SERIALIZE_ERROR;
      }
      forall i | 0 <= i < |message.bytes| {
        msg.data[i + 2] := message.bytes[i];
      }
      assert msg.data[..msg.dataLen] == Frame(subtype, message.bytes);
      code := SendSpi(msg);
    }
  }

  /** What SendOneofProto checks, and what its array holds. */
  predicate OneofGuard(size: nat) {
    size + 2 <= PROTO_BUFFER_MAX_LEN
  }

  predicate OneofRoom(size: nat) {
    size + 2 <= DATA_SIZE
  }

  /** The check is too generous for exactly the sizes 509 and 510. */
  lemma OneofGuardIsLoose(size: nat)
    ensures OneofGuard(size) && !OneofRoom(size) <==> size == 509 || size == 510
  {
  }

  // ----- sessions

  datatype Op = Send(msgType: UInt16, payload: seq<Byte>) | Get

  datatype Answer = Sent(code: int) | Got(received: Received)

  predicate FitsBuffer(callApp: CallApp, ops: seq<Op>) {
    forall i :: 0 <= i < |ops| && ops[i].Send? ==>
      && |ops[i].payload| <= DATA_SIZE
      && |callApp(ops[i].msgType, Frame(ops[i].msgType, ops[i].payload)).1| <= PROTO_BUFFER_MAX_LEN
  }

  /** A get is answered from the send right before it, and otherwise not at all; only the
      very first call of a session finds the buffer the harness was created with. */
  function AnswerOf(callApp: CallApp, ops: seq<Op>, i: nat): Answer
    requires i < |ops|
  {
    match ops[i]
    case Send(msgType, payload) => Sent(callApp(msgType, Frame(msgType, payload)).0)
    case Get =>
      if i == 0 then Got(Message(0, ZeroBytes(DATA_SIZE)))
      else if ops[i - 1].Get? then Got(Failed(GENERIC_ERROR))
      else Got(Decoded(callApp(ops[i - 1].msgType, Frame(ops[i - 1].msgType, ops[i - 1].payload)).1))
  }

  /** The reply buffer before op i, told from the op before it. */
  predicate BufferBefore(callApp: CallApp, ops: seq<Op>, i: nat, buffer: seq<Byte>)
    requires i <= |ops|
  {
    && |buffer| <= PROTO_BUFFER_MAX_LEN
    && (i == 0 ==> buffer == ZeroBytes(PROTO_BUFFER_MAX_LEN))
    && (i > 0 && ops[i - 1].Get? ==> |buffer| < 2)
    && (i > 0 && ops[i - 1].Send? ==>
          buffer == callApp(ops[i - 1].msgType, Frame(ops[i - 1].msgType, ops[i - 1].payload)).1)
  }

  lemma AnswerFromBuffer(callApp: CallApp, ops: seq<Op>, i: nat, buffer: seq<Byte>)
    requires i < |ops| && ops[i].Get? && BufferBefore(callApp, ops, i, buffer)
    ensures AnswerOf(callApp, ops, i) == Got(Decoded(buffer))
  {
    if i == 0 {
      assert buffer[2..] == ZeroBytes(DATA_SIZE);
    }
  }

  method FillMessage(msg: RawMessage, msgType: UInt16, payload: seq<Byte>)
    requires msg.Valid() && |payload| <= DATA_SIZE
    modifies msg, msg.data
    ensures msg.Valid() && msg.Contents() == Message(msgType, payload)
  {
    msg.msgType := msgType;
    msg.dataLen := |payload|;
    forall i | 0 <= i < |payload| {
      msg.data[i] := payload[i];
    }
    assert msg.data[..msg.dataLen] == payload;
  }

  /** Any sequence of sends and gets on a new harness. */
  method Session(callApp: CallApp, ops: seq<Op>) returns (answers: seq<Answer>)
    requires FitsBuffer(callApp, ops)
    ensures |answers| == |ops|
    ensures forall i :: 0 <= i < |ops| ==> answers[i] == AnswerOf(callApp, ops, i)
  {
    var harness := new TestHarness(callApp, 0);
    answers := [];
    for i := 0 to |ops|
      invariant fresh(harness) && harness.callApp == callApp
      invariant |answers| == i
      invariant forall k :: 0 <= k < i ==> answers[k] == AnswerOf(callApp, ops, k)
      invariant BufferBefore(callApp, ops, i, harness.outputBuffer)
    {
      var msg := new RawMessage();
      match ops[i] {
        case Send(msgType, payload) =>
          FillMessage(msg, msgType, payload);
          var code := harness.SendSpi(msg);
          answers := answers + [Sent(code)];
        case Get =>
          AnswerFromBuffer(callApp, ops, i, harness.outputBuffer);
          var code := harness.GetSpi(msg);
          if code == NO_ERROR {
            answers := answers + [Got(Message(msg.msgType, msg.data[..msg.dataLen]))];
          } else {
            answers := answers + [Got(Failed(code))];
          }
      }
    }
  }

  function Echo(msgType: UInt16, frame: seq<Byte>): (int, seq<Byte>) {
    (NO_ERROR, frame)
  }

  /** Against an echo device: a get right after a send returns that send's type and
      payload; a get after a get fails; a get on a fresh harness succeeds with a message
      of zeros that nobody sent. */
  lemma EchoSession(ops: seq<Op>, i: nat)
    requires i < |ops| && ops[i].Get?
    ensures i > 0 && ops[i - 1].Send? ==>
              AnswerOf(Echo, ops, i) == Got(Message(ops[i - 1].msgType, ops[i - 1].payload))
    ensures AnswerOf(Echo, ops, i) == Got(Failed(1)) <==> i > 0 && ops[i - 1].Get?
    ensures i == 0 ==> AnswerOf(Echo, ops, i) == Got(Message(0, ZeroBytes(510)))
  {
    if i > 0 && ops[i - 1].Send? {
      DecodedFrame(ops[i - 1].msgType, ops[i - 1].payload);
    }
  }

  /** The check on an answer that carries a subtype, and what follows the subtype. */
  function Subtyped(received: Received): Option<(UInt16, seq<Byte>)> {
    if received.Message? && |received.payload| > 2
    then Some((BigEndian(received.payload[0], received.payload[1]), received.payload[2..]))
    else None
  }

  /** A subtyped message comes back from an echo device with type, subtype and bytes, and
      the check rejects it only if it has no bytes at all. */
  method OneofRoundTrip(msgType: UInt16, subtype: UInt16, message: Proto) returns (code: int, received: Received)
    requires OneofRoom(|message.bytes|) && message.initialized
    ensures code == NO_ERROR && received == Message(msgType, Frame(subtype, message.bytes))
    ensures Subtyped(received) == if message.bytes == [] then None else Some((subtype, message.bytes))
  {
    var harness := new TestHarness(Echo, 0);
    code := harness.SendOneofProto(msgType, subtype, message);
    var msg := new RawMessage();
    DecodedFrame(msgType, Frame(subtype, message.bytes));
    code := harness.GetSpi(msg);
    received := Message(msg.msgType, msg.data[..msg.dataLen]);
    assert Frame(subtype, message.bytes)[2..] == message.bytes;
  }
}
