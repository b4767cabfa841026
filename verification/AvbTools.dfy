/** The client side of the verified-boot service: one call per request, the tools built
    on them, and the fixture that every test starts from. */
module AvbTools {
  import opened Text
  import opened Hex
  import opened AvbDevice

  const SIGNATURE_SIZE := 256
  const NO_SIGNATURE: Signature := ZeroBytes(SIGNATURE_SIZE)

  method CopyChunk(chunk: seq<Byte>, metadata: array<Byte>)
    requires |chunk| <= metadata.Length
    modifies metadata
    ensures metadata[..] == chunk + old(metadata[..])[|chunk|..]
  {
    for i := 0 to |chunk|
      invariant forall k :: 0 <= k < i ==> metadata[k] == chunk[k]
      invariant forall k :: i <= k < metadata.Length ==> metadata[k] == old(metadata[k])
    {
      metadata[i] := chunk[i];
    }
  }

  /** A connection to some conforming device: every call takes the device through a step
      the rules allow, chosen by the device. */
  class AvbClient {
    const cfg: Config
    var state: State

    constructor (cfg: Config, state: State)
      requires Valid(state)
      ensures this.cfg == cfg && this.state == state
    {
      this.cfg := cfg;
      this.state := state;
    }

    method Call(req: Request) returns (reply: Reply)
      requires Valid(state)
      modifies this
      ensures Step(cfg, old(state), req, state, reply) && Valid(state)
    {
      StepExists(cfg, state, req);
      var next, answer :| Step(cfg, state, req, next, answer);
      StepKeepsValid(cfg, state, req, next, answer);
      state := next;
      return answer;
    }

    method SetBootloader()
      requires Valid(state)
      modifies this
      ensures state == old(state).(bootloader := true) && Valid(state)
    {
      var _ := Call(Request.SetBootloader);
    }

    method BootloaderDone()
      requires Valid(state)
      modifies this
      ensures state == old(state).(bootloader := false) && Valid(state)
    {
      var _ := Call(Request.BootloaderDone);
    }

    method GetState() returns (r: Payload)
      requires Valid(state)
      modifies this
      ensures state == old(state)
      ensures r == StateIs(state.bootloader, state.production, state.boot, state.carrier, state.device, state.owner)
    {
      var reply := Call(Request.GetState);
      return reply.payload;
    }

    method CarrierLock(locked: Byte, data: seq<Byte>) returns (code: Code)
      requires Valid(state)
      modifies this
      ensures Settles(cfg, old(state), Request.CarrierLock(locked, data), state, code) && Valid(state)
    {
      var reply := Call(Request.CarrierLock(locked, data));
      return reply.code;
    }

    method SetDeviceLock(locked: Byte) returns (code: Code)
      requires Valid(state)
      modifies this
      ensures Settles(cfg, old(state), Request.SetDeviceLock(locked), state, code) && Valid(state)
    {
      var reply := Call(Request.SetDeviceLock(locked));
      return reply.code;
    }

    method SetBootLock(locked: Byte) returns (code: Code)
      requires Valid(state)
      modifies this
      ensures Settles(cfg, old(state), Request.SetBootLock(locked), state, code) && Valid(state)
    {
      var reply := Call(Request.SetBootLock(locked));
      return reply.code;
    }

    method SetOwnerLock(locked: Byte, key: seq<Byte>) returns (code: Code)
      requires Valid(state)
      modifies this
      ensures Settles(cfg, old(state), Request.SetOwnerLock(locked, key), state, code) && Valid(state)
    {
      var reply := Call(Request.SetOwnerLock(locked, key));
      return reply.code;
    }

    /** The bytes of the answer go to the front of the buffer, whose size is the size asked
        for; the size of the answer is returned. */
    method GetOwnerKey(offset: nat, metadata: array<Byte>) returns (code: Code, size: nat, ghost answer: Reply)
      requires Valid(state)
      modifies this, metadata
      ensures state == old(state) && ReadsKey(state, offset, metadata.Length, answer) && code == answer.code
      ensures code == Success ==>
                && metadata[..] == answer.payload.bytes + old(metadata[..])[|answer.payload.bytes|..]
                && size == |answer.payload.bytes|
      ensures code != Success ==> metadata[..] == old(metadata[..]) && size == metadata.Length
    {
      var reply := Call(Request.GetOwnerKey(offset, metadata.Length));
      answer := reply;
      if reply.code != Success {
        return reply.code, metadata.Length, answer;
      }
      CopyChunk(reply.payload.bytes, metadata);
      return Success, |reply.payload.bytes|, answer;
    }

    method Load(slot: nat) returns (code: Code, version: nat)
      requires Valid(state) && slot < 8
      modifies this
      ensures state == old(state) && code == Success && version == state.versions[slot]
    {
      var reply := Call(Request.Load(slot));
      return reply.code, reply.payload.version;
    }

    method Store(slot: nat, version: nat) returns (code: Code)
      requires Valid(state)
      modifies this
      ensures Settles(cfg, old(state), Request.Store(slot, version), state, code) && Valid(state)
    {
      var reply := Call(Request.Store(slot, version));
      return reply.code;
    }

    method WipeUserData()
      requires Valid(state)
      modifies this
      ensures Wipes(old(state), state) && Valid(state)
    {
      var _ := Call(Request.WipeUserData);
    }

    /** Absent data is replaced by an all-zero hash when production is set. */
    method SetProduction(production: bool, data: Option<seq<Byte>>) returns (code: Code)
      requires Valid(state)
      modifies this
      ensures Settles(cfg, old(state), Request.SetProduction(production, SentData(production, data)), state, code)
      ensures Valid(state)
    {
      var sent: seq<Byte> := [];
      if data.Some? && |data.value| != 0 {
        sent := data.value;
      }
      if production && data.None? {
        sent := NO_DATA;
      }
      var reply := Call(Request.SetProduction(production, sent));
      return reply.code;
    }

    method ResetLocks() returns (code: Code)
      requires Valid(state)
      modifies this
      ensures Settles(cfg, old(state), Request.ResetLocks, state, code) && Valid(state)
    {
      var reply := Call(Request.ResetLocks);
      return reply.code;
    }

    /** An absent signature is sent as all zeros. */
    method ResetWith(signature: Signature) returns (code: Code)
      requires Valid(state)
      modifies this
      ensures ResetsProduction(cfg, old(state), SentSignature(signature), state, code) && Valid(state)
    {
      var sent := if |signature| != 0 then signature else NO_SIGNATURE;
      var reply := Call(Request.ResetProduction(sent));
      return reply.code;
    }

    /** The device data is copied only as far as the caller has space; the size returned
        is the device's. */
    method GetResetChallenge(space: nat)
      returns (code: Code, selector: Selector, nonce: nat, data: seq<Byte>, size: nat)
      requires Valid(state)
      modifies this
      ensures Valid(state) && code == Success && selector == Current && nonce != 0
      ensures state == old(state).(nonce := Some(nonce))
      ensures size == |state.deviceData|
      ensures data == if space < size then state.deviceData[..space] else state.deviceData
    {
      var reply := Call(Request.GetResetChallenge);
      var all := reply.payload.data;
      var len := if space < |all| then space else |all|;
      return reply.code, reply.payload.selector, reply.payload.nonce, all[..len], |all|;
    }

    /** Challenge, reset with an all-zero signature whatever comes of it, and check that
        the device left production. */
    method ResetProduction() returns (passed: bool)
      requires Valid(state)
      modifies this
      ensures Valid(state) && state.nonce == None && passed == !state.production
      ensures exists nonce, code :: ResetsProduction(cfg, old(state).(nonce := Some(nonce)), NO_SIGNATURE, state, code)
    {
      var code, _, nonce, _, _ := GetResetChallenge(DEVICE_DATA_SIZE);
      if code != Success {
        return false;
      }
      code := ResetWith(NO_SIGNATURE);
      assert ResetsProduction(cfg, old(state).(nonce := Some(nonce)), NO_SIGNATURE, state, code);
      var s := GetState();
      return !s.production;
    }

    /** The fixture's set-up. On a TEST_IMAGE device it always ends with boot loader and
        production off and all locks clear; on any other device in production it fails
        unless the all-zero signature happens to be a good one. */
    method SetUp() returns (passed: bool)
      requires Valid(state)
      modifies this
      ensures Valid(state)
      ensures cfg.testImage || !old(state).production ==> passed
      ensures passed ==> Clean(state)
      ensures !cfg.testImage && old(state).production && NeverSignedAs(cfg, NO_SIGNATURE) ==>
                !passed && state == old(state).(bootloader := false, nonce := None)
    {
      BootloaderDone();
      passed := ResetProduction();
      var code := ResetLocks();
      if code != Success {
        return false;
      }
      var s := GetState();
      passed := passed && !s.bootloader && !s.production
                && s.boot == 0 && s.carrier == 0 && s.device == 0 && s.owner == 0;
    }
  }

  function SentData(production: bool, data: Option<seq<Byte>>): (sent: seq<Byte>)
    ensures data.None? ==> |sent| == (if production then 32 else 0) && AllZero(sent)
    ensures data.Some? ==> sent == data.value
  {
    match data
    case Some(d) => d
    case None => if production then NO_DATA else []
  }

  function SentSignature(signature: Signature): (sent: Signature)
    ensures signature == [] ==> |sent| == 256 && AllZero(sent)
    ensures signature != [] ==> sent == signature
  {
    if signature == [] then NO_SIGNATURE else signature
  }

  predicate AllZero(bytes: seq<Byte>) {
    forall i :: 0 <= i < |bytes| ==> bytes[i] == 0
  }

  ghost predicate NeverSignedAs(cfg: Config, signature: Signature) {
    forall nonce, data :: cfg.sign(nonce, data) != signature
  }

  /** What every test may count on. */
  predicate Clean(s: State) {
    && Valid(s) && !s.bootloader && !s.production
    && s.boot == 0 && s.carrier == 0 && s.device == 0 && s.owner == 0
  }
}
