/** The verified-boot service of the chip, as far as its tests pin it down. The tests see
    only requests and answers, so the device is a relation: where they fix an outcome it
    is fixed, and where they say nothing a request may be granted or refused. A request
    changes only the item it names. */
module AvbDevice {
  import opened Text
  import opened Hex

  type Signature = seq<Byte>

  const DEVICE_DATA_SIZE := 32
  const NO_DATA: seq<Byte> := ZeroBytes(DEVICE_DATA_SIZE)

  datatype State = State(
    bootloader: bool,
    production: bool,
    boot: Byte,
    carrier: Byte,
    device: Byte,
    owner: Byte,
    ownerKey: seq<Byte>,
    deviceData: seq<Byte>,
    nonce: Option<nat>,
    versions: seq<nat>)

  type Positive = n: nat | n > 0 witness 1

  /** A TEST_IMAGE device leaves production even when a signature is bad; sign is the
      reset key holder's signature of a nonce and device data. The owner key is read in
      chunks, and the largest key is a whole number of them. */
  datatype Config = Config(
    testImage: bool,
    sign: (nat, seq<Byte>) -> Signature,
    chunkSize: Positive,
    keyChunks: nat)

  function MaxKeySize(cfg: Config): nat {
    cfg.keyChunks * cfg.chunkSize
  }

  /** Which reset key a challenge is for. */
  datatype Selector = Current | OtherKey

  datatype Request =
    | SetBootloader
    | BootloaderDone
    | GetState
    | CarrierLock(locked: Byte, data: seq<Byte>)
    | SetDeviceLock(locked: Byte)
    | SetBootLock(locked: Byte)
    | SetOwnerLock(locked: Byte, key: seq<Byte>)
    | GetOwnerKey(offset: nat, size: nat)
    | SetProduction(production: bool, data: seq<Byte>)
    | ResetLocks
    | ResetProduction(signature: Signature)
    | GetResetChallenge
    | Load(slot: nat)
    | Store(slot: nat, version: nat)
    | WipeUserData

  datatype Code = Success | Authorization | Bootloader | Hlos | Denied | OtherError

  datatype Payload =
    | Nothing
    | StateIs(bootloader: bool, production: bool, boot: Byte, carrier: Byte, device: Byte, owner: Byte)
    | Challenge(selector: Selector, nonce: nat, data: seq<Byte>)
    | Chunk(bytes: seq<Byte>)
    | Version(version: nat)

  datatype Reply = Reply(code: Code, payload: Payload)

  /** What the tests fix about a request that sets something. */
  datatype Ruling = Accept | Refuse(code: Code) | Open

  function CarrierRuling(s: State, locked: Byte, data: seq<Byte>): Ruling {
    if s.production then Refuse(Authorization)
    else if locked == 0 && s.carrier != 0 then Accept
    else if locked != 0 && s.carrier == 0 && |data| == DEVICE_DATA_SIZE then Accept
    else Open
  }

  function DeviceRuling(s: State, locked: Byte): Ruling {
    if s.production && s.bootloader then Refuse(Hlos)
    else if s.device != 0 && locked != 0 && locked != s.device then Refuse(Denied)
    else if s.production && (s.device != 0 || locked == 0) then Open
    else Accept
  }

  function BootRuling(s: State, locked: Byte): Ruling {
    if s.production then
      if !s.bootloader then Refuse(Bootloader)
      else if s.boot == 0 then (if locked != 0 then Accept else Open)
      else if s.carrier != 0 && locked != s.boot then Refuse(Denied)
      else if s.device != 0 && locked == 0 then Refuse(Denied)
      else if s.carrier == 0 && s.device == 0 && locked == 0 then Accept
      else Open
    else if locked != 0 && (s.boot == 0 || s.boot == locked) then Accept
    else Open
  }

  function OwnerRuling(cfg: Config, s: State, locked: Byte, key: seq<Byte>): Ruling {
    if s.boot != 0 then (if locked != 0 then Refuse(Denied) else Open)
    else if s.owner != 0 && locked != 0 && locked != s.owner then Refuse(Denied)
    else if s.production || (s.owner == 0) == (locked == 0) then Open
    else if key == [] || |key| == MaxKeySize(cfg) then Accept
    else Open
  }

  function ProductionRuling(s: State, production: bool, data: seq<Byte>): Ruling {
    if s.production && !production then Refuse(Authorization)
    else if !s.production && production && |data| == DEVICE_DATA_SIZE then Accept
    else Open
  }

  function StoreRuling(s: State, slot: nat): Ruling {
    if slot >= |s.versions| || !s.production then Open
    else if s.bootloader then Accept
    else Refuse(Bootloader)
  }

  function RulingOf(cfg: Config, s: State, req: Request): Ruling {
    match req
    case CarrierLock(locked, data) => CarrierRuling(s, locked, data)
    case SetDeviceLock(locked) => DeviceRuling(s, locked)
    case SetBootLock(locked) => BootRuling(s, locked)
    case SetOwnerLock(locked, key) => OwnerRuling(cfg, s, locked, key)
    case SetProduction(production, data) => ProductionRuling(s, production, data)
    case ResetLocks => if s.production then Refuse(Denied) else Accept
    case Store(slot, _) => StoreRuling(s, slot)
    case SetBootloader => Accept
    case BootloaderDone => Accept
    case _ => Open
  }

  /** The state once the request is granted. */
  function Granted(s: State, req: Request): State {
    match req
    case SetBootloader => s.(bootloader := true)
    case BootloaderDone => s.(bootloader := false)
    case CarrierLock(locked, _) => s.(carrier := locked)
    case SetDeviceLock(locked) => s.(device := locked)
    case SetBootLock(locked) => s.(boot := locked)
    case SetOwnerLock(locked, key) => s.(owner := locked, ownerKey := key)
    case SetProduction(production, data) =>
      s.(production := production, deviceData := if production then data else NO_DATA)
    case ResetLocks => s.(boot := 0, carrier := 0, device := 0, owner := 0)
    case Store(slot, version) => if slot < |s.versions| then s.(versions := s.versions[slot := version]) else s
    case _ => s
  }

  predicate Settles(cfg: Config, s: State, req: Request, s': State, code: Code) {
    match RulingOf(cfg, s, req)
    case Accept => code == Success && s' == Granted(s, req)
    case Refuse(c) => code == c && s' == s
    case Open => (code == Success && s' == Granted(s, req)) || (code != Success && s' == s)
  }

  /** Leaving production forgets the device data; each lock and stored version is kept
      or cleared, which of the two the tests leave open. */
  predicate LeavesProduction(s: State, s': State) {
    && !s'.production && s'.deviceData == NO_DATA
    && (s'.bootloader ==> s.bootloader)
    && (s'.boot == s.boot || s'.boot == 0)
    && (s'.carrier == s.carrier || s'.carrier == 0)
    && (s'.device == s.device || s'.device == 0)
    && (s'.owner == s.owner || s'.owner == 0)
    && |s'.versions| == |s.versions|
    && (forall i :: 0 <= i < |s.versions| ==> s'.versions[i] == s.versions[i] || s'.versions[i] == 0)
  }

  /** The signature is checked against the pending challenge, which is spent by that;
      without one there is nothing to check against, and no fall-through either. */
  predicate ResetsProduction(cfg: Config, s: State, signature: Signature, s': State, code: Code) {
    match s.nonce
    case None => code == Denied && s' == s
    case Some(nonce) =>
      var good := signature == cfg.sign(nonce, s.deviceData);
      && (good <==> code == Success)
      && s'.nonce == None
      && if good || cfg.testImage then LeavesProduction(s, s') else s' == s.(nonce := None)
  }

  /** A wipe of user data keeps the boot state and never sets the device lock. */
  predicate Wipes(s: State, s': State) {
    && s' == s.(device := s'.device, owner := s'.owner, ownerKey := s'.ownerKey)
    && (s.device == 0 ==> s'.device == 0)
  }

  function Reported(s: State): Payload {
    StateIs(s.bootloader, s.production, s.boot, s.carrier, s.device, s.owner)
  }

  /** An answer has at most the bytes asked for. While an owner lock is set outside
      production, it is exactly the slice asked for if the key reaches that far; beyond its
      end a request is refused or answered with less. */
  predicate ReadsKey(s: State, offset: nat, size: nat, reply: Reply) {
    && (reply.code == Success ==> reply.payload.Chunk? && |reply.payload.bytes| <= size)
    && (s.owner != 0 && !s.production ==>
          if offset + size <= |s.ownerKey| then reply == Reply(Success, Chunk(s.ownerKey[offset..offset + size]))
          else reply.code == Success ==> |reply.payload.bytes| < size)
  }

  predicate Step(cfg: Config, s: State, req: Request, s': State, reply: Reply) {
    match req
    case GetState =>
      && reply == Reply(Success, Reported(s))
      && s' == s
    case ResetProduction(signature) =>
      reply.payload == Nothing && ResetsProduction(cfg, s, signature, s', reply.code)
    case GetResetChallenge =>
      && reply.code == Success && reply.payload.Challenge?
      && reply.payload.selector == Current && reply.payload.nonce != 0 && reply.payload.data == s.deviceData
      && s' == s.(nonce := Some(reply.payload.nonce))
    case GetOwnerKey(offset, size) =>
      s' == s && ReadsKey(s, offset, size, reply)
    case Load(slot) =>
      && s' == s
      && (slot < |s.versions| ==> reply == Reply(Success, Version(s.versions[slot])))
    case WipeUserData =>
      reply == Reply(Success, Nothing) && Wipes(s, s')
    case _ =>
      reply.payload == Nothing && Settles(cfg, s, req, s', reply.code)
  }

  /** Eight version slots; device data is kept only in production. */
  predicate Valid(s: State) {
    && |s.versions| == 8
    && (!s.production ==> s.deviceData == NO_DATA)
  }

  lemma StepKeepsValid(cfg: Config, s: State, req: Request, s': State, reply: Reply)
    requires Valid(s) && Step(cfg, s, req, s', reply)
    ensures Valid(s')
  {
  }

  /** The rules never contradict each other: every request has an outcome. */
  lemma StepExists(cfg: Config, s: State, req: Request)
    ensures exists s', reply :: Step(cfg, s, req, s', reply)
  {
    if req.GetState? {
      assert Step(cfg, s, req, s, Reply(Success, Reported(s)));
    } else if req.ResetProduction? {
      ResetOutcomeExists(cfg, s, req.signature);
    } else if req.GetResetChallenge? {
      assert Step(cfg, s, req, s.(nonce := Some(1)), Reply(Success, Challenge(Current, 1, s.deviceData)));
    } else if req.GetOwnerKey? {
      var inside := req.offset + req.size <= |s.ownerKey|;
      var reply := if inside then Reply(Success, Chunk(s.ownerKey[req.offset..req.offset + req.size]))
                   else Reply(OtherError, Nothing);
      assert Step(cfg, s, req, s, reply);
    } else if req.Load? {
      var payload := if req.slot < |s.versions| then Version(s.versions[req.slot]) else Nothing;
      assert Step(cfg, s, req, s, Reply(Success, payload));
    } else if req.WipeUserData? {
      assert Step(cfg, s, req, s, Reply(Success, Nothing));
    } else if RulingOf(cfg, s, req).Refuse? {
      assert Step(cfg, s, req, s, Reply(RulingOf(cfg, s, req).code, Nothing));
    } else {
      assert Step(cfg, s, req, Granted(s, req), Reply(Success, Nothing));
    }
  }

  lemma ResetOutcomeExists(cfg: Config, s: State, signature: Signature)
    ensures exists s', reply :: Step(cfg, s, ResetProduction(signature), s', reply)
  {
    if s.nonce.None? {
      assert Step(cfg, s, ResetProduction(signature), s, Reply(Denied, Nothing));
    } else {
      var good := signature == cfg.sign(s.nonce.value, s.deviceData);
      var spent := s.(nonce := None);
      var s' := if good || cfg.testImage then spent.(production := false, deviceData := NO_DATA) else spent;
      assert Step(cfg, s, ResetProduction(signature), s', Reply(if good then Success else Denied, Nothing));
    }
  }
}
