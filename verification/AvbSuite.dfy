/** The verified-boot tests themselves, run against any conforming TEST_IMAGE device: their
    assertions hold from whatever state earlier tests have left. */
module AvbSuite {
  import opened Text
  import opened Hex
  import opened AvbDevice
  import opened AvbTools
  import opened OwnerKey

  const DEVICE_DATA: seq<Byte> := Repeated([0x42], DEVICE_DATA_SIZE)
  const DEVICE_HASH: seq<Byte> := Repeated([1, 2, 3, 4, 5, 6, 7, 8], 4)

  function Repeated(bytes: seq<Byte>, times: nat): (r: seq<Byte>)
    ensures |r| == times * |bytes|
  {
    if times == 0 then [] else bytes + Repeated(bytes, times - 1)
  }

  method CarrierLockTest(c: AvbClient) returns (passed: bool)
    requires Clean(c.state)
    modifies c
    ensures Valid(c.state) && passed
  {
    var code := c.CarrierLock(0x12, NO_DATA);
    passed := code == Success;
    var s := c.GetState();
    passed := passed && s.carrier == 0x12;
    code := c.CarrierLock(0, []);
    passed := passed && code == Success;

    c.SetBootloader();
    code := c.SetProduction(true, None);
    passed := passed && code == Success;
    c.BootloaderDone();

    code := c.CarrierLock(0x12, NO_DATA);
    passed := passed && code == Authorization;
    s := c.GetState();
    passed := passed && s.carrier == 0;
    code := c.CarrierLock(0, []);
    passed := passed && code == Authorization;
  }

  method DeviceLockTest(c: AvbClient) returns (passed: bool)
    requires Clean(c.state) && c.cfg.testImage
    modifies c
    ensures Valid(c.state) && passed
  {
    c.SetBootloader();
    var code := c.SetProduction(true, None);
    passed := code == Success;
    code := c.SetDeviceLock(0x12);
    passed := passed && code == Hlos;

    var ok := c.ResetProduction();
    passed := passed && ok;
    c.SetBootloader();
    code := c.SetDeviceLock(0x34);
    passed := passed && code == Success;
    var s := c.GetState();
    passed := passed && s.bootloader && !s.production && s.device == 0x34;

    code := c.SetDeviceLock(0x56);
    passed := passed && code == Denied;
    s := c.GetState();
    passed := passed && s.device == 0x34;

    code := c.SetDeviceLock(0);
    passed := passed && code == Success;
    s := c.GetState();
    passed := passed && s.device == 0;
  }

  method SetDeviceLockIsIdempotent(c: AvbClient) returns (passed: bool)
    requires Clean(c.state)
    modifies c
    ensures Valid(c.state) && passed
  {
    var code := c.SetDeviceLock(0x65);
    passed := code == Success;
    code := c.SetDeviceLock(0x65);
    passed := passed && code == Success;
  }

  /** Set, and set free again, with neither carrier nor device lock. */
  method BootLockAlone(c: AvbClient) returns (passed: bool)
    requires Clean(c.state)
    modifies c
    ensures Valid(c.state) && passed && c.state.production
  {
    var code := c.SetProduction(true, None);
    passed := code == Success;
    code := c.SetBootLock(0x12);
    passed := passed && code == Bootloader;
    var s := c.GetState();
    passed := passed && s.boot == 0;

    c.SetBootloader();
    code := c.SetBootLock(0x12);
    passed := passed && code == Success;
    s := c.GetState();
    passed := passed && s.boot == 0x12;
    code := c.SetBootLock(0);
    passed := passed && code == Success;
    s := c.GetState();
    passed := passed && s.boot == 0;
  }

  /** ResetProduction followed by Reset(LOCKS), as the tests do between their parts. */
  method ClearAll(c: AvbClient) returns (passed: bool)
    requires Valid(c.state) && c.cfg.testImage
    modifies c
    ensures Valid(c.state) && passed && !c.state.production
    ensures c.state.boot == 0 && c.state.carrier == 0 && c.state.device == 0 && c.state.owner == 0
    ensures c.state.bootloader ==> old(c.state.bootloader)
  {
    passed := c.ResetProduction();
    var code := c.ResetLocks();
    passed := passed && code == Success;
  }

  method BootLockUnderCarrier(c: AvbClient) returns (passed: bool)
    requires Valid(c.state) && c.cfg.testImage
    modifies c
    ensures Valid(c.state) && passed
  {
    passed := ClearAll(c);
    var code := c.CarrierLock(0x34, DEVICE_DATA);
    passed := passed && code == Success;
    code := c.SetProduction(true, None);
    passed := passed && code == Success;

    c.SetBootloader();
    code := c.SetBootLock(0x56);
    passed := passed && code == Success;
    code := c.SetBootLock(0);
    passed := passed && code == Denied;
    code := c.SetBootLock(0x42);
    passed := passed && code == Denied;
    var s := c.GetState();
    passed := passed && s.carrier == 0x34 && s.boot == 0x56;
  }

  method BootLockUnderDevice(c: AvbClient) returns (passed: bool)
    requires Valid(c.state) && c.cfg.testImage
    modifies c
    ensures Valid(c.state) && passed
  {
    passed := ClearAll(c);
    var code := c.SetProduction(true, None);
    passed := passed && code == Success;
    c.SetBootloader();
    code := c.SetDeviceLock(0x78);
    passed := passed && code == Hlos;
    c.BootloaderDone();
    code := c.SetDeviceLock(0x78);
    passed := passed && code == Success;

    c.SetBootloader();
    code := c.SetBootLock(0x9A);
    passed := passed && code == Success;
    code := c.SetBootLock(0);
    passed := passed && code == Denied;
    var s := c.GetState();
    passed := passed && s.device == 0x78 && s.boot == 0x9A;
  }

  method BootLockTest(c: AvbClient) returns (passed: bool)
    requires Clean(c.state) && c.cfg.testImage
    modifies c
    ensures Valid(c.state) && passed
  {
    var alone := BootLockAlone(c);
    var carrier := BootLockUnderCarrier(c);
    var device := BootLockUnderDevice(c);
    return alone && carrier && device;
  }

  method SetBootLockIsIdempotent(c: AvbClient) returns (passed: bool)
    requires Clean(c.state)
    modifies c
    ensures Valid(c.state) && passed
  {
    var code := c.SetBootLock(0x12);
    passed := code == Success;
    code := c.SetBootLock(0x12);
    passed := passed && code == Success;
  }

  method SetBootLockAfterWipingUserData(c: AvbClient) returns (passed: bool)
    requires Clean(c.state)
    modifies c
    ensures Valid(c.state) && passed
  {
    var code := c.SetProduction(true, None);
    passed := code == Success;
    c.SetBootloader();
    c.WipeUserData();
    code := c.SetBootLock(0xdc);
    passed := passed && code == Success;
  }

  /** A key of the largest size, every byte the upper half of its index. */
  function TestKey(size: nat): (key: seq<Byte>)
    ensures |key| == size
  {
    seq(size, i requires 0 <= i < size => i / 256 % 256)
  }

  method OwnerLockTest(c: AvbClient) returns (passed: bool)
    requires Clean(c.state)
    modifies c
    ensures Valid(c.state) && passed
  {
    var ownerKey := TestKey(MaxKeySize(c.cfg));
    var code := c.SetOwnerLock(0x65, ownerKey);
    passed := code == Success;
    var s := c.GetState();
    passed := passed && s.owner == 0x65;

    var same, _ := CheckOwnerKey(c, ownerKey, c.cfg.chunkSize, c.cfg.keyChunks);
    passed := passed && same;

    code := c.SetOwnerLock(0x87, ownerKey);
    passed := passed && code == Denied;
    s := c.GetState();
    passed := passed && s.owner == 0x65;

    code := c.SetOwnerLock(0, ownerKey);
    passed := passed && code == Success;
    s := c.GetState();
    passed := passed && s.owner == 0;

    c.SetBootloader();
    code := c.SetBootLock(0x43);
    passed := passed && code == Success;
    s := c.GetState();
    passed := passed && s.boot == 0x43;
    code := c.SetOwnerLock(0x21, ownerKey);
    passed := passed && code == Denied;
  }

  method ProductionMode(c: AvbClient) returns (passed: bool)
    requires Clean(c.state)
    modifies c
    ensures Valid(c.state) && passed
  {
    var s := c.GetState();
    passed := !s.production;
    c.SetBootloader();
    var code := c.SetOwnerLock(0x11, []);
    passed := passed && code == Success;
    code := c.SetBootLock(0x22);
    passed := passed && code == Success;
    code := c.CarrierLock(0x33, DEVICE_DATA);
    passed := passed && code == Success;
    code := c.SetDeviceLock(0x44);
    passed := passed && code == Success;

    code := c.SetProduction(true, None);
    passed := passed && code == Success;
    s := c.GetState();
    passed := passed && s.production && s.owner == 0x11 && s.boot == 0x22 && s.carrier == 0x33 && s.device == 0x44;

    code := c.SetProduction(false, None);
    passed := passed && code == Authorization;
    c.BootloaderDone();
    code := c.SetProduction(false, None);
    passed := passed && code == Authorization;
  }

  method ResetTest(c: AvbClient) returns (passed: bool)
    requires Clean(c.state) && c.cfg.testImage
    modifies c
    ensures Valid(c.state) && passed
  {
    c.SetBootloader();
    var code := c.SetBootLock(0x12);
    passed := code == Success;
    code := c.SetDeviceLock(0x34);
    passed := passed && code == Success;
    code := c.SetProduction(true, None);
    passed := passed && code == Success;
    c.BootloaderDone();
    var s := c.GetState();
    passed := passed && !s.bootloader && s.production && s.boot == 0x12 && s.device == 0x34;

    code := c.ResetLocks();
    passed := passed && code == Denied;
    s := c.GetState();
    passed := passed && !s.bootloader && s.production && s.boot == 0x12 && s.device == 0x34;

    var ok := ClearAll(c);
    s := c.GetState();
    passed := passed && ok && !s.bootloader && !s.production && s.boot == 0 && s.device == 0;
  }

  method GetResetChallengeTest(c: AvbClient) returns (passed: bool)
    requires Clean(c.state)
    modifies c
    ensures Valid(c.state) && passed
  {
    var code, selector, nonce, data, size := c.GetResetChallenge(32);
    passed := 32 <= size && code == Success && nonce != 0 && selector == Current && size == 32 && data == NO_DATA;
  }

  /** A signature that differs in its first byte. */
  function Spoiled(signature: Signature): (r: Signature)
    ensures r != signature && r != []
  {
    if signature == [] then [1]
    else
      var spoiled := signature[0 := if signature[0] == 255 then 0 else signature[0] + 1];
      assert spoiled[0] != signature[0];
      spoiled
  }

  /** The key holder's signatures are never empty, and so are sent as they are. */
  ghost predicate Signs(cfg: Config) {
    forall nonce, data :: cfg.sign(nonce, data) != []
  }

  method ResetProductionValid(c: AvbClient) returns (passed: bool)
    requires Clean(c.state) && c.cfg.testImage && Signs(c.cfg)
    modifies c
    ensures Valid(c.state) && passed
  {
    var code := c.SetProduction(true, Some(DEVICE_HASH));
    passed := code == Success;
    var selector, nonce, data, size;
    code, selector, nonce, data, size := c.GetResetChallenge(DEVICE_DATA_SIZE);
    passed := passed && code == Success && data == DEVICE_HASH;
    var signature := c.cfg.sign(nonce, data);

    code := c.ResetWith(Spoiled(signature));
    passed := passed && code != Success;
    code := c.SetProduction(true, Some(DEVICE_HASH));
    passed := passed && code == Success;

    code := c.ResetWith(signature);
    passed := passed && code == Denied;

    code, selector, nonce, data, size := c.GetResetChallenge(DEVICE_DATA_SIZE);
    passed := passed && code == Success;
    signature := c.cfg.sign(nonce, data);
    code := c.ResetWith(signature);
    passed := passed && code == Success;
  }

  method WipeUserDataDoesNotLockDeviceLock(c: AvbClient) returns (passed: bool)
    requires Clean(c.state)
    modifies c
    ensures Valid(c.state) && passed
  {
    var code := c.SetDeviceLock(0);
    passed := code == Success;
    c.WipeUserData();
    var s := c.GetState();
    passed := passed && s.device == 0;
  }

  /** Stores are refused until the boot loader runs; loads before that expect zero. */
  method RollbackLocked(c: AvbClient) returns (passed: bool)
    requires Valid(c.state) && c.state.production && !c.state.bootloader
    modifies c
    ensures c.state == old(c.state)
    ensures passed <==> forall k :: 0 <= k < 8 ==> c.state.versions[k] == 0
  {
    passed := true;
    for i := 0 to 8
      invariant c.state == old(c.state)
      invariant passed <==> forall k :: 0 <= k < i ==> c.state.versions[k] == 0
    {
      var code := c.Store(i, 0xFF00000011223344 + i);
      passed := passed && code == Bootloader;
      var value;
      code, value := c.Load(i);
      passed := passed && code == Success && value == 0;
    }
  }

  method RollbackUnlocked(c: AvbClient) returns (passed: bool)
    requires Valid(c.state) && c.state.production && c.state.bootloader
    modifies c
    ensures Valid(c.state) && passed
    ensures forall k :: 0 <= k < 8 ==> c.state.versions[k] == 0x8800000011223344 - k
  {
    passed := true;
    for i := 0 to 8
      invariant Valid(c.state) && c.state.production && c.state.bootloader && passed
      invariant forall k :: 0 <= k < i ==> c.state.versions[k] == 0x8800000011223344 - k
    {
      var code := c.Store(i, 0xFF00000011223344 + i);
      passed := passed && code == Success;
      var value;
      code, value := c.Load(i);
      passed := passed && code == Success && value == 0xFF00000011223344 + i;
      code := c.Store(i, 0x8800000011223344 - i);
      passed := passed && code == Success;
      code, value := c.Load(i);
      passed := passed && code == Success && value == 0x8800000011223344 - i;
    }
  }

  /** The rollback test passes exactly when the fixture has left all versions zero, and
      it leaves none of them zero itself. */
  method Rollback(c: AvbClient) returns (passed: bool)
    requires Clean(c.state)
    modifies c
    ensures Valid(c.state)
    ensures passed <==> forall k :: 0 <= k < 8 ==> old(c.state).versions[k] == 0
    ensures forall k :: 0 <= k < 8 ==> c.state.versions[k] != 0
  {
    var code := c.SetProduction(true, None);
    passed := code == Success;
    var locked := RollbackLocked(c);
    c.SetBootloader();
    var unlocked := RollbackUnlocked(c);
    passed := passed && locked && unlocked;
  }

  datatype Test =
    | TCarrierLock | TDeviceLock | TDeviceIdempotent | TBootLock | TBootIdempotent | TBootAfterWipe
    | TOwnerLock | TProductionMode | TRollback | TReset | TChallenge | TResetProduction | TWipe

  /** One TEST_F: the fixture, then the test. */
  method RunTest(c: AvbClient, test: Test) returns (passed: bool)
    requires Valid(c.state) && c.cfg.testImage && Signs(c.cfg)
    modifies c
    ensures Valid(c.state)
    ensures test != TRollback ==> passed
  {
    var ready := c.SetUp();
    match test {
      case TCarrierLock => passed := CarrierLockTest(c);
      case TDeviceLock => passed := DeviceLockTest(c);
      case TDeviceIdempotent => passed := SetDeviceLockIsIdempotent(c);
      case TBootLock => passed := BootLockTest(c);
      case TBootIdempotent => passed := SetBootLockIsIdempotent(c);
      case TBootAfterWipe => passed := SetBootLockAfterWipingUserData(c);
      case TOwnerLock => passed := OwnerLockTest(c);
      case TProductionMode => passed := ProductionMode(c);
      case TRollback => passed := Rollback(c);
      case TReset => passed := ResetTest(c);
      case TChallenge => passed := GetResetChallengeTest(c);
      case TResetProduction => passed := ResetProductionValid(c);
      case TWipe => passed := WipeUserDataDoesNotLockDeviceLock(c);
    }
    passed := passed && ready;
  }

  /** The tests are independent: in any order, with any repetitions, starting from any
      state, every assertion holds, those of the rollback test aside. */
  method RunSuite(c: AvbClient, order: seq<Test>) returns (results: seq<bool>)
    requires Valid(c.state) && c.cfg.testImage && Signs(c.cfg)
    modifies c
    ensures Valid(c.state) && |results| == |order|
    ensures forall i :: 0 <= i < |order| ==> order[i] != TRollback ==> results[i]
  {
    results := [];
    for i := 0 to |order|
      invariant Valid(c.state) && |results| == i
      invariant forall k :: 0 <= k < i ==> order[k] != TRollback ==> results[k]
    {
      var passed := RunTest(c, order[i]);
      results := results + [passed];
    }
  }
}
