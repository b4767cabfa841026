/** The Weaver service as its tests pin it down: 64 slots, each a secret behind a key, an
    attempt counter and a throttle. Where the tests say nothing the device may choose. */
module Weaver {
  import opened Hex

  const NUMBER_OF_SLOTS := 64
  const KEY_SIZE := 16
  const VALUE_SIZE := 16
  const FREE_ATTEMPTS := 5
  const THROTTLE_MSEC := 30_000

  type Key = k: seq<Byte> | |k| == KEY_SIZE witness ZeroBytes(KEY_SIZE)
  type Value = v: seq<Byte> | |v| == VALUE_SIZE witness ZeroBytes(VALUE_SIZE)

  const ZERO_VALUE: Value := ZeroBytes(VALUE_SIZE)

  /** What is stored for a slot, the wrong keys tried since it was written, and the time
      for which reads are still refused. */
  datatype Slot = Slot(key: Key, value: Value, attempts: nat, throttle: nat)

  type State = s: seq<Slot> | |s| == NUMBER_OF_SLOTS
    witness seq(NUMBER_OF_SLOTS, _ => Slot(ZeroBytes(KEY_SIZE), ZERO_VALUE, 0, 0))

  /** Requests, and what else happens to the device: time spent awake or asleep, a hard
      reboot, a wipe of user data (by itself or as part of a production reset). */
  datatype Request =
    | Write(slot: nat, key: Key, value: Value)
    | Read(slot: nat, key: Key)
    | EraseValue(slot: nat)
    | Wait(msec: nat)
    | Reboot
    | WipeUserData

  datatype Reply =
    | Done
    | BogusArgs
    | Found(value: Value)
    | WrongKey(throttle: nat)
    | Throttled(throttle: nat)

  function LessTime(throttle: nat, msec: nat): nat {
    if throttle <= msec then 0 else throttle - msec
  }

  predicate WrongKeyRead(x: Slot, x': Slot, reply: Reply) {
    && reply.WrongKey?
    && x' == x.(attempts := x.attempts + 1, throttle := reply.throttle)
    && (x'.attempts < FREE_ATTEMPTS ==> reply.throttle == 0)
    && (x'.attempts == FREE_ATTEMPTS ==> reply.throttle == THROTTLE_MSEC)
  }

  predicate ThrottledRead(x: Slot, x': Slot, reply: Reply) {
    && reply.Throttled? && 0 < reply.throttle <= x.throttle
    && x' == x.(attempts := x'.attempts) && x.attempts <= x'.attempts
  }

  predicate FoundRead(x: Slot, x': Slot, reply: Reply) {
    && reply == Found(x.value)
    && x' == x.(attempts := x'.attempts, throttle := 0) && x'.attempts <= x.attempts
  }

  predicate ReadsSlot(x: Slot, key: Key, x': Slot, reply: Reply) {
    if key == x.key then FoundRead(x, x', reply) || (x.throttle > 0 && ThrottledRead(x, x', reply))
    else if x.throttle > 0 then ThrottledRead(x, x', reply)
    else WrongKeyRead(x, x', reply)
  }

  /** The value is gone; key kept; the slot is no more throttled than before. */
  predicate LosesValue(x: Slot, x': Slot) {
    x'.key == x.key && x'.value == ZERO_VALUE && x'.attempts <= x.attempts && x'.throttle <= x.throttle
  }

  /** The counter survives a reboot, and a throttled slot stays throttled. */
  predicate SurvivesReboot(x: Slot, x': Slot) {
    && x' == x.(throttle := x'.throttle)
    && x'.throttle <= (if x.throttle > THROTTLE_MSEC then x.throttle else THROTTLE_MSEC)
    && (x.throttle > 0 ==> x'.throttle > 0)
    && (x.attempts < FREE_ATTEMPTS ==> x'.throttle == x.throttle)
  }

  predicate Step(s: State, req: Request, s': State, reply: Reply) {
    match req
    case Write(slot, key, value) =>
      if slot < NUMBER_OF_SLOTS then reply == Done && s' == s[slot := Slot(key, value, 0, 0)]
      else reply == BogusArgs && s' == s
    case Read(slot, key) =>
      if slot < NUMBER_OF_SLOTS then ReadsSlot(s[slot], key, s'[slot], reply) && s' == s[slot := s'[slot]]
      else reply == BogusArgs && s' == s
    case EraseValue(slot) =>
      if slot < NUMBER_OF_SLOTS then reply == Done && LosesValue(s[slot], s'[slot]) && s' == s[slot := s'[slot]]
      else reply == BogusArgs && s' == s
    case Wait(msec) =>
      && reply == Done
      && forall i :: 0 <= i < NUMBER_OF_SLOTS ==> s'[i] == s[i].(throttle := LessTime(s[i].throttle, msec))
    case Reboot =>
      reply == Done && forall i :: 0 <= i < NUMBER_OF_SLOTS ==> SurvivesReboot(s[i], s'[i])
    case WipeUserData =>
      reply == Done && forall i :: 0 <= i < NUMBER_OF_SLOTS ==> LosesValue(s[i], s'[i])
  }

  /** What one request does to one slot: requests for other slots leave it alone. */
  predicate SlotStep(slot: nat, x: Slot, req: Request, x': Slot, reply: Reply) {
    match req
    case Write(i, key, value) => if i == slot then reply == Done && x' == Slot(key, value, 0, 0) else x' == x
    case Read(i, key) => if i == slot then ReadsSlot(x, key, x', reply) else x' == x
    case EraseValue(i) => if i == slot then LosesValue(x, x') else x' == x
    case Wait(msec) => x' == x.(throttle := LessTime(x.throttle, msec))
    case Reboot => SurvivesReboot(x, x')
    case WipeUserData => LosesValue(x, x')
  }

  lemma StepOfSlot(s: State, req: Request, s': State, reply: Reply, slot: nat)
    requires Step(s, req, s', reply) && slot < NUMBER_OF_SLOTS
    ensures SlotStep(slot, s[slot], req, s'[slot], reply)
  {
  }

  /** The rules never contradict each other. */
  lemma StepExists(s: State, req: Request)
    ensures exists s', reply :: Step(s, req, s', reply)
  {
    match req
    case Write(slot, key, value) =>
      if slot < NUMBER_OF_SLOTS {
        assert Step(s, req, s[slot := Slot(key, value, 0, 0)], Done);
      } else {
        assert Step(s, req, s, BogusArgs);
      }
    case Read(slot, key) =>
      if slot >= NUMBER_OF_SLOTS {
        assert Step(s, req, s, BogusArgs);
      } else {
        ReadExists(s, slot, key);
      }
    case EraseValue(slot) =>
      if slot < NUMBER_OF_SLOTS {
        assert Step(s, req, s[slot := s[slot].(value := ZERO_VALUE)], Done);
      } else {
        assert Step(s, req, s, BogusArgs);
      }
    case Wait(msec) =>
      var s': State := seq(NUMBER_OF_SLOTS, i requires 0 <= i < NUMBER_OF_SLOTS =>
                             s[i].(throttle := LessTime(s[i].throttle, msec)));
      assert Step(s, req, s', Done);
    case Reboot =>
      assert Step(s, req, s, Done);
    case WipeUserData =>
      var s': State := seq(NUMBER_OF_SLOTS, i requires 0 <= i < NUMBER_OF_SLOTS => s[i].(value := ZERO_VALUE));
      assert Step(s, req, s', Done);
  }

  lemma ReadExists(s: State, slot: nat, key: Key)
    requires slot < NUMBER_OF_SLOTS
    ensures exists s', reply :: Step(s, Read(slot, key), s', reply)
  {
    var x := s[slot];
    if key == x.key {
      assert Step(s, Read(slot, key), s[slot := x.(throttle := 0)], Found(x.value));
    } else if x.throttle > 0 {
      assert s[slot := x] == s;
      assert Step(s, Read(slot, key), s, Throttled(x.throttle));
    } else {
      var throttle := if x.attempts + 1 == FREE_ATTEMPTS then THROTTLE_MSEC else 0;
      var x' := x.(attempts := x.attempts + 1, throttle := throttle);
      assert Step(s, Read(slot, key), s[slot := x'], WrongKey(throttle));
    }
  }
}
