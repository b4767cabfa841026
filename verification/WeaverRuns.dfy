/** What holds over every run of the Weaver service: the value a read finds is decided by
    the slot's own history, and guesses are throttled across sleeps and reboots. */
module WeaverRuns {
  import opened Runs
  import opened Weaver

  type WeaverEvent = Event<State, Request, Reply>

  predicate IsWeaverRun(s0: State, run: seq<WeaverEvent>) {
    IsRun(Step, s0, run)
  }

  lemma SlotAt(s0: State, run: seq<WeaverEvent>, slot: nat, k: nat)
    requires IsWeaverRun(s0, run) && slot < NUMBER_OF_SLOTS && k < |run|
    ensures SlotStep(slot, At(s0, run, k)[slot], run[k].req, run[k].post[slot], run[k].reply)
  {
    StepOfSlot(At(s0, run, k), run[k].req, run[k].post, run[k].reply, slot);
  }

  // ----- values

  predicate Rewrites(slot: nat, req: Request) {
    req.Write? && req.slot == slot
  }

  predicate Clears(slot: nat, req: Request) {
    (req.EraseValue? && req.slot == slot) || req.WipeUserData?
  }

  function NotRewriting(slot: nat): Request -> bool {
    (req: Request) => !Rewrites(slot, req)
  }

  function Sparing(slot: nat): Request -> bool {
    (req: Request) => !Rewrites(slot, req) && !Clears(slot, req)
  }

  /** Event w is the last write of the slot before event j. */
  predicate LastWrite(run: seq<WeaverEvent>, slot: nat, w: nat, j: nat)
    requires w < j <= |run|
  {
    Rewrites(slot, run[w].req) && Only(NotRewriting(slot), run, w + 1, j)
  }

  predicate ClearedSince(run: seq<WeaverEvent>, slot: nat, w: nat, j: nat)
    requires w < j <= |run|
  {
    exists k :: w < k < j && Clears(slot, run[k].req)
  }

  function HasKey(slot: nat, key: Key): State -> bool
    requires slot < NUMBER_OF_SLOTS
  {
    (s: State) => s[slot].key == key
  }

  function Has(slot: nat, key: Key, value: Value): State -> bool
    requires slot < NUMBER_OF_SLOTS
  {
    (s: State) => s[slot].key == key && s[slot].value == value
  }

  /** Only a write changes a slot's key; only a write, an erase of that slot or a wipe
      changes its value, and the last two only to zero. */
  lemma WhatChangesASlot(slot: nat, key: Key, value: Value)
    requires slot < NUMBER_OF_SLOTS
    ensures Kept(Step, HasKey(slot, key), NotRewriting(slot))
    ensures Kept(Step, Has(slot, key, value), Sparing(slot))
    ensures Kept(Step, Has(slot, key, ZERO_VALUE), NotRewriting(slot))
  {
    forall s: State, req, s': State, reply | !Rewrites(slot, req) && Step(s, req, s', reply)
      ensures s'[slot].key == s[slot].key
      ensures s'[slot].value == if Clears(slot, req) then ZERO_VALUE else s[slot].value
    {
      StepOfSlot(s, req, s', reply, slot);
    }
  }

  lemma SparedSinceWrite(s0: State, run: seq<WeaverEvent>, slot: nat, w: nat, j: nat)
    requires IsWeaverRun(s0, run) && slot < NUMBER_OF_SLOTS
    requires w < j <= |run| && LastWrite(run, slot, w, j) && !ClearedSince(run, slot, w, j)
    ensures Has(slot, run[w].req.key, run[w].req.value)(At(s0, run, j))
  {
    WhatChangesASlot(slot, run[w].req.key, run[w].req.value);
    SlotAt(s0, run, slot, w);
    KeptAfter(Step, Has(slot, run[w].req.key, run[w].req.value), Sparing(slot), s0, run, w, j);
  }

  lemma KeySinceWrite(s0: State, run: seq<WeaverEvent>, slot: nat, w: nat, j: nat)
    requires IsWeaverRun(s0, run) && slot < NUMBER_OF_SLOTS
    requires w < j <= |run| && LastWrite(run, slot, w, j)
    ensures HasKey(slot, run[w].req.key)(At(s0, run, j))
  {
    WhatChangesASlot(slot, run[w].req.key, ZERO_VALUE);
    SlotAt(s0, run, slot, w);
    KeptAfter(Step, HasKey(slot, run[w].req.key), NotRewriting(slot), s0, run, w, j);
  }

  lemma StillLastWrite(run: seq<WeaverEvent>, slot: nat, w: nat, k: nat, j: nat)
    requires w < k < j <= |run| && LastWrite(run, slot, w, j)
    ensures LastWrite(run, slot, w, k) && Only(NotRewriting(slot), run, k + 1, j)
  {
  }

  lemma ZeroAfterClear(s0: State, run: seq<WeaverEvent>, slot: nat, w: nat, k: nat)
    requires IsWeaverRun(s0, run) && slot < NUMBER_OF_SLOTS
    requires w < k < |run| && LastWrite(run, slot, w, k) && Clears(slot, run[k].req)
    ensures Has(slot, run[w].req.key, ZERO_VALUE)(run[k].post)
  {
    KeySinceWrite(s0, run, slot, w, k);
    SlotAt(s0, run, slot, k);
  }

  lemma ZeroSinceClear(s0: State, run: seq<WeaverEvent>, slot: nat, w: nat, k: nat, j: nat)
    requires IsWeaverRun(s0, run) && slot < NUMBER_OF_SLOTS
    requires w < k < j <= |run| && LastWrite(run, slot, w, j) && Clears(slot, run[k].req)
    ensures Has(slot, run[w].req.key, ZERO_VALUE)(At(s0, run, j))
  {
    StillLastWrite(run, slot, w, k, j);
    ZeroAfterClear(s0, run, slot, w, k);
    WhatChangesASlot(slot, run[w].req.key, ZERO_VALUE);
    KeptAfter(Step, Has(slot, run[w].req.key, ZERO_VALUE), NotRewriting(slot), s0, run, k, j);
  }

  /** A slot's key is the last one written; its value is the last one written, or zero if
      the slot was erased or user data wiped since. Nothing done to any other slot, before
      or after a wipe, plays a part. */
  lemma ValueIsItsHistory(s0: State, run: seq<WeaverEvent>, slot: nat, w: nat, j: nat)
    requires IsWeaverRun(s0, run) && slot < NUMBER_OF_SLOTS
    requires w < j <= |run| && LastWrite(run, slot, w, j)
    ensures var x := At(s0, run, j)[slot];
            && x.key == run[w].req.key
            && x.value == (if ClearedSince(run, slot, w, j) then ZERO_VALUE else run[w].req.value)
            && forall i :: 0 <= i < 16 ==> ZERO_VALUE[i] == 0
  {
    if ClearedSince(run, slot, w, j) {
      var k :| w < k < j && Clears(slot, run[k].req);
      ZeroSinceClear(s0, run, slot, w, k, j);
    } else {
      SparedSinceWrite(s0, run, slot, w, j);
    }
  }

  /** A read that finds a value was given the last key written, and finds that value, or
      zero after an erase or a wipe. */
  lemma ReadFindsHistory(s0: State, run: seq<WeaverEvent>, slot: nat, w: nat, j: nat)
    requires IsWeaverRun(s0, run) && slot < NUMBER_OF_SLOTS
    requires w < j < |run| && LastWrite(run, slot, w, j)
    requires run[j].req.Read? && run[j].req.slot == slot
    ensures run[j].reply.Found? ==>
              && run[j].req.key == run[w].req.key
              && run[j].reply.value == if ClearedSince(run, slot, w, j) then ZERO_VALUE else run[w].req.value
    ensures run[j].req.key != run[w].req.key ==> run[j].reply.WrongKey? || run[j].reply.Throttled?
  {
    ValueIsItsHistory(s0, run, slot, w, j);
    SlotAt(s0, run, slot, j);
  }

  /** A request for a slot that does not exist is refused without effect; any other write
      or erase is done, and so are waits, reboots and wipes. A read of a slot that is not
      throttled finds the value with the right key, and only with that. */
  lemma AnswersAre(s: State, req: Request, s': State, reply: Reply)
    requires Step(s, req, s', reply)
    ensures reply == BogusArgs <==> (req.Write? || req.Read? || req.EraseValue?) && req.slot >= 64
    ensures reply == BogusArgs ==> s' == s
    ensures req.Write? ==> |req.key| == 16 && |req.value| == 16
    ensures reply == Done <==> !req.Read? && !((req.Write? || req.EraseValue?) && req.slot >= 64)
    ensures req.Read? && req.slot < 64 && s[req.slot].throttle == 0 ==>
              if req.key == s[req.slot].key then reply == Found(s[req.slot].value) else reply.WrongKey?
  {
  }

  // ----- throttling

  /** Guessing at a slot: any other key, any time, any reboot, anything with other slots. */
  function Guessing(slot: nat, key: Key): Request -> bool {
    (req: Request) =>
      match req
      case Write(i, _, _) => i != slot
      case Read(i, k) => i != slot || k != key
      case EraseValue(i) => i != slot
      case Wait(_) => true
      case Reboot => true
      case WipeUserData => false
  }

  predicate IsWrongAnswer(slot: nat, req: Request, reply: Reply) {
    req.Read? && req.slot == slot && reply.WrongKey?
  }

  function WrongWeight(slot: nat): (Request, Reply) -> nat {
    (req: Request, reply: Reply) => if IsWrongAnswer(slot, req, reply) then 1 else 0
  }

  /** How many guesses at the slot were answered with WRONG_KEY in events i up to j. */
  function WrongAnswers(run: seq<WeaverEvent>, slot: nat, i: nat, j: nat): nat
    requires i <= j <= |run|
  {
    Tally(WrongWeight(slot), run, i, j)
  }

  function Elapsed(req: Request): nat {
    if req.Wait? then req.msec else 0
  }

  function ElapsedWeight(): (Request, Reply) -> nat {
    (req: Request, reply: Reply) => Elapsed(req)
  }

  /** The time that passed in events i up to j. */
  function Waited(run: seq<WeaverEvent>, i: nat, j: nat): nat
    requires i <= j <= |run|
  {
    Tally(ElapsedWeight(), run, i, j)
  }

  /** A slot with this key, n wrong answers after it was written. */
  predicate Counts(x: Slot, key: Key, n: nat) {
    && x.key == key
    && (n < FREE_ATTEMPTS ==> x.attempts == n && x.throttle == 0)
    && (n >= FREE_ATTEMPTS ==> x.attempts >= FREE_ATTEMPTS)
    && (n == FREE_ATTEMPTS ==> x.throttle <= THROTTLE_MSEC)
  }

  function CountsAt(slot: nat, key: Key): (State, nat) -> bool
    requires slot < NUMBER_OF_SLOTS
  {
    (s: State, n: nat) => Counts(s[slot], key, n)
  }

  lemma CountsStep(slot: nat, key: Key, x: Slot, req: Request, x': Slot, reply: Reply, n: nat)
    requires Counts(x, key, n) && Guessing(slot, key)(req) && SlotStep(slot, x, req, x', reply)
    ensures Counts(x', key, n + WrongWeight(slot)(req, reply))
  {
  }

  lemma CountsIsKept(slot: nat, key: Key)
    requires slot < NUMBER_OF_SLOTS
    ensures KeptCounting(Step, CountsAt(slot, key), Guessing(slot, key), WrongWeight(slot))
  {
    forall s: State, req, s': State, reply, n: nat
      | Counts(s[slot], key, n) && Guessing(slot, key)(req) && Step(s, req, s', reply)
      ensures Counts(s'[slot], key, n + WrongWeight(slot)(req, reply))
    {
      StepOfSlot(s, req, s', reply, slot);
      CountsStep(slot, key, s[slot], req, s'[slot], reply, n);
    }
  }

  /** Event w writes the slot, and up to event j there is only guessing at it. */
  predicate GuessingSince(run: seq<WeaverEvent>, slot: nat, w: nat, j: nat)
    requires w < j <= |run|
  {
    slot < NUMBER_OF_SLOTS && Rewrites(slot, run[w].req) && Only(Guessing(slot, run[w].req.key), run, w + 1, j)
  }

  lemma StillGuessing(run: seq<WeaverEvent>, slot: nat, w: nat, k: nat, j: nat)
    requires w < k < j <= |run| && GuessingSince(run, slot, w, j)
    ensures GuessingSince(run, slot, w, k) && Guessing(slot, run[w].req.key)(run[k].req)
  {
  }

  /** Since the slot was written, through sleeps and reboots, the counter is the number
      of WRONG_KEY answers as long as guesses are free. */
  lemma CounterFollowsAnswers(s0: State, run: seq<WeaverEvent>, slot: nat, w: nat, j: nat)
    requires IsWeaverRun(s0, run) && w < j <= |run| && GuessingSince(run, slot, w, j)
    ensures Counts(At(s0, run, j)[slot], run[w].req.key, WrongAnswers(run, slot, w + 1, j))
  {
    var key := run[w].req.key;
    SlotAt(s0, run, slot, w);
    CountsIsKept(slot, key);
    KeptWithTally(Step, CountsAt(slot, key), Guessing(slot, key), WrongWeight(slot), s0, run, w + 1, j);
  }

  /** The first four guesses since a write are answered WRONG_KEY without a throttle and
      the fifth with 30 seconds, however they are spread over sleeps and reboots. While
      there have been five, a THROTTLE answer is for more than nothing and at most that. */
  lemma FirstThrottleAfterFive(s0: State, run: seq<WeaverEvent>, slot: nat, w: nat, j: nat)
    requires IsWeaverRun(s0, run) && w < j < |run| && GuessingSince(run, slot, w, j + 1)
    requires run[j].req.Read? && run[j].req.slot == slot
    ensures var n, reply := WrongAnswers(run, slot, w + 1, j), run[j].reply;
            && (n < 4 ==> reply == WrongKey(0))
            && (n == 4 ==> reply == WrongKey(30_000))
            && (n >= 5 ==> reply.WrongKey? || (reply.Throttled? && reply.throttle > 0))
            && (n == 5 && reply.Throttled? ==> reply.throttle <= 30_000)
  {
    StillGuessing(run, slot, w, j, j + 1);
    CounterFollowsAnswers(s0, run, slot, w, j);
    SlotAt(s0, run, slot, j);
  }

  /** Up to the fifth WRONG_KEY answer since a write, the right key is answered with the
      value. */
  lemma RightKeyFinds(s0: State, run: seq<WeaverEvent>, slot: nat, w: nat, j: nat)
    requires IsWeaverRun(s0, run) && w < j < |run| && GuessingSince(run, slot, w, j)
    requires run[j].req == Read(slot, run[w].req.key) && WrongAnswers(run, slot, w + 1, j) < 5
    ensures run[j].reply == Found(At(s0, run, j)[slot].value)
    ensures At(s0, run, j)[slot].value
         == if ClearedSince(run, slot, w, j) then ZERO_VALUE else run[w].req.value
  {
    CounterFollowsAnswers(s0, run, slot, w, j);
    GuessingRewritesNothing(run, slot, w, j);
    ValueIsItsHistory(s0, run, slot, w, j);
    SlotAt(s0, run, slot, j);
  }

  lemma GuessingRewritesNothing(run: seq<WeaverEvent>, slot: nat, w: nat, j: nat)
    requires w < j <= |run| && GuessingSince(run, slot, w, j)
    ensures LastWrite(run, slot, w, j)
  {
  }

  /** Event f gave the fifth WRONG_KEY answer since the write, and up to event j there has
      been no sixth. */
  predicate FifthAt(run: seq<WeaverEvent>, slot: nat, w: nat, f: nat, j: nat)
    requires w < f < j <= |run|
  {
    && IsWrongAnswer(slot, run[f].req, run[f].reply)
    && WrongAnswers(run, slot, w + 1, f) == 4 && WrongAnswers(run, slot, w + 1, j) == 5
  }

  lemma NoSixth(run: seq<WeaverEvent>, slot: nat, w: nat, f: nat, j: nat, k: nat)
    requires w < f < k < j <= |run| && FifthAt(run, slot, w, f, j)
    ensures WrongAnswers(run, slot, w + 1, k) == 5
    ensures !IsWrongAnswer(slot, run[k].req, run[k].reply)
  {
    TallyGrows(WrongWeight(slot), run, w + 1, f + 1, k);
    TallyGrows(WrongWeight(slot), run, w + 1, k + 1, j);
  }

  lemma ThrottleStep(slot: nat, key: Key, x: Slot, req: Request, x': Slot, reply: Reply)
    requires Counts(x, key, 5) && Guessing(slot, key)(req) && SlotStep(slot, x, req, x', reply)
    requires !IsWrongAnswer(slot, req, reply)
    ensures !req.Reboot? ==> x'.throttle == LessTime(x.throttle, Elapsed(req))
    ensures req.Reboot? && x.throttle > 0 ==> 0 < x'.throttle <= THROTTLE_MSEC
  {
  }

  predicate NoReboot(run: seq<WeaverEvent>, i: nat, j: nat) {
    forall k {:trigger run[k].req} :: i <= k < j && k < |run| ==> run[k].req != Reboot
  }

  predicate OnlyTimePasses(s0: State, run: seq<WeaverEvent>, slot: nat, i: nat, j: nat)
    requires slot < NUMBER_OF_SLOTS && i <= j <= |run|
  {
    forall k {:trigger run[k].req} :: i <= k < j ==>
      run[k].post[slot].throttle == LessTime(At(s0, run, k)[slot].throttle, Elapsed(run[k].req))
  }

  lemma {:induction false} TimePasses(s0: State, run: seq<WeaverEvent>, slot: nat, i: nat, j: nat)
    requires slot < NUMBER_OF_SLOTS && i <= j <= |run| && OnlyTimePasses(s0, run, slot, i, j)
    ensures At(s0, run, j)[slot].throttle == LessTime(At(s0, run, i)[slot].throttle, Waited(run, i, j))
    decreases j
  {
    if i < j {
      TimePasses(s0, run, slot, i, j - 1);
    }
  }

  lemma OnlyTimeAfterFifth(s0: State, run: seq<WeaverEvent>, slot: nat, w: nat, f: nat, i: nat, j: nat)
    requires IsWeaverRun(s0, run) && w < f < i <= j <= |run| && GuessingSince(run, slot, w, j)
    requires FifthAt(run, slot, w, f, j) && NoReboot(run, i, j)
    ensures OnlyTimePasses(s0, run, slot, i, j)
  {
    forall k | i <= k < j
      ensures run[k].post[slot].throttle == LessTime(At(s0, run, k)[slot].throttle, Elapsed(run[k].req))
    {
      ThrottleAfterFifth(s0, run, slot, w, f, j, k);
    }
  }

  lemma ThrottleAfterFifth(s0: State, run: seq<WeaverEvent>, slot: nat, w: nat, f: nat, j: nat, k: nat)
    requires IsWeaverRun(s0, run) && w < f < k < j <= |run| && GuessingSince(run, slot, w, j)
    requires FifthAt(run, slot, w, f, j)
    ensures var x, x' := At(s0, run, k)[slot], run[k].post[slot];
            && (run[k].req != Reboot ==> x'.throttle == LessTime(x.throttle, Elapsed(run[k].req)))
            && (run[k].req == Reboot && x.throttle > 0 ==> 0 < x'.throttle <= THROTTLE_MSEC)
  {
    StillGuessing(run, slot, w, k, j);
    NoSixth(run, slot, w, f, j, k);
    CounterFollowsAnswers(s0, run, slot, w, k);
    SlotAt(s0, run, slot, k);
    ThrottleStep(slot, run[w].req.key, At(s0, run, k)[slot], run[k].req, run[k].post[slot], run[k].reply);
  }

  lemma FifthThrottles(s0: State, run: seq<WeaverEvent>, slot: nat, w: nat, f: nat, j: nat)
    requires IsWeaverRun(s0, run) && w < f < j <= |run| && GuessingSince(run, slot, w, j)
    requires FifthAt(run, slot, w, f, j)
    ensures run[f].post[slot].throttle == THROTTLE_MSEC
  {
    StillGuessing(run, slot, w, f, j);
    CounterFollowsAnswers(s0, run, slot, w, f);
    SlotAt(s0, run, slot, f);
  }

  lemma RunsDownFrom(s0: State, run: seq<WeaverEvent>, slot: nat, f: nat, j: nat)
    requires slot < NUMBER_OF_SLOTS && f < j <= |run|
    requires OnlyTimePasses(s0, run, slot, f + 1, j)
    ensures At(s0, run, j)[slot].throttle == LessTime(run[f].post[slot].throttle, Waited(run, f + 1, j))
  {
    TimePasses(s0, run, slot, f + 1, j);
  }

  /** Without a reboot the throttle runs down with the time that passes, and with nothing
      else. */
  lemma ThrottleRunsDown(s0: State, run: seq<WeaverEvent>, slot: nat, w: nat, f: nat, j: nat)
    requires IsWeaverRun(s0, run) && w < f < j <= |run| && GuessingSince(run, slot, w, j)
    requires FifthAt(run, slot, w, f, j) && NoReboot(run, f + 1, j)
    ensures At(s0, run, j)[slot].throttle == LessTime(THROTTLE_MSEC, Waited(run, f + 1, j))
  {
    FifthThrottles(s0, run, slot, w, f, j);
    OnlyTimeAfterFifth(s0, run, slot, w, f, f + 1, j);
    RunsDownFrom(s0, run, slot, f, j);
  }

  /** After the fifth guess and without a reboot, the next guess is throttled exactly if
      30 seconds have not passed, and then for at most the time that is left. */
  lemma ThrottledUntilTimePasses(s0: State, run: seq<WeaverEvent>, slot: nat, w: nat, f: nat, j: nat)
    requires IsWeaverRun(s0, run) && w < f < j < |run| && GuessingSince(run, slot, w, j + 1)
    requires FifthAt(run, slot, w, f, j) && NoReboot(run, f + 1, j)
    requires run[j].req.Read? && run[j].req.slot == slot
    ensures run[j].reply.Throttled? <==> Waited(run, f + 1, j) < 30_000
    ensures run[j].reply.Throttled? ==> 0 < run[j].reply.throttle <= 30_000 - Waited(run, f + 1, j)
  {
    StillGuessing(run, slot, w, j, j + 1);
    ThrottleRunsDown(s0, run, slot, w, f, j);
    CounterFollowsAnswers(s0, run, slot, w, j);
    SlotAt(s0, run, slot, j);
  }

  lemma AtMostFullThrottle(s0: State, run: seq<WeaverEvent>, slot: nat, w: nat, f: nat, j: nat, k: nat)
    requires IsWeaverRun(s0, run) && w < f < k <= j <= |run| && GuessingSince(run, slot, w, j)
    requires FifthAt(run, slot, w, f, j)
    ensures At(s0, run, k)[slot].throttle <= THROTTLE_MSEC
  {
    if k < j {
      StillGuessing(run, slot, w, k, j);
    }
    StillFive(run, slot, w, f, j, k);
    CounterFollowsAnswers(s0, run, slot, w, k);
  }

  lemma StillFive(run: seq<WeaverEvent>, slot: nat, w: nat, f: nat, j: nat, k: nat)
    requires w < f < k <= j <= |run| && FifthAt(run, slot, w, f, j)
    ensures WrongAnswers(run, slot, w + 1, k) == 5
  {
    TallyGrows(WrongWeight(slot), run, w + 1, f + 1, k);
    TallyGrows(WrongWeight(slot), run, w + 1, k, j);
  }

  /** Right before event i came the fifth wrong answer or a reboot after it, and from there
      up to event j there has been no other. */
  predicate LastStart(run: seq<WeaverEvent>, f: nat, i: nat, j: nat)
    requires f < i <= j <= |run|
  {
    (i == f + 1 || run[i - 1].req == Reboot) && NoReboot(run, i, j)
  }

  lemma RunsDownBelow(s0: State, run: seq<WeaverEvent>, slot: nat, i: nat, j: nat, most: nat)
    requires slot < NUMBER_OF_SLOTS && i <= j <= |run| && OnlyTimePasses(s0, run, slot, i, j)
    requires At(s0, run, i)[slot].throttle <= most
    ensures At(s0, run, j)[slot].throttle <= LessTime(most, Waited(run, i, j))
  {
    TimePasses(s0, run, slot, i, j);
  }

  lemma BoundSinceReboot(s0: State, run: seq<WeaverEvent>, slot: nat, w: nat, f: nat, i: nat, j: nat)
    requires IsWeaverRun(s0, run) && w < f < i <= j <= |run| && GuessingSince(run, slot, w, j)
    requires FifthAt(run, slot, w, f, j) && LastStart(run, f, i, j)
    ensures At(s0, run, j)[slot].throttle <= LessTime(THROTTLE_MSEC, Waited(run, i, j))
  {
    OnlyTimeAfterFifth(s0, run, slot, w, f, i, j);
    AtMostFullThrottle(s0, run, slot, w, f, j, i);
    RunsDownBelow(s0, run, slot, i, j, THROTTLE_MSEC);
  }

  /** With any number of reboots after the fifth wrong answer, a THROTTLE answer is for at
      most 30 seconds less the time waited since the last of them; once that has passed a
      guess is answered again. */
  lemma ThrottleRunsDownSinceReboot(s0: State, run: seq<WeaverEvent>, slot: nat, w: nat, f: nat, i: nat, j: nat)
    requires IsWeaverRun(s0, run) && w < f < i <= j < |run| && GuessingSince(run, slot, w, j + 1)
    requires FifthAt(run, slot, w, f, j) && LastStart(run, f, i, j)
    requires run[j].req.Read? && run[j].req.slot == slot
    ensures run[j].reply.Throttled? ==> 0 < run[j].reply.throttle <= 30_000 - Waited(run, i, j)
    ensures Waited(run, i, j) >= 30_000 ==> run[j].reply.WrongKey?
  {
    StillGuessing(run, slot, w, j, j + 1);
    BoundSinceReboot(s0, run, slot, w, f, i, j);
    CounterFollowsAnswers(s0, run, slot, w, j);
    SlotAt(s0, run, slot, j);
  }

  /** A slot that is throttled for no more than 30 seconds. */
  function IsThrottled(slot: nat, key: Key): State -> bool
    requires slot < NUMBER_OF_SLOTS
  {
    (s: State) => s[slot].key == key && 0 < s[slot].throttle <= THROTTLE_MSEC
  }

  /** Guessing during which no time passes. */
  function Hurried(slot: nat, key: Key): Request -> bool {
    (req: Request) => Guessing(slot, key)(req) && Elapsed(req) == 0
  }

  lemma HurryKeepsThrottle(slot: nat, key: Key)
    requires slot < NUMBER_OF_SLOTS
    ensures Kept(Step, IsThrottled(slot, key), Hurried(slot, key))
  {
    forall s: State, req, s': State, reply
      | IsThrottled(slot, key)(s) && Hurried(slot, key)(req) && Step(s, req, s', reply)
      ensures IsThrottled(slot, key)(s')
    {
      StepOfSlot(s, req, s', reply, slot);
      ThrottledSlotStep(slot, key, s[slot], req, s'[slot], reply);
    }
  }

  lemma ThrottledSlotStep(slot: nat, key: Key, x: Slot, req: Request, x': Slot, reply: Reply)
    requires x.key == key && 0 < x.throttle <= THROTTLE_MSEC
    requires Guessing(slot, key)(req) && Elapsed(req) == 0 && SlotStep(slot, x, req, x', reply)
    ensures x'.key == key && 0 < x'.throttle <= THROTTLE_MSEC
  {
  }

  lemma ThrottledBefore(s0: State, run: seq<WeaverEvent>, slot: nat, w: nat, f: nat, b: nat)
    requires IsWeaverRun(s0, run) && w < f < b <= |run| && GuessingSince(run, slot, w, b)
    requires FifthAt(run, slot, w, f, b) && NoReboot(run, f + 1, b) && Waited(run, f + 1, b) < 30_000
    ensures IsThrottled(slot, run[w].req.key)(At(s0, run, b))
  {
    ThrottleRunsDown(s0, run, slot, w, f, b);
    CounterFollowsAnswers(s0, run, slot, w, b);
  }

  lemma GuessWhileThrottled(s0: State, run: seq<WeaverEvent>, slot: nat, key: Key, j: nat)
    requires IsWeaverRun(s0, run) && slot < NUMBER_OF_SLOTS && j < |run|
    requires IsThrottled(slot, key)(At(s0, run, j))
    requires run[j].req.Read? && run[j].req.slot == slot && Guessing(slot, key)(run[j].req)
    ensures run[j].reply.Throttled? && 0 < run[j].reply.throttle <= 30_000
  {
    SlotAt(s0, run, slot, j);
  }

  /** Reboots do not lift the throttle: whoever is throttled before event b still is after
      any number of reboots and guesses, as long as no time passes. */
  lemma RebootKeepsThrottle(s0: State, run: seq<WeaverEvent>, slot: nat, w: nat, f: nat, b: nat, j: nat)
    requires IsWeaverRun(s0, run) && w < f < b <= j < |run| && GuessingSince(run, slot, w, j + 1)
    requires FifthAt(run, slot, w, f, b) && NoReboot(run, f + 1, b) && Waited(run, f + 1, b) < 30_000
    requires Only(Hurried(slot, run[w].req.key), run, b, j)
    requires run[j].req.Read? && run[j].req.slot == slot
    ensures run[j].reply.Throttled? && 0 < run[j].reply.throttle <= 30_000
  {
    var key := run[w].req.key;
    StillGuessing(run, slot, w, j, j + 1);
    if b < j {
      StillGuessing(run, slot, w, b, j);
    }
    ThrottledBefore(s0, run, slot, w, f, b);
    HurryKeepsThrottle(slot, key);
    KeptBetween(Step, IsThrottled(slot, key), Hurried(slot, key), s0, run, b, j);
    GuessWhileThrottled(s0, run, slot, key, j);
  }
}
