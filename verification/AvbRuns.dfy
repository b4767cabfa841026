/** What holds over every run of requests against a conforming verified-boot service. */
module AvbRuns {
  import opened Text
  import opened Hex
  import opened Runs
  import opened AvbDevice

  type AvbEvent = Event<State, Request, Reply>

  function StepOf(cfg: Config): (State, Request, State, Reply) -> bool {
    (s, req, s', reply) => Step(cfg, s, req, s', reply)
  }

  predicate IsAvbRun(cfg: Config, s0: State, run: seq<AvbEvent>) {
    IsRun(StepOf(cfg), s0, run)
  }

  function Final(s0: State, run: seq<AvbEvent>): State {
    At(s0, run, |run|)
  }

  // ----- the freeze

  predicate NoReset(req: Request) {
    !req.ResetProduction?
  }

  /** Everything but a production reset and a wipe of user data. */
  predicate Ordinary(req: Request) {
    NoReset(req) && !req.WipeUserData?
  }

  predicate Frozen(boot: Byte, carrier: Byte, s: State) {
    s.production && s.boot == boot && s.carrier == carrier && boot != 0 && carrier != 0
  }

  predicate FrozenUnowned(boot: Byte, carrier: Byte, s: State) {
    Frozen(boot, carrier, s) && s.owner == 0
  }

  /** In production, with carrier and boot lock set, no request but a production reset
      moves either lock or leaves production, and none but a wipe sets the owner lock. */
  lemma FreezeStep(cfg: Config, s: State, req: Request, s': State, reply: Reply)
    requires s.production && s.carrier != 0 && s.boot != 0
    requires NoReset(req) && Step(cfg, s, req, s', reply)
    ensures s'.production && s'.carrier == s.carrier && s'.boot == s.boot
    ensures Ordinary(req) && s.owner == 0 ==> s'.owner == 0
  {
  }

  lemma FreezeIsKept(cfg: Config, boot: Byte, carrier: Byte)
    ensures Kept(StepOf(cfg), s => Frozen(boot, carrier, s), NoReset)
    ensures Kept(StepOf(cfg), s => FrozenUnowned(boot, carrier, s), Ordinary)
  {
    forall s, req, s', reply | Frozen(boot, carrier, s) && NoReset(req) && Step(cfg, s, req, s', reply)
      ensures Frozen(boot, carrier, s') && (Ordinary(req) && s.owner == 0 ==> s'.owner == 0)
    {
      FreezeStep(cfg, s, req, s', reply);
    }
  }

  /** The freeze over whole runs: all through a run without a production reset the device
      is in production and both locks have their first values; once the owner lock is clear
      it stays clear until a wipe. */
  lemma Freeze(cfg: Config, s0: State, run: seq<AvbEvent>, i: nat, j: nat)
    requires s0.production && s0.carrier != 0 && s0.boot != 0
    requires IsAvbRun(cfg, s0, run) && i <= j <= |run| && Only(NoReset, run, 0, j)
    ensures Frozen(s0.boot, s0.carrier, At(s0, run, i))
    ensures At(s0, run, i).owner == 0 && Only(Ordinary, run, i, j) ==> At(s0, run, j).owner == 0
  {
    FreezeIsKept(cfg, s0.boot, s0.carrier);
    KeptBetween(StepOf(cfg), s => Frozen(s0.boot, s0.carrier, s), NoReset, s0, run, 0, i);
    if At(s0, run, i).owner == 0 && Only(Ordinary, run, i, j) {
      KeptBetween(StepOf(cfg), s => FrozenUnowned(s0.boot, s0.carrier, s), Ordinary, s0, run, i, j);
    }
  }

  predicate WithoutReset(run: seq<AvbEvent>) {
    Only(NoReset, run, 0, |run|)
  }

  /** Whatever is requested, wipes included, as long as it is not a production reset. */
  ghost predicate BootLockFrozen(cfg: Config, s0: State) {
    forall run :: IsAvbRun(cfg, s0, run) && WithoutReset(run) ==> Final(s0, run).boot == s0.boot
  }

  function Granting(s: State, req: Request): AvbEvent {
    Event(req, Reply(Success, Nothing), Granted(s, req))
  }

  /** A boot lock that a conforming device may let go of: without the carrier lock the
      device lock can be cleared first, and then the boot lock. */
  lemma BootLockMoves(cfg: Config, s0: State) returns (run: seq<AvbEvent>)
    requires s0.production && (s0.boot == 0 || s0.carrier == 0)
    ensures IsAvbRun(cfg, s0, run) && WithoutReset(run) && Final(s0, run).boot != s0.boot
  {
    var e0 := Granting(s0, BootloaderDone);
    var e1 := if s0.device == 0 then Granting(e0.post, BootloaderDone) else Granting(e0.post, SetDeviceLock(0));
    var e2 := Granting(e1.post, SetBootloader);
    var e3 := Granting(e2.post, SetBootLock(if s0.boot == 0 then 1 else 0));
    run := [e0, e1, e2, e3];
    assert Step(cfg, s0, e0.req, e0.post, e0.reply);
    assert Step(cfg, e0.post, e1.req, e1.post, e1.reply);
    assert Step(cfg, e1.post, e2.req, e2.post, e2.reply);
    assert Step(cfg, e2.post, e3.req, e3.post, e3.reply);
  }

  /** In production the boot lock is frozen in every run exactly when it and the carrier
      lock are set; the device lock alone does not freeze it. */
  lemma FrozenExactly(cfg: Config, s0: State)
    requires s0.production
    ensures BootLockFrozen(cfg, s0) <==> s0.boot != 0 && s0.carrier != 0
  {
    if s0.boot != 0 && s0.carrier != 0 {
      forall run | IsAvbRun(cfg, s0, run) && WithoutReset(run)
        ensures Final(s0, run).boot == s0.boot
      {
        Freeze(cfg, s0, run, |run|, |run|);
      }
    } else {
      var run := BootLockMoves(cfg, s0);
    }
  }

  // ----- what only the bootloader may do

  predicate InHlos(boot: Byte, versions: seq<nat>, s: State) {
    s.production && !s.bootloader && s.boot == boot && s.versions == versions
  }

  predicate StaysInHlos(req: Request) {
    NoReset(req) && req != SetBootloader
  }

  lemma HlosStep(cfg: Config, s: State, req: Request, s': State, reply: Reply)
    requires s.production && !s.bootloader && StaysInHlos(req) && Step(cfg, s, req, s', reply)
    ensures InHlos(s.boot, s.versions, s')
  {
  }

  /** In production, until the bootloader takes over again, no request changes a stored
      version or the boot lock. */
  lemma HlosCannotRollBack(cfg: Config, s0: State, run: seq<AvbEvent>, i: nat)
    requires s0.production && !s0.bootloader && i <= |run|
    requires IsAvbRun(cfg, s0, run) && Only(StaysInHlos, run, 0, i)
    ensures InHlos(s0.boot, s0.versions, At(s0, run, i))
  {
    forall s, req, s', reply | InHlos(s0.boot, s0.versions, s) && StaysInHlos(req) && Step(cfg, s, req, s', reply)
      ensures InHlos(s0.boot, s0.versions, s')
    {
      HlosStep(cfg, s, req, s', reply);
    }
    KeptBetween(StepOf(cfg), s => InHlos(s0.boot, s0.versions, s), StaysInHlos, s0, run, 0, i);
  }

  // ----- challenges

  predicate NoChallenge(req: Request) {
    req != GetResetChallenge
  }

  /** What one request does to the pending challenge. */
  predicate ChallengeEffect(s: State, req: Request, s': State, reply: Reply) {
    if req.GetResetChallenge? then reply.payload.Challenge? && s'.nonce == Some(reply.payload.nonce)
    else if req.ResetProduction? then
      s'.nonce.None? && (s.nonce.None? ==> reply.code == Denied && s' == s)
    else s'.nonce == s.nonce
  }

  lemma StepChallengeEffect(cfg: Config, s: State, req: Request, s': State, reply: Reply)
    requires Step(cfg, s, req, s', reply)
    ensures ChallengeEffect(s, req, s', reply)
  {
  }

  lemma ExitStep(cfg: Config, s: State, req: Request, s': State, reply: Reply)
    requires !cfg.testImage && Step(cfg, s, req, s', reply) && s.production && !s'.production
    ensures s.nonce.Some? && req == ResetProduction(cfg.sign(s.nonce.value, s.deviceData))
  {
  }

  predicate IsChallengeRun(s0: State, run: seq<AvbEvent>) {
    IsRun(ChallengeEffect, s0, run)
  }

  lemma ChallengeRun(cfg: Config, s0: State, run: seq<AvbEvent>)
    requires IsAvbRun(cfg, s0, run)
    ensures IsChallengeRun(s0, run)
  {
    forall i | 0 <= i < |run|
      ensures ChallengeEffect(At(s0, run, i), run[i].req, run[i].post, run[i].reply)
    {
      StepChallengeEffect(cfg, At(s0, run, i), run[i].req, run[i].post, run[i].reply);
    }
  }

  /** Event i is a production reset that had a challenge to be decided by. */
  predicate Deciding(s0: State, run: seq<AvbEvent>, i: nat)
    requires i < |run|
  {
    run[i].req.ResetProduction? && At(s0, run, i).nonce.Some?
  }

  lemma NoNonceAfterReset(s0: State, run: seq<AvbEvent>, i: nat, j: nat)
    requires IsChallengeRun(s0, run) && i < j <= |run|
    requires run[i].req.ResetProduction? && Only(NoChallenge, run, i + 1, j)
    ensures At(s0, run, j).nonce.None?
  {
    assert ChallengeEffect(At(s0, run, i), run[i].req, run[i].post, run[i].reply);
    KeptAfter(ChallengeEffect, (s: State) => s.nonce.None?, NoChallenge, s0, run, i, j);
  }

  /** Good or bad, a signature spends the challenge: a later reset is denied and changes
      nothing, until a new challenge has been issued. */
  lemma SpentUntilNextChallenge(cfg: Config, s0: State, run: seq<AvbEvent>, i: nat, j: nat)
    requires IsAvbRun(cfg, s0, run) && i < j < |run|
    requires run[i].req.ResetProduction? && run[j].req.ResetProduction? && Only(NoChallenge, run, i + 1, j)
    ensures run[j].reply.code == Denied && run[j].post == At(s0, run, j)
  {
    ChallengeRun(cfg, s0, run);
    NoNonceAfterReset(s0, run, i, j);
    assert ChallengeEffect(At(s0, run, j), run[j].req, run[j].post, run[j].reply);
  }

  /** Each issued challenge decides at most one production reset. */
  lemma ChallengeDecidesOnce(cfg: Config, s0: State, run: seq<AvbEvent>, i: nat, j: nat)
    requires IsAvbRun(cfg, s0, run) && i < j < |run|
    requires Deciding(s0, run, i) && Deciding(s0, run, j)
    ensures exists k :: i < k < j && run[k].req == GetResetChallenge
  {
    ChallengeRun(cfg, s0, run);
    if Only(NoChallenge, run, i + 1, j) {
      NoNonceAfterReset(s0, run, i, j);
    }
  }

  /** Event k issued the nonce, and up to event j nothing used or replaced it. */
  predicate Issued(run: seq<AvbEvent>, k: nat, j: nat, nonce: nat)
    requires k < j <= |run|
  {
    && run[k].reply.payload.Challenge? && run[k].reply.payload.nonce == nonce
    && Only(NoReset, run, k, j) && Only(NoChallenge, run, k + 1, j)
  }

  lemma StillIssued(run: seq<AvbEvent>, k: nat, j: nat, nonce: nat)
    requires k < j < |run| && Issued(run, k, j, nonce)
    requires NoReset(run[j].req) && NoChallenge(run[j].req)
    ensures Issued(run, k, j + 1, nonce)
  {
  }

  lemma NonceStep(s0: State, run: seq<AvbEvent>, j: nat)
    requires IsChallengeRun(s0, run) && j < |run| && run[j].post.nonce.Some?
    ensures NoReset(run[j].req)
    ensures run[j].req == GetResetChallenge ==>
              run[j].reply.payload.Challenge? && Some(run[j].reply.payload.nonce) == run[j].post.nonce
    ensures run[j].req != GetResetChallenge ==> run[j].post.nonce == At(s0, run, j).nonce
  {
    assert ChallengeEffect(At(s0, run, j), run[j].req, run[j].post, run[j].reply);
  }

  /** A pending nonce is the last one issued, by a challenge no reset has used yet. */
  lemma {:induction false} NonceWasIssued(s0: State, run: seq<AvbEvent>, j: nat) returns (k: nat)
    requires IsChallengeRun(s0, run) && j < |run| && s0.nonce.None? && run[j].post.nonce.Some?
    ensures k <= j && Issued(run, k, j + 1, run[j].post.nonce.value)
    decreases j
  {
    NonceStep(s0, run, j);
    if run[j].req == GetResetChallenge {
      k := j;
    } else {
      k := NonceWasIssued(s0, run, j - 1);
      StillIssued(run, k, j, run[j].post.nonce.value);
    }
  }

  lemma PendingNonce(s0: State, run: seq<AvbEvent>, j: nat) returns (k: nat)
    requires IsChallengeRun(s0, run) && j <= |run| && s0.nonce.None? && At(s0, run, j).nonce.Some?
    ensures k < j && Issued(run, k, j, At(s0, run, j).nonce.value)
  {
    k := NonceWasIssued(s0, run, j - 1);
  }

  lemma ExitAt(cfg: Config, s0: State, run: seq<AvbEvent>, j: nat)
    requires !cfg.testImage && IsAvbRun(cfg, s0, run) && j < |run|
    requires At(s0, run, j).production && !run[j].post.production
    ensures var s := At(s0, run, j);
            s.nonce.Some? && run[j].req == ResetProduction(cfg.sign(s.nonce.value, s.deviceData))
  {
    ExitStep(cfg, At(s0, run, j), run[j].req, run[j].post, run[j].reply);
  }

  /** On a release image, production ends only at a reset whose signature is the key
      holder's, over the latest nonce the device issued, unused until then, and the
      device's data. */
  lemma OnlyTheKeyHolderEndsProduction(cfg: Config, s0: State, run: seq<AvbEvent>, j: nat) returns (k: nat, nonce: nat)
    requires !cfg.testImage && s0.nonce.None? && IsAvbRun(cfg, s0, run) && j < |run|
    requires At(s0, run, j).production && !run[j].post.production
    ensures k < j && Issued(run, k, j, nonce)
    ensures run[j].req == ResetProduction(cfg.sign(nonce, At(s0, run, j).deviceData))
  {
    ChallengeRun(cfg, s0, run);
    ExitAt(cfg, s0, run, j);
    k := PendingNonce(s0, run, j);
    nonce := At(s0, run, j).nonce.value;
  }
}
