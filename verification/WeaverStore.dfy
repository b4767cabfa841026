/** A store of records that hold five slots each, updated by reading a record, changing one
    slot of it and writing it back, behaves like 64 independent slots. */
module WeaverStore {
  import opened Hex
  import opened Runs
  import Weaver

  type Key = Weaver.Key
  type Value = Weaver.Value

  const NUMBER_OF_SLOTS := Weaver.NUMBER_OF_SLOTS
  const ZERO_VALUE: Value := Weaver.ZERO_VALUE
  const ZERO_KEY: Key := ZeroBytes(Weaver.KEY_SIZE)
  const SLOTS_PER_RECORD := 5
  const NUMBER_OF_RECORDS := 13

  datatype Entry = Entry(key: Key, value: Value)

  datatype StoreRequest =
    | Write(slot: nat, key: Key, value: Value)
    | Read(slot: nat, key: Key)
    | EraseValue(slot: nat)
    | WipeUserData

  datatype StoreReply = Done | BogusArgs | Found(value: Value) | WrongKey

  // ----- 64 independent slots

  type Flat = s: seq<Entry> | |s| == NUMBER_OF_SLOTS witness seq(NUMBER_OF_SLOTS, _ => Entry(ZERO_KEY, ZERO_VALUE))

  function FlatReply(s: Flat, req: StoreRequest): StoreReply {
    match req
    case Write(slot, _, _) => if slot < NUMBER_OF_SLOTS then Done else BogusArgs
    case Read(slot, key) =>
      if slot >= NUMBER_OF_SLOTS then BogusArgs
      else if s[slot].key == key then Found(s[slot].value)
      else WrongKey
    case EraseValue(slot) => if slot < NUMBER_OF_SLOTS then Done else BogusArgs
    case WipeUserData => Done
  }

  /** A request for a slot that does not exist is refused; any other write, erase or wipe
      is done, and a read tells the value or that the key is wrong. */
  lemma AnswersAre(s: Flat, req: StoreRequest)
    ensures FlatReply(s, req) == BogusArgs <==> !req.WipeUserData? && req.slot >= 64
    ensures FlatReply(s, req) == Done <==> !req.Read? && (req.WipeUserData? || req.slot < 64)
    ensures FlatReply(s, req).Found? || FlatReply(s, req).WrongKey? <==> req.Read? && req.slot < 64
  {
  }

  function FlatAfter(s: Flat, req: StoreRequest): Flat {
    match req
    case Write(slot, key, value) => if slot < NUMBER_OF_SLOTS then s[slot := Entry(key, value)] else s
    case Read(_, _) => s
    case EraseValue(slot) =>
      if slot < NUMBER_OF_SLOTS then s[slot := s[slot].(value := ZERO_VALUE)] else s
    case WipeUserData => seq(NUMBER_OF_SLOTS, i requires 0 <= i < NUMBER_OF_SLOTS => s[i].(value := ZERO_VALUE))
  }

  function FlatReplies(s: Flat, reqs: seq<StoreRequest>): (r: seq<StoreReply>)
    ensures |r| == |reqs|
    decreases |reqs|
  {
    if reqs == [] then [] else [FlatReply(s, reqs[0])] + FlatReplies(FlatAfter(s, reqs[0]), reqs[1..])
  }

  function FlatEnd(s: Flat, reqs: seq<StoreRequest>): Flat
    decreases |reqs|
  {
    if reqs == [] then s else FlatEnd(FlatAfter(s, reqs[0]), reqs[1..])
  }

  // ----- the packed store

  class RecordStore {
    var records: array<seq<Entry>>

    ghost predicate Valid()
      reads this, records
    {
      && records.Length == NUMBER_OF_RECORDS
      && forall r :: 0 <= r < NUMBER_OF_RECORDS ==> |records[r]| == SLOTS_PER_RECORD
    }

    /** Slot i sits in record i / 5 at place i % 5; the last place is not a slot. */
    ghost function Slots(): Flat
      reads this, records
      requires Valid()
    {
      seq(NUMBER_OF_SLOTS, i requires 0 <= i < NUMBER_OF_SLOTS reads this, records requires Valid() =>
        records[i / SLOTS_PER_RECORD][i % SLOTS_PER_RECORD])
    }

    constructor (blank: Entry)
      ensures Valid() && fresh(records)
      ensures forall i :: 0 <= i < NUMBER_OF_SLOTS ==> Slots()[i] == blank
    {
      records := new seq<Entry>[NUMBER_OF_RECORDS](_ => [blank, blank, blank, blank, blank]);
    }

    /** Read the slot's record, change the slot's place in it, write the record back. */
    method Update(slot: nat, entry: Entry)
      requires Valid() && slot < NUMBER_OF_SLOTS
      modifies records
      ensures Valid() && Slots() == old(Slots())[slot := entry]
    {
      var r, place := slot / SLOTS_PER_RECORD, slot % SLOTS_PER_RECORD;
      var record := records[r];
      record := record[place := entry];
      records[r] := record;
      forall i | 0 <= i < NUMBER_OF_SLOTS
        ensures Slots()[i] == old(Slots())[slot := entry][i]
      {
        assert i / SLOTS_PER_RECORD == r && i % SLOTS_PER_RECORD == place ==> i == slot;
      }
    }

    method Write(slot: nat, key: Key, value: Value) returns (reply: StoreReply)
      requires Valid()
      modifies records
      ensures Valid() && reply == FlatReply(old(Slots()), StoreRequest.Write(slot, key, value))
      ensures Slots() == FlatAfter(old(Slots()), StoreRequest.Write(slot, key, value))
    {
      if slot >= NUMBER_OF_SLOTS {
        return BogusArgs;
      }
      Update(slot, Entry(key, value));
      return Done;
    }

    method EraseValue(slot: nat) returns (reply: StoreReply)
      requires Valid()
      modifies records
      ensures Valid() && reply == FlatReply(old(Slots()), StoreRequest.EraseValue(slot))
      ensures Slots() == FlatAfter(old(Slots()), StoreRequest.EraseValue(slot))
    {
      if slot >= NUMBER_OF_SLOTS {
        return BogusArgs;
      }
      var entry := records[slot / SLOTS_PER_RECORD][slot % SLOTS_PER_RECORD];
      Update(slot, entry.(value := ZERO_VALUE));
      return Done;
    }

    method Read(slot: nat, key: Key) returns (reply: StoreReply)
      requires Valid()
      ensures reply == FlatReply(Slots(), StoreRequest.Read(slot, key))
    {
      if slot >= NUMBER_OF_SLOTS {
        return BogusArgs;
      }
      var entry := records[slot / SLOTS_PER_RECORD][slot % SLOTS_PER_RECORD];
      return if entry.key == key then Found(entry.value) else WrongKey;
    }

    /** Every record, place by place: keys stay, values go. */
    method WipeUserData()
      requires Valid()
      modifies records
      ensures Valid() && Slots() == FlatAfter(old(Slots()), StoreRequest.WipeUserData)
    {
      for r := 0 to NUMBER_OF_RECORDS
        invariant Valid()
        invariant forall k :: 0 <= k < r ==> records[k] == Wiped(old(records[k]))
        invariant forall k :: r <= k < NUMBER_OF_RECORDS ==> records[k] == old(records[k])
      {
        records[r] := Wiped(records[r]);
      }
    }

    method Perform(req: StoreRequest) returns (reply: StoreReply)
      requires Valid()
      modifies records
      ensures Valid() && reply == FlatReply(old(Slots()), req) && Slots() == FlatAfter(old(Slots()), req)
    {
      match req {
        case Write(slot, key, value) => reply := Write(slot, key, value);
        case Read(slot, key) => reply := Read(slot, key);
        case EraseValue(slot) => reply := EraseValue(slot);
        case WipeUserData =>
          WipeUserData();
          reply := Done;
      }
    }

    /** Over any run the packed store answers like the independent slots. */
    method Execute(reqs: seq<StoreRequest>) returns (replies: seq<StoreReply>)
      requires Valid()
      modifies records
      ensures Valid() && replies == FlatReplies(old(Slots()), reqs) && Slots() == FlatEnd(old(Slots()), reqs)
    {
      replies := [];
      for k := 0 to |reqs|
        invariant Valid()
        invariant replies + FlatReplies(Slots(), reqs[k..]) == FlatReplies(old(Slots()), reqs)
        invariant FlatEnd(Slots(), reqs[k..]) == FlatEnd(old(Slots()), reqs)
      {
        ghost var before := Slots();
        var reply := Perform(reqs[k]);
        assert reqs[k..][1..] == reqs[k + 1..];
        assert replies + ([reply] + FlatReplies(Slots(), reqs[k + 1..]))
            == replies + [reply] + FlatReplies(Slots(), reqs[k + 1..]);
        replies := replies + [reply];
      }
    }
  }

  function Wiped(record: seq<Entry>): seq<Entry> {
    seq(|record|, i requires 0 <= i < |record| => record[i].(value := ZERO_VALUE))
  }

  // ----- the throttled service on top

  type WeaverEvent = Event<Weaver.State, Weaver.Request, Weaver.Reply>

  function Entries(s: Weaver.State): Flat {
    seq(NUMBER_OF_SLOTS, i requires 0 <= i < NUMBER_OF_SLOTS => Entry(s[i].key, s[i].value))
  }

  function StoreRequestOf(req: Weaver.Request): StoreRequest {
    match req
    case Write(slot, key, value) => StoreRequest.Write(slot, key, value)
    case Read(slot, key) => StoreRequest.Read(slot, key)
    case EraseValue(slot) => StoreRequest.EraseValue(slot)
    case WipeUserData => StoreRequest.WipeUserData
    // Time and reboots do not reach the store; a bad slot is a request without effect.
    case Wait(_) => StoreRequest.Read(NUMBER_OF_SLOTS, ZERO_KEY)
    case Reboot => StoreRequest.Read(NUMBER_OF_SLOTS, ZERO_KEY)
  }

  /** Whatever the throttle does, keys and values move as in the flat store, and a value
      that is found, or a wrong key that is reported, is what the flat store answers. */
  lemma ServiceRefinesStore(s: Weaver.State, req: Weaver.Request, s': Weaver.State, reply: Weaver.Reply)
    requires Weaver.Step(s, req, s', reply)
    ensures Entries(s') == FlatAfter(Entries(s), StoreRequestOf(req))
    ensures reply.Found? ==> FlatReply(Entries(s), StoreRequestOf(req)) == StoreReply.Found(reply.value)
    ensures reply.WrongKey? ==> FlatReply(Entries(s), StoreRequestOf(req)) == StoreReply.WrongKey
    ensures req.Write? || req.Read? || req.EraseValue? ==>
              (reply.BogusArgs? <==> FlatReply(Entries(s), StoreRequestOf(req)) == StoreReply.BogusArgs)
  {
  }

  function StoreRequests(run: seq<WeaverEvent>): (r: seq<StoreRequest>)
    ensures |r| == |run|
  {
    seq(|run|, k requires 0 <= k < |run| => StoreRequestOf(run[k].req))
  }

  lemma {:induction false} FlatEndSnoc(s: Flat, reqs: seq<StoreRequest>, last: StoreRequest)
    ensures FlatEnd(s, reqs + [last]) == FlatAfter(FlatEnd(s, reqs), last)
    decreases |reqs|
  {
    if reqs == [] {
      assert reqs + [last] == [last];
    } else {
      assert (reqs + [last])[1..] == reqs[1..] + [last];
      FlatEndSnoc(FlatAfter(s, reqs[0]), reqs[1..], last);
    }
  }

  lemma {:induction false} FlatReplyAt(s: Flat, reqs: seq<StoreRequest>, k: nat)
    requires k < |reqs|
    ensures FlatReplies(s, reqs)[k] == FlatReply(FlatEnd(s, reqs[..k]), reqs[k])
    decreases k
  {
    if k > 0 {
      FlatReplyAt(FlatAfter(s, reqs[0]), reqs[1..], k - 1);
      assert reqs[..k][1..] == reqs[1..][..k - 1];
    }
  }

  lemma {:induction false} EntriesAt(s0: Weaver.State, run: seq<WeaverEvent>, k: nat)
    requires IsRun(Weaver.Step, s0, run) && k <= |run|
    ensures Entries(At(s0, run, k)) == FlatEnd(Entries(s0), StoreRequests(run)[..k])
    decreases k
  {
    if k > 0 {
      var reqs := StoreRequests(run);
      EntriesAt(s0, run, k - 1);
      ServiceRefinesStore(At(s0, run, k - 1), run[k - 1].req, run[k - 1].post, run[k - 1].reply);
      FlatEndSnoc(Entries(s0), reqs[..k - 1], reqs[k - 1]);
      assert reqs[..k] == reqs[..k - 1] + [reqs[k - 1]];
    }
  }

  /** Over any run of the throttled service, through sleeps, reboots and wipes, whatever
      value a read finds is the one the flat store, and so the packed store, answers. */
  lemma RunRefinesStore(s0: Weaver.State, run: seq<WeaverEvent>, k: nat)
    requires IsRun(Weaver.Step, s0, run) && k < |run|
    ensures var answer := FlatReplies(Entries(s0), StoreRequests(run))[k];
            && (run[k].reply.Found? ==> answer == StoreReply.Found(run[k].reply.value))
            && (run[k].reply.WrongKey? ==> answer == StoreReply.WrongKey)
  {
    EntriesAt(s0, run, k);
    FlatReplyAt(Entries(s0), StoreRequests(run), k);
    ServiceRefinesStore(At(s0, run, k), run[k].req, run[k].post, run[k].reply);
  }
}
