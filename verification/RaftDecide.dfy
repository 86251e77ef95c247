/** At-most-once decisions by compare-and-set on a shared key-value store. */
module RaftDecide {
  import opened Collections
  import Epochs

  datatype DecideRecord = DecideRecord(
    needId: string,
    proposalId: string,
    epoch: int,
    lamport: int,
    kPlan: int,
    deciderId: string,
    timestampNs: int)

  // ---------- keys ----------

  type byte = n: nat | n < 256

  /** First byte of the need's hash. */
  type Bucketing = string -> byte

  function ThreeDigits(b: byte): (s: string)
    ensures |s| == 3
    ensures 100 * (s[0] as int - '0' as int) + 10 * (s[1] as int - '0' as int) + (s[2] as int - '0' as int) == b
  {
    [Epochs.Digit(b / 100), Epochs.Digit(b / 10 % 10), Epochs.Digit(b % 10)]
  }

  const KEY_PREFIX := "/decide/bucket-"

  function DecideKey(bucketOf: Bucketing, needId: string): string
  {
    KEY_PREFIX + ThreeDigits(bucketOf(needId)) + "/" + needId
  }

  /** Needs never share a key, however their hashes collide. */
  lemma KeysDistinct(bucketOf: Bucketing, a: string, b: string)
    ensures DecideKey(bucketOf, a) == DecideKey(bucketOf, b) <==> a == b
  {
    var n := |KEY_PREFIX| + 4;
    assert DecideKey(bucketOf, a)[n..] == a && DecideKey(bucketOf, b)[n..] == b;
  }

  // ---------- one call, uninterrupted ----------

  type Store = map<string, DecideRecord>

  predicate SameDecision(a: DecideRecord, b: DecideRecord)
  {
    a.proposalId == b.proposalId && a.epoch == b.epoch
  }

  /** Store and result after a call that nothing interleaves with. */
  function Decide(kv: Store, key: string, record: DecideRecord, currentEpoch: int): (Store, Option<DecideRecord>)
  {
    if record.epoch < currentEpoch then (kv, None)
    else if key !in kv then (kv[key := record], Some(record))
    else if SameDecision(kv[key], record) then (kv, Some(record))
    else (kv, None)
  }

  /** The etcd client: an atomic create-if-absent transaction and a read. */
  class EtcdClient {
    var kv: Store

    constructor ()
      ensures kv == map[]
    {
      kv := map[];
    }

    method CreateIfAbsent(key: string, value: DecideRecord) returns (success: bool)
      modifies this
      ensures success == (key !in old(kv))
      ensures kv == if success then old(kv)[key := value] else old(kv)
    {
      success := key !in kv;
      if success {
        kv := kv[key := value];
      }
    }

    method Get(key: string) returns (value: Option<DecideRecord>)
      ensures value == if key in kv then Some(kv[key]) else None
    {
      value := if key in kv then Some(kv[key]) else None;
    }
  }

  class RaftConsensusAdapter {
    const bucketOf: Bucketing
    const client: EtcdClient
    const epochManager: Epochs.EpochManager

    constructor (bucketOf: Bucketing, client: EtcdClient, epochManager: Epochs.EpochManager)
      ensures this.bucketOf == bucketOf && this.client == client && this.epochManager == epochManager
    {
      this.bucketOf, this.client, this.epochManager := bucketOf, client, epochManager;
    }

    method TryDecide(record: DecideRecord) returns (result: Option<DecideRecord>)
      modifies client
      ensures (client.kv, result)
              == Decide(old(client.kv), DecideKey(bucketOf, record.needId), record, epochManager.currentEpoch)
      ensures
        var kv, key := old(client.kv), DecideKey(bucketOf, record.needId);
        && (record.epoch < epochManager.currentEpoch ==> result == None && client.kv == kv)
        && (record.epoch >= epochManager.currentEpoch && key !in kv ==> result == Some(record) && client.kv == kv[key := record])
        && (record.epoch >= epochManager.currentEpoch && key in kv ==>
              && client.kv == kv
              && result == if kv[key].proposalId == record.proposalId && kv[key].epoch == record.epoch then Some(record) else None)
    {
      var currentEpoch := epochManager.currentEpoch;
      if record.epoch < currentEpoch {
        return None;
      }
      var key := DecideKey(bucketOf, record.needId);
      var success := client.CreateIfAbsent(key, record);
      if success {
        return Some(record);
      }
      var existing := client.Get(key);
      if existing.Some? {
        if existing.value.proposalId == record.proposalId && existing.value.epoch == record.epoch {
          return Some(record);
        }
      }
      result := None;
    }

    method GetDecide(needId: string) returns (record: Option<DecideRecord>)
      ensures record == var key := DecideKey(bucketOf, needId);
                        if key in client.kv then Some(client.kv[key]) else None
    {
      record := client.Get(DecideKey(bucketOf, needId));
    }
  }

  // ---------- concurrent calls ----------

  /** How far a call has come: epoch not read, epoch checked, compare-and-set lost, returned. */
  datatype Phase = Started | Fenced | Lost | Returned(result: Option<DecideRecord>)

  /** `startEpoch` remembers the node's epoch when the call began. */
  datatype Call = Call(node: string, record: DecideRecord, startEpoch: int, phase: Phase)

  datatype System = System(kv: Store, epochs: map<string, int>, calls: map<nat, Call>)

  const INITIAL := System(map[], map[], map[])

  function EpochOf(sys: System, node: string): int
  {
    if node in sys.epochs then sys.epochs[node] else Epochs.FIRST_EPOCH
  }

  /** The atomic steps that calls on any number of nodes interleave. */
  datatype Event =
    | Begin(id: nat, node: string, record: DecideRecord)
    | ReadEpoch(id: nat)
    | CompareAndSet(id: nat)
    | ReadBack(id: nat)
    | AdvanceEpoch(node: string)

  predicate InPhase(sys: System, id: nat, phase: Phase)
  {
    id in sys.calls && sys.calls[id].phase == phase
  }

  function Move(sys: System, id: nat, phase: Phase): System
    requires id in sys.calls
  {
    sys.(calls := sys.calls[id := sys.calls[id].(phase := phase)])
  }

  /** A step that is not enabled leaves the system as it is. */
  function Step(bucketOf: Bucketing, sys: System, e: Event): System
  {
    match e
    case Begin(id, node, record) =>
      if id in sys.calls then sys
      else sys.(calls := sys.calls[id := Call(node, record, EpochOf(sys, node), Started)])
    case ReadEpoch(id) =>
      if !InPhase(sys, id, Started) then sys
      else
        var call := sys.calls[id];
        Move(sys, id, if call.record.epoch < EpochOf(sys, call.node) then Returned(None) else Fenced)
    case CompareAndSet(id) =>
      if !InPhase(sys, id, Fenced) then sys
      else
        var record := sys.calls[id].record;
        var key := DecideKey(bucketOf, record.needId);
        if key in sys.kv then Move(sys, id, Lost)
        else Move(sys, id, Returned(Some(record))).(kv := sys.kv[key := record])
    case ReadBack(id) =>
      if !InPhase(sys, id, Lost) then sys
      else
        var record := sys.calls[id].record;
        var key := DecideKey(bucketOf, record.needId);
        Move(sys, id, Returned(if key in sys.kv && SameDecision(sys.kv[key], record) then Some(record) else None))
    case AdvanceEpoch(node) => sys.(epochs := sys.epochs[node := EpochOf(sys, node) + 1])
  }

  function Run(bucketOf: Bucketing, events: seq<Event>): System
  {
    if events == [] then INITIAL
    else Step(bucketOf, Run(bucketOf, events[..|events| - 1]), events[|events| - 1])
  }

  // ---------- what every run keeps ----------

  ghost predicate CallOk(bucketOf: Bucketing, sys: System, call: Call)
  {
    var key := DecideKey(bucketOf, call.record.needId);
    && call.startEpoch <= EpochOf(sys, call.node)
    && (call.phase in {Fenced, Lost} ==> call.startEpoch <= call.record.epoch)
    && (call.phase == Lost ==> key in sys.kv)
    && (call.phase.Returned? && call.phase.result.Some? ==>
          && call.phase.result.value == call.record
          && call.startEpoch <= call.record.epoch
          && key in sys.kv && SameDecision(sys.kv[key], call.record))
  }

  /** Every stored decision sits under its need's key and was returned to the call that stored it. */
  ghost predicate EntryOk(bucketOf: Bucketing, sys: System, key: string)
    requires key in sys.kv
  {
    && key == DecideKey(bucketOf, sys.kv[key].needId)
    && exists id :: id in sys.calls && sys.calls[id].phase == Returned(Some(sys.kv[key]))
  }

  ghost predicate Invariant(bucketOf: Bucketing, sys: System)
  {
    && (forall id :: id in sys.calls ==> CallOk(bucketOf, sys, sys.calls[id]))
    && (forall key :: key in sys.kv ==> EntryOk(bucketOf, sys, key))
  }

  ghost predicate Extends(before: Store, after: Store)
  {
    forall key :: key in before ==> key in after && after[key] == before[key]
  }

  lemma StoreOnlyGrows(bucketOf: Bucketing, sys: System, e: Event)
    ensures Extends(sys.kv, Step(bucketOf, sys, e).kv)
    ensures forall node :: EpochOf(sys, node) <= EpochOf(Step(bucketOf, sys, e), node)
  {
  }

  /** A call that the step does not move stays sound. */
  lemma CallStaysOk(bucketOf: Bucketing, sys: System, sys': System, call: Call)
    requires CallOk(bucketOf, sys, call)
    requires Extends(sys.kv, sys'.kv) && EpochOf(sys, call.node) <= EpochOf(sys', call.node)
    ensures CallOk(bucketOf, sys', call)
  {
  }

  /** Calls come only from Begin events and keep what they were called with. */
  lemma CallsKeepRecords(bucketOf: Bucketing, sys: System, e: Event)
    ensures Step(bucketOf, sys, e).calls.Keys == sys.calls.Keys + if e.Begin? then {e.id} else {}
    ensures forall id :: id in sys.calls ==>
              && Step(bucketOf, sys, e).calls[id].record == sys.calls[id].record
              && Step(bucketOf, sys, e).calls[id].node == sys.calls[id].node
  {
    CallKeys(bucketOf, sys, e);
    forall id | id in sys.calls
      ensures Step(bucketOf, sys, e).calls[id].record == sys.calls[id].record
              && Step(bucketOf, sys, e).calls[id].node == sys.calls[id].node
    {
      CallKeepsRecord(bucketOf, sys, e, id);
    }
  }

  lemma CallKeys(bucketOf: Bucketing, sys: System, e: Event)
    ensures Step(bucketOf, sys, e).calls.Keys == sys.calls.Keys + if e.Begin? then {e.id} else {}
  {
  }

  lemma CallKeepsRecord(bucketOf: Bucketing, sys: System, e: Event, id: nat)
    requires id in sys.calls
    ensures id in Step(bucketOf, sys, e).calls
    ensures Step(bucketOf, sys, e).calls[id].record == sys.calls[id].record
    ensures Step(bucketOf, sys, e).calls[id].node == sys.calls[id].node
  {
  }

  /** The id of the call an event is about. */
  predicate Moves(e: Event, id: nat)
  {
    !e.AdvanceEpoch? && e.id == id
  }

  lemma MovedCallOk(bucketOf: Bucketing, sys: System, e: Event, id: nat)
    requires Invariant(bucketOf, sys) && Moves(e, id) && id in Step(bucketOf, sys, e).calls
    ensures CallOk(bucketOf, Step(bucketOf, sys, e), Step(bucketOf, sys, e).calls[id])
  {
    assert id in sys.calls ==> CallOk(bucketOf, sys, sys.calls[id]);
  }

  lemma UnmovedCallOk(bucketOf: Bucketing, sys: System, e: Event, id: nat)
    requires Invariant(bucketOf, sys) && !Moves(e, id) && id in Step(bucketOf, sys, e).calls
    ensures CallOk(bucketOf, Step(bucketOf, sys, e), Step(bucketOf, sys, e).calls[id])
  {
    var sys' := Step(bucketOf, sys, e);
    StoreOnlyGrows(bucketOf, sys, e);
    assert id in sys.calls && sys'.calls[id] == sys.calls[id];
    CallStaysOk(bucketOf, sys, sys', sys.calls[id]);
  }

  lemma EntryStaysOk(bucketOf: Bucketing, sys: System, e: Event, key: string)
    requires Invariant(bucketOf, sys) && key in Step(bucketOf, sys, e).kv
    ensures EntryOk(bucketOf, Step(bucketOf, sys, e), key)
  {
    if key in sys.kv {
      assert EntryOk(bucketOf, sys, key);
      StoreOnlyGrows(bucketOf, sys, e);
      var id :| id in sys.calls && sys.calls[id].phase == Returned(Some(sys.kv[key]));
      ReturnedStays(bucketOf, sys, e, id);
    } else {
      var sys' := Step(bucketOf, sys, e);
      assert e.id in sys'.calls && sys'.calls[e.id].phase == Returned(Some(sys'.kv[key]));
    }
  }

  lemma ReturnedStays(bucketOf: Bucketing, sys: System, e: Event, id: nat)
    requires id in sys.calls && sys.calls[id].phase.Returned?
    ensures id in Step(bucketOf, sys, e).calls && Step(bucketOf, sys, e).calls[id] == sys.calls[id]
  {
  }

  lemma StepKeepsInvariant(bucketOf: Bucketing, sys: System, e: Event)
    requires Invariant(bucketOf, sys)
    ensures Invariant(bucketOf, Step(bucketOf, sys, e))
  {
    var sys' := Step(bucketOf, sys, e);
    forall id | id in sys'.calls ensures CallOk(bucketOf, sys', sys'.calls[id]) {
      if Moves(e, id) {
        MovedCallOk(bucketOf, sys, e, id);
      } else {
        UnmovedCallOk(bucketOf, sys, e, id);
      }
    }
    forall key | key in sys'.kv {
      EntryStaysOk(bucketOf, sys, e, key);
    }
  }

  lemma {:induction false} RunKeepsInvariant(bucketOf: Bucketing, events: seq<Event>)
    ensures Invariant(bucketOf, Run(bucketOf, events))
  {
    if events != [] {
      RunKeepsInvariant(bucketOf, events[..|events| - 1]);
      StepKeepsInvariant(bucketOf, Run(bucketOf, events[..|events| - 1]), events[|events| - 1]);
    }
  }

  /** A stored decision never changes, however the run goes on. */
  lemma {:induction false} DecisionsAreFinal(bucketOf: Bucketing, events: seq<Event>, later: seq<Event>, key: string)
    requires key in Run(bucketOf, events).kv
    ensures key in Run(bucketOf, events + later).kv
    ensures Run(bucketOf, events + later).kv[key] == Run(bucketOf, events).kv[key]
  {
    if later == [] {
      assert events + later == events;
    } else {
      var front := later[..|later| - 1];
      assert (events + later)[..|events + later| - 1] == events + front;
      DecisionsAreFinal(bucketOf, events, front, key);
      StoreOnlyGrows(bucketOf, Run(bucketOf, events + front), later[|later| - 1]);
    }
  }

  /** The call returned a record rather than None. */
  predicate Succeeded(sys: System, id: nat)
  {
    id in sys.calls && sys.calls[id].phase.Returned? && sys.calls[id].phase.result.Some?
  }

  /**
   * Every successful call for a need reports the one stored decision, and none reports an epoch
   * older than the one its node was in when the call began.
   */
  lemma Agreement(bucketOf: Bucketing, events: seq<Event>, a: nat, b: nat)
    requires Succeeded(Run(bucketOf, events), a) && Succeeded(Run(bucketOf, events), b)
    requires Run(bucketOf, events).calls[a].record.needId == Run(bucketOf, events).calls[b].record.needId
    ensures
      var sys := Run(bucketOf, events);
      var first, second := sys.calls[a].phase.result.value, sys.calls[b].phase.result.value;
      var key := DecideKey(bucketOf, first.needId);
      && SameDecision(first, second)
      && key in sys.kv && SameDecision(sys.kv[key], first)
      && first == sys.calls[a].record && first.epoch >= sys.calls[a].startEpoch
  {
    RunKeepsInvariant(bucketOf, events);
  }

  // ---------- when a call succeeds ----------

  /** The decision stored under the record's need has its proposal and its epoch. */
  ghost predicate StoredAlike(bucketOf: Bucketing, kv: Store, record: DecideRecord)
  {
    var key := DecideKey(bucketOf, record.needId);
    key in kv && kv[key].proposalId == record.proposalId && kv[key].epoch == record.epoch
  }

  /** Past the fence: still going, or returned with a record exactly if the stored decision is like it. */
  ghost predicate Judged(bucketOf: Bucketing, sys: System, id: nat)
  {
    && id in sys.calls
    && var call := sys.calls[id];
    || call.phase == Fenced
    || (DecideKey(bucketOf, call.record.needId) in sys.kv
        && (call.phase == Lost
            || call.phase == Returned(if StoredAlike(bucketOf, sys.kv, call.record) then Some(call.record) else None)))
  }

  lemma StoredAlikeStays(bucketOf: Bucketing, sys: System, e: Event, record: DecideRecord)
    requires DecideKey(bucketOf, record.needId) in sys.kv
    ensures
      var kv := Step(bucketOf, sys, e).kv;
      DecideKey(bucketOf, record.needId) in kv && (StoredAlike(bucketOf, kv, record) <==> StoredAlike(bucketOf, sys.kv, record))
  {
    StoreOnlyGrows(bucketOf, sys, e);
  }

  lemma StepJudges(bucketOf: Bucketing, sys: System, e: Event, id: nat)
    requires Judged(bucketOf, sys, id)
    ensures Judged(bucketOf, Step(bucketOf, sys, e), id)
  {
    var call := sys.calls[id];
    if DecideKey(bucketOf, call.record.needId) in sys.kv {
      StoredAlikeStays(bucketOf, sys, e, call.record);
    }
    if !Moves(e, id) {
      OtherStep(bucketOf, sys, e, id, call.node);
    }
  }

  lemma {:induction false} RunJudges(bucketOf: Bucketing, before: seq<Event>, later: seq<Event>, id: nat)
    requires Judged(bucketOf, Run(bucketOf, before), id)
    ensures Judged(bucketOf, Run(bucketOf, before + later), id)
  {
    if later == [] {
      assert before + later == before;
    } else {
      var front, e := later[..|later| - 1], later[|later| - 1];
      RunJudges(bucketOf, before, front, id);
      StepJudges(bucketOf, Run(bucketOf, before + front), e, id);
      RunAppend(bucketOf, before, front, e);
      assert front + [e] == later;
    }
  }

  /**
   * However the run goes on: a call past the fence returns its record exactly if the decision stored under its
   * need, be it its own, that of an earlier attempt or of another node, has its proposal and its epoch.
   */
  lemma PastFenceSucceedsIff(bucketOf: Bucketing, before: seq<Event>, later: seq<Event>, id: nat)
    requires InPhase(Run(bucketOf, before), id, Fenced)
    requires id in Run(bucketOf, before + later).calls && Run(bucketOf, before + later).calls[id].phase.Returned?
    ensures
      var sys := Run(bucketOf, before + later);
      var call := sys.calls[id];
      var key := DecideKey(bucketOf, call.record.needId);
      && key in sys.kv
      && call.phase.result
         == if sys.kv[key].proposalId == call.record.proposalId && sys.kv[key].epoch == call.record.epoch
            then Some(call.record) else None
  {
    RunJudges(bucketOf, before, later, id);
  }

  /** In any run: a call that reads its node's epoch is refused there exactly if it is behind it. */
  lemma FenceRefusesIff(bucketOf: Bucketing, events: seq<Event>, id: nat)
    requires InPhase(Run(bucketOf, events), id, Started)
    ensures
      var call := Run(bucketOf, events).calls[id];
      var after := Run(bucketOf, events + [ReadEpoch(id)]);
      && id in after.calls && after.kv == Run(bucketOf, events).kv
      && after.calls[id].phase == if call.record.epoch < 1 + CountAdvances(events, call.node) then Returned(None) else Fenced
  {
    var longer := events + [ReadEpoch(id)];
    assert longer[..|longer| - 1] == events && longer[|longer| - 1] == ReadEpoch(id);
    EpochIsAdvances(bucketOf, events, Run(bucketOf, events).calls[id].node);
  }

  /** A node starts in epoch 1 and each advance moves it on by one. */
  lemma {:induction false} EpochIsAdvances(bucketOf: Bucketing, events: seq<Event>, node: string)
    ensures EpochOf(Run(bucketOf, events), node) == 1 + CountAdvances(events, node)
  {
    if events != [] {
      EpochIsAdvances(bucketOf, events[..|events| - 1], node);
    }
  }

  /** A call whose steps run without interleaving does what the sequential reading says. */
  lemma LoneCall(bucketOf: Bucketing, sys: System, id: nat, node: string, record: DecideRecord)
    requires id !in sys.calls
    ensures
      var key := DecideKey(bucketOf, record.needId);
      var s1 := Step(bucketOf, sys, Begin(id, node, record));
      var s2 := Step(bucketOf, s1, ReadEpoch(id));
      var s3 := Step(bucketOf, s2, CompareAndSet(id));
      var s4 := Step(bucketOf, s3, ReadBack(id));
      && id in s4.calls && s4.calls[id].phase.Returned?
      && (s4.kv, s4.calls[id].phase.result) == Decide(sys.kv, key, record, EpochOf(sys, node))
  {
  }

  /** How often the node's epoch advances in these events. */
  function CountAdvances(events: seq<Event>, node: string): nat
  {
    if events == [] then 0
    else CountAdvances(events[..|events| - 1], node) + if events[|events| - 1] == AdvanceEpoch(node) then 1 else 0
  }

  lemma OtherStep(bucketOf: Bucketing, sys: System, e: Event, id: nat, node: string)
    requires id in sys.calls && !Moves(e, id)
    ensures id in Step(bucketOf, sys, e).calls && Step(bucketOf, sys, e).calls[id] == sys.calls[id]
    ensures EpochOf(Step(bucketOf, sys, e), node) == EpochOf(sys, node) + if e == AdvanceEpoch(node) then 1 else 0
  {
  }

  lemma RunAppend(bucketOf: Bucketing, before: seq<Event>, front: seq<Event>, e: Event)
    ensures Run(bucketOf, before + (front + [e])) == Step(bucketOf, Run(bucketOf, before + front), e)
  {
    var events := before + (front + [e]);
    assert events[..|events| - 1] == before + front && events[|events| - 1] == e;
  }

  /** Events of other calls leave a call where it is; only advances move its node's epoch. */
  lemma {:induction false} Meanwhile(bucketOf: Bucketing, before: seq<Event>, mid: seq<Event>, id: nat, node: string)
    requires id in Run(bucketOf, before).calls && forall e :: e in mid ==> !Moves(e, id)
    ensures id in Run(bucketOf, before + mid).calls
    ensures Run(bucketOf, before + mid).calls[id] == Run(bucketOf, before).calls[id]
    ensures EpochOf(Run(bucketOf, before + mid), node) == EpochOf(Run(bucketOf, before), node) + CountAdvances(mid, node)
  {
    if mid == [] {
      assert before + mid == before;
    } else {
      var front, e := mid[..|mid| - 1], mid[|mid| - 1];
      assert mid == front + [e] && e in mid;
      Meanwhile(bucketOf, before, front, id, node);
      OtherStep(bucketOf, Run(bucketOf, before + front), e, id, node);
      RunAppend(bucketOf, before, front, e);
    }
  }

  /**
   * The fence is read before the compare-and-set. A call that has passed it stores its record if the
   * key is free, and what it stores is up to date exactly if the epoch advanced at most as often in
   * between as the record was ahead of it.
   */
  lemma FenceHoldsIff(bucketOf: Bucketing, before: seq<Event>, mid: seq<Event>, id: nat)
    requires InPhase(Run(bucketOf, before), id, Fenced) && forall e :: e in mid ==> !Moves(e, id)
    requires DecideKey(bucketOf, Run(bucketOf, before).calls[id].record.needId) !in Run(bucketOf, before + mid).kv
    ensures
      var call := Run(bucketOf, before).calls[id];
      var end := Run(bucketOf, before + mid + [CompareAndSet(id)]);
      var key := DecideKey(bucketOf, call.record.needId);
      && key in end.kv && end.kv[key] == call.record
      && (EpochOf(end, call.node) <= end.kv[key].epoch
          <==> CountAdvances(mid, call.node) <= call.record.epoch - EpochOf(Run(bucketOf, before), call.node))
  {
    var events := before + mid + [CompareAndSet(id)];
    assert events[..|events| - 1] == before + mid;
    Meanwhile(bucketOf, before, mid, id, Run(bucketOf, before).calls[id].node);
  }

  /** One advance is enough to store a decision of an epoch that has ended. */
  lemma FenceIsNotAtomic(bucketOf: Bucketing, node: string, record: DecideRecord)
    requires record.epoch == Epochs.FIRST_EPOCH
    ensures
      var sys := Run(bucketOf, [Begin(0, node, record), ReadEpoch(0), AdvanceEpoch(node), CompareAndSet(0)]);
      var key := DecideKey(bucketOf, record.needId);
      key in sys.kv && sys.kv[key] == record && record.epoch < EpochOf(sys, node)
  {
    var before, mid := [Begin(0, node, record), ReadEpoch(0)], [AdvanceEpoch(node)];
    assert before[..1][..0] == [] && before[..1] == [Begin(0, node, record)];
    assert Run(bucketOf, before[..1]) == Step(bucketOf, INITIAL, before[0]);
    assert (before + mid)[..2] == before;
    assert Run(bucketOf, before + mid) == Step(bucketOf, Run(bucketOf, before), AdvanceEpoch(node));
    assert CountAdvances(mid, node) == 1 by { assert mid[..0] == []; }
    FenceHoldsIff(bucketOf, before, mid, 0);
    assert before + mid + [CompareAndSet(0)] == [Begin(0, node, record), ReadEpoch(0), AdvanceEpoch(node), CompareAndSet(0)];
  }
}
