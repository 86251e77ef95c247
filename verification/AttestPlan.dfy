/** ATTEST_PLAN: approvals are counted, and the one that completes a quorum attempts the decision. */
module AttestPlan {
  import opened Collections
  import opened PlanOps
  import opened Quorum
  import RaftDecide
  import SqlPlanStore

  datatype Envelope = Envelope(
    threadId: string,
    sender: string,
    lamport: int,
    epoch: Option<int>,
    needId: Option<string>,
    proposalId: Option<string>,
    verdict: Option<string>)

  /** What the verifier pool says about the sender; a failing lookup is tolerated. */
  datatype PoolAnswer = NoPool | LookupFailed | NotInPool | InPool(active: bool)

  const APPROVE := "approve"
  const REJECT := "reject"
  const DEFAULT_ACTIVE := 10
  const ALPHA := 0.3
  const K_TARGET := 5

  function VerdictOf(env: Envelope): string
  {
    if env.verdict.Some? then env.verdict.value else APPROVE
  }

  /** Only well-formed approvals from a sender the pool does not turn away are counted. */
  predicate Counts(env: Envelope, pool: PoolAnswer)
  {
    && env.needId.Some? && env.needId.value != ""
    && env.proposalId.Some? && env.proposalId.value != ""
    && VerdictOf(env) == APPROVE
    && pool != NotInPool && pool != InPool(false)
  }

  lemma CountsMeans(env: Envelope, pool: PoolAnswer)
    ensures Counts(env, pool) <==>
              && env.needId != None && env.needId != Some("") && env.proposalId != None && env.proposalId != Some("")
              && (env.verdict == None || env.verdict == Some("approve"))
              && (pool == NoPool || pool == LookupFailed || pool == InPool(true))
  {
  }

  /** The quorum size asked for, from the number of active verifiers if it is known. */
  function KPlanFor(activeVerifiers: Option<nat>): (k: int)
    ensures
      var n := if activeVerifiers.Some? then activeVerifiers.value else 10;
      k == if n < 7 then 1 else if n < 10 then 2 else if n < 14 then 3 else if n < 17 then 4 else 5
  {
    KPlan(if activeVerifiers.Some? then activeVerifiers.value else DEFAULT_ACTIVE, ALPHA, K_TARGET)
  }

  function ProposalOf(env: Envelope): Proposal
    requires env.needId.Some? && env.proposalId.Some?
  {
    (env.needId.value, env.proposalId.value)
  }

  const DECIDER := "quorum-system"

  function RecordFor(env: Envelope, kPlan: int, now: int): RaftDecide.DecideRecord
    requires env.needId.Some? && env.proposalId.Some?
  {
    RaftDecide.DecideRecord(env.needId.value, env.proposalId.value,
                            if env.epoch.Some? then env.epoch.value else 1,
                            env.lamport, kPlan, DECIDER, now)
  }

  // ---------- the handler ----------

  datatype Outcome =
    | Ignored
    | AppendFailed
    | Counted
    | NotConfigured
    | Conflict
    | Decided(record: RaftDecide.DecideRecord)

  /** The annotation that records the attestation in the plan. */
  function AttestationOp(env: Envelope, opId: string, now: int): PlanOp
    requires env.needId.Some? && env.proposalId.Some?
  {
    PlanOp(opId, env.threadId, env.lamport, env.sender, env.needId.value,
           Annotate(map["annotation_type" := "attest_plan", "proposal_id" := env.proposalId.value,
                        "verifier" := env.sender, "verdict" := VerdictOf(env)]), now)
  }

  /** The early returns: malformed envelopes, rejections, senders the pool turns away. */
  method Screen(env: Envelope, pool: PoolAnswer) returns (counts: bool)
    ensures counts <==>
              && env.needId != None && env.needId != Some("") && env.proposalId != None && env.proposalId != Some("")
              && (env.verdict == None || env.verdict == Some("approve"))
              && (pool == NoPool || pool == LookupFailed || pool == InPool(true))
  {
    if env.needId.None? || env.needId.value == "" {
      return false;
    }
    if env.proposalId.None? || env.proposalId.value == "" {
      return false;
    }
    var verdict := VerdictOf(env);
    if verdict != APPROVE && verdict != REJECT {
      return false;
    }
    if verdict != APPROVE {
      return false;
    }
    counts := pool != NotInPool && pool != InPool(false);
  }

  /** The two effects every counted attestation has: the tally, then the stored annotation. */
  method CountAndStore(p: Proposal, verifier: string, kPlan: int, op: PlanOp,
                       tracker: QuorumTracker, planStore: SqlPlanStore.PlanStore)
    returns (reached: bool, stored: bool)
    requires tracker.Valid() && planStore.Valid()
    modifies tracker, set q | q in tracker.states :: tracker.states[q]
    modifies planStore
    ensures tracker.Valid() && planStore.Valid()
    ensures (tracker.View(), reached) == Record(old(tracker.View()), p, verifier, kPlan)
    ensures stored <==> op.opId !in Ids(old(planStore.ops))
    ensures planStore.ops == if stored then old(planStore.ops) + [op] else old(planStore.ops)
  {
    reached := tracker.RecordAttestation(p.0, p.1, verifier, kPlan);
    assert planStore.Valid() && planStore.ops == old(planStore.ops);
    stored := StoreAnnotation(op, planStore, tracker);
  }

  /** Storing the annotation leaves the tallies alone. */
  method StoreAnnotation(op: PlanOp, planStore: SqlPlanStore.PlanStore, ghost tracker: QuorumTracker) returns (stored: bool)
    requires tracker.Valid() && planStore.Valid()
    modifies planStore
    ensures tracker.Valid() && planStore.Valid() && tracker.View() == old(tracker.View())
    ensures stored <==> op.opId !in Ids(old(planStore.ops))
    ensures planStore.ops == if stored then old(planStore.ops) + [op] else old(planStore.ops)
  {
    var r := planStore.AppendOp(op);
    stored := r.Ok?;
  }

  /**
   * What is injected at startup, and the feature flag. The class of the Redis adapter is not part of this
   * model: what it answers is.
   */
  datatype Adapters = Adapters(
    useRaft: bool,
    raft: RaftDecide.RaftConsensusAdapter?,
    redis: Option<RaftDecide.DecideRecord -> Option<RaftDecide.DecideRecord>>)

  function ClientOf(adapters: Adapters): set<object>
  {
    if adapters.raft == null then {} else {adapters.raft.client}
  }

  function StoreOf(adapters: Adapters): RaftDecide.Store
    reads ClientOf(adapters)
  {
    if adapters.raft == null then map[] else adapters.raft.client.kv
  }

  /** The three endings of an attestation that completes a quorum. */
  predicate Concludes(outcome: Outcome)
  {
    outcome.NotConfigured? || outcome.Conflict? || outcome.Decided?
  }

  /**
   * The handler, run without interleaving, in the fields of the message: what is not an approval has no
   * effect; an approval is counted and then stored; only a stored one that brings the distinct verifiers
   * to the number asked for first reaches the adapter chosen by the flag.
   */
  method HandleAttestPlan(env: Envelope, pool: PoolAnswer, activeVerifiers: Option<nat>,
                          tracker: QuorumTracker, planStore: SqlPlanStore.PlanStore,
                          adapters: Adapters, opId: string, now: int)
    returns (outcome: Outcome)
    requires tracker.Valid() && planStore.Valid()
    modifies tracker, set p | p in tracker.states :: tracker.states[p]
    modifies planStore, ClientOf(adapters)
    ensures tracker.Valid() && planStore.Valid()
    ensures outcome != Ignored <==>
              && env.needId != None && env.needId != Some("") && env.proposalId != None && env.proposalId != Some("")
              && (env.verdict == None || env.verdict == Some("approve"))
              && (pool == NoPool || pool == LookupFailed || pool == InPool(true))
    ensures outcome == Ignored ==>
              && tracker.View() == old(tracker.View()) && planStore.ops == old(planStore.ops)
              && StoreOf(adapters) == old(StoreOf(adapters))
    ensures outcome != Ignored ==>
              exists reached ::
                && Tallied(old(tracker.View()), tracker.View(), (env.needId.value, env.proposalId.value), env.sender,
                           KPlanFor(activeVerifiers), reached)
                && (Concludes(outcome) <==> outcome != AppendFailed && reached)
    ensures outcome != Ignored ==>
              && (outcome == AppendFailed <==> opId in Ids(old(planStore.ops)))
              && (outcome == AppendFailed ==> planStore.ops == old(planStore.ops))
              && (outcome != AppendFailed ==>
                    planStore.ops == old(planStore.ops) + [
                      PlanOp(opId, env.threadId, env.lamport, env.sender, env.needId.value,
                             Annotate(map["annotation_type" := "attest_plan", "proposal_id" := env.proposalId.value,
                                          "verifier" := env.sender, "verdict" := "approve"]), now)])
    ensures !Concludes(outcome) || !adapters.useRaft || adapters.raft == null ==> StoreOf(adapters) == old(StoreOf(adapters))
    ensures Concludes(outcome) ==>
              var record := RaftDecide.DecideRecord(
                env.needId.value, env.proposalId.value, if env.epoch == None then 1 else env.epoch.value, env.lamport,
                KPlanFor(activeVerifiers), "quorum-system", now);
              Asked(adapters, record, old(StoreOf(adapters)), StoreOf(adapters), outcome)
  {
    var counts := Screen(env, pool);
    if !counts {
      return Ignored;
    }
    outcome := HandleApproval(env, activeVerifiers, tracker, planStore, adapters, opId, now);
  }

  /** What the handler does with an approval. */
  method HandleApproval(env: Envelope, activeVerifiers: Option<nat>, tracker: QuorumTracker,
                        planStore: SqlPlanStore.PlanStore, adapters: Adapters, opId: string, now: int)
    returns (outcome: Outcome)
    requires env.needId.Some? && env.proposalId.Some? && VerdictOf(env) == APPROVE
    requires tracker.Valid() && planStore.Valid()
    modifies tracker, set q | q in tracker.states :: tracker.states[q]
    modifies planStore, ClientOf(adapters)
    ensures tracker.Valid() && planStore.Valid()
    ensures outcome != Ignored
    ensures exists reached ::
              && Tallied(old(tracker.View()), tracker.View(), (env.needId.value, env.proposalId.value), env.sender,
                         KPlanFor(activeVerifiers), reached)
              && (Concludes(outcome) <==> outcome != AppendFailed && reached)
    ensures outcome == AppendFailed <==> opId in Ids(old(planStore.ops))
    ensures outcome == AppendFailed ==> planStore.ops == old(planStore.ops)
    ensures outcome != AppendFailed ==>
              planStore.ops == old(planStore.ops) + [
                PlanOp(opId, env.threadId, env.lamport, env.sender, env.needId.value,
                       Annotate(map["annotation_type" := "attest_plan", "proposal_id" := env.proposalId.value,
                                    "verifier" := env.sender, "verdict" := "approve"]), now)]
    ensures !Concludes(outcome) || !adapters.useRaft || adapters.raft == null ==> StoreOf(adapters) == old(StoreOf(adapters))
    ensures Concludes(outcome) ==>
              var record := RaftDecide.DecideRecord(
                env.needId.value, env.proposalId.value, if env.epoch == None then 1 else env.epoch.value, env.lamport,
                KPlanFor(activeVerifiers), "quorum-system", now);
              Asked(adapters, record, old(StoreOf(adapters)), StoreOf(adapters), outcome)
  {
    var kPlan := KPlanFor(activeVerifiers);
    var op, record := AttestationOp(env, opId, now), RecordFor(env, kPlan, now);
    outcome := HandleCounted(ProposalOf(env), env.sender, kPlan, op, record, tracker, planStore, adapters);
  }

  /** What the handler does with an attestation that counts. */
  method HandleCounted(p: Proposal, verifier: string, kPlan: int, op: PlanOp, record: RaftDecide.DecideRecord,
                       tracker: QuorumTracker, planStore: SqlPlanStore.PlanStore, adapters: Adapters)
    returns (outcome: Outcome)
    requires tracker.Valid() && planStore.Valid()
    modifies tracker, set q | q in tracker.states :: tracker.states[q]
    modifies planStore, ClientOf(adapters)
    ensures tracker.Valid() && planStore.Valid()
    ensures outcome != Ignored
    ensures exists reached ::
              && Tallied(old(tracker.View()), tracker.View(), p, verifier, kPlan, reached)
              && (Concludes(outcome) <==> outcome != AppendFailed && reached)
    ensures outcome == AppendFailed <==> op.opId in Ids(old(planStore.ops))
    ensures planStore.ops == if outcome == AppendFailed then old(planStore.ops) else old(planStore.ops) + [op]
    ensures !Concludes(outcome) ==> StoreOf(adapters) == old(StoreOf(adapters))
    ensures Concludes(outcome) ==> Asked(adapters, record, old(StoreOf(adapters)), StoreOf(adapters), outcome)
  {
    RecordMeans(tracker.View(), p, verifier, kPlan);
    var reached, stored := CountApart(p, verifier, kPlan, op, tracker, planStore, adapters);
    if !stored {
      return AppendFailed;
    }
    if !reached {
      return Counted;
    }
    outcome := AskForDecision(record, adapters, tracker, planStore);
  }

  /** Counting and storing leave the adapters alone. */
  method CountApart(p: Proposal, verifier: string, kPlan: int, op: PlanOp, tracker: QuorumTracker,
                    planStore: SqlPlanStore.PlanStore, ghost adapters: Adapters)
    returns (reached: bool, stored: bool)
    requires tracker.Valid() && planStore.Valid()
    modifies tracker, set q | q in tracker.states :: tracker.states[q]
    modifies planStore
    ensures tracker.Valid() && planStore.Valid()
    ensures (tracker.View(), reached) == Record(old(tracker.View()), p, verifier, kPlan)
    ensures stored <==> op.opId !in Ids(old(planStore.ops))
    ensures planStore.ops == if stored then old(planStore.ops) + [op] else old(planStore.ops)
    ensures StoreOf(adapters) == old(StoreOf(adapters))
  {
    reached, stored := CountAndStore(p, verifier, kPlan, op, tracker, planStore);
  }

  /** What asking the adapters for a decision comes to, and what it leaves in the etcd store. */
  ghost predicate Asked(adapters: Adapters, record: RaftDecide.DecideRecord, kv: RaftDecide.Store, kv': RaftDecide.Store,
                        outcome: Outcome)
    reads if adapters.raft == null then {} else {adapters.raft.epochManager}
  {
    if adapters.useRaft && adapters.raft != null then
      var key := RaftDecide.DecideKey(adapters.raft.bucketOf, record.needId);
      if || record.epoch < adapters.raft.epochManager.currentEpoch
         || (key in kv && (kv[key].proposalId != record.proposalId || kv[key].epoch != record.epoch))
      then outcome == Conflict && kv' == kv
      else outcome == Decided(record) && kv' == if key in kv then kv else kv[key := record]
    else
      && kv' == kv
      && outcome == if adapters.useRaft || adapters.redis.None? then NotConfigured
                    else if adapters.redis.value(record).None? then Conflict
                    else Decided(adapters.redis.value(record).value)
  }

  /** The last part of the handler: a stored, completing attestation asks for the decision. */
  method AskForDecision(record: RaftDecide.DecideRecord, adapters: Adapters,
                        ghost tracker: QuorumTracker, ghost planStore: SqlPlanStore.PlanStore)
    returns (outcome: Outcome)
    requires tracker.Valid() && planStore.Valid()
    modifies ClientOf(adapters)
    ensures tracker.Valid() && planStore.Valid()
    ensures tracker.View() == old(tracker.View()) && planStore.ops == old(planStore.ops)
    ensures Concludes(outcome) && Asked(adapters, record, old(StoreOf(adapters)), StoreOf(adapters), outcome)
    ensures
      var key := if adapters.raft == null then "" else RaftDecide.DecideKey(adapters.raft.bucketOf, record.needId);
      var kv := old(StoreOf(adapters));
      var refused := || (adapters.raft != null && record.epoch < adapters.raft.epochManager.currentEpoch)
                     || (key in kv && (kv[key].proposalId != record.proposalId || kv[key].epoch != record.epoch));
      && (outcome.NotConfigured? <==> if adapters.useRaft then adapters.raft == null else adapters.redis.None?)
      && (adapters.useRaft && adapters.raft != null ==>
            && outcome == (if refused then Conflict else Decided(record))
            && StoreOf(adapters) == if refused || key in kv then kv else kv[key := record])
      && (!adapters.useRaft && adapters.redis.Some? ==>
            match adapters.redis.value(record)
            case None => outcome == Conflict
            case Some(decided) => outcome == Decided(decided))
  {
    var result;
    if adapters.useRaft {
      if adapters.raft == null {
        return NotConfigured;
      }
      result := adapters.raft.TryDecide(record);
    } else {
      if adapters.redis.None? {
        return NotConfigured;
      }
      result := adapters.redis.value(record);
    }
    if result.None? {
      return Conflict;
    }
    outcome := Decided(result.value);
  }

  // ---------- concurrent handlers ----------

  /** A handler between counting a completing attestation and starting the decision. */
  datatype Job = Job(node: string, record: RaftDecide.DecideRecord)

  /** Every node is a process with a tracker of its own. */
  datatype State = State(trackers: map<string, Tallies>, jobs: map<nat, Job>, raft: RaftDecide.System)

  function TalliesAt(s: State, node: string): Tallies
  {
    if node in s.trackers then s.trackers[node] else map[]
  }

  /** Handlers yield while the annotation is stored, and again between the adapter's steps. */
  datatype Event =
    | Attest(id: nat, node: string, env: Envelope, pool: PoolAnswer, activeVerifiers: Option<nat>, now: int)
    | StartDecide(id: nat)
    | Raft(step: RaftDecide.Event)

  const INITIAL := State(map[], map[], RaftDecide.INITIAL)

  predicate FreshId(s: State, id: nat)
  {
    id !in s.jobs && id !in s.raft.calls
  }

  /** Decisions are attempted by handlers only: a bare `Begin` is no step of this system. */
  function Step(bucketOf: RaftDecide.Bucketing, s: State, e: Event): State
  {
    match e
    case Attest(id, node, env, pool, activeVerifiers, now) =>
      if !Counts(env, pool) || !FreshId(s, id) then s
      else
        var k := KPlanFor(activeVerifiers);
        var (tallies, completed) := Record(TalliesAt(s, node), ProposalOf(env), env.sender, k);
        s.(trackers := s.trackers[node := tallies],
           jobs := if completed then s.jobs[id := Job(node, RecordFor(env, k, now))] else s.jobs)
    case StartDecide(id) =>
      if id !in s.jobs then s
      else
        s.(jobs := s.jobs - {id},
           raft := RaftDecide.Step(bucketOf, s.raft, RaftDecide.Begin(id, s.jobs[id].node, s.jobs[id].record)))
    case Raft(step) =>
      if step.Begin? then s else s.(raft := RaftDecide.Step(bucketOf, s.raft, step))
  }

  function Run(bucketOf: RaftDecide.Bucketing, events: seq<Event>): State
  {
    if events == [] then INITIAL
    else Step(bucketOf, Run(bucketOf, events[..|events| - 1]), events[|events| - 1])
  }

  function Subject(record: RaftDecide.DecideRecord): Proposal
  {
    (record.needId, record.proposalId)
  }

  /** At least as many verifiers as asked for, and at least one, have attested. */
  ghost predicate Backed(tallies: Tallies, p: Proposal)
  {
    p in tallies && HasQuorum(tallies[p]) && tallies[p].required >= 1
  }

  /** What job or call `id` is about. */
  ghost predicate Attempts(s: State, id: nat, node: string, record: RaftDecide.DecideRecord)
  {
    || (id in s.jobs && s.jobs[id] == Job(node, record))
    || (id in s.raft.calls && s.raft.calls[id].node == node && s.raft.calls[id].record == record)
  }

  ghost predicate AttemptsBacked(s: State)
  {
    forall id, node, record :: Attempts(s, id, node, record) ==> Backed(TalliesAt(s, node), Subject(record))
  }

  ghost predicate OneAttempt(s: State)
  {
    forall a, b, node, r, r' :: Attempts(s, a, node, r) && Attempts(s, b, node, r') && Subject(r) == Subject(r') ==> a == b
  }

  ghost predicate Invariant(bucketOf: RaftDecide.Bucketing, s: State)
  {
    && RaftDecide.Invariant(bucketOf, s.raft)
    && s.jobs.Keys !! s.raft.calls.Keys
    && (forall node, p :: p in TalliesAt(s, node) ==> TalliesAt(s, node)[p].required >= 1)
    && AttemptsBacked(s) && OneAttempt(s)
  }

  lemma BackedStays(tallies: Tallies, p: Proposal, verifier: string, k: int, q: Proposal)
    requires Backed(tallies, q)
    ensures Backed(Record(tallies, p, verifier, k).0, q)
  {
  }

  /** An attestation that counts: it moves one tally of its node, and adds an attempt if it completes the quorum. */
  lemma AttestMoves(bucketOf: RaftDecide.Bucketing, s: State, e: Event, q: string)
    requires e.Attest? && Counts(e.env, e.pool) && FreshId(s, e.id)
    ensures
      var s' := Step(bucketOf, s, e);
      var (tallies, completed) := Record(TalliesAt(s, e.node), ProposalOf(e.env), e.env.sender, KPlanFor(e.activeVerifiers));
      && TalliesAt(s', q) == (if q == e.node then tallies else TalliesAt(s, q))
      && s'.raft == s.raft
      && s'.jobs == if completed then s.jobs[e.id := Job(e.node, RecordFor(e.env, KPlanFor(e.activeVerifiers), e.now))] else s.jobs
  {
  }

  lemma AttestAttempts(bucketOf: RaftDecide.Bucketing, s: State, e: Event, id: nat, node: string,
                       record: RaftDecide.DecideRecord)
    requires e.Attest? && Counts(e.env, e.pool) && FreshId(s, e.id)
    requires Attempts(Step(bucketOf, s, e), id, node, record)
    ensures
      || (id != e.id && Attempts(s, id, node, record))
      || (&& id == e.id && node == e.node && record == RecordFor(e.env, KPlanFor(e.activeVerifiers), e.now)
          && Record(TalliesAt(s, node), ProposalOf(e.env), e.env.sender, KPlanFor(e.activeVerifiers)).1)
  {
  }

  lemma AttestKeepsBacked(bucketOf: RaftDecide.Bucketing, s: State, e: Event)
    requires AttemptsBacked(s) && e.Attest? && Counts(e.env, e.pool) && FreshId(s, e.id)
    requires forall node, p :: p in TalliesAt(s, node) ==> TalliesAt(s, node)[p].required >= 1
    ensures AttemptsBacked(Step(bucketOf, s, e))
  {
    var s', p, k := Step(bucketOf, s, e), ProposalOf(e.env), KPlanFor(e.activeVerifiers);
    forall id, node, record | Attempts(s', id, node, record) ensures Backed(TalliesAt(s', node), Subject(record)) {
      AttestAttempts(bucketOf, s, e, id, node, record);
      AttestMoves(bucketOf, s, e, node);
      if id != e.id && node == e.node {
        BackedStays(TalliesAt(s, node), p, e.env.sender, k, Subject(record));
      }
    }
  }

  lemma AttestKeepsOne(bucketOf: RaftDecide.Bucketing, s: State, e: Event)
    requires AttemptsBacked(s) && OneAttempt(s) && e.Attest? && Counts(e.env, e.pool) && FreshId(s, e.id)
    ensures OneAttempt(Step(bucketOf, s, e))
  {
    var s' := Step(bucketOf, s, e);
    forall a, b, node, r, r' | Attempts(s', a, node, r) && Attempts(s', b, node, r') && Subject(r) == Subject(r')
      ensures a == b
    {
      AttestAttempts(bucketOf, s, e, a, node, r);
      AttestAttempts(bucketOf, s, e, b, node, r');
    }
  }

  lemma AttestKeeps(bucketOf: RaftDecide.Bucketing, s: State, e: Event)
    requires Invariant(bucketOf, s) && e.Attest?
    ensures Invariant(bucketOf, Step(bucketOf, s, e))
  {
    if Counts(e.env, e.pool) && FreshId(s, e.id) {
      AttestKeepsBacked(bucketOf, s, e);
      AttestKeepsOne(bucketOf, s, e);
      var s' := Step(bucketOf, s, e);
      forall node, p | p in TalliesAt(s', node) ensures TalliesAt(s', node)[p].required >= 1 {
        AttestMoves(bucketOf, s, e, node);
      }
    }
  }

  /** A system with no new attempts and a sound adapter stays sound. */
  lemma SameAttemptsKeep(bucketOf: RaftDecide.Bucketing, s: State, s': State)
    requires Invariant(bucketOf, s) && RaftDecide.Invariant(bucketOf, s'.raft)
    requires s'.trackers == s.trackers && s'.jobs.Keys !! s'.raft.calls.Keys
    requires forall id, node, record :: Attempts(s', id, node, record) ==> Attempts(s, id, node, record)
    ensures Invariant(bucketOf, s')
  {
    assert forall node :: TalliesAt(s', node) == TalliesAt(s, node);
  }

  /** Steps other than attestations move attempts along and add none. */
  lemma OtherSteps(bucketOf: RaftDecide.Bucketing, s: State, e: Event, id: nat, node: string, record: RaftDecide.DecideRecord)
    requires !e.Attest? && s.jobs.Keys !! s.raft.calls.Keys
    ensures Attempts(Step(bucketOf, s, e), id, node, record) <==> Attempts(s, id, node, record)
    ensures Step(bucketOf, s, e).trackers == s.trackers
    ensures Step(bucketOf, s, e).jobs.Keys !! Step(bucketOf, s, e).raft.calls.Keys
  {
    match e
    case StartDecide(x) =>
      if x in s.jobs {
        RaftDecide.CallsKeepRecords(bucketOf, s.raft, RaftDecide.Begin(x, s.jobs[x].node, s.jobs[x].record));
      }
    case Raft(step) =>
      if !step.Begin? {
        RaftDecide.CallsKeepRecords(bucketOf, s.raft, step);
        assert forall x :: x in RaftDecide.Step(bucketOf, s.raft, step).calls <==> x in s.raft.calls;
      }
  }

  lemma OtherStepsKeep(bucketOf: RaftDecide.Bucketing, s: State, e: Event)
    requires Invariant(bucketOf, s) && !e.Attest?
    ensures Invariant(bucketOf, Step(bucketOf, s, e))
  {
    var s' := Step(bucketOf, s, e);
    OtherSteps(bucketOf, s, e, 0, "", RaftDecide.DecideRecord("", "", 0, 0, 0, "", 0));
    forall id, node, record | Attempts(s', id, node, record) ensures Attempts(s, id, node, record) {
      OtherSteps(bucketOf, s, e, id, node, record);
    }
    if e.Raft? {
      RaftDecide.StepKeepsInvariant(bucketOf, s.raft, e.step);
    } else if e.id in s.jobs {
      RaftDecide.StepKeepsInvariant(bucketOf, s.raft, RaftDecide.Begin(e.id, s.jobs[e.id].node, s.jobs[e.id].record));
    }
    SameAttemptsKeep(bucketOf, s, s');
  }

  lemma {:induction false} RunKeepsInvariant(bucketOf: RaftDecide.Bucketing, events: seq<Event>)
    ensures Invariant(bucketOf, Run(bucketOf, events))
  {
    if events != [] {
      var before, e := events[..|events| - 1], events[|events| - 1];
      RunKeepsInvariant(bucketOf, before);
      if e.Attest? {
        AttestKeeps(bucketOf, Run(bucketOf, before), e);
      } else {
        OtherStepsKeep(bucketOf, Run(bucketOf, before), e);
      }
    }
  }

  // ---------- what a run has counted ----------

  /** Event `i` is an attestation of `p` that node `node` counts. */
  ghost predicate CountedAt(bucketOf: RaftDecide.Bucketing, events: seq<Event>, i: int, node: string, p: Proposal)
  {
    && 0 <= i < |events| && events[i].Attest? && events[i].node == node
    && Counts(events[i].env, events[i].pool) && FreshId(Run(bucketOf, events[..i]), events[i].id)
    && ProposalOf(events[i].env) == p
  }

  /** The verifiers whose attestations of `p` node `node` has counted. */
  ghost function Attesters(bucketOf: RaftDecide.Bucketing, events: seq<Event>, node: string, p: Proposal): set<string>
  {
    set i | 0 <= i < |events| && CountedAt(bucketOf, events, i, node, p) :: events[i].env.sender
  }

  ghost predicate FirstAt(bucketOf: RaftDecide.Bucketing, events: seq<Event>, i: int, node: string, p: Proposal)
  {
    && CountedAt(bucketOf, events, i, node, p)
    && forall j :: 0 <= j < i ==> !CountedAt(bucketOf, events, j, node, p)
  }

  lemma CountedPrefix(bucketOf: RaftDecide.Bucketing, events: seq<Event>, n: nat, i: int, node: string, p: Proposal)
    requires i < n <= |events|
    ensures CountedAt(bucketOf, events[..n], i, node, p) <==> CountedAt(bucketOf, events, i, node, p)
  {
    if i >= 0 {
      assert events[..n][..i] == events[..i];
    }
  }

  lemma AttesterStays(bucketOf: RaftDecide.Bucketing, events: seq<Event>, n: nat, node: string, p: Proposal, v: string)
    requires n <= |events| && v in Attesters(bucketOf, events[..n], node, p)
    ensures v in Attesters(bucketOf, events, node, p)
  {
    var i :| 0 <= i < n && CountedAt(bucketOf, events[..n], i, node, p) && events[..n][i].env.sender == v;
    CountedPrefix(bucketOf, events, n, i, node, p);
  }

  lemma AttesterComes(bucketOf: RaftDecide.Bucketing, events: seq<Event>, n: nat, node: string, p: Proposal, v: string)
    requires |events| == n + 1 && v in Attesters(bucketOf, events, node, p)
    ensures v in Attesters(bucketOf, events[..n], node, p)
            || (CountedAt(bucketOf, events, n, node, p) && events[n].env.sender == v)
  {
    var i :| 0 <= i < |events| && CountedAt(bucketOf, events, i, node, p) && events[i].env.sender == v;
    if i < n {
      CountedPrefix(bucketOf, events, n, i, node, p);
      assert events[..n][i].env.sender == v;
    }
  }

  lemma AttestersOneMore(bucketOf: RaftDecide.Bucketing, events: seq<Event>, node: string, p: Proposal)
    requires events != []
    ensures
      var n := |events| - 1;
      Attesters(bucketOf, events, node, p)
      == Attesters(bucketOf, events[..n], node, p)
         + if CountedAt(bucketOf, events, n, node, p) then {events[n].env.sender} else {}
  {
    var n := |events| - 1;
    forall v | v in Attesters(bucketOf, events[..n], node, p) {
      AttesterStays(bucketOf, events, n, node, p, v);
    }
    forall v | v in Attesters(bucketOf, events, node, p) {
      AttesterComes(bucketOf, events, n, node, p, v);
    }
  }

  /** The last event's effect on the tally of `p` at `node`. */
  lemma TallyOneMore(bucketOf: RaftDecide.Bucketing, events: seq<Event>, node: string, p: Proposal)
    requires events != []
    ensures
      var n := |events| - 1;
      var before, after := TalliesAt(Run(bucketOf, events[..n]), node), TalliesAt(Run(bucketOf, events), node);
      if CountedAt(bucketOf, events, n, node, p) then
        p in after && after[p] == (var t := TallyOf(before, p, KPlanFor(events[n].activeVerifiers));
                                   t.(verifiers := t.verifiers + {events[n].env.sender}))
      else (p in after <==> p in before) && (p in before ==> after[p] == before[p])
  {
    var n := |events| - 1;
    var s, e := Run(bucketOf, events[..n]), events[n];
    if e.Attest? {
      if Counts(e.env, e.pool) && FreshId(s, e.id) {
        AttestMoves(bucketOf, s, e, node);
      }
    } else {
      RunKeepsInvariant(bucketOf, events[..n]);
      OtherSteps(bucketOf, s, e, 0, "", RaftDecide.DecideRecord("", "", 0, 0, 0, "", 0));
    }
  }

  /** In every run a node's tally of a proposal is the set of verifiers it has counted. */
  lemma {:induction false} TallyVerifiers(bucketOf: RaftDecide.Bucketing, events: seq<Event>, node: string, p: Proposal)
    ensures
      var tallies := TalliesAt(Run(bucketOf, events), node);
      && (p in tallies <==> Attesters(bucketOf, events, node, p) != {})
      && (p in tallies ==> tallies[p].verifiers == Attesters(bucketOf, events, node, p))
  {
    if events != [] {
      TallyVerifiers(bucketOf, events[..|events| - 1], node, p);
      TallyOneMore(bucketOf, events, node, p);
      AttestersOneMore(bucketOf, events, node, p);
    }
  }

  lemma FirstPrefix(bucketOf: RaftDecide.Bucketing, events: seq<Event>, n: nat, i: int, node: string, p: Proposal)
    requires i < n <= |events|
    ensures FirstAt(bucketOf, events[..n], i, node, p) <==> FirstAt(bucketOf, events, i, node, p)
  {
    forall j | j <= i ensures CountedAt(bucketOf, events[..n], j, node, p) <==> CountedAt(bucketOf, events, j, node, p) {
      CountedPrefix(bucketOf, events, n, j, node, p);
    }
  }

  lemma NoneCounted(bucketOf: RaftDecide.Bucketing, events: seq<Event>, n: nat, node: string, p: Proposal)
    requires FirstAt(bucketOf, events, n, node, p)
    ensures Attesters(bucketOf, events[..n], node, p) == {}
  {
    forall j | 0 <= j < n ensures !CountedAt(bucketOf, events[..n], j, node, p) {
      CountedPrefix(bucketOf, events, n, j, node, p);
    }
  }

  /** Its quorum size is the one that the first attestation asked for. */
  lemma {:induction false} TallyRequired(bucketOf: RaftDecide.Bucketing, events: seq<Event>, i: int, node: string, p: Proposal)
    requires FirstAt(bucketOf, events, i, node, p)
    ensures
      var tallies := TalliesAt(Run(bucketOf, events), node);
      p in tallies && tallies[p].required == KPlanFor(events[i].activeVerifiers)
    decreases |events|
  {
    var n := |events| - 1;
    if i < n {
      FirstPrefix(bucketOf, events, n, i, node, p);
      TallyRequired(bucketOf, events[..n], i, node, p);
      RequiredStays(bucketOf, events, node, p);
    } else {
      RequiredSet(bucketOf, events, node, p);
    }
  }

  lemma RequiredStays(bucketOf: RaftDecide.Bucketing, events: seq<Event>, node: string, p: Proposal)
    requires events != [] && p in TalliesAt(Run(bucketOf, events[..|events| - 1]), node)
    ensures
      var before, after := TalliesAt(Run(bucketOf, events[..|events| - 1]), node), TalliesAt(Run(bucketOf, events), node);
      p in after && after[p].required == before[p].required
  {
    TallyOneMore(bucketOf, events, node, p);
  }

  lemma RequiredSet(bucketOf: RaftDecide.Bucketing, events: seq<Event>, node: string, p: Proposal)
    requires events != [] && FirstAt(bucketOf, events, |events| - 1, node, p)
    ensures
      var tallies := TalliesAt(Run(bucketOf, events), node);
      p in tallies && tallies[p].required == KPlanFor(events[|events| - 1].activeVerifiers)
  {
    var n := |events| - 1;
    NoneCounted(bucketOf, events, n, node, p);
    TallyVerifiers(bucketOf, events[..n], node, p);
    TallyOneMore(bucketOf, events, node, p);
  }

  lemma {:induction false} Earliest(bucketOf: RaftDecide.Bucketing, events: seq<Event>, j: int, node: string, p: Proposal)
    returns (i: int)
    requires CountedAt(bucketOf, events, j, node, p)
    ensures i <= j && FirstAt(bucketOf, events, i, node, p)
    decreases j
  {
    if l :| 0 <= l < j && CountedAt(bucketOf, events, l, node, p) {
      i := Earliest(bucketOf, events, l, node, p);
    } else {
      i := j;
    }
  }

  // ---------- where attempts come from ----------

  /** Event `j` completes a quorum at its node and asks for this record to be decided. */
  ghost predicate CompletesAt(bucketOf: RaftDecide.Bucketing, events: seq<Event>, j: int, node: string,
                              record: RaftDecide.DecideRecord)
  {
    && CountedAt(bucketOf, events, j, node, Subject(record))
    && record == RecordFor(events[j].env, KPlanFor(events[j].activeVerifiers), events[j].now)
    && Record(TalliesAt(Run(bucketOf, events[..j]), node), Subject(record), events[j].env.sender,
              KPlanFor(events[j].activeVerifiers)).1
  }

  lemma CompletesPrefix(bucketOf: RaftDecide.Bucketing, events: seq<Event>, n: nat, j: int, node: string,
                        record: RaftDecide.DecideRecord)
    requires j < n <= |events| && CompletesAt(bucketOf, events[..n], j, node, record)
    ensures CompletesAt(bucketOf, events, j, node, record)
  {
    CountedPrefix(bucketOf, events, n, j, node, Subject(record));
    assert events[..n][..j] == events[..j];
  }

  /** In every run each attempt was asked for by an attestation that completed the quorum of its node. */
  lemma {:induction false} AttemptOrigin(bucketOf: RaftDecide.Bucketing, events: seq<Event>, id: nat, node: string,
                                         record: RaftDecide.DecideRecord) returns (j: int)
    requires Attempts(Run(bucketOf, events), id, node, record)
    ensures CompletesAt(bucketOf, events, j, node, record)
  {
    var n := |events| - 1;
    var s, e := Run(bucketOf, events[..n]), events[n];
    if Attempts(s, id, node, record) {
      j := AttemptOrigin(bucketOf, events[..n], id, node, record);
      CompletesPrefix(bucketOf, events, n, j, node, record);
    } else {
      if !e.Attest? {
        RunKeepsInvariant(bucketOf, events[..n]);
        OtherSteps(bucketOf, s, e, id, node, record);
        assert false;
      } else {
        j := n;
        AttestAttempts(bucketOf, s, e, id, node, record);
      }
    }
  }

  // ---------- the theorems ----------

  /** The call that stored a decision. */
  lemma StoredBy(bucketOf: RaftDecide.Bucketing, events: seq<Event>, key: string) returns (id: nat)
    requires key in Run(bucketOf, events).raft.kv
    ensures
      var raft := Run(bucketOf, events).raft;
      && key == RaftDecide.DecideKey(bucketOf, raft.kv[key].needId)
      && id in raft.calls && raft.calls[id].record == raft.kv[key] && RaftDecide.Succeeded(raft, id)
  {
    RunKeepsInvariant(bucketOf, events);
    var raft := Run(bucketOf, events).raft;
    assert RaftDecide.EntryOk(bucketOf, raft, key);
    id :| id in raft.calls && raft.calls[id].phase == RaftDecide.Returned(Some(raft.kv[key]));
    assert RaftDecide.CallOk(bucketOf, raft, raft.calls[id]);
  }

  /** Node `node` counted at least as many distinct approving verifiers as it first asked for, and at least one. */
  ghost predicate QuorumAt(bucketOf: RaftDecide.Bucketing, events: seq<Event>, node: string, p: Proposal)
  {
    exists i :: && FirstAt(bucketOf, events, i, node, p)
                && |Attesters(bucketOf, events, node, p)| >= KPlanFor(events[i].activeVerifiers) >= 1
  }

  /** Every stored decision names a proposal that has its quorum at one node. */
  lemma QuorumBeforeDecision(bucketOf: RaftDecide.Bucketing, events: seq<Event>, key: string)
    requires key in Run(bucketOf, events).raft.kv
    ensures
      var p := Subject(Run(bucketOf, events).raft.kv[key]);
      key == RaftDecide.DecideKey(bucketOf, p.0) && exists node :: QuorumAt(bucketOf, events, node, p)
  {
    var id := StoredBy(bucketOf, events, key);
    var s := Run(bucketOf, events);
    var node, p := s.raft.calls[id].node, Subject(s.raft.kv[key]);
    RunKeepsInvariant(bucketOf, events);
    assert Attempts(s, id, node, s.raft.kv[key]);
    TallyVerifiers(bucketOf, events, node, p);
    var v :| v in Attesters(bucketOf, events, node, p);
    var j :| 0 <= j < |events| && CountedAt(bucketOf, events, j, node, p);
    var i := Earliest(bucketOf, events, j, node, p);
    TallyRequired(bucketOf, events, i, node, p);
    assert QuorumAt(bucketOf, events, node, p);
  }

  /** Whoever is counted for `p` at a node has sent it an approval of `p`. */
  lemma TalliedApproved(bucketOf: RaftDecide.Bucketing, events: seq<Event>, node: string, p: Proposal, v: string)
    returns (i: int)
    requires p in TalliesAt(Run(bucketOf, events), node) && v in TalliesAt(Run(bucketOf, events), node)[p].verifiers
    ensures 0 <= i < |events| && events[i].Attest? && events[i].node == node && events[i].env.sender == v
    ensures events[i].env.needId == Some(p.0) && events[i].env.proposalId == Some(p.1) && p.0 != "" && p.1 != ""
    ensures events[i].env.verdict == None || events[i].env.verdict == Some("approve")
    ensures events[i].pool == NoPool || events[i].pool == LookupFailed || events[i].pool == InPool(true)
  {
    TallyVerifiers(bucketOf, events, node, p);
    i :| 0 <= i < |events| && CountedAt(bucketOf, events, i, node, p) && events[i].env.sender == v;
    CountsMeans(events[i].env, events[i].pool);
  }

  /** And every approval, handled under an id not in use, is counted for good. */
  lemma ApprovalTallied(bucketOf: RaftDecide.Bucketing, events: seq<Event>, i: nat, p: Proposal)
    requires i < |events| && events[i].Attest? && FreshId(Run(bucketOf, events[..i]), events[i].id)
    requires events[i].env.needId == Some(p.0) && events[i].env.proposalId == Some(p.1) && p.0 != "" && p.1 != ""
    requires events[i].env.verdict == None || events[i].env.verdict == Some("approve")
    requires events[i].pool == NoPool || events[i].pool == LookupFailed || events[i].pool == InPool(true)
    ensures
      var tallies := TalliesAt(Run(bucketOf, events), events[i].node);
      p in tallies && events[i].env.sender in tallies[p].verifiers
  {
    CountsMeans(events[i].env, events[i].pool);
    assert CountedAt(bucketOf, events, i, events[i].node, p);
    TallyVerifiers(bucketOf, events, events[i].node, p);
    assert events[i].env.sender in Attesters(bucketOf, events, events[i].node, p);
  }

  /**
   * An approval that is new to its node and makes as many distinct verifiers as were asked for first starts
   * an attempt to decide; no other attestation does.
   */
  lemma ApprovalAttempts(bucketOf: RaftDecide.Bucketing, events: seq<Event>, i: nat, p: Proposal)
    requires i < |events| && events[i].Attest? && FreshId(Run(bucketOf, events[..i]), events[i].id)
    requires events[i].env.needId == Some(p.0) && events[i].env.proposalId == Some(p.1) && p.0 != "" && p.1 != ""
    requires events[i].env.verdict == None || events[i].env.verdict == Some("approve")
    requires events[i].pool == NoPool || events[i].pool == LookupFailed || events[i].pool == InPool(true)
    ensures
      var before, s' := TalliesAt(Run(bucketOf, events[..i]), events[i].node), Run(bucketOf, events[..i + 1]);
      var t := if p in before then before[p] else Tally({}, KPlanFor(events[i].activeVerifiers));
      events[i].id in s'.jobs <==> |t.verifiers| < |t.verifiers + {events[i].env.sender}| == t.required
  {
    CountsMeans(events[i].env, events[i].pool);
    assert events[..i + 1][..i] == events[..i];
    AttestMoves(bucketOf, Run(bucketOf, events[..i]), events[i], events[i].node);
    RecordMeans(TalliesAt(Run(bucketOf, events[..i]), events[i].node), p, events[i].env.sender,
                KPlanFor(events[i].activeVerifiers));
  }

  /**
   * A stored decision says what one approving message `j` said, and the node that handled it has as many
   * distinct verifiers as it asked for, each of whom has sent it an approval of that very proposal.
   */
  lemma DecisionFromApprovals(bucketOf: RaftDecide.Bucketing, events: seq<Event>, key: string) returns (node: string, j: int)
    requires key in Run(bucketOf, events).raft.kv
    ensures
      var record := Run(bucketOf, events).raft.kv[key];
      && 0 <= j < |events| && events[j].Attest? && events[j].node == node
      && events[j].env.needId == Some(record.needId) && events[j].env.proposalId == Some(record.proposalId)
      && record.epoch == (if events[j].env.epoch == None then 1 else events[j].env.epoch.value)
      && record.lamport == events[j].env.lamport && record.kPlan == KPlanFor(events[j].activeVerifiers)
      && record.deciderId == "quorum-system" && record.timestampNs == events[j].now
    ensures
      var record := Run(bucketOf, events).raft.kv[key];
      var p, tallies := (record.needId, record.proposalId), TalliesAt(Run(bucketOf, events), node);
      && p in tallies && |tallies[p].verifiers| >= tallies[p].required >= 1
      && forall v :: v in tallies[p].verifiers ==>
           exists i :: && 0 <= i < |events| && events[i].Attest? && events[i].node == node && events[i].env.sender == v
                       && events[i].env.needId == Some(record.needId) && events[i].env.proposalId == Some(record.proposalId)
                       && (events[i].env.verdict == None || events[i].env.verdict == Some("approve"))
                       && (events[i].pool == NoPool || events[i].pool == LookupFailed || events[i].pool == InPool(true))
  {
    var id := StoredBy(bucketOf, events, key);
    var s := Run(bucketOf, events);
    var record := s.raft.kv[key];
    node := s.raft.calls[id].node;
    RunKeepsInvariant(bucketOf, events);
    assert Attempts(s, id, node, record);
    j := AttemptOrigin(bucketOf, events, id, node, record);
    forall v | v in TalliesAt(s, node)[Subject(record)].verifiers
      ensures exists i :: && 0 <= i < |events| && events[i].Attest? && events[i].node == node && events[i].env.sender == v
                          && events[i].env.needId == Some(record.needId) && events[i].env.proposalId == Some(record.proposalId)
                          && (events[i].env.verdict == None || events[i].env.verdict == Some("approve"))
                          && (events[i].pool == NoPool || events[i].pool == LookupFailed || events[i].pool == InPool(true))
    {
      var i := TalliedApproved(bucketOf, events, node, Subject(record), v);
    }
  }

  /** No two decided proposals for one need. */
  lemma OneDecisionPerNeed(bucketOf: RaftDecide.Bucketing, events: seq<Event>, k: string, l: string)
    requires k in Run(bucketOf, events).raft.kv && l in Run(bucketOf, events).raft.kv
    requires Run(bucketOf, events).raft.kv[k].needId == Run(bucketOf, events).raft.kv[l].needId
    ensures k == l
  {
    var a := StoredBy(bucketOf, events, k);
    var b := StoredBy(bucketOf, events, l);
  }

  /** A node attempts a proposal at most once. */
  lemma OneAttemptPerNode(bucketOf: RaftDecide.Bucketing, events: seq<Event>, a: nat, b: nat)
    requires a in Run(bucketOf, events).raft.calls && b in Run(bucketOf, events).raft.calls
    requires
      var calls := Run(bucketOf, events).raft.calls;
      calls[a].node == calls[b].node && Subject(calls[a].record) == Subject(calls[b].record)
    ensures a == b
  {
    RunKeepsInvariant(bucketOf, events);
    var s := Run(bucketOf, events);
    var call, other := s.raft.calls[a], s.raft.calls[b];
    assert Attempts(s, a, call.node, call.record) && Attempts(s, b, call.node, other.record);
  }

  ghost predicate Stored(s: State, p: Proposal)
  {
    exists key :: key in s.raft.kv && Subject(s.raft.kv[key]) == p
  }

  /** Another node's call for the same proposal has succeeded. */
  ghost predicate ElsewhereDecided(s: State, a: nat)
    requires a in s.raft.calls
  {
    exists b :: && RaftDecide.Succeeded(s.raft, b) && s.raft.calls[b].node != s.raft.calls[a].node
                && Subject(s.raft.calls[b].record) == Subject(s.raft.calls[a].record)
  }

  /** A refused proposal is stored all the same exactly if another node, with a quorum of its own, got it through. */
  lemma RefusedStoredIff(bucketOf: RaftDecide.Bucketing, events: seq<Event>, a: nat)
    requires a in Run(bucketOf, events).raft.calls
    requires Run(bucketOf, events).raft.calls[a].phase == RaftDecide.Returned(None)
    ensures
      var s := Run(bucketOf, events);
      Stored(s, Subject(s.raft.calls[a].record)) <==> ElsewhereDecided(s, a)
  {
    RunKeepsInvariant(bucketOf, events);
    var s := Run(bucketOf, events);
    var p := Subject(s.raft.calls[a].record);
    if Stored(s, p) {
      var key :| key in s.raft.kv && Subject(s.raft.kv[key]) == p;
      var id := StoredBy(bucketOf, events, key);
      if s.raft.calls[id].node == s.raft.calls[a].node {
        OneAttemptPerNode(bucketOf, events, a, id);
      }
    }
    if ElsewhereDecided(s, a) {
      var b :| RaftDecide.Succeeded(s.raft, b) && s.raft.calls[b].node != s.raft.calls[a].node
               && Subject(s.raft.calls[b].record) == p;
      var record := s.raft.calls[b].record;
      var key := RaftDecide.DecideKey(bucketOf, record.needId);
      assert RaftDecide.CallOk(bucketOf, s.raft, s.raft.calls[b]);
      assert RaftDecide.EntryOk(bucketOf, s.raft, key);
      RaftDecide.KeysDistinct(bucketOf, s.raft.kv[key].needId, record.needId);
    }
  }

  /** If only one node handles attestations, what is refused is never stored. */
  lemma RefusedForGood(bucketOf: RaftDecide.Bucketing, events: seq<Event>, node: string, a: nat)
    requires forall i :: 0 <= i < |events| && events[i].Attest? ==> events[i].node == node
    requires a in Run(bucketOf, events).raft.calls
    requires Run(bucketOf, events).raft.calls[a].phase == RaftDecide.Returned(None)
    ensures
      var s := Run(bucketOf, events);
      !Stored(s, Subject(s.raft.calls[a].record))
  {
    RefusedStoredIff(bucketOf, events, a);
    var s := Run(bucketOf, events);
    forall id | id in s.raft.calls ensures s.raft.calls[id].node == node {
      var call := s.raft.calls[id];
      assert Attempts(s, id, call.node, call.record);
      var j := AttemptOrigin(bucketOf, events, id, call.node, call.record);
    }
  }

  /** When a quorum completes, its node has counted exactly as many verifiers as its first attestation asked for. */
  lemma CompletionCount(bucketOf: RaftDecide.Bucketing, events: seq<Event>, i: int, j: int, node: string,
                        record: RaftDecide.DecideRecord)
    requires CompletesAt(bucketOf, events, j, node, record) && FirstAt(bucketOf, events, i, node, Subject(record))
    ensures i <= j && |Attesters(bucketOf, events[..j + 1], node, Subject(record))| == KPlanFor(events[i].activeVerifiers)
  {
    var p, upTo := Subject(record), events[..j + 1];
    assert i <= j;
    FirstPrefix(bucketOf, events, j + 1, i, node, p);
    CountedPrefix(bucketOf, events, j + 1, j, node, p);
    TallyVerifiers(bucketOf, upTo, node, p);
    TallyRequired(bucketOf, upTo, i, node, p);
    assert upTo[..j] == events[..j];
    TallyOneMore(bucketOf, upTo, node, p);
  }

  /**
   * A stored decision comes from one completing attestation `j`; the quorum size it records is the
   * number of verifiers counted then exactly if the pool asked for as many as at the first attestation `i`.
   */
  lemma RecordedSizeIff(bucketOf: RaftDecide.Bucketing, events: seq<Event>, key: string)
    returns (node: string, i: int, j: int)
    requires key in Run(bucketOf, events).raft.kv
    ensures
      var record := Run(bucketOf, events).raft.kv[key];
      var p := Subject(record);
      && FirstAt(bucketOf, events, i, node, p) && CompletesAt(bucketOf, events, j, node, record)
      && (record.kPlan == |Attesters(bucketOf, events[..j + 1], node, p)|
          <==> KPlanFor(events[j].activeVerifiers) == KPlanFor(events[i].activeVerifiers))
  {
    var id := StoredBy(bucketOf, events, key);
    var s := Run(bucketOf, events);
    var record := s.raft.kv[key];
    node := s.raft.calls[id].node;
    assert Attempts(s, id, node, record);
    j := AttemptOrigin(bucketOf, events, id, node, record);
    i := Earliest(bucketOf, events, j, node, Subject(record));
    CompletionCount(bucketOf, events, i, j, node, record);
  }

  // ---------- two runs ----------

  lemma RunStep(bucketOf: RaftDecide.Bucketing, before: seq<Event>, e: Event)
    ensures Run(bucketOf, before + [e]) == Step(bucketOf, Run(bucketOf, before), e)
  {
    assert (before + [e])[..|before|] == before;
  }

  /** A call goes from its job through the fence to a free key. */
  lemma RunDecision(bucketOf: RaftDecide.Bucketing, before: seq<Event>, id: nat)
    requires
      var s := Run(bucketOf, before);
      && id in s.jobs && id !in s.raft.calls && s.jobs[id].record.epoch >= RaftDecide.EpochOf(s.raft, s.jobs[id].node)
      && RaftDecide.DecideKey(bucketOf, s.jobs[id].record.needId) !in s.raft.kv
    ensures
      var s := Run(bucketOf, before);
      var s' := Run(bucketOf, before + [StartDecide(id), Raft(RaftDecide.ReadEpoch(id)), Raft(RaftDecide.CompareAndSet(id))]);
      var record := s.jobs[id].record;
      && s'.raft.kv == s.raft.kv[RaftDecide.DecideKey(bucketOf, record.needId) := record]
      && s'.trackers == s.trackers
      && forall other :: other in s.raft.calls ==> other in s'.raft.calls && s'.raft.calls[other] == s.raft.calls[other]
  {
    var a, b, c := StartDecide(id), Raft(RaftDecide.ReadEpoch(id)), Raft(RaftDecide.CompareAndSet(id));
    RunStep(bucketOf, before, a);
    RunStep(bucketOf, before + [a], b);
    RunStep(bucketOf, before + [a] + [b], c);
    assert before + [a] + [b] + [c] == before + [a, b, c];
    var s := Run(bucketOf, before);
    Started(bucketOf, s, id);
    Decides(bucketOf, Step(bucketOf, s, a), id);
  }

  lemma Started(bucketOf: RaftDecide.Bucketing, s: State, id: nat)
    requires id in s.jobs && id !in s.raft.calls
    ensures
      var s' := Step(bucketOf, s, StartDecide(id));
      var job := s.jobs[id];
      && s'.trackers == s.trackers && s'.raft.kv == s.raft.kv && s'.raft.epochs == s.raft.epochs
      && s'.raft.calls == s.raft.calls[id := RaftDecide.Call(job.node, job.record, RaftDecide.EpochOf(s.raft, job.node),
                                                             RaftDecide.Started)]
  {
  }

  lemma Decides(bucketOf: RaftDecide.Bucketing, s: State, id: nat)
    requires RaftDecide.InPhase(s.raft, id, RaftDecide.Started)
    requires s.raft.calls[id].record.epoch >= RaftDecide.EpochOf(s.raft, s.raft.calls[id].node)
    requires RaftDecide.DecideKey(bucketOf, s.raft.calls[id].record.needId) !in s.raft.kv
    ensures
      var s' := Step(bucketOf, Step(bucketOf, s, Raft(RaftDecide.ReadEpoch(id))), Raft(RaftDecide.CompareAndSet(id)));
      var record := s.raft.calls[id].record;
      && s'.raft.kv == s.raft.kv[RaftDecide.DecideKey(bucketOf, record.needId) := record] && s'.trackers == s.trackers
      && forall other :: other in s.raft.calls && other != id ==>
           other in s'.raft.calls && s'.raft.calls[other] == s.raft.calls[other]
  {
  }

  /** A call from a node that has moved on is refused. */
  lemma RunRefusal(bucketOf: RaftDecide.Bucketing, before: seq<Event>, id: nat)
    requires
      var s := Run(bucketOf, before);
      id in s.jobs && id !in s.raft.calls && s.jobs[id].record.epoch < RaftDecide.EpochOf(s.raft, s.jobs[id].node)
    ensures
      var s := Run(bucketOf, before);
      var s' := Run(bucketOf, before + [StartDecide(id), Raft(RaftDecide.ReadEpoch(id))]);
      && s'.raft.kv == s.raft.kv && s'.raft.epochs == s.raft.epochs && s'.jobs == s.jobs - {id}
      && s'.raft.calls.Keys == s.raft.calls.Keys + {id}
      && s'.raft.calls[id].record == s.jobs[id].record && s'.raft.calls[id].phase == RaftDecide.Returned(None)
  {
    var a, b := StartDecide(id), Raft(RaftDecide.ReadEpoch(id));
    RunStep(bucketOf, before, a);
    RunStep(bucketOf, before + [a], b);
    assert before + [a] + [b] == before + [a, b];
  }

  function Approval(needId: string, proposalId: string, sender: string): Envelope
  {
    Envelope("", sender, 0, None, Some(needId), Some(proposalId), None)
  }

  /** With a pool of one, a node's first attestation of a proposal completes the quorum. */
  lemma FirstCompletes(bucketOf: RaftDecide.Bucketing, s: State, id: nat, node: string, env: Envelope, now: int)
    requires Counts(env, NoPool) && FreshId(s, id) && node !in s.trackers
    ensures
      var s' := Step(bucketOf, s, Attest(id, node, env, NoPool, Some(1), now));
      && s'.jobs == s.jobs[id := Job(node, RecordFor(env, 1, now))] && s'.raft == s.raft
      && s'.trackers.Keys == s.trackers.Keys + {node}
  {
    assert |{} + {env.sender}| == 1;
  }

  /** A has moved on to the next epoch; a quorum of one is counted on either node. */
  lemma CountedOnBoth(bucketOf: RaftDecide.Bucketing, env: Envelope, now: int) returns (events: seq<Event>)
    requires Counts(env, NoPool)
    ensures
      var s, job := Run(bucketOf, events), RecordFor(env, 1, now);
      && s.jobs == map[0 := Job("A", job), 1 := Job("B", job)]
      && s.raft.calls == map[] && s.raft.kv == map[] && s.raft.epochs == map["A" := 2]
  {
    var advance, atA, atB := Raft(RaftDecide.AdvanceEpoch("A")), Attest(0, "A", env, NoPool, Some(1), now),
                             Attest(1, "B", env, NoPool, Some(1), now);
    RunStep(bucketOf, [], advance);
    var s0 := Run(bucketOf, [] + [advance]);
    assert s0.raft.epochs == map["A" := 2];
    RunStep(bucketOf, [] + [advance], atA);
    FirstCompletes(bucketOf, s0, 0, "A", env, now);
    RunStep(bucketOf, [] + [advance] + [atA], atB);
    FirstCompletes(bucketOf, Run(bucketOf, [] + [advance] + [atA]), 1, "B", env, now);
    events := [] + [advance] + [atA] + [atB];
  }

  /** A quorum of one on either node: A has moved on to the next epoch and refuses, B stores the proposal. */
  lemma RefusedHereStoredThere(bucketOf: RaftDecide.Bucketing, needId: string, proposalId: string, v: string, now: int)
    returns (events: seq<Event>)
    requires needId != "" && proposalId != ""
    ensures
      var s := Run(bucketOf, events);
      && 0 in s.raft.calls && s.raft.calls[0].phase == RaftDecide.Returned(None)
      && Subject(s.raft.calls[0].record) == (needId, proposalId) && Stored(s, (needId, proposalId))
  {
    var env := Approval(needId, proposalId, v);
    var counting := CountedOnBoth(bucketOf, env, now);
    RunRefusal(bucketOf, counting, 0);
    var refused := counting + [StartDecide(0), Raft(RaftDecide.ReadEpoch(0))];
    RunDecision(bucketOf, refused, 1);
    events := refused + [StartDecide(1), Raft(RaftDecide.ReadEpoch(1)), Raft(RaftDecide.CompareAndSet(1))];
    assert RaftDecide.DecideKey(bucketOf, needId) in Run(bucketOf, events).raft.kv;
  }

  lemma TwoRecords(p: Proposal, v: string, w: string)
    requires v != w
    ensures Record(map[], p, v, 2) == (map[p := Tally({v}, 2)], false)
    ensures Record(map[p := Tally({v}, 2)], p, w, 3) == (map[p := Tally({v, w}, 2)], true)
    ensures |{v, w}| == 2
  {
    assert {} + {v} == {v} && |{v}| == 1;
    assert {v} + {w} == {v, w} && |{v} + {w}| == 2;
    var none: Tallies := map[];
    var one: Tallies := map[p := Tally({v}, 2)];
    assert none[p := Tally({v}, 2)] == one;
    assert one[p := Tally({v, w}, 2)] == map[p := Tally({v, w}, 2)];
  }

  /** The pool grows from seven to ten between two attestations: two are counted, three are recorded. */
  lemma RecordedSizeDiffers(bucketOf: RaftDecide.Bucketing, needId: string, proposalId: string, v: string, w: string, now: int)
    returns (events: seq<Event>)
    requires needId != "" && proposalId != "" && v != w
    ensures
      var s := Run(bucketOf, events);
      var key := RaftDecide.DecideKey(bucketOf, needId);
      && key in s.raft.kv && s.raft.kv[key].kPlan == 3
      && (needId, proposalId) in TalliesAt(s, "A") && |TalliesAt(s, "A")[(needId, proposalId)].verifiers| == 2
  {
    var first, second := Approval(needId, proposalId, v), Approval(needId, proposalId, w);
    var p, a, b := (needId, proposalId), Attest(0, "A", first, NoPool, Some(7), now), Attest(1, "A", second, NoPool, Some(10), now);
    RunStep(bucketOf, [], a);
    RunStep(bucketOf, [] + [a], b);
    TwoRecords(p, v, w);
    AttestMoves(bucketOf, INITIAL, a, "A");
    AttestMoves(bucketOf, Run(bucketOf, [] + [a]), b, "A");
    var counting := [] + [a] + [b];
    RunDecision(bucketOf, counting, 1);
    events := counting + [StartDecide(1), Raft(RaftDecide.ReadEpoch(1)), Raft(RaftDecide.CompareAndSet(1))];
  }
}
