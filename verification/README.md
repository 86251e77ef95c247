# Verified model of the swarm coordination core

The project models four connected parts of the repository and two small components, and proves
properties of whole runs of them:

* **The replicated plan.** An operation log with derived tasks, edges and annotations; merging with a
  peer is a union by operation id, a stable sort by lamport and a replay from nothing. A second store
  keeps the same rows in SQL tables. Patches from several actors are merged with last-writer-wins
  rules and a depth-first cycle test (`PlanOps`, `StableSort`, `AutomergeStore`, `PlanConvergence`,
  `PlanNetwork`, `PlanMeaning`, `PlanTies`, `PlanTieGroups`, `SqlPlanStore`, `CycleDetection`, `Patches`,
  `PatchMerge`, `PatchWinners`, `MergedPlan`, `PatchReading`, `PatchedPlan`).
* **Merkle commitment.** The checkpoint tree and the thread tree, both repeating the last node of an
  odd level (`Merkle`, `CasMerkle`).
* **Deciding once.** Attestations are counted, the one that completes a quorum attempts a
  compare-and-set, epochs fence late attempts, a healed partition picks one of two decisions, and
  Lamport clocks order the messages (`Floats`, `Quorum`, `AttestPlan`, `RaftDecide`, `Epochs`, `PartitionMerge`,
  `LamportClock`).
* **The credit ledger.** Accounts with balance, locked and unbonding columns, escrows, unbonding
  records, slashing and an append-only audit log (`LedgerModel`, `LedgerLog`, `LedgerInvariants`,
  `LedgerEffects`, `SlashEffects`, `LedgerAudit`, `LedgerConservation`, `LedgerSubledgers`, `LedgerEscrows`,
  `SlashRuns`, `CreditLedger`, `Slashing`).
* **Message de-duplication** and **rate limiting** (`Deduplication`, `RateLimiter`).

Classes and methods follow the code that updates state in place; each is tied to a specification function, and
the theorems are about those functions and about runs of them. What the specification functions themselves do is
stated once more without them, in the fields of the inputs: for patches over their dictionaries
(`PatchReading`), for attestations over the message (`AttestPlan.HandleAttestPlan`, `DecisionFromApprovals`),
for the ledger in balances, records and log entries (`LedgerEffects`, `SlashEffects`), for decisions over epoch,
lamport, decider and proposal (`PartitionMerge.LocalWinsIff`, `RaftDecide.PastFenceSucceedsIff`). Concurrent
behaviour is a step system: the epoch read, the compare-and-set and the read-back of one decision are separate
steps that interleave with everybody else's; every node is a process with an epoch and a tracker of its own, and
a handler yields between counting and deciding; a slashing reads a stake, cuts it and pays rewards in steps
between which the ledger goes on. `dafny verify dfyconfig.toml` checks everything.

## Where the code and its own description part

Each of these is a theorem; most say exactly when the described behaviour holds.

* "Deterministic regardless of merge order" fails when operations of different replicas tie on lamport:
  `PlanConvergence.MergeCommutesIff` gives the condition for log and views together,
  `PlanTieGroups.StatesAgreeIff` for the derived state alone, and `PlanConvergence.TiedReplicasDisagree` two
  replicas that stay apart. Associativity and idempotence need no condition.
* Appending does not sort, so an append and a rebuild can show different rows:
  `PlanMeaning.AppendMatchesRebuildIff`, and `LateStateIsLost` for an example.
* The SQL store creates a row at lamport 0 before it updates it, so a first STATE with lamport 0 or less
  is lost there only: `SqlPlanStore.StoresAgreeIff`, and `StateAtZeroIsLost` for an example.
* Patch merging says that links are a set and that other operations are all kept, but it files both under
  (task, type), where the last one stays: `PatchWinners.AllLinksEmittedIff`, `AllOthersEmittedIff`,
  `LastLinkKept`, `LastOtherKept`, and `TwoLinksOneTask` and `TwoNotesOneTask` for examples.
* Patch merging tests links against each other and not against the plan they are applied to, so the patched
  plan can be cyclic: `PatchedPlan.PatchedPlanAcyclicIff`, and `PatchClosesCycle` for an example. It also keeps
  a STATE that names no state, which no store can replay: `MergedPlan.ReplayableIff`.
* Both Merkle trees hash a pair as one string, so characters can move between a leaf and its sibling: a
  prefix of a leaf is accepted as a leaf (`Merkle.ShiftedSplitAccepted`), and different lists share a root
  (`Merkle.RootClash`). With a digest that has no collisions among the strings actually hashed, a proof is
  sound exactly if the siblings have the right lengths (`Merkle.PositionSoundIff`); with digests of one
  length exactly if the leaf has (`Merkle.PositionSound`, `MembershipSound`, `Binding`). The thread verifier
  hashes the envelope itself, so there nothing is left to choose (`CasMerkle.EnvelopeSound`).
* A root does not fix the number of leaves (`Merkle.RepeatedLastLeaf`): of two lists of digests with equally
  high trees, `Merkle.SameRootIff` says when they share one, and `SizedBinding` that they are equal exactly if
  they are equally long. Proof checking does not look at the depth (`Merkle.InnerNodeAccepted`): what a path of
  any length proves is in `Merkle.NodeSound`.
* Rebuilding a Merkle tree from no leaves sets the empty root but keeps the old leaves and levels:
  `Merkle.ProofSelfVerifiesIff`, and `EmptyRebuildBreaksProofs` for an example. An index counted from the end
  is let through and gives the right proof exactly in trees without odd levels (`Merkle.NegativeIndexIff`).
* The fence is a read before the compare-and-set: a decision of an epoch that has meanwhile ended can
  still be stored. `RaftDecide.FenceHoldsIff` says exactly when it is not, `FenceIsNotAtomic` gives an example.
* A decision records the quorum size of the attestation that completed the quorum, while the count used
  the size given with the first attestation: `AttestPlan.RecordedSizeIff`, and `RecordedSizeDiffers` for an
  example.
* A completed quorum attempts its decision once on its node (`AttestPlan.OneAttemptPerNode`): what is fenced
  out there stays out (`RefusedForGood`), unless another node with a quorum of its own gets it through
  (`RefusedStoredIff`, `RefusedHereStoredThere`).
* Records that tie on epoch, lamport and decider make each side of a partition prefer the other's:
  `PartitionMerge.SidesAgreeIff`.
* The clock file may lag, so a restart can go back and a stamp come twice (`LamportClock.StampRepeats`):
  `StampsIncreaseIff` and `ClockConditionIff` say exactly which restarts do no harm, and `StampsFallBackLittle`
  that stamps never fall back by a whole batch.
* A reward to a missing account is logged but credited to nobody, so log and ledger differ and more is
  burned than reported: `LedgerAudit.LogDeterminesLedgerIff`, `LedgerConservation.SlashVerifiersBurnsIff`, and
  `LedgerAudit.MissingPayeeSplitsLogAndLedger` for an example.
* The slash amount is computed from a stake read before the slashing transaction. If stakes shrink in
  between, rewards can exceed what was cut and circulation the supply: `SlashRuns.OneSessionIff` says exactly
  when one slashing does not, `SupplyHoldsIff` keeps the books of any number of them, `SupplyHolds` names a
  condition that suffices, and `WithdrawnStakeMints` gives an example.
* Escrow and stake share the locked column: unstaking can strand an escrow
  (`LedgerEscrows.UnstakingStrandsEscrow`), and `SettlingSucceedsIff` says which escrows can be settled.

## Model

| member | source | states |
|---|---|---|
| StableSort.SortFacts | src/plan/automerge_store.py:292-293 | The stable sort used by the merge is sorted, keeps the elements and keeps the order inside every run of ties. |
| StableSort.SortedUnique | src/plan/automerge_store.py:292-293 | A sorted list is determined by its tie groups: two sorted lists with the same groups are equal. |
| StableSort.SortedPermutationUnique | src/plan/patching.py:229 | Where no two elements tie, sorting forgets the order of the input. |
| AutomergeStore.AutomergePlanStore.constructor | src/plan/automerge_store.py:45-71 | A new store has an empty log, empty views and version 0. |
| AutomergeStore.AutomergePlanStore.AppendOp | src/plan/automerge_store.py:78-111 | Appends unless the id is known, in which case nothing changes; the views stay the log's replay and the version counts effective appends. |
| AutomergeStore.AutomergePlanStore.ApplyToState | src/plan/automerge_store.py:113-175 | One operation on tasks, edges and annotations is `PlanOps.Apply`; the log is untouched. |
| AutomergeStore.WriteEntries | src/plan/automerge_store.py:161-175 | An annotation writes every key of its payload whose held lamport is older, in whatever order the keys are visited. |
| AutomergeStore.AutomergePlanStore.MergeWithPeer | src/plan/automerge_store.py:266-301 | The log becomes the union by id sorted stably by lamport, the id index and the views follow it, the version grows by one. |
| AutomergeStore.AutomergePlanStore.RebuildStateFromOps | src/plan/automerge_store.py:303-326 | The views become the replay of the log from empty. |
| PlanConvergence.MergeKeepsIds | src/plan/automerge_store.py:266-301 | Merging logs with unique ids gives a log with unique ids. |
| PlanConvergence.MergeContents | src/plan/automerge_store.py:266-301 | A merged log is sorted, knows exactly the ids of both sides, and takes the local operation where ids clash. |
| PlanConvergence.MergeAssociative | src/plan/automerge_store.py:266-326 | Regrouping merges gives the same log, tasks, edges and annotations, for all logs. |
| PlanConvergence.MergeIdempotent | src/plan/automerge_store.py:266-326 | Merging the same peer again, or merging back, changes nothing, for all logs. |
| PlanConvergence.MergeCommutesIff | src/plan/automerge_store.py:266-326 | Merging in either direction gives the same log and views exactly when inside every lamport tie one log continues the other. |
| PlanTieGroups.StatesAgreeIff | src/plan/automerge_store.py:266-326 | The derived state alone, up to the order in which children are listed, is the same in both directions exactly when, in the tie groups of the two logs that open a task, close it or write an annotation last, the first operations of either log say the same. |
| PlanTieGroups.FirstOfMerge | src/plan/automerge_store.py:277-293 | In a tie group of a merge the local log's operations come first, of any kind. |
| PlanTies.RowDecided | src/plan/automerge_store.py:121-147 | For every log, two of its operations determine a row: the first on the task gives thread and type, the deciding one state and lamport. |
| PlanTies.NoteDecided | src/plan/automerge_store.py:161-175 | For every log, an annotation key shows the first of its highest-lamport writes. |
| PlanTies.DecidersTie | src/plan/automerge_store.py:266-326 | In two orders of the same operations the deciding operations have one lamport: only ties can make them differ. |
| PlanConvergence.MergeCommutes | src/plan/automerge_store.py:266-326 | With lamports that never tie, merging is commutative on log and views. |
| PlanConvergence.SameOpsSameDocument | src/plan/automerge_store.py:266-326 | Two merged logs with the same operations show the same document. |
| PlanConvergence.TiedReplicasDisagree | src/plan/automerge_store.py:266-326 | Two concurrent STATE writes with one lamport leave merged replicas with different task tables. |
| PlanNetwork.RunInvariant | src/plan/automerge_store.py:230-301 | In every run of appends, saves, merges and loads, of saves however old, each log, held or saved, has unique ids and holds only operations somebody appended. |
| PlanNetwork.OldSaveChangesNothing | src/plan/automerge_store.py:266-301 | Merging a save that holds nothing new changes the log exactly if it was not in lamport order. |
| PlanNetwork.ReplicasConverge | src/plan/automerge_store.py:266-326 | In every such run, replicas that know the same ids and last merged are identical. |
| PlanNetwork.ExchangeConverges | src/plan/automerge_store.py:266-326 | After any run, two replicas that merge each other's present saves are identical. |
| PlanMeaning.RowsMean | src/plan/automerge_store.py:121-147 | For every log: a task exists exactly if some ADD_TASK or STATE names it, its thread and type come from the first such operation, and its state and lamport from one that is in the log. |
| PlanMeaning.SortedRowState | src/plan/automerge_store.py:132-147 | In lamport order a task shows its highest-lamport STATE, or DRAFT if it has none. |
| PlanMeaning.EdgesMean | src/plan/automerge_store.py:149-159 | For every log, a parent's children are exactly the linked ones, each once. |
| PlanMeaning.NotesMean | src/plan/automerge_store.py:161-175 | For every log in any order, each annotation key holds its highest-lamport write and no other keys exist. |
| PlanMeaning.MergeMeans | src/plan/automerge_store.py:266-326 | All three readings, for the result of a merge, in terms of the operations of both logs: which tasks, children and annotation keys exist, and what they hold. |
| PlanMeaning.InOrderAppendsNeedNoRebuild | src/plan/automerge_store.py:78-111 | A log appended in nondecreasing lamport order already shows what a rebuild would. |
| PlanMeaning.AppendMatchesRebuildIff | src/plan/automerge_store.py:303-326 | For any log with distinct lamports, a task's appended row equals the rebuilt one exactly when its first operation stands for the oldest one. |
| PlanMeaning.LateStateIsLost | src/plan/automerge_store.py:78-111 | A STATE appended after a newer ADD_TASK shows after a rebuild and not before. |
| SqlPlanStore.PlanStore.AppendOp | src/plan_store.py:101-125 | A duplicate id fails and changes nothing; otherwise log and tables advance together. |
| SqlPlanStore.PlanStore.ApplyOp | src/plan_store.py:127-168 | The INSERT OR IGNORE and guarded UPDATE statements are the specification `ApplySql` of the two tables. |
| SqlPlanStore.EdgesAgree | src/plan_store.py:159-168 | Both stores hold the same edges after every log. |
| SqlPlanStore.StepAgreesIff | src/plan_store.py:127-157 | From equal task tables one operation keeps them equal exactly when it is not a first STATE with a lamport of at most 0. |
| SqlPlanStore.StoresAgreeIff | src/plan_store.py:127-168 | The stores agree after every prefix of a log exactly when no operation is swallowed that way. |
| SqlPlanStore.StateAtZeroIsLost | src/plan_store.py:138-157 | A first STATE at lamport 0 shows in the replicated store and not in the SQL store. |
| SqlPlanStore.PositiveLamportsAgree | src/plan_store.py:127-168 | With lamports of at least 1 both stores show the same rows and edges, for every log. |
| SqlPlanStore.LastLamportMonotone | src/plan_store.py:148-157 | In both stores rows are never removed and last_lamport never decreases. |
| CycleDetection.HasCycleFrom | src/plan/patching.py:184-197 | The depth-first search with its two mutable sets finds a cycle only if there is one, and otherwise leaves its visited nodes finished. |
| CycleDetection.BuildGraph | src/plan/patching.py:175-182 | The adjacency map represents exactly the edges. |
| CycleDetection.DetectCycle | src/plan/patching.py:164-206 | Terminates, and returns true exactly when the edges with the new one contain a directed cycle, self-loops included. |
| CycleDetection.FinishNode | src/plan/patching.py:189-197 | Why the search may remove a node from its stack: with finished successors it lies on no cycle. |
| CycleDetection.FewerEdgesStayAcyclic | src/plan/patching.py:278-291 | Dropping edges creates no cycle. |
| Patches.ValidatePatch | src/plan/patching.py:59-115 | Accepts exactly the valid patches, and otherwise names the first entry at fault: each error holds of the patch, the four about the patch itself come first, and none holds of an accepted one. |
| Patches.ValidIsMergeable | src/plan/patching.py:59-115 | What passes validation has every field the merge looks up. |
| PatchMerge.MergePatches | src/plan/patching.py:208-335 | For every list of patches: sort, track, emit; raises for a missing field at once and for an unknown type in the end, for exactly the inputs that have them, and otherwise returns the specification `MergeResult`. What that is, in the dictionaries of the patches, is in the `PatchReading` rows. |
| PatchMerge.MergePatch | src/plan/patching.py:239-299 | One patch's operations are taken into the tracker in order, up to the first that lacks a field. |
| PatchMerge.TrackPatches | src/plan/patching.py:239-299 | The loop over the sorted patches finds the faults of all of them, and tracks them if there are none. |
| PatchMerge.TakeEntry | src/plan/patching.py:240-299 | One operation: newer ADD_TASK and STATE replace older ones, a LINK is kept if it closes no cycle, anything else overwrites its key. |
| PatchMerge.EmitEntries | src/plan/patching.py:303-333 | Emission numbers what was kept consecutively, after what was emitted before. |
| PatchMerge.SortedMaxBase | src/plan/patching.py:237 | The first emitted lamport does not depend on the order of the patches. |
| PatchMerge.MaxBaseBounds | src/plan/patching.py:237 | Emitted lamports start above every base lamport, by one for the highest. |
| PatchWinners.BestAddKept | src/plan/patching.py:245-260 | Per task the ADD_TASK kept is the best one: a later entry displaces it only with a strictly higher base lamport. |
| PatchWinners.BestStateKept | src/plan/patching.py:262-276 | The same for STATE, while LINKs and other operations share the dictionary. |
| PatchWinners.BestIsFirstHighest | src/plan/patching.py:245-276 | The entry kept is the first one that has the highest base lamport under its key. |
| PatchWinners.BestWins | src/plan/patching.py:228-276 | Taken in merge order, the winner has the highest base lamport and among equals the smallest actor. |
| PatchWinners.WinnerAmongPatches | src/plan/patching.py:228-276 | For every list of patches: the winning ADD_TASK or STATE of a task is the first operation on its key in a patch that no patch with such an operation outranks, and there is a winner exactly if there is such an operation; patches the merge cannot read make it fail and so have none. |
| PatchWinners.MergeOrderFacts | src/plan/patching.py:228-240 | Operations are taken by base lamport, then actor, and are exactly those of the patches. |
| PatchWinners.MergeOrderFree | src/plan/patching.py:208-335 | If (base lamport, actor) identifies a patch, the result does not depend on the order of the input. |
| PatchWinners.LinksStayAcyclic | src/plan/patching.py:278-291 | The accepted links are acyclic and every emitted LINK is among them, whatever the patches say. |
| PatchWinners.DroppedLinksCloseCycles | src/plan/patching.py:284-291 | Every LINK left out would close a cycle with the accepted ones. |
| PatchWinners.LastLinkKept | src/plan/patching.py:278-291 | Of the accepted links of a task only the last is emitted. |
| PatchWinners.AllLinksEmittedIff | src/plan/patching.py:278-291 | Every accepted link is emitted exactly when no task carries two different ones. |
| PatchWinners.TwoLinksOneTask | src/plan/patching.py:278-291 | A task with two accepted links loses the first. |
| PatchWinners.LastOtherKept | src/plan/patching.py:293-299 | Of the ANNOTATEs, REQUIRES and PRODUCES of a task only the last of each type in merge order survives. |
| PatchWinners.AllOthersEmittedIff | src/plan/patching.py:293-299 | All of them survive exactly when no task carries two different ones of one type. |
| PatchWinners.TwoNotesOneTask | src/plan/patching.py:293-299 | Of two different annotations of one task the first is lost. |
| PatchWinners.SurvivorsOrder | src/plan/patching.py:302-320 | All ADD_TASKs are emitted first, and no key twice. |
| PatchWinners.EmitFacts | src/plan/patching.py:303-333 | The i-th kept entry is emitted with the i-th lamport, its own task, body and actor. |
| MergedPlan.ReplayableIff | src/plan/patching.py:262-276 | A STATE without a state is merged like any other; the output can be replayed exactly if no such STATE wins. |
| MergedPlan.MergedTasks | src/plan/patching.py:208-335 | Replaying the merge result from an empty store shows exactly the winners: which tasks exist, the state of each and its type. |
| MergedPlan.MergedPlanIsAcyclic | src/plan/patching.py:278-333 | The dependency graph of the result, replayed alone, has no cycle, for every list of patches. |
| MergedPlan.ViewEdgesCome | src/plan/automerge_store.py:149-159 | Its edges are exactly the emitted LINKs. |
| PatchReading.MergedTaskReads | src/plan/patching.py:208-335 | For valid patches, over their dictionaries: the result can be replayed; a task exists exactly if some patch has an ADD_TASK or STATE entry on it; its state is `payload["state"]` of the first STATE entry in the patch with the highest base lamport, among equals the smallest actor, among equals the one given first, and DRAFT without any; its type is `payload.get("type")` of the ADD_TASK entry found the same way. |
| PatchReading.EmittedReads | src/plan/patching.py:301-335 | Every operation that comes out has the type and the payload fields of an input entry on the same task, the actor of its patch, the thread "merged" and time 0; lamports are consecutive from one above the highest base. |
| PatchReading.EntryEmitted | src/plan/patching.py:245-299 | Of the ADD_TASK and of the STATE entries of a task the one that prevails comes out, of the ANNOTATE, REQUIRES and PRODUCES entries the last one in merge order, and nothing else of the type on that task. |
| PatchReading.LinkEmitted | src/plan/patching.py:278-291 | If the edges that all LINK entries name form no cycle, the last LINK entry of each task in merge order comes out, and no other on that task. |
| PatchReading.EntriesExist | src/plan/patching.py:228-240 | If any patch has an entry of a type on a task, one entry prevails over all others and one comes last. |
| PatchReading.MergeFailsIff | src/plan/patching.py:241-283 | The merge fails on a missing field exactly if an entry lacks its type, its task or an end of its LINK, otherwise on an unknown type exactly if there is one, and never on valid patches. |
| PatchedPlan.PatchedPlanAcyclicIff | src/plan/patching.py:278-291 | Applied to a plan with links of its own, the result has no cycle exactly if the plan had none and no emitted LINKs lead round to each other through paths of the plan. |
| PatchedPlan.CyclicUnionIff | src/plan/patching.py:164-206 | Two sets of edges have a cycle together exactly if the first has one or edges of the second lead round to each other over it. |
| PatchedPlan.PatchClosesCycle | src/plan/patching.py:278-291 | A valid patch with one LINK makes a plan with one opposite link cyclic. |
| Merkle.MerkleTree.BuildTree | src/checkpoint/merkle.py:38-85 | Stores all levels and returns the root: the leaves below, each node the digest of the two below it, the last of an odd level taken twice, the root alone on top; without leaves only the root changes, to the digest of the empty string. |
| Merkle.StackLevels | src/checkpoint/merkle.py:55-79 | The loop stacks the levels up to the root. |
| Merkle.LevelsMean | src/checkpoint/merkle.py:55-79 | The specification `Levels` is that tree, node by node, and `Root` its top. |
| Merkle.MerkleTree.GetProof | src/checkpoint/merkle.py:87-134 | For every integer index: None past the end or without a tree, an IndexError where a look-up counted from the end fails, and otherwise what the walk collects, under the root of the last build; within range the index, its leaf, its path and the stored root. |
| Merkle.CollectSiblings | src/checkpoint/merkle.py:103-127 | The walk over the stored levels is `Walk`, Python indexing included. |
| Merkle.WalkIsPath | src/checkpoint/merkle.py:103-127 | From an index within range the walk collects the leaf's path. |
| Merkle.NegativeIndexIff | src/checkpoint/merkle.py:103-127 | From an index counted from the end it collects the path of that leaf exactly if the number of leaves is a power of two. |
| Merkle.ProofSelfVerifiesIff | src/checkpoint/merkle.py:48-51 | After any builds, a proof verifies against the root it carries exactly if the last build had leaves or the stored tree happens to have the root of the empty one. |
| Merkle.EmptyRebuildBreaksProofs | src/checkpoint/merkle.py:48-51 | After building from two leaves and then from none, the proofs still served are rejected. |
| Merkle.MerkleTree.VerifyProof | src/checkpoint/merkle.py:136-171 | Accepts exactly the proofs for this leaf hash whose climb ends in the given root. |
| Merkle.AcceptsIff | src/checkpoint/merkle.py:149-171 | Accepted means: the leaf hash is the proof's, and there is a chain of hashes from it to the root, each the digest of the one before and the next sibling, on the side that the sibling names. |
| Merkle.Completeness | src/checkpoint/merkle.py:87-171 | Every leaf's proof leads to the root, odd levels included. |
| Merkle.HeightBounds | src/checkpoint/merkle.py:59-79 | The height d of a tree with n leaves satisfies n <= 2^d, and 2^(d-1) < n when n > 1. |
| Merkle.PathLength | src/checkpoint/merkle.py:106-126 | Every proof has exactly the tree's height many siblings. |
| Merkle.MembershipSound | src/checkpoint/merkle.py:136-171 | A proof of the tree's height over digest-sized leaves, whichever sides it claims, is accepted for one of the leaves exactly if it is for a digest-sized one; no two strings hashed on the way may collide. |
| Merkle.PositionSoundIff | src/checkpoint/merkle.py:136-171 | Whatever the lengths: it is so exactly if each sibling has the length of the tree's own. |
| Merkle.PositionSound | src/checkpoint/merkle.py:136-171 | With digests of one length, a proof with the sides of position i that leads to the root is for leaf i with the tree's own siblings exactly if the leaf has the length of leaf i. |
| Merkle.Binding | src/checkpoint/merkle.py:38-85 | Lists of equally many leaves with one root are equal exactly if their leaves have equal lengths. |
| Merkle.SizedBinding | src/checkpoint/merkle.py:38-85 | Lists of digests with one root are equal exactly if they are equally long. |
| Merkle.SameRootIff | src/checkpoint/merkle.py:59-79 | Lists of digests of any lengths whose trees are equally high have one root exactly if repeating the last node of each odd level makes the same full tree of both. |
| Merkle.NodeSound | src/checkpoint/merkle.py:136-171 | A shorter path is accepted for a node as many levels up as it is too short exactly if it is for a digest-sized one. |
| Merkle.ShiftedSplitAccepted | src/checkpoint/merkle.py:185-197 | Because a pair is hashed as one string, every proper prefix of a left leaf is accepted, the rest moved into its sibling. |
| Merkle.RootClash | src/checkpoint/merkle.py:185-197 | Two different lists of two leaves have one root under every digest. |
| Merkle.RepeatedLastLeaf | src/checkpoint/merkle.py:59-79 | An odd list and the same list with its last leaf repeated have one root. |
| Merkle.InnerNodeAccepted | src/checkpoint/merkle.py:136-171 | A node one level up is accepted as a leaf, because the depth is not checked. |
| CasMerkle.BuildTree | src/cas/merkle_proof.py:36-75 | The second implementation builds the levels of the first. |
| CasMerkle.LevelsEndInRoot | src/cas/merkle_proof.py:78-82 | The last level is the root alone, or empty without leaves. |
| CasMerkle.GetRoot | src/cas/merkle_proof.py:78-82 | None without leaves, otherwise the first implementation's root. |
| CasMerkle.BuildProof | src/cas/merkle_proof.py:85-148 | Fails exactly out of range; otherwise root, siblings and directions spell out the first implementation's proof. |
| CasMerkle.WalkUp | src/cas/merkle_proof.py:106-135 | The walk from leaf to root collects the first implementation's siblings with their directions. |
| CasMerkle.VerifyProof | src/cas/merkle_proof.py:151-200 | Accepts exactly if the envelope hashes to the target and the climb over both lists, cut at the shorter, ends in the root. |
| CasMerkle.VerifiersAgree | src/cas/merkle_proof.py:151-200 | Both verifiers climb to the same hash from the same siblings and directions. |
| CasMerkle.ProofsVerifyInBoth | src/cas/merkle_proof.py:85-200 | Every proof built here is accepted by both implementations. |
| CasMerkle.DirectionsMean | src/cas/merkle_proof.py:106-135 | The k-th direction of a proof is "left" where the ancestor k levels up stands at an even index, and "right" otherwise. |
| CasMerkle.ZipStops | src/cas/merkle_proof.py:177-195 | Of lists of siblings and directions of unequal length the surplus is ignored. |
| CasMerkle.EnvelopeSound | src/cas/merkle_proof.py:151-200 | The verifier hashes the envelope itself, so a proof with the directions of position i is accepted only for an envelope that hashes like that one and only with the tree's own siblings. |
| CasMerkle.EnvelopeMember | src/cas/merkle_proof.py:151-200 | A proof as high as the tree is accepted only for an envelope that hashes like one of the thread. |
| CasMerkle.VerifyEnvelopeInThread | src/cas/merkle_proof.py:219-246 | True exactly when the index is in range and the envelope hashes like the one at that position. |
| Epochs.ParseOfPrint | src/consensus/epochs.py:119-136 | Printing and parsing an epoch number are inverse. |
| Epochs.SplitAtDash | src/consensus/epochs.py:133 | Splitting at dashes takes off a first part without dashes. |
| Epochs.TokenAcceptedIff | src/consensus/epochs.py:104-139 | A token made for an epoch is accepted exactly if that epoch is not negative and not behind the current one. |
| Epochs.EpochManager.constructor | src/consensus/epochs.py:65-82 | Holds and stores the row it finds, or epoch 1, started now by "system". |
| Epochs.EpochManager.AdvanceEpoch | src/consensus/epochs.py:141-163 | The epoch grows by one, starts now, and is persisted. |
| Epochs.EpochManager.CreateFenceToken | src/consensus/epochs.py:104-119 | Prints the given or the current epoch with the start time. |
| Epochs.EpochCounts | src/consensus/epochs.py:65-163 | Over any run with restarts, which have only the stored row to go by, the epoch in memory and on disk is the one first stored, or 1, plus the number of advances. |
| Epochs.TokenFreshIff | src/consensus/epochs.py:104-163 | A token issued anywhere in a run is accepted at its end exactly when no advance came after it. |
| RaftDecide.KeysDistinct | src/consensus/raft_adapter.py:54-80 | Two needs share a key exactly if they are the same need, however they hash to buckets. |
| RaftDecide.EtcdClient.CreateIfAbsent | src/consensus/raft_adapter.py:107-128 | The transaction stores the value and succeeds exactly if the key is absent. |
| RaftDecide.RaftConsensusAdapter.TryDecide | src/consensus/raft_adapter.py:82-148 | Run alone, in the fields of the record: behind the epoch nothing happens; a free key is taken; a key that holds the same proposal and epoch is confirmed with the record, any other refused, the store unchanged. |
| RaftDecide.RaftConsensusAdapter.GetDecide | src/consensus/raft_adapter.py:150-167 | Returns the stored record, if any. |
| RaftDecide.LoneCall | src/consensus/raft_adapter.py:82-148 | The steps of an uninterrupted call in the concurrent system do what the method does. |
| RaftDecide.CallsKeepRecords | src/consensus/raft_adapter.py:82-148 | Steps of the system start calls only by Begin and never change what a call asked for. |
| RaftDecide.RunKeepsInvariant | src/consensus/raft_adapter.py:82-148 | In every interleaving: keys belong to their records, successful calls agree with the store, and epochs read are current ones. |
| RaftDecide.DecisionsAreFinal | src/consensus/raft_adapter.py:107-148 | A stored decision never changes, however the run goes on. |
| RaftDecide.Agreement | src/consensus/raft_adapter.py:82-148 | All successful calls for one need return the same proposal and epoch, which is the stored one, and that epoch is at least the one current when the call began. |
| RaftDecide.PastFenceSucceedsIff | src/consensus/raft_adapter.py:103-148 | In every run, a call that passed the fence and has returned got a record exactly if the decision stored under its need has its proposal and its epoch. |
| RaftDecide.FenceRefusesIff | src/consensus/raft_adapter.py:98-101 | In every run, the fence refuses a call exactly if its epoch is below 1 plus the advances its node has made. |
| RaftDecide.FenceHoldsIff | src/consensus/raft_adapter.py:110-139 | What a call stores after passing the fence is up to date at that moment exactly if its node's epoch advanced in between at most as often as the record was ahead of it. |
| RaftDecide.FenceIsNotAtomic | src/consensus/raft_adapter.py:98-128 | A run in which the epoch advances between the check and the transaction stores a decision of the old epoch. |
| Quorum.QuorumState.AddAttestation | src/consensus/quorum.py:28-48 | Adds the verifier; true exactly when this call took the count over the threshold. |
| Quorum.QuorumTracker.RecordAttestation | src/consensus/quorum.py:63-88 | The first attestation of a proposal fixes its threshold; all other proposals keep their tallies. |
| Quorum.QuorumTracker.CheckQuorum | src/consensus/quorum.py:90-103 | True exactly if the proposal is known and has its quorum. |
| Quorum.RecordMeans | src/consensus/quorum.py:28-88 | One attestation adds its verifier to the proposal's tally, which otherwise starts empty with the size given now, and completes it exactly if the verifier is new and makes as many as were asked for first. |
| Quorum.TalliesMean | src/consensus/quorum.py:63-88 | After any history a tally is the set of distinct attesters and the threshold given with the first attestation. |
| Quorum.CompletesIff | src/consensus/quorum.py:28-48 | A call returns true exactly if it brings the distinct attesters to the proposal's threshold. |
| Quorum.CompletesOnce | src/consensus/quorum.py:63-88 | No proposal's quorum is announced twice in any history. |
| Quorum.RoundingKeepsKPlan | src/consensus/quorum.py:111-131 | Computing the share of the active verifiers in binary floats, rounded to nearest, gives the quorum size of exact arithmetic, for every number of verifiers. |
| AttestPlan.KPlanFor | src/consensus/quorum.py:111-131 | The quorum size: 1 below 7 active verifiers, 2 below 10, 3 below 14, 4 below 17 and 5 from there, 10 being assumed if the number is not known. |
| AttestPlan.Screen | src/handlers/attest_plan.py:20-82 | An attestation passes exactly if need and proposal are given and not empty, the verdict is absent or "approve", and the pool does not call the sender absent or inactive. |
| AttestPlan.HandleAttestPlan | src/handlers/attest_plan.py:20-170 | The handler run alone, in the fields of the message, on either adapter or with none configured: what Screen turns away has no effect; an approval is tallied and stored as an annotation with its fields; exactly a stored approval that completes the quorum asks the adapter, with a record of the message's fields, for the outcome that the stored decision and the epoch determine. |
| AttestPlan.HandleCounted | src/handlers/attest_plan.py:83-170 | Counting comes before storing, and only a stored, completing attestation reaches the adapter that the flag selects. |
| AttestPlan.RunKeepsInvariant | src/handlers/attest_plan.py:83-161 | In every interleaving of handlers and decision steps on any number of nodes, each with its own tracker, every attempt is about a proposal that has its quorum at the attempting node, and no node attempts a proposal twice. |
| AttestPlan.TallyVerifiers | src/handlers/attest_plan.py:83-89 | In every run a node's tally of a proposal is exactly the set of verifiers whose approvals it has counted. |
| AttestPlan.TallyRequired | src/handlers/attest_plan.py:83-89 | Its quorum size is the one the first counted approval asked for. |
| AttestPlan.AttemptOrigin | src/handlers/attest_plan.py:118-154 | Every attempt was asked for by an approval that completed the quorum of its node. |
| AttestPlan.QuorumBeforeDecision | src/handlers/attest_plan.py:83-161 | Every stored decision names a proposal for which one node has counted at least as many distinct verifiers as it first asked for, and at least one; that each of them approved is DecisionFromApprovals. |
| AttestPlan.DecisionFromApprovals | src/handlers/attest_plan.py:34-161 | In every run a stored decision carries the need, proposal, epoch (1 if absent) and lamport of one message, and its node has at least as many distinct verifiers tallied as required, each of whom sent it a message with that need and that proposal, a verdict absent or "approve", and a pool that did not turn the sender away. |
| AttestPlan.TalliedApproved | src/handlers/attest_plan.py:34-89 | Whoever is tallied for a proposal at a node has sent it such an approval of that proposal. |
| AttestPlan.ApprovalTallied | src/handlers/attest_plan.py:34-89 | And every such approval, handled under an id not in use, is tallied for good. |
| AttestPlan.ApprovalAttempts | src/handlers/attest_plan.py:83-154 | An approval starts an attempt to decide exactly if its verifier is new to the node's tally and makes as many as the first attestation asked for. |
| AttestPlan.OneDecisionPerNeed | src/handlers/attest_plan.py:112-161 | Each need has at most one stored decision. |
| AttestPlan.OneAttemptPerNode | src/handlers/attest_plan.py:118-161 | A node attempts a proposal at most once. |
| AttestPlan.RefusedStoredIff | src/handlers/attest_plan.py:118-161 | A proposal refused at one node is stored exactly if another node, with a quorum of its own, got it through. |
| AttestPlan.RefusedForGood | src/handlers/attest_plan.py:118-161 | With a single node, what is refused is never stored. |
| AttestPlan.RefusedHereStoredThere | src/handlers/attest_plan.py:118-161 | A run in which one node refuses a proposal and another stores it. |
| AttestPlan.CompletionCount | src/handlers/attest_plan.py:83-89 | When a quorum completes, its node has counted exactly as many verifiers as its first approval asked for. |
| AttestPlan.RecordedSizeIff | src/handlers/attest_plan.py:132-140 | In every run, the quorum size a stored decision records is the number counted at completion exactly if the pool asked for as many then as at the first approval. |
| AttestPlan.RecordedSizeDiffers | src/handlers/attest_plan.py:132-140 | A run in which the pool grows in between: two are counted, three are recorded. |
| PartitionMerge.BeatsIsStrictOrder | src/consensus/merge.py:39-74 | The comparison is a strict order, total on records that differ in epoch, lamport or decider. |
| PartitionMerge.LocalWinsIff | src/consensus/merge.py:39-74 | The local record wins exactly if its epoch is higher, or at equal epochs its lamport, or at equal both its decider smaller, missing fields counting as 0, 0 and empty; the record chosen is outranked by neither. |
| PartitionMerge.SidesAgreeIff | src/consensus/merge.py:39-74 | Both sides pick the same record exactly if the ranks differ or the records are equal. |
| PartitionMerge.MergeOnHeal | src/consensus/merge.py:76-120 | Reports one conflict for each need that the last records of both sides decide differently, and no other, with both records, and the local side as winner exactly if its record outranks the other by epoch, lamport and decider; the defaults for missing fields included. |
| PartitionMerge.HealingIsSymmetric | src/consensus/merge.py:76-120 | The other side reports the same needs, and the same winner exactly where ranks differ. |
| PartitionMerge.WinnerBeatsAll | src/consensus/merge.py:39-74 | Folding any number of partitions yields the record that beats all others. |
| PartitionMerge.HighestRemains | src/consensus/merge.py:39-74 | The record left after folding any number of partitions is one of them and outranked by none: highest epoch, among those highest lamport, among those smallest decider. |
| PartitionMerge.HealingOrderFree | src/consensus/merge.py:39-74 | The order in which partitions heal does not matter. |
| LamportClock.Lamport.Tick | src/lamport.py:42-60 | Adds one; writes exactly at the hundredth pending tick or a second after the last write; counter minus file is the number of pending ticks, below the batch size. |
| LamportClock.Lamport.Observe | src/lamport.py:62-73 | Exactly one more than the larger of both values, written at once. |
| LamportClock.Lamport.Flush | src/lamport.py:75-80 | Afterwards the file holds the counter; the write time moves only if something was pending. |
| LamportClock.Lamport.FlushUnsafe | src/lamport.py:82-90 | The same from inside a tick, where the batch may just be full. |
| LamportClock.Lamport.Restart | src/lamport.py:33-40 | A restart keeps the clock exactly if nothing was pending, and loses less than a batch. |
| LamportClock.StampsPositive | src/envelope.py:38 | Messages carry positive stamps when clocks start from nonnegative values. |
| LamportClock.RunSound | src/lamport.py:33-90 | In every run with flushes and restarts a process's file lags behind its clock by less than a batch. |
| LamportClock.EventTicks | src/envelope.py:82-88 | Every send and receive moves its process's clock past the value just before, and a receive past the stamp received. |
| LamportClock.StampsIncreaseIff | src/lamport.py:33-90 | In every run a process's stamps increase exactly if each of its restarts finds nothing pending, or is followed, before any send, by a message stamped at least as high as the clock it lost. |
| LamportClock.ClockConditionIff | src/envelope.py:82-88 | Happens-before, through any chain of program order and delivery, implies a strictly smaller clock value exactly if all restarts of the run are harmless in this sense. |
| LamportClock.ClockCondition | src/envelope.py:82-88 | So it does in every run without restarts. |
| LamportClock.StampsFallBackLittle | src/lamport.py:23-60 | However often a process restarts, its stamps never fall back by a whole batch. |
| LamportClock.StampRepeats | src/lamport.py:33-60 | A process that restarts right after sending gives its next message the same stamp. |
| Deduplication.MessageCache.Add | src/hybrid_bus.py:40-65 | The order, the answer and the time stamps after an add: a known id moves to the end, a new one is stamped and may evict the oldest. |
| Deduplication.MessageCache.Evict | src/hybrid_bus.py:61-63 | Eviction leaves the most recent ids and their stamps. |
| Deduplication.MessageCache.Cleanup | src/hybrid_bus.py:67-79 | Keeps exactly the ids not stamped before the cutoff, in the order they had. |
| Deduplication.HybridBus.DeduplicatedHandler | src/hybrid_bus.py:204-220 | The user handler runs exactly for ids new to the cache. |
| Deduplication.ExactRecency | src/hybrid_bus.py:40-65 | After any history the cache is exactly the most recently seen distinct ids, in recency order. |
| Deduplication.LargerCacheContainsSmaller | src/hybrid_bus.py:40-65 | Fed the same ids, a smaller cache is the recent end of a larger one. |
| Deduplication.HandlerRunsIff | src/hybrid_bus.py:204-220 | The handler runs for an id exactly if it is new or at least max_size other distinct ids came since its last sighting. |
| RateLimiter.RateLimiter.CheckRate | src/marketplace/circuit_breaker.py:301-336 | Blocked agents are refused unchanged; otherwise old times are dropped and the request is granted and recorded exactly if there is room; other agents keep their state. |
| RateLimiter.RateLimiter.RecordRequest | src/marketplace/circuit_breaker.py:338-353 | Appends a time for this agent only. |
| RateLimiter.RateLimiter.ResetAgent | src/marketplace/circuit_breaker.py:376-381 | Forgets the agent's times and block. |
| RateLimiter.RateLimiter.BlockAgent | src/marketplace/circuit_breaker.py:383-392 | Sets the end of the block for this agent only. |
| RateLimiter.RateLimiter.IsBlocked | src/marketplace/circuit_breaker.py:394-405 | True exactly before the end of the block, which is removed once over. |
| RateLimiter.KeepRecent | src/marketplace/circuit_breaker.py:327-329 | Keeps exactly the times after the cutoff, in order. |
| RateLimiter.GrantsRemembered | src/marketplace/circuit_breaker.py:301-336 | Although old times are discarded, the list still counts every grant a later check could see. |
| RateLimiter.WindowBound | src/marketplace/circuit_breaker.py:301-336 | Anywhere in a history, a half-open interval of one window holds at most limit_per_agent grants. |
| RateLimiter.GrantedIff | src/marketplace/circuit_breaker.py:301-392 | After any history a request is granted exactly if the agent's latest block since its latest reset is over and fewer than limit_per_agent of its requests since that reset, recorded or granted, are less than a window old. |
| CreditLedger.CreditLedger.CreateAccount | src/economics/ledger.py:131-209 | All error branches, the mint entry and the supply; a failure changes nothing. |
| CreditLedger.CreditLedger.GetBalance | src/economics/ledger.py:211-225 | The balance, 0 for a missing account. |
| CreditLedger.CreditLedger.Transfer | src/economics/ledger.py:262-374 | All error branches; debit, credit or creation of the recipient, and both entries, as `TransferStep`; what that moves is LedgerEffects.TransferMoves. |
| CreditLedger.CreditLedger.Escrow | src/economics/ledger.py:376-429 | Moves balance to locked and inserts the escrow; a duplicate id rolls everything back. |
| CreditLedger.CreditLedger.ReleaseEscrow | src/economics/ledger.py:431-502 | Pays a live escrow once, creating the recipient if needed; a negative locked column rolls back. |
| CreditLedger.CreditLedger.CancelEscrow | src/economics/ledger.py:504-556 | Returns a live escrow to its owner, once. |
| CreditLedger.StakeManager.GetStakedAmount | src/economics/stake.py:247-258 | The whole locked column, 0 for a missing account. |
| CreditLedger.StakeManager.Stake | src/economics/stake.py:77-121 | Moves balance to locked and logs it, or fails without effect. |
| CreditLedger.StakeManager.Unstake | src/economics/stake.py:123-184 | Moves locked to unbonding and inserts a record with its maturity. |
| CreditLedger.StakeManager.CompleteUnbonding | src/economics/stake.py:186-245 | Pays the sum of the matured records, marks them and logs each. |
| CreditLedger.StakeManager.SettleDue | src/economics/stake.py:215-243 | The loop marks exactly the due records and logs them in order. |
| LedgerEffects.CreateAccountMints | src/economics/ledger.py:131-209 | Succeeds exactly for a named new account whose initial balance is not negative and, if positive, minted by the system within the maximal supply; the account gets it, supply and log follow, a failure changes nothing. |
| LedgerEffects.BlankIff | src/economics/operations.py:40-45 | An account id is refused exactly if nothing is left of it once white space is stripped from both ends. |
| LedgerEffects.TransferMoves | src/economics/ledger.py:285-374 | Succeeds exactly if both ids are named, the amount is positive and covered, and the recipient exists or may be created. Then the sender's balance falls by the amount and the recipient's rises by it; a transfer to oneself changes no account; all other columns and accounts are as before; the two new entries carry minus and plus the amount. |
| LedgerEffects.EscrowLocks | src/economics/ledger.py:376-429 | Succeeds exactly for a covered positive amount under a fresh id: the amount moves from balance to locked, the escrow is live, one entry is logged. |
| LedgerEffects.ReleaseConditions | src/economics/ledger.py:431-460 | A release succeeds exactly for a live escrow whose owner has that much locked; a failure changes nothing and says why. |
| LedgerEffects.ReleasePays | src/economics/ledger.py:450-502 | The owner's locked column falls by the escrow's amount, the payee's balance rises by it, all else stays; the escrow is marked with its payee and one entry is logged. |
| LedgerEffects.CancelReturns | src/economics/ledger.py:504-556 | The owner's locked column falls by the escrow's amount and its balance rises by it; the entry carries minus the amount. |
| LedgerEffects.StakeLocks | src/economics/stake.py:77-121 | Succeeds exactly for a covered positive amount, which moves from balance to locked. |
| LedgerEffects.UnstakeUnbonds | src/economics/stake.py:123-184 | Succeeds exactly for a positive amount within the locked column and a fresh id: the amount moves to unbonding, under a record that matures after the unbonding seconds, in nanoseconds. |
| LedgerEffects.CompletePays | src/economics/stake.py:186-245 | What is paid moves from unbonding to balance; exactly the account's records that have matured are marked. |
| LedgerEffects.ExecuteSlashCuts | src/economics/slashing.py:120-181 | The smaller of amount and stake leaves the locked column; the event is recorded once, with what was taken. |
| LedgerEffects.UnbondingPeriod | src/economics/stake.py:123-245 | In every run each record was made by an unstaking of its account and amount, matures exactly one unbonding period after it, and is completed exactly if its account has completed its unbonding then or later. |
| SlashEffects.SlashVerifiersMoves | src/economics/slashing.py:288-383 | A challenge that goes through, with no verifier listed twice: each loses half of the stake it had, rounded down, nobody else loses any; existing payees gain the rewards logged, half of the sum for the challenger and two fifths for the honest. |
| SlashEffects.PayOutRewards | src/economics/slashing.py:315-373 | The log grows by a reward of half the total for the challenger, if that is anything, and by one for each honest verifier; the accounts that exist receive exactly these. |
| SlashEffects.SharesMean | src/economics/slashing.py:315-319 | Challenger, honest and burned shares add up to the total; the first two are a half and two fifths of it, rounded down. |
| SlashEffects.HonestSharesMean | src/economics/slashing.py:347-355 | Every honest verifier but the first gets an equal part, rounded down; the first gets what remains. |
| LedgerLog.TransferLaw | src/economics/ledger.py:317-374 | The signed entries of a transfer fold to its effect on every account. |
| LedgerLog.ReleaseLaw | src/economics/ledger.py:450-502 | One release entry accounts for the debit of its owner and the credit of its payee. |
| LedgerLog.CompleteLaw | src/economics/stake.py:200-245 | The completion entries add up to the columns moved. |
| LedgerLog.SlashVerifiersLaw | src/economics/slashing.py:288-383 | Slash and reward entries fold to the effect on every account, except rewards to accounts that do not exist. |
| LedgerAudit.ExecLaw | src/economics/ledger.py:187-209 | Every command only appends to the log, and the appended entries fold to the change of every account's columns. |
| LedgerAudit.RunExcess | src/economics/slashing.py:329-373 | In every run, log and ledger differ only by rewards logged for missing accounts. |
| LedgerAudit.LogDeterminesLedgerIff | src/economics/ledger.py:317-556 | In every run each account's balance, locked and unbonding are the fold of the log exactly when no reward was written to a missing account. |
| LedgerAudit.LogDeterminesLedger | src/economics/slashing.py:142-373 | So the log determines the ledger in every run whose rewarded parties have accounts. |
| LedgerAudit.MissingPayeeSplitsLogAndLedger | src/economics/slashing.py:329-345 | A run in which a challenger without an account is rewarded in the log alone. |
| LedgerInvariants.ExecKeepsBasic | src/economics/ledger.py:61-75 | Every command, failing or not, keeps columns nonnegative, amounts positive and records owned. |
| LedgerInvariants.RunKeepsBasic | src/economics/ledger.py:61-75 | These hold in every run. |
| LedgerConservation.ExecConserves | src/economics/ledger.py:131-556 | Only slashing and its payouts change supply minus the sum of all columns, by exactly what is cut and paid, and the supply stays within MAX_SUPPLY. |
| LedgerConservation.Conservation | src/economics/ledger.py:131-556 | In every run, payouts separate from their slashes included: no column is negative, the supply is at most MAX_SUPPLY and exceeds the sum of all columns by what was cut and not paid out; so it is never exceeded while `slash_verifiers` is uninterrupted, and equal until the first slash. |
| LedgerConservation.ExecuteSlashBurns | src/economics/slashing.py:120-181 | A slash removes exactly the smaller of amount and stake, and nothing if it fails. |
| LedgerConservation.SlashVerifiersBurnsIff | src/economics/slashing.py:288-383 | Shares add up to the total slashed; the sum falls at least by the reported `burned`, and by exactly that if and only if every positive payout reaches an account. |
| LedgerConservation.SlashVerifiersBurns | src/economics/slashing.py:220-383 | An uninterrupted slashing pays out at most what it cut, whatever fails. |
| SlashRuns.InterleavingIsRun | src/economics/slashing.py:288-373 | `slash_verifiers` as it interleaves, each stake read before the transaction that cuts it and the payouts in one of their own: every interleaving with anything else is a run of the ledger, and keeps what every run keeps. |
| SlashRuns.SupplyHoldsIff | src/economics/slashing.py:288-373 | The books of every interleaving: the sum of all columns stays within the supply exactly as long as stakes have shrunk, between being read and being cut, by no more in all than what was withheld from payout. |
| SlashRuns.OneSessionIff | src/economics/slashing.py:288-373 | One slashing, among any commands that slash nothing, with payees that have accounts: the supply holds after its payout exactly if what it cut covers the payees' shares of what it read. |
| SlashRuns.SupplyHolds | src/economics/slashing.py:288-373 | So nothing is minted if no stake is below the amount read from it when it is cut. |
| SlashRuns.WithheldCovers | src/economics/slashing.py:309-373 | What sessions still hold for their payees was reported as slashed and not yet paid. |
| SlashRuns.WithdrawnStakeMints | src/economics/slashing.py:288-373 | A run in which the stake is withdrawn between being read and being cut, and the sum of all columns ends above the supply. |
| LedgerSubledgers.RunKeepsUnbonding | src/economics/stake.py:123-245 | In every run an account's unbonding column is the sum of its incomplete records. |
| LedgerSubledgers.CompletionSucceeds | src/economics/stake.py:186-245 | Hence completion never fails and pays all that is due. |
| LedgerSubledgers.RecordsPaidOnce | src/economics/stake.py:186-245 | In every run each record is paid once if completed and never otherwise, to its owner, in full, not before its time. |
| LedgerEscrows.EscrowsSettledOnce | src/economics/ledger.py:376-556 | In every run each escrow is released or cancelled at most once, exactly when marked so; its entries carry its full amount, its owner, and the payee that the row notes. |
| LedgerEscrows.LockedIsEscrowed | src/economics/ledger.py:376-556 | In runs of the ledger's own methods the locked column is the sum of the account's live escrows. |
| LedgerEscrows.LiveEscrowsSettle | src/economics/ledger.py:431-556 | So in such runs releasing or cancelling a live escrow always succeeds. |
| LedgerEscrows.SettlingSucceedsIff | src/economics/ledger.py:431-556 | In general a live escrow can be settled exactly when its owner has that much locked. |
| LedgerEscrows.UnstakingStrandsEscrow | src/economics/stake.py:123-184 | A run in which unstaking takes escrowed credits and the escrow can no longer be released. |
| Slashing.SlashingRules.CalculateSlashAmount | src/economics/slashing.py:83-118 | Fails exactly for a severity outside 0 to 10, and otherwise takes the share of the stake as the floating-point products give it. |
| Slashing.SlashWithinStake | src/economics/slashing.py:83-118 | However the products are rounded, no violation and severity costs more than the stake, for stakes below 2^49. |
| Slashing.SeverityMonotone | src/economics/slashing.py:106-115 | However the products are rounded, a more severe violation never costs less. |
| Slashing.HalfIsExact | src/economics/slashing.py:102-104 | Half of a stake is computed without rounding, for stakes below 2^49. |
| Slashing.SlashPercent | src/economics/slashing.py:83-118 | With products rounded to a relative error of half a unit in the last place, the amount is the named percentage of the stake, to within one credit: 50 for a failed challenge (exactly), the severity for missed heartbeats, 10 plus the severity for policy violations. |
| Slashing.SlashingRules.ExecuteSlash | src/economics/slashing.py:120-181 | Cuts the stake by at most what there is, records the event once, logs the cut. |
| Slashing.SlashingRules.SlashOne | src/economics/slashing.py:291-310 | Half of one verifier's stake, read and then cut. |
| Slashing.SlashingRules.SlashEach | src/economics/slashing.py:288-313 | The loop over verifiers with its running total and list of events; a failure keeps the slashes before it. |
| Slashing.EventsRecorded | src/economics/slashing.py:291-313 | Slashes that are not interrupted and all go through: the events returned are those recorded, one for each verifier, and their amounts add up to the total. |
| Slashing.EventsInOrder | src/economics/slashing.py:291-313 | The events name the verifiers one by one, in order, each under the id drawn for it. |
| Slashing.SlashAllFails | src/economics/slashing.py:288-313 | After a failure the remaining verifiers are not touched. |
| Slashing.SlashingRules.SlashVerifiers | src/economics/slashing.py:220-383 | All branches: nobody to slash, missing log, unproven honest verifiers, a failing slash, and the distribution; the summary and the list of events returned. |
| Slashing.SlashingRules.Distribute | src/economics/slashing.py:315-373 | The three shares and their payment, remainder to the first honest verifier. |

## Left out

- Operation payloads with missing keys (a KeyError in both stores) and payload fields no view reads; JSON encoding, the view cache, tiered storage and pruning.
- The `attested_at` time inside the annotation that records an attestation; no view of the plan reads it.
- Operation ids, unbonding ids, event ids and timestamps are parameters; SHA-256 is an arbitrary function, and where a result needs it, one whose digests have one length and do not collide on the strings the result is about. Clock readings are integers, in the Lamport clock reals.
- PatchReading.EmittedReads: of a payload only what a plan reads is compared: the type of an ADD_TASK, the state of a STATE, the ends of a LINK, all of an ANNOTATE.
- MergedPlan.MergedTasks: is about output that can be replayed; replaying a STATE without a state is a KeyError in the source. The types of a patch's fields are not modelled.
- Epochs.TokenAcceptedIff: is about tokens made by the manager; parsing foreign tokens with white space, underscores or non-ASCII digits, which Python's int accepts, is not modelled.
- PartitionMerge.MergeOnHeal: takes records that name their need; one that does not makes the source raise a KeyError.
- Slashing.SlashWithinStake: is about stakes below 2^49, five hundred times the maximal supply, which doubles represent exactly; so are Slashing.HalfIsExact and Slashing.SlashPercent.
- LedgerModel: SQLite transactions are all-or-nothing steps.
- Deduplication.MessageCache.constructor: takes a natural size; a negative one makes the source pop from an empty cache. The periodic call of cleanup, the monitor, and publishing are left out; the cleanup itself is modelled, but the history theorems are about runs without it.
- RateLimiter.WindowBound: assumes a clock that does not go backwards and no reset of the agent, as the source's promise does.
- RateLimiter.GrantedIff: assumes a clock that does not go backwards.
- AttestPlan.HandleAttestPlan: the class of the Redis adapter is not among the repository's files and not part of this model; what it answers is a parameter, and the runs of many handlers are about the Raft adapter.
- The reason, evidence hash, severity and time of a slash event, which are copied into its row.
- An adapter without hosts, lookups that raise errors other than the tolerated verifier-pool failure, retries, connections and logging.
- Conflict detection between patches, orphan marking, bounties and payouts, auctions, reputation, committees, the circuit breaker and emergency stop, agents, transports, signatures, DIDs, IPLD, compression, metrics and getters.
