/** Resolving conflicting decisions after a partition heals. */
module PartitionMerge {
  import opened Collections
  import Epochs

  /** A decision as it arrives: a dictionary whose fields, except the need, may be missing. */
  datatype DecideRecord = DecideRecord(
    needId: string,
    proposalId: Option<string>,
    epoch: Option<int>,
    lamport: Option<int>,
    deciderId: Option<string>)

  /** `d.get("epoch", 0)`, `d.get("lamport", 0)`, `d.get("decider_id", "")`: all that the rule looks at. */
  function Rank(r: DecideRecord): (int, int, string)
  {
    (if r.epoch.Some? then r.epoch.value else 0, if r.lamport.Some? then r.lamport.value else 0,
     if r.deciderId.Some? then r.deciderId.value else "")
  }

  function EpochOrZero(r: DecideRecord): int
  {
    match r.epoch case Some(epoch) => epoch case None => 0
  }

  function LamportOrZero(r: DecideRecord): int
  {
    match r.lamport case Some(lamport) => lamport case None => 0
  }

  function DeciderOrEmpty(r: DecideRecord): string
  {
    match r.deciderId case Some(id) => id case None => ""
  }

  /** `r` has the higher epoch, or else the higher lamport, or else the smaller decider. */
  predicate Outranks(r: DecideRecord, other: DecideRecord)
  {
    || EpochOrZero(r) > EpochOrZero(other)
    || (EpochOrZero(r) == EpochOrZero(other) && LamportOrZero(r) > LamportOrZero(other))
    || (EpochOrZero(r) == EpochOrZero(other) && LamportOrZero(r) == LamportOrZero(other)
        && LexLess(DeciderOrEmpty(r), DeciderOrEmpty(other)))
  }

  datatype Side = Local | Remote

  /** Highest epoch, then highest lamport, then smallest decider id; a full tie goes to the remote. */
  function HighestEpochWins(local: DecideRecord, remote: DecideRecord): Side
  {
    var (localEpoch, localLamport, localId) := Rank(local);
    var (remoteEpoch, remoteLamport, remoteId) := Rank(remote);
    if localEpoch != remoteEpoch then
      if localEpoch > remoteEpoch then Local else Remote
    else if localLamport != remoteLamport then
      if localLamport > remoteLamport then Local else Remote
    else if LexLess(localId, remoteId) then Local else Remote
  }

  predicate Beats(a: DecideRecord, b: DecideRecord)
  {
    HighestEpochWins(a, b) == Local
  }

  function Winner(local: DecideRecord, remote: DecideRecord): DecideRecord
  {
    if Beats(local, remote) then local else remote
  }

  /** The local record wins exactly if its epoch is higher, or its lamport at equal epochs, or its decider smaller at equal both. */
  lemma LocalWinsIff(local: DecideRecord, remote: DecideRecord)
    ensures HighestEpochWins(local, remote) == Local <==> Outranks(local, remote)
    ensures !Outranks(local, Winner(local, remote)) && !Outranks(remote, Winner(local, remote))
  {
    LexTotal(DeciderOrEmpty(local), DeciderOrEmpty(remote));
    LexTotal(DeciderOrEmpty(local), DeciderOrEmpty(local));
    LexTotal(DeciderOrEmpty(remote), DeciderOrEmpty(remote));
  }

  /** A strict order that is total on records of different rank. */
  lemma BeatsIsStrictOrder(a: DecideRecord, b: DecideRecord, c: DecideRecord)
    ensures !(Beats(a, b) && Beats(b, a))
    ensures Beats(a, b) || Beats(b, a) <==> Rank(a) != Rank(b)
    ensures Beats(a, b) && Beats(b, c) ==> Beats(a, c)
  {
    LexTotal(Rank(a).2, Rank(b).2);
    if LexLess(Rank(a).2, Rank(b).2) && LexLess(Rank(b).2, Rank(c).2) {
      LexTransitive(Rank(a).2, Rank(b).2, Rank(c).2);
    }
  }

  /** The two sides of a healed partition pick the same decision exactly when ranks differ or there was no conflict. */
  lemma SidesAgreeIff(local: DecideRecord, remote: DecideRecord)
    ensures Winner(local, remote) == Winner(remote, local) <==> Rank(local) != Rank(remote) || local == remote
  {
    BeatsIsStrictOrder(local, remote, local);
  }

  // ---------- merging two lists of decisions ----------

  /** `{d["need_id"]: d for d in decides}`: the last record of a need stays. */
  function ByNeed(decides: seq<DecideRecord>): map<string, DecideRecord>
  {
    if decides == [] then map[]
    else ByNeed(decides[..|decides| - 1])[decides[|decides| - 1].needId := decides[|decides| - 1]]
  }

  datatype DecideConflict = DecideConflict(
    needId: string,
    local: DecideRecord,
    remote: DecideRecord,
    winner: Side,
    reason: string)

  function Reason(local: DecideRecord, remote: DecideRecord): string
  {
    "Epoch " + Epochs.IntText(Rank(local).0) + " vs " + Epochs.IntText(Rank(remote).0)
  }

  /** Both sides decided the need, and differently. */
  predicate Conflicting(local: map<string, DecideRecord>, remote: map<string, DecideRecord>, needId: string)
  {
    needId in local && needId in remote && local[needId].proposalId != remote[needId].proposalId
  }

  function ConflictFor(local: map<string, DecideRecord>, remote: map<string, DecideRecord>, needId: string): DecideConflict
    requires Conflicting(local, remote, needId)
  {
    DecideConflict(needId, local[needId], remote[needId], HighestEpochWins(local[needId], remote[needId]),
                   Reason(local[needId], remote[needId]))
  }

  ghost function NeedsOf(conflicts: seq<DecideConflict>): set<string>
  {
    set c | c in conflicts :: c.needId
  }

  ghost predicate OnlyConflicts(conflicts: seq<DecideConflict>, local: map<string, DecideRecord>,
                                remote: map<string, DecideRecord>)
  {
    forall c :: c in conflicts ==> Conflicting(local, remote, c.needId) && c == ConflictFor(local, remote, c.needId)
  }

  ghost predicate NoNeedTwice(conflicts: seq<DecideConflict>)
  {
    forall i, j :: 0 <= i < j < |conflicts| ==> conflicts[i].needId != conflicts[j].needId
  }

  /** One entry for each conflicting need and no other, in some order. */
  ghost predicate Reports(conflicts: seq<DecideConflict>, local: map<string, DecideRecord>, remote: map<string, DecideRecord>)
  {
    && OnlyConflicts(conflicts, local, remote) && NoNeedTwice(conflicts)
    && forall n :: Conflicting(local, remote, n) <==> n in NeedsOf(conflicts)
  }

  // ---------- told from the two lists ----------

  /** The last record of the need in the list. */
  ghost predicate LastFor(decides: seq<DecideRecord>, i: int, needId: string)
  {
    0 <= i < |decides| && decides[i].needId == needId && forall j :: i < j < |decides| ==> decides[j].needId != needId
  }

  lemma {:induction false} ByNeedMeans(decides: seq<DecideRecord>, needId: string)
    ensures needId in ByNeed(decides) <==> exists i :: LastFor(decides, i, needId)
    ensures forall i :: LastFor(decides, i, needId) ==> needId in ByNeed(decides) && ByNeed(decides)[needId] == decides[i]
  {
    if decides != [] {
      var front, n := decides[..|decides| - 1], |decides| - 1;
      ByNeedMeans(front, needId);
      if decides[n].needId == needId {
        assert LastFor(decides, n, needId);
      } else {
        forall i ensures LastFor(decides, i, needId) <==> LastFor(front, i, needId) {
        }
      }
    }
  }

  /** The last records of a need on the two sides name different proposals. */
  ghost predicate Disagree(mine: seq<DecideRecord>, theirs: seq<DecideRecord>, i: int, j: int, needId: string)
  {
    LastFor(mine, i, needId) && LastFor(theirs, j, needId) && mine[i].proposalId != theirs[j].proposalId
  }

  /** A conflict as it should be reported. */
  ghost predicate ReportedRight(c: DecideConflict, mine: DecideRecord, theirs: DecideRecord)
  {
    && c.local == mine && c.remote == theirs && (c.winner == Local <==> Outranks(mine, theirs))
    && c.reason == "Epoch " + Epochs.IntText(EpochOrZero(mine)) + " vs " + Epochs.IntText(EpochOrZero(theirs))
  }

  /** Exactly the needs on which the last records disagree are reported, each once and as it should be. */
  ghost predicate HealedRight(conflicts: seq<DecideConflict>, mine: seq<DecideRecord>, theirs: seq<DecideRecord>)
  {
    && (forall i, j :: 0 <= i < j < |conflicts| ==> conflicts[i].needId != conflicts[j].needId)
    && (forall i, j, n :: Disagree(mine, theirs, i, j, n) ==> exists c :: c in conflicts && c.needId == n)
    && (forall c :: c in conflicts ==>
          exists i, j :: Disagree(mine, theirs, i, j, c.needId) && ReportedRight(c, mine[i], theirs[j]))
  }

  lemma ReportsRight(conflicts: seq<DecideConflict>, mine: seq<DecideRecord>, theirs: seq<DecideRecord>)
    requires Reports(conflicts, ByNeed(mine), ByNeed(theirs))
    ensures HealedRight(conflicts, mine, theirs)
  {
    forall i, j, n | Disagree(mine, theirs, i, j, n) ensures exists c :: c in conflicts && c.needId == n {
      ByNeedMeans(mine, n);
      ByNeedMeans(theirs, n);
      assert Conflicting(ByNeed(mine), ByNeed(theirs), n) && n in NeedsOf(conflicts);
    }
    forall c | c in conflicts
      ensures exists i, j :: Disagree(mine, theirs, i, j, c.needId) && ReportedRight(c, mine[i], theirs[j])
    {
      ByNeedMeans(mine, c.needId);
      ByNeedMeans(theirs, c.needId);
      assert Conflicting(ByNeed(mine), ByNeed(theirs), c.needId);
      var i :| LastFor(mine, i, c.needId);
      var j :| LastFor(theirs, j, c.needId);
      LocalWinsIff(mine[i], theirs[j]);
      assert Disagree(mine, theirs, i, j, c.needId) && ReportedRight(c, mine[i], theirs[j]);
    }
  }

  method IndexByNeed(decides: seq<DecideRecord>) returns (byNeed: map<string, DecideRecord>)
    ensures byNeed == ByNeed(decides)
  {
    byNeed := map[];
    for i := 0 to |decides|
      invariant byNeed == ByNeed(decides[..i])
    {
      assert decides[..i + 1][..i] == decides[..i];
      byNeed := byNeed[decides[i].needId := decides[i]];
    }
    assert decides[..|decides|] == decides;
  }

  method MergeOnHeal(localDecides: seq<DecideRecord>, remoteDecides: seq<DecideRecord>)
    returns (conflicts: seq<DecideConflict>)
    ensures Reports(conflicts, ByNeed(localDecides), ByNeed(remoteDecides))
    ensures HealedRight(conflicts, localDecides, remoteDecides)
  {
    conflicts := [];
    var localByNeed := IndexByNeed(localDecides);
    var remoteByNeed := IndexByNeed(remoteDecides);
    var todo := localByNeed.Keys * remoteByNeed.Keys;
    while todo != {}
      invariant todo <= localByNeed.Keys * remoteByNeed.Keys
      invariant ReportsExcept(conflicts, todo, localByNeed, remoteByNeed)
      decreases |todo|
    {
      var needId :| needId in todo;
      var localD, remoteD := localByNeed[needId], remoteByNeed[needId];
      if localD.proposalId != remoteD.proposalId {
        var winner := HighestEpochWins(localD, remoteD);
        ReportOne(conflicts, todo, localByNeed, remoteByNeed, needId);
        conflicts := conflicts + [DecideConflict(needId, localD, remoteD, winner, Reason(localD, remoteD))];
      } else {
        SkipOne(conflicts, todo, localByNeed, remoteByNeed, needId);
      }
      todo := todo - {needId};
    }
    ReportsRight(conflicts, localDecides, remoteDecides);
  }

  /** One entry for each conflicting need that is not still to do. */
  ghost predicate ReportsExcept(conflicts: seq<DecideConflict>, todo: set<string>, local: map<string, DecideRecord>,
                                remote: map<string, DecideRecord>)
  {
    && OnlyConflicts(conflicts, local, remote) && NoNeedTwice(conflicts)
    && forall n :: Conflicting(local, remote, n) && n !in todo <==> n in NeedsOf(conflicts)
  }

  lemma OneMoreNeed(conflicts: seq<DecideConflict>, c: DecideConflict)
    ensures NeedsOf(conflicts + [c]) == NeedsOf(conflicts) + {c.needId}
    ensures NoNeedTwice(conflicts) && c.needId !in NeedsOf(conflicts) ==> NoNeedTwice(conflicts + [c])
  {
    var more := conflicts + [c];
    assert forall x :: x in more <==> x in conflicts || x == c;
    forall i | 0 <= i < |conflicts| ensures conflicts[i].needId in NeedsOf(conflicts) {
      assert conflicts[i] in conflicts;
    }
  }

  lemma ReportOne(conflicts: seq<DecideConflict>, todo: set<string>, local: map<string, DecideRecord>,
                  remote: map<string, DecideRecord>, needId: string)
    requires ReportsExcept(conflicts, todo, local, remote) && needId in todo && Conflicting(local, remote, needId)
    ensures ReportsExcept(conflicts + [ConflictFor(local, remote, needId)], todo - {needId}, local, remote)
  {
    OneMoreNeed(conflicts, ConflictFor(local, remote, needId));
  }

  lemma SkipOne(conflicts: seq<DecideConflict>, todo: set<string>, local: map<string, DecideRecord>,
                remote: map<string, DecideRecord>, needId: string)
    requires ReportsExcept(conflicts, todo, local, remote) && !Conflicting(local, remote, needId)
    ensures ReportsExcept(conflicts, todo - {needId}, local, remote)
  {
  }

  function Chosen(c: DecideConflict): DecideRecord
  {
    if c.winner == Local then c.local else c.remote
  }

  /** The other side of the partition reports the same needs and, where ranks differ, the same winners. */
  lemma HealingIsSymmetric(mine: map<string, DecideRecord>, theirs: map<string, DecideRecord>, needId: string)
    ensures Conflicting(mine, theirs, needId) <==> Conflicting(theirs, mine, needId)
    ensures Conflicting(mine, theirs, needId) ==>
              (Chosen(ConflictFor(mine, theirs, needId)) == Chosen(ConflictFor(theirs, mine, needId))
               <==> Rank(mine[needId]) != Rank(theirs[needId]))
  {
    if Conflicting(mine, theirs, needId) {
      SidesAgreeIff(mine[needId], theirs[needId]);
    }
  }

  // ---------- any number of partitions ----------

  /** The winner after healing with one partition after the other. */
  function FoldWinner(records: seq<DecideRecord>): DecideRecord
    requires records != []
  {
    if |records| == 1 then records[0]
    else Winner(FoldWinner(records[..|records| - 1]), records[|records| - 1])
  }

  lemma OutranksTransitive(a: DecideRecord, b: DecideRecord, c: DecideRecord)
    requires !Outranks(b, a) && !Outranks(c, b)
    ensures !Outranks(c, a)
  {
    var x, y, z := DeciderOrEmpty(a), DeciderOrEmpty(b), DeciderOrEmpty(c);
    LexTotal(x, y);
    LexTotal(y, z);
    LexTotal(x, z);
    if LexLess(z, x) && LexLess(x, y) {
      LexTransitive(z, x, y);
    }
  }

  /**
   * Whatever records partitions bring, ties included: the one that remains has the highest epoch of all, among
   * those the highest lamport, and among those the smallest decider.
   */
  lemma {:induction false} HighestRemains(records: seq<DecideRecord>)
    requires records != []
    ensures FoldWinner(records) in records
    ensures forall r :: r in records ==> !Outranks(r, FoldWinner(records))
  {
    if |records| == 1 {
      LocalWinsIff(records[0], records[0]);
    } else {
      var front, last := records[..|records| - 1], records[|records| - 1];
      FrontAndLast(records);
      HighestRemains(front);
      var held, w := FoldWinner(front), FoldWinner(records);
      forall r | r in records ensures !Outranks(r, w) {
        StillHighest(held, last, r);
      }
    }
  }

  lemma StillHighest(held: DecideRecord, last: DecideRecord, r: DecideRecord)
    requires r == last || !Outranks(r, held)
    ensures !Outranks(r, Winner(held, last))
  {
    LocalWinsIff(held, last);
    if !Outranks(r, held) {
      OutranksTransitive(Winner(held, last), held, r);
    }
  }

  ghost predicate RanksDiffer(records: seq<DecideRecord>)
  {
    forall a, b :: a in records && b in records && Rank(a) == Rank(b) ==> a == b
  }

  lemma {:induction false} WinnerBeatsAll(records: seq<DecideRecord>)
    requires records != [] && RanksDiffer(records)
    ensures FoldWinner(records) in records
    ensures forall r :: r in records && r != FoldWinner(records) ==> Beats(FoldWinner(records), r)
  {
    if |records| > 1 {
      var front, last := records[..|records| - 1], records[|records| - 1];
      assert records == front + [last];
      WinnerBeatsAll(front);
      var w := FoldWinner(front);
      assert w in records;
      forall r | r in records && r != FoldWinner(records) ensures Beats(FoldWinner(records), r) {
        BeatsIsStrictOrder(last, w, r);
        BeatsIsStrictOrder(w, last, r);
      }
    }
  }

  /** In whatever order partitions heal, one decision wins. */
  lemma HealingOrderFree(records: seq<DecideRecord>, shuffled: seq<DecideRecord>)
    requires records != [] && shuffled != [] && RanksDiffer(records)
    requires forall r :: r in records <==> r in shuffled
    ensures FoldWinner(records) == FoldWinner(shuffled)
  {
    WinnerBeatsAll(records);
    WinnerBeatsAll(shuffled);
    BeatsIsStrictOrder(FoldWinner(records), FoldWinner(shuffled), FoldWinner(records));
  }
}
