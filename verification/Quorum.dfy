/** Counting distinct attestations per proposal and noticing, once, that there are enough. */
module Quorum {
  import opened Floats

  /** A need and one of its proposals. */
  type Proposal = (string, string)

  /** Who attested to a proposal, and how many the first attestation asked for. */
  datatype Tally = Tally(verifiers: set<string>, required: int)

  type Tallies = map<Proposal, Tally>

  predicate HasQuorum(t: Tally)
  {
    |t.verifiers| >= t.required
  }

  function TallyOf(tallies: Tallies, p: Proposal, kPlan: int): Tally
  {
    if p in tallies then tallies[p] else Tally({}, kPlan)
  }

  /** Tallies after one attestation, and whether it completed the quorum. */
  function Record(tallies: Tallies, p: Proposal, verifier: string, kPlan: int): (Tallies, bool)
  {
    var t := TallyOf(tallies, p, kPlan);
    var t' := t.(verifiers := t.verifiers + {verifier});
    (tallies[p := t'], HasQuorum(t') && !HasQuorum(t))
  }

  /**
   * One more verifier in the tally of `p`, which otherwise starts empty with the size given now; completed
   * exactly if that is a new verifier and makes as many as were asked for first.
   */
  ghost predicate Tallied(before: Tallies, after: Tallies, p: Proposal, verifier: string, kPlan: int, completed: bool)
  {
    var t := if p in before then before[p] else Tally({}, kPlan);
    && after == before[p := Tally(t.verifiers + {verifier}, t.required)]
    && (completed <==> |t.verifiers| < |t.verifiers + {verifier}| == t.required)
  }

  lemma RecordMeans(tallies: Tallies, p: Proposal, verifier: string, kPlan: int)
    ensures Tallied(tallies, Record(tallies, p, verifier, kPlan).0, p, verifier, kPlan, Record(tallies, p, verifier, kPlan).1)
  {
    var v := TallyOf(tallies, p, kPlan).verifiers;
    assert verifier in v ==> v + {verifier} == v;
    assert verifier !in v ==> |v + {verifier}| == |v| + 1;
  }

  /** Creating the tally first changes nothing about what is recorded. */
  lemma InTwoSteps(tallies: Tallies, p: Proposal, verifier: string, kPlan: int)
    ensures Record(tallies[p := TallyOf(tallies, p, kPlan)], p, verifier, 0) == Record(tallies, p, verifier, kPlan)
  {
    var t := TallyOf(tallies, p, kPlan);
    var t' := t.(verifiers := t.verifiers + {verifier});
    assert tallies[p := t][p := t'] == tallies[p := t'];
  }

  class QuorumState {
    const needId: string
    const proposalId: string
    const kPlanRequired: int
    var attestations: set<string>

    constructor (needId: string, proposalId: string, kPlanRequired: int)
      ensures this.needId == needId && this.proposalId == proposalId && this.kPlanRequired == kPlanRequired
      ensures attestations == {}
    {
      this.needId, this.proposalId, this.kPlanRequired := needId, proposalId, kPlanRequired;
      attestations := {};
    }

    function View(): Tally
      reads this
    {
      Tally(attestations, kPlanRequired)
    }

    method AddAttestation(verifierId: string) returns (completed: bool)
      modifies this
      ensures attestations == old(attestations) + {verifierId}
      ensures completed <==> HasQuorum(View()) && !HasQuorum(old(View()))
    {
      var wasQuorum := |attestations| >= kPlanRequired;
      attestations := attestations + {verifierId};
      var isQuorum := |attestations| >= kPlanRequired;
      completed := isQuorum && !wasQuorum;
    }
  }

  class QuorumTracker {
    var states: map<Proposal, QuorumState>

    /** Each proposal has a state object of its own. */
    ghost predicate Valid()
      reads this
    {
      forall p, q :: p in states && q in states && states[p] == states[q] ==> p == q
    }

    ghost function View(): Tallies
      reads this, set p | p in states :: states[p]
    {
      map p | p in states :: states[p].View()
    }

    constructor ()
      ensures Valid() && View() == map[]
    {
      states := map[];
    }

    method RecordAttestation(needId: string, proposalId: string, verifierId: string, kPlan: int)
      returns (completed: bool)
      requires Valid()
      modifies this, set p | p in states :: states[p]
      ensures Valid()
      ensures forall p :: p in states && p !in old(states) ==> fresh(states[p])
      ensures forall p :: p in old(states) ==> p in states && states[p] == old(states[p])
      ensures (View(), completed) == Record(old(View()), (needId, proposalId), verifierId, kPlan)
    {
      var key := (needId, proposalId);
      ghost var before := View();
      EnsureState(needId, proposalId, kPlan);
      completed := CountAt(key, verifierId);
      InTwoSteps(before, key, verifierId, kPlan);
    }

    /** One more attestation for a proposal that has a state. */
    method CountAt(key: Proposal, verifierId: string) returns (completed: bool)
      requires Valid() && key in states
      modifies states[key]
      ensures Valid() && states == old(states)
      ensures (View(), completed) == Record(old(View()), key, verifierId, 0)
    {
      ghost var before := View();
      completed := states[key].AddAttestation(verifierId);
      assert forall p :: p in states && p != key ==> states[p].View() == before[p];
      assert View() == before[key := states[key].View()];
    }

    /** A proposal's first attestation creates its state, with the quorum size it asks for. */
    method EnsureState(needId: string, proposalId: string, kPlan: int)
      requires Valid()
      modifies this
      ensures Valid() && (needId, proposalId) in states
      ensures forall p :: p in states && p !in old(states) ==> fresh(states[p])
      ensures forall p :: p in old(states) ==> p in states && states[p] == old(states[p])
      ensures View() == old(View())[(needId, proposalId) := TallyOf(old(View()), (needId, proposalId), kPlan)]
    {
      var key := (needId, proposalId);
      if key in states {
        assert View()[key := View()[key]] == View();
        return;
      }
      var state := new QuorumState(needId, proposalId, kPlan);
      assert View() == old(View());
      states := states[key := state];
      assert forall p :: p in old(states) ==> p != key && states[p] == old(states[p]);
      assert View() == old(View())[key := Tally({}, kPlan)];
    }

    method CheckQuorum(needId: string, proposalId: string) returns (reached: bool)
      ensures reached <==> (needId, proposalId) in View() && HasQuorum(View()[(needId, proposalId)])
    {
      var key := (needId, proposalId);
      reached := key in states && |states[key].attestations| >= states[key].kPlanRequired;
    }
  }

  /** `min(k_target, max(1, int(active * alpha)))`. */
  function KPlan(activeVerifiers: nat, alpha: real, kTarget: int): int
    requires alpha >= 0.0
  {
    var share := (activeVerifiers as real * alpha).Floor;
    var calculated := if share > 1 then share else 1;
    if calculated < kTarget then calculated else kTarget
  }

  /** The double written 0.3. */
  const ALPHA_DOUBLE := 5404319552844595.0 / 18014398509481984.0

  /** `min(5, max(1, int(active * 0.3)))` with the product rounded. */
  function RoundedKPlan(fl: Rounding, activeVerifiers: nat): int
  {
    var share := fl(activeVerifiers as real * ALPHA_DOUBLE).Floor;
    var calculated := if share > 1 then share else 1;
    if calculated < 5 then calculated else 5
  }

  /** Ten verifiers: the product is just below three, and three is the nearest double. */
  lemma TenVerifiers(fl: Rounding)
    requires Nearest(fl)
    ensures fl(10.0 * ALPHA_DOUBLE) == 3.0
  {
    var x := 10.0 * ALPHA_DOUBLE;
    assert Representable(3.0);
    assert 2.0 <= x < 3.0 && 3.0 - x < 1.0 / 4503599627370496.0;
    assert Distance(fl(x), x) <= Distance(3.0, x);
    var scaled := fl(x) * 2251799813685248.0;
    assert 6755399441055743.0 < scaled <= 6755399441055744.0;
  }

  lemma ShareBetween(fl: Rounding, n: nat, low: real, high: real)
    requires Rounds(fl) && Representable(low) && Representable(high) && low <= n as real * ALPHA_DOUBLE <= high
    ensures low <= fl(n as real * ALPHA_DOUBLE) <= high
  {
    Between(fl, low, n as real * ALPHA_DOUBLE, high);
  }

  lemma FewVerifiers(fl: Rounding, n: nat)
    requires Nearest(fl) && n < 10
    ensures RoundedKPlan(fl, n) == KPlan(n, 0.3, 5)
  {
    if n < 7 {
      assert Representable(0.0) && Representable(1.875);
      ShareBetween(fl, n, 0.0, 1.875);
    } else {
      assert Representable(2.0) && Representable(2.75);
      ShareBetween(fl, n, 2.0, 2.75);
    }
  }

  lemma MoreVerifiers(fl: Rounding, n: nat)
    requires Nearest(fl) && 10 < n < 17
    ensures RoundedKPlan(fl, n) == KPlan(n, 0.3, 5)
  {
    if n < 14 {
      assert Representable(3.0) && Representable(3.9375);
      ShareBetween(fl, n, 3.0, 3.9375);
    } else {
      assert Representable(4.0) && Representable(4.875);
      ShareBetween(fl, n, 4.0, 4.875);
    }
  }

  lemma ManyVerifiers(fl: Rounding, n: nat)
    requires Nearest(fl) && n >= 17
    ensures RoundedKPlan(fl, n) == KPlan(n, 0.3, 5)
  {
    assert Representable(5.0);
    InOrder(fl, 5.0, n as real * ALPHA_DOUBLE);
  }

  /** Rounding the product never changes the quorum size. */
  lemma RoundingKeepsKPlan(fl: Rounding, activeVerifiers: nat)
    requires Nearest(fl)
    ensures RoundedKPlan(fl, activeVerifiers) == KPlan(activeVerifiers, 0.3, 5)
  {
    if activeVerifiers < 10 {
      FewVerifiers(fl, activeVerifiers);
    } else if activeVerifiers == 10 {
      TenVerifiers(fl);
    } else if activeVerifiers < 17 {
      MoreVerifiers(fl, activeVerifiers);
    } else {
      ManyVerifiers(fl, activeVerifiers);
    }
  }

  // ---------- histories of attestations ----------

  datatype Attestation = Attestation(proposal: Proposal, verifier: string, kPlan: int)

  function TallyAll(calls: seq<Attestation>): Tallies
  {
    if calls == [] then map[]
    else
      var c := calls[|calls| - 1];
      Record(TallyAll(calls[..|calls| - 1]), c.proposal, c.verifier, c.kPlan).0
  }

  /** What the `i`-th call of a history returns. */
  predicate Completes(calls: seq<Attestation>, i: nat)
    requires i < |calls|
  {
    Record(TallyAll(calls[..i]), calls[i].proposal, calls[i].verifier, calls[i].kPlan).1
  }

  function Attesters(calls: seq<Attestation>, p: Proposal): set<string>
  {
    set c | c in calls && c.proposal == p :: c.verifier
  }

  /** The quorum size given with the first attestation of `p`, or else `default`. */
  function FirstK(calls: seq<Attestation>, p: Proposal, default: int): int
  {
    if calls == [] then default
    else if calls[0].proposal == p then calls[0].kPlan
    else FirstK(calls[1..], p, default)
  }

  lemma {:induction false} FirstKAppend(calls: seq<Attestation>, c: Attestation, p: Proposal, default: int)
    ensures FirstK(calls + [c], p, default) == FirstK(calls, p, if c.proposal == p then c.kPlan else default)
  {
    if calls != [] {
      assert (calls + [c])[1..] == calls[1..] + [c];
      FirstKAppend(calls[1..], c, p, default);
    }
  }

  lemma {:induction false} TalliesMean(calls: seq<Attestation>, p: Proposal, kPlan: int)
    ensures TallyOf(TallyAll(calls), p, kPlan) == Tally(Attesters(calls, p), FirstK(calls, p, kPlan))
    ensures p in TallyAll(calls) <==> exists c :: c in calls && c.proposal == p
  {
    if calls != [] {
      var before, c := calls[..|calls| - 1], calls[|calls| - 1];
      assert calls == before + [c];
      TalliesMean(before, p, if c.proposal == p then c.kPlan else kPlan);
      FirstKAppend(before, c, p, kPlan);
      AttestersAppend(before, c, p);
    }
  }

  lemma AttestersAppend(before: seq<Attestation>, c: Attestation, p: Proposal)
    ensures Attesters(before + [c], p) == Attesters(before, p) + if c.proposal == p then {c.verifier} else {}
    ensures (exists x :: x in before + [c] && x.proposal == p) <==> c.proposal == p || exists x :: x in before && x.proposal == p
  {
    assert c in before + [c] && forall x :: x in before ==> x in before + [c];
  }

  lemma AttestersGrow(calls: seq<Attestation>, i: nat, j: nat, p: Proposal)
    requires i <= j <= |calls|
    ensures Attesters(calls[..i], p) <= Attesters(calls[..j], p)
    ensures |Attesters(calls[..i], p)| <= |Attesters(calls[..j], p)|
  {
    var a, b := Attesters(calls[..i], p), Attesters(calls[..j], p);
    forall v | v in a ensures v in b {
      var c :| c in calls[..i] && c.proposal == p && c.verifier == v;
      assert c in calls[..j];
    }
    SubsetSize(a, b);
  }

  lemma SubsetSize(a: set<string>, b: set<string>)
    requires a <= b
    ensures |a| <= |b|
  {
    assert b == a + (b - a);
  }

  /**
   * A call returns true exactly when it brings the distinct attesters of its proposal to the
   * number the proposal's first attestation asked for, and that number is at least one.
   */
  lemma CompletesIff(calls: seq<Attestation>, i: nat)
    requires i < |calls|
    ensures
      var p := calls[i].proposal;
      var k := FirstK(calls[..i + 1], p, 0);
      Completes(calls, i) <==>
        |Attesters(calls[..i], p)| < |Attesters(calls[..i + 1], p)| == k
  {
    var c := calls[i];
    var before, now := calls[..i], calls[..i + 1];
    assert now == before + [c];
    TalliesMean(before, c.proposal, c.kPlan);
    FirstKAppend(before, c, c.proposal, 0);
    AttestersAppend(before, c, c.proposal);
    RecordMeans(TallyAll(before), c.proposal, c.verifier, c.kPlan);
  }

  lemma {:induction false} FirstKStable(calls: seq<Attestation>, i: nat, j: nat, p: Proposal, d: int, e: int)
    requires i <= j <= |calls| && exists c :: c in calls[..i] && c.proposal == p
    ensures FirstK(calls[..i], p, d) == FirstK(calls[..j], p, e)
  {
    if calls[0].proposal != p {
      assert calls[..i][1..] == calls[1..][..i - 1] && calls[..j][1..] == calls[1..][..j - 1];
      var c :| c in calls[..i] && c.proposal == p;
      assert c in calls[1..][..i - 1];
      FirstKStable(calls[1..], i - 1, j - 1, p, d, e);
    }
  }

  /** No proposal's quorum is announced twice. */
  lemma CompletesOnce(calls: seq<Attestation>, i: nat, j: nat)
    requires i < j < |calls| && calls[i].proposal == calls[j].proposal
    ensures !(Completes(calls, i) && Completes(calls, j))
  {
    if Completes(calls, i) && Completes(calls, j) {
      var p := calls[i].proposal;
      CompletingSize(calls, i);
      CompletingSize(calls, j);
      SameThreshold(calls, i, j, p);
      AttestersGrow(calls, i + 1, j, p);
    }
  }

  lemma SameThreshold(calls: seq<Attestation>, i: nat, j: nat, p: Proposal)
    requires i < j < |calls| && calls[i].proposal == p
    ensures FirstK(calls[..i + 1], p, 0) == FirstK(calls[..j + 1], p, 0)
  {
    assert calls[..i + 1][i] == calls[i];
    FirstKStable(calls, i + 1, j + 1, p, 0, 0);
  }

  lemma CompletingSize(calls: seq<Attestation>, i: nat)
    requires i < |calls| && Completes(calls, i)
    ensures
      var p := calls[i].proposal;
      |Attesters(calls[..i], p)| < |Attesters(calls[..i + 1], p)| == FirstK(calls[..i + 1], p, 0)
  {
    CompletesIff(calls, i);
  }
}
