/** Whole runs of replicas that append operations, save their documents, and merge or load any save, however old. */
module PlanNetwork {
  import opened PlanOps
  import opened StableSort
  import opened AutomergeStore
  import opened PlanConvergence

  /** `save` numbers the saves in the order in which they were made. */
  datatype Step =
    | Append(replica: string, op: PlanOp)
    | Save(replica: string)
    | Merge(replica: string, save: nat)
    | Load(replica: string, save: nat)

  /** The log of every replica and of every save made so far. */
  datatype Network = Network(logs: map<string, seq<PlanOp>>, saves: seq<seq<PlanOp>>)

  function LogOf(net: Network, replica: string): seq<PlanOp>
  {
    if replica in net.logs then net.logs[replica] else []
  }

  function SetLog(net: Network, replica: string, log: seq<PlanOp>): Network
  {
    net.(logs := net.logs[replica := log])
  }

  /** A save that does not exist yet cannot be received. */
  function Advance(net: Network, step: Step): Network
  {
    match step
    case Append(r, op) => SetLog(net, r, AppendLog(LogOf(net, r), op))
    case Save(r) => net.(saves := net.saves + [LogOf(net, r)])
    case Merge(r, k) => if k < |net.saves| then SetLog(net, r, MergeLogs(LogOf(net, r), net.saves[k])) else net
    case Load(r, k) => if k < |net.saves| then SetLog(net, r, net.saves[k]) else net
  }

  function Run(steps: seq<Step>): Network
  {
    if steps == [] then Network(map[], []) else Advance(Run(steps[..|steps| - 1]), steps[|steps| - 1])
  }

  ghost predicate Issued(steps: seq<Step>, op: PlanOp)
  {
    exists i :: 0 <= i < |steps| && steps[i].Append? && steps[i].op == op
  }

  /** Ids and lamports each name one operation over the whole run. */
  ghost predicate WellFormed(steps: seq<Step>)
  {
    forall x, y :: Issued(steps, x) && Issued(steps, y) && (x.opId == y.opId || x.lamport == y.lamport) ==> x == y
  }

  /** No id twice, and nothing but appended operations. */
  ghost predicate GoodLog(steps: seq<Step>, log: seq<PlanOp>)
  {
    UniqueIds(log) && forall op :: op in log ==> Issued(steps, op)
  }

  ghost predicate GoodNetwork(steps: seq<Step>, net: Network)
  {
    && (forall r :: GoodLog(steps, LogOf(net, r)))
    && forall k :: 0 <= k < |net.saves| ==> GoodLog(steps, net.saves[k])
  }

  lemma GoodLogStays(before: seq<Step>, step: Step, log: seq<PlanOp>)
    requires GoodLog(before, log)
    ensures GoodLog(before + [step], log)
  {
    forall op | op in log ensures Issued(before + [step], op) {
      var i :| 0 <= i < |before| && before[i].Append? && before[i].op == op;
      assert (before + [step])[i] == before[i];
    }
  }

  lemma GoodAppend(before: seq<Step>, step: Step, log: seq<PlanOp>)
    requires GoodLog(before, log) && step.Append?
    ensures GoodLog(before + [step], AppendLog(log, step.op))
  {
    GoodLogStays(before, step, log);
    assert (before + [step])[|before|] == step;
    assert step.op.opId !in Ids(log) ==> UniqueIds(log + [step.op]);
  }

  lemma GoodMerge(steps: seq<Step>, log: seq<PlanOp>, saved: seq<PlanOp>)
    requires GoodLog(steps, log) && GoodLog(steps, saved)
    ensures GoodLog(steps, MergeLogs(log, saved))
  {
    MergeKeepsIds(log, saved);
    MergeContents(log, saved);
  }

  lemma GoodSetLog(steps: seq<Step>, net: Network, r: string, log: seq<PlanOp>)
    requires GoodNetwork(steps, net) && GoodLog(steps, log)
    ensures GoodNetwork(steps, SetLog(net, r, log))
  {
    forall q ensures GoodLog(steps, LogOf(SetLog(net, r, log), q)) {
      assert LogOf(SetLog(net, r, log), q) == if q == r then log else LogOf(net, q);
    }
  }

  lemma GoodSave(steps: seq<Step>, net: Network, r: string)
    requires GoodNetwork(steps, net)
    ensures GoodNetwork(steps, net.(saves := net.saves + [LogOf(net, r)]))
  {
    var net' := net.(saves := net.saves + [LogOf(net, r)]);
    forall q ensures GoodLog(steps, LogOf(net', q)) {
      assert LogOf(net', q) == LogOf(net, q);
    }
  }

  lemma GoodNetworkStays(before: seq<Step>, step: Step, net: Network)
    requires GoodNetwork(before, net)
    ensures GoodNetwork(before + [step], net)
  {
    forall r {
      GoodLogStays(before, step, LogOf(net, r));
    }
    forall k | 0 <= k < |net.saves| {
      GoodLogStays(before, step, net.saves[k]);
    }
  }

  lemma StepKeepsGood(before: seq<Step>, step: Step, net: Network)
    requires GoodNetwork(before, net)
    ensures GoodNetwork(before + [step], Advance(net, step))
  {
    var steps := before + [step];
    GoodNetworkStays(before, step, net);
    match step
    case Append(r, op) =>
      GoodAppend(before, step, LogOf(net, r));
      GoodSetLog(steps, net, r, AppendLog(LogOf(net, r), op));
    case Merge(r, k) =>
      if k < |net.saves| {
        GoodMerge(steps, LogOf(net, r), net.saves[k]);
        GoodSetLog(steps, net, r, MergeLogs(LogOf(net, r), net.saves[k]));
      }
    case Load(r, k) =>
      if k < |net.saves| {
        GoodSetLog(steps, net, r, net.saves[k]);
      }
    case Save(r) =>
      GoodSave(steps, net, r);
  }

  /** In every run every log, held or saved, has unique ids and only operations that were appended somewhere. */
  lemma {:induction false} RunInvariant(steps: seq<Step>)
    ensures GoodNetwork(steps, Run(steps))
  {
    if steps != [] {
      var before, step := steps[..|steps| - 1], steps[|steps| - 1];
      RunInvariant(before);
      StepKeepsGood(before, step, Run(before));
      assert before + [step] == steps;
    }
  }

  /** A save whose operations are all known, as an old one is, changes nothing after a merge. */
  lemma OldSaveChangesNothing(log: seq<PlanOp>, saved: seq<PlanOp>)
    requires Ids(saved) <= Ids(log)
    ensures MergeLogs(log, saved) == log <==> Sorted(log, EarlierLamport)
  {
    UnknownAll(Ids(log), saved);
    assert log + [] == log;
    MergeContents(log, saved);
    if Sorted(log, EarlierLamport) {
      SortOfSorted(log, EarlierLamport);
    }
  }

  /** Replicas that know the same operations and last merged hold identical documents. */
  lemma ReplicasConverge(steps: seq<Step>, r: string, s: string)
    requires WellFormed(steps)
    requires Ids(LogOf(Run(steps), r)) == Ids(LogOf(Run(steps), s))
    requires Sorted(LogOf(Run(steps), r), EarlierLamport) && Sorted(LogOf(Run(steps), s), EarlierLamport)
    ensures DocumentOf(LogOf(Run(steps), r)) == DocumentOf(LogOf(Run(steps), s))
  {
    var a, b := LogOf(Run(steps), r), LogOf(Run(steps), s);
    RunInvariant(steps);
    assert GoodLog(steps, a) && GoodLog(steps, b);
    SameIdsSameOps(a, b);
    SameIdsSameOps(b, a);
    SameOpsSameDocument(a, b);
  }

  lemma SameIdsSameOps(a: seq<PlanOp>, b: seq<PlanOp>)
    requires Consistent(a, b) && Ids(a) == Ids(b)
    ensures forall op :: op in a ==> op in b
  {
    forall op | op in a ensures op in b {
      assert op.opId in Ids(b);
      var twin :| twin in b && twin.opId == op.opId;
    }
  }

  /** Saving a document and merging the save elsewhere. */
  function Pull(steps: seq<Step>, r: string, peer: string): seq<Step>
  {
    steps + [Save(peer)] + [Merge(r, |Run(steps).saves|)]
  }

  lemma RunStep(steps: seq<Step>, step: Step)
    ensures Run(steps + [step]) == Advance(Run(steps), step)
  {
    var longer := steps + [step];
    assert longer[..|longer| - 1] == steps && longer[|longer| - 1] == step;
  }

  /** What a pull does to every replica's log. */
  lemma RunPull(steps: seq<Step>, r: string, peer: string, q: string)
    ensures LogOf(Run(Pull(steps, r, peer)), q)
            == if q == r then MergeLogs(LogOf(Run(steps), r), LogOf(Run(steps), peer)) else LogOf(Run(steps), q)
  {
    RunStep(steps, Save(peer));
    RunStep(steps + [Save(peer)], Merge(r, |Run(steps).saves|));
  }

  lemma StepKeepsWellFormed(steps: seq<Step>, step: Step)
    requires WellFormed(steps) && !step.Append?
    ensures WellFormed(steps + [step])
  {
    var longer := steps + [step];
    forall op | Issued(longer, op) ensures Issued(steps, op) {
      var i :| 0 <= i < |longer| && longer[i].Append? && longer[i].op == op;
      assert steps[i] == longer[i];
    }
  }

  lemma PullKeepsWellFormed(steps: seq<Step>, r: string, peer: string)
    requires WellFormed(steps)
    ensures WellFormed(Pull(steps, r, peer))
  {
    StepKeepsWellFormed(steps, Save(peer));
    StepKeepsWellFormed(steps + [Save(peer)], Merge(r, |Run(steps).saves|));
  }

  /**
   * Once two replicas have merged each other's present documents they agree, whatever happened before, old
   * saves merged or loaded included.
   */
  lemma ExchangeConverges(steps: seq<Step>, r: string, s: string)
    requires WellFormed(steps)
    ensures
      var net := Run(Pull(Pull(steps, r, s), s, r));
      DocumentOf(LogOf(net, r)) == DocumentOf(LogOf(net, s))
  {
    var half := Pull(steps, r, s);
    PullKeepsWellFormed(steps, r, s);
    PullKeepsWellFormed(half, s, r);
    if r != s {
      BothPulled(steps, r, s);
      ReplicasConverge(Pull(half, s, r), r, s);
    }
  }

  /** After pulling from each other both replicas know the same ids, and both logs are sorted. */
  lemma BothPulled(steps: seq<Step>, r: string, s: string)
    requires r != s
    ensures
      var net := Run(Pull(Pull(steps, r, s), s, r));
      && Ids(LogOf(net, r)) == Ids(LogOf(net, s))
      && Sorted(LogOf(net, r), EarlierLamport) && Sorted(LogOf(net, s), EarlierLamport)
  {
    var half := Pull(steps, r, s);
    var mine, theirs := LogOf(Run(steps), r), LogOf(Run(steps), s);
    RunPull(steps, r, s, r);
    RunPull(steps, r, s, s);
    RunPull(half, s, r, r);
    RunPull(half, s, r, s);
    MergeContents(mine, theirs);
    MergeContents(theirs, MergeLogs(mine, theirs));
  }
}
