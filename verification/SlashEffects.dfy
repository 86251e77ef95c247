/** What slashing takes from whom and gives to whom, in numbers. */
module SlashEffects {
  import opened Collections
  import opened LedgerModel
  import opened LedgerInvariants
  import opened LedgerEffects

  // ---------- what is taken ----------

  /** Half of each stake, added up. */
  function Halves(db: Db, verifiers: seq<string>): int
  {
    if verifiers == [] then 0
    else Halves(db, verifiers[..|verifiers| - 1]) + Locked(db, verifiers[|verifiers| - 1]) / 2
  }

  /** Those listed have lost half of their stake; nothing else has changed in any account. */
  ghost predicate Halved(db: Db, db': Db, verifiers: seq<string>)
  {
    && (forall a :: a in db'.accounts <==> a in db.accounts)
    && (forall a :: Balance(db', a) == Balance(db, a) && Unbonding(db', a) == Unbonding(db, a))
    && (forall a :: Locked(db', a) == Locked(db, a) - if a in verifiers then Locked(db, a) / 2 else 0)
  }

  lemma HalvedOneMore(db: Db, mid: Db, db': Db, verifiers: seq<string>, v: string)
    requires Halved(db, mid, verifiers) && v !in verifiers
    requires OnlyMoves(mid, db', v, 0, -(Locked(mid, v) / 2), 0)
    ensures Halved(db, db', verifiers + [v])
  {
    forall a ensures Locked(db', a) == Locked(db, a) - if a in verifiers + [v] then Locked(db, a) / 2 else 0 {
      assert Locked(mid, a) == Locked(db, a) - if a in verifiers then Locked(db, a) / 2 else 0;
    }
  }

  /** Slashing half of one stake. */
  lemma HalfCut(db: Db, eventId: string, v: string, at: int)
    requires Basic(db)
    ensures ChallengeSlash(ColumnsOf(db.accounts, v).locked) == Locked(db, v) / 2
    ensures
      var (after, r) := ExecuteSlashStep(db, eventId, v, Locked(db, v) / 2, at);
      r.Ok? ==> OnlyMoves(db, after, v, 0, -(Locked(db, v) / 2), 0)
  {
    ExecuteSlashCuts(db, eventId, v, Locked(db, v) / 2, at);
  }

  /** The last slash of a list. */
  lemma LastSlash(db: Db, front: seq<string>, v: string, newId: nat -> string, at: int)
    requires SlashAll(db, front + [v], newId, at).1.Ok?
    ensures
      var (mid, sum) := SlashAll(db, front, newId, at);
      var half := ChallengeSlash(ColumnsOf(mid.accounts, v).locked);
      var (after, r) := ExecuteSlashStep(mid, newId(|front|), v, half, at);
      && sum.Ok? && r.Ok? && SlashAll(db, front + [v], newId, at) == (after, Ok(sum.value + half))
  {
    assert (front + [v])[..|front|] == front;
  }

  lemma HalvesLast(db: Db, front: seq<string>, v: string)
    ensures Halves(db, front + [v]) == Halves(db, front) + Locked(db, v) / 2
  {
    assert (front + [v])[..|front|] == front;
  }

  lemma HalvedLast(db: Db, front: seq<string>, v: string, newId: nat -> string, at: int)
    requires Basic(db) && v !in front && SlashAll(db, front + [v], newId, at).1.Ok?
    requires Halved(db, SlashAll(db, front, newId, at).0, front) && SlashAll(db, front, newId, at).1 == Ok(Halves(db, front))
    ensures Halved(db, SlashAll(db, front + [v], newId, at).0, front + [v])
    ensures SlashAll(db, front + [v], newId, at).1 == Ok(Halves(db, front + [v]))
  {
    var mid := SlashAll(db, front, newId, at).0;
    SlashAllKeepsBasic(db, front, newId, at);
    LastSlash(db, front, v, newId, at);
    HalfCut(mid, newId(|front|), v, at);
    HalvesLast(db, front, v);
    HalvedOneMore(db, mid, SlashAll(db, front + [v], newId, at).0, front, v);
    assert Locked(mid, v) == Locked(db, v);
  }

  /** If no verifier is listed twice, each loses half of the stake it had at first, and the total is the sum. */
  lemma {:induction false} SlashAllHalves(db: Db, verifiers: seq<string>, newId: nat -> string, at: int)
    requires Basic(db) && NoRepeats(verifiers) && SlashAll(db, verifiers, newId, at).1.Ok?
    ensures Halved(db, SlashAll(db, verifiers, newId, at).0, verifiers)
    ensures SlashAll(db, verifiers, newId, at).1 == Ok(Halves(db, verifiers))
  {
    if verifiers != [] {
      var front, v := verifiers[..|verifiers| - 1], verifiers[|verifiers| - 1];
      FrontNoRepeats(verifiers);
      FrontAndLast(verifiers);
      LastSlash(db, front, v, newId, at);
      SlashAllHalves(db, front, newId, at);
      HalvedLast(db, front, v, newId, at);
    }
  }

  // ---------- what is paid ----------

  /** Half to the challenger and two fifths to the honest, each rounded down; the rest is burned. */
  lemma SharesMean(total: nat)
    ensures
      var s := Split(total);
      && s.totalSlashed == total && s.challengerPayout + s.honestPayout + s.burned == total
      && 2 * s.challengerPayout <= total < 2 * s.challengerPayout + 2
      && 5 * s.honestPayout <= 2 * total < 5 * s.honestPayout + 5
  {
  }

  /** Equal parts, rounded down, for all the honest but the first, who gets what remains. */
  lemma HonestSharesMean(total: nat, count: nat, i: nat)
    requires i < count
    ensures
      var share := HonestShare(total, count, i);
      if i == 0 then share == total - (count - 1) * (total / count)
      else count * share <= total < count * share + count
  {
    assert total == count * (total / count) + total % count;
  }

  /** What these log entries reward `a` with. */
  function Rewards(entries: seq<Entry>, a: string): int
  {
    if entries == [] then 0
    else
      var e := entries[|entries| - 1];
      Rewards(entries[..|entries| - 1], a) + if e.kind == SlashReward && e.account == a then e.amount else 0
  }

  lemma {:induction false} RewardsConcat(more: seq<Entry>, last: seq<Entry>, a: string)
    ensures Rewards(more + last, a) == Rewards(more, a) + Rewards(last, a)
  {
    if last == [] {
      assert more + last == more;
    } else {
      assert (more + last)[..|more + last| - 1] == more + last[..|last| - 1];
      RewardsConcat(more, last[..|last| - 1], a);
    }
  }

  /** The log grows by rewards, which the accounts that exist receive. */
  ghost predicate Rewarded(db: Db, db': Db, entries: seq<Entry>)
  {
    && db'.ops == db.ops + entries
    && (forall a :: a in db'.accounts <==> a in db.accounts)
    && (forall a :: Locked(db', a) == Locked(db, a) && Unbonding(db', a) == Unbonding(db, a))
    && (forall a :: a in db.accounts ==> Balance(db', a) == Balance(db, a) + Rewards(entries, a))
  }

  lemma RewardedOne(db: Db, account: string, amount: int, at: int)
    ensures Rewarded(db, Reward(db, account, amount, at), [Entry(account, SlashReward, amount, at)])
  {
    var entries := [Entry(account, SlashReward, amount, at)];
    assert entries[..0] == [];
  }

  lemma RewardedMore(db: Db, mid: Db, db': Db, first: seq<Entry>, second: seq<Entry>)
    requires Rewarded(db, mid, first) && Rewarded(mid, db', second)
    ensures Rewarded(db, db', first + second)
  {
    forall a | a in db.accounts ensures Balance(db', a) == Balance(db, a) + Rewards(first + second, a) {
      RewardsConcat(first, second, a);
      assert Balance(db', a) == Balance(mid, a) + Rewards(second, a);
    }
    assert db.ops + first + second == db.ops + (first + second);
  }

  /** The entries for the first `n` of the honest verifiers, who share `total`. */
  function HonestEntries(honest: seq<string>, total: int, n: nat, at: int): seq<Entry>
    requires n <= |honest|
  {
    seq(n, i requires 0 <= i < n =>
      Entry(honest[i], SlashReward, total / |honest| + if i == 0 then total % |honest| else 0, at))
  }

  lemma {:induction false} HonestRewarded(db: Db, honest: seq<string>, total: int, n: nat, at: int)
    requires n <= |honest|
    ensures Rewarded(db, RewardHonest(db, honest, total, n, at), HonestEntries(honest, total, n, at))
  {
    if n == 0 {
      assert db.ops + [] == db.ops;
    } else {
      var mid, share := RewardHonest(db, honest, total, n - 1, at), HonestShare(total, |honest|, n - 1);
      HonestRewarded(db, honest, total, n - 1, at);
      RewardedOne(mid, honest[n - 1], share, at);
      var more := [Entry(honest[n - 1], SlashReward, share, at)];
      RewardedMore(db, mid, Reward(mid, honest[n - 1], share, at), HonestEntries(honest, total, n - 1, at), more);
      assert HonestEntries(honest, total, n, at) == HonestEntries(honest, total, n - 1, at) + more;
    }
  }

  lemma NotRewarded(db: Db)
    ensures Rewarded(db, db, [])
  {
    assert db.ops + [] == db.ops;
  }

  /** What a total of slashes pays out, as log entries. */
  function PayoutEntries(challenger: string, honest: seq<string>, total: nat, at: int): seq<Entry>
  {
    var half, fifths := total / 2, 2 * total / 5;
    (if half > 0 then [Entry(challenger, SlashReward, half, at)] else [])
    + if fifths > 0 then HonestEntries(honest, fifths, |honest|, at) else []
  }

  /** The challenger is rewarded with half, if that is anything, and the honest, if any, with their shares of two fifths. */
  lemma PayOutRewards(db: Db, challenger: string, honest: seq<string>, total: nat, at: int)
    ensures Rewarded(db, PayOut(db, challenger, honest, Split(total), at), PayoutEntries(challenger, honest, total, at))
  {
    var half, fifths := total / 2, 2 * total / 5;
    assert Split(total).challengerPayout == half && Split(total).honestPayout == fifths;
    var paid := if half > 0 then Reward(db, challenger, half, at) else db;
    var toChallenger := if half > 0 then [Entry(challenger, SlashReward, half, at)] else [];
    NotRewarded(db);
    RewardedOne(db, challenger, half, at);
    assert Rewarded(db, paid, toChallenger);
    NotRewarded(paid);
    HonestRewarded(paid, honest, fifths, |honest|, at);
    var toHonest := if fifths > 0 then HonestEntries(honest, fifths, |honest|, at) else [];
    RewardedMore(db, paid, PayOut(db, challenger, honest, Split(total), at), toChallenger, toHonest);
  }

  // ---------- a whole challenge ----------

  lemma {:induction false} HalvesNonNegative(db: Db, verifiers: seq<string>)
    requires Basic(db)
    ensures Halves(db, verifiers) >= 0
  {
    if verifiers != [] {
      HalvesNonNegative(db, verifiers[..|verifiers| - 1]);
    }
  }

  /** A challenge that goes through slashes and then pays out. */
  lemma SlashThenPay(db: Db, verifiers: seq<string>, challenger: string, honest: seq<string>,
                     attestors: Option<set<string>>, newId: nat -> string, at: int)
    requires verifiers != []
    ensures
      var (db', r) := SlashVerifiersStep(db, verifiers, challenger, honest, attestors, newId, at);
      && (attestors.None? ==> r == Err(MissingAttestationLog) && db' == db)
      && (attestors.Some? && (exists h :: h in honest && h !in attestors.value) ==>
            r == Err(UnverifiedHonestVerifiers) && db' == db)
      && (r.Ok? ==>
            var (slashed, sum) := SlashAll(db, verifiers, newId, at);
            sum.Ok? && db' == PayOut(slashed, challenger, honest, Split(sum.value), at) && r.value == Split(sum.value))
  {
  }

  /** The slashes, then the rewards, account by account. */
  lemma HalvedThenRewarded(db: Db, mid: Db, db': Db, verifiers: seq<string>, entries: seq<Entry>)
    requires Halved(db, mid, verifiers) && Rewarded(mid, db', entries)
    ensures Challenged(db, db', verifiers, entries)
  {
    forall a ensures Locked(db', a) == Locked(db, a) - if a in verifiers then Locked(db, a) / 2 else 0 {
      assert Locked(db', a) == Locked(mid, a);
    }
    forall a ensures Unbonding(db', a) == Unbonding(db, a) {
      assert Unbonding(db', a) == Unbonding(mid, a);
    }
    forall a | a in db.accounts ensures Balance(db', a) == Balance(db, a) + Rewards(entries, a) {
      assert Balance(db', a) == Balance(mid, a) + Rewards(entries, a);
    }
  }

  /** Those challenged have lost half of their stake, and the accounts that exist got the rewards logged for them. */
  ghost predicate Challenged(db: Db, db': Db, verifiers: seq<string>, entries: seq<Entry>)
  {
    && (forall a :: a in db'.accounts <==> a in db.accounts)
    && (forall a :: a in db.accounts ==> Balance(db', a) == Balance(db, a) + Rewards(entries, a))
    && (forall a :: Locked(db', a) == Locked(db, a) - if a in verifiers then Locked(db, a) / 2 else 0)
    && (forall a :: Unbonding(db', a) == Unbonding(db, a))
  }

  /**
   * A challenge that goes through, with no verifier listed twice: each loses half of its stake, the challenger
   * gets half of the sum, the honest share two fifths of it, and the summary says so.
   */
  lemma SlashVerifiersMoves(db: Db, verifiers: seq<string>, challenger: string, honest: seq<string>,
                            attestors: Option<set<string>>, newId: nat -> string, at: int)
    requires Basic(db) && verifiers != [] && NoRepeats(verifiers)
    requires SlashVerifiersStep(db, verifiers, challenger, honest, attestors, newId, at).1.Ok?
    ensures Halves(db, verifiers) >= 0
    ensures
      var (db', r) := SlashVerifiersStep(db, verifiers, challenger, honest, attestors, newId, at);
      var total: nat := Halves(db, verifiers);
      && r.value == SlashSummary(total, total / 2, 2 * total / 5, total - total / 2 - 2 * total / 5)
      && Challenged(db, db', verifiers, PayoutEntries(challenger, honest, total, at))
  {
    HalvesNonNegative(db, verifiers);
    SlashThenPay(db, verifiers, challenger, honest, attestors, newId, at);
    var (slashed, sum) := SlashAll(db, verifiers, newId, at);
    SlashAllHalves(db, verifiers, newId, at);
    PayOutRewards(slashed, challenger, honest, sum.value, at);
    HalvedThenRewarded(db, slashed, SlashVerifiersStep(db, verifiers, challenger, honest, attestors, newId, at).0, verifiers,
                       PayoutEntries(challenger, honest, sum.value, at));
  }
}
