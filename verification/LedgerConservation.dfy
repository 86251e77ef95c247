/** Credits in circulation against the minted supply. */
module LedgerConservation {
  import opened Collections
  import opened LedgerModel
  import opened LedgerInvariants

  /** Sum of all columns of all accounts. */
  ghost function Total(accounts: Accounts): int
  {
    if accounts == map[] then 0
    else
      var a :| a in accounts;
      Worth(accounts[a]) + Total(accounts - {a})
  }

  lemma {:induction false} TotalWithout(accounts: Accounts, a: string)
    requires a in accounts
    ensures Total(accounts) == Worth(accounts[a]) + Total(accounts - {a})
  {
    var b :| b in accounts && Total(accounts) == Worth(accounts[b]) + Total(accounts - {b});
    if a != b {
      TotalWithout(accounts - {b}, a);
      assert accounts - {b} - {a} == accounts - {a} - {b};
      TotalWithout(accounts - {a}, b);
    }
  }

  lemma TotalUpdate(accounts: Accounts, a: string, c: Columns)
    ensures Total(accounts[a := c]) == Total(accounts) - Worth(ColumnsOf(accounts, a)) + Worth(c)
  {
    var updated := accounts[a := c];
    TotalWithout(updated, a);
    assert updated - {a} == accounts - {a};
    if a in accounts {
      TotalWithout(accounts, a);
    } else {
      assert accounts - {a} == accounts;
    }
  }

  lemma AdjustTotal(accounts: Accounts, a: string, delta: Columns)
    requires a in accounts && Adjust(accounts, a, delta).Some?
    ensures Total(Adjust(accounts, a, delta).value) == Total(accounts) + Worth(delta)
  {
    TotalUpdate(accounts, a, Plus(accounts[a], delta));
  }

  lemma CreditTotal(accounts: Accounts, a: string, amount: int)
    ensures Total(Credit(accounts, a, amount)) == Total(accounts) + amount
  {
    TotalUpdate(accounts, a, Plus(ColumnsOf(accounts, a), Columns(amount, 0, 0)));
  }

  /** Minted credits that no account holds. */
  ghost function Burned(db: Db): int
  {
    db.supply - Total(db.accounts)
  }

  predicate IsSlash(c: Command)
  {
    c.DoExecuteSlash? || c.DoSlashVerifiers? || c.DoPayOut?
  }

  lemma CreateConserves(db: Db, id: string, initial: int, minter: Option<string>, now: int)
    ensures Burned(CreateAccountStep(db, id, initial, minter, now).0) == Burned(db)
  {
    if CreateAccountStep(db, id, initial, minter, now).1.Ok? {
      Created(db, id, initial, minter, now);
      NewAccountTotal(db.accounts, id, initial);
    }
  }

  lemma Created(db: Db, id: string, initial: int, minter: Option<string>, now: int)
    requires CreateAccountStep(db, id, initial, minter, now).1.Ok?
    ensures
      var db' := CreateAccountStep(db, id, initial, minter, now).0;
      id !in db.accounts && db'.accounts == db.accounts[id := Columns(initial, 0, 0)] && db'.supply == db.supply + initial
  {
  }

  lemma NewAccountTotal(accounts: Accounts, id: string, initial: int)
    requires id !in accounts
    ensures Total(accounts[id := Columns(initial, 0, 0)]) == Total(accounts) + initial
  {
    TotalUpdate(accounts, id, Columns(initial, 0, 0));
  }

  lemma TransferConserves(db: Db, from: string, to: string, amount: int, allowCreate: bool, now: int)
    ensures Burned(TransferStep(db, from, to, amount, allowCreate, now).0) == Burned(db)
  {
    if TransferStep(db, from, to, amount, allowCreate, now).1.Ok? {
      var debited := db.accounts[from := Plus(ColumnsOf(db.accounts, from), Columns(-amount, 0, 0))];
      TotalUpdate(db.accounts, from, Plus(ColumnsOf(db.accounts, from), Columns(-amount, 0, 0)));
      CreditTotal(debited, to, amount);
    }
  }

  lemma EscrowConserves(db: Db, account: string, amount: int, escrowId: string, now: int)
    ensures Burned(EscrowStep(db, account, amount, escrowId, now).0) == Burned(db)
  {
    if EscrowStep(db, account, amount, escrowId, now).1.Ok? {
      AdjustTotal(db.accounts, account, Columns(-amount, amount, 0));
    }
  }

  lemma ReleaseConserves(db: Db, escrowId: string, to: string, now: int)
    requires Basic(db)
    ensures Burned(ReleaseStep(db, escrowId, to, now).0) == Burned(db)
  {
    if ReleaseStep(db, escrowId, to, now).1.Ok? {
      var row := db.escrows[escrowId];
      var unlocked := Adjust(db.accounts, row.account, Columns(0, -row.amount, 0)).value;
      AdjustTotal(db.accounts, row.account, Columns(0, -row.amount, 0));
      CreditTotal(unlocked, to, row.amount);
    }
  }

  lemma CancelConserves(db: Db, escrowId: string, now: int)
    requires Basic(db)
    ensures Burned(CancelStep(db, escrowId, now).0) == Burned(db)
  {
    if CancelStep(db, escrowId, now).1.Ok? {
      var row := db.escrows[escrowId];
      AdjustTotal(db.accounts, row.account, Columns(row.amount, -row.amount, 0));
    }
  }

  lemma StakeConserves(db: Db, account: string, amount: int, now: int)
    ensures Burned(StakeStep(db, account, amount, now).0) == Burned(db)
  {
    if StakeStep(db, account, amount, now).1.Ok? {
      AdjustTotal(db.accounts, account, Columns(-amount, amount, 0));
    }
  }

  lemma UnstakeConserves(db: Db, account: string, amount: int, seconds: int, id: string, now: int)
    ensures Burned(UnstakeStep(db, account, amount, seconds, id, now).0) == Burned(db)
  {
    if UnstakeStep(db, account, amount, seconds, id, now).1.Ok? {
      AdjustTotal(db.accounts, account, Columns(0, -amount, amount));
    }
  }

  lemma CompleteConserves(db: Db, account: string, now: int)
    ensures Burned(CompleteStep(db, account, now).0) == Burned(db)
  {
    var (db', r) := CompleteStep(db, account, now);
    if r.Ok? && DueEntries(db.unbonding, account, now) != [] {
      MovedWithin(db.accounts, account, Columns(r.value, 0, -r.value));
    }
  }

  /** Moving credits between the columns of one account, or of none. */
  lemma MovedWithin(accounts: Accounts, id: string, delta: Columns)
    requires Worth(delta) == 0 && Adjust(accounts, id, delta).Some?
    ensures Total(Adjust(accounts, id, delta).value) == Total(accounts)
  {
    if id in accounts {
      AdjustTotal(accounts, id, delta);
    }
  }

  /** What a slash takes from the stake: the smaller of the two, and nothing if it fails. */
  function CutOf(db: Db, eventId: string, account: string, amount: int, at: int): int
  {
    var actual := Min(ColumnsOf(db.accounts, account).locked, amount);
    if ExecuteSlashStep(db, eventId, account, amount, at).1.Ok? && actual > 0 then actual else 0
  }

  lemma ExecuteSlashBurns(db: Db, eventId: string, account: string, amount: int, at: int)
    requires Basic(db)
    ensures
      var db' := ExecuteSlashStep(db, eventId, account, amount, at).0;
      && Burned(db') == Burned(db) + CutOf(db, eventId, account, amount, at) && db'.supply == db.supply
      && forall a :: a in db'.accounts <==> a in db.accounts
  {
    var actual := Min(ColumnsOf(db.accounts, account).locked, amount);
    if actual > 0 && ExecuteSlashStep(db, eventId, account, amount, at).1.Ok? {
      AdjustTotal(db.accounts, account, Columns(0, -actual, 0));
    }
  }

  /** What the slashes of a list of verifiers take, up to the first that fails. */
  function CutAll(db: Db, verifiers: seq<string>, newId: nat -> string, at: int): int
  {
    if verifiers == [] then 0
    else
      var n := |verifiers| - 1;
      var (before, r) := SlashAll(db, verifiers[..n], newId, at);
      CutAll(db, verifiers[..n], newId, at)
      + if r.Err? then 0
        else CutOf(before, newId(n), verifiers[n], ChallengeSlash(ColumnsOf(before.accounts, verifiers[n]).locked), at)
  }

  lemma {:induction false} SlashAllBurns(db: Db, verifiers: seq<string>, newId: nat -> string, at: int)
    requires Basic(db)
    ensures
      var (db', r) := SlashAll(db, verifiers, newId, at);
      && Burned(db') == Burned(db) + CutAll(db, verifiers, newId, at) && db'.supply == db.supply
      && CutAll(db, verifiers, newId, at) >= 0
      && (r.Ok? ==> r.value == CutAll(db, verifiers, newId, at))
  {
    if verifiers != [] {
      var n := |verifiers| - 1;
      SlashAllBurns(db, verifiers[..n], newId, at);
      SlashAllKeepsBasic(db, verifiers[..n], newId, at);
      var mid := SlashAll(db, verifiers[..n], newId, at).0;
      var staked := ColumnsOf(mid.accounts, verifiers[n]).locked;
      assert 0 <= ChallengeSlash(staked) <= staked;
      ExecuteSlashBurns(mid, newId(n), verifiers[n], ChallengeSlash(staked), at);
    }
  }

  // ---------- what slash_verifiers pays ----------

  /** The part of the first `n` honest shares that goes to existing accounts. */
  function HonestPaid(accounts: Accounts, honest: seq<string>, total: int, n: nat): int
    requires n <= |honest|
  {
    if n == 0 then 0
    else
      HonestPaid(accounts, honest, total, n - 1)
      + if honest[n - 1] in accounts then HonestShare(total, |honest|, n - 1) else 0
  }

  function Paid(accounts: Accounts, challenger: string, honest: seq<string>, s: SlashSummary): int
  {
    (if s.challengerPayout > 0 && challenger in accounts then s.challengerPayout else 0)
    + (if s.honestPayout > 0 && honest != [] then HonestPaid(accounts, honest, s.honestPayout, |honest|) else 0)
  }

  lemma RewardPays(db: Db, account: string, amount: int, at: int)
    ensures Burned(Reward(db, account, amount, at)) == Burned(db) - if account in db.accounts then amount else 0
    ensures forall a :: a in Reward(db, account, amount, at).accounts <==> a in db.accounts
  {
    CreditTotal(db.accounts, account, amount);
  }

  lemma {:induction false} HonestPaidCongruent(x: Accounts, y: Accounts, honest: seq<string>, total: int, n: nat)
    requires n <= |honest| && forall a :: a in x <==> a in y
    ensures HonestPaid(x, honest, total, n) == HonestPaid(y, honest, total, n)
  {
    if n > 0 {
      HonestPaidCongruent(x, y, honest, total, n - 1);
    }
  }

  lemma {:induction false} RewardHonestPays(db: Db, honest: seq<string>, total: int, n: nat, at: int)
    requires n <= |honest|
    ensures Burned(RewardHonest(db, honest, total, n, at)) == Burned(db) - HonestPaid(db.accounts, honest, total, n)
    ensures forall a :: a in RewardHonest(db, honest, total, n, at).accounts <==> a in db.accounts
  {
    if n > 0 {
      RewardHonestPays(db, honest, total, n - 1, at);
      RewardPays(RewardHonest(db, honest, total, n - 1, at), honest[n - 1], HonestShare(total, |honest|, n - 1), at);
    }
  }

  lemma PayOutPays(db: Db, challenger: string, honest: seq<string>, s: SlashSummary, at: int)
    ensures Burned(PayOut(db, challenger, honest, s, at)) == Burned(db) - Paid(db.accounts, challenger, honest, s)
  {
    var paid := if s.challengerPayout > 0 then Reward(db, challenger, s.challengerPayout, at) else db;
    RewardPays(db, challenger, s.challengerPayout, at);
    if s.honestPayout > 0 && honest != [] {
      RewardHonestPays(paid, honest, s.honestPayout, |honest|, at);
      HonestPaidCongruent(db.accounts, paid.accounts, honest, s.honestPayout, |honest|);
    }
  }

  /** Everyone owed a positive honest share has an account. */
  ghost predicate HonestReachable(accounts: Accounts, honest: seq<string>, total: int, n: nat)
    requires n <= |honest|
  {
    forall i :: 0 <= i < n && HonestShare(total, |honest|, i) > 0 ==> honest[i] in accounts
  }

  /** The shares of the first `n`, all paid. */
  function SharesUpTo(total: int, count: nat, n: nat): int
    requires count > 0
  {
    n * (total / count) + if n > 0 then total % count else 0
  }

  lemma {:induction false} HonestPaidBound(accounts: Accounts, honest: seq<string>, total: int, n: nat)
    requires n <= |honest| && honest != [] && total >= 0
    ensures 0 <= HonestPaid(accounts, honest, total, n) <= SharesUpTo(total, |honest|, n)
    ensures HonestPaid(accounts, honest, total, n) == SharesUpTo(total, |honest|, n)
            <==> HonestReachable(accounts, honest, total, n)
  {
    if n > 0 {
      HonestPaidBound(accounts, honest, total, n - 1);
      NextShare(total, |honest|, n);
      assert HonestReachable(accounts, honest, total, n) <==>
             HonestReachable(accounts, honest, total, n - 1)
             && (HonestShare(total, |honest|, n - 1) > 0 ==> honest[n - 1] in accounts);
    }
  }

  lemma NextShare(total: int, count: nat, n: nat)
    requires count > 0 && n > 0 && total >= 0
    ensures SharesUpTo(total, count, n) == SharesUpTo(total, count, n - 1) + HonestShare(total, count, n - 1)
    ensures HonestShare(total, count, n - 1) >= 0
  {
    assert n * (total / count) == (n - 1) * (total / count) + total / count;
    assert total / count >= 0;
  }

  lemma AllShares(total: int, count: nat)
    requires count > 0
    ensures SharesUpTo(total, count, count) == total
  {
    assert count * (total / count) + total % count == total;
  }

  /** Both payouts reach accounts in full. */
  ghost predicate PayoutsReach(accounts: Accounts, challenger: string, honest: seq<string>, s: SlashSummary)
  {
    && (s.challengerPayout > 0 ==> challenger in accounts)
    && (s.honestPayout > 0 ==> honest != [] && HonestReachable(accounts, honest, s.honestPayout, |honest|))
  }

  lemma PaidBound(accounts: Accounts, challenger: string, honest: seq<string>, s: SlashSummary)
    requires s.challengerPayout >= 0 && s.honestPayout >= 0
    ensures 0 <= Paid(accounts, challenger, honest, s) <= s.challengerPayout + s.honestPayout
    ensures Paid(accounts, challenger, honest, s) == s.challengerPayout + s.honestPayout
            <==> PayoutsReach(accounts, challenger, honest, s)
  {
    if s.honestPayout > 0 && honest != [] {
      HonestPaidBound(accounts, honest, s.honestPayout, |honest|);
      AllShares(s.honestPayout, |honest|);
    }
  }

  lemma SlashKeepsKeys(db: Db, verifiers: seq<string>, newId: nat -> string, at: int)
    ensures forall a :: a in SlashAll(db, verifiers, newId, at).0.accounts <==> a in db.accounts
  {
    if verifiers != [] {
      SlashKeepsKeys(db, verifiers[..|verifiers| - 1], newId, at);
    }
  }

  lemma PayoutsReachCongruent(x: Accounts, y: Accounts, challenger: string, honest: seq<string>, s: SlashSummary)
    requires forall a :: a in x <==> a in y
    ensures PayoutsReach(x, challenger, honest, s) <==> PayoutsReach(y, challenger, honest, s)
  {
  }

  /**
   * A successful slashing takes from circulation at least what it reports as burned, and exactly
   * that much if and only if every payout reaches an account.
   */
  lemma SlashVerifiersBurnsIff(db: Db, verifiers: seq<string>, challenger: string, honest: seq<string>,
                               attestors: Option<set<string>>, newId: nat -> string, at: int)
    requires Basic(db) && SlashVerifiersStep(db, verifiers, challenger, honest, attestors, newId, at).1.Ok?
    ensures
      var (db', r) := SlashVerifiersStep(db, verifiers, challenger, honest, attestors, newId, at);
      var s := r.value;
      && s.challengerPayout + s.honestPayout + s.burned == s.totalSlashed
      && Total(db'.accounts) <= Total(db.accounts) - s.burned
      && (Total(db'.accounts) == Total(db.accounts) - s.burned <==> PayoutsReach(db.accounts, challenger, honest, s))
  {
    if verifiers != [] {
      var (slashed, r) := SlashAll(db, verifiers, newId, at);
      var s := Split(r.value);
      SlashAllKeepsBasic(db, verifiers, newId, at);
      SlashAllBurns(db, verifiers, newId, at);
      SlashKeepsKeys(db, verifiers, newId, at);
      PayOutPays(slashed, challenger, honest, s, at);
      PaidBound(slashed.accounts, challenger, honest, s);
      PayoutsReachCongruent(db.accounts, slashed.accounts, challenger, honest, s);
      PayOutSupply(slashed, challenger, honest, s, at);
    }
  }

  lemma {:induction false} RewardHonestSupply(db: Db, honest: seq<string>, total: int, n: nat, at: int)
    requires n <= |honest|
    ensures RewardHonest(db, honest, total, n, at).supply == db.supply
  {
    if n > 0 {
      RewardHonestSupply(db, honest, total, n - 1, at);
    }
  }

  lemma PayOutSupply(db: Db, challenger: string, honest: seq<string>, s: SlashSummary, at: int)
    ensures PayOut(db, challenger, honest, s, at).supply == db.supply
  {
    var paid := if s.challengerPayout > 0 then Reward(db, challenger, s.challengerPayout, at) else db;
    if s.honestPayout > 0 && honest != [] {
      RewardHonestSupply(paid, honest, s.honestPayout, |honest|, at);
    }
  }

  /** What is paid after the slashes, told from the accounts before them. */
  lemma SlashedPays(db: Db, slashed: Db, challenger: string, honest: seq<string>, total: int, at: int)
    requires total >= 0 && forall a :: a in slashed.accounts <==> a in db.accounts
    ensures
      var after, paid := PayOut(slashed, challenger, honest, Split(total), at), Paid(db.accounts, challenger, honest, Split(total));
      Burned(after) == Burned(slashed) - paid && after.supply == slashed.supply && 0 <= paid <= total
  {
    var s := Split(total);
    PayOutPays(slashed, challenger, honest, s, at);
    PaidBound(slashed.accounts, challenger, honest, s);
    HonestPaidCongruent(db.accounts, slashed.accounts, honest, s.honestPayout, |honest|);
    PayOutSupply(slashed, challenger, honest, s, at);
  }

  lemma SlashVerifiersBurns(db: Db, c: Command)
    requires Basic(db) && c.DoSlashVerifiers?
    ensures Burned(Exec(db, c)) == Burned(db) + CutBy(db, c) - PaidBy(db, c) && Exec(db, c).supply == db.supply
    ensures 0 <= PaidBy(db, c) <= CutBy(db, c)
  {
    if Attempted(c) {
      var (slashed, r) := SlashAll(db, c.verifiers, c.newId, c.now);
      SlashAllBurns(db, c.verifiers, c.newId, c.now);
      if r.Ok? {
        SlashKeepsKeys(db, c.verifiers, c.newId, c.now);
        SlashedPays(db, slashed, c.challenger, c.honest, r.value, c.now);
      }
    }
  }

  // ---------- whole runs ----------

  /** `slash_verifiers` gets as far as slashing. */
  predicate Attempted(c: Command)
    requires c.DoSlashVerifiers?
  {
    && c.verifiers != [] && c.attestors.Some?
    && forall i :: 0 <= i < |c.honest| ==> c.honest[i] in c.attestors.value
  }

  /** The credits a command takes out of circulation. */
  function CutBy(db: Db, c: Command): int
  {
    match c
    case DoExecuteSlash(eventId, account, amount, now) => CutOf(db, eventId, account, amount, now)
    case DoSlashVerifiers(verifiers, _, _, _, newId, now) => if Attempted(c) then CutAll(db, verifiers, newId, now) else 0
    case _ => 0
  }

  /** The credits its payouts put into circulation. */
  function PaidBy(db: Db, c: Command): int
  {
    match c
    case DoPayOut(challenger, honest, total, now) => Paid(db.accounts, challenger, honest, Split(total))
    case DoSlashVerifiers(verifiers, challenger, honest, _, newId, now) =>
      var r := SlashAll(db, verifiers, newId, now).1;
      if Attempted(c) && r.Ok? then Paid(db.accounts, challenger, honest, Split(r.value)) else 0
    case _ => 0
  }

  lemma PlainConserves(db: Db, c: Command)
    requires Basic(db) && 0 <= db.supply <= MAX_SUPPLY && !IsSlash(c)
    ensures Burned(Exec(db, c)) == Burned(db) && db.supply <= Exec(db, c).supply <= MAX_SUPPLY
  {
    match c
    case CreateAccount(id, initial, minter, now) => CreateConserves(db, id, initial, minter, now);
    case DoTransfer(from, to, amount, allowCreate, now) => TransferConserves(db, from, to, amount, allowCreate, now);
    case DoEscrow(account, amount, escrowId, now) => EscrowConserves(db, account, amount, escrowId, now);
    case DoRelease(escrowId, to, now) => ReleaseConserves(db, escrowId, to, now);
    case DoCancel(escrowId, now) => CancelConserves(db, escrowId, now);
    case DoStake(account, amount, now) => StakeConserves(db, account, amount, now);
    case DoUnstake(account, amount, seconds, id, now) => UnstakeConserves(db, account, amount, seconds, id, now);
    case DoComplete(account, now) => CompleteConserves(db, account, now);
    case _ =>
  }

  /** Only slashing and its payouts change what is in circulation, by exactly what they cut and pay. */
  lemma ExecConserves(db: Db, c: Command)
    requires Basic(db) && 0 <= db.supply <= MAX_SUPPLY
    ensures Burned(Exec(db, c)) == Burned(db) + CutBy(db, c) - PaidBy(db, c)
    ensures db.supply <= Exec(db, c).supply <= MAX_SUPPLY
    ensures CutBy(db, c) >= 0 && PaidBy(db, c) >= 0 && (!c.DoPayOut? ==> PaidBy(db, c) <= CutBy(db, c))
    ensures !IsSlash(c) ==> CutBy(db, c) == PaidBy(db, c) == 0
  {
    if c.DoExecuteSlash? {
      ExecuteSlashBurns(db, c.eventId, c.account, c.amount, c.now);
    } else if c.DoSlashVerifiers? {
      SlashVerifiersBurns(db, c);
    } else if c.DoPayOut? {
      PayOutPays(db, c.challenger, c.honest, Split(c.total), c.now);
      PaidBound(db.accounts, c.challenger, c.honest, Split(c.total));
      PayOutSupply(db, c.challenger, c.honest, Split(c.total), c.now);
    } else {
      PlainConserves(db, c);
    }
  }

  ghost function CutIn(commands: seq<Command>): int
  {
    if commands == [] then 0
    else CutIn(commands[..|commands| - 1]) + CutBy(Run(commands[..|commands| - 1]), commands[|commands| - 1])
  }

  ghost function PaidIn(commands: seq<Command>): int
  {
    if commands == [] then 0
    else PaidIn(commands[..|commands| - 1]) + PaidBy(Run(commands[..|commands| - 1]), commands[|commands| - 1])
  }

  /** Every payout is part of an uninterrupted `slash_verifiers`. */
  ghost predicate Uninterrupted(commands: seq<Command>)
  {
    forall i :: 0 <= i < |commands| ==> !commands[i].DoPayOut?
  }

  ghost predicate NoSlashes(commands: seq<Command>)
  {
    forall i :: 0 <= i < |commands| ==> !IsSlash(commands[i])
  }

  /**
   * In every run no column is negative, the supply is at most its maximum, and it exceeds circulation by
   * exactly what slashes have cut and payouts have not returned: so never falls below it while slashing is
   * uninterrupted, and equals it until the first slash.
   */
  lemma {:induction false} Conservation(commands: seq<Command>)
    ensures AllNonNegative(Run(commands).accounts) && 0 <= Run(commands).supply <= MAX_SUPPLY
    ensures Run(commands).supply - Total(Run(commands).accounts) == CutIn(commands) - PaidIn(commands)
    ensures CutIn(commands) >= 0 && PaidIn(commands) >= 0
    ensures Uninterrupted(commands) ==> Total(Run(commands).accounts) <= Run(commands).supply
    ensures NoSlashes(commands) ==> Total(Run(commands).accounts) == Run(commands).supply
  {
    RunKeepsBasic(commands);
    if commands != [] {
      var front, c := commands[..|commands| - 1], commands[|commands| - 1];
      Conservation(front);
      RunKeepsBasic(front);
      ExecConserves(Run(front), c);
      assert Uninterrupted(commands) ==> Uninterrupted(front) && !c.DoPayOut?;
      assert NoSlashes(commands) ==> NoSlashes(front) && !IsSlash(c);
    }
  }
}
