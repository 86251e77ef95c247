/** What every ledger, stake and slash step keeps. */
module LedgerInvariants {
  import opened Collections
  import opened LedgerModel
  import opened LedgerLog

  ghost predicate AllNonNegative(accounts: Accounts)
  {
    forall a :: a in accounts ==> NonNegative(accounts[a])
  }

  ghost predicate RowsPositive(db: Db)
  {
    && (forall id :: id in db.escrows ==> db.escrows[id].amount > 0)
    && (forall i :: 0 <= i < |db.unbonding| ==> db.unbonding[i].amount > 0)
  }

  ghost predicate Basic(db: Db)
  {
    AllNonNegative(db.accounts) && RowsOwned(db) && RowsPositive(db)
  }

  // ---------- rows and signs ----------

  lemma {:induction false} MarkDueFacts(rows: seq<UnbondingRow>, account: string, now: int)
    ensures forall i :: 0 <= i < |rows| ==>
              MarkDue(rows, account, now)[i] == if Due(rows[i], account, now) then rows[i].(completed := true) else rows[i]
  {
    if rows != [] {
      MarkDueFacts(rows[..|rows| - 1], account, now);
    }
  }

  lemma CreateKeepsBasic(db: Db, id: string, initial: int, minter: Option<string>, now: int)
    requires Basic(db)
    ensures Basic(CreateAccountStep(db, id, initial, minter, now).0)
  {
  }

  lemma TransferKeepsBasic(db: Db, from: string, to: string, amount: int, allowCreate: bool, now: int)
    requires Basic(db)
    ensures Basic(TransferStep(db, from, to, amount, allowCreate, now).0)
  {
  }

  lemma EscrowKeepsBasic(db: Db, account: string, amount: int, escrowId: string, now: int)
    requires Basic(db)
    ensures Basic(EscrowStep(db, account, amount, escrowId, now).0)
  {
  }

  lemma ReleaseKeepsBasic(db: Db, escrowId: string, to: string, now: int)
    requires Basic(db)
    ensures Basic(ReleaseStep(db, escrowId, to, now).0)
  {
  }

  lemma CancelKeepsBasic(db: Db, escrowId: string, now: int)
    requires Basic(db)
    ensures Basic(CancelStep(db, escrowId, now).0)
  {
  }

  lemma StakeKeepsBasic(db: Db, account: string, amount: int, now: int)
    requires Basic(db)
    ensures Basic(StakeStep(db, account, amount, now).0)
  {
  }

  lemma UnstakeKeepsBasic(db: Db, account: string, amount: int, seconds: int, id: string, now: int)
    requires Basic(db)
    ensures Basic(UnstakeStep(db, account, amount, seconds, id, now).0)
  {
  }

  lemma CompleteKeepsBasic(db: Db, account: string, now: int)
    requires Basic(db)
    ensures Basic(CompleteStep(db, account, now).0)
  {
    MarkDueFacts(db.unbonding, account, now);
  }

  lemma ExecuteSlashKeepsBasic(db: Db, eventId: string, account: string, amount: int, at: int)
    requires Basic(db)
    ensures Basic(ExecuteSlashStep(db, eventId, account, amount, at).0)
  {
  }

  lemma {:induction false} SlashAllKeepsBasic(db: Db, verifiers: seq<string>, newId: nat -> string, at: int)
    requires Basic(db)
    ensures Basic(SlashAll(db, verifiers, newId, at).0)
    ensures SlashAll(db, verifiers, newId, at).1.Ok? ==> SlashAll(db, verifiers, newId, at).1.value >= 0
  {
    if verifiers != [] {
      var n := |verifiers| - 1;
      SlashAllKeepsBasic(db, verifiers[..n], newId, at);
      var mid := SlashAll(db, verifiers[..n], newId, at).0;
      var amount := ChallengeSlash(ColumnsOf(mid.accounts, verifiers[n]).locked);
      ExecuteSlashKeepsBasic(mid, newId(n), verifiers[n], amount, at);
    }
  }

  lemma RewardKeepsBasic(db: Db, account: string, amount: int, at: int)
    requires Basic(db) && amount >= 0
    ensures Basic(Reward(db, account, amount, at))
  {
  }

  lemma {:induction false} RewardHonestKeepsBasic(db: Db, honest: seq<string>, total: int, n: nat, at: int)
    requires Basic(db) && n <= |honest| && total >= 0
    ensures Basic(RewardHonest(db, honest, total, n, at))
  {
    if n > 0 {
      RewardHonestKeepsBasic(db, honest, total, n - 1, at);
      RewardKeepsBasic(RewardHonest(db, honest, total, n - 1, at), honest[n - 1], HonestShare(total, |honest|, n - 1), at);
    }
  }

  lemma PayOutKeepsBasic(db: Db, challenger: string, honest: seq<string>, s: SlashSummary, at: int)
    requires Basic(db)
    ensures Basic(PayOut(db, challenger, honest, s, at))
  {
    var paid := if s.challengerPayout > 0 then Reward(db, challenger, s.challengerPayout, at) else db;
    if s.challengerPayout > 0 {
      RewardKeepsBasic(db, challenger, s.challengerPayout, at);
    }
    if s.honestPayout > 0 && honest != [] {
      RewardHonestKeepsBasic(paid, honest, s.honestPayout, |honest|, at);
    }
  }

  lemma SlashVerifiersKeepsBasic(db: Db, verifiers: seq<string>, challenger: string, honest: seq<string>,
                                 attestors: Option<set<string>>, newId: nat -> string, at: int)
    requires Basic(db)
    ensures Basic(SlashVerifiersStep(db, verifiers, challenger, honest, attestors, newId, at).0)
  {
    SlashAllKeepsBasic(db, verifiers, newId, at);
    var (slashed, r) := SlashAll(db, verifiers, newId, at);
    if r.Ok? {
      PayOutKeepsBasic(slashed, challenger, honest, Split(r.value), at);
    }
  }

  lemma ExecKeepsBasic(db: Db, c: Command)
    requires Basic(db)
    ensures Basic(Exec(db, c))
  {
    match c
    case CreateAccount(id, initial, minter, now) => CreateKeepsBasic(db, id, initial, minter, now);
    case DoTransfer(from, to, amount, allowCreate, now) => TransferKeepsBasic(db, from, to, amount, allowCreate, now);
    case DoEscrow(account, amount, escrowId, now) => EscrowKeepsBasic(db, account, amount, escrowId, now);
    case DoRelease(escrowId, to, now) => ReleaseKeepsBasic(db, escrowId, to, now);
    case DoCancel(escrowId, now) => CancelKeepsBasic(db, escrowId, now);
    case DoStake(account, amount, now) => StakeKeepsBasic(db, account, amount, now);
    case DoUnstake(account, amount, seconds, id, now) => UnstakeKeepsBasic(db, account, amount, seconds, id, now);
    case DoComplete(account, now) => CompleteKeepsBasic(db, account, now);
    case DoExecuteSlash(eventId, account, amount, now) => ExecuteSlashKeepsBasic(db, eventId, account, amount, now);
    case DoSlashVerifiers(verifiers, challenger, honest, attestors, newId, now) =>
      SlashVerifiersKeepsBasic(db, verifiers, challenger, honest, attestors, newId, now);
    case DoPayOut(challenger, honest, total, now) => PayOutKeepsBasic(db, challenger, honest, Split(total), now);
  }

  /** In every run no column goes negative and every escrow and unbonding record has an owner. */
  lemma {:induction false} RunKeepsBasic(commands: seq<Command>)
    ensures Basic(Run(commands))
  {
    if commands != [] {
      RunKeepsBasic(commands[..|commands| - 1]);
      ExecKeepsBasic(Run(commands[..|commands| - 1]), commands[|commands| - 1]);
    }
  }
}
