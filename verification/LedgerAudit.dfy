/** Replaying the audit log against the accounts, over whole runs. */
module LedgerAudit {
  import opened Collections
  import opened LedgerModel
  import opened LedgerLog
  import opened LedgerInvariants

  ghost predicate OpsGrow(db: Db, db': Db)
  {
    db.ops <= db'.ops
  }

  /** The entries a command wrote. */
  function NewEntries(db: Db, db': Db): seq<Entry>
  {
    if |db.ops| <= |db'.ops| then db'.ops[|db.ops|..] else []
  }

  lemma LawForNewEntries(db: Db, db': Db, more: seq<Entry>)
    requires StepLaw(db, db', more)
    ensures OpsGrow(db, db') && NewEntries(db, db') == more && StepLaw(db, db', NewEntries(db, db'))
  {
  }

  lemma ExecLaw(db: Db, c: Command)
    requires Basic(db)
    ensures OpsGrow(db, Exec(db, c)) && StepLaw(db, Exec(db, c), NewEntries(db, Exec(db, c)))
  {
    var more := ExecEntries(db, c);
    LawForNewEntries(db, Exec(db, c), more);
  }

  lemma ExecEntries(db: Db, c: Command) returns (more: seq<Entry>)
    requires Basic(db)
    ensures StepLaw(db, Exec(db, c), more)
  {
    match c
    case CreateAccount(id, initial, minter, now) =>
      CreateLaw(db, id, initial, minter, now);
      more :| StepLaw(db, Exec(db, c), more);
    case DoTransfer(from, to, amount, allowCreate, now) =>
      TransferLaw(db, from, to, amount, allowCreate, now);
      more :| StepLaw(db, Exec(db, c), more);
    case DoEscrow(account, amount, escrowId, now) =>
      EscrowLaw(db, account, amount, escrowId, now);
      more :| StepLaw(db, Exec(db, c), more);
    case DoRelease(escrowId, to, now) =>
      ReleaseLaw(db, escrowId, to, now);
      more :| StepLaw(db, Exec(db, c), more);
    case DoCancel(escrowId, now) =>
      CancelLaw(db, escrowId, now);
      more :| StepLaw(db, Exec(db, c), more);
    case DoStake(account, amount, now) =>
      StakeLaw(db, account, amount, now);
      more :| StepLaw(db, Exec(db, c), more);
    case DoUnstake(account, amount, seconds, id, now) =>
      UnstakeLaw(db, account, amount, seconds, id, now);
      more :| StepLaw(db, Exec(db, c), more);
    case DoComplete(account, now) =>
      CompleteLaw(db, account, now);
      more :| StepLaw(db, Exec(db, c), more);
    case DoExecuteSlash(eventId, account, amount, now) =>
      more := SlashLaw(db, eventId, account, amount, now);
    case DoSlashVerifiers(verifiers, challenger, honest, attestors, newId, now) =>
      more := SlashVerifiersLaw(db, verifiers, challenger, honest, attestors, newId, now);
    case DoPayOut(challenger, honest, total, now) =>
      more := PayOutLaw(db, challenger, honest, Split(total), now);
  }

  /** The log tells the columns of every account, existing or not. */
  ghost predicate Exact(db: Db)
  {
    forall a :: Fold(db.ops, a) == ColumnsOf(db.accounts, a)
  }

  /** What the log says beyond the accounts: rewards nobody received. */
  function Excess(db: Db, a: string): int
  {
    Surplus(Fold(db.ops, a), ColumnsOf(db.accounts, a))
  }

  function Surplus(told: Columns, held: Columns): int
  {
    told.balance - held.balance
  }

  /** The log can only run ahead of the accounts, and only in balances. */
  ghost predicate OnlyAhead(db: Db, a: string)
  {
    Ahead(Fold(db.ops, a), ColumnsOf(db.accounts, a))
  }

  predicate Ahead(told: Columns, held: Columns)
  {
    told.balance >= held.balance && told.locked == held.locked && told.unbonding == held.unbonding
  }

  /** Every positive reward was credited to an account that existed when it was written. */
  ghost predicate RewardsReach(db': Db, more: seq<Entry>)
  {
    forall e :: e in more && e.kind == SlashReward && e.amount > 0 ==> e.account in db'.accounts
  }

  ghost predicate NoRewardFor(more: seq<Entry>, a: string)
  {
    forall e :: e in more && e.kind == SlashReward && e.account == a ==> e.amount <= 0
  }

  lemma {:induction false} OnlyRewardsFold(more: seq<Entry>, a: string)
    requires OnlyRewards(more, a)
    ensures Fold(more, a).locked == 0 && Fold(more, a).unbonding == 0 && Fold(more, a).balance >= 0
    ensures Fold(more, a).balance == 0 <==> NoRewardFor(more, a)
  {
    if more != [] {
      var front, e := more[..|more| - 1], more[|more| - 1];
      assert more == front + [e];
      OnlyRewardsFold(front, a);
      assert Effect(e, a) != ZERO ==> e.kind == SlashReward && e.account == a && e.amount >= 0;
      assert NoRewardFor(more, a) <==> NoRewardFor(front, a) && !(e.kind == SlashReward && e.account == a && e.amount > 0);
    }
  }

  /** Of an account that exists afterwards the step told the truth. */
  lemma ToldStep(db: Db, db': Db, more: seq<Entry>, a: string)
    requires db'.ops == db.ops + more
    requires ColumnsOf(db'.accounts, a) == Plus(ColumnsOf(db.accounts, a), Fold(more, a))
    ensures Excess(db', a) == Excess(db, a) && (OnlyAhead(db, a) <==> OnlyAhead(db', a))
  {
    FoldConcat(db.ops, more, a);
    SameSurplus(Fold(db.ops, a), ColumnsOf(db.accounts, a), Fold(more, a));
  }

  lemma SameSurplus(told: Columns, held: Columns, change: Columns)
    ensures Surplus(Plus(told, change), Plus(held, change)) == Surplus(told, held)
    ensures Ahead(Plus(told, change), Plus(held, change)) <==> Ahead(told, held)
  {
  }

  /** Of one that does not exist, before or afterwards, the step mentioned at most rewards. */
  lemma MissingStep(db: Db, db': Db, more: seq<Entry>, a: string)
    requires db'.ops == db.ops + more && a !in db.accounts && a !in db'.accounts && OnlyRewards(more, a)
    ensures Excess(db', a) == Excess(db, a) + Fold(more, a).balance
    ensures OnlyAhead(db, a) ==> OnlyAhead(db', a)
    ensures Fold(more, a).balance >= 0 && (Fold(more, a).balance == 0 <==> NoRewardFor(more, a))
  {
    FoldConcat(db.ops, more, a);
    OnlyRewardsFold(more, a);
    MoreSurplus(Fold(db.ops, a), Fold(more, a));
  }

  lemma MoreSurplus(told: Columns, change: Columns)
    ensures Surplus(Plus(told, change), ZERO) == Surplus(told, ZERO) + change.balance
    ensures Ahead(told, ZERO) && Ahead(change, ZERO) ==> Ahead(Plus(told, change), ZERO)
  {
  }

  /** One step adds to the excess of `a` exactly the rewards written for it while it had no account. */
  lemma ExcessStep(db: Db, db': Db, more: seq<Entry>, a: string)
    requires StepLaw(db, db', more) && OnlyAhead(db, a)
    ensures OnlyAhead(db', a) && Excess(db', a) >= Excess(db, a)
    ensures Excess(db', a) == Excess(db, a) <==> a in db'.accounts || NoRewardFor(more, a)
  {
    if a in db'.accounts {
      ToldStep(db, db', more, a);
    } else {
      MissingStep(db, db', more, a);
    }
  }

  ghost predicate NoneAhead(db: Db)
  {
    forall a :: Excess(db, a) == 0
  }

  lemma ReachesAll(db': Db, more: seq<Entry>)
    ensures RewardsReach(db', more) <==> forall a :: a in db'.accounts || NoRewardFor(more, a)
  {
    if forall a :: a in db'.accounts || NoRewardFor(more, a) {
      forall e | e in more && e.kind == SlashReward && e.amount > 0 ensures e.account in db'.accounts {
        assert e.account in db'.accounts || NoRewardFor(more, e.account);
      }
    }
  }

  lemma NoneAheadStep(db: Db, db': Db, more: seq<Entry>)
    requires StepLaw(db, db', more) && forall a :: OnlyAhead(db, a)
    ensures forall a :: OnlyAhead(db', a)
    ensures NoneAhead(db') <==> NoneAhead(db) && RewardsReach(db', more)
  {
    forall a
      ensures OnlyAhead(db', a) && Excess(db', a) >= Excess(db, a) >= 0
      ensures Excess(db', a) == Excess(db, a) <==> a in db'.accounts || NoRewardFor(more, a)
    {
      ExcessStep(db, db', more, a);
    }
    ReachesAll(db', more);
    if NoneAhead(db') {
      forall a ensures Excess(db, a) == 0 && (a in db'.accounts || NoRewardFor(more, a)) {
        assert Excess(db', a) == 0;
      }
    }
  }

  /** After every command of the run, the rewards it wrote had reached an account. */
  ghost predicate AllRewardsReach(commands: seq<Command>)
  {
    commands != [] ==>
      var front := commands[..|commands| - 1];
      AllRewardsReach(front) && RewardsReach(Run(commands), NewEntries(Run(front), Run(commands)))
  }

  lemma {:induction false} RunExcess(commands: seq<Command>)
    ensures forall a :: OnlyAhead(Run(commands), a)
    ensures NoneAhead(Run(commands)) <==> AllRewardsReach(commands)
  {
    if commands == [] {
      forall a ensures OnlyAhead(EMPTY, a) && Excess(EMPTY, a) == 0 {
        assert Fold(EMPTY.ops, a) == ZERO;
      }
    } else {
      var front, c := commands[..|commands| - 1], commands[|commands| - 1];
      RunExcess(front);
      RunKeepsBasic(front);
      ExecLaw(Run(front), c);
      NoneAheadStep(Run(front), Run(commands), NewEntries(Run(front), Run(commands)));
    }
  }

  /** The log determines every account's columns exactly when no reward was written to a missing account. */
  lemma LogDeterminesLedgerIff(commands: seq<Command>)
    ensures Exact(Run(commands)) <==> AllRewardsReach(commands)
  {
    RunExcess(commands);
    var db := Run(commands);
    if NoneAhead(db) {
      forall a ensures Fold(db.ops, a) == ColumnsOf(db.accounts, a) {
        assert OnlyAhead(db, a) && Excess(db, a) == 0;
      }
    }
    if Exact(db) {
      forall a ensures Excess(db, a) == 0 {
        assert Fold(db.ops, a) == ColumnsOf(db.accounts, a);
      }
    }
  }

  // ---------- a condition on the commands ----------

  predicate PaysRewards(c: Command)
  {
    c.DoSlashVerifiers? || c.DoPayOut?
  }

  /** Challenger and honest verifiers have accounts when they are to be rewarded. */
  predicate PayeesExist(db: Db, c: Command)
  {
    PaysRewards(c) ==> c.challenger in db.accounts && forall i :: 0 <= i < |c.honest| ==> c.honest[i] in db.accounts
  }

  ghost predicate PayeesAlwaysExist(commands: seq<Command>)
  {
    forall n :: 0 <= n < |commands| ==> PayeesExist(Run(commands[..n]), commands[n])
  }

  lemma AppendedEntries(db: Db, db': Db, more: seq<Entry>)
    requires db'.ops == db.ops + more
    ensures NewEntries(db, db') == more
  {
  }

  /** What a command without payouts writes is no reward. */
  lemma PlainCommandsPayNoRewards(db: Db, c: Command)
    requires !PaysRewards(c)
    ensures NoRewards(NewEntries(db, Exec(db, c)))
  {
    var more := CommandWrites(db, c);
    AppendedEntries(db, Exec(db, c), more);
  }

  lemma PayeesGetRewards(db: Db, c: Command)
    requires Basic(db) && PayeesExist(db, c)
    ensures RewardsReach(Exec(db, c), NewEntries(db, Exec(db, c)))
  {
    if c.DoSlashVerifiers? {
      var more := SlashVerifiersLaw(db, c.verifiers, c.challenger, c.honest, c.attestors, c.newId, c.now);
      LawForNewEntries(db, Exec(db, c), more);
      assert Grows(db, Exec(db, c));
    } else if c.DoPayOut? {
      var more := PayOutLaw(db, c.challenger, c.honest, Split(c.total), c.now);
      LawForNewEntries(db, Exec(db, c), more);
      assert Grows(db, Exec(db, c));
    } else {
      PlainCommandsPayNoRewards(db, c);
    }
  }

  lemma {:induction false} PayeesReach(commands: seq<Command>)
    requires PayeesAlwaysExist(commands)
    ensures AllRewardsReach(commands)
  {
    if commands != [] {
      var n := |commands| - 1;
      var front := commands[..n];
      assert forall k :: 0 <= k < n ==> front[..k] == commands[..k];
      assert PayeesAlwaysExist(front) by {
        forall k | 0 <= k < n ensures PayeesExist(Run(front[..k]), front[k]) {
          assert PayeesExist(Run(commands[..k]), commands[k]);
        }
      }
      PayeesReach(front);
      RunKeepsBasic(front);
      assert PayeesExist(Run(commands[..n]), commands[n]);
      PayeesGetRewards(Run(front), commands[n]);
    }
  }

  /** In every run whose rewarded parties have accounts, the log determines the ledger. */
  lemma LogDeterminesLedger(commands: seq<Command>)
    requires PayeesAlwaysExist(commands)
    ensures Exact(Run(commands))
  {
    PayeesReach(commands);
    LogDeterminesLedgerIff(commands);
  }

  // ---------- a run the log does not tell ----------

  lemma RunMore(before: seq<Command>, c: Command)
    ensures Run(before + [c]) == Exec(Run(before), c)
    ensures AllRewardsReach(before + [c])
            <==> AllRewardsReach(before) && RewardsReach(Run(before + [c]), NewEntries(Run(before), Run(before + [c])))
  {
    assert (before + [c])[..|before|] == before;
  }

  /** One slash of a stake of 100, with a challenger who has no account. */
  lemma SlashForNobody(db: Db, v: string, c: string, newId: nat -> string, now: int)
    requires db.accounts == map[v := Columns(0, 100, 0)] && db.slashes == map[] && v != c
    ensures
      var db' := Exec(db, DoSlashVerifiers([v], c, [], Some({}), newId, now));
      db'.accounts == map[v := Columns(0, 50, 0)] && db'.ops == db.ops + [Entry(v, Slash(newId(0)), 50, now), Entry(c, SlashReward, 25, now)]
  {
    assert [v][..0] == [];
    var slashed := ExecuteSlashStep(db, newId(0), v, 50, now);
    assert slashed.0.accounts == map[v := Columns(0, 50, 0)] && slashed.0.ops == db.ops + [Entry(v, Slash(newId(0)), 50, now)];
    assert SlashAll(db, [v], newId, now) == (slashed.0, Ok(50));
    assert Split(50) == SlashSummary(50, 25, 20, 5);
  }

  lemma StakedRun(v: string, now: int)
    requires !Blank(v)
    ensures
      var db := Run([CreateAccount(v, 100, None, now), DoStake(v, 100, now)]);
      db.accounts == map[v := Columns(0, 100, 0)] && db.slashes == map[]
  {
    RunTwo(CreateAccount(v, 100, None, now), DoStake(v, 100, now));
    AccountCreated(v, now);
    StakeMade(CreateAccountStep(EMPTY, v, 100, None, now).0, v, now);
  }

  lemma RunTwo(first: Command, second: Command)
    ensures Run([first, second]) == Exec(Exec(EMPTY, first), second)
  {
    RunMore([], first);
    RunMore([first], second);
    assert [] + [first] == [first] && [first] + [second] == [first, second];
  }

  lemma AccountCreated(v: string, now: int)
    requires !Blank(v)
    ensures
      var db := CreateAccountStep(EMPTY, v, 100, None, now).0;
      db.accounts == map[v := Columns(100, 0, 0)] && db.slashes == map[]
  {
  }

  lemma StakeMade(db: Db, v: string, now: int)
    requires db.accounts == map[v := Columns(100, 0, 0)]
    ensures
      var db' := StakeStep(db, v, 100, now).0;
      db'.accounts == map[v := Columns(0, 100, 0)] && db'.slashes == db.slashes
  {
  }

  lemma RewardMissed(before: seq<Command>, c: Command, e: Entry)
    requires e in NewEntries(Run(before), Run(before + [c])) && e.kind == SlashReward && e.amount > 0
    requires e.account !in Run(before + [c]).accounts
    ensures !Exact(Run(before + [c]))
  {
    RunMore(before, c);
    LogDeterminesLedgerIff(before + [c]);
  }

  /** A challenger without an account is rewarded in the log alone. */
  lemma MissingPayeeSplitsLogAndLedger(v: string, c: string, newId: nat -> string, now: int)
    requires !Blank(v) && v != c
    ensures
      var commands := [CreateAccount(v, 100, None, now), DoStake(v, 100, now),
                       DoSlashVerifiers([v], c, [], Some({}), newId, now)];
      !Exact(Run(commands))
  {
    var before := [CreateAccount(v, 100, None, now), DoStake(v, 100, now)];
    var slash := DoSlashVerifiers([v], c, [], Some({}), newId, now);
    StakedRun(v, now);
    SlashForNobody(Run(before), v, c, newId, now);
    RunMore(before, slash);
    var more := [Entry(v, Slash(newId(0)), 50, now), Entry(c, SlashReward, 25, now)];
    AppendedEntries(Run(before), Run(before + [slash]), more);
    assert more[1] in more;
    RewardMissed(before, slash, more[1]);
    assert before + [slash] == [before[0], before[1], slash];
  }
}
