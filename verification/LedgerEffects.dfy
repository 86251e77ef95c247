/** What each ledger operation does to balances, stakes, records and the log, in numbers. */
module LedgerEffects {
  import opened Collections
  import opened LedgerModel
  import opened LedgerInvariants
  import opened LedgerSubledgers

  function Balance(db: Db, a: string): int
  {
    if a in db.accounts then db.accounts[a].balance else 0
  }

  function Locked(db: Db, a: string): int
  {
    if a in db.accounts then db.accounts[a].locked else 0
  }

  function Unbonding(db: Db, a: string): int
  {
    if a in db.accounts then db.accounts[a].unbonding else 0
  }

  /** An account's three columns grow by these numbers. */
  ghost predicate Grows(db: Db, db': Db, a: string, balance: int, locked: int, unbonding: int)
  {
    && Balance(db', a) == Balance(db, a) + balance
    && Locked(db', a) == Locked(db, a) + locked
    && Unbonding(db', a) == Unbonding(db, a) + unbonding
  }

  /** One account's columns change by these numbers; the others are as they were. */
  ghost predicate OnlyMoves(db: Db, db': Db, account: string, balance: int, locked: int, unbonding: int)
  {
    && (forall a :: a in db'.accounts <==> a in db.accounts)
    && (forall a :: a in db.accounts && a != account ==> db'.accounts[a] == db.accounts[a])
    && Grows(db, db', account, balance, locked, unbonding)
  }

  /** Nothing but accounts and log. */
  ghost predicate RowsKept(db: Db, db': Db)
  {
    db'.escrows == db.escrows && db'.unbonding == db.unbonding && db'.supply == db.supply && db'.slashes == db.slashes
  }

  function StripLeft(s: string): string
  {
    if s != [] && IsSpace(s[0]) then StripLeft(s[1..]) else s
  }

  function StripRight(s: string): string
  {
    if s != [] && IsSpace(s[|s| - 1]) then StripRight(s[..|s| - 1]) else s
  }

  lemma {:induction false} StripRightEmpty(s: string)
    ensures StripRight(s) == [] <==> Blank(s)
  {
    if s != [] && IsSpace(s[|s| - 1]) {
      StripRightEmpty(s[..|s| - 1]);
      assert forall i :: 0 <= i < |s| - 1 ==> s[i] == s[..|s| - 1][i];
    }
  }

  lemma {:induction false} StripLeftSpaces(s: string)
    ensures Blank(StripLeft(s)) <==> Blank(s)
  {
    if s != [] && IsSpace(s[0]) {
      StripLeftSpaces(s[1..]);
      assert forall i :: 0 < i < |s| ==> s[i] == s[1..][i - 1];
    }
  }

  /** An id is refused exactly if nothing is left of it once white space is stripped from both ends. */
  lemma BlankIff(id: string)
    ensures Blank(id) <==> StripRight(StripLeft(id)) == ""
    ensures Blank("") && Blank(" \t\n\r") && !Blank(" a ")
  {
    StripLeftSpaces(id);
    StripRightEmpty(StripLeft(id));
    assert !IsSpace(" a "[1]);
  }

  /** Only a new account of the system's own making comes with credits, and they are added to the supply. */
  lemma CreateAccountMints(db: Db, id: string, initial: int, minter: Option<string>, now: int)
    ensures
      var (db', r) := CreateAccountStep(db, id, initial, minter, now);
      && (r.Ok? <==> && !Blank(id) && id !in db.accounts && initial >= 0
                     && (initial > 0 ==> minter in {None, Some("system")} && db.supply + initial <= 1_000_000_000_000))
      && (r.Err? ==> db' == db)
      && (match r
          case Ok(_) => true
          case Err(InvalidAccountId) => Blank(id)
          case Err(NegativeInitialBalance) => initial < 0
          case Err(NotAuthorizedToMint) => initial > 0 && minter !in {None, Some("system")}
          case Err(AccountExists) => id in db.accounts
          case Err(MaxSupplyExceeded) => db.supply + initial > 1_000_000_000_000
          case Err(_) => false)
      && (r.Ok? ==>
            && id in db'.accounts && db'.accounts - {id} == db.accounts
            && Balance(db', id) == initial && Locked(db', id) == 0 && Unbonding(db', id) == 0
            && db' == db.(accounts := db'.accounts, supply := db.supply + initial,
                          ops := db.ops + if initial > 0 then [Entry(id, Mint, initial, now)] else []))
  {
    assert db.ops + [] == db.ops;
  }

  /** The sender loses the amount, the recipient gains it; a transfer to oneself moves nothing. */
  lemma TransferMoves(db: Db, from: string, to: string, amount: int, allowCreate: bool, now: int)
    ensures
      var (db', r) := TransferStep(db, from, to, amount, allowCreate, now);
      && (r.Ok? <==> !Blank(from) && !Blank(to) && 0 < amount <= Balance(db, from) && (to in db.accounts || allowCreate))
      && (r.Err? ==> db' == db)
      && (match r
          case Ok(_) => true
          case Err(InvalidAccountId) => Blank(from) || Blank(to)
          case Err(InvalidAmount) => amount <= 0
          case Err(InsufficientBalance) => Balance(db, from) < amount
          case Err(NoSuchRecipient) => to !in db.accounts
          case Err(_) => false)
      && (r.Ok? ==>
            && (from != to ==>
                  && Balance(db', from) == Balance(db, from) - amount && Balance(db', to) == Balance(db, to) + amount
                  && forall a :: a !in {from, to} ==> Balance(db', a) == Balance(db, a))
            && (from == to ==> db'.accounts == db.accounts)
            && (forall a :: Locked(db', a) == Locked(db, a) && Unbonding(db', a) == Unbonding(db, a))
            && (forall a :: a in db'.accounts <==> a in db.accounts || a == to) && RowsKept(db, db')
            && db'.ops == db.ops + [Entry(from, Transfer, -amount, now), Entry(to, Transfer, amount, now)])
  {
    var (db', r) := TransferStep(db, from, to, amount, allowCreate, now);
    if r.Ok? && from == to {
      assert db'.accounts[from] == db.accounts[from];
    }
  }

  /** Credits move from balance to locked, and the escrow is live. */
  lemma EscrowLocks(db: Db, account: string, amount: int, escrowId: string, now: int)
    requires Basic(db)
    ensures
      var (db', r) := EscrowStep(db, account, amount, escrowId, now);
      && (r.Ok? <==> !Blank(account) && 0 < amount <= Balance(db, account) && escrowId !in db.escrows)
      && (r.Err? ==> db' == db)
      && (match r
          case Ok(_) => true
          case Err(InvalidAccountId) => Blank(account)
          case Err(InvalidAmount) => amount <= 0
          case Err(InsufficientBalance) => Balance(db, account) < amount
          case Err(DuplicateKey) => escrowId in db.escrows
          case Err(_) => false)
      && (r.Ok? ==>
            && OnlyMoves(db, db', account, -amount, amount, 0)
            && db' == db.(accounts := db'.accounts,
                          escrows := db.escrows[escrowId := EscrowRow(account, amount, false, None)],
                          ops := db.ops + [Entry(account, Escrow(escrowId), amount, now)]))
  {
  }

  lemma ReleaseConditions(db: Db, escrowId: string, to: string, now: int)
    requires Basic(db)
    ensures
      var (db', r) := ReleaseStep(db, escrowId, to, now);
      && (r.Ok? <==> && !Blank(to) && escrowId in db.escrows && !db.escrows[escrowId].released
                     && Locked(db, db.escrows[escrowId].account) >= db.escrows[escrowId].amount)
      && (r.Err? ==> db' == db)
      && (match r
          case Ok(_) => true
          case Err(InvalidAccountId) => Blank(to)
          case Err(EscrowNotFound) => escrowId !in db.escrows
          case Err(EscrowAlreadyReleased) => escrowId in db.escrows && db.escrows[escrowId].released
          case Err(CheckFailed) => true
          case Err(_) => false)
  {
  }

  /** A live escrow's amount leaves its owner's locked column and reaches the payee's balance. */
  lemma ReleasePays(db: Db, escrowId: string, to: string, now: int)
    requires Basic(db) && ReleaseStep(db, escrowId, to, now).1.Ok?
    ensures escrowId in db.escrows
    ensures
      var db', row := ReleaseStep(db, escrowId, to, now).0, db.escrows[escrowId];
      && (forall a :: a in db'.accounts <==> a in db.accounts || a == to)
      && (forall a :: Balance(db', a) == Balance(db, a) + if a == to then row.amount else 0)
      && (forall a :: Locked(db', a) == Locked(db, a) - if a == row.account then row.amount else 0)
      && (forall a :: Unbonding(db', a) == Unbonding(db, a))
      && db' == db.(accounts := db'.accounts,
                    escrows := db.escrows[escrowId := EscrowRow(row.account, row.amount, true, Some(to))],
                    ops := db.ops + [Entry(to, Release(escrowId, row.account), row.amount, now)])
  {
  }

  /** A live escrow's amount goes back to its owner's balance. */
  lemma CancelReturns(db: Db, escrowId: string, now: int)
    requires Basic(db)
    ensures
      var (db', r) := CancelStep(db, escrowId, now);
      && (r.Ok? <==> && escrowId in db.escrows && !db.escrows[escrowId].released
                     && Locked(db, db.escrows[escrowId].account) >= db.escrows[escrowId].amount)
      && (r.Err? ==> db' == db)
      && (match r
          case Ok(_) => true
          case Err(EscrowNotFound) => escrowId !in db.escrows
          case Err(EscrowAlreadyReleased) => escrowId in db.escrows && db.escrows[escrowId].released
          case Err(CheckFailed) => true
          case Err(_) => false)
      && (r.Ok? ==>
            var row := db.escrows[escrowId];
            && OnlyMoves(db, db', row.account, row.amount, -row.amount, 0)
            && db' == db.(accounts := db'.accounts,
                          escrows := db.escrows[escrowId := EscrowRow(row.account, row.amount, true, Some(row.account))],
                          ops := db.ops + [Entry(row.account, Escrow(escrowId), -row.amount, now)]))
  {
  }

  /** Credits move from balance to locked. */
  lemma StakeLocks(db: Db, account: string, amount: int, now: int)
    requires Basic(db)
    ensures
      var (db', r) := StakeStep(db, account, amount, now);
      && (r.Ok? <==> 0 < amount <= Balance(db, account))
      && (r.Err? ==> db' == db)
      && (match r
          case Ok(_) => true
          case Err(InvalidAmount) => amount <= 0
          case Err(InsufficientBalance) => Balance(db, account) < amount
          case Err(_) => false)
      && (r.Ok? ==>
            && OnlyMoves(db, db', account, -amount, amount, 0)
            && db' == db.(accounts := db'.accounts, ops := db.ops + [Entry(account, Stake, amount, now)]))
  {
  }

  /** Credits move from locked to unbonding, and the record matures one period later. */
  lemma UnstakeUnbonds(db: Db, account: string, amount: int, seconds: int, id: string, now: int)
    requires Basic(db)
    ensures
      var (db', r) := UnstakeStep(db, account, amount, seconds, id, now);
      && (r.Ok? <==> && 0 < amount <= Locked(db, account)
                     && forall i :: 0 <= i < |db.unbonding| ==> db.unbonding[i].id != id)
      && (r.Err? ==> db' == db)
      && (match r
          case Ok(_) => true
          case Err(InvalidAmount) => amount <= 0
          case Err(InsufficientStake) => Locked(db, account) < amount
          case Err(DuplicateKey) => exists i :: 0 <= i < |db.unbonding| && db.unbonding[i].id == id
          case Err(_) => false)
      && (r.Ok? ==>
            && r.value == id && OnlyMoves(db, db', account, 0, -amount, amount)
            && db' == db.(accounts := db'.accounts,
                          unbonding := db.unbonding + [UnbondingRow(id, account, amount, now, now + seconds * 1_000_000_000, false)],
                          ops := db.ops + [Entry(account, Unstake(id), amount, now)]))
  {
  }

  /** The account's records that have matured, and no others, are marked, and what is paid leaves the unbonding column. */
  lemma CompletePays(db: Db, account: string, now: int)
    requires Basic(db)
    ensures
      var (db', r) := CompleteStep(db, account, now);
      && (r.Err? ==> db' == db)
      && (r.Ok? ==>
            && (if account in db.accounts then OnlyMoves(db, db', account, r.value, 0, -r.value) else db'.accounts == db.accounts)
            && db' == db.(accounts := db'.accounts, unbonding := db'.unbonding, ops := db'.ops)
            && |db'.unbonding| == |db.unbonding|
            && (forall i :: 0 <= i < |db.unbonding| ==>
                  var row := db.unbonding[i];
                  db'.unbonding[i] == row.(completed := row.completed || (row.account == account && row.completedAt <= now))))
  {
    var (db', r) := CompleteStep(db, account, now);
    MarkDueFacts(db.unbonding, account, now);
    NoneDue(db.unbonding, account, now);
  }

  lemma {:induction false} NoneDue(rows: seq<UnbondingRow>, account: string, now: int)
    ensures DueEntries(rows, account, now) == [] <==> forall i :: 0 <= i < |rows| ==> !Due(rows[i], account, now)
  {
    if rows != [] {
      var front := rows[..|rows| - 1];
      NoneDue(front, account, now);
      assert forall i :: 0 <= i < |front| ==> front[i] == rows[i];
    }
  }

  /** A slash takes what is asked for, as far as there is stake, and is recorded once with what it took. */
  lemma ExecuteSlashCuts(db: Db, eventId: string, account: string, amount: int, at: int)
    requires Basic(db)
    ensures
      var (db', r) := ExecuteSlashStep(db, eventId, account, amount, at);
      var taken := if amount <= Locked(db, account) then amount else Locked(db, account);
      && (r.Ok? <==> eventId !in db.slashes)
      && (r.Err? ==> db' == db)
      && (r.Ok? ==>
            && OnlyMoves(db, db', account, 0, if taken > 0 then -taken else 0, 0)
            && db' == db.(accounts := db'.accounts, slashes := db.slashes[eventId := SlashRow(account, taken)],
                          ops := db.ops + if taken > 0 then [Entry(account, Slash(eventId), taken, at)] else []))
  {
  }

  // ---------- the unbonding period ----------

  /** The account completes its unbonding after command `j`, at time `at` or later. */
  ghost predicate CompletesAfter(commands: seq<Command>, j: nat, account: string, at: int)
  {
    exists k :: j < k < |commands| && commands[k].DoComplete? && commands[k].account == account && commands[k].now >= at
  }

  lemma CompletesOneMore(commands: seq<Command>, j: nat, account: string, at: int)
    requires j < |commands| - 1
    ensures
      var n := |commands| - 1;
      CompletesAfter(commands, j, account, at) <==>
        || CompletesAfter(commands[..n], j, account, at)
        || (commands[n].DoComplete? && commands[n].account == account && commands[n].now >= at)
  {
    var n := |commands| - 1;
    if k :| j < k < n && commands[..n][k].DoComplete? && commands[..n][k].account == account && commands[..n][k].now >= at {
      assert commands[k] == commands[..n][k];
    }
    if k :| j < k < |commands| && commands[k].DoComplete? && commands[k].account == account && commands[k].now >= at {
      assert k < n ==> commands[..n][k] == commands[k];
    }
  }

  /** The last command's effect on a record that was there before. */
  lemma RowOneMore(commands: seq<Command>, i: nat)
    requires commands != [] && i < |Run(commands[..|commands| - 1]).unbonding|
    ensures
      var n := |commands| - 1;
      var c, row := commands[n], Run(commands[..n]).unbonding[i];
      && i < |Run(commands).unbonding|
      && Run(commands).unbonding[i]
         == row.(completed := row.completed || (c.DoComplete? && c.account == row.account && c.now >= row.completedAt))
  {
    var n := |commands| - 1;
    var before, c := commands[..n], commands[n];
    RunKeepsBasic(before);
    if c.DoComplete? {
      CompletionSucceeds(before, c.account, c.now);
      CompletePays(Run(before), c.account, c.now);
    } else if c.DoUnstake? {
      UnstakeUnbonds(Run(before), c.account, c.amount, c.unbondingSeconds, c.unbondingId, c.now);
    } else {
      OthersSameUnbonding(Run(before), c);
    }
  }

  lemma RowIsNew(commands: seq<Command>, i: nat)
    requires commands != [] && |Run(commands[..|commands| - 1]).unbonding| <= i < |Run(commands).unbonding|
    ensures
      var c := commands[|commands| - 1];
      && c.DoUnstake?
      && Run(commands).unbonding[i]
         == UnbondingRow(c.unbondingId, c.account, c.amount, c.now, c.now + c.unbondingSeconds * 1_000_000_000, false)
  {
    var n := |commands| - 1;
    var before, c := commands[..n], commands[n];
    RunKeepsBasic(before);
    if c.DoComplete? {
      CompletePays(Run(before), c.account, c.now);
      assert false;
    } else if c.DoUnstake? {
      UnstakeUnbonds(Run(before), c.account, c.amount, c.unbondingSeconds, c.unbondingId, c.now);
    } else {
      OthersSameUnbonding(Run(before), c);
      assert false;
    }
  }

  /**
   * In every run each unbonding record was made by an unstaking, matures one unbonding period after it,
   * and is completed exactly if its account has completed its unbonding at that time or later.
   */
  lemma {:induction false} UnbondingPeriod(commands: seq<Command>, i: nat) returns (j: nat)
    requires i < |Run(commands).unbonding|
    ensures j < |commands| && commands[j].DoUnstake?
    ensures
      var c, row := commands[j], Run(commands).unbonding[i];
      && row.id == c.unbondingId && row.account == c.account && row.amount == c.amount && row.startedAt == c.now
      && row.completedAt == row.startedAt + c.unbondingSeconds * 1_000_000_000
      && (row.completed <==> CompletesAfter(commands, j, row.account, row.completedAt))
  {
    var n := |commands| - 1;
    if i < |Run(commands[..n]).unbonding| {
      j := UnbondingPeriod(commands[..n], i);
      var row := Run(commands[..n]).unbonding[i];
      RowOneMore(commands, i);
      CompletesOneMore(commands, j, row.account, row.completedAt);
    } else {
      RowIsNew(commands, i);
      j := n;
    }
  }
}
