/** The ledger, the stake manager and the slashing rules as they update their shared tables. */
module CreditLedger {
  import opened Collections
  import opened LedgerModel
  import opened LedgerInvariants

  /** The tables behind one connection. */
  class Database {
    var accounts: Accounts
    var escrows: map<string, EscrowRow>
    var unbonding: seq<UnbondingRow>
    var supply: int
    var ops: seq<Entry>
    var slashes: map<string, SlashRow>

    function State(): Db
      reads this
    {
      Db(accounts, escrows, unbonding, supply, ops, slashes)
    }

    ghost predicate Valid()
      reads this
    {
      Basic(State())
    }

    constructor ()
      ensures Valid() && State() == EMPTY
    {
      accounts, escrows, unbonding, supply, ops, slashes := map[], map[], [], 0, [], map[];
    }

    /** UPDATE accounts SET ... WHERE account_id = ?, under the CHECK constraints. */
    method UpdateAccount(id: string, delta: Columns) returns (ok: bool)
      modifies this`accounts
      ensures ok <==> Adjust(old(accounts), id, delta).Some?
      ensures accounts == if ok then Adjust(old(accounts), id, delta).value else old(accounts)
    {
      if id !in accounts {
        return true;
      }
      var c := Plus(accounts[id], delta);
      if !NonNegative(c) {
        return false;
      }
      accounts := accounts[id := c];
      ok := true;
    }

    /** UPDATE the balance if the row exists, INSERT it otherwise. */
    method CreditOrCreate(id: string, amount: int)
      modifies this`accounts
      ensures accounts == Credit(old(accounts), id, amount)
    {
      if id in accounts {
        accounts := accounts[id := Plus(accounts[id], Columns(amount, 0, 0))];
      } else {
        accounts := accounts[id := Columns(amount, 0, 0)];
      }
    }

    method Log(e: Entry)
      modifies this`ops
      ensures ops == old(ops) + [e]
    {
      ops := ops + [e];
    }
  }

  class CreditLedger {
    const db: Database

    constructor (db: Database)
      ensures this.db == db
    {
      this.db := db;
    }

    method GetBalance(id: string) returns (balance: int)
      ensures balance == ColumnsOf(db.accounts, id).balance
      ensures balance == if id in db.accounts then db.accounts[id].balance else 0
    {
      balance := if id in db.accounts then db.accounts[id].balance else 0;
    }

    method CreateAccount(id: string, initial: int, minter: Option<string>, now: int) returns (r: Result<(), LedgerError>)
      requires db.Valid()
      modifies db
      ensures db.Valid()
      ensures (db.State(), r) == CreateAccountStep(old(db.State()), id, initial, minter, now)
    {
      CreateKeepsBasic(db.State(), id, initial, minter, now);
      if Blank(id) {
        return Err(InvalidAccountId);
      }
      if initial < 0 {
        return Err(NegativeInitialBalance);
      }
      var minterId := if minter.None? then SYSTEM_ACCOUNT else minter.value;
      if initial > 0 && minterId != SYSTEM_ACCOUNT {
        return Err(NotAuthorizedToMint);
      }
      if id in db.accounts {
        return Err(AccountExists);
      }
      if initial > 0 {
        if db.supply + initial > MAX_SUPPLY {
          return Err(MaxSupplyExceeded);
        }
      }
      db.accounts := db.accounts[id := Columns(initial, 0, 0)];
      if initial > 0 {
        db.Log(Entry(id, Mint, initial, now));
        db.supply := db.supply + initial;
      }
      r := Ok(());
    }

    method Transfer(from: string, to: string, amount: int, allowCreate: bool, now: int)
      returns (r: Result<(), LedgerError>)
      requires db.Valid()
      modifies db
      ensures db.Valid()
      ensures (db.State(), r) == TransferStep(old(db.State()), from, to, amount, allowCreate, now)
    {
      TransferKeepsBasic(db.State(), from, to, amount, allowCreate, now);
      if Blank(from) || Blank(to) {
        return Err(InvalidAccountId);
      }
      if amount <= 0 {
        return Err(InvalidAmount);
      }
      var fromBalance := GetBalance(from);
      if fromBalance < amount {
        return Err(InsufficientBalance);
      }
      if to !in db.accounts {
        if !allowCreate {
          return Err(NoSuchRecipient);
        }
      }
      MoveBalance(from, to, amount);
      db.Log(Entry(from, LedgerModel.Transfer, -amount, now));
      db.Log(Entry(to, LedgerModel.Transfer, amount, now));
      assert db.ops == old(db.ops) + [Entry(from, LedgerModel.Transfer, -amount, now), Entry(to, LedgerModel.Transfer, amount, now)];
      r := Ok(());
    }

    /** A missing recipient gets an empty row first; then debit and credit. */
    method MoveBalance(from: string, to: string, amount: int)
      requires db.Valid() && ColumnsOf(db.accounts, from).balance >= amount > 0
      modifies db`accounts
      ensures
        var debited := old(db.accounts)[from := Plus(ColumnsOf(old(db.accounts), from), Columns(-amount, 0, 0))];
        db.accounts == Credit(debited, to, amount)
    {
      if to !in db.accounts {
        db.accounts := db.accounts[to := ZERO];
      }
      var ok := db.UpdateAccount(from, Columns(-amount, 0, 0));
      assert ok;
      db.CreditOrCreate(to, amount);
    }

    method Escrow(account: string, amount: int, escrowId: string, now: int) returns (r: Result<(), LedgerError>)
      requires db.Valid()
      modifies db
      ensures db.Valid()
      ensures (db.State(), r) == EscrowStep(old(db.State()), account, amount, escrowId, now)
    {
      EscrowKeepsBasic(db.State(), account, amount, escrowId, now);
      if Blank(account) {
        return Err(InvalidAccountId);
      }
      if amount <= 0 {
        return Err(InvalidAmount);
      }
      var balance := GetBalance(account);
      if balance < amount {
        return Err(InsufficientBalance);
      }
      r := OpenEscrow(account, amount, escrowId, now);
    }

    /** The transaction that moves covered credits into a new escrow. */
    method OpenEscrow(account: string, amount: int, escrowId: string, now: int) returns (r: Result<(), LedgerError>)
      requires !Blank(account) && 0 < amount <= ColumnsOf(db.accounts, account).balance
      modifies db
      ensures (db.State(), r) == EscrowStep(old(db.State()), account, amount, escrowId, now)
    {
      var saved := db.accounts;
      var ok := db.UpdateAccount(account, Columns(-amount, amount, 0));
      if !ok {
        return Err(CheckFailed);
      }
      if escrowId in db.escrows {
        db.accounts := saved;
        return Err(DuplicateKey);
      }
      db.escrows := db.escrows[escrowId := EscrowRow(account, amount, false, None)];
      db.Log(Entry(account, LedgerModel.Escrow(escrowId), amount, now));
      r := Ok(());
    }

    method ReleaseEscrow(escrowId: string, to: string, now: int) returns (r: Result<(), LedgerError>)
      requires db.Valid()
      modifies db
      ensures db.Valid()
      ensures (db.State(), r) == ReleaseStep(old(db.State()), escrowId, to, now)
    {
      ReleaseKeepsBasic(db.State(), escrowId, to, now);
      if Blank(to) {
        return Err(InvalidAccountId);
      }
      if escrowId !in db.escrows {
        return Err(EscrowNotFound);
      }
      var row := db.escrows[escrowId];
      if row.released {
        return Err(EscrowAlreadyReleased);
      }
      r := PayLiveEscrow(escrowId, to, now);
    }

    /** The transaction that pays a live escrow to `to`. */
    method PayLiveEscrow(escrowId: string, to: string, now: int) returns (r: Result<(), LedgerError>)
      requires !Blank(to) && escrowId in db.escrows && !db.escrows[escrowId].released
      modifies db
      ensures (db.State(), r) == ReleaseStep(old(db.State()), escrowId, to, now)
    {
      var row := db.escrows[escrowId];
      var ok := db.UpdateAccount(row.account, Columns(0, -row.amount, 0));
      if !ok {
        return Err(CheckFailed);
      }
      db.CreditOrCreate(to, row.amount);
      db.escrows := db.escrows[escrowId := row.(released := true, releasedTo := Some(to))];
      db.Log(Entry(to, Release(escrowId, row.account), row.amount, now));
      r := Ok(());
    }

    method CancelEscrow(escrowId: string, now: int) returns (r: Result<(), LedgerError>)
      requires db.Valid()
      modifies db
      ensures db.Valid()
      ensures (db.State(), r) == CancelStep(old(db.State()), escrowId, now)
    {
      CancelKeepsBasic(db.State(), escrowId, now);
      if escrowId !in db.escrows {
        return Err(EscrowNotFound);
      }
      var row := db.escrows[escrowId];
      if row.released {
        return Err(EscrowAlreadyReleased);
      }
      var ok := db.UpdateAccount(row.account, Columns(row.amount, -row.amount, 0));
      if !ok {
        return Err(CheckFailed);
      }
      db.escrows := db.escrows[escrowId := row.(released := true, releasedTo := Some(row.account))];
      db.Log(Entry(row.account, LedgerModel.Escrow(escrowId), -row.amount, now));
      r := Ok(());
    }
  }

  class StakeManager {
    const ledger: CreditLedger
    const db: Database
    const unbondingSeconds: int

    constructor (ledger: CreditLedger, unbondingSeconds: int)
      ensures this.ledger == ledger && this.db == ledger.db && this.unbondingSeconds == unbondingSeconds
    {
      this.ledger, this.db, this.unbondingSeconds := ledger, ledger.db, unbondingSeconds;
    }

    method GetStakedAmount(account: string) returns (staked: int)
      ensures staked == ColumnsOf(db.accounts, account).locked
      ensures staked == if account in db.accounts then db.accounts[account].locked else 0
    {
      staked := if account in db.accounts then db.accounts[account].locked else 0;
    }

    method Stake(account: string, amount: int, now: int) returns (r: Result<(), LedgerError>)
      requires db.Valid()
      modifies db
      ensures db.Valid()
      ensures (db.State(), r) == StakeStep(old(db.State()), account, amount, now)
    {
      StakeKeepsBasic(db.State(), account, amount, now);
      if amount <= 0 {
        return Err(InvalidAmount);
      }
      var balance := if account in db.accounts then db.accounts[account].balance else 0;
      if balance < amount {
        return Err(InsufficientBalance);
      }
      var ok := db.UpdateAccount(account, Columns(-amount, amount, 0));
      if !ok {
        return Err(CheckFailed);
      }
      db.Log(Entry(account, LedgerModel.Stake, amount, now));
      r := Ok(());
    }

    method Unstake(account: string, amount: int, unbondingId: string, now: int) returns (r: Result<string, LedgerError>)
      requires db.Valid()
      modifies db
      ensures db.Valid()
      ensures (db.State(), r) == UnstakeStep(old(db.State()), account, amount, unbondingSeconds, unbondingId, now)
    {
      UnstakeKeepsBasic(db.State(), account, amount, unbondingSeconds, unbondingId, now);
      if amount <= 0 {
        return Err(InvalidAmount);
      }
      var staked := GetStakedAmount(account);
      if staked < amount {
        return Err(InsufficientStake);
      }
      var completedAt := now + unbondingSeconds * NANOS;
      var saved := db.accounts;
      var ok := db.UpdateAccount(account, Columns(0, -amount, amount));
      if !ok {
        return Err(CheckFailed);
      }
      if HasUnbonding(db.unbonding, unbondingId) {
        db.accounts := saved;
        return Err(DuplicateKey);
      }
      db.unbonding := db.unbonding + [UnbondingRow(unbondingId, account, amount, now, completedAt, false)];
      db.Log(Entry(account, LedgerModel.Unstake(unbondingId), amount, now));
      r := Ok(unbondingId);
    }

    /** Sums the due records in one pass and settles them in a second. */
    method CompleteUnbonding(account: string, now: int) returns (r: Result<int, LedgerError>)
      requires db.Valid()
      modifies db
      ensures db.Valid()
      ensures (db.State(), r) == CompleteStep(old(db.State()), account, now)
    {
      CompleteKeepsBasic(db.State(), account, now);
      var totalReleased, found := SumDue(db.unbonding, account, now);
      if !found {
        return Ok(0);
      }
      r := PayDue(account, totalReleased, now);
    }

    /** The transaction that pays the due records. */
    method PayDue(account: string, total: int, now: int) returns (r: Result<int, LedgerError>)
      requires total == DueTotal(db.unbonding, account, now) && DueEntries(db.unbonding, account, now) != []
      modifies db
      ensures (db.State(), r) == CompleteStep(old(db.State()), account, now)
    {
      var ok := db.UpdateAccount(account, Columns(total, 0, -total));
      if !ok {
        return Err(CheckFailed);
      }
      SettleDue(account, now);
      r := Ok(total);
    }

    /** The first pass: whether a record is due, and the sum of those that are. */
    method SumDue(rows: seq<UnbondingRow>, account: string, now: int) returns (total: int, found: bool)
      ensures total == DueTotal(rows, account, now) && (found <==> DueEntries(rows, account, now) != [])
    {
      total, found := 0, false;
      for i := 0 to |rows|
        invariant total == DueTotal(rows[..i], account, now)
        invariant found <==> DueEntries(rows[..i], account, now) != []
      {
        assert rows[..i + 1][..i] == rows[..i];
        if Due(rows[i], account, now) {
          total := total + rows[i].amount;
          found := true;
        }
      }
      assert rows[..|rows|] == rows;
    }

    /** Marks the due records and writes their audit entries. */
    method SettleDue(account: string, now: int)
      modifies db`unbonding, db`ops
      ensures db.unbonding == MarkDue(old(db.unbonding), account, now)
      ensures db.ops == old(db.ops) + DueEntries(old(db.unbonding), account, now)
    {
      var rows := db.unbonding;
      ghost var before := db.ops;
      NoneSettledYet(rows, before, account, now);
      for i := 0 to |rows|
        invariant SettledUpTo(rows, before, account, now, i, db.unbonding, db.ops)
      {
        var row := rows[i];
        SettledOneMore(rows, before, account, now, i, db.unbonding, db.ops);
        if Due(row, account, now) {
          db.unbonding := db.unbonding[i := row.(completed := true)];
          db.Log(Entry(account, LedgerModel.CompleteUnbonding(row.id), row.amount, now));
        }
      }
      assert rows[..|rows|] == rows && db.unbonding[..|rows|] == db.unbonding;
    }
  }

  /** The table and the log when the first `i` rows have been looked at. */
  ghost predicate SettledUpTo(rows: seq<UnbondingRow>, before: seq<Entry>, account: string, now: int, i: nat,
                              marked: seq<UnbondingRow>, ops: seq<Entry>)
  {
    && i <= |rows| == |marked| && marked[..i] == MarkDue(rows[..i], account, now) && marked[i..] == rows[i..]
    && ops == before + DueEntries(rows[..i], account, now)
  }

  lemma NoneSettledYet(rows: seq<UnbondingRow>, before: seq<Entry>, account: string, now: int)
    ensures SettledUpTo(rows, before, account, now, 0, rows, before)
  {
    assert rows[..0] == [] && before + [] == before;
  }

  lemma SettledOneMore(rows: seq<UnbondingRow>, before: seq<Entry>, account: string, now: int, i: nat,
                       marked: seq<UnbondingRow>, ops: seq<Entry>)
    requires i < |rows| && SettledUpTo(rows, before, account, now, i, marked, ops)
    ensures
      var row := rows[i];
      if Due(row, account, now) then
        SettledUpTo(rows, before, account, now, i + 1, marked[i := row.(completed := true)],
                    ops + [Entry(account, LedgerModel.CompleteUnbonding(row.id), row.amount, now)])
      else SettledUpTo(rows, before, account, now, i + 1, marked, ops)
  {
    var row := rows[i];
    DueOneMore(rows, i, account, now);
    MarkedOneMore(rows, marked, i, if Due(row, account, now) then row.(completed := true) else row);
  }

  lemma DueOneMore(rows: seq<UnbondingRow>, i: nat, account: string, now: int)
    requires i < |rows|
    ensures
      var row := rows[i];
      && MarkDue(rows[..i + 1], account, now)
         == MarkDue(rows[..i], account, now) + [if Due(row, account, now) then row.(completed := true) else row]
      && DueEntries(rows[..i + 1], account, now)
         == DueEntries(rows[..i], account, now)
            + if Due(row, account, now) then [Entry(account, LedgerModel.CompleteUnbonding(row.id), row.amount, now)] else []
  {
    assert rows[..i + 1][..i] == rows[..i];
  }

  /** Replacing the first of the rows still to come. */
  lemma MarkedOneMore(rows: seq<UnbondingRow>, marked: seq<UnbondingRow>, i: nat, row: UnbondingRow)
    requires i < |rows| == |marked| && marked[i..] == rows[i..]
    ensures marked[i] == rows[i]
    ensures marked[i := row][..i + 1] == marked[..i] + [row] && marked[i := row][i + 1..] == rows[i + 1..]
    ensures row == rows[i] ==> marked[i := row] == marked
  {
    assert marked[i..][0] == rows[i..][0];
    assert marked[i + 1..] == marked[i..][1..] && rows[i + 1..] == rows[i..][1..];
  }
}
