/** The credit ledger's tables and what each operation does to them as one all-or-nothing step. */
module LedgerModel {
  import opened Collections

  /** The three columns of an account row. */
  datatype Columns = Columns(balance: int, locked: int, unbonding: int)

  const ZERO := Columns(0, 0, 0)

  function Plus(c: Columns, d: Columns): Columns
  {
    Columns(c.balance + d.balance, c.locked + d.locked, c.unbonding + d.unbonding)
  }

  predicate NonNegative(c: Columns)
  {
    c.balance >= 0 && c.locked >= 0 && c.unbonding >= 0
  }

  function Worth(c: Columns): int
  {
    c.balance + c.locked + c.unbonding
  }

  type Accounts = map<string, Columns>

  datatype EscrowRow = EscrowRow(account: string, amount: int, released: bool, releasedTo: Option<string>)

  datatype UnbondingRow = UnbondingRow(id: string, account: string, amount: int, startedAt: int, completedAt: int, completed: bool)

  datatype SlashRow = SlashRow(account: string, amount: int)

  /** The op_type of an audit entry with the metadata that ties it to other rows. */
  datatype Kind =
    | Mint
    | Transfer
    | Escrow(escrowId: string)
    | Release(escrowId: string, fromAccount: string)
    | Stake
    | Unstake(unbondingId: string)
    | CompleteUnbonding(unbondingId: string)
    | Slash(eventId: string)
    | SlashReward

  datatype Entry = Entry(account: string, kind: Kind, amount: int, at: int)

  datatype Db = Db(
    accounts: Accounts,
    escrows: map<string, EscrowRow>,
    unbonding: seq<UnbondingRow>,
    supply: int,
    ops: seq<Entry>,
    slashes: map<string, SlashRow>)

  const EMPTY := Db(map[], map[], [], 0, [], map[])

  const SYSTEM_ACCOUNT := "system"
  const MAX_SUPPLY := 1_000_000_000_000
  const NANOS := 1_000_000_000

  datatype LedgerError =
    | InvalidAccountId
    | InvalidAmount
    | NegativeInitialBalance
    | NotAuthorizedToMint
    | AccountExists
    | MaxSupplyExceeded
    | InsufficientBalance
    | NoSuchRecipient
    | DuplicateKey
    | EscrowNotFound
    | EscrowAlreadyReleased
    | CheckFailed
    | InsufficientStake
    | MissingAttestationLog
    | UnverifiedHonestVerifiers

  type Outcome<T> = (Db, Result<T, LedgerError>)

  /** What Python's `strip` takes for white space. */
  predicate IsSpace(c: char)
  {
    var n := c as int;
    || 0x09 <= n <= 0x0d || 0x1c <= n <= 0x20 || n == 0x85 || n == 0xa0 || n == 0x1680
    || 0x2000 <= n <= 0x200a || n == 0x2028 || n == 0x2029 || n == 0x202f || n == 0x205f || n == 0x3000
  }

  /** `not account_id.strip()`. */
  predicate Blank(id: string)
  {
    forall i :: 0 <= i < |id| ==> IsSpace(id[i])
  }

  function ColumnsOf(accounts: Accounts, id: string): Columns
  {
    if id in accounts then accounts[id] else ZERO
  }

  /** UPDATE of one row; no row, no effect; a negative column violates the CHECK. */
  function Adjust(accounts: Accounts, id: string, delta: Columns): Option<Accounts>
  {
    if id !in accounts then Some(accounts)
    else
      var c := Plus(accounts[id], delta);
      if NonNegative(c) then Some(accounts[id := c]) else None
  }

  /** Credit an account, creating it if needed. */
  function Credit(accounts: Accounts, id: string, amount: int): Accounts
  {
    accounts[id := Plus(ColumnsOf(accounts, id), Columns(amount, 0, 0))]
  }

  function CreateAccountStep(db: Db, id: string, initial: int, minter: Option<string>, now: int): Outcome<()>
  {
    var minterId := if minter.Some? then minter.value else SYSTEM_ACCOUNT;
    if Blank(id) then (db, Err(InvalidAccountId))
    else if initial < 0 then (db, Err(NegativeInitialBalance))
    else if initial > 0 && minterId != SYSTEM_ACCOUNT then (db, Err(NotAuthorizedToMint))
    else if id in db.accounts then (db, Err(AccountExists))
    else if initial > 0 && db.supply + initial > MAX_SUPPLY then (db, Err(MaxSupplyExceeded))
    else
      var created := db.(accounts := db.accounts[id := Columns(initial, 0, 0)]);
      if initial == 0 then (created, Ok(()))
      else
        (created.(ops := db.ops + [Entry(id, Mint, initial, now)], supply := db.supply + initial), Ok(()))
  }

  function TransferStep(db: Db, from: string, to: string, amount: int, allowCreate: bool, now: int): Outcome<()>
  {
    if Blank(from) || Blank(to) then (db, Err(InvalidAccountId))
    else if amount <= 0 then (db, Err(InvalidAmount))
    else if ColumnsOf(db.accounts, from).balance < amount then (db, Err(InsufficientBalance))
    else if to !in db.accounts && !allowCreate then (db, Err(NoSuchRecipient))
    else
      var debited := db.accounts[from := Plus(ColumnsOf(db.accounts, from), Columns(-amount, 0, 0))];
      (db.(accounts := Credit(debited, to, amount),
           ops := db.ops + [Entry(from, Transfer, -amount, now), Entry(to, Transfer, amount, now)]), Ok(()))
  }

  function EscrowStep(db: Db, account: string, amount: int, escrowId: string, now: int): Outcome<()>
  {
    if Blank(account) then (db, Err(InvalidAccountId))
    else if amount <= 0 then (db, Err(InvalidAmount))
    else if ColumnsOf(db.accounts, account).balance < amount then (db, Err(InsufficientBalance))
    else
      match Adjust(db.accounts, account, Columns(-amount, amount, 0))
      case None => (db, Err(CheckFailed))
      case Some(accounts) =>
        if escrowId in db.escrows then (db, Err(DuplicateKey))
        else
          (db.(accounts := accounts,
               escrows := db.escrows[escrowId := EscrowRow(account, amount, false, None)],
               ops := db.ops + [Entry(account, Escrow(escrowId), amount, now)]), Ok(()))
  }

  function ReleaseStep(db: Db, escrowId: string, to: string, now: int): Outcome<()>
  {
    if Blank(to) then (db, Err(InvalidAccountId))
    else if escrowId !in db.escrows then (db, Err(EscrowNotFound))
    else
      var row := db.escrows[escrowId];
      if row.released then (db, Err(EscrowAlreadyReleased))
      else
        match Adjust(db.accounts, row.account, Columns(0, -row.amount, 0))
        case None => (db, Err(CheckFailed))
        case Some(accounts) =>
          (db.(accounts := Credit(accounts, to, row.amount),
               escrows := db.escrows[escrowId := row.(released := true, releasedTo := Some(to))],
               ops := db.ops + [Entry(to, Release(escrowId, row.account), row.amount, now)]), Ok(()))
  }

  function CancelStep(db: Db, escrowId: string, now: int): Outcome<()>
  {
    if escrowId !in db.escrows then (db, Err(EscrowNotFound))
    else
      var row := db.escrows[escrowId];
      if row.released then (db, Err(EscrowAlreadyReleased))
      else
        match Adjust(db.accounts, row.account, Columns(row.amount, -row.amount, 0))
        case None => (db, Err(CheckFailed))
        case Some(accounts) =>
          (db.(accounts := accounts,
               escrows := db.escrows[escrowId := row.(released := true, releasedTo := Some(row.account))],
               ops := db.ops + [Entry(row.account, Escrow(escrowId), -row.amount, now)]), Ok(()))
  }

  function StakeStep(db: Db, account: string, amount: int, now: int): Outcome<()>
  {
    if amount <= 0 then (db, Err(InvalidAmount))
    else if ColumnsOf(db.accounts, account).balance < amount then (db, Err(InsufficientBalance))
    else
      match Adjust(db.accounts, account, Columns(-amount, amount, 0))
      case None => (db, Err(CheckFailed))
      case Some(accounts) =>
        (db.(accounts := accounts, ops := db.ops + [Entry(account, Stake, amount, now)]), Ok(()))
  }

  predicate HasUnbonding(rows: seq<UnbondingRow>, id: string)
  {
    exists i :: 0 <= i < |rows| && rows[i].id == id
  }

  /** `unbondingSeconds` is the manager's configured period; `id` the uuid drawn for the record. */
  function UnstakeStep(db: Db, account: string, amount: int, unbondingSeconds: int, id: string, now: int): Outcome<string>
  {
    if amount <= 0 then (db, Err(InvalidAmount))
    else if ColumnsOf(db.accounts, account).locked < amount then (db, Err(InsufficientStake))
    else
      match Adjust(db.accounts, account, Columns(0, -amount, amount))
      case None => (db, Err(CheckFailed))
      case Some(accounts) =>
        if HasUnbonding(db.unbonding, id) then (db, Err(DuplicateKey))
        else
          var row := UnbondingRow(id, account, amount, now, now + unbondingSeconds * NANOS, false);
          (db.(accounts := accounts, unbonding := db.unbonding + [row],
               ops := db.ops + [Entry(account, Unstake(id), amount, now)]), Ok(id))
  }

  /** WHERE account_id = ? AND completed = 0 AND completed_at <= ?. */
  predicate Due(row: UnbondingRow, account: string, now: int)
  {
    row.account == account && !row.completed && row.completedAt <= now
  }

  function DueTotal(rows: seq<UnbondingRow>, account: string, now: int): int
  {
    if rows == [] then 0
    else
      var row := rows[|rows| - 1];
      DueTotal(rows[..|rows| - 1], account, now) + if Due(row, account, now) then row.amount else 0
  }

  function MarkDue(rows: seq<UnbondingRow>, account: string, now: int): (marked: seq<UnbondingRow>)
    ensures |marked| == |rows|
  {
    if rows == [] then []
    else
      var row := rows[|rows| - 1];
      MarkDue(rows[..|rows| - 1], account, now) + [if Due(row, account, now) then row.(completed := true) else row]
  }

  function DueEntries(rows: seq<UnbondingRow>, account: string, now: int): seq<Entry>
  {
    if rows == [] then []
    else
      var row := rows[|rows| - 1];
      DueEntries(rows[..|rows| - 1], account, now)
      + if Due(row, account, now) then [Entry(account, CompleteUnbonding(row.id), row.amount, now)] else []
  }

  function CompleteStep(db: Db, account: string, now: int): Outcome<int>
  {
    if DueEntries(db.unbonding, account, now) == [] then (db, Ok(0))
    else
      var total := DueTotal(db.unbonding, account, now);
      match Adjust(db.accounts, account, Columns(total, 0, -total))
      case None => (db, Err(CheckFailed))
      case Some(accounts) =>
        (db.(accounts := accounts, unbonding := MarkDue(db.unbonding, account, now),
             ops := db.ops + DueEntries(db.unbonding, account, now)), Ok(total))
  }

  // ---------- slashing ----------

  function Min(a: int, b: int): int
  {
    if a < b then a else b
  }

  function ExecuteSlashStep(db: Db, eventId: string, account: string, amount: int, at: int): Outcome<()>
  {
    var actual := Min(ColumnsOf(db.accounts, account).locked, amount);
    var cut := if actual > 0 then Adjust(db.accounts, account, Columns(0, -actual, 0)) else Some(db.accounts);
    match cut
    case None => (db, Err(CheckFailed))
    case Some(accounts) =>
      if eventId in db.slashes then (db, Err(DuplicateKey))
      else
        (db.(accounts := accounts,
             slashes := db.slashes[eventId := SlashRow(account, actual)],
             ops := db.ops + if actual > 0 then [Entry(account, Slash(eventId), actual, at)] else []), Ok(()))
  }

  /** What a failed challenge costs: half of the stake. */
  function ChallengeSlash(staked: int): int
  {
    staked / 2
  }

  /**
   * The slashes of a list of verifiers, each a transaction of its own: what an error leaves
   * behind is not rolled back. `newId(i)` is the uuid of the i-th event.
   */
  function SlashAll(db: Db, verifiers: seq<string>, newId: nat -> string, at: int): Outcome<int>
  {
    if verifiers == [] then (db, Ok(0))
    else
      var n := |verifiers| - 1;
      var (before, slashed) := SlashAll(db, verifiers[..n], newId, at);
      match slashed
      case Err(e) => (before, Err(e))
      case Ok(sum) =>
        var amount := ChallengeSlash(ColumnsOf(before.accounts, verifiers[n]).locked);
        var (after, r) := ExecuteSlashStep(before, newId(n), verifiers[n], amount, at);
        match r
        case Err(e) => (after, Err(e))
        case Ok(_) => (after, Ok(sum + amount))
  }

  /** A reward: a missing account is not credited, but the entry is written all the same. */
  function Reward(db: Db, account: string, amount: int, at: int): Db
  {
    db.(accounts := if account in db.accounts then Credit(db.accounts, account, amount) else db.accounts,
        ops := db.ops + [Entry(account, SlashReward, amount, at)])
  }

  /** The share of the i-th honest verifier: the first one also gets the remainder. */
  function HonestShare(total: int, count: nat, i: nat): int
    requires count > 0
  {
    total / count + if i == 0 then total % count else 0
  }

  function RewardHonest(db: Db, honest: seq<string>, total: int, n: nat, at: int): Db
    requires n <= |honest|
  {
    if n == 0 then db
    else Reward(RewardHonest(db, honest, total, n - 1, at), honest[n - 1], HonestShare(total, |honest|, n - 1), at)
  }

  datatype SlashSummary = SlashSummary(totalSlashed: int, challengerPayout: int, honestPayout: int, burned: int)

  function Split(total: int): SlashSummary
  {
    var challenger, honest := total * 50 / 100, total * 40 / 100;
    SlashSummary(total, challenger, honest, total - challenger - honest)
  }

  function PayOut(db: Db, challenger: string, honest: seq<string>, s: SlashSummary, at: int): Db
  {
    var paid := if s.challengerPayout > 0 then Reward(db, challenger, s.challengerPayout, at) else db;
    if s.honestPayout > 0 && honest != [] then RewardHonest(paid, honest, s.honestPayout, |honest|, at) else paid
  }

  function SlashVerifiersStep(db: Db, verifiers: seq<string>, challenger: string, honest: seq<string>,
                              attestors: Option<set<string>>, newId: nat -> string, at: int): Outcome<SlashSummary>
  {
    if verifiers == [] then (db, Ok(SlashSummary(0, 0, 0, 0)))
    else if attestors.None? then (db, Err(MissingAttestationLog))
    else if exists i :: 0 <= i < |honest| && honest[i] !in attestors.value then (db, Err(UnverifiedHonestVerifiers))
    else
      var (slashed, r) := SlashAll(db, verifiers, newId, at);
      match r
      case Err(e) => (slashed, Err(e))
      case Ok(total) => (PayOut(slashed, challenger, honest, Split(total), at), Ok(Split(total)))
  }

  // ---------- runs ----------

  datatype Command =
    | CreateAccount(id: string, initial: int, minter: Option<string>, now: int)
    | DoTransfer(from: string, to: string, amount: int, allowCreate: bool, now: int)
    | DoEscrow(account: string, amount: int, escrowId: string, now: int)
    | DoRelease(escrowId: string, to: string, now: int)
    | DoCancel(escrowId: string, now: int)
    | DoStake(account: string, amount: int, now: int)
    | DoUnstake(account: string, amount: int, unbondingSeconds: int, unbondingId: string, now: int)
    | DoComplete(account: string, now: int)
    | DoExecuteSlash(eventId: string, account: string, amount: int, now: int)
    | DoSlashVerifiers(verifiers: seq<string>, challenger: string, honest: seq<string>,
                       attestors: Option<set<string>>, newId: nat -> string, now: int)
    | DoPayOut(challenger: string, honest: seq<string>, total: nat, now: int)

  /** The tables after a command, successful or not. */
  function Exec(db: Db, c: Command): Db
  {
    match c
    case CreateAccount(id, initial, minter, now) => CreateAccountStep(db, id, initial, minter, now).0
    case DoTransfer(from, to, amount, allowCreate, now) => TransferStep(db, from, to, amount, allowCreate, now).0
    case DoEscrow(account, amount, escrowId, now) => EscrowStep(db, account, amount, escrowId, now).0
    case DoRelease(escrowId, to, now) => ReleaseStep(db, escrowId, to, now).0
    case DoCancel(escrowId, now) => CancelStep(db, escrowId, now).0
    case DoStake(account, amount, now) => StakeStep(db, account, amount, now).0
    case DoUnstake(account, amount, seconds, id, now) => UnstakeStep(db, account, amount, seconds, id, now).0
    case DoComplete(account, now) => CompleteStep(db, account, now).0
    case DoExecuteSlash(eventId, account, amount, now) => ExecuteSlashStep(db, eventId, account, amount, now).0
    case DoSlashVerifiers(verifiers, challenger, honest, attestors, newId, now) =>
      SlashVerifiersStep(db, verifiers, challenger, honest, attestors, newId, now).0
    case DoPayOut(challenger, honest, total, now) => PayOut(db, challenger, honest, Split(total), now)
  }

  ghost function Run(commands: seq<Command>): Db
  {
    if commands == [] then EMPTY else Exec(Run(commands[..|commands| - 1]), commands[|commands| - 1])
  }
}
