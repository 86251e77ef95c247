/** The escrow table against the locked column and the audit log. */
module LedgerEscrows {
  import opened Collections
  import opened LedgerModel
  import opened LedgerLog
  import opened LedgerInvariants

  // ---------- settled once, in every run ----------

  /** A release, or the negative entry of a cancellation. */
  predicate Settles(e: Entry, id: string)
  {
    (e.kind.Release? && e.kind.escrowId == id) || (e.kind == Escrow(id) && e.amount < 0)
  }

  function TimesSettled(ops: seq<Entry>, id: string): nat
  {
    if ops == [] then 0
    else TimesSettled(ops[..|ops| - 1], id) + if Settles(ops[|ops| - 1], id) then 1 else 0
  }

  ghost predicate NoEscrowEntries(more: seq<Entry>)
  {
    forall e :: e in more ==> !e.kind.Release? && !e.kind.Escrow?
  }

  /**
   * An escrow's entries say what its row says: opened by its owner; released in full, out of the owner's
   * columns and to the payee noted; cancelled in full, back to the owner.
   */
  ghost predicate EntryRight(escrows: map<string, EscrowRow>, e: Entry)
  {
    match e.kind
    case Release(id, from) =>
      && id in escrows && escrows[id].released && escrows[id].releasedTo == Some(e.account)
      && escrows[id].account == from && escrows[id].amount == e.amount
    case Escrow(id) =>
      && id in escrows && escrows[id].account == e.account
      && if e.amount < 0 then escrows[id].released && escrows[id].releasedTo == Some(e.account) && escrows[id].amount == -e.amount
         else escrows[id].amount == e.amount
    case _ => true
  }

  ghost predicate EntriesRight(db: Db)
  {
    forall e :: e in db.ops ==> EntryRight(db.escrows, e)
  }

  lemma TimesSettledAppend(ops: seq<Entry>, e: Entry, id: string)
    ensures TimesSettled(ops + [e], id) == TimesSettled(ops, id) + if Settles(e, id) then 1 else 0
  {
    assert (ops + [e])[..|ops|] == ops;
  }

  lemma {:induction false} NoneSettled(ops: seq<Entry>, more: seq<Entry>, id: string)
    requires NoEscrowEntries(more)
    ensures TimesSettled(ops + more, id) == TimesSettled(ops, id)
  {
    if more == [] {
      assert ops + more == ops;
    } else {
      assert ops + more == (ops + more[..|more| - 1]) + [more[|more| - 1]];
      TimesSettledAppend(ops + more[..|more| - 1], more[|more| - 1], id);
      assert more[|more| - 1] in more;
      NoneSettled(ops, more[..|more| - 1], id);
    }
  }

  ghost predicate SettledOnce(db: Db, id: string)
  {
    TimesSettled(db.ops, id) == if id in db.escrows && db.escrows[id].released then 1 else 0
  }

  predicate TouchesEscrows(c: Command)
  {
    c.DoEscrow? || c.DoRelease? || c.DoCancel?
  }

  /** Commands outside the escrow methods leave the table alone and write no settling entry. */
  lemma OthersLeaveEscrows(db: Db, c: Command) returns (more: seq<Entry>)
    requires Basic(db) && !TouchesEscrows(c)
    ensures Exec(db, c).escrows == db.escrows && Exec(db, c).ops == db.ops + more
    ensures NoEscrowEntries(more)
  {
    if c.DoSlashVerifiers? {
      more := SlashVerifiersLaw(db, c.verifiers, c.challenger, c.honest, c.attestors, c.newId, c.now);
      SlashVerifiersEscrows(db, c.verifiers, c.challenger, c.honest, c.attestors, c.newId, c.now);
    } else if c.DoPayOut? {
      more := PayOutLaw(db, c.challenger, c.honest, Split(c.total), c.now);
      PayOutEscrows(db, c.challenger, c.honest, Split(c.total), c.now);
    } else {
      more := CommandWrites(db, c);
      PlainLeavesEscrows(db, c);
    }
  }

  lemma PlainLeavesEscrows(db: Db, c: Command)
    requires !TouchesEscrows(c) && !c.DoSlashVerifiers? && !c.DoPayOut?
    ensures Exec(db, c).escrows == db.escrows
  {
  }

  lemma {:induction false} SlashAllEscrows(db: Db, verifiers: seq<string>, newId: nat -> string, at: int)
    ensures SlashAll(db, verifiers, newId, at).0.escrows == db.escrows
  {
    if verifiers != [] {
      SlashAllEscrows(db, verifiers[..|verifiers| - 1], newId, at);
    }
  }

  lemma {:induction false} RewardHonestEscrows(db: Db, honest: seq<string>, total: int, n: nat, at: int)
    requires n <= |honest|
    ensures RewardHonest(db, honest, total, n, at).escrows == db.escrows
  {
    if n > 0 {
      RewardHonestEscrows(db, honest, total, n - 1, at);
    }
  }

  lemma SlashVerifiersEscrows(db: Db, verifiers: seq<string>, challenger: string, honest: seq<string>,
                              attestors: Option<set<string>>, newId: nat -> string, at: int)
    ensures SlashVerifiersStep(db, verifiers, challenger, honest, attestors, newId, at).0.escrows == db.escrows
  {
    SlashAllEscrows(db, verifiers, newId, at);
    var (slashed, r) := SlashAll(db, verifiers, newId, at);
    if r.Ok? {
      PayOutEscrows(slashed, challenger, honest, Split(r.value), at);
    }
  }

  lemma PayOutEscrows(db: Db, challenger: string, honest: seq<string>, s: SlashSummary, at: int)
    ensures PayOut(db, challenger, honest, s, at).escrows == db.escrows
  {
    var paid := if s.challengerPayout > 0 then Reward(db, challenger, s.challengerPayout, at) else db;
    RewardHonestEscrows(paid, honest, s.honestPayout, |honest|, at);
  }

  /** The tables and the log after settling the escrow `escrowId` with the entry `e`. */
  ghost predicate Settled(db: Db, db': Db, escrowId: string, e: Entry)
  {
    && escrowId in db.escrows && !db.escrows[escrowId].released && db'.ops == db.ops + [e]
    && escrowId in db'.escrows && db'.escrows[escrowId].released
    && db'.escrows == db.escrows[escrowId := db'.escrows[escrowId]]
  }

  lemma SettledKeeps(db: Db, db': Db, escrowId: string, e: Entry, id: string)
    requires SettledOnce(db, id) && Settled(db, db', escrowId, e) && (Settles(e, id) <==> id == escrowId)
    ensures SettledOnce(db', id)
  {
    TimesSettledAppend(db.ops, e, id);
  }

  lemma Released(db: Db, escrowId: string, to: string, now: int)
    ensures
      var (db', r) := ReleaseStep(db, escrowId, to, now);
      if r.Err? then db' == db
      else escrowId in db.escrows
           && Settled(db, db', escrowId, Entry(to, Release(escrowId, db.escrows[escrowId].account), db.escrows[escrowId].amount, now))
  {
  }

  lemma Cancelled(db: Db, escrowId: string, now: int)
    ensures
      var (db', r) := CancelStep(db, escrowId, now);
      if r.Err? then db' == db
      else escrowId in db.escrows
           && Settled(db, db', escrowId, Entry(db.escrows[escrowId].account, Escrow(escrowId), -db.escrows[escrowId].amount, now))
  {
  }

  lemma ReleaseSettles(db: Db, escrowId: string, to: string, now: int, id: string)
    requires SettledOnce(db, id)
    ensures SettledOnce(ReleaseStep(db, escrowId, to, now).0, id)
  {
    Released(db, escrowId, to, now);
    if ReleaseStep(db, escrowId, to, now).1.Ok? {
      var row := db.escrows[escrowId];
      SettledKeeps(db, ReleaseStep(db, escrowId, to, now).0, escrowId,
                   Entry(to, Release(escrowId, row.account), row.amount, now), id);
    }
  }

  lemma CancelSettles(db: Db, escrowId: string, now: int, id: string)
    requires Basic(db) && SettledOnce(db, id)
    ensures SettledOnce(CancelStep(db, escrowId, now).0, id)
  {
    Cancelled(db, escrowId, now);
    if CancelStep(db, escrowId, now).1.Ok? {
      var row := db.escrows[escrowId];
      SettledKeeps(db, CancelStep(db, escrowId, now).0, escrowId,
                   Entry(row.account, Escrow(escrowId), -row.amount, now), id);
    }
  }

  lemma OpeningSettlesNone(db: Db, account: string, amount: int, escrowId: string, now: int, id: string)
    requires SettledOnce(db, id)
    ensures SettledOnce(EscrowStep(db, account, amount, escrowId, now).0, id)
  {
    var (db', r) := EscrowStep(db, account, amount, escrowId, now);
    if r.Ok? {
      RowOpened(db, db', escrowId, EscrowRow(account, amount, false, None), Entry(account, Escrow(escrowId), amount, now), id);
    }
  }

  lemma RowOpened(db: Db, db': Db, escrowId: string, row: EscrowRow, e: Entry, id: string)
    requires SettledOnce(db, id) && escrowId !in db.escrows && !row.released && !Settles(e, id)
    requires db'.escrows == db.escrows[escrowId := row] && db'.ops == db.ops + [e]
    ensures SettledOnce(db', id)
  {
    TimesSettledAppend(db.ops, e, id);
  }

  lemma EscrowStepSettles(db: Db, c: Command, id: string)
    requires Basic(db) && TouchesEscrows(c) && SettledOnce(db, id)
    ensures SettledOnce(Exec(db, c), id)
  {
    match c
    case DoEscrow(account, amount, escrowId, now) =>
      OpeningSettlesNone(db, account, amount, escrowId, now, id);
    case DoRelease(escrowId, to, now) =>
      ReleaseSettles(db, escrowId, to, now, id);
    case DoCancel(escrowId, now) =>
      CancelSettles(db, escrowId, now, id);
    case _ =>
  }

  /** Rows are never removed, and change only by being settled. */
  ghost predicate RowsStay(before: map<string, EscrowRow>, after: map<string, EscrowRow>)
  {
    forall id :: id in before ==>
      && id in after && after[id].account == before[id].account && after[id].amount == before[id].amount
      && (before[id].released ==> after[id] == before[id])
  }

  lemma RightAfter(db: Db, db': Db, e: Entry)
    requires EntriesRight(db) && RowsStay(db.escrows, db'.escrows)
    requires db'.ops == db.ops + [e] && EntryRight(db'.escrows, e)
    ensures EntriesRight(db')
  {
    forall x | x in db.ops ensures EntryRight(db'.escrows, x) {
      assert EntryRight(db.escrows, x);
    }
  }

  lemma OthersRight(db: Db, db': Db, more: seq<Entry>)
    requires EntriesRight(db) && db'.escrows == db.escrows && db'.ops == db.ops + more && NoEscrowEntries(more)
    ensures EntriesRight(db')
  {
    forall x | x in db'.ops ensures EntryRight(db'.escrows, x) {
      assert x in db.ops || x in more;
    }
  }

  lemma EscrowStepRight(db: Db, c: Command)
    requires Basic(db) && TouchesEscrows(c) && EntriesRight(db)
    ensures EntriesRight(Exec(db, c))
  {
    match c
    case DoEscrow(account, amount, escrowId, now) =>
      OpeningRight(db, account, amount, escrowId, now);
    case DoRelease(escrowId, to, now) =>
      ReleaseRight(db, escrowId, to, now);
    case DoCancel(escrowId, now) =>
      CancelRight(db, escrowId, now);
    case _ =>
  }

  lemma OpeningRight(db: Db, account: string, amount: int, escrowId: string, now: int)
    requires EntriesRight(db)
    ensures EntriesRight(EscrowStep(db, account, amount, escrowId, now).0)
  {
    var (db', r) := EscrowStep(db, account, amount, escrowId, now);
    if r.Ok? {
      RightAfter(db, db', Entry(account, Escrow(escrowId), amount, now));
    }
  }

  lemma ReleaseRight(db: Db, escrowId: string, to: string, now: int)
    requires EntriesRight(db)
    ensures EntriesRight(ReleaseStep(db, escrowId, to, now).0)
  {
    var (db', r) := ReleaseStep(db, escrowId, to, now);
    Released(db, escrowId, to, now);
    if r.Ok? {
      var row := db.escrows[escrowId];
      RightAfter(db, db', Entry(to, Release(escrowId, row.account), row.amount, now));
    }
  }

  lemma CancelRight(db: Db, escrowId: string, now: int)
    requires Basic(db) && EntriesRight(db)
    ensures EntriesRight(CancelStep(db, escrowId, now).0)
  {
    var (db', r) := CancelStep(db, escrowId, now);
    Cancelled(db, escrowId, now);
    if r.Ok? {
      var row := db.escrows[escrowId];
      RightAfter(db, db', Entry(row.account, Escrow(escrowId), -row.amount, now));
    }
  }

  lemma {:induction false} EscrowEntriesRight(commands: seq<Command>)
    ensures EntriesRight(Run(commands))
  {
    if commands != [] {
      var front, c := commands[..|commands| - 1], commands[|commands| - 1];
      EscrowEntriesRight(front);
      RunKeepsBasic(front);
      if TouchesEscrows(c) {
        EscrowStepRight(Run(front), c);
      } else {
        var more := OthersLeaveEscrows(Run(front), c);
        OthersRight(Run(front), Run(commands), more);
      }
    }
  }

  /**
   * In every run each escrow is released or cancelled at most once, and settled exactly when marked so, with
   * entries for its full amount between its owner and its payee.
   */
  lemma {:induction false} EscrowsSettledOnce(commands: seq<Command>, id: string)
    ensures SettledOnce(Run(commands), id)
    ensures EntriesRight(Run(commands))
  {
    EscrowEntriesRight(commands);
    if commands != [] {
      var front, c := commands[..|commands| - 1], commands[|commands| - 1];
      EscrowsSettledOnce(front, id);
      RunKeepsBasic(front);
      if TouchesEscrows(c) {
        EscrowStepSettles(Run(front), c, id);
      } else {
        var more := OthersLeaveEscrows(Run(front), c);
        NoneSettled(Run(front).ops, more, id);
      }
    }
  }

  // ---------- backed by locked credits, without staking ----------

  function LiveAmount(row: EscrowRow, a: string): int
  {
    if row.account == a && !row.released then row.amount else 0
  }

  /** Sum of the unreleased escrows of account `a`. */
  ghost function Live(escrows: map<string, EscrowRow>, a: string): int
  {
    if escrows == map[] then 0
    else
      var id :| id in escrows;
      LiveAmount(escrows[id], a) + Live(escrows - {id}, a)
  }

  lemma {:induction false} LiveWithout(escrows: map<string, EscrowRow>, id: string, a: string)
    requires id in escrows
    ensures Live(escrows, a) == LiveAmount(escrows[id], a) + Live(escrows - {id}, a)
  {
    var x :| x in escrows && Live(escrows, a) == LiveAmount(escrows[x], a) + Live(escrows - {x}, a);
    if x != id {
      LiveWithout(escrows - {x}, id, a);
      assert escrows - {x} - {id} == escrows - {id} - {x};
      LiveWithout(escrows - {id}, x, a);
    }
  }

  lemma LiveUpdate(escrows: map<string, EscrowRow>, id: string, row: EscrowRow, a: string)
    ensures Live(escrows[id := row], a)
            == Live(escrows, a) - (if id in escrows then LiveAmount(escrows[id], a) else 0) + LiveAmount(row, a)
  {
    var updated := escrows[id := row];
    LiveWithout(updated, id, a);
    assert updated - {id} == escrows - {id};
    if id in escrows {
      LiveWithout(escrows, id, a);
    } else {
      assert escrows - {id} == escrows;
    }
  }

  lemma {:induction false} LiveNonNegative(escrows: map<string, EscrowRow>, a: string)
    requires forall id :: id in escrows ==> escrows[id].amount > 0
    ensures Live(escrows, a) >= 0
  {
    if escrows == map[] {
      assert Live(escrows, a) == 0;
    } else {
      var id :| id in escrows;
      LiveWithout(escrows, id, a);
      LiveNonNegative(escrows - {id}, a);
    }
  }

  ghost predicate EscrowBacked(db: Db, a: string)
  {
    ColumnsOf(db.accounts, a).locked == Live(db.escrows, a)
  }

  /** A method of the credit ledger itself, as opposed to staking and slashing. */
  predicate IsLedgerCommand(c: Command)
  {
    c.CreateAccount? || c.DoTransfer? || TouchesEscrows(c)
  }

  lemma LedgerStepBacked(db: Db, c: Command, a: string)
    requires Basic(db) && IsLedgerCommand(c) && EscrowBacked(db, a)
    ensures EscrowBacked(Exec(db, c), a)
  {
    if TouchesEscrows(c) {
      EscrowMovesBacked(db, c, a);
    }
  }

  lemma EscrowMovesBacked(db: Db, c: Command, a: string)
    requires Basic(db) && TouchesEscrows(c) && EscrowBacked(db, a)
    ensures EscrowBacked(Exec(db, c), a)
  {
    var db' := Exec(db, c);
    if db' != db {
      LiveUpdate(db.escrows, c.escrowId, db'.escrows[c.escrowId], a);
    }
  }

  ghost predicate LedgerOnly(commands: seq<Command>)
  {
    forall i :: 0 <= i < |commands| ==> IsLedgerCommand(commands[i])
  }

  /** In runs of the ledger's own methods every locked credit belongs to a live escrow. */
  lemma {:induction false} LockedIsEscrowed(commands: seq<Command>, a: string)
    requires LedgerOnly(commands)
    ensures EscrowBacked(Run(commands), a)
  {
    if commands == [] {
      assert Live(map[], a) == 0;
    } else {
      var front, c := commands[..|commands| - 1], commands[|commands| - 1];
      LockedIsEscrowed(front, a);
      RunKeepsBasic(front);
      assert IsLedgerCommand(c);
      LedgerStepBacked(Run(front), c, a);
    }
  }

  /** A live escrow can be settled exactly when its owner still has that much locked. */
  lemma SettlingSucceedsIff(db: Db, escrowId: string, to: string, now: int)
    requires Basic(db) && escrowId in db.escrows && !db.escrows[escrowId].released && !Blank(to)
    ensures
      var row := db.escrows[escrowId];
      var covered := row.amount <= db.accounts[row.account].locked;
      && (ReleaseStep(db, escrowId, to, now).1 == if covered then Ok(()) else Err(CheckFailed))
      && (CancelStep(db, escrowId, now).1 == if covered then Ok(()) else Err(CheckFailed))
  {
  }

  /** Without staking a live escrow can always be settled. */
  lemma LiveEscrowsSettle(commands: seq<Command>, escrowId: string, to: string, now: int)
    requires LedgerOnly(commands) && !Blank(to)
    requires escrowId in Run(commands).escrows && !Run(commands).escrows[escrowId].released
    ensures ReleaseStep(Run(commands), escrowId, to, now).1.Ok? && CancelStep(Run(commands), escrowId, now).1.Ok?
  {
    var db := Run(commands);
    var owner := db.escrows[escrowId].account;
    RunKeepsBasic(commands);
    LockedIsEscrowed(commands, owner);
    LiveWithout(db.escrows, escrowId, owner);
    LiveNonNegative(db.escrows - {escrowId}, owner);
    SettlingSucceedsIff(db, escrowId, to, now);
  }

  /** Staking shares the column: unstaking takes escrowed credits, and the escrow is then stuck. */
  lemma UnstakingStrandsEscrow(account: string, amount: int, seconds: int, to: string, now: int)
    requires !Blank(account) && !Blank(to) && 0 < amount <= MAX_SUPPLY
    ensures
      var commands := [CreateAccount(account, amount, None, now), DoEscrow(account, amount, "e", now),
                       DoUnstake(account, amount, seconds, "u", now)];
      ReleaseStep(Run(commands), "e", to, now).1 == Err(CheckFailed)
  {
    var commands := [CreateAccount(account, amount, None, now), DoEscrow(account, amount, "e", now),
                     DoUnstake(account, amount, seconds, "u", now)];
    assert commands[..2][..1] == commands[..1] && commands[..1][..0] == [];
    var db1 := CreateAccountStep(EMPTY, account, amount, None, now).0;
    assert Run(commands[..1]) == db1 && db1.accounts == map[account := Columns(amount, 0, 0)];
    var db2 := EscrowStep(db1, account, amount, "e", now).0;
    assert Run(commands[..2]) == db2 && db2.accounts[account] == Columns(0, amount, 0);
    var db3 := UnstakeStep(db2, account, amount, seconds, "u", now).0;
    assert Run(commands) == db3 && db3.accounts[account] == Columns(0, 0, amount);
  }
}
