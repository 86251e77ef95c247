/** The unbonding and escrow tables against the account columns and the audit log. */
module LedgerSubledgers {
  import opened Collections
  import opened LedgerModel
  import opened LedgerLog
  import opened LedgerInvariants

  // ---------- unbonding ----------

  /** What account `a` still has coming from incomplete records. */
  function Pending(rows: seq<UnbondingRow>, a: string): int
  {
    if rows == [] then 0
    else
      var row := rows[|rows| - 1];
      Pending(rows[..|rows| - 1], a) + if row.account == a && !row.completed then row.amount else 0
  }

  ghost predicate UniqueRowIds(rows: seq<UnbondingRow>)
  {
    forall i, j :: 0 <= i < j < |rows| ==> rows[i].id != rows[j].id
  }

  /** Each account's unbonding column is the sum of its incomplete records. */
  ghost predicate UnbondingBacked(db: Db)
  {
    UniqueRowIds(db.unbonding) && forall a :: ColumnsOf(db.accounts, a).unbonding == Pending(db.unbonding, a)
  }

  lemma {:induction false} DueWithinPending(rows: seq<UnbondingRow>, a: string, now: int)
    requires forall i :: 0 <= i < |rows| ==> rows[i].amount > 0
    ensures 0 <= DueTotal(rows, a, now) <= Pending(rows, a)
  {
    if rows != [] {
      DueWithinPending(rows[..|rows| - 1], a, now);
    }
  }

  lemma {:induction false} MarkDuePending(rows: seq<UnbondingRow>, account: string, now: int, a: string)
    ensures Pending(MarkDue(rows, account, now), a)
            == Pending(rows, a) - if a == account then DueTotal(rows, account, now) else 0
  {
    if rows != [] {
      var front := rows[..|rows| - 1];
      MarkDuePending(front, account, now, a);
      var marked := MarkDue(rows, account, now);
      assert marked[..|marked| - 1] == MarkDue(front, account, now);
    }
  }

  ghost predicate SameUnbonding(db: Db, db': Db)
  {
    && db'.unbonding == db.unbonding
    && forall a :: ColumnsOf(db'.accounts, a).unbonding == ColumnsOf(db.accounts, a).unbonding
  }

  lemma ExecuteSlashSameUnbonding(db: Db, eventId: string, account: string, amount: int, at: int)
    ensures SameUnbonding(db, ExecuteSlashStep(db, eventId, account, amount, at).0)
  {
  }

  lemma {:induction false} SlashAllSameUnbonding(db: Db, verifiers: seq<string>, newId: nat -> string, at: int)
    ensures SameUnbonding(db, SlashAll(db, verifiers, newId, at).0)
  {
    if verifiers != [] {
      var n := |verifiers| - 1;
      SlashAllSameUnbonding(db, verifiers[..n], newId, at);
      var mid := SlashAll(db, verifiers[..n], newId, at).0;
      var amount := ChallengeSlash(ColumnsOf(mid.accounts, verifiers[n]).locked);
      ExecuteSlashSameUnbonding(mid, newId(n), verifiers[n], amount, at);
    }
  }

  lemma {:induction false} RewardHonestSameUnbonding(db: Db, honest: seq<string>, total: int, n: nat, at: int)
    requires n <= |honest|
    ensures SameUnbonding(db, RewardHonest(db, honest, total, n, at))
  {
    if n > 0 {
      RewardHonestSameUnbonding(db, honest, total, n - 1, at);
    }
  }

  lemma PayOutSameUnbonding(db: Db, challenger: string, honest: seq<string>, s: SlashSummary, at: int)
    ensures SameUnbonding(db, PayOut(db, challenger, honest, s, at))
  {
    var paid := if s.challengerPayout > 0 then Reward(db, challenger, s.challengerPayout, at) else db;
    assert SameUnbonding(db, paid);
    if honest != [] {
      RewardHonestSameUnbonding(paid, honest, s.honestPayout, |honest|, at);
    }
  }

  lemma SlashVerifiersSameUnbonding(db: Db, verifiers: seq<string>, challenger: string, honest: seq<string>,
                                    attestors: Option<set<string>>, newId: nat -> string, at: int)
    ensures SameUnbonding(db, SlashVerifiersStep(db, verifiers, challenger, honest, attestors, newId, at).0)
  {
    SlashAllSameUnbonding(db, verifiers, newId, at);
    var (slashed, r) := SlashAll(db, verifiers, newId, at);
    if r.Ok? {
      PayOutSameUnbonding(slashed, challenger, honest, Split(r.value), at);
    }
  }

  /** Only unstaking and completing touch the unbonding column or its records. */
  lemma OthersSameUnbonding(db: Db, c: Command)
    requires !c.DoUnstake? && !c.DoComplete?
    ensures SameUnbonding(db, Exec(db, c))
  {
    if c.DoSlashVerifiers? {
      SlashVerifiersSameUnbonding(db, c.verifiers, c.challenger, c.honest, c.attestors, c.newId, c.now);
    } else if c.DoPayOut? {
      PayOutSameUnbonding(db, c.challenger, c.honest, Split(c.total), c.now);
    } else if c.CreateAccount? || c.DoTransfer? || c.DoEscrow? {
      EntriesSameUnbonding(db, c);
    }
  }

  lemma EntriesSameUnbonding(db: Db, c: Command)
    requires c.CreateAccount? || c.DoTransfer? || c.DoEscrow?
    ensures SameUnbonding(db, Exec(db, c))
  {
  }

  lemma UnstakeKeepsBacking(db: Db, account: string, amount: int, seconds: int, id: string, now: int)
    requires UnbondingBacked(db)
    ensures UnbondingBacked(UnstakeStep(db, account, amount, seconds, id, now).0)
  {
    var (db', r) := UnstakeStep(db, account, amount, seconds, id, now);
    if r.Ok? {
      assert db'.unbonding[..|db'.unbonding| - 1] == db.unbonding;
      forall a ensures ColumnsOf(db'.accounts, a).unbonding == Pending(db'.unbonding, a) {
        assert ColumnsOf(db.accounts, a).unbonding == Pending(db.unbonding, a);
      }
    }
  }

  lemma CompleteKeepsBacking(db: Db, account: string, now: int)
    requires UnbondingBacked(db) && Basic(db)
    ensures UnbondingBacked(CompleteStep(db, account, now).0)
  {
    var db' := CompleteStep(db, account, now).0;
    if db' != db {
      MarkDueFacts(db.unbonding, account, now);
      DueEntriesOwn(db.unbonding, account, now);
      forall a ensures ColumnsOf(db'.accounts, a).unbonding == Pending(db'.unbonding, a) {
        MarkDuePending(db.unbonding, account, now, a);
        assert ColumnsOf(db.accounts, a).unbonding == Pending(db.unbonding, a);
      }
    }
  }

  /** In every run the unbonding column of every account equals its incomplete records. */
  lemma {:induction false} RunKeepsUnbonding(commands: seq<Command>)
    ensures UnbondingBacked(Run(commands))
  {
    if commands != [] {
      var front, c := commands[..|commands| - 1], commands[|commands| - 1];
      RunKeepsUnbonding(front);
      RunKeepsBasic(front);
      if c.DoUnstake? {
        UnstakeKeepsBacking(Run(front), c.account, c.amount, c.unbondingSeconds, c.unbondingId, c.now);
      } else if c.DoComplete? {
        CompleteKeepsBacking(Run(front), c.account, c.now);
      } else {
        OthersSameUnbonding(Run(front), c);
        SameUnbondingKeeps(Run(front), Run(commands));
      }
    }
  }

  lemma SameUnbondingKeeps(db: Db, db': Db)
    requires UnbondingBacked(db) && SameUnbonding(db, db')
    ensures UnbondingBacked(db')
  {
    forall a ensures ColumnsOf(db'.accounts, a).unbonding == Pending(db'.unbonding, a) {
      assert ColumnsOf(db.accounts, a).unbonding == Pending(db.unbonding, a);
    }
  }

  /** Completion never fails and pays all that is due, in whatever state a run has reached. */
  lemma CompletionSucceeds(commands: seq<Command>, account: string, now: int)
    ensures CompleteStep(Run(commands), account, now).1 == Ok(DueTotal(Run(commands).unbonding, account, now))
  {
    var db := Run(commands);
    RunKeepsBasic(commands);
    RunKeepsUnbonding(commands);
    DueWithinPending(db.unbonding, account, now);
    NothingDue(db.unbonding, account, now);
    assert ColumnsOf(db.accounts, account).unbonding == Pending(db.unbonding, account);
  }

  lemma {:induction false} NothingDue(rows: seq<UnbondingRow>, account: string, now: int)
    ensures DueEntries(rows, account, now) == [] ==> DueTotal(rows, account, now) == 0
  {
    if rows != [] {
      NothingDue(rows[..|rows| - 1], account, now);
    }
  }

  // ---------- each record is paid once ----------

  /** How often the log pays out unbonding record `id`. */
  function TimesPaid(ops: seq<Entry>, id: string): nat
  {
    if ops == [] then 0
    else TimesPaid(ops[..|ops| - 1], id) + if ops[|ops| - 1].kind == CompleteUnbonding(id) then 1 else 0
  }

  lemma {:induction false} TimesPaidConcat(ops: seq<Entry>, more: seq<Entry>, id: string)
    ensures TimesPaid(ops + more, id) == TimesPaid(ops, id) + TimesPaid(more, id)
  {
    if more == [] {
      assert ops + more == ops;
    } else {
      assert (ops + more)[..|ops + more| - 1] == ops + more[..|more| - 1];
      TimesPaidConcat(ops, more[..|more| - 1], id);
    }
  }

  /** The record behind a payment: same account and amount, and matured by the time of payment. */
  ghost predicate Justified(db: Db, e: Entry)
  {
    e.kind.CompleteUnbonding? ==>
      exists i :: && 0 <= i < |db.unbonding|
                  && var row := db.unbonding[i];
                  && row.id == e.kind.unbondingId && row.account == e.account && row.amount == e.amount
                  && row.completed && row.completedAt <= e.at
  }

  ghost predicate PaidOnce(db: Db)
  {
    && UniqueRowIds(db.unbonding)
    && (forall i :: 0 <= i < |db.unbonding| ==>
          TimesPaid(db.ops, db.unbonding[i].id) == if db.unbonding[i].completed then 1 else 0)
    && (forall e :: e in db.ops ==> Justified(db, e))
  }

  /** Entries that pay out no unbonding record. */
  ghost predicate NoCompletions(more: seq<Entry>)
  {
    forall e :: e in more ==> !e.kind.CompleteUnbonding?
  }

  lemma {:induction false} NoneCompleted(more: seq<Entry>, id: string)
    requires NoCompletions(more)
    ensures TimesPaid(more, id) == 0
  {
    if more != [] {
      NoneCompleted(more[..|more| - 1], id);
    }
  }

  lemma {:induction false} UnknownNeverPaid(db: Db, ops: seq<Entry>, id: string)
    requires forall e :: e in ops ==> Justified(db, e)
    requires !HasUnbonding(db.unbonding, id)
    ensures TimesPaid(ops, id) == 0
  {
    if ops != [] {
      UnknownNeverPaid(db, ops[..|ops| - 1], id);
      assert Justified(db, ops[|ops| - 1]);
    }
  }

  lemma {:induction false} DueEntriesPay(rows: seq<UnbondingRow>, account: string, now: int, i: nat)
    requires UniqueRowIds(rows) && i < |rows|
    ensures TimesPaid(DueEntries(rows, account, now), rows[i].id) == if Due(rows[i], account, now) then 1 else 0
  {
    var front, row := rows[..|rows| - 1], rows[|rows| - 1];
    var e := Entry(account, CompleteUnbonding(row.id), row.amount, now);
    TimesPaidConcat(DueEntries(front, account, now), if Due(row, account, now) then [e] else [], rows[i].id);
    assert [e][..0] == [];
    if i < |rows| - 1 {
      DueEntriesPay(front, account, now, i);
    } else {
      NotAmongPaid(front, account, now, row.id);
    }
  }

  lemma {:induction false} NotAmongPaid(rows: seq<UnbondingRow>, account: string, now: int, id: string)
    requires !HasUnbonding(rows, id)
    ensures TimesPaid(DueEntries(rows, account, now), id) == 0
  {
    if rows != [] {
      var front, row := rows[..|rows| - 1], rows[|rows| - 1];
      assert rows[|rows| - 1].id != id;
      NotAmongPaid(front, account, now, id);
      var e := Entry(account, CompleteUnbonding(row.id), row.amount, now);
      TimesPaidConcat(DueEntries(front, account, now), if Due(row, account, now) then [e] else [], id);
      assert [e][..0] == [];
    }
  }

  lemma {:induction false} DueEntriesNameRows(rows: seq<UnbondingRow>, account: string, now: int, e: Entry)
    requires e in DueEntries(rows, account, now)
    ensures exists i :: 0 <= i < |rows| && Due(rows[i], account, now)
              && e == Entry(account, CompleteUnbonding(rows[i].id), rows[i].amount, now)
  {
    var front, row := rows[..|rows| - 1], rows[|rows| - 1];
    if e in DueEntries(front, account, now) {
      DueEntriesNameRows(front, account, now, e);
      var i :| 0 <= i < |front| && Due(front[i], account, now)
              && e == Entry(account, CompleteUnbonding(front[i].id), front[i].amount, now);
      assert rows[i] == front[i];
    }
  }

  lemma OthersPayOnce(db: Db, db': Db, more: seq<Entry>)
    requires PaidOnce(db) && db'.unbonding == db.unbonding && db'.ops == db.ops + more && NoCompletions(more)
    ensures PaidOnce(db')
  {
    forall i | 0 <= i < |db'.unbonding|
      ensures TimesPaid(db'.ops, db'.unbonding[i].id) == if db'.unbonding[i].completed then 1 else 0
    {
      TimesPaidConcat(db.ops, more, db.unbonding[i].id);
      NoneCompleted(more, db.unbonding[i].id);
    }
    forall e | e in db'.ops ensures Justified(db', e) {
      assert e in db.ops ==> Justified(db, e);
    }
  }

  lemma UnstakePaysOnce(db: Db, account: string, amount: int, seconds: int, id: string, now: int)
    requires PaidOnce(db)
    ensures PaidOnce(UnstakeStep(db, account, amount, seconds, id, now).0)
  {
    var (db', r) := UnstakeStep(db, account, amount, seconds, id, now);
    if r.Ok? {
      RowAdded(db, db', UnbondingRow(id, account, amount, now, now + seconds * NANOS, false),
               Entry(account, Unstake(id), amount, now));
    }
  }

  lemma RowAdded(db: Db, db': Db, row: UnbondingRow, e: Entry)
    requires PaidOnce(db) && !HasUnbonding(db.unbonding, row.id) && !row.completed && !e.kind.CompleteUnbonding?
    requires db'.unbonding == db.unbonding + [row] && db'.ops == db.ops + [e]
    ensures PaidOnce(db')
  {
    UnknownNeverPaid(db, db.ops, row.id);
    forall i | 0 <= i < |db'.unbonding|
      ensures TimesPaid(db'.ops, db'.unbonding[i].id) == if db'.unbonding[i].completed then 1 else 0
    {
      TimesPaidConcat(db.ops, [e], db'.unbonding[i].id);
      NoneCompleted([e], db'.unbonding[i].id);
      assert i < |db.unbonding| ==> db'.unbonding[i] == db.unbonding[i];
    }
    forall x | x in db'.ops ensures Justified(db', x) {
      if x in db.ops && x.kind.CompleteUnbonding? {
        StillJustified(db, db', x);
      }
    }
  }

  lemma StillJustified(db: Db, db': Db, e: Entry)
    requires Justified(db, e) && e.kind.CompleteUnbonding?
    requires |db.unbonding| <= |db'.unbonding|
    requires forall i :: 0 <= i < |db.unbonding| ==>
               db'.unbonding[i] == db.unbonding[i] || db'.unbonding[i] == db.unbonding[i].(completed := true)
    ensures Justified(db', e)
  {
    var i :| && 0 <= i < |db.unbonding|
             && var row := db.unbonding[i];
             && row.id == e.kind.unbondingId && row.account == e.account && row.amount == e.amount
             && row.completed && row.completedAt <= e.at;
    assert db'.unbonding[i] == db.unbonding[i];
  }

  lemma CompletePaysOnce(db: Db, account: string, now: int)
    requires PaidOnce(db)
    ensures PaidOnce(CompleteStep(db, account, now).0)
  {
    var db' := CompleteStep(db, account, now).0;
    if db' != db {
      var more := DueEntries(db.unbonding, account, now);
      MarkDueFacts(db.unbonding, account, now);
      forall i | 0 <= i < |db'.unbonding|
        ensures TimesPaid(db'.ops, db'.unbonding[i].id) == if db'.unbonding[i].completed then 1 else 0
      {
        TimesPaidConcat(db.ops, more, db.unbonding[i].id);
        DueEntriesPay(db.unbonding, account, now, i);
      }
      forall e | e in db'.ops ensures Justified(db', e) {
        if e in db.ops {
          if e.kind.CompleteUnbonding? { StillJustified(db, db', e); }
        } else {
          DueEntriesNameRows(db.unbonding, account, now, e);
          var i :| 0 <= i < |db.unbonding| && Due(db.unbonding[i], account, now)
              && e == Entry(account, CompleteUnbonding(db.unbonding[i].id), db.unbonding[i].amount, now);
          assert db'.unbonding[i] == db.unbonding[i].(completed := true);
        }
      }
    }
  }

  /** What a command other than unstaking and completing writes. */
  lemma OthersWrite(db: Db, c: Command) returns (more: seq<Entry>)
    requires Basic(db) && !c.DoUnstake? && !c.DoComplete?
    ensures Exec(db, c).ops == db.ops + more && NoCompletions(more)
  {
    if c.DoSlashVerifiers? {
      more := SlashVerifiersLaw(db, c.verifiers, c.challenger, c.honest, c.attestors, c.newId, c.now);
    } else if c.DoPayOut? {
      more := PayOutLaw(db, c.challenger, c.honest, Split(c.total), c.now);
    } else {
      more := CommandWrites(db, c);
    }
  }

  /** In every run a matured record is paid exactly once and never before its time. */
  lemma {:induction false} RecordsPaidOnce(commands: seq<Command>)
    ensures PaidOnce(Run(commands))
  {
    if commands != [] {
      var front, c := commands[..|commands| - 1], commands[|commands| - 1];
      RecordsPaidOnce(front);
      RunKeepsBasic(front);
      if c.DoUnstake? {
        UnstakePaysOnce(Run(front), c.account, c.amount, c.unbondingSeconds, c.unbondingId, c.now);
      } else if c.DoComplete? {
        CompletePaysOnce(Run(front), c.account, c.now);
      } else {
        OthersSameUnbonding(Run(front), c);
        var more := OthersWrite(Run(front), c);
        OthersPayOnce(Run(front), Run(commands), more);
      }
    }
  }
}
