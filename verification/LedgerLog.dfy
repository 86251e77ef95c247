/** The audit log determines the accounts. */
module LedgerLog {
  import opened Collections
  import opened LedgerModel

  /** What one audit entry says about account `a`. */
  function Effect(e: Entry, a: string): Columns
  {
    var amount := if e.account == a then e.amount else 0;
    match e.kind
    case Mint => Columns(amount, 0, 0)
    case Transfer => Columns(amount, 0, 0)
    case Escrow(_) => Columns(-amount, amount, 0)
    case Release(_, from) => Columns(amount, if from == a then -e.amount else 0, 0)
    case Stake => Columns(-amount, amount, 0)
    case Unstake(_) => Columns(0, -amount, amount)
    case CompleteUnbonding(_) => Columns(amount, 0, -amount)
    case Slash(_) => Columns(0, -amount, 0)
    case SlashReward => Columns(amount, 0, 0)
  }

  /** The columns of `a` as the log tells them. */
  function Fold(ops: seq<Entry>, a: string): Columns
  {
    if ops == [] then ZERO else Plus(Fold(ops[..|ops| - 1], a), Effect(ops[|ops| - 1], a))
  }

  lemma {:induction false} FoldConcat(ops: seq<Entry>, more: seq<Entry>, a: string)
    ensures Fold(ops + more, a) == Plus(Fold(ops, a), Fold(more, a))
  {
    if more == [] {
      assert ops + more == ops;
    } else {
      assert (ops + more)[..|ops + more| - 1] == ops + more[..|more| - 1];
      FoldConcat(ops, more[..|more| - 1], a);
    }
  }

  lemma FoldOne(e: Entry, a: string)
    ensures Fold([e], a) == Effect(e, a)
  {
    assert [e][..0] == [];
  }

  lemma FoldTwo(e: Entry, f: Entry, a: string)
    ensures Fold([e, f], a) == Plus(Effect(e, a), Effect(f, a))
  {
    assert [e, f] == [e] + [f];
    FoldConcat([e], [f], a);
    FoldOne(e, a);
    FoldOne(f, a);
  }

  /** `more` was appended, and told the truth about `a`. */
  ghost predicate Told(db: Db, db': Db, more: seq<Entry>, a: string)
  {
    ColumnsOf(db'.accounts, a) == Plus(ColumnsOf(db.accounts, a), Fold(more, a))
  }

  /** Entries that mention `a` only as payee of non-negative rewards. */
  ghost predicate OnlyRewards(more: seq<Entry>, a: string)
  {
    forall e :: e in more && Effect(e, a) != ZERO ==> e.kind == SlashReward && e.account == a && e.amount >= 0
  }

  ghost predicate Grows(db: Db, db': Db)
  {
    forall a :: a in db.accounts ==> a in db'.accounts
  }

  /** A step appends entries that are true of every account it leaves existing; others get at most rewards. */
  ghost predicate StepLaw(db: Db, db': Db, more: seq<Entry>)
  {
    && db'.ops == db.ops + more
    && Grows(db, db')
    && (forall a :: a in db'.accounts ==> Told(db, db', more, a))
    && (forall a :: a !in db'.accounts ==> OnlyRewards(more, a))
  }

  /** No entry mentions accounts that do not exist. */
  ghost predicate Covered(db': Db, more: seq<Entry>)
  {
    forall e :: e in more ==>
      e.account in db'.accounts && (e.kind.Release? ==> e.kind.fromAccount in db'.accounts)
  }

  lemma CoveredOnlyRewards(db': Db, more: seq<Entry>)
    requires Covered(db', more)
    ensures forall a :: a !in db'.accounts ==> OnlyRewards(more, a)
  {
  }

  lemma NoChange(db: Db, db': Db)
    requires db'.ops == db.ops && db'.accounts == db.accounts
    ensures StepLaw(db, db', [])
  {
    assert db.ops + [] == db.ops;
  }

  lemma ManyEntries(db: Db, db': Db, more: seq<Entry>)
    requires db'.ops == db.ops + more && Grows(db, db') && Covered(db', more)
    requires forall a :: a in db'.accounts ==> Told(db, db', more, a)
    ensures StepLaw(db, db', more)
  {
    CoveredOnlyRewards(db', more);
  }

  /** One entry that tells exactly what changed. */
  lemma OneEntry(db: Db, db': Db, e: Entry)
    requires db'.ops == db.ops + [e] && Grows(db, db') && Covered(db', [e])
    requires forall a :: a in db'.accounts ==> ColumnsOf(db'.accounts, a) == Plus(ColumnsOf(db.accounts, a), Effect(e, a))
    ensures StepLaw(db, db', [e])
  {
    CoveredOnlyRewards(db', [e]);
    forall a | a in db'.accounts ensures Told(db, db', [e], a) {
      FoldOne(e, a);
    }
  }

  // ---------- every operation ----------

  /** Escrows and pending unbonding records belong to existing accounts. */
  ghost predicate RowsOwned(db: Db)
  {
    && (forall id :: id in db.escrows ==> db.escrows[id].account in db.accounts)
    && (forall i :: 0 <= i < |db.unbonding| ==> db.unbonding[i].account in db.accounts)
  }

  /** An account created empty needs no entry. */
  lemma EmptyAccount(db: Db, db': Db, id: string)
    requires db'.ops == db.ops && id !in db.accounts && db'.accounts == db.accounts[id := ZERO]
    ensures StepLaw(db, db', [])
  {
    assert db.ops + [] == db.ops;
    forall a | a in db'.accounts ensures Told(db, db', [], a) {
      assert Fold([], a) == ZERO;
    }
    ManyEntries(db, db', []);
  }

  lemma CreateLaw(db: Db, id: string, initial: int, minter: Option<string>, now: int)
    ensures exists more :: StepLaw(db, CreateAccountStep(db, id, initial, minter, now).0, more)
  {
    var (db', r) := CreateAccountStep(db, id, initial, minter, now);
    if r.Err? {
      NoChange(db, db');
    } else if initial == 0 {
      EmptyAccount(db, db', id);
    } else {
      OneEntry(db, db', Entry(id, Mint, initial, now));
    }
  }

  ghost predicate ToldByTwo(db: Db, db': Db, e: Entry, f: Entry, a: string)
  {
    ColumnsOf(db'.accounts, a) == Plus(ColumnsOf(db.accounts, a), Plus(Effect(e, a), Effect(f, a)))
  }

  lemma TwoEntries(db: Db, db': Db, e: Entry, f: Entry)
    requires db'.ops == db.ops + [e, f] && Grows(db, db') && Covered(db', [e, f])
    requires forall a :: ToldByTwo(db, db', e, f, a)
    ensures StepLaw(db, db', [e, f])
  {
    CoveredOnlyRewards(db', [e, f]);
    forall a ensures Told(db, db', [e, f], a) {
      assert ToldByTwo(db, db', e, f, a);
      FoldTwo(e, f, a);
    }
  }

  lemma MovedBetween(accounts: Accounts, from: string, to: string, amount: int, a: string)
    ensures
      var debited := accounts[from := Plus(ColumnsOf(accounts, from), Columns(-amount, 0, 0))];
      ColumnsOf(Credit(debited, to, amount), a)
      == Plus(ColumnsOf(accounts, a), Plus(Columns(if a == from then -amount else 0, 0, 0),
                                           Columns(if a == to then amount else 0, 0, 0)))
  {
  }

  /** The accounts after moving `amount` from one account to another. */
  function Moved(accounts: Accounts, from: string, to: string, amount: int): Accounts
  {
    Credit(accounts[from := Plus(ColumnsOf(accounts, from), Columns(-amount, 0, 0))], to, amount)
  }

  /** The pair of entries a transfer writes. */
  predicate TransferPair(e: Entry, f: Entry, from: string, to: string, amount: int)
  {
    && e.account == from && e.kind == Transfer && e.amount == -amount
    && f.account == to && f.kind == Transfer && f.amount == amount
  }

  lemma MovedKeys(accounts: Accounts, from: string, to: string, amount: int)
    ensures forall a :: a in Moved(accounts, from, to, amount) <==> a in accounts || a == from || a == to
  {
  }

  lemma TransferTold(db: Db, db': Db, from: string, to: string, amount: int, e: Entry, f: Entry, a: string)
    requires TransferPair(e, f, from, to, amount) && db'.accounts == Moved(db.accounts, from, to, amount)
    ensures ToldByTwo(db, db', e, f, a)
  {
    MovedBetween(db.accounts, from, to, amount, a);
  }

  lemma TransferApplied(db: Db, db': Db, from: string, to: string, amount: int, e: Entry, f: Entry)
    requires TransferPair(e, f, from, to, amount)
    requires db'.ops == db.ops + [e, f] && db'.accounts == Moved(db.accounts, from, to, amount)
    ensures StepLaw(db, db', [e, f])
  {
    forall a {
      TransferTold(db, db', from, to, amount, e, f, a);
    }
    MovedKeys(db.accounts, from, to, amount);
    TwoEntries(db, db', e, f);
  }

  lemma TransferLaw(db: Db, from: string, to: string, amount: int, allowCreate: bool, now: int)
    ensures exists more :: StepLaw(db, TransferStep(db, from, to, amount, allowCreate, now).0, more)
  {
    var (db', r) := TransferStep(db, from, to, amount, allowCreate, now);
    if r.Err? {
      NoChange(db, db');
    } else {
      TransferApplied(db, db', from, to, amount, Entry(from, Transfer, -amount, now), Entry(to, Transfer, amount, now));
    }
  }

  lemma EscrowLaw(db: Db, account: string, amount: int, escrowId: string, now: int)
    ensures exists more :: StepLaw(db, EscrowStep(db, account, amount, escrowId, now).0, more)
  {
    var db' := EscrowStep(db, account, amount, escrowId, now).0;
    if db' == db {
      NoChange(db, db');
    } else {
      OneEntry(db, db', Entry(account, Escrow(escrowId), amount, now));
    }
  }

  /** The accounts after a release: the owner's locked credits go to the payee's balance. */
  function ReleasedTo(accounts: Accounts, owner: string, to: string, amount: int): Accounts
    requires owner in accounts
  {
    Credit(accounts[owner := Plus(accounts[owner], Columns(0, -amount, 0))], to, amount)
  }

  function ReleaseEntryOf(id: string, owner: string, to: string, amount: int, now: int): Entry
  {
    Entry(to, Release(id, owner), amount, now)
  }

  lemma ReleaseTold(accounts: Accounts, id: string, owner: string, to: string, amount: int, now: int, a: string)
    requires owner in accounts
    ensures ColumnsOf(ReleasedTo(accounts, owner, to, amount), a)
            == Plus(ColumnsOf(accounts, a), Effect(ReleaseEntryOf(id, owner, to, amount, now), a))
  {
  }

  lemma ReleasedKeys(accounts: Accounts, owner: string, to: string, amount: int)
    requires owner in accounts
    ensures forall a :: a in ReleasedTo(accounts, owner, to, amount) <==> a in accounts || a == to
  {
  }

  lemma ReleaseApplied(db: Db, db': Db, id: string, owner: string, to: string, amount: int, now: int)
    requires owner in db.accounts && db'.accounts == ReleasedTo(db.accounts, owner, to, amount)
    requires db'.ops == db.ops + [ReleaseEntryOf(id, owner, to, amount, now)]
    ensures StepLaw(db, db', [ReleaseEntryOf(id, owner, to, amount, now)])
  {
    var e := ReleaseEntryOf(id, owner, to, amount, now);
    forall a | a in db'.accounts ensures ColumnsOf(db'.accounts, a) == Plus(ColumnsOf(db.accounts, a), Effect(e, a)) {
      ReleaseTold(db.accounts, id, owner, to, amount, now, a);
    }
    ReleasedKeys(db.accounts, owner, to, amount);
    OneEntry(db, db', e);
  }

  lemma ReleaseLaw(db: Db, escrowId: string, to: string, now: int)
    requires RowsOwned(db)
    ensures exists more :: StepLaw(db, ReleaseStep(db, escrowId, to, now).0, more)
  {
    var (db', r) := ReleaseStep(db, escrowId, to, now);
    if r.Err? {
      NoChange(db, db');
    } else {
      var row := db.escrows[escrowId];
      ReleaseApplied(db, db', escrowId, row.account, to, row.amount, now);
    }
  }

  lemma CancelLaw(db: Db, escrowId: string, now: int)
    requires RowsOwned(db)
    ensures exists more :: StepLaw(db, CancelStep(db, escrowId, now).0, more)
  {
    var db' := CancelStep(db, escrowId, now).0;
    if db' == db {
      NoChange(db, db');
    } else {
      var row := db.escrows[escrowId];
      OneEntry(db, db', Entry(row.account, Escrow(escrowId), -row.amount, now));
    }
  }

  lemma StakeLaw(db: Db, account: string, amount: int, now: int)
    ensures exists more :: StepLaw(db, StakeStep(db, account, amount, now).0, more)
  {
    var db' := StakeStep(db, account, amount, now).0;
    if db' == db {
      NoChange(db, db');
    } else {
      OneEntry(db, db', Entry(account, Stake, amount, now));
    }
  }

  lemma UnstakeLaw(db: Db, account: string, amount: int, seconds: int, id: string, now: int)
    ensures exists more :: StepLaw(db, UnstakeStep(db, account, amount, seconds, id, now).0, more)
  {
    var db' := UnstakeStep(db, account, amount, seconds, id, now).0;
    if db' == db {
      NoChange(db, db');
    } else {
      OneEntry(db, db', Entry(account, Unstake(id), amount, now));
    }
  }

  lemma {:induction false} DueEntriesFold(rows: seq<UnbondingRow>, account: string, now: int, a: string)
    ensures Fold(DueEntries(rows, account, now), a)
            == if a == account then Columns(DueTotal(rows, account, now), 0, -DueTotal(rows, account, now)) else ZERO
  {
    if rows != [] {
      var front, row := rows[..|rows| - 1], rows[|rows| - 1];
      DueEntriesFold(front, account, now, a);
      if Due(row, account, now) {
        var e := Entry(account, CompleteUnbonding(row.id), row.amount, now);
        FoldConcat(DueEntries(front, account, now), [e], a);
        FoldOne(e, a);
      } else {
        assert DueEntries(front, account, now) + [] == DueEntries(front, account, now);
      }
    }
  }

  lemma {:induction false} DueEntriesOwn(rows: seq<UnbondingRow>, account: string, now: int)
    ensures forall e :: e in DueEntries(rows, account, now) ==> e.account == account && e.kind.CompleteUnbonding?
    ensures DueEntries(rows, account, now) != [] ==> exists i :: 0 <= i < |rows| && rows[i].account == account
  {
    if rows != [] {
      DueEntriesOwn(rows[..|rows| - 1], account, now);
    }
  }

  lemma CompleteLaw(db: Db, account: string, now: int)
    requires RowsOwned(db)
    ensures exists more :: StepLaw(db, CompleteStep(db, account, now).0, more)
  {
    var db' := CompleteStep(db, account, now).0;
    var more := DueEntries(db.unbonding, account, now);
    if db' == db {
      NoChange(db, db');
    } else {
      DueEntriesOwn(db.unbonding, account, now);
      assert account in db.accounts;
      forall a | a in db'.accounts ensures Told(db, db', more, a) {
        DueEntriesFold(db.unbonding, account, now, a);
      }
      ManyEntries(db, db', more);
    }
  }

  ghost predicate NoRewards(more: seq<Entry>)
  {
    forall e :: e in more ==> e.kind != SlashReward
  }

  ghost predicate OnlySlashes(more: seq<Entry>)
  {
    forall e :: e in more ==> e.kind.Slash?
  }

  /** A step that neither creates nor removes accounts. */
  ghost predicate KeepsAccounts(db: Db, db': Db)
  {
    forall a :: a in db'.accounts <==> a in db.accounts
  }

  lemma Chain(db: Db, mid: Db, db': Db, first: seq<Entry>, second: seq<Entry>)
    requires StepLaw(db, mid, first) && StepLaw(mid, db', second) && KeepsAccounts(mid, db')
    ensures StepLaw(db, db', first + second)
  {
    assert db.ops + first + second == db.ops + (first + second);
    forall a | a in db'.accounts ensures Told(db, db', first + second, a) {
      assert a in mid.accounts && Told(db, mid, first, a) && Told(mid, db', second, a);
      FoldConcat(first, second, a);
    }
    forall a | a !in db'.accounts ensures OnlyRewards(first + second, a) {
      assert a !in mid.accounts && OnlyRewards(first, a) && OnlyRewards(second, a);
    }
  }

  lemma SlashLaw(db: Db, eventId: string, account: string, amount: int, at: int) returns (more: seq<Entry>)
    ensures StepLaw(db, ExecuteSlashStep(db, eventId, account, amount, at).0, more)
    ensures KeepsAccounts(db, ExecuteSlashStep(db, eventId, account, amount, at).0)
    ensures OnlySlashes(more)
  {
    var db' := ExecuteSlashStep(db, eventId, account, amount, at).0;
    if db'.ops == db.ops {
      more := [];
      NoChange(db, db');
    } else {
      var e := Entry(account, Slash(eventId), Min(ColumnsOf(db.accounts, account).locked, amount), at);
      more := [e];
      OneEntry(db, db', e);
    }
  }

  lemma {:induction false} SlashAllLaw(db: Db, verifiers: seq<string>, newId: nat -> string, at: int)
    returns (more: seq<Entry>)
    ensures StepLaw(db, SlashAll(db, verifiers, newId, at).0, more)
    ensures KeepsAccounts(db, SlashAll(db, verifiers, newId, at).0)
    ensures OnlySlashes(more)
  {
    if verifiers == [] {
      more := [];
      NoChange(db, db);
    } else {
      var n := |verifiers| - 1;
      var (mid, slashed) := SlashAll(db, verifiers[..n], newId, at);
      more := SlashAllLaw(db, verifiers[..n], newId, at);
      if slashed.Ok? {
        var amount := ChallengeSlash(ColumnsOf(mid.accounts, verifiers[n]).locked);
        var last := SlashLaw(mid, newId(n), verifiers[n], amount, at);
        Chain(db, mid, ExecuteSlashStep(mid, newId(n), verifiers[n], amount, at).0, more, last);
        more := more + last;
      }
    }
  }

  lemma RewardLaw(db: Db, account: string, amount: int, at: int)
    requires amount >= 0
    ensures StepLaw(db, Reward(db, account, amount, at), [Entry(account, SlashReward, amount, at)])
    ensures KeepsAccounts(db, Reward(db, account, amount, at))
  {
    forall a | a in db.accounts {
      RewardTold(db, account, amount, at, a);
    }
    RewardOnly(account, amount, at);
  }

  lemma RewardTold(db: Db, account: string, amount: int, at: int, a: string)
    requires a in db.accounts
    ensures
      var db' := Reward(db, account, amount, at);
      a in db'.accounts && Told(db, db', [Entry(account, SlashReward, amount, at)], a)
  {
    RewardColumns(db, account, amount, at, a);
    TellOne(db, Reward(db, account, amount, at), Entry(account, SlashReward, amount, at), a);
  }

  lemma RewardColumns(db: Db, account: string, amount: int, at: int, a: string)
    requires a in db.accounts
    ensures
      var db' := Reward(db, account, amount, at);
      && a in db'.accounts
      && ColumnsOf(db'.accounts, a) == Plus(ColumnsOf(db.accounts, a), Effect(Entry(account, SlashReward, amount, at), a))
  {
  }

  lemma TellOne(db: Db, db': Db, e: Entry, a: string)
    requires ColumnsOf(db'.accounts, a) == Plus(ColumnsOf(db.accounts, a), Effect(e, a))
    ensures Told(db, db', [e], a)
  {
    FoldOne(e, a);
  }

  lemma RewardOnly(account: string, amount: int, at: int)
    requires amount >= 0
    ensures forall a :: OnlyRewards([Entry(account, SlashReward, amount, at)], a)
  {
  }

  lemma {:induction false} RewardHonestLaw(db: Db, honest: seq<string>, total: int, n: nat, at: int)
    returns (more: seq<Entry>)
    requires n <= |honest| && total >= 0
    ensures StepLaw(db, RewardHonest(db, honest, total, n, at), more)
    ensures KeepsAccounts(db, RewardHonest(db, honest, total, n, at))
    ensures forall e :: e in more ==> e.account in honest && e.kind == SlashReward
  {
    if n == 0 {
      more := [];
      NoChange(db, db);
    } else {
      var mid := RewardHonest(db, honest, total, n - 1, at);
      var share := HonestShare(total, |honest|, n - 1);
      more := RewardHonestLaw(db, honest, total, n - 1, at);
      RewardLaw(mid, honest[n - 1], share, at);
      Chain(db, mid, Reward(mid, honest[n - 1], share, at), more, [Entry(honest[n - 1], SlashReward, share, at)]);
      more := more + [Entry(honest[n - 1], SlashReward, share, at)];
    }
  }

  lemma PayOutLaw(db: Db, challenger: string, honest: seq<string>, s: SlashSummary, at: int) returns (more: seq<Entry>)
    requires s.challengerPayout >= 0 && s.honestPayout >= 0
    ensures StepLaw(db, PayOut(db, challenger, honest, s, at), more)
    ensures KeepsAccounts(db, PayOut(db, challenger, honest, s, at))
    ensures forall e :: e in more ==> e.kind == SlashReward && (e.account == challenger || e.account in honest)
  {
    var paid := if s.challengerPayout > 0 then Reward(db, challenger, s.challengerPayout, at) else db;
    if s.challengerPayout > 0 {
      more := [Entry(challenger, SlashReward, s.challengerPayout, at)];
      RewardLaw(db, challenger, s.challengerPayout, at);
    } else {
      more := [];
      NoChange(db, db);
    }
    if s.honestPayout > 0 && honest != [] {
      var rest := RewardHonestLaw(paid, honest, s.honestPayout, |honest|, at);
      Chain(db, paid, RewardHonest(paid, honest, s.honestPayout, |honest|, at), more, rest);
      more := more + rest;
    }
  }

  /** Slashed totals are never negative while no stake is. */
  lemma {:induction false} SlashedTotal(db: Db, verifiers: seq<string>, newId: nat -> string, at: int)
    requires forall a :: a in db.accounts ==> NonNegative(db.accounts[a])
    ensures var (db', r) := SlashAll(db, verifiers, newId, at);
            && (forall a :: a in db'.accounts ==> NonNegative(db'.accounts[a]))
            && (r.Ok? ==> r.value >= 0)
  {
    if verifiers != [] {
      SlashedTotal(db, verifiers[..|verifiers| - 1], newId, at);
    }
  }

  lemma SlashVerifiersLaw(db: Db, verifiers: seq<string>, challenger: string, honest: seq<string>,
                          attestors: Option<set<string>>, newId: nat -> string, at: int)
    returns (more: seq<Entry>)
    requires forall a :: a in db.accounts ==> NonNegative(db.accounts[a])
    ensures StepLaw(db, SlashVerifiersStep(db, verifiers, challenger, honest, attestors, newId, at).0, more)
    ensures forall e :: e in more ==> e.kind.Slash? || (e.kind == SlashReward && (e.account == challenger || e.account in honest))
  {
    var db' := SlashVerifiersStep(db, verifiers, challenger, honest, attestors, newId, at).0;
    var (slashed, r) := SlashAll(db, verifiers, newId, at);
    if db' == db {
      more := [];
      NoChange(db, db');
    } else {
      more := SlashAllLaw(db, verifiers, newId, at);
      if r.Ok? {
        SlashedTotal(db, verifiers, newId, at);
        var rest := PayOutLaw(slashed, challenger, honest, Split(r.value), at);
        Chain(db, slashed, db', more, rest);
        more := more + rest;
      }
    }
  }

  // ---------- the kinds of entries ----------

  /** The kind of entry that a command other than a slashing of several verifiers writes. */
  predicate Writes(c: Command, k: Kind)
  {
    match c
    case CreateAccount(_, _, _, _) => k == Mint
    case DoTransfer(_, _, _, _, _) => k == Transfer
    case DoEscrow(_, _, _, _) => k.Escrow?
    case DoRelease(_, _, _) => k.Release?
    case DoCancel(_, _) => k.Escrow?
    case DoStake(_, _, _) => k == Stake
    case DoUnstake(_, _, _, _, _) => k.Unstake?
    case DoComplete(_, _) => k.CompleteUnbonding?
    case DoExecuteSlash(_, _, _, _) => k.Slash?
    case _ => false
  }

  /** Appended entries, all of the kind. */
  ghost predicate WritesOnly(db: Db, db': Db, c: Command, more: seq<Entry>)
  {
    db'.ops == db.ops + more && forall e :: e in more ==> Writes(c, e.kind)
  }

  lemma WritesNothing(db: Db, db': Db, c: Command)
    requires db'.ops == db.ops
    ensures WritesOnly(db, db', c, [])
  {
    assert db.ops + [] == db.ops;
  }

  lemma TransferWrites(db: Db, c: Command) returns (more: seq<Entry>)
    requires c.DoTransfer?
    ensures WritesOnly(db, Exec(db, c), c, more)
  {
    if TransferStep(db, c.from, c.to, c.amount, c.allowCreate, c.now).1.Err? {
      more := [];
      WritesNothing(db, Exec(db, c), c);
    } else {
      more := [Entry(c.from, Transfer, -c.amount, c.now), Entry(c.to, Transfer, c.amount, c.now)];
    }
  }

  lemma CompleteWrites(db: Db, c: Command) returns (more: seq<Entry>)
    requires c.DoComplete?
    ensures WritesOnly(db, Exec(db, c), c, more)
  {
    if Exec(db, c) == db {
      more := [];
      WritesNothing(db, db, c);
    } else {
      more := DueEntries(db.unbonding, c.account, c.now);
      DueEntriesOwn(db.unbonding, c.account, c.now);
    }
  }

  function EntryOf(db: Db, c: Command): Option<Entry>
  {
    var ops := Exec(db, c).ops;
    if |ops| == |db.ops| + 1 then Some(ops[|db.ops|]) else None
  }

  /** The command writes one entry of its kind, or none. */
  ghost predicate AtMostOne(db: Db, c: Command)
  {
    match EntryOf(db, c)
    case Some(e) => Exec(db, c).ops == db.ops + [e] && Writes(c, e.kind)
    case None => Exec(db, c).ops == db.ops
  }

  lemma MintOrNothing(db: Db, c: Command)
    requires c.CreateAccount?
    ensures AtMostOne(db, c)
  {
  }

  lemma EscrowEntry(db: Db, c: Command)
    requires c.DoEscrow? || c.DoCancel?
    ensures AtMostOne(db, c)
  {
  }

  lemma ReleaseEntry(db: Db, c: Command)
    requires c.DoRelease?
    ensures AtMostOne(db, c)
  {
  }

  lemma StakeEntry(db: Db, c: Command)
    requires c.DoStake? || c.DoUnstake?
    ensures AtMostOne(db, c)
  {
  }

  lemma SlashEntry(db: Db, c: Command)
    requires c.DoExecuteSlash?
    ensures AtMostOne(db, c)
  {
  }

  /** Every command but a slashing of several verifiers and its payout appends entries of one kind. */
  lemma CommandWrites(db: Db, c: Command) returns (more: seq<Entry>)
    requires !c.DoSlashVerifiers? && !c.DoPayOut?
    ensures WritesOnly(db, Exec(db, c), c, more)
  {
    if c.DoTransfer? {
      more := TransferWrites(db, c);
    } else if c.DoComplete? {
      more := CompleteWrites(db, c);
    } else {
      if c.CreateAccount? {
        MintOrNothing(db, c);
      } else if c.DoEscrow? || c.DoCancel? {
        EscrowEntry(db, c);
      } else if c.DoRelease? {
        ReleaseEntry(db, c);
      } else if c.DoExecuteSlash? {
        SlashEntry(db, c);
      } else {
        StakeEntry(db, c);
      }
      more := match EntryOf(db, c) case Some(e) => [e] case None => [];
      assert db.ops + [] == db.ops;
    }
  }
}
