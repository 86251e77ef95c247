/**
 * `slash_verifiers` as it interleaves: each stake is read before the transaction that cuts it, every
 * verifier has a transaction of its own, and the payouts come in another one at the end.
 */
module SlashRuns {
  import opened Collections
  import opened LedgerModel
  import opened LedgerInvariants
  import opened LedgerConservation

  /** A slashing under way: verifiers to go, the amount read for the next one, and the amounts so far. */
  datatype Session = Session(todo: seq<string>, challenger: string, honest: seq<string>, amount: Option<int>, total: int)

  type Sessions = map<nat, Session>

  datatype State = State(db: Db, sessions: Sessions)

  const INITIAL := State(EMPTY, map[])

  datatype Event =
    | Plain(command: Command)
    | Begin(id: nat, verifiers: seq<string>, challenger: string, honest: seq<string>, attestors: Option<set<string>>)
    | ReadStake(id: nat)
    | CutStake(id: nat, eventId: string, now: int)
    | PayRewards(id: nat, now: int)

  /** The checks before the first slash. */
  predicate Admitted(e: Event)
    requires e.Begin?
  {
    && e.verifiers != [] && e.attestors.Some?
    && forall i :: 0 <= i < |e.honest| ==> e.honest[i] in e.attestors.value
  }

  /** The next verifier's stake is about to be read. */
  predicate Reading(s: State, id: nat)
  {
    id in s.sessions && s.sessions[id].todo != [] && s.sessions[id].amount.None?
  }

  /** The amount is known, the transaction is still to come. */
  predicate Cutting(s: State, id: nat)
  {
    id in s.sessions && s.sessions[id].todo != [] && s.sessions[id].amount.Some?
  }

  predicate Finished(s: State, id: nat)
  {
    id in s.sessions && s.sessions[id].todo == []
  }

  /** The command an event amounts to; payouts come from sessions only. */
  function CommandOf(s: State, e: Event): Option<Command>
  {
    match e
    case Plain(c) => if c.DoPayOut? || c.DoSlashVerifiers? then None else Some(c)
    case CutStake(id, eventId, now) =>
      if Cutting(s, id) then Some(DoExecuteSlash(eventId, s.sessions[id].todo[0], s.sessions[id].amount.value, now)) else None
    case PayRewards(id, now) =>
      if Finished(s, id) && s.sessions[id].total >= 0 then
        Some(DoPayOut(s.sessions[id].challenger, s.sessions[id].honest, s.sessions[id].total, now))
      else None
    case _ => None
  }

  /** A failing slash ends its session: the exception reaches the caller. */
  function SessionsAfter(s: State, e: Event): Sessions
  {
    match e
    case Begin(id, verifiers, challenger, honest, _) =>
      if id in s.sessions || !Admitted(e) then s.sessions
      else s.sessions[id := Session(verifiers, challenger, honest, None, 0)]
    case ReadStake(id) =>
      if !Reading(s, id) then s.sessions
      else
        var x := s.sessions[id];
        s.sessions[id := x.(amount := Some(ChallengeSlash(ColumnsOf(s.db.accounts, x.todo[0]).locked)))]
    case CutStake(id, eventId, now) =>
      if !Cutting(s, id) then s.sessions
      else
        var x := s.sessions[id];
        if ExecuteSlashStep(s.db, eventId, x.todo[0], x.amount.value, now).1.Err? then s.sessions - {id}
        else s.sessions[id := x.(todo := x.todo[1..], amount := None, total := x.total + x.amount.value)]
    case PayRewards(id, _) => if Finished(s, id) then s.sessions - {id} else s.sessions
    case _ => s.sessions
  }

  function Step(s: State, e: Event): State
  {
    State(match CommandOf(s, e) case Some(c) => Exec(s.db, c) case None => s.db, SessionsAfter(s, e))
  }

  ghost function RunAll(events: seq<Event>): State
  {
    if events == [] then INITIAL else Step(RunAll(events[..|events| - 1]), events[|events| - 1])
  }

  /** The commands that reach the tables, in order. */
  ghost function Commands(events: seq<Event>): seq<Command>
  {
    if events == [] then []
    else
      var front := events[..|events| - 1];
      Commands(front) + match CommandOf(RunAll(front), events[|events| - 1]) case Some(c) => [c] case None => []
  }

  /** So every interleaving is a run of the ledger, and keeps all that every run of the ledger keeps. */
  lemma {:induction false} InterleavingIsRun(events: seq<Event>)
    ensures RunAll(events).db == Run(Commands(events))
  {
    if events != [] {
      var front, e := events[..|events| - 1], events[|events| - 1];
      InterleavingIsRun(front);
      match CommandOf(RunAll(front), e)
      case Some(c) =>
        assert (Commands(front) + [c])[..|Commands(front)|] == Commands(front);
      case None =>
        assert Commands(front) + [] == Commands(front);
    }
  }

  // ---------- what stakes that shrink cost ----------

  /** By how much the stake falls short of the amount computed from its earlier value. */
  function ShortfallAt(s: State, e: Event): int
  {
    if e.CutStake? && Cutting(s, e.id) && SlashGoesThrough(s, e) then
      var x := s.sessions[e.id];
      x.amount.value - CutOf(s.db, e.eventId, x.todo[0], x.amount.value, e.now)
    else 0
  }

  predicate SlashGoesThrough(s: State, e: Event)
    requires e.CutStake? && Cutting(s, e.id)
  {
    ExecuteSlashStep(s.db, e.eventId, s.sessions[e.id].todo[0], s.sessions[e.id].amount.value, e.now).1.Ok?
  }

  /** What a slash adds to its session's total, or takes outside any session. */
  function ReportedAt(s: State, e: Event): int
  {
    if e.Plain? && e.command.DoExecuteSlash? then CutBy(s.db, e.command)
    else if e.CutStake? && Cutting(s, e.id) && SlashGoesThrough(s, e) then s.sessions[e.id].amount.value
    else 0
  }

  function PaidAt(s: State, e: Event): int
  {
    match CommandOf(s, e)
    case Some(c) => PaidBy(s.db, c)
    case None => 0
  }

  ghost function Shortfall(events: seq<Event>): int
  {
    if events == [] then 0
    else Shortfall(events[..|events| - 1]) + ShortfallAt(RunAll(events[..|events| - 1]), events[|events| - 1])
  }

  /** Amounts reported as slashed and not paid to anybody: the burned shares, and what sessions still hold. */
  ghost function Withheld(events: seq<Event>): int
  {
    if events == [] then 0
    else
      var s, e := RunAll(events[..|events| - 1]), events[|events| - 1];
      Withheld(events[..|events| - 1]) + ReportedAt(s, e) - PaidAt(s, e)
  }

  lemma StepBalance(s: State, e: Event)
    requires Basic(s.db) && 0 <= s.db.supply <= MAX_SUPPLY
    ensures Burned(Step(s, e).db) == Burned(s.db) + ReportedAt(s, e) - PaidAt(s, e) - ShortfallAt(s, e)
    ensures s.db.supply <= Step(s, e).db.supply <= MAX_SUPPLY
  {
    match CommandOf(s, e)
    case Some(c) => ExecConserves(s.db, c);
    case None =>
  }

  lemma {:induction false} RunBalance(events: seq<Event>)
    ensures Burned(RunAll(events).db) == Withheld(events) - Shortfall(events)
    ensures Basic(RunAll(events).db) && 0 <= RunAll(events).db.supply <= MAX_SUPPLY
  {
    if events != [] {
      var front, e := events[..|events| - 1], events[|events| - 1];
      RunBalance(front);
      StepBalance(RunAll(front), e);
      match CommandOf(RunAll(front), e)
      case Some(c) => ExecKeepsBasic(RunAll(front).db, c);
      case None =>
    }
  }

  // ---------- sessions hold only what was reported ----------

  ghost predicate SessionsSound(sessions: Sessions)
  {
    forall id :: id in sessions ==>
      sessions[id].total >= 0 && (sessions[id].amount.Some? ==> sessions[id].amount.value >= 0)
  }

  /** The totals of all open sessions. */
  ghost function Held(sessions: Sessions): int
  {
    if sessions == map[] then 0
    else
      var id :| id in sessions;
      sessions[id].total + Held(sessions - {id})
  }

  lemma {:induction false} HeldWithout(sessions: Sessions, id: nat)
    requires id in sessions
    ensures Held(sessions) == sessions[id].total + Held(sessions - {id})
  {
    var x :| x in sessions && Held(sessions) == sessions[x].total + Held(sessions - {x});
    if x != id {
      HeldWithout(sessions - {x}, id);
      assert sessions - {x} - {id} == sessions - {id} - {x};
      HeldWithout(sessions - {id}, x);
    }
  }

  lemma HeldUpdate(sessions: Sessions, id: nat, x: Session)
    ensures Held(sessions[id := x]) == Held(sessions) - (if id in sessions then sessions[id].total else 0) + x.total
  {
    var updated := sessions[id := x];
    HeldWithout(updated, id);
    assert updated - {id} == sessions - {id};
    if id in sessions {
      HeldWithout(sessions, id);
    } else {
      assert sessions - {id} == sessions;
    }
  }

  lemma {:induction false} HeldNonNegative(sessions: Sessions)
    requires SessionsSound(sessions)
    ensures Held(sessions) >= 0
  {
    if sessions == map[] {
      assert Held(sessions) == 0;
    } else {
      var id :| id in sessions;
      HeldWithout(sessions, id);
      HeldNonNegative(sessions - {id});
    }
  }

  lemma StepSound(s: State, e: Event)
    requires Basic(s.db) && SessionsSound(s.sessions)
    ensures SessionsSound(SessionsAfter(s, e))
  {
  }

  lemma StepHeld(s: State, e: Event)
    requires Basic(s.db) && SessionsSound(s.sessions)
    ensures Held(SessionsAfter(s, e)) <= Held(s.sessions) + ReportedAt(s, e) - PaidAt(s, e)
  {
    match e
    case Plain(c) =>
    case Begin(id, verifiers, challenger, honest, _) =>
      HeldUpdate(s.sessions, id, Session(verifiers, challenger, honest, None, 0));
    case ReadStake(id) =>
      if Reading(s, id) {
        HeldUpdate(s.sessions, id, SessionsAfter(s, e)[id]);
      }
    case CutStake(id, eventId, now) =>
      if Cutting(s, id) {
        HeldWithout(s.sessions, id);
        if SlashGoesThrough(s, e) {
          HeldUpdate(s.sessions, id, SessionsAfter(s, e)[id]);
        }
      }
    case PayRewards(id, now) =>
      if Finished(s, id) {
        var x := s.sessions[id];
        HeldWithout(s.sessions, id);
        PaidBound(s.db.accounts, x.challenger, x.honest, Split(x.total));
      }
  }

  lemma {:induction false} WithheldCovers(events: seq<Event>)
    ensures SessionsSound(RunAll(events).sessions) && Held(RunAll(events).sessions) <= Withheld(events)
  {
    if events == [] {
      assert Held(map[]) == 0;
    } else {
      var front, e := events[..|events| - 1], events[|events| - 1];
      WithheldCovers(front);
      RunBalance(front);
      StepSound(RunAll(front), e);
      StepHeld(RunAll(front), e);
    }
  }

  // ---------- the theorems ----------

  /**
   * The books of every interleaving: circulation stays within the supply exactly as long as stakes have
   * shrunk, between being read and being cut, by no more in all than what was withheld from payout. What a
   * caller can look at is in `SupplyHolds` for any number of slashings and in `OneSessionIff` for one.
   */
  lemma SupplyHoldsIff(events: seq<Event>)
    ensures
      var db := RunAll(events).db;
      && AllNonNegative(db.accounts) && 0 <= db.supply <= MAX_SUPPLY && Withheld(events) >= 0
      && (Total(db.accounts) <= db.supply <==> Shortfall(events) <= Withheld(events))
  {
    RunBalance(events);
    WithheldCovers(events);
    HeldNonNegative(RunAll(events).sessions);
  }

  /** No stake is below the amount read from it when it is cut. */
  ghost predicate StakesHold(events: seq<Event>)
  {
    forall i :: 0 <= i < |events| && events[i].CutStake? && Cutting(RunAll(events[..i]), events[i].id) ==>
      var s := RunAll(events[..i]);
      var x := s.sessions[events[i].id];
      x.amount.value <= ColumnsOf(s.db.accounts, x.todo[0]).locked
  }

  lemma {:induction false} NoShortfall(events: seq<Event>)
    requires StakesHold(events)
    ensures Shortfall(events) == 0
  {
    if events != [] {
      var n := |events| - 1;
      var front, e := events[..n], events[n];
      assert StakesHold(front) by {
        forall i | 0 <= i < n ensures front[i] == events[i] && front[..i] == events[..i] {
        }
      }
      NoShortfall(front);
      WithheldCovers(front);
      assert events[..n] == front;
    }
  }

  /** So nothing is minted while stakes are not withdrawn under a slashing. */
  lemma SupplyHolds(events: seq<Event>)
    requires StakesHold(events)
    ensures Total(RunAll(events).db.accounts) <= RunAll(events).db.supply
  {
    NoShortfall(events);
    SupplyHoldsIff(events);
  }

  // ---------- one slashing, told from what it read and what it cut ----------

  /** Part of the slashing `id` before its payout, or a command that slashes nothing. */
  predicate OfSession(e: Event, id: nat)
  {
    match e
    case Plain(c) => !IsSlash(c)
    case Begin(other, _, _, _, _) => other == id
    case ReadStake(other) => other == id
    case CutStake(other, _, _) => other == id
    case PayRewards(_, _) => false
  }

  /** One slashing, before its payout, among any other commands. */
  ghost predicate OneSession(events: seq<Event>, id: nat)
  {
    && (forall i :: 0 <= i < |events| ==> OfSession(events[i], id))
    && (forall i, j :: 0 <= i < j < |events| ==> !(events[i].Begin? && events[j].Begin?))
  }

  /** The amount that a slash going through goes by. */
  function ReadAt(s: State, e: Event): int
  {
    if e.CutStake? && Cutting(s, e.id) && SlashGoesThrough(s, e) then s.sessions[e.id].amount.value else 0
  }

  /** What a slash takes. */
  function CutAt(s: State, e: Event): int
  {
    ReadAt(s, e) - ShortfallAt(s, e)
  }

  ghost function Reads(events: seq<Event>): int
  {
    if events == [] then 0
    else Reads(events[..|events| - 1]) + ReadAt(RunAll(events[..|events| - 1]), events[|events| - 1])
  }

  ghost function Cuts(events: seq<Event>): int
  {
    if events == [] then 0
    else Cuts(events[..|events| - 1]) + CutAt(RunAll(events[..|events| - 1]), events[|events| - 1])
  }

  ghost predicate Begun(events: seq<Event>)
  {
    exists i :: 0 <= i < |events| && events[i].Begin?
  }

  lemma OneSessionFront(events: seq<Event>, id: nat)
    requires events != [] && OneSession(events, id)
    ensures OneSession(events[..|events| - 1], id) && OfSession(events[|events| - 1], id)
    ensures events[|events| - 1].Begin? ==> !Begun(events[..|events| - 1])
    ensures Begun(events) <==> Begun(events[..|events| - 1]) || events[|events| - 1].Begin?
  {
    var front := events[..|events| - 1];
    assert forall i :: 0 <= i < |front| ==> front[i] == events[i];
    if Begun(front) {
      var i :| 0 <= i < |front| && front[i].Begin?;
      assert events[i].Begin?;
    }
    if Begun(events) && !events[|events| - 1].Begin? {
      var i :| 0 <= i < |events| && events[i].Begin?;
      assert front[i].Begin?;
    }
  }

  /** No other session, and the total of this one is what it has read. */
  ghost predicate SessionReads(sessions: Sessions, id: nat, begun: bool, amount: int)
  {
    && (forall other :: other in sessions ==> other == id) && (id in sessions ==> sessions[id].total == amount)
    && (!begun ==> id !in sessions && amount == 0)
  }

  lemma SessionReadsStep(s: State, e: Event, id: nat, begun: bool, amount: int)
    requires SessionReads(s.sessions, id, begun, amount) && OfSession(e, id) && (e.Begin? ==> !begun)
    ensures SessionReads(SessionsAfter(s, e), id, begun || e.Begin?, amount + ReadAt(s, e))
  {
  }

  lemma SessionBalanceStep(s: State, e: Event, id: nat)
    requires Basic(s.db) && 0 <= s.db.supply <= MAX_SUPPLY && OfSession(e, id)
    ensures Burned(Step(s, e).db) == Burned(s.db) + CutAt(s, e)
  {
    StepBalance(s, e);
  }

  lemma {:induction false} SessionBalance(events: seq<Event>, id: nat)
    requires OneSession(events, id)
    ensures SessionReads(RunAll(events).sessions, id, Begun(events), Reads(events))
    ensures Burned(RunAll(events).db) == Cuts(events)
  {
    if events != [] {
      var front, e := events[..|events| - 1], events[|events| - 1];
      OneSessionFront(events, id);
      SessionBalance(front, id);
      RunBalance(front);
      SessionReadsStep(RunAll(front), e, id, Begun(front), Reads(front));
      SessionBalanceStep(RunAll(front), e, id);
    }
  }

  /**
   * A single slashing whose payees have accounts keeps the supply exactly if what it cut covers the payees'
   * shares of what it read: the burned tenth is all that stakes may shrink by in between.
   */
  lemma OneSessionIff(events: seq<Event>, id: nat, now: int)
    requires OneSession(events, id) && Finished(RunAll(events), id)
    requires
      var s := RunAll(events);
      PayoutsReach(s.db.accounts, s.sessions[id].challenger, s.sessions[id].honest, Split(Reads(events)))
    ensures
      var db, shares := RunAll(events + [PayRewards(id, now)]).db, Split(Reads(events));
      Total(db.accounts) <= db.supply <==> shares.challengerPayout + shares.honestPayout <= Cuts(events)
  {
    var s, e := RunAll(events), PayRewards(id, now);
    var x, shares := s.sessions[id], Split(Reads(events));
    SessionBalance(events, id);
    WithheldCovers(events);
    RunBalance(events);
    assert x.total == Reads(events) >= 0;
    PaidBound(s.db.accounts, x.challenger, x.honest, shares);
    assert PaidAt(s, e) == shares.challengerPayout + shares.honestPayout;
    StepBalance(s, e);
    RunMore(events, e);
  }

  // ---------- a run that mints ----------

  lemma RunMore(before: seq<Event>, e: Event)
    ensures RunAll(before + [e]) == Step(RunAll(before), e)
    ensures Shortfall(before + [e]) == Shortfall(before) + ShortfallAt(RunAll(before), e)
    ensures Withheld(before + [e]) == Withheld(before) + ReportedAt(RunAll(before), e) - PaidAt(RunAll(before), e)
  {
    assert (before + [e])[..|before|] == before;
  }

  /** A verifier with a stake of 100 and a challenger with an empty account. */
  lemma Staked(v: string, c: string, now: int) returns (events: seq<Event>)
    requires !Blank(v) && !Blank(c) && v != c
    ensures
      var s := RunAll(events);
      && s.db.accounts == map[v := Columns(0, 100, 0), c := ZERO] && s.db.slashes == map[] && s.db.unbonding == []
      && s.sessions == map[] && Shortfall(events) == 0 && Withheld(events) == 0
  {
    var create, other, stake := Plain(CreateAccount(v, 100, None, now)), Plain(CreateAccount(c, 0, None, now)),
                                Plain(DoStake(v, 100, now));
    RunMore([], create);
    assert [] + [create] == [create];
    assert RunAll([create]).db.accounts == map[v := Columns(100, 0, 0)];
    RunMore([create], other);
    RunMore([create] + [other], stake);
    events := [create] + [other] + [stake];
  }

  lemma SlashBegun(v: string, c: string, now: int) returns (events: seq<Event>)
    requires !Blank(v) && !Blank(c) && v != c
    ensures
      var s := RunAll(events);
      && s.db.accounts == map[v := Columns(0, 100, 0), c := ZERO] && s.db.slashes == map[] && s.db.unbonding == []
      && s.sessions == map[0 := Session([v], c, [], Some(50), 0)]
      && Shortfall(events) == 0 && Withheld(events) == 0
  {
    var staked := Staked(v, c, now);
    var begin, read := Begin(0, [v], c, [], Some({})), ReadStake(0);
    RunMore(staked, begin);
    RunMore(staked + [begin], read);
    events := staked + [begin] + [read];
  }

  lemma Withdraw(s: State, v: string, c: string, seconds: int, now: int)
    requires s.db.accounts == map[v := Columns(0, 100, 0), c := ZERO] && v != c && s.db.unbonding == []
    ensures
      var e := Plain(DoUnstake(v, 100, seconds, "u", now));
      var s' := Step(s, e);
      && s'.db.accounts == map[v := Columns(0, 0, 100), c := ZERO] && s'.db.slashes == s.db.slashes
      && s'.sessions == s.sessions && ShortfallAt(s, e) == ReportedAt(s, e) == PaidAt(s, e) == 0
  {
  }

  lemma CutNothing(s: State, v: string, c: string, now: int)
    requires s.db.accounts == map[v := Columns(0, 0, 100), c := ZERO] && v != c && s.db.slashes == map[]
    requires s.sessions == map[0 := Session([v], c, [], Some(50), 0)]
    ensures
      var e := CutStake(0, "s", now);
      var s' := Step(s, e);
      && s'.db.accounts == s.db.accounts && s'.sessions == map[0 := Session([], c, [], None, 50)]
      && ShortfallAt(s, e) == ReportedAt(s, e) == 50 && PaidAt(s, e) == 0
  {
    assert [v][1..] == [];
  }

  lemma PayChallenger(s: State, c: string, now: int)
    requires c in s.db.accounts && s.sessions == map[0 := Session([], c, [], None, 50)]
    ensures
      var e := PayRewards(0, now);
      PaidAt(s, e) == 25 && ShortfallAt(s, e) == ReportedAt(s, e) == 0
  {
  }

  /** The stake is withdrawn between being read and being cut: nothing is slashed, and a challenger is paid. */
  lemma WithdrawnStakeMints(v: string, c: string, seconds: int, now: int) returns (events: seq<Event>)
    requires !Blank(v) && !Blank(c) && v != c
    ensures Total(RunAll(events).db.accounts) > RunAll(events).db.supply
  {
    var begun := SlashBegun(v, c, now);
    var unstake, cut, pay := Plain(DoUnstake(v, 100, seconds, "u", now)), CutStake(0, "s", now), PayRewards(0, now);
    Withdraw(RunAll(begun), v, c, seconds, now);
    RunMore(begun, unstake);
    CutNothing(RunAll(begun + [unstake]), v, c, now);
    RunMore(begun + [unstake], cut);
    PayChallenger(RunAll(begun + [unstake] + [cut]), c, now);
    RunMore(begun + [unstake] + [cut], pay);
    events := begun + [unstake] + [cut] + [pay];
    SupplyHoldsIff(events);
  }
}
