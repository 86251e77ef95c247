/** Epochs that fence out decisions taken before a partition healed. */
module Epochs {
  import opened Collections

  // ---------- printing and parsing ----------

  function Digit(n: nat): char
    requires n < 10
  {
    '0' + n as char
  }

  predicate IsDigit(c: char)
  {
    '0' <= c <= '9'
  }

  function NatText(n: nat): (s: string)
    ensures s != [] && forall i :: 0 <= i < |s| ==> IsDigit(s[i])
  {
    if n < 10 then [Digit(n)] else NatText(n / 10) + [Digit(n % 10)]
  }

  /** `str` of an integer. */
  function IntText(n: int): string
  {
    if n < 0 then "-" + NatText(-n) else NatText(n)
  }

  predicate AllDigits(s: string)
  {
    forall i :: 0 <= i < |s| ==> IsDigit(s[i])
  }

  function DigitsValue(s: string): nat
    requires AllDigits(s)
  {
    if s == [] then 0 else 10 * DigitsValue(s[..|s| - 1]) + (s[|s| - 1] - '0') as nat
  }

  /** `int` of a string without minus signs: digits, optionally after a plus. */
  function ParseInt(s: string): Option<int>
  {
    var digits := if s != [] && s[0] == '+' then s[1..] else s;
    if digits != [] && AllDigits(digits) then Some(DigitsValue(digits)) else None
  }

  lemma {:induction false} ValueOfPrint(n: nat)
    ensures DigitsValue(NatText(n)) == n
  {
    var s := NatText(n);
    if n < 10 {
      assert s[..0] == [];
    } else {
      ValueOfPrint(n / 10);
      assert s[..|s| - 1] == NatText(n / 10);
    }
  }

  /** Printing and parsing are inverse on the naturals. */
  lemma ParseOfPrint(n: nat)
    ensures ParseInt(NatText(n)) == Some(n)
  {
    ValueOfPrint(n);
    assert IsDigit(NatText(n)[0]);
  }

  /** `s.split("-")`. */
  function Split(s: string): (parts: seq<string>)
    ensures parts != []
  {
    if s == [] then [""]
    else if s[0] == '-' then [""] + Split(s[1..])
    else
      var rest := Split(s[1..]);
      [[s[0]] + rest[0]] + rest[1..]
  }

  lemma {:induction false} SplitAtDash(a: string, rest: string)
    requires '-' !in a
    ensures Split(a + "-" + rest) == [a] + Split(rest)
  {
    var s := a + "-" + rest;
    if a == [] {
      assert s[0] == '-' && s[1..] == rest;
    } else {
      SplitAtDash(a[1..], rest);
      assert s[0] == a[0] && s[1..] == a[1..] + "-" + rest;
      assert a == [a[0]] + a[1..];
    }
  }

  // ---------- fence tokens ----------

  const TOKEN_PREFIX := "epoch"

  function FenceToken(epoch: int, startedAt: int): string
  {
    TOKEN_PREFIX + "-" + (IntText(epoch) + "-" + IntText(startedAt))
  }

  predicate ValidateFenceToken(token: string, currentEpoch: int)
  {
    var parts := Split(token);
    && |parts| >= 2
    && match ParseInt(parts[1])
       case Some(tokenEpoch) => tokenEpoch >= currentEpoch
       case None => false
  }

  lemma DigitsHaveNoDash(n: nat)
    ensures '-' !in NatText(n)
  {
    assert forall i :: 0 <= i < |NatText(n)| ==> IsDigit(NatText(n)[i]);
  }

  /** The second part of a token is the epoch, if it has no sign. */
  lemma SecondPart(epoch: nat, startedAt: int)
    ensures
      var parts := Split(FenceToken(epoch, startedAt));
      |parts| >= 2 && parts[1] == NatText(epoch)
  {
    SplitAtDash(TOKEN_PREFIX, NatText(epoch) + "-" + IntText(startedAt));
    DigitsHaveNoDash(epoch);
    SplitAtDash(NatText(epoch), IntText(startedAt));
  }

  /** A sign is taken for a separator. */
  lemma SignSplits(epoch: int, startedAt: int)
    requires epoch < 0
    ensures
      var parts := Split(FenceToken(epoch, startedAt));
      |parts| >= 2 && parts[1] == ""
  {
    var rest := NatText(-epoch) + "-" + IntText(startedAt);
    assert IntText(epoch) + "-" + IntText(startedAt) == "" + "-" + rest;
    SplitAtDash(TOKEN_PREFIX, "" + "-" + rest);
    SplitAtDash("", rest);
  }

  /** A token is accepted exactly by the epochs it is not behind; a negative epoch never survives the dashes. */
  lemma TokenAcceptedIff(epoch: int, startedAt: int, currentEpoch: int)
    ensures ValidateFenceToken(FenceToken(epoch, startedAt), currentEpoch) <==> 0 <= epoch && currentEpoch <= epoch
  {
    if epoch >= 0 {
      SecondPart(epoch, startedAt);
      ParseOfPrint(epoch);
    } else {
      SignSplits(epoch, startedAt);
    }
  }

  // ---------- the manager ----------

  datatype EpochState = EpochState(epochNumber: int, startedAtNs: int, coordinatorId: string)

  const FIRST_EPOCH := 1
  const SYSTEM := "system"

  /** What a start finds: the stored row, or the first epoch. */
  function Load(row: Option<EpochState>, now: int): EpochState
  {
    if row.Some? then row.value else EpochState(FIRST_EPOCH, now, SYSTEM)
  }

  class EpochManager {
    var currentEpoch: int
    var epochStart: int
    var coordinatorId: string
    /** The single row of the epoch_state table. */
    var row: Option<EpochState>

    /** What a restart would load is what is in memory. */
    ghost predicate Valid()
      reads this
    {
      row == Some(EpochState(currentEpoch, epochStart, coordinatorId))
    }

    constructor (stored: Option<EpochState>, now: int)
      ensures Valid() && row == Some(Load(stored, now))
      ensures row == if stored.Some? then stored else Some(EpochState(1, now, "system"))
    {
      if stored.Some? {
        currentEpoch, epochStart, coordinatorId :=
          stored.value.epochNumber, stored.value.startedAtNs, stored.value.coordinatorId;
        row := stored;
      } else {
        currentEpoch, epochStart, coordinatorId := FIRST_EPOCH, now, SYSTEM;
        row := Some(EpochState(FIRST_EPOCH, now, SYSTEM));
      }
    }

    method PersistState()
      modifies this`row
      ensures Valid()
    {
      row := Some(EpochState(currentEpoch, epochStart, coordinatorId));
    }

    method AdvanceEpoch(now: int) returns (epoch: int)
      requires Valid()
      modifies this
      ensures Valid() && epoch == currentEpoch == old(currentEpoch) + 1
      ensures epochStart == now && coordinatorId == old(coordinatorId)
    {
      currentEpoch := currentEpoch + 1;
      epochStart := now;
      PersistState();
      epoch := currentEpoch;
    }

    method CreateFenceToken(epoch: Option<int>) returns (token: string)
      ensures token == FenceToken(if epoch.Some? then epoch.value else currentEpoch, epochStart)
      ensures epoch.None? ==> token == "epoch-" + (IntText(currentEpoch) + "-" + IntText(epochStart))
    {
      var e := currentEpoch;
      if epoch.Some? {
        e := epoch.value;
      }
      token := FenceToken(e, epochStart);
      assert "epoch" + "-" == "epoch-";
    }
  }

  // ---------- whole runs ----------

  datatype EpochEvent = Advance(now: int) | Issue | Restart(now: int)

  /** What the process holds, what the table holds, and the tokens issued so far. */
  datatype EpochRun = EpochRun(memory: EpochState, row: Option<EpochState>, tokens: seq<string>)

  function Started(row: Option<EpochState>, now: int, tokens: seq<string>): EpochRun
  {
    EpochRun(Load(row, now), Some(Load(row, now)), tokens)
  }

  /** The steps of the manager; a restart has only the table to go by. */
  function EpochStep(run: EpochRun, e: EpochEvent): EpochRun
  {
    match e
    case Advance(now) =>
      var next := run.memory.(epochNumber := run.memory.epochNumber + 1, startedAtNs := now);
      run.(memory := next, row := Some(next))
    case Issue => run.(tokens := run.tokens + [FenceToken(run.memory.epochNumber, run.memory.startedAtNs)])
    case Restart(now) => Started(run.row, now, run.tokens)
  }

  /** A run from a table that may be empty. */
  function RunEpochs(stored: Option<EpochState>, now: int, events: seq<EpochEvent>): EpochRun
  {
    if events == [] then Started(stored, now, [])
    else EpochStep(RunEpochs(stored, now, events[..|events| - 1]), events[|events| - 1])
  }

  function CountAdvances(events: seq<EpochEvent>): nat
  {
    if events == [] then 0
    else CountAdvances(events[..|events| - 1]) + if events[|events| - 1].Advance? then 1 else 0
  }

  /** Whatever restarts come in between, the epoch is the first one plus the number of advances, in memory and on disk. */
  lemma {:induction false} EpochCounts(stored: Option<EpochState>, now: int, events: seq<EpochEvent>)
    ensures
      var run := RunEpochs(stored, now, events);
      && run.row == Some(run.memory)
      && run.memory.epochNumber == (if stored.Some? then stored.value.epochNumber else 1) + CountAdvances(events)
  {
    if events != [] {
      EpochCounts(stored, now, events[..|events| - 1]);
    }
  }

  lemma {:induction false} TokensPersist(stored: Option<EpochState>, now: int, events: seq<EpochEvent>, later: seq<EpochEvent>)
    ensures RunEpochs(stored, now, events).tokens <= RunEpochs(stored, now, events + later).tokens
    ensures CountAdvances(events + later) == CountAdvances(events) + CountAdvances(later)
  {
    if later == [] {
      assert events + later == events;
    } else {
      assert (events + later)[..|events + later| - 1] == events + later[..|later| - 1];
      TokensPersist(stored, now, events, later[..|later| - 1]);
    }
  }

  /** A token issued at some point of a run is still accepted at the end exactly when no advance came after. */
  lemma TokenFreshIff(stored: Option<EpochState>, now: int, before: seq<EpochEvent>, after: seq<EpochEvent>)
    requires Load(stored, now).epochNumber >= 0
    ensures
      var issued, end := RunEpochs(stored, now, before + [Issue]), RunEpochs(stored, now, before + [Issue] + after);
      var i := |issued.tokens| - 1;
      && 0 <= i < |end.tokens|
      && (ValidateFenceToken(end.tokens[i], end.memory.epochNumber) <==> CountAdvances(after) == 0)
  {
    var issue := before + [Issue];
    assert issue[..|issue| - 1] == before;
    TokensPersist(stored, now, issue, after);
    TokensPersist(stored, now, before, [Issue]);
    EpochCounts(stored, now, before);
    EpochCounts(stored, now, issue + after);
    var state := RunEpochs(stored, now, before).memory;
    assert RunEpochs(stored, now, issue).tokens
           == RunEpochs(stored, now, before).tokens + [FenceToken(state.epochNumber, state.startedAtNs)];
    TokenAcceptedIff(state.epochNumber, state.startedAtNs, RunEpochs(stored, now, issue + after).memory.epochNumber);
    assert CountAdvances([Issue]) == 0 by { assert [Issue][..0] == []; }
  }
}
