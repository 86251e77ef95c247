/** The Lamport clock: batched persistence, and the clock condition over message-passing runs with restarts. */
module LamportClock {

  const BATCH_INTERVAL := 1.0
  const BATCH_SIZE := 100

  /** The counter, what the clock file holds, the ticks not yet written, and the time of the last write. */
  datatype Clock = Clock(counter: int, persisted: int, ticks: int, writtenAt: real)

  /** The file lags behind by exactly the ticks since the last write, fewer than a batch. */
  predicate Sound(c: Clock)
  {
    c.counter - c.persisted == c.ticks && 0 <= c.ticks < BATCH_SIZE
  }

  /** Nothing pending: just written, or just read from the file. */
  function Loaded(stored: int, now: real): Clock
  {
    Clock(stored, stored, 0, now)
  }

  function Flushed(c: Clock, now: real): Clock
  {
    if c.ticks > 0 then Loaded(c.counter, now) else c
  }

  function Ticked(c: Clock, now: real): Clock
  {
    if c.ticks + 1 >= BATCH_SIZE || now - c.writtenAt >= BATCH_INTERVAL then Loaded(c.counter + 1, now)
    else Clock(c.counter + 1, c.persisted, c.ticks + 1, c.writtenAt)
  }

  function ObserveValue(counter: int, other: int): int
  {
    (if counter >= other then counter else other) + 1
  }

  function Observed(c: Clock, other: int, now: real): Clock
  {
    Loaded(ObserveValue(c.counter, other), now)
  }

  function Restarted(c: Clock, now: real): Clock
  {
    Loaded(c.persisted, now)
  }

  class Lamport {
    var counter: int
    var dirty: bool
    var lastWriteTime: real
    var ticksSinceWrite: int
    /** What the clock file holds. */
    var persisted: int

    function State(): Clock
      reads this
    {
      Clock(counter, persisted, ticksSinceWrite, lastWriteTime)
    }

    predicate Valid()
      reads this
    {
      Sound(State()) && (dirty <==> ticksSinceWrite > 0)
    }

    constructor (stored: int, now: real)
      ensures Valid() && State() == Loaded(stored, now)
    {
      counter, persisted, dirty, lastWriteTime, ticksSinceWrite := stored, stored, false, now, 0;
    }

    method Tick(now: real) returns (value: int)
      requires Valid()
      modifies this
      ensures Valid() && State() == Ticked(old(State()), now)
      ensures value == counter == old(counter) + 1
      ensures
        if old(ticksSinceWrite) + 1 >= 100 || now - old(lastWriteTime) >= 1.0
        then persisted == counter && ticksSinceWrite == 0 && lastWriteTime == now
        else persisted == old(persisted) && ticksSinceWrite == old(ticksSinceWrite) + 1 && lastWriteTime == old(lastWriteTime)
    {
      counter := counter + 1;
      dirty := true;
      ticksSinceWrite := ticksSinceWrite + 1;
      value := counter;
      if ticksSinceWrite >= BATCH_SIZE {
        FlushUnsafe(now);
      } else if now - lastWriteTime >= BATCH_INTERVAL {
        FlushUnsafe(now);
      }
    }

    method Observe(other: int, now: real) returns (value: int)
      requires Valid()
      modifies this
      ensures Valid() && State() == Observed(old(State()), other, now)
      ensures value == counter == persisted && counter > old(counter) && counter > other
      ensures counter in {old(counter) + 1, other + 1} && ticksSinceWrite == 0 && lastWriteTime == now
    {
      counter := (if counter >= other then counter else other) + 1;
      persisted := counter;
      dirty := false;
      lastWriteTime := now;
      ticksSinceWrite := 0;
      value := counter;
    }

    method Flush(now: real)
      requires Valid()
      modifies this
      ensures Valid() && State() == Flushed(old(State()), now)
      ensures counter == persisted == old(counter)
    {
      FlushUnsafe(now);
    }

    method FlushUnsafe(now: real)
      requires counter - persisted == ticksSinceWrite && ticksSinceWrite >= 0 && (dirty <==> ticksSinceWrite > 0)
      modifies this
      ensures Valid() && State() == Flushed(old(State()), now)
      ensures counter == persisted == old(counter)
    {
      if dirty {
        persisted := counter;
        dirty := false;
        lastWriteTime := now;
        ticksSinceWrite := 0;
      }
    }

    /** A restart from the file: the clock survives exactly when nothing was pending, and loses less than a batch. */
    method Restart(now: real) returns (c: Lamport)
      requires Valid()
      ensures fresh(c) && c.Valid() && c.State() == Restarted(State(), now)
      ensures c.counter == counter <==> !dirty
      ensures counter - BATCH_SIZE < c.counter <= counter
    {
      c := new Lamport(persisted, now);
    }
  }

  // ---------- message passing ----------

  /**
   * A process stamps and sends a message, or receives one that was sent, flushes its clock, or restarts from
   * its file; broadcasts are received many times.
   */
  datatype Event =
    | Send(process: string, message: nat, now: real)
    | Receive(process: string, message: nat, now: real)
    | Flush(process: string, now: real)
    | Restart(process: string, now: real)

  datatype Config = Config(clocks: map<string, Clock>, stamps: map<nat, int>)

  function ClockOf(c: Config, process: string): Clock
  {
    if process in c.clocks then c.clocks[process] else Loaded(0, 0.0)
  }

  /** What an event does to its process's clock: a stamp that is not positive, or of no message, is ignored. */
  function Act(c: Clock, e: Event, stamps: map<nat, int>): Clock
  {
    match e
    case Send(_, _, now) => Ticked(c, now)
    case Receive(_, m, now) => if m in stamps && stamps[m] > 0 then Observed(c, stamps[m], now) else c
    case Flush(_, now) => Flushed(c, now)
    case Restart(_, now) => Restarted(c, now)
  }

  function Advance(c: Config, e: Event): Config
  {
    var clock := Act(ClockOf(c, e.process), e, c.stamps);
    Config(c.clocks[e.process := clock], if e.Send? then c.stamps[e.message := clock.counter] else c.stamps)
  }

  /** Clocks start from what the processes' files hold. */
  function After(initial: map<string, Clock>, events: seq<Event>): Config
  {
    if events == [] then Config(initial, map[])
    else Advance(After(initial, events[..|events| - 1]), events[|events| - 1])
  }

  /** The clock of a process before event `i`. */
  function Before(initial: map<string, Clock>, events: seq<Event>, i: nat, p: string): Clock
    requires i <= |events|
  {
    ClockOf(After(initial, events[..i]), p)
  }

  /** The counter of the acting process right after event `i`: for a send, the stamp it carries. */
  function ValueAt(initial: map<string, Clock>, events: seq<Event>, i: nat): int
    requires i < |events|
  {
    Before(initial, events, i + 1, events[i].process).counter
  }

  /** The events that a clock value belongs to. */
  predicate Stamps(e: Event)
  {
    e.Send? || e.Receive?
  }

  predicate StampedBy(e: Event, p: string)
  {
    Stamps(e) && e.process == p
  }

  /** Each message is sent once, before it is received. */
  ghost predicate Causal(events: seq<Event>)
  {
    && (forall i, j :: 0 <= i < j < |events| && events[i].Send? && events[j].Send? ==> events[i].message != events[j].message)
    && (forall j :: 0 <= j < |events| && events[j].Receive? ==>
          exists i :: 0 <= i < j && events[i].Send? && events[i].message == events[j].message)
  }

  /** Program order, or delivery of a message. */
  predicate Precedes(events: seq<Event>, i: nat, j: nat)
    requires j < |events|
  {
    && i < j && Stamps(events[i]) && Stamps(events[j])
    && (events[i].process == events[j].process
        || (events[i].Send? && events[j].Receive? && events[i].message == events[j].message))
  }

  /** The transitive closure, witnessed by a chain of events. */
  ghost predicate Chain(events: seq<Event>, chain: seq<nat>)
  {
    && |chain| >= 2 && (forall k :: 0 <= k < |chain| ==> chain[k] < |events|)
    && forall k :: 0 <= k < |chain| - 1 ==> Precedes(events, chain[k], chain[k + 1])
  }

  ghost predicate HappensBefore(events: seq<Event>, i: nat, j: nat)
  {
    exists chain :: Chain(events, chain) && chain[0] == i && chain[|chain| - 1] == j
  }

  /** A clock just loaded from a file. */
  predicate Fresh(c: Clock)
  {
    c.counter == c.persisted && c.counter >= 0 && c.ticks == 0
  }

  ghost predicate Starts(initial: map<string, Clock>)
  {
    forall p :: p in initial ==> Fresh(initial[p])
  }

  // ---------- single events ----------

  predicate SoundAndPositive(c: Clock)
  {
    Sound(c) && c.persisted >= 0
  }

  lemma ActFacts(c: Clock, e: Event, stamps: map<nat, int>)
    requires SoundAndPositive(c)
    ensures SoundAndPositive(Act(c, e, stamps)) && Act(c, e, stamps).persisted >= c.persisted
    ensures e.Send? ==> Act(c, e, stamps).counter == c.counter + 1
    ensures !Stamps(e) && c.ticks == 0 ==> Act(c, e, stamps).ticks == 0 && Act(c, e, stamps).counter == c.counter
  {
  }

  /** One event: the clock of its process changes, the others stay. */
  lemma BeforeNext(initial: map<string, Clock>, events: seq<Event>, i: nat, p: string)
    requires i < |events|
    ensures
      var before := After(initial, events[..i]);
      && After(initial, events[..i + 1]) == Advance(before, events[i])
      && Before(initial, events, i + 1, p)
         == if events[i].process == p then Act(Before(initial, events, i, p), events[i], before.stamps)
            else Before(initial, events, i, p)
  {
    assert events[..i + 1][..i] == events[..i];
  }

  lemma StartsFresh(initial: map<string, Clock>, events: seq<Event>, p: string)
    requires Starts(initial)
    ensures Fresh(Before(initial, events, 0, p))
  {
    assert events[..0] == [];
  }

  /** One event: the clock of its process changes, the others stay. */
  lemma ClockAdvance(before: Config, e: Event, p: string)
    ensures ClockOf(Advance(before, e), p)
            == if e.process == p then Act(ClockOf(before, p), e, before.stamps) else ClockOf(before, p)
  {
  }

  lemma SoundStep(before: Config, e: Event, p: string)
    requires SoundAndPositive(ClockOf(before, p))
    ensures SoundAndPositive(ClockOf(Advance(before, e), p))
  {
    ClockAdvance(before, e, p);
    if e.process == p {
      ActFacts(ClockOf(before, p), e, before.stamps);
    }
  }

  /** In every run the file lags by less than a batch. */
  lemma {:induction false} RunSound(initial: map<string, Clock>, events: seq<Event>, p: string)
    requires Starts(initial)
    ensures SoundAndPositive(ClockOf(After(initial, events), p))
  {
    if events != [] {
      RunSound(initial, events[..|events| - 1], p);
      SoundStep(After(initial, events[..|events| - 1]), events[|events| - 1], p);
    }
  }

  /** Messages carry positive stamps. */
  lemma {:induction false} StampsPositive(initial: map<string, Clock>, events: seq<Event>, i: nat)
    requires Starts(initial) && i <= |events|
    ensures forall m :: m in After(initial, events[..i]).stamps ==> After(initial, events[..i]).stamps[m] > 0
  {
    if i == 0 {
      assert events[..0] == [];
    } else {
      var e := events[i - 1];
      StampsPositive(initial, events, i - 1);
      BeforeNext(initial, events, i - 1, e.process);
      RunSound(initial, events[..i - 1], e.process);
      ActFacts(Before(initial, events, i - 1, e.process), e, After(initial, events[..i - 1]).stamps);
    }
  }

  lemma StampAdvance(before: Config, e: Event)
    ensures
      var after := Advance(before, e);
      if e.Send? then after.stamps == before.stamps[e.message := ClockOf(after, e.process).counter]
      else after.stamps == before.stamps
  {
    ClockAdvance(before, e, e.process);
  }

  /** A message keeps the stamp of its one send. */
  lemma {:induction false} StampStays(initial: map<string, Clock>, events: seq<Event>, i: nat, n: nat)
    requires Causal(events) && i < n <= |events| && events[i].Send?
    ensures events[i].message in After(initial, events[..n]).stamps
    ensures After(initial, events[..n]).stamps[events[i].message] == ValueAt(initial, events, i)
  {
    assert events[..n][..n - 1] == events[..n - 1];
    StampAdvance(After(initial, events[..n - 1]), events[n - 1]);
    if n > i + 1 {
      StampStays(initial, events, i, n - 1);
    }
  }

  /** The stamp that event `j` receives. */
  ghost predicate Receives(initial: map<string, Clock>, events: seq<Event>, j: nat, stamp: int)
    requires j < |events|
  {
    events[j].Receive? && stamp > 0 && events[j].message in After(initial, events[..j]).stamps
    && After(initial, events[..j]).stamps[events[j].message] == stamp
  }

  /** A receive takes in the stamp of the message's send. */
  lemma ReceivesStamp(initial: map<string, Clock>, events: seq<Event>, i: nat, j: nat)
    requires Starts(initial) && Causal(events) && i < j < |events|
    requires events[i].Send? && events[j].Receive? && events[i].message == events[j].message
    ensures Receives(initial, events, j, ValueAt(initial, events, i))
    ensures ValueAt(initial, events, j)
            == ObserveValue(Before(initial, events, j, events[j].process).counter, ValueAt(initial, events, i))
  {
    StampStays(initial, events, i, j);
    StampsPositive(initial, events, j);
    BeforeNext(initial, events, j, events[j].process);
  }

  lemma SendValue(initial: map<string, Clock>, events: seq<Event>, j: nat)
    requires Starts(initial) && j < |events| && events[j].Send?
    ensures ValueAt(initial, events, j) == Before(initial, events, j, events[j].process).counter + 1
  {
    BeforeNext(initial, events, j, events[j].process);
    RunSound(initial, events[..j], events[j].process);
    ActFacts(Before(initial, events, j, events[j].process), events[j], After(initial, events[..j]).stamps);
  }

  /** Every send and receive moves its process's clock forward, and a receive also past the stamp. */
  lemma EventTicks(initial: map<string, Clock>, events: seq<Event>, j: nat)
    requires Starts(initial) && Causal(events) && j < |events| && Stamps(events[j])
    ensures Before(initial, events, j, events[j].process).counter < ValueAt(initial, events, j)
    ensures forall i :: 0 <= i < j && events[i].Send? && events[j].Receive? && events[i].message == events[j].message
              ==> ValueAt(initial, events, i) < ValueAt(initial, events, j)
  {
    if events[j].Send? {
      SendValue(initial, events, j);
    } else {
      var first :| 0 <= first < j && events[first].Send? && events[first].message == events[j].message;
      ReceivesStamp(initial, events, first, j);
      forall i | 0 <= i < j && events[i].Send? && events[i].message == events[j].message
        ensures ValueAt(initial, events, i) < ValueAt(initial, events, j)
      {
        ReceivesStamp(initial, events, i, j);
      }
    }
  }

  // ---------- one process between two of its stamps ----------

  /** Process `p` neither sends nor receives from `i` up to `j`. */
  ghost predicate Quiet(events: seq<Event>, p: string, i: nat, j: nat)
  {
    forall k :: i <= k < j && k < |events| ==> !StampedBy(events[k], p)
  }

  ghost predicate Undisturbed(events: seq<Event>, p: string, i: nat, j: nat)
  {
    Quiet(events, p, i, j) && forall k :: i <= k < j && k < |events| ==> !(events[k].Restart? && events[k].process == p)
  }

  lemma {:induction false} UndisturbedKeeps(initial: map<string, Clock>, events: seq<Event>, p: string, i: nat, j: nat)
    requires i <= j <= |events| && Undisturbed(events, p, i, j)
    ensures Before(initial, events, j, p).counter == Before(initial, events, i, p).counter
  {
    if i < j {
      UndisturbedKeeps(initial, events, p, i, j - 1);
      BeforeNext(initial, events, j - 1, p);
      assert !StampedBy(events[j - 1], p);
    }
  }

  /** With nothing pending, flushing and restarting change nothing but the time of the write. */
  lemma {:induction false} SettledStays(initial: map<string, Clock>, events: seq<Event>, p: string, i: nat, j: nat)
    requires i <= j <= |events| && Quiet(events, p, i, j)
    requires Starts(initial) && Before(initial, events, i, p).ticks == 0
    ensures Before(initial, events, j, p).ticks == 0
    ensures Before(initial, events, j, p).counter == Before(initial, events, i, p).counter
  {
    if i < j {
      SettledStays(initial, events, p, i, j - 1);
      BeforeNext(initial, events, j - 1, p);
      RunSound(initial, events[..j - 1], p);
      assert !StampedBy(events[j - 1], p);
      ActFacts(Before(initial, events, j - 1, p), events[j - 1], After(initial, events[..j - 1]).stamps);
    }
  }

  /** Restart `r` is harmless to the stamp at `j`: nothing was pending, or `j` receives at least what was lost. */
  ghost predicate Harmless(initial: map<string, Clock>, events: seq<Event>, r: nat, j: nat)
    requires r < |events| && j < |events|
  {
    var lost := Before(initial, events, r, events[r].process);
    lost.ticks == 0 || exists stamp :: stamp >= lost.counter && Receives(initial, events, j, stamp)
  }

  /** `j` is the first send or receive of the process after its restart `r`. */
  ghost predicate FirstAfter(events: seq<Event>, r: nat, j: nat)
    requires r < |events| && j < |events|
  {
    && r < j && events[r].Restart? && StampedBy(events[j], events[r].process)
    && Quiet(events, events[r].process, r, j)
  }

  /** Every restart of `p` is harmless to its next stamp. */
  ghost predicate RestartsHarmless(initial: map<string, Clock>, events: seq<Event>, p: string)
  {
    forall r, j :: 0 <= r < |events| && 0 <= j < |events| && FirstAfter(events, r, j) && events[r].process == p
      ==> Harmless(initial, events, r, j)
  }

  /** The stamps of `p` increase. */
  ghost predicate Increasing(initial: map<string, Clock>, events: seq<Event>, p: string)
  {
    forall i, j :: 0 <= i < j < |events| && StampedBy(events[i], p) && StampedBy(events[j], p)
      ==> ValueAt(initial, events, i) < ValueAt(initial, events, j)
  }

  /** `k` and `j` are successive stamps of one process. */
  ghost predicate Successive(events: seq<Event>, k: nat, j: nat)
    requires k < |events| && j < |events|
  {
    && k < j && Stamps(events[k]) && StampedBy(events[j], events[k].process)
    && Quiet(events, events[k].process, k + 1, j)
  }

  lemma AfterRestart(initial: map<string, Clock>, events: seq<Event>, r: nat)
    requires Starts(initial) && r < |events| && events[r].Restart?
    ensures
      var before, after := Before(initial, events, r, events[r].process), Before(initial, events, r + 1, events[r].process);
      && before.ticks >= 0 && after.ticks == 0 && after.counter == before.counter - before.ticks
  {
    RunSound(initial, events[..r], events[r].process);
    BeforeNext(initial, events, r, events[r].process);
  }

  /** What the first of the restarts between two stamps leaves of the clock. */
  lemma AfterFirstRestart(initial: map<string, Clock>, events: seq<Event>, k: nat, r: nat, j: nat)
    requires Starts(initial) && k < r < j < |events| && Successive(events, k, j)
    requires events[r].Restart? && events[r].process == events[k].process && Undisturbed(events, events[k].process, k + 1, r)
    ensures Before(initial, events, r, events[k].process).counter == ValueAt(initial, events, k)
    ensures
      var p := events[k].process;
      Before(initial, events, j, p).counter == ValueAt(initial, events, k) - Before(initial, events, r, p).ticks
    ensures Before(initial, events, r, events[k].process).ticks >= 0
  {
    var p := events[k].process;
    UndisturbedKeeps(initial, events, p, k + 1, r);
    AfterRestart(initial, events, r);
    SettledStays(initial, events, p, r + 1, j);
  }

  /** Whether a receive makes up for a lost clock value. */
  lemma ReceiveMakesUp(initial: map<string, Clock>, events: seq<Event>, j: nat, value: int)
    requires Starts(initial) && Causal(events) && j < |events| && Stamps(events[j])
    ensures value < ValueAt(initial, events, j)
            <==> value <= Before(initial, events, j, events[j].process).counter
                 || exists stamp :: stamp >= value && Receives(initial, events, j, stamp)
  {
    if events[j].Send? {
      SendValue(initial, events, j);
    } else {
      var i :| 0 <= i < j && events[i].Send? && events[i].message == events[j].message;
      ReceivesStamp(initial, events, i, j);
    }
  }

  lemma OneRestart(initial: map<string, Clock>, events: seq<Event>, k: nat, r: nat, j: nat)
    requires Starts(initial) && Causal(events) && k < r < j < |events| && Successive(events, k, j)
    requires events[r].Restart? && events[r].process == events[k].process && Undisturbed(events, events[k].process, k + 1, r)
    ensures ValueAt(initial, events, k) < ValueAt(initial, events, j) <==> Harmless(initial, events, r, j)
  {
    AfterFirstRestart(initial, events, k, r, j);
    ReceiveMakesUp(initial, events, j, ValueAt(initial, events, k));
  }

  /** A later restart before the same stamp loses nothing more. */
  lemma LaterRestart(initial: map<string, Clock>, events: seq<Event>, k: nat, r: nat, s: nat, j: nat)
    requires Starts(initial) && k < r < s < j < |events| && Successive(events, k, j)
    requires events[r].Restart? && events[r].process == events[k].process
    requires events[s].Restart? && events[s].process == events[k].process
    ensures Harmless(initial, events, s, j)
  {
    var p := events[k].process;
    AfterRestart(initial, events, r);
    SettledStays(initial, events, p, r + 1, s);
  }

  /** The first restart of `p` between `i` and `j`, if there is one. */
  lemma {:induction false} FirstRestart(events: seq<Event>, p: string, i: nat, j: nat) returns (r: nat)
    requires i <= j <= |events| && Quiet(events, p, i, j)
    ensures i <= r <= j && Undisturbed(events, p, i, r)
    ensures r < j ==> events[r].Restart? && events[r].process == p
    decreases j - i
  {
    r := i;
    if i < j && !(events[i].Restart? && events[i].process == p) {
      r := FirstRestart(events, p, i + 1, j);
    }
  }

  /** Of two successive stamps the second is larger exactly if the restarts between them are harmless. */
  lemma SuccessiveIff(initial: map<string, Clock>, events: seq<Event>, k: nat, j: nat)
    requires Starts(initial) && Causal(events) && k < |events| && j < |events| && Successive(events, k, j)
    ensures ValueAt(initial, events, k) < ValueAt(initial, events, j)
            <==> forall s :: k < s < j && events[s].Restart? && events[s].process == events[k].process
                   ==> Harmless(initial, events, s, j)
  {
    var p := events[k].process;
    var r := FirstRestart(events, p, k + 1, j);
    if r == j {
      UndisturbedKeeps(initial, events, p, k + 1, j);
      EventTicks(initial, events, j);
    } else {
      OneRestart(initial, events, k, r, j);
      forall s | r < s < j && events[s].Restart? && events[s].process == p ensures Harmless(initial, events, s, j) {
        LaterRestart(initial, events, k, r, s, j);
      }
    }
  }

  // ---------- whole runs ----------

  /** The last stamp of `p` before `n`, if there is one. */
  lemma {:induction false} LastStamp(events: seq<Event>, p: string, n: nat) returns (found: bool, k: nat)
    requires n <= |events|
    ensures found ==> k < n && StampedBy(events[k], p) && Quiet(events, p, k + 1, n)
    ensures !found ==> Quiet(events, p, 0, n)
  {
    if n == 0 {
      found, k := false, 0;
    } else if StampedBy(events[n - 1], p) {
      found, k := true, n - 1;
    } else {
      found, k := LastStamp(events, p, n - 1);
    }
  }

  lemma {:induction false} HarmlessIncreases(initial: map<string, Clock>, events: seq<Event>, p: string, i: nat, j: nat)
    requires Starts(initial) && Causal(events) && RestartsHarmless(initial, events, p)
    requires i < j < |events| && StampedBy(events[i], p) && StampedBy(events[j], p)
    ensures ValueAt(initial, events, i) < ValueAt(initial, events, j)
    decreases j
  {
    var found, k := LastStamp(events, p, j);
    assert found && i <= k;
    SuccessiveIff(initial, events, k, j);
    forall s | k < s < j && events[s].Restart? && events[s].process == p ensures Harmless(initial, events, s, j) {
      assert FirstAfter(events, s, j);
    }
    if i < k {
      HarmlessIncreases(initial, events, p, i, k);
    }
  }

  lemma IncreasingHarmless(initial: map<string, Clock>, events: seq<Event>, p: string, r: nat, j: nat)
    requires Starts(initial) && Causal(events) && Increasing(initial, events, p)
    requires r < |events| && j < |events| && FirstAfter(events, r, j) && events[r].process == p
    ensures Harmless(initial, events, r, j)
  {
    var found, k := LastStamp(events, p, r);
    if found {
      assert Successive(events, k, j);
      SuccessiveIff(initial, events, k, j);
    } else {
      StartsFresh(initial, events, p);
      SettledStays(initial, events, p, 0, r);
    }
  }

  /**
   * A process's stamps increase along a run exactly when each of its restarts either finds nothing pending or
   * is followed, before any send, by a message stamped at least as high as the clock it lost.
   */
  lemma StampsIncreaseIff(initial: map<string, Clock>, events: seq<Event>, p: string)
    requires Starts(initial) && Causal(events)
    ensures Increasing(initial, events, p) <==> RestartsHarmless(initial, events, p)
  {
    if Increasing(initial, events, p) {
      forall r, j | 0 <= r < |events| && 0 <= j < |events| && FirstAfter(events, r, j) && events[r].process == p
        ensures Harmless(initial, events, r, j)
      {
        IncreasingHarmless(initial, events, p, r, j);
      }
    }
    if RestartsHarmless(initial, events, p) {
      forall i, j | 0 <= i < j < |events| && StampedBy(events[i], p) && StampedBy(events[j], p)
        ensures ValueAt(initial, events, i) < ValueAt(initial, events, j)
      {
        HarmlessIncreases(initial, events, p, i, j);
      }
    }
  }

  lemma PrecedesIncreases(initial: map<string, Clock>, events: seq<Event>, i: nat, j: nat)
    requires Starts(initial) && Causal(events) && j < |events| && Precedes(events, i, j)
    requires RestartsHarmless(initial, events, events[j].process)
    ensures ValueAt(initial, events, i) < ValueAt(initial, events, j)
  {
    if events[i].process == events[j].process {
      HarmlessIncreases(initial, events, events[j].process, i, j);
    } else {
      EventTicks(initial, events, j);
    }
  }

  lemma {:induction false} ChainIncreases(initial: map<string, Clock>, events: seq<Event>, chain: seq<nat>)
    requires Starts(initial) && Causal(events) && Chain(events, chain)
    requires forall p :: RestartsHarmless(initial, events, p)
    ensures ValueAt(initial, events, chain[0]) < ValueAt(initial, events, chain[|chain| - 1])
  {
    var n := |chain| - 1;
    PrecedesIncreases(initial, events, chain[n - 1], chain[n]);
    if n > 1 {
      ChainIncreases(initial, events, chain[..n]);
    }
  }

  /** What happens before carries a strictly smaller clock value. */
  ghost predicate ClockConditionHolds(initial: map<string, Clock>, events: seq<Event>)
  {
    forall i, j :: 0 <= i < |events| && 0 <= j < |events| && HappensBefore(events, i, j)
      ==> ValueAt(initial, events, i) < ValueAt(initial, events, j)
  }

  /** The clock condition survives crashes and restarts exactly when every restart is harmless. */
  lemma ClockConditionIff(initial: map<string, Clock>, events: seq<Event>)
    requires Starts(initial) && Causal(events)
    ensures ClockConditionHolds(initial, events) <==> forall p :: RestartsHarmless(initial, events, p)
  {
    if ClockConditionHolds(initial, events) {
      forall p ensures RestartsHarmless(initial, events, p) {
        forall i, j | 0 <= i < j < |events| && StampedBy(events[i], p) && StampedBy(events[j], p)
          ensures ValueAt(initial, events, i) < ValueAt(initial, events, j)
        {
          assert Chain(events, [i, j]);
          assert HappensBefore(events, i, j);
        }
        StampsIncreaseIff(initial, events, p);
      }
    }
    if forall p :: RestartsHarmless(initial, events, p) {
      forall i, j | 0 <= i < |events| && 0 <= j < |events| && HappensBefore(events, i, j)
        ensures ValueAt(initial, events, i) < ValueAt(initial, events, j)
      {
        var chain :| Chain(events, chain) && chain[0] == i && chain[|chain| - 1] == j;
        ChainIncreases(initial, events, chain);
      }
    }
  }

  /** The clock condition of crash-free runs. */
  lemma ClockCondition(initial: map<string, Clock>, events: seq<Event>)
    requires Starts(initial) && Causal(events) && forall e :: e in events ==> !e.Restart?
    ensures ClockConditionHolds(initial, events)
  {
    ClockConditionIff(initial, events);
  }

  // ---------- how far restarts go back ----------

  /** What has been written is never taken back. */
  lemma {:induction false} FilesGrow(initial: map<string, Clock>, events: seq<Event>, p: string, i: nat, j: nat)
    requires Starts(initial) && i <= j <= |events|
    ensures Before(initial, events, i, p).persisted <= Before(initial, events, j, p).persisted
  {
    if i < j {
      FilesGrow(initial, events, p, i, j - 1);
      FileGrows(initial, events, p, j - 1);
    }
  }

  lemma FileGrows(initial: map<string, Clock>, events: seq<Event>, p: string, i: nat)
    requires Starts(initial) && i < |events|
    ensures Before(initial, events, i, p).persisted <= Before(initial, events, i + 1, p).persisted
  {
    BeforeNext(initial, events, i, p);
    RunSound(initial, events[..i], p);
    ActFacts(Before(initial, events, i, p), events[i], After(initial, events[..i]).stamps);
  }

  /** However often a process restarts, its stamps never fall back by a whole batch. */
  lemma StampsFallBackLittle(initial: map<string, Clock>, events: seq<Event>, i: nat, j: nat)
    requires Starts(initial) && Causal(events) && i < j < |events|
    requires Stamps(events[i]) && StampedBy(events[j], events[i].process)
    ensures ValueAt(initial, events, i) - ValueAt(initial, events, j) < BATCH_SIZE - 1
  {
    var p := events[i].process;
    FilesGrow(initial, events, p, i + 1, j);
    EventTicks(initial, events, j);
    LagsLittle(initial, events, i + 1, p);
    LagsLittle(initial, events, j, p);
  }

  lemma LagsLittle(initial: map<string, Clock>, events: seq<Event>, i: nat, p: string)
    requires Starts(initial) && i <= |events|
    ensures
      var c := Before(initial, events, i, p);
      c.persisted <= c.counter < c.persisted + BATCH_SIZE
  {
    RunSound(initial, events[..i], p);
  }

  const REPEATING := [Send("p", 0, 0.0), Restart("p", 0.0), Send("p", 1, 0.0)]

  lemma RepeatedClocks()
    ensures Before(map[], REPEATING, 1, "p") == Clock(1, 0, 1, 0.0)
    ensures Before(map[], REPEATING, 2, "p") == Loaded(0, 0.0)
    ensures Before(map[], REPEATING, 3, "p") == Clock(1, 0, 1, 0.0)
  {
    assert REPEATING[..0] == [];
    BeforeNext(map[], REPEATING, 0, "p");
    BeforeNext(map[], REPEATING, 1, "p");
    BeforeNext(map[], REPEATING, 2, "p");
  }

  /** A process that restarts right after sending stamps its next message like the one before. */
  lemma StampRepeats()
    ensures Causal(REPEATING) && ValueAt(map[], REPEATING, 0) == ValueAt(map[], REPEATING, 2) == 1
    ensures !ClockConditionHolds(map[], REPEATING)
  {
    RepeatedClocks();
    assert Chain(REPEATING, [0, 2]);
    assert HappensBefore(REPEATING, 0, 2);
  }
}
