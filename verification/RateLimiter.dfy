/** Sliding-window rate limiting per agent. */
module RateLimiter {
  import opened Collections

  /** One agent's remembered request times and block, if any. */
  datatype AgentState = AgentState(times: seq<int>, blockedUntil: Option<int>)

  const UNKNOWN := AgentState([], None)

  function Recent(times: seq<int>, cutoff: int): seq<int>
  {
    if times == [] then []
    else Recent(times[..|times| - 1], cutoff) + (if times[|times| - 1] > cutoff then [times[|times| - 1]] else [])
  }

  predicate Blocked(s: AgentState, now: int)
  {
    s.blockedUntil.Some? && now < s.blockedUntil.value
  }

  /** The state after a check and whether the request is granted. */
  function Check(s: AgentState, limit: int, window: int, now: int): (AgentState, bool)
  {
    if Blocked(s, now) then (s, false)
    else Admit(Recent(s.times, now - window), limit, now)
  }

  /** An unblocked agent is granted its request if it has room in the window. */
  function Admit(recent: seq<int>, limit: int, now: int): (AgentState, bool)
  {
    if |recent| < limit then (AgentState(recent + [now], None), true) else (AgentState(recent, None), false)
  }

  class RateLimiter {
    const limitPerAgent: int
    const windowSeconds: int
    var entries: map<string, seq<int>>
    var blockedAgents: map<string, int>

    constructor (limitPerAgent: int, windowHours: int)
      ensures this.limitPerAgent == limitPerAgent && windowSeconds == windowHours * 3600
      ensures forall agent :: View(agent) == UNKNOWN
    {
      this.limitPerAgent, windowSeconds := limitPerAgent, windowHours * 3600;
      entries, blockedAgents := map[], map[];
    }

    function View(agent: string): AgentState
      reads this
    {
      AgentState(if agent in entries then entries[agent] else [],
                 if agent in blockedAgents then Some(blockedAgents[agent]) else None)
    }

    method CheckRate(agentId: string, now: int) returns (granted: bool)
      modifies this
      ensures (View(agentId), granted) == Check(old(View(agentId)), limitPerAgent, windowSeconds, now)
      ensures forall other :: other != agentId ==> View(other) == old(View(other))
    {
      if agentId in blockedAgents {
        if now < blockedAgents[agentId] {
          return false;
        }
        blockedAgents := blockedAgents - {agentId};
      }
      Prune(agentId, now - windowSeconds);
      if |entries[agentId]| < limitPerAgent {
        entries := entries[agentId := entries[agentId] + [now]];
        return true;
      }
      granted := false;
    }

    /** Drops the agent's times that are no longer in the window. */
    method Prune(agentId: string, cutoff: int)
      modifies this`entries
      ensures entries == old(entries)[agentId := Recent(old(View(agentId)).times, cutoff)]
    {
      if agentId !in entries {
        entries := entries[agentId := []];
      }
      var recent := KeepRecent(entries[agentId], cutoff);
      entries := entries[agentId := recent];
    }

    method RecordRequest(agentId: string, now: int)
      modifies this`entries
      ensures View(agentId) == old(View(agentId)).(times := old(View(agentId)).times + [now])
      ensures forall other :: other != agentId ==> View(other) == old(View(other))
    {
      if agentId !in entries {
        entries := entries[agentId := []];
      }
      entries := entries[agentId := entries[agentId] + [now]];
    }

    method BlockAgent(agentId: string, duration: int, now: int)
      modifies this`blockedAgents
      ensures View(agentId) == old(View(agentId)).(blockedUntil := Some(now + duration))
      ensures forall other :: other != agentId ==> View(other) == old(View(other))
    {
      blockedAgents := blockedAgents[agentId := now + duration];
    }

    method IsBlocked(agentId: string, now: int) returns (blocked: bool)
      modifies this`blockedAgents
      ensures blocked <==> Blocked(old(View(agentId)), now)
      ensures View(agentId) == if blocked then old(View(agentId)) else old(View(agentId)).(blockedUntil := None)
      ensures forall other :: other != agentId ==> View(other) == old(View(other))
    {
      if agentId !in blockedAgents {
        return false;
      }
      if now >= blockedAgents[agentId] {
        blockedAgents := blockedAgents - {agentId};
        return false;
      }
      blocked := true;
    }

    method ResetAgent(agentId: string)
      modifies this
      ensures View(agentId) == UNKNOWN
      ensures forall other :: other != agentId ==> View(other) == old(View(other))
    {
      if agentId in entries {
        entries := entries[agentId := []];
      }
      blockedAgents := blockedAgents - {agentId};
    }
  }

  /** `[t for t in times if t > cutoff]`. */
  method KeepRecent(times: seq<int>, cutoff: int) returns (recent: seq<int>)
    ensures recent == Recent(times, cutoff)
    ensures forall t :: t in recent <==> t in times && t > cutoff
  {
    recent := [];
    for i := 0 to |times|
      invariant recent == Recent(times[..i], cutoff)
      invariant forall t :: t in recent <==> t in times[..i] && t > cutoff
    {
      assert times[..i + 1] == times[..i] + [times[i]];
      assert times[..i + 1][..i] == times[..i];
      if times[i] > cutoff {
        recent := recent + [times[i]];
      }
    }
    assert times[..|times|] == times;
  }

  // ---------- whole histories ----------

  datatype Event =
    | Checked(agent: string, now: int)
    | Recorded(agent: string, now: int)
    | BlockedFor(agent: string, now: int, duration: int)
    | Queried(agent: string, now: int)
    | Reset(agent: string, now: int)

  /** What one of the agent's own events does to its state; see the methods above. */
  function Apply(s: AgentState, e: Event, limit: int, window: int): AgentState
  {
    match e
    case Checked(_, now) => Check(s, limit, window, now).0
    case Recorded(_, now) => s.(times := s.times + [now])
    case BlockedFor(_, now, duration) => s.(blockedUntil := Some(now + duration))
    case Queried(_, now) => if Blocked(s, now) then s else s.(blockedUntil := None)
    case Reset(_, _) => UNKNOWN
  }

  function StateAfter(history: seq<Event>, agent: string, limit: int, window: int): AgentState
  {
    if history == [] then UNKNOWN
    else
      var before, e := StateAfter(history[..|history| - 1], agent, limit, window), history[|history| - 1];
      if e.agent == agent then Apply(before, e, limit, window) else before
  }

  /** Times at which the agent's checks were granted. */
  function Grants(history: seq<Event>, agent: string, limit: int, window: int): seq<int>
  {
    if history == [] then []
    else
      var front, e := history[..|history| - 1], history[|history| - 1];
      Grants(front, agent, limit, window)
      + (if e.Checked? && e.agent == agent && Check(StateAfter(front, agent, limit, window), limit, window, e.now).1
         then [e.now] else [])
  }

  /** How many times lie in `[from, to)`. */
  function CountIn(times: seq<int>, from: int, to: int): nat
  {
    if times == [] then 0
    else CountIn(times[..|times| - 1], from, to) + if from <= times[|times| - 1] < to then 1 else 0
  }

  function CountAfter(times: seq<int>, cutoff: int): nat
  {
    if times == [] then 0
    else CountAfter(times[..|times| - 1], cutoff) + if times[|times| - 1] > cutoff then 1 else 0
  }

  ghost predicate ClockRuns(history: seq<Event>)
  {
    forall i, j :: 0 <= i < j < |history| ==> history[i].now <= history[j].now
  }

  ghost predicate NeverReset(history: seq<Event>, agent: string)
  {
    forall e :: e in history && e.Reset? ==> e.agent != agent
  }

  /** A history without its last event; the event before the last is not later than the last. */
  lemma FrontHistory(history: seq<Event>, agent: string)
    requires history != [] && ClockRuns(history) && NeverReset(history, agent)
    ensures
      var front, e := history[..|history| - 1], history[|history| - 1];
      && ClockRuns(front) && NeverReset(front, agent) && (e.agent == agent ==> !e.Reset?)
      && (front != [] ==> front[|front| - 1].now <= e.now)
  {
    var front, e := history[..|history| - 1], history[|history| - 1];
    forall i, j | 0 <= i < j < |front| ensures front[i].now <= front[j].now {
      assert history[i].now <= history[j].now;
    }
    assert history == front + [e];
    if front != [] {
      assert front[|front| - 1] == history[|history| - 2];
    }
  }

  lemma CountAppend(times: seq<int>, t: int, cutoff: int)
    ensures CountAfter(times + [t], cutoff) == CountAfter(times, cutoff) + if t > cutoff then 1 else 0
  {
    assert (times + [t])[..|times|] == times;
  }

  lemma CountInAppend(times: seq<int>, t: int, from: int, to: int)
    ensures CountIn(times + [t], from, to) == CountIn(times, from, to) + if from <= t < to then 1 else 0
  {
    assert (times + [t])[..|times|] == times;
  }

  /** Pruning at a cutoff loses nothing that a later cutoff would count. */
  lemma {:induction false} RecentCounts(times: seq<int>, cutoff: int, later: int)
    requires cutoff <= later
    ensures CountAfter(Recent(times, cutoff), later) == CountAfter(times, later)
    ensures |Recent(times, cutoff)| == CountAfter(times, cutoff)
  {
    if times != [] {
      var front, last := times[..|times| - 1], times[|times| - 1];
      RecentCounts(front, cutoff, later);
      CountAppend(Recent(front, cutoff), last, later);
      assert Recent(front, cutoff) + [] == Recent(front, cutoff);
    }
  }

  lemma {:induction false} CountInBound(times: seq<int>, from: int, to: int, cutoff: int)
    requires cutoff < from
    ensures CountIn(times, from, to) <= CountAfter(times, cutoff)
  {
    if times != [] {
      CountInBound(times[..|times| - 1], from, to, cutoff);
    }
  }

  lemma AdmitRemembers(recent: seq<int>, grants: seq<int>, limit: int, now: int, later: int)
    requires CountAfter(grants, later) <= CountAfter(recent, later)
    ensures
      var (s, granted) := Admit(recent, limit, now);
      CountAfter(if granted then grants + [now] else grants, later) <= CountAfter(s.times, later)
  {
    CountAppend(grants, now, later);
    CountAppend(recent, now, later);
  }

  lemma CheckRemembers(s: AgentState, grants: seq<int>, limit: int, window: int, now: int, later: int)
    requires now - window <= later && CountAfter(grants, later) <= CountAfter(s.times, later)
    ensures
      var (s', granted) := Check(s, limit, window, now);
      CountAfter(if granted then grants + [now] else grants, later) <= CountAfter(s'.times, later)
  {
    if !Blocked(s, now) {
      RecentCounts(s.times, now - window, later);
      AdmitRemembers(Recent(s.times, now - window), grants, limit, now, later);
    }
  }

  /** One step: the agent's list keeps covering the grants that a check at `now` or later could still see. */
  lemma GrantsStayRemembered(s: AgentState, grants: seq<int>, e: Event, limit: int, window: int, later: int)
    requires e.now - window <= later && !e.Reset?
    requires CountAfter(grants, later) <= CountAfter(s.times, later)
    ensures
      var granted := e.Checked? && Check(s, limit, window, e.now).1;
      CountAfter(if granted then grants + [e.now] else grants, later)
      <= CountAfter(Apply(s, e, limit, window).times, later)
  {
    match e
    case Checked(_, now) =>
      CheckRemembers(s, grants, limit, window, now, later);
    case Recorded(_, now) =>
      CountAppend(s.times, now, later);
    case _ =>
  }

  lemma {:induction false} GrantsRemembered(history: seq<Event>, agent: string, limit: int, window: int, later: int)
    requires ClockRuns(history) && NeverReset(history, agent)
    requires history != [] ==> history[|history| - 1].now - window <= later
    ensures CountAfter(Grants(history, agent, limit, window), later)
            <= CountAfter(StateAfter(history, agent, limit, window).times, later)
  {
    if history != [] {
      var front, e := history[..|history| - 1], history[|history| - 1];
      FrontHistory(history, agent);
      GrantsRemembered(front, agent, limit, window, later);
      var s, g := StateAfter(front, agent, limit, window), Grants(front, agent, limit, window);
      if e.agent == agent {
        GrantsStayRemembered(s, g, e, limit, window, later);
      }
      assert g + [] == g;
    }
  }

  /** A check is granted only if fewer than `limit` remembered grants are still in its window. */
  lemma WindowHasRoom(s: AgentState, grants: seq<int>, limit: nat, window: int, from: int, now: int)
    requires Check(s, limit, window, now).1 && CountIn(grants, from, from + window) <= limit
    requires CountAfter(grants, now - window) <= CountAfter(s.times, now - window)
    ensures CountIn(grants + [now], from, from + window) <= limit
  {
    CountInAppend(grants, now, from, from + window);
    if from <= now < from + window {
      CountInBound(grants, from, from + window, now - window);
      RecentCounts(s.times, now - window, now - window);
    }
  }

  lemma WindowStep(history: seq<Event>, agent: string, limit: nat, window: int, from: int)
    requires history != [] && ClockRuns(history) && NeverReset(history, agent)
    requires CountIn(Grants(history[..|history| - 1], agent, limit, window), from, from + window) <= limit
    ensures CountIn(Grants(history, agent, limit, window), from, from + window) <= limit
  {
    var front, e := history[..|history| - 1], history[|history| - 1];
    var s, g := StateAfter(front, agent, limit, window), Grants(front, agent, limit, window);
    if e.Checked? && e.agent == agent && Check(s, limit, window, e.now).1 {
      FrontHistory(history, agent);
      GrantsRemembered(front, agent, limit, window, e.now - window);
      WindowHasRoom(s, g, limit, window, from, e.now);
    } else {
      assert g + [] == g;
    }
  }

  /**
   * Anywhere in an agent's history, a half-open interval of one window length holds at most
   * `limit` grants, although old times are discarded and blocks and recorded requests interleave.
   */
  lemma {:induction false} WindowBound(history: seq<Event>, agent: string, limit: nat, window: int, from: int)
    requires ClockRuns(history) && NeverReset(history, agent)
    ensures CountIn(Grants(history, agent, limit, window), from, from + window) <= limit
  {
    if history != [] {
      FrontHistory(history, agent);
      WindowBound(history[..|history| - 1], agent, limit, window, from);
      WindowStep(history, agent, limit, window, from);
    }
  }

  // ---------- which requests are granted ----------

  /** Event `i` blocks the agent beyond `now`, and is its latest block or reset. */
  ghost predicate BlocksAt(history: seq<Event>, agent: string, i: int, now: int)
  {
    && 0 <= i < |history| && history[i].BlockedFor? && history[i].agent == agent
    && now < history[i].now + history[i].duration
    && forall j :: i < j < |history| && history[j].agent == agent ==> !history[j].BlockedFor? && !history[j].Reset?
  }

  /** The agent's latest block since its latest reset ends after `now`. */
  ghost predicate StillBlocked(history: seq<Event>, agent: string, now: int)
  {
    exists i :: BlocksAt(history, agent, i, now)
  }

  /** The times of the requests recorded or granted since the agent's latest reset. */
  ghost function Requests(history: seq<Event>, agent: string, limit: int, window: int): seq<int>
    decreases |history|, 0
  {
    if history == [] then []
    else
      var front, e := history[..|history| - 1], history[|history| - 1];
      if e.agent == agent && e.Reset? then []
      else if e.agent == agent && (e.Recorded? || (e.Checked? && Allowed(front, agent, limit, window, e.now)))
      then Requests(front, agent, limit, window) + [e.now]
      else Requests(front, agent, limit, window)
  }

  /** Not blocked, and fewer than `limit` of those requests less than a window ago. */
  ghost predicate Allowed(history: seq<Event>, agent: string, limit: int, window: int, now: int)
    decreases |history|, 1
  {
    !StillBlocked(history, agent, now) && CountAfter(Requests(history, agent, limit, window), now - window) < limit
  }

  lemma BlocksOneMore(history: seq<Event>, agent: string, i: int, now: int)
    requires history != []
    ensures
      var n := |history| - 1;
      var e := history[n];
      BlocksAt(history, agent, i, now) <==>
        if i < n then BlocksAt(history[..n], agent, i, now) && (e.agent == agent ==> !e.BlockedFor? && !e.Reset?)
        else i == n && e.BlockedFor? && e.agent == agent && now < e.now + e.duration
  {
    var front := history[..|history| - 1];
    assert forall j :: 0 <= j < |front| ==> front[j] == history[j];
  }

  lemma StillBlockedOneMore(history: seq<Event>, agent: string, now: int)
    requires history != []
    ensures
      var front, e := history[..|history| - 1], history[|history| - 1];
      StillBlocked(history, agent, now) <==>
        if e.agent == agent && e.BlockedFor? then now < e.now + e.duration
        else !(e.agent == agent && e.Reset?) && StillBlocked(front, agent, now)
  {
    var n := |history| - 1;
    forall i ensures BlocksAt(history, agent, i, now) ==> i == n || BlocksAt(history[..n], agent, i, now)
      ensures BlocksAt(history, agent, i, now) && i != n ==> history[n].agent == agent ==> !history[n].BlockedFor? && !history[n].Reset?
    {
      BlocksOneMore(history, agent, i, now);
    }
    BlocksOneMore(history, agent, n, now);
    if i :| BlocksAt(history[..n], agent, i, now) {
      BlocksOneMore(history, agent, i, now);
    }
  }

  lemma FrontClock(history: seq<Event>)
    requires history != [] && ClockRuns(history)
    ensures
      var front := history[..|history| - 1];
      ClockRuns(front) && (front != [] ==> front[|front| - 1].now <= history[|history| - 1].now)
  {
    var front := history[..|history| - 1];
    forall i, j | 0 <= i < j < |front| ensures front[i].now <= front[j].now {
      assert history[i].now <= history[j].now;
    }
    assert front != [] ==> front[|front| - 1] == history[|history| - 2];
  }

  /** What the state remembers answers every later question as the whole history would. */
  ghost predicate Remembers(s: AgentState, requests: seq<int>, blocked: bool, later: int, now: int)
  {
    CountAfter(s.times, later) == CountAfter(requests, later) && (Blocked(s, now) <==> blocked)
  }

  /** A check answers as the requests and the block remembered say, and remembers what is still needed. */
  lemma CheckKeepsMemory(s: AgentState, requests: seq<int>, limit: int, window: int, at: int, later: int, now: int)
    requires at <= now && at - window <= later
    requires CountAfter(s.times, at - window) == CountAfter(requests, at - window)
    requires CountAfter(s.times, later) == CountAfter(requests, later)
    ensures
      var (s', granted) := Check(s, limit, window, at);
      && (granted <==> !Blocked(s, at) && CountAfter(requests, at - window) < limit)
      && Remembers(s', if granted then requests + [at] else requests, Blocked(s, now), later, now)
  {
    RecentCounts(s.times, at - window, later);
    CountAppend(requests, at, later);
    CountAppend(Recent(s.times, at - window), at, later);
  }

  /** One event of the agent's own. */
  lemma EventKeepsMemory(s: AgentState, requests: seq<int>, e: Event, limit: int, window: int, later: int, now: int)
    requires e.now <= now && e.now - window <= later
    requires CountAfter(s.times, e.now - window) == CountAfter(requests, e.now - window)
    requires CountAfter(s.times, later) == CountAfter(requests, later)
    ensures
      var counted := e.Recorded? || (e.Checked? && !Blocked(s, e.now) && CountAfter(requests, e.now - window) < limit);
      var blocked := if e.BlockedFor? then now < e.now + e.duration else !e.Reset? && Blocked(s, now);
      Remembers(Apply(s, e, limit, window), if e.Reset? then [] else if counted then requests + [e.now] else requests,
                blocked, later, now)
  {
    match e
    case Checked(_, at) => CheckKeepsMemory(s, requests, limit, window, at, later, now);
    case Recorded(_, at) =>
      CountAppend(s.times, at, later);
      CountAppend(requests, at, later);
    case _ =>
  }

  lemma MemoryOneMore(history: seq<Event>, agent: string, limit: int, window: int, later: int, now: int)
    requires history != []
    requires
      var front, e := history[..|history| - 1], history[|history| - 1];
      var s, requests := StateAfter(front, agent, limit, window), Requests(front, agent, limit, window);
      && e.now <= now && e.now - window <= later
      && Remembers(s, requests, StillBlocked(front, agent, now), later, now)
      && Remembers(s, requests, StillBlocked(front, agent, e.now), e.now - window, e.now)
    ensures Remembers(StateAfter(history, agent, limit, window), Requests(history, agent, limit, window),
                      StillBlocked(history, agent, now), later, now)
  {
    var front, e := history[..|history| - 1], history[|history| - 1];
    StillBlockedOneMore(history, agent, now);
    if e.agent == agent {
      EventKeepsMemory(StateAfter(front, agent, limit, window), Requests(front, agent, limit, window), e, limit, window, later, now);
    }
  }

  lemma {:induction false} StateRemembers(history: seq<Event>, agent: string, limit: int, window: int, later: int, now: int)
    requires ClockRuns(history)
    requires history != [] ==> history[|history| - 1].now - window <= later && history[|history| - 1].now <= now
    ensures Remembers(StateAfter(history, agent, limit, window), Requests(history, agent, limit, window),
                      StillBlocked(history, agent, now), later, now)
  {
    if history != [] {
      var front, e := history[..|history| - 1], history[|history| - 1];
      FrontClock(history);
      StateRemembers(front, agent, limit, window, later, now);
      StateRemembers(front, agent, limit, window, e.now - window, e.now);
      MemoryOneMore(history, agent, limit, window, later, now);
    }
  }

  /**
   * A request is granted exactly if the agent's latest block since its latest reset is over and fewer than
   * `limit` of its requests since then, recorded or granted, are less than a window old.
   */
  lemma GrantedIff(history: seq<Event>, agent: string, limit: int, window: int, now: int)
    requires ClockRuns(history) && (history != [] ==> history[|history| - 1].now <= now)
    ensures Check(StateAfter(history, agent, limit, window), limit, window, now).1
            <==> && !StillBlocked(history, agent, now)
                 && CountAfter(Requests(history, agent, limit, window), now - window) < limit
  {
    var s, requests := StateAfter(history, agent, limit, window), Requests(history, agent, limit, window);
    StateRemembers(history, agent, limit, window, now - window, now);
    CheckKeepsMemory(s, requests, limit, window, now, now - window, now);
  }
}
