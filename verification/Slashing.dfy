/** Slashing as it updates the tables: single events, and challenges with their payouts. */
module Slashing {
  import opened Collections
  import opened LedgerModel
  import opened LedgerInvariants
  import opened CreditLedger
  import opened Floats

  datatype SlashEvent = SlashEvent(eventId: string, account: string, amount: int)

  // ---------- amounts ----------

  datatype Violation = FailedChallenge | MissedHeartbeat | PolicyViolation

  /** The doubles written 0.01 and 0.10. */
  const HUNDREDTH := 5764607523034235.0 / 576460752303423488.0
  const TENTH := 3602879701896397.0 / 36028797018963968.0

  /** The share of the stake: one percent per severity level, or ten percent growing by a tenth per level. */
  function Percentage(fl: Rounding, v: Violation, severity: int): real
  {
    match v
    case FailedChallenge => 0.5
    case MissedHeartbeat => fl(Min(severity, 10) as real * HUNDREDTH)
    case PolicyViolation => fl(TENTH * fl(1.0 + fl(severity as real / 10.0)))
  }

  /** The exact product. */
  function Share(staked: int, p: real): real
  {
    staked as real * p
  }

  /** `int(staked * percentage)`; for a failed challenge see `HalfIsExact`. */
  function SlashAmount(fl: Rounding, staked: int, v: Violation, severity: int): int
  {
    if v == FailedChallenge then ChallengeSlash(staked) else fl(Share(staked, Percentage(fl, v, severity))).Floor
  }

  lemma HalfIsRepresentable(staked: int)
    requires 0 <= staked <= EXACT
    ensures Representable(Share(staked, 0.5))
  {
    var half := Share(staked, 0.5);
    assert 16.0 * half == (8 * staked) as real;
  }

  /** Half of a stake is computed without rounding. */
  lemma HalfIsExact(fl: Rounding, staked: int)
    requires Rounds(fl) && 0 <= staked <= EXACT
    ensures fl(Share(staked, 0.5)).Floor == ChallengeSlash(staked)
  {
    HalfIsRepresentable(staked);
    ExactlyRounded(fl, Share(staked, 0.5));
    HalfFloor(staked);
  }

  lemma HalfFloor(staked: int)
    requires staked >= 0
    ensures Share(staked, 0.5).Floor == staked / 2
  {
    assert staked == 2 * (staked / 2) + staked % 2;
  }

  lemma PercentageBounds(fl: Rounding, v: Violation, severity: int)
    requires Rounds(fl) && 0 <= severity <= 10
    ensures 0.0 <= Percentage(fl, v, severity) <= 1.0
  {
    assert Representable(0.0) && Representable(1.0) && Representable(2.0);
    match v
    case FailedChallenge =>
    case MissedHeartbeat =>
      Between(fl, 0.0, Min(severity, 10) as real * HUNDREDTH, 1.0);
    case PolicyViolation =>
      var growth := fl(severity as real / 10.0);
      Between(fl, 0.0, severity as real / 10.0, 1.0);
      Between(fl, 1.0, 1.0 + growth, 2.0);
      Between(fl, 0.0, TENTH * fl(1.0 + growth), 1.0);
  }

  lemma ShareBounds(staked: int, p: real, q: real)
    requires staked >= 0 && 0.0 <= p <= q <= 1.0
    ensures 0.0 <= Share(staked, p) <= Share(staked, q) <= staked as real
  {
  }

  /** However the products are rounded, no violation costs more than the stake. */
  lemma SlashWithinStake(fl: Rounding, staked: int, v: Violation, severity: int)
    requires Rounds(fl) && 0 <= staked <= EXACT && 0 <= severity <= 10
    ensures 0 <= SlashAmount(fl, staked, v, severity) <= staked
  {
    if v != FailedChallenge {
      var p := Percentage(fl, v, severity);
      PercentageBounds(fl, v, severity);
      ShareBounds(staked, p, p);
      WholeIsRepresentable(staked);
      Between(fl, 0.0, Share(staked, p), staked as real);
    }
  }

  lemma PercentageMonotone(fl: Rounding, v: Violation, less: int, more: int)
    requires Rounds(fl) && 0 <= less <= more <= 10
    ensures Percentage(fl, v, less) <= Percentage(fl, v, more)
  {
    match v
    case FailedChallenge =>
    case MissedHeartbeat =>
      InOrder(fl, Min(less, 10) as real * HUNDREDTH, Min(more, 10) as real * HUNDREDTH);
    case PolicyViolation =>
      var a, b := fl(less as real / 10.0), fl(more as real / 10.0);
      InOrder(fl, less as real / 10.0, more as real / 10.0);
      InOrder(fl, 1.0 + a, 1.0 + b);
      InOrder(fl, TENTH * fl(1.0 + a), TENTH * fl(1.0 + b));
  }

  /** And none costs less for being more severe. */
  lemma SeverityMonotone(fl: Rounding, staked: int, v: Violation, less: int, more: int)
    requires Rounds(fl) && staked >= 0 && 0 <= less <= more <= 10
    ensures SlashAmount(fl, staked, v, less) <= SlashAmount(fl, staked, v, more)
  {
    if v != FailedChallenge {
      var p, q := Percentage(fl, v, less), Percentage(fl, v, more);
      PercentageBounds(fl, v, less);
      PercentageBounds(fl, v, more);
      PercentageMonotone(fl, v, less, more);
      ShareBounds(staked, p, q);
      InOrder(fl, Share(staked, p), Share(staked, q));
    }
  }

  // ---------- what share is taken ----------

  /** Half of the stake, one percent per level, or ten percent and one more per level. */
  function Percent(v: Violation, severity: int): int
  {
    match v
    case FailedChallenge => 50
    case MissedHeartbeat => severity
    case PolicyViolation => 10 + severity
  }

  /** How far a percentage computed in floating point is off at most. */
  const SLACK := 0.0000000000000001

  /** This many percent of the stake, give or take one credit. */
  predicate WithinOne(amount: int, staked: int, percent: int)
  {
    staked * percent / 100 - 1 <= amount <= staked * percent / 100 + 1
  }

  predicate Near(p: real, percent: int)
  {
    Distance(p, percent as real / 100.0) <= SLACK
  }

  lemma HeartbeatNear(fl: Rounding, severity: int)
    requires Accurate(fl) && 0 <= severity <= 10
    ensures Near(Percentage(fl, MissedHeartbeat, severity), severity)
  {
    WithinUlp(fl, severity as real * HUNDREDTH);
  }

  lemma TriangleInequality(x: real, y: real, z: real)
    ensures Distance(x, z) <= Distance(x, y) + Distance(y, z)
  {
  }

  /** One and a tenth per level. */
  lemma GrowthNear(fl: Rounding, severity: int)
    requires Accurate(fl) && 0 <= severity <= 10
    ensures Distance(fl(1.0 + fl(severity as real / 10.0)), 1.0 + severity as real / 10.0) <= 4.0 * SLACK
  {
    var a := fl(severity as real / 10.0);
    WithinUlp(fl, severity as real / 10.0);
    assert Distance(1.0 + a, 1.0 + severity as real / 10.0) <= 1.2 * SLACK;
    WithinUlp(fl, 1.0 + a);
    TriangleInequality(fl(1.0 + a), 1.0 + a, 1.0 + severity as real / 10.0);
  }

  lemma TenthNear(growth: real, severity: int)
    requires 0 <= severity <= 10 && Distance(growth, 1.0 + severity as real / 10.0) <= 4.0 * SLACK
    ensures Distance(TENTH * growth, (10 + severity) as real / 100.0) <= 0.6 * SLACK
    ensures 0.05 <= TENTH * growth <= 0.3
  {
  }

  lemma PolicyNear(fl: Rounding, severity: int)
    requires Accurate(fl) && 0 <= severity <= 10
    ensures Near(Percentage(fl, PolicyViolation, severity), 10 + severity)
  {
    var growth := fl(1.0 + fl(severity as real / 10.0));
    GrowthNear(fl, severity);
    TenthNear(growth, severity);
    WithinUlp(fl, TENTH * growth);
    TriangleInequality(fl(TENTH * growth), TENTH * growth, (10 + severity) as real / 100.0);
  }

  lemma Times(a: real, x: real, y: real)
    requires a >= 0.0 && x <= y
    ensures a * x <= a * y
  {
  }

  const SCALE := 10000000000000000.0

  lemma Scaled(a: real, e: real, scale: real)
    ensures a * (e * scale) == a * e * scale
  {
  }

  lemma Unscaled(x: real)
    requires x * SCALE <= 1000000000000000.0
    ensures x <= 0.1
  {
  }

  lemma TimesAtMostOne(a: real, t: real)
    requires 0.0 <= a <= 1000000000000000.0 && t <= 1.0
    ensures a * t <= 1000000000000000.0
  {
    Times(a, t, 1.0);
  }

  lemma SmallProductAbove(a: real, e: real)
    requires 0.0 <= a <= 1000000000000000.0 && e <= SLACK
    ensures a * e <= 0.1
  {
    TimesAtMostOne(a, e * SCALE);
    Scaled(a, e, SCALE);
    Unscaled(a * e);
  }

  lemma SmallProduct(a: real, e: real)
    requires 0.0 <= a <= 1000000000000000.0 && -SLACK <= e <= SLACK
    ensures -0.1 <= a * e <= 0.1
  {
    SmallProductAbove(a, e);
    SmallProductAbove(a, -e);
    assert a * -e == -(a * e);
  }

  /** The exact product of the stake and a percentage that is near. */
  lemma ProductNear(staked: int, p: real, percent: int)
    requires 0 <= staked <= EXACT && 0 <= percent <= 20 && Near(p, percent)
    ensures Distance(Share(staked, p), (staked * percent) as real / 100.0) <= 0.1
  {
    var share := percent as real / 100.0;
    assert 0.0 <= staked as real <= 1000000000000000.0;
    SmallProduct(staked as real, p - share);
    assert Share(staked, p) == staked as real * share + staked as real * (p - share);
    assert staked as real * share == (staked * percent) as real / 100.0;
  }

  /** It is nothing, or not too small to be rounded accurately. */
  lemma ProductNormal(staked: int, p: real)
    requires staked >= 0 && (p == 0.0 || p >= NORMAL)
    ensures Normal(Share(staked, p))
  {
    if staked > 0 && p > 0.0 {
      Times(p, 1.0, staked as real);
    }
  }

  lemma ShareNear(fl: Rounding, staked: int, p: real, percent: int)
    requires Accurate(fl) && 0 <= staked <= EXACT && 0 <= percent <= 20 && (p == 0.0 || p >= NORMAL) && Near(p, percent)
    ensures WithinOne(fl(Share(staked, p)).Floor, staked, percent)
  {
    ProductNear(staked, p, percent);
    ProductNormal(staked, p);
    WithinUlp(fl, Share(staked, p));
    HundredthsBound(staked, percent);
    RoundedNear(staked * percent, Share(staked, p), fl(Share(staked, p)));
  }

  lemma HundredthsBound(staked: int, percent: int)
    requires 0 <= staked <= EXACT && 0 <= percent <= 20
    ensures 0 <= staked * percent <= 20 * EXACT
  {
    assert staked * percent <= staked * 20;
  }

  lemma RoundedNear(hundredths: int, product: real, rounded: real)
    requires 0 <= hundredths <= 20 * EXACT
    requires Distance(product, hundredths as real / 100.0) <= 0.1 && Distance(rounded, product) <= product * HALF_ULP
    ensures hundredths / 100 - 1 <= rounded.Floor <= hundredths / 100 + 1
  {
    HundredthsFloor(hundredths);
    assert product <= 1000000000000000.0;
    assert product * HALF_ULP == product / 9007199254740992.0 <= 0.2;
  }

  lemma HundredthsFloor(n: int)
    ensures (n / 100) as real <= n as real / 100.0 < (n / 100 + 1) as real
  {
  }

  /** A percentage near a whole one is nothing, or not too small. */
  lemma NearNormal(p: real, percent: int)
    requires 1 <= percent && Near(p, percent)
    ensures p >= NORMAL
  {
  }

  lemma HeartbeatPercent(fl: Rounding, staked: int, severity: int)
    requires Rounds(fl) && Accurate(fl) && 0 <= staked <= EXACT && 0 <= severity <= 10
    ensures WithinOne(fl(Share(staked, Percentage(fl, MissedHeartbeat, severity))).Floor, staked, severity)
  {
    var p := Percentage(fl, MissedHeartbeat, severity);
    HeartbeatNear(fl, severity);
    if severity == 0 {
      assert Representable(0.0);
      ExactlyRounded(fl, 0.0);
    } else {
      NearNormal(p, severity);
    }
    ShareNear(fl, staked, p, severity);
  }

  lemma PolicyPercent(fl: Rounding, staked: int, severity: int)
    requires Rounds(fl) && Accurate(fl) && 0 <= staked <= EXACT && 0 <= severity <= 10
    ensures WithinOne(fl(Share(staked, Percentage(fl, PolicyViolation, severity))).Floor, staked, 10 + severity)
  {
    PolicyNear(fl, severity);
    NearNormal(Percentage(fl, PolicyViolation, severity), 10 + severity);
    ShareNear(fl, staked, Percentage(fl, PolicyViolation, severity), 10 + severity);
  }

  /** The amount is the percentage that the rules name, of the whole stake, to within one credit. */
  lemma SlashPercent(fl: Rounding, staked: int, v: Violation, severity: int)
    requires Rounds(fl) && Accurate(fl) && 0 <= staked <= EXACT && 0 <= severity <= 10
    ensures WithinOne(SlashAmount(fl, staked, v, severity), staked, Percent(v, severity))
    ensures v == FailedChallenge ==> SlashAmount(fl, staked, v, severity) == staked / 2
  {
    match v
    case FailedChallenge =>
    case MissedHeartbeat =>
      HeartbeatPercent(fl, staked, severity);
    case PolicyViolation =>
      PolicyPercent(fl, staked, severity);
  }

  // ---------- the rules ----------

  const MAX_SEVERITY := 10

  class SlashingRules {
    const stakes: StakeManager
    const db: Database
    const fl: Rounding

    constructor (stakes: StakeManager, fl: Rounding)
      ensures this.stakes == stakes && this.db == stakes.db && this.fl == fl
    {
      this.stakes, this.db, this.fl := stakes, stakes.db, fl;
    }

    /** None for a severity outside 0-10; otherwise a share of the stake. */
    method CalculateSlashAmount(account: string, v: Violation, severity: int) returns (amount: Option<int>)
      requires stakes.db == db
      ensures amount.None? <==> severity < 0 || severity > 10
      ensures amount.Some? ==> amount.value == SlashAmount(fl, ColumnsOf(db.accounts, account).locked, v, severity)
    {
      if severity < 0 || severity > 10 {
        return None;
      }
      var staked := stakes.GetStakedAmount(account);
      if v == FailedChallenge {
        return Some(ChallengeSlash(staked));
      }
      amount := Some(fl(Share(staked, Percentage(fl, v, severity))).Floor);
    }

    method ExecuteSlash(event: SlashEvent, now: int) returns (r: Result<(), LedgerError>)
      requires db.Valid() && stakes.db == db
      modifies db
      ensures db.Valid()
      ensures (db.State(), r) == ExecuteSlashStep(old(db.State()), event.eventId, event.account, event.amount, now)
    {
      ExecuteSlashKeepsBasic(db.State(), event.eventId, event.account, event.amount, now);
      var staked := stakes.GetStakedAmount(event.account);
      var actual := Min(staked, event.amount);
      var saved, savedOps := db.accounts, db.ops;
      if actual > 0 {
        var ok := db.UpdateAccount(event.account, Columns(0, -actual, 0));
        if !ok {
          return Err(CheckFailed);
        }
        db.Log(Entry(event.account, Slash(event.eventId), actual, now));
      }
      if event.eventId in db.slashes {
        db.accounts, db.ops := saved, savedOps;
        return Err(DuplicateKey);
      }
      db.slashes := db.slashes[event.eventId := SlashRow(event.account, actual)];
      assert savedOps + [] == savedOps;
      r := Ok(());
    }

    /** Half of one verifier's stake. */
    method SlashOne(verifier: string, eventId: string, now: int) returns (r: Result<int, LedgerError>)
      requires db.Valid() && stakes.db == db
      modifies db
      ensures db.Valid()
      ensures
        var amount := ChallengeSlash(ColumnsOf(old(db.accounts), verifier).locked);
        var (after, executed) := ExecuteSlashStep(old(db.State()), eventId, verifier, amount, now);
        db.State() == after && r == (match executed case Ok(_) => Ok(amount) case Err(e) => Err(e))
    {
      var amount := CalculateSlashAmount(verifier, FailedChallenge, MAX_SEVERITY);
      var executed := ExecuteSlash(SlashEvent(eventId, verifier, amount.value), now);
      r := if executed.Ok? then Ok(amount.value) else Err(executed.error);
    }

    /** Half of each verifier's stake, one transaction after the other. */
    method SlashEach(verifiers: seq<string>, newId: nat -> string, now: int)
      returns (r: Result<int, LedgerError>, events: seq<SlashEvent>)
      requires db.Valid() && stakes.db == db
      modifies db
      ensures db.Valid()
      ensures (db.State(), r) == SlashAll(old(db.State()), verifiers, newId, now)
      ensures r.Ok? ==> events == EventsOf(old(db.State()), verifiers, newId, now)
    {
      ghost var start := db.State();
      var total := 0;
      events := [];
      for i := 0 to |verifiers|
        invariant db.Valid() && SlashedUpTo(start, verifiers, newId, now, i, db.State(), total, events)
      {
        OneMoreSlash(start, verifiers, newId, now, i, db.State(), total, events);
        var slashed := SlashOne(verifiers[i], newId(i), now);
        if slashed.Err? {
          assert SlashAll(start, verifiers, newId, now) == (db.State(), Err(slashed.error));
          return Err(slashed.error), events;
        }
        events := events + [SlashEvent(newId(i), verifiers[i], slashed.value)];
        total := total + slashed.value;
      }
      AllSlashed(start, verifiers, newId, now, db.State(), total, events);
      r := Ok(total);
    }

    method PayReward(account: string, amount: int, now: int)
      modifies db
      ensures db.State() == Reward(old(db.State()), account, amount, now)
    {
      if account in db.accounts {
        db.accounts := db.accounts[account := Plus(db.accounts[account], Columns(amount, 0, 0))];
      }
      db.Log(Entry(account, SlashReward, amount, now));
    }

    method PayHonest(honest: seq<string>, total: int, now: int)
      requires honest != []
      modifies db
      ensures db.State() == RewardHonest(old(db.State()), honest, total, |honest|, now)
    {
      var share, remainder := total / |honest|, total % |honest|;
      for i := 0 to |honest|
        invariant db.State() == RewardHonest(old(db.State()), honest, total, i, now)
      {
        var payout := share + if i == 0 then remainder else 0;
        PayReward(honest[i], payout, now);
      }
    }

    method SlashVerifiers(verifiers: seq<string>, challenger: string, honest: seq<string>,
                          attestors: Option<set<string>>, newId: nat -> string, now: int)
      returns (r: Result<SlashSummary, LedgerError>, events: seq<SlashEvent>)
      requires db.Valid() && stakes.db == db
      modifies db
      ensures db.Valid()
      ensures (db.State(), r) == SlashVerifiersStep(old(db.State()), verifiers, challenger, honest, attestors, newId, now)
      ensures r.Ok? ==> events == EventsOf(old(db.State()), verifiers, newId, now)
    {
      SlashVerifiersKeepsBasic(db.State(), verifiers, challenger, honest, attestors, newId, now);
      if verifiers == [] {
        return Ok(SlashSummary(0, 0, 0, 0)), [];
      }
      if attestors.None? {
        return Err(MissingAttestationLog), [];
      }
      if exists i :: 0 <= i < |honest| && honest[i] !in attestors.value {
        return Err(UnverifiedHonestVerifiers), [];
      }
      var slashed;
      slashed, events := SlashEach(verifiers, newId, now);
      if slashed.Err? {
        return Err(slashed.error), [];
      }
      var summary := Distribute(slashed.value, challenger, honest, now);
      r := Ok(summary);
    }

    /** Half to the challenger, two fifths to the honest verifiers, the rest to nobody. */
    method Distribute(total: int, challenger: string, honest: seq<string>, now: int) returns (summary: SlashSummary)
      modifies db
      ensures summary == Split(total)
      ensures db.State() == PayOut(old(db.State()), challenger, honest, summary, now)
    {
      var challengerPayout := total * 50 / 100;
      var honestTotal := total * 40 / 100;
      var burned := total - challengerPayout - honestTotal;
      if challengerPayout > 0 {
        PayReward(challenger, challengerPayout, now);
      }
      if honestTotal > 0 && honest != [] {
        PayHonest(honest, honestTotal, now);
      }
      summary := SlashSummary(total, challengerPayout, honestTotal, burned);
    }
  }

  /** The events that `slash_verifiers` returns, one for each verifier. */
  function EventsOf(db: Db, verifiers: seq<string>, newId: nat -> string, at: int): seq<SlashEvent>
  {
    if verifiers == [] then []
    else
      var n := |verifiers| - 1;
      var before := SlashAll(db, verifiers[..n], newId, at).0;
      EventsOf(db, verifiers[..n], newId, at)
      + [SlashEvent(newId(n), verifiers[n], ChallengeSlash(ColumnsOf(before.accounts, verifiers[n]).locked))]
  }

  /** The tables, the total and the events after the first `i` slashes, all of which went through. */
  ghost predicate SlashedUpTo(start: Db, verifiers: seq<string>, newId: nat -> string, at: int, i: nat,
                              db: Db, total: int, events: seq<SlashEvent>)
  {
    && i <= |verifiers| && SlashAll(start, verifiers[..i], newId, at) == (db, Ok(total))
    && events == EventsOf(start, verifiers[..i], newId, at)
  }

  lemma AllSlashed(start: Db, verifiers: seq<string>, newId: nat -> string, at: int, db: Db, total: int,
                   events: seq<SlashEvent>)
    requires SlashedUpTo(start, verifiers, newId, at, |verifiers|, db, total, events)
    ensures SlashAll(start, verifiers, newId, at) == (db, Ok(total)) && events == EventsOf(start, verifiers, newId, at)
  {
    assert verifiers[..|verifiers|] == verifiers;
  }

  /** The slash of verifier `i`, after those before it. */
  lemma NextSlash(start: Db, verifiers: seq<string>, newId: nat -> string, at: int, i: nat, db: Db, total: int)
    requires i < |verifiers| && SlashAll(start, verifiers[..i], newId, at) == (db, Ok(total))
    ensures
      var amount := ChallengeSlash(ColumnsOf(db.accounts, verifiers[i]).locked);
      var (after, r) := ExecuteSlashStep(db, newId(i), verifiers[i], amount, at);
      SlashAll(start, verifiers[..i + 1], newId, at) == (after, match r case Ok(_) => Ok(total + amount) case Err(e) => Err(e))
  {
    var more := verifiers[..i + 1];
    assert more[..i] == verifiers[..i] && more[i] == verifiers[i] && |more| - 1 == i;
  }

  lemma NextEvent(start: Db, verifiers: seq<string>, newId: nat -> string, at: int, i: nat)
    requires i < |verifiers|
    ensures
      var db := SlashAll(start, verifiers[..i], newId, at).0;
      EventsOf(start, verifiers[..i + 1], newId, at)
      == EventsOf(start, verifiers[..i], newId, at)
         + [SlashEvent(newId(i), verifiers[i], ChallengeSlash(ColumnsOf(db.accounts, verifiers[i]).locked))]
  {
    var more := verifiers[..i + 1];
    assert more[..i] == verifiers[..i] && more[i] == verifiers[i] && |more| - 1 == i;
  }

  lemma OneMoreSlash(start: Db, verifiers: seq<string>, newId: nat -> string, at: int, i: nat,
                     db: Db, total: int, events: seq<SlashEvent>)
    requires i < |verifiers| && SlashedUpTo(start, verifiers, newId, at, i, db, total, events)
    ensures
      var amount := ChallengeSlash(ColumnsOf(db.accounts, verifiers[i]).locked);
      match ExecuteSlashStep(db, newId(i), verifiers[i], amount, at)
      case (after, Ok(_)) =>
        SlashedUpTo(start, verifiers, newId, at, i + 1, after, total + amount,
                    events + [SlashEvent(newId(i), verifiers[i], amount)])
      case (after, Err(e)) => SlashAll(start, verifiers, newId, at) == (after, Err(e))
  {
    NextSlash(start, verifiers, newId, at, i, db, total);
    NextEvent(start, verifiers, newId, at, i);
    if SlashAll(start, verifiers[..i + 1], newId, at).1.Err? {
      SlashAllFails(start, verifiers, newId, at, i + 1);
    }
  }

  function EventTotal(events: seq<SlashEvent>): int
  {
    if events == [] then 0 else EventTotal(events[..|events| - 1]) + events[|events| - 1].amount
  }

  /** The table of slashes has a row for the event, with the same account and amount. */
  predicate Recorded(slashes: map<string, SlashRow>, e: SlashEvent)
  {
    e.eventId in slashes && slashes[e.eventId] == SlashRow(e.account, e.amount)
  }

  lemma ExecuteSlashRecords(db: Db, e: SlashEvent, at: int)
    requires Basic(db) && e.amount == ChallengeSlash(ColumnsOf(db.accounts, e.account).locked)
    ensures
      var (after, r) := ExecuteSlashStep(db, e.eventId, e.account, e.amount, at);
      r.Ok? ==> Recorded(after.slashes, e) && forall x :: Recorded(db.slashes, x) ==> Recorded(after.slashes, x)
  {
  }

  /** Uninterrupted slashes that all go through: the events are what is recorded, and add up to the total. */
  lemma {:induction false} EventsRecorded(db: Db, verifiers: seq<string>, newId: nat -> string, at: int)
    requires Basic(db) && SlashAll(db, verifiers, newId, at).1.Ok?
    ensures
      var (after, r) := SlashAll(db, verifiers, newId, at);
      var events := EventsOf(db, verifiers, newId, at);
      && |events| == |verifiers| && EventTotal(events) == r.value
      && forall e :: e in events ==> Recorded(after.slashes, e)
  {
    if verifiers != [] {
      var n := |verifiers| - 1;
      EventsRecorded(db, verifiers[..n], newId, at);
      SlashAllKeepsBasic(db, verifiers[..n], newId, at);
      var before := SlashAll(db, verifiers[..n], newId, at).0;
      var e := SlashEvent(newId(n), verifiers[n], ChallengeSlash(ColumnsOf(before.accounts, verifiers[n]).locked));
      ExecuteSlashRecords(before, e, at);
      EventTotalAppend(EventsOf(db, verifiers[..n], newId, at), e);
    }
  }

  /** One event for each verifier, in order. */
  lemma {:induction false} EventsInOrder(db: Db, verifiers: seq<string>, newId: nat -> string, at: int)
    ensures
      var events := EventsOf(db, verifiers, newId, at);
      && |events| == |verifiers|
      && forall i :: 0 <= i < |events| ==> events[i].eventId == newId(i) && events[i].account == verifiers[i]
  {
    if verifiers != [] {
      EventsInOrder(db, verifiers[..|verifiers| - 1], newId, at);
    }
  }

  lemma EventTotalAppend(events: seq<SlashEvent>, e: SlashEvent)
    ensures EventTotal(events + [e]) == EventTotal(events) + e.amount
  {
    assert (events + [e])[..|events|] == events;
  }

  /** After an error the remaining verifiers are not looked at. */
  lemma {:induction false} SlashAllFails(db: Db, verifiers: seq<string>, newId: nat -> string, at: int, n: nat)
    requires n <= |verifiers| && SlashAll(db, verifiers[..n], newId, at).1.Err?
    ensures SlashAll(db, verifiers, newId, at) == SlashAll(db, verifiers[..n], newId, at)
  {
    if n == |verifiers| {
      assert verifiers[..n] == verifiers;
    } else {
      var front := verifiers[..|verifiers| - 1];
      assert front[..n] == verifiers[..n];
      SlashAllFails(db, front, newId, at, n);
    }
  }
}
