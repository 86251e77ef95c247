/** Duplicate suppression on the hybrid bus: an LRU cache of message ids. */
module Deduplication {
  import opened Collections

  function Without(s: seq<string>, x: string): seq<string>
  {
    if s == [] then []
    else Without(s[..|s| - 1], x) + (if s[|s| - 1] == x then [] else [s[|s| - 1]])
  }

  function Tail(s: seq<string>, n: nat): seq<string>
  {
    if |s| <= n then s else s[|s| - n..]
  }

  /** Cache contents, oldest first, after one sighting, and whether the id was new to the cache. */
  function AddTo(order: seq<string>, id: string, maxSize: nat): (seq<string>, bool)
  {
    if id in order then (Without(order, id) + [id], false) else (Tail(order + [id], maxSize), true)
  }

  /** The stamps are those of the ids in the list, each listed once. */
  ghost predicate Indexes(stamps: map<string, int>, order: seq<string>)
  {
    NoRepeats(order) && forall id :: id in stamps <==> id in order
  }

  lemma DropOldest(stamps: map<string, int>, order: seq<string>)
    requires Indexes(stamps, order) && order != []
    ensures Indexes(stamps - {order[0]}, order[1..])
  {
    assert order == [order[0]] + order[1..];
  }

  /** An insertion-ordered dictionary from message id to first-seen time, bounded in size. */
  class MessageCache {
    const maxSize: nat
    const ttl: int
    var order: seq<string>
    var stamps: map<string, int>

    ghost predicate Valid()
      reads this
    {
      && NoRepeats(order) && |order| <= maxSize
      && forall id :: id in stamps <==> id in order
    }

    constructor (maxSize: nat, ttl: int)
      ensures Valid() && this.maxSize == maxSize && this.ttl == ttl && order == []
    {
      this.maxSize, this.ttl := maxSize, ttl;
      order, stamps := [], map[];
    }

    method Add(id: string, now: int) returns (added: bool)
      requires Valid()
      modifies this
      ensures Valid()
      ensures (order, added) == AddTo(old(order), id, maxSize)
      ensures forall x :: x in stamps && (x != id || !added) ==> x in old(stamps) && stamps[x] == old(stamps)[x]
      ensures added && id in stamps ==> stamps[id] == now
    {
      if id in stamps {
        WithoutFacts(order, id);
        AppendNew(Without(order, id), id);
        order := Without(order, id) + [id];
        return false;
      }
      AppendNew(order, id);
      order := order + [id];
      stamps := stamps[id := now];
      Evict();
      added := true;
    }

    /** Removes from the old end until the size fits. */
    method Evict()
      requires NoRepeats(order) && forall id :: id in stamps <==> id in order
      modifies this
      ensures Valid() && order == Tail(old(order), maxSize)
      ensures forall id :: id in stamps ==> id in old(stamps) && stamps[id] == old(stamps)[id]
    {
      ghost var full := order;
      while |order| > maxSize
        invariant |order| <= |full| && order == full[|full| - |order|..]
        invariant |order| >= maxSize || order == full
        invariant Indexes(stamps, order)
        invariant forall x :: x in stamps ==> x in old(stamps) && stamps[x] == old(stamps)[x]
        decreases |order|
      {
        DropOldest(stamps, order);
        stamps := stamps - {order[0]};
        order := order[1..];
      }
    }

    method Cleanup(now: int)
      requires Valid()
      modifies this
      ensures Valid()
      ensures order == Unexpired(old(order), old(stamps), now - ttl)
      ensures forall id :: id in order <==> id in old(order) && old(stamps)[id] >= now - ttl
      ensures forall a, b :: Before(order, a, b) <==> a in order && b in order && Before(old(order), a, b)
      ensures forall id :: id in stamps ==> id in old(stamps) && stamps[id] == old(stamps)[id]
    {
      UnexpiredOnce(order, stamps, now - ttl);
      UnexpiredFacts(order, stamps, now - ttl);
      order := Unexpired(order, stamps, now - ttl);
      stamps := map id | id in stamps && id in order :: stamps[id];
    }
  }

  predicate Expired(stamps: map<string, int>, id: string, cutoff: int)
  {
    id in stamps && stamps[id] < cutoff
  }

  /** The entries not first seen before the cutoff. */
  function Unexpired(order: seq<string>, stamps: map<string, int>, cutoff: int): seq<string>
  {
    if order == [] then []
    else
      var id := order[|order| - 1];
      Unexpired(order[..|order| - 1], stamps, cutoff) + (if Expired(stamps, id, cutoff) then [] else [id])
  }

  lemma UnexpiredLast(order: seq<string>, stamps: map<string, int>, cutoff: int)
    requires order != []
    ensures
      var rest, last := Unexpired(order[..|order| - 1], stamps, cutoff), order[|order| - 1];
      Unexpired(order, stamps, cutoff) == if Expired(stamps, last, cutoff) then rest else rest + [last]
  {
    var rest := Unexpired(order[..|order| - 1], stamps, cutoff);
    assert rest + [] == rest;
  }

  lemma {:induction false} UnexpiredMember(order: seq<string>, stamps: map<string, int>, cutoff: int, id: string)
    ensures id in Unexpired(order, stamps, cutoff) <==> id in order && !Expired(stamps, id, cutoff)
  {
    if order != [] {
      FrontAndLast(order);
      UnexpiredLast(order, stamps, cutoff);
      UnexpiredMember(order[..|order| - 1], stamps, cutoff, id);
    }
  }

  /** `a` is listed somewhere before `b`. */
  ghost predicate Before(s: seq<string>, a: string, b: string)
  {
    exists i, j :: 0 <= i < j < |s| && s[i] == a && s[j] == b
  }

  lemma BeforeAppend(s: seq<string>, x: string, a: string, b: string)
    ensures Before(s + [x], a, b) <==> Before(s, a, b) || (a in s && b == x)
  {
    var s' := s + [x];
    if i, j :| 0 <= i < j < |s'| && s'[i] == a && s'[j] == b {
      assert s[i] == a;
      assert j < |s| ==> s[j] == b;
    }
    if i, j :| 0 <= i < j < |s| && s[i] == a && s[j] == b {
      assert s'[i] == a && s'[j] == b;
    }
    if a in s && b == x {
      var i :| 0 <= i < |s| && s[i] == a;
      assert s'[i] == a && s'[|s|] == b;
    }
  }

  /** What is kept stays in order. */
  lemma {:induction false} UnexpiredOrder(order: seq<string>, stamps: map<string, int>, cutoff: int, a: string, b: string)
    ensures Before(Unexpired(order, stamps, cutoff), a, b)
            <==> Before(order, a, b) && !Expired(stamps, a, cutoff) && !Expired(stamps, b, cutoff)
  {
    if order != [] {
      var front, last := order[..|order| - 1], order[|order| - 1];
      FrontAndLast(order);
      UnexpiredLast(order, stamps, cutoff);
      UnexpiredOrder(front, stamps, cutoff, a, b);
      UnexpiredMember(front, stamps, cutoff, a);
      BeforeAppend(front, last, a, b);
      BeforeAppend(Unexpired(front, stamps, cutoff), last, a, b);
    }
  }

  lemma UnexpiredFacts(order: seq<string>, stamps: map<string, int>, cutoff: int)
    ensures forall id :: id in Unexpired(order, stamps, cutoff) <==> id in order && !Expired(stamps, id, cutoff)
    ensures
      var kept := Unexpired(order, stamps, cutoff);
      forall a, b :: Before(kept, a, b) <==> a in kept && b in kept && Before(order, a, b)
  {
    forall id ensures id in Unexpired(order, stamps, cutoff) <==> id in order && !Expired(stamps, id, cutoff) {
      UnexpiredMember(order, stamps, cutoff, id);
    }
    forall a, b
      ensures Before(Unexpired(order, stamps, cutoff), a, b)
              <==> Before(order, a, b) && !Expired(stamps, a, cutoff) && !Expired(stamps, b, cutoff)
    {
      UnexpiredOrder(order, stamps, cutoff, a, b);
    }
  }

  lemma {:induction false} UnexpiredOnce(order: seq<string>, stamps: map<string, int>, cutoff: int)
    requires NoRepeats(order)
    ensures NoRepeats(Unexpired(order, stamps, cutoff)) && |Unexpired(order, stamps, cutoff)| <= |order|
  {
    if order != [] {
      var front, last := order[..|order| - 1], order[|order| - 1];
      FrontNoRepeats(order);
      UnexpiredLast(order, stamps, cutoff);
      UnexpiredOnce(front, stamps, cutoff);
      if !Expired(stamps, last, cutoff) {
        UnexpiredMember(front, stamps, cutoff, last);
        AppendNew(Unexpired(front, stamps, cutoff), last);
      }
    }
  }

  /** The bus's receiving side: the user handler runs for ids the cache did not hold. */
  class HybridBus {
    const cache: MessageCache
    var handled: seq<string>

    constructor (cache: MessageCache)
      ensures this.cache == cache && handled == []
    {
      this.cache := cache;
      handled := [];
    }

    method DeduplicatedHandler(msgId: string, now: int)
      requires cache.Valid()
      modifies this, cache
      ensures cache.Valid()
      ensures
        var (order, added) := AddTo(old(cache.order), msgId, cache.maxSize);
        cache.order == order && handled == old(handled) + if added then [msgId] else []
    {
      var added := cache.Add(msgId, now);
      if !added {
        return;
      }
      handled := handled + [msgId];
    }
  }

  // ---------- whole histories ----------

  /** Distinct ids of a history, the least recently seen first. */
  function Recency(history: seq<string>): seq<string>
  {
    if history == [] then []
    else
      var last := history[|history| - 1];
      Without(Recency(history[..|history| - 1]), last) + [last]
  }

  function CacheAfter(history: seq<string>, maxSize: nat): seq<string>
  {
    if history == [] then []
    else AddTo(CacheAfter(history[..|history| - 1], maxSize), history[|history| - 1], maxSize).0
  }

  lemma {:induction false} WithoutMembers(s: seq<string>, x: string)
    ensures forall y :: y in Without(s, x) <==> y in s && y != x
    ensures x !in s ==> Without(s, x) == s
  {
    if s != [] {
      var front := s[..|s| - 1];
      assert s == front + [s[|s| - 1]];
      WithoutMembers(front, x);
    }
  }

  lemma AppendNew(s: seq<string>, x: string)
    requires NoRepeats(s) && x !in s
    ensures NoRepeats(s + [x])
  {
  }

  lemma {:induction false} WithoutFacts(s: seq<string>, x: string)
    requires NoRepeats(s)
    ensures NoRepeats(Without(s, x)) && |Without(s, x)| == |s| - (if x in s then 1 else 0)
    ensures forall y :: y in Without(s, x) <==> y in s && y != x
  {
    WithoutMembers(s, x);
    if s != [] {
      var front, last := s[..|s| - 1], s[|s| - 1];
      FrontAndLast(s);
      FrontNoRepeats(s);
      WithoutFacts(front, x);
      if last != x {
        AppendNew(Without(front, x), last);
      }
    }
  }

  lemma {:induction false} WithoutConcat(s: seq<string>, t: seq<string>, x: string)
    ensures Without(s + t, x) == Without(s, x) + Without(t, x)
  {
    if t == [] {
      assert s + t == s;
    } else {
      assert (s + t)[..|s + t| - 1] == s + t[..|t| - 1];
      WithoutConcat(s, t[..|t| - 1], x);
    }
  }

  lemma {:induction false} RecencyFacts(history: seq<string>)
    ensures NoRepeats(Recency(history))
    ensures forall x :: x in Recency(history) <==> x in history
  {
    if history != [] {
      var front := history[..|history| - 1];
      assert history == front + [history[|history| - 1]];
      RecencyFacts(front);
      WithoutFacts(Recency(front), history[|history| - 1]);
    }
  }

  lemma DisjointParts(dropped: seq<string>, kept: seq<string>)
    requires NoRepeats(dropped + kept)
    ensures NoRepeats(kept) && forall x :: x in kept ==> x !in dropped
  {
    var all := dropped + kept;
    assert forall i :: 0 <= i < |kept| ==> kept[i] == all[|dropped| + i];
    assert forall j :: 0 <= j < |dropped| ==> dropped[j] == all[j];
  }

  lemma TailOfConcat(s: seq<string>, t: seq<string>, n: nat)
    requires |t| >= n
    ensures Tail(s + t, n) == Tail(t, n)
  {
    assert (s + t)[|s + t| - n..] == t[|t| - n..];
  }

  /** A sighting acts on the whole recency list as the cache acts on its end. */
  lemma AddToTail(dropped: seq<string>, kept: seq<string>, id: string, maxSize: nat)
    requires NoRepeats(dropped + kept)
    requires |kept| == maxSize || (|kept| < maxSize && dropped == [])
    ensures AddTo(kept, id, maxSize).0 == Tail(Without(dropped + kept, id) + [id], maxSize)
  {
    DisjointParts(dropped, kept);
    WithoutConcat(dropped, kept, id);
    var dropped', kept' := Without(dropped, id), Without(kept, id);
    assert dropped' + kept' + [id] == dropped' + (kept' + [id]);
    if id in kept {
      WithoutMembers(dropped, id);
      WithoutFacts(kept, id);
    } else {
      WithoutMembers(kept, id);
    }
    if |kept' + [id]| >= maxSize {
      TailOfConcat(dropped', kept' + [id], maxSize);
    } else {
      assert dropped' + (kept' + [id]) == kept' + [id];
    }
  }

  /** The cache holds precisely the `maxSize` most recently seen distinct ids, in recency order. */
  lemma {:induction false} ExactRecency(history: seq<string>, maxSize: nat)
    ensures CacheAfter(history, maxSize) == Tail(Recency(history), maxSize)
  {
    if history != [] {
      var front := history[..|history| - 1];
      ExactRecency(front, maxSize);
      RecencyFacts(front);
      var all, kept := Recency(front), Tail(Recency(front), maxSize);
      var dropped := all[..|all| - |kept|];
      assert all == dropped + kept;
      AddToTail(dropped, kept, history[|history| - 1], maxSize);
    }
  }

  /** Of two caches fed the same ids, the smaller is the recent end of the larger. */
  lemma LargerCacheContainsSmaller(history: seq<string>, small: nat, large: nat)
    requires small <= large
    ensures CacheAfter(history, small) == Tail(CacheAfter(history, large), small)
  {
    ExactRecency(history, small);
    ExactRecency(history, large);
    TailOfTail(Recency(history), small, large);
  }

  lemma TailOfTail(s: seq<string>, small: nat, large: nat)
    requires small <= large
    ensures Tail(Tail(s, large), small) == Tail(s, small)
  {
  }

  /** What follows the last `x` in `s`; all of `s` if there is none. */
  function Since(s: seq<string>, x: string): seq<string>
  {
    if s == [] || s[|s| - 1] == x then []
    else Since(s[..|s| - 1], x) + [s[|s| - 1]]
  }

  function Distinct(s: seq<string>): set<string>
  {
    set x | x in s
  }

  lemma SinceAppend(s: seq<string>, last: string, x: string)
    ensures Since(s + [last], x) == if last == x then [] else Since(s, x) + [last]
  {
    assert (s + [last])[..|s|] == s;
  }

  lemma WithoutAppend(s: seq<string>, last: string, y: string)
    ensures Without(s + [last], y) == if last == y then Without(s, y) else Without(s, y) + [last]
  {
    assert (s + [last])[..|s|] == s;
    assert Without(s, y) + [] == Without(s, y);
  }

  lemma SinceWithoutStep(front: seq<string>, last: string, x: string, y: string)
    requires x != y && Since(Without(front, y), x) == Without(Since(front, x), y)
    ensures Since(Without(front + [last], y), x) == Without(Since(front + [last], x), y)
  {
    WithoutAppend(front, last, y);
    SinceAppend(front, last, x);
    if last != y {
      SinceAppend(Without(front, y), last, x);
    }
    if last != x {
      WithoutAppend(Since(front, x), last, y);
    }
  }

  lemma {:induction false} SinceWithout(s: seq<string>, x: string, y: string)
    requires x != y
    ensures Since(Without(s, y), x) == Without(Since(s, x), y)
  {
    if s != [] {
      var front, last := s[..|s| - 1], s[|s| - 1];
      SinceWithout(front, x, y);
      SinceWithoutStep(front, last, x, y);
      assert s == front + [last];
    }
  }

  lemma DistinctAppend(s: seq<string>, last: string)
    ensures Distinct(s + [last]) == Distinct(s) + {last}
  {
  }

  lemma DistinctWithout(s: seq<string>, y: string)
    ensures Distinct(Without(s, y)) == Distinct(s) - {y}
  {
    WithoutMembers(s, y);
  }

  /** Counting distinct ids since the last sighting: the recency list gives the same set. */
  lemma {:induction false} SinceInRecency(history: seq<string>, x: string)
    ensures Distinct(Since(Recency(history), x)) == Distinct(Since(history, x))
  {
    if history != [] {
      var front, last := history[..|history| - 1], history[|history| - 1];
      var older := Without(Recency(front), last);
      SinceAppend(older, last, x);
      if last != x {
        SinceInRecency(front, x);
        SinceWithout(Recency(front), x, last);
        DistinctWithout(Since(Recency(front), x), last);
        DistinctAppend(Since(front, x), last);
        DistinctAppend(Since(older, x), last);
      }
    }
  }

  /** In a list without repeats, being among the last `n` means having fewer than `n` successors. */
  lemma InTailIff(s: seq<string>, x: string, n: nat)
    requires NoRepeats(s) && x in s
    ensures |Distinct(Since(s, x))| == |Since(s, x)|
    ensures x in Tail(s, n) <==> |Since(s, x)| < n
  {
    SinceIsSuffix(s, x);
    DistinctSize(Since(s, x));
    TailPosition(s, |s| - 1 - |Since(s, x)|, n);
  }

  lemma {:induction false} SinceIsSuffix(s: seq<string>, x: string)
    requires x in s
    ensures |Since(s, x)| < |s|
    ensures s[|s| - 1 - |Since(s, x)|] == x && s[|s| - |Since(s, x)|..] == Since(s, x)
  {
    var front, last := s[..|s| - 1], s[|s| - 1];
    if last != x {
      assert s == front + [last];
      SinceIsSuffix(front, x);
    }
  }

  lemma {:induction false} DistinctSize(s: seq<string>)
    requires NoRepeats(s)
    ensures |Distinct(s)| == |s|
  {
    if s != [] {
      var front, last := s[..|s| - 1], s[|s| - 1];
      FrontAndLast(s);
      FrontNoRepeats(s);
      DistinctSize(front);
      DistinctAppend(front, last);
    }
  }

  lemma TailPosition(s: seq<string>, k: nat, n: nat)
    requires NoRepeats(s) && k < |s|
    ensures s[k] in Tail(s, n) <==> |s| - 1 - k < n
  {
    if |s| > n {
      if s[k] in Tail(s, n) {
        var j :| 0 <= j < n && s[|s| - n..][j] == s[k];
        assert s[|s| - n + j] == s[k];
      }
      if k >= |s| - n {
        assert s[|s| - n..][k - (|s| - n)] == s[k];
      }
    }
  }

  /**
   * After any history the handler runs for an id exactly when the id is new or at least
   * `maxSize` other distinct ids have arrived since it was last seen.
   */
  lemma HandlerRunsIff(history: seq<string>, id: string, maxSize: nat)
    ensures AddTo(CacheAfter(history, maxSize), id, maxSize).1
            <==> id !in history || |Distinct(Since(history, id))| >= maxSize
    ensures id !in Distinct(Since(history, id))
  {
    ExactRecency(history, maxSize);
    RecencyFacts(history);
    SinceInRecency(history, id);
    SinceExcludes(history, id);
    if id in history {
      InTailIff(Recency(history), id, maxSize);
    } else {
      assert id !in Recency(history);
    }
  }

  lemma {:induction false} SinceExcludes(s: seq<string>, x: string)
    ensures x !in Since(s, x)
  {
    if s != [] && s[|s| - 1] != x {
      SinceExcludes(s[..|s| - 1], x);
    }
  }
}
