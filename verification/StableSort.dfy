/** Python's `list.sort`: the stable sort, characterised by its order and by its runs of ties. */
module StableSort {

  /** `less` ranks its arguments by some totally ordered key. */
  ghost predicate WeakOrder<T(!new)>(less: (T, T) -> bool)
  {
    && (forall x :: !less(x, x))
    && (forall x, y, z :: less(x, y) && less(y, z) ==> less(x, z))
    && (forall x, y, z :: less(x, z) ==> less(x, y) || less(y, z))
  }

  ghost predicate Sorted<T>(s: seq<T>, less: (T, T) -> bool)
  {
    forall i, j :: 0 <= i < j < |s| ==> !less(s[j], s[i])
  }

  /** Inserts `x` after every element that is not greater than it. */
  function Insert<T>(s: seq<T>, x: T, less: (T, T) -> bool): seq<T>
  {
    if s == [] || !less(x, s[|s| - 1]) then s + [x]
    else Insert(s[..|s| - 1], x, less) + [s[|s| - 1]]
  }

  function Sort<T>(s: seq<T>, less: (T, T) -> bool): seq<T>
  {
    if s == [] then [] else Insert(Sort(s[..|s| - 1], less), s[|s| - 1], less)
  }

  /** The elements of `s` that tie with `x`, in the order they have in `s`. */
  function Ties<T>(s: seq<T>, x: T, less: (T, T) -> bool): seq<T>
  {
    if s == [] then []
    else
      var y := s[|s| - 1];
      Ties(s[..|s| - 1], x, less) + (if less(x, y) || less(y, x) then [] else [y])
  }

  lemma {:induction false} TiesMembers<T>(s: seq<T>, x: T, less: (T, T) -> bool)
    ensures forall y :: y in Ties(s, x, less) <==> y in s && !less(x, y) && !less(y, x)
  {
    if s != [] {
      TiesMembers(s[..|s| - 1], x, less);
      assert s == s[..|s| - 1] + [s[|s| - 1]];
    }
  }

  lemma {:induction false} TiesConcat<T>(s: seq<T>, t: seq<T>, x: T, less: (T, T) -> bool)
    ensures Ties(s + t, x, less) == Ties(s, x, less) + Ties(t, x, less)
  {
    if t == [] {
      assert s + t == s;
    } else {
      assert (s + t)[..|s + t| - 1] == s + t[..|t| - 1];
      TiesConcat(s, t[..|t| - 1], x, less);
    }
  }

  lemma {:induction false} InsertPermutes<T>(s: seq<T>, x: T, less: (T, T) -> bool)
    ensures multiset(Insert(s, x, less)) == multiset(s) + multiset{x}
  {
    if s != [] && less(x, s[|s| - 1]) {
      InsertPermutes(s[..|s| - 1], x, less);
      assert s == s[..|s| - 1] + [s[|s| - 1]];
    }
  }

  lemma {:induction false} InsertSorted<T(!new)>(s: seq<T>, x: T, less: (T, T) -> bool)
    requires WeakOrder(less) && Sorted(s, less)
    ensures Sorted(Insert(s, x, less), less)
  {
    if s == [] {
    } else if !less(x, s[|s| - 1]) {
      forall i | 0 <= i < |s| ensures !less(x, s[i]) {
        assert i < |s| - 1 ==> !less(s[|s| - 1], s[i]);
      }
    } else {
      var front, last := s[..|s| - 1], s[|s| - 1];
      InsertSorted(front, x, less);
      InsertPermutes(front, x, less);
      var r := Insert(front, x, less);
      forall i | 0 <= i < |r| ensures !less(last, r[i]) {
        assert r[i] in multiset(r);
        assert r[i] == x || r[i] in front;
      }
    }
  }

  lemma {:induction false} InsertTies<T(!new)>(s: seq<T>, x: T, z: T, less: (T, T) -> bool)
    requires WeakOrder(less)
    ensures Ties(Insert(s, x, less), z, less) == Ties(s, z, less) + Ties([x], z, less)
  {
    if s == [] || !less(x, s[|s| - 1]) {
      TiesConcat(s, [x], z, less);
    } else {
      var front, last := s[..|s| - 1], s[|s| - 1];
      InsertTies(front, x, z, less);
      TiesConcat(Insert(front, x, less), [last], z, less);
    }
  }

  /** The three facts that pin the stable sort down. */
  lemma {:induction false} SortFacts<T(!new)>(s: seq<T>, less: (T, T) -> bool)
    requires WeakOrder(less)
    ensures Sorted(Sort(s, less), less)
    ensures multiset(Sort(s, less)) == multiset(s)
    ensures forall x :: Ties(Sort(s, less), x, less) == Ties(s, x, less)
  {
    if s != [] {
      var front, last := s[..|s| - 1], s[|s| - 1];
      SortFacts(front, less);
      InsertSorted(Sort(front, less), last, less);
      InsertPermutes(Sort(front, less), last, less);
      assert s == front + [last];
      forall x ensures Ties(Sort(s, less), x, less) == Ties(s, x, less) {
        InsertTies(Sort(front, less), last, x, less);
        TiesConcat(front, [last], x, less);
      }
    }
  }

  lemma SortMembers<T(!new)>(s: seq<T>, less: (T, T) -> bool)
    requires WeakOrder(less)
    ensures forall x :: x in Sort(s, less) <==> x in s
    ensures |Sort(s, less)| == |s|
  {
    SortFacts(s, less);
    forall x ensures x in Sort(s, less) <==> x in s {
      assert x in Sort(s, less) <==> x in multiset(Sort(s, less));
    }
    assert |multiset(Sort(s, less))| == |multiset(s)|;
  }

  lemma LastOfItsTies<T(!new)>(s: seq<T>, x: T, less: (T, T) -> bool)
    requires s != [] && !less(x, s[|s| - 1]) && !less(s[|s| - 1], x)
    ensures Ties(s, x, less) != [] && Ties(s, x, less)[|Ties(s, x, less)| - 1] == s[|s| - 1]
  {
  }

  lemma SharedLast<T(!new)>(s: seq<T>, t: seq<T>, less: (T, T) -> bool)
    requires WeakOrder(less) && s != [] && Ties(s, s[|s| - 1], less) == Ties(t, s[|s| - 1], less)
    ensures s[|s| - 1] in t
  {
    var m := s[|s| - 1];
    TiesMembers(s, m, less);
    TiesMembers(t, m, less);
  }

  /** Lists with the same runs of ties, both sorted, end in the same element. */
  lemma SameLast<T(!new)>(s: seq<T>, t: seq<T>, less: (T, T) -> bool)
    requires WeakOrder(less) && Sorted(s, less) && Sorted(t, less) && s != [] && t != []
    requires forall x :: Ties(s, x, less) == Ties(t, x, less)
    ensures s[|s| - 1] == t[|t| - 1]
  {
    var m, m' := s[|s| - 1], t[|t| - 1];
    SharedLast(s, t, less);
    SharedLast(t, s, less);
    LastIsGreatest(s, m', less);
    LastIsGreatest(t, m, less);
    LastOfItsTies(s, m, less);
    LastOfItsTies(t, m, less);
  }

  lemma DropLastTies<T>(s: seq<T>, t: seq<T>, x: T, less: (T, T) -> bool)
    requires s != [] && t != [] && s[|s| - 1] == t[|t| - 1]
    requires Ties(s, x, less) == Ties(t, x, less)
    ensures Ties(s[..|s| - 1], x, less) == Ties(t[..|t| - 1], x, less)
  {
    var m := s[|s| - 1];
    var a, b := Ties(s[..|s| - 1], x, less), Ties(t[..|t| - 1], x, less);
    var tail := if less(x, m) || less(m, x) then [] else [m];
    assert a == (a + tail)[..|a + tail| - |tail|];
    assert b == (b + tail)[..|b + tail| - |tail|];
  }

  /** A sorted list is determined by its runs of ties. */
  lemma {:induction false} SortedUnique<T(!new)>(s: seq<T>, t: seq<T>, less: (T, T) -> bool)
    requires WeakOrder(less) && Sorted(s, less) && Sorted(t, less)
    requires forall x :: Ties(s, x, less) == Ties(t, x, less)
    ensures s == t
  {
    if s == [] || t == [] {
      if s != [] {
        assert s[0] in s && Ties(t, s[0], less) == [];
        TiesMembers(s, s[0], less);
        assert false;
      }
      if t != [] {
        assert t[0] in t && Ties(s, t[0], less) == [];
        TiesMembers(t, t[0], less);
        assert false;
      }
    } else {
      SameLast(s, t, less);
      var s0, t0 := s[..|s| - 1], t[..|t| - 1];
      forall x ensures Ties(s0, x, less) == Ties(t0, x, less) {
        DropLastTies(s, t, x, less);
      }
      SortedUnique(s0, t0, less);
      assert s == s0 + [s[|s| - 1]] && t == t0 + [t[|t| - 1]];
    }
  }

  lemma LastIsGreatest<T>(s: seq<T>, x: T, less: (T, T) -> bool)
    requires Sorted(s, less) && x in s
    ensures x == s[|s| - 1] || !less(s[|s| - 1], x)
  {
    var i :| 0 <= i < |s| && s[i] == x;
  }

  lemma SameLength<T>(s: seq<T>, t: seq<T>)
    requires multiset(s) == multiset(t)
    ensures |s| == |t|
  {
    assert |multiset(s)| == |s| && |multiset(t)| == |t|;
  }

  lemma SameContents<T>(s: seq<T>, t: seq<T>)
    requires multiset(s) == multiset(t)
    ensures |s| == |t| && forall x :: x in s <==> x in t
  {
    assert |multiset(s)| == |s| && |multiset(t)| == |t|;
    forall x ensures x in s <==> x in t {
      assert x in s <==> x in multiset(s);
      assert x in t <==> x in multiset(t);
    }
  }

  lemma DropLastMultiset<T>(s: seq<T>)
    requires s != []
    ensures multiset(s[..|s| - 1]) == multiset(s) - multiset{s[|s| - 1]}
  {
    assert s == s[..|s| - 1] + [s[|s| - 1]];
  }

  ghost predicate OnlyEqualsTie<T>(s: seq<T>, less: (T, T) -> bool)
  {
    forall x, y :: x in s && y in s && !less(x, y) && !less(y, x) ==> x == y
  }

  lemma PermutationSameLast<T>(s: seq<T>, t: seq<T>, less: (T, T) -> bool)
    requires Sorted(s, less) && Sorted(t, less) && multiset(s) == multiset(t)
    requires OnlyEqualsTie(s, less) && s != []
    ensures t != [] && s[|s| - 1] == t[|t| - 1]
  {
    SameContents(s, t);
    var m, m' := s[|s| - 1], t[|t| - 1];
    assert m in s && m' in t;
    LastIsGreatest(s, m', less);
    LastIsGreatest(t, m, less);
  }

  lemma FrontFacts<T>(s: seq<T>, less: (T, T) -> bool)
    requires Sorted(s, less) && s != []
    ensures Sorted(s[..|s| - 1], less)
    ensures OnlyEqualsTie(s, less) ==> OnlyEqualsTie(s[..|s| - 1], less)
  {
  }

  /** Where only equal elements tie, the order sorting starts from is forgotten. */
  lemma {:induction false} SortedPermutationUnique<T>(s: seq<T>, t: seq<T>, less: (T, T) -> bool)
    requires Sorted(s, less) && Sorted(t, less) && multiset(s) == multiset(t)
    requires OnlyEqualsTie(s, less)
    ensures s == t
  {
    SameLength(s, t);
    if s != [] {
      PermutationSameLast(s, t, less);
      var m := s[|s| - 1];
      var s0, t0 := s[..|s| - 1], t[..|t| - 1];
      assert s0 == t0 by {
        FrontFacts(s, less);
        FrontFacts(t, less);
        DropLastMultiset(s);
        DropLastMultiset(t);
        SortedPermutationUnique(s0, t0, less);
      }
      assert s == s0 + [m] && t == t0 + [m];
    }
  }

  lemma SortOfSorted<T(!new)>(s: seq<T>, less: (T, T) -> bool)
    requires WeakOrder(less) && Sorted(s, less)
    ensures Sort(s, less) == s
  {
    SortFacts(s, less);
    SortedUnique(Sort(s, less), s, less);
  }
}
