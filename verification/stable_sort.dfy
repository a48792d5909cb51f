/** Python's `sorted`: stable sorting by an order `le` that ranks any two elements. */
module StableSort {
  ghost predicate Ranks<T(!new)>(le: (T, T) -> bool) {
    && (forall x, y :: le(x, y) || le(y, x))
    && (forall x, y, z :: le(x, y) && le(y, z) ==> le(x, z))
  }

  ghost predicate Sorted<T>(s: seq<T>, le: (T, T) -> bool) {
    |s| <= 1 || ((forall y :: y in s[1..] ==> le(s[0], y)) && Sorted(s[1..], le))
  }

  /** Put `x`, which came before all of `s`, in front of everything it does not exceed. */
  function Insert<T>(x: T, s: seq<T>, le: (T, T) -> bool): (r: seq<T>)
    ensures multiset(r) == multiset{x} + multiset(s)
  {
    if s == [] then [x]
    else if le(x, s[0]) then [x] + s
    else
      assert s == [s[0]] + s[1..];
      [s[0]] + Insert(x, s[1..], le)
  }

  function Sort<T>(s: seq<T>, le: (T, T) -> bool): (r: seq<T>)
    ensures multiset(r) == multiset(s)
    ensures |r| == |s|
  {
    if s == [] then [] else
      assert s == [s[0]] + s[1..];
      var r := Insert(s[0], Sort(s[1..], le), le);
      assert |multiset(r)| == |multiset(s)|;
      r
  }

  lemma SameElements<T>(s: seq<T>, le: (T, T) -> bool)
    ensures forall x :: x in Sort(s, le) <==> x in s
  {
    forall x ensures x in Sort(s, le) <==> x in s {
      assert x in multiset(Sort(s, le)) <==> x in multiset(s);
    }
  }

  lemma {:induction false} InsertIsSorted<T(!new)>(x: T, s: seq<T>, le: (T, T) -> bool)
    requires Ranks(le) && Sorted(s, le)
    ensures Sorted(Insert(x, s, le), le)
  {
    if s != [] && !le(x, s[0]) {
      InsertIsSorted(x, s[1..], le);
      var r := Insert(x, s[1..], le);
      forall y | y in r ensures le(s[0], y) {
        assert y in multiset(r);
        assert y == x || y in s[1..];
      }
      assert Insert(x, s, le)[1..] == r;
    } else if s != [] {
      assert ([x] + s)[1..] == s;
      forall y | y in s ensures le(x, y) {
        if y != s[0] { assert y in s[1..]; }
      }
    }
  }

  /** Listed earlier means not ranked later. */
  lemma {:induction false} SortedPairs<T(!new)>(s: seq<T>, le: (T, T) -> bool, i: nat, j: nat)
    requires Sorted(s, le) && i < j < |s|
    ensures le(s[i], s[j])
  {
    if i == 0 { assert s[j] == s[1..][j - 1]; } else { SortedPairs(s[1..], le, i - 1, j - 1); }
  }

  lemma {:induction false} SortIsSorted<T(!new)>(s: seq<T>, le: (T, T) -> bool)
    requires Ranks(le)
    ensures Sorted(Sort(s, le), le)
  {
    if s != [] {
      SortIsSorted(s[1..], le);
      InsertIsSorted(s[0], Sort(s[1..], le), le);
    }
  }

  // ---------------------------------------------------------------------------------------
  // Stability
  // ---------------------------------------------------------------------------------------

  predicate Level<T>(x: T, y: T, le: (T, T) -> bool) {
    le(x, y) && le(y, x)
  }

  /** The elements of `s` that rank level with `x`, in their order. */
  ghost function LevelWith<T>(s: seq<T>, x: T, le: (T, T) -> bool): seq<T> {
    if s == [] then []
    else if Level(x, s[0], le) then [s[0]] + LevelWith(s[1..], x, le)
    else LevelWith(s[1..], x, le)
  }

  lemma {:induction false} LevelWithConcat<T>(s: seq<T>, t: seq<T>, x: T, le: (T, T) -> bool)
    ensures LevelWith(s + t, x, le) == LevelWith(s, x, le) + LevelWith(t, x, le)
  {
    if s == [] {
      assert s + t == t;
    } else {
      assert (s + t)[1..] == s[1..] + t;
      LevelWithConcat(s[1..], t, x, le);
    }
  }

  lemma {:induction false} InsertIsStable<T(!new)>(x: T, s: seq<T>, z: T, le: (T, T) -> bool)
    requires Ranks(le)
    ensures LevelWith(Insert(x, s, le), z, le) == LevelWith([x] + s, z, le)
  {
    assert ([x] + s)[1..] == s;
    if s != [] && !le(x, s[0]) {
      InsertIsStable(x, s[1..], z, le);
      assert ([x] + s[1..])[1..] == s[1..];
      assert Insert(x, s, le)[1..] == Insert(x, s[1..], le);
      assert !(Level(z, x, le) && Level(z, s[0], le));
    }
  }

  /** Elements that rank level keep their order. */
  lemma {:induction false} SortIsStable<T(!new)>(s: seq<T>, z: T, le: (T, T) -> bool)
    requires Ranks(le)
    ensures LevelWith(Sort(s, le), z, le) == LevelWith(s, z, le)
  {
    if s != [] {
      SortIsStable(s[1..], z, le);
      InsertIsStable(s[0], Sort(s[1..], le), z, le);
      assert ([s[0]] + Sort(s[1..], le))[1..] == Sort(s[1..], le);
    }
  }

  // ---------------------------------------------------------------------------------------
  // Uniqueness
  // ---------------------------------------------------------------------------------------

  lemma {:induction false} LevelWithMembers<T>(s: seq<T>, x: T, le: (T, T) -> bool)
    ensures forall y :: y in LevelWith(s, x, le) <==> y in s && Level(x, y, le)
  {
    if s != [] {
      LevelWithMembers(s[1..], x, le);
      assert s == [s[0]] + s[1..];
    }
  }

  lemma FirstIsLeast<T(!new)>(s: seq<T>, y: T, le: (T, T) -> bool)
    requires Ranks(le) && Sorted(s, le) && y in s
    ensures le(s[0], y)
  {
    assert s == [s[0]] + s[1..];
  }

  /** A sorted sequence is determined by its levels: stable sorting has one result. */
  lemma {:induction false} SortedIsUnique<T(!new)>(s: seq<T>, t: seq<T>, le: (T, T) -> bool)
    requires Ranks(le) && Sorted(s, le) && Sorted(t, le)
    requires forall x :: LevelWith(s, x, le) == LevelWith(t, x, le)
    ensures s == t
  {
    if t != [] {
      assert t[0] in LevelWith(t, t[0], le);
    }
    if s != [] {
      var a := s[0];
      LevelWithMembers(s, a, le);
      LevelWithMembers(t, a, le);
      assert a in LevelWith(t, a, le);
      var b := t[0];
      LevelWithMembers(s, b, le);
      LevelWithMembers(t, b, le);
      assert b in LevelWith(s, b, le);
      FirstIsLeast(s, b, le);
      FirstIsLeast(t, a, le);
      assert LevelWith(s, a, le)[0] == a;
      assert LevelWith(t, a, le)[0] == b;
      forall x ensures LevelWith(s[1..], x, le) == LevelWith(t[1..], x, le) {
        assert LevelWith(s, x, le) == LevelWith(t, x, le);
        if Level(x, a, le) {
          assert LevelWith(s, x, le)[1..] == LevelWith(s[1..], x, le);
          assert LevelWith(t, x, le)[1..] == LevelWith(t[1..], x, le);
        }
      }
      SortedIsUnique(s[1..], t[1..], le);
    }
  }

  /** Sorting depends only on the order within each level. */
  lemma SortsAlike<T(!new)>(s: seq<T>, t: seq<T>, le: (T, T) -> bool)
    requires Ranks(le)
    requires forall x :: LevelWith(s, x, le) == LevelWith(t, x, le)
    ensures Sort(s, le) == Sort(t, le)
  {
    SortIsSorted(s, le);
    SortIsSorted(t, le);
    forall x ensures LevelWith(Sort(s, le), x, le) == LevelWith(Sort(t, le), x, le) {
      SortIsStable(s, x, le);
      SortIsStable(t, x, le);
      assert LevelWith(s, x, le) == LevelWith(t, x, le);
    }
    SortedIsUnique(Sort(s, le), Sort(t, le), le);
  }

  lemma SortedIsFixed<T(!new)>(s: seq<T>, le: (T, T) -> bool)
    requires Ranks(le) && Sorted(s, le)
    ensures Sort(s, le) == s
  {
    SortIsSorted(s, le);
    forall x ensures LevelWith(Sort(s, le), x, le) == LevelWith(s, x, le) {
      SortIsStable(s, x, le);
    }
    SortedIsUnique(Sort(s, le), s, le);
  }

  lemma SameMembers<T>(s: seq<T>, t: seq<T>)
    requires multiset(s) == multiset(t)
    ensures |s| == |t|
    ensures forall x :: x in s <==> x in t
  {
    assert |multiset(s)| == |s| && |multiset(t)| == |t|;
    forall x ensures x in s <==> x in t {
      assert (x in s <==> x in multiset(s)) && (x in t <==> x in multiset(t));
    }
  }

  lemma DropFirst<T>(s: seq<T>, t: seq<T>)
    requires multiset(s) == multiset(t) && s != [] && t != [] && s[0] == t[0]
    ensures multiset(s[1..]) == multiset(t[1..])
  {
    assert s == [s[0]] + s[1..] && t == [t[0]] + t[1..];
    assert multiset(s[1..]) == multiset(s) - multiset{s[0]};
    assert multiset(t[1..]) == multiset(t) - multiset{t[0]};
  }

  /** When only equal elements of `s` rank level, sorting forgets the original order. */
  lemma {:induction false} SortedPermutationIsUnique<T(!new)>(s: seq<T>, t: seq<T>, le: (T, T) -> bool)
    requires Ranks(le) && Sorted(s, le) && Sorted(t, le) && multiset(s) == multiset(t)
    requires forall x, y :: x in s && y in s && Level(x, y, le) ==> x == y
    ensures s == t
  {
    SameMembers(s, t);
    if s != [] {
      FirstIsLeast(s, t[0], le);
      FirstIsLeast(t, s[0], le);
      assert Level(s[0], t[0], le);
      DropFirst(s, t);
      assert forall x :: x in s[1..] ==> x in s;
      SortedPermutationIsUnique(s[1..], t[1..], le);
    }
  }

  /** Hence sorting a permutation gives the same sequence. */
  lemma SortsPermutationsAlike<T(!new)>(s: seq<T>, t: seq<T>, le: (T, T) -> bool)
    requires Ranks(le) && multiset(s) == multiset(t)
    requires forall x, y :: x in s && y in s && Level(x, y, le) ==> x == y
    ensures Sort(s, le) == Sort(t, le)
  {
    SortIsSorted(s, le);
    SortIsSorted(t, le);
    SameElements(s, le);
    SortedPermutationIsUnique(Sort(s, le), Sort(t, le), le);
  }
}
