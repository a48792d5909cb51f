/** Canonical files in which one identifier occurs more than once: what still survives a save. */
module GroupedFilesTies {
  import opened PyDict
  import opened StableSort
  import opened Text
  import opened GroupedFiles
  import opened GroupedFilesLaws

  // ---------------------------------------------------------------------------------------
  // Values
  // ---------------------------------------------------------------------------------------

  /** In the canonical layout a loaded record lies in the last file with its identifier, so
      nothing shadows it. */
  lemma CanonicalSurvives(files: Directory, home: Rec -> string, le: (Rec, Rec) -> bool, r: Rec)
    requires Ranks(le) && Canonical(files, home) && r in LoadedBy(files, le)
    ensures r in LoadedBy(SavedBy(files, home, le, LoadedBy(files, le)), le)
  {
    LoadedHome(files, home, le, r);
    LoadedIsLastWrites(files, le, r);
    assert Lists(files[home(r)], r.id);
    var last := LastListingDecides(files, r);
    LastWriteIsMember(files[last], r);
    LoadedSurvivesIff(files, home, le, r);
    assert r in Members(LoadedBy(files, le), home, home(r));
    forall n ensures !Shadows(files, home, LoadedBy(files, le), r, n) {
      LexTotal(n, last);
    }
  }

  /** Canonical files keep exactly their loaded values, also where one identifier is in several. */
  lemma CanonicalKeepsValues(files: Directory, home: Rec -> string, le: (Rec, Rec) -> bool, r: Rec)
    requires Ranks(le) && Canonical(files, home)
    ensures r in LoadedBy(SavedBy(files, home, le, LoadedBy(files, le)), le) <==> r in LoadedBy(files, le)
  {
    var out := SavedBy(files, home, le, LoadedBy(files, le));
    if r in LoadedBy(files, le) { CanonicalSurvives(files, home, le, r); }
    if r in LoadedBy(out, le) {
      SaveConservesIds(files, home, le, r.id);
      var q :| q in LoadedBy(files, le) && q.id == r.id;
      CanonicalSurvives(files, home, le, q);
      LoadedIsUnique(out, le);
    }
  }

  // ---------------------------------------------------------------------------------------
  // Ties can change places
  // ---------------------------------------------------------------------------------------

  /** Canonical files in reading order with an older `x` beside `z`, then `y`, then `x`, all tied. */
  ghost predicate Crossed(home: Rec -> string, le: (Rec, Rec) -> bool, a: string, b: string, c: string,
                          former: Rec, x: Rec, y: Rec, z: Rec) {
    && a != b && b != c && a != c && LexLe(a, b) && LexLe(b, c)
    && home(former) == a && home(z) == a && home(y) == b && home(x) == c
    && former.id == x.id && x.id != y.id && y.id != z.id && x.id != z.id && x.id != "" && y.id != "" && z.id != ""
    && forall r, q :: r in {former, x, y, z} && q in {former, x, y, z} ==> le(r, q)
  }

  lemma ThreeNames(a: string, b: string, c: string)
    requires a != b && b != c && a != c && LexLe(a, b) && LexLe(b, c)
    ensures SortedNames({a, b, c}) == [a, b, c]
  {
    var s := SortedNames({a, b, c});
    LexTransitive(a, b, c);
    SortedNamesIncrease({a, b, c}, 0, 1);
    SortedNamesIncrease({a, b, c}, 1, 2);
    SortedNamesIncrease({a, b, c}, 0, 2);
    LexTotal(a, b);
    LexTotal(b, c);
    LexTotal(a, c);
    LexTotal(s[0], s[1]);
    LexTotal(s[1], s[2]);
  }

  lemma ThreeFiles(files: Directory, a: string, b: string, c: string)
    requires a != b && b != c && a != c && LexLe(a, b) && LexLe(b, c) && files.Keys == {a, b, c}
    ensures All(files) == files[a] + files[b] + files[c]
  {
    ThreeNames(a, b, c);
    ConcatThree(files, a, b, c);
  }

  lemma ConcatTwo(files: Directory, a: string, b: string)
    requires a in files && b in files
    ensures Concat(files, [a, b]) == files[a] + files[b]
  {
    ConcatNext(files, [], a);
    assert [] + [a] == [a];
    ConcatNext(files, [a], b);
    assert [a] + [b] == [a, b];
  }

  lemma ConcatThree(files: Directory, a: string, b: string, c: string)
    requires a in files && b in files && c in files
    ensures Concat(files, [a, b, c]) == files[a] + files[b] + files[c]
  {
    ConcatTwo(files, a, b);
    ConcatNext(files, [a, b], c);
    assert [a, b] + [c] == [a, b, c];
  }

  lemma ConcatNext(files: Directory, names: seq<string>, n: string)
    requires n in files && forall m :: m in names ==> m in files
    ensures Concat(files, names + [n]) == Concat(files, names) + files[n]
  {
    assert (names + [n])[..|names|] == names;
  }

  lemma {:induction false} TiedIsSorted(s: seq<Rec>, le: (Rec, Rec) -> bool)
    requires Ranks(le) && forall r, q :: r in s && q in s ==> le(r, q)
    ensures Sort(s, le) == s
  {
    TiedSorted(s, le);
    SortedIsFixed(s, le);
  }

  lemma {:induction false} TiedSorted(s: seq<Rec>, le: (Rec, Rec) -> bool)
    requires forall r, q :: r in s && q in s ==> le(r, q)
    ensures Sorted(s, le)
  {
    if |s| > 1 {
      assert forall r :: r in s[1..] ==> r in s;
      TiedSorted(s[1..], le);
    }
  }

  lemma KeptNew(recs: seq<Rec>, r: Rec)
    requires r.id != "" && !Lists(recs, r.id)
    ensures Kept(recs + [r]) == Kept(recs) + [r]
  {
    SeenSnoc(recs, r);
    if r.id in Seen(recs).at { SeenIds(recs, r.id); }
    var d, e := Seen(recs), Seen(recs + [r]);
    forall i | 0 <= i < |e.order| ensures e.Values()[i] == (d.Values() + [r])[i] {
      if i < |d.order| { assert d.order[i] in d.order; }
    }
  }

  /** A repeated identifier keeps its place and changes its value. */
  lemma KeptAgain(recs: seq<Rec>, i: nat, r: Rec)
    requires r.id != "" && i < |Kept(recs)| && Kept(recs)[i].id == r.id
    ensures Kept(recs + [r]) == Kept(recs)[i := r]
  {
    var d, e := Seen(recs), Seen(recs + [r]);
    SeenSnoc(recs, r);
    SeenIsLastWrite(recs);
    assert d.order[i] in d.order && d.order[i] == r.id && e.order == d.order;
    forall k | 0 <= k < |e.order| ensures e.Values()[k] == d.Values()[i := r][k] {
      assert IndexOf(d.order, d.order[k]) == k && IndexOf(d.order, d.order[i]) == i;
    }
  }

  lemma ThreeKept(p: Rec, q: Rec, r: Rec)
    requires p.id != q.id && q.id != r.id && p.id != r.id && p.id != "" && q.id != "" && r.id != ""
    ensures Kept([p, q, r]) == [p, q, r]
  {
    KeptOne(p);
    KeptNew([p], q);
    KeptNew([p] + [q], r);
    assert [p] + [q] + [r] == [p, q, r];
  }

  /** The older value keeps its place in the load, the newer one takes it over. */
  lemma FourKept(former: Rec, x: Rec, y: Rec, z: Rec)
    requires former.id == x.id && x.id != y.id && y.id != z.id && x.id != z.id && x.id != "" && y.id != "" && z.id != ""
    ensures Kept([former, z, y, x]) == [x, z, y]
  {
    ThreeKept(former, z, y);
    KeptAgain([former, z, y], 0, x);
    assert [former, z, y] + [x] == [former, z, y, x];
  }

  lemma OneOfThree(home: Rec -> string, p: Rec, q: Rec, r: Rec, n: string)
    ensures Members([p, q, r], home, n)
      == Members([p], home, n) + Members([q], home, n) + Members([r], home, n)
  {
    MembersConcat([p] + [q], [r], home, n);
    MembersConcat([p], [q], home, n);
    assert [p] + [q] + [r] == [p, q, r];
  }

  lemma JustOne(home: Rec -> string, p: Rec, n: string)
    ensures Members([p], home, n) == if home(p) == n then [p] else []
  {
    assert [p][..0] == [];
  }

  lemma MembersOfThree(home: Rec -> string, p: Rec, q: Rec, r: Rec, n: string)
    requires home(p) != home(q) && home(p) != home(r) && home(q) != home(r)
    ensures Members([p, q, r], home, n)
      == if n == home(p) then [p] else if n == home(q) then [q] else if n == home(r) then [r] else []
  {
    OneOfThree(home, p, q, r, n);
    JustOne(home, p, n);
    JustOne(home, q, n);
    JustOne(home, r, n);
  }

  lemma SavedAt(files: Directory, home: Rec -> string, le: (Rec, Rec) -> bool, recs: seq<Rec>, n: string, ms: seq<Rec>)
    requires Members(recs, home, n) == ms && n in files
    ensures n in SavedBy(files, home, le, recs)
    ensures SavedBy(files, home, le, recs)[n] == if ms != [] then Sort(ms, le) else files[n]
  {
  }

  /** A save of three records of three different files writes each alone. */
  lemma SaveOfThree(files: Directory, home: Rec -> string, le: (Rec, Rec) -> bool, p: Rec, q: Rec, r: Rec)
    requires Ranks(le) && home(p) != home(q) && home(p) != home(r) && home(q) != home(r)
    requires files.Keys == {home(p), home(q), home(r)}
    ensures Holding(SavedBy(files, home, le, [p, q, r]), home(p), home(q), home(r), [p], [q], [r])
  {
    MembersAreSingle(home, p, q, r);
    forall m | m in [p, q, r] ensures home(m) in files {}
    SaveOfOnes(files, home, le, [p, q, r], p, q, r);
  }

  lemma MembersAreSingle(home: Rec -> string, p: Rec, q: Rec, r: Rec)
    requires home(p) != home(q) && home(p) != home(r) && home(q) != home(r)
    ensures Members([p, q, r], home, home(p)) == [p] && Members([p, q, r], home, home(q)) == [q]
    ensures Members([p, q, r], home, home(r)) == [r]
  {
    MembersOfThree(home, p, q, r, home(p));
    MembersOfThree(home, p, q, r, home(q));
    MembersOfThree(home, p, q, r, home(r));
  }

  lemma SaveOfOnes(files: Directory, home: Rec -> string, le: (Rec, Rec) -> bool, recs: seq<Rec>, p: Rec, q: Rec,
                   r: Rec)
    requires Ranks(le) && files.Keys == {home(p), home(q), home(r)} && forall m :: m in recs ==> home(m) in files
    requires Members(recs, home, home(p)) == [p] && Members(recs, home, home(q)) == [q]
    requires Members(recs, home, home(r)) == [r]
    ensures Holding(SavedBy(files, home, le, recs), home(p), home(q), home(r), [p], [q], [r])
  {
    SavedAt(files, home, le, recs, home(p), [p]);
    SavedAt(files, home, le, recs, home(q), [q]);
    SavedAt(files, home, le, recs, home(r), [r]);
    AloneIsSorted(p, le);
    AloneIsSorted(q, le);
    AloneIsSorted(r, le);
    SavesNoOther(files, home, le, recs);
  }

  lemma SavesNoOther(files: Directory, home: Rec -> string, le: (Rec, Rec) -> bool, recs: seq<Rec>)
    requires forall r :: r in recs ==> home(r) in files
    ensures SavedBy(files, home, le, recs).Keys == files.Keys
  {
    forall n | Members(recs, home, n) != [] ensures n in files {
      var m := Members(recs, home, n)[0];
      assert m in Members(recs, home, n);
    }
  }

  lemma AloneIsSorted(p: Rec, le: (Rec, Rec) -> bool)
    requires Ranks(le)
    ensures Sort([p], le) == [p]
  {
    SortedIsFixed([p], le);
  }

  /** Such files load as x, z, y and, once saved, as z, y, x: with ties, one identifier in two
      files is enough to change the order of a canonical load. */
  lemma TiesChangePlaces(home: Rec -> string, le: (Rec, Rec) -> bool, a: string, b: string, c: string,
                         former: Rec, x: Rec, y: Rec, z: Rec)
    requires Ranks(le) && Crossed(home, le, a, b, c, former, x, y, z)
    ensures var files := map[a := [former, z], b := [y], c := [x]];
      && Canonical(files, home)
      && LoadedBy(files, le) == [x, z, y]
      && LoadedBy(SavedBy(files, home, le, LoadedBy(files, le)), le) == [z, y, x]
  {
    var files := map[a := [former, z], b := [y], c := [x]];
    CrossedIsCanonical(files, home, le, a, b, c, former, x, y, z);
    CrossedLoad(files, home, le, a, b, c, former, x, y, z);
    CrossedSave(files, home, le, a, b, c, former, x, y, z);
  }

  ghost predicate Holding(files: Directory, a: string, b: string, c: string, p: seq<Rec>, q: seq<Rec>, r: seq<Rec>) {
    files.Keys == {a, b, c} && files[a] == p && files[b] == q && files[c] == r
  }

  lemma CrossedIsCanonical(files: Directory, home: Rec -> string, le: (Rec, Rec) -> bool, a: string, b: string,
                           c: string, former: Rec, x: Rec, y: Rec, z: Rec)
    requires Crossed(home, le, a, b, c, former, x, y, z) && Holding(files, a, b, c, [former, z], [y], [x])
    ensures Canonical(files, home)
  {
    forall n, r | n in files && r in files[n] ensures home(r) == n {
      if n == a { assert r == former || r == z; }
    }
  }

  lemma CrossedLoad(files: Directory, home: Rec -> string, le: (Rec, Rec) -> bool, a: string, b: string, c: string,
                    former: Rec, x: Rec, y: Rec, z: Rec)
    requires Ranks(le) && Crossed(home, le, a, b, c, former, x, y, z)
    requires Holding(files, a, b, c, [former, z], [y], [x])
    ensures LoadedBy(files, le) == [x, z, y]
  {
    ThreeFiles(files, a, b, c);
    assert [former, z] + [y] + [x] == [former, z, y, x];
    FourKept(former, x, y, z);
    LoadOfThree(files, le, [former, z, y, x], x, z, y);
  }

  lemma CrossedSave(files: Directory, home: Rec -> string, le: (Rec, Rec) -> bool, a: string, b: string, c: string,
                    former: Rec, x: Rec, y: Rec, z: Rec)
    requires Ranks(le) && Crossed(home, le, a, b, c, former, x, y, z) && files.Keys == {a, b, c}
    ensures LoadedBy(SavedBy(files, home, le, [x, z, y]), le) == [z, y, x]
  {
    SaveOfThree(files, home, le, x, z, y);
    HeldIsLoaded(SavedBy(files, home, le, [x, z, y]), home, le, a, b, c, former, x, y, z);
  }

  lemma HeldIsLoaded(out: Directory, home: Rec -> string, le: (Rec, Rec) -> bool, a: string, b: string, c: string,
                     former: Rec, x: Rec, y: Rec, z: Rec)
    requires Ranks(le) && Crossed(home, le, a, b, c, former, x, y, z) && Holding(out, c, a, b, [x], [z], [y])
    ensures LoadedBy(out, le) == [z, y, x]
  {
    HeldLoad(out, le, a, b, c, z, y, x);
  }

  lemma HeldLoad(out: Directory, le: (Rec, Rec) -> bool, a: string, b: string, c: string, p: Rec, q: Rec, r: Rec)
    requires Ranks(le) && a != b && b != c && a != c && LexLe(a, b) && LexLe(b, c)
    requires out.Keys == {a, b, c} && out[a] == [p] && out[b] == [q] && out[c] == [r]
    requires p.id != q.id && q.id != r.id && p.id != r.id && p.id != "" && q.id != "" && r.id != ""
    requires forall x, y :: x in {p, q, r} && y in {p, q, r} ==> le(x, y)
    ensures LoadedBy(out, le) == [p, q, r]
  {
    HeldInOrder(out, a, b, c, p, q, r);
    ThreeKept(p, q, r);
    LoadOfThree(out, le, [p, q, r], p, q, r);
  }

  /** Tied records are loaded in the order they are kept in. */
  lemma LoadOfThree(files: Directory, le: (Rec, Rec) -> bool, all: seq<Rec>, p: Rec, q: Rec, r: Rec)
    requires Ranks(le) && All(files) == all && Kept(all) == [p, q, r]
    requires forall x, y :: x in {p, q, r} && y in {p, q, r} ==> le(x, y)
    ensures LoadedBy(files, le) == [p, q, r]
  {
    forall x, y | x in [p, q, r] && y in [p, q, r] ensures le(x, y) {}
    TiedIsSorted([p, q, r], le);
  }

  lemma HeldInOrder(out: Directory, a: string, b: string, c: string, p: Rec, q: Rec, r: Rec)
    requires a != b && b != c && a != c && LexLe(a, b) && LexLe(b, c)
    requires out.Keys == {a, b, c} && out[a] == [p] && out[b] == [q] && out[c] == [r]
    ensures All(out) == [p, q, r]
  {
    ThreeFiles(out, a, b, c);
    assert [p] + [q] + [r] == [p, q, r];
  }
}
