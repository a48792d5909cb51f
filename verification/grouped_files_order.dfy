/** The order of a canonical load after a save: exactly when it stays the same. */
module GroupedFilesOrder {
  import opened PyDict
  import opened StableSort
  import opened Text
  import opened GroupedFiles
  import opened GroupedFilesLaws
  import opened GroupedFilesTies

  // ---------------------------------------------------------------------------------------
  // Which of two elements comes first
  // ---------------------------------------------------------------------------------------

  /** `x` occurs before any occurrence of `y`. */
  predicate Before<T(==)>(s: seq<T>, x: T, y: T) {
    s != [] && s[0] != y && (s[0] == x || Before(s[1..], x, y))
  }

  lemma {:induction false} BeforeConcat<T>(a: seq<T>, b: seq<T>, x: T, y: T)
    ensures Before(a + b, x, y) <==> Before(a, x, y) || (y !in a && Before(b, x, y))
  {
    if a == [] {
      assert a + b == b;
    } else {
      assert (a + b)[1..] == a[1..] + b && a == [a[0]] + a[1..];
      BeforeConcat(a[1..], b, x, y);
    }
  }

  lemma {:induction false} BeforeIsMember<T>(s: seq<T>, x: T, y: T)
    ensures Before(s, x, y) ==> x in s && x != y
    ensures x in s && y !in s ==> Before(s, x, y)
  {
    if s != [] {
      assert s == [s[0]] + s[1..];
      BeforeIsMember(s[1..], x, y);
    }
  }

  /** Of two different elements that occur, one comes first. */
  lemma {:induction false} OneIsBefore<T>(s: seq<T>, x: T, y: T)
    requires x in s && y in s && x != y
    ensures Before(s, x, y) <==> !Before(s, y, x)
  {
    if s[0] != x && s[0] != y {
      assert s == [s[0]] + s[1..];
      OneIsBefore(s[1..], x, y);
    }
  }

  /** Elements that rank level come in the same order after sorting. */
  lemma {:induction false} BeforeInLevel<T(!new)>(s: seq<T>, x: T, y: T, le: (T, T) -> bool)
    requires Level(x, x, le) && Level(x, y, le)
    ensures Before(s, x, y) <==> Before(LevelWith(s, x, le), x, y)
  {
    if s != [] {
      BeforeInLevel(s[1..], x, y, le);
      var rest := LevelWith(s[1..], x, le);
      assert ([s[0]] + rest)[1..] == rest;
    }
  }

  lemma SortKeepsBefore<T(!new)>(s: seq<T>, x: T, y: T, le: (T, T) -> bool)
    requires Ranks(le) && Level(x, y, le)
    ensures Before(Sort(s, le), x, y) <==> Before(s, x, y)
  {
    SortIsStable(s, x, le);
    BeforeInLevel(s, x, y, le);
    BeforeInLevel(Sort(s, le), x, y, le);
  }

  /** Two sorted arrangements of the same elements, none twice, are the same if those that rank
      level come in the same order. */
  lemma {:induction false} SortedAlike<T(!new)>(s: seq<T>, t: seq<T>, le: (T, T) -> bool)
    requires Ranks(le) && Sorted(s, le) && Sorted(t, le) && multiset(s) == multiset(t)
    requires forall x, y :: Level(x, y, le) && Before(s, x, y) ==> Before(t, x, y)
    requires forall x :: multiset(s)[x] <= 1
    ensures s == t
  {
    SameMembers(s, t);
    if s != [] {
      FirstIsLeast(s, t[0], le);
      FirstIsLeast(t, s[0], le);
      assert Level(s[0], t[0], le);
      BeforeOthers(s, t[0]);
      DropFirst(s, t);
      forall x ensures multiset(t)[x] <= 1 { assert multiset(s)[x] <= 1; }
      OnceInFront(s);
      OnceInFront(t);
      SameMembers(s[1..], t[1..]);
      forall x, y | Level(x, y, le) && Before(s[1..], x, y) ensures Before(t[1..], x, y) {
        BeforeIsMember(s[1..], x, y);
        BeforeInTails(s, t, x, y);
      }
      SortedAlike(s[1..], t[1..], le);
    }
  }

  lemma BeforeOthers<T>(s: seq<T>, y: T)
    requires s != []
    ensures y != s[0] ==> Before(s, s[0], y)
  {
  }

  lemma OnceInFront<T>(s: seq<T>)
    requires s != [] && forall x :: multiset(s)[x] <= 1
    ensures s[0] !in s[1..] && forall x :: multiset(s[1..])[x] <= 1
  {
    assert s == [s[0]] + s[1..];
    assert multiset(s) == multiset{s[0]} + multiset(s[1..]);
    assert multiset(s)[s[0]] <= 1;
    assert s[0] !in multiset(s[1..]);
    forall x ensures multiset(s[1..])[x] <= 1 { assert multiset(s)[x] <= 1; }
  }

  lemma BeforeInTails<T>(s: seq<T>, t: seq<T>, x: T, y: T)
    requires s != [] && t != [] && s[0] == t[0] && s[0] !in t[1..] && x != s[0]
    requires x in t[1..] && (Before(s, x, y) ==> Before(t, x, y)) && Before(s[1..], x, y)
    ensures Before(t[1..], x, y)
  {
    if y == s[0] { BeforeIsMember(t[1..], x, y); }
  }

  // ---------------------------------------------------------------------------------------
  // The order of what is kept
  // ---------------------------------------------------------------------------------------

  function IdsOf(recs: seq<Rec>): (ids: seq<string>)
    ensures |ids| == |recs|
    ensures forall i :: 0 <= i < |ids| ==> ids[i] == recs[i].id
  {
    seq(|recs|, i requires 0 <= i < |recs| => recs[i].id)
  }

  lemma ListsIff(recs: seq<Rec>, id: string)
    ensures Lists(recs, id) <==> id in IdsOf(recs)
  {
    if id in IdsOf(recs) {
      var i :| 0 <= i < |recs| && IdsOf(recs)[i] == id;
      assert recs[i] in recs;
    }
    if Lists(recs, id) {
      var r :| r in recs && r.id == id;
      var i :| 0 <= i < |recs| && recs[i] == r;
      assert IdsOf(recs)[i] == id;
    }
  }

  lemma IdsOfConcat(a: seq<Rec>, b: seq<Rec>)
    ensures IdsOf(a + b) == IdsOf(a) + IdsOf(b)
  {
  }

  lemma BeforeSnoc(s: seq<string>, z: string, x: string, y: string)
    ensures Before(s + [z], x, y) <==> Before(s, x, y) || (y !in s && x == z && x != y)
  {
    BeforeConcat(s, [z], x, y);
  }

  /** Identifiers are kept in the order of their first occurrence. */
  lemma {:induction false} SeenOrder(recs: seq<Rec>, x: string, y: string)
    requires x != "" && y != ""
    ensures (x in Seen(recs).order <==> x in IdsOf(recs)) && (y in Seen(recs).order <==> y in IdsOf(recs))
    ensures Before(Seen(recs).order, x, y) <==> Before(IdsOf(recs), x, y)
  {
    if recs != [] {
      var front, last := recs[..|recs| - 1], recs[|recs| - 1];
      var order := Seen(front).order;
      SeenOrder(front, x, y);
      IdsOfConcat(front, [last]);
      assert recs == front + [last] && IdsOf([last]) == [last.id];
      BeforeSnoc(order, last.id, x, y);
      BeforeSnoc(IdsOf(front), last.id, x, y);
      BeforeIsMember(order, x, y);
    }
  }

  lemma KeptOrder(recs: seq<Rec>)
    ensures IdsOf(Kept(recs)) == Seen(recs).order
  {
    var d := Seen(recs);
    SeenIsLastWrite(recs);
    forall i | 0 <= i < |d.order| ensures IdsOf(Kept(recs))[i] == d.order[i] { assert d.order[i] in d.order; }
  }

  lemma BeforeCons<T>(head: T, tail: seq<T>, x: T, y: T)
    ensures Before([head] + tail, x, y) <==> head != y && (head == x || Before(tail, x, y))
  {
    assert ([head] + tail)[1..] == tail;
  }

  /** No other record has the identifier of `r`. */
  ghost predicate Alone(recs: seq<Rec>, r: Rec) { forall x :: x in recs && x.id == r.id ==> x == r }

  lemma AloneInTail(head: Rec, tail: seq<Rec>, r: Rec)
    requires Alone([head] + tail, r)
    ensures Alone(tail, r) && (head.id == r.id ==> head == r)
  {
    assert head in [head] + tail;
  }

  lemma {:induction false} BeforeById(recs: seq<Rec>, r: Rec, q: Rec)
    requires Alone(recs, r) && Alone(recs, q)
    ensures Before(IdsOf(recs), r.id, q.id) <==> Before(recs, r, q)
  {
    if recs != [] {
      var head, tail := recs[0], recs[1..];
      assert recs == [head] + tail;
      IdsOfConcat([head], tail);
      assert IdsOf([head]) == [head.id];
      AloneInTail(head, tail, r);
      AloneInTail(head, tail, q);
      BeforeCons(head, tail, r, q);
      BeforeCons(head.id, IdsOf(tail), r.id, q.id);
      BeforeById(tail, r, q);
    }
  }

  /** Of two kept records, the one whose identifier occurs first comes first. */
  lemma KeptBefore(recs: seq<Rec>, r: Rec, q: Rec)
    requires r in Kept(recs) && q in Kept(recs)
    ensures Before(Kept(recs), r, q) <==> Before(IdsOf(recs), r.id, q.id)
  {
    KeptIsUnique(recs);
    KeptMembers(recs);
    BeforeById(Kept(recs), r, q);
    KeptOrder(recs);
    SeenOrder(recs, r.id, q.id);
  }

  /** Of two loaded records that rank level too. */
  lemma LoadedBefore(files: Directory, le: (Rec, Rec) -> bool, r: Rec, q: Rec)
    requires Ranks(le) && r in LoadedBy(files, le) && q in LoadedBy(files, le) && Level(r, q, le)
    ensures Before(LoadedBy(files, le), r, q) <==> Before(IdsOf(All(files)), r.id, q.id)
  {
    SameElements(Kept(All(files)), le);
    SortKeepsBefore(Kept(All(files)), r, q, le);
    KeptBefore(All(files), r, q);
  }

  // ---------------------------------------------------------------------------------------
  // The order of files that are read one after the other
  // ---------------------------------------------------------------------------------------

  /** The first file in reading order with the identifier. */
  ghost predicate FirstListing(files: Directory, id: string, n: string) {
    && n in files && Lists(files[n], id)
    && forall m :: m in files && Lists(files[m], id) ==> LexLe(n, m)
  }

  lemma {:induction false} NotListedYet(files: Directory, names: seq<string>, id: string)
    requires forall n :: n in names ==> n in files && !Lists(files[n], id)
    ensures id !in IdsOf(Concat(files, names))
  {
    if names != [] {
      var front, last := names[..|names| - 1], names[|names| - 1];
      assert names == front + [last];
      NotListedYet(files, front, id);
      IdsOfConcat(Concat(files, front), files[last]);
      ListsIff(files[last], id);
    }
  }

  lemma {:induction false} ConcatOfBoth(files: Directory, a: seq<string>, b: seq<string>)
    requires (forall n :: n in a ==> n in files) && (forall n :: n in b ==> n in files)
    ensures Concat(files, a + b) == Concat(files, a) + Concat(files, b)
  {
    if b == [] {
      assert a + b == a;
    } else {
      assert (a + b)[..|a + b| - 1] == a + b[..|b| - 1];
      ConcatOfBoth(files, a, b[..|b| - 1]);
    }
  }

  /** The names up to `m`, `m`, and the names after it. */
  lemma SplitNames(names: set<string>, m: string) returns (front: seq<string>, rest: seq<string>)
    requires m in names
    ensures SortedNames(names) == front + ([m] + rest)
    ensures (forall n :: n in front ==> n in names && !LexLe(m, n)) && (forall n :: n in rest ==> n in names)
  {
    var all := SortedNames(names);
    var i := IndexOf(all, m);
    front, rest := all[..i], all[i + 1..];
    assert all == front + ([m] + rest);
    forall n | n in front ensures n in names && !LexLe(m, n) {
      var k :| 0 <= k < i && front[k] == n;
      SortedNamesIncrease(names, k, i);
      LexTotal(m, n);
    }
    forall n | n in rest ensures n in names { assert n in all; }
  }

  /** Where no file before the first one with `x` has `y`, that file decides. */
  lemma AtFirstFile(files: Directory, x: string, y: string, m: string)
    requires FirstListing(files, x, m) && forall n :: n in files && Lists(files[n], y) ==> LexLe(m, n)
    ensures Before(IdsOf(All(files)), x, y) <==> Before(IdsOf(files[m]), x, y)
  {
    var front, rest := SplitNames(files.Keys, m);
    forall n | n in front ensures !Lists(files[n], x) && !Lists(files[n], y) {}
    NotListedYet(files, front, x);
    NotListedYet(files, front, y);
    ListsIff(files[m], x);
    InThreeParts(files, front, m, rest);
    ThirdPart(IdsOf(Concat(files, front)), IdsOf(files[m]), IdsOf(Concat(files, rest)), x, y);
  }

  lemma InThreeParts(files: Directory, front: seq<string>, m: string, rest: seq<string>)
    requires m in files && (forall n :: n in front ==> n in files) && (forall n :: n in rest ==> n in files)
    ensures forall n :: n in front + ([m] + rest) ==> n in files
    ensures IdsOf(Concat(files, front + ([m] + rest)))
      == IdsOf(Concat(files, front)) + (IdsOf(files[m]) + IdsOf(Concat(files, rest)))
  {
    ConcatOfBoth(files, [m], rest);
    ConcatOfBoth(files, front, [m] + rest);
    ConcatNext(files, [], m);
    assert [] + [m] == [m] && Concat(files, [m]) == files[m];
    IdsOfConcat(files[m], Concat(files, rest));
    IdsOfConcat(Concat(files, front), Concat(files, [m] + rest));
  }

  lemma ThirdPart<T>(a: seq<T>, b: seq<T>, c: seq<T>, x: T, y: T)
    requires x !in a && y !in a && x in b
    ensures Before(a + (b + c), x, y) <==> Before(b, x, y)
  {
    BeforeConcat(a, b + c, x, y);
    BeforeConcat(b, c, x, y);
    BeforeIsMember(a, x, y);
    BeforeIsMember(b, x, y);
  }

  /** Of two identifiers the one whose first file comes first is read first, and in the same file
      the one listed first. */
  lemma BeforeByFile(files: Directory, x: string, y: string, m: string, n: string)
    requires FirstListing(files, x, m) && FirstListing(files, y, n) && x != y
    ensures Before(IdsOf(All(files)), x, y)
      <==> (m != n && LexLe(m, n)) || (m == n && Before(IdsOf(files[m]), x, y))
  {
    LexTotal(m, n);
    if LexLe(m, n) {
      FromOn(files, y, m, n);
      AtFirstFile(files, x, y, m);
      ListsIff(files[m], x);
      ListsIff(files[m], y);
      BeforeIsMember(IdsOf(files[m]), x, y);
    } else {
      FromOn(files, x, n, m);
      AtFirstFile(files, y, x, n);
      ListsIff(files[n], x);
      ListsIff(files[n], y);
      BeforeIsMember(IdsOf(files[n]), y, x);
      BothRead(files, x, y);
      OneIsBefore(IdsOf(All(files)), x, y);
    }
  }

  /** Files that list `y` come no earlier than `m`, if the first of them does not. */
  lemma FromOn(files: Directory, y: string, m: string, n: string)
    requires FirstListing(files, y, n) && LexLe(m, n)
    ensures forall k :: k in files && Lists(files[k], y) ==> LexLe(m, k)
  {
    forall k | k in files && Lists(files[k], y) ensures LexLe(m, k) { LexTransitive(m, n, k); }
  }

  lemma BothRead(files: Directory, x: string, y: string)
    requires (exists m :: m in files && Lists(files[m], x)) && (exists n :: n in files && Lists(files[n], y))
    ensures x in IdsOf(All(files)) && y in IdsOf(All(files))
  {
    ConcatMembers(files, SortedNames(files.Keys));
    var m :| m in files && Lists(files[m], x);
    var r :| r in files[m] && r.id == x;
    assert r in All(files);
    var n :| n in files && Lists(files[n], y);
    var q :| q in files[n] && q.id == y;
    assert q in All(files);
    ListsIff(All(files), x);
    ListsIff(All(files), y);
  }

  // ---------------------------------------------------------------------------------------
  // The files after a save
  // ---------------------------------------------------------------------------------------

  /** The files with an identifier that a save leaves alone. */
  ghost function Spared(files: Directory, home: Rec -> string, recs: seq<Rec>, id: string): set<string> {
    set n | n in files && Unwritten(files, home, recs, n) && Lists(files[n], id)
  }

  /** The files in which a save leaves the identifier of `r`: its own, and those the save leaves
      alone that list it. */
  ghost function Fronts(files: Directory, home: Rec -> string, recs: seq<Rec>, r: Rec): set<string> {
    {home(r)} + Spared(files, home, recs, r.id)
  }

  /** The first of them in reading order. */
  ghost function Front(files: Directory, home: Rec -> string, recs: seq<Rec>, r: Rec): (n: string)
    ensures n in Fronts(files, home, recs, r)
    ensures forall m :: m in Fronts(files, home, recs, r) ==> LexLe(n, m)
  {
    var names := Fronts(files, home, recs, r);
    LeastExists(names);
    var n :| n in names && forall m :: m in names ==> LexLe(n, m);
    n
  }

  lemma SavedListing(files: Directory, home: Rec -> string, le: (Rec, Rec) -> bool, r: Rec, n: string)
    requires r in LoadedBy(files, le)
    ensures var loaded := LoadedBy(files, le);
      var out := SavedBy(files, home, le, loaded);
      n in out && Lists(out[n], r.id) <==> n in Fronts(files, home, loaded, r)
  {
    var loaded := LoadedBy(files, le);
    LoadedIsUnique(files, le);
    if Members(loaded, home, n) != [] {
      WrittenFile(files, home, le, loaded, r, n);
      WrittenFront(files, home, loaded, r, n);
    } else {
      assert r in Members(loaded, home, home(r));
      SparedListing(files, home, le, loaded, r.id, n);
    }
  }

  lemma WrittenFront(files: Directory, home: Rec -> string, recs: seq<Rec>, r: Rec, n: string)
    requires Members(recs, home, n) != []
    ensures n in Fronts(files, home, recs, r) <==> n == home(r)
  {
  }

  lemma SparedListing(files: Directory, home: Rec -> string, le: (Rec, Rec) -> bool, recs: seq<Rec>, id: string,
                      n: string)
    requires Members(recs, home, n) == []
    ensures var out := SavedBy(files, home, le, recs);
      n in out && Lists(out[n], id) <==> n in Spared(files, home, recs, id)
  {
  }

  lemma FrontIsFirst(files: Directory, home: Rec -> string, le: (Rec, Rec) -> bool, r: Rec)
    requires r in LoadedBy(files, le)
    ensures var loaded := LoadedBy(files, le);
      FirstListing(SavedBy(files, home, le, loaded), r.id, Front(files, home, loaded, r))
  {
    var loaded := LoadedBy(files, le);
    SavedListing(files, home, le, r, Front(files, home, loaded, r));
    forall m | m in SavedBy(files, home, le, loaded) && Lists(SavedBy(files, home, le, loaded)[m], r.id)
      ensures LexLe(Front(files, home, loaded, r), m)
    {
      SavedListing(files, home, le, r, m);
    }
  }

  lemma {:induction false} MembersBefore(recs: seq<Rec>, home: Rec -> string, r: Rec, q: Rec)
    requires home(r) == home(q)
    ensures Before(Members(recs, home, home(r)), r, q) <==> Before(recs, r, q)
  {
    if recs != [] {
      var head, tail := recs[0], recs[1..];
      assert recs == [head] + tail;
      MembersCons(head, tail, home, home(r));
      MembersBefore(tail, home, r, q);
      var ms := Members(tail, home, home(r));
      assert ([head] + ms)[1..] == ms;
    }
  }

  /** In a file that is written, tied records stay in the order of the load. */
  lemma WrittenBefore(files: Directory, home: Rec -> string, le: (Rec, Rec) -> bool, r: Rec, q: Rec)
    requires Ranks(le) && r in LoadedBy(files, le) && q in LoadedBy(files, le) && home(r) == home(q)
    requires Level(r, q, le) && Before(LoadedBy(files, le), r, q)
    ensures home(r) in SavedBy(files, home, le, LoadedBy(files, le))
    ensures Before(IdsOf(SavedBy(files, home, le, LoadedBy(files, le))[home(r)]), r.id, q.id)
  {
    var loaded := LoadedBy(files, le);
    var ms := Members(loaded, home, home(r));
    assert r in ms && q in ms;
    LoadedIsUnique(files, le);
    SortedMembersUnique(loaded, home, le, home(r));
    MembersBefore(loaded, home, r, q);
    SortKeepsBefore(ms, r, q, le);
    BeforeById(Sort(ms, le), r, q);
  }

  // ---------------------------------------------------------------------------------------
  // When the order stays
  // ---------------------------------------------------------------------------------------

  /** After a save `q` is read before `r`: its first file comes earlier, or both have the same one,
      which the save leaves alone and which does not list `r` first. */
  ghost predicate Crosses(files: Directory, home: Rec -> string, recs: seq<Rec>, r: Rec, q: Rec) {
    var m, n := Front(files, home, recs, r), Front(files, home, recs, q);
    || (n != m && LexLe(n, m))
    || (n == m && Unwritten(files, home, recs, m) && !Before(IdsOf(files[m]), r.id, q.id))
  }

  /** Tied records, listed one after the other, that do not cross. */
  ghost predicate NoneCross(files: Directory, home: Rec -> string, recs: seq<Rec>, le: (Rec, Rec) -> bool) {
    forall r, q :: q in recs && Level(r, q, le) && Before(recs, r, q) ==> !Crosses(files, home, recs, r, q)
  }

  /** The first file decides, read off the files as they were. */
  lemma FrontsDecide(files: Directory, home: Rec -> string, le: (Rec, Rec) -> bool, r: Rec, q: Rec)
    returns (m: string, n: string)
    requires Ranks(le) && r in LoadedBy(files, le) && q in LoadedBy(files, le) && r.id != q.id
    ensures var loaded := LoadedBy(files, le);
      var out := SavedBy(files, home, le, loaded);
      && m == Front(files, home, loaded, r) && n == Front(files, home, loaded, q) && m in out
      && (Before(IdsOf(All(out)), r.id, q.id)
          <==> (m != n && LexLe(m, n)) || (m == n && Before(IdsOf(out[m]), r.id, q.id)))
  {
    var loaded := LoadedBy(files, le);
    m, n := Front(files, home, loaded, r), Front(files, home, loaded, q);
    FrontIsFirst(files, home, le, r);
    FrontIsFirst(files, home, le, q);
    BeforeByFile(SavedBy(files, home, le, loaded), r.id, q.id, m, n);
  }

  /** In one file the records cross only if the save leaves it alone. */
  lemma InOneFront(files: Directory, home: Rec -> string, le: (Rec, Rec) -> bool, r: Rec, q: Rec, n: string)
    requires Ranks(le) && r in LoadedBy(files, le) && q in LoadedBy(files, le)
    requires Level(r, q, le) && Before(LoadedBy(files, le), r, q)
    requires n in Fronts(files, home, LoadedBy(files, le), r) && n in Fronts(files, home, LoadedBy(files, le), q)
    ensures var loaded := LoadedBy(files, le);
      var out := SavedBy(files, home, le, loaded);
      && n in out
      && (Before(IdsOf(out[n]), r.id, q.id)
          <==> !(Unwritten(files, home, loaded, n) && !Before(IdsOf(files[n]), r.id, q.id)))
  {
    if !Unwritten(files, home, LoadedBy(files, le), n) { WrittenBefore(files, home, le, r, q); }
  }

  lemma CrossesIff(files: Directory, home: Rec -> string, le: (Rec, Rec) -> bool, r: Rec, q: Rec)
    requires Ranks(le) && r in LoadedBy(files, le) && q in LoadedBy(files, le)
    requires Level(r, q, le) && Before(LoadedBy(files, le), r, q)
    ensures var loaded := LoadedBy(files, le);
      Before(IdsOf(All(SavedBy(files, home, le, loaded))), r.id, q.id) <==> !Crosses(files, home, loaded, r, q)
  {
    BeforeIsMember(LoadedBy(files, le), r, q);
    LoadedIsUnique(files, le);
    var m, n := FrontsDecide(files, home, le, r, q);
    LexTotal(m, n);
    if m == n { InOneFront(files, home, le, r, q, m); }
  }

  /** No loaded value is shadowed by another one. */
  ghost predicate NoneShadowed(files: Directory, home: Rec -> string, recs: seq<Rec>) {
    forall r, n :: r in recs && Shadows(files, home, recs, r, n) ==> LastWrite(files[n], r)
  }

  lemma SameUniqueRecords(a: seq<Rec>, b: seq<Rec>)
    requires UniqueIds(a) && UniqueIds(b) && forall r :: r in a <==> r in b
    ensures multiset(a) == multiset(b)
  {
    forall r ensures multiset(a)[r] == multiset(b)[r] {
      assert multiset(a)[r] <= 1 && multiset(b)[r] <= 1;
      assert r in a <==> r in multiset(a);
      assert r in b <==> r in multiset(b);
    }
  }

  /** When every element survives, nothing else can come in, as the identifiers stay. */
  lemma SameValues(files: Directory, home: Rec -> string, le: (Rec, Rec) -> bool)
    requires Ranks(le)
    requires forall r :: r in LoadedBy(files, le) ==>
      r in LoadedBy(SavedBy(files, home, le, LoadedBy(files, le)), le)
    ensures multiset(LoadedBy(SavedBy(files, home, le, LoadedBy(files, le)), le)) == multiset(LoadedBy(files, le))
  {
    var loaded := LoadedBy(files, le);
    var out := SavedBy(files, home, le, loaded);
    LoadedIsUnique(files, le);
    LoadedIsUnique(out, le);
    forall r | r in LoadedBy(out, le) ensures r in loaded {
      SaveConservesIds(files, home, le, r.id);
      var q :| q in loaded && q.id == r.id;
    }
    SameUniqueRecords(LoadedBy(out, le), loaded);
  }

  lemma SameValuesIff(files: Directory, home: Rec -> string, le: (Rec, Rec) -> bool)
    requires Ranks(le)
    ensures var loaded := LoadedBy(files, le);
      multiset(LoadedBy(SavedBy(files, home, le, loaded), le)) == multiset(loaded)
      <==> NoneShadowed(files, home, loaded)
  {
    var loaded := LoadedBy(files, le);
    var again := LoadedBy(SavedBy(files, home, le, loaded), le);
    if multiset(again) == multiset(loaded) {
      SameMembers(again, loaded);
      forall r, n | r in loaded && Shadows(files, home, loaded, r, n) ensures LastWrite(files[n], r) {
        LoadedSurvivesIff(files, home, le, r);
      }
    }
    if NoneShadowed(files, home, loaded) {
      forall r | r in loaded ensures r in again { LoadedSurvivesIff(files, home, le, r); }
      SameValues(files, home, le);
    }
  }

  /** For any layout, load, save, load gives the same sequence if and only if no value is shadowed
      and no tied records cross. */
  lemma ReloadsIff(files: Directory, home: Rec -> string, le: (Rec, Rec) -> bool)
    requires Ranks(le)
    ensures var loaded := LoadedBy(files, le);
      LoadedBy(SavedBy(files, home, le, loaded), le) == loaded
      <==> NoneShadowed(files, home, loaded) && NoneCross(files, home, loaded, le)
  {
    var loaded := LoadedBy(files, le);
    SameValuesIff(files, home, le);
    if multiset(LoadedBy(SavedBy(files, home, le, loaded), le)) == multiset(loaded) {
      SameOrderIff(files, home, le);
    }
  }

  lemma SameOrderIff(files: Directory, home: Rec -> string, le: (Rec, Rec) -> bool)
    requires Ranks(le)
    requires multiset(LoadedBy(SavedBy(files, home, le, LoadedBy(files, le)), le)) == multiset(LoadedBy(files, le))
    ensures var loaded := LoadedBy(files, le);
      LoadedBy(SavedBy(files, home, le, loaded), le) == loaded <==> NoneCross(files, home, loaded, le)
  {
    var loaded := LoadedBy(files, le);
    var out := SavedBy(files, home, le, loaded);
    var again := LoadedBy(out, le);
    SameMembers(again, loaded);
    forall r, q | q in loaded && Level(r, q, le) && Before(loaded, r, q)
      ensures Before(again, r, q) <==> !Crosses(files, home, loaded, r, q)
    {
      BeforeIsMember(loaded, r, q);
      CrossesIff(files, home, le, r, q);
      LoadedBefore(out, le, r, q);
    }
    if NoneCross(files, home, loaded, le) {
      forall r, q | Level(r, q, le) && Before(loaded, r, q) ensures Before(again, r, q) {
        BeforeIsMember(loaded, r, q);
        BeforeIsMember(again, r, q);
      }
      LoadedIsUnique(files, le);
      SortIsSorted(Kept(All(files)), le);
      SortIsSorted(Kept(All(out)), le);
      SortedAlike(loaded, again, le);
    }
  }

  /** In the canonical layout values always survive, so only ties matter. */
  lemma CanonicalReloadsIff(files: Directory, home: Rec -> string, le: (Rec, Rec) -> bool)
    requires Ranks(le) && Canonical(files, home)
    ensures var loaded := LoadedBy(files, le);
      LoadedBy(SavedBy(files, home, le, loaded), le) == loaded <==> NoneCross(files, home, loaded, le)
  {
    var loaded := LoadedBy(files, le);
    ReloadsIff(files, home, le);
    forall r, n | r in loaded && Shadows(files, home, loaded, r, n) ensures LastWrite(files[n], r) {
      CanonicalSurvives(files, home, le, r);
      LoadedSurvivesIff(files, home, le, r);
    }
  }

  /** Different records rank differently. */
  ghost predicate NoTies(recs: seq<Rec>, le: (Rec, Rec) -> bool) {
    forall x, y :: x in recs && y in recs && Level(x, y, le) ==> x == y
  }

  /** So canonical files without ties survive unchanged. */
  lemma UntiedRoundTrip(files: Directory, home: Rec -> string, le: (Rec, Rec) -> bool)
    requires Ranks(le) && Canonical(files, home) && NoTies(LoadedBy(files, le), le)
    ensures LoadedBy(SavedBy(files, home, le, LoadedBy(files, le)), le) == LoadedBy(files, le)
  {
    var loaded := LoadedBy(files, le);
    CanonicalReloadsIff(files, home, le);
    forall r, q | q in loaded && Level(r, q, le) ensures !Before(loaded, r, q) {
      BeforeIsMember(loaded, r, q);
    }
  }
}
