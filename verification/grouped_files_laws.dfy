/** What reading and regrouping files conserve, for any grouping `home` and any load order. */
module GroupedFilesLaws {
  import opened PyDict
  import opened StableSort
  import opened Text
  import opened GroupedFiles

  // ---------------------------------------------------------------------------------------
  // What a load returns: every identifier once, with the value written last
  // ---------------------------------------------------------------------------------------

  /** The last record of `recs` with the identifier of `r` is `r`. */
  ghost predicate LastWrite(recs: seq<Rec>, r: Rec) {
    recs != [] && (recs[|recs| - 1] == r || (recs[|recs| - 1].id != r.id && LastWrite(recs[..|recs| - 1], r)))
  }

  lemma {:induction false} SeenIsLastWrite(recs: seq<Rec>)
    ensures forall id :: id in Seen(recs).at ==> Seen(recs).at[id].id == id && id != ""
    ensures forall r :: LastWrite(recs, r) && r.id != "" <==> r.id in Seen(recs).at && Seen(recs).at[r.id] == r
  {
    if recs != [] {
      SeenIsLastWrite(recs[..|recs| - 1]);
    }
  }

  lemma ValuesMembers(d: Dict<string, Rec>)
    requires d.Valid()
    ensures forall r :: r in d.Values() <==> exists id :: id in d.at && d.at[id] == r
  {
    forall r | exists id :: id in d.at && d.at[id] == r ensures r in d.Values() {
      var id :| id in d.at && d.at[id] == r;
      assert d.Values()[IndexOf(d.order, id)] == r;
    }
  }

  lemma KeptMembers(recs: seq<Rec>)
    ensures forall r :: r in Kept(recs) <==> r.id != "" && LastWrite(recs, r)
  {
    SeenIsLastWrite(recs);
    ValuesMembers(Seen(recs));
  }

  /** A load is sorted and holds exactly the last write of every identifier, the files being
      read in the order of their names. */
  lemma LoadedIsLastWrites(files: Directory, le: (Rec, Rec) -> bool, r: Rec)
    requires Ranks(le)
    ensures Sorted(LoadedBy(files, le), le)
    ensures r in LoadedBy(files, le) <==> r.id != "" && LastWrite(All(files), r)
  {
    SortIsSorted(Kept(All(files)), le);
    SameElements(Kept(All(files)), le);
    KeptMembers(All(files));
  }

  /** No identifier occurs twice; a statement about multisets, so any reordering keeps it. */
  ghost predicate UniqueIds(recs: seq<Rec>) {
    && (forall r :: multiset(recs)[r] <= 1)
    && (forall r, q :: r in recs && q in recs && r.id == q.id ==> r == q)
  }

  lemma {:induction false} OnceEach(recs: seq<Rec>)
    requires forall i, j :: 0 <= i < j < |recs| ==> recs[i] != recs[j]
    ensures forall r :: multiset(recs)[r] <= 1
  {
    if recs != [] {
      var n := |recs| - 1;
      assert recs == recs[..n] + [recs[n]];
      OnceEach(recs[..n]);
      assert recs[n] !in recs[..n];
      assert recs[n] !in multiset(recs[..n]);
    }
  }

  lemma KeptIsUnique(recs: seq<Rec>)
    ensures UniqueIds(Kept(recs))
  {
    var d := Seen(recs);
    var vs := d.Values();
    SeenIsLastWrite(recs);
    forall i, j | 0 <= i < j < |vs| ensures vs[i] != vs[j] {
      assert IndexOf(d.order, d.order[i]) == i && IndexOf(d.order, d.order[j]) == j;
      assert vs[i].id == d.order[i] && vs[j].id == d.order[j];
    }
    OnceEach(vs);
    ValuesMembers(d);
  }

  lemma LoadedIsUnique(files: Directory, le: (Rec, Rec) -> bool)
    ensures UniqueIds(LoadedBy(files, le))
    ensures forall r :: r in LoadedBy(files, le) ==> r.id != ""
  {
    KeptIsUnique(All(files));
    KeptMembers(All(files));
    SameElements(Kept(All(files)), le);
  }

  // ---------------------------------------------------------------------------------------
  // Conservation of identifiers, for any layout of the files
  // ---------------------------------------------------------------------------------------

  ghost predicate Holds(files: Directory, id: string, name: string, r: Rec) {
    name in files && r in files[name] && r.id == id
  }

  ghost predicate HasId(files: Directory, id: string) {
    id != "" && exists name, r :: Holds(files, id, name, r)
  }

  ghost predicate Lists(recs: seq<Rec>, id: string) {
    exists r :: r in recs && r.id == id
  }

  lemma {:induction false} ConcatMembers(files: Directory, names: seq<string>)
    requires forall n :: n in names ==> n in files
    ensures forall r :: r in Concat(files, names) <==> exists n :: n in names && r in files[n]
  {
    if names != [] {
      assert names == names[..|names| - 1] + [names[|names| - 1]];
      ConcatMembers(files, names[..|names| - 1]);
    }
  }

  lemma {:induction false} SomeLastWrite(recs: seq<Rec>, r: Rec) returns (last: Rec)
    requires r in recs
    ensures last.id == r.id && LastWrite(recs, last)
  {
    var n := |recs| - 1;
    assert recs == recs[..n] + [recs[n]];
    if recs[n].id == r.id {
      last := recs[n];
    } else {
      last := SomeLastWrite(recs[..n], r);
    }
  }

  lemma {:induction false} LastWriteIsMember(recs: seq<Rec>, r: Rec)
    requires LastWrite(recs, r)
    ensures r in recs
  {
    if recs[|recs| - 1] != r { LastWriteIsMember(recs[..|recs| - 1], r); }
  }

  lemma KeptIds(recs: seq<Rec>, id: string)
    ensures Lists(Kept(recs), id) <==> id != "" && Lists(recs, id)
  {
    KeptMembers(recs);
    if id != "" && Lists(recs, id) {
      var r :| r in recs && r.id == id;
      var last := SomeLastWrite(recs, r);
    }
    if Lists(Kept(recs), id) {
      var r :| r in Kept(recs) && r.id == id;
      LastWriteIsMember(recs, r);
    }
  }

  /** A load lists exactly the identifiers that occur in the files. */
  lemma LoadedIds(files: Directory, le: (Rec, Rec) -> bool, id: string)
    ensures Lists(LoadedBy(files, le), id) <==> HasId(files, id)
  {
    ConcatMembers(files, SortedNames(files.Keys));
    KeptIds(All(files), id);
    SameElements(Kept(All(files)), le);
    if HasId(files, id) {
      var name, r :| Holds(files, id, name, r);
      assert r in All(files);
    }
    if Lists(All(files), id) && id != "" {
      var r :| r in All(files) && r.id == id;
      var n :| n in SortedNames(files.Keys) && r in files[n];
      assert Holds(files, id, n, r);
    }
  }

  /** Saving `recs` that list every identifier of the files leaves exactly their identifiers. */
  lemma SavedIds(files: Directory, home: Rec -> string, le: (Rec, Rec) -> bool, recs: seq<Rec>, id: string)
    requires id != ""
    requires HasId(files, id) ==> Lists(recs, id)
    ensures HasId(SavedBy(files, home, le, recs), id) <==> Lists(recs, id)
  {
    var out := SavedBy(files, home, le, recs);
    if Lists(recs, id) {
      var r :| r in recs && r.id == id;
      var name := home(r);
      assert r in Members(recs, home, name);
      SameElements(Members(recs, home, name), le);
      assert Holds(out, id, name, r);
    }
    if HasId(out, id) {
      var name, r :| Holds(out, id, name, r);
      if Members(recs, home, name) != [] {
        SameElements(Members(recs, home, name), le);
      } else {
        assert Holds(files, id, name, r);
      }
    }
  }

  /** Saving what was loaded conserves the set of identifiers, wherever the records were. */
  lemma SaveConservesIds(files: Directory, home: Rec -> string, le: (Rec, Rec) -> bool, id: string)
    ensures Lists(LoadedBy(SavedBy(files, home, le, LoadedBy(files, le)), le), id) <==> Lists(LoadedBy(files, le), id)
  {
    LoadedIds(files, le, id);
    LoadedIds(SavedBy(files, home, le, LoadedBy(files, le)), le, id);
    if id != "" { SavedIds(files, home, le, LoadedBy(files, le), id); }
  }

  // ---------------------------------------------------------------------------------------
  // Reading files whose identifiers are apart
  // ---------------------------------------------------------------------------------------

  /** Every record lies in the file its group names. */
  ghost predicate Canonical(files: Directory, home: Rec -> string) {
    forall name, r :: name in files && r in files[name] && r.id != "" ==> home(r) == name
  }

  /** No identifier occurs in two files. */
  ghost predicate OneFileEach(files: Directory) {
    forall id, m, n, r, q :: Holds(files, id, m, r) && Holds(files, id, n, q) && id != "" ==> m == n
  }

  ghost predicate ApartIds(a: seq<Rec>, b: seq<Rec>) {
    forall r, q :: r in a && q in b && r.id == q.id ==> r.id == ""
  }

  lemma SeenSnoc(recs: seq<Rec>, r: Rec)
    ensures Seen(recs + [r]) == if r.id == "" then Seen(recs) else Seen(recs).Put(r.id, r)
  {
    assert (recs + [r])[..|recs|] == recs;
  }

  lemma {:induction false} SeenIds(recs: seq<Rec>, id: string)
    requires id in Seen(recs).at
    ensures id != "" && Lists(recs, id)
  {
    var front, last := recs[..|recs| - 1], recs[|recs| - 1];
    assert recs == front + [last];
    if last.id == id && id != "" {
      assert last in recs;
    } else {
      SeenIds(front, id);
      var r :| r in front && r.id == id;
      assert r in recs;
    }
  }

  ghost predicate SideBySide(x: Dict<string, Rec>, y: Dict<string, Rec>, z: Dict<string, Rec>) {
    && x.Valid() && y.Valid() && z.Valid()
    && z.order == x.order + y.order
    && (forall id :: id in z.at <==> id in x.at || id in y.at)
    && (forall id :: id in x.at ==> id !in y.at && z.at[id] == x.at[id])
    && (forall id :: id in y.at ==> z.at[id] == y.at[id])
  }

  lemma PutBeside(x: Dict<string, Rec>, y: Dict<string, Rec>, z: Dict<string, Rec>, r: Rec)
    requires SideBySide(x, y, z) && r.id !in x.at
    ensures SideBySide(x, y.Put(r.id, r), z.Put(r.id, r))
  {
  }

  lemma {:induction false} SeenApart(a: seq<Rec>, b: seq<Rec>)
    requires ApartIds(a, b)
    ensures SideBySide(Seen(a), Seen(b), Seen(a + b))
  {
    if b == [] {
      assert a + b == a;
    } else {
      var front, last := b[..|b| - 1], b[|b| - 1];
      assert b == front + [last] && a + b == (a + front) + [last];
      assert last in b;
      SeenApart(a, front);
      SeenSnoc(a + front, last);
      SeenSnoc(front, last);
      if last.id in Seen(a).at { SeenIds(a, last.id); }
      if last.id != "" { PutBeside(Seen(a), Seen(front), Seen(a + front), last); }
    }
  }

  lemma KeptApart(a: seq<Rec>, b: seq<Rec>)
    requires ApartIds(a, b)
    ensures Kept(a + b) == Kept(a) + Kept(b)
  {
    SeenApart(a, b);
    var x, y := Seen(a), Seen(b);
    ValuesBeside(x, y, Seen(a + b));
  }

  lemma ValuesBeside(x: Dict<string, Rec>, y: Dict<string, Rec>, z: Dict<string, Rec>)
    requires SideBySide(x, y, z)
    ensures z.Values() == x.Values() + y.Values()
  {
    forall i | 0 <= i < |x.order| + |y.order| ensures z.Values()[i] == (x.Values() + y.Values())[i] {
      if i < |x.order| { ValueBeside(x, y, z, i); } else { ValueBehind(x, y, z, i - |x.order|); }
    }
  }

  lemma ValueBeside(x: Dict<string, Rec>, y: Dict<string, Rec>, z: Dict<string, Rec>, i: nat)
    requires SideBySide(x, y, z) && i < |x.order|
    ensures z.Values()[i] == x.Values()[i]
  {
    assert x.order[i] in x.at && z.order[i] == x.order[i];
  }

  lemma ValueBehind(x: Dict<string, Rec>, y: Dict<string, Rec>, z: Dict<string, Rec>, i: nat)
    requires SideBySide(x, y, z) && i < |y.order|
    ensures z.Values()[|x.order| + i] == y.Values()[i]
  {
    assert y.order[i] in y.at && z.order[|x.order| + i] == y.order[i];
  }

  function KeptFiles(files: Directory): Directory {
    map n | n in files :: Kept(files[n])
  }

  lemma DistinctFront(names: seq<string>)
    requires names != [] && Distinct(names)
    ensures Distinct(names[..|names| - 1]) && names[|names| - 1] !in names[..|names| - 1]
  {
    var front, last := names[..|names| - 1], [names[|names| - 1]];
    assert names == front + last;
    forall i | 0 <= i < |front| ensures IndexOf(front, front[i]) == i {
      IndexInPrefix(front, last, front[i]);
      assert IndexOf(names, names[i]) == i;
    }
    assert IndexOf(names, names[|names| - 1]) == |names| - 1;
    if last[0] in front {
      IndexInPrefix(front, last, last[0]);
    }
  }

  lemma SortedNamesDistinct(names: set<string>)
    ensures Distinct(SortedNames(names))
  {
    var order := SortedNames(names);
    forall i | 0 <= i < |order| ensures IndexOf(order, order[i]) == i {
      var k := IndexOf(order, order[i]);
      if k < i { SortedNamesIncrease(names, k, i); }
      if i < k { SortedNamesIncrease(names, i, k); }
    }
  }

  /** Reading file by file and reading each file alone keep the same records. */
  lemma {:induction false} KeptByFile(files: Directory, names: seq<string>)
    requires Distinct(names) && (forall n :: n in names ==> n in files) && OneFileEach(files)
    ensures Kept(Concat(files, names)) == Concat(KeptFiles(files), names)
  {
    if names != [] {
      var front, name := names[..|names| - 1], names[|names| - 1];
      assert names == front + [name];
      DistinctFront(names);
      KeptByFile(files, front);
      ConcatMembers(files, front);
      forall r, q | r in Concat(files, front) && q in files[name] && r.id == q.id ensures r.id == "" {
        var m :| m in front && r in files[m];
        assert Holds(files, r.id, m, r) && Holds(files, r.id, name, q);
      }
      KeptApart(Concat(files, front), files[name]);
    }
  }

  // ---------------------------------------------------------------------------------------
  // Splitting by file
  // ---------------------------------------------------------------------------------------

  function SplitBy(names: set<string>, home: Rec -> string, recs: seq<Rec>): Directory {
    map n | n in names :: Members(recs, home, n)
  }

  lemma {:induction false} MembersConcat(a: seq<Rec>, b: seq<Rec>, home: Rec -> string, name: string)
    ensures Members(a + b, home, name) == Members(a, home, name) + Members(b, home, name)
  {
    if b == [] {
      assert a + b == a;
    } else {
      assert (a + b)[..|a + b| - 1] == a + b[..|b| - 1];
      MembersConcat(a, b[..|b| - 1], home, name);
    }
  }

  lemma {:induction false} MembersAllOrNone(recs: seq<Rec>, home: Rec -> string, m: string, name: string)
    requires forall r :: r in recs ==> home(r) == m
    ensures Members(recs, home, name) == if m == name then recs else []
  {
    if recs != [] {
      assert recs == recs[..|recs| - 1] + [recs[|recs| - 1]];
      MembersAllOrNone(recs[..|recs| - 1], home, m, name);
    }
  }

  /** Out of a concatenation of files, picking a file's records gives back that file. */
  lemma {:induction false} MembersOfConcat(files: Directory, names: seq<string>, home: Rec -> string, name: string)
    requires Distinct(names) && forall n :: n in names ==> n in files
    requires forall n, r :: n in files && r in files[n] ==> home(r) == n
    ensures Members(Concat(files, names), home, name) == if name in names then files[name] else []
  {
    if names != [] {
      var front, last := names[..|names| - 1], names[|names| - 1];
      assert names == front + [last];
      DistinctFront(names);
      MembersOfConcat(files, front, home, name);
      MembersConcat(Concat(files, front), files[last], home, name);
      MembersAllOrNone(files[last], home, last, name);
      assert name in names <==> name in front || name == last;
      assert Members(Concat(files, names), home, name) ==
        (if name in front then files[name] else []) + (if last == name then files[last] else []);
    }
  }

  lemma MembersCons(head: Rec, tail: seq<Rec>, home: Rec -> string, name: string)
    ensures Members([head] + tail, home, name) ==
      if home(head) == name then [head] + Members(tail, home, name) else Members(tail, home, name)
  {
    MembersConcat([head], tail, home, name);
    MembersAllOrNone([head], home, home(head), name);
  }

  /** Picking a file and picking a level commute. */
  lemma {:induction false} LevelOfMembers(recs: seq<Rec>, home: Rec -> string, name: string, x: Rec,
                                          le: (Rec, Rec) -> bool)
    ensures LevelWith(Members(recs, home, name), x, le) == Members(LevelWith(recs, x, le), home, name)
  {
    if recs != [] {
      var head, tail := recs[0], recs[1..];
      assert recs == [head] + tail;
      LevelOfMembers(tail, home, name, x, le);
      MembersCons(head, tail, home, name);
      MembersCons(head, LevelWith(tail, x, le), home, name);
      var ms := Members(tail, home, name);
      assert ([head] + ms)[1..] == ms;
    }
  }

  /** Sorting first does not change the levels of the file-by-file arrangement. */
  lemma {:induction false} SplitLevels(all: set<string>, home: Rec -> string, recs: seq<Rec>, names: seq<string>,
                                       x: Rec, le: (Rec, Rec) -> bool)
    requires Ranks(le) && forall n :: n in names ==> n in all
    ensures LevelWith(Concat(SplitBy(all, home, Sort(recs, le)), names), x, le)
         == LevelWith(Concat(SplitBy(all, home, recs), names), x, le)
  {
    if names != [] {
      var front, name := names[..|names| - 1], names[|names| - 1];
      var sorted := Sort(recs, le);
      SplitLevels(all, home, recs, front, x, le);
      LevelWithConcat(Concat(SplitBy(all, home, sorted), front), Members(sorted, home, name), x, le);
      LevelWithConcat(Concat(SplitBy(all, home, recs), front), Members(recs, home, name), x, le);
      LevelOfMembers(sorted, home, name, x, le);
      LevelOfMembers(recs, home, name, x, le);
      SortIsStable(recs, x, le);
    }
  }

  lemma {:induction false} MembersAreSorted(recs: seq<Rec>, home: Rec -> string, name: string, le: (Rec, Rec) -> bool)
    requires Sorted(recs, le)
    ensures Sorted(Members(recs, home, name), le)
  {
    if |recs| > 0 {
      var head, tail := recs[0], recs[1..];
      assert recs == [head] + tail;
      MembersAreSorted(tail, home, name, le);
      MembersCons(head, tail, home, name);
      var ms := Members(tail, home, name);
      assert ([head] + ms)[1..] == ms;
    }
  }

  lemma {:induction false} MembersMultiset(recs: seq<Rec>, home: Rec -> string, name: string)
    ensures multiset(Members(recs, home, name)) <= multiset(recs)
  {
    if recs != [] {
      assert recs == recs[..|recs| - 1] + [recs[|recs| - 1]];
      MembersMultiset(recs[..|recs| - 1], home, name);
    }
  }

  lemma UniqueFront(recs: seq<Rec>)
    requires recs != [] && UniqueIds(recs)
    ensures UniqueIds(recs[..|recs| - 1])
    ensures forall r :: r in recs[..|recs| - 1] ==> r.id != recs[|recs| - 1].id
  {
    var front, last := recs[..|recs| - 1], recs[|recs| - 1];
    assert recs == front + [last];
    assert multiset(recs) == multiset(front) + multiset{last};
    forall r ensures multiset(front)[r] <= 1 {
      assert multiset(recs)[r] <= 1;
    }
    forall r | r in front ensures r.id != last.id {
      assert r in multiset(front);
      assert multiset(recs)[r] <= 1;
    }
  }

  lemma KeptOne(r: Rec)
    requires r.id != ""
    ensures Kept([r]) == [r]
  {
    SeenSnoc([], r);
    assert [] + [r] == [r];
  }

  /** Records with different identifiers are all kept, as they are. */
  lemma {:induction false} KeptUnique(recs: seq<Rec>)
    requires UniqueIds(recs) && forall r :: r in recs ==> r.id != ""
    ensures Kept(recs) == recs
  {
    if recs != [] {
      var front, last := recs[..|recs| - 1], recs[|recs| - 1];
      assert recs == front + [last];
      UniqueFront(recs);
      KeptUnique(front);
      KeptApart(front, [last]);
      KeptOne(last);
    }
  }

  // ---------------------------------------------------------------------------------------
  // The round trip
  // ---------------------------------------------------------------------------------------

  /** In the canonical layout, what is kept is the files' kept records side by side. */
  lemma CanonicalKept(files: Directory, home: Rec -> string)
    requires Canonical(files, home) && OneFileEach(files)
    ensures Kept(All(files)) == Concat(SplitBy(files.Keys, home, Kept(All(files))), SortedNames(files.Keys))
    ensures forall n :: n in files ==> Members(Kept(All(files)), home, n) == Kept(files[n])
  {
    var names := SortedNames(files.Keys);
    SortedNamesDistinct(files.Keys);
    KeptByFile(files, names);
    var kept := KeptFiles(files);
    forall n, r | n in kept && r in kept[n] ensures home(r) == n {
      KeptMembers(files[n]);
      LastWriteIsMember(files[n], r);
    }
    forall n | n in files ensures Members(Kept(All(files)), home, n) == Kept(files[n]) {
      MembersOfConcat(kept, names, home, n);
    }
    assert SplitBy(files.Keys, home, Kept(All(files))) == kept;
  }

  lemma LoadedMembers(files: Directory, home: Rec -> string, le: (Rec, Rec) -> bool, n: string)
    ensures forall r :: r in Members(LoadedBy(files, le), home, n) <==> r in Members(Kept(All(files)), home, n)
  {
    SameElements(Kept(All(files)), le);
  }

  lemma EmptyTogether(a: seq<Rec>, b: seq<Rec>)
    requires forall r :: r in a <==> r in b
    ensures a == [] <==> b == []
  {
    if a != [] { assert a[0] in b; }
    if b != [] { assert b[0] in a; }
  }

  /** After saving what was loaded, every file keeps the loaded records that belong there. */
  lemma SavedFile(files: Directory, home: Rec -> string, le: (Rec, Rec) -> bool, n: string)
    requires Ranks(le) && Canonical(files, home) && OneFileEach(files) && n in files
    ensures var loaded := LoadedBy(files, le);
      Kept(SavedBy(files, home, le, loaded)[n]) == Members(loaded, home, n)
  {
    var loaded := LoadedBy(files, le);
    var ms := Members(loaded, home, n);
    LoadedMembers(files, home, le, n);
    if ms != [] {
      SortIsSorted(Kept(All(files)), le);
      MembersAreSorted(loaded, home, n, le);
      SortedIsFixed(ms, le);
      LoadedIsUnique(files, le);
      MembersMultiset(loaded, home, n);
      forall r ensures multiset(ms)[r] <= 1 { assert multiset(loaded)[r] <= 1; }
      KeptUnique(ms);
    } else {
      CanonicalKept(files, home);
      EmptyTogether(ms, Members(Kept(All(files)), home, n));
    }
  }

  lemma CanonicalNames(files: Directory, home: Rec -> string, le: (Rec, Rec) -> bool)
    requires Ranks(le) && Canonical(files, home)
    ensures SavedBy(files, home, le, LoadedBy(files, le)).Keys == files.Keys
  {
    var loaded := LoadedBy(files, le);
    forall name | Members(loaded, home, name) != [] ensures name in files {
      var ms := Members(loaded, home, name);
      var r := ms[0];
      assert r in ms;
      LoadedHome(files, home, le, r);
    }
  }

  /** A loaded record comes from the file it belongs to. */
  lemma LoadedHome(files: Directory, home: Rec -> string, le: (Rec, Rec) -> bool, r: Rec)
    requires Canonical(files, home) && r in LoadedBy(files, le)
    ensures home(r) in files && r in files[home(r)] && r.id != ""
  {
    SameElements(Kept(All(files)), le);
    KeptMembers(All(files));
    LastWriteIsMember(All(files), r);
    ConcatMembers(files, SortedNames(files.Keys));
  }

  /** What a file holds after saving, apart from records without identifier, was loaded. */
  lemma SavedRecord(files: Directory, home: Rec -> string, le: (Rec, Rec) -> bool, n: string, r: Rec)
    requires Ranks(le) && Canonical(files, home) && OneFileEach(files)
    requires n in SavedBy(files, home, le, LoadedBy(files, le))
    requires r in SavedBy(files, home, le, LoadedBy(files, le))[n] && r.id != ""
    ensures r in LoadedBy(files, le) && home(r) == n
  {
    var loaded := LoadedBy(files, le);
    var ms := Members(loaded, home, n);
    if ms != [] {
      SameElements(ms, le);
    } else {
      SavedFile(files, home, le, n);
      KeptIds(files[n], r.id);
    }
  }

  lemma SavedIsCanonical(files: Directory, home: Rec -> string, le: (Rec, Rec) -> bool)
    requires Ranks(le) && Canonical(files, home) && OneFileEach(files)
    ensures var out := SavedBy(files, home, le, LoadedBy(files, le));
      Canonical(out, home) && OneFileEach(out)
  {
    var out := SavedBy(files, home, le, LoadedBy(files, le));
    forall n: string, r: Rec | n in out && r in out[n] && r.id != "" ensures home(r) == n {
      SavedRecord(files, home, le, n, r);
    }
    LoadedIsUnique(files, le);
    forall id, m, n, r, q | Holds(out, id, m, r) && Holds(out, id, n, q) && id != "" ensures m == n {
      SavedRecord(files, home, le, m, r);
      SavedRecord(files, home, le, n, q);
    }
  }

  lemma KeptWhenSplit(out: Directory, names: set<string>, home: Rec -> string, recs: seq<Rec>)
    requires out.Keys == names && OneFileEach(out)
    requires forall n :: n in names ==> Kept(out[n]) == Members(recs, home, n)
    ensures Kept(All(out)) == Concat(SplitBy(names, home, recs), SortedNames(names))
  {
    SortedNamesDistinct(names);
    KeptByFile(out, SortedNames(names));
    assert KeptFiles(out) == SplitBy(names, home, recs);
  }

  lemma SavedKept(files: Directory, home: Rec -> string, le: (Rec, Rec) -> bool)
    requires Ranks(le) && Canonical(files, home) && OneFileEach(files)
    ensures Kept(All(SavedBy(files, home, le, LoadedBy(files, le))))
      == Concat(SplitBy(files.Keys, home, LoadedBy(files, le)), SortedNames(files.Keys))
  {
    var out := SavedBy(files, home, le, LoadedBy(files, le));
    CanonicalNames(files, home, le);
    SavedIsCanonical(files, home, le);
    forall n | n in files.Keys ensures Kept(out[n]) == Members(LoadedBy(files, le), home, n) {
      SavedFile(files, home, le, n);
    }
    KeptWhenSplit(out, files.Keys, home, LoadedBy(files, le));
  }

  /** In the canonical layout, saving what was loaded and loading again gives back the same
      sequence: the same values in the same order, ties included. */
  lemma RoundTrip(files: Directory, home: Rec -> string, le: (Rec, Rec) -> bool)
    requires Ranks(le) && Canonical(files, home) && OneFileEach(files)
    ensures LoadedBy(SavedBy(files, home, le, LoadedBy(files, le)), le) == LoadedBy(files, le)
  {
    var kept, out := Kept(All(files)), SavedBy(files, home, le, LoadedBy(files, le));
    CanonicalKept(files, home);
    SavedKept(files, home, le);
    forall x ensures LevelWith(Kept(All(out)), x, le) == LevelWith(kept, x, le) {
      SplitLevels(files.Keys, home, kept, SortedNames(files.Keys), x, le);
    }
    SortsAlike(Kept(All(out)), kept, le);
  }

  // ---------------------------------------------------------------------------------------
  // Saving other records than the loaded ones
  // ---------------------------------------------------------------------------------------

  /** The file depends on the identifier only. */
  ghost predicate ById(home: Rec -> string) {
    forall r: Rec, q: Rec :: r.id == q.id ==> home(r) == home(q)
  }

  lemma CanonicalById(files: Directory, home: Rec -> string)
    requires ById(home) && Canonical(files, home)
    ensures OneFileEach(files)
  {
  }

  /** Saving over canonical files whose identifiers `recs` cover leaves exactly `recs`. */
  lemma SavedExactly(files: Directory, home: Rec -> string, le: (Rec, Rec) -> bool, recs: seq<Rec>, r: Rec)
    requires Ranks(le) && ById(home) && Canonical(files, home)
    requires UniqueIds(recs) && (forall q :: q in recs ==> q.id != "")
    requires forall id :: HasId(files, id) ==> Lists(recs, id)
    ensures r in LoadedBy(SavedBy(files, home, le, recs), le) <==> r in recs
  {
    var out := SavedBy(files, home, le, recs);
    if r in LoadedBy(out, le) { LoadedFromSaved(files, home, le, recs, r); }
    if r in recs {
      LoadedIds(out, le, r.id);
      SavedIds(files, home, le, recs, r.id);
      var q :| q in LoadedBy(out, le) && q.id == r.id;
      LoadedFromSaved(files, home, le, recs, q);
    }
  }

  lemma LoadedFromSaved(files: Directory, home: Rec -> string, le: (Rec, Rec) -> bool, recs: seq<Rec>, r: Rec)
    requires Ranks(le) && ById(home) && Canonical(files, home)
    requires forall id :: HasId(files, id) ==> Lists(recs, id)
    requires r in LoadedBy(SavedBy(files, home, le, recs), le)
    ensures r in recs
  {
    var out := SavedBy(files, home, le, recs);
    var n := LoadedFromFile(out, le, r);
    if n in files && r in files[n] { HeldIsWritten(files, home, recs, n, r); }
    SameElements(Members(recs, home, n), le);
  }

  lemma LoadedFromFile(files: Directory, le: (Rec, Rec) -> bool, r: Rec) returns (n: string)
    requires Ranks(le) && r in LoadedBy(files, le)
    ensures n in files && r in files[n] && r.id != ""
  {
    LoadedIsLastWrites(files, le, r);
    LastWriteIsMember(All(files), r);
    ConcatMembers(files, SortedNames(files.Keys));
    n :| n in SortedNames(files.Keys) && r in files[n];
  }

  lemma HeldIsWritten(files: Directory, home: Rec -> string, recs: seq<Rec>, n: string, r: Rec)
    requires ById(home) && Canonical(files, home)
    requires forall id :: HasId(files, id) ==> Lists(recs, id)
    requires n in files && r in files[n] && r.id != ""
    ensures Members(recs, home, n) != []
  {
    assert Holds(files, r.id, n, r);
    assert HasId(files, r.id);
    var q :| q in recs && q.id == r.id;
    assert q in Members(recs, home, n);
  }

  // ---------------------------------------------------------------------------------------
  // Any layout: which values survive a save
  // ---------------------------------------------------------------------------------------

  lemma {:induction false} LastWriteConcat(a: seq<Rec>, b: seq<Rec>, r: Rec)
    ensures LastWrite(a + b, r) <==> LastWrite(b, r) || (!Lists(b, r.id) && LastWrite(a, r))
  {
    if b == [] {
      assert a + b == a;
    } else {
      var front, last := b[..|b| - 1], b[|b| - 1];
      assert b == front + [last];
      assert (a + b)[..|a + b| - 1] == a + front;
      LastWriteConcat(a, front, r);
      if last.id == r.id { assert last in b; }
      if last.id != r.id && Lists(b, r.id) {
        var q :| q in b && q.id == r.id;
        assert q in front;
      }
      assert Lists(front, r.id) ==> Lists(b, r.id);
    }
  }

  /** The file that comes last among those with the identifier decides its value. */
  ghost predicate LastListing(files: Directory, id: string, n: string) {
    && n in files && Lists(files[n], id)
    && forall m :: m in files && Lists(files[m], id) ==> LexLe(m, n)
  }

  lemma {:induction false} SomeLastListing(files: Directory, names: seq<string>, r: Rec) returns (i: nat)
    requires forall n :: n in names ==> n in files
    requires exists j :: 0 <= j < |names| && Lists(files[names[j]], r.id)
    ensures i < |names| && Lists(files[names[i]], r.id)
    ensures forall j :: i < j < |names| ==> !Lists(files[names[j]], r.id)
    ensures LastWrite(Concat(files, names), r) <==> LastWrite(files[names[i]], r)
  {
    var k := |names| - 1;
    LastWriteConcat(Concat(files, names[..k]), files[names[k]], r);
    if Lists(files[names[k]], r.id) {
      i := k;
    } else {
      var j :| 0 <= j < |names| && Lists(files[names[j]], r.id);
      assert names[..k][j] == names[j];
      i := SomeLastListing(files, names[..k], r);
      if LastWrite(files[names[k]], r) { LastWriteIsMember(files[names[k]], r); }
    }
  }

  lemma LastListingDecides(files: Directory, r: Rec) returns (n: string)
    requires exists m :: m in files && Lists(files[m], r.id)
    ensures LastListing(files, r.id, n)
    ensures LastWrite(All(files), r) <==> LastWrite(files[n], r)
  {
    var names := SortedNames(files.Keys);
    var m :| m in files && Lists(files[m], r.id);
    assert Lists(files[names[IndexOf(names, m)]], r.id);
    var i := SomeLastListing(files, names, r);
    n := names[i];
    LastIsLast(files, r.id, i);
  }

  lemma LastIsLast(files: Directory, id: string, i: nat)
    requires var names := SortedNames(files.Keys);
      i < |names| && Lists(files[names[i]], id) && forall j :: i < j < |names| ==> !Lists(files[names[j]], id)
    ensures LastListing(files, id, SortedNames(files.Keys)[i])
  {
    forall m | m in files && Lists(files[m], id) ensures LexLe(m, SortedNames(files.Keys)[i]) {
      NamesInOrder(files.Keys, IndexOf(SortedNames(files.Keys), m), i);
    }
  }

  lemma NamesInOrder(names: set<string>, j: nat, i: nat)
    requires j <= i < |SortedNames(names)|
    ensures LexLe(SortedNames(names)[j], SortedNames(names)[i])
  {
    if j < i { SortedNamesIncrease(names, j, i); } else { LexIsReflexive(SortedNames(names)[i]); }
  }

  lemma LexIsReflexive(a: string)
    ensures LexLe(a, a)
  {
    LexTotal(a, a);
  }

  /** No loaded record belongs to this file, so a save leaves it alone. */
  ghost predicate Unwritten(files: Directory, home: Rec -> string, recs: seq<Rec>, n: string) {
    n in files && Members(recs, home, n) == []
  }

  /** Among the files a save leaves alone, `n` is the last one with the identifier of `r`, and
      it is read after the file of `r`. */
  ghost predicate Shadows(files: Directory, home: Rec -> string, recs: seq<Rec>, r: Rec, n: string) {
    && Unwritten(files, home, recs, n) && Lists(files[n], r.id) && LexLe(home(r), n)
    && forall m :: Unwritten(files, home, recs, m) && Lists(files[m], r.id) ==> LexLe(m, n)
  }

  lemma {:induction false} UniqueLastWrite(recs: seq<Rec>, r: Rec)
    requires UniqueIds(recs) && r in recs
    ensures LastWrite(recs, r)
  {
    var front, last := recs[..|recs| - 1], recs[|recs| - 1];
    assert recs == front + [last];
    if r != last {
      UniqueFront(recs);
      UniqueLastWrite(front, r);
    }
  }

  lemma SortedMembersUnique(recs: seq<Rec>, home: Rec -> string, le: (Rec, Rec) -> bool, n: string)
    requires UniqueIds(recs)
    ensures UniqueIds(Sort(Members(recs, home, n), le))
    ensures forall q :: q in Sort(Members(recs, home, n), le) <==> q in recs && home(q) == n
  {
    var ms := Members(recs, home, n);
    var written := Sort(ms, le);
    MembersMultiset(recs, home, n);
    SameElements(ms, le);
    forall q ensures multiset(written)[q] <= 1 { assert multiset(recs)[q] <= 1; }
  }

  /** What a written file says about the identifier of a saved record. */
  lemma WrittenFile(files: Directory, home: Rec -> string, le: (Rec, Rec) -> bool, recs: seq<Rec>, r: Rec, n: string)
    requires UniqueIds(recs) && r in recs && Members(recs, home, n) != []
    ensures Lists(SavedBy(files, home, le, recs)[n], r.id) <==> n == home(r)
    ensures n == home(r) ==> LastWrite(SavedBy(files, home, le, recs)[n], r)
  {
    SortedMembersUnique(recs, home, le, n);
    var written := Sort(Members(recs, home, n), le);
    assert SavedBy(files, home, le, recs)[n] == written;
    if n == home(r) {
      assert r in written;
      UniqueLastWrite(written, r);
    }
  }

  /** A saved record is loaded again if and only if no file the save leaves alone shadows it with
      another value. */
  lemma SurvivesIff(files: Directory, home: Rec -> string, le: (Rec, Rec) -> bool, recs: seq<Rec>, r: Rec)
    requires Ranks(le) && UniqueIds(recs) && r in recs && r.id != ""
    ensures r in LoadedBy(SavedBy(files, home, le, recs), le)
      <==> forall n :: Shadows(files, home, recs, r, n) ==> LastWrite(files[n], r)
  {
    var out := SavedBy(files, home, le, recs);
    LoadedIsLastWrites(out, le, r);
    assert r in Members(recs, home, home(r));
    WrittenFile(files, home, le, recs, r, home(r));
    var n := LastListingDecides(out, r);
    if Members(recs, home, n) != [] {
      WrittenFile(files, home, le, recs, r, n);
      forall m ensures !Shadows(files, home, recs, r, m) {
        if Unwritten(files, home, recs, m) { assert out[m] == files[m]; }
        LexTotal(m, n);
      }
    } else {
      assert out[n] == files[n];
      forall m | Unwritten(files, home, recs, m) && Lists(files[m], r.id) ensures LexLe(m, n) {
        assert out[m] == files[m];
      }
      assert Shadows(files, home, recs, r, n);
      forall m | Shadows(files, home, recs, r, m) ensures m == n {
        LexTotal(m, n);
      }
    }
  }

  /** In particular a loaded value. */
  lemma LoadedSurvivesIff(files: Directory, home: Rec -> string, le: (Rec, Rec) -> bool, r: Rec)
    requires Ranks(le) && r in LoadedBy(files, le)
    ensures r in LoadedBy(SavedBy(files, home, le, LoadedBy(files, le)), le)
      <==> forall n :: Shadows(files, home, LoadedBy(files, le), r, n) ==> LastWrite(files[n], r)
  {
    LoadedIsUnique(files, le);
    SurvivesIff(files, home, le, LoadedBy(files, le), r);
  }

  /** Three files in reading order: the file `a` of `newer`, absent; a file `b` without records
      of its own but with an older value; and the file `c` of `other`, holding `newer` too. */
  function Misplaced(b: string, c: string, older: Rec, newer: Rec, other: Rec): Directory
    requires b != c
  {
    map[b := [older], c := [newer, other]]
  }

  ghost predicate Misplaces(home: Rec -> string, a: string, b: string, c: string, older: Rec, newer: Rec, other: Rec) {
    && a != b && b != c && LexLe(a, b) && LexLe(b, c)
    && home(older) == a && home(newer) == a && home(other) == c
    && older.id == newer.id && older != newer && other.id != newer.id && newer.id != "" && other.id != ""
  }

  lemma MisplacedDecides(b: string, c: string, older: Rec, newer: Rec, other: Rec, r: Rec)
    requires b != c && LexLe(b, c) && (r == newer || r == other)
    requires older.id == newer.id && other.id != newer.id
    ensures LastWrite(All(Misplaced(b, c, older, newer, other)), r)
  {
    var files := Misplaced(b, c, older, newer, other);
    assert r in files[c];
    assert Lists(files[c], r.id);
    LexTotal(b, c);
    var n := LastListingDecides(files, r);
    assert files[c][..1] == [newer];
  }

  lemma MisplacedLoaded(home: Rec -> string, le: (Rec, Rec) -> bool, a: string, b: string, c: string,
                        older: Rec, newer: Rec, other: Rec)
    requires Ranks(le) && Misplaces(home, a, b, c, older, newer, other)
    ensures var files := Misplaced(b, c, older, newer, other);
      && newer in LoadedBy(files, le)
      && Members(LoadedBy(files, le), home, b) == []
      && Members(LoadedBy(files, le), home, c) != []
  {
    var files := Misplaced(b, c, older, newer, other);
    LexTotal(b, c);
    MisplacedDecides(b, c, older, newer, other, newer);
    MisplacedDecides(b, c, older, newer, other, other);
    LoadedIsLastWrites(files, le, newer);
    LoadedIsLastWrites(files, le, other);
    assert other in Members(LoadedBy(files, le), home, c);
    LexTotal(a, b);
    ConcatMembers(files, SortedNames(files.Keys));
    forall r | r in LoadedBy(files, le) ensures home(r) != b {
      LoadedIsLastWrites(files, le, r);
      LastWriteIsMember(All(files), r);
    }
    EmptyTogether(Members(LoadedBy(files, le), home, b), []);
  }

  lemma MisplacedShadows(home: Rec -> string, recs: seq<Rec>, a: string, b: string, c: string,
                         older: Rec, newer: Rec, other: Rec)
    requires Misplaces(home, a, b, c, older, newer, other)
    requires Members(recs, home, b) == [] && Members(recs, home, c) != []
    ensures Shadows(Misplaced(b, c, older, newer, other), home, recs, newer, b)
    ensures !LastWrite(Misplaced(b, c, older, newer, other)[b], newer)
  {
    OnlyOneUnwritten(home, recs, b, c, older, newer, other);
    LexIsReflexive(b);
    assert older in Misplaced(b, c, older, newer, other)[b];
    AloneIsLast(older, newer);
  }

  lemma OnlyOneUnwritten(home: Rec -> string, recs: seq<Rec>, b: string, c: string, older: Rec, newer: Rec, other: Rec)
    requires b != c && Members(recs, home, b) == [] && Members(recs, home, c) != []
    ensures forall m :: Unwritten(Misplaced(b, c, older, newer, other), home, recs, m) <==> m == b
  {
  }

  lemma AloneIsLast(older: Rec, newer: Rec)
    requires older != newer && older.id == newer.id
    ensures !LastWrite([older], newer)
  {
    assert [older][..0] == [];
  }

  /** Outside the canonical layout a save can lose the loaded value of a record. */
  lemma MisplacedIsLost(home: Rec -> string, le: (Rec, Rec) -> bool, a: string, b: string, c: string,
                        older: Rec, newer: Rec, other: Rec)
    requires Ranks(le) && Misplaces(home, a, b, c, older, newer, other)
    ensures var files := Misplaced(b, c, older, newer, other);
      && newer in LoadedBy(files, le)
      && newer !in LoadedBy(SavedBy(files, home, le, LoadedBy(files, le)), le)
  {
    var files := Misplaced(b, c, older, newer, other);
    MisplacedLoaded(home, le, a, b, c, older, newer, other);
    MisplacedShadows(home, LoadedBy(files, le), a, b, c, older, newer, other);
    LoadedSurvivesIff(files, home, le, newer);
  }
}
