/** What the YAML governance store promises: loads, saves and additions of requirements and
    test cases. */
module GovernanceLaws {
  import opened StableSort
  import opened Text
  import opened GroupedFiles
  import opened GroupedFilesLaws
  import opened GroupedFilesTies
  import opened GroupedFilesOrder
  import opened GovernanceYaml

  lemma ByNumRanks()
    ensures Ranks(ByNum)
  {
  }

  // ---------------------------------------------------------------------------------------
  // Loading and saving
  // ---------------------------------------------------------------------------------------

  /** A load lists its records by their numbers, the least first. */
  lemma LoadedByNumber(files: Directory, i: nat, j: nat)
    requires i < j < |Loaded(files)|
    ensures NumOf(Loaded(files)[i].id) <= NumOf(Loaded(files)[j].id)
  {
    ByNumRanks();
    SortIsSorted(Kept(All(files)), ByNum);
    SortedPairs(Loaded(files), ByNum, i, j);
  }

  /** A load is sorted by number, names every identifier once, and holds its last write. */
  lemma LoadMeaning(files: Directory, r: Rec)
    ensures Sorted(Loaded(files), ByNum) && UniqueIds(Loaded(files))
    ensures r in Loaded(files) <==> r.id != "" && LastWrite(All(files), r)
  {
    ByNumRanks();
    LoadedIsLastWrites(files, ByNum, r);
    LoadedIsUnique(files, ByNum);
  }

  /** Saving what was loaded conserves the set of identifiers, for any layout of the files. */
  lemma SavingConservesIds(files: Directory, kind: Kind, id: string)
    ensures Lists(Loaded(Saved(files, kind, Loaded(files))), id) <==> Lists(Loaded(files), id)
  {
    SaveConservesIds(files, HomeOf(kind), ByNum, id);
  }

  /** Requirements in the files their groups name survive load, save, load unchanged: the same
      records in the same order, ties included. */
  lemma RequirementsRoundTrip(files: Directory)
    requires Canonical(files, HomeOf(Requirements))
    ensures Loaded(Saved(files, Requirements, Loaded(files))) == Loaded(files)
  {
    ByNumRanks();
    RequirementHomes();
    CanonicalById(files, HomeOf(Requirements));
    RoundTrip(files, HomeOf(Requirements), ByNum);
  }

  /** A requirement's file depends on its identifier only. */
  lemma RequirementHomes()
    ensures ById(HomeOf(Requirements))
  {
  }

  /** A test case's file depends on the requirement it names, so two files can hold one test
      identifier.  Test cases in the files their groups name still keep exactly their values. */
  lemma TestsKeepValues(files: Directory, r: Rec)
    requires Canonical(files, HomeOf(Tests))
    ensures r in Loaded(Saved(files, Tests, Loaded(files))) <==> r in Loaded(files)
  {
    ByNumRanks();
    CanonicalKeepsValues(files, HomeOf(Tests), ByNum, r);
  }

  /** For any layout, load, save, load gives the same sequence if and only if no value is shadowed
      and no records of one number cross. */
  lemma ReloadIff(files: Directory, kind: Kind)
    ensures Loaded(Saved(files, kind, Loaded(files))) == Loaded(files)
      <==> NoneShadowed(files, HomeOf(kind), Loaded(files)) && NoneCross(files, HomeOf(kind), Loaded(files), ByNum)
  {
    ByNumRanks();
    ReloadsIff(files, HomeOf(kind), ByNum);
  }

  /** So test cases in the files their groups name also keep their order if and only if no two of
      one number cross. */
  lemma TestsReloadIff(files: Directory)
    requires Canonical(files, HomeOf(Tests))
    ensures Loaded(Saved(files, Tests, Loaded(files))) == Loaded(files)
      <==> NoneCross(files, HomeOf(Tests), Loaded(files), ByNum)
  {
    ByNumRanks();
    CanonicalReloadsIff(files, HomeOf(Tests), ByNum);
  }

  /** In particular when no identifier is in two files or no two have one number. */
  lemma TestsRoundTrip(files: Directory)
    requires Canonical(files, HomeOf(Tests)) && (OneFileEach(files) || NoTies(Loaded(files), ByNum))
    ensures Loaded(Saved(files, Tests, Loaded(files))) == Loaded(files)
  {
    ByNumRanks();
    if OneFileEach(files) {
      RoundTrip(files, HomeOf(Tests), ByNum);
    } else {
      UntiedRoundTrip(files, HomeOf(Tests), ByNum);
    }
  }

  function TestOf(id: string, n: nat): Rec { Rec(id, map["requirement_id" := IdFor(Requirements, n)]) }

  lemma TestHome(id: string, n: nat)
    ensures HomeOf(Tests)(TestOf(id, n)) == FileName(GroupForNumber(n))
  {
    GeneratedGroup(n);
    IdsDiffer(n, n + 1);
  }

  lemma NumAfter(front: string, n: nat)
    requires front != "" && !IsDigit(front[|front| - 1])
    ensures NumOf(front + Padded(n, 3)) == n
  {
    var digits := Padded(n, 3);
    var id := front + digits;
    assert id[|id| - 1] == digits[|digits| - 1];
    assert IsDigit(digits[|digits| - 1]);
    TrailingDigitsAfter(front, digits);
  }

  predicate EndsIn(id: string, c: char) { id != "" && id[|id| - 1] == c }

  /** The number of an id is written in the digits it ends in, before a final line feed too; an id
      that ends in none has the number for those not recognised. */
  lemma NumberIs(front: string, digits: string)
    requires AllDigits(digits) && (front == "" || !IsDigit(front[|front| - 1]))
    ensures digits != "" ==> NumOf(front + digits) == Parse(digits) && NumOf(front + digits + "\n") == Parse(digits)
    ensures !EndsIn(front, '\n') ==> NumOf(front) == 9999 && NumOf(front + "\n") == 9999
  {
    if digits != "" {
      var id := front + digits;
      assert EndsIn(id, digits[|digits| - 1]) && IsDigit(digits[|digits| - 1]);
      assert (id + "\n")[..|id|] == id;
      TrailingDigitsAfter(front, digits);
    }
    assert (front + "\n")[..|front|] == front;
  }

  lemma TestsCrossed(i: string, j: string, k: string)
    requires NumOf(i) == NumOf(j) == NumOf(k) && i != j && j != k && i != k && i != "" && j != "" && k != ""
    ensures Crossed(HomeOf(Tests), ByNum, "governance.yml", "harness.yml", "intelligence.yml",
                    TestOf(i, 1), TestOf(i, 161), TestOf(j, 130), TestOf(k, 1))
  {
    TestFiles();
    TestHomes(i, j, k);
    TiedFour(TestOf(i, 1), TestOf(i, 161), TestOf(j, 130), TestOf(k, 1));
    IsCrossed(HomeOf(Tests), ByNum, "governance.yml", "harness.yml", "intelligence.yml",
              TestOf(i, 1), TestOf(i, 161), TestOf(j, 130), TestOf(k, 1));
  }

  lemma TestFiles()
    ensures LexLe("governance.yml", "harness.yml") && LexLe("harness.yml", "intelligence.yml")
    ensures "governance.yml" != "harness.yml" && "harness.yml" != "intelligence.yml"
    ensures "governance.yml" != "intelligence.yml"
  {
    assert "governance.yml"[0] == 'g' && "harness.yml"[0] == 'h' && "intelligence.yml"[0] == 'i';
  }

  lemma FileNames()
    ensures FileName("governance") == "governance.yml" && FileName("harness") == "harness.yml"
    ensures FileName("intelligence") == "intelligence.yml"
  {
  }

  lemma GroupFiles()
    ensures FileName(GroupForNumber(1)) == "governance.yml" && FileName(GroupForNumber(130)) == "harness.yml"
    ensures FileName(GroupForNumber(161)) == "intelligence.yml"
  {
    FileNames();
  }

  lemma TestHomes(i: string, j: string, k: string)
    ensures HomeOf(Tests)(TestOf(i, 1)) == "governance.yml" && HomeOf(Tests)(TestOf(k, 1)) == "governance.yml"
    ensures HomeOf(Tests)(TestOf(j, 130)) == "harness.yml" && HomeOf(Tests)(TestOf(i, 161)) == "intelligence.yml"
  {
    GroupFiles();
    TestHome(i, 1);
    TestHome(i, 161);
    TestHome(j, 130);
    TestHome(k, 1);
  }

  ghost predicate Tied(rs: set<Rec>, le: (Rec, Rec) -> bool) { forall r, q :: r in rs && q in rs ==> le(r, q) }

  lemma TiedFour(p: Rec, q: Rec, r: Rec, t: Rec)
    requires NumOf(p.id) == NumOf(q.id) == NumOf(r.id) == NumOf(t.id)
    ensures Tied({p, q, r, t}, ByNum)
  {
    forall x | x in {p, q, r, t} ensures NumOf(x.id) == NumOf(p.id) {}
  }

  lemma IsCrossed(home: Rec -> string, le: (Rec, Rec) -> bool, a: string, b: string, c: string,
                  former: Rec, x: Rec, y: Rec, z: Rec)
    requires a != b && b != c && a != c && LexLe(a, b) && LexLe(b, c)
    requires home(former) == a && home(z) == a && home(y) == b && home(x) == c
    requires former.id == x.id && x.id != y.id && y.id != z.id && x.id != z.id && x.id != "" && y.id != "" && z.id != ""
    requires Tied({former, x, y, z}, le)
    ensures Crossed(home, le, a, b, c, former, x, y, z)
  {
  }

  /** Test cases can cross: three of one number, one of them moved to a requirement of another
      group but still listed in its old file, change places. */
  lemma TestsChangePlaces(i: string, j: string, k: string)
    requires NumOf(i) == NumOf(j) == NumOf(k) && i != j && j != k && i != k && i != "" && j != "" && k != ""
    ensures var x, y, z := TestOf(i, 161), TestOf(j, 130), TestOf(k, 1);
      var files := map["governance.yml" := [TestOf(i, 1), z], "harness.yml" := [y], "intelligence.yml" := [x]];
      && Canonical(files, HomeOf(Tests))
      && Loaded(files) == [x, z, y] && Loaded(Saved(files, Tests, Loaded(files))) == [z, y, x]
  {
    ByNumRanks();
    TestsCrossed(i, j, k);
    TiesChangePlaces(HomeOf(Tests), ByNum, "governance.yml", "harness.yml", "intelligence.yml",
                     TestOf(i, 1), TestOf(i, 161), TestOf(j, 130), TestOf(k, 1));
  }

  /** There are such identifiers for every number. */
  lemma SameNumberIds(n: nat)
    ensures var i, j, k := "A-" + Padded(n, 3), "B-" + Padded(n, 3), "C-" + Padded(n, 3);
      NumOf(i) == NumOf(j) == NumOf(k) == n && i != j && j != k && i != k
  {
    NumAfter("A-", n);
    NumAfter("B-", n);
    NumAfter("C-", n);
    assert ("A-" + Padded(n, 3))[0] == 'A' && ("B-" + Padded(n, 3))[0] == 'B' && ("C-" + Padded(n, 3))[0] == 'C';
  }

  /** For any layout, a loaded value survives a save if and only if no file that receives no
      record, read after the value's own file, ends with another value for its identifier. */
  lemma ValueSurvivesIff(files: Directory, kind: Kind, r: Rec)
    requires r in Loaded(files)
    ensures r in Loaded(Saved(files, kind, Loaded(files)))
      <==> forall n :: Shadows(files, HomeOf(kind), Loaded(files), r, n) ==> LastWrite(files[n], r)
  {
    ByNumRanks();
    LoadedSurvivesIff(files, HomeOf(kind), ByNum, r);
  }

  lemma GeneratedHome(n: nat, fields: map<string, string>)
    ensures HomeOf(Requirements)(Rec(IdFor(Requirements, n), fields)) == FileName(GroupForNumber(n))
  {
    GeneratedGroup(n);
  }

  /** Requirement `n` of the governance group twice outside its file, an older value in a file
      that receives no record and a newer one beside requirement `m`: the load returns the newer
      value, but after a save the older one wins. */
  lemma MisplacedValueIsLost(n: nat, m: nat, older: map<string, string>, newer: map<string, string>)
    requires 1 <= n <= 64 && 161 <= m <= 220 && older != newer
    ensures var r := Rec(IdFor(Requirements, n), newer);
      var files := Misplaced("harness.yml", "intelligence.yml",
                             Rec(IdFor(Requirements, n), older), r, Rec(IdFor(Requirements, m), map[]));
      r in Loaded(files) && r !in Loaded(Saved(files, Requirements, Loaded(files)))
  {
    var a, b, c := FileName("governance"), "harness.yml", "intelligence.yml";
    var id, id' := IdFor(Requirements, n), IdFor(Requirements, m);
    IdsDiffer(n, m);
    FileOrder();
    ByNumRanks();
    GeneratedHome(n, older);
    GeneratedHome(n, newer);
    GeneratedHome(m, map[]);
    MisplacedIsLost(HomeOf(Requirements), ByNum, a, b, c, Rec(id, older), Rec(id, newer), Rec(id', map[]));
  }

  lemma IdsDiffer(n: nat, m: nat)
    requires n != m
    ensures IdFor(Requirements, n) != IdFor(Requirements, m)
    ensures IdFor(Requirements, n) != ""
  {
    IdForNum(Requirements, n);
    IdForNum(Requirements, m);
  }

  lemma FileOrder()
    ensures LexLe(FileName("governance"), "harness.yml") && LexLe("harness.yml", "intelligence.yml")
    ensures FileName("governance") != "harness.yml" && "harness.yml" != "intelligence.yml"
    ensures FileName("intelligence") == "intelligence.yml"
  {
    assert FileName("governance")[0] == 'g';
  }

  // ---------------------------------------------------------------------------------------
  // New identifiers
  // ---------------------------------------------------------------------------------------

  lemma IdForNum(kind: Kind, n: nat)
    ensures NumOf(IdFor(kind, n)) == n
  {
    var digits := Padded(n, 3);
    var id := IdFor(kind, n);
    assert id[|id| - 1] == digits[|digits| - 1];
    assert IsDigit(digits[|digits| - 1]);
    TrailingDigitsAfter(Prefix(kind), digits);
  }

  lemma {:induction false} NextNumIsNew(recs: seq<Rec>, r: Rec)
    requires r in recs && NumOf(r.id) < UNRECOGNISED
    ensures NumOf(r.id) < NextNum(recs)
  {
    var front, last := recs[..|recs| - 1], recs[|recs| - 1];
    assert recs == front + [last];
    if r != last { NextNumIsNew(front, r); }
  }

  /** The next number is one more than some recognised number, or one. */
  lemma {:induction false} NextNumIsLeast(recs: seq<Rec>)
    ensures NextNum(recs) == 1 || exists r :: r in recs && NumOf(r.id) + 1 == NextNum(recs)
  {
    if recs != [] {
      var front, last := recs[..|recs| - 1], recs[|recs| - 1];
      assert recs == front + [last];
      NextNumIsLeast(front);
    }
  }

  /** Number 9998 is in use and so is the four-digit identifier 9999: 9999 also marks identifiers
      without a number. */
  ghost predicate RunsOut(kind: Kind, recs: seq<Rec>) {
    (exists r :: r in recs && NumOf(r.id) == 9998) && Lists(recs, Prefix(kind) + "9999")
  }

  lemma LastNumberIff(recs: seq<Rec>)
    ensures NextNum(recs) == UNRECOGNISED <==> exists r :: r in recs && NumOf(r.id) == 9998
  {
    NextNumIsLeast(recs);
    if r :| r in recs && NumOf(r.id) == 9998 { NextNumIsNew(recs, r); }
  }

  /** The generated identifier is taken if and only if the numbers have run out. */
  lemma NextIdIsFreshIff(kind: Kind, recs: seq<Rec>)
    ensures Lists(recs, NextId(kind, recs)) <==> RunsOut(kind, recs)
  {
    var n := NextNum(recs);
    IdForNum(kind, n);
    LastNumberIff(recs);
    if Lists(recs, NextId(kind, recs)) {
      var r :| r in recs && r.id == NextId(kind, recs);
      if n < UNRECOGNISED { NextNumIsNew(recs, r); }
    }
    if n == UNRECOGNISED { NineNineNineNine(); }
  }

  /** Records 9998 and 9999 are enough: the identifier generated beside them is that of 9999. */
  lemma GeneratedIdIsTaken(kind: Kind, fields: map<string, string>)
    ensures var recs := [Rec(IdFor(kind, 9998), fields), Rec(IdFor(kind, 9999), fields)];
      NextId(kind, recs) == recs[1].id && Lists(recs, NextId(kind, recs))
  {
    var recs := [Rec(IdFor(kind, 9998), fields), Rec(IdFor(kind, 9999), fields)];
    IdForNum(kind, 9998);
    assert recs[0] in recs && recs[1] in recs;
    LastNumberIff(recs);
  }

  lemma NineNineNineNine()
    ensures Padded(UNRECOGNISED, 3) == "9999"
  {
    assert Decimal(9) == "9";
    assert Decimal(99) == "99";
    assert Decimal(999) == "999";
    assert Decimal(9999) == "9999";
  }

  /** Numbers up to 9997 leave room: the generated identifier is new. */
  lemma NextIdIsFresh(kind: Kind, recs: seq<Rec>)
    requires forall r :: r in recs && NumOf(r.id) < UNRECOGNISED ==> NumOf(r.id) <= 9997
    ensures !Lists(recs, NextId(kind, recs))
  {
    NextIdIsFreshIff(kind, recs);
  }

  /** Adding a record with identifier `id` leaves the old identifiers and `id`, no others. */
  lemma AddedIds(files: Directory, kind: Kind, entry: Rec, id: string)
    requires entry.id != ""
    ensures Lists(Loaded(Saved(files, kind, Loaded(files) + [entry])), id)
      <==> Lists(Loaded(files), id) || id == entry.id
  {
    var recs := Loaded(files) + [entry];
    LoadedIds(files, ByNum, id);
    LoadedIds(Saved(files, kind, recs), ByNum, id);
    if Lists(Loaded(files), id) {
      var r :| r in Loaded(files) && r.id == id;
      assert r in recs;
    }
    assert entry in recs;
    assert Lists(recs, id) <==> Lists(Loaded(files), id) || id == entry.id;
    if id != "" { SavedIds(files, HomeOf(kind), ByNum, recs, id); }
  }

  /** An addition under a generated identifier leaves the old identifiers and that one, and it was
      not there before, so exactly one is added, if and only if the numbers have not run out. */
  lemma AddingAddsOne(files: Directory, kind: Kind, fields: map<string, string>, id: string)
    ensures var generated := NextId(kind, Loaded(files));
      && (!Lists(Loaded(files), generated) <==> !RunsOut(kind, Loaded(files)))
      && (Lists(Loaded(Saved(files, kind, Loaded(files) + [Rec(generated, fields)])), id)
          <==> Lists(Loaded(files), id) || id == generated)
  {
    NextIdIsFreshIff(kind, Loaded(files));
    AddedIds(files, kind, Rec(NextId(kind, Loaded(files)), fields), id);
  }

  lemma UniqueSnoc(recs: seq<Rec>, r: Rec)
    requires UniqueIds(recs) && !Lists(recs, r.id)
    ensures UniqueIds(recs + [r])
  {
    forall q ensures multiset(recs + [r])[q] <= 1 {
      assert multiset(recs)[q] <= 1;
      if q == r { assert q !in recs; }
    }
  }

  /** For any layout, after an addition under a new identifier a loaded record, or the new one, is
      loaded again as it was if and only if no file without loaded or new records, read after its
      own file, ends with another value for its identifier. */
  lemma AddedSurvivesIff(files: Directory, kind: Kind, entry: Rec, r: Rec)
    requires entry.id != "" && !Lists(Loaded(files), entry.id) && (r in Loaded(files) || r == entry)
    ensures var recs := Loaded(files) + [entry];
      r in Loaded(Saved(files, kind, recs))
      <==> forall n :: Shadows(files, HomeOf(kind), recs, r, n) ==> LastWrite(files[n], r)
  {
    ByNumRanks();
    LoadedIsUnique(files, ByNum);
    UniqueSnoc(Loaded(files), entry);
    SurvivesIff(files, HomeOf(kind), ByNum, Loaded(files) + [entry], r);
  }

  /** In the canonical layout adding a requirement keeps every other one as it was. */
  lemma AddingKeepsOthers(files: Directory, entry: Rec, r: Rec)
    requires Canonical(files, HomeOf(Requirements))
    requires entry.id != "" && !Lists(Loaded(files), entry.id)
    ensures r in Loaded(Saved(files, Requirements, Loaded(files) + [entry])) <==> r in Loaded(files) || r == entry
  {
    var recs := Loaded(files) + [entry];
    ByNumRanks();
    RequirementHomes();
    LoadedIsUnique(files, ByNum);
    UniqueSnoc(Loaded(files), entry);
    forall id | HasId(files, id) ensures Lists(recs, id) {
      LoadedIds(files, ByNum, id);
      var q :| q in Loaded(files) && q.id == id;
      assert q in recs;
    }
    SavedExactly(files, HomeOf(Requirements), ByNum, recs, r);
  }

  // ---------------------------------------------------------------------------------------
  // Groups of plain identifiers
  // ---------------------------------------------------------------------------------------

  lemma GeneratedParts(n: nat)
    ensures SplitOn(IdFor(Requirements, n), '-') == ["REQ", Padded(n, 3)]
  {
    var digits := Padded(n, 3);
    assert '-' !in digits by {
      forall i | 0 <= i < |digits| ensures digits[i] != '-' { assert IsDigit(digits[i]); }
    }
    SplitOnAt("REQ", '-', digits);
    SplitOnAt(digits, '-', "");
    assert "REQ" + ['-'] + digits == IdFor(Requirements, n);
  }

  /** A generated requirement identifier is plain, so it lands in the group of its number. */
  lemma GeneratedGroup(n: nat)
    ensures GroupForReq(IdFor(Requirements, n)) == GroupForNumber(n)
  {
    IdForNum(Requirements, n);
    GeneratedParts(n);
  }

  // ---------------------------------------------------------------------------------------
  // Groups of namespaced identifiers
  // ---------------------------------------------------------------------------------------

  lemma NamespaceParts(ns: string, digits: string)
    requires '-' !in digits
    ensures SplitOn("REQ-" + ns + "-" + digits, '-') == ["REQ"] + SplitOn(ns, '-') + [digits]
  {
    var rest := ns + ['-'] + digits;
    assert "REQ-" + ns + "-" + digits == "REQ" + ['-'] + rest;
    SplitOnAt("REQ", '-', rest);
    SplitOnBoth(ns, '-', digits);
    SplitOnAt(digits, '-', "");
  }

  /** "REQ-", a namespace of any number of parts and a number belong to the namespace's file, in
      lower case. */
  lemma NamespacedHome(ns: string, digits: string, fields: map<string, string>)
    requires digits != "" && AllDigits(digits) && Lower(ns) != "default"
    ensures HomeOf(Requirements)(Rec("REQ-" + ns + "-" + digits, fields)) == Lower(ns) + ".yml"
  {
    forall i | 0 <= i < |digits| ensures digits[i] != '-' { assert IsDigit(digits[i]); }
    NamespaceParts(ns, digits);
    JoinOfSplit(ns, '-');
    MiddleParts(SplitOn(ns, '-'), digits);
    assert Namespace("REQ-" + ns + "-" + digits) == Lower(ns);
  }

  lemma MiddleParts(middle: seq<string>, last: string)
    ensures var parts := ["REQ"] + middle + [last];
      parts[1..|parts| - 1] == middle && parts[|parts| - 1] == last && |parts| == |middle| + 2
  {
  }

  /** A test case is kept with the requirement it names, and in the overflow file if it names none. */
  lemma TestsFollowRequirements(id: string, fields: map<string, string>, reqFields: map<string, string>)
    ensures var home := HomeOf(Tests)(Rec(id, fields));
      if "requirement_id" in fields && fields["requirement_id"] != ""
      then home == HomeOf(Requirements)(Rec(fields["requirement_id"], reqFields)) else home == "overflow.yml"
  {
    assert "overflow" + ".yml" == "overflow.yml";
  }
}
