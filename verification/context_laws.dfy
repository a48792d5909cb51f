/** What the greedy selection of context records guarantees. */
module ContextLaws {
  import opened PyDict
  import opened StableSort
  import opened Text
  import opened ContextControl

  // ---------------------------------------------------------------------------------------
  // Budget, distinct claims, maximality
  // ---------------------------------------------------------------------------------------

  function TotalCost(records: seq<ContextRecord>): int {
    if records == [] then 0 else TotalCost(records[..|records| - 1]) + records[|records| - 1].tokenCost
  }

  /** A key that does not look at the residency. */
  ghost predicate IgnoresResidency(key: Keying) {
    forall r: ContextRecord, s: string :: key(r.(residency := s)) == key(r)
  }

  /** The selection costs what was counted, and never more than a budget of at least zero. */
  lemma {:induction false} WithinBudget(ranked: seq<ContextRecord>, budget: int, key: Keying)
    requires budget >= 0
    ensures TotalCost(Greedy(ranked, budget, key).selected) == Greedy(ranked, budget, key).used <= budget
  {
    if ranked != [] {
      var front, last := ranked[..|ranked| - 1], ranked[|ranked| - 1];
      WithinBudget(front, budget, key);
      var p := Greedy(front, budget, key);
      var r := last.(residency := "resident");
      assert (p.selected + [r])[..|p.selected|] == p.selected;
    }
  }

  ghost predicate DistinctKeys(records: seq<ContextRecord>, key: Keying) {
    forall i, j :: 0 <= i < j < |records| ==> key(records[i]) != key(records[j])
  }

  function KeySet(records: seq<ContextRecord>, key: Keying): (keys: set<string>)
    ensures forall i :: 0 <= i < |records| ==> key(records[i]) in keys
  {
    if records == [] then {} else KeySet(records[..|records| - 1], key) + {key(records[|records| - 1])}
  }

  lemma KeysSnoc(t: seq<ContextRecord>, r: ContextRecord, key: Keying)
    ensures KeySet(t + [r], key) == KeySet(t, key) + {key(r)}
    ensures TotalCost(t + [r]) == TotalCost(t) + r.tokenCost
    ensures DistinctKeys(t, key) && key(r) !in KeySet(t, key) ==> DistinctKeys(t + [r], key)
    ensures DistinctKeys(t + [r], key) ==> key(r) !in KeySet(t, key)
  {
    assert (t + [r])[..|t|] == t;
    if key(r) in KeySet(t, key) {
      var i := KeyIndex(t, key, key(r));
      assert (t + [r])[i] == t[i] && (t + [r])[|t|] == r;
    }
  }

  lemma {:induction false} KeyIndex(t: seq<ContextRecord>, key: Keying, k: string) returns (i: nat)
    requires k in KeySet(t, key)
    ensures i < |t| && key(t[i]) == k
  {
    i := |t| - 1;
    if key(t[i]) != k { i := KeyIndex(t[..i], key, k); }
  }

  /** No two selected records make the same claim, and `seen` holds exactly their keys. */
  lemma {:induction false} ClaimsAreDistinct(ranked: seq<ContextRecord>, budget: int, key: Keying)
    requires IgnoresResidency(key)
    ensures DistinctKeys(Greedy(ranked, budget, key).selected, key)
    ensures KeySet(Greedy(ranked, budget, key).selected, key) == Greedy(ranked, budget, key).seen
  {
    if ranked != [] {
      var front, last := ranked[..|ranked| - 1], ranked[|ranked| - 1];
      ClaimsAreDistinct(front, budget, key);
      KeysSnoc(Greedy(front, budget, key).selected, last.(residency := "resident"), key);
    }
  }

  ghost predicate NonNegativeCosts(records: seq<ContextRecord>) {
    forall i :: 0 <= i < |records| ==> records[i].tokenCost >= 0
  }

  /** Later records only add to what is used and seen. */
  lemma {:induction false} StateGrows(ranked: seq<ContextRecord>, budget: int, key: Keying, n: nat)
    requires NonNegativeCosts(ranked) && n <= |ranked|
    ensures Greedy(ranked[..n], budget, key).used <= Greedy(ranked, budget, key).used
    ensures Greedy(ranked[..n], budget, key).seen <= Greedy(ranked, budget, key).seen
  {
    if n < |ranked| {
      var front := ranked[..|ranked| - 1];
      assert front[..n] == ranked[..n];
      StateGrows(front, budget, key, n);
    } else {
      assert ranked[..n] == ranked;
    }
  }

  /** Maximality: a record omitted for the budget would not fit at the end either, and a record
      omitted as a duplicate repeats a selected claim. */
  lemma SelectionIsMaximal(ranked: seq<ContextRecord>, budget: int, key: Keying, n: nat)
    requires NonNegativeCosts(ranked) && n < |ranked|
    ensures var v := Verdict(Greedy(ranked[..n], budget, key), ranked[n], budget, key);
      var end := Greedy(ranked, budget, key);
      && (v == OverBudget ==> end.used + ranked[n].tokenCost > budget)
      && (v != OverBudget ==> key(ranked[n]) in end.seen)
  {
    assert ranked[..n + 1][..n] == ranked[..n];
    StateGrows(ranked, budget, key, n);
    StateGrows(ranked, budget, key, n + 1);
  }

  // ---------------------------------------------------------------------------------------
  // The selection is the first in rank order among all that are allowed
  // ---------------------------------------------------------------------------------------

  /** The records a choice takes from a ranking. */
  function Taken(ranked: seq<ContextRecord>, choice: seq<bool>): seq<ContextRecord>
    requires |choice| == |ranked|
  {
    if ranked == [] then [] else
      Taken(ranked[..|ranked| - 1], choice[..|choice| - 1])
      + (if choice[|choice| - 1] then [ranked[|ranked| - 1]] else [])
  }

  /** A choice is allowed if it fits the budget and repeats no claim. */
  ghost predicate IsAllowed(ranked: seq<ContextRecord>, choice: seq<bool>, budget: int, key: Keying)
    requires |choice| == |ranked|
  {
    TotalCost(Taken(ranked, choice)) <= budget && DistinctKeys(Taken(ranked, choice), key)
  }

  /** The greedy choice, record by record. */
  function GreedyChoice(ranked: seq<ContextRecord>, budget: int, key: Keying): (choice: seq<bool>)
    ensures |choice| == |ranked|
  {
    if ranked == [] then [] else
      var front, last := ranked[..|ranked| - 1], ranked[|ranked| - 1];
      GreedyChoice(front, budget, key) + [Verdict(Greedy(front, budget, key), last, budget, key) == Selected]
  }

  lemma {:induction false} ChoicePrefix(ranked: seq<ContextRecord>, budget: int, key: Keying, n: nat)
    requires n <= |ranked|
    ensures GreedyChoice(ranked, budget, key)[..n] == GreedyChoice(ranked[..n], budget, key)
  {
    if n < |ranked| {
      assert ranked[..|ranked| - 1][..n] == ranked[..n];
      ChoicePrefix(ranked[..|ranked| - 1], budget, key, n);
    } else {
      assert ranked[..n] == ranked;
    }
  }

  lemma TakenSnoc(front: seq<ContextRecord>, c: seq<bool>, last: ContextRecord, b: bool)
    requires |c| == |front|
    ensures Taken(front + [last], c + [b]) == if b then Taken(front, c) + [last] else Taken(front, c)
  {
    assert (front + [last])[..|front|] == front && (c + [b])[..|c|] == c;
  }

  /** What the greedy choice takes costs what is used and has the keys that are seen. */
  lemma {:induction false} GreedyTakes(ranked: seq<ContextRecord>, budget: int, key: Keying)
    ensures TotalCost(Taken(ranked, GreedyChoice(ranked, budget, key))) == Greedy(ranked, budget, key).used
    ensures KeySet(Taken(ranked, GreedyChoice(ranked, budget, key)), key) == Greedy(ranked, budget, key).seen
  {
    if ranked != [] {
      var front, last := ranked[..|ranked| - 1], ranked[|ranked| - 1];
      assert ranked == front + [last];
      GreedyTakes(front, budget, key);
      var c := GreedyChoice(front, budget, key);
      TakenSnoc(front, c, last, Verdict(Greedy(front, budget, key), last, budget, key) == Selected);
      KeysSnoc(Taken(front, c), last, key);
    }
  }

  lemma {:induction false} TakenPrefix(ranked: seq<ContextRecord>, choice: seq<bool>, n: nat)
    requires |choice| == |ranked| && n <= |ranked|
    ensures Taken(ranked[..n], choice[..n]) <= Taken(ranked, choice)
  {
    if n < |ranked| {
      var m := |ranked| - 1;
      assert ranked[..m][..n] == ranked[..n] && choice[..m][..n] == choice[..n];
      TakenPrefix(ranked[..m], choice[..m], n);
    } else {
      assert ranked[..n] == ranked && choice[..n] == choice;
    }
  }

  lemma {:induction false} PrefixIsCheaper(ranked: seq<ContextRecord>, choice: seq<bool>, n: nat)
    requires |choice| == |ranked| && n <= |ranked| && NonNegativeCosts(ranked)
    ensures TotalCost(Taken(ranked[..n], choice[..n])) <= TotalCost(Taken(ranked, choice))
  {
    if n < |ranked| {
      var m := |ranked| - 1;
      assert ranked[..m][..n] == ranked[..n] && choice[..m][..n] == choice[..n];
      PrefixIsCheaper(ranked[..m], choice[..m], n);
      var t := Taken(ranked[..m], choice[..m]);
      assert (t + [ranked[m]])[..|t|] == t && t + [] == t;
    } else {
      assert ranked[..n] == ranked && choice[..n] == choice;
    }
  }

  /** An allowed choice that takes record `n` has room for it after its earlier ones. */
  lemma AllowedHasRoom(ranked: seq<ContextRecord>, choice: seq<bool>, budget: int, key: Keying, n: nat)
    requires |choice| == |ranked| && n < |ranked| && NonNegativeCosts(ranked)
    requires IsAllowed(ranked, choice, budget, key) && choice[n]
    ensures TotalCost(Taken(ranked[..n], choice[..n])) + ranked[n].tokenCost <= budget
    ensures key(ranked[n]) !in KeySet(Taken(ranked[..n], choice[..n]), key)
  {
    var t, r := Taken(ranked[..n], choice[..n]), ranked[n];
    assert ranked[..n + 1] == ranked[..n] + [r] && choice[..n + 1] == choice[..n] + [true];
    TakenSnoc(ranked[..n], choice[..n], r, true);
    KeysSnoc(t, r, key);
    TakenPrefix(ranked, choice, n + 1);
    PrefixIsCheaper(ranked, choice, n + 1);
    PrefixKeysDistinct(t + [r], Taken(ranked, choice), key);
  }

  /** Any allowed choice that agrees with the greedy one on all better ranked records can take
      the next record only if the greedy choice takes it: the selection is the
      lexicographically first among all allowed ones. */
  lemma GreedyIsFirst(ranked: seq<ContextRecord>, choice: seq<bool>, budget: int, key: Keying, n: nat)
    requires |choice| == |ranked| && n < |ranked| && NonNegativeCosts(ranked)
    requires IsAllowed(ranked, choice, budget, key)
    requires choice[..n] == GreedyChoice(ranked, budget, key)[..n] && choice[n]
    ensures GreedyChoice(ranked, budget, key)[n]
  {
    AllowedHasRoom(ranked, choice, budget, key, n);
    ChoicePrefix(ranked, budget, key, n);
    ChoicePrefix(ranked, budget, key, n + 1);
    GreedyTakes(ranked[..n], budget, key);
    assert ranked[..n + 1] == ranked[..n] + [ranked[n]];
    GreedyChoosesNext(ranked[..n], ranked[n], budget, key);
  }

  lemma PrefixKeysDistinct(t: seq<ContextRecord>, all: seq<ContextRecord>, key: Keying)
    requires t <= all && DistinctKeys(all, key)
    ensures DistinctKeys(t, key)
  {
  }

  lemma GreedyChoosesNext(front: seq<ContextRecord>, r: ContextRecord, budget: int, key: Keying)
    ensures GreedyChoice(front + [r], budget, key)[|front|]
      <==> key(r) !in Greedy(front, budget, key).seen && Greedy(front, budget, key).used + r.tokenCost <= budget
  {
    assert (front + [r])[..|front|] == front;
  }

  /** The greedy choice is itself allowed. */
  lemma {:induction false} GreedyIsAllowed(ranked: seq<ContextRecord>, budget: int, key: Keying)
    requires budget >= 0
    ensures IsAllowed(ranked, GreedyChoice(ranked, budget, key), budget, key)
  {
    GreedyTakes(ranked, budget, key);
    WithinBudget(ranked, budget, key);
    GreedyKeysDistinct(ranked, budget, key);
  }

  lemma {:induction false} GreedyKeysDistinct(ranked: seq<ContextRecord>, budget: int, key: Keying)
    ensures DistinctKeys(Taken(ranked, GreedyChoice(ranked, budget, key)), key)
  {
    if ranked != [] {
      var front, last := ranked[..|ranked| - 1], ranked[|ranked| - 1];
      assert ranked == front + [last];
      GreedyKeysDistinct(front, budget, key);
      GreedyTakes(front, budget, key);
      var c := GreedyChoice(front, budget, key);
      TakenSnoc(front, c, last, Verdict(Greedy(front, budget, key), last, budget, key) == Selected);
      KeysSnoc(Taken(front, c), last, key);
    }
  }

  // ---------------------------------------------------------------------------------------
  // Independence of the input order
  // ---------------------------------------------------------------------------------------

  lemma RankRanks()
    ensures Ranks(RankLe)
  {
    forall x, y ensures RankLe(x, y) || RankLe(y, x) { LexTotal(x.recordId, y.recordId); }
    forall x, y, z | RankLe(x, y) && RankLe(y, z) ensures RankLe(x, z) {
      if x.Score() == y.Score() == z.Score() { LexTransitive(x.recordId, y.recordId, z.recordId); }
    }
  }

  ghost predicate UniqueIds(records: seq<ContextRecord>) {
    forall x, y :: x in records && y in records && x.recordId == y.recordId ==> x == y
  }

  /** Records with different identifiers are ranked the same way from whatever order they come. */
  lemma RankingIgnoresOrder(a: seq<ContextRecord>, b: seq<ContextRecord>)
    requires UniqueIds(a) && multiset(a) == multiset(b)
    ensures Sort(a, RankLe) == Sort(b, RankLe)
  {
    RankRanks();
    forall x, y | x in a && y in a && Level(x, y, RankLe) ensures x == y {
      LexTotal(x.recordId, y.recordId);
    }
    SortsPermutationsAlike(a, b, RankLe);
  }

  ghost predicate DifferentIds(records: seq<ContextRecord>) {
    forall i, j :: 0 <= i < j < |records| ==> records[i].recordId != records[j].recordId
  }

  ghost predicate Holds(d: Dict<string, ContextRecord>, records: seq<ContextRecord>) {
    && |d.order| == |records|
    && forall i :: 0 <= i < |records| ==>
         d.order[i] == records[i].recordId && d.order[i] in d.at && d.at[d.order[i]] == records[i]
  }

  lemma PutNew(d: Dict<string, ContextRecord>, records: seq<ContextRecord>, r: ContextRecord)
    requires d.Valid() && Holds(d, records) && forall i :: 0 <= i < |records| ==> records[i].recordId != r.recordId
    ensures Holds(d.Put(r.recordId, r), records + [r])
  {
    assert r.recordId !in d.order;
  }

  lemma {:induction false} IndexedIsThem(records: seq<ContextRecord>)
    requires DifferentIds(records)
    ensures Holds(Indexed(records), records) && Indexed(records).Values() == records
  {
    if records != [] {
      var n := |records| - 1;
      IndexedIsThem(records[..n]);
      assert records == records[..n] + [records[n]];
      PutNew(Indexed(records[..n]), records[..n], records[n]);
    }
  }

  /** An index built from the same records in another order retrieves the same selection for
      the same reasons. */
  lemma RetrievalIgnoresOrder(a: seq<ContextRecord>, b: seq<ContextRecord>, budget: int)
    requires DifferentIds(a) && DifferentIds(b)
    requires multiset(a) == multiset(b)
    ensures Retrieved(Indexed(a), budget) == Retrieved(Indexed(b), budget)
  {
    IndexedIsThem(a);
    IndexedIsThem(b);
    RankingIgnoresOrder(a, b);
  }

  // ---------------------------------------------------------------------------------------
  // Pinned records
  // ---------------------------------------------------------------------------------------

  ghost predicate UnitRange(r: ContextRecord) {
    && 0.0 <= r.relevance <= 1.0 && 0.0 <= r.confidence <= 1.0
    && 0.0 <= r.sourceAuthority <= 1.0 && 0.0 <= r.recency <= 1.0
    && 0 <= r.tokenCost < 890000
  }

  ghost predicate AllUnitRange(records: seq<ContextRecord>) {
    forall i :: 0 <= i < |records| ==> UnitRange(records[i])
  }

  /** No unpinned record ranks before a pinned one. */
  lemma PinnedRankFirst(x: ContextRecord, y: ContextRecord)
    requires UnitRange(x) && UnitRange(y) && y.pinned && RankLe(x, y)
    ensures x.pinned
  {
    assert y.tokenCost as real / 10000.0 < 89.0;
    assert y.Score() > 11.0;
    assert x.tokenCost as real / 10000.0 >= 0.0;
    assert !x.pinned ==> x.Score() <= 11.0;
  }

  type Counting = ContextRecord -> bool

  function Pinned(): Counting { (r: ContextRecord) => r.pinned }

  function Any(): Counting { (r: ContextRecord) => true }

  /** What the counted records cost together. */
  function CostOf(records: seq<ContextRecord>, counts: Counting): int {
    if records == [] then 0 else
      var last := records[|records| - 1];
      CostOf(records[..|records| - 1], counts) + (if counts(last) then last.tokenCost else 0)
  }

  function PinnedCost(records: seq<ContextRecord>): int { CostOf(records, Pinned()) }

  lemma {:induction false} CostGrows(records: seq<ContextRecord>, n: nat, counts: Counting)
    requires NonNegativeCosts(records) && n <= |records|
    ensures CostOf(records[..n], counts) <= CostOf(records, counts)
  {
    if n < |records| {
      assert records[..|records| - 1][..n] == records[..n];
      CostGrows(records[..|records| - 1], n, counts);
    } else {
      assert records[..n] == records;
    }
  }

  /** While only counted records have been looked at, no more than their cost is used. */
  lemma {:induction false} CountedUse(ranked: seq<ContextRecord>, budget: int, key: Keying, counts: Counting)
    requires NonNegativeCosts(ranked) && forall i :: 0 <= i < |ranked| ==> counts(ranked[i])
    ensures Greedy(ranked, budget, key).used <= CostOf(ranked, counts)
  {
    if ranked != [] { CountedUse(ranked[..|ranked| - 1], budget, key, counts); }
  }

  /** When all pinned records fit the budget together, every pinned claim is selected. */
  lemma PinnedClaimsAreSelected(ranked: seq<ContextRecord>, budget: int, key: Keying, n: nat)
    requires Sorted(ranked, RankLe) && AllUnitRange(ranked)
    requires n < |ranked| && ranked[n].pinned && PinnedCost(ranked) <= budget
    ensures key(ranked[n]) in Greedy(ranked, budget, key).seen
  {
    forall i | 0 <= i < n ensures ranked[..n][i].pinned {
      SortedPairs(ranked, RankLe, i, n);
      PinnedRankFirst(ranked[i], ranked[n]);
    }
    CountedUse(ranked[..n], budget, key, Pinned());
    assert ranked[..n + 1][..n] == ranked[..n];
    CostGrows(ranked, n + 1, Pinned());
    SelectionIsMaximal(ranked, budget, key, n);
  }

  lemma {:induction false} CostConcat(a: seq<ContextRecord>, b: seq<ContextRecord>, counts: Counting)
    ensures CostOf(a + b, counts) == CostOf(a, counts) + CostOf(b, counts)
  {
    if b == [] {
      assert a + b == a;
    } else {
      assert (a + b)[..|a + b| - 1] == a + b[..|b| - 1];
      CostConcat(a, b[..|b| - 1], counts);
    }
  }

  lemma {:induction false} CostInsert(x: ContextRecord, s: seq<ContextRecord>, counts: Counting)
    ensures CostOf(Insert(x, s, RankLe), counts) == CostOf([x], counts) + CostOf(s, counts)
  {
    if s == [] {
    } else if RankLe(x, s[0]) {
      CostConcat([x], s, counts);
    } else {
      CostInsert(x, s[1..], counts);
      CostConcat([s[0]], Insert(x, s[1..], RankLe), counts);
      CostConcat([s[0]], s[1..], counts);
      assert s == [s[0]] + s[1..];
    }
  }

  lemma {:induction false} CostSorted(s: seq<ContextRecord>, counts: Counting)
    ensures CostOf(Sort(s, RankLe), counts) == CostOf(s, counts)
  {
    if s != [] {
      CostSorted(s[1..], counts);
      CostInsert(s[0], Sort(s[1..], RankLe), counts);
      CostConcat([s[0]], s[1..], counts);
      assert s == [s[0]] + s[1..];
    }
  }

  /** A retrieval selects the claim of every pinned record whenever all pinned records together
      fit the budget, for scores between 0 and 1 and costs below 890000. */
  lemma RetrievalKeepsPinned(d: Dict<string, ContextRecord>, budget: int, r: ContextRecord)
    requires d.Valid() && AllUnitRange(d.Values()) && PinnedCost(d.Values()) <= budget
    requires r in d.Values() && r.pinned
    ensures ClaimKey(r.claim) in Retrieved(d, budget).seen
    ensures exists x :: x in Retrieved(d, budget).selected && ClaimKey(x.claim) == ClaimKey(r.claim)
  {
    var ranked, key := Sort(d.Values(), RankLe), ClaimKeys();
    RankRanks();
    SortIsSorted(d.Values(), RankLe);
    SameElements(d.Values(), RankLe);
    CostSorted(d.Values(), Pinned());
    var n :| 0 <= n < |ranked| && ranked[n] == r;
    forall i | 0 <= i < |ranked| ensures UnitRange(ranked[i]) {
      assert ranked[i] in d.Values();
    }
    PinnedClaimsAreSelected(ranked, budget, key, n);
    ClaimsAreDistinct(ranked, budget, key);
    var i := KeyIndex(Greedy(ranked, budget, key).selected, key, key(r));
    assert Greedy(ranked, budget, key).selected[i] in Greedy(ranked, budget, key).selected;
  }

  // ---------------------------------------------------------------------------------------
  // The reasons a retrieval gives
  // ---------------------------------------------------------------------------------------

  /** The index files every record under its own identifier. */
  ghost predicate FiledById(d: Dict<string, ContextRecord>) {
    d.Valid() && forall id :: id in d.at ==> d.at[id].recordId == id
  }

  lemma {:induction false} IndexedIsFiled(records: seq<ContextRecord>)
    ensures FiledById(Indexed(records))
  {
    if records != [] { IndexedIsFiled(records[..|records| - 1]); }
  }

  /** The reason recorded for an identifier is the verdict on the last record that has it. */
  lemma {:induction false} ReasonIsVerdict(ranked: seq<ContextRecord>, budget: int, key: Keying, id: string)
    returns (n: nat)
    requires exists r :: r in ranked && r.recordId == id
    ensures n < |ranked| && ranked[n].recordId == id && id in Greedy(ranked, budget, key).reasons
    ensures Greedy(ranked, budget, key).reasons[id] == Verdict(Greedy(ranked[..n], budget, key), ranked[n], budget, key)
  {
    var k := |ranked| - 1;
    assert ranked == ranked[..k] + [ranked[k]];
    if ranked[k].recordId == id {
      n := k;
    } else {
      n := ReasonIsVerdict(ranked[..k], budget, key, id);
      assert ranked[..k][..n] == ranked[..n];
    }
  }

  /** A selected verdict puts the record in the selection. */
  lemma SelectedIsIn(ranked: seq<ContextRecord>, budget: int, key: Keying, n: nat)
    requires n < |ranked| && Verdict(Greedy(ranked[..n], budget, key), ranked[n], budget, key) == Selected
    ensures ranked[n].(residency := "resident") in Greedy(ranked, budget, key).selected
  {
    assert ranked[..n + 1][..n] == ranked[..n];
    SelectionGrows(ranked, budget, key, n + 1);
  }

  lemma {:induction false} SelectionGrows(ranked: seq<ContextRecord>, budget: int, key: Keying, n: nat)
    requires n <= |ranked|
    ensures forall r :: r in Greedy(ranked[..n], budget, key).selected ==> r in Greedy(ranked, budget, key).selected
  {
    if n < |ranked| {
      var front := ranked[..|ranked| - 1];
      assert front[..n] == ranked[..n];
      SelectionGrows(front, budget, key, n);
    } else {
      assert ranked[..n] == ranked;
    }
  }

  /** Every record of an index gets a reason, and the reason is true of the whole selection: an
      omitted record would not fit the budget even at the end, a duplicate repeats a selected
      claim, a selected record is there. */
  lemma ReasonsAreTrue(d: Dict<string, ContextRecord>, budget: int, id: string)
    requires FiledById(d) && NonNegativeCosts(d.Values()) && id in d.at
    ensures var p := Retrieved(d, budget);
      && id in p.reasons
      && (p.reasons[id] == OverBudget ==> p.used + d.at[id].tokenCost > budget)
      && (p.reasons[id] == Duplicate ==> exists x :: x in p.selected && ClaimKey(x.claim) == ClaimKey(d.at[id].claim))
      && (p.reasons[id] == Selected ==> d.at[id].(residency := "resident") in p.selected)
  {
    var ranked, key := Sort(d.Values(), RankLe), ClaimKeys();
    SameElements(d.Values(), RankLe);
    ValueIsListed(d, id);
    var n := ReasonIsVerdict(ranked, budget, key, id);
    RankedIsFiled(d, ranked[n]);
    forall i | 0 <= i < |ranked| ensures ranked[i].tokenCost >= 0 { assert ranked[i] in d.Values(); }
    SelectionIsMaximal(ranked, budget, key, n);
    if Retrieved(d, budget).reasons[id] == Duplicate { SeenIsSelected(ranked, budget, ranked[n]); }
    if Retrieved(d, budget).reasons[id] == Selected { SelectedIsIn(ranked, budget, key, n); }
  }

  lemma ValueIsListed(d: Dict<string, ContextRecord>, id: string)
    requires d.Valid() && id in d.at
    ensures d.at[id] in d.Values()
  {
    assert d.Values()[IndexOf(d.order, id)] == d.at[id];
  }

  lemma RankedIsFiled(d: Dict<string, ContextRecord>, r: ContextRecord)
    requires FiledById(d) && r in d.Values()
    ensures r.recordId in d.at && d.at[r.recordId] == r
  {
    var i :| 0 <= i < |d.Values()| && d.Values()[i] == r;
    assert d.order[i] in d.order;
  }

  lemma SeenIsSelected(ranked: seq<ContextRecord>, budget: int, r: ContextRecord)
    requires ClaimKeys()(r) in Greedy(ranked, budget, ClaimKeys()).seen
    ensures exists x :: x in Greedy(ranked, budget, ClaimKeys()).selected && ClaimKey(x.claim) == ClaimKey(r.claim)
  {
    ClaimsAreDistinct(ranked, budget, ClaimKeys());
    var i := KeyIndex(Greedy(ranked, budget, ClaimKeys()).selected, ClaimKeys(), ClaimKeys()(r));
    assert Greedy(ranked, budget, ClaimKeys()).selected[i] in Greedy(ranked, budget, ClaimKeys()).selected;
  }

  // ---------------------------------------------------------------------------------------
  // Offloading
  // ---------------------------------------------------------------------------------------

  ghost predicate Twins(x: ContextRecord, y: ContextRecord) {
    y == x.(residency := y.residency)
  }

  ghost predicate Alike(a: seq<ContextRecord>, b: seq<ContextRecord>) {
    |a| == |b| && forall i :: 0 <= i < |a| ==> Twins(a[i], b[i])
  }

  lemma TwinsRankAlike(x: ContextRecord, y: ContextRecord, u: ContextRecord, v: ContextRecord)
    requires Twins(x, y) && Twins(u, v)
    ensures RankLe(x, u) <==> RankLe(y, v)
  {
    assert x.Score() == y.Score() && u.Score() == v.Score();
  }

  lemma AlikeCons(x: ContextRecord, y: ContextRecord, s: seq<ContextRecord>, t: seq<ContextRecord>)
    requires Twins(x, y) && Alike(s, t)
    ensures Alike([x] + s, [y] + t)
  {
  }

  lemma {:induction false} InsertIgnoresResidency(x: ContextRecord, y: ContextRecord, s: seq<ContextRecord>,
                                                  t: seq<ContextRecord>)
    requires Twins(x, y) && Alike(s, t)
    ensures Alike(Insert(x, s, RankLe), Insert(y, t, RankLe))
  {
    if s != [] {
      TwinsRankAlike(x, y, s[0], t[0]);
      if RankLe(x, s[0]) {
        AlikeCons(x, y, s, t);
      } else {
        InsertIgnoresResidency(x, y, s[1..], t[1..]);
        AlikeCons(s[0], t[0], Insert(x, s[1..], RankLe), Insert(y, t[1..], RankLe));
      }
    }
  }

  lemma {:induction false} RankingIgnoresResidency(a: seq<ContextRecord>, b: seq<ContextRecord>)
    requires Alike(a, b)
    ensures Alike(Sort(a, RankLe), Sort(b, RankLe))
  {
    if a != [] {
      RankingIgnoresResidency(a[1..], b[1..]);
      InsertIgnoresResidency(a[0], b[0], Sort(a[1..], RankLe), Sort(b[1..], RankLe));
    }
  }

  lemma {:induction false} GreedyIgnoresResidency(a: seq<ContextRecord>, b: seq<ContextRecord>, budget: int,
                                                  key: Keying)
    requires Alike(a, b) && IgnoresResidency(key)
    ensures Greedy(a, budget, key) == Greedy(b, budget, key)
  {
    if a != [] {
      var x, y := a[|a| - 1], b[|b| - 1];
      GreedyIgnoresResidency(a[..|a| - 1], b[..|b| - 1], budget, key);
      assert key(y) == key(x.(residency := y.residency)) == key(x);
    }
  }

  /** Offloading never changes what a retrieval returns. */
  lemma OffloadKeepsRetrieval(d: Dict<string, ContextRecord>, ids: seq<string>, budget: int)
    requires d.Valid()
    ensures var e := Dict(d.order, Offloaded(d.at, ids)); e.Valid() && Retrieved(e, budget) == Retrieved(d, budget)
  {
    var e := Dict(d.order, Offloaded(d.at, ids));
    var a, b := d.Values(), e.Values();
    RankingIgnoresResidency(a, b);
    GreedyIgnoresResidency(Sort(a, RankLe), Sort(b, RankLe), budget, ClaimKeys());
  }

  // ---------------------------------------------------------------------------------------
  // Cleanup
  // ---------------------------------------------------------------------------------------

  lemma {:induction false} SelectedWereRanked(ranked: seq<ContextRecord>, budget: int, key: Keying)
    ensures forall r :: r in Greedy(ranked, budget, key).selected ==>
      exists x :: x in ranked && r == x.(residency := "resident")
  {
    if ranked != [] {
      var front, last := ranked[..|ranked| - 1], ranked[|ranked| - 1];
      assert ranked == front + [last];
      SelectedWereRanked(front, budget, key);
    }
  }

  lemma {:induction false} IndexedMembers(records: seq<ContextRecord>)
    ensures forall id :: id in Indexed(records).at ==> Indexed(records).at[id] in records
  {
    if records != [] {
      IndexedMembers(records[..|records| - 1]);
      assert records == records[..|records| - 1] + [records[|records| - 1]];
    }
  }

  /** A packet holds only records that were given and are not excluded. */
  lemma PacketIsClean(items: seq<ContextRecord>, excluded: set<string>, budget: int, r: ContextRecord)
    requires r in Retrieved(Indexed(Allowed(items, excluded)), budget).selected
    ensures r.recordId !in excluded && exists x :: x in items && r == x.(residency := "resident")
  {
    var d := Indexed(Allowed(items, excluded));
    SelectedWereRanked(Sort(d.Values(), RankLe), budget, ClaimKeys());
    SameElements(d.Values(), RankLe);
    IndexedMembers(Allowed(items, excluded));
    var x :| x in Sort(d.Values(), RankLe) && r == x.(residency := "resident");
    assert x in d.Values();
    var i :| 0 <= i < |d.order| && d.Values()[i] == x;
    assert d.order[i] in d.at;
  }
}
