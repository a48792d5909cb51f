/** When two claims count as one, and what a retrieval with room for everything leaves out. */
module ClaimKeyLaws {
  import opened PyDict
  import opened StableSort
  import opened Text
  import opened ContextControl
  import opened ContextLaws

  // ---------------------------------------------------------------------------------------
  // Words
  // ---------------------------------------------------------------------------------------

  /** Not empty and without white space. */
  ghost predicate IsWord(w: string) { w != "" && NoSpace(w) }

  ghost predicate NoSpace(s: string) { forall i :: 0 <= i < |s| ==> !IsSpace(s[i]) }

  ghost predicate AllWords(ws: seq<string>) { forall i :: 0 <= i < |ws| ==> IsWord(ws[i]) }

  lemma {:induction false} WordEndIsEnd(s: string)
    ensures NoSpace(s[..WordEnd(s)]) && (WordEnd(s) < |s| ==> IsSpace(s[WordEnd(s)]))
  {
    if s != "" && !IsSpace(s[0]) {
      WordEndIsEnd(s[1..]);
      assert s[..WordEnd(s)] == [s[0]] + s[1..][..WordEnd(s[1..])];
    }
  }

  /** `split()` gives words. */
  lemma {:induction false} WordsAreWords(s: string)
    ensures AllWords(Words(s))
    decreases |s|
  {
    if s != "" {
      if IsSpace(s[0]) {
        WordsAreWords(s[1..]);
      } else {
        WordEndIsEnd(s);
        WordsAreWords(s[WordEnd(s)..]);
      }
    }
  }

  lemma {:induction false} WholeWordEnd(s: string, rest: string)
    requires NoSpace(s) && (rest == "" || IsSpace(rest[0]))
    ensures WordEnd(s + rest) == |s|
  {
    if s == "" {
      assert s + rest == rest;
    } else {
      assert (s + rest)[1..] == s[1..] + rest;
      WholeWordEnd(s[1..], rest);
    }
  }

  /** A word is its own only word. */
  lemma OneWord(w: string)
    requires IsWord(w)
    ensures Words(w) == [w]
  {
    WholeWordEnd(w, "");
    assert w + "" == w && w[|w|..] == "" && w[..|w|] == w;
    assert Words("") == [];
  }

  lemma WordFirst(w: string, rest: string)
    requires IsWord(w) && (rest == "" || IsSpace(rest[0]))
    ensures Words(w + rest) == [w] + Words(rest)
  {
    WholeWordEnd(w, rest);
    assert (w + rest)[..|w|] == w && (w + rest)[|w|..] == rest;
  }

  lemma FirstWord(x: string) returns (w: string, rest: string)
    requires x != "" && !IsSpace(x[0])
    ensures x == w + rest && IsWord(w) && (rest == "" || IsSpace(rest[0])) && |rest| < |x|
  {
    WordEndIsEnd(x);
    w, rest := x[..WordEnd(x)], x[WordEnd(x)..];
  }

  lemma Regroup(w: string, rest: string, c: char, y: string)
    ensures (w + rest) + [c] + y == w + (rest + [c] + y)
    ensures rest != "" ==> (rest + [c] + y)[0] == rest[0]
    ensures rest == "" ==> (rest + [c] + y)[0] == c
  {
  }

  lemma TailOfThree(x: string, c: char, y: string)
    ensures var all := x + [c] + y;
      all != "" && (if x == "" then all[0] == c && all[1..] == y else all[0] == x[0] && all[1..] == x[1..] + [c] + y)
  {
  }

  lemma SpaceFirst(s: string)
    requires s != "" && IsSpace(s[0])
    ensures Words(s) == Words(s[1..])
  {
  }

  lemma BehindWord(w: string, rest: string, tail: string, y: string)
    requires IsWord(w) && (rest == "" || IsSpace(rest[0])) && tail != "" && IsSpace(tail[0])
    requires Words(tail) == Words(rest) + Words(y)
    ensures Words(w + tail) == Words(w + rest) + Words(y)
  {
    WordFirst(w, rest);
    WordFirst(w, tail);
    Associate([w], Words(rest), Words(y));
  }

  lemma Associate<T>(a: seq<T>, b: seq<T>, c: seq<T>)
    ensures a + (b + c) == (a + b) + c
  {
  }

  /** White space separates. */
  lemma {:induction false} SpaceSeparates(x: string, c: char, y: string)
    requires IsSpace(c)
    ensures Words(x + [c] + y) == Words(x) + Words(y)
    decreases |x|
  {
    TailOfThree(x, c, y);
    if x == "" {
      SpaceFirst(x + [c] + y);
    } else if IsSpace(x[0]) {
      SpaceFirst(x);
      SpaceFirst(x + [c] + y);
      SpaceSeparates(x[1..], c, y);
    } else {
      var w, rest := FirstWord(x);
      SpaceSeparates(rest, c, y);
      Regroup(w, rest, c, y);
      BehindWord(w, rest, rest + [c] + y, y);
    }
  }

  /** These three laws and the empty text leave no other splitting. */
  ghost predicate Splits(split: string -> seq<string>) {
    && split("") == []
    && (forall w {:trigger IsWord(w)} :: IsWord(w) ==> split(w) == [w])
    && forall x: string, c, y: string {:trigger split(x + [c] + y)} ::
         IsSpace(c) ==> split(x + [c] + y) == split(x) + split(y)
  }

  lemma {:induction false} OneSplitting(split: string -> seq<string>, s: string)
    requires Splits(split)
    ensures split(s) == Words(s)
    decreases |s|
  {
    var n := WordEnd(s);
    WordEndIsEnd(s);
    if n == |s| {
      assert s[..n] == s;
      if s != "" { OneWord(s); assert IsWord(s); }
    } else {
      var w, c, rest := s[..n], s[n], s[n + 1..];
      assert s == w + [c] + rest;
      SpaceSeparates(w, c, rest);
      OneSplitting(split, rest);
      if w != "" { OneWord(w); assert IsWord(w); }
      assert split(w + [c] + rest) == split(w) + split(rest);
    }
  }

  // ---------------------------------------------------------------------------------------
  // Keys
  // ---------------------------------------------------------------------------------------

  lemma {:induction false} WordsOfJoin(ws: seq<string>)
    requires AllWords(ws)
    ensures Words(Join(ws, " ")) == ws
  {
    if |ws| == 1 {
      OneWord(ws[0]);
      assert ws == [ws[0]];
    } else if |ws| > 1 {
      WordsOfJoin(ws[1..]);
      OneWord(ws[0]);
      SpaceSeparates(ws[0], ' ', Join(ws[1..], " "));
      assert " " == [' '] && ws == [ws[0]] + ws[1..];
    }
  }

  /** The same words, letter case aside. */
  predicate SameWords(a: string, b: string) { Words(Lower(a)) == Words(Lower(b)) }

  /** Two claims have one key if and only if they consist of the same words, letter case aside. */
  lemma ClaimKeyIff(a: string, b: string)
    ensures ClaimKey(a) == ClaimKey(b) <==> SameWords(a, b)
  {
    WordsAreWords(Lower(a));
    WordsAreWords(Lower(b));
    WordsOfJoin(Words(Lower(a)));
    WordsOfJoin(Words(Lower(b)));
  }

  /** Spacing and the case of a letter do not matter. */
  lemma SpacingDoesNotMatter(x: string, c: char, d: char, y: string)
    requires IsSpace(c) && IsSpace(d)
    ensures SameWords(x + [c] + y, x + [d] + y) && SameWords(x + [c] + y, x + [c] + ([d] + y))
  {
    LowerOfThree(x, c, y);
    LowerOfThree(x, d, y);
    LowerOfThree(x, c, [d] + y);
    LowerOfThree("", d, y);
    assert "" + [d] + y == [d] + y && "" + [d] + Lower(y) == [d] + Lower(y);
    SpaceSeparates(Lower(x), c, Lower(y));
    SpaceSeparates(Lower(x), d, Lower(y));
    SpaceSeparates(Lower(x), c, Lower([d] + y));
    SpaceSeparates("", d, Lower(y));
  }

  lemma LowerOfThree(x: string, c: char, y: string)
    requires IsSpace(c)
    ensures Lower(x + [c] + y) == Lower(x) + [c] + Lower(y)
  {
  }

  // ---------------------------------------------------------------------------------------
  // Retrievals with room for everything
  // ---------------------------------------------------------------------------------------

  /** A higher score, or the same and an identifier that sorts before. */
  ghost predicate Outranks(x: ContextRecord, y: ContextRecord) {
    x.Score() > y.Score() || (x.Score() == y.Score() && SortsBefore(x.recordId, y.recordId))
  }

  lemma OutranksIff(x: ContextRecord, y: ContextRecord)
    ensures Outranks(x, y) <==> !RankLe(y, x)
  {
    SortsBeforeIff(x.recordId, y.recordId);
  }

  lemma OtherIdsOutrank(x: ContextRecord, y: ContextRecord)
    requires RankLe(x, y) && x.recordId != y.recordId
    ensures Outranks(x, y)
  {
    OutranksIff(x, y);
    LexTotal(x.recordId, y.recordId);
  }

  lemma {:induction false} AllSeen(ranked: seq<ContextRecord>, budget: int, key: Keying)
    requires NonNegativeCosts(ranked) && CostOf(ranked, Any()) <= budget
    ensures Greedy(ranked, budget, key).seen == KeySet(ranked, key)
  {
    if ranked != [] {
      var n := |ranked| - 1;
      assert ranked[..n + 1] == ranked;
      CostGrows(ranked, n, Any());
      AllSeen(ranked[..n], budget, key);
      CountedUse(ranked[..n], budget, key, Any());
    }
  }

  /** With room for everything a record is a duplicate exactly when its key came before. */
  lemma VerdictWithRoom(ranked: seq<ContextRecord>, budget: int, key: Keying, n: nat)
    requires NonNegativeCosts(ranked) && CostOf(ranked, Any()) <= budget && n < |ranked|
    ensures Verdict(Greedy(ranked[..n], budget, key), ranked[n], budget, key)
      == if key(ranked[n]) in KeySet(ranked[..n], key) then Duplicate else Selected
  {
    CostGrows(ranked, n, Any());
    CostGrows(ranked, n + 1, Any());
    assert ranked[..n + 1][..n] == ranked[..n];
    AllSeen(ranked[..n], budget, key);
    CountedUse(ranked[..n], budget, key, Any());
  }

  ghost predicate DistinctRanking(ranked: seq<ContextRecord>) {
    forall i, j :: 0 <= i < j < |ranked| ==> ranked[i].recordId != ranked[j].recordId && Outranks(ranked[i], ranked[j])
  }

  lemma ValuesHaveOwnIds(d: Dict<string, ContextRecord>)
    requires FiledById(d)
    ensures forall i, j :: 0 <= i < j < |d.Values()| ==> d.Values()[i] != d.Values()[j]
    ensures forall x, y :: x in d.Values() && y in d.Values() && x.recordId == y.recordId ==> x == y
  {
    forall i, j | 0 <= i < j < |d.Values()| ensures d.Values()[i] != d.Values()[j] {
      assert d.order[i] in d.order && d.order[j] in d.order;
      assert IndexOf(d.order, d.order[i]) == i && IndexOf(d.order, d.order[j]) == j;
    }
    forall x, y | x in d.Values() && y in d.Values() && x.recordId == y.recordId ensures x == y {
      RankedIsFiled(d, x);
      RankedIsFiled(d, y);
    }
  }

  lemma {:induction false} OnceEach<T>(s: seq<T>)
    requires forall i, j :: 0 <= i < j < |s| ==> s[i] != s[j]
    ensures forall x :: multiset(s)[x] <= 1
  {
    if s != [] {
      var n := |s| - 1;
      assert s == s[..n] + [s[n]];
      OnceEach(s[..n]);
      assert s[n] !in s[..n] && s[n] !in multiset(s[..n]);
    }
  }

  lemma Apart<T>(s: seq<T>, i: nat, j: nat)
    requires i < j < |s| && forall x :: multiset(s)[x] <= 1
    ensures s[i] != s[j]
  {
    assert s == s[..i + 1] + s[i + 1..];
    assert multiset(s) == multiset(s[..i + 1]) + multiset(s[i + 1..]);
    assert s[i + 1..][j - i - 1] == s[j] && s[j] in multiset(s[i + 1..]);
    assert s[..i + 1][i] == s[i] && s[i] in multiset(s[..i + 1]);
    assert multiset(s)[s[i]] <= 1;
  }

  lemma RankingIsDistinct(d: Dict<string, ContextRecord>)
    requires FiledById(d)
    ensures DistinctRanking(Sort(d.Values(), RankLe))
  {
    var ranked := Sort(d.Values(), RankLe);
    RankRanks();
    SortIsSorted(d.Values(), RankLe);
    SameElements(d.Values(), RankLe);
    ValuesHaveOwnIds(d);
    OnceEach(d.Values());
    forall i, j | 0 <= i < j < |ranked|
      ensures ranked[i].recordId != ranked[j].recordId && Outranks(ranked[i], ranked[j])
    {
      Apart(ranked, i, j);
      assert ranked[i] in ranked && ranked[j] in ranked;
      SortedPairs(ranked, RankLe, i, j);
      OtherIdsOutrank(ranked[i], ranked[j]);
    }
  }

  lemma BeforeInRanking(ranked: seq<ContextRecord>, i: nat, n: nat)
    requires DistinctRanking(ranked) && i < |ranked| && n < |ranked|
    ensures Outranks(ranked[i], ranked[n]) <==> i < n
  {
    OutranksIff(ranked[i], ranked[n]);
    if n < i {
      assert Outranks(ranked[n], ranked[i]);
      OutranksIff(ranked[n], ranked[i]);
    }
    if n == i { LexTotal(ranked[i].recordId, ranked[i].recordId); }
  }

  /** Some record of the index outranks `r` and says the same in other case or spacing. */
  ghost predicate Repeats(d: Dict<string, ContextRecord>, r: ContextRecord) {
    exists id :: id in d.at && Outranks(d.at[id], r) && SameWords(d.at[id].claim, r.claim)
  }

  lemma RepeatsIff(d: Dict<string, ContextRecord>, n: nat)
    requires FiledById(d) && n < |Sort(d.Values(), RankLe)|
    ensures var ranked := Sort(d.Values(), RankLe);
      ClaimKeys()(ranked[n]) in KeySet(ranked[..n], ClaimKeys()) <==> Repeats(d, ranked[n])
  {
    var ranked, key := Sort(d.Values(), RankLe), ClaimKeys();
    SameElements(d.Values(), RankLe);
    RankingIsDistinct(d);
    if key(ranked[n]) in KeySet(ranked[..n], key) {
      var i := KeyIndex(ranked[..n], key, key(ranked[n]));
      assert ranked[i] in d.Values();
      RankedIsFiled(d, ranked[i]);
      ClaimKeyIff(ranked[i].claim, ranked[n].claim);
      assert d.at[ranked[i].recordId] == ranked[i];
    }
    if Repeats(d, ranked[n]) {
      var id :| id in d.at && Outranks(d.at[id], ranked[n]) && SameWords(d.at[id].claim, ranked[n].claim);
      ValueIsListed(d, id);
      var i :| 0 <= i < |ranked| && ranked[i] == d.at[id];
      BeforeInRanking(ranked, i, n);
      ClaimKeyIff(ranked[i].claim, ranked[n].claim);
      assert ranked[..n][i] == ranked[i];
    }
  }

  /** What is selected was found selected at its place. */
  lemma {:induction false} SelectedAt(ranked: seq<ContextRecord>, budget: int, key: Keying, x: ContextRecord)
    returns (m: nat)
    requires x in Greedy(ranked, budget, key).selected
    ensures m < |ranked| && ranked[m].(residency := "resident") == x
    ensures Verdict(Greedy(ranked[..m], budget, key), ranked[m], budget, key) == Selected
  {
    var k := |ranked| - 1;
    if x in Greedy(ranked[..k], budget, key).selected {
      m := SelectedAt(ranked[..k], budget, key, x);
      assert ranked[..k][..m] == ranked[..m];
    } else {
      m := k;
    }
  }

  /** When all records fit the budget together, a record is left out if and only if one that
      outranks it has the same words, letter case aside. */
  lemma LeftOutIff(d: Dict<string, ContextRecord>, budget: int, id: string)
    requires FiledById(d) && NonNegativeCosts(d.Values()) && CostOf(d.Values(), Any()) <= budget && id in d.at
    ensures var p := Retrieved(d, budget);
      && id in p.reasons
      && p.reasons[id] == (if Repeats(d, d.at[id]) then Duplicate else Selected)
      && (d.at[id].(residency := "resident") in p.selected <==> !Repeats(d, d.at[id]))
  {
    var ranked, key := Sort(d.Values(), RankLe), ClaimKeys();
    SameElements(d.Values(), RankLe);
    ValueIsListed(d, id);
    var n := ReasonIsVerdict(ranked, budget, key, id);
    assert ranked[n] in ranked;
    RankedIsFiled(d, ranked[n]);
    CostSorted(d.Values(), Any());
    forall i | 0 <= i < |ranked| ensures ranked[i].tokenCost >= 0 { assert ranked[i] in d.Values(); }
    VerdictWithRoom(ranked, budget, key, n);
    RepeatsIff(d, n);
    if d.at[id].(residency := "resident") in Retrieved(d, budget).selected {
      var m := SelectedAt(ranked, budget, key, d.at[id].(residency := "resident"));
      RankingIsDistinct(d);
      assert m == n;
    }
    if !Repeats(d, d.at[id]) { SelectedIsIn(ranked, budget, key, n); }
  }

  // ---------------------------------------------------------------------------------------
  // What counts for and against a record
  // ---------------------------------------------------------------------------------------

  /** At least as good in every respect. */
  predicate AsGood(x: ContextRecord, y: ContextRecord) {
    && x.relevance >= y.relevance && x.confidence >= y.confidence && x.sourceAuthority >= y.sourceAuthority
    && x.recency >= y.recency && (y.pinned ==> x.pinned) && (y.unresolved ==> x.unresolved)
    && x.tokenCost <= y.tokenCost
  }

  /** A record as good in every respect and better in one outranks the other. */
  lemma BetterOutranks(x: ContextRecord, y: ContextRecord)
    requires AsGood(x, y) && !AsGood(y, x)
    ensures Outranks(x, y)
  {
    assert x.tokenCost < y.tokenCost ==> x.tokenCost as real / 10000.0 < y.tokenCost as real / 10000.0;
  }
}
