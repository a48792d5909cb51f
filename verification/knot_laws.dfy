/** Exactly which logic knots a stress test reports. */
module KnotLaws {
  import opened WeakestLink
  import opened Belief
  import opened StressTester
  import opened StressLaws

  type Pairing = (Claim, Claim) -> bool

  ghost predicate SomePair(s: seq<Claim>, p: Pairing) { exists i, j :: 0 <= i < j < |s| && p(s[i], s[j]) }

  lemma SomePairIff(s: seq<Claim>, p: Pairing)
    ensures SomePair(s, p) <==> !PairFree(s, p)
  {
  }

  // ---------------------------------------------------------------------------------------
  // Duplicates
  // ---------------------------------------------------------------------------------------

  ghost function Repeating(k: Knot): Pairing {
    (a: Claim, b: Claim) => a.id == b.id && k == Knot(b.id, b.id, DuplicateReason())
  }

  lemma {:induction false} DuplicateIff(accepted: seq<Claim>, k: Knot)
    ensures k in DuplicateKnots(accepted) <==> SomePair(accepted, Repeating(k))
  {
    SomePairIff(accepted, Repeating(k));
    if accepted != [] {
      var front, last := accepted[..|accepted| - 1], accepted[|accepted| - 1];
      DuplicateIff(front, k);
      SomePairIff(front, Repeating(k));
      assert accepted == front + [last];
      PairFreeNext(front, last, Repeating(k));
      RepeatsFront(front, last, k);
    }
  }

  lemma RepeatsFront(front: seq<Claim>, last: Claim, k: Knot)
    ensures !FreeOf(front, last, Repeating(k))
      <==> last.id in IdSet(front) && k == Knot(last.id, last.id, DuplicateReason())
  {
    if last.id in IdSet(front) && k == Knot(last.id, last.id, DuplicateReason()) {
      var c :| c in front && c.id == last.id;
      var i :| 0 <= i < |front| && front[i] == c;
      assert Repeating(k)(front[i], last);
    }
  }

  // ---------------------------------------------------------------------------------------
  // Conflicts within a group
  // ---------------------------------------------------------------------------------------

  ghost function Opposing(component: string, k: Knot, pat: Patterns): Pairing {
    (a: Claim, b: Claim) => NegationConflict(a, b, pat) && k == Knot(a.id, b.id, ConflictReason(component))
  }

  lemma {:induction false} OpposesIff(component: string, a: Claim, others: seq<Claim>, pat: Patterns, k: Knot)
    ensures k in ConflictsWith(component, a, others, pat)
      <==> exists j :: 0 <= j < |others| && Opposing(component, k, pat)(a, others[j])
  {
    if others != [] {
      var n := |others| - 1;
      OpposesIff(component, a, others[..n], pat, k);
      forall j | 0 <= j < n ensures others[..n][j] == others[j] {}
    }
  }

  ghost predicate PairBelow(group: seq<Claim>, n: nat, p: Pairing) {
    exists i, j :: 0 <= i < n && i < j < |group| && p(group[i], group[j])
  }

  lemma {:induction false} GroupIff(component: string, group: seq<Claim>, n: nat, pat: Patterns, k: Knot)
    requires n <= |group|
    ensures k in Conflicts(component, group, n, pat) <==> PairBelow(group, n, Opposing(component, k, pat))
  {
    if n > 0 {
      var p := Opposing(component, k, pat);
      GroupIff(component, group, n - 1, pat, k);
      OpposesIff(component, group[n - 1], group[n..], pat, k);
      LastRow(group, n, p);
    }
  }

  lemma LastRow(group: seq<Claim>, n: nat, p: Pairing)
    requires 0 < n <= |group|
    ensures PairBelow(group, n, p)
      <==> PairBelow(group, n - 1, p) || exists j :: 0 <= j < |group[n..]| && p(group[n - 1], group[n..][j])
  {
    if j :| 0 <= j < |group[n..]| && p(group[n - 1], group[n..][j]) {
      assert group[n..][j] == group[n + j];
    }
    if PairBelow(group, n, p) {
      var i, j :| 0 <= i < n && i < j < |group| && p(group[i], group[j]);
      if i == n - 1 { assert group[n..][j - n] == group[j]; }
    }
  }

  lemma {:induction false} SomeGroupIff(d: Groups, order: seq<string>, pat: Patterns, k: Knot)
    requires forall comp :: comp in order ==> comp in d.at
    ensures k in ConflictKnots(d, order, pat)
      <==> exists comp :: comp in order && comp != "" && SomePair(d.at[comp], Opposing(comp, k, pat))
  {
    if order != [] {
      var front, comp := order[..|order| - 1], order[|order| - 1];
      assert order == front + [comp];
      SomeGroupIff(d, front, pat, k);
      if comp != "" {
        GroupIff(comp, d.at[comp], |d.at[comp]|, pat, k);
        WholeGroup(d.at[comp], Opposing(comp, k, pat));
      }
    }
  }

  lemma WholeGroup(group: seq<Claim>, p: Pairing)
    ensures PairBelow(group, |group|, p) <==> SomePair(group, p)
  {
  }

  // ---------------------------------------------------------------------------------------
  // All accepted artifacts
  // ---------------------------------------------------------------------------------------

  ghost function OpposingIn(component: string, k: Knot, pat: Patterns): Pairing {
    (a: Claim, b: Claim) => a.component == component && b.component == component && Opposing(component, k, pat)(a, b)
  }

  ghost function Contradicts(k: Knot, pat: Patterns): Pairing {
    (a: Claim, b: Claim) => a.component == b.component != "" && Opposing(a.component, k, pat)(a, b)
  }

  lemma GroupOf(accepted: seq<Claim>, comp: string, k: Knot, pat: Patterns)
    ensures var d := ByComponent(accepted);
      (comp in d.at && SomePair(d.at[comp], Opposing(comp, k, pat))) <==> SomePair(accepted, OpposingIn(comp, k, pat))
  {
    var d := ByComponent(accepted);
    GroupIs(accepted, comp);
    FilteredPairFree(accepted, OfComponent(comp), Same(), Opposing(comp, k, pat), OpposingIn(comp, k, pat));
    SomePairIff(accepted, OpposingIn(comp, k, pat));
    if comp in d.at { SomePairIff(d.at[comp], Opposing(comp, k, pat)); }
  }

  lemma ContradictionIff(accepted: seq<Claim>, pat: Patterns, k: Knot)
    ensures var d := ByComponent(accepted);
      k in ConflictKnots(d, d.order, pat) <==> SomePair(accepted, Contradicts(k, pat))
  {
    var d := ByComponent(accepted);
    SomeGroupIff(d, d.order, pat, k);
    if comp :| comp in d.order && comp != "" && SomePair(d.at[comp], Opposing(comp, k, pat)) {
      GroupOf(accepted, comp, k, pat);
      var i, j :| 0 <= i < j < |accepted| && OpposingIn(comp, k, pat)(accepted[i], accepted[j]);
      assert Contradicts(k, pat)(accepted[i], accepted[j]);
    }
    if SomePair(accepted, Contradicts(k, pat)) {
      var i, j :| 0 <= i < j < |accepted| && Contradicts(k, pat)(accepted[i], accepted[j]);
      var comp := accepted[i].component;
      assert OpposingIn(comp, k, pat)(accepted[i], accepted[j]);
      GroupOf(accepted, comp, k, pat);
    }
  }

  // ---------------------------------------------------------------------------------------
  // All artifacts
  // ---------------------------------------------------------------------------------------

  predicate Accepts(c: Claim) { c.status in {BeliefStatus.Accepted, StressTested, Reconstructed} }

  /** Two artifacts make a knot: the same id, or a contradiction within one named component. */
  ghost predicate Makes(a: Claim, b: Claim, k: Knot, pat: Patterns) {
    && Accepts(a) && Accepts(b)
    && ((a.id == b.id && k == Knot(b.id, b.id, DuplicateReason()))
        || (a.component == b.component && a.component != "" && NegationConflict(a, b, pat)
            && k == Knot(a.id, b.id, ConflictReason(a.component))))
  }

  ghost function Making(k: Knot, pat: Patterns): Pairing { (a: Claim, b: Claim) => Makes(a, b, k, pat) }

  ghost function Either(k: Knot, pat: Patterns): Pairing {
    (a: Claim, b: Claim) => Repeating(k)(a, b) || Contradicts(k, pat)(a, b)
  }

  lemma EitherPair(s: seq<Claim>, k: Knot, pat: Patterns)
    ensures SomePair(s, Either(k, pat)) <==> SomePair(s, Repeating(k)) || SomePair(s, Contradicts(k, pat))
  {
    if i, j :| 0 <= i < j < |s| && Repeating(k)(s[i], s[j]) { assert Either(k, pat)(s[i], s[j]); }
    if i, j :| 0 <= i < j < |s| && Contradicts(k, pat)(s[i], s[j]) { assert Either(k, pat)(s[i], s[j]); }
  }

  lemma MakesIffEither(a: Claim, b: Claim, k: Knot, pat: Patterns)
    ensures Makes(a, b, k, pat)
      <==> (a.IsAccepted() && b.IsAccepted() && Either(k, pat)(WithoutFailures(a), WithoutFailures(b)))
  {
    ConflictIff(WithoutFailures(a), WithoutFailures(b), pat);
    ConflictIff(a, b, pat);
    SameShares(a, b, pat);
    SameRepeats(a, b, k);
    SameContradicts(a, b, k, pat);
  }

  lemma SameRepeats(a: Claim, b: Claim, k: Knot)
    ensures Repeating(k)(WithoutFailures(a), WithoutFailures(b))
      <==> a.id == b.id && k == Knot(b.id, b.id, DuplicateReason())
  {
  }

  lemma SameContradicts(a: Claim, b: Claim, k: Knot, pat: Patterns)
    ensures Contradicts(k, pat)(WithoutFailures(a), WithoutFailures(b))
      <==> (a.component == b.component && a.component != "" && k == Knot(a.id, b.id, ConflictReason(a.component))
            && NegationConflict(WithoutFailures(a), WithoutFailures(b), pat))
  {
    var x, y := WithoutFailures(a), WithoutFailures(b);
    assert Opposing(a.component, k, pat)(x, y)
      <==> NegationConflict(x, y, pat) && k == Knot(a.id, b.id, ConflictReason(a.component));
  }

  lemma SameShares(a: Claim, b: Claim, pat: Patterns)
    ensures ShareTwo(WithoutFailures(a), WithoutFailures(b), pat) <==> ShareTwo(a, b, pat)
    ensures SaysMust(WithoutFailures(a), pat) <==> SaysMust(a, pat)
    ensures SaysMustNot(WithoutFailures(a), pat) <==> SaysMustNot(a, pat)
    ensures SaysMust(WithoutFailures(b), pat) <==> SaysMust(b, pat)
    ensures SaysMustNot(WithoutFailures(b), pat) <==> SaysMustNot(b, pat)
  {
    forall w ensures IsAbout(WithoutFailures(a), w, pat) <==> IsAbout(a, w, pat) {}
    forall w ensures IsAbout(WithoutFailures(b), w, pat) <==> IsAbout(b, w, pat) {}
  }

  lemma MakingIsEither(k: Knot, pat: Patterns)
    ensures forall a, b :: Making(k, pat)(a, b) <==>
      (StressLaws.Accepts()(a) && StressLaws.Accepts()(b) && Either(k, pat)(Bare()(a), Bare()(b)))
  {
    forall a: Claim, b: Claim
      ensures Making(k, pat)(a, b)
        <==> (StressLaws.Accepts()(a) && StressLaws.Accepts()(b) && Either(k, pat)(Bare()(a), Bare()(b)))
    {
      MakesIffEither(a, b, k, pat);
    }
  }

  /** A stress test reports a knot if and only if an artifact and a later one make it. */
  lemma KnotIff(claims: seq<Claim>, pat: Patterns, k: Knot)
    ensures k in Knots(claims, pat) <==> exists i, j :: 0 <= i < j < |claims| && Makes(claims[i], claims[j], k, pat)
  {
    var accepted := StressTester.Accepted(claims);
    DuplicateIff(accepted, k);
    ContradictionIff(accepted, pat, k);
    EitherPair(accepted, k, pat);
    AcceptedIs(claims);
    MakingIsEither(k, pat);
    FilteredPairFree(claims, StressLaws.Accepts(), Bare(), Either(k, pat), Making(k, pat));
    SomePairIff(claims, Making(k, pat));
    SomePairIff(accepted, Either(k, pat));
  }
}
