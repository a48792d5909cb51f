/** What a certainty run promises about the artifacts it is given. */
module CertaintyLaws {
  import opened Belief
  import opened WeakestLink
  import opened WeakestLinkLaws
  import opened Certainty

  // ---------------------------------------------------------------------------------------
  // Two lists of claims with the same identifiers in the same places
  // ---------------------------------------------------------------------------------------

  ghost predicate SameIds(cs: seq<Claim>, ds: seq<Claim>) {
    |cs| == |ds| && forall i :: 0 <= i < |cs| ==> cs[i].id == ds[i].id
  }

  lemma {:induction false} SameOrder(cs: seq<Claim>, ds: seq<Claim>)
    requires SameIds(cs, ds)
    ensures Indexed(cs).order == Indexed(ds).order && Indexed(cs).at.Keys == Indexed(ds).at.Keys
  {
    if cs != [] { SameOrder(cs[..|cs| - 1], ds[..|ds| - 1]); }
  }

  /** The claim kept for an identifier sits at the same place in both lists. */
  lemma {:induction false} KeptAt(cs: seq<Claim>, ds: seq<Claim>, id: Id) returns (i: nat)
    requires SameIds(cs, ds) && id in Indexed(cs).at
    ensures i < |cs| && cs[i].id == id
    ensures Indexed(cs).at[id] == cs[i]
    ensures id in Indexed(ds).at && Indexed(ds).at[id] == ds[i]
  {
    i := |cs| - 1;
    if id != cs[i].id { i := KeptAt(cs[..i], ds[..i], id); }
  }

  // ---------------------------------------------------------------------------------------
  // The weakest-link rule, and exactly when the cap of twenty passes delivers it
  // ---------------------------------------------------------------------------------------

  ghost predicate ReportsWeakest(claims: seq<Claim>, covered: set<Id>) {
    WeakestEverywhere(GraphOf(claims), BaseScores(claims, covered), MAX_PASSES)
  }

  /** Up to 21 different identifiers, every reported score is the weakest link, whatever the
      links, the listing order, the confidences, the coverage and the failures are. */
  lemma UpTo21IsWeakest(claims: seq<Claim>, covered: set<Id>)
    requires |GraphOf(claims).order| <= 21
    ensures ReportsWeakest(claims, covered)
  {
    FewArtifactsSuffice(GraphOf(claims), MAX_PASSES);
  }

  ghost predicate SameLinksAs(cs: seq<Claim>, ds: seq<Claim>) {
    SameIds(cs, ds) && forall i :: 0 <= i < |cs| ==> cs[i].links == ds[i].links
  }

  lemma SameGraph(cs: seq<Claim>, ds: seq<Claim>)
    requires SameLinksAs(cs, ds)
    ensures GraphOf(cs) == GraphOf(ds)
  {
    SameOrder(cs, ds);
    forall id | id in Indexed(cs).at ensures Indexed(cs).at[id].links == Indexed(ds).at[id].links {
      var i := KeptAt(cs, ds, id);
    }
  }

  /** The claims with one artifact of unknown confidence and all others at their best. */
  ghost function OnlyUnknown(cs: seq<Claim>, b: Id): (ds: seq<Claim>)
    ensures SameLinksAs(cs, ds)
  {
    seq(|cs|, i requires 0 <= i < |cs| =>
      cs[i].(confidence := if cs[i].id == b then UNKNOWN else HIGH, propositions := ["claim"], failures := []))
  }

  lemma OnlyUnknownScore(cs: seq<Claim>, b: Id, id: Id)
    requires id in Indexed(cs).at
    ensures id in Indexed(OnlyUnknown(cs, b)).at
    ensures Composite(Indexed(OnlyUnknown(cs, b)).at[id], GraphOf(cs).links.Keys) == if id == b then 0.0 else 0.85
  {
    var i := KeptAt(cs, OnlyUnknown(cs, b), id);
    BestComposite(OnlyUnknown(cs, b)[i], GraphOf(cs).links.Keys);
  }

  lemma BestComposite(c: Claim, covered: set<Id>)
    requires c.propositions != [] && c.id in covered && c.failures == []
    ensures Composite(c, covered) == c.confidence.Score()
  {
  }

  lemma OnlyUnknownScores(cs: seq<Claim>, b: Id)
    ensures BaseScores(OnlyUnknown(cs, b), GraphOf(cs).links.Keys) == ZeroOnlyAt(GraphOf(cs), b)
  {
    SameOrder(cs, OnlyUnknown(cs, b));
    forall id | id in Indexed(cs).at
      ensures BaseScores(OnlyUnknown(cs, b), GraphOf(cs).links.Keys)[id] == ZeroOnlyAt(GraphOf(cs), b)[id]
    {
      OnlyUnknownScore(cs, b, id);
    }
  }

  /** For given links and listing order, the report obeys the weakest-link rule for all
      confidences, coverage, propositions and failures if and only if every dependency can be
      reached at a cost of at most twenty passes. */
  lemma CapDeliversIff(claims: seq<Claim>)
    ensures (forall ds, covered :: SameLinksAs(claims, ds) ==> ReportsWeakest(ds, covered))
      <==> CheaplyReaches(GraphOf(claims), MAX_PASSES)
  {
    var g := GraphOf(claims);
    if CheaplyReaches(g, MAX_PASSES) {
      PassesSufficeIff(g, MAX_PASSES);
      forall ds, covered | SameLinksAs(claims, ds) ensures ReportsWeakest(ds, covered) {
        SameGraph(claims, ds);
      }
    }
    if forall ds, covered :: SameLinksAs(claims, ds) ==> ReportsWeakest(ds, covered) {
      forall a, b | Reaches(g, a, b) ensures ReachesWithin(g, a, b, MAX_PASSES) {
        assert ReportsWeakest(OnlyUnknown(claims, b), g.links.Keys);
        UnknownArrives(claims, a, b);
      }
    }
  }

  lemma UnknownArrives(claims: seq<Claim>, a: Id, b: Id)
    requires Reaches(GraphOf(claims), a, b)
    requires ReportsWeakest(OnlyUnknown(claims, b), GraphOf(claims).links.Keys)
    ensures ReachesWithin(GraphOf(claims), a, b, MAX_PASSES)
  {
    var g := GraphOf(claims);
    SameGraph(claims, OnlyUnknown(claims, b));
    OnlyUnknownScores(claims, b);
    ReachedAreListed(g, a, b);
    WeakestIsBelow(g, ZeroOnlyAt(g, b), MAX_PASSES, a, b);
    ZeroArrives(g, ZeroOnlyAt(g, b), MAX_PASSES, a, b);
  }

  // ---------------------------------------------------------------------------------------
  // Monotonicity of the whole run
  // ---------------------------------------------------------------------------------------

  /** Resolved, or no more severe and not reopened. */
  predicate Milder(after: FailureMode, before: FailureMode) {
    after.resolved || (!before.resolved && AtLeastAsSevere(before.severity, after.severity))
  }

  /** `after` comes from `before` by dropping, resolving or easing failures. */
  ghost predicate FewerFailures(after: seq<FailureMode>, before: seq<FailureMode>) {
    if before == [] then after == []
    else
      var n := |before| - 1;
      || FewerFailures(after, before[..n])
      || (after != [] && FewerFailures(after[..|after| - 1], before[..n])
          && Milder(after[|after| - 1], before[n]))
  }

  lemma {:induction false} FewerFailuresAreFresher(after: seq<FailureMode>, before: seq<FailureMode>)
    requires FewerFailures(after, before)
    ensures Freshness(before) <= Freshness(after)
  {
    if before != [] {
      var n := |before| - 1;
      if FewerFailures(after, before[..n]) {
        FewerFailuresAreFresher(after, before[..n]);
        MulMonotone(Freshness(before[..n]), Freshness(after), Factor(before[n]), 1.0);
      } else {
        FewerFailuresAreFresher(after[..|after| - 1], before[..n]);
        MulMonotone(Freshness(before[..n]), Freshness(after[..|after| - 1]), Factor(before[n]),
                    Factor(after[|after| - 1]));
      }
    }
  }

  /** A more severe open failure in place of another makes a claim strictly staler. */
  lemma {:induction false} MoreSevereIsStaler(before: seq<FailureMode>, x: FailureMode, y: FailureMode,
                                              after: seq<FailureMode>)
    requires !x.resolved && !y.resolved && AtLeastAsSevere(x.severity, y.severity) && x.severity != y.severity
    ensures Freshness(before + [x] + after) < Freshness(before + [y] + after)
  {
    var p, q := before + [x] + after, before + [y] + after;
    if after == [] {
      assert p[..|p| - 1] == before && q[..|q| - 1] == before;
      StalerLast(p, q);
    } else {
      var front := after[..|after| - 1];
      MoreSevereIsStaler(before, x, y, front);
      assert p[..|p| - 1] == before + [x] + front && q[..|q| - 1] == before + [y] + front;
      StalerFront(p, q);
    }
  }

  lemma StalerLast(p: seq<FailureMode>, q: seq<FailureMode>)
    requires p != [] && q != [] && p[..|p| - 1] == q[..|q| - 1] && Factor(p[|p| - 1]) < Factor(q[|q| - 1])
    ensures Freshness(p) < Freshness(q)
  {
    MulStrict(Freshness(p[..|p| - 1]), Factor(p[|p| - 1]), Factor(q[|q| - 1]));
  }

  lemma StalerFront(p: seq<FailureMode>, q: seq<FailureMode>)
    requires p != [] && q != [] && Factor(p[|p| - 1]) <= Factor(q[|q| - 1])
    requires Freshness(p[..|p| - 1]) < Freshness(q[..|q| - 1])
    ensures Freshness(p) < Freshness(q)
  {
    MulStrictFront(Freshness(p[..|p| - 1]), Freshness(q[..|q| - 1]), Factor(p[|p| - 1]), Factor(q[|q| - 1]));
  }

  lemma MulStrictFront(x: real, y: real, f: real, g: real)
    requires 0.0 < x < y && 0.0 < f <= g
    ensures x * f < y * g
  {
    assert x * f < y * f <= y * g;
  }

  lemma MulStrict(a: real, x: real, y: real)
    requires a > 0.0 && x < y
    ensures a * x < a * y && x * a < y * a
  {
  }

  /** The factors of a base score count strictly: no claims or unknown confidence give nothing, more
      confidence gives more, and so does coverage. */
  lemma BaseScoreCounts(c: Claim, covered: set<Id>, more: ConfidenceLevel)
    ensures Composite(c, covered) == 0.0 <==> c.propositions == [] || c.confidence == UNKNOWN
    ensures c.propositions != [] && Below(c.confidence, more)
      ==> Composite(c, covered) < Composite(c.(confidence := more), covered)
    ensures c.propositions != [] && c.confidence != UNKNOWN && c.id !in covered
      ==> Composite(c, covered) < Composite(c, covered + {c.id})
  {
    var f := Freshness(c.failures);
    WeightedCounts(c.confidence.Score(), more.Score(), Coverage(c, covered), f);
    WeightedCovers(c.confidence.Score(), f);
  }

  /** So does freshness: of two claims that differ in their failures, the fresher one scores more,
      unless nothing counts. */
  lemma FresherScoresMore(c: Claim, covered: set<Id>, fms: seq<FailureMode>)
    requires c.propositions != [] && c.confidence != UNKNOWN
    ensures Composite(c, covered) < Composite(c.(failures := fms), covered) <==> Freshness(c.failures) < Freshness(fms)
  {
    var factor := c.confidence.Score() * Coverage(c, covered);
    assert factor > 0.0;
    var f, g := Freshness(c.failures), Freshness(fms);
    if f < g { MulStrict(factor, f, g); } else if g < f { MulStrict(factor, g, f); }
  }

  predicate Below(a: ConfidenceLevel, b: ConfidenceLevel) {
    (a == UNKNOWN && b != UNKNOWN) || (a == LOW && (b == MEDIUM || b == HIGH)) || (a == MEDIUM && b == HIGH)
  }

  lemma WeightedCounts(a: real, b: real, x: real, f: real)
    requires 0.0 <= a && 0.0 <= x && f > 0.0
    ensures Weighted(a, x, f) == 0.0 <==> a == 0.0 || x == 0.0
    ensures a < b && x > 0.0 ==> Weighted(a, x, f) < Weighted(b, x, f)
  {
    if a > 0.0 && x > 0.0 {
      assert a * x > 0.0;
      assert a * x * f > 0.0;
    }
    if a < b && x > 0.0 {
      MulStrict(x, a, b);
      MulStrict(f, a * x, b * x);
    }
  }

  lemma WeightedCovers(a: real, f: real)
    requires 0.0 <= a && f > 0.0
    ensures a > 0.0 ==> Weighted(a, 0.4, f) < Weighted(a, 1.0, f)
  {
    if a > 0.0 { MulStrict(f, a * 0.4, a * 1.0); }
  }

  lemma MulMonotone(a: real, b: real, x: real, y: real)
    requires 0.0 <= a <= b && 0.0 <= x <= y
    ensures 0.0 <= a * x <= b * y
  {
    assert a * x <= b * x <= b * y;
  }

  /** `d` says at least as much for itself as `c`: more confidence, coverage and propositions,
      fewer open failures; the same links. */
  ghost predicate Improves(c: Claim, covered: set<Id>, d: Claim, covered': set<Id>) {
    && d.id == c.id && d.links == c.links
    && c.confidence.Score() <= d.confidence.Score()
    && (d.propositions == [] ==> c.propositions == [])
    && (c.id in covered ==> d.id in covered')
    && FewerFailures(d.failures, c.failures)
  }

  lemma ImprovingRaisesComposite(c: Claim, covered: set<Id>, d: Claim, covered': set<Id>)
    requires Improves(c, covered, d, covered')
    ensures 0.0 <= Composite(c, covered) <= Composite(d, covered')
  {
    FewerFailuresAreFresher(d.failures, c.failures);
    ThreeFactors(c.confidence.Score(), d.confidence.Score(), Coverage(c, covered), Coverage(d, covered'),
                 Freshness(c.failures), Freshness(d.failures));
  }

  lemma ThreeFactors(a: real, b: real, x: real, y: real, f: real, g: real)
    requires 0.0 <= a <= b && 0.0 <= x <= y && 0.0 <= f <= g
    ensures 0.0 <= Weighted(a, x, f) <= Weighted(b, y, g)
  {
    MulMonotone(a, b, x, y);
    MulMonotone(a * x, b * y, f, g);
  }

  /** Raising confidence, adding coverage or propositions, and dropping or resolving failures,
      of any number of artifacts, never lowers any reported score. */
  lemma ImprovingNeverLowers(cs: seq<Claim>, covered: set<Id>, ds: seq<Claim>, covered': set<Id>, a: Id)
    requires |cs| == |ds| && forall i :: 0 <= i < |cs| ==> Improves(cs[i], covered, ds[i], covered')
    requires a in FinalScores(cs, covered)
    ensures a in FinalScores(ds, covered') && FinalScores(cs, covered)[a] <= FinalScores(ds, covered')[a]
  {
    SameGraph(cs, ds);
    SameOrder(cs, ds);
    var low, high := BaseScores(cs, covered), BaseScores(ds, covered');
    forall id | id in low ensures low[id] <= high[id] {
      var i := KeptAt(cs, ds, id);
      ImprovingRaisesComposite(cs[i], covered, ds[i], covered');
    }
    RaisingBasesNeverLowers(GraphOf(cs), low, high, MAX_PASSES, a);
  }

  /** `d` is `c` with further links. */
  ghost predicate LinksFurther(c: Claim, d: Claim) {
    d == c.(links := d.links) && forall b :: b in c.links ==> b in d.links
  }

  ghost predicate AllLinkFurther(cs: seq<Claim>, ds: seq<Claim>) {
    |cs| == |ds| && forall i :: 0 <= i < |cs| ==> LinksFurther(cs[i], ds[i])
  }

  lemma LinkingKeepsBases(cs: seq<Claim>, ds: seq<Claim>, covered: set<Id>)
    requires AllLinkFurther(cs, ds)
    ensures BaseScores(cs, covered) == BaseScores(ds, covered)
  {
    SameOrder(cs, ds);
    forall id | id in Indexed(cs).at
      ensures BaseScores(cs, covered)[id] == BaseScores(ds, covered)[id]
    {
      LinkingKeepsBase(cs, ds, covered, id);
    }
  }

  lemma LinkingKeepsBase(cs: seq<Claim>, ds: seq<Claim>, covered: set<Id>, id: Id)
    requires AllLinkFurther(cs, ds) && id in Indexed(cs).at
    ensures id in Indexed(ds).at && Composite(Indexed(cs).at[id], covered) == Composite(Indexed(ds).at[id], covered)
  {
    var i := KeptAt(cs, ds, id);
    LinksDoNotScore(cs[i], ds[i], covered);
  }

  lemma LinksDoNotScore(c: Claim, d: Claim, covered: set<Id>)
    requires LinksFurther(c, d)
    ensures Composite(c, covered) == Composite(d, covered)
  {
    assert Coverage(c, covered) == Coverage(d, covered);
  }

  lemma LinkingAddsEdges(cs: seq<Claim>, ds: seq<Claim>)
    requires AllLinkFurther(cs, ds)
    ensures MoreLinks(GraphOf(cs), GraphOf(ds))
  {
    SameOrder(cs, ds);
    var g, g' := GraphOf(cs), GraphOf(ds);
    forall a, b | g.Edge(a, b) ensures g'.Edge(a, b) {
      var i := KeptAt(cs, ds, a);
    }
  }

  /** Adding links, to any number of artifacts, never raises any reported score. */
  lemma LinkingNeverRaises(cs: seq<Claim>, ds: seq<Claim>, covered: set<Id>, a: Id)
    requires AllLinkFurther(cs, ds)
    requires a in FinalScores(cs, covered)
    ensures a in FinalScores(ds, covered) && FinalScores(ds, covered)[a] <= FinalScores(cs, covered)[a]
  {
    LinkingKeepsBases(cs, ds, covered);
    LinkingAddsEdges(cs, ds);
    AddingLinksNeverRaises(GraphOf(cs), GraphOf(ds), BaseScores(cs, covered), MAX_PASSES, a);
  }

  // ---------------------------------------------------------------------------------------
  // The sum behind a report's mean
  // ---------------------------------------------------------------------------------------

  /** The sum is taken over every listed identifier, each as often as it is listed. */
  lemma {:induction false} SumConcat(a: seq<Id>, b: seq<Id>, s: Scores)
    requires forall id :: id in a + b ==> id in s
    ensures (forall id :: id in a ==> id in s) && (forall id :: id in b ==> id in s)
    ensures Sum(a + b, s) == Sum(a, s) + Sum(b, s)
  {
    if b == [] {
      assert a + b == a;
    } else {
      assert (a + b)[..|a + b| - 1] == a + b[..|b| - 1];
      forall id | id in a ensures id in s { assert id in a + b; }
      forall id | id in b ensures id in s { assert id in a + b; }
      SumConcat(a, b[..|b| - 1], s);
    }
  }

  lemma SumOfOne(id: Id, s: Scores)
    requires id in s
    ensures Sum([id], s) == s[id]
  {
    assert [id][..0] == [];
  }
}
