/** What the propagated scores promise: the weakest-link rule at convergence, exactly when the
    pass cap still delivers it, and how scores respond to changes of the graph. */
module WeakestLinkLaws {
  import opened PyDict
  import opened WeakestLink

  // ---------------------------------------------------------------------------------------
  // Convergence gives the weakest link
  // ---------------------------------------------------------------------------------------

  lemma {:induction false} FixpointStays(g: Graph, base: Scores, k: nat, more: nat)
    requires g.Valid() && Pass(Passes(base, g, k), g) == Passes(base, g, k)
    ensures Passes(base, g, k + more) == Passes(base, g, k)
  {
    if more > 0 { FixpointStays(g, base, k, more - 1); }
  }

  /** When a pass changes nothing, every score is the least base score over everything the
      artifact reaches: for any graph, with cycles, in any listing order. */
  lemma ConvergedIsWeakest(g: Graph, base: Scores, k: nat, a: Id)
    requires g.Valid() && g.Scored(base) && a in base
    requires Pass(Passes(base, g, k), g) == Passes(base, g, k)
    ensures Weakest(g, base, a, Passes(base, g, k)[a])
  {
    var v := Passes(base, g, k)[a];
    forall b | b in base && Reaches(g, a, b) ensures v <= base[b] {
      var p :| PathFrom(g, p, a, b);
      var m := if Cost(g, p) <= k then k else Cost(g, p);
      FixpointStays(g, base, k, m - k);
      PassesAreExact(g, base, m, a);
      assert Within(g, a, m, p);
    }
    AttainedIsReached(g, base, k, a);
  }

  lemma AttainedIsReached(g: Graph, base: Scores, k: nat, a: Id)
    requires g.Valid() && g.Scored(base) && a in base
    ensures exists b :: b in base && Reaches(g, a, b) && Passes(base, g, k)[a] == base[b]
  {
    PassesAreExact(g, base, k, a);
    var p :| Within(g, a, k, p) && Passes(base, g, k)[a] == EndScore(base, p);
    PathStaysInGraph(g, p);
    assert PathFrom(g, p, a, p[|p| - 1]);
  }

  /** The weakest link of an artifact is one number, so converged scores do not depend on the
      listing order. */
  lemma ConvergedIgnoresListingOrder(g: Graph, g': Graph, base: Scores, k: nat, k': nat, a: Id)
    requires g.Valid() && g'.Valid() && g.links == g'.links && g.Scored(base) && a in base
    requires Pass(Passes(base, g, k), g) == Passes(base, g, k)
    requires Pass(Passes(base, g', k'), g') == Passes(base, g', k')
    ensures Passes(base, g, k)[a] == Passes(base, g', k')[a]
  {
    ConvergedIsWeakest(g, base, k, a);
    ConvergedIsWeakest(g', base, k', a);
    SamePaths(g, g', base, a);
  }

  lemma SamePaths(g: Graph, g': Graph, base: Scores, a: Id)
    requires g.links == g'.links
    ensures forall b :: Reaches(g, a, b) <==> Reaches(g', a, b)
  {
    forall b, p ensures PathFrom(g, p, a, b) <==> PathFrom(g', p, a, b) {
      SamePath(g, g', p);
    }
  }

  lemma {:induction false} SamePath(g: Graph, g': Graph, p: seq<Id>)
    requires g.links == g'.links
    ensures IsPath(g, p) <==> IsPath(g', p)
  {
    if |p| > 1 { SamePath(g, g', p[1..]); }
  }

  // ---------------------------------------------------------------------------------------
  // When a bounded number of passes is enough
  // ---------------------------------------------------------------------------------------

  /** Every dependency can be reached along a path that costs at most `budget` passes. */
  ghost predicate CheaplyReaches(g: Graph, budget: nat)
    requires g.Valid()
  {
    forall a, b :: Reaches(g, a, b) ==> ReachesWithin(g, a, b, budget)
  }

  ghost predicate ReachesWithin(g: Graph, a: Id, b: Id, budget: nat)
    requires g.Valid()
  {
    exists p :: PathFrom(g, p, a, b) && Cost(g, p) <= budget
  }

  /** `k` passes deliver the weakest-link rule for whatever the base scores are. */
  ghost predicate PassesSuffice(g: Graph, k: nat)
    requires g.Valid()
  {
    forall base: Scores {:trigger WeakestEverywhere(g, base, k)} :: g.Scored(base) ==> WeakestEverywhere(g, base, k)
  }

  ghost predicate WeakestEverywhere(g: Graph, base: Scores, k: nat)
    requires g.Valid() && g.Scored(base)
  {
    forall a {:trigger Weakest(g, base, a, Passes(base, g, k)[a])} ::
      a in base ==> Weakest(g, base, a, Passes(base, g, k)[a])
  }

  /** A number of passes suffices for every scoring if and only if it covers the cost of
      every dependency.  This is a property of the graph and its listing order alone. */
  lemma PassesSufficeIff(g: Graph, k: nat)
    requires g.Valid()
    ensures PassesSuffice(g, k) <==> CheaplyReaches(g, k)
  {
    if CheaplyReaches(g, k) {
      forall base: Scores, a | g.Scored(base) && a in base ensures Weakest(g, base, a, Passes(base, g, k)[a]) {
        CheapIsWeakest(g, base, k, a);
      }
    }
    if PassesSuffice(g, k) {
      forall a, b | Reaches(g, a, b) ensures ReachesWithin(g, a, b, k) {
        NeededPath(g, k, a, b);
      }
    }
  }

  lemma CheapIsWeakest(g: Graph, base: Scores, k: nat, a: Id)
    requires g.Valid() && g.Scored(base) && a in base && CheaplyReaches(g, k)
    ensures Weakest(g, base, a, Passes(base, g, k)[a])
  {
    AttainedIsReached(g, base, k, a);
    PassesAreExact(g, base, k, a);
    forall b | b in base && Reaches(g, a, b) ensures Passes(base, g, k)[a] <= base[b] {
      assert ReachesWithin(g, a, b, k);
      var p :| PathFrom(g, p, a, b) && Cost(g, p) <= k;
      assert Within(g, a, k, p);
    }
  }

  /** Give only `b` the score 0 and everything else 0.85 (confidence HIGH, covered, no
      failures): the 0 arrives at `a` only along a cheap enough path. */
  lemma NeededPath(g: Graph, k: nat, a: Id, b: Id)
    requires g.Valid() && PassesSuffice(g, k) && Reaches(g, a, b)
    ensures ReachesWithin(g, a, b, k)
  {
    ReachedAreListed(g, a, b);
    var base := ZeroOnlyAt(g, b);
    ZeroOnlyAtIsScored(g, b);
    BoundByReached(g, base, k, a, b);
    ZeroArrives(g, base, k, a, b);
  }

  ghost function ZeroOnlyAt(g: Graph, b: Id): (base: Scores)
    ensures base.Keys == g.links.Keys
  {
    map x | x in g.links :: if x == b then 0.0 else 0.85
  }

  lemma ZeroOnlyAtIsScored(g: Graph, b: Id)
    requires g.Valid()
    ensures g.Scored(ZeroOnlyAt(g, b))
  {
    assert forall id :: id in ZeroOnlyAt(g, b) <==> id in g.links;
  }

  lemma ReachedAreListed(g: Graph, a: Id, b: Id)
    requires g.Valid() && Reaches(g, a, b)
    ensures a in g.links && b in g.links
  {
    var r :| PathFrom(g, r, a, b);
    PathStaysInGraph(g, r);
  }

  lemma BoundByReached(g: Graph, base: Scores, k: nat, a: Id, b: Id)
    requires g.Valid() && PassesSuffice(g, k) && g.Scored(base) && a in base && b in base && Reaches(g, a, b)
    ensures Passes(base, g, k)[a] <= base[b]
  {
    assert WeakestEverywhere(g, base, k);
    WeakestIsBelow(g, base, k, a, b);
  }

  lemma WeakestIsBelow(g: Graph, base: Scores, k: nat, a: Id, b: Id)
    requires g.Valid() && g.Scored(base) && a in base && b in base && Reaches(g, a, b)
    requires WeakestEverywhere(g, base, k)
    ensures Passes(base, g, k)[a] <= base[b]
  {
    assert Weakest(g, base, a, Passes(base, g, k)[a]);
  }

  lemma ZeroArrives(g: Graph, base: Scores, k: nat, a: Id, b: Id)
    requires g.Valid() && g.Scored(base) && a in base && b in base
    requires forall x :: x in base ==> base[x] == if x == b then 0.0 else 0.85
    requires Passes(base, g, k)[a] <= base[b]
    ensures ReachesWithin(g, a, b, k)
  {
    PassesAreExact(g, base, k, a);
    var p :| Within(g, a, k, p) && Passes(base, g, k)[a] == EndScore(base, p);
    PathStaysInGraph(g, p);
    assert p[|p| - 1] in base;
    assert PathFrom(g, p, a, b);
  }

  lemma {:induction false} CostBelowLength(g: Graph, p: seq<Id>)
    requires g.Valid() && IsPath(g, p)
    ensures Cost(g, p) < |p|
  {
    if |p| > 1 { CostBelowLength(g, p[1..]); }
  }

  ghost predicate NoRepeat(p: seq<Id>) {
    |p| == 0 || (p[0] !in p[1..] && NoRepeat(p[1..]))
  }

  lemma {:induction false} NoRepeatIsShort(p: seq<Id>, ids: set<Id>)
    requires NoRepeat(p) && forall i :: 0 <= i < |p| ==> p[i] in ids
    ensures |p| <= |ids|
  {
    if |p| > 0 {
      forall i | 0 <= i < |p[1..]| ensures p[1..][i] in ids - {p[0]} {
        assert p[1..][i] == p[i + 1];
        assert p[1..][i] in p[1..];
      }
      NoRepeatIsShort(p[1..], ids - {p[0]});
    }
  }

  lemma {:induction false} ElementsAreFew(order: seq<Id>, ids: set<Id>)
    requires forall id :: id in order <==> id in ids
    ensures |ids| <= |order|
  {
    if |order| == 0 {
      assert ids == {};
    } else {
      var rest := order[1..];
      var ids' := set id | id in ids && id in rest;
      ElementsAreFew(rest, ids');
      assert ids <= ids' + {order[0]};
      assert |ids| <= |ids' + {order[0]}| by {
        SubsetIsSmaller(ids, ids' + {order[0]});
      }
    }
  }

  lemma {:induction false} SubsetIsSmaller(a: set<Id>, b: set<Id>)
    requires a <= b
    ensures |a| <= |b|
  {
    if a != {} {
      var x :| x in a;
      SubsetIsSmaller(a - {x}, b - {x});
    }
  }

  /** Cutting out the cycles of a path leaves a path between the same artifacts. */
  lemma {:induction false} CutCycles(g: Graph, p: seq<Id>) returns (q: seq<Id>)
    requires g.Valid() && IsPath(g, p)
    ensures PathFrom(g, q, p[0], p[|p| - 1]) && NoRepeat(q)
  {
    if |p| == 1 {
      q := p;
    } else {
      var r := CutCycles(g, p[1..]);
      if p[0] in r {
        q := TailFrom(g, r, p[0]);
      } else {
        q := [p[0]] + r;
        assert q[1..] == r;
      }
    }
  }

  lemma {:induction false} TailFrom(g: Graph, r: seq<Id>, a: Id) returns (q: seq<Id>)
    requires g.Valid() && IsPath(g, r) && NoRepeat(r) && a in r
    ensures PathFrom(g, q, a, r[|r| - 1]) && NoRepeat(q)
  {
    if r[0] == a {
      q := r;
    } else {
      q := TailFrom(g, r[1..], a);
    }
  }

  /** Any set of at most `k + 1` artifacts is handled exactly by `k` passes. */
  lemma FewArtifactsSuffice(g: Graph, k: nat)
    requires g.Valid() && |g.order| <= k + 1
    ensures PassesSuffice(g, k)
  {
    forall a, b | Reaches(g, a, b) ensures ReachesWithin(g, a, b, k) {
      var p :| PathFrom(g, p, a, b);
      var q := CutCycles(g, p);
      PathStaysInGraph(g, q);
      NoRepeatIsShort(q, g.links.Keys);
      ElementsAreFew(g.order, g.links.Keys);
      CostBelowLength(g, q);
    }
    PassesSufficeIff(g, k);
  }

  /** If every link names the artifact itself or one listed earlier, one pass suffices,
      however many artifacts there are. */
  lemma DependenciesFirstNeedsOnePass(g: Graph)
    requires g.Valid()
    requires forall a, b :: g.Edge(a, b) ==> IndexOf(g.order, b) <= IndexOf(g.order, a)
    ensures PassesSuffice(g, 1)
  {
    forall a, b | Reaches(g, a, b) ensures ReachesWithin(g, a, b, 1) {
      var p :| PathFrom(g, p, a, b);
      BackwardPathIsCheap(g, p);
    }
    PassesSufficeIff(g, 1);
  }

  lemma {:induction false} BackwardPathIsCheap(g: Graph, p: seq<Id>)
    requires g.Valid() && IsPath(g, p)
    requires forall a, b :: g.Edge(a, b) ==> IndexOf(g.order, b) <= IndexOf(g.order, a)
    ensures Cost(g, p) <= 1
  {
    if |p| > 2 { BackwardPathIsCheap(g, p[1..]); }
  }

  // ---------------------------------------------------------------------------------------
  // The bound is tight: a chain listed from its head
  // ---------------------------------------------------------------------------------------

  function Name(i: nat): (id: Id)
    ensures |id| == i
  {
    seq(i, _ => 'n')
  }

  /** `n` artifacts in listing order, each depending on the next one. */
  function Chain(n: nat): Graph {
    var order := seq(n, i requires 0 <= i => Name(i));
    Graph(order, map id | id in order :: if |id| + 1 < n then [Name(|id| + 1)] else [])
  }

  lemma {:induction false} ChainNames(order: seq<Id>, from: nat, i: nat)
    requires i < |order| && forall j :: 0 <= j < |order| ==> |order[j]| == from + j
    ensures IndexOf(order, order[i]) == i
  {
    if i > 0 { ChainNames(order[1..], from + 1, i - 1); }
  }

  lemma ChainIsValid(n: nat)
    ensures Chain(n).Valid()
  {
    var g := Chain(n);
    forall i | 0 <= i < n ensures IndexOf(g.order, g.order[i]) == i {
      ChainNames(g.order, 0, i);
    }
  }

  lemma {:induction false} ChainPathCost(n: nat, p: seq<Id>)
    requires IsPath(Chain(n), p)
    ensures Chain(n).Valid() && Cost(Chain(n), p) == |p| - 1 && |p[|p| - 1]| == |p[0]| + |p| - 1
  {
    var g := Chain(n);
    ChainIsValid(n);
    if |p| > 1 {
      ChainPathCost(n, p[1..]);
      assert p[1] == Name(|p[0]| + 1);
      assert g.order[|p[0]|] == Name(|p[0]|) && g.order[|p[1]|] == Name(|p[1]|);
      assert p[0] == Name(|p[0]|);
      ChainNames(g.order, 0, |p[0]|);
      ChainNames(g.order, 0, |p[1]|);
    }
  }

  lemma {:induction false} ChainPath(n: nat, i: nat) returns (p: seq<Id>)
    requires i < n
    ensures PathFrom(Chain(n), p, Name(i), Name(n - 1))
    decreases n - i
  {
    var g := Chain(n);
    assert g.order[i] == Name(i);
    if i + 1 == n {
      p := [Name(i)];
    } else {
      var q := ChainPath(n, i + 1);
      assert g.order[i + 1] == Name(i + 1);
      p := [Name(i)] + q;
      assert p[1..] == q;
    }
  }

  /** Twenty passes handle the chain exactly up to 21 artifacts and no longer one. */
  lemma CapIsTight(n: nat)
    ensures Chain(n).Valid()
    ensures PassesSuffice(Chain(n), MAX_PASSES) <==> n <= 21
  {
    var g := Chain(n);
    ChainIsValid(n);
    if n <= 21 {
      FewArtifactsSuffice(g, MAX_PASSES);
    } else {
      PassesSufficeIff(g, MAX_PASSES);
      var p := ChainPath(n, 0);
      assert Reaches(g, Name(0), Name(n - 1));
      forall q | PathFrom(g, q, Name(0), Name(n - 1)) ensures Cost(g, q) > MAX_PASSES {
        ChainPathCost(n, q);
      }
      assert !ReachesWithin(g, Name(0), Name(n - 1), MAX_PASSES);
    }
  }

  // ---------------------------------------------------------------------------------------
  // Monotonicity, after any number of passes
  // ---------------------------------------------------------------------------------------

  /** Raising base scores never lowers a propagated score. */
  lemma RaisingBasesNeverLowers(g: Graph, low: Scores, high: Scores, k: nat, a: Id)
    requires g.Valid() && g.Scored(low) && g.Scored(high) && a in low
    requires forall b :: b in low ==> low[b] <= high[b]
    ensures Passes(low, g, k)[a] <= Passes(high, g, k)[a]
  {
    PassesAreExact(g, low, k, a);
    PassesAreExact(g, high, k, a);
    var p :| Within(g, a, k, p) && Passes(high, g, k)[a] == EndScore(high, p);
    PathStaysInGraph(g, p);
    assert Passes(low, g, k)[a] <= EndScore(low, p);
  }

  ghost predicate MoreLinks(g: Graph, g': Graph) {
    && g'.order == g.order
    && g'.links.Keys == g.links.Keys
    && forall a, b :: g.Edge(a, b) ==> g'.Edge(a, b)
  }

  /** Adding links never raises a propagated score. */
  lemma AddingLinksNeverRaises(g: Graph, g': Graph, base: Scores, k: nat, a: Id)
    requires g.Valid() && g'.Valid() && MoreLinks(g, g') && g.Scored(base) && a in base
    ensures Passes(base, g', k)[a] <= Passes(base, g, k)[a]
  {
    PassesAreExact(g, base, k, a);
    PassesAreExact(g', base, k, a);
    var p :| Within(g, a, k, p) && Passes(base, g, k)[a] == EndScore(base, p);
    KeepsPath(g, g', p);
    assert Within(g', a, k, p);
  }

  lemma {:induction false} KeepsPath(g: Graph, g': Graph, p: seq<Id>)
    requires g.Valid() && g'.Valid() && MoreLinks(g, g') && IsPath(g, p)
    ensures IsPath(g', p) && Cost(g', p) == Cost(g, p)
  {
    if |p| > 1 {
      assert g'.Edge(p[0], p[1]);
      KeepsPath(g, g', p[1..]);
    }
  }

  /** Two more consequences: passes never raise a score, and never leave the base range. */
  lemma PassesOnlyLower(g: Graph, base: Scores, k: nat, m: nat, a: Id)
    requires g.Valid() && g.Scored(base) && a in base && k <= m
    ensures Passes(base, g, m)[a] <= Passes(base, g, k)[a]
  {
    PassesAreExact(g, base, k, a);
    PassesAreExact(g, base, m, a);
    var p :| Within(g, a, k, p) && Passes(base, g, k)[a] == EndScore(base, p);
    assert Within(g, a, m, p);
  }
}
