/** Benchmark statistics: the cost-versus-pass-rate frontier and interpolated quantiles. */
module Metrics {
  import opened StableSort

  /** A cost of pass: a number, the infinity of a slice that never passed, or no float at all. */
  datatype Cost = Missing | Infinite | Finite(value: real)

  datatype Row = Row(model: string, condition: string, cost: Cost, rate: real)

  predicate Priced(r: Row) { r.cost.Finite? }

  /** At most as expensive, at least as good, and strictly better in one of the two. */
  predicate Dominates(c: Row, p: Row)
    requires Priced(c) && Priced(p)
  {
    && c.cost.value <= p.cost.value && c.rate >= p.rate
    && (c.cost.value < p.cost.value || c.rate > p.rate)
  }

  ghost predicate AllPriced(points: seq<Row>) {
    forall i :: 0 <= i < |points| ==> Priced(points[i])
  }

  function Points(rows: seq<Row>): (points: seq<Row>)
    ensures AllPriced(points)
    ensures forall r :: r in points <==> r in rows && Priced(r)
  {
    if rows == [] then [] else
      assert rows == rows[..|rows| - 1] + [rows[|rows| - 1]];
      Points(rows[..|rows| - 1]) + (if Priced(rows[|rows| - 1]) then [rows[|rows| - 1]] else [])
  }

  ghost predicate Dominated(points: seq<Row>, p: Row)
    requires AllPriced(points) && Priced(p)
  {
    exists j :: 0 <= j < |points| && Dominates(points[j], p)
  }

  /** The points that no point dominates. */
  ghost function Efficient(points: seq<Row>): set<Row>
    requires AllPriced(points)
  {
    set p | p in points && !Dominated(points, p)
  }

  /** The elements of `s` that lie in `wanted`, in their order. */
  ghost function Kept<T>(s: seq<T>, wanted: set<T>): seq<T> {
    if s == [] then [] else
      Kept(s[..|s| - 1], wanted) + (if s[|s| - 1] in wanted then [s[|s| - 1]] else [])
  }

  /** The sort key: cost ascending, then pass rate descending. */
  predicate FrontierLe(x: Row, y: Row) {
    match (x.cost, y.cost)
    case (Finite(a), Finite(b)) => a < b || (a == b && x.rate >= y.rate)
    case (Finite(_), _) => true
    case (_, Finite(_)) => false
    case _ => true
  }

  ghost function Frontier(rows: seq<Row>): seq<Row> {
    Sort(Kept(Points(rows), Efficient(Points(rows))), FrontierLe)
  }

  method ParetoFrontier(rows: seq<Row>) returns (frontier: seq<Row>)
    ensures frontier == Frontier(rows)
  {
    var points := Points(rows);
    frontier := [];
    for i := 0 to |points|
      invariant frontier == Kept(points[..i], Efficient(points))
    {
      assert points[..i + 1][..i] == points[..i];
      var dominated := IsDominated(points, i);
      if !dominated { frontier := frontier + [points[i]]; }
    }
    assert points[..|points|] == points;
    frontier := Sort(frontier, FrontierLe);
  }

  /** The inner loop: the point itself is skipped. */
  method IsDominated(points: seq<Row>, i: nat) returns (dominated: bool)
    requires AllPriced(points) && i < |points|
    ensures dominated <==> Dominated(points, points[i])
  {
    dominated := false;
    for j := 0 to |points|
      invariant forall k :: 0 <= k < j ==> !Dominates(points[k], points[i])
    {
      if j != i && Dominates(points[j], points[i]) { return true; }
    }
  }

  // ---------------------------------------------------------------------------------------
  // What the frontier promises
  // ---------------------------------------------------------------------------------------

  lemma {:induction false} KeptMembers<T>(s: seq<T>, wanted: set<T>)
    ensures forall x :: x in Kept(s, wanted) <==> x in s && x in wanted
  {
    if s != [] {
      KeptMembers(s[..|s| - 1], wanted);
      assert s == s[..|s| - 1] + [s[|s| - 1]];
    }
  }

  lemma FrontierMembers(rows: seq<Row>)
    ensures forall r :: r in Frontier(rows) <==> r in rows && Priced(r) && !Dominated(Points(rows), r)
  {
    var points := Points(rows);
    KeptMembers(points, Efficient(points));
    SameElements(Kept(points, Efficient(points)), FrontierLe);
  }

  /** `q` costs no more than `p`, passes no less, and is better in one of the two. */
  predicate Beats(q: Row, p: Row) {
    && q.cost.Finite? && p.cost.Finite? && q.cost.value <= p.cost.value && q.rate >= p.rate
    && (q.cost.value != p.cost.value || q.rate != p.rate)
  }

  /** A row is on the frontier exactly if its cost is a number and no other row beats it. */
  lemma FrontierIff(rows: seq<Row>, r: Row)
    ensures r in Frontier(rows) <==> r in rows && r.cost.Finite? && forall q :: q in rows ==> !Beats(q, r)
  {
    FrontierMembers(rows);
    var points := Points(rows);
    if q :| q in rows && Beats(q, r) {
      assert q in points;
    }
  }

  lemma DominationIsStrictOrder(a: Row, b: Row, c: Row)
    requires Priced(a) && Priced(b) && Priced(c)
    ensures !Dominates(a, a)
    ensures Dominates(a, b) && Dominates(b, c) ==> Dominates(a, c)
  {
  }

  function Dominators(points: seq<Row>, p: Row): set<Row>
    requires AllPriced(points) && Priced(p)
  {
    set q | q in points && Dominates(q, p)
  }

  /** Going from dominator to dominator ends at an undominated point. */
  lemma {:induction false} Climb(points: seq<Row>, p: Row) returns (q: Row)
    requires AllPriced(points) && p in points
    ensures q in points && !Dominated(points, q)
    ensures q == p || Dominates(q, p)
    decreases Dominators(points, p)
  {
    q := p;
    if Dominated(points, p) {
      var j :| 0 <= j < |points| && Dominates(points[j], p);
      var d := points[j];
      assert d in Dominators(points, p) && d !in Dominators(points, d);
      forall x | x in Dominators(points, d) ensures x in Dominators(points, p) {
        DominationIsStrictOrder(x, d, p);
      }
      q := Climb(points, d);
    }
  }

  /** Every priced point that is left out is dominated by some point of the frontier. */
  lemma LeftOutIsDominated(rows: seq<Row>, p: Row)
    requires p in rows && Priced(p) && p !in Frontier(rows)
    ensures exists q :: q in Frontier(rows) && Priced(q) && Dominates(q, p)
  {
    FrontierMembers(rows);
    var q := Climb(Points(rows), p);
    assert q in Frontier(rows);
  }

  lemma FrontierRanks()
    ensures Ranks(FrontierLe)
  {
  }

  /** Along the frontier cost and pass rate rise together, neither without the other; so no
      frontier point dominates another. */
  lemma RiseTogether(rows: seq<Row>, i: nat, j: nat)
    requires i < j < |Frontier(rows)|
    ensures Priced(Frontier(rows)[i]) && Priced(Frontier(rows)[j])
    ensures var x, y := Frontier(rows)[i], Frontier(rows)[j];
      && x.cost.value <= y.cost.value && x.rate <= y.rate
      && (x.cost.value == y.cost.value <==> x.rate == y.rate)
      && !Dominates(x, y) && !Dominates(y, x)
  {
    var f, points := Frontier(rows), Points(rows);
    FrontierMembers(rows);
    FrontierRanks();
    SortIsSorted(Kept(points, Efficient(points)), FrontierLe);
    SortedPairs(f, FrontierLe, i, j);
    assert f[i] in f && f[j] in f;
    assert !Dominates(f[i], f[j]) && !Dominates(f[j], f[i]) by {
      NotDominated(points, f[i], f[j]);
      NotDominated(points, f[j], f[i]);
    }
  }

  lemma NotDominated(points: seq<Row>, x: Row, y: Row)
    requires AllPriced(points) && x in points && Priced(y) && !Dominated(points, y)
    ensures !Dominates(x, y)
  {
  }

  /** Every row that is priced and undominated appears as often as it was given. */
  lemma {:induction false} FrontierKeepsCounts(rows: seq<Row>, r: Row)
    requires r in Frontier(rows)
    ensures multiset(Frontier(rows))[r] == multiset(rows)[r]
  {
    OnFrontier(rows, r);
    KeptCounts(Points(rows), Efficient(Points(rows)), r);
    PointCounts(rows, r);
  }

  lemma OnFrontier(rows: seq<Row>, r: Row)
    requires r in Frontier(rows)
    ensures Priced(r) && r in Efficient(Points(rows))
  {
    FrontierMembers(rows);
  }

  lemma {:induction false} KeptCounts<T>(s: seq<T>, wanted: set<T>, x: T)
    requires x in wanted
    ensures multiset(Kept(s, wanted))[x] == multiset(s)[x]
  {
    if s != [] {
      KeptCounts(s[..|s| - 1], wanted, x);
      assert s == s[..|s| - 1] + [s[|s| - 1]];
    }
  }

  lemma {:induction false} PointCounts(rows: seq<Row>, r: Row)
    requires Priced(r)
    ensures multiset(Points(rows))[r] == multiset(rows)[r]
  {
    if rows != [] {
      PointCounts(rows[..|rows| - 1], r);
      assert rows == rows[..|rows| - 1] + [rows[|rows| - 1]];
    }
  }
}

/** Interpolated quantiles of samples that may be infinite. */
module Quantiles {
  import opened StableSort

  datatype Sample = Fin(value: real) | Inf

  predicate Le(a: Sample, b: Sample) {
    b.Inf? || (a.Fin? && a.value <= b.value)
  }

  lemma LeRanks()
    ensures Ranks(Le)
  {
  }

  /** The point a share `f` of the way up a rise of `d` from `a`. */
  function Interpolate(a: real, d: real, f: real): real { a + d * f }

  /** `_quantile` on sorted samples at position `pos`, counted from 0. */
  function At(s: seq<Sample>, pos: real): Sample
    requires s != [] && 0.0 <= pos <= (|s| - 1) as real
  {
    var lo := pos.Floor;
    if pos == lo as real then s[lo]
    else if s[lo].Inf? || s[lo + 1].Inf? then Inf
    else Fin(Interpolate(s[lo].value, s[lo + 1].value - s[lo].value, pos - lo as real))
  }

  function Position(n: real, q: real): (pos: real)
    requires n >= 0.0 && 0.0 <= q <= 1.0
    ensures 0.0 <= pos <= n
  {
    assert n * (1.0 - q) >= 0.0;
    assert n * (1.0 - q) == n - n * q;
    n * q
  }

  function Quantile(values: seq<Sample>, q: real): (r: Sample)
    requires 0.0 <= q <= 1.0
    ensures values == [] ==> r == Inf
  {
    if values == [] then Inf
    else if |values| == 1 then values[0]
    else At(Sort(values, Le), Position((|values| - 1) as real, q))
  }

  lemma {:induction false} InOrder(s: seq<Sample>, i: nat, j: nat)
    requires Sorted(s, Le) && i <= j < |s|
    ensures Le(s[i], s[j])
  {
    if i == 0 < j {
      assert s[j] == s[1..][j - 1];
    } else if i > 0 {
      InOrder(s[1..], i - 1, j - 1);
    }
  }

  /** A value between two neighbours lies between them. */
  lemma Between(a: real, d: real, f: real)
    requires d >= 0.0 && 0.0 <= f <= 1.0
    ensures a <= Interpolate(a, d, f) <= a + d
  {
    assert 0.0 <= Position(d, f) <= d;
  }

  lemma Steeper(a: real, d: real, f: real, g: real)
    requires d >= 0.0 && f <= g
    ensures Interpolate(a, d, f) <= Interpolate(a, d, g)
  {
    assert d * (g - f) >= 0.0;
    assert d * (g - f) == d * g - d * f;
  }

  lemma AtWithin(s: seq<Sample>, pos: real)
    requires Sorted(s, Le) && s != [] && 0.0 <= pos <= (|s| - 1) as real
    ensures var lo := pos.Floor;
      && Le(s[lo], At(s, pos))
      && (pos > lo as real ==> Le(At(s, pos), s[lo + 1]))
      && (pos == lo as real ==> At(s, pos) == s[lo])
  {
    var lo := pos.Floor;
    if pos > lo as real {
      InOrder(s, lo, lo + 1);
      if s[lo].Fin? && s[lo + 1].Fin? {
        Between(s[lo].value, s[lo + 1].value - s[lo].value, pos - lo as real);
      }
    }
  }

  lemma AtMonotone(s: seq<Sample>, p: real, q: real)
    requires Sorted(s, Le) && s != [] && 0.0 <= p <= q <= (|s| - 1) as real
    ensures Le(At(s, p), At(s, q))
  {
    var i, j := p.Floor, q.Floor;
    AtWithin(s, p);
    AtWithin(s, q);
    assert i <= j;
    if i < j {
      if p > i as real {
        InOrder(s, i + 1, j);
      } else {
        InOrder(s, i, j);
      }
    } else if p > i as real {
      if s[i].Fin? && s[i + 1].Fin? {
        InOrder(s, i, i + 1);
        Steeper(s[i].value, s[i + 1].value - s[i].value, p - i as real, q - i as real);
      }
    }
  }

  /** Quantiles rise with `q`, infinite samples included; so the bootstrap interval of the cost
      of pass, taken at 0.025 and 0.975, never has its ends crossed. */
  lemma QuantileMonotone(values: seq<Sample>, p: real, q: real)
    requires 0.0 <= p <= q <= 1.0
    ensures Le(Quantile(values, p), Quantile(values, q))
  {
    if |values| > 1 {
      var n := (|values| - 1) as real;
      LeRanks();
      SortIsSorted(values, Le);
      Steeper(0.0, n, p, q);
      AtMonotone(Sort(values, Le), Position(n, p), Position(n, q));
    }
  }

  lemma AtIndex(s: seq<Sample>, k: nat)
    requires k < |s|
    ensures At(s, k as real) == s[k]
  {
    assert (k as real).Floor == k;
  }

  lemma PositionEnds(n: real)
    requires n >= 0.0
    ensures Position(n, 0.0) == 0.0 && Position(n, 1.0) == n
  {
  }

  lemma AtEnds(s: seq<Sample>, n: real)
    requires |s| > 1 && n == (|s| - 1) as real
    ensures At(s, Position(n, 0.0)) == s[0]
    ensures At(s, Position(n, 1.0)) == s[|s| - 1]
  {
    PositionEnds(n);
    AtIndex(s, 0);
    AtIndex(s, |s| - 1);
  }

  lemma SortOne(values: seq<Sample>)
    requires |values| == 1
    ensures Sort(values, Le) == values
  {
    LeRanks();
    SortedIsFixed(values, Le);
  }

  lemma ManyEnds(values: seq<Sample>)
    requires |values| > 1
    ensures Quantile(values, 0.0) == Sort(values, Le)[0]
    ensures Quantile(values, 1.0) == Sort(values, Le)[|values| - 1]
  {
    AtEnds(Sort(values, Le), (|values| - 1) as real);
  }

  lemma QuantileEnds(values: seq<Sample>)
    requires values != []
    ensures Quantile(values, 0.0) == Sort(values, Le)[0]
    ensures Quantile(values, 1.0) == Sort(values, Le)[|values| - 1]
  {
    if |values| == 1 { SortOne(values); } else { ManyEnds(values); }
  }

  /** A quantile lies between the least and the greatest sample; at 0 and 1 it is them. */
  lemma QuantileInRange(values: seq<Sample>, q: real)
    requires 0.0 <= q <= 1.0 && values != []
    ensures Le(Sort(values, Le)[0], Quantile(values, q))
    ensures Le(Quantile(values, q), Sort(values, Le)[|values| - 1])
  {
    QuantileEnds(values);
    QuantileMonotone(values, 0.0, q);
    QuantileMonotone(values, q, 1.0);
  }

  /** Between two neighbouring samples a quantile divides their distance as its place divides the
      distance of their places, and next to an infinite sample it is infinite. */
  lemma QuantileDivides(values: seq<Sample>, q: real, k: nat, share: real)
    requires 0.0 <= q <= 1.0 && 0.0 <= share < 1.0 && k < |values| && (share > 0.0 ==> k + 1 < |values|)
    requires Position((|values| - 1) as real, q) == k as real + share
    ensures DividesAt(Sort(values, Le), k, share, Quantile(values, q))
  {
    if |values| == 1 {
      SortOne(values);
    } else {
      AtDivides(Sort(values, Le), Position((|values| - 1) as real, q), k, share);
    }
  }

  predicate DividesAt(s: seq<Sample>, k: nat, share: real, v: Sample)
    requires k < |s| && (share > 0.0 ==> k + 1 < |s|)
  {
    && (share == 0.0 ==> v == s[k])
    && (share > 0.0 && (s[k].Inf? || s[k + 1].Inf?) ==> v == Inf)
    && (share > 0.0 && s[k].Fin? && s[k + 1].Fin? ==>
          v == Fin((1.0 - share) * s[k].value + share * s[k + 1].value))
  }

  lemma AtDivides(s: seq<Sample>, pos: real, k: nat, share: real)
    requires k < |s| && 0.0 <= share < 1.0 && (share > 0.0 ==> k + 1 < |s|) && pos == k as real + share
    ensures pos <= (|s| - 1) as real && DividesAt(s, k, share, At(s, pos))
  {
    assert pos.Floor == k;
    if share > 0.0 && s[k].Fin? && s[k + 1].Fin? { Divides(s[k].value, s[k + 1].value, share); }
  }

  lemma Divides(a: real, b: real, f: real)
    ensures Interpolate(a, b - a, f) == (1.0 - f) * a + f * b
  {
  }

  /** `bootstrap_cost_of_pass_ci`, given the resampled costs. */
  function BootstrapInterval(valid: nat, samples: seq<Sample>): (Sample, Sample) {
    if valid == 0 then (Inf, Inf) else (Quantile(samples, 0.025), Quantile(samples, 0.975))
  }

  lemma BootstrapIsOrdered(valid: nat, samples: seq<Sample>)
    ensures Le(BootstrapInterval(valid, samples).0, BootstrapInterval(valid, samples).1)
  {
    QuantileMonotone(samples, 0.025, 0.975);
  }
}
