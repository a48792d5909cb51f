/** Weakest-link propagation over a belief graph: what one in-place pass does, and what the
    scores mean after any number of passes.

    An artifact's links name the artifacts it depends on.  A pass visits the artifacts in
    listing order and lowers each score to the least score among its links, reading scores
    that earlier visits of the same pass may already have lowered. */
module WeakestLink {
  import opened PyDict

  type Id = string
  type Scores = map<Id, real>

  const MAX_PASSES: nat := 20

  /** The artifacts in listing order, each with its inferential links. */
  datatype Graph = Graph(order: seq<Id>, links: map<Id, seq<Id>>) {
    ghost predicate Valid() {
      && Distinct(order)
      && (forall id :: id in order <==> id in links)
    }

    ghost predicate Scored(s: Scores) {
      forall id :: id in order <==> id in s
    }

    /** Does `a` depend directly on the listed artifact `b`?  Dangling links are no edges. */
    ghost predicate Edge(a: Id, b: Id) {
      a in links && b in links && b in links[a]
    }
  }

  // ---------------------------------------------------------------------------------------
  // One pass
  // ---------------------------------------------------------------------------------------

  /** The effect on `id` of following its links from left to right. */
  function RelaxLinks(s: Scores, id: Id, links: seq<Id>): (r: Scores)
    requires id in s
    ensures r.Keys == s.Keys
  {
    if links == [] then s else
      var r := RelaxLinks(s, id, links[..|links| - 1]);
      var link := links[|links| - 1];
      if link in r && r[link] < r[id] then r[id := r[link]] else r
  }

  function Visit(s: Scores, g: Graph, id: Id): (r: Scores)
    requires id in g.links
    ensures r.Keys == s.Keys
  {
    if id !in s then s else RelaxLinks(s, id, g.links[id])
  }

  /** The first `n` visits of a pass. */
  function PassUpTo(s: Scores, g: Graph, n: nat): (r: Scores)
    requires g.Valid() && n <= |g.order|
    ensures r.Keys == s.Keys
  {
    if n == 0 then s else Visit(PassUpTo(s, g, n - 1), g, g.order[n - 1])
  }

  function Pass(s: Scores, g: Graph): (r: Scores)
    requires g.Valid()
    ensures r.Keys == s.Keys
  {
    PassUpTo(s, g, |g.order|)
  }

  function Passes(s: Scores, g: Graph, k: nat): (r: Scores)
    requires g.Valid()
    ensures r.Keys == s.Keys
  {
    if k == 0 then s else Pass(Passes(s, g, k - 1), g)
  }

  // ---------------------------------------------------------------------------------------
  // Dependency paths and what they cost
  // ---------------------------------------------------------------------------------------

  /** A nonempty chain of artifacts, each depending directly on the next. */
  ghost predicate IsPath(g: Graph, p: seq<Id>) {
    && |p| > 0
    && p[0] in g.links
    && (|p| > 1 ==> g.Edge(p[0], p[1]) && IsPath(g, p[1..]))
  }

  ghost predicate PathFrom(g: Graph, p: seq<Id>, a: Id, b: Id) {
    IsPath(g, p) && p[0] == a && p[|p| - 1] == b
  }

  /** `a` depends on `b`, directly, indirectly or by being `b`. */
  ghost predicate Reaches(g: Graph, a: Id, b: Id) {
    exists p :: PathFrom(g, p, a, b)
  }

  /** How many passes carry a score along `p` from its end to its beginning: one for the last
      edge, and one more for every earlier edge that leads forward in the listing. */
  ghost function Cost(g: Graph, p: seq<Id>): nat
    requires g.Valid() && IsPath(g, p)
  {
    if |p| == 1 then 0
    else if |p| == 2 then 1
    else Cost(g, p[1..]) + (if IndexOf(g.order, p[0]) < IndexOf(g.order, p[1]) then 1 else 0)
  }

  /** `p` carries scores to `a` in at most `budget` passes. */
  ghost predicate Within(g: Graph, a: Id, budget: nat, p: seq<Id>)
    requires g.Valid()
  {
    IsPath(g, p) && p[0] == a && Cost(g, p) <= budget
  }

  /** The base score at the far end of a path. */
  ghost function EndScore(base: Scores, p: seq<Id>): real {
    if |p| > 0 && p[|p| - 1] in base then base[p[|p| - 1]] else 0.0
  }

  ghost predicate Bounds(g: Graph, base: Scores, a: Id, budget: nat, v: real)
    requires g.Valid()
  {
    forall p :: Within(g, a, budget, p) ==> v <= EndScore(base, p)
  }

  ghost predicate Attains(g: Graph, base: Scores, a: Id, budget: nat, v: real)
    requires g.Valid()
  {
    exists p :: Within(g, a, budget, p) && v == EndScore(base, p)
  }

  /** `v` is the least base score over everything `a` reaches at cost at most `budget`. */
  ghost predicate WeakestWithin(g: Graph, base: Scores, a: Id, budget: nat, v: real)
    requires g.Valid()
  {
    Bounds(g, base, a, budget, v) && Attains(g, base, a, budget, v)
  }

  /** `v` is the least base score over everything `a` reaches: the weakest-link rule. */
  ghost predicate Weakest(g: Graph, base: Scores, a: Id, v: real) {
    && (forall b :: b in base && Reaches(g, a, b) ==> v <= base[b])
    && (exists b :: b in base && Reaches(g, a, b) && v == base[b])
  }

  lemma {:induction false} PathStaysInGraph(g: Graph, p: seq<Id>)
    requires g.Valid() && IsPath(g, p)
    ensures forall i :: 0 <= i < |p| ==> p[i] in g.links
  {
    if |p| > 1 {
      PathStaysInGraph(g, p[1..]);
      forall i | 0 <= i < |p| ensures p[i] in g.links {
        if i > 0 { assert p[i] == p[1..][i - 1]; }
      }
    }
  }

  // ---------------------------------------------------------------------------------------
  // Exactness: the scores after k passes are the least over all paths of cost at most k
  // ---------------------------------------------------------------------------------------

  /** How often `a` has been visited after `k` whole passes and `n` further visits. */
  ghost function Rank(g: Graph, k: nat, n: nat, a: Id): nat
    requires a in g.order
  {
    if IndexOf(g.order, a) < n then k + 1 else k
  }

  ghost predicate Exact(g: Graph, base: Scores, s: Scores, k: nat, n: nat)
    requires g.Valid() && g.Scored(s)
  {
    forall a {:trigger WeakestWithin(g, base, a, Rank(g, k, n, a), s[a])} ::
      a in s ==> WeakestWithin(g, base, a, Rank(g, k, n, a), s[a])
  }

  /** Following the links gives the least of the old score and the scores linked to. */
  lemma {:induction false} RelaxIsMin(s: Scores, id: Id, links: seq<Id>)
    requires id in s
    ensures var r := RelaxLinks(s, id, links);
      && (forall x :: x in s && x != id ==> r[x] == s[x])
      && r[id] <= s[id]
      && (forall b :: b in links && b in s ==> r[id] <= s[b])
      && (r[id] == s[id] || exists b :: b in links && b in s && b != id && r[id] == s[b])
  {
    if links != [] {
      var front, link := links[..|links| - 1], links[|links| - 1];
      assert links == front + [link];
      RelaxIsMin(s, id, front);
    }
  }

  lemma {:induction false} VisitIsBelowPath(g: Graph, base: Scores, s: Scores, k: nat, n: nat, p: seq<Id>)
    requires g.Valid() && g.Scored(base) && g.Scored(s) && n < |g.order|
    requires Exact(g, base, s, k, n)
    requires Within(g, g.order[n], k + 1, p)
    ensures Visit(s, g, p[0])[p[0]] <= EndScore(base, p)
    decreases |p|
  {
    var a := p[0];
    RelaxIsMin(s, a, g.links[a]);
    assert WeakestWithin(g, base, a, Rank(g, k, n, a), s[a]);
    if |p| == 1 {
      assert Within(g, a, k, p);
    } else {
      var b, rest := p[1], p[1..];
      assert EndScore(base, rest) == EndScore(base, p);
      if b != a {
        assert WeakestWithin(g, base, b, Rank(g, k, n, b), s[b]);
        assert Within(g, b, Rank(g, k, n, b), rest);
      } else if |p| > 2 {
        VisitIsBelowPath(g, base, s, k, n, rest);
      } else {
        assert Within(g, a, k, rest);
      }
    }
  }

  lemma {:induction false} VisitIsAttained(g: Graph, base: Scores, s: Scores, k: nat, n: nat)
    requires g.Valid() && g.Scored(base) && g.Scored(s) && n < |g.order|
    requires Exact(g, base, s, k, n)
    ensures var a := g.order[n]; Attains(g, base, a, k + 1, Visit(s, g, a)[a])
  {
    var a := g.order[n];
    var out := Visit(s, g, a);
    RelaxIsMin(s, a, g.links[a]);
    assert WeakestWithin(g, base, a, Rank(g, k, n, a), s[a]);
    if out[a] == s[a] {
      var p :| Within(g, a, k, p) && s[a] == EndScore(base, p);
      assert Within(g, a, k + 1, p);
    } else {
      var b :| b in g.links[a] && b in s && b != a && out[a] == s[b];
      assert WeakestWithin(g, base, b, Rank(g, k, n, b), s[b]);
      var q :| Within(g, b, Rank(g, k, n, b), q) && s[b] == EndScore(base, q);
      ExtendPath(g, a, q);
      assert IndexOf(g.order, b) != n;
      assert Within(g, a, k + 1, [a] + q);
      assert EndScore(base, [a] + q) == EndScore(base, q);
    }
  }

  lemma {:induction false} ExtendPath(g: Graph, a: Id, q: seq<Id>)
    requires g.Valid() && IsPath(g, q) && g.Edge(a, q[0])
    ensures IsPath(g, [a] + q)
    ensures Cost(g, [a] + q) <= 1 + Cost(g, q)
    ensures |q| > 1 && IndexOf(g.order, a) >= IndexOf(g.order, q[0]) ==> Cost(g, [a] + q) == Cost(g, q)
  {
    assert ([a] + q)[1..] == q;
  }

  lemma {:induction false} VisitKeepsExact(g: Graph, base: Scores, s: Scores, k: nat, n: nat)
    requires g.Valid() && g.Scored(base) && g.Scored(s) && n < |g.order|
    requires Exact(g, base, s, k, n)
    ensures Exact(g, base, Visit(s, g, g.order[n]), k, n + 1)
  {
    var a := g.order[n];
    var out := Visit(s, g, a);
    RelaxIsMin(s, a, g.links[a]);
    forall x | x in out ensures WeakestWithin(g, base, x, Rank(g, k, n + 1, x), out[x]) {
      if x == a {
        VisitIsAttained(g, base, s, k, n);
        forall p | Within(g, a, k + 1, p) ensures out[a] <= EndScore(base, p) {
          VisitIsBelowPath(g, base, s, k, n, p);
        }
      } else {
        assert WeakestWithin(g, base, x, Rank(g, k, n, x), s[x]);
        assert Rank(g, k, n + 1, x) == Rank(g, k, n, x);
      }
    }
  }

  lemma {:induction false} PassUpToIsExact(g: Graph, base: Scores, s: Scores, k: nat, n: nat)
    requires g.Valid() && g.Scored(base) && g.Scored(s) && n <= |g.order|
    requires Exact(g, base, s, k, 0)
    ensures Exact(g, base, PassUpTo(s, g, n), k, n)
  {
    if n > 0 {
      PassUpToIsExact(g, base, s, k, n - 1);
      VisitKeepsExact(g, base, PassUpTo(s, g, n - 1), k, n - 1);
    }
  }

  lemma StartIsExact(g: Graph, base: Scores)
    requires g.Valid() && g.Scored(base)
    ensures Exact(g, base, base, 0, 0)
  {
    forall a | a in base ensures WeakestWithin(g, base, a, Rank(g, 0, 0, a), base[a]) {
      forall p | Within(g, a, 0, p) ensures base[a] <= EndScore(base, p) {
        if |p| > 1 { CostIsPositive(g, p); }
      }
      assert Within(g, a, 0, [a]);
    }
  }

  lemma NextPassIsExact(g: Graph, base: Scores, s: Scores, k: nat)
    requires g.Valid() && g.Scored(base) && g.Scored(s)
    requires Exact(g, base, s, k, 0)
    ensures Exact(g, base, Pass(s, g), k + 1, 0)
  {
    PassUpToIsExact(g, base, s, k, |g.order|);
    var out := PassUpTo(s, g, |g.order|);
    forall a | a in out ensures WeakestWithin(g, base, a, Rank(g, k + 1, 0, a), out[a]) {
      assert WeakestWithin(g, base, a, Rank(g, k, |g.order|, a), out[a]);
    }
  }

  lemma {:induction false} PassesStayExact(g: Graph, base: Scores, k: nat)
    requires g.Valid() && g.Scored(base)
    ensures Exact(g, base, Passes(base, g, k), k, 0)
  {
    if k == 0 {
      StartIsExact(g, base);
    } else {
      PassesStayExact(g, base, k - 1);
      NextPassIsExact(g, base, Passes(base, g, k - 1), k - 1);
    }
  }

  /** After `k` in-place passes every score is the least base score over exactly those
      dependencies that a path of cost at most `k` leads to. */
  lemma PassesAreExact(g: Graph, base: Scores, k: nat, a: Id)
    requires g.Valid() && g.Scored(base) && a in base
    ensures WeakestWithin(g, base, a, k, Passes(base, g, k)[a])
  {
    PassesStayExact(g, base, k);
    assert WeakestWithin(g, base, a, Rank(g, k, 0, a), Passes(base, g, k)[a]);
  }

  lemma {:induction false} CostIsPositive(g: Graph, p: seq<Id>)
    requires g.Valid() && IsPath(g, p) && |p| > 1
    ensures Cost(g, p) >= 1
  {
    if |p| > 2 { CostIsPositive(g, p[1..]); }
  }
}
