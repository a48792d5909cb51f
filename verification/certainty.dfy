/** The certainty engine: a base score for every artifact, then weakest-link propagation that
    overwrites the scores in place. */
module Certainty {
  import opened PyDict
  import opened Belief
  import opened WeakestLink
  import opened WeakestLinkLaws

  // ---------------------------------------------------------------------------------------
  // Base scores
  // ---------------------------------------------------------------------------------------

  function Factor(fm: FailureMode): (f: real)
    ensures 0.0 < f <= 1.0
  {
    if fm.resolved then 1.0 else
      match fm.severity
      case Critical => 0.2
      case Severe => 0.6
      case Moderate => 0.85
      case Minor => 1.0
  }

  function Freshness(fms: seq<FailureMode>): (f: real)
    ensures 0.0 < f <= 1.0
  {
    if fms == [] then 1.0 else
      ProductInUnit(Freshness(fms[..|fms| - 1]), Factor(fms[|fms| - 1]));
      Freshness(fms[..|fms| - 1]) * Factor(fms[|fms| - 1])
  }

  lemma ProductInUnit(a: real, b: real)
    requires 0.0 < a <= 1.0 && 0.0 < b <= 1.0
    ensures 0.0 < a * b <= 1.0
  {
    assert a * b <= 1.0 * b;
  }

  function Coverage(c: Claim, covered: set<Id>): real {
    if c.propositions == [] then 0.0 else if c.id in covered then 1.0 else 0.4
  }

  function Weighted(base: real, coverage: real, freshness: real): real { base * coverage * freshness }

  function Composite(c: Claim, covered: set<Id>): real {
    Weighted(c.confidence.Score(), Coverage(c, covered), Freshness(c.failures))
  }

  datatype Note =
    | NoPropositions
    | NotCovered
    | Failure(severity: Severity, challenge: string)
    | PropagatedFrom(link: Id, score: real)

  class ArtifactCertainty {
    const artifactId: Id
    const baseScore: real
    const coverageWeight: real
    const freshnessWeight: real
    const component: string
    var propagatedScore: real
    var aboveThreshold: bool
    var notes: seq<Note>

    constructor (artifactId: Id, baseScore: real, coverageWeight: real, freshnessWeight: real,
                 propagatedScore: real, aboveThreshold: bool, component: string, notes: seq<Note>)
      ensures this.artifactId == artifactId && this.propagatedScore == propagatedScore
      ensures this.aboveThreshold == aboveThreshold && this.notes == notes
      ensures this.baseScore == baseScore && this.coverageWeight == coverageWeight
      ensures this.freshnessWeight == freshnessWeight && this.component == component
    {
      this.artifactId, this.baseScore, this.coverageWeight := artifactId, baseScore, coverageWeight;
      this.freshnessWeight, this.propagatedScore := freshnessWeight, propagatedScore;
      this.aboveThreshold := aboveThreshold;
      this.component, this.notes := component, notes;
    }

    method LowerTo(link: Id, upstream: real, threshold: real)
      modifies this
      ensures propagatedScore == upstream && aboveThreshold == (upstream >= threshold)
      ensures notes == old(notes) + [PropagatedFrom(link, upstream)]
    {
      propagatedScore := upstream;
      aboveThreshold := upstream >= threshold;
      notes := notes + [PropagatedFrom(link, upstream)];
    }
  }

  // ---------------------------------------------------------------------------------------
  // What a run computes
  // ---------------------------------------------------------------------------------------

  /** Artifacts by identifier: a repeated identifier keeps its first place and its last claim. */
  function Indexed(claims: seq<Claim>): (d: Dict<Id, Claim>)
    ensures d.Valid()
  {
    if claims == [] then Empty() else
      Indexed(claims[..|claims| - 1]).Put(claims[|claims| - 1].id, claims[|claims| - 1])
  }

  function GraphOf(claims: seq<Claim>): (g: Graph)
    ensures g.Valid()
  {
    var d := Indexed(claims);
    Graph(d.order, map id | id in d.at :: d.at[id].links)
  }

  function BaseScores(claims: seq<Claim>, covered: set<Id>): (s: Scores)
    ensures GraphOf(claims).Scored(s)
  {
    var d := Indexed(claims);
    map id | id in d.at :: Composite(d.at[id], covered)
  }

  /** The scores a run reports, before they are listed. */
  function FinalScores(claims: seq<Claim>, covered: set<Id>): (s: Scores)
    ensures GraphOf(claims).Scored(s)
  {
    Passes(BaseScores(claims, covered), GraphOf(claims), MAX_PASSES)
  }

  function Sum(order: seq<Id>, s: Scores): real
    requires forall id :: id in order ==> id in s
  {
    if order == [] then 0.0 else Sum(order[..|order| - 1], s) + s[order[|order| - 1]]
  }

  /** The listed identifiers whose score is under the threshold, in listing order. */
  function Below(order: seq<Id>, s: Scores, threshold: real): (ids: seq<Id>)
    requires forall id :: id in order ==> id in s
    ensures forall id :: id in ids <==> id in order && s[id] < threshold
  {
    if order == [] then [] else
      var last := order[|order| - 1];
      assert order == order[..|order| - 1] + [last];
      Below(order[..|order| - 1], s, threshold) + (if s[last] < threshold then [last] else [])
  }

  lemma TallyNext(order: seq<Id>, s: Scores, threshold: real, i: nat)
    requires i < |order| && forall id :: id in order ==> id in s
    ensures Below(order[..i + 1], s, threshold)
      == Below(order[..i], s, threshold) + (if s[order[i]] < threshold then [order[i]] else [])
    ensures Sum(order[..i + 1], s) == Sum(order[..i], s) + s[order[i]]
  {
    assert order[..i + 1][..i] == order[..i];
  }

  datatype CertaintyReport = CertaintyReport(
    scores: seq<ArtifactCertainty>, overall: real, threshold: real, below: seq<Id>)

  ghost function View(scores: Dict<Id, ArtifactCertainty>): (s: Scores)
    reads scores.at.Values
    ensures s.Keys == scores.at.Keys
  {
    map id | id in scores.at :: scores.at[id].propagatedScore
  }

  ghost predicate Flagged(scores: Dict<Id, ArtifactCertainty>, threshold: real)
    reads scores.at.Values
  {
    forall id :: id in scores.at ==>
      && scores.at[id].artifactId == id
      && scores.at[id].aboveThreshold == (scores.at[id].propagatedScore >= threshold)
  }

  /** A report lists the artifacts in order, each with its final score and a flag that agrees
      with it, the identifiers under the threshold, and the mean. */
  ghost predicate Reports(report: CertaintyReport, order: seq<Id>, final: Scores, threshold: real)
    requires forall id :: id in order ==> id in final
    reads report.scores
  {
    && report.threshold == threshold
    && |report.scores| == |order|
    && (forall i :: 0 <= i < |order| ==>
          && report.scores[i].artifactId == order[i]
          && report.scores[i].propagatedScore == final[order[i]]
          && report.scores[i].aboveThreshold == (final[order[i]] >= threshold))
    && report.below == Below(order, final, threshold)
    && report.overall == if order == [] then 0.0 else Sum(order, final) / |order| as real
  }

  ghost function LinksOf(artifacts: Dict<Id, BeliefArtifact>): (g: Graph)
    requires artifacts.Valid()
    ensures g.Valid()
  {
    Graph(artifacts.order, map id | id in artifacts.at :: artifacts.at[id].links)
  }

  lemma IndexedNext(claims: seq<Claim>, i: nat)
    requires i < |claims|
    ensures Indexed(claims[..i + 1]) == Indexed(claims[..i]).Put(claims[i].id, claims[i])
  {
    assert claims[..i + 1][..i] == claims[..i];
  }

  ghost predicate SameLinks(byId: Dict<Id, BeliefArtifact>, d: Dict<Id, Claim>) {
    && byId.Valid() && byId.order == d.order && byId.at.Keys == d.at.Keys
    && forall id :: id in d.at ==> byId.at[id].links == d.at[id].links
  }

  lemma PutSameLinks(byId: Dict<Id, BeliefArtifact>, d: Dict<Id, Claim>, artifact: BeliefArtifact, c: Claim)
    requires d.Valid() && SameLinks(byId, d) && artifact.artifactId == c.id && artifact.links == c.links
    ensures SameLinks(byId.Put(c.id, artifact), d.Put(c.id, c))
  {
  }

  lemma AllSameLinks(byId: Dict<Id, BeliefArtifact>, claims: seq<Claim>)
    requires SameLinks(byId, Indexed(claims))
    ensures LinksOf(byId) == GraphOf(claims)
  {
  }

  ghost predicate BaseScored(scores: Dict<Id, ArtifactCertainty>, d: Dict<Id, Claim>, covered: set<Id>)
    reads scores.at.Values
  {
    && scores.Valid() && scores.order == d.order && scores.at.Keys == d.at.Keys
    && forall id :: id in d.at ==> scores.at[id].propagatedScore == Composite(d.at[id], covered)
  }

  lemma PutBaseScored(scores: Dict<Id, ArtifactCertainty>, d: Dict<Id, Claim>, covered: set<Id>,
                      ac: ArtifactCertainty, c: Claim)
    requires d.Valid() && BaseScored(scores, d, covered)
    requires ac.artifactId == c.id && ac.propagatedScore == Composite(c, covered)
    ensures BaseScored(scores.Put(c.id, ac), d.Put(c.id, c), covered)
  {
  }

  lemma AllBaseScored(scores: Dict<Id, ArtifactCertainty>, claims: seq<Claim>, covered: set<Id>)
    requires BaseScored(scores, Indexed(claims), covered)
    ensures scores.order == GraphOf(claims).order && View(scores) == BaseScores(claims, covered)
  {
  }

  lemma PutFlagged(scores: Dict<Id, ArtifactCertainty>, ac: ArtifactCertainty, threshold: real)
    requires scores.Valid() && Flagged(scores, threshold)
    requires ac.aboveThreshold == (ac.propagatedScore >= threshold)
    ensures Flagged(scores.Put(ac.artifactId, ac), threshold)
  {
  }

  class CertaintyEngine {
    const threshold: real

    constructor (threshold: real)
      ensures this.threshold == threshold
    {
      this.threshold := threshold;
    }

    method ComputeBase(artifact: BeliefArtifact, covered: set<Id>) returns (ac: ArtifactCertainty)
      ensures fresh(ac)
      ensures ac.artifactId == artifact.artifactId
      ensures ac.propagatedScore == Composite(artifact.Snapshot(), covered)
      ensures ac.aboveThreshold == (ac.propagatedScore >= threshold)
    {
      var base := artifact.confidence.Score();
      var notes: seq<Note> := [];
      var coverage;
      if artifact.propositions == [] {
        coverage := 0.0;
        notes := notes + [NoPropositions];
      } else if artifact.artifactId in covered {
        coverage := 1.0;
      } else {
        coverage := 0.4;
        notes := notes + [NotCovered];
      }
      var freshness, failureNotes := ComputeFreshness(artifact.failureModes);
      var composite := Weighted(base, coverage, freshness);
      ac := new ArtifactCertainty(artifact.artifactId, base, coverage, freshness, composite,
                                  composite >= threshold, artifact.component, notes + failureNotes);
    }

    method ComputeFreshness(fms: seq<FailureMode>) returns (freshness: real, notes: seq<Note>)
      ensures freshness == Freshness(fms)
    {
      freshness, notes := 1.0, [];
      for i := 0 to |fms|
        invariant freshness == Freshness(fms[..i])
      {
        assert fms[..i + 1][..i] == fms[..i];
        if !fms[i].resolved {
          match fms[i].severity
          case Critical =>
            freshness := freshness * 0.2;
            notes := notes + [Failure(Critical, fms[i].challenge)];
          case Severe =>
            freshness := freshness * 0.6;
            notes := notes + [Failure(Severe, fms[i].challenge)];
          case Moderate =>
            freshness := freshness * 0.85;
          case Minor =>
        }
      }
      assert fms[..|fms|] == fms;
    }

    /** Twenty passes, or fewer when a pass changes nothing. */
    method Propagate(scores: Dict<Id, ArtifactCertainty>, artifacts: Dict<Id, BeliefArtifact>)
      requires scores.Valid() && artifacts.Valid() && Flagged(scores, threshold)
      modifies scores.at.Values
      ensures View(scores) == Passes(old(View(scores)), LinksOf(artifacts), MAX_PASSES)
      ensures Flagged(scores, threshold)
    {
      ghost var g := LinksOf(artifacts);
      ghost var start := View(scores);
      var changed, passCount := true, 0;
      while changed && passCount < MAX_PASSES
        invariant passCount <= MAX_PASSES
        invariant View(scores) == Passes(start, g, passCount)
        invariant !changed ==> Pass(View(scores), g) == View(scores)
        invariant Flagged(scores, threshold)
      {
        ghost var before := View(scores);
        changed := false;
        passCount := passCount + 1;
        for n := 0 to |artifacts.order|
          invariant View(scores) == PassUpTo(before, g, n)
          invariant !changed ==> View(scores) == before
          invariant Flagged(scores, threshold)
        {
          var id := artifacts.order[n];
          if id in scores.at {
            var lowered := FollowLinks(scores, id, artifacts.at[id].links);
            changed := changed || lowered;
          }
        }
      }
      if !changed {
        FixpointStays(g, start, passCount, MAX_PASSES - passCount);
      }
    }

    /** One visit: the inner loop of a pass. */
    method FollowLinks(scores: Dict<Id, ArtifactCertainty>, id: Id, links: seq<Id>) returns (lowered: bool)
      requires scores.Valid() && Flagged(scores, threshold) && id in scores.at
      modifies scores.at.Values
      ensures View(scores) == RelaxLinks(old(View(scores)), id, links)
      ensures !lowered ==> View(scores) == old(View(scores))
      ensures Flagged(scores, threshold)
    {
      lowered := false;
      var ac := scores.at[id];
      ghost var start := View(scores);
      for j := 0 to |links|
        invariant View(scores) == RelaxLinks(start, id, links[..j])
        invariant !lowered ==> View(scores) == start
        invariant Flagged(scores, threshold)
      {
        assert links[..j + 1][..j] == links[..j];
        ghost var view := View(scores);
        if links[j] in scores.at {
          var upstream := scores.at[links[j]].propagatedScore;
          if upstream < ac.propagatedScore {
            ac.LowerTo(links[j], upstream, threshold);
            lowered := true;
            assert View(scores) == view[id := upstream];
          }
        }
      }
      assert links[..|links|] == links;
    }

    method ScoreAll(artifacts: seq<BeliefArtifact>, covered: set<Id>, ghost claims: seq<Claim>)
      returns (scores: Dict<Id, ArtifactCertainty>)
      requires Describe(claims, artifacts)
      ensures scores.Valid() && Flagged(scores, threshold)
      ensures scores.order == GraphOf(claims).order
      ensures View(scores) == BaseScores(claims, covered)
      ensures forall id :: id in scores.at ==> fresh(scores.at[id])
    {
      scores := Empty();
      ghost var d: Dict<Id, Claim> := Empty();
      for i := 0 to |artifacts|
        invariant d == Indexed(claims[..i]) && BaseScored(scores, d, covered)
        invariant Flagged(scores, threshold)
        invariant forall id :: id in scores.at ==> fresh(scores.at[id])
      {
        IndexedNext(claims, i);
        scores := ScoreNext(scores, artifacts[i], covered, d);
        d := d.Put(claims[i].id, claims[i]);
      }
      assert claims[..|claims|] == claims;
      AllBaseScored(scores, claims, covered);
    }

    method ScoreNext(scores: Dict<Id, ArtifactCertainty>, artifact: BeliefArtifact, covered: set<Id>,
                     ghost d: Dict<Id, Claim>)
      returns (next: Dict<Id, ArtifactCertainty>)
      requires d.Valid() && BaseScored(scores, d, covered) && Flagged(scores, threshold)
      ensures BaseScored(next, d.Put(artifact.artifactId, artifact.Snapshot()), covered) && Flagged(next, threshold)
      ensures forall id :: id in next.at ==> (id in scores.at && next.at[id] == scores.at[id]) || fresh(next.at[id])
    {
      var ac := ComputeBase(artifact, covered);
      assert Flagged(scores, threshold);
      PutBaseScored(scores, d, covered, ac, artifact.Snapshot());
      PutFlagged(scores, ac, threshold);
      next := scores.Put(artifact.artifactId, ac);
    }

    method ById(artifacts: seq<BeliefArtifact>, ghost claims: seq<Claim>) returns (byId: Dict<Id, BeliefArtifact>)
      requires |claims| == |artifacts|
      requires forall k :: 0 <= k < |artifacts| ==>
        artifacts[k].artifactId == claims[k].id && artifacts[k].links == claims[k].links
      ensures byId.Valid() && LinksOf(byId) == GraphOf(claims)
    {
      byId := Empty();
      ghost var d: Dict<Id, Claim> := Empty();
      for i := 0 to |artifacts|
        invariant d == Indexed(claims[..i]) && SameLinks(byId, d)
      {
        IndexedNext(claims, i);
        PutSameLinks(byId, d, artifacts[i], claims[i]);
        byId, d := byId.Put(artifacts[i].artifactId, artifacts[i]), d.Put(claims[i].id, claims[i]);
      }
      assert claims[..|claims|] == claims;
      AllSameLinks(byId, claims);
    }

    method Summarise(scores: Dict<Id, ArtifactCertainty>) returns (report: CertaintyReport)
      requires scores.Valid() && Flagged(scores, threshold)
      ensures Reports(report, scores.order, View(scores), threshold)
    {
      var below, total := Tally(scores);
      var overall := if scores.order == [] then 0.0 else total / |scores.order| as real;
      report := CertaintyReport(scores.Values(), overall, threshold, below);
    }

    method Tally(scores: Dict<Id, ArtifactCertainty>) returns (below: seq<Id>, total: real)
      requires scores.Valid() && Flagged(scores, threshold)
      ensures below == Below(scores.order, View(scores), threshold) && total == Sum(scores.order, View(scores))
    {
      below, total := [], 0.0;
      for i := 0 to |scores.order|
        invariant below == Below(scores.order[..i], View(scores), threshold)
        invariant total == Sum(scores.order[..i], View(scores))
      {
        var ac := scores.at[scores.order[i]];
        TallyNext(scores.order, View(scores), threshold, i);
        if !ac.aboveThreshold { below := below + [ac.artifactId]; }
        total := total + ac.propagatedScore;
      }
      assert scores.order[..|scores.order|] == scores.order;
    }

    method Run(artifacts: seq<BeliefArtifact>, covered: set<Id>, ghost claims: seq<Claim>)
      returns (report: CertaintyReport)
      requires Describe(claims, artifacts)
      ensures Reports(report, GraphOf(claims).order, FinalScores(claims, covered), threshold)
    {
      var scores := ScoreAll(artifacts, covered, claims);
      assert Describe(claims, artifacts);
      var byId := ById(artifacts, claims);
      assert LinksOf(byId) == GraphOf(claims);
      Propagate(scores, byId);
      report := Summarise(scores);
    }
  }
}
