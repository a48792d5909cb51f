/** A session: the belief artifacts of a project and the whole pipeline over them. */
module Session {
  import opened PyDict
  import opened WeakestLink
  import opened Belief
  import opened Certainty
  import StressTester
  import opened FailureGraph
  import Recovery

  type Patterns = StressTester.Patterns

  const DEFAULT_BOUNDARY := "Assumed correct environment"

  // ---------------------------------------------------------------------------------------
  // What a run does to the claims
  // ---------------------------------------------------------------------------------------

  predicate Takes(acceptedOnly: bool, c: Claim) { acceptedOnly ==> c.IsAccepted() }

  /** The claims a run works on, with their failures cleared. */
  function Cleared(claims: seq<Claim>, acceptedOnly: bool): seq<Claim> {
    if claims == [] then []
    else
      var c := claims[|claims| - 1];
      Cleared(claims[..|claims| - 1], acceptedOnly)
      + (if Takes(acceptedOnly, c) then [StressTester.WithoutFailures(c)] else [])
  }

  function AfterRunAt(c: Claim, acceptedOnly: bool, covered: set<Id>, ids: set<Id>, pat: Patterns): Claim {
    if Takes(acceptedOnly, c) then StressTester.Challenged(StressTester.WithoutFailures(c), covered, ids, pat) else c
  }

  /** All claims of a session after a run. */
  ghost function AfterRun(claims: seq<Claim>, acceptedOnly: bool, covered: set<Id>, pat: Patterns): (r: seq<Claim>)
    ensures |r| == |claims|
  {
    AfterChallenges(claims, acceptedOnly, covered, StressTester.IdSet(Cleared(claims, acceptedOnly)), pat)
  }

  ghost function AfterChallenges(claims: seq<Claim>, acceptedOnly: bool, covered: set<Id>, ids: set<Id>, pat: Patterns)
    : (r: seq<Claim>)
    ensures |r| == |claims|
  {
    seq(|claims|, i requires 0 <= i < |claims| => AfterRunAt(claims[i], acceptedOnly, covered, ids, pat))
  }

  datatype AEEResult = AEEResult(
    artifacts: seq<BeliefArtifact>,
    stress: StressTester.StressTestResult,
    report: CertaintyReport,
    proposals: seq<Recovery.Proposal>,
    graph: FailureModeGraph)

  class AEESession {
    const threshold: real
    var artifacts: seq<BeliefArtifact>
    var covered: set<Id>

    constructor (threshold: real)
      ensures Valid() && artifacts == [] && covered == {} && this.threshold == threshold
    {
      this.threshold, artifacts, covered := threshold, [], {};
    }

    ghost predicate Valid()
      reads this
    {
      StressTester.Separate(artifacts)
    }

    method Find(id: Id) returns (place: int)
      ensures IsPlaceOf(artifacts, id, place)
    {
      place := |artifacts| - 1;
      while place >= 0 && artifacts[place].artifactId != id
        invariant -1 <= place < |artifacts|
        invariant forall k :: place < k < |artifacts| ==> artifacts[k].artifactId != id
      {
        place := place - 1;
      }
    }

    /** A new belief takes the last place of its id, or the end. */
    method AddBelief(id: Id, propositions: seq<string>, boundary: seq<string>, links: seq<Id>,
                     confidence: ConfidenceLevel, status: BeliefStatus, component: string, priority: string,
                     sourceText: string)
      returns (artifact: BeliefArtifact)
      requires Valid()
      modifies this`artifacts
      ensures Valid() && fresh(artifact)
      ensures artifact.Snapshot() == Claim(id, propositions, if boundary == [] then [DEFAULT_BOUNDARY] else boundary,
                                           links, confidence, status, [], component, priority)
      ensures exists place :: (
        IsPlaceOf(old(artifacts), id, place)
        && artifacts == if place >= 0 then old(artifacts)[place := artifact] else old(artifacts) + [artifact])
    {
      var source := if sourceText != "" then sourceText else if propositions == [] then "" else propositions[0];
      artifact := new BeliefArtifact(id, propositions, if boundary == [] then [DEFAULT_BOUNDARY] else boundary, links,
                                     confidence, status, component, priority, source);
      var place := Find(id);
      assert IsPlaceOf(artifacts, id, place);
      assert artifact !in artifacts;
      if place >= 0 {
        DistinctUpdate(artifacts, place, artifact);
        artifacts := artifacts[place := artifact];
      } else {
        DistinctAppend(artifacts, artifact);
        artifacts := artifacts + [artifact];
      }
    }

    method MarkCovered(id: Id)
      modifies this`covered
      ensures covered == old(covered) + {id}
    {
      covered := covered + {id};
    }

    /** `claims` is what the artifacts say before, `tested` what the chosen ones say afterwards. */
    method Run(acceptedOnly: bool, pat: Patterns, ghost claims: seq<Claim>)
      returns (result: AEEResult, ghost tested: seq<Claim>)
      requires Valid() && Describe(claims, artifacts)
      modifies artifacts`failureModes
      ensures Valid()
      ensures Describe(AfterRun(claims, acceptedOnly, covered, pat), artifacts)
      ensures Describe(tested, result.artifacts)
      ensures tested == StressTester.Tested(Cleared(claims, acceptedOnly), covered, pat)
      ensures result.stress == StressTester.Findings(Cleared(claims, acceptedOnly), covered, pat)
      ensures Concludes(result, tested, covered, threshold)
    {
      var chosen, stress;
      ghost var said;
      var all := artifacts;
      chosen, stress, tested, said := ChallengeChosen(all, acceptedOnly, covered, pat, claims);
      assert artifacts == all;
      result := Conclude(chosen, stress, covered, threshold, tested);
      assert Describe(said, artifacts);
    }

    /** `stress_test`: the challenges alone, over all artifacts. */
    method StressTest(pat: Patterns) returns (stress: StressTester.StressTestResult)
      requires Valid()
      modifies artifacts`failureModes
      ensures stress == StressTester.Findings(old(BareClaims(artifacts)), covered, pat)
      ensures Claims(artifacts) == StressTester.Tested(old(BareClaims(artifacts)), covered, pat)
    {
      stress := ChallengeAfresh(artifacts, covered, pat);
    }

    method Score(ghost claims: seq<Claim>) returns (report: CertaintyReport)
      requires Describe(claims, artifacts)
      ensures Reports(report, GraphOf(claims).order, FinalScores(claims, covered), threshold)
    {
      report := ScoreChosen(artifacts, covered, threshold, claims);
    }
  }

  /** The artifacts a run works on, and what they claim without their failures. */
  method Choose(artifacts: seq<BeliefArtifact>, acceptedOnly: bool, ghost claims: seq<Claim>)
    returns (chosen: seq<BeliefArtifact>, ghost bare: seq<Claim>)
    requires StressTester.Separate(artifacts) && Describe(claims, artifacts)
    ensures StressTester.Separate(chosen)
    ensures Describe(claims, artifacts) && bare == BareClaims(chosen)
    ensures ChosenFrom(artifacts, chosen, claims, bare, Taker(acceptedOnly), Stripper())
    ensures bare == Cleared(claims, acceptedOnly)
  {
    chosen := [];
    ghost var at: seq<nat> := [];
    for i := 0 to |artifacts|
      invariant at == Places(claims, Taker(acceptedOnly), i)
      invariant |chosen| == |at| && forall k :: 0 <= k < |at| ==> at[k] < |artifacts| && chosen[k] == artifacts[at[k]]
    {
      if !acceptedOnly || artifacts[i].Snapshot().IsAccepted() {
        chosen, at := chosen + [artifacts[i]], at + [i];
      }
    }
    bare := Cleared(claims, acceptedOnly);
    ChosenIsFrom(artifacts, chosen, claims, acceptedOnly);
  }

  method ChallengeChosen(artifacts: seq<BeliefArtifact>, acceptedOnly: bool, covered: set<Id>, pat: Patterns,
                         ghost claims: seq<Claim>)
    returns (chosen: seq<BeliefArtifact>, stress: StressTester.StressTestResult,
             ghost tested: seq<Claim>, ghost said: seq<Claim>)
    requires StressTester.Separate(artifacts) && Describe(claims, artifacts)
    modifies artifacts`failureModes
    ensures said == AfterRun(claims, acceptedOnly, covered, pat) && Describe(said, artifacts)
    ensures Describe(tested, chosen)
    ensures tested == StressTester.Tested(Cleared(claims, acceptedOnly), covered, pat)
    ensures stress == StressTester.Findings(Cleared(claims, acceptedOnly), covered, pat)
  {
    ghost var bare;
    chosen, bare := Choose(artifacts, acceptedOnly, claims);
    stress := ChallengeAmong(artifacts, chosen, claims, bare, acceptedOnly, covered, pat);
    tested := StressTester.Tested(bare, covered, pat);
    said := AfterRun(claims, acceptedOnly, covered, pat);
  }

  lemma DistinctUpdate<T>(s: seq<T>, i: nat, x: T)
    requires i < |s| && Distinct(s) && x !in s
    ensures Distinct(s[i := x])
  {
    var out := s[i := x];
    forall j | 0 <= j < |out| ensures IndexOf(out, out[j]) == j {
      var k := IndexOf(out, out[j]);
      assert s[j] in s && s[k] in s;
      if k != i && j != i { assert IndexOf(s, s[k]) == k && IndexOf(s, s[j]) == j; }
    }
  }

  /** The last place of an id, or -1. */
  ghost predicate IsPlaceOf(artifacts: seq<BeliefArtifact>, id: Id, place: int) {
    && -1 <= place < |artifacts|
    && (place >= 0 ==> artifacts[place].artifactId == id)
    && forall k :: place < k < |artifacts| ==> artifacts[k].artifactId != id
  }

  ghost function BareClaims(artifacts: seq<BeliefArtifact>): (r: seq<Claim>)
    reads artifacts
    ensures |r| == |artifacts|
  {
    seq(|artifacts|, i requires 0 <= i < |artifacts| reads artifacts =>
        StressTester.WithoutFailures(artifacts[i].Snapshot()))
  }

  /** The places of the taken elements among the first `n`. */
  ghost function Places<T>(s: seq<T>, take: T -> bool, n: nat): seq<nat>
    requires n <= |s|
  {
    if n == 0 then []
    else if take(s[n - 1]) then Places(s, take, n - 1) + [n - 1]
    else Places(s, take, n - 1)
  }

  ghost predicate Increasing(at: seq<nat>, n: nat) {
    && (forall k :: 0 <= k < |at| ==> at[k] < n)
    && (forall j, k :: 0 <= j < k < |at| ==> at[j] < at[k])
  }

  lemma {:induction false} PlacesIncrease<T>(s: seq<T>, take: T -> bool, n: nat)
    requires n <= |s|
    ensures Increasing(Places(s, take, n), n)
  {
    if n > 0 { PlacesIncrease(s, take, n - 1); }
  }

  lemma {:induction false} PlacesAreTaken<T>(s: seq<T>, take: T -> bool, n: nat)
    requires n <= |s|
    ensures forall i :: 0 <= i < n ==> (i in Places(s, take, n) <==> take(s[i]))
  {
    if n > 0 {
      PlacesAreTaken(s, take, n - 1);
      PlacesIncrease(s, take, n - 1);
    }
  }

  lemma {:induction false} ClearedIsChosen(claims: seq<Claim>, acceptedOnly: bool, n: nat)
    requires n <= |claims|
    ensures var at, bare := Places(claims, Taker(acceptedOnly), n), Cleared(claims[..n], acceptedOnly);
      && Increasing(at, n) && |bare| == |at|
      && forall k :: 0 <= k < |at| ==> bare[k] == StressTester.WithoutFailures(claims[at[k]])
  {
    PlacesIncrease(claims, Taker(acceptedOnly), n);
    if n > 0 {
      PlacesIncrease(claims, Taker(acceptedOnly), n - 1);
      ClearedIsChosen(claims, acceptedOnly, n - 1);
      assert claims[..n][..n - 1] == claims[..n - 1];
    }
  }

  ghost function Taker(acceptedOnly: bool): Claim -> bool { c => Takes(acceptedOnly, c) }

  /** `chosen` holds the elements of `s` at the given places. */
  ghost predicate PickedAt<T>(s: seq<T>, chosen: seq<T>, at: seq<nat>) {
    && Distinct(s) && Increasing(at, |s|)
    && |chosen| == |at| && forall k :: 0 <= k < |at| ==> chosen[k] == s[at[k]]
  }

  lemma PickedOnce<T>(s: seq<T>, chosen: seq<T>, at: seq<nat>)
    requires PickedAt(s, chosen, at)
    ensures Distinct(chosen)
  {
    forall i | 0 <= i < |chosen| ensures IndexOf(chosen, chosen[i]) == i {
      var j := IndexOf(chosen, chosen[i]);
      assert IndexOf(s, s[at[i]]) == at[i] && IndexOf(s, s[at[j]]) == at[j];
    }
  }

  lemma PickedWhere<T>(s: seq<T>, chosen: seq<T>, at: seq<nat>, i: nat)
    requires PickedAt(s, chosen, at) && i < |s|
    ensures s[i] in chosen <==> i in at
    ensures forall k :: 0 <= k < |chosen| ==> (chosen[k] == s[i] ==> at[k] == i)
  {
    if i in at {
      var k :| 0 <= k < |at| && at[k] == i;
      assert chosen[k] == s[i];
    }
    forall k | 0 <= k < |chosen| && chosen[k] == s[i] ensures at[k] == i {
      assert IndexOf(s, s[i]) == i && IndexOf(s, s[at[k]]) == at[k];
    }
  }

  /** The chosen elements among all, what goes with all, and what goes with the chosen ones. */
  ghost predicate ChosenFrom<T, C>(s: seq<T>, chosen: seq<T>, before: seq<C>, bare: seq<C>, take: C -> bool,
                                   strip: C -> C) {
    && |before| == |s| && |bare| == |chosen|
    && (forall k :: 0 <= k < |chosen| ==> chosen[k] in s)
    && (forall i :: 0 <= i < |s| ==> (s[i] in chosen <==> take(before[i])))
    && (forall i, k :: 0 <= i < |s| && 0 <= k < |chosen| ==> (chosen[k] == s[i] ==> bare[k] == strip(before[i])))
  }

  lemma PickedIsChosen<T, C>(s: seq<T>, chosen: seq<T>, before: seq<C>, bare: seq<C>, take: C -> bool, strip: C -> C)
    requires |before| == |s| && PickedAt(s, chosen, Places(before, take, |before|))
    requires |bare| == |chosen|
      && forall k :: 0 <= k < |bare| ==> bare[k] == strip(before[Places(before, take, |before|)[k]])
    ensures ChosenFrom(s, chosen, before, bare, take, strip)
  {
    PlacesAreTaken(before, take, |before|);
    forall i | 0 <= i < |s|
      ensures s[i] in chosen <==> take(before[i])
      ensures forall k :: 0 <= k < |chosen| ==> (chosen[k] == s[i] ==> bare[k] == strip(before[i]))
    {
      PickedWhere(s, chosen, Places(before, take, |before|), i);
    }
  }

  lemma ChosenIsFrom(artifacts: seq<BeliefArtifact>, chosen: seq<BeliefArtifact>, claims: seq<Claim>,
                     acceptedOnly: bool)
    requires StressTester.Separate(artifacts) && |claims| == |artifacts|
    requires var at := Places(claims, Taker(acceptedOnly), |claims|);
      |chosen| == |at| && forall k :: 0 <= k < |at| ==> at[k] < |artifacts| && chosen[k] == artifacts[at[k]]
    ensures StressTester.Separate(chosen)
    ensures ChosenFrom(artifacts, chosen, claims, Cleared(claims, acceptedOnly), Taker(acceptedOnly), Stripper())
  {
    var at := Places(claims, Taker(acceptedOnly), |claims|);
    ClearedIsChosen(claims, acceptedOnly, |claims|);
    assert claims[..|claims|] == claims;
    PickedOnce(artifacts, chosen, at);
    PickedIsChosen(artifacts, chosen, claims, Cleared(claims, acceptedOnly), Taker(acceptedOnly), Stripper());
  }

  ghost function Stripper(): Claim -> Claim { c => StressTester.WithoutFailures(c) }

  /** Challenging the chosen artifacts afresh is all that happens to the claims of a session. */
  method ChallengeAmong(artifacts: seq<BeliefArtifact>, chosen: seq<BeliefArtifact>, ghost before: seq<Claim>,
                        ghost bare: seq<Claim>, acceptedOnly: bool, covered: set<Id>, pat: Patterns)
    returns (stress: StressTester.StressTestResult)
    requires StressTester.Separate(chosen)
      && ChosenFrom(artifacts, chosen, before, bare, Taker(acceptedOnly), Stripper())
    requires Describe(before, artifacts) && bare == BareClaims(chosen)
    modifies chosen`failureModes
    ensures Describe(StressTester.Tested(bare, covered, pat), chosen)
    ensures stress == StressTester.Findings(bare, covered, pat)
    ensures Describe(AfterChallenges(before, acceptedOnly, covered, StressTester.IdSet(bare), pat), artifacts)
  {
    stress := ChallengeAfresh(chosen, covered, pat);
    forall i | 0 <= i < |artifacts|
      ensures artifacts[i].Snapshot() == AfterRunAt(before[i], acceptedOnly, covered, StressTester.IdSet(bare), pat)
    {
      if Takes(acceptedOnly, before[i]) {
        var k :| 0 <= k < |chosen| && chosen[k] == artifacts[i];
        assert Claims(chosen)[k] == StressTester.Challenged(bare[k], covered, StressTester.IdSet(bare), pat);
      }
    }
  }

  method ChallengeAfresh(chosen: seq<BeliefArtifact>, covered: set<Id>, pat: Patterns)
    returns (stress: StressTester.StressTestResult)
    requires StressTester.Separate(chosen)
    modifies chosen`failureModes
    ensures Claims(chosen) == StressTester.Tested(old(BareClaims(chosen)), covered, pat)
    ensures stress == StressTester.Findings(old(BareClaims(chosen)), covered, pat)
  {
    ClearFailures(chosen);
    stress := StressTester.Run(chosen, covered, pat);
  }

  ghost predicate Concludes(result: AEEResult, tested: seq<Claim>, covered: set<Id>, threshold: real)
    reads result.report.scores, result.graph
  {
    && Reports(result.report, GraphOf(tested).order, FinalScores(tested, covered), threshold)
    && result.proposals == Recovery.Proposed(tested, result.stress.knots)
    && result.graph.knots == result.stress.knots
    && result.graph.edges == Edges(tested, StressTester.IdSet(tested))
    && Dressed(result.graph.nodes, BareNodes(tested), result.graph.edges, result.graph.knots)
  }

  method Conclude(chosen: seq<BeliefArtifact>, stress: StressTester.StressTestResult, covered: set<Id>,
                  threshold: real, ghost tested: seq<Claim>)
    returns (result: AEEResult)
    requires Describe(tested, chosen)
    ensures result.artifacts == chosen && result.stress == stress && fresh(result.graph)
    ensures Concludes(result, tested, covered, threshold)
  {
    var graph := BuildGraph(chosen, stress, tested);
    var report := ScoreChosen(chosen, covered, threshold, tested);
    var proposals := Recovery.Propose(chosen, stress, tested);
    result := AEEResult(chosen, stress, report, proposals, graph);
  }

  method ScoreChosen(chosen: seq<BeliefArtifact>, covered: set<Id>, threshold: real, ghost tested: seq<Claim>)
    returns (report: CertaintyReport)
    requires Describe(tested, chosen)
    ensures Reports(report, GraphOf(tested).order, FinalScores(tested, covered), threshold)
  {
    var engine := new CertaintyEngine(threshold);
    report := engine.Run(chosen, covered, tested);
  }

  method BuildGraph(chosen: seq<BeliefArtifact>, stress: StressTester.StressTestResult, ghost tested: seq<Claim>)
    returns (graph: FailureModeGraph)
    requires Describe(tested, chosen)
    ensures fresh(graph) && graph.knots == stress.knots
    ensures graph.edges == Edges(tested, StressTester.IdSet(tested))
    ensures Dressed(graph.nodes, BareNodes(tested), graph.edges, graph.knots)
  {
    graph := new FailureModeGraph();
    graph.Build(chosen, stress, tested);
  }

  method ClearFailures(artifacts: seq<BeliefArtifact>)
    modifies artifacts`failureModes
    ensures Claims(artifacts) == old(BareClaims(artifacts))
  {
    for i := 0 to |artifacts|
      invariant forall k :: 0 <= k < i ==> artifacts[k].failureModes == []
    {
      artifacts[i].failureModes := [];
    }
  }
}
