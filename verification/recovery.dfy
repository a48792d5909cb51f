/** The recovery operator: proposals for failures and logic knots, most urgent first. */
module Recovery {
  import opened Text
  import opened StableSort
  import opened WeakestLink
  import opened Belief
  import opened StressTester

  datatype Strategy = DECOMPOSE | CONSTRAIN | FALSIFY | QUANTIFY | RESOLVE | DEPRECATE

  datatype Proposal = Proposal(artifactId: Id, challenge: string, strategy: Strategy, cost: string, priority: nat)

  function SeverityPriority(s: Severity): nat {
    match s
    case Critical => 1
    case Severe => 2
    case Moderate => 3
    case Minor => 4
  }

  predicate Mentions(challenge: string, word: string) { Contains(Lower(challenge), word) }

  predicate OnVagueness(challenge: string) { Mentions(challenge, "vagueness") }

  predicate OnTests(challenge: string) { Mentions(challenge, "falsifiability") || Mentions(challenge, "no test") }

  predicate OnBoundary(challenge: string) { Mentions(challenge, "observability") || Mentions(challenge, "boundary") }

  predicate OnStructure(challenge: string) { Mentions(challenge, "irreducibility") || Mentions(challenge, "compound") }

  predicate OnConfidence(challenge: string) { Mentions(challenge, "confidence") }

  /** `_propose_for_failure`: the first word found in the challenge decides. */
  function ForFailure(c: Claim, fm: FailureMode): seq<Proposal> {
    var priority := SeverityPriority(fm.severity);
    if OnVagueness(fm.challenge) then
      [Proposal(c.id, fm.challenge, QUANTIFY, "low", priority)]
    else if OnTests(fm.challenge) then
      [Proposal(c.id, fm.challenge, FALSIFY, "low", priority)]
    else if OnBoundary(fm.challenge) then
      [Proposal(c.id, fm.challenge, CONSTRAIN, "low", priority)]
      + (if c.propositions == [] then [Proposal(c.id, fm.challenge, DECOMPOSE, "low", 1)] else [])
    else if OnStructure(fm.challenge) then
      [Proposal(c.id, fm.challenge, DECOMPOSE, "medium", priority)]
    else if OnConfidence(fm.challenge) then
      [Proposal(c.id, fm.challenge, FALSIFY, "medium", 1)]
    else []
  }

  function FirstChars(s: string, n: nat): string { if |s| <= n then s else s[..n] }

  function ForKnot(k: Knot): Proposal {
    if Mentions(k.reason, "duplicate") then
      Proposal(k.first, "Logic Knot: " + FirstChars(k.reason, 60), DEPRECATE, "low", 1)
    else
      Proposal(k.first, "Logic Knot: " + FirstChars(k.reason, 60), RESOLVE, "medium", 1)
  }

  function ForFailures(c: Claim, fms: seq<FailureMode>): seq<Proposal> {
    if fms == [] then [] else ForFailures(c, fms[..|fms| - 1]) + ForFailure(c, fms[|fms| - 1])
  }

  function ForClaim(c: Claim): seq<Proposal> { ForFailures(c, Unresolved(c.failures)) }

  /** The proposals for the first `n` elements, one after the other. */
  function Gathered<T>(s: seq<T>, n: nat, proposals: T -> seq<Proposal>): seq<Proposal>
    requires n <= |s|
  {
    if n == 0 then [] else Gathered(s, n - 1, proposals) + proposals(s[n - 1])
  }

  function ForClaims(claims: seq<Claim>): seq<Proposal> { Gathered(claims, |claims|, ForClaim) }

  function ForKnots(knots: seq<Knot>): seq<Proposal> {
    if knots == [] then [] else ForKnots(knots[..|knots| - 1]) + [ForKnot(knots[|knots| - 1])]
  }

  predicate MoreUrgent(a: Proposal, b: Proposal) { a.priority <= b.priority }

  function Proposed(claims: seq<Claim>, knots: seq<Knot>): seq<Proposal> {
    Sort(ForClaims(claims) + ForKnots(knots), MoreUrgent)
  }

  method Propose(artifacts: seq<BeliefArtifact>, result: StressTestResult, ghost claims: seq<Claim>)
    returns (proposals: seq<Proposal>)
    requires Describe(claims, artifacts)
    ensures proposals == Proposed(claims, result.knots)
  {
    proposals := ProposeForArtifacts(artifacts, claims);
    ghost var forClaims := proposals;
    for k := 0 to |result.knots|
      invariant proposals == forClaims + ForKnots(result.knots[..k])
    {
      assert result.knots[..k + 1][..k] == result.knots[..k];
      proposals := proposals + [ForKnot(result.knots[k])];
    }
    assert result.knots[..|result.knots|] == result.knots;
    proposals := Sort(proposals, MoreUrgent);
  }

  method ProposeForArtifacts(artifacts: seq<BeliefArtifact>, ghost claims: seq<Claim>)
    returns (proposals: seq<Proposal>)
    requires Describe(claims, artifacts)
    ensures proposals == ForClaims(claims)
  {
    proposals := [];
    for i := 0 to |artifacts|
      invariant proposals == Gathered(claims, i, ForClaim)
    {
      var some := ProposeForFailures(artifacts[i]);
      proposals := proposals + some;
    }
  }

  method ProposeForFailures(artifact: BeliefArtifact) returns (proposals: seq<Proposal>)
    ensures proposals == ForClaim(artifact.Snapshot())
  {
    proposals := [];
    var fms := Unresolved(artifact.failureModes);
    for j := 0 to |fms|
      invariant proposals == ForFailures(artifact.Snapshot(), fms[..j])
    {
      assert fms[..j + 1][..j] == fms[..j];
      proposals := proposals + ForFailure(artifact.Snapshot(), fms[j]);
    }
    assert fms[..|fms|] == fms;
  }
}
