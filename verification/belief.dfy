/** Belief artifacts, the records the epistemic pipeline works on. */
module Belief {
  import opened WeakestLink

  datatype ConfidenceLevel = UNKNOWN | LOW | MEDIUM | HIGH {
    function Score(): real {
      match this
      case UNKNOWN => 0.0
      case LOW => 0.25
      case MEDIUM => 0.55
      case HIGH => 0.85
    }
  }

  datatype BeliefStatus = Draft | Accepted | StressTested | Reconstructed | Deprecated

  datatype Severity = Critical | Severe | Moderate | Minor

  predicate AtLeastAsSevere(a: Severity, b: Severity) {
    a == b || a == Critical || (a == Severe && b != Critical) || (a == Moderate && b == Minor)
  }

  datatype FailureMode = FailureMode(
    artifactId: Id, challenge: string, severity: Severity, resolved: bool)

  /** What a belief artifact says at one moment. */
  datatype Claim = Claim(
    id: Id,
    propositions: seq<string>,
    boundary: seq<string>,
    links: seq<Id>,
    confidence: ConfidenceLevel,
    status: BeliefStatus,
    failures: seq<FailureMode>,
    component: string,
    priority: string)
  {
    predicate IsAccepted() {
      status == Accepted || status == StressTested || status == Reconstructed
    }
  }

  predicate IsCritical(fm: FailureMode) {
    !fm.resolved && fm.severity == Critical
  }

  function CriticalFailures(fms: seq<FailureMode>): (r: seq<FailureMode>)
    ensures forall fm :: fm in r <==> fm in fms && IsCritical(fm)
  {
    if fms == [] then [] else
      (if IsCritical(fms[0]) then [fms[0]] else []) + CriticalFailures(fms[1..])
  }

  function Unresolved(fms: seq<FailureMode>): (r: seq<FailureMode>)
    ensures forall fm :: fm in r <==> fm in fms && !fm.resolved
  {
    if fms == [] then [] else
      (if fms[0].resolved then [] else [fms[0]]) + Unresolved(fms[1..])
  }

  class BeliefArtifact {
    const artifactId: Id
    const propositions: seq<string>
    const boundary: seq<string>
    const links: seq<Id>
    const component: string
    const priority: string
    const sourceText: string
    var confidence: ConfidenceLevel
    var status: BeliefStatus
    var failureModes: seq<FailureMode>
    var evidence: seq<string>

    constructor (artifactId: Id, propositions: seq<string>, boundary: seq<string>, links: seq<Id>,
                 confidence: ConfidenceLevel, status: BeliefStatus, component: string, priority: string,
                 sourceText: string)
      ensures Snapshot()
        == Claim(artifactId, propositions, boundary, links, confidence, status, [], component, priority)
      ensures evidence == [] && this.sourceText == sourceText
    {
      this.artifactId, this.propositions, this.boundary, this.links := artifactId, propositions, boundary, links;
      this.confidence, this.status, this.component, this.priority := confidence, status, component, priority;
      this.sourceText, failureModes, evidence := sourceText, [], [];
    }

    function Snapshot(): Claim
      reads this
    {
      Claim(artifactId, propositions, boundary, links, confidence, status, failureModes, component, priority)
    }

    /** Evidence lifts an unknown belief to low confidence and never lowers one. */
    method AddEvidence(citation: string)
      modifies this`evidence, this`confidence
      ensures evidence == old(evidence) + [citation]
      ensures confidence == if old(confidence) == UNKNOWN then LOW else old(confidence)
      ensures old(confidence).Score() <= confidence.Score()
    {
      evidence := evidence + [citation];
      if confidence == UNKNOWN && evidence != [] {
        confidence := LOW;
      }
    }
  }

  /** `claims` is what the artifacts say now, one by one. */
  ghost predicate Describe(claims: seq<Claim>, artifacts: seq<BeliefArtifact>)
    reads artifacts
  {
    |claims| == |artifacts| && forall k :: 0 <= k < |artifacts| ==> artifacts[k].Snapshot() == claims[k]
  }

  ghost function Claims(artifacts: seq<BeliefArtifact>): (cs: seq<Claim>)
    reads artifacts
    ensures |cs| == |artifacts|
    ensures forall i :: 0 <= i < |cs| ==> cs[i] == artifacts[i].Snapshot()
  {
    seq(|artifacts|, i requires 0 <= i < |artifacts| reads artifacts => artifacts[i].Snapshot())
  }
}
