/** The stress tester: challenges that raise failure modes on belief artifacts, and logic knots
    between accepted ones. */
module StressTester {
  import opened PyDict
  import opened Text
  import opened WeakestLink
  import opened Belief

  datatype Challenge =
    | VagueTerm | VagueQuantity | NoTest | NoBoundary | TooManyClaims | CompoundClaim | NoClaims | WeakPriority
    | DanglingLink

  /** What the regular expressions find in a proposition, where `subjects` are its long words
      without the stop words; which priorities are "P1" in upper case; and how a failed challenge
      is worded. */
  datatype Patterns = Patterns(
    isVague: string -> bool,
    isVagueQuantity: string -> bool,
    isCompound: string -> bool,
    hasMust: string -> bool,
    hasMustNot: string -> bool,
    subjects: string -> set<string>,
    isP1: string -> bool,
    wording: Challenge -> string)

  /** The wording the tester uses. */
  function Wording(ch: Challenge): string {
    match ch
    case VagueTerm => "Vagueness" + ": imprecise term detected"
    case VagueQuantity => "Vagueness" + ": unquantified quantity"
    case NoTest => "Falsifiability" + ": no test exists to challenge this belief"
    case NoBoundary => "Observability" + ": no explicit epistemic" + " boundary declared"
    case TooManyClaims => "Irreducibility" + ": compound belief" + " with too many propositions"
    case CompoundClaim => "Irreducibility" + ": compound claim" + " structure detected"
    case NoClaims => "Observability" + ": no parseable propositions"
    case WeakPriority => "Confidence" + ": P1" + " belief below medium confidence"
    case DanglingLink => "Irreducibility" + ": dangling inferential link"
  }

  function SeverityOf(ch: Challenge): Severity {
    match ch
    case VagueTerm => Moderate
    case VagueQuantity => Minor
    case NoTest => Severe
    case NoBoundary => Minor
    case TooManyClaims => Minor
    case CompoundClaim => Minor
    case NoClaims => Critical
    case WeakPriority => Critical
    case DanglingLink => Moderate
  }

  function Raise(id: Id, ch: Challenge, pat: Patterns): FailureMode {
    FailureMode(id, pat.wording(ch), SeverityOf(ch), false)
  }

  // ---------------------------------------------------------------------------------------
  // Challenges
  // ---------------------------------------------------------------------------------------

  function VaguenessIn(id: Id, proposition: string, pat: Patterns): seq<FailureMode> {
    (if pat.isVague(proposition) then [Raise(id, VagueTerm, pat)] else [])
    + (if pat.isVagueQuantity(proposition) then [Raise(id, VagueQuantity, pat)] else [])
  }

  function Vagueness(id: Id, propositions: seq<string>, pat: Patterns): seq<FailureMode> {
    if propositions == [] then []
    else Vagueness(id, propositions[..|propositions| - 1], pat) + VaguenessIn(id, propositions[|propositions| - 1], pat)
  }

  function MissingTest(c: Claim, covered: set<Id>, pat: Patterns): seq<FailureMode> {
    if !c.IsAccepted() || c.id in covered then [] else [Raise(c.id, NoTest, pat)]
  }

  /** A boundary says something beyond the default text. */
  predicate States(boundary: string) {
    Strip(boundary) != "" && Strip(boundary) != "Assumed correct project environment"
  }

  function MissingBoundary(c: Claim, pat: Patterns): seq<FailureMode> {
    if (exists b :: b in c.boundary && States(b)) || c.propositions == [] then [] else [Raise(c.id, NoBoundary, pat)]
  }

  function Compound(c: Claim, pat: Patterns): seq<FailureMode> {
    if |c.propositions| > 3 then [Raise(c.id, TooManyClaims, pat)]
    else if exists p :: p in c.propositions && pat.isCompound(p) then [Raise(c.id, CompoundClaim, pat)]
    else []
  }

  function MissingClaims(c: Claim, pat: Patterns): seq<FailureMode> {
    if c.propositions == [] then [Raise(c.id, NoClaims, pat)] else []
  }

  predicate IsWeak(c: Claim, pat: Patterns) { pat.isP1(c.priority) && c.confidence != MEDIUM && c.confidence != HIGH }

  function WeakPriorities(c: Claim, pat: Patterns): seq<FailureMode> {
    if IsWeak(c, pat) then [Raise(c.id, WeakPriority, pat)] else []
  }

  function Dangling(id: Id, links: seq<Id>, ids: set<Id>, pat: Patterns): seq<FailureMode> {
    if links == [] then []
    else
      var link := links[|links| - 1];
      Dangling(id, links[..|links| - 1], ids, pat)
        + (if link !in ids && link != id then [Raise(id, DanglingLink, pat)] else [])
  }

  function Joined(parts: seq<seq<FailureMode>>): seq<FailureMode> {
    if parts == [] then [] else Joined(parts[..|parts| - 1]) + parts[|parts| - 1]
  }

  /** All failures the challenges raise on one artifact. */
  function Raised(c: Claim, covered: set<Id>, ids: set<Id>, pat: Patterns): seq<FailureMode> {
    Joined([Vagueness(c.id, c.propositions, pat), MissingTest(c, covered, pat), MissingBoundary(c, pat),
            Compound(c, pat), MissingClaims(c, pat), WeakPriorities(c, pat), Dangling(c.id, c.links, ids, pat)])
  }

  lemma JoinSeven(a: seq<FailureMode>, b: seq<FailureMode>, c: seq<FailureMode>, d: seq<FailureMode>,
                  e: seq<FailureMode>, f: seq<FailureMode>, g: seq<FailureMode>)
    ensures Joined([a, b, c, d, e, f, g]) == a + b + c + d + e + f + g
  {
    JoinMore([], a);
    JoinMore([a], b);
    JoinMore([a, b], c);
    JoinMore([a, b, c], d);
    assert [] + [a] == [a] && [a] + [b] == [a, b] && [a, b] + [c] == [a, b, c] && [a, b, c] + [d] == [a, b, c, d];
    JoinMore([a, b, c, d], e);
    JoinMore([a, b, c, d, e], f);
    JoinMore([a, b, c, d, e, f], g);
    assert [a, b, c, d] + [e] == [a, b, c, d, e] && [a, b, c, d, e] + [f] == [a, b, c, d, e, f];
    assert [a, b, c, d, e, f] + [g] == [a, b, c, d, e, f, g];
  }

  lemma JoinMore(parts: seq<seq<FailureMode>>, last: seq<FailureMode>)
    ensures Joined(parts + [last]) == Joined(parts) + last
  {
    assert (parts + [last])[..|parts|] == parts;
  }

  // ---------------------------------------------------------------------------------------
  // Logic knots
  // ---------------------------------------------------------------------------------------

  datatype Knot = Knot(first: Id, second: Id, reason: string)

  function DuplicateReason(): string {
    "Duplicate" + " belief ID — " + "two accepted beliefs share the same identifier."
  }

  function ConflictReason(component: string): string {
    "Negation conflict in '" + component + "': contradictory MUST/MUST NOT claims."
  }

  function Subjects(c: Claim, pat: Patterns): set<string> {
    set p, w | p in c.propositions && w in pat.subjects(p) :: w
  }

  predicate HasMust(c: Claim, pat: Patterns) { exists p :: p in c.propositions && pat.hasMust(p) }

  predicate HasMustNot(c: Claim, pat: Patterns) { exists p :: p in c.propositions && pat.hasMustNot(p) }

  predicate NegationConflict(a: Claim, b: Claim, pat: Patterns) {
    && ((HasMust(a, pat) && HasMustNot(b, pat)) || (HasMustNot(a, pat) && HasMust(b, pat)))
    && |Subjects(a, pat) * Subjects(b, pat)| >= 2
  }

  function WithoutFailures(c: Claim): Claim { c.(failures := []) }

  /** What knots are looked for in: the accepted artifacts, whatever failures they have. */
  function Accepted(claims: seq<Claim>): seq<Claim> {
    if claims == [] then []
    else
      var last := claims[|claims| - 1];
      Accepted(claims[..|claims| - 1]) + (if last.IsAccepted() then [WithoutFailures(last)] else [])
  }

  function IdSet(claims: seq<Claim>): set<Id> { set c | c in claims :: c.id }

  /** A knot for every accepted artifact whose id came before. */
  function DuplicateKnots(accepted: seq<Claim>): seq<Knot> {
    if accepted == [] then []
    else
      var front, id := accepted[..|accepted| - 1], accepted[|accepted| - 1].id;
      DuplicateKnots(front) + (if id in IdSet(front) then [Knot(id, id, DuplicateReason())] else [])
  }

  type Groups = Dict<string, seq<Claim>>

  function AddToGroup(d: Groups, c: Claim): (r: Groups)
    requires d.Valid()
    ensures r.Valid()
  {
    d.Put(c.component, (if c.component in d.at then d.at[c.component] else []) + [c])
  }

  /** Artifacts by component, in order of first appearance. */
  function ByComponent(accepted: seq<Claim>): (d: Groups)
    ensures d.Valid()
  {
    if accepted == [] then Empty() else AddToGroup(ByComponent(accepted[..|accepted| - 1]), accepted[|accepted| - 1])
  }

  function ConflictsWith(component: string, a: Claim, others: seq<Claim>, pat: Patterns): seq<Knot> {
    if others == [] then []
    else
      var last := others[|others| - 1];
      ConflictsWith(component, a, others[..|others| - 1], pat)
      + (if NegationConflict(a, last, pat) then [Knot(a.id, last.id, ConflictReason(component))] else [])
  }

  /** Conflicts of the first `n` artifacts of a group with those after them. */
  function Conflicts(component: string, group: seq<Claim>, n: nat, pat: Patterns): seq<Knot>
    requires n <= |group|
  {
    if n == 0 then []
    else Conflicts(component, group, n - 1, pat) + ConflictsWith(component, group[n - 1], group[n..], pat)
  }

  function ConflictKnots(d: Groups, order: seq<string>, pat: Patterns): seq<Knot>
    requires forall comp :: comp in order ==> comp in d.at
  {
    if order == [] then []
    else
      var comp := order[|order| - 1];
      ConflictKnots(d, order[..|order| - 1], pat)
      + (if comp == "" then [] else Conflicts(comp, d.at[comp], |d.at[comp]|, pat))
  }

  function Knots(claims: seq<Claim>, pat: Patterns): seq<Knot> {
    var accepted := Accepted(claims);
    DuplicateKnots(accepted) + ConflictKnots(ByComponent(accepted), ByComponent(accepted).order, pat)
  }

  // ---------------------------------------------------------------------------------------
  // What a run finds
  // ---------------------------------------------------------------------------------------

  datatype StressTestResult = StressTestResult(
    tested: nat, failures: seq<FailureMode>, knots: seq<Knot>, equilibrium: bool)

  /** What is raised on the first `n` elements, one after the other. */
  function AllRaised<T>(s: seq<T>, n: nat, raised: T -> seq<FailureMode>): seq<FailureMode>
    requires n <= |s|
  {
    if n == 0 then [] else AllRaised(s, n - 1, raised) + raised(s[n - 1])
  }

  function Raiser(covered: set<Id>, ids: set<Id>, pat: Patterns): Claim -> seq<FailureMode> {
    c => Raised(c, covered, ids, pat)
  }

  function CriticalCount(fms: seq<FailureMode>): nat {
    if fms == [] then 0 else CriticalCount(fms[..|fms| - 1]) + (if fms[|fms| - 1].severity == Critical then 1 else 0)
  }

  function Findings(claims: seq<Claim>, covered: set<Id>, pat: Patterns): StressTestResult {
    var failures := AllRaised(claims, |claims|, Raiser(covered, IdSet(claims), pat));
    var knots := Knots(claims, pat);
    StressTestResult(|claims|, failures, knots, CriticalCount(failures) == 0 && knots == [])
  }

  function Challenged(c: Claim, covered: set<Id>, ids: set<Id>, pat: Patterns): Claim {
    c.(failures := c.failures + Raised(c, covered, ids, pat))
  }

  ghost function Tested(claims: seq<Claim>, covered: set<Id>, pat: Patterns): (r: seq<Claim>)
    ensures |r| == |claims|
  {
    seq(|claims|, i requires 0 <= i < |claims| => Challenged(claims[i], covered, IdSet(claims), pat))
  }

  /** No object is listed twice. */
  ghost predicate Separate(artifacts: seq<BeliefArtifact>) { Distinct(artifacts) }

  lemma OthersDiffer<T>(s: seq<T>, i: nat)
    requires i < |s| && Distinct(s)
    ensures forall k :: 0 <= k < |s| && k != i ==> s[k] != s[i]
  {
    forall k | 0 <= k < |s| && k != i ensures s[k] != s[i] {
      assert IndexOf(s, s[k]) == k && IndexOf(s, s[i]) == i;
    }
  }

  method Run(artifacts: seq<BeliefArtifact>, covered: set<Id>, pat: Patterns) returns (result: StressTestResult)
    requires Separate(artifacts)
    modifies artifacts`failureModes
    ensures result == Findings(old(Claims(artifacts)), covered, pat)
    ensures Claims(artifacts) == Tested(old(Claims(artifacts)), covered, pat)
  {
    ghost var claims := Claims(artifacts);
    IdsOfClaims(artifacts);
    var ids := set a | a in artifacts :: a.artifactId;
    var failures := ChallengeAll(artifacts, covered, ids, pat);
    var knots := DetectLogicKnots(artifacts, pat);
    var critical := CountCritical(failures);
    TestedHasSameKnots(claims, covered, pat);
    result := StressTestResult(|artifacts|, failures, knots, critical == 0 && |knots| == 0);
  }

  method ChallengeAll(artifacts: seq<BeliefArtifact>, covered: set<Id>, ids: set<Id>, pat: Patterns)
    returns (failures: seq<FailureMode>)
    requires Separate(artifacts) && ids == IdSet(Claims(artifacts))
    modifies artifacts`failureModes
    ensures failures == AllRaised(old(Claims(artifacts)), |artifacts|, Raiser(covered, ids, pat))
    ensures Claims(artifacts) == Tested(old(Claims(artifacts)), covered, pat)
  {
    failures := ChallengeEach(artifacts, covered, ids, pat, Claims(artifacts), Raiser(covered, ids, pat));
  }

  /** `raised` gives what the challenges raise. */
  ghost predicate GivesRaised(raised: Claim -> seq<FailureMode>, covered: set<Id>, ids: set<Id>, pat: Patterns) {
    forall c {:trigger Raised(c, covered, ids, pat)} :: raised(c) == Raised(c, covered, ids, pat)
  }

  method ChallengeEach(artifacts: seq<BeliefArtifact>, covered: set<Id>, ids: set<Id>, pat: Patterns,
                       ghost claims: seq<Claim>, ghost raiser: Claim -> seq<FailureMode>)
    returns (failures: seq<FailureMode>)
    requires Separate(artifacts) && GivesRaised(raiser, covered, ids, pat)
    requires |claims| == |artifacts| && forall k :: 0 <= k < |artifacts| ==> artifacts[k].Snapshot() == claims[k]
    modifies artifacts`failureModes
    ensures failures == AllRaised(claims, |artifacts|, raiser)
    ensures forall k :: 0 <= k < |artifacts| ==>
      artifacts[k].failureModes == old(artifacts[k].failureModes) + raiser(claims[k])
  {
    failures := [];
    for i := 0 to |artifacts|
      invariant forall k :: 0 <= k < i ==>
        artifacts[k].failureModes == old(artifacts[k].failureModes) + raiser(claims[k])
      invariant forall k :: i <= k < |artifacts| ==> artifacts[k].Snapshot() == claims[k]
      invariant forall k :: i <= k < |artifacts| ==> artifacts[k].failureModes == old(artifacts[k].failureModes)
      invariant failures == AllRaised(claims, i, raiser)
    {
      OthersDiffer(artifacts, i);
      var raised := ChallengeOne(artifacts[i], covered, ids, pat, raiser);
      failures := failures + raised;
    }
  }

  method ChallengeOne(artifact: BeliefArtifact, covered: set<Id>, ids: set<Id>, pat: Patterns,
                      ghost raiser: Claim -> seq<FailureMode>)
    returns (raised: seq<FailureMode>)
    requires GivesRaised(raiser, covered, ids, pat)
    modifies artifact`failureModes
    ensures raised == raiser(old(artifact.Snapshot()))
    ensures artifact.failureModes == old(artifact.failureModes) + raised
  {
    raised := Challenges(artifact, covered, ids, pat);
    artifact.failureModes := artifact.failureModes + raised;
  }

  lemma {:induction false} SameAccepted(a: seq<Claim>, b: seq<Claim>)
    requires |a| == |b| && forall i :: 0 <= i < |a| ==> WithoutFailures(a[i]) == WithoutFailures(b[i])
    ensures Accepted(a) == Accepted(b)
  {
    if a != [] {
      var n := |a| - 1;
      SameAccepted(a[..n], b[..n]);
      assert WithoutFailures(a[n]) == WithoutFailures(b[n]);
    }
  }

  lemma TestedHasSameKnots(claims: seq<Claim>, covered: set<Id>, pat: Patterns)
    ensures Knots(Tested(claims, covered, pat), pat) == Knots(claims, pat)
  {
    SameAccepted(Tested(claims, covered, pat), claims);
  }

  lemma IdsOfClaims(artifacts: seq<BeliefArtifact>)
    ensures (set a | a in artifacts :: a.artifactId) == IdSet(Claims(artifacts))
  {
  }

  method CountCritical(fms: seq<FailureMode>) returns (n: nat)
    ensures n == CriticalCount(fms)
  {
    n := 0;
    for i := 0 to |fms|
      invariant n == CriticalCount(fms[..i])
    {
      assert fms[..i + 1][..i] == fms[..i];
      if fms[i].severity == Critical { n := n + 1; }
    }
    assert fms[..|fms|] == fms;
  }

  method Challenges(artifact: BeliefArtifact, covered: set<Id>, ids: set<Id>, pat: Patterns)
    returns (fms: seq<FailureMode>)
    ensures fms == Raised(artifact.Snapshot(), covered, ids, pat)
  {
    var c := artifact.Snapshot();
    var vague := ChallengeVagueness(artifact, pat);
    var dangling := ChallengeCircularLinks(artifact, ids, pat);
    JoinSeven(vague, MissingTest(c, covered, pat), MissingBoundary(c, pat), Compound(c, pat), MissingClaims(c, pat),
              WeakPriorities(c, pat), dangling);
    fms := vague + MissingTest(c, covered, pat) + MissingBoundary(c, pat) + Compound(c, pat) + MissingClaims(c, pat)
      + WeakPriorities(c, pat) + dangling;
  }

  method ChallengeVagueness(artifact: BeliefArtifact, pat: Patterns) returns (fms: seq<FailureMode>)
    ensures fms == Vagueness(artifact.artifactId, artifact.propositions, pat)
  {
    fms := [];
    var props := artifact.propositions;
    for i := 0 to |props|
      invariant fms == Vagueness(artifact.artifactId, props[..i], pat)
    {
      assert props[..i + 1][..i] == props[..i];
      fms := fms + VaguenessIn(artifact.artifactId, props[i], pat);
    }
    assert props[..|props|] == props;
  }

  method ChallengeCircularLinks(artifact: BeliefArtifact, ids: set<Id>, pat: Patterns) returns (fms: seq<FailureMode>)
    ensures fms == Dangling(artifact.artifactId, artifact.links, ids, pat)
  {
    fms := [];
    var links := artifact.links;
    for i := 0 to |links|
      invariant fms == Dangling(artifact.artifactId, links[..i], ids, pat)
    {
      assert links[..i + 1][..i] == links[..i];
      if links[i] !in ids && links[i] != artifact.artifactId {
        fms := fms + [Raise(artifact.artifactId, DanglingLink, pat)];
      }
    }
    assert links[..|links|] == links;
  }

  method DetectLogicKnots(artifacts: seq<BeliefArtifact>, pat: Patterns) returns (knots: seq<Knot>)
    ensures knots == Knots(Claims(artifacts), pat)
  {
    var accepted := AcceptedOnes(artifacts);
    var duplicates := FindDuplicates(accepted);
    var groups := GroupByComponent(accepted);
    var conflicts := FindConflicts(groups, pat);
    knots := duplicates + conflicts;
  }

  method AcceptedOnes(artifacts: seq<BeliefArtifact>) returns (accepted: seq<Claim>)
    ensures accepted == Accepted(Claims(artifacts))
  {
    accepted := [];
    ghost var claims := Claims(artifacts);
    for i := 0 to |artifacts|
      invariant accepted == Accepted(claims[..i])
    {
      assert claims[..i + 1][..i] == claims[..i];
      var c := artifacts[i].Snapshot();
      if c.IsAccepted() { accepted := accepted + [WithoutFailures(c)]; }
    }
    assert claims[..|claims|] == claims;
  }

  method FindDuplicates(accepted: seq<Claim>) returns (knots: seq<Knot>)
    ensures knots == DuplicateKnots(accepted)
  {
    knots := [];
    var seen: set<Id> := {};
    for i := 0 to |accepted|
      invariant seen == IdSet(accepted[..i])
      invariant knots == DuplicateKnots(accepted[..i])
    {
      assert accepted[..i + 1][..i] == accepted[..i];
      var id := accepted[i].id;
      if id in seen { knots := knots + [Knot(id, id, DuplicateReason())]; }
      IdSetNext(accepted, i);
      seen := seen + {id};
    }
    assert accepted[..|accepted|] == accepted;
  }

  lemma IdSetNext(claims: seq<Claim>, i: nat)
    requires i < |claims|
    ensures IdSet(claims[..i + 1]) == IdSet(claims[..i]) + {claims[i].id}
  {
    assert claims[..i + 1] == claims[..i] + [claims[i]];
  }

  method GroupByComponent(accepted: seq<Claim>) returns (groups: Groups)
    ensures groups == ByComponent(accepted)
  {
    groups := Empty();
    for i := 0 to |accepted|
      invariant groups == ByComponent(accepted[..i])
    {
      assert accepted[..i + 1][..i] == accepted[..i];
      groups := AddToGroup(groups, accepted[i]);
    }
    assert accepted[..|accepted|] == accepted;
  }

  method FindConflicts(groups: Groups, pat: Patterns) returns (knots: seq<Knot>)
    requires groups.Valid()
    ensures knots == ConflictKnots(groups, groups.order, pat)
  {
    knots := [];
    for n := 0 to |groups.order|
      invariant knots == ConflictKnots(groups, groups.order[..n], pat)
    {
      ConflictKnotsNext(groups, groups.order, n, pat);
      var comp := groups.order[n];
      if comp != "" {
        var found := ConflictsInGroup(comp, groups.at[comp], pat);
        knots := knots + found;
      }
    }
    assert groups.order[..|groups.order|] == groups.order;
  }

  lemma ConflictKnotsNext(d: Groups, order: seq<string>, n: nat, pat: Patterns)
    requires n < |order| && forall comp :: comp in order ==> comp in d.at
    ensures ConflictKnots(d, order[..n + 1], pat) == ConflictKnots(d, order[..n], pat)
      + (if order[n] == "" then [] else Conflicts(order[n], d.at[order[n]], |d.at[order[n]]|, pat))
  {
    assert order[..n + 1][..n] == order[..n];
  }

  method ConflictsInGroup(comp: string, group: seq<Claim>, pat: Patterns) returns (knots: seq<Knot>)
    ensures knots == Conflicts(comp, group, |group|, pat)
  {
    knots := [];
    for i := 0 to |group|
      invariant knots == Conflicts(comp, group, i, pat)
    {
      var found := ConflictsWithRest(comp, group[i], group[i + 1..], pat);
      knots := knots + found;
    }
  }

  method ConflictsWithRest(comp: string, a: Claim, others: seq<Claim>, pat: Patterns) returns (knots: seq<Knot>)
    ensures knots == ConflictsWith(comp, a, others, pat)
  {
    knots := [];
    for j := 0 to |others|
      invariant knots == ConflictsWith(comp, a, others[..j], pat)
    {
      assert others[..j + 1][..j] == others[..j];
      if NegationConflict(a, others[j], pat) {
        knots := knots + [Knot(a.id, others[j].id, ConflictReason(comp))];
      }
    }
    assert others[..|others|] == others;
  }
}
