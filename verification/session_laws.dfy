/** How the verdicts of a session's pipeline agree, and what running it again gives. */
module SessionLaws {
  import opened StableSort
  import opened WeakestLink
  import opened Belief
  import opened Certainty
  import opened StressTester
  import opened StressLaws
  import opened FailureGraph
  import opened Recovery
  import opened RecoveryLaws
  import opened Text
  import Session

  // ---------------------------------------------------------------------------------------
  // What the tester leaves on an artifact
  // ---------------------------------------------------------------------------------------

  ghost predicate Known(fm: FailureMode) { !fm.resolved && OnSomething(fm.challenge, fm.severity == Critical) }

  ghost predicate AllKnown(fms: seq<FailureMode>) { forall i :: 0 <= i < |fms| ==> Known(fms[i]) }

  /** The tester's own wording. */
  ghost predicate OwnWording(pat: Patterns) { forall ch :: pat.wording(ch) == Wording(ch) }

  lemma RaiseIsKnown(id: Id, ch: Challenge, pat: Patterns)
    requires OwnWording(pat)
    ensures Known(Raise(id, ch, pat)) && AllKnown([Raise(id, ch, pat)])
  {
    WordingIsKnown(ch);
    assert pat.wording(ch) == Wording(ch);
  }

  lemma KnownConcat(a: seq<FailureMode>, b: seq<FailureMode>)
    requires AllKnown(a) && AllKnown(b)
    ensures AllKnown(a + b)
  {
  }

  lemma {:induction false} VaguenessIsKnown(id: Id, propositions: seq<string>, pat: Patterns)
    requires OwnWording(pat)
    ensures AllKnown(Vagueness(id, propositions, pat))
  {
    if propositions != [] {
      var n := |propositions| - 1;
      VaguenessIsKnown(id, propositions[..n], pat);
      RaiseIsKnown(id, VagueTerm, pat);
      RaiseIsKnown(id, VagueQuantity, pat);
      KnownConcat(Vagueness(id, propositions[..n], pat), VaguenessIn(id, propositions[n], pat));
    }
  }

  lemma {:induction false} DanglingIsKnown(id: Id, links: seq<Id>, ids: set<Id>, pat: Patterns)
    requires OwnWording(pat)
    ensures AllKnown(Dangling(id, links, ids, pat))
  {
    if links != [] {
      DanglingIsKnown(id, links[..|links| - 1], ids, pat);
      RaiseIsKnown(id, DanglingLink, pat);
    }
  }

  lemma SinglesAreKnown(c: Claim, covered: set<Id>, pat: Patterns)
    requires OwnWording(pat)
    ensures AllKnown(MissingTest(c, covered, pat)) && AllKnown(MissingBoundary(c, pat)) && AllKnown(Compound(c, pat))
    ensures AllKnown(MissingClaims(c, pat)) && AllKnown(WeakPriorities(c, pat))
  {
    RaiseIsKnown(c.id, NoTest, pat);
    RaiseIsKnown(c.id, NoBoundary, pat);
    RaiseIsKnown(c.id, TooManyClaims, pat);
    RaiseIsKnown(c.id, CompoundClaim, pat);
    RaiseIsKnown(c.id, NoClaims, pat);
    RaiseIsKnown(c.id, WeakPriority, pat);
  }

  lemma RaisedIsKnown(c: Claim, covered: set<Id>, ids: set<Id>, pat: Patterns)
    requires OwnWording(pat)
    ensures AllKnown(Raised(c, covered, ids, pat))
  {
    VaguenessIsKnown(c.id, c.propositions, pat);
    DanglingIsKnown(c.id, c.links, ids, pat);
    SinglesAreKnown(c, covered, pat);
    SevenAreKnown(Vagueness(c.id, c.propositions, pat), MissingTest(c, covered, pat), MissingBoundary(c, pat),
                  Compound(c, pat), MissingClaims(c, pat), WeakPriorities(c, pat), Dangling(c.id, c.links, ids, pat));
  }

  lemma SevenAreKnown(a: seq<FailureMode>, b: seq<FailureMode>, c: seq<FailureMode>, d: seq<FailureMode>,
                      e: seq<FailureMode>, f: seq<FailureMode>, g: seq<FailureMode>)
    requires AllKnown(a) && AllKnown(b) && AllKnown(c) && AllKnown(d) && AllKnown(e) && AllKnown(f) && AllKnown(g)
    ensures AllKnown(Joined([a, b, c, d, e, f, g]))
  {
    JoinedIsKnown([a, b, c, d, e, f, g]);
  }

  lemma {:induction false} JoinedIsKnown(parts: seq<seq<FailureMode>>)
    requires forall i :: 0 <= i < |parts| ==> AllKnown(parts[i])
    ensures AllKnown(Joined(parts))
  {
    if parts != [] {
      JoinedIsKnown(parts[..|parts| - 1]);
      KnownConcat(Joined(parts[..|parts| - 1]), parts[|parts| - 1]);
    }
  }

  // ---------------------------------------------------------------------------------------
  // The verdict of the graph
  // ---------------------------------------------------------------------------------------

  lemma {:induction false} NoCriticalSeverity(fms: seq<FailureMode>)
    ensures CriticalCount(fms) == 0 <==> forall i :: 0 <= i < |fms| ==> fms[i].severity != Critical
  {
    if fms != [] { NoCriticalSeverity(fms[..|fms| - 1]); }
  }

  lemma NoCriticalFailures(fms: seq<FailureMode>)
    requires AllKnown(fms)
    ensures |CriticalFailures(fms)| == 0 <==> CriticalCount(fms) == 0
  {
    NoCriticalSeverity(fms);
    if |CriticalFailures(fms)| > 0 {
      var fm := CriticalFailures(fms)[0];
      assert fm in fms && IsCritical(fm);
    }
    if CriticalCount(fms) > 0 {
      var i :| 0 <= i < |fms| && fms[i].severity == Critical;
      assert Known(fms[i]);
      assert fms[i] in CriticalFailures(fms);
    }
  }

  /** A claim as a run starts with it. */
  predicate Fresh(c: Claim) { c.failures == [] }

  ghost predicate AllFresh(claims: seq<Claim>) { forall i :: 0 <= i < |claims| ==> Fresh(claims[i]) }

  lemma NodeIsCalmIff(c: Claim, covered: set<Id>, ids: set<Id>, pat: Patterns)
    requires Fresh(c) && OwnWording(pat)
    ensures AllKnown(Challenged(c, covered, ids, pat).failures)
    ensures NodeOf(Challenged(c, covered, ids, pat)).criticals == 0 <==> !Stops(c, pat)
  {
    var raised := Raised(c, covered, ids, pat);
    RaisedIsKnown(c, covered, ids, pat);
    NoCriticalFailures(raised);
    RaisedCriticals(c, covered, ids, pat);
    assert [] + raised == raised;
  }

  /** No later claim has the same id. */
  ghost predicate IsLast(claims: seq<Claim>, k: nat) {
    k < |claims| && forall j :: k < j < |claims| ==> claims[j].id != claims[k].id
  }

  lemma {:induction false} LastOfId(claims: seq<Claim>, id: Id) returns (k: nat)
    requires id in Indexed(claims).at
    ensures IsLast(claims, k) && claims[k].id == id && Indexed(claims).at[id] == claims[k]
  {
    var n := |claims| - 1;
    if claims[n].id == id { return n; }
    k := LastOfId(claims[..n], id);
    forall j | k < j < |claims| ensures claims[j].id != claims[k].id {
      if j < n { assert claims[j] == claims[..n][j]; }
    }
  }

  lemma LastIsIndexed(claims: seq<Claim>, k: nat)
    requires IsLast(claims, k)
    ensures claims[k].id in Indexed(claims).at && Indexed(claims).at[claims[k].id] == claims[k]
  {
    IndexedKeys(claims);
    assert claims[k] in claims;
    var j := LastOfId(claims, claims[k].id);
    assert j == k;
  }

  ghost predicate Calm(nodes: Nodes) { forall id :: id in nodes.at ==> nodes.at[id].criticals == 0 }

  ghost predicate LastOnesGoOn(claims: seq<Claim>, pat: Patterns) {
    forall k: nat :: IsLast(claims, k) ==> !Stopper(pat)(claims[k])
  }

  lemma CalmGoesOn(bare: seq<Claim>, covered: set<Id>, pat: Patterns, nodes: Nodes, edges: seq<Edge>,
                   knots: seq<Knot>, k: nat)
    requires AllFresh(bare) && OwnWording(pat) && IsLast(bare, k)
    requires Dressed(nodes, BareNodes(Tested(bare, covered, pat)), edges, knots)
    ensures bare[k].id in nodes.at && (nodes.at[bare[k].id].criticals == 0 <==> !Stops(bare[k], pat))
  {
    var tested := Tested(bare, covered, pat);
    TestedIsLast(bare, covered, pat, k);
    LastIsIndexed(tested, k);
    NodeIsCalmIff(bare[k], covered, IdSet(bare), pat);
  }

  lemma TestedIsLast(bare: seq<Claim>, covered: set<Id>, pat: Patterns, k: nat)
    ensures IsLast(Tested(bare, covered, pat), k) <==> IsLast(bare, k)
  {
    var tested := Tested(bare, covered, pat);
    forall j | 0 <= j < |bare| ensures tested[j].id == bare[j].id {}
  }

  lemma NodeHasLast(bare: seq<Claim>, covered: set<Id>, pat: Patterns, id: Id) returns (k: nat)
    requires id in BareNodes(Tested(bare, covered, pat)).at
    ensures IsLast(bare, k) && bare[k].id == id
  {
    k := LastOfId(Tested(bare, covered, pat), id);
    TestedIsLast(bare, covered, pat, k);
  }

  /** Only the last artifact of each id counts in the graph. */
  lemma GraphIsCalmIff(bare: seq<Claim>, covered: set<Id>, pat: Patterns, nodes: Nodes, edges: seq<Edge>,
                       knots: seq<Knot>)
    requires AllFresh(bare) && OwnWording(pat)
    requires Dressed(nodes, BareNodes(Tested(bare, covered, pat)), edges, knots)
    ensures Calm(nodes) <==> LastOnesGoOn(bare, pat)
  {
    if Calm(nodes) {
      forall k: nat | IsLast(bare, k) ensures !Stopper(pat)(bare[k]) {
        CalmGoesOn(bare, covered, pat, nodes, edges, knots, k);
      }
    }
    if LastOnesGoOn(bare, pat) {
      forall id | id in nodes.at ensures nodes.at[id].criticals == 0 {
        var k := NodeHasLast(bare, covered, pat, id);
        CalmGoesOn(bare, covered, pat, nodes, edges, knots, k);
        assert !Stopper(pat)(bare[k]);
      }
    }
  }

  /** The stress result and the graph give the same verdict if and only if there are knots, or no
      artifact stops, or one that is the last of its id does: an artifact listed again under the
      same id is forgotten by the graph, together with its critical failures. */
  lemma VerdictsAgreeIff(bare: seq<Claim>, covered: set<Id>, pat: Patterns, nodes: Nodes, edges: seq<Edge>)
    requires AllFresh(bare) && OwnWording(pat)
    requires Dressed(nodes, BareNodes(Tested(bare, covered, pat)), edges, Knots(bare, pat))
    ensures ((Knots(bare, pat) == [] && Calm(nodes)) <==> Findings(bare, covered, pat).equilibrium)
      <==> (Knots(bare, pat) != [] || NoneStops(bare, pat) || !LastOnesGoOn(bare, pat))
  {
    GraphIsCalmIff(bare, covered, pat, nodes, edges, Knots(bare, pat));
    NoCriticalsIff(bare, covered, IdSet(bare), pat);
  }

  ghost predicate UniqueIds(claims: seq<Claim>) { forall k: nat :: k < |claims| ==> IsLast(claims, k) }

  lemma UniqueIdsAgree(bare: seq<Claim>, covered: set<Id>, pat: Patterns, nodes: Nodes, edges: seq<Edge>)
    requires AllFresh(bare) && OwnWording(pat) && UniqueIds(bare)
    requires Dressed(nodes, BareNodes(Tested(bare, covered, pat)), edges, Knots(bare, pat))
    ensures (Knots(bare, pat) == [] && Calm(nodes)) <==> Findings(bare, covered, pat).equilibrium
  {
    VerdictsAgreeIff(bare, covered, pat, nodes, edges);
    if !NoneStops(bare, pat) {
      var k: nat :| k < |bare| && Stopper(pat)(bare[k]);
      assert IsLast(bare, k);
    }
  }

  function DraftOf(id: Id, propositions: seq<string>): Claim {
    Claim(id, propositions, [], [], MEDIUM, Draft, [], "", "")
  }

  /** Two drafts of one id, the first without propositions: the tester finds a critical failure,
      the graph is calm. */
  lemma VerdictsDiffer(id: Id, proposition: string, covered: set<Id>, pat: Patterns, nodes: Nodes, edges: seq<Edge>)
    requires OwnWording(pat)
    requires var bare := [DraftOf(id, []), DraftOf(id, [proposition])];
      Dressed(nodes, BareNodes(Tested(bare, covered, pat)), edges, Knots(bare, pat))
    ensures var bare := [DraftOf(id, []), DraftOf(id, [proposition])];
      Knots(bare, pat) == [] && Calm(nodes) && !Findings(bare, covered, pat).equilibrium
  {
    var bare := [DraftOf(id, []), DraftOf(id, [proposition])];
    KnotsIff(bare, pat);
    assert Stopper(pat)(bare[0]);
    NoCriticalsIff(bare, covered, IdSet(bare), pat);
    forall k: nat | IsLast(bare, k) ensures !Stopper(pat)(bare[k]) {
      assert bare[1].id == bare[0].id;
    }
    GraphIsCalmIff(bare, covered, pat, nodes, edges, Knots(bare, pat));
  }

  // ---------------------------------------------------------------------------------------
  // Proposals
  // ---------------------------------------------------------------------------------------

  lemma UrgentConcat(a: seq<Proposal>, b: seq<Proposal>)
    ensures HasUrgent(a + b) <==> HasUrgent(a) || HasUrgent(b)
  {
    var s := a + b;
    if HasUrgent(a) {
      var i :| 0 <= i < |a| && IsUrgent(a[i]);
      assert IsUrgent(s[i]);
    }
    if HasUrgent(b) {
      var i :| 0 <= i < |b| && IsUrgent(b[i]);
      assert IsUrgent(s[|a| + i]);
    }
  }

  lemma {:induction false} UnresolvedIsAll(fms: seq<FailureMode>)
    requires AllKnown(fms)
    ensures Unresolved(fms) == fms
  {
    if fms != [] {
      assert Known(fms[0]);
      assert AllKnown(fms[1..]) by {
        forall i | 0 <= i < |fms[1..]| ensures Known(fms[1..][i]) { assert Known(fms[i + 1]); }
      }
      UnresolvedIsAll(fms[1..]);
    }
  }

  /** Every known failure gets a proposal; urgent ones come from critical failures. */
  lemma {:induction false} KnownAreHandled(c: Claim, fms: seq<FailureMode>)
    requires AllKnown(fms)
    ensures ForFailures(c, fms) == [] <==> fms == []
    ensures CriticalCount(fms) > 0 ==> HasUrgent(ForFailures(c, fms))
    ensures HasUrgent(ForFailures(c, fms)) ==> CriticalCount(fms) > 0 || c.propositions == []
  {
    if fms != [] {
      var n := |fms| - 1;
      assert Known(fms[n]);
      KnownAreHandled(c, fms[..n]);
      KnownIsHandled(c, fms[n]);
      UrgentConcat(ForFailures(c, fms[..n]), ForFailure(c, fms[n]));
    }
  }

  /** A tested artifact gets proposals if and only if it has failures, urgent ones if and only if
      it stops. */
  lemma TestedGets(c: Claim, covered: set<Id>, ids: set<Id>, pat: Patterns)
    requires Fresh(c) && OwnWording(pat)
    ensures var t := Challenged(c, covered, ids, pat);
      && (ForClaim(t) == [] <==> Raised(c, covered, ids, pat) == [])
      && (HasUrgent(ForClaim(t)) <==> Stops(c, pat))
  {
    var t, raised := Challenged(c, covered, ids, pat), Raised(c, covered, ids, pat);
    RaisedIsKnown(c, covered, ids, pat);
    assert [] + raised == raised;
    UnresolvedIsAll(raised);
    KnownAreHandled(t, raised);
    RaisedCriticals(c, covered, ids, pat);
  }

  lemma {:induction false} GatheredHas<T(!new)>(s: seq<T>, n: nat, proposals: T -> seq<Proposal>)
    requires n <= |s|
    ensures Gathered(s, n, proposals) == [] <==> forall k :: 0 <= k < n ==> proposals(s[k]) == []
    ensures HasUrgent(Gathered(s, n, proposals)) <==> exists k :: 0 <= k < n && HasUrgent(proposals(s[k]))
  {
    if n > 0 {
      GatheredHas(s, n - 1, proposals);
      UrgentConcat(Gathered(s, n - 1, proposals), proposals(s[n - 1]));
    }
  }

  lemma {:induction false} KnotsAreUrgent(knots: seq<Knot>)
    ensures |ForKnots(knots)| == |knots|
    ensures HasUrgent(ForKnots(knots)) <==> knots != []
  {
    if knots != [] {
      var n := |knots| - 1;
      KnotsAreUrgent(knots[..n]);
      UrgentConcat(ForKnots(knots[..n]), [ForKnot(knots[n])]);
      assert IsUrgent([ForKnot(knots[n])][0]);
    }
  }

  lemma SortKeepsUrgent(ps: seq<Proposal>)
    ensures HasUrgent(Sort(ps, MoreUrgent)) <==> HasUrgent(ps)
  {
    SameElements(ps, MoreUrgent);
    var sorted := Sort(ps, MoreUrgent);
    if HasUrgent(ps) {
      var i :| 0 <= i < |ps| && IsUrgent(ps[i]);
      assert ps[i] in sorted;
    }
    if HasUrgent(sorted) {
      var i :| 0 <= i < |sorted| && IsUrgent(sorted[i]);
      assert sorted[i] in ps;
    }
  }

  lemma {:induction false} NothingRaisedIff<T(!new)>(s: seq<T>, n: nat, raised: T -> seq<FailureMode>)
    requires n <= |s|
    ensures AllRaised(s, n, raised) == [] <==> forall k :: 0 <= k < n ==> raised(s[k]) == []
  {
    if n > 0 { NothingRaisedIff(s, n - 1, raised); }
  }

  lemma EmptyAlike<S(!new), T(!new)>(s: seq<S>, proposals: S -> seq<Proposal>, t: seq<T>, raised: T -> seq<FailureMode>)
    requires |s| == |t| && forall k :: 0 <= k < |s| ==> (proposals(s[k]) == [] <==> raised(t[k]) == [])
    ensures Gathered(s, |s|, proposals) == [] <==> AllRaised(t, |t|, raised) == []
  {
    GatheredHas(s, |s|, proposals);
    NothingRaisedIff(t, |t|, raised);
  }

  lemma ClaimsGetSome(bare: seq<Claim>, covered: set<Id>, pat: Patterns)
    requires AllFresh(bare) && OwnWording(pat)
    ensures ForClaims(Tested(bare, covered, pat)) == [] <==> Findings(bare, covered, pat).failures == []
  {
    var tested, raiser := Tested(bare, covered, pat), Raiser(covered, IdSet(bare), pat);
    forall k | 0 <= k < |bare| ensures ForClaim(tested[k]) == [] <==> raiser(bare[k]) == [] {
      TestedGets(bare[k], covered, IdSet(bare), pat);
    }
    EmptyAlike(tested, ForClaim, bare, raiser);
  }

  lemma ClaimsGetUrgent(bare: seq<Claim>, covered: set<Id>, pat: Patterns)
    requires AllFresh(bare) && OwnWording(pat)
    ensures HasUrgent(ForClaims(Tested(bare, covered, pat))) <==> !NoneStops(bare, pat)
  {
    var tested := Tested(bare, covered, pat);
    GatheredHas(tested, |tested|, ForClaim);
    forall k | 0 <= k < |bare| ensures HasUrgent(ForClaim(tested[k])) <==> Stopper(pat)(bare[k]) {
      TestedGets(bare[k], covered, IdSet(bare), pat);
    }
  }

  /** No proposals are made if and only if the tester found nothing at all, so no proposals mean
      equilibrium. */
  lemma NoProposalsIff(bare: seq<Claim>, covered: set<Id>, pat: Patterns)
    requires AllFresh(bare) && OwnWording(pat)
    ensures var r := Findings(bare, covered, pat);
      && (Proposed(Tested(bare, covered, pat), r.knots) == [] <==> r.failures == [] && r.knots == [])
      && (Proposed(Tested(bare, covered, pat), r.knots) == [] ==> r.equilibrium)
  {
    ClaimsGetSome(bare, covered, pat);
    KnotsAreUrgent(Findings(bare, covered, pat).knots);
  }

  lemma UrgencyRanks()
    ensures Ranks(MoreUrgent)
  {
  }

  /** Proposals come in the order of their priorities. */
  lemma UrgentFirst(claims: seq<Claim>, knots: seq<Knot>, i: nat, j: nat)
    requires i < j < |Proposed(claims, knots)|
    ensures Proposed(claims, knots)[i].priority <= Proposed(claims, knots)[j].priority
  {
    UrgencyRanks();
    SortIsSorted(ForClaims(claims) + ForKnots(knots), MoreUrgent);
    SortedPairs(Proposed(claims, knots), MoreUrgent, i, j);
  }

  /** The proposals come most urgent first, and there is equilibrium if and only if the first one,
      if any, is not of priority 1. */
  lemma EquilibriumIffNotUrgent(bare: seq<Claim>, covered: set<Id>, pat: Patterns)
    requires AllFresh(bare) && OwnWording(pat)
    ensures var r := Findings(bare, covered, pat);
      var ps := Proposed(Tested(bare, covered, pat), r.knots);
      Sorted(ps, MoreUrgent) && (r.equilibrium <==> !HasUrgent(ps))
  {
    var r := Findings(bare, covered, pat);
    var all := ForClaims(Tested(bare, covered, pat)) + ForKnots(r.knots);
    UrgencyRanks();
    SortIsSorted(all, MoreUrgent);
    SortKeepsUrgent(all);
    UrgentConcat(ForClaims(Tested(bare, covered, pat)), ForKnots(r.knots));
    ClaimsGetUrgent(bare, covered, pat);
    KnotsAreUrgent(r.knots);
    NoCriticalsIff(bare, covered, IdSet(bare), pat);
  }

  // ---------------------------------------------------------------------------------------
  // Running again
  // ---------------------------------------------------------------------------------------

  lemma {:induction false} ClearedAfter(claims: seq<Claim>, after: seq<Claim>, n: nat, acceptedOnly: bool,
                                        covered: set<Id>, ids: set<Id>, pat: Patterns)
    requires n <= |claims| == |after|
    requires forall i :: 0 <= i < |claims| ==>
      after[i] == Session.AfterRunAt(claims[i], acceptedOnly, covered, ids, pat)
    ensures Session.Cleared(after[..n], acceptedOnly) == Session.Cleared(claims[..n], acceptedOnly)
  {
    if n > 0 {
      ClearedAfter(claims, after, n - 1, acceptedOnly, covered, ids, pat);
      assert claims[..n][..n - 1] == claims[..n - 1] && after[..n][..n - 1] == after[..n - 1];
    }
  }

  /** Running again starts from the same claims, so it finds the same failures, knots, scores and
      proposals, and leaves the artifacts as the first run left them. */
  lemma RunAgain(claims: seq<Claim>, acceptedOnly: bool, covered: set<Id>, pat: Patterns)
    ensures var after := Session.AfterRun(claims, acceptedOnly, covered, pat);
      && Session.Cleared(after, acceptedOnly) == Session.Cleared(claims, acceptedOnly)
      && Session.AfterRun(after, acceptedOnly, covered, pat) == after
  {
    var after := Session.AfterRun(claims, acceptedOnly, covered, pat);
    var ids := IdSet(Session.Cleared(claims, acceptedOnly));
    ClearedAfter(claims, after, |claims|, acceptedOnly, covered, ids, pat);
    assert claims[..|claims|] == claims && after[..|after|] == after;
    forall i | 0 <= i < |claims| ensures Session.AfterRunAt(after[i], acceptedOnly, covered, ids, pat) == after[i] {
      SameAgain(claims[i], acceptedOnly, covered, ids, pat);
    }
  }

  lemma SameAgain(c: Claim, acceptedOnly: bool, covered: set<Id>, ids: set<Id>, pat: Patterns)
    ensures var after := Session.AfterRunAt(c, acceptedOnly, covered, ids, pat);
      Session.AfterRunAt(after, acceptedOnly, covered, ids, pat) == after
  {
    var after := Session.AfterRunAt(c, acceptedOnly, covered, ids, pat);
    assert WithoutFailures(after) == WithoutFailures(c);
  }

  /** What a run works on is fresh. */
  lemma {:induction false} ClearedIsFresh(claims: seq<Claim>, acceptedOnly: bool)
    ensures AllFresh(Session.Cleared(claims, acceptedOnly))
  {
    if claims != [] { ClearedIsFresh(claims[..|claims| - 1], acceptedOnly); }
  }

  /** The boundary a session fills in counts as a stated one, so a belief added without a boundary
      is never told that it lacks one. */
  lemma FilledInBoundaryCounts(c: Claim, pat: Patterns)
    requires c.boundary == [Session.DEFAULT_BOUNDARY]
    ensures MissingBoundary(c, pat) == []
  {
    var b := Session.DEFAULT_BOUNDARY;
    assert !IsSpace(b[0]) && !IsSpace(b[|b| - 1]);
    assert Strip(b) == b;
    assert b in c.boundary && States(b);
  }

  // ---------------------------------------------------------------------------------------
  // Edges
  // ---------------------------------------------------------------------------------------

  lemma {:induction false} LinkIsEdge(id: Id, links: seq<Id>, known: set<Id>, e: Edge)
    ensures e in EdgesOf(id, links, known) <==> e.from == id && e.to in links && e.to in known
  {
    if links != [] {
      assert links == links[..|links| - 1] + [links[|links| - 1]];
      LinkIsEdge(id, links[..|links| - 1], known, e);
    }
  }

  /** The graph has an edge for every link of an artifact to a known one, and no other. */
  lemma {:induction false} EdgeIff(claims: seq<Claim>, known: set<Id>, e: Edge)
    ensures e in Edges(claims, known)
      <==> exists i :: 0 <= i < |claims| && claims[i].id == e.from && e.to in claims[i].links && e.to in known
  {
    if claims != [] {
      var n := |claims| - 1;
      EdgeIff(claims[..n], known, e);
      LinkIsEdge(claims[n].id, claims[n].links, known, e);
      forall i | 0 <= i < n ensures claims[..n][i] == claims[i] {}
    }
  }

  /** A node's children are the artifacts that link to it. */
  lemma {:induction false} SourceIff(edges: seq<Edge>, id: Id, from: Id)
    ensures from in Sources(edges, id) <==> Edge(from, id) in edges
  {
    if edges != [] {
      assert edges == edges[..|edges| - 1] + [edges[|edges| - 1]];
      SourceIff(edges[..|edges| - 1], id, from);
    }
  }

  // ---------------------------------------------------------------------------------------
  // Which artifacts a run works on
  // ---------------------------------------------------------------------------------------

  predicate Chosen(c: Claim, acceptedOnly: bool) {
    acceptedOnly ==> c.status in {BeliefStatus.Accepted, StressTested, Reconstructed}
  }

  /** A run works on exactly the chosen artifacts, in order and without their failures. */
  lemma {:induction false} ClearedAre(claims: seq<Claim>, acceptedOnly: bool) returns (at: seq<nat>)
    ensures var bare := Session.Cleared(claims, acceptedOnly);
      && |at| == |bare|
      && (forall k :: 0 <= k < |at| ==>
            at[k] < |claims| && Chosen(claims[at[k]], acceptedOnly) && bare[k] == claims[at[k]].(failures := []))
    ensures forall j, k :: 0 <= j < k < |at| ==> at[j] < at[k]
    ensures forall i :: 0 <= i < |claims| && Chosen(claims[i], acceptedOnly) ==> i in at
  {
    at := [];
    if claims != [] {
      var n := |claims| - 1;
      at := ClearedAre(claims[..n], acceptedOnly);
      forall i | 0 <= i < n && Chosen(claims[i], acceptedOnly) ensures i in at { assert claims[..n][i] == claims[i]; }
      if Chosen(claims[n], acceptedOnly) { at := at + [n]; }
    }
  }

  // ---------------------------------------------------------------------------------------
  // Nodes
  // ---------------------------------------------------------------------------------------

  function OpenCriticals(fms: seq<FailureMode>): nat {
    if fms == [] then 0
    else
      var last := fms[|fms| - 1];
      OpenCriticals(fms[..|fms| - 1]) + (if last.severity == Critical && !last.resolved then 1 else 0)
  }

  lemma {:induction false} CriticalsConcat(a: seq<FailureMode>, b: seq<FailureMode>)
    ensures CriticalFailures(a + b) == CriticalFailures(a) + CriticalFailures(b)
  {
    if a == [] {
      assert a + b == b;
    } else {
      assert (a + b)[1..] == a[1..] + b;
      CriticalsConcat(a[1..], b);
    }
  }

  lemma {:induction false} CriticalsAreCounted(fms: seq<FailureMode>)
    ensures |CriticalFailures(fms)| == OpenCriticals(fms)
  {
    if fms != [] {
      var front, last := fms[..|fms| - 1], fms[|fms| - 1];
      CriticalsAreCounted(front);
      assert fms == front + [last] && [last][1..] == [];
      CriticalsConcat(front, [last]);
    }
  }

  /** The node of an id counts the failures of the last artifact with it, and the open critical ones
      among them. */
  lemma NodeCounts(claims: seq<Claim>, k: nat)
    requires k < |claims| && forall j :: k < j < |claims| ==> claims[j].id != claims[k].id
    ensures claims[k].id in BareNodes(claims).at
    ensures var node := BareNodes(claims).at[claims[k].id];
      node.failures == |claims[k].failures| && node.criticals == OpenCriticals(claims[k].failures)
  {
    LastIsIndexed(claims, k);
    CriticalsAreCounted(claims[k].failures);
  }

  /** A node's partner is the other side of the last knot that names it. */
  lemma {:induction false} PartnerIsLast(knots: seq<Knot>, id: Id, k: nat)
    requires k < |knots| && (knots[k].first == id || knots[k].second == id)
    requires forall j :: k < j < |knots| ==> knots[j].first != id && knots[j].second != id
    ensures PartnerOf(knots, id) == if knots[k].second == id then knots[k].first else knots[k].second
  {
    if k < |knots| - 1 { PartnerIsLast(knots[..|knots| - 1], id, k); }
  }

  lemma {:induction false} NoPartner(knots: seq<Knot>, id: Id)
    requires forall j :: 0 <= j < |knots| ==> knots[j].first != id && knots[j].second != id
    ensures PartnerOf(knots, id) == ""
  {
    if knots != [] { NoPartner(knots[..|knots| - 1], id); }
  }

  // ---------------------------------------------------------------------------------------
  // All proposals
  // ---------------------------------------------------------------------------------------

  lemma {:induction false} FailureProposals(c: Claim, fms: seq<FailureMode>, p: Proposal)
    ensures p in ForFailures(c, fms) <==> exists i :: 0 <= i < |fms| && p in ForFailure(c, fms[i])
  {
    if fms != [] {
      var n := |fms| - 1;
      FailureProposals(c, fms[..n], p);
      forall i | 0 <= i < n ensures fms[..n][i] == fms[i] {}
    }
  }

  lemma {:induction false} GatheredIff<T(!new)>(s: seq<T>, n: nat, proposals: T -> seq<Proposal>, p: Proposal)
    requires n <= |s|
    ensures p in Gathered(s, n, proposals) <==> exists i :: 0 <= i < n && p in proposals(s[i])
  {
    if n > 0 { GatheredIff(s, n - 1, proposals, p); }
  }

  lemma {:induction false} KnotProposals(knots: seq<Knot>, p: Proposal)
    ensures p in ForKnots(knots) <==> exists i :: 0 <= i < |knots| && p == ForKnot(knots[i])
  {
    if knots != [] {
      var n := |knots| - 1;
      KnotProposals(knots[..n], p);
      forall i | 0 <= i < n ensures knots[..n][i] == knots[i] {}
    }
  }

  ghost predicate ForOpenFailure(c: Claim, p: Proposal) {
    exists fm :: fm in c.failures && !fm.resolved && p in ForFailure(c, fm)
  }

  lemma OpenFailureIff(c: Claim, p: Proposal)
    ensures p in ForClaim(c) <==> ForOpenFailure(c, p)
  {
    FailureProposals(c, Unresolved(c.failures), p);
    if ForOpenFailure(c, p) {
      var fm :| fm in c.failures && !fm.resolved && p in ForFailure(c, fm);
      assert fm in Unresolved(c.failures);
      var i :| 0 <= i < |Unresolved(c.failures)| && Unresolved(c.failures)[i] == fm;
    }
    if i :| 0 <= i < |Unresolved(c.failures)| && p in ForFailure(c, Unresolved(c.failures)[i]) {
      assert Unresolved(c.failures)[i] in Unresolved(c.failures);
    }
  }

  /** The proposals are exactly those for the open failures of the artifacts and for the knots. */
  lemma ProposedIff(claims: seq<Claim>, knots: seq<Knot>, p: Proposal)
    ensures p in Proposed(claims, knots)
      <==> (exists i :: 0 <= i < |claims| && ForOpenFailure(claims[i], p))
           || exists i :: 0 <= i < |knots| && p == ForKnot(knots[i])
  {
    SameElements(ForClaims(claims) + ForKnots(knots), MoreUrgent);
    GatheredIff(claims, |claims|, ForClaim, p);
    KnotProposals(knots, p);
    forall i | 0 <= i < |claims| ensures p in ForClaim(claims[i]) <==> ForOpenFailure(claims[i], p) {
      OpenFailureIff(claims[i], p);
    }
  }
}
