/** Exactly which failures the challenges raise on an artifact, and what more coverage does. */
module StressChallenges {
  import opened Text
  import opened WeakestLink
  import opened Belief
  import opened Certainty
  import opened CertaintyLaws
  import opened StressTester
  import Session

  // ---------------------------------------------------------------------------------------
  // Counting failures
  // ---------------------------------------------------------------------------------------

  type Picking = FailureMode -> bool

  function One(b: bool): nat { if b then 1 else 0 }

  function CountOf(fms: seq<FailureMode>, pick: Picking): nat {
    if fms == [] then 0 else One(pick(fms[0])) + CountOf(fms[1..], pick)
  }

  /** How many elements have a property. */
  function Number<T>(s: seq<T>, has: T -> bool): nat {
    if s == [] then 0 else One(has(s[0])) + Number(s[1..], has)
  }

  lemma {:induction false} CountConcat(a: seq<FailureMode>, b: seq<FailureMode>, pick: Picking)
    ensures CountOf(a + b, pick) == CountOf(a, pick) + CountOf(b, pick)
  {
    if a == [] {
      assert a + b == b;
    } else {
      assert (a + b)[1..] == a[1..] + b;
      CountConcat(a[1..], b, pick);
    }
  }

  lemma CountIf(b: bool, fm: FailureMode, pick: Picking)
    ensures CountOf(if b then [fm] else [], pick) == One(b && pick(fm))
  {
    assert [fm][1..] == [];
  }

  lemma {:induction false} NumberSnoc<T>(s: seq<T>, last: T, has: T -> bool)
    ensures Number(s + [last], has) == Number(s, has) + One(has(last))
  {
    if s == [] {
      assert s + [last] == [last] && [last][1..] == [];
    } else {
      assert (s + [last])[1..] == s[1..] + [last];
      NumberSnoc(s[1..], last, has);
    }
  }

  // ---------------------------------------------------------------------------------------
  // What each challenge is about
  // ---------------------------------------------------------------------------------------

  /** Some boundary text is neither blank nor the default one. */
  ghost predicate DeclaresBoundary(c: Claim) {
    exists i :: 0 <= i < |c.boundary| && IsStated(c.boundary[i])
  }

  predicate IsStated(text: string) { Strip(text) !in {"", "Assumed correct project environment"} }

  predicate HasCompoundClaim(c: Claim, pat: Patterns) {
    exists i :: 0 <= i < |c.propositions| && pat.isCompound(c.propositions[i])
  }

  /** How often each challenge fails an artifact. */
  ghost function Fails(c: Claim, covered: set<Id>, ids: set<Id>, pat: Patterns, ch: Challenge): nat {
    match ch
    case VagueTerm => Number(c.propositions, pat.isVague)
    case VagueQuantity => Number(c.propositions, pat.isVagueQuantity)
    case NoTest => One(c.status in {BeliefStatus.Accepted, StressTested, Reconstructed} && c.id !in covered)
    case NoBoundary => One(c.propositions != [] && !DeclaresBoundary(c))
    case TooManyClaims => One(|c.propositions| >= 4)
    case CompoundClaim => One(|c.propositions| < 4 && HasCompoundClaim(c, pat))
    case NoClaims => One(c.propositions == [])
    case WeakPriority => One(pat.isP1(c.priority) && c.confidence in {UNKNOWN, LOW})
    case DanglingLink => Number(c.links, (link: Id) => link != c.id && link !in ids)
  }

  function Times(b: bool, n: nat): nat { if b then n else 0 }

  predicate Picks(pick: Picking, id: Id, ch: Challenge, pat: Patterns) { pick(Raise(id, ch, pat)) }

  /** The failures of one challenge among those counted. */
  ghost function Share(c: Claim, covered: set<Id>, ids: set<Id>, pat: Patterns, ch: Challenge, pick: Picking): nat {
    Times(Picks(pick, c.id, ch, pat), Fails(c, covered, ids, pat, ch))
  }

  lemma {:induction false} VaguenessCount(id: Id, propositions: seq<string>, pat: Patterns, pick: Picking)
    ensures CountOf(Vagueness(id, propositions, pat), pick)
      == Times(Picks(pick, id, VagueTerm, pat), Number(propositions, pat.isVague))
       + Times(Picks(pick, id, VagueQuantity, pat), Number(propositions, pat.isVagueQuantity))
  {
    if propositions != [] {
      var front, last := propositions[..|propositions| - 1], propositions[|propositions| - 1];
      assert propositions == front + [last];
      VaguenessCount(id, front, pat, pick);
      VaguenessInCount(id, last, pat, pick);
      CountConcat(Vagueness(id, front, pat), VaguenessIn(id, last, pat), pick);
      NumberSnoc(front, last, pat.isVague);
      NumberSnoc(front, last, pat.isVagueQuantity);
    }
  }

  lemma VaguenessInCount(id: Id, proposition: string, pat: Patterns, pick: Picking)
    ensures CountOf(VaguenessIn(id, proposition, pat), pick)
      == One(pat.isVague(proposition) && pick(Raise(id, VagueTerm, pat)))
       + One(pat.isVagueQuantity(proposition) && pick(Raise(id, VagueQuantity, pat)))
  {
    CountIf(pat.isVague(proposition), Raise(id, VagueTerm, pat), pick);
    CountIf(pat.isVagueQuantity(proposition), Raise(id, VagueQuantity, pat), pick);
    CountConcat(if pat.isVague(proposition) then [Raise(id, VagueTerm, pat)] else [],
                if pat.isVagueQuantity(proposition) then [Raise(id, VagueQuantity, pat)] else [], pick);
  }

  lemma {:induction false} DanglingCount(id: Id, links: seq<Id>, ids: set<Id>, pat: Patterns, pick: Picking)
    ensures CountOf(Dangling(id, links, ids, pat), pick)
      == Times(Picks(pick, id, DanglingLink, pat), Number(links, (link: Id) => link != id && link !in ids))
  {
    if links != [] {
      var front, last := links[..|links| - 1], links[|links| - 1];
      assert links == front + [last];
      DanglingCount(id, front, ids, pat, pick);
      CountIf(last !in ids && last != id, Raise(id, DanglingLink, pat), pick);
      CountConcat(Dangling(id, front, ids, pat),
                  if last !in ids && last != id then [Raise(id, DanglingLink, pat)] else [], pick);
      NumberSnoc(front, last, (link: Id) => link != id && link !in ids);
    }
  }

  lemma VaguenessShare(c: Claim, covered: set<Id>, ids: set<Id>, pat: Patterns, pick: Picking)
    ensures CountOf(Vagueness(c.id, c.propositions, pat), pick)
      == Share(c, covered, ids, pat, VagueTerm, pick) + Share(c, covered, ids, pat, VagueQuantity, pick)
  {
    VaguenessCount(c.id, c.propositions, pat, pick);
  }

  lemma DanglingShare(c: Claim, covered: set<Id>, ids: set<Id>, pat: Patterns, pick: Picking)
    ensures CountOf(Dangling(c.id, c.links, ids, pat), pick) == Share(c, covered, ids, pat, DanglingLink, pick)
  {
    DanglingCount(c.id, c.links, ids, pat, pick);
  }

  lemma MissingTestShare(c: Claim, covered: set<Id>, ids: set<Id>, pat: Patterns, pick: Picking)
    ensures CountOf(MissingTest(c, covered, pat), pick) == Share(c, covered, ids, pat, NoTest, pick)
  {
    CountIf(true, Raise(c.id, NoTest, pat), pick);
  }

  lemma MissingBoundaryShare(c: Claim, covered: set<Id>, ids: set<Id>, pat: Patterns, pick: Picking)
    ensures CountOf(MissingBoundary(c, pat), pick) == Share(c, covered, ids, pat, NoBoundary, pick)
  {
    CountIf(true, Raise(c.id, NoBoundary, pat), pick);
    forall b | b in c.boundary ensures States(b) <==> IsStated(b) {}
    if DeclaresBoundary(c) {
      var i :| 0 <= i < |c.boundary| && IsStated(c.boundary[i]);
      assert c.boundary[i] in c.boundary;
    }
  }

  lemma CompoundShare(c: Claim, covered: set<Id>, ids: set<Id>, pat: Patterns, pick: Picking)
    ensures CountOf(Compound(c, pat), pick)
      == Share(c, covered, ids, pat, TooManyClaims, pick) + Share(c, covered, ids, pat, CompoundClaim, pick)
  {
    CountIf(true, Raise(c.id, TooManyClaims, pat), pick);
    CountIf(true, Raise(c.id, CompoundClaim, pat), pick);
    if HasCompoundClaim(c, pat) {
      var i :| 0 <= i < |c.propositions| && pat.isCompound(c.propositions[i]);
      assert c.propositions[i] in c.propositions;
    }
  }

  lemma MissingClaimsShare(c: Claim, covered: set<Id>, ids: set<Id>, pat: Patterns, pick: Picking)
    ensures CountOf(MissingClaims(c, pat), pick) == Share(c, covered, ids, pat, NoClaims, pick)
  {
    CountIf(true, Raise(c.id, NoClaims, pat), pick);
  }

  lemma WeakPrioritiesShare(c: Claim, covered: set<Id>, ids: set<Id>, pat: Patterns, pick: Picking)
    ensures CountOf(WeakPriorities(c, pat), pick) == Share(c, covered, ids, pat, WeakPriority, pick)
  {
    CountIf(true, Raise(c.id, WeakPriority, pat), pick);
  }

  lemma SevenParts(a: seq<FailureMode>, b: seq<FailureMode>, c: seq<FailureMode>, d: seq<FailureMode>,
                   e: seq<FailureMode>, f: seq<FailureMode>, g: seq<FailureMode>, pick: Picking)
    ensures CountOf(Joined([a, b, c, d, e, f, g]), pick)
      == CountOf(a, pick) + CountOf(b, pick) + CountOf(c, pick) + CountOf(d, pick) + CountOf(e, pick)
       + CountOf(f, pick) + CountOf(g, pick)
  {
    JoinSeven(a, b, c, d, e, f, g);
    CountConcat(a, b, pick);
    CountConcat(a + b, c, pick);
    CountConcat(a + b + c, d, pick);
    CountConcat(a + b + c + d, e, pick);
    CountConcat(a + b + c + d + e, f, pick);
    CountConcat(a + b + c + d + e + f, g, pick);
  }

  ghost function Shares(c: Claim, covered: set<Id>, ids: set<Id>, pat: Patterns, pick: Picking): nat {
    Share(c, covered, ids, pat, VagueTerm, pick) + Share(c, covered, ids, pat, VagueQuantity, pick)
    + Share(c, covered, ids, pat, NoTest, pick) + Share(c, covered, ids, pat, NoBoundary, pick)
    + Share(c, covered, ids, pat, TooManyClaims, pick) + Share(c, covered, ids, pat, CompoundClaim, pick)
    + Share(c, covered, ids, pat, NoClaims, pick) + Share(c, covered, ids, pat, WeakPriority, pick)
    + Share(c, covered, ids, pat, DanglingLink, pick)
  }

  /** Whatever failures are counted, those raised on an artifact are exactly what each challenge
      raises as often as it fails. */
  lemma RaisedCount(c: Claim, covered: set<Id>, ids: set<Id>, pat: Patterns, pick: Picking)
    ensures CountOf(Raised(c, covered, ids, pat), pick) == Shares(c, covered, ids, pat, pick)
  {
    SevenParts(Vagueness(c.id, c.propositions, pat), MissingTest(c, covered, pat), MissingBoundary(c, pat),
               Compound(c, pat), MissingClaims(c, pat), WeakPriorities(c, pat), Dangling(c.id, c.links, ids, pat),
               pick);
    VaguenessShare(c, covered, ids, pat, pick);
    MissingTestShare(c, covered, ids, pat, pick);
    MissingBoundaryShare(c, covered, ids, pat, pick);
    CompoundShare(c, covered, ids, pat, pick);
    MissingClaimsShare(c, covered, ids, pat, pick);
    WeakPrioritiesShare(c, covered, ids, pat, pick);
    DanglingShare(c, covered, ids, pat, pick);
  }

  function OfSeverity(s: Severity): Picking { (fm: FailureMode) => fm.severity == s && !fm.resolved }

  lemma PicksBySeverity(id: Id, ch: Challenge, pat: Patterns, s: Severity)
    ensures Picks(OfSeverity(s), id, ch, pat) <==>
      match s
      case Critical => ch in {NoClaims, WeakPriority}
      case Severe => ch == NoTest
      case Moderate => ch in {VagueTerm, DanglingLink}
      case Minor => ch in {VagueQuantity, NoBoundary, TooManyClaims, CompoundClaim}
  {
  }

  /** So the open failures of each severity can be read off the claim. */
  lemma RaisedBySeverity(c: Claim, covered: set<Id>, ids: set<Id>, pat: Patterns, s: Severity)
    ensures CountOf(Raised(c, covered, ids, pat), OfSeverity(s)) ==
      match s
      case Critical => Fails(c, covered, ids, pat, NoClaims) + Fails(c, covered, ids, pat, WeakPriority)
      case Severe => Fails(c, covered, ids, pat, NoTest)
      case Moderate => Fails(c, covered, ids, pat, VagueTerm) + Fails(c, covered, ids, pat, DanglingLink)
      case Minor =>
        Fails(c, covered, ids, pat, VagueQuantity) + Fails(c, covered, ids, pat, NoBoundary)
        + Fails(c, covered, ids, pat, TooManyClaims) + Fails(c, covered, ids, pat, CompoundClaim)
  {
    RaisedCount(c, covered, ids, pat, OfSeverity(s));
    SeverityShares(c, covered, ids, pat, s);
  }

  lemma SeverityShares(c: Claim, covered: set<Id>, ids: set<Id>, pat: Patterns, s: Severity)
    ensures Shares(c, covered, ids, pat, OfSeverity(s)) ==
      match s
      case Critical => Fails(c, covered, ids, pat, NoClaims) + Fails(c, covered, ids, pat, WeakPriority)
      case Severe => Fails(c, covered, ids, pat, NoTest)
      case Moderate => Fails(c, covered, ids, pat, VagueTerm) + Fails(c, covered, ids, pat, DanglingLink)
      case Minor =>
        Fails(c, covered, ids, pat, VagueQuantity) + Fails(c, covered, ids, pat, NoBoundary)
        + Fails(c, covered, ids, pat, TooManyClaims) + Fails(c, covered, ids, pat, CompoundClaim)
  {
    forall ch ensures Picks(OfSeverity(s), c.id, ch, pat) <==>
      match s
      case Critical => ch in {NoClaims, WeakPriority}
      case Severe => ch == NoTest
      case Moderate => ch in {VagueTerm, DanglingLink}
      case Minor => ch in {VagueQuantity, NoBoundary, TooManyClaims, CompoundClaim}
    {
      PicksBySeverity(c.id, ch, pat, s);
    }
  }

  function WordedAs(id: Id, text: string): Picking { (fm: FailureMode) => fm.artifactId == id && fm.challenge == text }

  ghost predicate OwnWords(pat: Patterns) { forall a, b :: pat.wording(a) == pat.wording(b) ==> a == b }

  lemma WordingLength(ch: Challenge)
    ensures |Wording(ch)| ==
      match ch
      case VagueTerm => 34
      case VagueQuantity => 32
      case NoTest => 55
      case NoBoundary => 54
      case TooManyClaims => 58
      case CompoundClaim => 49
      case NoClaims => 40
      case WeakPriority => 45
      case DanglingLink => 41
  {
  }

  /** As the tester's wordings are. */
  lemma WordingsDiffer(pat: Patterns)
    requires pat.wording == Wording
    ensures OwnWords(pat)
  {
    forall a, b | pat.wording(a) == pat.wording(b) ensures a == b {
      WordingLength(a);
      WordingLength(b);
    }
  }

  /** Where every challenge has its own wording, a failure worded like a challenge is raised as often
      as that challenge fails. */
  lemma RaisedByWording(c: Claim, covered: set<Id>, ids: set<Id>, pat: Patterns, ch: Challenge)
    requires OwnWords(pat)
    ensures CountOf(Raised(c, covered, ids, pat), WordedAs(c.id, pat.wording(ch))) == Fails(c, covered, ids, pat, ch)
  {
    RaisedCount(c, covered, ids, pat, WordedAs(c.id, pat.wording(ch)));
    PicksByWording(c.id, ch, pat);
    OneShare(c, covered, ids, pat, ch, WordedAs(c.id, pat.wording(ch)));
  }

  lemma PicksByWording(id: Id, ch: Challenge, pat: Patterns)
    requires OwnWords(pat)
    ensures forall other :: Picks(WordedAs(id, pat.wording(ch)), id, other, pat) <==> other == ch
  {
  }

  lemma OneShare(c: Claim, covered: set<Id>, ids: set<Id>, pat: Patterns, ch: Challenge, pick: Picking)
    requires forall other :: Picks(pick, c.id, other, pat) <==> other == ch
    ensures Shares(c, covered, ids, pat, pick) == Fails(c, covered, ids, pat, ch)
  {
  }

  // ---------------------------------------------------------------------------------------
  // More coverage
  // ---------------------------------------------------------------------------------------

  lemma {:induction false} FewerOfSame(fms: seq<FailureMode>)
    ensures FewerFailures(fms, fms)
  {
    if fms != [] { FewerOfSame(fms[..|fms| - 1]); }
  }

  lemma {:induction false} FewerConcat(a: seq<FailureMode>, b: seq<FailureMode>, more: seq<FailureMode>)
    requires FewerFailures(a, b)
    ensures FewerFailures(a + more, b + more)
  {
    if more == [] {
      assert a + more == a && b + more == b;
    } else {
      var n := |more| - 1;
      FewerConcat(a, b, more[..n]);
      assert (a + more)[..|a + more| - 1] == a + more[..n] && (b + more)[..|b + more| - 1] == b + more[..n];
    }
  }

  lemma {:induction false} FewerPrefix(fms: seq<FailureMode>, some: seq<FailureMode>)
    ensures FewerFailures(fms, fms + some)
  {
    if some == [] {
      assert fms + some == fms;
      FewerOfSame(fms);
    } else {
      assert (fms + some)[..|fms + some| - 1] == fms + some[..|some| - 1];
      FewerPrefix(fms, some[..|some| - 1]);
    }
  }

  /** More coverage raises no failures that less coverage does not. */
  lemma CoverageRaisesFewer(c: Claim, covered: set<Id>, more: set<Id>, ids: set<Id>, pat: Patterns)
    requires covered <= more
    ensures FewerFailures(Raised(c, more, ids, pat), Raised(c, covered, ids, pat))
  {
    var a, b, b' := Vagueness(c.id, c.propositions, pat), MissingTest(c, covered, pat), MissingTest(c, more, pat);
    var d, e, f := MissingBoundary(c, pat), Compound(c, pat), MissingClaims(c, pat);
    var g, h := WeakPriorities(c, pat), Dangling(c.id, c.links, ids, pat);
    JoinSeven(a, b, d, e, f, g, h);
    JoinSeven(a, b', d, e, f, g, h);
    if b' == b { FewerOfSame(a + b); } else { FewerPrefix(a, b); assert a + b' == a; }
    FewerConcat(a + b', a + b, d);
    FewerConcat(a + b' + d, a + b + d, e);
    FewerConcat(a + b' + d + e, a + b + d + e, f);
    FewerConcat(a + b' + d + e + f, a + b + d + e + f, g);
    FewerConcat(a + b' + d + e + f + g, a + b + d + e + f + g, h);
  }

  lemma {:induction false} ClearedHaveNoFailures(claims: seq<Claim>, acceptedOnly: bool)
    ensures forall i :: 0 <= i < |Session.Cleared(claims, acceptedOnly)| ==>
      Session.Cleared(claims, acceptedOnly)[i].failures == []
  {
    if claims != [] { ClearedHaveNoFailures(claims[..|claims| - 1], acceptedOnly); }
  }

  /** Covering more artifacts before a run, as `mark_covered` does, never lowers a score the run
      reports. */
  lemma CoverageNeverLowers(claims: seq<Claim>, acceptedOnly: bool, covered: set<Id>, more: set<Id>, pat: Patterns,
                            a: Id)
    requires covered <= more
    ensures var bare := Session.Cleared(claims, acceptedOnly);
      var before, after := FinalScores(Tested(bare, covered, pat), covered), FinalScores(Tested(bare, more, pat), more);
      a in before ==> a in after && before[a] <= after[a]
  {
    var bare := Session.Cleared(claims, acceptedOnly);
    var cs, ds := Tested(bare, covered, pat), Tested(bare, more, pat);
    ClearedHaveNoFailures(claims, acceptedOnly);
    forall i | 0 <= i < |cs| ensures Improves(cs[i], covered, ds[i], more) {
      CoverageRaisesFewer(bare[i], covered, more, IdSet(bare), pat);
      CoveredImproves(bare[i], covered, more, IdSet(bare), pat);
    }
    if a in FinalScores(cs, covered) { ImprovingNeverLowers(cs, covered, ds, more, a); }
  }

  lemma CoveredImproves(c: Claim, covered: set<Id>, more: set<Id>, ids: set<Id>, pat: Patterns)
    requires covered <= more && c.failures == []
    ensures Improves(Challenged(c, covered, ids, pat), covered, Challenged(c, more, ids, pat), more)
  {
    CoverageRaisesFewer(c, covered, more, ids, pat);
    assert [] + Raised(c, covered, ids, pat) == Raised(c, covered, ids, pat);
    assert [] + Raised(c, more, ids, pat) == Raised(c, more, ids, pat);
  }
}
