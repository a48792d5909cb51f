/** What the stress tester's verdict means. */
module StressLaws {
  import opened WeakestLink
  import opened Belief
  import opened StressTester

  // ---------------------------------------------------------------------------------------
  // Critical failures
  // ---------------------------------------------------------------------------------------

  /** An artifact the tester raises a critical failure on. */
  predicate Stops(c: Claim, pat: Patterns) { c.propositions == [] || IsWeak(c, pat) }

  lemma {:induction false} CountConcat(a: seq<FailureMode>, b: seq<FailureMode>)
    ensures CriticalCount(a + b) == CriticalCount(a) + CriticalCount(b)
  {
    if b == [] {
      assert a + b == a;
    } else {
      assert (a + b)[..|a + b| - 1] == a + b[..|b| - 1];
      CountConcat(a, b[..|b| - 1]);
    }
  }

  lemma VaguenessInIsNotCritical(id: Id, proposition: string, pat: Patterns)
    ensures CriticalCount(VaguenessIn(id, proposition, pat)) == 0
  {
    var one := if pat.isVague(proposition) then [Raise(id, VagueTerm, pat)] else [];
    var two := if pat.isVagueQuantity(proposition) then [Raise(id, VagueQuantity, pat)] else [];
    OneRaised(id, VagueTerm, pat);
    OneRaised(id, VagueQuantity, pat);
    CountConcat(one, two);
  }

  lemma {:induction false} VaguenessIsNotCritical(id: Id, propositions: seq<string>, pat: Patterns)
    ensures CriticalCount(Vagueness(id, propositions, pat)) == 0
  {
    if propositions != [] {
      var n := |propositions| - 1;
      VaguenessIsNotCritical(id, propositions[..n], pat);
      VaguenessInIsNotCritical(id, propositions[n], pat);
      CountConcat(Vagueness(id, propositions[..n], pat), VaguenessIn(id, propositions[n], pat));
    }
  }

  lemma {:induction false} DanglingIsNotCritical(id: Id, links: seq<Id>, ids: set<Id>, pat: Patterns)
    ensures CriticalCount(Dangling(id, links, ids, pat)) == 0
  {
    if links != [] {
      var n := |links| - 1;
      DanglingIsNotCritical(id, links[..n], ids, pat);
      CountConcat(Dangling(id, links[..n], ids, pat),
                  if links[n] !in ids && links[n] != id then [Raise(id, DanglingLink, pat)] else []);
    }
  }

  /** An artifact gets one critical failure for having no propositions and one for being a P1 of
      less than medium confidence, and no others. */
  lemma RaisedCriticals(c: Claim, covered: set<Id>, ids: set<Id>, pat: Patterns)
    ensures CriticalCount(Raised(c, covered, ids, pat))
      == (if c.propositions == [] then 1 else 0) + (if IsWeak(c, pat) then 1 else 0)
  {
    var a, b := Vagueness(c.id, c.propositions, pat), MissingTest(c, covered, pat);
    var d, e, f, g := MissingBoundary(c, pat), Compound(c, pat), MissingClaims(c, pat), WeakPriorities(c, pat);
    VaguenessIsNotCritical(c.id, c.propositions, pat);
    DanglingIsNotCritical(c.id, c.links, ids, pat);
    JoinSeven(a, b, d, e, f, g, Dangling(c.id, c.links, ids, pat));
    CountConcat(a, b);
    CountConcat(a + b, d);
    CountConcat(a + b + d, e);
    CountConcat(a + b + d + e, f);
    CountConcat(a + b + d + e + f, g);
    CountConcat(a + b + d + e + f + g, Dangling(c.id, c.links, ids, pat));
    MissingTestIsNotCritical(c, covered, pat);
    MissingBoundaryIsNotCritical(c, pat);
    CompoundIsNotCritical(c, pat);
    MissingClaimsAreCritical(c, pat);
    WeakPrioritiesAreCritical(c, pat);
  }

  lemma OneRaised(id: Id, ch: Challenge, pat: Patterns)
    ensures CriticalCount([Raise(id, ch, pat)]) == if SeverityOf(ch) == Critical then 1 else 0
  {
    CountOfOne(Raise(id, ch, pat));
  }

  lemma CountOfOne(fm: FailureMode)
    ensures CriticalCount([fm]) == if fm.severity == Critical then 1 else 0
  {
    assert [fm][..0] == [];
  }

  lemma MissingTestIsNotCritical(c: Claim, covered: set<Id>, pat: Patterns)
    ensures CriticalCount(MissingTest(c, covered, pat)) == 0
  {
    OneRaised(c.id, NoTest, pat);
  }

  lemma MissingBoundaryIsNotCritical(c: Claim, pat: Patterns)
    ensures CriticalCount(MissingBoundary(c, pat)) == 0
  {
    OneRaised(c.id, NoBoundary, pat);
  }

  lemma CompoundIsNotCritical(c: Claim, pat: Patterns)
    ensures CriticalCount(Compound(c, pat)) == 0
  {
    OneRaised(c.id, TooManyClaims, pat);
    OneRaised(c.id, CompoundClaim, pat);
  }

  lemma MissingClaimsAreCritical(c: Claim, pat: Patterns)
    ensures CriticalCount(MissingClaims(c, pat)) == if c.propositions == [] then 1 else 0
  {
    OneRaised(c.id, NoClaims, pat);
  }

  lemma WeakPrioritiesAreCritical(c: Claim, pat: Patterns)
    ensures CriticalCount(WeakPriorities(c, pat)) == if IsWeak(c, pat) then 1 else 0
  {
    OneRaised(c.id, WeakPriority, pat);
  }

  lemma {:induction false} AllRaisedCriticals<T(!new)>(s: seq<T>, n: nat, raised: T -> seq<FailureMode>,
                                                stops: T -> bool)
    requires n <= |s| && forall x :: CriticalCount(raised(x)) == 0 <==> !stops(x)
    ensures CriticalCount(AllRaised(s, n, raised)) == 0 <==> forall i :: 0 <= i < n ==> !stops(s[i])
  {
    if n > 0 {
      AllRaisedCriticals(s, n - 1, raised, stops);
      CountConcat(AllRaised(s, n - 1, raised), raised(s[n - 1]));
    }
  }

  ghost function Stopper(pat: Patterns): Claim -> bool { c => Stops(c, pat) }

  ghost predicate NoneStops(claims: seq<Claim>, pat: Patterns) {
    forall i :: 0 <= i < |claims| ==> !Stopper(pat)(claims[i])
  }

  lemma NoCriticalsIff(claims: seq<Claim>, covered: set<Id>, ids: set<Id>, pat: Patterns)
    ensures CriticalCount(AllRaised(claims, |claims|, Raiser(covered, ids, pat))) == 0 <==> NoneStops(claims, pat)
  {
    forall c: Claim ensures CriticalCount(Raiser(covered, ids, pat)(c)) == 0 <==> !Stopper(pat)(c) {
      RaisedCriticals(c, covered, ids, pat);
    }
    AllRaisedCriticals(claims, |claims|, Raiser(covered, ids, pat), Stopper(pat));
  }

  // ---------------------------------------------------------------------------------------
  // Pairs in filtered sequences
  // ---------------------------------------------------------------------------------------

  ghost predicate PairFree<T(!new)>(s: seq<T>, p: (T, T) -> bool) {
    forall i, j :: 0 <= i < j < |s| ==> !p(s[i], s[j])
  }

  ghost predicate FreeOf<T(!new)>(s: seq<T>, x: T, p: (T, T) -> bool) { forall i :: 0 <= i < |s| ==> !p(s[i], x) }

  lemma PairFreeNext<T(!new)>(s: seq<T>, x: T, p: (T, T) -> bool)
    ensures PairFree(s + [x], p) <==> PairFree(s, p) && FreeOf(s, x, p)
  {
    var all := s + [x];
    if PairFree(all, p) {
      forall i, j | 0 <= i < j < |s| ensures !p(s[i], s[j]) { assert !p(all[i], all[j]); }
      forall i | 0 <= i < |s| ensures !p(s[i], x) { assert !p(all[i], all[|s|]); }
    }
  }

  ghost function FilterMap<T(!new), U>(s: seq<T>, keep: T -> bool, f: T -> U): seq<U> {
    if s == [] then []
    else FilterMap(s[..|s| - 1], keep, f) + (if keep(s[|s| - 1]) then [f(s[|s| - 1])] else [])
  }

  lemma {:induction false} FilteredFreeOf<T(!new), U(!new)>(s: seq<T>, x: T, keep: T -> bool, f: T -> U,
                                                            p: (U, U) -> bool, q: (T, T) -> bool)
    requires keep(x) && forall a, b :: q(a, b) <==> keep(a) && keep(b) && p(f(a), f(b))
    ensures FreeOf(FilterMap(s, keep, f), f(x), p) <==> FreeOf(s, x, q)
  {
    if s != [] {
      var n := |s| - 1;
      FilteredFreeOf(s[..n], x, keep, f, p, q);
      FreeOfNext(s[..n], s[n], x, q);
      assert s[..n] + [s[n]] == s;
      if keep(s[n]) {
        FreeOfNext(FilterMap(s[..n], keep, f), f(s[n]), f(x), p);
        assert q(s[n], x) <==> p(f(s[n]), f(x));
      } else {
        assert FilterMap(s, keep, f) == FilterMap(s[..n], keep, f) && !q(s[n], x);
      }
    }
  }

  lemma FreeOfNext<T(!new)>(s: seq<T>, y: T, x: T, p: (T, T) -> bool)
    ensures FreeOf(s + [y], x, p) <==> FreeOf(s, x, p) && !p(y, x)
  {
    var all := s + [y];
    if FreeOf(all, x, p) {
      forall i | 0 <= i < |s| ensures !p(s[i], x) { assert !p(all[i], x); }
      assert !p(all[|s|], x);
    }
  }

  /** Pairs among the kept elements are pairs of kept elements. */
  lemma {:induction false} FilteredPairFree<T(!new), U(!new)>(s: seq<T>, keep: T -> bool, f: T -> U,
                                                              p: (U, U) -> bool, q: (T, T) -> bool)
    requires forall a, b :: q(a, b) <==> keep(a) && keep(b) && p(f(a), f(b))
    ensures PairFree(FilterMap(s, keep, f), p) <==> PairFree(s, q)
  {
    if s != [] {
      var n := |s| - 1;
      FilteredPairFree(s[..n], keep, f, p, q);
      PairFreeNext(s[..n], s[n], q);
      assert s[..n] + [s[n]] == s;
      if keep(s[n]) {
        PairFreeNext(FilterMap(s[..n], keep, f), f(s[n]), p);
        FilteredFreeOf(s[..n], s[n], keep, f, p, q);
      } else {
        assert FilterMap(s, keep, f) == FilterMap(s[..n], keep, f);
        assert FreeOf(s[..n], s[n], q);
      }
    }
  }

  // ---------------------------------------------------------------------------------------
  // Knots
  // ---------------------------------------------------------------------------------------

  predicate SameId(a: Claim, b: Claim) { a.id == b.id }

  ghost predicate Contradict(a: Claim, b: Claim, pat: Patterns) {
    a.component == b.component != "" && NegationConflict(a, b, pat)
  }

  /** Two accepted artifacts that share an id, or contradict each other in the same component. */
  ghost predicate Clash(a: Claim, b: Claim, pat: Patterns) {
    a.IsAccepted() && b.IsAccepted() && (SameId(a, b) || Contradict(a, b, pat))
  }

  lemma {:induction false} DuplicatesIff(accepted: seq<Claim>)
    ensures DuplicateKnots(accepted) == [] <==> PairFree(accepted, SameId)
  {
    if accepted != [] {
      var n := |accepted| - 1;
      DuplicatesIff(accepted[..n]);
      PairFreeNext(accepted[..n], accepted[n], SameId);
      assert accepted[..n] + [accepted[n]] == accepted;
    }
  }

  ghost function Conflicting(pat: Patterns): (Claim, Claim) -> bool { (a, b) => NegationConflict(a, b, pat) }

  lemma {:induction false} ConflictsWithIff(comp: string, a: Claim, others: seq<Claim>, pat: Patterns)
    ensures ConflictsWith(comp, a, others, pat) == []
      <==> forall j :: 0 <= j < |others| ==> !NegationConflict(a, others[j], pat)
  {
    if others != [] {
      var n := |others| - 1;
      ConflictsWithIff(comp, a, others[..n], pat);
      assert forall j :: 0 <= j < n ==> others[j] == others[..n][j];
    }
  }

  ghost predicate QuietUpTo(group: seq<Claim>, n: nat, pat: Patterns) {
    forall i, j :: 0 <= i < n && i < j < |group| ==> !Conflicting(pat)(group[i], group[j])
  }

  lemma {:induction false} ConflictsIff(comp: string, group: seq<Claim>, n: nat, pat: Patterns)
    requires n <= |group|
    ensures Conflicts(comp, group, n, pat) == [] <==> QuietUpTo(group, n, pat)
  {
    if n > 0 {
      ConflictsIff(comp, group, n - 1, pat);
      ConflictsWithIff(comp, group[n - 1], group[n..], pat);
      if Conflicts(comp, group, n, pat) == [] {
        forall i, j | 0 <= i < n && i < j < |group| ensures !Conflicting(pat)(group[i], group[j]) {
          if i == n - 1 { assert group[j] == group[n..][j - n]; }
        }
      }
      if QuietUpTo(group, n, pat) {
        forall j | 0 <= j < |group[n..]| ensures !NegationConflict(group[n - 1], group[n..][j], pat) {
          assert !Conflicting(pat)(group[n - 1], group[n + j]);
        }
      }
    }
  }

  lemma {:induction false} ConflictKnotsIff(d: Groups, order: seq<string>, pat: Patterns)
    requires forall comp :: comp in order ==> comp in d.at
    ensures ConflictKnots(d, order, pat) == []
      <==> forall comp :: comp in order && comp != "" ==> PairFree(d.at[comp], Conflicting(pat))
  {
    if order != [] {
      var n := |order| - 1;
      ConflictKnotsIff(d, order[..n], pat);
      assert order == order[..n] + [order[n]];
      var group := d.at[order[n]];
      ConflictsIff(order[n], group, |group|, pat);
      assert QuietUpTo(group, |group|, pat) <==> PairFree(group, Conflicting(pat));
    }
  }

  ghost function OfComponent(comp: string): Claim -> bool { (c: Claim) => c.component == comp }

  ghost function Same(): Claim -> Claim { (c: Claim) => c }

  /** The group of a component holds its artifacts in order. */
  lemma {:induction false} GroupIs(accepted: seq<Claim>, comp: string)
    ensures var d := ByComponent(accepted);
      FilterMap(accepted, OfComponent(comp), Same()) == if comp in d.at then d.at[comp] else []
  {
    if accepted != [] { GroupIs(accepted[..|accepted| - 1], comp); }
  }

  ghost function ConflictingIn(comp: string, pat: Patterns): (Claim, Claim) -> bool {
    (a: Claim, b: Claim) => a.component == comp && b.component == comp && NegationConflict(a, b, pat)
  }

  ghost function Contradicting(pat: Patterns): (Claim, Claim) -> bool { (a, b) => Contradict(a, b, pat) }

  lemma GroupQuietIff(accepted: seq<Claim>, comp: string, pat: Patterns)
    ensures var d := ByComponent(accepted);
      (comp in d.at ==> PairFree(d.at[comp], Conflicting(pat))) <==> PairFree(accepted, ConflictingIn(comp, pat))
  {
    GroupIs(accepted, comp);
    FilteredPairFree(accepted, OfComponent(comp), Same(), Conflicting(pat), ConflictingIn(comp, pat));
  }

  lemma ContradictionsByComponent(accepted: seq<Claim>, pat: Patterns)
    ensures PairFree(accepted, Contradicting(pat))
      <==> forall comp :: comp != "" ==> PairFree(accepted, ConflictingIn(comp, pat))
  {
    if forall comp :: comp != "" ==> PairFree(accepted, ConflictingIn(comp, pat)) {
      forall i, j | 0 <= i < j < |accepted| ensures !Contradicting(pat)(accepted[i], accepted[j]) {
        if accepted[i].component != "" {
          assert !ConflictingIn(accepted[i].component, pat)(accepted[i], accepted[j]);
        }
      }
    }
    if PairFree(accepted, Contradicting(pat)) {
      forall comp | comp != "" ensures PairFree(accepted, ConflictingIn(comp, pat)) {
        forall i, j | 0 <= i < j < |accepted| ensures !ConflictingIn(comp, pat)(accepted[i], accepted[j]) {
          assert !Contradicting(pat)(accepted[i], accepted[j]);
        }
      }
    }
  }

  lemma ConflictKnotsMean(accepted: seq<Claim>, pat: Patterns)
    ensures var d := ByComponent(accepted);
      ConflictKnots(d, d.order, pat) == [] <==> PairFree(accepted, Contradicting(pat))
  {
    var d := ByComponent(accepted);
    ConflictKnotsIff(d, d.order, pat);
    ContradictionsByComponent(accepted, pat);
    forall comp
      ensures (comp in d.at ==> PairFree(d.at[comp], Conflicting(pat)))
        <==> PairFree(accepted, ConflictingIn(comp, pat))
    {
      GroupQuietIff(accepted, comp, pat);
    }
  }

  ghost function Accepts(): Claim -> bool { (c: Claim) => c.IsAccepted() }

  ghost function Bare(): Claim -> Claim { c => WithoutFailures(c) }

  lemma {:induction false} AcceptedIs(claims: seq<Claim>)
    ensures StressTester.Accepted(claims) == FilterMap(claims, Accepts(), Bare())
  {
    if claims != [] { AcceptedIs(claims[..|claims| - 1]); }
  }

  ghost function ClashOrNot(pat: Patterns): (Claim, Claim) -> bool { (a, b) => SameId(a, b) || Contradict(a, b, pat) }

  ghost function Clashing(pat: Patterns): (Claim, Claim) -> bool { (a, b) => Clash(a, b, pat) }

  lemma EitherPairFree(s: seq<Claim>, pat: Patterns)
    ensures PairFree(s, ClashOrNot(pat)) <==> PairFree(s, SameId) && PairFree(s, Contradicting(pat))
  {
    if PairFree(s, ClashOrNot(pat)) {
      forall i, j | 0 <= i < j < |s| ensures !SameId(s[i], s[j]) && !Contradicting(pat)(s[i], s[j]) {
        assert !ClashOrNot(pat)(s[i], s[j]);
      }
    }
  }

  /** There are logic knots if and only if two artifacts clash. */
  lemma KnotsIff(claims: seq<Claim>, pat: Patterns)
    ensures Knots(claims, pat) == [] <==> PairFree(claims, Clashing(pat))
  {
    var accepted := StressTester.Accepted(claims);
    DuplicatesIff(accepted);
    ConflictKnotsMean(accepted, pat);
    EitherPairFree(accepted, pat);
    AcceptedIs(claims);
    FailuresDoNotClash(pat);
    FilteredPairFree(claims, Accepts(), Bare(), ClashOrNot(pat), Clashing(pat));
  }

  lemma FailuresDoNotClash(pat: Patterns)
    ensures forall a, b ::
      Clashing(pat)(a, b) <==> Accepts()(a) && Accepts()(b) && ClashOrNot(pat)(Bare()(a), Bare()(b))
  {
    forall a: Claim, b: Claim
      ensures Contradict(a, b, pat) <==> Contradict(WithoutFailures(a), WithoutFailures(b), pat)
    {
      assert Subjects(a, pat) == Subjects(WithoutFailures(a), pat);
      assert Subjects(b, pat) == Subjects(WithoutFailures(b), pat);
    }
  }

  /** A negation conflict does not depend on which artifact comes first. */
  lemma ConflictIsSymmetric(a: Claim, b: Claim, pat: Patterns)
    ensures NegationConflict(a, b, pat) <==> NegationConflict(b, a, pat)
  {
    assert Subjects(a, pat) * Subjects(b, pat) == Subjects(b, pat) * Subjects(a, pat);
  }

  /** Equilibrium, read off the artifacts: every one has propositions, none is a P1 of less than
      medium confidence, and no two accepted ones share an id or contradict each other. */
  lemma EquilibriumIff(claims: seq<Claim>, covered: set<Id>, pat: Patterns)
    ensures Findings(claims, covered, pat).equilibrium
      <==> NoneStops(claims, pat) && PairFree(claims, Clashing(pat))
  {
    NoCriticalsIff(claims, covered, IdSet(claims), pat);
    KnotsIff(claims, pat);
  }

  // ---------------------------------------------------------------------------------------
  // What a contradiction is
  // ---------------------------------------------------------------------------------------

  ghost predicate SaysMust(c: Claim, pat: Patterns) {
    exists i :: 0 <= i < |c.propositions| && pat.hasMust(c.propositions[i])
  }

  ghost predicate SaysMustNot(c: Claim, pat: Patterns) {
    exists i :: 0 <= i < |c.propositions| && pat.hasMustNot(c.propositions[i])
  }

  ghost predicate IsAbout(c: Claim, subject: string, pat: Patterns) {
    exists i :: 0 <= i < |c.propositions| && subject in pat.subjects(c.propositions[i])
  }

  ghost predicate ShareTwo(a: Claim, b: Claim, pat: Patterns) {
    exists v, w :: v != w && IsAbout(a, v, pat) && IsAbout(b, v, pat) && IsAbout(a, w, pat) && IsAbout(b, w, pat)
  }

  /** Two artifacts conflict if and only if one says that something must be and the other that something
      must not be, and they share at least two subjects. */
  lemma ConflictIff(a: Claim, b: Claim, pat: Patterns)
    ensures NegationConflict(a, b, pat)
      <==> (((SaysMust(a, pat) && SaysMustNot(b, pat)) || (SaysMust(b, pat) && SaysMustNot(a, pat)))
            && ShareTwo(a, b, pat))
  {
    MustMeans(a, pat);
    MustMeans(b, pat);
    SubjectsAre(a, pat);
    SubjectsAre(b, pat);
    TwoInCommon(Subjects(a, pat) * Subjects(b, pat));
    if |Subjects(a, pat) * Subjects(b, pat)| >= 2 {
      var v, w :| v != w && v in Subjects(a, pat) * Subjects(b, pat) && w in Subjects(a, pat) * Subjects(b, pat);
      assert IsAbout(a, v, pat) && IsAbout(b, v, pat) && IsAbout(a, w, pat) && IsAbout(b, w, pat);
    }
    if ShareTwo(a, b, pat) {
      var v, w :| v != w && IsAbout(a, v, pat) && IsAbout(b, v, pat) && IsAbout(a, w, pat) && IsAbout(b, w, pat);
      assert v in Subjects(a, pat) * Subjects(b, pat) && w in Subjects(a, pat) * Subjects(b, pat);
    }
  }

  lemma MustMeans(c: Claim, pat: Patterns)
    ensures HasMust(c, pat) <==> SaysMust(c, pat)
    ensures HasMustNot(c, pat) <==> SaysMustNot(c, pat)
  {
  }

  lemma SubjectsAre(c: Claim, pat: Patterns)
    ensures forall w :: w in Subjects(c, pat) <==> IsAbout(c, w, pat)
  {
    forall w | IsAbout(c, w, pat) ensures w in Subjects(c, pat) {
      var i :| 0 <= i < |c.propositions| && w in pat.subjects(c.propositions[i]);
      assert c.propositions[i] in c.propositions;
    }
  }

  lemma TwoInCommon<T>(s: set<T>)
    ensures |s| >= 2 <==> exists v, w :: v != w && v in s && w in s
  {
    if |s| >= 2 {
      var v :| v in s;
      assert |s - {v}| >= 1;
      var w :| w in s - {v};
    }
    if exists v, w :: v != w && v in s && w in s {
      var v, w :| v != w && v in s && w in s;
      assert {v, w} <= s && |{v, w}| == 2;
      assert s == {v, w} + (s - {v, w});
    }
  }
}
