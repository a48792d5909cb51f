/** What the recovery operator proposes for what the stress tester finds. */
module RecoveryLaws {
  import opened Text
  import opened WeakestLink
  import opened Belief
  import opened StressTester
  import opened Recovery

  // ---------------------------------------------------------------------------------------
  // Words in a text, ignoring case
  // ---------------------------------------------------------------------------------------

  /** `low` is `s` in lower case. */
  predicate LowerIs(s: string, low: string) { |s| == |low| && forall i :: 0 <= i < |s| ==> LowerChar(s[i]) == low[i] }

  lemma MentionsFirst(first: string, rest: string, word: string)
    requires LowerIs(first, word)
    ensures Mentions(first + rest, word)
  {
    var hay := Lower(first + rest);
    forall i | 0 <= i < |word| ensures hay[i] == word[i] {
      assert (first + rest)[i] == first[i];
    }
    assert OccursAt(hay, word, 0);
  }

  /** No two neighbouring characters are `a` and `b`, ignoring case. */
  predicate NoPair(s: string, a: char, b: char) {
    forall i, j :: 0 <= i < |s| && j == i + 1 && j < |s| ==> LowerChar(s[i]) != a || LowerChar(s[j]) != b
  }

  lemma OccurrenceHasPair(s: string, word: string, i: nat, k: nat)
    requires k + 1 < |word| && OccursAt(Lower(s), word, i)
    ensures i + k + 1 < |s| && LowerChar(s[i + k]) == word[k] && LowerChar(s[i + k + 1]) == word[k + 1]
  {
    var hay := Lower(s);
    assert hay[i + k] == hay[i..i + |word|][k] && hay[i + k + 1] == hay[i..i + |word|][k + 1];
  }

  lemma PairMissing(s: string, word: string, k: nat)
    requires k + 1 < |word| && NoPair(s, word[k], word[k + 1])
    ensures !Mentions(s, word)
  {
    forall i: nat ensures !OccursAt(Lower(s), word, i) {
      if OccursAt(Lower(s), word, i) { OccurrenceHasPair(s, word, i, k); }
    }
  }

  lemma OccurrenceShifts(x: string, y: string, word: string, i: nat)
    requires OccursAt(Lower(y), word, i)
    ensures OccursAt(Lower(x + y), word, |x| + i)
  {
    assert Lower(x + y)[|x| + i..|x| + i + |word|] == Lower(y)[i..i + |word|];
  }

  lemma OccurrenceStays(x: string, y: string, word: string, i: nat)
    requires i + |word| <= |x|
    ensures OccursAt(Lower(x), word, i) <==> OccursAt(Lower(x + y), word, i)
  {
    assert Lower(x + y)[i..i + |word|] == Lower(x)[i..i + |word|];
  }

  lemma OccurrenceInSecond(x: string, y: string, word: string, i: nat)
    requires i >= |x| && OccursAt(Lower(x + y), word, i)
    ensures OccursAt(Lower(y), word, i - |x|)
  {
    assert Lower(x + y)[i..i + |word|] == Lower(y)[i - |x|..i - |x| + |word|];
  }

  /** A place the two parts of a text meet, with a character on one side that the word lacks. */
  predicate Divides(x: string, y: string, word: string) {
    x != "" && y != "" && (LowerChar(x[|x| - 1]) !in word || LowerChar(y[0]) !in word)
  }

  lemma OccurrenceAcross(x: string, y: string, word: string, i: nat)
    requires y != "" && i < |x| < i + |word| && OccursAt(Lower(x + y), word, i)
    ensures LowerChar(x[|x| - 1]) in word && LowerChar(y[0]) in word
  {
    var hay := Lower(x + y);
    assert hay[i..i + |word|][|x| - 1 - i] == LowerChar(x[|x| - 1]);
    assert hay[i..i + |word|][|x| - i] == LowerChar(y[0]);
  }

  /** A text in two such parts mentions a word exactly when one of the parts does. */
  lemma MentionsEither(x: string, y: string, word: string)
    requires Divides(x, y, word)
    ensures Mentions(x + y, word) <==> Mentions(x, word) || Mentions(y, word)
  {
    if Mentions(x, word) {
      var i: nat :| i <= |Lower(x)| && OccursAt(Lower(x), word, i);
      OccurrenceStays(x, y, word, i);
    }
    if Mentions(y, word) {
      var i: nat :| i <= |Lower(y)| && OccursAt(Lower(y), word, i);
      OccurrenceShifts(x, y, word, i);
    }
    if Mentions(x + y, word) {
      var i: nat :| i <= |Lower(x + y)| && OccursAt(Lower(x + y), word, i);
      if i >= |x| {
        OccurrenceInSecond(x, y, word, i);
      } else if i + |word| <= |x| {
        OccurrenceStays(x, y, word, i);
      } else {
        OccurrenceAcross(x, y, word, i);
      }
    }
  }

  // ---------------------------------------------------------------------------------------
  // Every failure of the tester is handled
  // ---------------------------------------------------------------------------------------

  ghost predicate OnSomething(challenge: string, critical: bool) {
    OnVagueness(challenge) || OnTests(challenge) || OnBoundary(challenge) || OnStructure(challenge)
    || (OnConfidence(challenge) && critical)
  }

  /** No character is among `letters`, ignoring case. */
  predicate Lacks(s: string, letters: set<char>) { forall i :: 0 <= i < |s| ==> LowerChar(s[i]) !in letters }

  lemma LetterMissing(s: string, letters: set<char>, word: string, k: nat)
    requires Lacks(s, letters) && k + 1 < |word| && word[k] in letters
    ensures !Mentions(s, word)
  {
    PairMissing(s, word, k);
  }

  lemma NotOnVagueness(s: string, letters: set<char>)
    requires Lacks(s, letters) && ('v' in letters || 'g' in letters)
    ensures !OnVagueness(s)
  {
    LetterMissing(s, letters, "vagueness", if 'v' in letters then 0 else 2);
  }

  /** One of the letters is in "no test". */
  predicate HitsTest(letters: set<char>) {
    ' ' in letters || 't' in letters || 'n' in letters || 's' in letters || 'e' in letters
  }

  lemma NotOnTests(s: string, letters: set<char>)
    requires Lacks(s, letters) && ('f' in letters || 'a' in letters || 's' in letters)
    requires HitsTest(letters) || NoPair(s, 'e', 's')
    ensures !OnTests(s)
  {
    LetterMissing(s, letters, "falsifiability", if 'f' in letters then 0 else if 'a' in letters then 1 else 3);
    if ' ' in letters { LetterMissing(s, letters, "no test", 2); }
    else if 't' in letters { LetterMissing(s, letters, "no test", 3); }
    else if 'n' in letters { LetterMissing(s, letters, "no test", 0); }
    else if 's' in letters { LetterMissing(s, letters, "no test", 5); }
    else if 'e' in letters { LetterMissing(s, letters, "no test", 4); }
    else { PairMissing(s, "no test", 4); }
  }

  lemma NotOnBoundary(s: string, letters: set<char>)
    requires Lacks(s, letters) && 'v' in letters && ('b' in letters || 'o' in letters || 'a' in letters)
    ensures !OnBoundary(s)
  {
    LetterMissing(s, letters, "observability", 5);
    LetterMissing(s, letters, "boundary", if 'b' in letters then 0 else if 'o' in letters then 1 else 5);
  }

  lemma NotOnStructure(s: string, letters: set<char>)
    requires Lacks(s, letters) && 'r' in letters && ('m' in letters || 'p' in letters)
    ensures !OnStructure(s)
  {
    LetterMissing(s, letters, "irreducibility", 1);
    LetterMissing(s, letters, "compound", if 'm' in letters then 2 else 3);
  }

  /** No word of the operator's reaches across a colon, nor across a blank behind other letters
      than those of "no test". */
  predicate Meet(x: string, y: string) {
    x != "" && y != "" && (y[0] == ':' || (y[0] == ' ' && LowerChar(x[|x| - 1]) !in "no test"))
  }

  lemma EarlyWordsEither(x: string, y: string)
    requires Meet(x, y)
    ensures OnVagueness(x + y) <==> OnVagueness(x) || OnVagueness(y)
    ensures OnTests(x + y) <==> OnTests(x) || OnTests(y)
  {
    MentionsEither(x, y, "vagueness");
    MentionsEither(x, y, "falsifiability");
    MentionsEither(x, y, "no test");
  }

  lemma LateWordsEither(x: string, y: string)
    requires Meet(x, y)
    ensures OnBoundary(x + y) <==> OnBoundary(x) || OnBoundary(y)
    ensures OnStructure(x + y) <==> OnStructure(x) || OnStructure(y)
    ensures OnConfidence(x + y) <==> OnConfidence(x) || OnConfidence(y)
  {
    MentionsEither(x, y, "observability");
    MentionsEither(x, y, "boundary");
    MentionsEither(x, y, "irreducibility");
    MentionsEither(x, y, "compound");
    MentionsEither(x, y, "confidence");
  }

  lemma WordsEither(x: string, y: string, z: string)
    requires Meet(x, y) && Meet(x + y, z)
    ensures OnVagueness(x + y + z) <==> OnVagueness(x) || OnVagueness(y) || OnVagueness(z)
    ensures OnTests(x + y + z) <==> OnTests(x) || OnTests(y) || OnTests(z)
    ensures OnBoundary(x + y + z) <==> OnBoundary(x) || OnBoundary(y) || OnBoundary(z)
    ensures OnStructure(x + y + z) <==> OnStructure(x) || OnStructure(y) || OnStructure(z)
    ensures OnConfidence(x + y + z) <==> OnConfidence(x) || OnConfidence(y) || OnConfidence(z)
  {
    EarlyWordsEither(x, y);
    LateWordsEither(x, y);
    EarlyWordsEither(x + y, z);
    LateWordsEither(x + y, z);
  }

  /** Nothing in `s` is about vagueness, tests or a boundary. */
  predicate NoEarlierWord(s: string) { !OnVagueness(s) && !OnTests(s) && !OnBoundary(s) }

  lemma Mentioned(word: string, low: string)
    requires LowerIs(word, low)
    ensures Mentions(word, low)
  {
    MentionsFirst(word, "", low);
    assert word + "" == word;
  }

  lemma FalsifiabilityFirst()
    ensures !OnVagueness("Falsifiability") && OnTests("Falsifiability")
  {
    Mentioned("Falsifiability", "falsifiability");
    NotOnVagueness("Falsifiability", {'v'});
  }

  lemma ObservabilityFirst()
    ensures !OnVagueness("Observability") && !OnTests("Observability") && OnBoundary("Observability")
  {
    Mentioned("Observability", "observability");
    NotOnVagueness("Observability", {'g', 'f', ' '});
    NotOnTests("Observability", {'g', 'f', ' '});
  }

  lemma IrreducibilityFirst()
    ensures NoEarlierWord("Irreducibility") && OnStructure("Irreducibility")
  {
    Mentioned("Irreducibility", "irreducibility");
    Nothing("Irreducibility", {'v', 'f', ' ', 'o'});
  }

  lemma ConfidenceFirst()
    ensures NoEarlierWord("Confidence") && !OnStructure("Confidence") && OnConfidence("Confidence")
  {
    Mentioned("Confidence", "confidence");
    Nothing("Confidence", {'v', 'a', 't', 'r', 'm'});
    NotOnStructure("Confidence", {'v', 'a', 't', 'r', 'm'});
  }

  lemma Nothing(s: string, letters: set<char>)
    requires Lacks(s, letters) && 'v' in letters && ('f' in letters || 'a' in letters || 's' in letters)
    requires HitsTest(letters)
    requires 'b' in letters || 'o' in letters || 'a' in letters
    ensures NoEarlierWord(s)
  {
    NotOnVagueness(s, letters);
    NotOnTests(s, letters);
    NotOnBoundary(s, letters);
  }

  lemma VaguenessIsKnown(rest: string)
    ensures OnVagueness("Vagueness" + rest)
  {
    MentionsFirst("Vagueness", rest, "vagueness");
  }

  lemma TestWording()
    ensures !OnVagueness(Wording(NoTest)) && OnTests(Wording(NoTest))
  {
    var y := ": no test exists to challenge this belief";
    FalsifiabilityFirst();
    NotOnVagueness(y, {'v'});
    EarlyWordsEither("Falsifiability", y);
  }

  lemma ExplicitRest()
    ensures var y := ": no explicit epistemic"; !OnVagueness(y) && !OnTests(y)
  {
    NotOnVagueness(": no explicit epistemic", {'v', 'f'});
    NotOnTests(": no explicit epistemic", {'v', 'f'});
  }

  lemma DeclaredRest()
    ensures var z := " boundary declared"; !OnVagueness(z) && !OnTests(z)
  {
    NotOnVagueness(" boundary declared", {'v', 'f', 't'});
    NotOnTests(" boundary declared", {'v', 'f', 't'});
  }

  lemma BoundaryWording()
    ensures !OnVagueness(Wording(NoBoundary)) && !OnTests(Wording(NoBoundary)) && OnBoundary(Wording(NoBoundary))
  {
    ObservabilityFirst();
    ExplicitRest();
    DeclaredRest();
    WordsEither("Observability", ": no explicit epistemic", " boundary declared");
  }

  lemma ParseableRest()
    ensures var y := ": no parseable propositions"; !OnVagueness(y) && !OnTests(y)
  {
    NotOnVagueness(": no parseable propositions", {'v', 'f'});
    NotOnTests(": no parseable propositions", {'v', 'f'});
  }

  lemma ClaimsWording()
    ensures !OnVagueness(Wording(NoClaims)) && !OnTests(Wording(NoClaims)) && OnBoundary(Wording(NoClaims))
  {
    var y := ": no parseable propositions";
    ObservabilityFirst();
    ParseableRest();
    EarlyWordsEither("Observability", y);
    LateWordsEither("Observability", y);
  }

  lemma ManyRest()
    ensures NoEarlierWord(": compound belief") && NoEarlierWord(" with too many propositions")
  {
    Nothing(": compound belief", {'v', 'a', 't'});
    Nothing(" with too many propositions", {'v', 'f', 'e', 'b'});
  }

  lemma PropositionsWording()
    ensures NoEarlierWord(Wording(TooManyClaims)) && OnStructure(Wording(TooManyClaims))
  {
    IrreducibilityFirst();
    ManyRest();
    WordsEither("Irreducibility", ": compound belief", " with too many propositions");
  }

  lemma CompoundWording()
    ensures NoEarlierWord(Wording(CompoundClaim)) && OnStructure(Wording(CompoundClaim))
  {
    IrreducibilityFirst();
    Nothing(": compound claim", {'v', 'f', 't', 'b'});
    Nothing(" structure detected", {'v', 'f', 'n', 'b'});
    WordsEither("Irreducibility", ": compound claim", " structure detected");
  }

  lemma LinkWording()
    ensures NoEarlierWord(Wording(DanglingLink)) && OnStructure(Wording(DanglingLink))
  {
    var y := ": dangling inferential link";
    IrreducibilityFirst();
    Nothing(y, {'v', 's', 'o'});
    EarlyWordsEither("Irreducibility", y);
    LateWordsEither("Irreducibility", y);
  }

  lemma MediumRest()
    ensures var z := " belief below medium confidence"; NoEarlierWord(z) && !OnStructure(z)
  {
    Nothing(" belief below medium confidence", {'v', 'a', 't', 'r', 'p'});
    NotOnStructure(" belief below medium confidence", {'v', 'a', 't', 'r', 'p'});
  }

  lemma ConfidenceWording()
    ensures var s := Wording(WeakPriority); NoEarlierWord(s) && !OnStructure(s) && OnConfidence(s)
  {
    ConfidenceFirst();
    Nothing(": P1", {'v', 'a', 't', 'r', 'm'});
    NotOnStructure(": P1", {'v', 'a', 't', 'r', 'm'});
    MediumRest();
    WordsEither("Confidence", ": P1", " belief below medium confidence");
  }

  /** Which of the operator's words comes first in each of the tester's wordings. */
  ghost predicate FirstWord(ch: Challenge) {
    var s := Wording(ch);
    match ch
    case VagueTerm | VagueQuantity => OnVagueness(s)
    case NoTest => !OnVagueness(s) && OnTests(s)
    case NoBoundary | NoClaims => !OnVagueness(s) && !OnTests(s) && OnBoundary(s)
    case TooManyClaims | CompoundClaim | DanglingLink => NoEarlierWord(s) && OnStructure(s)
    case WeakPriority => NoEarlierWord(s) && !OnStructure(s) && OnConfidence(s)
  }

  lemma FirstWords(ch: Challenge)
    ensures FirstWord(ch)
  {
    match ch
    case VagueTerm => VaguenessIsKnown(": imprecise term detected");
    case VagueQuantity => VaguenessIsKnown(": unquantified quantity");
    case NoTest => TestWording();
    case NoBoundary => BoundaryWording();
    case NoClaims => ClaimsWording();
    case TooManyClaims => PropositionsWording();
    case CompoundClaim => CompoundWording();
    case DanglingLink => LinkWording();
    case WeakPriority => ConfidenceWording();
  }

  /** Every wording of the tester mentions a word the operator looks for. */
  lemma WordingIsKnown(ch: Challenge)
    ensures OnSomething(Wording(ch), SeverityOf(ch) == Critical)
  {
    FirstWords(ch);
  }

  function StrategyFor(ch: Challenge): Strategy {
    match ch
    case VagueTerm | VagueQuantity => QUANTIFY
    case NoTest | WeakPriority => FALSIFY
    case NoBoundary | NoClaims => CONSTRAIN
    case TooManyClaims | CompoundClaim | DanglingLink => DECOMPOSE
  }

  /** What each failed challenge is to be met with, as the tester words it: one proposal, and a
      second one for an artifact without propositions that lacks a boundary or claims. */
  lemma WordingStrategy(c: Claim, ch: Challenge, id: Id, resolved: bool)
    ensures var ps := ForFailure(c, FailureMode(id, Wording(ch), SeverityOf(ch), resolved));
      && ps != [] && ps[0].strategy == StrategyFor(ch)
      && if c.propositions == [] && (ch == NoBoundary || ch == NoClaims)
         then |ps| == 2 && ps[1].strategy == DECOMPOSE && IsUrgent(ps[1]) else |ps| == 1
  {
    FirstWords(ch);
  }

  predicate IsUrgent(p: Proposal) { p.priority == 1 }

  predicate HasUrgent(ps: seq<Proposal>) { exists i :: 0 <= i < |ps| && IsUrgent(ps[i]) }

  /** What a handled failure gets: at least one proposal, an urgent one if it is critical, and none
      urgent otherwise, unless the artifact has no propositions. */
  ghost predicate IsHandled(c: Claim, fm: FailureMode) {
    && ForFailure(c, fm) != []
    && (fm.severity == Critical ==> HasUrgent(ForFailure(c, fm)))
    && (HasUrgent(ForFailure(c, fm)) ==> fm.severity == Critical || c.propositions == [])
  }

  lemma KnownIsHandled(c: Claim, fm: FailureMode)
    requires OnSomething(fm.challenge, fm.severity == Critical)
    ensures IsHandled(c, fm)
  {
    var ps := ForFailure(c, fm);
    assert fm.severity == Critical ==> IsUrgent(ps[0]);
  }

  // ---------------------------------------------------------------------------------------
  // Strategies for knots
  // ---------------------------------------------------------------------------------------

  lemma DuplicateIsDeprecated(id: string)
    ensures ForKnot(Knot(id, id, DuplicateReason())).strategy == DEPRECATE
  {
    MentionsFirst("Duplicate", " belief ID — " + "two accepted beliefs share the same identifier.", "duplicate");
    assert DuplicateReason() == "Duplicate" + (" belief ID — " + "two accepted beliefs share the same identifier.");
  }

  lemma FixedPartsMentionNothing()
    ensures !Mentions("Negation conflict in '", "duplicate")
    ensures !Mentions("': contradictory MUST/MUST NOT claims.", "duplicate")
  {
    LetterMissing("Negation conflict in '", {'p'}, "duplicate", 2);
    LetterMissing("': contradictory MUST/MUST NOT claims.", {'p'}, "duplicate", 2);
  }

  /** A contradiction is to be resolved, but treated as a duplicate id, with one side deprecated,
      if and only if the name of the component happens to contain "duplicate". */
  lemma ConflictStrategyIff(first: string, second: string, component: string)
    requires component != ""
    ensures var p := ForKnot(Knot(first, second, ConflictReason(component)));
      && (p.strategy == DEPRECATE <==> Mentions(component, "duplicate"))
      && (p.strategy == RESOLVE <==> !Mentions(component, "duplicate"))
  {
    var x, y := "Negation conflict in '", "': contradictory MUST/MUST NOT claims.";
    FixedPartsMentionNothing();
    MentionsEither(x, component, "duplicate");
    MentionsEither(x + component, y, "duplicate");
  }

  /** A smaller priority number means more severe. */
  lemma PriorityFollowsSeverity(a: Severity, b: Severity)
    ensures SeverityPriority(a) <= SeverityPriority(b) <==> AtLeastAsSevere(a, b)
  {
  }

  /** What a proposal for a failure looks like, by its strategy. */
  lemma ProposalShape(c: Claim, fm: FailureMode, p: Proposal)
    requires p in ForFailure(c, fm)
    ensures p.artifactId == c.id && p.challenge == fm.challenge
    ensures var urgency := SeverityPriority(fm.severity);
      match p.strategy
      case QUANTIFY => OnVagueness(fm.challenge) && p.cost == "low" && p.priority == urgency
      case FALSIFY =>
        || (OnTests(fm.challenge) && p.cost == "low" && p.priority == urgency)
        || (OnConfidence(fm.challenge) && p.cost == "medium" && p.priority == 1)
      case CONSTRAIN => OnBoundary(fm.challenge) && p.cost == "low" && p.priority == urgency
      case DECOMPOSE =>
        || (OnBoundary(fm.challenge) && c.propositions == [] && p.cost == "low" && p.priority == 1)
        || (OnStructure(fm.challenge) && p.cost == "medium" && p.priority == urgency)
      case _ => false
  {
  }

  /** A failure gets no proposal exactly if its wording has none of the operator's eight words. */
  lemma IgnoredIff(c: Claim, fm: FailureMode)
    ensures var low := Lower(fm.challenge);
      ForFailure(c, fm) == [] <==>
        && !Contains(low, "vagueness") && !Contains(low, "falsifiability") && !Contains(low, "no test")
        && !Contains(low, "observability") && !Contains(low, "boundary") && !Contains(low, "irreducibility")
        && !Contains(low, "compound") && !Contains(low, "confidence")
  {
  }

  /** A knot gets one proposal, urgent and about its first artifact, that quotes the first 60
      characters of the reason: a cheap deprecation or a resolution at medium cost. */
  lemma KnotProposal(k: Knot)
    ensures var p := ForKnot(k);
      && p.artifactId == k.first && p.priority == 1
      && |p.challenge| >= 12 && p.challenge[..12] == "Logic Knot: "
      && (if |k.reason| <= 60 then p.challenge[12..] == k.reason
          else |p.challenge| == 72 && p.challenge[12..] == k.reason[..60])
      && ((p.strategy == DEPRECATE && p.cost == "low") || (p.strategy == RESOLVE && p.cost == "medium"))
  {
  }
}
