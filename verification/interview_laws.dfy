/** The interview ends soon and is fair. */
module InterviewLaws {
  import opened Text
  import opened Interview

  // ---------------------------------------------------------------------------------------
  // Which dimension is asked about
  // ---------------------------------------------------------------------------------------

  lemma {:induction false} TargetUpToIs(ds: seq<Dimension>, n: nat)
    requires n <= |ds|
    ensures var t := TargetUpTo(ds, n);
      && (t < 0 ==> forall j :: 0 <= j < n ==> !IsIncomplete(ds[j]))
      && (t >= 0 ==> IsIncomplete(ds[t]) && forall j :: 0 <= j < n ==> ds[t].confidence <= ds[j].confidence)
  {
    if n > 0 { TargetUpToIs(ds, n - 1); }
  }

  /** The interview asks about a dimension of least confidence, as long as one is incomplete. */
  lemma TargetIs(ds: seq<Dimension>)
    ensures var t := Target(ds);
      && (t < 0 <==> forall j :: 0 <= j < |ds| ==> !IsIncomplete(ds[j]))
      && (t >= 0 ==> IsIncomplete(ds[t]) && forall j :: 0 <= j < |ds| ==> ds[t].confidence <= ds[j].confidence)
  {
    TargetUpToIs(ds, |ds|);
  }

  // ---------------------------------------------------------------------------------------
  // How many answers it takes
  // ---------------------------------------------------------------------------------------

  /** How many lines the interview takes as answers, and how many of them for dimension `j`. */
  function Answers(ds: seq<Dimension>, lines: seq<Line>, score: string -> int): nat
    decreases |lines|
  {
    if GoesOn(ds, lines) then One(lines[0].Answer?) + Answers(AfterLine(ds, lines[0], score), lines[1..], score) else 0
  }

  function AnswersTo(ds: seq<Dimension>, lines: seq<Line>, score: string -> int, j: nat): nat
    decreases |lines|
  {
    if GoesOn(ds, lines) then
      One(lines[0].Answer? && Target(ds) == j) + AnswersTo(AfterLine(ds, lines[0], score), lines[1..], score, j)
    else 0
  }

  function One(b: bool): nat { if b then 1 else 0 }

  /** How many of the least answers lift a confidence to the threshold. */
  function Needed(confidence: int): nat {
    if confidence >= THRESHOLD then 0 else (THRESHOLD - confidence + 9) / 10
  }

  ghost predicate InRange(lines: seq<Line>, score: string -> int) {
    forall i :: 0 <= i < |lines| && lines[i].Answer? ==> 10 <= score(lines[i].text) <= 50
  }

  lemma RestInRange(lines: seq<Line>, score: string -> int)
    requires lines != [] && InRange(lines, score)
    ensures InRange(lines[1..], score)
  {
  }

  /** What is left of a text after stripping is not stripped further. */
  lemma StripTwice(s: string)
    ensures Strip(Strip(s)) == Strip(s)
  {
    var r := RStrip(s);
    var l := LStrip(r);
    if l != "" { assert l[|l| - 1] == r[|r| - 1]; }
  }

  lemma ReadIsStripped(input: string)
    ensures Read(input).Answer? ==> Read(input).text == Strip(input) && Strip(input) != ""
  {
  }

  lemma ReadInRange(input: string, hasMetrics: string -> bool)
    ensures Read(input).Answer? ==> 10 <= ScoreAnswer(Read(input).text, hasMetrics) <= 50
    ensures Read(input).Answer? && |Strip(input)| <= 15 ==> ScoreAnswer(Read(input).text, hasMetrics) == 10
  {
    ReadIsStripped(input);
    StripTwice(input);
    if Read(input).Answer? { ScoresBySize(Strip(input), hasMetrics); }
  }

  lemma ScoresBySize(answer: string, hasMetrics: string -> bool)
    requires Strip(answer) == answer && answer != ""
    ensures 10 <= ScoreAnswer(answer, hasMetrics) <= 50
    ensures |answer| <= 15 ==> ScoreAnswer(answer, hasMetrics) == 10
  {
  }

  /** Every line that counts as an answer scores between 10 and 50; the answers of up to 15
      characters score 10. */
  lemma InputsAreInRange(inputs: seq<string>, hasMetrics: string -> bool)
    ensures InRange(ReadAll(inputs, Read), Scorer(hasMetrics))
  {
    forall i | 0 <= i < |inputs| && Read(inputs[i]).Answer?
      ensures 10 <= Scorer(hasMetrics)(Read(inputs[i]).text) <= 50
    {
      ReadInRange(inputs[i], hasMetrics);
    }
  }

  lemma AnswerLifts(d: Dimension, answer: string, score: string -> int)
    requires IsIncomplete(d) && 10 <= score(answer) <= 50
    ensures var e := Answered(d, answer, score);
      && d.confidence + 10 <= e.confidence <= FULL && e.confidence <= d.confidence + 50
      && Needed(e.confidence) + 1 <= Needed(d.confidence)
      && (score(answer) == 10 ==> Needed(e.confidence) + 1 == Needed(d.confidence))
  {
  }

  /** One turn of the loop: only the dimension asked about changes, and if there was an answer it
      rises by 10 to 50. */
  lemma TurnLifts(ds: seq<Dimension>, lines: seq<Line>, score: string -> int)
    requires GoesOn(ds, lines) && InRange(lines, score)
    ensures var t, next := Target(ds), AfterLine(ds, lines[0], score);
      && IsIncomplete(ds[t])
      && (forall j :: 0 <= j < |ds| ==> ds[t].confidence <= ds[j].confidence)
      && (forall j :: 0 <= j < |ds| && (j != t || !lines[0].Answer?) ==> next[j] == ds[j])
      && (lines[0].Answer? ==> ds[t].confidence + 10 <= next[t].confidence <= ds[t].confidence + 50)
      && (lines[0].Answer? ==> Needed(next[t].confidence) + 1 <= Needed(ds[t].confidence))
    ensures InRange(lines[1..], score)
  {
    TargetIs(ds);
    RestInRange(lines, score);
    if lines[0].Answer? { AnswerLifts(ds[Target(ds)], lines[0].text, score); }
  }

  /** A dimension takes no more answers than the least answers would need: at most 8 from any
      confidence that is not negative. */
  lemma {:induction false} DimensionTakesFew(ds: seq<Dimension>, lines: seq<Line>, score: string -> int, j: nat)
    requires j < |ds| && InRange(lines, score)
    ensures AnswersTo(ds, lines, score, j) <= Needed(ds[j].confidence)
    ensures ds[j].confidence >= 0 ==> AnswersTo(ds, lines, score, j) <= 8
    decreases |lines|
  {
    if GoesOn(ds, lines) {
      TurnLifts(ds, lines, score);
      DimensionTakesFew(AfterLine(ds, lines[0], score), lines[1..], score, j);
    }
  }

  /** What all dimensions together need. */
  function AllNeeded(ds: seq<Dimension>, n: nat): nat
    requires n <= |ds|
  {
    if n == 0 then 0 else AllNeeded(ds, n - 1) + Needed(ds[n - 1].confidence)
  }

  lemma {:induction false} AllNeededAfter(ds: seq<Dimension>, t: nat, d: Dimension, n: nat)
    requires t < |ds| && n <= |ds|
    ensures AllNeeded(ds[t := d], n)
      == AllNeeded(ds, n) + (if t < n then Needed(d.confidence) - Needed(ds[t].confidence) else 0)
  {
    if n > 0 { AllNeededAfter(ds, t, d, n - 1); }
  }

  lemma TurnNeedsLess(ds: seq<Dimension>, lines: seq<Line>, score: string -> int)
    requires GoesOn(ds, lines) && InRange(lines, score)
    ensures var next := AfterLine(ds, lines[0], score);
      && AllNeeded(next, |next|) + One(lines[0].Answer?) <= AllNeeded(ds, |ds|)
      && (lines[0].Answer? && score(lines[0].text) == 10 ==> AllNeeded(next, |next|) + 1 == AllNeeded(ds, |ds|))
  {
    TargetIs(ds);
    if lines[0].Answer? {
      var t := Target(ds);
      AnswerLifts(ds[t], lines[0].text, score);
      AllNeededAfter(ds, t, Answered(ds[t], lines[0].text, score), |ds|);
    }
  }

  ghost predicate NoneNegative(ds: seq<Dimension>) { forall i :: 0 <= i < |ds| ==> ds[i].confidence >= 0 }

  lemma {:induction false} AtMostEightEach(ds: seq<Dimension>, n: nat)
    requires n <= |ds| && NoneNegative(ds)
    ensures AllNeeded(ds, n) <= 8 * n
  {
    if n > 0 { AtMostEightEach(ds, n - 1); }
  }

  lemma {:induction false} TakesWhatIsNeeded(ds: seq<Dimension>, lines: seq<Line>, score: string -> int)
    requires InRange(lines, score)
    ensures Answers(ds, lines, score) <= AllNeeded(ds, |ds|)
    decreases |lines|
  {
    if GoesOn(ds, lines) {
      TurnNeedsLess(ds, lines, score);
      RestInRange(lines, score);
      TakesWhatIsNeeded(AfterLine(ds, lines[0], score), lines[1..], score);
    }
  }

  /** The whole interview takes at most 8 answers per dimension, 80 for the ten it has, from any
      start without negative confidences. */
  lemma InterviewIsShort(ds: seq<Dimension>, lines: seq<Line>, score: string -> int)
    requires InRange(lines, score) && NoneNegative(ds)
    ensures Answers(ds, lines, score) <= 8 * |ds|
  {
    TakesWhatIsNeeded(ds, lines, score);
    AtMostEightEach(ds, |ds|);
  }

  /** The bound is exact: as long as all answers are of the least score, the interview takes every
      one of them until each dimension had what it needs. */
  lemma {:induction false} LeastAnswersNeedAll(ds: seq<Dimension>, lines: seq<Line>, score: string -> int)
    requires InRange(lines, score)
    requires forall i :: 0 <= i < |lines| ==> lines[i].Answer? && score(lines[i].text) == 10
    ensures Answers(ds, lines, score) == if |lines| < AllNeeded(ds, |ds|) then |lines| else AllNeeded(ds, |ds|)
    decreases |lines|
  {
    TargetIs(ds);
    if GoesOn(ds, lines) {
      TurnNeedsLess(ds, lines, score);
      RestInRange(lines, score);
      LeastAnswersNeedAll(AfterLine(ds, lines[0], score), lines[1..], score);
    } else if Target(ds) < 0 {
      NothingNeeded(ds, |ds|);
    }
  }

  lemma {:induction false} NothingNeeded(ds: seq<Dimension>, n: nat)
    requires n <= |ds| && forall j :: 0 <= j < |ds| ==> !IsIncomplete(ds[j])
    ensures AllNeeded(ds, n) == 0
  {
    if n > 0 { NothingNeeded(ds, n - 1); }
  }

  /** From a fresh start that is 8 for each dimension. */
  lemma {:induction false} FreshNeedsEight(ds: seq<Dimension>, n: nat)
    requires n <= |ds| && forall i :: 0 <= i < |ds| ==> ds[i].confidence == 0
    ensures AllNeeded(ds, n) == 8 * n
  {
    if n > 0 { FreshNeedsEight(ds, n - 1); }
  }

  /** Without a stop word or a blank line, the interview ends with every dimension complete once as
      many answers were given as the dimensions need. */
  lemma {:induction false} EnoughAnswersComplete(ds: seq<Dimension>, lines: seq<Line>, score: string -> int)
    requires InRange(lines, score) && forall i :: 0 <= i < |lines| ==> lines[i].Answer?
    requires |lines| >= AllNeeded(ds, |ds|)
    ensures forall j :: 0 <= j < |ds| ==> !IsIncomplete(Interviewed(ds, lines, score)[j])
    decreases |lines|
  {
    TargetIs(ds);
    if Target(ds) >= 0 {
      NeedsOne(ds, Target(ds), |ds|);
      TurnNeedsLess(ds, lines, score);
      RestInRange(lines, score);
      EnoughAnswersComplete(AfterLine(ds, lines[0], score), lines[1..], score);
    }
  }

  lemma {:induction false} NeedsOne(ds: seq<Dimension>, t: nat, n: nat)
    requires t < n <= |ds| && IsIncomplete(ds[t])
    ensures AllNeeded(ds, n) >= 1
  {
    if t < n - 1 { NeedsOne(ds, t, n - 1); }
  }

  // ---------------------------------------------------------------------------------------
  // Fairness
  // ---------------------------------------------------------------------------------------

  /** No two confidences are more than half of the scale apart. */
  ghost predicate IsEven(ds: seq<Dimension>) {
    forall i, j :: 0 <= i < |ds| && 0 <= j < |ds| ==> ds[i].confidence <= ds[j].confidence + 50
  }

  /** Whatever is answered, an even start stays even, in particular a fresh one. */
  lemma {:induction false} StaysEven(ds: seq<Dimension>, lines: seq<Line>, score: string -> int)
    requires IsEven(ds) && InRange(lines, score)
    ensures IsEven(Interviewed(ds, lines, score))
    decreases |lines|
  {
    if GoesOn(ds, lines) {
      TurnLifts(ds, lines, score);
      StaysEven(AfterLine(ds, lines[0], score), lines[1..], score);
    }
  }

  /** Confidences never fall, and only incomplete dimensions change. */
  lemma {:induction false} NeverFalls(ds: seq<Dimension>, lines: seq<Line>, score: string -> int, j: nat)
    requires j < |ds| && InRange(lines, score)
    ensures var d := Interviewed(ds, lines, score)[j];
      ds[j].confidence <= d.confidence && (!IsIncomplete(ds[j]) ==> d == ds[j])
    decreases |lines|
  {
    if GoesOn(ds, lines) {
      TurnLifts(ds, lines, score);
      NeverFalls(AfterLine(ds, lines[0], score), lines[1..], score, j);
    }
  }

  // ---------------------------------------------------------------------------------------
  // What is kept
  // ---------------------------------------------------------------------------------------

  /** The answers given to dimension `j`, in order. */
  function GivenTo(ds: seq<Dimension>, lines: seq<Line>, score: string -> int, j: nat): seq<string>
    decreases |lines|
  {
    if GoesOn(ds, lines) then
      (if lines[0].Answer? && Target(ds) == j then [lines[0].text] else [])
      + GivenTo(AfterLine(ds, lines[0], score), lines[1..], score, j)
    else []
  }

  function TotalScore(answers: seq<string>, score: string -> int): int {
    if answers == [] then 0 else score(answers[0]) + TotalScore(answers[1..], score)
  }

  function AtMostFull(n: int): int { if n < 100 then n else 100 }

  /** What a dimension becomes with some answers. */
  function With(d: Dimension, given: seq<string>, score: string -> int): Dimension {
    if given == [] then d
    else Dimension(AtMostFull(d.confidence + TotalScore(given, score)), given[|given| - 1])
  }

  lemma WithFirst(d: Dimension, text: string, rest: seq<string>, score: string -> int)
    requires rest != [] ==> Answered(d, text, score).confidence < 75
    ensures With(d, [text] + rest, score) == With(Answered(d, text, score), rest, score)
  {
    var all := [text] + rest;
    assert all[1..] == rest && TotalScore(all, score) == score(text) + TotalScore(rest, score);
    if rest != [] { assert all[|all| - 1] == rest[|rest| - 1]; }
  }

  lemma NextGiven(ds: seq<Dimension>, lines: seq<Line>, score: string -> int, j: nat)
    returns (next: seq<Dimension>, rest: seq<string>)
    requires GoesOn(ds, lines) && j < |ds|
    ensures next == AfterLine(ds, lines[0], score) && rest == GivenTo(next, lines[1..], score, j)
    ensures Interviewed(ds, lines, score) == Interviewed(next, lines[1..], score)
    ensures if lines[0].Answer? && Target(ds) == j
      then next[j] == Answered(ds[j], lines[0].text, score) && GivenTo(ds, lines, score, j) == [lines[0].text] + rest
      else next[j] == ds[j] && GivenTo(ds, lines, score, j) == rest
  {
    next := AfterLine(ds, lines[0], score);
    rest := GivenTo(next, lines[1..], score, j);
    assert [] + rest == rest;
  }

  /** A dimension ends with the last answer given to it, and a confidence of what all of them score
      together, up to the full one; without answers it stays as it was. */
  lemma {:induction false} KeepsLastAnswer(ds: seq<Dimension>, lines: seq<Line>, score: string -> int, j: nat)
    requires j < |ds|
    ensures Interviewed(ds, lines, score)[j] == With(ds[j], GivenTo(ds, lines, score, j), score)
    decreases |lines|
  {
    if GoesOn(ds, lines) {
      var next, rest := NextGiven(ds, lines, score, j);
      KeepsLastAnswer(next, lines[1..], score, j);
      if lines[0].Answer? && Target(ds) == j {
        if rest != [] { GivenWhileIncomplete(next, lines[1..], score, j); }
        WithFirst(ds[j], lines[0].text, rest, score);
      }
    }
  }

  lemma {:induction false} GivenWhileIncomplete(ds: seq<Dimension>, lines: seq<Line>, score: string -> int, j: nat)
    requires j < |ds| && GivenTo(ds, lines, score, j) != []
    ensures ds[j].confidence < 75
    decreases |lines|
  {
    TargetIs(ds);
    var next, rest := NextGiven(ds, lines, score, j);
    if !(lines[0].Answer? && Target(ds) == j) { GivenWhileIncomplete(next, lines[1..], score, j); }
  }

  /** Longer answers and answers with metrics never score less. */
  lemma LongerScoresMore(a: string, b: string, hasMetrics: string -> bool)
    requires |Strip(a)| <= |Strip(b)| && (hasMetrics(Strip(a)) ==> hasMetrics(Strip(b)))
    ensures ScoreAnswer(a, hasMetrics) <= ScoreAnswer(b, hasMetrics)
  {
  }

  /** A line ends the interview exactly when it is one of three words, letter case and blanks around it
      aside; an empty one is passed over; any other is taken without the blanks. */
  lemma ReadIff(input: string)
    ensures Read(input) == Stop <==> Lower(Strip(input)) in {"done", "exit", "quit"}
    ensures Read(input) == Blank <==> Strip(input) == ""
    ensures Read(input).Answer? ==> Read(input).text == Strip(input)
  {
  }
}
