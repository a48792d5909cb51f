/** The architecture interview: always ask about the dimension known least about, until all are
    known well enough.  Confidences are counted in hundredths. */
module Interview {
  import opened PyDict
  import opened Text

  const THRESHOLD := 75
  const FULL := 100

  datatype Dimension = Dimension(confidence: int, answer: string)

  /** `score_answer`; `hasMetrics` is the search for numbers with units. */
  function ScoreAnswer(answer: string, hasMetrics: string -> bool): int {
    var n := |Strip(answer)|;
    if n == 0 then 5
    else if n > 200 || (n > 60 && hasMetrics(Strip(answer))) then 50
    else if n > 60 then 40
    else if n > 15 then 25
    else 10
  }

  predicate IsIncomplete(d: Dimension) { d.confidence < THRESHOLD }

  /** The first incomplete dimension of least confidence among the first `n`, or -1. */
  function TargetUpTo(ds: seq<Dimension>, n: nat): (t: int)
    requires n <= |ds|
    ensures -1 <= t < n
  {
    if n == 0 then -1
    else
      var t := TargetUpTo(ds, n - 1);
      if IsIncomplete(ds[n - 1]) && (t < 0 || ds[n - 1].confidence < ds[t].confidence) then n - 1 else t
  }

  function Target(ds: seq<Dimension>): (t: int)
    ensures -1 <= t < |ds|
  {
    TargetUpTo(ds, |ds|)
  }

  /** An input line as the loop takes it: a word that ends the interview, nothing but blanks, or
      an answer without the blanks around it. */
  datatype Line = Stop | Blank | Answer(text: string)

  function Read(input: string): Line {
    var answer := Strip(input);
    if Lower(answer) == "done" || Lower(answer) == "exit" || Lower(answer) == "quit" then Stop
    else if answer == "" then Blank
    else Answer(answer)
  }

  function ReadAll(inputs: seq<string>, read: string -> Line): (lines: seq<Line>)
    ensures |lines| == |inputs|
  {
    seq(|inputs|, i requires 0 <= i < |inputs| => read(inputs[i]))
  }

  function Scorer(hasMetrics: string -> bool): string -> int { answer => ScoreAnswer(answer, hasMetrics) }

  function Answered(d: Dimension, answer: string, score: string -> int): Dimension {
    var raised := d.confidence + score(answer);
    Dimension(if raised < FULL then raised else FULL, answer)
  }

  /** A blank line changes nothing, and the question is asked again. */
  function AfterLine(ds: seq<Dimension>, line: Line, score: string -> int): (out: seq<Dimension>)
    requires Target(ds) >= 0
    ensures |out| == |ds|
  {
    if line.Answer? then ds[Target(ds) := Answered(ds[Target(ds)], line.text, score)] else ds
  }

  predicate GoesOn(ds: seq<Dimension>, lines: seq<Line>) { Target(ds) >= 0 && lines != [] && lines[0] != Stop }

  /** What the loop makes of the input lines, until they run out. */
  function Interviewed(ds: seq<Dimension>, lines: seq<Line>, score: string -> int): (out: seq<Dimension>)
    ensures |out| == |ds|
    decreases |lines|
  {
    if GoesOn(ds, lines) then Interviewed(AfterLine(ds, lines[0], score), lines[1..], score) else ds
  }

  class ArchitecturalDimension {
    const key: string
    var confidence: int
    var answer: string

    constructor (key: string)
      ensures this.key == key && View() == Dimension(0, "")
    {
      this.key, confidence, answer := key, 0, "";
    }

    function View(): Dimension
      reads this
    {
      Dimension(confidence, answer)
    }
  }

  ghost function Views(dims: seq<ArchitecturalDimension>): (ds: seq<Dimension>)
    reads dims
    ensures |ds| == |dims|
    ensures forall i :: 0 <= i < |ds| ==> ds[i] == dims[i].View()
  {
    seq(|dims|, i requires 0 <= i < |dims| reads dims => dims[i].View())
  }

  /** The loop of `run_interview`. */
  method RunInterview(dims: seq<ArchitecturalDimension>, inputs: seq<string>, hasMetrics: string -> bool)
    requires Distinct(dims)
    modifies dims
    ensures Views(dims) == Interviewed(old(Views(dims)), ReadAll(inputs, Read), Scorer(hasMetrics))
  {
    Ask(dims, inputs, Read, Scorer(hasMetrics));
  }

  method Ask(dims: seq<ArchitecturalDimension>, inputs: seq<string>, read: string -> Line, score: string -> int)
    requires Distinct(dims)
    modifies dims
    ensures Views(dims) == Interviewed(old(Views(dims)), ReadAll(inputs, read), score)
  {
    ghost var lines := ReadAll(inputs, read);
    var next := 0;
    while true
      invariant next <= |inputs|
      invariant Interviewed(Views(dims), lines[next..], score) == Interviewed(old(Views(dims)), lines, score)
      decreases |inputs| - next
    {
      var target := FindTarget(dims, Views(dims));
      if target < 0 { break; }
      if next == |inputs| { break; }
      var line := read(inputs[next]);
      assert lines[next..][0] == line;
      if line == Stop { break; }
      assert lines[next..][1..] == lines[next + 1..];
      if line.Answer? { GiveAnswer(dims, target, line.text, score); }
      next := next + 1;
    }
  }

  method FindTarget(dims: seq<ArchitecturalDimension>, ghost ds: seq<Dimension>) returns (target: int)
    requires |ds| == |dims| && forall i :: 0 <= i < |ds| ==> dims[i].View() == ds[i]
    ensures target == Target(ds)
  {
    target := -1;
    for i := 0 to |dims|
      invariant target == TargetUpTo(ds, i)
    {
      if dims[i].confidence < THRESHOLD && (target < 0 || dims[i].confidence < dims[target].confidence) {
        target := i;
      }
    }
  }

  method GiveAnswer(dims: seq<ArchitecturalDimension>, target: int, answer: string, score: string -> int)
    requires Distinct(dims) && 0 <= target < |dims|
    modifies dims[target]
    ensures Views(dims) == old(Views(dims))[target := Answered(old(dims[target].View()), answer, score)]
  {
    ghost var before := Views(dims);
    var d := dims[target];
    var raised := d.confidence + score(answer);
    d.confidence := if raised < FULL then raised else FULL;
    d.answer := answer;
    forall i | 0 <= i < |dims| && i != target ensures dims[i].View() == before[i] {
      assert IndexOf(dims, dims[i]) == i && IndexOf(dims, dims[target]) == target;
    }
  }
}
