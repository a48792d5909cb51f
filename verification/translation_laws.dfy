/** Which histories stay paired when they are translated for a provider. */
module TranslationLaws {
  import opened AgentLoop
  import opened AgentLoopLaws
  import opened MessageTranslation

  // ---------------------------------------------------------------------------------------
  // Pairing in any format
  // ---------------------------------------------------------------------------------------

  /** What pairing is about: messages that make calls, each with a key, and messages that answer
      one. */
  datatype Shape = Plain | Calls(keys: seq<string>) | Result(key: string)

  predicate Answered(keys: seq<string>, s: seq<Shape>) {
    keys == [] || (s != [] && s[0] == Result(keys[0]) && Answered(keys[1..], s[1..]))
  }

  /** Calls are immediately followed by exactly one result each, with their keys in order, and
      there are no other results. */
  predicate Balanced(s: seq<Shape>)
    decreases |s|
  {
    s == [] ||
    match s[0]
      case Plain => Balanced(s[1..])
      case Calls(keys) => Answered(keys, s[1..]) && |keys| < |s| && Balanced(s[1 + |keys|..])
      case Result(_) => false
  }

  function Results(keys: seq<string>): seq<Shape> {
    if keys == [] then [] else [Result(keys[0])] + Results(keys[1..])
  }

  predicate StartsWithResult(s: seq<Shape>) { s != [] && s[0].Result? }

  /** Calls followed by results are balanced exactly when the keys are the same. */
  lemma {:induction false} BalancedBlockIff(keys: seq<string>, answers: seq<string>, rest: seq<Shape>)
    requires !StartsWithResult(rest)
    ensures Balanced([Calls(keys)] + (Results(answers) + rest)) <==> keys == answers && Balanced(rest)
  {
    var s := [Calls(keys)] + (Results(answers) + rest);
    assert s[1..] == Results(answers) + rest;
    if Answered(keys, s[1..]) { AnsweredIsEnough(keys, s[1..]); }
    if |keys| < |s| { assert s[1 + |keys|..] == s[1..][|keys|..]; }
    TailIff(keys, answers, rest);
  }

  lemma {:induction false} AnsweredIsEnough(keys: seq<string>, s: seq<Shape>)
    requires Answered(keys, s)
    ensures |keys| <= |s|
  {
    if keys != [] { AnsweredIsEnough(keys[1..], s[1..]); }
  }

  lemma HeadAndTail<T>(a: seq<T>, b: seq<T>)
    requires a != [] && b != []
    ensures a == b <==> a[0] == b[0] && a[1..] == b[1..]
  {
    assert a == [a[0]] + a[1..] && b == [b[0]] + b[1..];
  }

  lemma {:induction false} TailIff(keys: seq<string>, answers: seq<string>, rest: seq<Shape>)
    requires !StartsWithResult(rest)
    ensures var tail := Results(answers) + rest;
      (Answered(keys, tail) && |keys| <= |tail| && Balanced(tail[|keys|..])) <==> keys == answers && Balanced(rest)
  {
    var tail := Results(answers) + rest;
    if answers == [] {
      assert tail == rest;
    } else {
      assert tail[1..] == Results(answers[1..]) + rest;
      if keys != [] {
        TailIff(keys[1..], answers[1..], rest);
        if |keys| <= |tail| { assert tail[|keys|..] == tail[1..][|keys| - 1..]; }
        HeadAndTail(keys, answers);
      }
    }
  }

  // ---------------------------------------------------------------------------------------
  // Anthropic: pairing by id
  // ---------------------------------------------------------------------------------------

  function UseIds<I>(blocks: seq<Block<I>>): seq<string> {
    if blocks == [] then []
    else if blocks[0].ToolUse? then [blocks[0].id] + UseIds(blocks[1..])
    else UseIds(blocks[1..])
  }

  function AShape<I>(m: AMessage<I>): Shape {
    match m
    case AUser(_) => Plain
    case AAssistant(blocks) => Calls(UseIds(blocks))
    case AResult(id, _) => Result(id)
  }

  function AShapes<I>(ms: seq<AMessage<I>>): seq<Shape> {
    if ms == [] then [] else [AShape(ms[0])] + AShapes(ms[1..])
  }

  /** The ids of the calls that have a name, a made-up one where there is none. */
  function NamedIds<I>(calls: seq<Call>, out: Outside<I>, left: nat, k: nat): seq<string> {
    if calls == [] then []
    else if Named(out, calls[0]) then [IdOf(out, left, k, calls[0])] + NamedIds(calls[1..], out, left, k + 1)
    else NamedIds(calls[1..], out, left, k + 1)
  }

  /** The ids that are not empty. */
  function Ids(calls: seq<Call>): seq<string> {
    if calls == [] then []
    else if calls[0].id != "" then [calls[0].id] + Ids(calls[1..])
    else Ids(calls[1..])
  }

  lemma UseIdsAfterText<I>(text: string, uses: seq<Block<I>>)
    ensures UseIds(TextBlocks(text) + uses) == UseIds(uses)
  {
    if text == "" {
      assert TextBlocks(text) + uses == uses;
    } else {
      assert (TextBlocks(text) + uses)[1..] == uses;
    }
  }

  lemma UseIdsAfterUse<I>(call: Call, out: Outside<I>, left: nat, k: nat, uses: seq<Block<I>>)
    ensures UseIds(Use(call, out, left, k) + uses)
      == if Named(out, call) then [IdOf(out, left, k, call)] + UseIds(uses) else UseIds(uses)
  {
    var all := Use(call, out, left, k) + uses;
    if Named(out, call) { assert all[1..] == uses; } else { assert all == uses; }
  }

  lemma {:induction false} UsesHaveNamedIds<I>(calls: seq<Call>, out: Outside<I>, left: nat, k: nat)
    ensures UseIds(Uses(calls, out, left, k)) == NamedIds(calls, out, left, k)
  {
    if calls != [] {
      UsesHaveNamedIds(calls[1..], out, left, k + 1);
      UseIdsAfterUse(calls[0], out, left, k, Uses(calls[1..], out, left, k + 1));
    }
  }

  lemma BlocksHaveNamedIds<I>(m: Message, out: Outside<I>, left: nat)
    requires m.Assistant?
    ensures UseIds(ABlocks(m, out, left)) == NamedIds(m.calls, out, left, 0)
  {
    UsesHaveNamedIds(m.calls, out, left, 0);
    UseIdsAfterText(m.text, Uses(m.calls, out, left, 0));
  }

  lemma AnswerBecomesResult<I>(ms: seq<Message>, out: Outside<I>) returns (rest: seq<AMessage<I>>)
    requires ms != [] && ms[0].Tool?
    ensures rest == AAll(ms[1..], out)
    ensures AShapes(AAll(ms, out)) == (if ms[0].id == "" then [] else [Result(ms[0].id)]) + AShapes(rest)
  {
    rest := AAll(ms[1..], out);
    assert AAll(ms, out) == AOne(ms[0], out, |ms|) + rest;
    if ms[0].id == "" {
      assert AAll(ms, out) == rest;
    } else {
      assert AAll(ms, out)[1..] == rest;
    }
  }

  /** The messages that answer calls become the results for the calls with an id. */
  lemma {:induction false} AnswersBecomeResults<I>(calls: seq<Call>, ms: seq<Message>, out: Outside<I>)
    returns (rest: seq<AMessage<I>>)
    requires Answers(calls, ms)
    ensures |calls| <= |ms| && rest == AAll(ms[|calls|..], out)
    ensures AShapes(AAll(ms, out)) == Results(Ids(calls)) + AShapes(rest)
  {
    AnswersAreEnough(calls, ms);
    if calls == [] {
      rest := AAll(ms, out);
      assert ms[0..] == ms;
    } else {
      rest := AnswersBecomeResults(calls[1..], ms[1..], out);
      DropTwice(ms, 1, |calls| - 1);
      var next := AnswerBecomesResult(ms, out);
      PrependResult(calls[0].id != "", calls[0].id, Ids(calls[1..]), AShapes(rest));
    }
  }

  lemma DropTwice<T>(s: seq<T>, m: nat, n: nat)
    requires m + n <= |s|
    ensures s[m..][n..] == s[m + n..]
  {
  }

  /** A call has a name if and only if it has an id. */
  predicate Matched<I>(out: Outside<I>, call: Call) { Named(out, call) <==> call.id != "" }

  ghost predicate AllMatched<I>(out: Outside<I>, ms: seq<Message>) {
    forall i :: 0 <= i < |ms| && ms[i].Assistant? ==> CallsMatched(out, ms[i].calls)
  }

  ghost predicate CallsMatched<I>(out: Outside<I>, calls: seq<Call>) {
    forall k :: 0 <= k < |calls| ==> Matched(out, calls[k])
  }

  /** No made-up id is the id of a call. */
  ghost predicate NewIds<I>(calls: seq<Call>, out: Outside<I>) {
    forall left: nat, k: nat :: "tool_" + out.uuid(left, k) !in Ids(calls)
  }

  lemma {:induction false} SameIdsIff<I>(calls: seq<Call>, out: Outside<I>, left: nat)
    requires NewIds(calls, out)
    ensures NamedIds(calls, out, left, 0) == Ids(calls) <==> CallsMatched(out, calls)
  {
    if CallsMatched(out, calls) { MatchedIdsAgree(calls, out, left, 0); }
    if NamedIds(calls, out, left, 0) == Ids(calls) {
      forall j | 0 <= j < |calls| && Named(out, calls[j]) ensures calls[j].id != "" {
        NamedIdIsThere(calls, out, left, 0, j);
      }
      FewerNamedIds(calls, out, left, 0);
    }
  }

  lemma {:induction false} MatchedIdsAgree<I>(calls: seq<Call>, out: Outside<I>, left: nat, k: nat)
    requires CallsMatched(out, calls)
    ensures NamedIds(calls, out, left, k) == Ids(calls)
  {
    if calls != [] {
      assert Matched(out, calls[0]);
      MatchedIdsAgree(calls[1..], out, left, k + 1);
    }
  }

  lemma {:induction false} NamedIdIsThere<I>(calls: seq<Call>, out: Outside<I>, left: nat, k: nat, j: nat)
    requires j < |calls| && Named(out, calls[j])
    ensures IdOf(out, left, k + j, calls[j]) in NamedIds(calls, out, left, k)
  {
    if j > 0 { NamedIdIsThere(calls[1..], out, left, k + 1, j - 1); }
  }

  lemma {:induction false} FewerNamedIds<I>(calls: seq<Call>, out: Outside<I>, left: nat, k: nat)
    requires forall j :: 0 <= j < |calls| && Named(out, calls[j]) ==> calls[j].id != ""
    ensures |NamedIds(calls, out, left, k)| <= |Ids(calls)|
    ensures |NamedIds(calls, out, left, k)| == |Ids(calls)| ==> CallsMatched(out, calls)
  {
    if calls != [] {
      FewerNamedIds(calls[1..], out, left, k + 1);
      if |NamedIds(calls, out, left, k)| == |Ids(calls)| {
        forall j | 0 <= j < |calls| ensures Matched(out, calls[j]) {
          if j > 0 { assert calls[j] == calls[1..][j - 1]; }
        }
      }
    }
  }

  lemma {:induction false} NoResultFirst<I>(ms: seq<Message>, out: Outside<I>)
    requires Paired(ms)
    ensures !StartsWithResult(AShapes(AAll(ms, out)))
  {
    if ms != [] && ms[0].System? {
      NoResultFirst(ms[1..], out);
      assert AAll(ms, out) == AAll(ms[1..], out);
    }
  }

  /** The named calls of a turn, with made-up ids where there are none, have the ids its answers
      name. */
  predicate TurnKeepsIds<I>(out: Outside<I>, m: Message, left: nat) {
    m.Assistant? ==> NamedIds(m.calls, out, left, 0) == Ids(m.calls)
  }

  ghost predicate TurnsKeepIds<I>(out: Outside<I>, ms: seq<Message>) {
    forall i :: 0 <= i < |ms| ==> TurnKeepsIds(out, ms[i], |ms| - i)
  }

  /** For any paired history and any made-up ids the translation is paired by id if and only if
      every turn keeps its ids. */
  lemma {:induction false} AnthropicTurnsIff<I>(ms: seq<Message>, out: Outside<I>)
    requires Paired(ms)
    ensures Balanced(AShapes(AAll(ms, out))) <==> TurnsKeepIds(out, ms)
    decreases |ms|
  {
    if ms != [] {
      var n := BlockSize(ms);
      AnthropicStep(ms, out);
      OneBlock(ms);
      AnthropicTurnsIff(ms[n..], out);
      KeptTail(out, ms, n);
    }
  }

  lemma KeptTail<I>(out: Outside<I>, ms: seq<Message>, n: nat)
    requires 1 <= n <= |ms| && forall i :: 1 <= i < n ==> !ms[i].Assistant?
    ensures TurnsKeepIds(out, ms) <==> TurnKeepsIds(out, ms[0], |ms|) && TurnsKeepIds(out, ms[n..])
  {
    if TurnKeepsIds(out, ms[0], |ms|) && TurnsKeepIds(out, ms[n..]) {
      forall i | 0 <= i < |ms| ensures TurnKeepsIds(out, ms[i], |ms| - i) {
        if i >= n { assert TurnKeepsIds(out, ms[n..][i - n], |ms[n..]| - (i - n)); }
      }
    }
    if TurnsKeepIds(out, ms) {
      forall i | 0 <= i < |ms[n..]| ensures TurnKeepsIds(out, ms[n..][i], |ms[n..]| - i) {
        assert TurnKeepsIds(out, ms[n + i], |ms| - (n + i));
      }
    }
  }

  /** When made-up ids are new, this is so if and only if every call has both a name and an id or
      neither: a nameless call is dropped but its answer kept, a call without id gets a made-up one
      and its answer is dropped. */
  lemma AnthropicPairsIff<I>(ms: seq<Message>, out: Outside<I>)
    requires Paired(ms)
    requires forall i :: 0 <= i < |ms| && ms[i].Assistant? ==> NewIds(ms[i].calls, out)
    ensures Balanced(AShapes(AAll(ms, out))) <==> AllMatched(out, ms)
  {
    AnthropicTurnsIff(ms, out);
    forall i | 0 <= i < |ms| && ms[i].Assistant?
      ensures TurnKeepsIds(out, ms[i], |ms| - i) <==> CallsMatched(out, ms[i].calls)
    {
      SameIdsIff(ms[i].calls, out, |ms| - i);
    }
  }

  /** Calls that have both a name and an id stay paired whatever ids are made up for others. */
  lemma AnthropicPairs<I>(ms: seq<Message>, out: Outside<I>)
    requires Paired(ms) && AllMatched(out, ms)
    ensures Balanced(AShapes(AAll(ms, out)))
  {
    AnthropicTurnsIff(ms, out);
    forall i | 0 <= i < |ms| && ms[i].Assistant? ensures TurnKeepsIds(out, ms[i], |ms| - i) {
      MatchedIdsAgree(ms[i].calls, out, |ms| - i, 0);
    }
  }

  /** The first message of a paired history together with its answers. */
  function BlockSize(ms: seq<Message>): (n: nat)
    requires ms != [] && Paired(ms)
    ensures 1 <= n <= |ms|
  {
    if ms[0].Assistant? then 1 + |ms[0].calls| else 1
  }

  lemma OneBlock(ms: seq<Message>)
    requires ms != [] && Paired(ms)
    ensures Paired(ms[BlockSize(ms)..])
    ensures forall i :: 1 <= i < BlockSize(ms) ==> ms[i].Tool?
  {
    if ms[0].Assistant? {
      AnswersAreTools(ms[0].calls, ms[1..]);
      forall i | 1 <= i < BlockSize(ms) ensures ms[i].Tool? { assert ms[i] == ms[1..][i - 1]; }
    }
  }

  /** A translation is paired when its first block is and the rest is. */
  lemma AnthropicStep<I>(ms: seq<Message>, out: Outside<I>)
    requires ms != [] && Paired(ms)
    ensures Balanced(AShapes(AAll(ms, out)))
      <==> ((ms[0].Assistant? ==> NamedIds(ms[0].calls, out, |ms|, 0) == Ids(ms[0].calls))
            && Balanced(AShapes(AAll(ms[BlockSize(ms)..], out))))
  {
    var rest := AAll(ms[1..], out);
    match ms[0] {
      case System(_) =>
        assert AAll(ms, out) == rest;
      case User(text) =>
        assert AAll(ms, out)[1..] == rest;
        assert AShapes(AAll(ms, out))[1..] == AShapes(rest);
      case Assistant(_, calls) =>
        AnthropicBlock(ms, out);
    }
  }

  lemma AnthropicBlock<I>(ms: seq<Message>, out: Outside<I>)
    requires Paired(ms) && ms != [] && ms[0].Assistant?
    ensures Balanced(AShapes(AAll(ms, out)))
      <==> (NamedIds(ms[0].calls, out, |ms|, 0) == Ids(ms[0].calls)
            && Balanced(AShapes(AAll(ms[1 + |ms[0].calls|..], out))))
  {
    var calls := ms[0].calls;
    var after := ms[1 + |calls|..];
    assert ms[1..][|calls|..] == after;
    var answered := AnswersBecomeResults(calls, ms[1..], out);
    NoResultFirst(after, out);
    BlocksHaveNamedIds(ms[0], out, |ms|);
    assert AAll(ms, out)[1..] == AAll(ms[1..], out);
    BalancedBlockIff(NamedIds(calls, out, |ms|, 0), Ids(calls), AShapes(AAll(after, out)));
  }

  lemma {:induction false} AnswersAreTools(calls: seq<Call>, ms: seq<Message>)
    requires Answers(calls, ms) && |calls| <= |ms|
    ensures forall k :: 0 <= k < |calls| ==> ms[k].Tool?
  {
    if calls != [] {
      AnswersAreTools(calls[1..], ms[1..]);
      forall k | 0 <= k < |calls| ensures ms[k].Tool? {
        if k > 0 { assert ms[k] == ms[1..][k - 1]; }
      }
    }
  }

  // ---------------------------------------------------------------------------------------
  // Google: pairing by name
  // ---------------------------------------------------------------------------------------

  function FunctionNames<I>(parts: seq<Part<I>>): seq<string> {
    if parts == [] then []
    else if parts[0].FunctionCall? then [parts[0].name] + FunctionNames(parts[1..])
    else FunctionNames(parts[1..])
  }

  function GShape<I>(c: Content<I>): Shape {
    match c
    case GUser(_) => Plain
    case GModel(parts) => Calls(FunctionNames(parts))
    case GResponse(name, _) => Result(name)
  }

  function GShapes<I>(contents: seq<Content<I>>): seq<Shape> {
    if contents == [] then [] else [GShape(contents[0])] + GShapes(contents[1..])
  }

  /** The names of the calls that have one. */
  function CallNames<I>(calls: seq<Call>, out: Outside<I>): seq<string> {
    if calls == [] then []
    else if Named(out, calls[0]) then [out.strip(calls[0].name)] + CallNames(calls[1..], out)
    else CallNames(calls[1..], out)
  }

  /** The names given to the answers of the calls that have an id. */
  function AnswerNames(names: Names, calls: seq<Call>): seq<string> {
    if calls == [] then []
    else if calls[0].id != "" then [NameFor(names, calls[0].id)] + AnswerNames(names, calls[1..])
    else AnswerNames(names, calls[1..])
  }

  lemma FunctionNamesAfterText<I>(text: string, parts: seq<Part<I>>)
    ensures FunctionNames(TextParts(text) + parts) == FunctionNames(parts)
  {
    if text == "" {
      assert TextParts(text) + parts == parts;
    } else {
      assert (TextParts(text) + parts)[1..] == parts;
    }
  }

  lemma {:induction false} FunctionsHaveCallNames<I>(calls: seq<Call>, out: Outside<I>)
    ensures FunctionNames(Functions(calls, out)) == CallNames(calls, out)
  {
    if calls != [] {
      FunctionsHaveCallNames(calls[1..], out);
      if Named(out, calls[0]) {
        assert Functions(calls, out)[1..] == Functions(calls[1..], out);
      } else {
        assert Functions(calls, out) == Functions(calls[1..], out);
      }
    }
  }

  lemma PartsHaveCallNames<I>(m: Message, out: Outside<I>)
    requires m.Assistant?
    ensures FunctionNames(GParts(m, out)) == CallNames(m.calls, out)
  {
    FunctionsHaveCallNames(m.calls, out);
    FunctionNamesAfterText(m.text, Functions(m.calls, out));
  }

  lemma {:induction false} AnswersBecomeResponses<I>(names: Names, calls: seq<Call>, ms: seq<Message>, out: Outside<I>)
    returns (rest: seq<Content<I>>)
    requires Answers(calls, ms)
    ensures |calls| <= |ms| && rest == GAll(names, ms[|calls|..], out)
    ensures GShapes(GAll(names, ms, out)) == Results(AnswerNames(names, calls)) + GShapes(rest)
  {
    AnswersAreEnough(calls, ms);
    if calls == [] {
      rest := GAll(names, ms, out);
      assert ms[0..] == ms;
    } else {
      rest := AnswersBecomeResponses(names, calls[1..], ms[1..], out);
      DropTwice(ms, 1, |calls| - 1);
      var next := ResponseFirst(names, calls[0], ms, out);
      PrependResult(calls[0].id != "", NameFor(names, calls[0].id), AnswerNames(names, calls[1..]), GShapes(rest));
    }
  }

  lemma PrependResult(some: bool, key: string, keys: seq<string>, rest: seq<Shape>)
    ensures (if some then [Result(key)] else []) + (Results(keys) + rest)
      == Results(if some then [key] + keys else keys) + rest
  {
    if some { assert ([key] + keys)[1..] == keys; }
  }

  lemma ResponseFirst<I>(names: Names, call: Call, ms: seq<Message>, out: Outside<I>) returns (rest: seq<Content<I>>)
    requires ms != [] && ms[0].Tool? && ms[0].id == call.id
    ensures rest == GAll(names, ms[1..], out)
    ensures GShapes(GAll(names, ms, out))
      == (if call.id != "" then [Result(NameFor(names, call.id))] else []) + GShapes(rest)
  {
    rest := GAll(names, ms[1..], out);
    if call.id == "" {
      assert GAll(names, ms, out) == rest;
    } else {
      assert GAll(names, ms, out)[1..] == rest;
    }
  }

  lemma {:induction false} NoResponseFirst<I>(names: Names, ms: seq<Message>, out: Outside<I>)
    requires Paired(ms)
    ensures !StartsWithResult(GShapes(GAll(names, ms, out)))
  {
    if ms != [] && ms[0].System? {
      NoResponseFirst(names, ms[1..], out);
      assert GAll(names, ms, out) == GAll(names, ms[1..], out);
    }
  }

  /** The named calls of a turn and the answers to its calls with ids carry the same names in the
      same order, the answers being named by the id last seen. */
  predicate TurnAgrees<I>(names: Names, m: Message, out: Outside<I>, left: nat) {
    m.Assistant? ==> CallNames(m.calls, out) == AnswerNames(NamesAfter(names, m, out, left), m.calls)
  }

  predicate TurnsAgree<I>(names: Names, ms: seq<Message>, out: Outside<I>)
    decreases |ms|
  {
    ms == [] || (TurnAgrees(names, ms[0], out, |ms|) && TurnsAgree(NamesAfter(names, ms[0], out, |ms|), ms[1..], out))
  }

  lemma {:induction false} ToolsAgree<I>(names: Names, ms: seq<Message>, n: nat, out: Outside<I>)
    requires n <= |ms| && forall i :: 0 <= i < n ==> ms[i].Tool?
    ensures TurnsAgree(names, ms, out) <==> TurnsAgree(names, ms[n..], out)
  {
    if n == 0 {
      assert ms[0..] == ms;
    } else {
      ToolsAgree(names, ms[1..], n - 1, out);
      assert ms[1..][n - 1..] == ms[n..];
    }
  }

  /** For any paired history the translation is paired by name if and only if every turn agrees. */
  lemma {:induction false} GoogleTurnsIff<I>(names: Names, ms: seq<Message>, out: Outside<I>)
    requires Paired(ms)
    ensures Balanced(GShapes(GAll(names, ms, out))) <==> TurnsAgree(names, ms, out)
    decreases |ms|
  {
    if ms != [] {
      var n, after := BlockSize(ms), NamesAfter(names, ms[0], out, |ms|);
      GoogleStep(names, ms, out);
      OneBlock(ms);
      GoogleTurnsIff(after, ms[n..], out);
      forall i | 0 <= i < n - 1 ensures ms[1..][i].Tool? { assert ms[1..][i] == ms[i + 1]; }
      ToolsAgree(after, ms[1..], n - 1, out);
      assert ms[1..][n - 1..] == ms[n..];
    }
  }

  lemma GoogleStep<I>(names: Names, ms: seq<Message>, out: Outside<I>)
    requires Paired(ms) && ms != []
    ensures Balanced(GShapes(GAll(names, ms, out)))
      <==> (TurnAgrees(names, ms[0], out, |ms|)
            && Balanced(GShapes(GAll(NamesAfter(names, ms[0], out, |ms|), ms[BlockSize(ms)..], out))))
  {
    var rest := GAll(NamesAfter(names, ms[0], out, |ms|), ms[1..], out);
    match ms[0] {
      case System(_) =>
        assert GAll(names, ms, out) == rest;
      case User(text) =>
        assert GAll(names, ms, out)[1..] == rest;
        assert GShapes(GAll(names, ms, out))[1..] == GShapes(rest);
      case Assistant(_, calls) =>
        GoogleBlock(names, ms, out);
    }
  }

  lemma GoogleBlock<I>(names: Names, ms: seq<Message>, out: Outside<I>)
    requires Paired(ms) && ms != [] && ms[0].Assistant?
    ensures Balanced(GShapes(GAll(names, ms, out)))
      <==> (TurnAgrees(names, ms[0], out, |ms|)
            && Balanced(GShapes(GAll(NamesAfter(names, ms[0], out, |ms|), ms[1 + |ms[0].calls|..], out))))
  {
    var calls := ms[0].calls;
    var after := NamesAfter(names, ms[0], out, |ms|);
    var rest := ms[1 + |calls|..];
    assert ms[1..][|calls|..] == rest;
    var answered := AnswersBecomeResponses(after, calls, ms[1..], out);
    NoResponseFirst(after, rest, out);
    PartsHaveCallNames(ms[0], out);
    assert GAll(names, ms, out)[1..] == GAll(after, ms[1..], out);
    BalancedBlockIff(CallNames(calls, out), AnswerNames(after, calls), GShapes(GAll(after, rest, out)));
  }

  // ---------------------------------------------------------------------------------------
  // When turns agree
  // ---------------------------------------------------------------------------------------

  /** Named calls that share an id share their name. */
  ghost predicate IdsNameOneTool<I>(out: Outside<I>, calls: seq<Call>) {
    forall j, k :: 0 <= j < |calls| && 0 <= k < |calls| && calls[j].id == calls[k].id != ""
      ==> out.strip(calls[j].name) == out.strip(calls[k].name)
  }

  ghost predicate AllNameOneTool<I>(out: Outside<I>, ms: seq<Message>) {
    forall i :: 0 <= i < |ms| && ms[i].Assistant? ==> IdsNameOneTool(out, ms[i].calls)
  }

  /** After some calls an id has the name of the last of them that has this id. */
  lemma {:induction false} LastNameWins<I>(names: Names, calls: seq<Call>, out: Outside<I>, left: nat, k: nat,
                                           id: string)
    returns (j: nat)
    requires CallsMatched(out, calls) && id != ""
    ensures var after := NamesAfterCalls(names, calls, out, left, k);
      && (j < |calls| ==> calls[j].id == id && id in after && after[id] == out.strip(calls[j].name))
      && (j >= |calls| ==>
           (forall i :: 0 <= i < |calls| ==> calls[i].id != id)
           && (id in after <==> id in names) && (id in names ==> after[id] == names[id]))
    decreases |calls|
  {
    if calls == [] { return 0; }
    assert Matched(out, calls[0]);
    j := LastNameWins(NamesAfterCall(names, calls[0], out, left, k), calls[1..], out, left, k + 1, id);
    if j >= |calls| - 1 && calls[0].id == id { return 0; }
    forall i | 0 <= i < |calls| && j >= |calls| - 1 ensures calls[i].id != id {
      if i > 0 { assert calls[i] == calls[1..][i - 1]; }
    }
    j := j + 1;
  }

  lemma {:induction false} SameNamesAt<I>(names: Names, calls: seq<Call>, out: Outside<I>)
    requires CallsMatched(out, calls)
    ensures CallNames(calls, out) == AnswerNames(names, calls)
      <==> forall i :: 0 <= i < |calls| && calls[i].id != "" ==> NameFor(names, calls[i].id) == out.strip(calls[i].name)
  {
    if calls != [] {
      assert Matched(out, calls[0]);
      SameNamesAt(names, calls[1..], out);
      if calls[0].id != "" { HeadAndTail(CallNames(calls, out), AnswerNames(names, calls)); }
      assert forall i :: 1 <= i < |calls| ==> calls[i] == calls[1..][i - 1];
    }
  }

  lemma SameNamesIff<I>(names: Names, calls: seq<Call>, out: Outside<I>, left: nat)
    requires CallsMatched(out, calls)
    ensures CallNames(calls, out) == AnswerNames(NamesAfterCalls(names, calls, out, left, 0), calls)
      <==> IdsNameOneTool(out, calls)
  {
    var after := NamesAfterCalls(names, calls, out, left, 0);
    SameNamesAt(after, calls, out);
    if IdsNameOneTool(out, calls) {
      forall i | 0 <= i < |calls| && calls[i].id != "" ensures NameFor(after, calls[i].id) == out.strip(calls[i].name) {
        var j := LastNameWins(names, calls, out, left, 0, calls[i].id);
      }
    }
  }

  lemma {:induction false} TurnsAgreeIff<I>(names: Names, ms: seq<Message>, out: Outside<I>)
    requires AllMatched(out, ms)
    ensures TurnsAgree(names, ms, out) <==> AllNameOneTool(out, ms)
    decreases |ms|
  {
    if ms != [] {
      TurnsAgreeIff(NamesAfter(names, ms[0], out, |ms|), ms[1..], out);
      if ms[0].Assistant? { SameNamesIff(names, ms[0].calls, out, |ms|); }
      NameOneToolTail(out, ms);
    }
  }

  lemma NameOneToolTail<I>(out: Outside<I>, ms: seq<Message>)
    requires ms != []
    ensures AllNameOneTool(out, ms)
      <==> ((ms[0].Assistant? ==> IdsNameOneTool(out, ms[0].calls)) && AllNameOneTool(out, ms[1..]))
  {
    if (ms[0].Assistant? ==> IdsNameOneTool(out, ms[0].calls)) && AllNameOneTool(out, ms[1..]) {
      forall i | 0 <= i < |ms| && ms[i].Assistant? ensures IdsNameOneTool(out, ms[i].calls) {
        if i > 0 { assert ms[i] == ms[1..][i - 1]; }
      }
    }
  }

  /** For a paired history whose calls each have both a name and an id or neither, the translation
      is paired by name if and only if within each turn calls that share an id share their name;
      ids may come back in later turns. */
  lemma GooglePairsIff<I>(names: Names, ms: seq<Message>, out: Outside<I>)
    requires Paired(ms) && AllMatched(out, ms)
    ensures Balanced(GShapes(GAll(names, ms, out))) <==> AllNameOneTool(out, ms)
  {
    GoogleTurnsIff(names, ms, out);
    TurnsAgreeIff(names, ms, out);
  }

  // ---------------------------------------------------------------------------------------
  // Every prompt of a run
  // ---------------------------------------------------------------------------------------

  /** Each call has both a name and an id or neither, and no id names two tools. */
  ghost predicate GoodCalls<I>(out: Outside<I>, calls: seq<Call>) {
    CallsMatched(out, calls) && IdsNameOneTool(out, calls)
  }

  /** A paired history with such calls only. */
  ghost predicate Translatable<I>(out: Outside<I>, ms: seq<Message>) {
    Paired(ms) && AllMatched(out, ms) && AllNameOneTool(out, ms)
  }

  /** Both translations keep the pairing. */
  ghost predicate Translates<I>(out: Outside<I>, ms: seq<Message>) {
    Balanced(AShapes(AAll(ms, out))) && Balanced(GShapes(GAll(map[], ms, out)))
  }

  lemma TranslatesToBoth<I>(out: Outside<I>, ms: seq<Message>)
    requires Translatable(out, ms)
    ensures Translates(out, ms)
  {
    AnthropicPairs(ms, out);
    GooglePairsIff(map[], ms, out);
  }

  lemma BlockIsGood<I>(out: Outside<I>, w: World, turn: nat, reply: Reply)
    requires GoodCalls(out, reply.calls)
    ensures AllMatched(out, AgentLoopLaws.Block(w, turn, reply))
      && AllNameOneTool(out, AgentLoopLaws.Block(w, turn, reply))
  {
    var calls := Compacted(w, reply.calls);
    forall k | 0 <= k < |calls| ensures Matched(out, calls[k]) { assert Matched(out, reply.calls[k]); }
  }

  lemma ReplyTranslates<I>(out: Outside<I>, p: Progress, w: World, turn: nat, reply: Reply)
    requires Translatable(out, p.messages) && GoodCalls(out, reply.calls)
    ensures Translatable(out, AfterReply(p, w, turn, reply).messages)
  {
    ReplyKeepsPaired(p, w, turn, reply);
    ReplyAddsBlock(p, w, turn, reply);
    BlockIsGood(out, w, turn, reply);
  }

  /** A model whose calls are always good. */
  ghost predicate AlwaysGood<I>(out: Outside<I>, w: World) {
    forall t, ms :: w.ask(t, ms).Replied? ==> GoodCalls(out, w.ask(t, ms).reply.calls)
  }

  ghost predicate AllTranslate<I>(out: Outside<I>, sent: seq<seq<Message>>) {
    forall k :: 0 <= k < |sent| ==> Translates(out, sent[k])
  }

  lemma EveryPromptTranslates<I>(out: Outside<I>, p: Progress, w: World, turn: nat, left: nat)
    requires Translatable(out, p.messages) && AlwaysGood(out, w)
    ensures AllTranslate(out, Prompts(p, w, turn, left))
  {
    var good := ms => Translatable(out, ms);
    forall q: Progress, t: nat ensures StaysGood(good, w, q, t) {
      if good(q.messages) && w.ask(t, q.messages).Replied? {
        ReplyTranslates(out, q, w, t, w.ask(t, q.messages).reply);
      }
    }
    PromptsStayGood(good, p, w, turn, left);
    forall k | 0 <= k < |Prompts(p, w, turn, left)| ensures Translates(out, Prompts(p, w, turn, left)[k]) {
      TranslatesToBoth(out, Prompts(p, w, turn, left)[k]);
    }
  }

  lemma StartIsTranslatable<I>(out: Outside<I>, system: string, user: string)
    ensures Translatable(out, Start(system, user).messages)
  {
    StartIsPaired(system, user);
  }

  /** In a run from its start, with a model whose calls are always good, every history sent stays
      paired in both translations. */
  lemma RunTranslates<I>(out: Outside<I>, w: World, system: string, user: string, left: nat)
    requires AlwaysGood(out, w)
    ensures AllTranslate(out, Prompts(Start(system, user), w, 0, left))
  {
    StartIsTranslatable(out, system, user);
    EveryPromptTranslates(out, Start(system, user), w, 0, left);
  }

  // ---------------------------------------------------------------------------------------
  // What both translations say
  // ---------------------------------------------------------------------------------------

  /** What a user or the model said, a tool use with its input, or a result. */
  datatype Item<I> = Asked(text: string) | Told(text: string) | Used(name: string, input: I) | Got(text: string)

  function UsedItems<I>(calls: seq<Call>, out: Outside<I>): seq<Item<I>> {
    if calls == [] then []
    else
      (if out.strip(calls[0].name) == "" then []
       else [Used(out.strip(calls[0].name), out.parse(calls[0].arguments))]) + UsedItems(calls[1..], out)
  }

  function OrSilence<I>(items: seq<Item<I>>): seq<Item<I>> { if items == [] then [Told("")] else items }

  /** What a message has to say in any format: system texts go elsewhere, answers without an id and
      calls without a name are dropped, and a reply that says nothing is told as "". */
  function ItemsOf<I>(m: Message, out: Outside<I>): seq<Item<I>> {
    match m
    case System(_) => []
    case User(text) => [Asked(text)]
    case Assistant(text, calls) => OrSilence((if text == "" then [] else [Told(text)]) + UsedItems(calls, out))
    case Tool(id, text) => if id == "" then [] else [Got(text)]
  }

  function AllItems<I>(ms: seq<Message>, out: Outside<I>): seq<Item<I>> {
    if ms == [] then [] else ItemsOf(ms[0], out) + AllItems(ms[1..], out)
  }

  function BlockItems<I>(blocks: seq<Block<I>>): seq<Item<I>> {
    if blocks == [] then []
    else
      (match blocks[0]
       case TextBlock(text) => [Told(text)]
       case ToolUse(_, name, input) => [Used(name, input)]) + BlockItems(blocks[1..])
  }

  function AItems<I>(ms: seq<AMessage<I>>): seq<Item<I>> {
    if ms == [] then []
    else
      (match ms[0]
       case AUser(text) => [Asked(text)]
       case AAssistant(blocks) => BlockItems(blocks)
       case AResult(_, text) => [Got(text)]) + AItems(ms[1..])
  }

  function PartItems<I>(parts: seq<Part<I>>): seq<Item<I>> {
    if parts == [] then []
    else
      (match parts[0]
       case TextPart(text) => [Told(text)]
       case FunctionCall(name, args) => [Used(name, args)]) + PartItems(parts[1..])
  }

  function GItems<I>(contents: seq<Content<I>>): seq<Item<I>> {
    if contents == [] then []
    else
      (match contents[0]
       case GUser(text) => [Asked(text)]
       case GModel(parts) => PartItems(parts)
       case GResponse(_, text) => [Got(text)]) + GItems(contents[1..])
  }

  lemma {:induction false} UsesSay<I>(calls: seq<Call>, out: Outside<I>, left: nat, k: nat)
    ensures BlockItems(Uses(calls, out, left, k)) == UsedItems(calls, out)
  {
    if calls != [] {
      var rest := Uses(calls[1..], out, left, k + 1);
      UsesSay(calls[1..], out, left, k + 1);
      if Named(out, calls[0]) {
        assert (Use(calls[0], out, left, k) + rest)[1..] == rest;
      } else {
        assert Use(calls[0], out, left, k) + rest == rest;
      }
    }
  }

  lemma {:induction false} FunctionsSay<I>(calls: seq<Call>, out: Outside<I>)
    ensures PartItems(Functions(calls, out)) == UsedItems(calls, out)
  {
    if calls != [] {
      var rest := Functions(calls[1..], out);
      FunctionsSay(calls[1..], out);
      if Named(out, calls[0]) {
        assert (Function(calls[0], out) + rest)[1..] == rest;
      } else {
        assert Function(calls[0], out) + rest == rest;
      }
    }
  }

  lemma BlocksSay<I>(m: Message, out: Outside<I>, left: nat)
    requires m.Assistant?
    ensures BlockItems(ABlocks(m, out, left)) == ItemsOf(m, out)
  {
    var uses := Uses(m.calls, out, left, 0);
    UsesSay(m.calls, out, left, 0);
    var silent: seq<Block<I>> := [TextBlock("")];
    assert silent[1..] == [] && BlockItems(silent) == [Told("")];
    if m.text == "" {
      assert TextBlocks(m.text) + uses == uses;
      NoBlocksNoItems(uses);
    } else {
      assert (TextBlocks(m.text) + uses)[1..] == uses;
    }
  }

  lemma NoBlocksNoItems<I>(blocks: seq<Block<I>>)
    ensures BlockItems(blocks) == [] <==> blocks == []
  {
  }

  lemma PartsSay<I>(m: Message, out: Outside<I>)
    requires m.Assistant?
    ensures PartItems(GParts(m, out)) == ItemsOf(m, out)
  {
    var functions := Functions(m.calls, out);
    FunctionsSay(m.calls, out);
    var silent: seq<Part<I>> := [TextPart("")];
    assert silent[1..] == [] && PartItems(silent) == [Told("")];
    if m.text == "" {
      assert TextParts(m.text) + functions == functions;
      NoPartsNoItems(functions);
    } else {
      assert (TextParts(m.text) + functions)[1..] == functions;
    }
  }

  lemma NoPartsNoItems<I>(parts: seq<Part<I>>)
    ensures PartItems(parts) == [] <==> parts == []
  {
  }

  /** The Anthropic translation says what the history says, in its order. */
  lemma {:induction false} AnthropicSays<I>(ms: seq<Message>, out: Outside<I>)
    ensures AItems(AAll(ms, out)) == AllItems(ms, out)
  {
    if ms != [] {
      var one, rest := AOne(ms[0], out, |ms|), AAll(ms[1..], out);
      AnthropicSays(ms[1..], out);
      if ms[0].Assistant? { BlocksSay(ms[0], out, |ms|); }
      if one == [] { assert one + rest == rest; } else { assert (one + rest)[1..] == rest; }
    }
  }

  /** So does the Google translation, so both say the same. */
  lemma {:induction false} GoogleSays<I>(names: Names, ms: seq<Message>, out: Outside<I>)
    ensures GItems(GAll(names, ms, out)) == AllItems(ms, out)
    decreases |ms|
  {
    if ms != [] {
      var one := GOne(names, ms[0], out);
      var rest := GAll(NamesAfter(names, ms[0], out, |ms|), ms[1..], out);
      GoogleSays(NamesAfter(names, ms[0], out, |ms|), ms[1..], out);
      if ms[0].Assistant? { PartsSay(ms[0], out); }
      if one == [] { assert one + rest == rest; } else { assert (one + rest)[1..] == rest; }
    }
  }

  /** The system text is made of the system messages that say something, in order. */
  lemma {:induction false} SystemTextsConcat(a: seq<Message>, b: seq<Message>)
    ensures SystemTexts(a + b) == SystemTexts(a) + SystemTexts(b)
  {
    if a == [] {
      assert a + b == b;
    } else {
      assert (a + b)[1..] == a[1..] + b;
      SystemTextsConcat(a[1..], b);
    }
  }

  lemma SystemTextsOfOne(m: Message)
    ensures SystemTexts([m]) == match m case System(text) => (if text == "" then [] else [text]) case _ => []
  {
    assert [m][1..] == [];
  }

  /** A result whose call was never seen is named "tool_result". */
  lemma StrangeResult<I>(names: Names, id: string, text: string, out: Outside<I>)
    requires id != "" && id !in names
    ensures GAll(names, [Tool(id, text)], out) == [GResponse("tool_result", text)]
  {
    var ms := [Tool(id, text)];
    assert ms[1..] == [];
  }
}
