/** What the history of a run says: which replies and tool results it carries, and with what text. */
module AgentTexts {
  import opened Options
  import opened AgentLoop
  import opened AgentLoopLaws

  // ---------------------------------------------------------------------------------------
  // One turn
  // ---------------------------------------------------------------------------------------

  /** Up to 8000 characters a text is carried whole, of a longer one the first 8000 and a marker. */
  predicate Carries(text: string, full: string) {
    if |full| <= 8000 then text == full
    else |text| > 8000 && text[..8000] == full[..8000] && text[8000..] == "\n... [tool result compacted]"
  }

  const PLAIN_TOOLS: set<string> := {"read_file", "write_file", "list_files"}
  const CHECKING_TOOLS: set<string> := {"run_command", "run_validator"}

  /** What a tool's result has to say, by the tool's name. */
  predicate Says(name: string, out: ToolOutcome, question: string, quoted: string, full: string) {
    && (name in PLAIN_TOOLS ==> full == out.text)
    && (name in CHECKING_TOOLS && out.ok ==> full == out.text)
    && (name in CHECKING_TOOLS && !out.ok ==> full == "FAILED:\n" + out.text)
    && (name == "ask_clarification" ==> "Clarification recorded: '" + question + "'\n" <= full)
    && (name == "done" ==> full == "Task marked complete.")
    && (name !in PLAIN_TOOLS + CHECKING_TOOLS + {"ask_clarification", "done"} ==>
         full == "ERROR: unknown tool " + quoted)
  }

  /** The message answers the k-th call of turn `t` with the outcome of that call. */
  ghost predicate AnswerTells(w: World, t: nat, k: nat, call: Call, m: Message) {
    m.Tool? && m.id == call.id && exists full ::
      Says(call.name, w.run(t, k, call), w.question(call.arguments), w.quoted(call.name), full) && Carries(m.text, full)
  }

  /** A call in the history is the call as made, but for the file body of a `write_file`. */
  predicate KeptCall(w: World, call: Call, kept: Call) {
    && kept.id == call.id && kept.name == call.name
    && kept.arguments == if call.name == "write_file" && w.shortened(call.arguments).Some?
                         then w.shortened(call.arguments).value else call.arguments
  }

  ghost predicate AllKept(w: World, calls: seq<Call>, kept: seq<Call>) {
    |kept| == |calls| && forall k :: 0 <= k < |calls| ==> KeptCall(w, calls[k], kept[k])
  }

  ghost predicate AllAnswered(w: World, t: nat, calls: seq<Call>, ms: seq<Message>) {
    |ms| == |calls| && forall k :: 0 <= k < |calls| ==> AnswerTells(w, t, k, calls[k], ms[k])
  }

  /** The assistant message at place `i` is what the model replied on turn `t` to the messages
      before it, and as many messages behind it as it has calls answer them. */
  ghost predicate TurnTells(w: World, ms: seq<Message>, i: nat, t: nat) {
    i < |ms| && match w.ask(t, ms[..i])
      case ProviderError(_) => false
      case Replied(reply) =>
        && ms[i].Assistant? && ms[i].text == reply.text && AllKept(w, reply.calls, ms[i].calls)
        && i + 1 + |reply.calls| <= |ms| && AllAnswered(w, t, reply.calls, ms[i + 1..i + 1 + |reply.calls|])
  }

  ghost function Teller(w: World, ms: seq<Message>): (nat, nat) -> bool {
    (i: nat, t: nat) => TurnTells(w, ms, i, t)
  }

  /** Something is told of every assistant message from place `n` on, the turns counted from `t`. */
  ghost predicate EachTold(ms: seq<Message>, n: nat, t: nat, told: (nat, nat) -> bool) {
    n <= |ms| && forall i :: n <= i < |ms| && ms[i].Assistant? ==> told(i, t + Replies(ms[n..i]))
  }

  /** Every assistant message from place `n` on is a reply and is answered. */
  ghost predicate Tells(w: World, ms: seq<Message>, n: nat, t: nat) { EachTold(ms, n, t, Teller(w, ms)) }

  lemma AnswerSays(w: World, t: nat, k: nat, call: Call)
    ensures Says(call.name, w.run(t, k, call), w.question(call.arguments), w.quoted(call.name), Answer(w, t, k, call))
  {
    if call.name == "ask_clarification" {
      var opening := "Clarification recorded: '" + w.question(call.arguments) + "'\n";
      assert Answer(w, t, k, call)[..|opening|] == opening;
    }
  }

  lemma ShortenCarries(full: string)
    ensures Carries(Shorten(full), full)
  {
  }

  lemma AnswerIsTold(w: World, t: nat, k: nat, call: Call)
    ensures AnswerTells(w, t, k, call, ToolMessage(w, t, k, call))
  {
    AnswerSays(w, t, k, call);
    ShortenCarries(Answer(w, t, k, call));
  }

  lemma AnswersAreTold(w: World, t: nat, calls: seq<Call>)
    ensures AllAnswered(w, t, calls, ToolMessages(w, t, calls))
  {
    forall k | 0 <= k < |calls| ensures AnswerTells(w, t, k, calls[k], ToolMessages(w, t, calls)[k]) {
      AnswerIsTold(w, t, k, calls[k]);
    }
  }

  lemma CallsAreKept(w: World, calls: seq<Call>)
    ensures AllKept(w, calls, Compacted(w, calls))
  {
  }

  lemma ThreeParts<T>(a: seq<T>, x: T, c: seq<T>)
    ensures var all := a + ([x] + c);
      all[..|a|] == a && all[|a|] == x && all[|a| + 1..|a| + 1 + |c|] == c && |all| == |a| + 1 + |c|
  {
  }

  lemma NewTurnTells(w: World, ms: seq<Message>, turn: nat, reply: Reply)
    requires w.ask(turn, ms) == Replied(reply)
    ensures TurnTells(w, ms + Block(w, turn, reply), |ms|, turn)
  {
    ThreeParts(ms, Assistant(reply.text, Compacted(w, reply.calls)), ToolMessages(w, turn, reply.calls));
    CallsAreKept(w, reply.calls);
    AnswersAreTold(w, turn, reply.calls);
  }

  lemma SameSlices<T>(a: seq<T>, more: seq<T>, i: nat, n: nat)
    requires i < |a| && i + 1 + n <= |a|
    ensures (a + more)[..i] == a[..i] && (a + more)[i] == a[i] && (a + more)[i + 1..i + 1 + n] == a[i + 1..i + 1 + n]
  {
  }

  lemma TurnStaysTold(w: World, ms: seq<Message>, more: seq<Message>, i: nat, t: nat)
    requires TurnTells(w, ms, i, t)
    ensures TurnTells(w, ms + more, i, t)
  {
    SameSlices(ms, more, i, |w.ask(t, ms[..i]).reply.calls|);
  }

  lemma BlockReplies(ms: seq<Message>, w: World, turn: nat, reply: Reply)
    ensures Replies(ms + Block(w, turn, reply)) == Replies(ms) + 1
  {
    ReplyCounts(ms, w, turn, reply);
    assert ms + [Assistant(reply.text, Compacted(w, reply.calls))] + ToolMessages(w, turn, reply.calls)
      == ms + Block(w, turn, reply);
  }

  lemma BlockTools(w: World, turn: nat, reply: Reply)
    ensures forall k :: 1 <= k < |Block(w, turn, reply)| ==> !Block(w, turn, reply)[k].Assistant?
    ensures |Block(w, turn, reply)| > 0
  {
  }

  lemma EachToldMore(ms: seq<Message>, block: seq<Message>, n: nat, t: nat, turn: nat, told: (nat, nat) -> bool,
                     after: (nat, nat) -> bool)
    requires EachTold(ms, n, t, told) && turn == t + Replies(ms[n..]) && after(|ms|, turn)
    requires forall i: nat, u: nat :: i < |ms| && told(i, u) ==> after(i, u)
    requires forall k :: 1 <= k < |block| ==> !block[k].Assistant?
    ensures EachTold(ms + block, n, t, after)
  {
    var all := ms + block;
    assert all[n..|ms|] == ms[n..];
    forall i | n <= i < |all| && all[i].Assistant? ensures after(i, t + Replies(all[n..i])) {
      OldOrNew(ms, block, i);
      if i < |ms| { SameFront(ms, block, n, i); }
    }
  }

  lemma EachToldLess(ms: seq<Message>, block: seq<Message>, n: nat, t: nat, turn: nat, told: (nat, nat) -> bool,
                     after: (nat, nat) -> bool)
    requires n <= |ms| && EachTold(ms + block, n, t, after) && turn == t + Replies(ms[n..])
    requires block != [] && block[0].Assistant?
    requires forall i: nat, u: nat :: i < |ms| && after(i, u) ==> told(i, u)
    ensures EachTold(ms, n, t, told) && after(|ms|, turn)
  {
    var all := ms + block;
    assert all[n..|ms|] == ms[n..] && all[|ms|] == block[0];
    forall i | n <= i < |ms| && ms[i].Assistant? ensures told(i, t + Replies(ms[n..i])) {
      SameFront(ms, block, n, i);
      assert all[i].Assistant?;
    }
  }

  lemma SameFront(ms: seq<Message>, block: seq<Message>, n: nat, i: nat)
    requires n <= i < |ms|
    ensures (ms + block)[n..i] == ms[n..i] && (ms + block)[i] == ms[i]
  {
  }

  lemma OldOrNew(ms: seq<Message>, block: seq<Message>, i: nat)
    requires i < |ms + block| && forall k :: 1 <= k < |block| ==> !block[k].Assistant?
    ensures (ms + block)[i].Assistant? ==> i == |ms| || (i < |ms| && ms[i].Assistant?)
  {
    if i >= |ms| { assert (ms + block)[i] == block[i - |ms|]; }
  }

  lemma ReplyTells(w: World, p: Progress, n: nat, t: nat, turn: nat, reply: Reply) returns (next: Progress)
    requires Tells(w, p.messages, n, t) && turn == t + Replies(p.messages[n..])
    requires w.ask(turn, p.messages) == Replied(reply)
    ensures next == AfterReply(p, w, turn, reply)
    ensures Tells(w, next.messages, n, t) && turn + 1 == t + Replies(next.messages[n..])
  {
    next := AfterReply(p, w, turn, reply);
    ReplyAddsBlock(p, w, turn, reply);
    NewTurnTells(w, p.messages, turn, reply);
    BlockTools(w, turn, reply);
    forall i: nat, u: nat | i < |p.messages|
      ensures Teller(w, p.messages)(i, u) ==> Teller(w, p.messages + Block(w, turn, reply))(i, u)
    {
      if TurnTells(w, p.messages, i, u) { TurnStaysTold(w, p.messages, Block(w, turn, reply), i, u); }
    }
    EachToldMore(p.messages, Block(w, turn, reply), n, t, turn, Teller(w, p.messages),
                 Teller(w, p.messages + Block(w, turn, reply)));
    DropAppend(p.messages, Block(w, turn, reply), n);
    BlockReplies(p.messages[n..], w, turn, reply);
  }

  // ---------------------------------------------------------------------------------------
  // A whole run
  // ---------------------------------------------------------------------------------------

  /** `good` says of a history and the number of the next turn what a reply keeps. */
  ghost predicate ReplyKeeps(good: (seq<Message>, nat) -> bool, w: World, p: Progress, turn: nat) {
    good(p.messages, turn) && w.ask(turn, p.messages).Replied? ==>
      good(AfterReply(p, w, turn, w.ask(turn, p.messages).reply).messages, turn + 1)
  }

  ghost predicate GoodSomeTime(good: (seq<Message>, nat) -> bool, ms: seq<Message>) { exists t: nat :: good(ms, t) }

  /** Then all histories sent and the one left behind are good. */
  lemma {:induction false} RunStaysGood(good: (seq<Message>, nat) -> bool, p: Progress, w: World, turn: nat, left: nat)
    requires forall q, t: nat :: ReplyKeeps(good, w, q, t)
    requires good(p.messages, turn)
    ensures GoodSomeTime(good, Turns(p, w, turn, left).0.messages)
    ensures forall k :: 0 <= k < |Prompts(p, w, turn, left)| ==> GoodSomeTime(good, Prompts(p, w, turn, left)[k])
    decreases left
  {
    if left > 0 {
      var outcome := w.ask(turn, p.messages);
      if outcome.Replied? {
        assert ReplyKeeps(good, w, p, turn);
        RunStaysGood(good, AfterReply(p, w, turn, outcome.reply), w, turn + 1, left - 1);
      }
    }
  }

  ghost predicate AllTell(w: World, sent: seq<seq<Message>>, n: nat, t: nat) {
    forall k :: 0 <= k < |sent| ==> Tells(w, sent[k], n, t)
  }

  ghost predicate TellsUpTo(w: World, ms: seq<Message>, n: nat, t: nat, turn: nat) {
    Tells(w, ms, n, t) && turn == t + Replies(ms[n..])
  }

  /** Whatever the model and the tools do, a run's history carries every reply's text and calls and
      behind them the outcome of every call, whole up to 8000 characters; so does every history the
      model is sent. */
  lemma RunTells(p: Progress, w: World, turn: nat, left: nat)
    ensures Tells(w, Turns(p, w, turn, left).0.messages, |p.messages|, turn)
    ensures AllTell(w, Prompts(p, w, turn, left), |p.messages|, turn)
  {
    var n := |p.messages|;
    var good := (ms: seq<Message>, u: nat) => TellsUpTo(w, ms, n, turn, u);
    assert p.messages[n..] == [];
    forall q: Progress, t: nat ensures ReplyKeeps(good, w, q, t) {
      if good(q.messages, t) && w.ask(t, q.messages).Replied? {
        var next := ReplyTells(w, q, n, turn, t, w.ask(t, q.messages).reply);
      }
    }
    RunStaysGood(good, p, w, turn, left);
  }

  // ---------------------------------------------------------------------------------------
  // What a run records besides the history
  // ---------------------------------------------------------------------------------------

  /** The questions some calls ask, in order. */
  function QuestionsOf(w: World, calls: seq<Call>): seq<string> {
    if calls == [] then []
    else
      var last := calls[|calls| - 1];
      QuestionsOf(w, calls[..|calls| - 1])
      + (if last.name == "ask_clarification" then [w.question(last.arguments)] else [])
  }

  function QuestionsIn(w: World, ms: seq<Message>): seq<string> {
    if ms == [] then []
    else
      var last := ms[|ms| - 1];
      QuestionsIn(w, ms[..|ms| - 1]) + (if last.Assistant? then QuestionsOf(w, last.calls) else [])
  }

  lemma {:induction false} CallsAsk(e: Effects, w: World, turn: nat, calls: seq<Call>)
    ensures AfterCalls(e, w, turn, calls).questions == e.questions + QuestionsOf(w, calls)
  {
    if calls != [] { CallsAsk(e, w, turn, calls[..|calls| - 1]); }
  }

  lemma {:induction false} KeptCallsAsk(w: World, calls: seq<Call>, kept: seq<Call>)
    requires AllKept(w, calls, kept)
    ensures QuestionsOf(w, kept) == QuestionsOf(w, calls)
  {
    if calls != [] {
      var n := |calls| - 1;
      assert KeptCall(w, calls[n], kept[n]);
      forall k | 0 <= k < n ensures KeptCall(w, calls[..n][k], kept[..n][k]) { assert KeptCall(w, calls[k], kept[k]); }
      KeptCallsAsk(w, calls[..n], kept[..n]);
    }
  }

  lemma {:induction false} ToolsAskNothing(w: World, ms: seq<Message>, tools: seq<Message>)
    requires forall k :: 0 <= k < |tools| ==> tools[k].Tool?
    ensures QuestionsIn(w, ms + tools) == QuestionsIn(w, ms)
  {
    if tools == [] {
      assert ms + tools == ms;
    } else {
      assert (ms + tools)[..|ms + tools| - 1] == ms + tools[..|tools| - 1];
      ToolsAskNothing(w, ms, tools[..|tools| - 1]);
    }
  }

  lemma ReplyAsks(w: World, p: Progress, turn: nat, reply: Reply)
    requires p.effects.questions == QuestionsIn(w, p.messages)
    ensures AfterReply(p, w, turn, reply).effects.questions == QuestionsIn(w, AfterReply(p, w, turn, reply).messages)
  {
    var asked := p.messages + [Assistant(reply.text, Compacted(w, reply.calls))];
    CallsAsk(p.effects, w, turn, reply.calls);
    CallsAreKept(w, reply.calls);
    KeptCallsAsk(w, reply.calls, Compacted(w, reply.calls));
    assert asked[..|asked| - 1] == p.messages;
    ToolsAskNothing(w, asked, ToolMessages(w, turn, reply.calls));
  }

  /** The recorded questions are those of the history's clarification calls, in order. */
  lemma RunAsks(system: string, user: string, w: World, left: nat)
    ensures var q := Turns(Start(system, user), w, 0, left).0;
      q.effects.questions == QuestionsIn(w, q.messages)
  {
    var asked := (q: Progress) => q.effects.questions == QuestionsIn(w, q.messages);
    forall q: Progress, t: nat, reply | asked(q) ensures asked(AfterReply(q, w, t, reply)) {
      ReplyAsks(w, q, t, reply);
    }
    StartAsks(w, system, user);
    RunsKeep(asked, Start(system, user), w, 0, left);
  }

  lemma StartAsks(w: World, system: string, user: string)
    ensures QuestionsIn(w, Start(system, user).messages) == []
  {
    assert [User(user)][..0] == [] && [System(system)][..0] == [];
    assert QuestionsIn(w, [User(user)]) == [] && QuestionsIn(w, [System(system)]) == [];
    assert [System(system)] + [User(user)] == [System(system), User(user)];
    assert [System(system), User(user)][..1] == [System(system)];
  }

  /** The paths some calls wrote. */
  function PathsOf(w: World, turn: nat, calls: seq<Call>): set<string> {
    set k | 0 <= k < |calls| && calls[k].name == "write_file" && w.run(turn, k, calls[k]).ok ::
      w.path(calls[k].arguments)
  }

  lemma {:induction false} CallsWrite(e: Effects, w: World, turn: nat, calls: seq<Call>, path: string)
    ensures path in AfterCalls(e, w, turn, calls).files <==> path in e.files || path in PathsOf(w, turn, calls)
  {
    if calls != [] {
      CallsWrite(e, w, turn, calls[..|calls| - 1], path);
      PathsNext(w, turn, calls, path);
    }
  }

  lemma PathsNext(w: World, turn: nat, calls: seq<Call>, path: string)
    requires calls != []
    ensures var n := |calls| - 1;
      path in PathsOf(w, turn, calls)
      <==> (path in PathsOf(w, turn, calls[..n])
            || (calls[n].name == "write_file" && w.run(turn, n, calls[n]).ok && w.path(calls[n].arguments) == path))
  {
    var n := |calls| - 1;
    if path in PathsOf(w, turn, calls[..n]) {
      var k :| 0 <= k < n && calls[..n][k].name == "write_file" && w.run(turn, k, calls[..n][k]).ok
        && w.path(calls[..n][k].arguments) == path;
      assert calls[k] == calls[..n][k];
    }
    if path in PathsOf(w, turn, calls) {
      var k :| 0 <= k < |calls| && calls[k].name == "write_file" && w.run(turn, k, calls[k]).ok
        && w.path(calls[k].arguments) == path;
      if k < n { assert calls[..n][k] == calls[k]; }
    }
  }

  /** On turn `t`, asked with the messages before place `i`, no call wrote the path. */
  ghost predicate NotWrittenAt(w: World, ms: seq<Message>, path: string, i: nat, t: nat) {
    i <= |ms| && match w.ask(t, ms[..i])
      case ProviderError(_) => true
      case Replied(reply) => path !in PathsOf(w, t, reply.calls)
  }

  ghost function Unwritten(w: World, ms: seq<Message>, path: string): (nat, nat) -> bool {
    (i: nat, t: nat) => NotWrittenAt(w, ms, path, i, t)
  }

  lemma SameUnwritten(w: World, ms: seq<Message>, more: seq<Message>, path: string, i: nat, t: nat)
    requires i <= |ms|
    ensures NotWrittenAt(w, ms + more, path, i, t) <==> NotWrittenAt(w, ms, path, i, t)
  {
    assert (ms + more)[..i] == ms[..i];
  }

  lemma ReplyWrites(w: World, p: Progress, n: nat, t: nat, turn: nat, reply: Reply, path: string)
    requires n <= |p.messages| && turn == t + Replies(p.messages[n..]) && w.ask(turn, p.messages) == Replied(reply)
    ensures var next := AfterReply(p, w, turn, reply);
      && n <= |next.messages| && turn + 1 == t + Replies(next.messages[n..])
      && (EachTold(next.messages, n, t, Unwritten(w, next.messages, path))
          <==> EachTold(p.messages, n, t, Unwritten(w, p.messages, path)) && path !in PathsOf(w, turn, reply.calls))
  {
    var block, ms := Block(w, turn, reply), p.messages;
    ReplyAddsBlock(p, w, turn, reply);
    BlockTools(w, turn, reply);
    DropAppend(ms, block, n);
    BlockReplies(ms[n..], w, turn, reply);
    assert (ms + block)[..|ms|] == ms;
    forall i: nat, u: nat | i < |ms|
      ensures Unwritten(w, ms + block, path)(i, u) <==> Unwritten(w, ms, path)(i, u)
    {
      SameUnwritten(w, ms, block, path, i, u);
    }
    if EachTold(ms, n, t, Unwritten(w, ms, path)) && path !in PathsOf(w, turn, reply.calls) {
      EachToldMore(ms, block, n, t, turn, Unwritten(w, ms, path), Unwritten(w, ms + block, path));
    }
    if EachTold(ms + block, n, t, Unwritten(w, ms + block, path)) {
      EachToldLess(ms, block, n, t, turn, Unwritten(w, ms, path), Unwritten(w, ms + block, path));
    }
  }

  /** What a reply keeps of a state and the number of its next turn. */
  ghost predicate TurnKeeps(inv: (Progress, nat) -> bool, w: World, p: Progress, turn: nat) {
    inv(p, turn) && w.ask(turn, p.messages).Replied? ==>
      inv(AfterReply(p, w, turn, w.ask(turn, p.messages).reply), turn + 1)
  }

  lemma {:induction false} RunKeepsTurns(inv: (Progress, nat) -> bool, p: Progress, w: World, turn: nat, left: nat)
    returns (last: nat)
    requires forall q, t: nat :: TurnKeeps(inv, w, q, t)
    requires inv(p, turn)
    ensures inv(Turns(p, w, turn, left).0, last)
    decreases left
  {
    last := turn;
    if left > 0 {
      var outcome := w.ask(turn, p.messages);
      if outcome.Replied? {
        assert TurnKeeps(inv, w, p, turn);
        var next := AfterReply(p, w, turn, outcome.reply);
        last := RunKeepsTurns(inv, next, w, turn + 1, left - 1);
        if outcome.reply.calls == [] || CallsDone(outcome.reply.calls) { last := turn + 1; }
      }
    }
  }

  ghost predicate Writes(w: World, p: Progress, q: Progress, t: nat, path: string, turn: nat) {
    var n := |p.messages|;
    && n <= |q.messages| && turn == t + Replies(q.messages[n..])
    && (path !in q.effects.files
        <==> path !in p.effects.files && EachTold(q.messages, n, t, Unwritten(w, q.messages, path)))
  }

  /** A path is recorded as written if and only if it was before or some call of the run wrote it. */
  lemma RunWrites(p: Progress, w: World, turn: nat, left: nat, path: string)
    ensures var q := Turns(p, w, turn, left).0;
      path !in q.effects.files
      <==> path !in p.effects.files && EachTold(q.messages, |p.messages|, turn, Unwritten(w, q.messages, path))
  {
    var inv := (q: Progress, u: nat) => Writes(w, p, q, turn, path, u);
    assert p.messages[|p.messages|..] == [];
    forall q: Progress, u: nat ensures TurnKeeps(inv, w, q, u) {
      if inv(q, u) && w.ask(u, q.messages).Replied? {
        var reply := w.ask(u, q.messages).reply;
        ReplyWrites(w, q, |p.messages|, turn, u, reply, path);
        CallsWrite(q.effects, w, u, reply.calls, path);
      }
    }
    var last := RunKeepsTurns(inv, p, w, turn, left);
  }

  /** The usage recorded for turn `t` is what the reply of that turn says it used. */
  ghost predicate Reckons(w: World, p: Progress, i: nat, t: nat) {
    && i <= |p.messages| && t < |p.usage|
    && match w.ask(t, p.messages[..i])
       case ProviderError(_) => false
       case Replied(reply) => p.usage[t].usage == reply.usage
  }

  ghost function Reckoner(w: World, p: Progress): (nat, nat) -> bool {
    (i: nat, t: nat) => Reckons(w, p, i, t)
  }

  ghost predicate Reckoned(w: World, p: Progress, n: nat, turn: nat) {
    && n <= |p.messages| && turn == Replies(p.messages[n..]) == |p.usage|
    && EachTold(p.messages, n, 0, Reckoner(w, p))
  }

  lemma ReplyReckons(w: World, p: Progress, n: nat, turn: nat, reply: Reply)
    requires Reckoned(w, p, n, turn) && w.ask(turn, p.messages) == Replied(reply)
    ensures Reckoned(w, AfterReply(p, w, turn, reply), n, turn + 1)
  {
    var block, ms, next := Block(w, turn, reply), p.messages, AfterReply(p, w, turn, reply);
    ReplyAddsBlock(p, w, turn, reply);
    BlockTools(w, turn, reply);
    DropAppend(ms, block, n);
    BlockReplies(ms[n..], w, turn, reply);
    assert (ms + block)[..|ms|] == ms;
    forall i: nat, u: nat | i < |ms| && Reckoner(w, p)(i, u) ensures Reckoner(w, next)(i, u) {
      assert next.messages[..i] == ms[..i] && next.usage[u] == p.usage[u];
    }
    EachToldMore(ms, block, n, 0, turn, Reckoner(w, p), Reckoner(w, next));
  }

  /** One usage record for every reply, with what that reply used. */
  lemma RunReckons(system: string, user: string, w: World, left: nat)
    ensures var p := Start(system, user);
      var q := Turns(p, w, 0, left).0;
      Reckoned(w, q, |p.messages|, |q.usage|)
  {
    var p := Start(system, user);
    var inv := (q: Progress, u: nat) => Reckoned(w, q, |p.messages|, u);
    assert p.messages[|p.messages|..] == [];
    forall q: Progress, u: nat ensures TurnKeeps(inv, w, q, u) {
      if inv(q, u) && w.ask(u, q.messages).Replied? {
        ReplyReckons(w, q, |p.messages|, u, w.ask(u, q.messages).reply);
      }
    }
    var last := RunKeepsTurns(inv, p, w, 0, left);
  }

  function SumOf(usage: seq<CallUsage>, part: Usage -> int): int {
    if usage == [] then 0 else part(usage[0].usage) + SumOf(usage[1..], part)
  }

  lemma {:induction false} SumSnoc(usage: seq<CallUsage>, last: CallUsage, part: Usage -> int)
    ensures SumOf(usage + [last], part) == SumOf(usage, part) + part(last.usage)
  {
    if usage == [] {
      assert [last][1..] == [];
    } else {
      assert (usage + [last])[1..] == usage[1..] + [last];
      SumSnoc(usage[1..], last, part);
    }
  }

  /** The totals are sums, each of its own kind of tokens. */
  lemma {:induction false} TotalsAreSums(usage: seq<CallUsage>)
    ensures Total(usage) == Usage(SumOf(usage, (u: Usage) => u.input), SumOf(usage, (u: Usage) => u.output),
                                  SumOf(usage, (u: Usage) => u.cached))
  {
    if usage != [] {
      var front, last := usage[..|usage| - 1], usage[|usage| - 1];
      TotalsAreSums(front);
      assert usage == front + [last];
      SumSnoc(front, last, (u: Usage) => u.input);
      SumSnoc(front, last, (u: Usage) => u.output);
      SumSnoc(front, last, (u: Usage) => u.cached);
    }
  }

  /** A run starts with the system text, if there is one, and the user's; nothing is recorded yet. */
  lemma StartSays(system: string, user: string)
    ensures var p := Start(system, user);
      && (if system == "" then p.messages == [User(user)] else p.messages == [System(system), User(user)])
      && p.tokens == Usage(0, 0, 0) && p.llmTurns == 0 && p.usage == [] && p.effects == Effects(0, [], [])
  {
  }
}
