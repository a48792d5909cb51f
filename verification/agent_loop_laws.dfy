/** What every run of the agent loop keeps, whatever the model and the tools do. */
module AgentLoopLaws {
  import opened PyDict
  import opened AgentLoop

  // ---------------------------------------------------------------------------------------
  // Pairing
  // ---------------------------------------------------------------------------------------

  /** The first messages answer the calls: one for each, with its id, in order. */
  predicate Answers(calls: seq<Call>, ms: seq<Message>) {
    calls == [] || (ms != [] && ms[0].Tool? && ms[0].id == calls[0].id && Answers(calls[1..], ms[1..]))
  }

  lemma {:induction false} AnswersAreEnough(calls: seq<Call>, ms: seq<Message>)
    requires Answers(calls, ms)
    ensures |calls| <= |ms|
  {
    if calls != [] { AnswersAreEnough(calls[1..], ms[1..]); }
  }

  /** Every assistant message is immediately followed by exactly one tool message for each of its
      calls, with the same ids in the same order, and there are no other tool messages. */
  predicate Paired(ms: seq<Message>)
    decreases |ms|
  {
    ms == [] ||
    match ms[0]
      case Assistant(_, calls) => Answers(calls, ms[1..]) && |calls| < |ms| && Paired(ms[1 + |calls|..])
      case Tool(_, _) => false
      case _ => Paired(ms[1..])
  }

  lemma {:induction false} AnswersExtend(calls: seq<Call>, ms: seq<Message>, more: seq<Message>)
    requires Answers(calls, ms)
    ensures Answers(calls, ms + more)
  {
    if calls != [] {
      assert (ms + more)[1..] == ms[1..] + more;
      AnswersExtend(calls[1..], ms[1..], more);
    }
  }

  lemma {:induction false} PairedAppend(ms: seq<Message>, more: seq<Message>)
    requires Paired(ms) && Paired(more)
    ensures Paired(ms + more)
    decreases |ms|
  {
    if ms == [] {
      assert ms + more == more;
    } else {
      DropAppend(ms, more, 1);
      if ms[0].Assistant? {
        DropAppend(ms, more, 1 + |ms[0].calls|);
        AnswersExtend(ms[0].calls, ms[1..], more);
        PairedAppend(ms[1 + |ms[0].calls|..], more);
      } else {
        PairedAppend(ms[1..], more);
      }
    }
  }

  lemma DropAppend<T>(s: seq<T>, more: seq<T>, n: nat)
    requires n <= |s|
    ensures (s + more)[n..] == s[n..] + more
  {
  }

  lemma {:induction false} SameIdsAnswer(calls: seq<Call>, ms: seq<Message>)
    requires |calls| == |ms| && forall k :: 0 <= k < |calls| ==> ms[k].Tool? && ms[k].id == calls[k].id
    ensures Answers(calls, ms)
  {
    if calls != [] { SameIdsAnswer(calls[1..], ms[1..]); }
  }

  lemma ReplyIsPaired(w: World, turn: nat, reply: Reply)
    ensures Paired(Block(w, turn, reply))
  {
    var calls, results := Compacted(w, reply.calls), ToolMessages(w, turn, reply.calls);
    var block := [Assistant(reply.text, calls)] + results;
    SameIdsAnswer(calls, results);
    assert block[1..] == results && block[1 + |calls|..] == [];
  }

  function Block(w: World, turn: nat, reply: Reply): seq<Message> {
    [Assistant(reply.text, Compacted(w, reply.calls))] + ToolMessages(w, turn, reply.calls)
  }

  lemma ReplyAddsBlock(p: Progress, w: World, turn: nat, reply: Reply)
    ensures AfterReply(p, w, turn, reply).messages == p.messages + Block(w, turn, reply)
  {
  }

  lemma ReplyKeepsPaired(p: Progress, w: World, turn: nat, reply: Reply)
    requires Paired(p.messages)
    ensures Paired(AfterReply(p, w, turn, reply).messages)
  {
    ReplyIsPaired(w, turn, reply);
    PairedAppend(p.messages, Block(w, turn, reply));
    ReplyAddsBlock(p, w, turn, reply);
  }

  /** The histories a run sends to the model, in order. */
  function Prompts(p: Progress, w: World, turn: nat, left: nat): seq<seq<Message>>
    decreases left
  {
    if left == 0 then []
    else match w.ask(turn, p.messages)
      case ProviderError(_) => [p.messages]
      case Replied(reply) =>
        [p.messages] +
        (if reply.calls == [] || CallsDone(reply.calls) then []
         else Prompts(AfterReply(p, w, turn, reply), w, turn + 1, left - 1))
  }

  ghost predicate AllPaired(sent: seq<seq<Message>>) { forall k :: 0 <= k < |sent| ==> Paired(sent[k]) }

  /** What every reply keeps, a run keeps. */
  lemma {:induction false} RunsKeep(inv: Progress -> bool, p: Progress, w: World, turn: nat, left: nat)
    requires forall q, t: nat, reply {:trigger AfterReply(q, w, t, reply)} ::
               inv(q) ==> inv(AfterReply(q, w, t, reply))
    requires inv(p)
    ensures inv(Turns(p, w, turn, left).0)
    decreases left
  {
    if left > 0 {
      var outcome := w.ask(turn, p.messages);
      if outcome.Replied? {
        RunsKeep(inv, AfterReply(p, w, turn, outcome.reply), w, turn + 1, left - 1);
      }
    }
  }

  /** The history a run leaves behind is paired, for any model and any tools, whichever way the
      run ends. */
  lemma RunsStayPaired(p: Progress, w: World, turn: nat, left: nat)
    requires Paired(p.messages)
    ensures Paired(Turns(p, w, turn, left).0.messages)
  {
    forall q: Progress, t: nat, reply | Paired(q.messages) ensures Paired(AfterReply(q, w, t, reply).messages) {
      ReplyKeepsPaired(q, w, t, reply);
    }
    RunsKeep((q: Progress) => Paired(q.messages), p, w, turn, left);
  }

  /** If the model replies to a good history, the history is good afterwards. */
  ghost predicate StaysGood(good: seq<Message> -> bool, w: World, p: Progress, turn: nat) {
    good(p.messages) && w.ask(turn, p.messages).Replied? ==>
      good(AfterReply(p, w, turn, w.ask(turn, p.messages).reply).messages)
  }

  /** Every history sent in a run that starts from a good one is good. */
  lemma {:induction false} PromptsStayGood(good: seq<Message> -> bool, p: Progress, w: World, turn: nat, left: nat)
    requires forall q, t: nat :: StaysGood(good, w, q, t)
    requires good(p.messages)
    ensures forall k :: 0 <= k < |Prompts(p, w, turn, left)| ==> good(Prompts(p, w, turn, left)[k])
    decreases left
  {
    if left > 0 {
      var outcome := w.ask(turn, p.messages);
      if outcome.Replied? {
        assert StaysGood(good, w, p, turn);
        PromptsStayGood(good, AfterReply(p, w, turn, outcome.reply), w, turn + 1, left - 1);
      }
    }
  }

  /** So is every history the model sees. */
  lemma PromptsArePaired(p: Progress, w: World, turn: nat, left: nat)
    requires Paired(p.messages)
    ensures AllPaired(Prompts(p, w, turn, left))
  {
    forall q: Progress, t: nat ensures StaysGood(Paired, w, q, t) {
      if Paired(q.messages) && w.ask(t, q.messages).Replied? { ReplyKeepsPaired(q, w, t, w.ask(t, q.messages).reply); }
    }
    PromptsStayGood(Paired, p, w, turn, left);
  }

  lemma StartIsPaired(system: string, user: string)
    ensures Paired(Start(system, user).messages)
  {
    var ms := Start(system, user).messages;
    assert [User(user)][1..] == [];
    assert Paired([User(user)]);
    if system != "" { assert ms[1..] == [User(user)]; }
  }

  ghost predicate IsPrefix(a: seq<Message>, b: seq<Message>) { |a| <= |b| && a == b[..|a|] }

  /** Each history extends the one before it, and the final one extends them all. */
  ghost predicate Growing(first: seq<Message>, sent: seq<seq<Message>>, final: seq<Message>)
    decreases |sent|
  {
    if sent == [] then IsPrefix(first, final) else IsPrefix(first, sent[0]) && Growing(sent[0], sent[1..], final)
  }

  /** What the model was once shown is never changed: compaction only touches what was not yet
      sent. */
  lemma {:induction false} HistoryOnlyGrows(p: Progress, w: World, turn: nat, left: nat)
    ensures Growing(p.messages, Prompts(p, w, turn, left), Turns(p, w, turn, left).0.messages)
    decreases left
  {
    if left > 0 {
      var outcome := w.ask(turn, p.messages);
      if outcome.Replied? {
        var next := AfterReply(p, w, turn, outcome.reply);
        var rest := Prompts(next, w, turn + 1, left - 1);
        HistoryOnlyGrows(next, w, turn + 1, left - 1);
        ReplyAddsBlock(p, w, turn, outcome.reply);
        GrowingFrom(p.messages, next.messages, rest, Turns(next, w, turn + 1, left - 1).0.messages);
        assert ([p.messages] + rest)[1..] == rest;
      }
    }
  }

  lemma GrowingFrom(first: seq<Message>, second: seq<Message>, rest: seq<seq<Message>>, final: seq<Message>)
    requires IsPrefix(first, second) && Growing(second, rest, final)
    ensures Growing(first, rest, final) && IsPrefix(first, first)
  {
  }

  // ---------------------------------------------------------------------------------------
  // Accounting
  // ---------------------------------------------------------------------------------------

  function Total(usage: seq<CallUsage>): Usage {
    if usage == [] then Usage(0, 0, 0) else Plus(Total(usage[..|usage| - 1]), usage[|usage| - 1].usage)
  }

  /** How many assistant messages there are. */
  function Replies(ms: seq<Message>): nat {
    if ms == [] then 0 else Replies(ms[..|ms| - 1]) + (if ms[|ms| - 1].Assistant? then 1 else 0)
  }

  function Checks(calls: seq<Call>): nat {
    if calls == [] then 0 else Checks(calls[..|calls| - 1]) + (if IsCheck(calls[|calls| - 1].name) then 1 else 0)
  }

  /** How many calls in the history asked for a command or a validator. */
  function ChecksIn(ms: seq<Message>): nat {
    if ms == [] then 0
    else ChecksIn(ms[..|ms| - 1]) + (if ms[|ms| - 1].Assistant? then Checks(ms[|ms| - 1].calls) else 0)
  }

  /** The counters agree with the history and with the usage recorded call by call. */
  ghost predicate Accounted(p: Progress) {
    && p.llmTurns == |p.usage| == Replies(p.messages)
    && (forall i :: 0 <= i < |p.usage| ==> p.usage[i].turn == i + 1)
    && p.tokens == Total(p.usage)
    && p.effects.rework == ChecksIn(p.messages)
    && Distinct(p.effects.files)
  }

  lemma {:induction false} ToolsAreNotReplies(ms: seq<Message>, tools: seq<Message>)
    requires forall k :: 0 <= k < |tools| ==> tools[k].Tool?
    ensures Replies(ms + tools) == Replies(ms) && ChecksIn(ms + tools) == ChecksIn(ms)
  {
    if tools == [] {
      assert ms + tools == ms;
    } else {
      assert (ms + tools)[..|ms + tools| - 1] == ms + tools[..|tools| - 1];
      ToolsAreNotReplies(ms, tools[..|tools| - 1]);
    }
  }

  lemma {:induction false} SameNamesSameChecks(a: seq<Call>, b: seq<Call>)
    requires |a| == |b| && forall k :: 0 <= k < |a| ==> a[k].name == b[k].name
    ensures Checks(a) == Checks(b)
  {
    if a != [] { SameNamesSameChecks(a[..|a| - 1], b[..|b| - 1]); }
  }

  lemma {:induction false} CallsAreCounted(e: Effects, w: World, turn: nat, calls: seq<Call>)
    requires Distinct(e.files)
    ensures AfterCalls(e, w, turn, calls).rework == e.rework + Checks(calls)
    ensures Distinct(AfterCalls(e, w, turn, calls).files)
  {
    if calls != [] {
      var front, last := calls[..|calls| - 1], calls[|calls| - 1];
      CallsAreCounted(e, w, turn, front);
      var before := AfterCalls(e, w, turn, front);
      if w.path(last.arguments) !in before.files { DistinctAppend(before.files, w.path(last.arguments)); }
    }
  }

  lemma ReplyCounts(ms: seq<Message>, w: World, turn: nat, reply: Reply)
    ensures var after := ms + [Assistant(reply.text, Compacted(w, reply.calls))] + ToolMessages(w, turn, reply.calls);
      Replies(after) == Replies(ms) + 1 && ChecksIn(after) == ChecksIn(ms) + Checks(reply.calls)
  {
    var calls := Compacted(w, reply.calls);
    var asked := ms + [Assistant(reply.text, calls)];
    assert asked[..|asked| - 1] == ms;
    ToolsAreNotReplies(asked, ToolMessages(w, turn, reply.calls));
    SameNamesSameChecks(calls, reply.calls);
  }

  lemma ReplyKeepsAccounts(p: Progress, w: World, turn: nat, reply: Reply)
    requires Accounted(p)
    ensures Accounted(AfterReply(p, w, turn, reply))
  {
    ReplyCounts(p.messages, w, turn, reply);
    CallsAreCounted(p.effects, w, turn, reply.calls);
    var usage := AfterReply(p, w, turn, reply).usage;
    assert usage[..|usage| - 1] == p.usage;
  }

  /** A run keeps its accounts: one usage record per reply, numbered from 1, token totals that are
      the sums of the records, as many rework turns as commands and validators called, and no file
      listed twice. */
  lemma RunsKeepAccounts(p: Progress, w: World, turn: nat, left: nat)
    requires Accounted(p)
    ensures Accounted(Turns(p, w, turn, left).0)
  {
    forall q, t: nat, reply | Accounted(q) ensures Accounted(AfterReply(q, w, t, reply)) {
      ReplyKeepsAccounts(q, w, t, reply);
    }
    RunsKeep(q => Accounted(q), p, w, turn, left);
  }

  /** A run stays within its turns, uses all of them when it ends for want of turns, and asked the
      model once for every reply it counts, and once more if that failed. */
  lemma {:induction false} RunsStayWithinTurns(p: Progress, w: World, turn: nat, left: nat)
    ensures var (q, stop) := Turns(p, w, turn, left);
      && p.llmTurns <= q.llmTurns <= p.llmTurns + left
      && (stop == MaxTurns ==> q.llmTurns == p.llmTurns + left)
      && |Prompts(p, w, turn, left)| == q.llmTurns - p.llmTurns + (if stop.Failed? then 1 else 0)
    decreases left
  {
    if left > 0 {
      var outcome := w.ask(turn, p.messages);
      if outcome.Replied? {
        RunsStayWithinTurns(AfterReply(p, w, turn, outcome.reply), w, turn + 1, left - 1);
      }
    }
  }

  // ---------------------------------------------------------------------------------------
  // Why a run stops
  // ---------------------------------------------------------------------------------------

  /** A reply after which the run goes on. */
  predicate GoesOn(m: Message) { m.Assistant? ==> m.calls != [] && !CallsDone(m.calls) }

  ghost predicate AllGoOn(ms: seq<Message>) { forall k :: 0 <= k < |ms| ==> GoesOn(ms[k]) }

  /** Every reply before the last one called tools and none was `done`; the last one called
      nothing. */
  ghost predicate SilentLast(ms: seq<Message>) {
    ms != [] && AllGoOn(ms[..|ms| - 1]) && ms[|ms| - 1].Assistant? && ms[|ms| - 1].calls == []
  }

  /** The last one called `done`. */
  ghost predicate DoneLast(ms: seq<Message>) { exists k: nat :: LastReplyIsDone(ms, k) }

  ghost predicate LastReplyIsDone(ms: seq<Message>, k: nat) {
    && k < |ms| && AllGoOn(ms[..k]) && ms[k].Assistant? && CallsDone(ms[k].calls)
    && |ms| == k + 1 + |ms[k].calls|
  }

  ghost predicate Explains(ms: seq<Message>, stop: StopReason) {
    if stop.TextResponse? then SilentLast(ms) else if stop.Done? then DoneLast(ms) else AllGoOn(ms)
  }

  lemma CompactedCalls(w: World, calls: seq<Call>)
    ensures CallsDone(Compacted(w, calls)) <==> CallsDone(calls)
    ensures Compacted(w, calls) == [] <==> calls == []
  {
    var out := Compacted(w, calls);
    if CallsDone(calls) {
      var k :| 0 <= k < |calls| && calls[k].name == "done";
      assert out[k].name == "done";
    }
    if CallsDone(out) {
      var k :| 0 <= k < |out| && out[k].name == "done";
      assert calls[k].name == "done";
    }
  }

  lemma {:induction false} StopIsExplained(p: Progress, w: World, turn: nat, left: nat)
    requires AllGoOn(p.messages)
    ensures Explains(Turns(p, w, turn, left).0.messages, Turns(p, w, turn, left).1)
    decreases left
  {
    if left > 0 {
      var outcome := w.ask(turn, p.messages);
      if outcome.Replied? {
        var reply := outcome.reply;
        var next := AfterReply(p, w, turn, reply);
        var n := |p.messages|;
        CompactedCalls(w, reply.calls);
        assert next.messages[..n] == p.messages;
        if CallsDone(reply.calls) {
          assert LastReplyIsDone(next.messages, n);
        } else if reply.calls != [] {
          StopIsExplained(next, w, turn + 1, left - 1);
        }
      }
    }
  }

  /** The reason a run gives can be read off the history it leaves: `text_response` if and only if
      its last message is a reply without calls, `done` if and only if its last reply called
      `done`; otherwise every reply could have gone on. */
  lemma StopReasonIff(p: Progress, w: World, turn: nat, left: nat)
    requires AllGoOn(p.messages)
    ensures var (q, stop) := Turns(p, w, turn, left);
      && (stop == TextResponse <==> SilentLast(q.messages))
      && (stop == Done <==> DoneLast(q.messages))
      && (stop == MaxTurns || stop.Failed? <==> AllGoOn(q.messages))
  {
    var (q, stop) := Turns(p, w, turn, left);
    StopIsExplained(p, w, turn, left);
    ExplanationsDiffer(q.messages);
  }

  lemma ExplanationsDiffer(ms: seq<Message>)
    ensures SilentLast(ms) ==> !AllGoOn(ms) && !DoneLast(ms)
    ensures DoneLast(ms) ==> !AllGoOn(ms)
  {
    if SilentLast(ms) {
      assert !GoesOn(ms[|ms| - 1]);
      forall k: nat ensures !LastReplyIsDone(ms, k) {
        if k < |ms| - 1 { assert ms[..|ms| - 1][k] == ms[k]; }
      }
    }
    if DoneLast(ms) {
      var k: nat :| LastReplyIsDone(ms, k);
      assert !GoesOn(ms[k]);
    }
  }

  // ---------------------------------------------------------------------------------------
  // A run from its start
  // ---------------------------------------------------------------------------------------

  lemma OnlyRepliesCount(ms: seq<Message>, m: Message)
    requires !m.Assistant?
    ensures Replies(ms + [m]) == Replies(ms) && ChecksIn(ms + [m]) == ChecksIn(ms)
  {
    assert (ms + [m])[..|ms|] == ms;
  }

  lemma StartHasNoReplies(system: string, user: string)
    ensures Replies(Start(system, user).messages) == 0 && ChecksIn(Start(system, user).messages) == 0
  {
    var before := if system == "" then [] else [System(system)];
    OnlyRepliesCount([], System(system));
    assert [] + [System(system)] == [System(system)];
    OnlyRepliesCount(before, User(user));
  }

  lemma StartIsAccounted(system: string, user: string)
    ensures Accounted(Start(system, user))
  {
    StartHasNoReplies(system, user);
  }

  lemma StartGoesOn(system: string, user: string)
    ensures AllGoOn(Start(system, user).messages)
  {
  }

  /** What every run leaves behind, for any model and any tools: a paired history, accounts that
      agree with it, at most as many replies as turns, and a stop reason the history shows. */
  lemma RunFromStart(system: string, user: string, w: World, left: nat)
    ensures var (q, stop) := Turns(Start(system, user), w, 0, left);
      && Paired(q.messages) && Accounted(q) && q.llmTurns <= left && (stop == MaxTurns ==> q.llmTurns == left)
      && (stop == TextResponse <==> SilentLast(q.messages)) && (stop == Done <==> DoneLast(q.messages))
    ensures AllPaired(Prompts(Start(system, user), w, 0, left))
  {
    var p := Start(system, user);
    StartIsPaired(system, user);
    StartIsAccounted(system, user);
    StartGoesOn(system, user);
    RunsStayPaired(p, w, 0, left);
    PromptsArePaired(p, w, 0, left);
    RunsKeepAccounts(p, w, 0, left);
    RunsStayWithinTurns(p, w, 0, left);
    StopReasonIff(p, w, 0, left);
  }
}
