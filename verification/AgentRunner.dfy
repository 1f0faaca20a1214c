/**
 * The multi-turn agent loop (runner.ts). The model and the tools are arbitrary
 * functions of the conversation so far, which may also fail.
 */
module AgentRunner {
  import opened Wrappers

  datatype ToolCall = ToolCall(id: string, name: string, arguments: string)

  datatype Message =
    | System(content: string)
    | User(content: string)
    | Assistant(content: string, calls: seq<ToolCall>)
    | Tool(callId: string, name: string, content: string)
    | Other(content: string)

  datatype Reply = Reply(message: string, calls: seq<ToolCall>, finished: bool)

  /** Everything outside the loop: what the model answers, what the tools return; `None` when the call throws. */
  datatype World = World(chat: seq<Message> -> Option<Reply>, execute: (seq<Message>, ToolCall) -> Option<string>)

  datatype Outcome = Finished(finalMessage: string, history: seq<Message>, toolCalls: nat) | Failed

  /** The log after running `calls` in order. */
  function RunCalls(w: World, log: seq<Message>, calls: seq<ToolCall>): Option<seq<Message>>
    decreases |calls|
  {
    if calls == [] then Some(log)
    else match w.execute(log, calls[0])
      case None => None
      case Some(result) => RunCalls(w, log + [Tool(calls[0].id, calls[0].name, result)], calls[1..])
  }

  /** The loop with `turns` turns left: its outcome, and how often the model is called. */
  function Loop(w: World, log: seq<Message>, count: nat, turns: nat): (Outcome, nat)
    requires log != []
    decreases turns
  {
    if turns == 0 then (Failed, 0)
    else match w.chat(log)
      case None => (Failed, 1)
      case Some(reply) =>
        if reply.finished then
          (Finished(reply.message, (log + [Assistant(reply.message, [])])[1..], count), 1)
        else match RunCalls(w, log + [Assistant(reply.message, reply.calls)], reply.calls)
          case None => (Failed, 1)
          case Some(next) =>
            RunCallsGrows(w, log + [Assistant(reply.message, reply.calls)], reply.calls);
            var (o, n) := Loop(w, next, count + |reply.calls|, turns - 1);
            (o, n + 1)
  }

  /** A leading system message is replaced by the run's own. */
  function Past(history: seq<Message>): seq<Message> {
    if history != [] && history[0].System? then history[1..] else history
  }

  function Opening(system: string, history: seq<Message>, user: string): seq<Message> {
    [System(system)] + Past(history) + [User(user)]
  }

  method Run(w: World, system: string, history: seq<Message>, user: string, maxToolTurns: nat)
      returns (o: Outcome, ghost chats: nat)
    ensures o == Loop(w, Opening(system, history, user), 0, maxToolTurns).0
    ensures chats == Loop(w, Opening(system, history, user), 0, maxToolTurns).1
  {
    hide RunCalls, Loop, Opening;
    var messages := Opening(system, history, user);
    OpeningIsNotEmpty(system, history, user);
    var toolCalls := 0;
    chats := 0;
    for turn := 0 to maxToolTurns
      invariant messages != [] && chats == turn
      invariant var (end, n) := Loop(w, messages, toolCalls, maxToolTurns - turn);
                Loop(w, Opening(system, history, user), 0, maxToolTurns) == (end, chats + n)
    {
      LoopStep(w, messages, toolCalls, maxToolTurns - turn);
      ghost var log := messages;
      var response := w.chat(messages);
      chats := chats + 1;
      if response.None? { return Failed, chats; }
      var reply := response.value;
      if reply.finished {
        messages := messages + [Assistant(reply.message, [])];
        return Finished(reply.message, messages[1..], toolCalls), chats;
      }
      messages := messages + [Assistant(reply.message, reply.calls)];
      ghost var asked := messages;
      var before := toolCalls;
      for i := 0 to |reply.calls|
        invariant messages != [] && toolCalls == before + i
        invariant RunCalls(w, asked, reply.calls) == RunCalls(w, messages, reply.calls[i..])
      {
        toolCalls := toolCalls + 1;
        var call := reply.calls[i];
        assert reply.calls[i..][1..] == reply.calls[i+1..];
        RunCallsStep(w, messages, reply.calls[i..]);
        var result := w.execute(messages, call);
        if result.None? { return Failed, chats; }
        messages := messages + [Tool(call.id, call.name, result.value)];
      }
      assert reply.calls[|reply.calls|..] == [];
      RunCallsStep(w, messages, []);
      LoopGoesOn(w, log, before, maxToolTurns - turn, messages);
    }
    LoopStep(w, messages, toolCalls, 0);
    return Failed, chats;
  }

  lemma {:induction false} OpeningIsNotEmpty(system: string, history: seq<Message>, user: string)
    ensures Opening(system, history, user) != []
  {}

  lemma {:induction false} RunCallsStep(w: World, log: seq<Message>, calls: seq<ToolCall>)
    ensures RunCalls(w, log, calls) ==
            if calls == [] then Some(log)
            else match w.execute(log, calls[0])
              case None => None
              case Some(result) => RunCalls(w, log + [Tool(calls[0].id, calls[0].name, result)], calls[1..])
  {}

  lemma {:induction false} LoopStep(w: World, log: seq<Message>, count: nat, turns: nat)
    requires log != []
    ensures turns == 0 ==> Loop(w, log, count, turns) == (Failed, 0)
    ensures turns > 0 && w.chat(log).None? ==> Loop(w, log, count, turns) == (Failed, 1)
    ensures turns > 0 && w.chat(log).Some? && w.chat(log).value.finished ==>
      var text := w.chat(log).value.message;
      Loop(w, log, count, turns) == (Finished(text, (log + [Assistant(text, [])])[1..], count), 1)
    ensures turns > 0 && w.chat(log).Some? && !w.chat(log).value.finished ==>
      var reply := w.chat(log).value;
      RunCalls(w, log + [Assistant(reply.message, reply.calls)], reply.calls).None?
      ==> Loop(w, log, count, turns) == (Failed, 1)
  {
    hide RunCalls;
  }

  lemma {:induction false} LoopGoesOn(w: World, log: seq<Message>, count: nat, turns: nat, next: seq<Message>)
    requires log != [] && turns > 0 && w.chat(log).Some? && !w.chat(log).value.finished && next != []
    requires var reply := w.chat(log).value;
             RunCalls(w, log + [Assistant(reply.message, reply.calls)], reply.calls) == Some(next)
    ensures var (o, n) := Loop(w, next, count + |w.chat(log).value.calls|, turns - 1);
            Loop(w, log, count, turns) == (o, n + 1)
  {
    hide RunCalls;
  }

  // ----- well-formed logs

  /** `results` answers `calls`: one result each, same id, same name, same order. */
  ghost predicate Answers(results: seq<Message>, calls: seq<ToolCall>) {
    |results| == |calls| && forall i :: 0 <= i < |calls| ==>
      results[i].Tool? && results[i].callId == calls[i].id && results[i].name == calls[i].name
  }

  /** Each assistant message is followed by exactly the results of its calls, and no result stands alone. */
  ghost predicate WellFormed(log: seq<Message>) {
    if log == [] then true
    else if log[0].Tool? then false
    else if log[0].Assistant? then
      var n := |log[0].calls|;
      n < |log| && Answers(log[1..n+1], log[0].calls) && WellFormed(log[n+1..])
    else WellFormed(log[1..])
  }

  ghost predicate NoSystem(log: seq<Message>) { forall i :: 0 <= i < |log| ==> !log[i].System? }

  function ToolMessages(log: seq<Message>): nat {
    if log == [] then 0 else ToolMessages(log[..|log|-1]) + (if log[|log|-1].Tool? then 1 else 0)
  }

  /** How many messages a turn takes, from its first message on. */
  function TurnLength(m: Message): nat { if m.Assistant? then |m.calls| + 1 else 1 }

  lemma {:induction false} WellFormedStep(log: seq<Message>)
    requires log != []
    ensures WellFormed(log) <==>
      var k := TurnLength(log[0]);
      && !log[0].Tool? && k <= |log| && WellFormed(log[k..])
      && (log[0].Assistant? ==> Answers(log[1..k], log[0].calls))
  {
    hide Answers;
  }

  lemma {:induction false} WellFormedAppend(a: seq<Message>, b: seq<Message>)
    requires WellFormed(a) && WellFormed(b)
    ensures WellFormed(a + b)
    decreases |a|
  {
    hide WellFormed, Answers;
    if a == [] {
      assert a + b == b;
    } else {
      var k := TurnLength(a[0]);
      WellFormedStep(a);
      WellFormedAppend(a[k..], b);
      assert (a + b)[0] == a[0] && (a + b)[1..k] == a[1..k] && (a + b)[k..] == a[k..] + b;
      WellFormedStep(a + b);
    }
  }

  lemma {:induction false} ToolMessagesAppend(a: seq<Message>, b: seq<Message>)
    ensures ToolMessages(a + b) == ToolMessages(a) + ToolMessages(b)
  {
    if b == [] {
      assert a + b == a;
    } else {
      ToolMessagesAppend(a, b[..|b|-1]);
      assert (a + b)[..|a + b|-1] == a + b[..|b|-1];
    }
  }

  lemma {:induction false} AllTools(results: seq<Message>)
    requires forall i :: 0 <= i < |results| ==> results[i].Tool?
    ensures ToolMessages(results) == |results|
  {
    if results != [] { AllTools(results[..|results|-1]); }
  }

  /** The message at `k` is what the tool returned for `call`, asked with the log up to there. */
  ghost predicate Executed(w: World, log: seq<Message>, k: nat, call: ToolCall) {
    k < |log| && log[k].Tool? && w.execute(log[..k], call) == Some(log[k].content)
  }

  /** Running calls leaves the log before them, and adds an answer to each, in order. */
  lemma {:induction false} RunCallsGrows(w: World, log: seq<Message>, calls: seq<ToolCall>)
    ensures var r := RunCalls(w, log, calls);
            r.Some? ==> |r.value| == |log| + |calls| && r.value[..|log|] == log && Answers(r.value[|log|..], calls)
    decreases |calls|
  {
    hide Answers;
    if calls == [] {
      assert log[..|log|] == log && log[|log|..] == [];
      assert Answers([], []) by { NothingToAnswer(); }
    } else if w.execute(log, calls[0]).Some? {
      var next := log + [Tool(calls[0].id, calls[0].name, w.execute(log, calls[0]).value)];
      RunCallsGrows(w, next, calls[1..]);
      var r := RunCalls(w, log, calls);
      if r.Some? {
        OneMore(r.value, log, next[|log|]);
        AnswersMore(next[|log|], r.value[|log|+1..], calls);
      }
    }
  }

  lemma {:induction false} NothingToAnswer()
    ensures Answers([], [])
  {}

  lemma {:induction false} OneMore(all: seq<Message>, log: seq<Message>, m: Message)
    requires |all| > |log| && all[..|log|+1] == log + [m]
    ensures all[..|log|] == log && all[|log|..] == [m] + all[|log|+1..]
  {
    assert all[..|log|] == all[..|log|+1][..|log|];
    assert all[|log|] == all[..|log|+1][|log|];
  }

  lemma {:induction false} AnswersMore(m: Message, results: seq<Message>, calls: seq<ToolCall>)
    requires calls != [] && m.Tool? && m.callId == calls[0].id && m.name == calls[0].name
             && Answers(results, calls[1..])
    ensures Answers([m] + results, calls)
  {}

  /** Each answer is what the tool returned for its own call, with the log up to there. */
  lemma {:induction false} CallsAreExecuted(w: World, log: seq<Message>, calls: seq<ToolCall>, i: nat)
    requires RunCalls(w, log, calls).Some? && i < |calls|
    ensures Executed(w, RunCalls(w, log, calls).value, |log| + i, calls[i])
    decreases |calls|
  {
    hide Answers;
    var next := log + [Tool(calls[0].id, calls[0].name, w.execute(log, calls[0]).value)];
    RunCallsGrows(w, next, calls[1..]);
    var r := RunCalls(w, log, calls).value;
    assert r == RunCalls(w, next, calls[1..]).value;
    if i == 0 {
      assert r[|log|] == r[..|next|][|log|] == next[|log|];
      assert r[..|log|] == r[..|next|][..|log|] == log;
    } else {
      CallsAreExecuted(w, next, calls[1..], i - 1);
    }
  }

  /** One turn with its tool results: a well-formed piece of log. */
  lemma {:induction false} TurnIsWellFormed(text: string, calls: seq<ToolCall>, results: seq<Message>)
    requires Answers(results, calls)
    ensures WellFormed([Assistant(text, calls)] + results) && NoSystem([Assistant(text, calls)] + results)
    ensures ToolMessages([Assistant(text, calls)] + results) == |calls|
  {
    var log := [Assistant(text, calls)] + results;
    assert log[1..|calls|+1] == results && log[|calls|+1..] == [];
    ToolMessagesAppend([Assistant(text, calls)], results);
    AllTools(results);
    assert [Assistant(text, calls)][..0] == [];
  }

  /** What a loop on `log` may end with: the log without its first message, and well-formed turns after it. */
  ghost predicate Extends(o: Outcome, log: seq<Message>, count: nat, added: seq<Message>)
    requires log != []
  {
    o.Finished? ==>
      && o.history == log[1..] + added && WellFormed(added) && NoSystem(added)
      && o.toolCalls == count + ToolMessages(added)
      && added != [] && added[|added|-1] == Assistant(o.finalMessage, [])
  }

  lemma {:induction false} LastTurn(text: string, log: seq<Message>, count: nat)
    requires log != []
    ensures Extends(Finished(text, (log + [Assistant(text, [])])[1..], count), log, count, [Assistant(text, [])])
  {
    var added := [Assistant(text, [])];
    TurnIsWellFormed(text, [], []);
    assert added + [] == added && (log + added)[1..] == log[1..] + added;
  }

  lemma {:induction false} EarlierTurn(o: Outcome, log: seq<Message>, count: nat, text: string, calls: seq<ToolCall>,
                                       results: seq<Message>, later: seq<Message>)
    requires log != [] && Answers(results, calls)
    requires Extends(o, log + ([Assistant(text, calls)] + results), count + |calls|, later)
    ensures Extends(o, log, count, [Assistant(text, calls)] + results + later)
  {
    hide WellFormed, Answers, ToolMessages;
    if o.Finished? {
      var turn := [Assistant(text, calls)] + results;
      TurnIsWellFormed(text, calls, results);
      WellFormedAppend(turn, later);
      ToolMessagesAppend(turn, later);
      assert (log + turn)[1..] + later == log[1..] + (turn + later);
    }
  }

  lemma {:induction false} LoopAppends(w: World, log: seq<Message>, count: nat, turns: nat)
      returns (added: seq<Message>)
    requires log != []
    ensures Loop(w, log, count, turns).1 <= turns && Extends(Loop(w, log, count, turns).0, log, count, added)
    decreases turns
  {
    hide WellFormed, Answers, ToolMessages, RunCalls;
    added := [];
    if turns > 0 && w.chat(log).Some? {
      var reply := w.chat(log).value;
      if reply.finished {
        added := [Assistant(reply.message, [])];
        LastTurn(reply.message, log, count);
      } else {
        var asked := log + [Assistant(reply.message, reply.calls)];
        RunCallsGrows(w, asked, reply.calls);
        if RunCalls(w, asked, reply.calls).Some? {
          var next := RunCalls(w, asked, reply.calls).value;
          var results := next[|asked|..];
          assert next == next[..|asked|] + results == log + ([Assistant(reply.message, reply.calls)] + results);
          var later := LoopAppends(w, next, count + |reply.calls|, turns - 1);
          var o := Loop(w, next, count + |reply.calls|, turns - 1).0;
          EarlierTurn(o, log, count, reply.message, reply.calls, results, later);
          added := [Assistant(reply.message, reply.calls)] + results + later;
        }
      }
    }
  }

  /**
   * A finished run extends the past it was given by the user's message and well-formed turns; it
   * counts their tool results, asks the model at most `maxToolTurns` times, and returns a system
   * message exactly when one came after the first message of its input.
   */
  lemma {:induction false} RunIsSound(w: World, system: string, history: seq<Message>, user: string, maxToolTurns: nat)
    returns (added: seq<Message>)
    requires WellFormed(Past(history))
    ensures var (o, chats) := Loop(w, Opening(system, history, user), 0, maxToolTurns);
            chats <= maxToolTurns
            && (o.Finished? ==> o.history == Past(history) + [User(user)] + added && o.toolCalls == ToolMessages(added)
                                && WellFormed(o.history) && (NoSystem(o.history) <==> NoSystem(Past(history))))
  {
    var log := Opening(system, history, user);
    added := LoopAppends(w, log, 0, maxToolTurns);
    assert log[1..] == Past(history) + [User(user)];
    if !NoSystem(Past(history)) {
      var i :| 0 <= i < |Past(history)| && Past(history)[i].System?;
      assert (Past(history) + [User(user)] + added)[i].System?;
    }
    assert WellFormed([User(user)]) by { assert [User(user)][1..] == []; }
    if Loop(w, log, 0, maxToolTurns).0.Finished? {
      WellFormedAppend(Past(history), [User(user)]);
      WellFormedAppend(Past(history) + [User(user)], added);
    }
  }

  // ----- replaying a log

  /** From `k` on, the log holds the answers to `calls`: each what the tool returned for it on the log before. */
  ghost predicate AnswersAt(w: World, log: seq<Message>, k: nat, calls: seq<ToolCall>) {
    && k + |calls| <= |log| && Answers(log[k..k + |calls|], calls)
    && forall i :: 0 <= i < |calls| ==> Executed(w, log, k + i, calls[i])
  }

  /**
   * From `k` on, the log is what the model and the tools say to the log before, in at most `turns` replies, and it
   * ends with the one that is finished.
   */
  ghost predicate Replays(w: World, log: seq<Message>, k: nat, turns: nat)
    decreases turns
  {
    && turns > 0 && k < |log| && w.chat(log[..k]).Some?
    && var reply := w.chat(log[..k]).value;
       if reply.finished then k == |log| - 1 && log[k] == Assistant(reply.message, [])
       else
         log[k] == Assistant(reply.message, reply.calls) && AnswersAt(w, log, k + 1, reply.calls)
         && Replays(w, log, k + 1 + |reply.calls|, turns - 1)
  }

  /** How many replies of the model a log holds. */
  function ReplyCount(log: seq<Message>): nat {
    if log == [] then 0 else ReplyCount(log[1..]) + (if log[0].Assistant? then 1 else 0)
  }

  /** The tool results of a turn are the only ones that fit its calls. */
  lemma {:induction false} CallsRunIff(w: World, log: seq<Message>, calls: seq<ToolCall>, next: seq<Message>)
    requires log <= next
    ensures |next| == |log| + |calls| && AnswersAt(w, next, |log|, calls) <==> RunCalls(w, log, calls) == Some(next)
    decreases |calls|
  {
    hide Answers, Executed;
    RunCallsGrows(w, log, calls);
    if RunCalls(w, log, calls) == Some(next) {
      forall i | 0 <= i < |calls| ensures Executed(w, next, |log| + i, calls[i]) {
        CallsAreExecuted(w, log, calls, i);
      }
      assert next[|log|..|log| + |calls|] == next[|log|..];
    }
    if |next| == |log| + |calls| && AnswersAt(w, next, |log|, calls) {
      if calls == [] {
        assert next == log;
      } else {
        FirstAnswer(w, log, calls, next);
        CallsRunIff(w, log + [next[|log|]], calls[1..], next);
      }
    }
  }

  lemma {:induction false} FirstAnswer(w: World, log: seq<Message>, calls: seq<ToolCall>, next: seq<Message>)
    requires log <= next && calls != [] && AnswersAt(w, next, |log|, calls)
    ensures w.execute(log, calls[0]).Some?
    ensures next[|log|] == Tool(calls[0].id, calls[0].name, w.execute(log, calls[0]).value)
    ensures log + [next[|log|]] <= next && AnswersAt(w, next, |log| + 1, calls[1..])
  {
    assert next[..|log|] == log && Executed(w, next, |log| + 0, calls[0]);
    assert next[|log|..|log| + |calls|][0] == next[|log|];
    forall i | 0 <= i < |calls| - 1 ensures Executed(w, next, |log| + 1 + i, calls[1..][i]) {
      assert Executed(w, next, |log| + (i + 1), calls[i + 1]);
    }
    var answers, rest := next[|log|..|log| + |calls|], next[|log| + 1..|log| + 1 + |calls[1..]|];
    assert rest == answers[1..];
    assert log + [next[|log|]] <= next by { assert next == log + [next[|log|]] + next[|log| + 1..]; }
  }

  lemma {:induction false} CountsSplit(turn: seq<Message>, later: seq<Message>)
    requires turn != [] && turn[0].Assistant? && forall i :: 0 < i < |turn| ==> turn[i].Tool?
    ensures ToolMessages(turn + later) == |turn| - 1 + ToolMessages(later)
    ensures ReplyCount(turn + later) == 1 + ReplyCount(later)
  {
    var results := turn[1..];
    ToolMessagesAppend(turn, later);
    ToolMessagesAppend([turn[0]], results);
    assert turn == [turn[0]] + results && [turn[0]][..0] == [];
    AllTools(results);
    assert (turn + later)[1..] == results + later;
    ToolsAreNoReplies(results, later);
  }

  lemma {:induction false} ToolsAreNoReplies(results: seq<Message>, later: seq<Message>)
    requires forall i :: 0 <= i < |results| ==> results[i].Tool?
    ensures ReplyCount(results + later) == ReplyCount(later)
  {
    if results == [] {
      assert results + later == later;
    } else {
      assert (results + later)[1..] == results[1..] + later;
      ToolsAreNoReplies(results[1..], later);
    }
  }

  lemma {:induction false} AnswersAreTools(w: World, log: seq<Message>, k: nat, calls: seq<ToolCall>)
    requires AnswersAt(w, log, k, calls)
    ensures forall i :: k <= i < k + |calls| ==> log[i].Tool?
  {
    forall i | k <= i < k + |calls| ensures log[i].Tool? {
      assert log[i] == log[k..k + |calls|][i - k];
    }
  }

  /** A log that replays is the one the loop finishes with. */
  lemma {:induction false} ReplayIsRun(w: World, log: seq<Message>, count: nat, turns: nat, all: seq<Message>)
    requires log != [] && log <= all && Replays(w, all, |log|, turns)
    ensures Loop(w, log, count, turns) == (Finished(all[|all|-1].content, all[1..], count + ToolMessages(all[|log|..])),
                                           ReplyCount(all[|log|..]))
    decreases turns
  {
    hide AnswersAt, Answers, RunCalls, Loop, ToolMessages, ReplyCount;
    assert all[..|log|] == log;
    var reply := w.chat(log).value;
    if reply.finished {
      LastReply(w, log, count, turns, all);
    } else {
      var next, results := TurnReplayed(w, log, count, turns, all);
      ReplayIsRun(w, next, count + |reply.calls|, turns - 1, all);
      CountsSplit(all[|log|..|next|], all[|next|..]);
      assert all[|log|..] == all[|log|..|next|] + all[|next|..];
    }
  }

  lemma {:induction false} LastReply(w: World, log: seq<Message>, count: nat, turns: nat, all: seq<Message>)
    requires log != [] && log <= all && turns > 0 && w.chat(log).Some? && w.chat(log).value.finished
    requires |all| == |log| + 1 && all[|log|] == Assistant(w.chat(log).value.message, [])
    ensures Loop(w, log, count, turns) == (Finished(all[|all|-1].content, all[1..], count + ToolMessages(all[|log|..])),
                                           ReplyCount(all[|log|..]))
  {
    hide RunCalls, Loop;
    var m := all[|log|];
    assert all == log + [m] && all[|log|..] == [m];
    assert [m][1..] == [] && [m][..0] == [];
    LoopStep(w, log, count, turns);
  }

  /** A turn that is not finished: the log after it, from which the loop goes on. */
  lemma {:induction false} TurnReplayed(w: World, log: seq<Message>, count: nat, turns: nat, all: seq<Message>)
      returns (next: seq<Message>, results: nat)
    requires log != [] && log <= all && turns > 0 && w.chat(log).Some? && !w.chat(log).value.finished
    requires |log| < |all| && all[|log|] == Assistant(w.chat(log).value.message, w.chat(log).value.calls)
    requires AnswersAt(w, all, |log| + 1, w.chat(log).value.calls)
    ensures results == |w.chat(log).value.calls| && |next| == |log| + 1 + results && next <= all && log <= next
    ensures forall i :: |log| < i < |next| ==> all[i].Tool?
    ensures var (o, n) := Loop(w, next, count + results, turns - 1); Loop(w, log, count, turns) == (o, n + 1)
  {
    hide AnswersAt, Answers, RunCalls, Loop;
    var reply := w.chat(log).value;
    results := |reply.calls|;
    var asked := log + [all[|log|]];
    AnswersInRange(w, all, |log| + 1, reply.calls);
    next := all[..|log| + 1 + results];
    assert asked <= next;
    PrefixAnswers(w, all, |log| + 1, reply.calls, |next|);
    CallsRunIff(w, asked, reply.calls, next);
    LoopGoesOn(w, log, count, turns, next);
    AnswersAreTools(w, all, |log| + 1, reply.calls);
  }

  lemma {:induction false} AnswersInRange(w: World, log: seq<Message>, k: nat, calls: seq<ToolCall>)
    requires AnswersAt(w, log, k, calls)
    ensures k + |calls| <= |log|
  {}

  /** Only the log up to the answers matters. */
  lemma {:induction false} PrefixAnswers(w: World, log: seq<Message>, k: nat, calls: seq<ToolCall>, n: nat)
    requires k + |calls| <= n <= |log|
    ensures AnswersAt(w, log, k, calls) <==> AnswersAt(w, log[..n], k, calls)
  {
    hide Answers;
    assert log[..n][k..k + |calls|] == log[k..k + |calls|];
    forall i | 0 <= i < |calls| ensures Executed(w, log, k + i, calls[i]) <==> Executed(w, log[..n], k + i, calls[i]) {
      assert log[..n][..k + i] == log[..k + i];
    }
  }

  /** The log that the loop finishes with replays. */
  lemma {:induction false} RunIsReplay(w: World, log: seq<Message>, count: nat, turns: nat)
    requires log != [] && Loop(w, log, count, turns).0.Finished?
    ensures var all := [log[0]] + Loop(w, log, count, turns).0.history; log <= all && Replays(w, all, |log|, turns)
    decreases turns
  {
    hide AnswersAt, Answers, RunCalls;
    var reply, all := w.chat(log).value, [log[0]] + Loop(w, log, count, turns).0.history;
    if reply.finished {
      assert all == log + [Assistant(reply.message, [])] && all[..|log|] == log;
    } else {
      var asked := log + [Assistant(reply.message, reply.calls)];
      RunCallsGrows(w, asked, reply.calls);
      var next := RunCalls(w, asked, reply.calls).value;
      LoopGoesOn(w, log, count, turns, next);
      RunIsReplay(w, next, count + |reply.calls|, turns - 1);
      assert next[0] == next[..|asked|][0] == log[0];
      assert all[..|next|] == next && next[..|asked|] == asked;
      assert all[..|log|] == asked[..|log|] == log && all[|log|] == asked[|log|];
      assert asked <= next;
      CallsRunIff(w, asked, reply.calls, next);
      PrefixAnswers(w, all, |asked|, reply.calls, |next|);
    }
  }

  /**
   * Main result: a run finishes with a history exactly when, behind the system message, it holds the past without a
   * leading system message, the user's message, and a replay of at most `maxToolTurns` replies. The final message
   * is the last reply; the tool results and the replies are counted.
   */
  lemma {:induction false} RunFinishesIff(w: World, system: string, history: seq<Message>, user: string,
                                          maxToolTurns: nat, after: seq<Message>)
    ensures var past := if history != [] && history[0].System? then history[1..] else history;
            var start, all := [System(system)] + past + [User(user)], [System(system)] + after;
            var (o, chats) := Loop(w, Opening(system, history, user), 0, maxToolTurns);
            && (o.Finished? && o.history == after <==> start <= all && Replays(w, all, |start|, maxToolTurns))
            && (o.Finished? && o.history == after ==>
                  o.finalMessage == all[|all|-1].content && o.toolCalls == ToolMessages(all[|start|..])
                  && chats == ReplyCount(all[|start|..]))
  {
    hide Replays, Loop, ToolMessages, ReplyCount;
    var start, all := Opening(system, history, user), [System(system)] + after;
    var (o, chats) := Loop(w, start, 0, maxToolTurns);
    assert start[0] == System(system) && all[1..] == after;
    if o.Finished? { RunIsReplay(w, start, 0, maxToolTurns); }
    if start <= all && Replays(w, all, |start|, maxToolTurns) { ReplayIsRun(w, start, 0, maxToolTurns, all); }
  }

  // ----- conversations

  datatype Prompt = Prompt(world: World, system: string, user: string, maxToolTurns: nat)

  /** The history after a chain of runs, each fed the history of the one before; a failed run leaves it as it was. */
  function Converse(history: seq<Message>, prompts: seq<Prompt>): seq<Message> {
    if prompts == [] then history
    else
      var before, p := Converse(history, prompts[..|prompts|-1]), prompts[|prompts|-1];
      var (o, _) := Loop(p.world, Opening(p.system, before, p.user), 0, p.maxToolTurns);
      if o.Finished? then o.history else before
  }

  /**
   * Every chain of runs keeps the history well formed and only ever longer, after any leading system
   * message; and once a run has finished no system message is left in it.
   */
  lemma {:induction false} ConversationIsSound(history: seq<Message>, prompts: seq<Prompt>)
    requires WellFormed(Past(history)) && NoSystem(Past(history))
    ensures var after := Converse(history, prompts);
            && WellFormed(Past(after)) && NoSystem(Past(after)) && Past(history) <= Past(after)
            && (after == history || (NoSystem(after) && Past(after) == after))
  {
    hide Loop, WellFormed, Past;
    if prompts != [] {
      var p := prompts[|prompts|-1];
      ConversationIsSound(history, prompts[..|prompts|-1]);
      var before := Converse(history, prompts[..|prompts|-1]);
      var added := RunIsSound(p.world, p.system, before, p.user, p.maxToolTurns);
      var (o, _) := Loop(p.world, Opening(p.system, before, p.user), 0, p.maxToolTurns);
      if o.Finished? { PastOfPlain(o.history); }
    }
  }

  lemma {:induction false} PastOfPlain(log: seq<Message>)
    requires NoSystem(log)
    ensures Past(log) == log
  {}
}
