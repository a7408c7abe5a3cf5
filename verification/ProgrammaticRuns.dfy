/** What every run of the protocol loop keeps: calls are accepted once, dispatched
    only when enabled and answered at most once; success means all of them were. */
module ProgrammaticRuns {

  import opened Prelude
  import opened Programmatic

  // ---- counting ------------------------------------------------------------

  /** How many of the calls carry the id. */
  function Carrying(calls: seq<ToolCall>, id: nat): nat {
    if calls == [] then 0
    else Carrying(calls[..|calls| - 1], id) + if calls[|calls| - 1].id == id then 1 else 0
  }

  /** How many of the replies answer it. */
  function Answering(replies: seq<Reply>, id: nat): nat {
    if replies == [] then 0
    else Answering(replies[..|replies| - 1], id) + if replies[|replies| - 1].id == id then 1 else 0
  }

  lemma CarryingPush(calls: seq<ToolCall>, c: ToolCall, id: nat)
    ensures Carrying(calls + [c], id) == Carrying(calls, id) + if c.id == id then 1 else 0
  {
    assert (calls + [c])[..|calls|] == calls;
  }

  lemma AnsweringPush(replies: seq<Reply>, r: Reply, id: nat)
    ensures Answering(replies + [r], id) == Answering(replies, id) + if r.id == id then 1 else 0
  {
    assert (replies + [r])[..|replies|] == replies;
  }

  lemma {:induction false} CarryingWithout(jobs: seq<ToolCall>, k: nat, id: nat)
    requires k < |jobs|
    ensures Carrying(jobs, id) == Carrying(Without(jobs, k), id) + if jobs[k].id == id then 1 else 0
  {
    var n := |jobs| - 1;
    if k == n {
      assert Without(jobs, k) == jobs[..n];
    } else {
      CarryingWithout(jobs[..n], k, id);
      assert Without(jobs, k) == Without(jobs[..n], k) + [jobs[n]];
      CarryingPush(Without(jobs[..n], k), jobs[n], id);
    }
  }

  lemma {:induction false} CarriedBy(calls: seq<ToolCall>, id: nat)
    requires forall c :: c in calls ==> c.id != id
    ensures Carrying(calls, id) == 0
  {
    if calls != [] { CarriedBy(calls[..|calls| - 1], id); }
  }

  /** The calls a dispatcher may be given, in order. */
  function Allowed(env: Env, calls: seq<ToolCall>): seq<ToolCall> {
    if calls == [] then []
    else
      var rest := Allowed(env, calls[..|calls| - 1]);
      var c := calls[|calls| - 1];
      if c.name in env.enabled then rest + [c] else rest
  }

  // ---- the invariant -------------------------------------------------------

  /** Accepted calls have distinct non-zero ids, each marked as seen. */
  ghost predicate CallsInv(s: State) {
    && |s.calls| <= MAX_CALLS
    && (forall c :: c in s.calls ==> c.id != 0 && c.id in s.seen)
    && (s.outcome.None? ==> |s.calls| == |s.seen|)
  }

  /** The dispatcher got the enabled ones among them. */
  ghost predicate DispatchInv(env: Env, s: State) {
    s.dispatched == Allowed(env, s.calls)
  }

  /** Each accepted call is running, answered or, once the loop is left, dropped. */
  ghost predicate Conserved(s: State, id: nat) {
    && Carrying(s.calls, id) <= 1
    && Carrying(s.jobs, id) + Answering(s.replies, id) <= Carrying(s.calls, id)
    && (s.outcome.None? || s.outcome.value.Success? ==>
          Carrying(s.jobs, id) + Answering(s.replies, id) == Carrying(s.calls, id))
  }

  /** A reply that says about its call what the dispatcher returned for it, or that
      there is no such tool. */
  ghost predicate Answers(env: Env, c: ToolCall, r: Reply) {
    exists result: ToolResult :: r == Reply(c.id, BodyOf(env, c, result))
  }

  ghost predicate Answered(env: Env, calls: seq<ToolCall>, r: Reply) {
    exists c :: c in calls && Answers(env, c, r)
  }

  ghost predicate JobsAccepted(s: State) {
    forall j :: j in s.jobs ==> j in s.calls
  }

  ghost predicate RepliesInv(env: Env, s: State) {
    JobsAccepted(s) && forall r :: r in s.replies ==> Answered(env, s.calls, r)
  }

  /** A successful run has no job left over. */
  ghost predicate SuccessInv(s: State) {
    s.outcome.Some? && s.outcome.value.Success? ==> s.jobs == [] && s.outcome.value.output == s.output
  }

  // ---- calls and dispatches ------------------------------------------------

  lemma OnCallCounts(env: Env, s: State, c: ToolCall)
    requires s.outcome.None? && CallsInv(s) && DispatchInv(env, s)
    ensures CallsInv(OnCall(env, s, c)) && DispatchInv(env, OnCall(env, s, c))
  {
    var t := OnCall(env, s, c);
    if t.outcome.None? {
      assert t.calls[..|s.calls|] == s.calls;
      assert forall d :: d in t.calls <==> d in s.calls || d == c;
    }
  }

  lemma OnLineCounts(env: Env, s: State, line: Bytes)
    requires s.outcome.None? && CallsInv(s) && DispatchInv(env, s)
    ensures CallsInv(OnLine(env, s, line)) && DispatchInv(env, OnLine(env, s, line))
  {
    var m := MessageOf(env, line);
    if m.Framed? && m.frame.Call? {
      OnCallCounts(env, s.(lines := s.lines + [line]), m.frame.call);
    }
  }

  lemma {:induction false} DrainCounts(env: Env, s: State)
    requires CallsInv(s) && DispatchInv(env, s)
    ensures CallsInv(Drain(env, s)) && DispatchInv(env, Drain(env, s))
    decreases |s.buffer|
  {
    var n := LineEnd(s.buffer);
    if s.outcome.None? && n > 0 {
      var shorter := s.(buffer := s.buffer[n..]);
      OnLineCounts(env, shorter, s.buffer[..n]);
      BufferShrinks(env, shorter, s.buffer[..n]);
      DrainCounts(env, OnLine(env, shorter, s.buffer[..n]));
    }
  }

  lemma BufferShrinks(env: Env, s: State, line: Bytes)
    ensures OnLine(env, s, line).buffer == s.buffer || OnLine(env, s, line).buffer == []
    ensures OnLine(env, s, line).outcome.None? ==> OnLine(env, s, line).buffer == s.buffer
  {
  }

  lemma NextCounts(env: Env, s: State, event: Event)
    requires CallsInv(s) && DispatchInv(env, s)
    ensures CallsInv(Next(env, s, event)) && DispatchInv(env, Next(env, s, event))
  {
    if event.Stdout? && s.outcome.None? {
      DrainCounts(env, s.(buffer := s.buffer + event.text));
    }
  }

  // ---- jobs and replies ----------------------------------------------------

  lemma OnCallConserves(env: Env, s: State, c: ToolCall, id: nat)
    requires s.outcome.None? && CallsInv(s) && Conserved(s, id)
    ensures Conserved(OnCall(env, s, c), id) && SuccessInv(OnCall(env, s, c))
  {
    CarryingPush(s.calls, c, id);
    CarryingPush(s.jobs, c, id);
    if c.id !in s.seen {
      CarriedBy(s.calls, c.id);
    }
  }

  lemma OnOutputConserves(s: State, value: Json, length: nat, id: nat)
    requires s.outcome.None? && Conserved(s, id)
    ensures Conserved(OnOutput(s, value, length), id) && SuccessInv(OnOutput(s, value, length))
  {
  }

  lemma OnFrameConserves(env: Env, s: State, frame: Frame, length: nat, id: nat)
    requires s.outcome.None? && CallsInv(s) && Conserved(s, id)
    ensures Conserved(OnFrame(env, s, frame, length), id) && SuccessInv(OnFrame(env, s, frame, length))
  {
    match frame
    case Call(c) => OnCallConserves(env, s, c, id);
    case Output(value) => OnOutputConserves(s, value, length, id);
    case _ =>
  }

  lemma OnLineConserves(env: Env, s: State, line: Bytes, id: nat)
    requires s.outcome.None? && CallsInv(s) && Conserved(s, id)
    ensures Conserved(OnLine(env, s, line), id) && SuccessInv(OnLine(env, s, line))
  {
    var m := MessageOf(env, line);
    if m.Framed? {
      OnFrameConserves(env, s.(lines := s.lines + [line]), m.frame, |line|, id);
    }
  }

  lemma {:induction false} DrainConserves(env: Env, s: State, id: nat)
    requires CallsInv(s) && DispatchInv(env, s) && Conserved(s, id) && SuccessInv(s)
    ensures Conserved(Drain(env, s), id) && SuccessInv(Drain(env, s))
    decreases |s.buffer|
  {
    var n := LineEnd(s.buffer);
    if s.outcome.None? && n > 0 {
      var shorter, line := s.(buffer := s.buffer[n..]), s.buffer[..n];
      OnLineCounts(env, shorter, line);
      OnLineConserves(env, shorter, line, id);
      BufferShrinks(env, shorter, line);
      DrainConserves(env, OnLine(env, shorter, line), id);
    }
  }

  lemma NextConserves(env: Env, s: State, event: Event, id: nat)
    requires CallsInv(s) && DispatchInv(env, s) && Conserved(s, id) && SuccessInv(s)
    ensures Conserved(Next(env, s, event), id) && SuccessInv(Next(env, s, event))
  {
    if s.outcome.None? {
      match event
      case Stdout(text) => DrainConserves(env, s.(buffer := s.buffer + text), id);
      case Completed(pick, result, sent) =>
        if pick < |s.jobs| { CompletionConserves(env, s, pick, result, sent, id); }
      case Crashed(pick, message) => if pick < |s.jobs| { CarryingWithout(s.jobs, pick, id); }
      case _ =>
    }
  }

  lemma CompletionConserves(env: Env, s: State, pick: nat, result: ToolResult, sent: bool, id: nat)
    requires s.outcome.None? && Conserved(s, id) && pick < |s.jobs|
    ensures Conserved(OnCompleted(env, s, pick, result, sent), id)
    ensures SuccessInv(OnCompleted(env, s, pick, result, sent))
  {
    CarryingWithout(s.jobs, pick, id);
    AnsweringPush(s.replies, Reply(s.jobs[pick].id, BodyOf(env, s.jobs[pick], result)), id);
  }

  lemma AnsweredGrows(env: Env, calls: seq<ToolCall>, c: ToolCall, r: Reply)
    requires Answered(env, calls, r)
    ensures Answered(env, calls + [c], r)
  {
    var d :| d in calls && Answers(env, d, r);
    assert d in calls + [c];
  }

  lemma OnLineReplies(env: Env, s: State, line: Bytes)
    requires RepliesInv(env, s)
    ensures RepliesInv(env, OnLine(env, s, line))
  {
    var m := MessageOf(env, line);
    if m.Framed? && m.frame.Call? {
      forall r | r in s.replies ensures Answered(env, s.calls + [m.frame.call], r) {
        AnsweredGrows(env, s.calls, m.frame.call, r);
      }
    }
  }

  lemma {:induction false} DrainReplies(env: Env, s: State)
    requires RepliesInv(env, s)
    ensures RepliesInv(env, Drain(env, s))
    decreases |s.buffer|
  {
    var n := LineEnd(s.buffer);
    if s.outcome.None? && n > 0 {
      var shorter, line := s.(buffer := s.buffer[n..]), s.buffer[..n];
      OnLineReplies(env, shorter, line);
      BufferShrinks(env, shorter, line);
      DrainReplies(env, OnLine(env, shorter, line));
    }
  }

  lemma NextReplies(env: Env, s: State, event: Event)
    requires RepliesInv(env, s)
    ensures RepliesInv(env, Next(env, s, event))
  {
    if s.outcome.None? {
      match event
      case Stdout(text) => DrainReplies(env, s.(buffer := s.buffer + text));
      case Completed(pick, result, sent) =>
        if pick < |s.jobs| && sent {
          var c := s.jobs[pick];
          assert c in s.calls && Answers(env, c, Reply(c.id, BodyOf(env, c, result)));
        }
      case _ =>
    }
  }

  // ---- every run -----------------------------------------------------------

  lemma {:induction false} RunCounts(env: Env, events: seq<Event>)
    ensures CallsInv(Run(env, events)) && DispatchInv(env, Run(env, events)) && RepliesInv(env, Run(env, events))
  {
    if events != [] {
      var n := |events| - 1;
      RunCounts(env, events[..n]);
      NextCounts(env, Run(env, events[..n]), events[n]);
      NextReplies(env, Run(env, events[..n]), events[n]);
    }
  }

  lemma {:induction false} RunConserves(env: Env, events: seq<Event>, id: nat)
    ensures Conserved(Run(env, events), id) && SuccessInv(Run(env, events))
  {
    if events != [] {
      var n := |events| - 1;
      RunConserves(env, events[..n], id);
      RunCounts(env, events[..n]);
      NextConserves(env, Run(env, events[..n]), events[n], id);
    }
  }

  lemma {:induction false} AllowedMember(env: Env, calls: seq<ToolCall>, c: ToolCall)
    ensures c in Allowed(env, calls) <==> c in calls && c.name in env.enabled
  {
    if calls != [] { AllowedMember(env, calls[..|calls| - 1], c); }
  }

  /** Whatever the program prints and however the events fall: at most a thousand
      calls are accepted, under distinct non-zero ids; the dispatcher gets exactly
      those whose name is one of the tools other than `execute_code`; every reply
      answers an accepted call, and no call is answered twice. */
  lemma CallsAndRepliesAreConserved(
    marker: Bytes, parse: Bytes -> Option<Frame>, tools: seq<string>, events: seq<Event>, id: nat)
    ensures var env := EnvOf(marker, parse, tools);
            var s := Run(env, events);
            && |s.calls| <= MAX_CALLS
            && Carrying(s.calls, 0) == 0 && Carrying(s.calls, id) <= 1
            && (forall c :: c in s.dispatched <==> c in s.calls && c.name in tools && c.name != SELF)
            && (forall r :: r in s.replies ==> Answered(env, s.calls, r))
            && Answering(s.replies, id) <= Carrying(s.calls, id)
  {
    var env := EnvOf(marker, parse, tools);
    var s := Run(env, events);
    RunCounts(env, events);
    RunConserves(env, events, id);
    CarriedBy(s.calls, 0);
    forall c ensures c in s.dispatched <==> c in s.calls && c.name in tools && c.name != SELF {
      AllowedMember(env, s.calls, c);
    }
  }

  /** A run that succeeds has answered every call it accepted, once. */
  lemma SuccessAnswersEverything(env: Env, events: seq<Event>, id: nat)
    requires Run(env, events).outcome.Some? && Run(env, events).outcome.value.Success?
    ensures Answering(Run(env, events).replies, id) == Carrying(Run(env, events).calls, id) <= 1
    ensures Run(env, events).jobs == []
  {
    RunConserves(env, events, id);
  }

  // ---- which job a reply is about ------------------------------------------

  lemma {:induction false} DrainKeepsReplies(env: Env, s: State)
    ensures Drain(env, s).replies == s.replies
    decreases |s.buffer|
  {
    var n := LineEnd(s.buffer);
    if s.outcome.None? && n > 0 {
      var shorter, line := s.(buffer := s.buffer[n..]), s.buffer[..n];
      BufferShrinks(env, shorter, line);
      LineKeepsReplies(env, shorter, line);
      DrainKeepsReplies(env, OnLine(env, shorter, line));
    }
  }

  lemma LineKeepsReplies(env: Env, s: State, line: Bytes)
    ensures OnLine(env, s, line).replies == s.replies
  {
  }

  /** What a program is told about a call of `name`, when the listed tools are `tools`
      and the dispatcher came to `result`: that there is no such tool; or the value, unless
      it is too long; or the error. */
  ghost predicate Tells(tools: seq<string>, name: string, result: ToolResult, body: Body) {
    if name !in tools || name == SELF then body == Fault("Tool not found: " + name)
    else if result.Raised? then body == Fault(result.message)
    else if |result.value| > MAX_BYTES then body == Fault("Tool result exceeds JSON size limit")
    else body == Value(result.value)
  }

  lemma BodyTells(marker: Bytes, parse: Bytes -> Option<Frame>, tools: seq<string>, c: ToolCall, result: ToolResult)
    ensures Tells(tools, c.name, result, BodyOf(EnvOf(marker, parse, tools), c, result))
  {
  }

  /** Reply `j` of a run was written when event `i` completed one of the jobs then
      running, and carries what the dispatcher had returned for that job. */
  ghost predicate WrittenAt(env: Env, events: seq<Event>, j: nat, i: nat) {
    && i < |events| && j < |Run(env, events).replies|
    && var s := Run(env, events[..i]);
       && s.outcome.None? && |s.replies| == j
       && events[i].Completed? && events[i].sent && events[i].pick < |s.jobs|
       && var c := s.jobs[events[i].pick];
          Run(env, events).replies[j] == Reply(c.id, BodyOf(env, c, events[i].result))
  }

  /** The same, with the three things a program can be told spelled out. */
  ghost predicate ToldAt(env: Env, tools: seq<string>, events: seq<Event>, j: nat, i: nat) {
    && i < |events| && j < |Run(env, events).replies|
    && var s := Run(env, events[..i]);
       && s.outcome.None? && |s.replies| == j
       && events[i].Completed? && events[i].sent && events[i].pick < |s.jobs|
       && var c, reply := s.jobs[events[i].pick], Run(env, events).replies[j];
          reply.id == c.id && Tells(tools, c.name, events[i].result, reply.body)
  }

  lemma RepliesGrow(env: Env, s: State, e: Event)
    ensures if s.outcome.None? && e.Completed? && e.sent && e.pick < |s.jobs|
            then
              var c := s.jobs[e.pick];
              Next(env, s, e).replies == s.replies + [Reply(c.id, BodyOf(env, c, e.result))]
            else Next(env, s, e).replies == s.replies
  {
    if e.Stdout? && s.outcome.None? { DrainKeepsReplies(env, s.(buffer := s.buffer + e.text)); }
  }

  lemma {:induction false} EveryReplyIsWritten(env: Env, events: seq<Event>, j: nat)
    requires j < |Run(env, events).replies|
    ensures exists i: nat :: WrittenAt(env, events, j, i)
  {
    var n := |events| - 1;
    var init := events[..n];
    RepliesGrow(env, Run(env, init), events[n]);
    if j < |Run(env, init).replies| {
      EveryReplyIsWritten(env, init, j);
      var i: nat :| WrittenAt(env, init, j, i);
      assert init[..i] == events[..i];
      assert WrittenAt(env, events, j, i);
    } else {
      assert WrittenAt(env, events, j, n);
    }
  }

  /** Every reply was written when one of the running jobs completed, under that job's id,
      and says what came of it: the value, its error, that it was too long, or that there
      is no such tool. */
  lemma EveryReplyIsForItsJob(
    marker: Bytes, parse: Bytes -> Option<Frame>, tools: seq<string>, events: seq<Event>, j: nat)
    requires j < |Run(EnvOf(marker, parse, tools), events).replies|
    ensures exists i: nat :: ToldAt(EnvOf(marker, parse, tools), tools, events, j, i)
  {
    var env := EnvOf(marker, parse, tools);
    EveryReplyIsWritten(env, events, j);
    var i: nat :| WrittenAt(env, events, j, i);
    var c := Run(env, events[..i]).jobs[events[i].pick];
    BodyTells(marker, parse, tools, c, events[i].result);
    assert ToldAt(env, tools, events, j, i);
  }
}
