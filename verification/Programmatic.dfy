/** The protocol loop of programmatic tool calls: newline-framed messages are put
    together from chunks of output, calls are dispatched concurrently and each is
    replied to.  A step is one arm of the loop; which arm is taken, when a job
    ends and what the dispatcher returned are inputs. */
module Programmatic {

  import opened Prelude

  type Byte = x: int | 0 <= x < 256

  type Bytes = seq<Byte>

  /** A JSON value, as the text that encodes it. */
  type Json = Bytes

  const MAX_BYTES: nat := 1024 * 1024
  const MAX_CALLS: nat := 1000
  const NEWLINE: Byte := 10
  const SELF := "execute_code"

  datatype ToolCall = ToolCall(id: nat, name: string, args: Json)

  datatype Frame =
    | Call(call: ToolCall)
    | Output(value: Json)
    | Error(message: string)
    | Done
    | Heartbeat

  datatype ToolResult = Returned(value: Json) | Raised(message: string)

  datatype Body = Value(value: Json) | Fault(message: string)

  datatype Reply = Reply(id: nat, body: Body)

  datatype Outcome = Success(output: seq<Json>) | Failure(message: string)

  /** What one run is given: its marker, the frame parser and the enabled names. */
  datatype Env = Env(marker: Bytes, parse: Bytes -> Option<Frame>, enabled: set<string>)

  datatype Event =
    | Stdout(text: Bytes)
    | Stderr
    | Completed(pick: nat, result: ToolResult, sent: bool)
    | Crashed(pick: nat, message: string)
    | Ended(message: string)

  /** The loop's variables, and after them what an observer sees: the lines taken
      from the stream, the calls accepted, those the dispatcher got and the replies
      written. */
  datatype State = State(
    buffer: Bytes,
    seen: set<nat>,
    output: seq<Json>,
    outputBytes: nat,
    jobs: seq<ToolCall>,
    outcome: Option<Outcome>,
    lines: seq<Bytes>,
    calls: seq<ToolCall>,
    dispatched: seq<ToolCall>,
    replies: seq<Reply>)

  const INITIAL := State([], {}, [], 0, [], None, [], [], [], [])

  /** The names a program may call: all tools but the one running it. */
  function EnabledNames(tools: seq<string>): seq<string> {
    Filter(tools, (name: string) => name != SELF)
  }

  function EnvOf(marker: Bytes, parse: Bytes -> Option<Frame>, tools: seq<string>): Env {
    Env(marker, parse, set name | name in EnabledNames(tools))
  }

  // ---- lines and frames ----------------------------------------------------

  /** The position just behind the first newline, or 0 when there is none. */
  function LineEnd(b: Bytes): (n: nat)
    ensures n <= |b|
    ensures n == 0 <==> NEWLINE !in b
    ensures n > 0 ==> b[n - 1] == NEWLINE && NEWLINE !in b[..n - 1]
  {
    if b == [] then 0
    else if b[0] == NEWLINE then 1
    else
      var n := LineEnd(b[1..]);
      assert forall x :: x in b <==> x == b[0] || x in b[1..];
      assert n > 0 ==> b[..n] == [b[0]] + b[1..][..n - 1];
      if n == 0 then 0 else n + 1
  }

  datatype Message = Noise | Malformed | Framed(frame: Frame)

  function MessageOf(env: Env, line: Bytes): Message {
    if !(env.marker <= line) then Noise
    else
      var frame := env.parse(line[|env.marker|..]);
      if frame.None? then Malformed else Framed(frame.value)
  }

  // ---- the steps -----------------------------------------------------------

  /** Leaving the loop; what is left in the buffer is never looked at again. */
  function Finish(s: State, outcome: Outcome): State {
    s.(buffer := [], outcome := Some(outcome))
  }

  function OnCall(env: Env, s: State, c: ToolCall): State {
    var seen := s.seen + {c.id};
    if c.id == 0 || c.id in s.seen || |seen| > MAX_CALLS
    then Finish(s.(seen := seen), Failure("Invalid programmatic tool call"))
    else s.(seen := seen, jobs := s.jobs + [c], calls := s.calls + [c],
            dispatched := if c.name in env.enabled then s.dispatched + [c] else s.dispatched)
  }

  function OnOutput(s: State, value: Json, length: nat): State {
    var bytes := s.outputBytes + length;
    if bytes > MAX_BYTES || |s.output| >= MAX_CALLS
    then Finish(s.(outputBytes := bytes), Failure("Program output exceeds size limit"))
    else s.(outputBytes := bytes, output := s.output + [value])
  }

  function OnFrame(env: Env, s: State, frame: Frame, length: nat): State {
    match frame
    case Heartbeat => s
    case Error(message) => Finish(s, Failure(message))
    case Done =>
      Finish(s, if s.jobs != [] then Failure("Program ended with unawaited tool calls") else Success(s.output))
    case Output(value) => OnOutput(s, value, length)
    case Call(call) => OnCall(env, s, call)
  }

  function OnLine(env: Env, s: State, line: Bytes): State {
    var t := s.(lines := s.lines + [line]);
    match MessageOf(env, line)
    case Noise => t
    case Malformed => Finish(t, Failure("Invalid programmatic tool call or protocol frame"))
    case Framed(frame) => OnFrame(env, t, frame, |line|)
  }

  /** Taking every complete line off the buffer, until one ends the loop. */
  function Drain(env: Env, s: State): State
    decreases |s.buffer|
  {
    var n := LineEnd(s.buffer);
    if s.outcome.Some? || n == 0 then s
    else Drain(env, OnLine(env, s.(buffer := s.buffer[n..]), s.buffer[..n]))
  }

  function Feed(env: Env, s: State, text: Bytes): State {
    if s.outcome.Some? then s
    else if |s.buffer| + |text| > 2 * MAX_BYTES
    then Finish(s, Failure("Program protocol frame exceeds size limit"))
    else Drain(env, s.(buffer := s.buffer + text))
  }

  /** What the program is told about a call. */
  function BodyOf(env: Env, c: ToolCall, result: ToolResult): Body {
    if c.name !in env.enabled then Fault("Tool not found: " + c.name)
    else match result
      case Returned(value) =>
        if |value| <= MAX_BYTES then Value(value) else Fault("Tool result exceeds JSON size limit")
      case Raised(message) => Fault(message)
  }

  function Without(jobs: seq<ToolCall>, k: nat): seq<ToolCall>
    requires k < |jobs|
  {
    jobs[..k] + jobs[k + 1..]
  }

  function OnCompleted(env: Env, s: State, pick: nat, result: ToolResult, sent: bool): State
    requires pick < |s.jobs|
  {
    var c := s.jobs[pick];
    var t := s.(jobs := Without(s.jobs, pick));
    if !sent then Finish(t, Failure("Programmatic execution timed out"))
    else t.(replies := s.replies + [Reply(c.id, BodyOf(env, c, result))])
  }

  /** One turn of the loop. A job can only end while it is there. */
  function Next(env: Env, s: State, event: Event): State {
    if s.outcome.Some? then s
    else match event
      case Stdout(text) => Feed(env, s, text)
      case Stderr => s
      case Completed(pick, result, sent) => if pick < |s.jobs| then OnCompleted(env, s, pick, result, sent) else s
      case Crashed(pick, message) =>
        if pick < |s.jobs| then Finish(s.(jobs := Without(s.jobs, pick)), Failure(message)) else s
      case Ended(message) => Finish(s, Failure(message))
  }

  function Run(env: Env, events: seq<Event>): State {
    if events == [] then INITIAL else Next(env, Run(env, events[..|events| - 1]), events[|events| - 1])
  }

  // ---- the loop's own variables --------------------------------------------

  /** `run_program` from its first read on: the variables it updates in place. */
  class Execution {
    const env: Env
    var buffer: Bytes
    var seen: set<nat>
    var output: seq<Json>
    var outputBytes: nat
    var jobs: seq<ToolCall>
    var outcome: Option<Outcome>
    var lines: seq<Bytes>
    var calls: seq<ToolCall>
    var dispatched: seq<ToolCall>
    var replies: seq<Reply>

    function View(): State
      reads this
    {
      State(buffer, seen, output, outputBytes, jobs, outcome, lines, calls, dispatched, replies)
    }

    constructor (env: Env)
      ensures this.env == env && View() == INITIAL
    {
      this.env := env;
      buffer, seen, output, outputBytes, jobs, outcome := [], {}, [], 0, [], None;
      lines, calls, dispatched, replies := [], [], [], [];
    }

    method Leave(result: Outcome)
      modifies this
      ensures View() == Finish(old(View()), result)
    {
      buffer, outcome := [], Some(result);
    }

    method AcceptCall(c: ToolCall)
      modifies this
      ensures View() == OnCall(env, old(View()), c)
    {
      var inserted := c.id !in seen;
      seen := seen + {c.id};
      if c.id == 0 || !inserted || |seen| > MAX_CALLS {
        Leave(Failure("Invalid programmatic tool call"));
        return;
      }
      if c.name in env.enabled { dispatched := dispatched + [c]; }
      jobs := jobs + [c];
      calls := calls + [c];
    }

    method Handle(frame: Frame, length: nat)
      modifies this
      ensures View() == OnFrame(env, old(View()), frame, length)
    {
      match frame
      case Heartbeat =>
      case Error(message) => Leave(Failure(message));
      case Done =>
        if jobs != [] {
          Leave(Failure("Program ended with unawaited tool calls"));
        } else {
          Leave(Success(output));
        }
      case Output(value) =>
        outputBytes := outputBytes + length;
        if outputBytes > MAX_BYTES || |output| >= MAX_CALLS {
          Leave(Failure("Program output exceeds size limit"));
        } else {
          output := output + [value];
        }
      case Call(call) => AcceptCall(call);
    }

    method Take(line: Bytes)
      modifies this
      ensures View() == OnLine(env, old(View()), line)
      ensures |buffer| <= |old(buffer)|
    {
      lines := lines + [line];
      if !(env.marker <= line) { return; }
      var frame := env.parse(line[|env.marker|..]);
      if frame.None? {
        Leave(Failure("Invalid programmatic tool call or protocol frame"));
      } else {
        Handle(frame.value, |line|);
      }
    }

    /** A chunk of standard output. */
    method Receive(text: Bytes)
      requires outcome.None?
      modifies this
      ensures View() == Feed(env, old(View()), text)
    {
      if |buffer| + |text| > 2 * MAX_BYTES {
        Leave(Failure("Program protocol frame exceeds size limit"));
        return;
      }
      buffer := buffer + text;
      ghost var start := View();
      var end := LineEnd(buffer);
      while outcome.None? && end > 0
        invariant end == LineEnd(buffer)
        invariant Drain(env, View()) == Drain(env, start)
        decreases |buffer|
      {
        var line := buffer[..end];
        ghost var before := View();
        buffer := buffer[end..];
        assert View() == before.(buffer := before.buffer[end..]);
        Take(line);
        assert Drain(env, before) == Drain(env, View());
        end := LineEnd(buffer);
      }
      assert Drain(env, View()) == View();
    }

    /** A job that ended, and whether its reply could be written. */
    method Complete(pick: nat, result: ToolResult, sent: bool)
      requires outcome.None? && pick < |jobs|
      modifies this
      ensures View() == Next(env, old(View()), Completed(pick, result, sent))
    {
      var c := jobs[pick];
      jobs := Without(jobs, pick);
      if !sent {
        Leave(Failure("Programmatic execution timed out"));
        return;
      }
      replies := replies + [Reply(c.id, BodyOf(env, c, result))];
    }
  }
}
