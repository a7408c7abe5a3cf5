/** What a run reports back: the values its program put out before it was done,
    in order and within the limits. */
module ProgrammaticResults {

  import opened Programmatic
  import opened ProgrammaticRuns
  import opened ProgrammaticFraming

  /** What a sequence of lines says: the values put out, the length of the lines that
      did, and the calls made. */
  datatype Told = Told(output: seq<Json>, bytes: nat, calls: seq<ToolCall>)

  function Hear(t: Told, m: Message, length: nat): Told {
    match m
    case Framed(Output(value)) => t.(output := t.output + [value], bytes := t.bytes + length)
    case Framed(Call(call)) => t.(calls := t.calls + [call])
    case _ => t
  }

  function ToldBy(env: Env, lines: seq<Bytes>): Told {
    if lines == [] then Told([], 0, [])
    else
      var line := lines[|lines| - 1];
      Hear(ToldBy(env, lines[..|lines| - 1]), MessageOf(env, line), |line|)
  }

  predicate IsDone(env: Env, line: Bytes) {
    MessageOf(env, line) == Framed(Done)
  }

  ghost predicate NoneDone(env: Env, lines: seq<Bytes>) {
    forall line :: line in lines ==> !IsDone(env, line)
  }

  /** The loop has kept all that `lines` says, and stayed within the limits. */
  ghost predicate Kept(env: Env, s: State, lines: seq<Bytes>) {
    && ToldBy(env, lines) == Told(s.output, s.outputBytes, s.calls)
    && NoneDone(env, lines)
    && |s.output| <= MAX_CALLS && s.outputBytes <= MAX_BYTES
  }

  ghost predicate ResultInv(env: Env, s: State) {
    && (s.outcome.None? ==> Kept(env, s, s.lines))
    && (s.outcome.Some? && s.outcome.value.Success? ==>
          && s.lines != [] && IsDone(env, s.lines[|s.lines| - 1])
          && Kept(env, s, s.lines[..|s.lines| - 1])
          && s.outcome.value.output == s.output)
  }

  lemma KeptPush(env: Env, s: State, t: State, lines: seq<Bytes>, line: Bytes)
    requires Kept(env, s, lines) && !IsDone(env, line)
    requires Told(t.output, t.outputBytes, t.calls)
             == Hear(Told(s.output, s.outputBytes, s.calls), MessageOf(env, line), |line|)
    requires |t.output| <= MAX_CALLS && t.outputBytes <= MAX_BYTES
    ensures Kept(env, t, lines + [line])
  {
    assert (lines + [line])[..|lines|] == lines;
    assert forall x :: x in lines + [line] <==> x in lines || x == line;
  }

  lemma OnFrameHears(env: Env, s: State, frame: Frame, length: nat)
    requires s.outcome.None?
    ensures var t := OnFrame(env, s, frame, length);
            t.outcome.None? ==>
              && !frame.Done?
              && Told(t.output, t.outputBytes, t.calls)
                 == Hear(Told(s.output, s.outputBytes, s.calls), Framed(frame), length)
              && (t.outputBytes <= MAX_BYTES || t.outputBytes == s.outputBytes)
              && (|t.output| <= MAX_CALLS || t.output == s.output)
  {
  }

  lemma OnFrameSucceeds(env: Env, s: State, frame: Frame, length: nat)
    requires s.outcome.None?
    ensures var t := OnFrame(env, s, frame, length);
            t.outcome.Some? && t.outcome.value.Success? ==>
              frame.Done? && t == Finish(s, Success(s.output))
  {
  }

  lemma OnLineResult(env: Env, s: State, line: Bytes)
    requires s.outcome.None? && ResultInv(env, s)
    ensures ResultInv(env, OnLine(env, s, line))
  {
    var t := OnLine(env, s, line);
    var m := MessageOf(env, line);
    OnLineLines(env, s, line);
    var heard := s.(lines := s.lines + [line]);
    if m.Framed? {
      OnFrameHears(env, heard, m.frame, |line|);
      OnFrameSucceeds(env, heard, m.frame, |line|);
      assert heard.lines[..|heard.lines| - 1] == s.lines;
    }
    if t.outcome.None? {
      KeptPush(env, s, t, s.lines, line);
    }
  }

  lemma {:induction false} DrainResult(env: Env, s: State)
    requires ResultInv(env, s)
    ensures ResultInv(env, Drain(env, s))
    decreases |s.buffer|
  {
    var n := LineEnd(s.buffer);
    if s.outcome.None? && n > 0 {
      var shorter, line := s.(buffer := s.buffer[n..]), s.buffer[..n];
      OnLineResult(env, shorter, line);
      BufferShrinks(env, shorter, line);
      DrainResult(env, OnLine(env, shorter, line));
    }
  }

  lemma NextResult(env: Env, s: State, event: Event)
    requires ResultInv(env, s)
    ensures ResultInv(env, Next(env, s, event))
  {
    if event.Stdout? && s.outcome.None? {
      DrainResult(env, s.(buffer := s.buffer + event.text));
    }
  }

  lemma {:induction false} RunResult(env: Env, events: seq<Event>)
    ensures ResultInv(env, Run(env, events))
  {
    if events != [] {
      RunResult(env, events[..|events| - 1]);
      NextResult(env, Run(env, events[..|events| - 1]), events[|events| - 1]);
    }
  }

  /** A successful run ended at the first line that says done. It returns the values
      put out before it, all of them and in order, at most a thousand and from lines of
      at most a mebibyte together; and every call made before it was accepted. */
  lemma SuccessReturnsTheOutput(env: Env, events: seq<Event>)
    requires Run(env, events).outcome.Some? && Run(env, events).outcome.value.Success?
    ensures var s := Run(env, events);
            var printed := Lines(Printed(events));
            var k := |s.lines| - 1;
            && 0 <= k < |printed|
            && IsDone(env, printed[k]) && NoneDone(env, printed[..k])
            && s.outcome.value.output == ToldBy(env, printed[..k]).output
            && |s.outcome.value.output| <= MAX_CALLS
            && ToldBy(env, printed[..k]).bytes <= MAX_BYTES
            && s.calls == ToldBy(env, printed[..k]).calls
  {
    var s := Run(env, events);
    RunResult(env, events);
    EveryRunTakesTheLines(env, events);
    assert s.lines[..|s.lines| - 1] == Lines(Printed(events))[..|s.lines| - 1];
  }
}
