/** How every run ends, read off what was printed and what completed: when it goes on,
    when it succeeds and with what, and which failure it reports otherwise. */
module ProgrammaticOutcomes {

  import opened Prelude
  import opened Programmatic
  import opened ProgrammaticFraming
  import opened ProgrammaticResults

  // ---- lines that let the run go on ----------------------------------------

  /** A line that is noise, or a call, an output or a sign of life. */
  predicate Ordinary(env: Env, line: Bytes) {
    match MessageOf(env, line)
    case Noise => true
    case Malformed => false
    case Framed(frame) => frame.Call? || frame.Output? || frame.Heartbeat?
  }

  /** At most a thousand calls, under distinct ids other than zero. */
  ghost predicate GoodCalls(calls: seq<ToolCall>) {
    && |calls| <= MAX_CALLS
    && (forall i :: 0 <= i < |calls| ==> calls[i].id != 0)
    && (forall i, j :: 0 <= i < j < |calls| ==> calls[i].id != calls[j].id)
  }

  ghost predicate WithinLimits(told: Told) {
    GoodCalls(told.calls) && |told.output| <= MAX_CALLS && told.bytes <= MAX_BYTES
  }

  ghost predicate AllOrdinary(env: Env, lines: seq<Bytes>) {
    forall i :: 0 <= i < |lines| ==> Ordinary(env, lines[i])
  }

  /** Nothing in the lines ends a run. */
  ghost predicate Clean(env: Env, lines: seq<Bytes>) {
    AllOrdinary(env, lines) && WithinLimits(ToldBy(env, lines))
  }

  /** One more line is fine. */
  ghost predicate Passes(env: Env, told: Told, line: Bytes) {
    match MessageOf(env, line)
    case Noise => true
    case Malformed => false
    case Framed(Heartbeat) => true
    case Framed(Output(_)) => told.bytes + |line| <= MAX_BYTES && |told.output| < MAX_CALLS
    case Framed(Call(c)) => c.id != 0 && |told.calls| < MAX_CALLS && forall d :: d in told.calls ==> d.id != c.id
    case Framed(_) => false
  }

  lemma GoodCallsSnoc(calls: seq<ToolCall>, c: ToolCall)
    ensures GoodCalls(calls + [c]) <==>
      GoodCalls(calls) && c.id != 0 && |calls| < MAX_CALLS && forall d :: d in calls ==> d.id != c.id
  {
    var all := calls + [c];
    assert all[|calls|] == c;
    assert forall i :: 0 <= i < |calls| ==> all[i] == calls[i];
    if GoodCalls(all) {
      forall d | d in calls ensures d.id != c.id {
        var i :| 0 <= i < |calls| && calls[i] == d;
        assert all[i].id != all[|calls|].id;
      }
    }
  }

  lemma ToldSnoc(env: Env, lines: seq<Bytes>, line: Bytes)
    ensures ToldBy(env, lines + [line]) == Hear(ToldBy(env, lines), MessageOf(env, line), |line|)
  {
    assert (lines + [line])[..|lines|] == lines;
  }

  lemma OrdinarySnoc(env: Env, lines: seq<Bytes>, line: Bytes)
    ensures AllOrdinary(env, lines + [line]) <==> AllOrdinary(env, lines) && Ordinary(env, line)
  {
    var all := lines + [line];
    if AllOrdinary(env, all) {
      assert Ordinary(env, all[|lines|]);
      forall i | 0 <= i < |lines| ensures Ordinary(env, lines[i]) { assert all[i] == lines[i]; }
    }
  }

  lemma HearWithin(env: Env, told: Told, line: Bytes)
    ensures Ordinary(env, line) && WithinLimits(Hear(told, MessageOf(env, line), |line|)) <==>
      WithinLimits(told) && Passes(env, told, line)
  {
    match MessageOf(env, line)
    case Framed(Call(c)) => GoodCallsSnoc(told.calls, c);
    case _ =>
  }

  lemma CleanSnoc(env: Env, lines: seq<Bytes>, line: Bytes)
    ensures Clean(env, lines + [line]) <==> Clean(env, lines) && Passes(env, ToldBy(env, lines), line)
  {
    ToldSnoc(env, lines, line);
    OrdinarySnoc(env, lines, line);
    HearWithin(env, ToldBy(env, lines), line);
  }

  lemma {:induction false} CleanPrefix(env: Env, lines: seq<Bytes>, k: nat)
    requires Clean(env, lines) && k <= |lines|
    ensures Clean(env, lines[..k])
    decreases |lines|
  {
    if k < |lines| {
      var n := |lines| - 1;
      assert lines == lines[..n] + [lines[n]];
      CleanSnoc(env, lines[..n], lines[n]);
      CleanPrefix(env, lines[..n], k);
      assert lines[..n][..k] == lines[..k];
    } else {
      assert lines[..k] == lines;
    }
  }

  // ---- one line ------------------------------------------------------------

  /** The loop's variables hold what `lines` says. */
  ghost predicate Matches(env: Env, s: State, lines: seq<Bytes>) {
    && ToldBy(env, lines) == Told(s.output, s.outputBytes, s.calls)
    && |s.seen| == |s.calls|
    && (forall c :: c in s.calls ==> c.id in s.seen)
    && (forall id :: id in s.seen ==> exists c :: c in s.calls && c.id == id)
  }

  /** The outcome a line gives a run that it ends, `idle` saying that no call is pending. */
  ghost predicate EndedBy(env: Env, told: Told, line: Bytes, idle: bool, outcome: Outcome) {
    match MessageOf(env, line)
    case Noise => false
    case Malformed => outcome == Failure("Invalid programmatic tool call or protocol frame")
    case Framed(Heartbeat) => false
    case Framed(Error(message)) => outcome == Failure(message)
    case Framed(Done) =>
      outcome == if idle then Success(told.output) else Failure("Program ended with unawaited tool calls")
    case Framed(Output(_)) => outcome == Failure("Program output exceeds size limit")
    case Framed(Call(_)) => outcome == Failure("Invalid programmatic tool call")
  }

  lemma CallLine(env: Env, s: State, lines: seq<Bytes>, line: Bytes, c: ToolCall)
    requires s.outcome.None? && Matches(env, s, lines) && MessageOf(env, line) == Framed(Call(c))
    ensures var t := OnCall(env, s, c);
      if Passes(env, ToldBy(env, lines), line) then
        t.outcome.None? && Matches(env, t, lines + [line]) && t.jobs == s.jobs + [c]
      else t.outcome == Some(Failure("Invalid programmatic tool call"))
  {
    var t := OnCall(env, s, c);
    ToldSnoc(env, lines, line);
    if c.id in s.seen {
      var d :| d in s.calls && d.id == c.id;
    } else {
      assert |s.seen + {c.id}| == |s.seen| + 1;
      assert forall d :: d in s.calls + [c] <==> d in s.calls || d == c;
      if t.outcome.None? {
        forall id | id in t.seen ensures exists d :: d in t.calls && d.id == id {
          if id != c.id {
            var d :| d in s.calls && d.id == id;
            assert d in t.calls;
          } else {
            assert c in t.calls;
          }
        }
      }
    }
  }

  lemma OutputLine(env: Env, s: State, lines: seq<Bytes>, line: Bytes, value: Json)
    requires s.outcome.None? && Matches(env, s, lines) && MessageOf(env, line) == Framed(Output(value))
    ensures var t := OnOutput(s, value, |line|);
      if Passes(env, ToldBy(env, lines), line) then
        t.outcome.None? && Matches(env, t, lines + [line]) && t.jobs == s.jobs
      else t.outcome == Some(Failure("Program output exceeds size limit"))
  {
    var t := OnOutput(s, value, |line|);
    OutputTold(env, lines, line, value);
    assert t.seen == s.seen && t.calls == s.calls && t.jobs == s.jobs;
  }

  lemma OutputTold(env: Env, lines: seq<Bytes>, line: Bytes, value: Json)
    requires MessageOf(env, line) == Framed(Output(value))
    ensures var told := ToldBy(env, lines);
      && ToldBy(env, lines + [line]) == Told(told.output + [value], told.bytes + |line|, told.calls)
      && (Passes(env, told, line) <==> told.bytes + |line| <= MAX_BYTES && |told.output| < MAX_CALLS)
  {
    ToldSnoc(env, lines, line);
  }

  function NewCalls(env: Env, line: Bytes): nat {
    match MessageOf(env, line)
    case Framed(Call(_)) => 1
    case _ => 0
  }

  /** A line lets the run go on, keeping the account, or ends it as its message says. */
  lemma LineDecides(env: Env, s: State, lines: seq<Bytes>, line: Bytes)
    requires s.outcome.None? && Matches(env, s, lines)
    ensures var t := OnLine(env, s, line);
      if Passes(env, ToldBy(env, lines), line) then
        && t.outcome.None? && Matches(env, t, lines + [line])
        && |t.jobs| == |s.jobs| + NewCalls(env, line)
      else t.outcome.Some? && EndedBy(env, ToldBy(env, lines), line, s.jobs == [], t.outcome.value)
  {
    var heard := s.(lines := s.lines + [line]);
    ToldSnoc(env, lines, line);
    match MessageOf(env, line)
    case Framed(Call(c)) => CallLine(env, heard, lines, line, c);
    case Framed(Output(value)) => OutputLine(env, heard, lines, line, value);
    case _ =>
  }

  // ---- many lines ----------------------------------------------------------

  function CallsIn(env: Env, lines: seq<Bytes>): nat {
    |ToldBy(env, lines).calls|
  }

  lemma CallsInSnoc(env: Env, lines: seq<Bytes>, line: Bytes)
    ensures CallsIn(env, lines + [line]) == CallsIn(env, lines) + NewCalls(env, line)
  {
    ToldSnoc(env, lines, line);
  }

  /** Line `k` of `all` is the first that does not let the run go on. */
  ghost predicate FirstBad(env: Env, all: seq<Bytes>, k: nat) {
    k < |all| && Clean(env, all[..k]) && !Passes(env, ToldBy(env, all[..k]), all[k])
  }

  /** A run with `pending` calls after `lines` is ended by line `k` of `all`. */
  ghost predicate EndsAt(env: Env, lines: seq<Bytes>, pending: nat, all: seq<Bytes>, k: nat, outcome: Outcome) {
    && |lines| <= k && FirstBad(env, all, k)
    && EndedBy(env, ToldBy(env, all[..k]), all[k], pending + CallsIn(env, all[..k]) == CallsIn(env, lines), outcome)
  }

  /** What a loop that has taken `lines`, with `pending` calls, makes of `all`, which starts
      with them. */
  ghost predicate Decided(env: Env, t: State, lines: seq<Bytes>, pending: nat, all: seq<Bytes>) {
    if Clean(env, all) then
      t.outcome.None? && Matches(env, t, all) && |t.jobs| == pending + CallsIn(env, all) - CallsIn(env, lines)
    else t.outcome.Some? && exists k: nat :: EndsAt(env, lines, pending, all, k, t.outcome.value)
  }

  lemma EndsAtMore(env: Env, lines: seq<Bytes>, pending: nat, all: seq<Bytes>, line: Bytes, k: nat, outcome: Outcome)
    requires EndsAt(env, lines, pending, all, k, outcome)
    ensures EndsAt(env, lines, pending, all + [line], k, outcome)
  {
    assert (all + [line])[..k] == all[..k] && (all + [line])[k] == all[k];
  }

  lemma EndsAtLast(env: Env, lines: seq<Bytes>, pending: nat, all: seq<Bytes>, line: Bytes, outcome: Outcome)
    requires |lines| <= |all| && Clean(env, all) && !Passes(env, ToldBy(env, all), line)
    requires EndedBy(env, ToldBy(env, all), line, pending + CallsIn(env, all) == CallsIn(env, lines), outcome)
    ensures EndsAt(env, lines, pending, all + [line], |all|, outcome)
  {
    assert (all + [line])[..|all|] == all && (all + [line])[|all|] == line;
  }

  lemma DecidedMore(env: Env, s: State, lines: seq<Bytes>, pending: nat, all: seq<Bytes>, line: Bytes)
    requires Decided(env, s, lines, pending, all) && |lines| <= |all|
    ensures Decided(env, Proceed(env, s, line), lines, pending, all + [line])
  {
    CleanSnoc(env, all, line);
    if Clean(env, all) {
      CallsInSnoc(env, all, line);
      LineDecides(env, s, all, line);
      if !Passes(env, ToldBy(env, all), line) {
        EndsAtLast(env, lines, pending, all, line, OnLine(env, s, line).outcome.value);
      }
    } else {
      var k: nat :| EndsAt(env, lines, pending, all, k, s.outcome.value);
      EndsAtMore(env, lines, pending, all, line, k, s.outcome.value);
    }
  }

  lemma LastApart(lines: seq<Bytes>, more: seq<Bytes>) returns (init: seq<Bytes>, last: Bytes)
    requires more != []
    ensures |init| < |more| && more == init + [last] && lines + more == (lines + init) + [last]
  {
    init, last := more[..|more| - 1], more[|more| - 1];
  }

  lemma {:induction false} ReplayDecides(env: Env, s: State, lines: seq<Bytes>, more: seq<Bytes>)
    requires s.outcome.None? && Clean(env, lines) && Matches(env, s, lines)
    ensures Decided(env, Replay(env, s, more), lines, |s.jobs|, lines + more)
    decreases |more|
  {
    if more == [] {
      assert lines + more == lines;
    } else {
      var init, last := LastApart(lines, more);
      ReplayDecides(env, s, lines, init);
      ReplaySnoc(env, s, init, last);
      DecidedMore(env, Replay(env, s, init), lines, |s.jobs|, lines + init, last);
    }
  }

  // ---- one event -----------------------------------------------------------

  /** The buffer plays no part. */
  lemma DecidedUnbuffered(env: Env, t: State, lines: seq<Bytes>, pending: nat, all: seq<Bytes>)
    requires Decided(env, Unbuffered(t), lines, pending, all)
    ensures Decided(env, t, lines, pending, all)
  {
    var u := Unbuffered(t);
    assert u.outcome == t.outcome && u.jobs == t.jobs && u.seen == t.seen && u.calls == t.calls;
    assert Matches(env, u, all) ==> Matches(env, t, all);
  }

  lemma FeedDecides(env: Env, s: State, stream: Bytes, text: Bytes)
    requires s.outcome.None? && Follows(s, stream) && |s.buffer| + |text| <= 2 * MAX_BYTES
    requires Clean(env, Lines(stream)) && Matches(env, s, Lines(stream))
    ensures Decided(env, Feed(env, s, text), Lines(stream), |s.jobs|, Lines(stream + text))
  {
    var fed := s.(buffer := s.buffer + text);
    DrainIsReplay(env, fed);
    assert Unbuffered(fed) == Unbuffered(s);
    assert Matches(env, Unbuffered(s), Lines(stream));
    ReplayDecides(env, Unbuffered(s), Lines(stream), Lines(fed.buffer));
    LinesAppend(stream, text);
    DecidedUnbuffered(env, Feed(env, s, text), Lines(stream), |s.jobs|, Lines(stream + text));
  }

  /** How many calls wait for their result after `events`, by what was printed and what
      completed. */
  function Pending(env: Env, events: seq<Event>): int {
    if events == [] then 0
    else
      var before, e := events[..|events| - 1], events[|events| - 1];
      match e
      case Stdout(text) =>
        Pending(env, before) + CallsIn(env, Lines(Printed(before) + text)) - CallsIn(env, Lines(Printed(before)))
      case Completed(pick, _, _) => Pending(env, before) - if pick < Pending(env, before) then 1 else 0
      case _ => Pending(env, before)
  }

  /** The event, coming after `before`, does not end the run whatever it prints: the buffer
      has room, nobody ends it, no pending call crashes and no reply to one is lost. */
  predicate Harmless(env: Env, before: seq<Event>, e: Event) {
    match e
    case Stdout(text) => |Rest(Printed(before))| + |text| <= 2 * MAX_BYTES
    case Stderr => true
    case Completed(pick, _, sent) => sent || pick >= Pending(env, before)
    case Crashed(pick, _) => pick >= Pending(env, before)
    case Ended(_) => false
  }

  predicate AllHarmless(env: Env, events: seq<Event>) {
    events == [] ||
    (AllHarmless(env, events[..|events| - 1]) && Harmless(env, events[..|events| - 1], events[|events| - 1]))
  }

  /** Nothing that happened and nothing that was printed ends the run. */
  ghost predicate GoesOn(env: Env, events: seq<Event>) {
    AllHarmless(env, events) && Clean(env, Lines(Printed(events)))
  }

  /** The account of a loop still running. */
  ghost predicate Accounted(env: Env, events: seq<Event>) {
    var s := Run(env, events);
    s.outcome.None? && Matches(env, s, Lines(Printed(events))) && |s.jobs| == Pending(env, events)
  }

  /** A line of the stream, beyond those of `before`, ends the run. */
  ghost predicate TextEnds(env: Env, before: seq<Event>, pending: nat, stream: Bytes, outcome: Outcome) {
    exists k: nat :: EndsAt(env, Lines(Printed(before)), pending, Lines(stream), k, outcome)
  }

  /** The outcome event `e` gives a run that went on through `before`. */
  ghost predicate EndsWith(env: Env, before: seq<Event>, e: Event, outcome: Outcome) {
    match e
    case Stdout(text) =>
      if !Harmless(env, before, e) then outcome == Failure("Program protocol frame exceeds size limit")
      else Pending(env, before) >= 0 && TextEnds(env, before, Pending(env, before), Printed(before) + text, outcome)
    case Stderr => false
    case Completed(_, _, _) => !Harmless(env, before, e) && outcome == Failure("Programmatic execution timed out")
    case Crashed(_, message) => !Harmless(env, before, e) && outcome == Failure(message)
    case Ended(message) => outcome == Failure(message)
  }

  lemma PrintedSnoc(events: seq<Event>, e: Event)
    ensures Printed(events + [e]) == if e.Stdout? then Printed(events) + e.text else Printed(events)
  {
    assert (events + [e])[..|events|] == events;
  }

  lemma RunSnoc(env: Env, events: seq<Event>, e: Event)
    ensures Run(env, events + [e]) == Next(env, Run(env, events), e)
  {
    assert (events + [e])[..|events|] == events;
  }

  lemma PendingSnoc(env: Env, events: seq<Event>, e: Event)
    ensures var p := Pending(env, events);
      Pending(env, events + [e]) ==
        if e.Stdout? then p + CallsIn(env, Lines(Printed(events) + e.text)) - CallsIn(env, Lines(Printed(events)))
        else if e.Completed? && e.pick < p then p - 1
        else p
  {
    assert (events + [e])[..|events|] == events;
  }

  lemma HarmlessSnoc(env: Env, events: seq<Event>, e: Event)
    ensures AllHarmless(env, events + [e]) <==> AllHarmless(env, events) && Harmless(env, events, e)
  {
    assert (events + [e])[..|events|] == events;
  }

  /** One event of a run that went on: it still does, accounted for, or it ends. */
  ghost predicate Settled(env: Env, before: seq<Event>, e: Event) {
    if GoesOn(env, before + [e]) then Accounted(env, before + [e])
    else
      && Run(env, before + [e]).outcome.Some?
      && EndsWith(env, before, e, Run(env, before + [e]).outcome.value)
  }

  lemma OverflowSettles(env: Env, before: seq<Event>, text: Bytes)
    requires GoesOn(env, before) && Accounted(env, before) && !Harmless(env, before, Stdout(text))
    ensures Settled(env, before, Stdout(text))
  {
    var e := Stdout(text);
    EveryRunTakesTheLines(env, before);
    RunSnoc(env, before, e);
    HarmlessSnoc(env, before, e);
  }

  lemma FittingSettles(env: Env, before: seq<Event>, text: Bytes, all: seq<Bytes>)
    requires GoesOn(env, before) && Accounted(env, before) && Harmless(env, before, Stdout(text))
    requires all == Lines(Printed(before) + text)
    requires Decided(env, Run(env, before + [Stdout(text)]), Lines(Printed(before)), Pending(env, before), all)
    ensures Settled(env, before, Stdout(text))
  {
    var e := Stdout(text);
    PrintedSnoc(before, e);
    PendingSnoc(env, before, e);
    HarmlessSnoc(env, before, e);
  }

  lemma StdoutSettles(env: Env, before: seq<Event>, text: Bytes)
    requires GoesOn(env, before) && Accounted(env, before)
    ensures Settled(env, before, Stdout(text))
  {
    if Harmless(env, before, Stdout(text)) {
      EveryRunTakesTheLines(env, before);
      RunSnoc(env, before, Stdout(text));
      FeedDecides(env, Run(env, before), Printed(before), text);
      FittingSettles(env, before, text, Lines(Printed(before) + text));
    } else {
      OverflowSettles(env, before, text);
    }
  }

  lemma OtherSettles(env: Env, before: seq<Event>, e: Event)
    requires GoesOn(env, before) && Accounted(env, before) && !e.Stdout?
    ensures Settled(env, before, e)
  {
    RunSnoc(env, before, e);
    PrintedSnoc(before, e);
    PendingSnoc(env, before, e);
    HarmlessSnoc(env, before, e);
  }

  // ---- whole runs ----------------------------------------------------------

  lemma EndedStays(env: Env, before: seq<Event>, e: Event)
    requires Run(env, before).outcome.Some?
    ensures Run(env, before + [e]) == Run(env, before)
  {
    RunSnoc(env, before, e);
  }

  lemma LinesPrefix(a: Bytes, b: Bytes)
    ensures Lines(a) <= Lines(a + b)
  {
    LinesAppend(a, b);
  }

  lemma WentOn(env: Env, before: seq<Event>, e: Event)
    requires GoesOn(env, before + [e])
    ensures GoesOn(env, before)
  {
    HarmlessSnoc(env, before, e);
    PrintedSnoc(before, e);
    if e.Stdout? {
      LinesPrefix(Printed(before), e.text);
      var all, n := Lines(Printed(before) + e.text), |Lines(Printed(before))|;
      CleanPrefix(env, all, n);
      assert all[..n] == Lines(Printed(before));
    }
  }

  /** A run goes on exactly as long as nothing that happened and nothing that was printed
      ends it. */
  lemma {:induction false} RunningIff(env: Env, events: seq<Event>)
    ensures Run(env, events).outcome.None? <==> GoesOn(env, events)
    ensures GoesOn(env, events) ==> Accounted(env, events)
  {
    if events == [] {
      NothingYet(env);
    } else {
      var before, e := events[..|events| - 1], events[|events| - 1];
      assert events == before + [e];
      RunningIff(env, before);
      if GoesOn(env, before) {
        if e.Stdout? { StdoutSettles(env, before, e.text); } else { OtherSettles(env, before, e); }
      } else {
        EndedStays(env, before, e);
        if GoesOn(env, events) { WentOn(env, before, e); }
      }
    }
  }

  lemma NothingYet(env: Env)
    ensures GoesOn(env, []) && Accounted(env, [])
  {
    assert Lines([]) == [] && Printed([]) == [];
  }

  /** Event `n` ends the run with `outcome`. */
  ghost predicate EndedAtEvent(env: Env, events: seq<Event>, n: nat, outcome: Outcome) {
    && n < |events| && GoesOn(env, events[..n]) && !GoesOn(env, events[..n] + [events[n]])
    && EndsWith(env, events[..n], events[n], outcome)
  }

  lemma {:induction false} EndedSomewhere(env: Env, events: seq<Event>) returns (n: nat)
    requires Run(env, events).outcome.Some?
    ensures EndedAtEvent(env, events, n, Run(env, events).outcome.value)
  {
    RunningIff(env, events);
    if events == [] { NothingYet(env); }
    var before, e := events[..|events| - 1], events[|events| - 1];
    assert events == before + [e];
    RunningIff(env, before);
    if GoesOn(env, before) {
      n := |before|;
      assert events[..n] == before;
      if e.Stdout? { StdoutSettles(env, before, e.text); } else { OtherSettles(env, before, e); }
    } else {
      EndedStays(env, before, e);
      n := EndedSomewhere(env, before);
      assert before[..n] == events[..n];
    }
  }

  lemma FirstBadUnique(env: Env, all: seq<Bytes>, j: nat, k: nat)
    requires FirstBad(env, all, j) && FirstBad(env, all, k)
    ensures j == k
  {
    if j < k { BadBlocks(env, all, j, k); }
    if k < j { BadBlocks(env, all, k, j); }
  }

  lemma BadBlocks(env: Env, all: seq<Bytes>, j: nat, k: nat)
    requires j < k <= |all| && Clean(env, all[..k])
    ensures Passes(env, ToldBy(env, all[..j]), all[j])
  {
    CleanPrefix(env, all[..k], j + 1);
    assert all[..k][..j + 1] == all[..j] + [all[j]];
    CleanSnoc(env, all[..j], all[j]);
  }

  lemma EndedByUnique(env: Env, told: Told, line: Bytes, idle: bool, a: Outcome, b: Outcome)
    requires EndedBy(env, told, line, idle, a) && EndedBy(env, told, line, idle, b)
    ensures a == b
  {
  }

  lemma TextEndsUnique(env: Env, before: seq<Event>, pending: nat, stream: Bytes, a: Outcome, b: Outcome)
    requires TextEnds(env, before, pending, stream, a) && TextEnds(env, before, pending, stream, b)
    ensures a == b
  {
    var lines, all := Lines(Printed(before)), Lines(stream);
    var j: nat :| EndsAt(env, lines, pending, all, j, a);
    var k: nat :| EndsAt(env, lines, pending, all, k, b);
    FirstBadUnique(env, all, j, k);
    EndedByUnique(env, ToldBy(env, all[..k]), all[k], pending + CallsIn(env, all[..k]) == CallsIn(env, lines), a, b);
  }

  lemma EndsWithUnique(env: Env, before: seq<Event>, e: Event, a: Outcome, b: Outcome)
    requires EndsWith(env, before, e, a) && EndsWith(env, before, e, b)
    ensures a == b
  {
    if e.Stdout? && Harmless(env, before, e) {
      TextEndsUnique(env, before, Pending(env, before), Printed(before) + e.text, a, b);
    }
  }

  lemma {:induction false} EndedForGood(env: Env, start: seq<Event>, rest: seq<Event>)
    requires Run(env, start).outcome.Some?
    ensures Run(env, start + rest).outcome == Run(env, start).outcome
    decreases |rest|
  {
    if rest == [] {
      assert start + rest == start;
    } else {
      var init, last := rest[..|rest| - 1], rest[|rest| - 1];
      EndedForGood(env, start, init);
      EndedStays(env, start + init, last);
      assert start + init + [last] == start + rest;
    }
  }

  lemma EventEnds(env: Env, before: seq<Event>, e: Event, outcome: Outcome)
    requires GoesOn(env, before) && !GoesOn(env, before + [e]) && EndsWith(env, before, e, outcome)
    ensures Run(env, before + [e]).outcome == Some(outcome)
  {
    RunningIff(env, before);
    if e.Stdout? { StdoutSettles(env, before, e.text); } else { OtherSettles(env, before, e); }
    EndsWithUnique(env, before, e, outcome, Run(env, before + [e]).outcome.value);
  }

  lemma SplitAfterEvent(events: seq<Event>, n: nat) returns (start: seq<Event>, rest: seq<Event>)
    requires n < |events|
    ensures start == events[..n] + [events[n]] && start + rest == events
  {
    start, rest := events[..n] + [events[n]], events[n + 1..];
  }

  lemma EndedThen(env: Env, events: seq<Event>, n: nat, outcome: Outcome)
    requires EndedAtEvent(env, events, n, outcome)
    ensures Run(env, events).outcome == Some(outcome)
  {
    var start, rest := SplitAfterEvent(events, n);
    EventEnds(env, events[..n], events[n], outcome);
    EndedForGood(env, start, rest);
  }

  /** A run has an outcome if and only if some event gives it that outcome, after events
      and output that let it go on. */
  lemma OutcomeIff(env: Env, events: seq<Event>, outcome: Outcome)
    ensures Run(env, events).outcome == Some(outcome) <==> exists n: nat :: EndedAtEvent(env, events, n, outcome)
  {
    if Run(env, events).outcome == Some(outcome) { var n := EndedSomewhere(env, events); }
    if n: nat :| EndedAtEvent(env, events, n, outcome) { EndedThen(env, events, n, outcome); }
  }

  // ---- success -------------------------------------------------------------

  /** Event `n` prints line `k`, the first that does not let the run go on. */
  ghost predicate PrintsBad(env: Env, events: seq<Event>, n: nat, k: nat) {
    && n < |events| && GoesOn(env, events[..n]) && events[n].Stdout? && Harmless(env, events[..n], events[n])
    && |Lines(Printed(events[..n]))| <= k
    && FirstBad(env, Lines(Printed(events[..n]) + events[n].text), k)
  }

  /** Line `k`, printed by event `n`, says done, the lines before it are clean, and every
      call they made has completed. */
  ghost predicate SucceedsAt(env: Env, events: seq<Event>, n: nat, k: nat, output: seq<Json>) {
    && n < |events| && GoesOn(env, events[..n]) && events[n].Stdout? && Harmless(env, events[..n], events[n])
    && var printed := Lines(Printed(events[..n]) + events[n].text);
       && |Lines(Printed(events[..n]))| <= k < |printed|
       && IsDone(env, printed[k]) && Clean(env, printed[..k])
       && Pending(env, events[..n]) + CallsIn(env, printed[..k]) == CallsIn(env, Lines(Printed(events[..n])))
       && output == ToldBy(env, printed[..k]).output
  }

  lemma PendingIsCount(env: Env, events: seq<Event>)
    requires GoesOn(env, events)
    ensures Pending(env, events) >= 0
  {
    RunningIff(env, events);
  }

  /** The first bad line of an event's text ends the run with what it says. */
  lemma BadLineEnds(env: Env, events: seq<Event>, n: nat, k: nat, outcome: Outcome)
    requires PrintsBad(env, events, n, k)
    requires var all := Lines(Printed(events[..n]) + events[n].text);
      EndedBy(env, ToldBy(env, all[..k]), all[k],
              Pending(env, events[..n]) + CallsIn(env, all[..k]) == CallsIn(env, Lines(Printed(events[..n]))), outcome)
    ensures Run(env, events).outcome == Some(outcome)
  {
    var before, e := events[..n], events[n];
    PendingIsCount(env, before);
    BadTextEnds(env, before, e.text, k, outcome);
    EndedThen(env, events, n, outcome);
  }

  lemma BadTextEnds(env: Env, before: seq<Event>, text: Bytes, k: nat, outcome: Outcome)
    requires Harmless(env, before, Stdout(text)) && Pending(env, before) >= 0
    requires EndsAt(env, Lines(Printed(before)), Pending(env, before), Lines(Printed(before) + text), k, outcome)
    ensures EndsWith(env, before, Stdout(text), outcome) && !GoesOn(env, before + [Stdout(text)])
  {
    NotClean(env, Lines(Printed(before) + text), k);
    PrintedSnoc(before, Stdout(text));
  }

  lemma NotClean(env: Env, all: seq<Bytes>, k: nat)
    requires FirstBad(env, all, k)
    ensures !Clean(env, all)
  {
    if Clean(env, all) {
      assert all[..|all|] == all;
      BadBlocks(env, all, k, |all|);
    }
  }

  /** An error frame, when the run gets to it, ends the run with its own message. */
  lemma ErrorFrameEndsTheRun(env: Env, events: seq<Event>, n: nat, k: nat, message: string)
    requires PrintsBad(env, events, n, k)
    requires MessageOf(env, Lines(Printed(events[..n]) + events[n].text)[k]) == Framed(Error(message))
    ensures Run(env, events).outcome == Some(Failure(message))
  {
    BadLineEnds(env, events, n, k, Failure(message));
  }

  lemma SucceedsThen(env: Env, events: seq<Event>, n: nat, k: nat, output: seq<Json>)
    requires SucceedsAt(env, events, n, k, output)
    ensures Run(env, events).outcome == Some(Success(output))
  {
    BadLineEnds(env, events, n, k, Success(output));
  }

  lemma DoneLine(env: Env, told: Told, line: Bytes, idle: bool, output: seq<Json>)
    requires EndedBy(env, told, line, idle, Success(output))
    ensures IsDone(env, line) && idle && output == told.output
  {
  }

  lemma SucceededAt(env: Env, events: seq<Event>, n: nat, output: seq<Json>) returns (k: nat)
    requires EndedAtEvent(env, events, n, Success(output))
    ensures SucceedsAt(env, events, n, k, output)
  {
    var before, e := events[..n], events[n];
    k := SuccessLine(env, before, e, output);
  }

  lemma SuccessLine(env: Env, before: seq<Event>, e: Event, output: seq<Json>) returns (k: nat)
    requires EndsWith(env, before, e, Success(output))
    ensures e.Stdout? && Harmless(env, before, e)
    ensures var lines, all := Lines(Printed(before)), Lines(Printed(before) + e.text);
      && |lines| <= k < |all| && IsDone(env, all[k]) && Clean(env, all[..k])
      && Pending(env, before) + CallsIn(env, all[..k]) == CallsIn(env, lines)
      && output == ToldBy(env, all[..k]).output
  {
    var lines, all := Lines(Printed(before)), Lines(Printed(before) + e.text);
    k :| EndsAt(env, lines, Pending(env, before), all, k, Success(output));
    DoneLine(env, ToldBy(env, all[..k]), all[k],
             Pending(env, before) + CallsIn(env, all[..k]) == CallsIn(env, lines), output);
  }

  /** A run succeeds with `output` if and only if the following holds. Up to some event it
      goes on: the buffer had room, nobody ended it, no pending call crashed, no reply was
      lost, and every line was noise, a sign of life, an output within the limits or a call
      under a new id other than zero, at most a thousand. That event prints the line that
      says done, after more such lines; every call made by then has completed; and `output`
      is all that was put out before. */
  lemma SuccessIff(env: Env, events: seq<Event>, output: seq<Json>)
    ensures Run(env, events).outcome == Some(Success(output)) <==>
      exists n: nat, k: nat :: SucceedsAt(env, events, n, k, output)
  {
    if Run(env, events).outcome == Some(Success(output)) {
      var n := EndedSomewhere(env, events);
      var k := SucceededAt(env, events, n, output);
    }
    if n: nat, k: nat :| SucceedsAt(env, events, n, k, output) { SucceedsThen(env, events, n, k, output); }
  }
}
