/** Frame reassembly: the loop sees the stream's lines, however the stream was cut
    into chunks and whatever else happened in between. */
module ProgrammaticFraming {

  import opened Programmatic

  /** The complete lines of a stream, each with its newline, and what follows them. */
  function Lines(b: Bytes): seq<Bytes>
    decreases |b|
  {
    var n := LineEnd(b);
    if n == 0 then [] else [b[..n]] + Lines(b[n..])
  }

  function Rest(b: Bytes): (r: Bytes)
    ensures NEWLINE !in r
    decreases |b|
  {
    var n := LineEnd(b);
    if n == 0 then b else Rest(b[n..])
  }

  function Concat(chunks: seq<Bytes>): Bytes {
    if chunks == [] then [] else Concat(chunks[..|chunks| - 1]) + chunks[|chunks| - 1]
  }

  /** Nothing is lost or invented. */
  lemma {:induction false} LinesAndRestAreTheStream(b: Bytes)
    ensures Concat(Lines(b)) + Rest(b) == b
    decreases |b|
  {
    var n := LineEnd(b);
    if n > 0 {
      var head, tail := b[..n], b[n..];
      LinesAndRestAreTheStream(tail);
      ConcatFront(head, Lines(tail));
      Associative(head, Concat(Lines(tail)), Rest(tail));
      CutApart(b, n);
    }
  }

  lemma {:induction false} ConcatFront(x: Bytes, chunks: seq<Bytes>)
    ensures Concat([x] + chunks) == x + Concat(chunks)
  {
    if chunks == [] {
      assert [x] + chunks == [x] && [x][..0] == [];
    } else {
      var n := |chunks| - 1;
      ConcatFront(x, chunks[..n]);
      assert ([x] + chunks)[..|chunks|] == [x] + chunks[..n];
      Associative(x, Concat(chunks[..n]), chunks[n]);
    }
  }

  lemma CutApart(b: Bytes, n: nat)
    requires n <= |b|
    ensures b[..n] + b[n..] == b
  {
  }

  lemma Associative<T>(a: seq<T>, b: seq<T>, c: seq<T>)
    ensures a + b + c == a + (b + c)
  {
  }

  lemma LineEndStable(a: Bytes, b: Bytes)
    requires NEWLINE in a
    ensures LineEnd(a + b) == LineEnd(a)
  {
    var m, n := LineEnd(a), LineEnd(a + b);
    assert (a + b)[m - 1] == NEWLINE;
    assert (a + b)[n - 1] == NEWLINE;
  }

  lemma FirstLineAppend(a: Bytes, b: Bytes)
    requires LineEnd(a) > 0
    ensures var n := LineEnd(a);
            && Lines(a + b) == [a[..n]] + Lines(a[n..] + b)
            && Rest(a + b) == Rest(a[n..] + b)
  {
    var n := LineEnd(a);
    LineEndStable(a, b);
    assert (a + b)[..n] == a[..n] && (a + b)[n..] == a[n..] + b;
  }

  /** More text only adds to the unfinished line. */
  lemma {:induction false} LinesAppend(a: Bytes, b: Bytes)
    ensures Lines(a + b) == Lines(a) + Lines(Rest(a) + b)
    ensures Rest(a + b) == Rest(Rest(a) + b)
    decreases |a|
  {
    var n := LineEnd(a);
    if n > 0 {
      FirstLineAppend(a, b);
      LinesAppend(a[n..], b);
      Associative([a[..n]], Lines(a[n..]), Lines(Rest(a[n..]) + b));
    }
  }

  /** A line is a message if and only if it starts with the marker; the frame is what the
      parser makes of the text behind it. */
  lemma MarkedLine(env: Env, line: Bytes, rest: Bytes)
    ensures line == env.marker + rest ==>
      MessageOf(env, line) == if env.parse(rest).Some? then Framed(env.parse(rest).value) else Malformed
    ensures MessageOf(env, line).Noise? ==> line != env.marker + rest
  {
    if line == env.marker + rest { assert line[|env.marker|..] == rest; }
  }

  // ---- a run takes the stream's lines --------------------------------------

  function Printed(events: seq<Event>): Bytes {
    if events == [] then []
    else
      var e := events[|events| - 1];
      Printed(events[..|events| - 1]) + if e.Stdout? then e.text else []
  }

  lemma OnLineLines(env: Env, s: State, line: Bytes)
    ensures OnLine(env, s, line).lines == s.lines + [line]
  {
  }

  lemma DrainStep(env: Env, s: State)
    requires s.outcome.None? && LineEnd(s.buffer) > 0
    ensures var n := LineEnd(s.buffer);
            var t := OnLine(env, s.(buffer := s.buffer[n..]), s.buffer[..n]);
            && Drain(env, s) == Drain(env, t)
            && t.lines == s.lines + [s.buffer[..n]]
            && t.buffer == if t.outcome.None? then s.buffer[n..] else []
  {
    var n := LineEnd(s.buffer);
    OnLineLines(env, s.(buffer := s.buffer[n..]), s.buffer[..n]);
    FinishClears(env, s.(buffer := s.buffer[n..]), s.buffer[..n]);
  }

  lemma FinishClears(env: Env, s: State, line: Bytes)
    requires s.outcome.None?
    ensures OnLine(env, s, line).buffer == if OnLine(env, s, line).outcome.None? then s.buffer else []
  {
  }

  /** What draining leaves of a buffer `b`, taken after `lines`. */
  ghost predicate Drained(t: State, lines: seq<Bytes>, b: Bytes) {
    && t.lines <= lines + Lines(b)
    && (t.outcome.None? ==> t.lines == lines + Lines(b) && t.buffer == Rest(b))
    && (t.outcome.Some? ==> t.buffer == [])
  }

  lemma DrainedLater(t: State, lines: seq<Bytes>, b: Bytes)
    requires LineEnd(b) > 0
    requires Drained(t, lines + [b[..LineEnd(b)]], b[LineEnd(b)..])
    ensures Drained(t, lines, b)
  {
    Associative(lines, [b[..LineEnd(b)]], Lines(b[LineEnd(b)..]));
  }

  lemma {:induction false} DrainLines(env: Env, s: State)
    requires s.outcome.None?
    ensures Drained(Drain(env, s), s.lines, s.buffer)
    decreases |s.buffer|
  {
    var n := LineEnd(s.buffer);
    if n == 0 {
      assert s.lines + [] == s.lines;
    } else {
      DrainStep(env, s);
      var t := OnLine(env, s.(buffer := s.buffer[n..]), s.buffer[..n]);
      if t.outcome.None? {
        DrainLines(env, t);
      }
      DrainedLater(Drain(env, t), s.lines, s.buffer);
    }
  }

  /** The lines taken and the text held back are those of everything printed. */
  ghost predicate Follows(s: State, stream: Bytes) {
    && s.lines <= Lines(stream)
    && (s.outcome.None? ==> s.lines == Lines(stream) && s.buffer == Rest(stream))
  }

  lemma FeedFollows(env: Env, s: State, text: Bytes, stream: Bytes)
    requires Follows(s, stream)
    ensures Follows(Feed(env, s, text), stream + text)
  {
    if s.outcome.None? && |s.buffer| + |text| <= 2 * MAX_BYTES {
      DrainLines(env, s.(buffer := s.buffer + text));
      DrainedFollows(Feed(env, s, text), stream, text);
    } else {
      StillBehind(s.lines, stream, text);
    }
  }

  lemma DrainedFollows(t: State, stream: Bytes, text: Bytes)
    requires Drained(t, Lines(stream), Rest(stream) + text)
    ensures Follows(t, stream + text)
  {
    LinesAppend(stream, text);
  }

  lemma StillBehind(lines: seq<Bytes>, stream: Bytes, text: Bytes)
    requires lines <= Lines(stream)
    ensures lines <= Lines(stream + text)
  {
    LinesAppend(stream, text);
  }

  lemma NextFollows(env: Env, s: State, event: Event, stream: Bytes)
    requires Follows(s, stream)
    ensures Follows(Next(env, s, event), stream + if event.Stdout? then event.text else [])
  {
    if event.Stdout? {
      FeedFollows(env, s, event.text, stream);
    } else {
      assert stream + [] == stream;
    }
  }

  /** After any events in any order, a loop still running has taken exactly the
      complete lines of all that was printed, and holds exactly what follows the last
      newline; one that ended took the first so many of them. */
  lemma {:induction false} EveryRunTakesTheLines(env: Env, events: seq<Event>)
    ensures Follows(Run(env, events), Printed(events))
    ensures NEWLINE !in Run(env, events).buffer
  {
    if events != [] {
      var n := |events| - 1;
      EveryRunTakesTheLines(env, events[..n]);
      NextFollows(env, Run(env, events[..n]), events[n], Printed(events[..n]));
    }
    FinishedBuffer(env, events);
  }

  lemma {:induction false} FinishedBuffer(env: Env, events: seq<Event>)
    ensures Run(env, events).outcome.Some? ==> Run(env, events).buffer == []
  {
    if events != [] {
      var n := |events| - 1;
      FinishedBuffer(env, events[..n]);
      var s := Run(env, events[..n]);
      if events[n].Stdout? && s.outcome.None? {
        DrainLines(env, s.(buffer := s.buffer + events[n].text));
      }
    }
  }

  // ---- the chunks do not matter --------------------------------------------

  /** Handling lines one after the other, without a buffer. */
  function Replay(env: Env, s: State, lines: seq<Bytes>): State {
    if lines == [] then s
    else
      Proceed(env, Replay(env, s, lines[..|lines| - 1]), lines[|lines| - 1])
  }

  function Proceed(env: Env, s: State, line: Bytes): State {
    if s.outcome.Some? then s else OnLine(env, s, line)
  }

  lemma ReplaySnoc(env: Env, s: State, lines: seq<Bytes>, line: Bytes)
    ensures Replay(env, s, lines + [line]) == Proceed(env, Replay(env, s, lines), line)
  {
    assert (lines + [line])[..|lines|] == lines;
  }

  function Unbuffered(s: State): State { s.(buffer := []) }

  lemma OnFrameUnbuffered(env: Env, s: State, frame: Frame, length: nat)
    ensures Unbuffered(OnFrame(env, s, frame, length)) == OnFrame(env, Unbuffered(s), frame, length)
  {
  }

  lemma OnLineUnbuffered(env: Env, s: State, line: Bytes)
    ensures Unbuffered(OnLine(env, s, line)) == OnLine(env, Unbuffered(s), line)
  {
    var m := MessageOf(env, line);
    if m.Framed? { OnFrameUnbuffered(env, s.(lines := s.lines + [line]), m.frame, |line|); }
  }

  lemma {:induction false} ReplayFront(env: Env, s: State, line: Bytes, lines: seq<Bytes>)
    requires s.outcome.None?
    ensures Replay(env, s, [line] + lines) == Replay(env, OnLine(env, s, line), lines)
  {
    if lines == [] {
      assert [line] + lines == [line] && [line][..0] == [];
    } else {
      var n := |lines| - 1;
      ReplayFront(env, s, line, lines[..n]);
      ReplaySnoc(env, s, [line] + lines[..n], lines[n]);
      ReplaySnoc(env, OnLine(env, s, line), lines[..n], lines[n]);
      assert lines[..n] + [lines[n]] == lines && [line] + lines[..n] + [lines[n]] == [line] + lines;
    }
  }

  lemma {:induction false} ReplayAppend(env: Env, s: State, xs: seq<Bytes>, ys: seq<Bytes>)
    ensures Replay(env, s, xs + ys) == Replay(env, Replay(env, s, xs), ys)
  {
    if ys == [] {
      assert xs + ys == xs;
    } else {
      var n := |ys| - 1;
      ReplayAppend(env, s, xs, ys[..n]);
      ReplaySnoc(env, s, xs + ys[..n], ys[n]);
      ReplaySnoc(env, Replay(env, s, xs), ys[..n], ys[n]);
      assert ys[..n] + [ys[n]] == ys && xs + ys[..n] + [ys[n]] == xs + ys;
    }
  }

  lemma {:induction false} ReplayFinished(env: Env, s: State, lines: seq<Bytes>)
    requires s.outcome.Some?
    ensures Replay(env, s, lines) == s
  {
    if lines != [] { ReplayFinished(env, s, lines[..|lines| - 1]); }
  }

  lemma {:induction false} DrainIsReplay(env: Env, s: State)
    requires s.outcome.None?
    ensures Unbuffered(Drain(env, s)) == Replay(env, Unbuffered(s), Lines(s.buffer))
    decreases |s.buffer|
  {
    var n := LineEnd(s.buffer);
    if n > 0 {
      var shorter, line := s.(buffer := s.buffer[n..]), s.buffer[..n];
      var t := OnLine(env, shorter, line);
      DrainStep(env, s);
      OnLineUnbuffered(env, shorter, line);
      ReplayFront(env, Unbuffered(s), line, Lines(s.buffer[n..]));
      if t.outcome.None? {
        DrainIsReplay(env, t);
      } else {
        ReplayFinished(env, Unbuffered(t), Lines(s.buffer[n..]));
      }
    }
  }

  function Chunks(chunks: seq<Bytes>): seq<Event> {
    if chunks == [] then [] else Chunks(chunks[..|chunks| - 1]) + [Stdout(chunks[|chunks| - 1])]
  }

  /** No chunk pushes the buffer past its limit. */
  predicate Fits(env: Env, chunks: seq<Bytes>) {
    chunks != [] ==>
      var n := |chunks| - 1;
      Fits(env, chunks[..n]) && |Run(env, Chunks(chunks[..n])).buffer| + |chunks[n]| <= 2 * MAX_BYTES
  }

  lemma {:induction false} PrintedChunks(chunks: seq<Bytes>)
    ensures Printed(Chunks(chunks)) == Concat(chunks)
  {
    if chunks != [] {
      var n := |chunks| - 1;
      PrintedChunks(chunks[..n]);
      assert Chunks(chunks)[..|Chunks(chunks)| - 1] == Chunks(chunks[..n]);
    }
  }

  lemma FeedIsReplay(env: Env, s: State, stream: Bytes, text: Bytes)
    requires Follows(s, stream) && (s.outcome.Some? ==> s.buffer == [])
    requires Unbuffered(s) == Replay(env, INITIAL, Lines(stream))
    requires |s.buffer| + |text| <= 2 * MAX_BYTES
    ensures Unbuffered(Feed(env, s, text)) == Replay(env, INITIAL, Lines(stream + text))
  {
    LinesAppend(stream, text);
    ReplayAppend(env, INITIAL, Lines(stream), Lines(Rest(stream) + text));
    if s.outcome.None? {
      DrainIsReplay(env, s.(buffer := s.buffer + text));
    } else {
      ReplayFinished(env, Unbuffered(s), Lines(Rest(stream) + text));
    }
  }

  /** A program whose output comes in chunks that fit is handled line by line. */
  lemma {:induction false} ChunksAreReplayed(env: Env, chunks: seq<Bytes>)
    requires Fits(env, chunks)
    ensures Unbuffered(Run(env, Chunks(chunks))) == Replay(env, INITIAL, Lines(Concat(chunks)))
  {
    if chunks != [] {
      var n := |chunks| - 1;
      var before := Chunks(chunks[..n]);
      ChunksAreReplayed(env, chunks[..n]);
      EveryRunTakesTheLines(env, before);
      FinishedBuffer(env, before);
      PrintedChunks(chunks[..n]);
      FeedIsReplay(env, Run(env, before), Concat(chunks[..n]), chunks[n]);
      assert Chunks(chunks)[..|Chunks(chunks)| - 1] == before;
    }
  }

  /** Two ways of cutting up the same output, neither of which overflows the buffer,
      leave the loop in the same state: same frames, same calls, same outcome, and
      the same text held back. */
  lemma ChunkingIsIrrelevant(env: Env, xs: seq<Bytes>, ys: seq<Bytes>)
    requires Concat(xs) == Concat(ys) && Fits(env, xs) && Fits(env, ys)
    ensures Run(env, Chunks(xs)) == Run(env, Chunks(ys))
  {
    ChunksAreReplayed(env, xs);
    ChunksAreReplayed(env, ys);
    EveryRunTakesTheLines(env, Chunks(xs));
    EveryRunTakesTheLines(env, Chunks(ys));
    FinishedBuffer(env, Chunks(xs));
    FinishedBuffer(env, Chunks(ys));
    PrintedChunks(xs);
    PrintedChunks(ys);
    var s, t := Run(env, Chunks(xs)), Run(env, Chunks(ys));
    assert Unbuffered(s).outcome == s.outcome && Unbuffered(t).outcome == t.outcome;
    SameUnbuffered(s, t);
  }

  lemma SameUnbuffered(s: State, t: State)
    requires Unbuffered(s) == Unbuffered(t) && s.buffer == t.buffer
    ensures s == t
  {
    assert s == Unbuffered(s).(buffer := s.buffer);
  }
}
