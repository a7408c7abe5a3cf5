/** Optimistic reads: a scan bracketed by two checkpoints is accepted exactly
    when no writer held the gate in between, and then it saw one store. */
module OptimisticReads {
  import opened Coordinator
  import opened CoordinatorRuns

  const MAX_OPTIMISTIC_SNAPSHOT_ATTEMPTS := 3

  ghost predicate StepAt<S>(cfg: Config, states: seq<State<S>>, events: seq<Event<S>>, i: nat)
    requires i < |events| < |states|
  {
    Enabled(states[i], events[i]) && states[i + 1] == Next(cfg, states[i], events[i])
  }

  /** The states a run goes through; `events[i]` leads from `states[i]` to the next. */
  ghost predicate Trace<S>(cfg: Config, states: seq<State<S>>, events: seq<Event<S>>) {
    && |states| == |events| + 1
    && GateInv(states[0])
    && forall i :: 0 <= i < |events| ==> StepAt(cfg, states, events, i)
  }

  ghost predicate WriterFree<S>(states: seq<State<S>>, first: nat, last: nat) {
    forall i :: first <= i <= last && i < |states| ==> !states[i].gate.activeWriter
  }

  lemma WriterHeld(g: Gate.Gate, r: Gate.Request)
    requires Gate.Inv(g, g.granted + g.queue) && r in g.holders
    ensures r.mode == Gate.Write <==> g.activeWriter
  {
    if g.activeWriter {
      var w: Gate.Request :| g.holders == {w} && w.mode == Gate.Write;
      assert r == w;
    }
  }

  /** Epochs never fall, and the step that ends a writer's turn raises them; without
      a writer, store and revision stand still. */
  ghost predicate Paced<S>(s: State<S>, t: State<S>) {
    && s.epoch <= t.epoch
    && (s.gate.activeWriter && !t.gate.activeWriter ==> s.epoch < t.epoch)
    && (!s.gate.activeWriter ==> t.store == s.store && t.revision == s.revision && t.epoch == s.epoch)
  }

  lemma StepIsPaced<S>(cfg: Config, s: State<S>, e: Event<S>)
    requires GateInv(s) && Enabled(s, e)
    ensures Paced(s, Next(cfg, s, e))
  {
    match e
    case EndRead(r) => if r in s.gate.holders { WriterHeld(s.gate, r); }
    case StoreWrite(r, _) => WriterHeld(s.gate, r);
    case Commit(r, _, _, _, _) => WriterHeld(s.gate, r);
    case Abandon(r) => WriterHeld(s.gate, r);
    case _ =>
  }

  lemma {:induction false} GateAlong<S>(cfg: Config, states: seq<State<S>>, events: seq<Event<S>>, i: nat)
    requires Trace(cfg, states, events) && i < |states|
    ensures GateInv(states[i])
  {
    if i > 0 {
      GateAlong(cfg, states, events, i - 1);
      assert StepAt(cfg, states, events, i - 1);
      GateStep(cfg, states[i - 1], events[i - 1]);
    }
  }

  ghost predicate PacedAt<S>(states: seq<State<S>>, i: nat)
    requires i + 1 < |states|
  {
    Paced(states[i], states[i + 1])
  }

  ghost predicate AllPaced<S>(states: seq<State<S>>) {
    forall i :: 0 <= i < |states| - 1 ==> PacedAt(states, i)
  }

  lemma TraceIsPaced<S>(cfg: Config, states: seq<State<S>>, events: seq<Event<S>>)
    requires Trace(cfg, states, events)
    ensures AllPaced(states)
  {
    forall i | 0 <= i < |states| - 1 ensures PacedAt(states, i) {
      GateAlong(cfg, states, events, i);
      assert StepAt(cfg, states, events, i);
      StepIsPaced(cfg, states[i], events[i]);
    }
  }

  /** A writer that held the gate and no longer does has raised the epoch. */
  lemma {:induction false} WriterLeavesATrace<S>(states: seq<State<S>>, i: nat, j: nat)
    requires AllPaced(states) && i <= j < |states|
    ensures states[i].epoch <= states[j].epoch
    ensures states[i].gate.activeWriter && !states[j].gate.activeWriter ==> states[i].epoch < states[j].epoch
    decreases j - i
  {
    if i < j {
      WriterLeavesATrace(states, i, j - 1);
      assert PacedAt(states, j - 1);
    }
  }

  /** While no writer holds the gate, store, revision and epoch stand still. */
  lemma {:induction false} StandsStill<S>(states: seq<State<S>>, i: nat, j: nat)
    requires AllPaced(states) && i <= j < |states| && WriterFree(states, i, j)
    ensures states[j].store == states[i].store && states[j].revision == states[i].revision
    ensures states[j].epoch == states[i].epoch
    decreases j - i
  {
    if i < j {
      StandsStill(states, i, j - 1);
      assert PacedAt(states, j - 1);
    }
  }

  /** Two writer-free moments show the same epoch exactly when no writer held
      the gate between them. */
  lemma SameEpochMeansWriterFree<S>(states: seq<State<S>>, first: nat, last: nat)
    requires AllPaced(states) && first <= last < |states|
    requires !states[first].gate.activeWriter && !states[last].gate.activeWriter
    ensures states[first].epoch == states[last].epoch <==> WriterFree(states, first, last)
  {
    if WriterFree(states, first, last) {
      StandsStill(states, first, last);
    } else {
      var i :| first <= i <= last && states[i].gate.activeWriter;
      WriterLeavesATrace(states, first, i);
      WriterLeavesATrace(states, i, last);
    }
  }

  // ---- the retry loop ------------------------------------------------------

  /** One try: the states its checkpoints and its store reads happened in, and
      the read requests that held the gate for the checkpoints. */
  datatype Attempt = Attempt(first: nat, before: Gate.Request, scanned: seq<nat>, last: nat, after: Gate.Request)

  predicate Took<S>(states: seq<State<S>>, a: Attempt) {
    && a.first <= a.last < |states|
    && (forall i :: 0 <= i < |a.scanned| ==> a.first <= a.scanned[i] <= a.last)
    && a.before.mode == a.after.mode == Gate.Read
    && a.before in states[a.first].gate.holders
    && a.after in states[a.last].gate.holders
  }

  lemma CheckpointHasNoWriter<S>(
      cfg: Config, states: seq<State<S>>, events: seq<Event<S>>, i: nat, r: Gate.Request)
    requires Trace(cfg, states, events) && i < |states|
    requires r.mode == Gate.Read && r in states[i].gate.holders
    ensures !states[i].gate.activeWriter
  {
    GateAlong(cfg, states, events, i);
    WriterHeld(states[i].gate, r);
  }

  /** The checkpoints of a try agree exactly when no writer came between them, and
      then every read of the try met the same store. */
  lemma CheckpointsDecide<S>(cfg: Config, states: seq<State<S>>, events: seq<Event<S>>, a: Attempt)
    requires Trace(cfg, states, events) && Took(states, a)
    ensures states[a.first].epoch == states[a.last].epoch <==> WriterFree(states, a.first, a.last)
    ensures WriterFree(states, a.first, a.last) ==> forall i :: a.first <= i <= a.last ==>
      states[i].store == states[a.last].store && states[i].revision == states[a.last].revision
  {
    CheckpointHasNoWriter(cfg, states, events, a.first, a.before);
    CheckpointHasNoWriter(cfg, states, events, a.last, a.after);
    TraceIsPaced(cfg, states, events);
    SameEpochMeansWriterFree(states, a.first, a.last);
    if WriterFree(states, a.first, a.last) {
      forall i | a.first <= i <= a.last
        ensures states[i].store == states[a.last].store && states[i].revision == states[a.last].revision
      {
        StandsStill(states, i, a.last);
      }
    }
  }

  /** `optimisticRead` within an arbitrary run of everybody else.  A returned
      scan read nothing but the store of its last checkpoint and carries that
      store's revision; a refused one was overlapped by a writer on every try. */
  method OptimisticRead<S>(cfg: Config, states: seq<State<S>>, ghost events: seq<Event<S>>, tries: seq<Attempt>)
      returns (found: bool, value: seq<S>, revision: int, ghost which: nat)
    requires Trace(cfg, states, events)
    requires |tries| == MAX_OPTIMISTIC_SNAPSHOT_ATTEMPTS && forall i :: 0 <= i < |tries| ==> Took(states, tries[i])
    ensures found ==>
      && which < |tries| && Took(states, tries[which])
      && WriterFree(states, tries[which].first, tries[which].last)
      && revision == states[tries[which].last].revision
      && |value| == |tries[which].scanned|
      && forall i :: 0 <= i < |value| ==> value[i] == states[tries[which].last].store
    ensures !found ==> forall i :: 0 <= i < |tries| ==> !WriterFree(states, tries[i].first, tries[i].last)
  {
    value, revision, which := [], 0, 0;
    for attempt := 0 to MAX_OPTIMISTIC_SNAPSHOT_ATTEMPTS
      invariant forall i :: 0 <= i < attempt ==> !WriterFree(states, tries[i].first, tries[i].last)
    {
      var a := tries[attempt];
      var before := states[a.first];
      value := seq(|a.scanned|, i requires 0 <= i < |a.scanned| => states[a.scanned[i]].store);
      var after := states[a.last];
      CheckpointsDecide(cfg, states, events, a);
      if before.epoch == after.epoch {
        return true, value, after.revision, attempt;
      }
    }
    found := false;
  }
}
