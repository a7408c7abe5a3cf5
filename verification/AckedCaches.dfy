/** What ack gating is for: when a mutation's response leaves because every watcher has
    acked it, none of them keeps anything from before the mutation. */
module AckedCaches {
  import opened PublicationFeed
  import opened Coordinator
  import opened CoordinatorRuns
  import opened CoordinatorAcks
  import opened Namespace
  import opened Coherence

  // ---- acks and what they stand for ----------------------------------------

  /** A named watcher polls with a revision whose answer it has applied. */
  ghost predicate Honest(y: System, p: Step) {
    p.Serve? && p.event.Watch? && p.event.watcherId != "" ==>
      p.event.watcherId in y.watchers && p.event.since <= y.watchers[p.event.watcherId].since
  }

  /** No watcher is registered as further than it is; a registration starts at zero. */
  ghost predicate Acknowledged(acks: map<string, Ack>, watchers: map<string, Watcher>) {
    forall id :: id in acks ==> id in watchers && acks[id].acked <= Max(0, watchers[id].since)
  }

  /** Where an ack comes from. */
  lemma AcksAfter<S>(cfg: Config, s: State<S>, e: Event<S>, id: string)
    requires Enabled(s, e) && id in Next(cfg, s, e).acks
    ensures var acked := Next(cfg, s, e).acks[id].acked;
      || (id in s.acks && acked == s.acks[id].acked)
      || (e.Watch? && e.watcherId == id && id != ""
          && acked == Max(if id in s.acks then s.acks[id].acked else 0, e.since))
  {
    if e.Watch? && e.watcherId != "" {
      RoundSurvives(Registered(cfg, s.acks, e.watcherId, e.since, e.timeoutMs, e.clock), s.waiting, e.ackClocks);
    }
  }

  /** Watchers stay, and never fall back. */
  ghost predicate Onward(before: map<string, Watcher>, after: map<string, Watcher>) {
    forall id :: id in before ==> id in after && before[id].since <= after[id].since
  }

  lemma WatchersOnward(cfg: Config, full: bool, y: System, p: Step)
    requires CanTake(cfg, full, y, p)
    ensures Onward(y.watchers, Take(cfg, full, y, p).watchers)
  {
  }

  lemma ServerAcknowledged(cfg: Config, s: State<Store>, e: Event<Store>, watchers: map<string, Watcher>)
    requires Enabled(s, e) && Acknowledged(s.acks, watchers)
    requires e.Watch? && e.watcherId != "" ==> e.watcherId in watchers && e.since <= watchers[e.watcherId].since
    ensures Acknowledged(Next(cfg, s, e).acks, watchers)
  {
    forall id | id in Next(cfg, s, e).acks
      ensures id in watchers && Next(cfg, s, e).acks[id].acked <= Max(0, watchers[id].since)
    {
      AcksAfter(cfg, s, e, id);
    }
  }

  lemma StepAcknowledged(cfg: Config, full: bool, y: System, p: Step)
    requires CanTake(cfg, full, y, p) && Honest(y, p) && Acknowledged(y.server.acks, y.watchers)
    ensures Acknowledged(Take(cfg, full, y, p).server.acks, Take(cfg, full, y, p).watchers)
  {
    WatchersOnward(cfg, full, y, p);
    if Served(y, p).Some? { ServerAcknowledged(cfg, y.server, Served(y, p).value, y.watchers); }
  }

  // ---- waiting mutations ---------------------------------------------------

  predicate OnRecord(log: seq<Published>, revision: int) {
    exists j :: 0 <= j < |log| && log[j].revision == revision
  }

  /** Waiting mutations were published, one after the other. */
  ghost predicate Ranked<S>(s: State<S>) {
    Rising(s.waiting, s.revision) && forall w :: w in s.waiting ==> OnRecord(s.log, w.revision)
  }

  lemma RecordGrows(log: seq<Published>, entry: Published, revision: int)
    requires OnRecord(log, revision) || revision == entry.revision
    ensures OnRecord(log + [entry], revision)
  {
    var all := log + [entry];
    assert all[|log|] == entry;
    if j :| 0 <= j < |log| && log[j].revision == revision { assert all[j] == log[j]; }
  }

  /** A mutation waits because it did before, or because it was committed just now. */
  lemma WaitingFrom<S>(cfg: Config, s: State<S>, e: Event<S>, w: Waiting)
    requires Enabled(s, e) && Rising(s.waiting, s.revision) && w in Next(cfg, s, e).waiting
    ensures w in s.waiting || (e.Commit? && w.revision == Next(cfg, s, e).revision)
  {
    if e.Watch? && e.watcherId != "" {
      RoundStaysRising(Registered(cfg, s.acks, e.watcherId, e.since, e.timeoutMs, e.clock), s.waiting, e.ackClocks,
                       s.revision);
    }
  }

  lemma LogGrows<S>(cfg: Config, s: State<S>, e: Event<S>)
    requires Enabled(s, e)
    ensures !e.Commit? ==> Next(cfg, s, e).log == s.log
    ensures e.Commit? ==>
      var t := Next(cfg, s, e);
      |t.log| == |s.log| + 1 && t.log == s.log + [t.log[|s.log|]] && t.log[|s.log|].revision == t.revision
  {
  }

  lemma StepRanked<S>(cfg: Config, s: State<S>, e: Event<S>)
    requires Enabled(s, e) && Ranked(s)
    ensures Ranked(Next(cfg, s, e))
  {
    var t := Next(cfg, s, e);
    StepStaysRising(cfg, s, e);
    LogGrows(cfg, s, e);
    forall w | w in t.waiting ensures OnRecord(t.log, w.revision) {
      WaitingFrom(cfg, s, e, w);
      if e.Commit? { RecordGrows(s.log, t.log[|s.log|], w.revision); }
    }
  }

  // ---- the gate ------------------------------------------------------------

  /** The registry that decides who is waited for: a poll's own ack counts already. */
  function Registry<S>(cfg: Config, s: State<S>, e: Event<S>): map<string, Ack> {
    if e.Watch? && e.watcherId != "" then Registered(cfg, s.acks, e.watcherId, e.since, e.timeoutMs, e.clock)
    else s.acks
  }

  /** `id` is registered and unexpired at the clock reading that lets `d` leave. */
  ghost predicate Gates<S>(cfg: Config, s: State<S>, e: Event<S>, d: Delivered, id: string)
    requires Enabled(s, e)
  {
    if e.Commit? then id in s.acks && s.acks[id].expiresAt > e.ackClock
    else
      e.Watch? && exists n :: 0 < n <= |s.waiting| && s.waiting[n - 1] == Waiting(d.mutation, d.revision)
                              && id in Surviving(Registry(cfg, s, e), e.ackClocks[..n])
  }

  /** The reading at which a mutation was examined is the one it has in the order. */
  lemma OneReading(acks: map<string, Ack>, waiting: seq<Waiting>, clocks: seq<int>, w: Waiting, revision: int, n: nat)
    requires |clocks| == |waiting| && Rising(waiting, revision) && Examined(acks, waiting, clocks, w, false)
    requires 0 < n <= |waiting| && waiting[n - 1] == w
    ensures !Lags(Surviving(acks, clocks[..n]), w.revision)
  {
    var m :| 0 < m <= |waiting| && waiting[m - 1] == w && !Lags(Surviving(acks, clocks[..m]), w.revision);
    assert waiting[m - 1].revision == waiting[n - 1].revision;
    assert m == n;
  }

  /** Whoever gates a response that leaves with all acks has acked its revision. */
  lemma GateAcked<S>(cfg: Config, s: State<S>, e: Event<S>, d: Delivered, id: string)
    requires Enabled(s, e) && Rising(s.waiting, s.revision)
    requires d.why == AllAcked && Justified(cfg, s, e, d) && Gates(cfg, s, e, d, id)
    ensures id in Registry(cfg, s, e) && Registry(cfg, s, e)[id].acked >= d.revision
  {
    if !e.Commit? {
      var acks, w := Registry(cfg, s, e), Waiting(d.mutation, d.revision);
      var n :| 0 < n <= |s.waiting| && s.waiting[n - 1] == w && id in Surviving(acks, e.ackClocks[..n]);
      OneReading(acks, s.waiting, e.ackClocks, w, s.revision, n);
    }
  }

  lemma RegistryAcknowledged(cfg: Config, s: State<Store>, e: Event<Store>, watchers: map<string, Watcher>)
    requires Acknowledged(s.acks, watchers)
    requires e.Watch? && e.watcherId != "" ==> e.watcherId in watchers && e.since <= watchers[e.watcherId].since
    ensures Acknowledged(Registry(cfg, s, e), watchers)
  {
  }

  /** What leaves with all acks was published. */
  lemma LeavingOnRecord<S>(cfg: Config, s: State<S>, e: Event<S>, i: nat)
    requires Enabled(s, e) && Ranked(s) && |s.delivered| <= i < |Next(cfg, s, e).delivered|
    requires Next(cfg, s, e).delivered[i].why == AllAcked
    ensures Justified(cfg, s, e, Next(cfg, s, e).delivered[i])
    ensures OnRecord(Next(cfg, s, e).log, Next(cfg, s, e).delivered[i].revision)
  {
    var t := Next(cfg, s, e);
    var d := t.delivered[i];
    ResponsesLeaveOnlyWhenAllowed(cfg, s, e);
    LogGrows(cfg, s, e);
    if e.Commit? {
      assert d.revision == t.revision;
      RecordGrows(s.log, t.log[|s.log|], d.revision);
    } else {
      assert Waiting(d.mutation, d.revision) in s.waiting;
    }
  }

  // ---- whole runs ----------------------------------------------------------

  ghost predicate HonestRun(cfg: Config, full: bool, y: System, steps: seq<Step>)
    requires LegalRun(cfg, full, y, steps)
    decreases |steps|
  {
    steps == [] || (Honest(y, steps[0]) && HonestRun(cfg, full, Take(cfg, full, y, steps[0]), steps[1..]))
  }

  ghost predicate Gated(cfg: Config, full: bool, y: System) {
    SystemInv(cfg, full, y) && Acknowledged(y.server.acks, y.watchers) && Ranked(y.server)
  }

  lemma StepKeepsGate(cfg: Config, full: bool, y: System, p: Step)
    requires Gated(cfg, full, y) && CanTake(cfg, full, y, p) && Honest(y, p)
    ensures Gated(cfg, full, Take(cfg, full, y, p))
  {
    StepKeepsCoherence(cfg, full, y, p);
    StepAcknowledged(cfg, full, y, p);
    if Served(y, p).Some? { StepRanked(cfg, y.server, Served(y, p).value); }
  }

  lemma {:induction false} RunKeepsGate(cfg: Config, full: bool, y: System, steps: seq<Step>)
    requires Gated(cfg, full, y) && LegalRun(cfg, full, y, steps) && HonestRun(cfg, full, y, steps)
    ensures Gated(cfg, full, RunSystem(cfg, full, y, steps))
    decreases |steps|
  {
    if steps != [] {
      StepKeepsGate(cfg, full, y, steps[0]);
      RunKeepsGate(cfg, full, Take(cfg, full, y, steps[0]), steps[1..]);
    }
  }

  /** The watcher has seen the publication at `revision` and everything before it. */
  ghost predicate HasSeen(w: Watcher, log: seq<Published>, revision: int) {
    && OnRecord(log, revision)
    && (forall j :: 0 <= j < |log| && log[j].revision <= revision ==> j < w.seen)
  }

  lemma SinceMeansSeen(cfg: Config, w: Watcher, log: seq<Published>, revision: int)
    requires Located(cfg, w, log) && Increasing(log, cfg.initial) && OnRecord(log, revision) && revision <= w.since
    ensures HasSeen(w, log, revision)
  {
    forall j | 0 <= j < |log| && log[j].revision <= revision ensures j < w.seen {
      if w.seen <= j { NewSince(cfg, w, log, j); }
    }
  }

  lemma GateStands(cfg: Config, s: State<Store>, e: Event<Store>, watchers: map<string, Watcher>, i: nat, id: string)
    requires Enabled(s, e) && Ranked(s) && Acknowledged(s.acks, watchers) && cfg.initial >= 0
    requires e.Watch? && e.watcherId != "" ==> e.watcherId in watchers && e.since <= watchers[e.watcherId].since
    requires Increasing(Next(cfg, s, e).log, cfg.initial) && |s.delivered| <= i < |Next(cfg, s, e).delivered|
    requires Next(cfg, s, e).delivered[i].why == AllAcked && Gates(cfg, s, e, Next(cfg, s, e).delivered[i], id)
    ensures var t := Next(cfg, s, e);
      && OnRecord(t.log, t.delivered[i].revision)
      && id in watchers && t.delivered[i].revision <= watchers[id].since
  {
    LeavingOnRecord(cfg, s, e, i);
    GateAcked(cfg, s, e, Next(cfg, s, e).delivered[i], id);
    RegistryAcknowledged(cfg, s, e, watchers);
  }

  /** Whoever gates the response stands at or after its revision. */
  lemma GateHasSeen(cfg: Config, full: bool, y: System, p: Step, i: nat, id: string)
    requires Gated(cfg, full, y) && CanTake(cfg, full, y, p) && Honest(y, p) && cfg.initial >= 0
    requires Served(y, p).Some? && |y.server.delivered| <= i < |Take(cfg, full, y, p).server.delivered|
    requires var d := Take(cfg, full, y, p).server.delivered[i];
      d.why == AllAcked && Gates(cfg, y.server, Served(y, p).value, d, id)
    ensures var z := Take(cfg, full, y, p);
      && OnRecord(z.server.log, z.server.delivered[i].revision)
      && id in z.watchers && z.server.delivered[i].revision <= z.watchers[id].since
  {
    StepKeepsInv(cfg, y.server, Served(y, p).value);
    GateStands(cfg, y.server, Served(y, p).value, y.watchers, i, id);
  }

  /** When a mutation's response leaves with all acks, every watcher registered and
      unexpired at that moment has seen the mutation's publication, and whatever it
      caches is what the store held after it. */
  lemma AckedMeansCoherent(cfg: Config, full: bool, store: Store, steps: seq<Step>, p: Step, i: nat, id: string, k: Key)
    requires Namespace.Valid(store) && cfg.initial >= 0
    requires LegalRun(cfg, full, Start(cfg, store), steps) && HonestRun(cfg, full, Start(cfg, store), steps)
    requires var y := RunSystem(cfg, full, Start(cfg, store), steps);
      && CanTake(cfg, full, y, p) && Honest(y, p) && Served(y, p).Some?
      && |y.server.delivered| <= i < |Take(cfg, full, y, p).server.delivered|
      && Take(cfg, full, y, p).server.delivered[i].why == AllAcked
      && Gates(cfg, y.server, Served(y, p).value, Take(cfg, full, y, p).server.delivered[i], id)
    ensures var z := Take(cfg, full, RunSystem(cfg, full, Start(cfg, store), steps), p);
      && id in z.watchers
      && HasSeen(z.watchers[id], z.server.log, z.server.delivered[i].revision)
      && CacheAgrees(cfg, z, z.watchers[id], k)
  {
    var y := RunSystem(cfg, full, Start(cfg, store), steps);
    StartSound(cfg, full, store);
    RunKeepsGate(cfg, full, Start(cfg, store), steps);
    GateHasSeen(cfg, full, y, p, i, id);
    StepKeepsGate(cfg, full, y, p);
    var z := Take(cfg, full, y, p);
    SinceMeansSeen(cfg, z.watchers[id], z.server.log, z.server.delivered[i].revision);
    SoundCacheAgrees(cfg, full, z, z.watchers[id], k);
  }
}
