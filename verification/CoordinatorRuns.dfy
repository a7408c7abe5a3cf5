/** What holds in every reachable state of the publication coordinator. */
module CoordinatorRuns {
  import opened Prelude
  import opened PublicationFeed
  import opened Coordinator

  // ---- the invariant -------------------------------------------------------

  ghost predicate GateInv<S>(s: State<S>) {
    Gate.Inv(s.gate, s.gate.granted + s.gate.queue)
  }

  /** The part of a state that answers are made from. */
  datatype Feed = Feed(
    revision: int, history: History, log: seq<Published>, parked: seq<Parked>, answers: seq<Answer>)

  function FeedOf<S>(s: State<S>): Feed {
    Feed(s.revision, s.history, s.log, s.parked, s.answers)
  }

  function Glance(f: Feed): View {
    View(f.revision, f.history, |f.log|)
  }

  ghost predicate FeedInv(cfg: Config, f: Feed) {
    && Increasing(f.log, cfg.initial)
    && Retains(f.history, f.log, cfg.initial)
    && f.revision == RevisionOf(f.log, cfg.initial)
  }

  /** No missed wakeup: whoever is parked has nothing to be told yet. */
  ghost predicate NobodyOverdue(f: Feed) {
    forall i :: 0 <= i < |f.parked| ==> f.parked[i].since >= f.revision
  }

  /** An answer told the watcher exactly what the log at that moment owed it. */
  ghost predicate Truthful(cfg: Config, a: Answer, log: seq<Published>) {
    && a.at <= |log|
    && a.revision == RevisionOf(log[..a.at], cfg.initial)
    && (a.cause == TimedOut <==> a.revision <= a.since)
    && (a.revision > a.since ==> a.affected == Owed(log[..a.at], cfg.initial, a.since))
    && (a.revision <= a.since ==> a.affected == Some(Affected([], [])))
    && (a.cause == Woken ==> a.at > 0 && log[a.at - 1].revision == a.revision)
  }

  ghost predicate AllTruthful(cfg: Config, answers: seq<Answer>, log: seq<Published>) {
    forall a :: a in answers ==> Truthful(cfg, a, log)
  }

  ghost predicate Sound(cfg: Config, f: Feed) {
    FeedInv(cfg, f) && NobodyOverdue(f) && AllTruthful(cfg, f.answers, f.log)
  }

  ghost predicate Inv<S>(cfg: Config, s: State<S>) {
    && GateInv(s)
    && Sound(cfg, FeedOf(s))
    && "" !in s.acks
  }

  // ---- each step keeps it --------------------------------------------------

  lemma GateStep<S>(cfg: Config, s: State<S>, e: Event<S>)
    requires GateInv(s) && Enabled(s, e)
    ensures GateInv(Next(cfg, s, e))
  {
    var asked := s.gate.granted + s.gate.queue;
    match e
    case Acquire(r) => Gate.AcquireKeepsInv(s.gate, r, asked);
    case EndRead(r) => Gate.ReleaseKeepsInv(s.gate, r, asked);
    case Commit(r, _, _, _, _) => Gate.ReleaseKeepsInv(s.gate, r, asked);
    case Abandon(r) => Gate.ReleaseKeepsInv(s.gate, r, asked);
    case _ =>
  }

  function Announced(f: Feed, e: Published): Feed {
    f.(revision := e.revision, history := Record(f.history, e), log := f.log + [e])
  }

  lemma AnnouncingKeepsFeed(cfg: Config, f: Feed, e: Published)
    requires FeedInv(cfg, f) && e.revision > f.revision
    ensures FeedInv(cfg, Announced(f, e))
  {
    IncreasingSnoc(f.log, e, cfg.initial);
    RecordRetains(f.history, e, f.log, cfg.initial);
  }

  lemma LaterPublicationsChangeNoAnswer(cfg: Config, answers: seq<Answer>, log: seq<Published>, entry: Published)
    requires AllTruthful(cfg, answers, log)
    ensures AllTruthful(cfg, answers, log + [entry])
  {
    forall a | a in answers ensures Truthful(cfg, a, log + [entry]) {
      assert Truthful(cfg, a, log);
      assert (log + [entry])[..a.at] == log[..a.at];
    }
  }

  lemma AnswerIsTruthful(cfg: Config, f: Feed, w: Parked, cause: Cause)
    requires FeedInv(cfg, f)
    requires cause == TimedOut <==> f.revision <= w.since
    requires cause == Woken ==> f.log != []
    ensures Truthful(cfg, Settled(Glance(f), w, cause), f.log)
  {
    assert f.log[..|f.log|] == f.log;
    if f.revision > w.since { AnswersAreCompleteOrTruncated(f.history, f.log, cfg.initial, w.since); }
  }

  lemma {:induction false} StillParkedAreUpToDate(parked: seq<Parked>, revision: int)
    ensures forall i :: 0 <= i < |StillParked(parked, revision)| ==> StillParked(parked, revision)[i].since >= revision
  {
    if parked != [] { StillParkedAreUpToDate(parked[..|parked| - 1], revision); }
  }

  lemma {:induction false} WokenWereOverdue(v: View, parked: seq<Parked>)
    ensures forall a :: a in WokenAnswers(v, parked) ==>
      a == Settled(v, Parked(a.call, a.since), Woken) && a.since < v.revision
  {
    if parked != [] { WokenWereOverdue(v, parked[..|parked| - 1]); }
  }

  lemma {:induction false} WakingNobody(v: View, parked: seq<Parked>)
    requires forall i :: 0 <= i < |parked| ==> parked[i].since >= v.revision
    ensures WokenAnswers(v, parked) == []
  {
    if parked != [] {
      WakingNobody(v, parked[..|parked| - 1]);
    }
  }

  lemma WokenAreTruthful(cfg: Config, f: Feed)
    requires FeedInv(cfg, f) && (f.log != [] || NobodyOverdue(f))
    ensures AllTruthful(cfg, WokenAnswers(Glance(f), f.parked), f.log)
  {
    if f.log == [] { WakingNobody(Glance(f), f.parked); }
    WokenWereOverdue(Glance(f), f.parked);
    forall a | a in WokenAnswers(Glance(f), f.parked) ensures Truthful(cfg, a, f.log) {
      AnswerIsTruthful(cfg, f, Parked(a.call, a.since), Woken);
    }
  }

  function Awakened(f: Feed): Feed {
    f.(parked := StillParked(f.parked, f.revision), answers := f.answers + WokenAnswers(Glance(f), f.parked))
  }

  lemma WakingKeepsSound(cfg: Config, f: Feed)
    requires FeedInv(cfg, f) && AllTruthful(cfg, f.answers, f.log) && (f.log != [] || NobodyOverdue(f))
    ensures Sound(cfg, Awakened(f))
  {
    WokenAreTruthful(cfg, f);
    StillParkedAreUpToDate(f.parked, f.revision);
  }

  lemma AnnouncingAndWakingKeepsSound(cfg: Config, f: Feed, e: Published)
    requires Sound(cfg, f) && e.revision > f.revision
    ensures Sound(cfg, Awakened(Announced(f, e)))
  {
    AnnouncingKeepsFeed(cfg, f, e);
    LaterPublicationsChangeNoAnswer(cfg, f.answers, f.log, e);
    WakingKeepsSound(cfg, Announced(f, e));
  }

  lemma OneMoreTruthful(cfg: Config, answers: seq<Answer>, log: seq<Published>, a: Answer)
    requires AllTruthful(cfg, answers, log) && Truthful(cfg, a, log)
    ensures AllTruthful(cfg, answers + [a], log)
  {
  }

  lemma AnsweringKeepsSound(cfg: Config, f: Feed, w: Parked, parked: seq<Parked>, cause: Cause)
    requires Sound(cfg, f) && (cause == TimedOut <==> f.revision <= w.since) && cause != Woken
    requires forall i :: 0 <= i < |parked| ==> parked[i].since >= f.revision
    ensures Sound(cfg, f.(parked := parked, answers := f.answers + [Settled(Glance(f), w, cause)]))
  {
    var a := Settled(Glance(f), w, cause);
    AnswerIsTruthful(cfg, f, w, cause);
    OneMoreTruthful(cfg, f.answers, f.log, a);
    assert FeedInv(cfg, f.(parked := parked, answers := f.answers + [a]));
  }

  lemma ParkingKeepsSound(cfg: Config, f: Feed, w: Parked)
    requires Sound(cfg, f) && f.revision <= w.since
    ensures Sound(cfg, f.(parked := f.parked + [w]))
  {
  }

  function Watched(f: Feed, w: Parked): Feed {
    if f.revision > w.since then f.(answers := f.answers + [Settled(Glance(f), w, FastPath)])
    else f.(parked := f.parked + [w])
  }

  lemma WatchingKeepsSound(cfg: Config, f: Feed, w: Parked)
    requires Sound(cfg, f)
    ensures Sound(cfg, Watched(f, w))
  {
    if f.revision > w.since {
      AnsweringKeepsSound(cfg, f, w, f.parked, FastPath);
      assert Watched(f, w) == f.(parked := f.parked, answers := f.answers + [Settled(Glance(f), w, FastPath)]);
    } else {
      ParkingKeepsSound(cfg, f, w);
    }
  }

  // ---- what a step does to the feed ----------------------------------------

  lemma CommitFeed<S>(cfg: Config, s: State<S>, e: Event<S>)
    requires Enabled(s, e) && e.Commit?
    ensures var entry := Published(Max(s.revision + 1, e.clock * 1_000), Dedup(e.paths), Dedup(e.subtrees));
      FeedOf(Next(cfg, s, e)) == Awakened(Announced(FeedOf(s), entry))
  {
    AwaitingTouchesNoFeed(cfg, ReleaseWriter(Publish(s, e.paths, e.subtrees, e.clock), e.request),
                          e.request.ticket, e.ackClock);
  }

  lemma AwaitingTouchesNoFeed<S>(cfg: Config, s: State<S>, mutation: nat, now: int)
    ensures FeedOf(AwaitAcks(cfg, s, mutation, now)) == FeedOf(s)
    ensures forall id :: id in AwaitAcks(cfg, s, mutation, now).acks ==> id in s.acks
  {
  }

  lemma AbandonFeed<S>(cfg: Config, s: State<S>, e: Event<S>)
    requires Enabled(s, e) && e.Abandon?
    ensures FeedOf(Next(cfg, s, e)) == Awakened(FeedOf(s))
  {
  }

  lemma RecordingTouchesNoFeed<S>(cfg: Config, s: State<S>, id: string, since: int, timeoutMs: int, clock: int,
      ackClocks: seq<int>)
    requires |ackClocks| == |s.waiting|
    ensures FeedOf(RecordAck(cfg, s, id, since, timeoutMs, clock, ackClocks)) == FeedOf(s)
  {
  }

  lemma WatchFeed<S>(cfg: Config, s: State<S>, e: Event<S>)
    requires Enabled(s, e) && e.Watch?
    ensures FeedOf(Next(cfg, s, e)) == Watched(FeedOf(s), Parked(e.call, e.since))
  {
    RecordingTouchesNoFeed(cfg, s, e.watcherId, e.since, e.timeoutMs, e.clock, e.ackClocks);
  }

  lemma WatchTimeoutFeed<S>(cfg: Config, s: State<S>, e: Event<S>)
    requires Enabled(s, e) && e.WatchTimeout?
    ensures var f, i := FeedOf(s), IndexOfCall(s.parked, e.call);
      FeedOf(Next(cfg, s, e)) ==
        if i == |f.parked| then f
        else f.(parked := f.parked[..i] + f.parked[i + 1..],
                answers := f.answers + [Settled(Glance(f), f.parked[i], TimedOut)])
  {
  }

  lemma {:induction false} AckedKeepsAnonymousOut(acks: map<string, Ack>, waiting: seq<Waiting>, clocks: seq<int>)
    requires |clocks| == |waiting| && "" !in acks
    ensures "" !in Acked(acks, waiting, clocks).0
  {
    if waiting != [] {
      var last := |waiting| - 1;
      AckedKeepsAnonymousOut(acks, waiting[..last], clocks[..last]);
    }
  }

  lemma RecordingKeepsAnonymousOut<S>(cfg: Config, s: State<S>, id: string, since: int, timeoutMs: int, clock: int,
      ackClocks: seq<int>)
    requires |ackClocks| == |s.waiting| && "" !in s.acks
    ensures "" !in RecordAck(cfg, s, id, since, timeoutMs, clock, ackClocks).acks
  {
    if id != "" {
      AckedKeepsAnonymousOut(Registered(cfg, s.acks, id, since, timeoutMs, clock), s.waiting, ackClocks);
    }
  }

  lemma AnonymousStaysOut<S>(cfg: Config, s: State<S>, e: Event<S>)
    requires Enabled(s, e) && "" !in s.acks
    ensures "" !in Next(cfg, s, e).acks
  {
    match e
    case Watch(_, since, timeoutMs, id, clock, ackClocks) =>
      RecordingKeepsAnonymousOut(cfg, s, id, since, timeoutMs, clock, ackClocks);
    case Commit(r, paths, subtrees, clock, ackClock) =>
      AwaitingTouchesNoFeed(cfg, ReleaseWriter(Publish(s, paths, subtrees, clock), r), r.ticket, ackClock);
    case _ =>
  }

  lemma WatchTimeoutKeepsSound<S>(cfg: Config, s: State<S>, e: Event<S>)
    requires Sound(cfg, FeedOf(s)) && Enabled(s, e) && e.WatchTimeout?
    ensures Sound(cfg, FeedOf(Next(cfg, s, e)))
  {
    var f, i := FeedOf(s), IndexOfCall(s.parked, e.call);
    WatchTimeoutFeed(cfg, s, e);
    if i < |f.parked| {
      AnsweringKeepsSound(cfg, f, f.parked[i], f.parked[..i] + f.parked[i + 1..], TimedOut);
    }
  }

  lemma StepKeepsSound<S>(cfg: Config, s: State<S>, e: Event<S>)
    requires Sound(cfg, FeedOf(s)) && Enabled(s, e)
    ensures Sound(cfg, FeedOf(Next(cfg, s, e)))
  {
    match e
    case Commit(_, paths, subtrees, clock, _) =>
      CommitFeed(cfg, s, e);
      AnnouncingAndWakingKeepsSound(
        cfg, FeedOf(s), Published(Max(s.revision + 1, clock * 1_000), Dedup(paths), Dedup(subtrees)));
    case Abandon(_) =>
      AbandonFeed(cfg, s, e);
      WakingKeepsSound(cfg, FeedOf(s));
    case Watch(call, since, _, _, _, _) =>
      WatchFeed(cfg, s, e);
      WatchingKeepsSound(cfg, FeedOf(s), Parked(call, since));
    case WatchTimeout(_) => WatchTimeoutKeepsSound(cfg, s, e);
    case _ => assert FeedOf(Next(cfg, s, e)) == FeedOf(s);
  }

  lemma StepKeepsInv<S>(cfg: Config, s: State<S>, e: Event<S>)
    requires Inv(cfg, s) && Enabled(s, e)
    ensures Inv(cfg, Next(cfg, s, e))
  {
    GateStep(cfg, s, e);
    StepKeepsSound(cfg, s, e);
    AnonymousStaysOut(cfg, s, e);
  }

  /** The invariant holds after every legal run from the initial state: the
      gate is exclusive and FIFO, the history retains exactly the newest
      publications, nobody parked is overdue, and every answer ever given was
      complete or truncated exactly as the log at that moment required. */
  lemma {:induction false} EveryRunKeepsInv<S>(cfg: Config, s: State<S>, events: seq<Event<S>>)
    requires Inv(cfg, s) && Legal(cfg, s, events)
    ensures Inv(cfg, Run(cfg, s, events))
    decreases |events|
  {
    if events != [] {
      StepKeepsInv(cfg, s, events[0]);
      EveryRunKeepsInv(cfg, Next(cfg, s, events[0]), events[1..]);
    }
  }

  lemma InitialInv<S>(cfg: Config, store: S)
    ensures Inv(cfg, Initial(cfg, store))
  {
  }

  // ---- settle exactly once -------------------------------------------------

  function TimesParked(parked: seq<Parked>, call: nat): nat {
    if parked == [] then 0
    else TimesParked(parked[..|parked| - 1], call) + (if parked[|parked| - 1].call == call then 1 else 0)
  }

  function TimesAnswered(answers: seq<Answer>, call: nat): nat {
    if answers == [] then 0
    else TimesAnswered(answers[..|answers| - 1], call) + (if answers[|answers| - 1].call == call then 1 else 0)
  }

  /** How often a long poll is owed or was given an answer. */
  function Tally<S>(s: State<S>, call: nat): nat {
    TimesParked(s.parked, call) + TimesAnswered(s.answers, call)
  }

  lemma {:induction false} ParkedConcat(a: seq<Parked>, b: seq<Parked>, call: nat)
    ensures TimesParked(a + b, call) == TimesParked(a, call) + TimesParked(b, call)
  {
    if b == [] {
      assert a + b == a;
    } else {
      assert (a + b)[..|a + b| - 1] == a + b[..|b| - 1];
      ParkedConcat(a, b[..|b| - 1], call);
    }
  }

  lemma {:induction false} AnsweredConcat(a: seq<Answer>, b: seq<Answer>, call: nat)
    ensures TimesAnswered(a + b, call) == TimesAnswered(a, call) + TimesAnswered(b, call)
  {
    if b == [] {
      assert a + b == a;
    } else {
      assert (a + b)[..|a + b| - 1] == a + b[..|b| - 1];
      AnsweredConcat(a, b[..|b| - 1], call);
    }
  }

  lemma {:induction false} WakingMovesCalls(v: View, parked: seq<Parked>, call: nat)
    ensures TimesParked(StillParked(parked, v.revision), call) + TimesAnswered(WokenAnswers(v, parked), call)
         == TimesParked(parked, call)
  {
    if parked != [] {
      var init, w := parked[..|parked| - 1], parked[|parked| - 1];
      WakingMovesCalls(v, init, call);
      ParkedConcat(StillParked(init, v.revision), [w], call);
      AnsweredConcat(WokenAnswers(v, init), [Settled(v, w, Woken)], call);
    }
  }

  lemma ReleaseKeepsTally<S>(s: State<S>, r: Gate.Request, call: nat)
    ensures Tally(ReleaseWriter(s, r), call) == Tally(s, call)
  {
    WakingMovesCalls(ViewOf(s), s.parked, call);
    AnsweredConcat(s.answers, WokenAnswers(ViewOf(s), s.parked), call);
  }

  lemma {:induction false} ParkedWithout(parked: seq<Parked>, i: nat, call: nat)
    requires i < |parked|
    ensures TimesParked(parked, call)
      == TimesParked(parked[..i] + parked[i + 1..], call) + (if parked[i].call == call then 1 else 0)
    decreases |parked|
  {
    var n := |parked| - 1;
    var rest := parked[..i] + parked[i + 1..];
    if i == n {
      assert rest == parked[..n];
    } else {
      ParkedWithout(parked[..n], i, call);
      assert rest[..|rest| - 1] == parked[..n][..i] + parked[..n][i + 1..];
      assert rest[|rest| - 1] == parked[n];
    }
  }

  lemma TimeoutKeepsTally<S>(cfg: Config, s: State<S>, e: Event<S>, call: nat)
    requires Enabled(s, e) && e.WatchTimeout?
    ensures Tally(Next(cfg, s, e), call) == Tally(s, call)
  {
    var i := IndexOfCall(s.parked, e.call);
    if i < |s.parked| {
      ParkedWithout(s.parked, i, call);
      AnsweredConcat(s.answers, [Settled(ViewOf(s), s.parked[i], TimedOut)], call);
    }
  }

  lemma WatchAddsOne<S>(cfg: Config, s: State<S>, e: Event<S>, call: nat)
    requires Enabled(s, e) && e.Watch?
    ensures Tally(Next(cfg, s, e), call) == Tally(s, call) + (if e.call == call then 1 else 0)
  {
    var t := RecordAck(cfg, s, e.watcherId, e.since, e.timeoutMs, e.clock, e.ackClocks);
    var w := Parked(e.call, e.since);
    assert t.parked == s.parked && t.answers == s.answers;
    if t.revision > e.since {
      AnsweredConcat(t.answers, [Settled(ViewOf(t), w, FastPath)], call);
    } else {
      ParkedConcat(t.parked, [w], call);
    }
  }

  /** A long poll enters once, and no later step loses or repeats it. */
  lemma StepConservesCalls<S>(cfg: Config, s: State<S>, e: Event<S>, call: nat)
    requires Enabled(s, e)
    ensures Tally(Next(cfg, s, e), call) == Tally(s, call) + (if e.Watch? && e.call == call then 1 else 0)
  {
    match e
    case Commit(r, paths, subtrees, clock, _) => ReleaseKeepsTally(Publish(s, paths, subtrees, clock), r, call);
    case Abandon(r) => ReleaseKeepsTally(s, r, call);
    case WatchTimeout(_) => TimeoutKeepsTally(cfg, s, e, call);
    case Watch(_, _, _, _, _, _) => WatchAddsOne(cfg, s, e, call);
    case _ =>
  }

  lemma {:induction false} ElsewhereMeansZero(parked: seq<Parked>, answers: seq<Answer>, call: nat)
    requires forall i :: 0 <= i < |parked| ==> parked[i].call != call
    requires forall i :: 0 <= i < |answers| ==> answers[i].call != call
    ensures TimesParked(parked, call) == TimesAnswered(answers, call) == 0
    decreases |parked| + |answers|
  {
    if parked != [] {
      ElsewhereMeansZero(parked[..|parked| - 1], answers, call);
    } else if answers != [] {
      ElsewhereMeansZero(parked, answers[..|answers| - 1], call);
    }
  }

  function TimesCalled<S>(events: seq<Event<S>>, call: nat): nat {
    if events == [] then 0
    else (if events[0].Watch? && events[0].call == call then 1 else 0) + TimesCalled(events[1..], call)
  }

  /** Over a whole run a `watch` call is parked or answered as often as it was
      made, which is once: none is lost and none settles twice. */
  lemma {:induction false} EveryCallSettlesOnce<S>(cfg: Config, s: State<S>, events: seq<Event<S>>, call: nat)
    requires Legal(cfg, s, events)
    ensures Tally(Run(cfg, s, events), call) == Tally(s, call) + TimesCalled(events, call)
    ensures Tally(s, call) <= 1 ==> Tally(Run(cfg, s, events), call) <= 1
    decreases |events|
  {
    if events != [] {
      StepConservesCalls(cfg, s, events[0], call);
      if events[0].Watch? && events[0].call == call { ElsewhereMeansZero(s.parked, s.answers, call); }
      EveryCallSettlesOnce(cfg, Next(cfg, s, events[0]), events[1..], call);
    }
  }

  /** A poll's own timer leaves the poll answered: one answer is added if it was parked,
      and it is parked no longer. */
  lemma TimerSettles<S>(cfg: Config, s: State<S>, e: Event<S>)
    requires Enabled(s, e) && e.WatchTimeout? && Tally(s, e.call) <= 1
    ensures var t := Next(cfg, s, e);
      && TimesParked(t.parked, e.call) == 0
      && TimesAnswered(t.answers, e.call) == Tally(s, e.call)
  {
    var i := IndexOfCall(s.parked, e.call);
    StepConservesCalls(cfg, s, e, e.call);
    if i < |s.parked| {
      AnsweredConcat(s.answers, [Settled(ViewOf(s), s.parked[i], TimedOut)], e.call);
      OneAnswered(Settled(ViewOf(s), s.parked[i], TimedOut), e.call);
    } else {
      NotParked(s.parked, e.call);
    }
  }

  lemma OneAnswered(a: Answer, call: nat)
    ensures TimesAnswered([a], call) == if a.call == call then 1 else 0
  {
    assert [a][..0] == [];
  }

  lemma {:induction false} NotParked(parked: seq<Parked>, call: nat)
    requires forall i :: 0 <= i < |parked| ==> parked[i].call != call
    ensures TimesParked(parked, call) == 0
  {
    if parked != [] { NotParked(parked[..|parked| - 1], call); }
  }

  // ---- which poll an answer is to ------------------------------------------

  /** A poll as it was made. */
  datatype Poll = Poll(call: nat, since: int)

  /** Event `i` is the poll `p`. */
  predicate MadeBy<S>(events: seq<Event<S>>, i: nat, p: Poll) {
    i < |events| && events[i].Watch? && events[i].call == p.call && events[i].since == p.since
  }

  ghost predicate Polled<S>(events: seq<Event<S>>, p: Poll) {
    exists i: nat :: MadeBy(events, i, p)
  }

  /** Whoever is parked or was answered had polled so. */
  ghost predicate FromPolls<S>(s: State<S>, polls: iset<Poll>) {
    && (forall w :: w in s.parked ==> Poll(w.call, w.since) in polls)
    && (forall a :: a in s.answers ==> Poll(a.call, a.since) in polls)
  }

  lemma {:induction false} WakingKeepsPolls(v: View, parked: seq<Parked>, polls: iset<Poll>)
    requires forall w :: w in parked ==> Poll(w.call, w.since) in polls
    ensures forall w :: w in StillParked(parked, v.revision) ==> Poll(w.call, w.since) in polls
    ensures forall a :: a in WokenAnswers(v, parked) ==> Poll(a.call, a.since) in polls
  {
    if parked != [] { WakingKeepsPolls(v, parked[..|parked| - 1], polls); }
  }

  lemma ReleaseKeepsPolls<S>(s: State<S>, r: Gate.Request, polls: iset<Poll>)
    requires FromPolls(s, polls)
    ensures FromPolls(ReleaseWriter(s, r), polls)
  {
    WakingKeepsPolls(ViewOf(s.(epoch := s.epoch + 1)), s.parked, polls);
  }

  lemma StepKeepsPolls<S>(cfg: Config, s: State<S>, e: Event<S>, polls: iset<Poll>)
    requires Enabled(s, e) && FromPolls(s, polls) && (e.Watch? ==> Poll(e.call, e.since) in polls)
    ensures FromPolls(Next(cfg, s, e), polls)
  {
    match e
    case Commit(r, paths, subtrees, clock, _) => ReleaseKeepsPolls(Publish(s, paths, subtrees, clock), r, polls);
    case Abandon(r) => ReleaseKeepsPolls(s, r, polls);
    case _ =>
  }

  lemma {:induction false} RunKeepsPolls<S>(cfg: Config, s: State<S>, events: seq<Event<S>>, polls: iset<Poll>)
    requires Legal(cfg, s, events) && FromPolls(s, polls)
    requires forall i: nat, p: Poll :: MadeBy(events, i, p) ==> p in polls
    ensures FromPolls(Run(cfg, s, events), polls)
    decreases |events|
  {
    if events != [] {
      assert events[0].Watch? ==> MadeBy(events, 0, Poll(events[0].call, events[0].since));
      StepKeepsPolls(cfg, s, events[0], polls);
      forall i: nat, p: Poll | MadeBy(events[1..], i, p) ensures p in polls { assert MadeBy(events, i + 1, p); }
      RunKeepsPolls(cfg, Next(cfg, s, events[0]), events[1..], polls);
    }
  }

  /** Over a whole run every answer is to a poll that was made, and says what became of the
      revision that very poll asked about. */
  lemma EveryAnswerIsToItsPoll<S>(cfg: Config, store: S, events: seq<Event<S>>, a: Answer)
    requires Legal(cfg, Initial(cfg, store), events) && a in Run(cfg, Initial(cfg, store), events).answers
    ensures Polled(events, Poll(a.call, a.since))
  {
    RunKeepsPolls(cfg, Initial(cfg, store), events, iset p: Poll | Polled(events, p));
  }

  // ---- revisions -----------------------------------------------------------

  /** Whatever the clock says, a commit raises the revision and nothing else moves it. */
  lemma {:induction false} RevisionsOnlyRise<S>(cfg: Config, s: State<S>, events: seq<Event<S>>)
    requires Legal(cfg, s, events)
    ensures s.revision + CommitCount(events) <= Run(cfg, s, events).revision
    ensures CommitCount(events) == 0 ==> Run(cfg, s, events).revision == s.revision
    decreases |events|
  {
    if events != [] {
      RevisionsOnlyRise(cfg, Next(cfg, s, events[0]), events[1..]);
    }
  }

  /** A commit takes the least revision above the last one that is not behind the clock. */
  lemma CommitTakesLeast<S>(cfg: Config, s: State<S>, e: Event<S>)
    requires Enabled(s, e) && e.Commit?
    ensures var r := Next(cfg, s, e).revision;
      r > s.revision && r >= e.clock * 1_000 && (r == s.revision + 1 || r == e.clock * 1_000)
  {
  }

  function CommitCount<S>(events: seq<Event<S>>): nat {
    if events == [] then 0 else (if events[0].Commit? then 1 else 0) + CommitCount(events[1..])
  }
}
