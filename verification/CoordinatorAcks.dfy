/** Ack gating: when a mutation's response may leave, and what a waiting one
    is still waiting for. */
module CoordinatorAcks {
  import opened Prelude
  import opened Coordinator

  /** The registered watchers that outlive every clock reading in `clocks`. */
  function Surviving(acks: map<string, Ack>, clocks: seq<int>): map<string, Ack> {
    map id | id in acks && (forall i :: 0 <= i < |clocks| ==> acks[id].expiresAt > clocks[i]) :: acks[id]
  }

  lemma SurvivingSnoc(acks: map<string, Ack>, clocks: seq<int>, now: int)
    ensures Pruned(Surviving(acks, clocks), now) == Surviving(acks, clocks + [now])
  {
    var all := clocks + [now];
    forall id | id in acks
      ensures id in Pruned(Surviving(acks, clocks), now) <==> id in Surviving(acks, all)
    {
      if id in Surviving(acks, all) {
        assert all[|clocks|] == now;
        assert forall i :: 0 <= i < |clocks| ==> all[i] == clocks[i];
      }
    }
  }

  /** `w` was re-examined at the reading that ends `clocks[..n]`, when it lagged or not. */
  ghost predicate Examined(acks: map<string, Ack>, waiting: seq<Waiting>, clocks: seq<int>, w: Waiting, lagging: bool)
    requires |clocks| == |waiting|
  {
    exists n :: 0 < n <= |waiting| && waiting[n - 1] == w && Lags(Surviving(acks, clocks[..n]), w.revision) == lagging
  }

  lemma ExaminedEarlier(acks: map<string, Ack>, waiting: seq<Waiting>, clocks: seq<int>, w: Waiting, lagging: bool)
    requires |clocks| == |waiting| && waiting != []
    requires Examined(acks, waiting[..|waiting| - 1], clocks[..|waiting| - 1], w, lagging)
    ensures Examined(acks, waiting, clocks, w, lagging)
  {
    var init, cs := waiting[..|waiting| - 1], clocks[..|waiting| - 1];
    var n :| 0 < n <= |init| && init[n - 1] == w && Lags(Surviving(acks, cs[..n]), w.revision) == lagging;
    assert cs[..n] == clocks[..n] && waiting[n - 1] == w;
  }

  lemma ExaminedLast(acks: map<string, Ack>, waiting: seq<Waiting>, clocks: seq<int>)
    requires |clocks| == |waiting| && waiting != []
    ensures var w := waiting[|waiting| - 1];
      Examined(acks, waiting, clocks, w, Lags(Surviving(acks, clocks), w.revision))
  {
    assert clocks[..|waiting|] == clocks;
  }

  lemma {:induction false} RoundSurvives(acks: map<string, Ack>, waiting: seq<Waiting>, clocks: seq<int>)
    requires |clocks| == |waiting|
    ensures Acked(acks, waiting, clocks).0 == Surviving(acks, clocks)
    ensures |Acked(acks, waiting, clocks).1| + |Acked(acks, waiting, clocks).2| == |waiting|
  {
    if waiting == [] {
      assert Surviving(acks, clocks) == acks;
    } else {
      var last := |waiting| - 1;
      RoundSurvives(acks, waiting[..last], clocks[..last]);
      SurvivingSnoc(acks, clocks[..last], clocks[last]);
      assert clocks[..last] + [clocks[last]] == clocks;
    }
  }

  lemma {:induction false} RoundExamines(acks: map<string, Ack>, waiting: seq<Waiting>, clocks: seq<int>, w: Waiting)
    requires |clocks| == |waiting|
    ensures w in Acked(acks, waiting, clocks).1 ==> Examined(acks, waiting, clocks, w, true)
    ensures Delivered(w.mutation, w.revision, AllAcked) in Acked(acks, waiting, clocks).2 ==>
      Examined(acks, waiting, clocks, w, false)
  {
    if waiting != [] {
      var last := |waiting| - 1;
      var init, cs := waiting[..last], clocks[..last];
      RoundExamines(acks, init, cs, w);
      RoundSurvives(acks, init, cs);
      SurvivingSnoc(acks, cs, clocks[last]);
      assert cs + [clocks[last]] == clocks;
      ExaminedLast(acks, waiting, clocks);
      if Examined(acks, init, cs, w, true) { ExaminedEarlier(acks, waiting, clocks, w, true); }
      if Examined(acks, init, cs, w, false) { ExaminedEarlier(acks, waiting, clocks, w, false); }
    }
  }

  lemma {:induction false} RoundDelivers(acks: map<string, Ack>, waiting: seq<Waiting>, clocks: seq<int>, d: Delivered)
    requires |clocks| == |waiting| && d in Acked(acks, waiting, clocks).2
    ensures d.why == AllAcked
  {
    var last := |waiting| - 1;
    if d in Acked(acks, waiting[..last], clocks[..last]).2 {
      RoundDelivers(acks, waiting[..last], clocks[..last], d);
    }
  }

  /** One round of re-examination: a mutation stays behind only if, at its own
      clock reading, some watcher still registered had not acked its revision,
      and leaves only if every such watcher had; nothing else happens to it. */
  lemma RoundIsExact(acks: map<string, Ack>, waiting: seq<Waiting>, clocks: seq<int>)
    requires |clocks| == |waiting|
    ensures var (live, still, done) := Acked(acks, waiting, clocks);
      && live == Surviving(acks, clocks)
      && (forall w :: w in still ==> Examined(acks, waiting, clocks, w, true))
      && (forall d :: d in done ==>
            d.why == AllAcked && Examined(acks, waiting, clocks, Waiting(d.mutation, d.revision), false))
      && |still| + |done| == |waiting|
  {
    var (live, still, done) := Acked(acks, waiting, clocks);
    RoundSurvives(acks, waiting, clocks);
    forall w | w in still ensures Examined(acks, waiting, clocks, w, true) {
      RoundExamines(acks, waiting, clocks, w);
    }
    forall d | d in done
      ensures d.why == AllAcked && Examined(acks, waiting, clocks, Waiting(d.mutation, d.revision), false)
    {
      RoundDelivers(acks, waiting, clocks, d);
      RoundExamines(acks, waiting, clocks, Waiting(d.mutation, d.revision));
    }
  }

  /** When the clock does not tick during the round, every mutation left waiting
      has a laggard among the watchers left registered. */
  lemma SteadyClockLeavesLaggards(acks: map<string, Ack>, waiting: seq<Waiting>, clocks: seq<int>, now: int)
    requires |clocks| == |waiting| && forall i :: 0 <= i < |clocks| ==> clocks[i] == now
    ensures var (live, still, _) := Acked(acks, waiting, clocks);
      && (forall w :: w in still ==> Lags(live, w.revision))
      && (waiting != [] ==> forall id :: id in live ==> live[id].expiresAt > now)
  {
    RoundIsExact(acks, waiting, clocks);
    var (live, still, _) := Acked(acks, waiting, clocks);
    forall w | w in still ensures Lags(live, w.revision) {
      var n :| 0 < n <= |waiting| && waiting[n - 1] == w && Lags(Surviving(acks, clocks[..n]), w.revision);
      var id :| id in Surviving(acks, clocks[..n]) && acks[id].acked < w.revision;
      assert clocks[..n][0] == now;
      assert id in live;
    }
    if waiting != [] { assert clocks[0] == now; }
  }

  /** A mutation some watcher lagged behind at its own reading is kept. */
  lemma {:induction false} RoundKeeps(acks: map<string, Ack>, waiting: seq<Waiting>, clocks: seq<int>, i: nat)
    requires |clocks| == |waiting| && i < |waiting| && LagsAt(acks, waiting, clocks, i)
    ensures waiting[i] in Acked(acks, waiting, clocks).1
  {
    var last := |waiting| - 1;
    if i == last {
      RoundSurvives(acks, waiting[..last], clocks[..last]);
      SurvivingSnoc(acks, clocks[..last], clocks[last]);
      assert clocks[..last] + [clocks[last]] == clocks == clocks[..last + 1];
    } else {
      assert clocks[..last][..i + 1] == clocks[..i + 1];
      RoundKeeps(acks, waiting[..last], clocks[..last], i);
    }
  }

  ghost predicate LagsAt(acks: map<string, Ack>, waiting: seq<Waiting>, clocks: seq<int>, i: nat)
    requires |clocks| == |waiting| && i < |waiting|
  {
    Lags(Surviving(acks, clocks[..i + 1]), waiting[i].revision)
  }

  /** No reading of the round retires the last laggard of a mutation that an earlier
      reading kept waiting for it. */
  ghost predicate LaggardsOutlive(acks: map<string, Ack>, waiting: seq<Waiting>, clocks: seq<int>)
    requires |clocks| == |waiting|
  {
    forall i :: 0 <= i < |waiting| && LagsAt(acks, waiting, clocks, i) ==>
      Lags(Surviving(acks, clocks), waiting[i].revision)
  }

  /** After a round every mutation left waiting has a laggard among the watchers left
      registered exactly when the leases and the clock readings see to it. */
  lemma NobodyStrandedIff(acks: map<string, Ack>, waiting: seq<Waiting>, clocks: seq<int>)
    requires |clocks| == |waiting|
    ensures var (live, still, _) := Acked(acks, waiting, clocks);
      (forall w :: w in still ==> Lags(live, w.revision)) <==> LaggardsOutlive(acks, waiting, clocks)
  {
    var (live, still, _) := Acked(acks, waiting, clocks);
    RoundSurvives(acks, waiting, clocks);
    if LaggardsOutlive(acks, waiting, clocks) {
      forall w | w in still ensures Lags(live, w.revision) {
        RoundExamines(acks, waiting, clocks, w);
        var n :| 0 < n <= |waiting| && waiting[n - 1] == w && Lags(Surviving(acks, clocks[..n]), w.revision);
        assert clocks[..n - 1 + 1] == clocks[..n];
        assert LagsAt(acks, waiting, clocks, n - 1);
      }
    }
    if forall w :: w in still ==> Lags(live, w.revision) {
      forall i | 0 <= i < |waiting| && LagsAt(acks, waiting, clocks, i)
        ensures Lags(Surviving(acks, clocks), waiting[i].revision)
      {
        RoundKeeps(acks, waiting, clocks, i);
      }
    }
  }

  // ---- a mutation left waiting for nobody ----------------------------------

  /** The waiting mutations in the order of their commits, no two at one revision. */
  ghost predicate Rising(waiting: seq<Waiting>, revision: int) {
    && (forall i, j :: 0 <= i < j < |waiting| ==> waiting[i].revision < waiting[j].revision)
    && (forall i :: 0 <= i < |waiting| ==> waiting[i].revision <= revision)
  }

  lemma {:induction false} RoundStaysRising(acks: map<string, Ack>, waiting: seq<Waiting>, clocks: seq<int>,
      revision: int)
    requires |clocks| == |waiting| && Rising(waiting, revision)
    ensures Rising(Acked(acks, waiting, clocks).1, revision)
    ensures forall w :: w in Acked(acks, waiting, clocks).1 ==> w in waiting
  {
    if waiting != [] {
      var last := |waiting| - 1;
      RoundStaysRising(acks, waiting[..last], clocks[..last], revision);
      var still := Acked(acks, waiting[..last], clocks[..last]).1;
      forall i | 0 <= i < |still| ensures still[i].revision < waiting[last].revision {
        assert still[i] in waiting[..last];
      }
    }
  }

  lemma RisingWithout(waiting: seq<Waiting>, i: nat, revision: int)
    requires i < |waiting| && Rising(waiting, revision)
    ensures Rising(waiting[..i] + waiting[i + 1..], revision)
  {
  }

  lemma RisingWith(waiting: seq<Waiting>, w: Waiting, revision: int)
    requires Rising(waiting, revision) && revision < w.revision
    ensures Rising(waiting, w.revision) && Rising(waiting + [w], w.revision)
  {
  }

  lemma CommitStaysRising<S>(cfg: Config, s: State<S>, e: Event<S>)
    requires Enabled(s, e) && e.Commit? && Rising(s.waiting, s.revision)
    ensures Rising(Next(cfg, s, e).waiting, Next(cfg, s, e).revision)
  {
    var u := ReleaseWriter(Publish(s, e.paths, e.subtrees, e.clock), e.request);
    assert u.waiting == s.waiting && u.revision > s.revision;
    RisingWith(s.waiting, Waiting(e.request.ticket, u.revision), s.revision);
  }

  lemma StepStaysRising<S>(cfg: Config, s: State<S>, e: Event<S>)
    requires Enabled(s, e) && Rising(s.waiting, s.revision)
    ensures Rising(Next(cfg, s, e).waiting, Next(cfg, s, e).revision)
  {
    match e
    case Commit(_, _, _, _, _) => CommitStaysRising(cfg, s, e);
    case Watch(_, since, timeoutMs, id, clock, ackClocks) =>
      if id != "" {
        RoundStaysRising(Registered(cfg, s.acks, id, since, timeoutMs, clock), s.waiting, ackClocks, s.revision);
      }
    case AckTimeout(mutation, _) =>
      var i := IndexOfMutation(s.waiting, mutation);
      if i < |s.waiting| { RisingWithout(s.waiting, i, s.revision); }
    case _ => assert Next(cfg, s, e).waiting == s.waiting && Next(cfg, s, e).revision == s.revision;
  }

  /** In every run the waiting mutations have different revisions, rising in order. */
  lemma {:induction false} WaitingRisesOverRuns<S>(cfg: Config, s: State<S>, events: seq<Event<S>>)
    requires Legal(cfg, s, events) && Rising(s.waiting, s.revision)
    ensures Rising(Run(cfg, s, events).waiting, Run(cfg, s, events).revision)
    decreases |events|
  {
    if events != [] {
      StepStaysRising(cfg, s, events[0]);
      WaitingRisesOverRuns(cfg, Next(cfg, s, events[0]), events[1..]);
    }
  }

  predicate Idle(g: Gate.Gate) {
    g == Gate.OPEN.(granted := g.granted)
  }

  /** No poll was ever made as `call`. */
  predicate Unused<S>(s: State<S>, call: nat) {
    && (forall i :: 0 <= i < |s.parked| ==> s.parked[i].call != call)
    && (forall i :: 0 <= i < |s.answers| ==> s.answers[i].call != call)
  }

  lemma {:induction false} WakingUsesNoCall(v: View, parked: seq<Parked>, call: nat)
    requires forall i :: 0 <= i < |parked| ==> parked[i].call != call
    ensures forall i :: 0 <= i < |WokenAnswers(v, parked)| ==> WokenAnswers(v, parked)[i].call != call
    ensures forall i :: 0 <= i < |StillParked(parked, v.revision)| ==> StillParked(parked, v.revision)[i].call != call
  {
    if parked != [] { WakingUsesNoCall(v, parked[..|parked| - 1], call); }
  }

  /** `events` take `s` to `t`. */
  predicate Leads<S(==)>(cfg: Config, s: State<S>, events: seq<Event<S>>, t: State<S>) {
    Legal(cfg, s, events) && Run(cfg, s, events) == t
  }

  lemma OneStep<S>(cfg: Config, s: State<S>, e: Event<S>, rest: seq<Event<S>>, t: State<S>)
    requires Enabled(s, e) && Leads(cfg, Next(cfg, s, e), rest, t)
    ensures Leads(cfg, s, [e] + rest, t)
  {
    assert ([e] + rest)[1..] == rest;
  }

  /** One mutation that changes nothing, from start to end. */
  function Transaction<S>(r: Gate.Request, ackClock: int): seq<Event<S>> {
    [Acquire(r), Commit(r, [], [], 0, ackClock)]
  }

  predicate CanTransact<S>(s: State<S>, r: Gate.Request) {
    Idle(s.gate) && r.mode == Gate.Write && r !in s.gate.granted
  }

  function Transacted<S>(cfg: Config, s: State<S>, r: Gate.Request, ackClock: int): State<S>
    requires CanTransact(s, r)
  {
    Next(cfg, Next(cfg, s, Acquire(r)), Commit(r, [], [], 0, ackClock))
  }

  lemma Transacts<S>(cfg: Config, s: State<S>, r: Gate.Request, ackClock: int)
    requires CanTransact(s, r) && s.revision >= 0 && cfg.ackCap > 0
    requires Lags(Pruned(s.acks, ackClock), s.revision + 1) && Unused(s, 1)
    ensures var t := Transacted(cfg, s, r, ackClock);
      && Idle(t.gate) && t.gate.granted == s.gate.granted + [r] && Unused(t, 1)
      && t.revision == s.revision + 1 && t.acks == Pruned(s.acks, ackClock)
      && t.waiting == s.waiting + [Waiting(r.ticket, s.revision + 1)]
  {
    var u := Publish(Next(cfg, s, Acquire(r)), [], [], 0);
    WakingUsesNoCall(ViewOf(u), u.parked, 1);
  }

  lemma TransactsThen<S>(cfg: Config, s: State<S>, r: Gate.Request, ackClock: int, rest: seq<Event<S>>, t: State<S>)
    requires CanTransact(s, r) && Leads(cfg, Transacted(cfg, s, r, ackClock), rest, t)
    ensures Leads(cfg, s, Transaction(r, ackClock) + rest, t)
  {
    var acquire, commit := Acquire(r), Commit(r, [], [], 0, ackClock);
    OneStep(cfg, Next(cfg, s, acquire), commit, rest, t);
    OneStep(cfg, s, acquire, [commit] + rest, t);
    assert Transaction(r, ackClock) + rest == [acquire] + ([commit] + rest);
  }

  const STRANDING := Config(0, 1_000, None)
  const FIRST := Gate.Request(1, Gate.Write)
  const SECOND := Gate.Request(2, Gate.Write)

  /** Watcher `a` polls at 0 with a grace of 10. */
  function EarlyPoll(): Event<()> { Watch(0, 0, 5, "a", 0, []) }

  /** Watcher `b` polls at revision 2; the round it starts reads 5 and then 15. */
  function LatePoll(): Event<()> { Watch(1, 2, 100, "b", 5, [5, 15]) }

  /** Between the two polls, two mutations commit and wait for `a`. */
  function StrandingRun(): seq<Event<()>> {
    [EarlyPoll()] + (Transaction(FIRST, 1) + (Transaction(SECOND, 2) + [LatePoll()]))
  }

  lemma EarlyPollRegisters() returns (s: State<()>)
    ensures Enabled(Initial(STRANDING, ()), EarlyPoll()) && s == Next(STRANDING, Initial(STRANDING, ()), EarlyPoll())
    ensures s.acks == map["a" := Ack(0, 10)] && s.waiting == [] && s.revision == 0
    ensures Idle(s.gate) && s.gate.granted == [] && Unused(s, 1)
  {
    assert Acked(Registered(STRANDING, map[], "a", 0, 5, 0), [], []).1 == [];
    s := Next(STRANDING, Initial(STRANDING, ()), EarlyPoll());
  }

  lemma LagsBehind(acks: map<string, Ack>, id: string, revision: int, now: int)
    requires acks == map[id := Ack(0, 10)] && 0 < revision && now < 10
    ensures Pruned(acks, now) == acks && Lags(acks, revision)
  {
    assert id in acks && acks[id].acked < revision;
  }

  lemma LateRound(acks: map<string, Ack>)
    requires acks == map["a" := Ack(0, 10), "b" := Ack(2, 205)]
    ensures var (live, still, _) := Acked(acks, [Waiting(1, 1), Waiting(2, 2)], [5, 15]);
      still == [Waiting(1, 1)] && !Lags(live, 1)
  {
    var waiting, clocks := [Waiting(1, 1), Waiting(2, 2)], [5, 15];
    assert waiting[..1] == [Waiting(1, 1)] && clocks[..1] == [5];
    assert [Waiting(1, 1)][..0] == [] && [5][..0] == [];
    assert Acked(acks, [], []) == (acks, [], []);
    assert Lags(Pruned(acks, 5), 1) by { assert "a" in Pruned(acks, 5) && Pruned(acks, 5)["a"].acked < 1; }
    var none: seq<Waiting> := [];
    assert Acked(acks, waiting[..1], clocks[..1]) == (Pruned(acks, 5), none + [Waiting(1, 1)], []);
  }

  lemma LatePollStrands(s: State<()>) returns (t: State<()>)
    requires s.acks == map["a" := Ack(0, 10)] && s.waiting == [Waiting(1, 1), Waiting(2, 2)] && Unused(s, 1)
    ensures Leads(STRANDING, s, [LatePoll()], t)
    ensures t.waiting == [Waiting(1, 1)] && !Lags(t.acks, 1)
  {
    var acks := Registered(STRANDING, s.acks, "b", 2, 100, 5);
    LateRound(acks);
    t := Next(STRANDING, s, LatePoll());
    OneStep(STRANDING, s, LatePoll(), [], t);
    assert [LatePoll()] + [] == [LatePoll()];
  }

  /** Two mutations in a row wait for watcher `a`, and the late poll strands the first. */
  lemma BothWait(s: State<()>) returns (t: State<()>)
    requires s.acks == map["a" := Ack(0, 10)] && s.waiting == [] && s.revision == 0
    requires Idle(s.gate) && s.gate.granted == [] && Unused(s, 1)
    ensures Leads(STRANDING, s, Transaction(FIRST, 1) + (Transaction(SECOND, 2) + [LatePoll()]), t)
    ensures t.waiting == [Waiting(1, 1)] && !Lags(t.acks, 1)
  {
    LagsBehind(s.acks, "a", 1, 1);
    Transacts(STRANDING, s, FIRST, 1);
    t := SecondWaits(Transacted(STRANDING, s, FIRST, 1));
    TransactsThen(STRANDING, s, FIRST, 1, Transaction(SECOND, 2) + [LatePoll()], t);
  }

  lemma SecondWaits(s: State<()>) returns (t: State<()>)
    requires s.acks == map["a" := Ack(0, 10)] && s.waiting == [Waiting(1, 1)] && s.revision == 1
    requires Idle(s.gate) && s.gate.granted == [FIRST] && Unused(s, 1)
    ensures Leads(STRANDING, s, Transaction(SECOND, 2) + [LatePoll()], t)
    ensures t.waiting == [Waiting(1, 1)] && !Lags(t.acks, 1)
  {
    LagsBehind(s.acks, "a", 2, 2);
    Transacts(STRANDING, s, SECOND, 2);
    t := LatePollStrands(Transacted(STRANDING, s, SECOND, 2));
    TransactsThen(STRANDING, s, SECOND, 2, [LatePoll()], t);
  }

  /** A tick in the middle of a round can retire the laggard an earlier mutation was
      kept for: that mutation then waits for nobody, until its cap. Here is a run from
      the initial state in which it happens. */
  lemma TickMayStrandAMutation() returns (t: State<()>)
    ensures Leads(STRANDING, Initial(STRANDING, ()), StrandingRun(), t)
    ensures t.waiting == [Waiting(1, 1)] && !Lags(t.acks, 1)
  {
    var s := EarlyPollRegisters();
    t := BothWait(s);
    OneStep(STRANDING, Initial(STRANDING, ()), EarlyPoll(),
            Transaction(FIRST, 1) + (Transaction(SECOND, 2) + [LatePoll()]), t);
  }

  // ---- the gate on responses -----------------------------------------------

  /** Why a response may leave in this very step. */
  ghost predicate Justified<S>(cfg: Config, s: State<S>, e: Event<S>, d: Delivered)
    requires Enabled(s, e)
  {
    match d.why
    case CapNotPositive => e.Commit? && cfg.ackCap <= 0
    case CapElapsed => e.AckTimeout? && d.mutation == e.mutation
    case AllAcked =>
      // every watcher registered and unexpired at the mutation's own reading has acked
      if e.Commit? then
        forall id :: id in s.acks && s.acks[id].expiresAt > e.ackClock ==> s.acks[id].acked >= d.revision
      else
        && e.Watch? && e.watcherId != ""
        && var acks := Registered(cfg, s.acks, e.watcherId, e.since, e.timeoutMs, e.clock);
           Examined(acks, s.waiting, e.ackClocks, Waiting(d.mutation, d.revision), false)
  }

  /** Responses are only ever added, and each is justified by the step that adds it. */
  lemma ResponsesLeaveOnlyWhenAllowed<S>(cfg: Config, s: State<S>, e: Event<S>)
    requires Enabled(s, e)
    ensures s.delivered <= Next(cfg, s, e).delivered
    ensures forall i :: |s.delivered| <= i < |Next(cfg, s, e).delivered| ==>
      Justified(cfg, s, e, Next(cfg, s, e).delivered[i])
  {
    var t := Next(cfg, s, e);
    match e
    case Commit(r, paths, subtrees, clock, ackClock) =>
      var u := ReleaseWriter(Publish(s, paths, subtrees, clock), r);
      assert u.acks == s.acks && u.delivered == s.delivered;
      if !Lags(Pruned(s.acks, ackClock), u.revision) {
        forall id | id in s.acks && s.acks[id].expiresAt > ackClock ensures s.acks[id].acked >= u.revision {
          assert id in Pruned(s.acks, ackClock);
        }
      }
    case Watch(_, since, timeoutMs, id, clock, ackClocks) =>
      if id != "" {
        var acks := Registered(cfg, s.acks, id, since, timeoutMs, clock);
        RoundIsExact(acks, s.waiting, ackClocks);
        var done := Acked(acks, s.waiting, ackClocks).2;
        assert t.delivered == s.delivered + done;
        forall i | |s.delivered| <= i < |t.delivered| ensures Justified(cfg, s, e, t.delivered[i]) {
          assert t.delivered[i] in done;
        }
      }
    case _ =>
  }

  // ---- when a response waits -----------------------------------------------

  /** Some registered watcher, unexpired at `now`, has not acked `revision`. */
  ghost predicate Awaited(acks: map<string, Ack>, revision: int, now: int) {
    exists id :: id in acks && acks[id].expiresAt > now && acks[id].acked < revision
  }

  lemma LagsIffAwaited(acks: map<string, Ack>, revision: int, now: int)
    ensures Lags(Pruned(acks, now), revision) <==> Awaited(acks, revision, now)
  {
    if id :| id in acks && acks[id].expiresAt > now && acks[id].acked < revision { assert id in Pruned(acks, now); }
    if id :| id in Pruned(acks, now) && Pruned(acks, now)[id].acked < revision {
      assert id in acks && acks[id].expiresAt > now && acks[id].acked < revision;
    }
  }

  /** A commit's response waits if and only if the cap is positive and somebody is awaited
      at the commit's own reading; otherwise it leaves in this very step, and says why. */
  lemma CommitWaitsIff<S>(cfg: Config, s: State<S>, e: Event<S>)
    requires Enabled(s, e) && e.Commit?
    ensures var t := Next(cfg, s, e);
      var awaited := Awaited(s.acks, t.revision, e.ackClock);
      if awaited && cfg.ackCap > 0 then
        t.waiting == s.waiting + [Waiting(e.request.ticket, t.revision)] && t.delivered == s.delivered
      else
        && t.waiting == s.waiting
        && t.delivered == s.delivered
             + [Delivered(e.request.ticket, t.revision, if awaited then CapNotPositive else AllAcked)]
  {
    LagsIffAwaited(s.acks, Next(cfg, s, e).revision, e.ackClock);
    var u := ReleaseWriter(Publish(s, e.paths, e.subtrees, e.clock), e.request);
    assert u.acks == s.acks && u.waiting == s.waiting && u.delivered == s.delivered;
  }

  /** The cap's timer answers the mutation it was set for, and no other. */
  lemma TimerAnswers<S>(cfg: Config, s: State<S>, e: Event<S>, w: Waiting)
    requires Enabled(s, e) && e.AckTimeout? && Rising(s.waiting, s.revision) && w in s.waiting
    requires forall v :: v in s.waiting && v.mutation == w.mutation ==> v == w
    ensures var t := Next(cfg, s, e);
      if w.mutation == e.mutation then
        w !in t.waiting && t.delivered == s.delivered + [Delivered(w.mutation, w.revision, CapElapsed)]
      else w in t.waiting
  {
    var i := IndexOfMutation(s.waiting, e.mutation);
    AckTimeoutShape(cfg, s, e);
    if i < |s.waiting| {
      if w.mutation == e.mutation { assert s.waiting[i] in s.waiting && s.waiting[i] == w; }
      RemovedOne(s.waiting, i, s.revision, w);
    }
  }

  lemma RemovedOne(waiting: seq<Waiting>, i: nat, revision: int, w: Waiting)
    requires i < |waiting| && Rising(waiting, revision) && w in waiting
    ensures w in waiting[..i] + waiting[i + 1..] <==> w != waiting[i]
  {
    var rest := waiting[..i] + waiting[i + 1..];
    var j :| 0 <= j < |waiting| && waiting[j] == w;
    if j != i { assert rest[if j < i then j else j - 1] == w; }
  }

  /** How long a poll keeps its watcher registered. */
  function GraceOf(cfg: Config, timeoutMs: int): int {
    if cfg.graceOverride.Some? then cfg.graceOverride.value
    else if 2 * timeoutMs < MAX_WATCHER_GRACE_MS then 2 * timeoutMs else MAX_WATCHER_GRACE_MS
  }

  /** A named poll registers its watcher at the highest revision it ever acked, for the
      grace, unless a reading of the round finds that expired already; everybody else
      stays registered as before unless a reading finds them expired. */
  lemma PollRegisters<S>(cfg: Config, s: State<S>, e: Event<S>, id: string)
    requires Enabled(s, e) && e.Watch? && e.watcherId != ""
    ensures var t := Next(cfg, s, e);
      var ack := if id != e.watcherId then (if id in s.acks then Some(s.acks[id]) else None)
                 else Some(Ack(if id in s.acks && e.since < s.acks[id].acked then s.acks[id].acked
                               else if id !in s.acks && e.since < 0 then 0 else e.since,
                               e.clock + GraceOf(cfg, e.timeoutMs)));
      var stays := ack.Some? && forall i :: 0 <= i < |e.ackClocks| ==> ack.value.expiresAt > e.ackClocks[i];
      (id in t.acks <==> stays) && (stays ==> t.acks[id] == ack.value)
  {
    var acks := Registered(cfg, s.acks, e.watcherId, e.since, e.timeoutMs, e.clock);
    RoundSurvives(acks, s.waiting, e.ackClocks);
    assert Next(cfg, s, e).acks == Surviving(acks, e.ackClocks);
  }

  /** Other steps register nobody and change no ack: a commit and a cap's timer drop whoever
      has expired at their reading, the rest leave the registry alone. */
  lemma RegistryAfter<S>(cfg: Config, s: State<S>, e: Event<S>, id: string)
    requires Enabled(s, e) && (e.Watch? ==> e.watcherId == "")
    ensures var t := Next(cfg, s, e);
      var looks := e.Commit? || (e.AckTimeout? && exists w :: w in s.waiting && w.mutation == e.mutation);
      var now := if e.Commit? then e.ackClock else if e.AckTimeout? then e.clock else 0;
      && (id in t.acks <==> id in s.acks && (looks ==> s.acks[id].expiresAt > now))
      && (id in t.acks ==> t.acks[id] == s.acks[id])
  {
    if e.Commit? {
      var u := ReleaseWriter(Publish(s, e.paths, e.subtrees, e.clock), e.request);
      assert u.acks == s.acks;
    }
    if e.AckTimeout? {
      var i := IndexOfMutation(s.waiting, e.mutation);
      if i < |s.waiting| { assert s.waiting[i] in s.waiting; }
    }
  }

  /** A watcher's acked revision never falls while it stays registered. */
  lemma AckedOnlyRises<S>(cfg: Config, s: State<S>, e: Event<S>, id: string)
    requires Enabled(s, e) && id in s.acks && id in Next(cfg, s, e).acks
    ensures s.acks[id].acked <= Next(cfg, s, e).acks[id].acked
  {
    if e.Watch? && e.watcherId != "" {
      RoundIsExact(Registered(cfg, s.acks, e.watcherId, e.since, e.timeoutMs, e.clock), s.waiting, e.ackClocks);
    }
  }

  ghost predicate RegisteredThroughout<S>(cfg: Config, s: State<S>, events: seq<Event<S>>, id: string)
    requires Legal(cfg, s, events)
    decreases |events|
  {
    id in s.acks && (events == [] || RegisteredThroughout(cfg, Next(cfg, s, events[0]), events[1..], id))
  }

  lemma {:induction false} AckedOnlyRisesOverRuns<S>(cfg: Config, s: State<S>, events: seq<Event<S>>, id: string)
    requires Legal(cfg, s, events) && RegisteredThroughout(cfg, s, events, id)
    ensures id in Run(cfg, s, events).acks && s.acks[id].acked <= Run(cfg, s, events).acks[id].acked
    decreases |events|
  {
    if events != [] {
      AckedOnlyRises(cfg, s, events[0], id);
      AckedOnlyRisesOverRuns(cfg, Next(cfg, s, events[0]), events[1..], id);
    }
  }

  // ---- every mutation is answered once -------------------------------------

  function TimesWaiting(waiting: seq<Waiting>, m: nat): nat {
    if waiting == [] then 0
    else TimesWaiting(waiting[..|waiting| - 1], m) + (if waiting[|waiting| - 1].mutation == m then 1 else 0)
  }

  function TimesDelivered(delivered: seq<Delivered>, m: nat): nat {
    if delivered == [] then 0
    else TimesDelivered(delivered[..|delivered| - 1], m) + (if delivered[|delivered| - 1].mutation == m then 1 else 0)
  }

  function Responses<S>(s: State<S>, m: nat): nat {
    TimesWaiting(s.waiting, m) + TimesDelivered(s.delivered, m)
  }

  lemma {:induction false} WaitingConcat(a: seq<Waiting>, b: seq<Waiting>, m: nat)
    ensures TimesWaiting(a + b, m) == TimesWaiting(a, m) + TimesWaiting(b, m)
  {
    if b == [] {
      assert a + b == a;
    } else {
      assert (a + b)[..|a + b| - 1] == a + b[..|b| - 1];
      WaitingConcat(a, b[..|b| - 1], m);
    }
  }

  lemma {:induction false} DeliveredConcat(a: seq<Delivered>, b: seq<Delivered>, m: nat)
    ensures TimesDelivered(a + b, m) == TimesDelivered(a, m) + TimesDelivered(b, m)
  {
    if b == [] {
      assert a + b == a;
    } else {
      assert (a + b)[..|a + b| - 1] == a + b[..|b| - 1];
      DeliveredConcat(a, b[..|b| - 1], m);
    }
  }

  lemma {:induction false} RoundMovesMutations(acks: map<string, Ack>, waiting: seq<Waiting>, clocks: seq<int>, m: nat)
    requires |clocks| == |waiting|
    ensures var (_, still, done) := Acked(acks, waiting, clocks);
      TimesWaiting(still, m) + TimesDelivered(done, m) == TimesWaiting(waiting, m)
  {
    if waiting != [] {
      var last := |waiting| - 1;
      var w := waiting[last];
      RoundMovesMutations(acks, waiting[..last], clocks[..last], m);
      var (_, still, done) := Acked(acks, waiting[..last], clocks[..last]);
      WaitingConcat(still, [w], m);
      DeliveredConcat(done, [Delivered(w.mutation, w.revision, AllAcked)], m);
    }
  }

  lemma {:induction false} WaitingWithout(waiting: seq<Waiting>, i: nat, m: nat)
    requires i < |waiting|
    ensures TimesWaiting(waiting, m)
      == TimesWaiting(waiting[..i] + waiting[i + 1..], m) + (if waiting[i].mutation == m then 1 else 0)
    decreases |waiting|
  {
    var n := |waiting| - 1;
    var rest := waiting[..i] + waiting[i + 1..];
    if i == n {
      assert rest == waiting[..n];
    } else {
      WaitingWithout(waiting[..n], i, m);
      assert rest[..|rest| - 1] == waiting[..n][..i] + waiting[..n][i + 1..];
      assert rest[|rest| - 1] == waiting[n];
    }
  }

  lemma AckTimeoutMoves<S>(cfg: Config, s: State<S>, e: Event<S>, m: nat)
    requires Enabled(s, e) && e.AckTimeout?
    ensures Responses(Next(cfg, s, e), m) == Responses(s, m)
  {
    var i := IndexOfMutation(s.waiting, e.mutation);
    AckTimeoutShape(cfg, s, e);
    if i < |s.waiting| {
      WaitingWithout(s.waiting, i, m);
      DeliveredConcat(s.delivered, [Delivered(e.mutation, s.waiting[i].revision, CapElapsed)], m);
      OneDelivered(Delivered(e.mutation, s.waiting[i].revision, CapElapsed), m);
    }
  }

  lemma AckTimeoutShape<S>(cfg: Config, s: State<S>, e: Event<S>)
    requires Enabled(s, e) && e.AckTimeout?
    ensures var i, t := IndexOfMutation(s.waiting, e.mutation), Next(cfg, s, e);
      if i == |s.waiting| then t.waiting == s.waiting && t.delivered == s.delivered
      else
        && t.waiting == s.waiting[..i] + s.waiting[i + 1..]
        && t.delivered == s.delivered + [Delivered(e.mutation, s.waiting[i].revision, CapElapsed)]
  {
  }

  lemma OneDelivered(d: Delivered, m: nat)
    ensures TimesDelivered([d], m) == if d.mutation == m then 1 else 0
  {
    assert [d][..0] == [];
  }

  lemma AwaitAdds<S>(cfg: Config, s: State<S>, mutation: nat, now: int, m: nat)
    ensures Responses(AwaitAcks(cfg, s, mutation, now), m) == Responses(s, m) + (if mutation == m then 1 else 0)
  {
    WaitingConcat(s.waiting, [Waiting(mutation, s.revision)], m);
    DeliveredConcat(s.delivered, [Delivered(mutation, s.revision, AllAcked)], m);
    DeliveredConcat(s.delivered, [Delivered(mutation, s.revision, CapNotPositive)], m);
  }

  lemma StepConservesResponses<S>(cfg: Config, s: State<S>, e: Event<S>, m: nat)
    requires Enabled(s, e)
    ensures Responses(Next(cfg, s, e), m) == Responses(s, m) + (if e.Commit? && e.request.ticket == m then 1 else 0)
  {
    match e
    case Commit(r, paths, subtrees, clock, ackClock) =>
      AwaitAdds(cfg, ReleaseWriter(Publish(s, paths, subtrees, clock), r), r.ticket, ackClock, m);
    case AckTimeout(_, _) => AckTimeoutMoves(cfg, s, e, m);
    case Watch(_, since, timeoutMs, id, clock, ackClocks) =>
      if id != "" {
        var acks := Registered(cfg, s.acks, id, since, timeoutMs, clock);
        RoundMovesMutations(acks, s.waiting, ackClocks, m);
        DeliveredConcat(s.delivered, Acked(acks, s.waiting, ackClocks).2, m);
      }
    case _ =>
  }

  function TimesCommitted<S>(events: seq<Event<S>>, m: nat): nat {
    if events == [] then 0
    else (if events[0].Commit? && events[0].request.ticket == m then 1 else 0) + TimesCommitted(events[1..], m)
  }

  /** Over a whole run every committed mutation has exactly one response, given
      or still waiting; gating delays responses and never loses or repeats one. */
  lemma {:induction false} EveryMutationHasOneResponse<S>(cfg: Config, s: State<S>, events: seq<Event<S>>, m: nat)
    requires Legal(cfg, s, events)
    ensures Responses(Run(cfg, s, events), m) == Responses(s, m) + TimesCommitted(events, m)
    decreases |events|
  {
    if events != [] {
      StepConservesResponses(cfg, s, events[0], m);
      EveryMutationHasOneResponse(cfg, Next(cfg, s, events[0]), events[1..], m);
    }
  }
}
