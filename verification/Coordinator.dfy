/** One workspace's publication coordinator as a transition system.  Every
    stretch of the source between two `await`s is one event; every clock reading
    an event makes is part of the event. */
module Coordinator {
  import opened Prelude
  import opened Paths
  import opened PublicationFeed
  import Gate = ReadersWriter

  const MAX_WATCHER_GRACE_MS := 60_000

  /** `initial` is the revision the workspace starts at, `ackCap` the longest a
      mutation response waits for acks, `graceOverride` a fixed watcher grace. */
  datatype Config = Config(initial: int, ackCap: int, graceOverride: Option<int>)

  /** A long poll waiting for the revision to pass `since`. */
  datatype Parked = Parked(call: nat, since: int)

  datatype Cause = FastPath | Woken | TimedOut

  /** A settled long poll.  `at` counts the publications made when it settled. */
  datatype Answer = Answer(call: nat, since: int, revision: int, affected: Option<Affected>, cause: Cause, at: nat)

  datatype Ack = Ack(acked: int, expiresAt: int)

  /** A mutation whose response is being delayed until its revision is acked. */
  datatype Waiting = Waiting(mutation: nat, revision: int)

  datatype Why = AllAcked | CapNotPositive | CapElapsed
  datatype Delivered = Delivered(mutation: nat, revision: int, why: Why)

  /** `gate` through `waiting` are the source's fields; `answers` and `delivered`
      are the promises settled so far, `store` the workspace the transactions
      work on, and `log` everything ever published. */
  datatype State<S> = State(
    gate: Gate.Gate,
    revision: int,
    epoch: nat,
    history: History,
    parked: seq<Parked>,
    acks: map<string, Ack>,
    waiting: seq<Waiting>,
    answers: seq<Answer>,
    delivered: seq<Delivered>,
    store: S,
    log: seq<Published>)

  datatype Event<S> =
    | Acquire(request: Gate.Request)
    | EndRead(request: Gate.Request)
    | StoreWrite(request: Gate.Request, store: S)
    | Commit(request: Gate.Request, paths: seq<Path>, subtrees: seq<Path>, clock: int, ackClock: int)
    | Abandon(request: Gate.Request)
    | Watch(call: nat, since: int, timeoutMs: int, watcherId: string, clock: int, ackClocks: seq<int>)
    | WatchTimeout(call: nat)
    | AckTimeout(mutation: nat, clock: int)

  function Initial<S>(cfg: Config, store: S): State<S> {
    State(Gate.OPEN, cfg.initial, 0, History([], cfg.initial), [], map[], [], [], [], store, [])
  }

  // ---- watchers ------------------------------------------------------------

  function WatchResult(history: History, revision: int, since: int): Option<Affected> {
    if revision <= since then Some(Affected([], [])) else Since(history, since)
  }

  /** What an answer depends on. */
  datatype View = View(revision: int, history: History, published: nat)

  function ViewOf<S>(s: State<S>): View {
    View(s.revision, s.history, |s.log|)
  }

  function Settled(v: View, w: Parked, cause: Cause): Answer {
    Answer(w.call, w.since, v.revision, WatchResult(v.history, v.revision, w.since), cause, v.published)
  }

  /** The parked watchers the current revision has not passed. */
  function StillParked(parked: seq<Parked>, revision: int): seq<Parked> {
    if parked == [] then []
    else
      var rest := StillParked(parked[..|parked| - 1], revision);
      if parked[|parked| - 1].since < revision then rest else rest + [parked[|parked| - 1]]
  }

  /** The answers waking the others gives, in parking order. */
  function WokenAnswers(v: View, parked: seq<Parked>): seq<Answer> {
    if parked == [] then []
    else
      var woken := WokenAnswers(v, parked[..|parked| - 1]);
      var w := parked[|parked| - 1];
      if w.since < v.revision then woken + [Settled(v, w, Woken)] else woken
  }

  function NotifyWatchers<S>(s: State<S>): State<S> {
    s.(parked := StillParked(s.parked, s.revision), answers := s.answers + WokenAnswers(ViewOf(s), s.parked))
  }

  function IndexOfCall(parked: seq<Parked>, call: nat): (i: nat)
    ensures i <= |parked|
    ensures i < |parked| ==> parked[i].call == call
    ensures i == |parked| ==> forall j :: 0 <= j < |parked| ==> parked[j].call != call
  {
    if parked == [] then 0
    else if parked[0].call == call then 0
    else
      var rest := IndexOfCall(parked[1..], call);
      assert forall j :: 1 <= j < |parked| ==> parked[j] == parked[1..][j - 1];
      1 + rest
  }

  // ---- acks ----------------------------------------------------------------

  function Max(a: int, b: int): int { if a < b then b else a }
  function Min(a: int, b: int): int { if a < b then a else b }

  function Pruned(acks: map<string, Ack>, now: int): map<string, Ack> {
    map id | id in acks && acks[id].expiresAt > now :: acks[id]
  }

  predicate Lags(acks: map<string, Ack>, revision: int) {
    exists id :: id in acks && acks[id].acked < revision
  }

  /** Re-examine every waiting mutation, oldest first, reading the clock for each. */
  function Acked(acks: map<string, Ack>, waiting: seq<Waiting>, clocks: seq<int>): (r: (map<string, Ack>,
      seq<Waiting>, seq<Delivered>))
    requires |clocks| == |waiting|
  {
    if waiting == [] then (acks, [], [])
    else
      var last := |waiting| - 1;
      var (live, still, done) := Acked(acks, waiting[..last], clocks[..last]);
      var now := Pruned(live, clocks[last]);
      var w := waiting[last];
      if Lags(now, w.revision) then (now, still + [w], done)
      else (now, still, done + [Delivered(w.mutation, w.revision, AllAcked)])
  }

  function Registered(cfg: Config, acks: map<string, Ack>, watcherId: string, since: int, timeoutMs: int,
      clock: int): map<string, Ack> {
    var grace := if cfg.graceOverride.Some? then cfg.graceOverride.value else Min(timeoutMs * 2, MAX_WATCHER_GRACE_MS);
    var before := if watcherId in acks then acks[watcherId].acked else 0;
    acks[watcherId := Ack(Max(before, since), clock + grace)]
  }

  function RecordAck<S>(cfg: Config, s: State<S>, watcherId: string, since: int, timeoutMs: int, clock: int,
      ackClocks: seq<int>): State<S>
    requires |ackClocks| == |s.waiting|
  {
    if watcherId == "" then s
    else
      var (acks, waiting, done) :=
        Acked(Registered(cfg, s.acks, watcherId, since, timeoutMs, clock), s.waiting, ackClocks);
      s.(acks := acks, waiting := waiting, delivered := s.delivered + done)
  }

  /** A committed mutation either answers at once or waits for its laggards. */
  function AwaitAcks<S>(cfg: Config, s: State<S>, mutation: nat, now: int): State<S> {
    var acks := Pruned(s.acks, now);
    if !Lags(acks, s.revision) then
      s.(acks := acks, delivered := s.delivered + [Delivered(mutation, s.revision, AllAcked)])
    else if cfg.ackCap <= 0 then
      s.(acks := acks, delivered := s.delivered + [Delivered(mutation, s.revision, CapNotPositive)])
    else s.(acks := acks, waiting := s.waiting + [Waiting(mutation, s.revision)])
  }

  function IndexOfMutation(waiting: seq<Waiting>, mutation: nat): (i: nat)
    ensures i <= |waiting|
    ensures i < |waiting| ==> waiting[i].mutation == mutation
    ensures i == |waiting| ==> forall j :: 0 <= j < |waiting| ==> waiting[j].mutation != mutation
  {
    if waiting == [] then 0
    else if waiting[0].mutation == mutation then 0
    else
      var rest := IndexOfMutation(waiting[1..], mutation);
      assert forall j :: 1 <= j < |waiting| ==> waiting[j] == waiting[1..][j - 1];
      1 + rest
  }

  // ---- steps ---------------------------------------------------------------

  /** The writer's release closure: bump the epoch, wake watchers, drain. */
  function ReleaseWriter<S>(s: State<S>, r: Gate.Request): State<S> {
    NotifyWatchers(s.(epoch := s.epoch + 1)).(gate := Gate.Release(s.gate, r))
  }

  function Publish<S>(s: State<S>, paths: seq<Path>, subtrees: seq<Path>, clock: int): State<S> {
    var revision := Max(s.revision + 1, clock * 1_000);
    var entry := Published(revision, Dedup(paths), Dedup(subtrees));
    s.(revision := revision, history := Record(s.history, entry), log := s.log + [entry])
  }

  /** What the callers and the runtime guarantee: tickets and calls are fresh,
      only a holder writes or ends its turn, and there is one clock reading per
      waiting mutation. */
  predicate Enabled<S>(s: State<S>, e: Event<S>) {
    match e
    case Acquire(r) => r !in s.gate.granted && r !in s.gate.queue
    case EndRead(r) => r.mode == Gate.Read
    case StoreWrite(r, _) => r.mode == Gate.Write && r in s.gate.holders
    case Commit(r, _, _, _, _) => r.mode == Gate.Write && r in s.gate.holders
    case Abandon(r) => r.mode == Gate.Write && r in s.gate.holders
    case Watch(call, _, _, _, _, ackClocks) =>
      |ackClocks| == |s.waiting|
      && (forall i :: 0 <= i < |s.parked| ==> s.parked[i].call != call)
      && (forall i :: 0 <= i < |s.answers| ==> s.answers[i].call != call)
    case WatchTimeout(_) => true
    case AckTimeout(_, _) => true
  }

  function Next<S>(cfg: Config, s: State<S>, e: Event<S>): State<S>
    requires Enabled(s, e)
  {
    match e
    case Acquire(r) => s.(gate := Gate.Acquire(s.gate, r))
    case EndRead(r) => s.(gate := Gate.Release(s.gate, r))
    case StoreWrite(_, store) => s.(store := store)
    case Commit(r, paths, subtrees, clock, ackClock) =>
      AwaitAcks(cfg, ReleaseWriter(Publish(s, paths, subtrees, clock), r), r.ticket, ackClock)
    case Abandon(r) => ReleaseWriter(s, r)
    case Watch(call, since, timeoutMs, watcherId, clock, ackClocks) =>
      var t := RecordAck(cfg, s, watcherId, since, timeoutMs, clock, ackClocks);
      if t.revision > since then t.(answers := t.answers + [Settled(ViewOf(t), Parked(call, since), FastPath)])
      else t.(parked := t.parked + [Parked(call, since)])
    case WatchTimeout(call) =>
      var i := IndexOfCall(s.parked, call);
      if i == |s.parked| then s
      else s.(parked := s.parked[..i] + s.parked[i + 1..],
              answers := s.answers + [Settled(ViewOf(s), s.parked[i], TimedOut)])
    case AckTimeout(mutation, clock) =>
      var i := IndexOfMutation(s.waiting, mutation);
      if i == |s.waiting| then s
      else s.(acks := Pruned(s.acks, clock), waiting := s.waiting[..i] + s.waiting[i + 1..],
              delivered := s.delivered + [Delivered(mutation, s.waiting[i].revision, CapElapsed)])
  }

  predicate Legal<S>(cfg: Config, s: State<S>, events: seq<Event<S>>)
    decreases |events|
  {
    events == [] || (Enabled(s, events[0]) && Legal(cfg, Next(cfg, s, events[0]), events[1..]))
  }

  function Run<S>(cfg: Config, s: State<S>, events: seq<Event<S>>): State<S>
    requires Legal(cfg, s, events)
    decreases |events|
  {
    if events == [] then s else Run(cfg, Next(cfg, s, events[0]), events[1..])
  }
}
