/** The coordinator's mutable state for one workspace, with the methods that
    update it in place.  Each method is proved to take exactly the step the
    transition system prescribes. */
module PublicationState {
  import opened Prelude
  import opened Paths
  import opened PublicationFeed
  import opened Coordinator

  predicate CallApart(parked: seq<Parked>, i: nat, j: nat)
    requires i < j < |parked|
  {
    parked[i].call != parked[j].call
  }

  ghost predicate DistinctCalls(parked: seq<Parked>) {
    forall i, j :: 0 <= i < j < |parked| ==> CallApart(parked, i, j)
  }

  lemma CallsDiffer(parked: seq<Parked>, i: nat, j: nat)
    requires DistinctCalls(parked) && i < |parked| && j < |parked| && i != j
    ensures parked[i].call != parked[j].call
  {
    if i < j { assert CallApart(parked, i, j); } else { assert CallApart(parked, j, i); }
  }

  lemma IndexOfDistinctCall(parked: seq<Parked>, k: nat)
    requires DistinctCalls(parked) && k < |parked|
    ensures IndexOfCall(parked, parked[k].call) == k
  {
    var i := IndexOfCall(parked, parked[k].call);
    if i != k && i < |parked| { CallsDiffer(parked, i, k); }
  }

  lemma RemovalKeepsCallsDistinct(parked: seq<Parked>, index: nat)
    requires DistinctCalls(parked) && index < |parked|
    ensures DistinctCalls(parked[..index] + parked[index + 1..])
  {
    var left := parked[..index] + parked[index + 1..];
    forall i, j | 0 <= i < j < |left| ensures CallApart(left, i, j) {
      assert CallApart(parked, if i < index then i else i + 1, if j < index then j else j + 1);
    }
  }

  lemma PushKeepsCallsDistinct(parked: seq<Parked>, x: Parked)
    requires DistinctCalls(parked) && forall i :: 0 <= i < |parked| ==> parked[i].call != x.call
    ensures DistinctCalls(parked + [x])
  {
    var more := parked + [x];
    forall i, j | 0 <= i < j < |more| ensures CallApart(more, i, j) {
      if j < |parked| { assert CallApart(parked, i, j); }
    }
  }

  predicate MutationApart(waiting: seq<Waiting>, i: nat, j: nat)
    requires i < j < |waiting|
  {
    waiting[i].mutation != waiting[j].mutation
  }

  ghost predicate DistinctMutations(waiting: seq<Waiting>) {
    forall i, j :: 0 <= i < j < |waiting| ==> MutationApart(waiting, i, j)
  }

  lemma MutationsDiffer(waiting: seq<Waiting>, i: nat, j: nat)
    requires DistinctMutations(waiting) && i < |waiting| && j < |waiting| && i != j
    ensures waiting[i].mutation != waiting[j].mutation
  {
    if i < j { assert MutationApart(waiting, i, j); } else { assert MutationApart(waiting, j, i); }
  }

  lemma IndexOfDistinctMutation(waiting: seq<Waiting>, k: nat)
    requires DistinctMutations(waiting) && k < |waiting|
    ensures IndexOfMutation(waiting, waiting[k].mutation) == k
  {
    var i := IndexOfMutation(waiting, waiting[k].mutation);
    if i != k && i < |waiting| { MutationsDiffer(waiting, i, k); }
  }

  lemma RemovalKeepsMutationsDistinct(waiting: seq<Waiting>, index: nat)
    requires DistinctMutations(waiting) && index < |waiting|
    ensures DistinctMutations(waiting[..index] + waiting[index + 1..])
  {
    var left := waiting[..index] + waiting[index + 1..];
    forall i, j | 0 <= i < j < |left| ensures MutationApart(left, i, j) {
      assert MutationApart(waiting, if i < index then i else i + 1, if j < index then j else j + 1);
    }
  }

  lemma PushKeepsMutationsDistinct(waiting: seq<Waiting>, x: Waiting)
    requires DistinctMutations(waiting) && forall i :: 0 <= i < |waiting| ==> waiting[i].mutation != x.mutation
    ensures DistinctMutations(waiting + [x])
  {
    var more := waiting + [x];
    forall i, j | 0 <= i < j < |more| ensures MutationApart(more, i, j) {
      if j < |waiting| { assert MutationApart(waiting, i, j); }
    }
  }

  /** What lies behind watcher `i` of the snapshot, and what it would be told. */
  lemma SnapshotAt(v: View, snapshot: seq<Parked>, i: nat) returns (rest: seq<Parked>, answer: Answer)
    requires i < |snapshot|
    ensures rest == snapshot[i + 1..] && snapshot[i..] == [snapshot[i]] + rest
    ensures answer == Settled(v, snapshot[i], Woken)
  {
    rest, answer := snapshot[i + 1..], Settled(v, snapshot[i], Woken);
  }

  /** One more watcher of the snapshot. */
  lemma WakePrefix(v: View, snapshot: seq<Parked>, i: nat, kept: seq<Parked>, woken: seq<Answer>,
                   before: seq<Answer>, answer: Answer)
      returns (kept': seq<Parked>, woken': seq<Answer>)
    requires i < |snapshot| && answer == Settled(v, snapshot[i], Woken)
    requires kept == StillParked(snapshot[..i], v.revision) && woken == WokenAnswers(v, snapshot[..i])
    ensures kept' == StillParked(snapshot[..i + 1], v.revision) && woken' == WokenAnswers(v, snapshot[..i + 1])
    ensures kept' == if snapshot[i].since < v.revision then kept else kept + [snapshot[i]]
    ensures before + woken' == if snapshot[i].since < v.revision then before + woken + [answer] else before + woken
  {
    assert snapshot[..i + 1][..i] == snapshot[..i];
    kept', woken' := StillParked(snapshot[..i + 1], v.revision), WokenAnswers(v, snapshot[..i + 1]);
  }

  /** One more mutation of the snapshot. */
  lemma AckedPrefix(acks: map<string, Ack>, snapshot: seq<Waiting>, clocks: seq<int>, i: nat)
    requires |clocks| == |snapshot| && i < |snapshot|
    ensures var w := snapshot[i];
      var (live, still, done) := Acked(acks, snapshot[..i], clocks[..i]);
      var (live', still', done') := Acked(acks, snapshot[..i + 1], clocks[..i + 1]);
      && live' == Pruned(live, clocks[i])
      && snapshot[i..] == [w] + snapshot[i + 1..]
      && (Lags(live', w.revision) ==> done' == done && still' == still + [w])
      && (!Lags(live', w.revision) ==> still' == still && done' == done + [Delivered(w.mutation, w.revision, AllAcked)])
  {
    assert snapshot[..i + 1][..i] == snapshot[..i] && clocks[..i + 1][..i] == clocks[..i];
    assert snapshot[i..] == [snapshot[i]] + snapshot[i + 1..];
  }

  class Workspace {
    const cfg: Config
    var revision: int
    var activityEpoch: nat
    var activeReaders: nat
    var activeWriter: bool
    var queue: seq<Gate.Request>
    /** Requests whose release closure has been handed out and not run. */
    var unreleased: set<Gate.Request>
    var pendingWatchers: seq<Parked>
    var watcherAcks: map<string, Ack>
    var pendingAckWaiters: seq<Waiting>
    var publicationHistory: seq<Published>
    var publicationHistoryFloor: int
    /** Settled long polls and mutation responses, in order of settling. */
    var answers: seq<Answer>
    var delivered: seq<Delivered>
    /** Everything ever published: a history variable of the model, which the
        source does not keep. */
    var log: seq<Published>
    ghost var granted: seq<Gate.Request>

    ghost function GateNow(): Gate.Gate
      reads this
    {
      Gate.Gate(activeReaders, activeWriter, queue, granted, unreleased)
    }

    ghost function ViewNow(): View
      reads this
    {
      View(revision, History(publicationHistory, publicationHistoryFloor), |log|)
    }

    ghost function Abs(): State<()>
      reads this
    {
      State(GateNow(), revision, activityEpoch, History(publicationHistory, publicationHistoryFloor),
            pendingWatchers, watcherAcks, pendingAckWaiters, answers, delivered, (), log)
    }

    /** Waiters are told apart by identity, so no two share an id. */
    ghost predicate Valid()
      reads this
    {
      DistinctCalls(pendingWatchers) && DistinctMutations(pendingAckWaiters)
    }

    constructor (cfg: Config)
      ensures this.cfg == cfg && Valid() && Abs() == Initial(cfg, ())
    {
      this.cfg := cfg;
      revision, publicationHistoryFloor := cfg.initial, cfg.initial;
      activityEpoch, activeReaders, activeWriter := 0, 0, false;
      queue, unreleased, pendingWatchers, watcherAcks, pendingAckWaiters := [], {}, [], map[], [];
      publicationHistory, answers, delivered, granted, log := [], [], [], [], [];
    }

    // ---- the gate ----------------------------------------------------------

    method Acquire(r: Gate.Request)
      modifies `activeReaders, `activeWriter, `queue, `unreleased, `granted
      ensures GateNow() == Gate.Acquire(old(GateNow()), r)
    {
      if r.mode == Gate.Read && !activeWriter && !Gate.WriterQueued(queue) {
        activeReaders, unreleased, granted := activeReaders + 1, unreleased + {r}, granted + [r];
      } else if r.mode == Gate.Write && !activeWriter && activeReaders == 0 && |queue| == 0 {
        activeWriter, unreleased, granted := true, unreleased + {r}, granted + [r];
      } else {
        queue := queue + [r];
      }
      assert unreleased == old(unreleased) || unreleased == old(unreleased) + set q | q in [r];
    }

    method Drain()
      modifies `activeReaders, `activeWriter, `queue, `unreleased, `granted
      ensures GateNow() == Gate.Drain(old(GateNow()))
    {
      if activeWriter || activeReaders != 0 || |queue| == 0 { return; }
      if queue[0].mode == Gate.Write {
        activeWriter, unreleased, granted := true, unreleased + {queue[0]}, granted + [queue[0]];
        queue := queue[1..];
        assert old(queue)[..1] == [old(queue)[0]];
      } else {
        GrantLeadingReaders();
      }
    }

    method GrantLeadingReaders()
      requires activeReaders == 0
      modifies `activeReaders, `queue, `unreleased, `granted
      ensures var n := Gate.LeadingReaders(old(queue));
        && activeReaders == n && queue == old(queue)[n..]
        && granted == old(granted) + old(queue)[..n]
        && unreleased == old(unreleased) + set q | q in old(queue)[..n]
    {
      ghost var was := queue;
      while |queue| > 0 && queue[0].mode == Gate.Read
        invariant activeReaders <= Gate.LeadingReaders(was) && queue == was[activeReaders..]
        invariant granted == old(granted) + was[..activeReaders]
        invariant unreleased == old(unreleased) + set q | q in was[..activeReaders]
        decreases |queue|
      {
        assert was[..activeReaders + 1] == was[..activeReaders] + [queue[0]];
        activeReaders, unreleased, granted := activeReaders + 1, unreleased + {queue[0]}, granted + [queue[0]];
        queue := queue[1..];
      }
    }

    /** A reader's release closure. */
    method ReleaseReader(r: Gate.Request)
      requires r.mode == Gate.Read && (r in unreleased ==> activeReaders > 0)
      modifies `activeReaders, `activeWriter, `queue, `unreleased, `granted
      ensures GateNow() == Gate.Release(old(GateNow()), r)
    {
      if r !in unreleased { return; }
      unreleased := unreleased - {r};
      activeReaders := activeReaders - 1;
      Drain();
    }

    /** A writer's release closure. */
    method ReleaseWriter(r: Gate.Request)
      requires DistinctCalls(pendingWatchers) && r.mode == Gate.Write
      modifies `activeReaders, `activeWriter, `queue, `unreleased, `granted, `activityEpoch, `pendingWatchers, `answers
      ensures DistinctCalls(pendingWatchers)
      ensures GateNow() == Gate.Release(old(GateNow()), r)
      ensures r !in old(unreleased) ==>
        activityEpoch == old(activityEpoch) && pendingWatchers == old(pendingWatchers) && answers == old(answers)
      ensures r in old(unreleased) ==>
        && activityEpoch == old(activityEpoch) + 1
        && pendingWatchers == StillParked(old(pendingWatchers), revision)
        && answers == old(answers) + WokenAnswers(ViewNow(), old(pendingWatchers))
    {
      if r !in unreleased { return; }
      unreleased := unreleased - {r};
      activityEpoch := activityEpoch + 1;
      activeWriter := false;
      NotifyWatchers();
      Drain();
    }

    // ---- the feed ----------------------------------------------------------

    method RecordPublication(e: Published)
      modifies `publicationHistory, `publicationHistoryFloor, `log
      ensures History(publicationHistory, publicationHistoryFloor)
           == Record(History(old(publicationHistory), old(publicationHistoryFloor)), e)
      ensures log == old(log) + [e]
    {
      publicationHistory := publicationHistory + [e];
      ghost var grown := publicationHistory;
      ghost var shifted := 0;
      while |publicationHistory| > PUBLICATION_HISTORY_LIMIT
        invariant 0 <= shifted <= |grown| && publicationHistory == grown[shifted..] && log == old(log)
        invariant shifted == 0 || |publicationHistory| >= PUBLICATION_HISTORY_LIMIT
        invariant publicationHistoryFloor ==
          if shifted == 0 then old(publicationHistoryFloor) else grown[shifted - 1].revision
        decreases |publicationHistory|
      {
        publicationHistoryFloor := publicationHistory[0].revision;
        publicationHistory := publicationHistory[1..];
        shifted := shifted + 1;
      }
      log := log + [e];
    }

    method PathsPublishedSince(since: int) returns (affected: Option<Affected>)
      ensures affected == Since(History(publicationHistory, publicationHistoryFloor), since)
    {
      if |publicationHistory| == 0 || since < publicationHistoryFloor { return None; }
      affected := UnionSince(publicationHistory, since);
    }

    /** Union the entries after `since`, giving up as soon as a cap is passed. */
    static method UnionSince(entries: seq<Published>, since: int) returns (affected: Option<Affected>)
      ensures affected == Capped(PathUnion(entries, since), SubtreeUnion(entries, since))
    {
      var union, subtrees: seq<Path> := [], [];
      assert entries[..|entries|] == entries;
      for i := 0 to |entries|
        invariant union == PathUnion(entries[..i], since) && |union| <= WATCH_PATHS_LIMIT
        invariant subtrees == SubtreeUnion(entries[..i], since) && |subtrees| <= WATCH_PATHS_LIMIT
      {
        var over;
        union, subtrees, over := UnionEntry(entries, i, since, union, subtrees);
        UnionsGrow(entries, i + 1, since);
        if over { return None; }
      }
      return Some(Affected(union, subtrees));
    }

    /** One round of the outer loop. */
    static method UnionEntry(entries: seq<Published>, i: nat, since: int, union: seq<Path>, subtrees: seq<Path>)
        returns (union': seq<Path>, subtrees': seq<Path>, over: bool)
      requires i < |entries|
      requires union == PathUnion(entries[..i], since) && |union| <= WATCH_PATHS_LIMIT
      requires subtrees == SubtreeUnion(entries[..i], since) && |subtrees| <= WATCH_PATHS_LIMIT
      ensures over <==>
        Capped(PathUnion(entries[..i + 1], since), SubtreeUnion(entries[..i + 1], since)).None?
      ensures !over ==>
        union' == PathUnion(entries[..i + 1], since) && subtrees' == SubtreeUnion(entries[..i + 1], since)
    {
      var entry := entries[i];
      AfterPrefix(entries, i, since);
      if entry.revision <= since {
        assert PathsAfter(entries[..i], since) + [] == PathsAfter(entries[..i], since);
        assert SubtreesAfter(entries[..i], since) + [] == SubtreesAfter(entries[..i], since);
        return union, subtrees, false;
      }
      union', over := Absorb(union, PathsAfter(entries[..i], since), entry.paths);
      subtrees' := subtrees;
      if over { return; }
      subtrees', over := Absorb(subtrees, SubtreesAfter(entries[..i], since), entry.subtrees);
    }

    /** The inner loop of the union: `seen` holds the first occurrences of `before`. */
    static method Absorb(seen: seq<Path>, ghost before: seq<Path>, more: seq<Path>) returns (out: seq<Path>, over: bool)
      requires seen == Dedup(before) && |seen| <= WATCH_PATHS_LIMIT
      ensures over <==> |Dedup(before + more)| > WATCH_PATHS_LIMIT
      ensures !over ==> out == Dedup(before + more)
    {
      out := seen;
      assert before + more[..0] == before && more[..|more|] == more;
      ghost var taken := before;
      for j := 0 to |more|
        invariant taken == before + more[..j]
        invariant out == Dedup(taken) && |out| <= WATCH_PATHS_LIMIT
      {
        taken := DedupPrefix(before, more, j, taken);
        if more[j] in out { continue; }
        out := out + [more[j]];
        if |out| > WATCH_PATHS_LIMIT { return out, true; }
      }
      over := false;
    }

    // ---- watchers ----------------------------------------------------------

    method WatchResult(revision: int, since: int) returns (affected: Option<Affected>)
      ensures affected == Coordinator.WatchResult(History(publicationHistory, publicationHistoryFloor), revision, since)
    {
      if revision <= since { return Some(Affected([], [])); }
      affected := PathsPublishedSince(since);
    }

    /** Settle the parked watcher at `index` and take it out of the list. */
    method Settle(index: nat, cause: Cause)
      requires index < |pendingWatchers|
      modifies `pendingWatchers, `answers
      ensures pendingWatchers == old(pendingWatchers)[..index] + old(pendingWatchers)[index + 1..]
      ensures answers == old(answers) + [Settled(ViewNow(), old(pendingWatchers)[index], cause)]
    {
      var w := pendingWatchers[index];
      pendingWatchers := pendingWatchers[..index] + pendingWatchers[index + 1..];
      var affected := WatchResult(revision, w.since);
      answers := answers + [Answer(w.call, w.since, revision, affected, cause, |log|)];
    }

    /** Wake every watcher the revision has passed, over a snapshot of the list. */
    method NotifyWatchers()
      requires DistinctCalls(pendingWatchers)
      modifies `pendingWatchers, `answers
      ensures pendingWatchers == StillParked(old(pendingWatchers), revision)
      ensures answers == old(answers) + WokenAnswers(ViewNow(), old(pendingWatchers))
      ensures DistinctCalls(pendingWatchers)
    {
      var snapshot := pendingWatchers;
      ghost var v := ViewNow();
      ghost var kept: seq<Parked>, woken: seq<Answer> := [], [];
      for i := 0 to |snapshot|
        invariant kept == StillParked(snapshot[..i], v.revision) && woken == WokenAnswers(v, snapshot[..i])
        invariant pendingWatchers == kept + snapshot[i..] && answers == old(answers) + woken
        invariant DistinctCalls(pendingWatchers)
      {
        ghost var rest, answer := SnapshotAt(v, snapshot, i);
        WakeIfDue(snapshot[i], kept, rest, answer);
        kept, woken := WakePrefix(v, snapshot, i, kept, woken, old(answers), answer);
      }
      assert snapshot[..|snapshot|] == snapshot;
    }

    /** One turn over the snapshot: `w` is settled, or stays where it is. */
    method WakeIfDue(w: Parked, ghost kept: seq<Parked>, ghost rest: seq<Parked>, ghost answer: Answer)
      requires DistinctCalls(pendingWatchers) && pendingWatchers == kept + ([w] + rest)
      requires answer == Settled(ViewNow(), w, Woken)
      modifies `pendingWatchers, `answers
      ensures pendingWatchers == if w.since < revision then kept + rest else (kept + [w]) + rest
      ensures answers == if w.since < revision then old(answers) + [answer] else old(answers)
      ensures DistinctCalls(pendingWatchers)
    {
      assert (kept + [w]) + rest == kept + ([w] + rest);
      if w.since < revision { Wake(w, |kept|); }
    }

    /** Settle one watcher of the snapshot, wherever it now stands in the list. */
    method Wake(w: Parked, ghost at: nat)
      requires DistinctCalls(pendingWatchers) && at < |pendingWatchers| && pendingWatchers[at] == w
      modifies `pendingWatchers, `answers
      ensures pendingWatchers == old(pendingWatchers)[..at] + old(pendingWatchers)[at + 1..]
      ensures answers == old(answers) + [Settled(ViewNow(), w, Woken)]
      ensures DistinctCalls(pendingWatchers)
    {
      IndexOfDistinctCall(pendingWatchers, at);
      RemovalKeepsCallsDistinct(pendingWatchers, at);
      Settle(IndexOfCall(pendingWatchers, w.call), Woken);
    }

    /** Start a long poll: count it as an ack, then answer or park. */
    method Watch(call: nat, since: int, timeoutMs: int, watcherId: string, clock: int, ackClocks: seq<int>)
      requires Valid() && Enabled(Abs(), Event.Watch(call, since, timeoutMs, watcherId, clock, ackClocks))
      modifies this
      ensures Valid()
      ensures Abs() == Next(cfg, old(Abs()), Event.Watch(call, since, timeoutMs, watcherId, clock, ackClocks))
    {
      RecordWatcherAck(watcherId, since, timeoutMs, clock, ackClocks);
      if revision > since {
        var affected := WatchResult(revision, since);
        answers := answers + [Answer(call, since, revision, affected, FastPath, |log|)];
      } else {
        PushKeepsCallsDistinct(pendingWatchers, Parked(call, since));
        pendingWatchers := pendingWatchers + [Parked(call, since)];
      }
    }

    /** A parked watcher's own timer. */
    method WatchTimeout(call: nat)
      requires Valid()
      modifies this
      ensures Valid() && Abs() == Next(cfg, old(Abs()), Event.WatchTimeout(call))
    {
      var index := IndexOfCall(pendingWatchers, call);
      if index < |pendingWatchers| {
        RemovalKeepsCallsDistinct(pendingWatchers, index);
        Settle(index, TimedOut);
      }
    }

    // ---- acks --------------------------------------------------------------

    /** Drop expired watchers, then count those behind `revision`. */
    method UnackedWatchers(target: int, now: int) returns (laggards: nat)
      modifies `watcherAcks
      ensures watcherAcks == Pruned(old(watcherAcks), now)
      ensures laggards == |set id | id in watcherAcks && watcherAcks[id].acked < target|
      ensures laggards == 0 <==> !Lags(watcherAcks, target)
    {
      DropExpired(now);
      ghost var counted;
      laggards, counted := CountLaggards(target);
      if Lags(watcherAcks, target) {
        var id :| id in watcherAcks && watcherAcks[id].acked < target;
        assert id in counted;
      }
    }

    method DropExpired(now: int)
      modifies `watcherAcks
      ensures watcherAcks == Pruned(old(watcherAcks), now)
    {
      var before := watcherAcks;
      var todo := before.Keys;
      while todo != {}
        invariant todo <= before.Keys
        invariant watcherAcks == map id | id in before && (id in todo || before[id].expiresAt > now) :: before[id]
        decreases todo
      {
        var id :| id in todo;
        if before[id].expiresAt <= now { watcherAcks := watcherAcks - {id}; }
        todo := todo - {id};
      }
    }

    method CountLaggards(target: int) returns (laggards: nat, ghost counted: set<string>)
      ensures counted == set id | id in watcherAcks && watcherAcks[id].acked < target
      ensures laggards == |counted|
    {
      var todo := watcherAcks.Keys;
      laggards, counted := 0, {};
      while todo != {}
        invariant todo <= watcherAcks.Keys
        invariant counted == set id | id in watcherAcks && id !in todo && watcherAcks[id].acked < target
        invariant laggards == |counted|
        decreases todo
      {
        var id :| id in todo;
        if watcherAcks[id].acked < target {
          laggards := laggards + 1;
          counted := counted + {id};
        }
        todo := todo - {id};
      }
    }

    /** Release every waiting mutation whose revision is now fully acked. */
    method NotifyAckWaiters(clocks: seq<int>)
      requires |clocks| == |pendingAckWaiters| && DistinctMutations(pendingAckWaiters)
      modifies `watcherAcks, `pendingAckWaiters, `delivered
      ensures var (acks, waiting, done) := Acked(old(watcherAcks), old(pendingAckWaiters), clocks);
        watcherAcks == acks && pendingAckWaiters == waiting && delivered == old(delivered) + done
      ensures DistinctMutations(pendingAckWaiters)
    {
      var snapshot := pendingAckWaiters;
      ghost var acks := watcherAcks;
      ghost var live, still: seq<Waiting>, done: seq<Delivered> := acks, [], [];
      for i := 0 to |snapshot|
        invariant (live, still, done) == Acked(acks, snapshot[..i], clocks[..i])
        invariant watcherAcks == live && pendingAckWaiters == still + snapshot[i..]
        invariant delivered == old(delivered) + done
        invariant DistinctMutations(pendingAckWaiters)
      {
        AckedPrefix(acks, snapshot, clocks, i);
        Reexamine(snapshot[i], clocks[i], still, snapshot[i + 1..]);
        ghost var next := Acked(acks, snapshot[..i + 1], clocks[..i + 1]);
        live, still, done := next.0, next.1, next.2;
      }
      assert snapshot[..|snapshot|] == snapshot && clocks[..|snapshot|] == clocks;
    }

    /** One turn over the snapshot: `w` is answered unless somebody lags behind it. */
    method Reexamine(w: Waiting, clock: int, ghost kept: seq<Waiting>, ghost rest: seq<Waiting>)
      requires DistinctMutations(pendingAckWaiters) && pendingAckWaiters == kept + ([w] + rest)
      modifies `watcherAcks, `pendingAckWaiters, `delivered
      ensures watcherAcks == Pruned(old(watcherAcks), clock)
      ensures Lags(watcherAcks, w.revision) ==>
        pendingAckWaiters == (kept + [w]) + rest && delivered == old(delivered)
      ensures !Lags(watcherAcks, w.revision) ==>
        && pendingAckWaiters == kept + rest
        && delivered == old(delivered) + [Delivered(w.mutation, w.revision, AllAcked)]
      ensures DistinctMutations(pendingAckWaiters)
    {
      var laggards := UnackedWatchers(w.revision, clock);
      assert (kept + [w]) + rest == kept + ([w] + rest);
      if laggards == 0 {
        IndexOfDistinctMutation(pendingAckWaiters, |kept|);
        RemovalKeepsMutationsDistinct(pendingAckWaiters, |kept|);
        SettleAck(IndexOfMutation(pendingAckWaiters, w.mutation), AllAcked);
      }
    }

    /** Deliver the response waiting at `index` and take it out of the list. */
    method SettleAck(index: nat, why: Why)
      requires index < |pendingAckWaiters|
      modifies `pendingAckWaiters, `delivered
      ensures pendingAckWaiters == old(pendingAckWaiters)[..index] + old(pendingAckWaiters)[index + 1..]
      ensures var w := old(pendingAckWaiters)[index];
        delivered == old(delivered) + [Delivered(w.mutation, w.revision, why)]
    {
      var w := pendingAckWaiters[index];
      pendingAckWaiters := pendingAckWaiters[..index] + pendingAckWaiters[index + 1..];
      delivered := delivered + [Delivered(w.mutation, w.revision, why)];
    }

    method RecordWatcherAck(watcherId: string, since: int, timeoutMs: int, clock: int, ackClocks: seq<int>)
      requires |ackClocks| == |pendingAckWaiters| && DistinctMutations(pendingAckWaiters)
      modifies `watcherAcks, `pendingAckWaiters, `delivered
      ensures Abs() == RecordAck(cfg, old(Abs()), watcherId, since, timeoutMs, clock, ackClocks)
      ensures DistinctMutations(pendingAckWaiters)
    {
      if watcherId == "" { return; }
      watcherAcks := Registered(cfg, watcherAcks, watcherId, since, timeoutMs, clock);
      NotifyAckWaiters(ackClocks);
    }

    /** Answer the mutation at once, or leave it waiting for its laggards. */
    method AwaitPublicationAcks(mutation: nat, clock: int)
      requires DistinctMutations(pendingAckWaiters)
      requires forall i :: 0 <= i < |pendingAckWaiters| ==> pendingAckWaiters[i].mutation != mutation
      modifies `watcherAcks, `pendingAckWaiters, `delivered
      ensures Abs() == AwaitAcks(cfg, old(Abs()), mutation, clock)
      ensures DistinctMutations(pendingAckWaiters)
    {
      var laggards := UnackedWatchers(revision, clock);
      if laggards == 0 {
        delivered := delivered + [Delivered(mutation, revision, AllAcked)];
      } else if cfg.ackCap <= 0 {
        delivered := delivered + [Delivered(mutation, revision, CapNotPositive)];
      } else {
        PushKeepsMutationsDistinct(pendingAckWaiters, Waiting(mutation, revision));
        pendingAckWaiters := pendingAckWaiters + [Waiting(mutation, revision)];
      }
    }

    /** A waiting mutation's cap timer: answer it whoever still lags. */
    method AckTimeout(mutation: nat, clock: int)
      requires Valid()
      modifies `watcherAcks, `pendingAckWaiters, `delivered
      ensures Valid() && Abs() == Next(cfg, old(Abs()), Event.AckTimeout(mutation, clock))
    {
      var index := IndexOfMutation(pendingAckWaiters, mutation);
      if index == |pendingAckWaiters| { return; }
      var w := pendingAckWaiters[index];
      var laggards := UnackedWatchers(w.revision, clock);
      RemovalKeepsMutationsDistinct(pendingAckWaiters, index);
      SettleAck(index, CapElapsed);
    }

    // ---- transactions ------------------------------------------------------

    /** `transact` from the moment a mutating transaction returns. */
    method Commit(r: Gate.Request, paths: seq<Path>, subtrees: seq<Path>, clock: int, ackClock: int)
      requires Valid() && r.mode == Gate.Write && r in unreleased
      requires forall i :: 0 <= i < |pendingAckWaiters| ==> pendingAckWaiters[i].mutation != r.ticket
      modifies this
      ensures Valid() && Abs() == Next(cfg, old(Abs()), Event.Commit(r, paths, subtrees, clock, ackClock))
    {
      PublishNow(paths, subtrees, clock);
      EndTurn(r);
      AwaitPublicationAcks(r.ticket, ackClock);
    }

    method PublishNow(paths: seq<Path>, subtrees: seq<Path>, clock: int)
      modifies `revision, `publicationHistory, `publicationHistoryFloor, `log
      ensures Abs() == Publish(old(Abs()), paths, subtrees, clock)
    {
      revision := Max(revision + 1, clock * 1_000);
      RecordPublication(Published(revision, Dedup(paths), Dedup(subtrees)));
    }

    method EndTurn(r: Gate.Request)
      requires DistinctCalls(pendingWatchers) && r.mode == Gate.Write && r in unreleased
      modifies `activeReaders, `activeWriter, `queue, `unreleased, `granted, `activityEpoch, `pendingWatchers, `answers
      ensures DistinctCalls(pendingWatchers)
      ensures Abs() == Coordinator.ReleaseWriter(old(Abs()), r)
    {
      ReleaseWriter(r);
    }

    /** `transact` when the transaction changed nothing or failed. */
    method Abandon(r: Gate.Request)
      requires Valid() && r.mode == Gate.Write && r in unreleased
      modifies this
      ensures Valid() && Abs() == Next(cfg, old(Abs()), Event.Abandon(r))
    {
      EndTurn(r);
    }
  }
}
