/** The publication coordinator's readers/writer gate: two counters and a FIFO
    queue, with the release closures it has handed out. */
module ReadersWriter {

  datatype Mode = Read | Write

  /** One call of `acquire`; the ticket tells calls apart. */
  datatype Request = Request(ticket: nat, mode: Mode)

  /** `activeReaders`, `activeWriter` and `queue` are the source's fields.
      `granted` is the order in which acquire promises resolved, and `holders`
      the requests whose release closure has not run yet. */
  datatype Gate = Gate(activeReaders: nat, activeWriter: bool, queue: seq<Request>,
                       granted: seq<Request>, holders: set<Request>)

  const OPEN := Gate(0, false, [], [], {})

  predicate WriterQueued(queue: seq<Request>) {
    exists i :: 0 <= i < |queue| && queue[i].mode == Write
  }

  function LeadingReaders(queue: seq<Request>): (n: nat)
    ensures n <= |queue|
    ensures forall i :: 0 <= i < n ==> queue[i].mode == Read
    ensures n < |queue| ==> queue[n].mode == Write
  {
    if queue == [] || queue[0].mode == Write then 0
    else
      var rest := LeadingReaders(queue[1..]);
      assert queue[0].mode == Read;
      assert forall i :: 1 <= i < 1 + rest ==> queue[i] == queue[1..][i - 1];
      1 + rest
  }

  function Grant(g: Gate, batch: seq<Request>): Gate {
    g.(granted := g.granted + batch, holders := g.holders + set r | r in batch)
  }

  /** Hand the free gate to the head of the queue: one writer, or every reader
      before the next writer. */
  function Drain(g: Gate): Gate {
    if g.activeWriter || g.activeReaders != 0 || g.queue == [] then g
    else if g.queue[0].mode == Write then
      Grant(g, g.queue[..1]).(activeWriter := true, queue := g.queue[1..])
    else
      var n := LeadingReaders(g.queue);
      Grant(g, g.queue[..n]).(activeReaders := n, queue := g.queue[n..])
  }

  function Acquire(g: Gate, r: Request): Gate {
    if r.mode == Read && !g.activeWriter && !WriterQueued(g.queue) then
      Grant(g, [r]).(activeReaders := g.activeReaders + 1)
    else if r.mode == Write && !g.activeWriter && g.activeReaders == 0 && g.queue == [] then
      Grant(g, [r]).(activeWriter := true)
    else g.(queue := g.queue + [r])
  }

  /** Running a release closure; a second run finds its flag set and does nothing. */
  function Release(g: Gate, r: Request): Gate {
    if r !in g.holders then g
    else
      var freed := g.(holders := g.holders - {r});
      if r.mode == Write then Drain(freed.(activeWriter := false))
      else if g.activeReaders > 0 then Drain(freed.(activeReaders := g.activeReaders - 1))
      else freed
  }

  // ---- runs ----------------------------------------------------------------

  datatype Event = Asked(request: Request) | Released(request: Request)

  function Next(g: Gate, e: Event): Gate {
    match e case Asked(r) => Acquire(g, r) case Released(r) => Release(g, r)
  }

  function Run(g: Gate, events: seq<Event>): Gate
    decreases |events|
  {
    if events == [] then g else Run(Next(g, events[0]), events[1..])
  }

  /** The acquire calls among `events`, in call order. */
  function Requests(events: seq<Event>): seq<Request> {
    if events == [] then []
    else (match events[0] case Asked(r) => [r] case Released(_) => []) + Requests(events[1..])
  }

  ghost predicate Distinct(rs: seq<Request>) {
    forall i, j :: 0 <= i < j < |rs| ==> rs[i] != rs[j]
  }

  /** `asked` is the list of all requests ever made, in order. */
  ghost predicate Inv(g: Gate, asked: seq<Request>) {
    && g.granted + g.queue == asked
    && Distinct(asked)
    && (forall r :: r in g.holders ==> r in g.granted)
    && (g.activeWriter ==> g.activeReaders == 0 && exists w: Request :: g.holders == {w} && w.mode == Write)
    && (!g.activeWriter ==> |g.holders| == g.activeReaders && forall r :: r in g.holders ==> r.mode == Read)
    && (g.queue != [] && !g.activeWriter ==> g.activeReaders > 0 && g.queue[0].mode == Write)
  }

  lemma {:induction false} BatchSize(batch: seq<Request>)
    requires Distinct(batch)
    ensures |set r | r in batch| == |batch|
  {
    if batch != [] {
      var init, last := batch[..|batch| - 1], batch[|batch| - 1];
      BatchSize(init);
      assert last !in init;
      assert (set r | r in batch) == (set r | r in init) + {last};
    }
  }

  /** The gate the moment it is freed: counters are zero, the queue may be long. */
  ghost predicate Freed(g: Gate, asked: seq<Request>) {
    && g.granted + g.queue == asked && Distinct(asked)
    && !g.activeWriter && g.activeReaders == 0 && g.holders == {}
  }

  lemma DistinctBatch(before: seq<Request>, batch: seq<Request>, after: seq<Request>)
    requires Distinct(before + batch + after)
    ensures Distinct(batch)
  {
    var all := before + batch + after;
    assert forall i :: 0 <= i < |batch| ==> all[|before| + i] == batch[i];
  }

  /** What `Drain` grants to the head of a queue. */
  function HeadBatch(queue: seq<Request>): (n: nat)
    requires queue != []
    ensures 1 <= n <= |queue|
  {
    if queue[0].mode == Write then 1 else LeadingReaders(queue)
  }

  /** A free gate granted the head of its queue. */
  lemma BatchGranted(g: Gate, asked: seq<Request>, n: nat)
    requires Freed(g, asked) && g.queue != [] && n == HeadBatch(g.queue)
    ensures var d := Drain(g); var batch := g.queue[..n];
      && d.granted == g.granted + batch && d.queue == g.queue[n..]
      && d.granted + d.queue == asked
      && d.holders == (set r | r in batch) && |d.holders| == n
  {
    var batch, after := g.queue[..n], g.queue[n..];
    assert g.queue == batch + after;
    assert asked == g.granted + batch + after;
    DistinctBatch(g.granted, batch, after);
    BatchSize(batch);
    assert {} + (set r | r in batch) == (set r | r in batch);
  }

  lemma DrainFromFree(g: Gate, asked: seq<Request>)
    requires Freed(g, asked)
    ensures Inv(Drain(g), asked)
    ensures |Drain(g).holders| + |Drain(g).queue| == |g.queue|
    ensures |Drain(g).granted| == |g.granted| + |Drain(g).holders|
  {
    if g.queue != [] {
      var n := HeadBatch(g.queue);
      BatchGranted(g, asked, n);
      var d := Drain(g);
      if d.activeWriter {
        assert g.queue[..1] == [g.queue[0]];
        assert d.holders == {g.queue[0]};
      }
    }
  }

  /** A fast-path read overtakes nobody: it only succeeds on an empty queue. */
  lemma FastReadMeansEmptyQueue(g: Gate, asked: seq<Request>)
    requires Inv(g, asked) && !g.activeWriter && !WriterQueued(g.queue)
    ensures g.queue == []
  {
  }

  lemma DistinctPush(asked: seq<Request>, r: Request)
    requires Distinct(asked) && r !in asked
    ensures Distinct(asked + [r])
  {
  }

  lemma ReadKeepsInv(g: Gate, r: Request, asked: seq<Request>)
    requires Inv(g, asked) && r !in asked && g.queue == [] && !g.activeWriter && r.mode == Read
    ensures Inv(Gate(g.activeReaders + 1, false, [], asked + [r], g.holders + {r}), asked + [r])
  {
    DistinctPush(asked, r);
    assert g.granted == asked;
    assert r !in g.holders;
    assert asked + [r] + [] == asked + [r];
  }

  lemma WriteKeepsInv(g: Gate, r: Request, asked: seq<Request>)
    requires Inv(g, asked) && r !in asked && g.queue == [] && !g.activeWriter && g.activeReaders == 0 && r.mode == Write
    ensures Inv(Gate(0, true, [], asked + [r], g.holders + {r}), asked + [r])
  {
    DistinctPush(asked, r);
    assert g.holders + {r} == {r};
    assert asked + [r] + [] == asked + [r];
  }

  lemma GrantOne(g: Gate, r: Request, asked: seq<Request>)
    requires g.granted + g.queue == asked && g.queue == []
    ensures Grant(g, [r]) == g.(granted := asked + [r], holders := g.holders + {r})
  {
    assert g.granted == asked;
    assert (set x | x in [r]) == {r};
  }

  lemma QueueKeepsInv(g: Gate, r: Request, asked: seq<Request>)
    requires Inv(g, asked) && r !in asked
    requires g.activeWriter || g.queue != [] || (r.mode == Write && g.activeReaders > 0)
    ensures Inv(g.(queue := g.queue + [r]), asked + [r])
  {
    DistinctPush(asked, r);
    assert g.granted + (g.queue + [r]) == asked + [r];
  }

  lemma AcquireKeepsInv(g: Gate, r: Request, asked: seq<Request>)
    requires Inv(g, asked) && r !in asked
    ensures Inv(Acquire(g, r), asked + [r])
  {
    if r.mode == Read && !g.activeWriter && !WriterQueued(g.queue) {
      FastReadMeansEmptyQueue(g, asked);
      GrantOne(g, r, asked);
      ReadKeepsInv(g, r, asked);
    } else if r.mode == Write && !g.activeWriter && g.activeReaders == 0 && g.queue == [] {
      GrantOne(g, r, asked);
      WriteKeepsInv(g, r, asked);
    } else {
      QueueKeepsInv(g, r, asked);
    }
  }

  lemma ReleaseKeepsInv(g: Gate, r: Request, asked: seq<Request>)
    requires Inv(g, asked)
    ensures Inv(Release(g, r), asked)
    ensures r in g.holders ==>
      |Release(g, r).holders| + |Release(g, r).queue| == |g.holders| + |g.queue| - 1
  {
    if r in g.holders {
      var freed := g.(holders := g.holders - {r});
      if g.activeWriter {
        assert freed.holders == {};
        DrainFromFree(freed.(activeWriter := false), asked);
      } else {
        assert r.mode == Read;
        var f := freed.(activeReaders := g.activeReaders - 1);
        assert |f.holders| == f.activeReaders;
        if f.activeReaders == 0 { DrainFromFree(f, asked); }
      }
    }
  }

  lemma {:induction false} RunKeepsInv(g: Gate, events: seq<Event>, asked: seq<Request>)
    requires Inv(g, asked)
    requires Distinct(asked + Requests(events))
    ensures Inv(Run(g, events), asked + Requests(events))
    decreases |events|
  {
    if events == [] {
      assert asked + Requests(events) == asked;
    } else {
      var all := asked + Requests(events);
      match events[0]
      case Asked(r) =>
        assert asked + ([r] + Requests(events[1..])) == (asked + [r]) + Requests(events[1..]);
        assert r !in asked by {
          assert all[|asked|] == r;
          assert forall i :: 0 <= i < |asked| ==> all[i] == asked[i];
        }
        AcquireKeepsInv(g, r, asked);
        RunKeepsInv(Next(g, events[0]), events[1..], asked + [r]);
      case Released(r) =>
        assert Requests(events) == Requests(events[1..]);
        ReleaseKeepsInv(g, r, asked);
        RunKeepsInv(Next(g, events[0]), events[1..], asked);
    }
  }

  /** Over every run: the grants so far followed by the queue are exactly the
      requests in call order, so nobody is ever overtaken; a writer holds the
      gate alone; somebody holds the gate whenever somebody waits; and a reader at the
      head of the queue waits for a writer, never for other readers. */
  lemma GateIsFifoAndExclusive(events: seq<Event>)
    requires Distinct(Requests(events))
    ensures var g := Run(OPEN, events);
      && g.granted + g.queue == Requests(events)
      && (forall a, b :: a in g.holders && b in g.holders && a.mode == Write ==> a == b)
      && (g.queue != [] ==> g.holders != {})
      && (g.queue != [] && g.queue[0].mode == Read ==> g.activeWriter)
      && |g.holders| == g.activeReaders + (if g.activeWriter then 1 else 0)
      && (g.activeWriter <==> exists w :: w in g.holders && w.mode == Write)
  {
    assert [] + Requests(events) == Requests(events);
    RunKeepsInv(OPEN, events, []);
    var g := Run(OPEN, events);
    if g.activeWriter {
      var w: Request :| g.holders == {w} && w.mode == Write;
      assert w in g.holders;
    }
  }

  // ---- bounded waiting -----------------------------------------------------

  /** How many of the release calls in a run actually released something. */
  function EffectiveReleases(g: Gate, events: seq<Event>): nat
    decreases |events|
  {
    if events == [] then 0
    else (if events[0].Released? && events[0].request in g.holders then 1 else 0)
         + EffectiveReleases(Next(g, events[0]), events[1..])
  }

  lemma {:induction false} GrantedStays(g: Gate, events: seq<Event>, r: Request)
    requires r in g.granted
    ensures r in Run(g, events).granted
    decreases |events|
  {
    if events != [] { GrantedStays(Next(g, events[0]), events[1..], r); }
  }

  /** A request queued behind `k` others while `h` requests hold the gate is
      granted by the time `h + k` releases have happened, whatever else arrives. */
  lemma {:induction false} GrantedWithinHoldersAndQueue(
      g: Gate, events: seq<Event>, asked: seq<Request>, k: nat)
    requires Inv(g, asked) && Distinct(asked + Requests(events))
    requires k < |g.queue|
    requires EffectiveReleases(g, events) >= |g.holders| + k
    ensures g.queue[k] in Run(g, events).granted
    decreases |events|
  {
    var r := g.queue[k];
    if events != [] {
      var d := Next(g, events[0]);
      match events[0]
      case Asked(q) =>
        var all := asked + Requests(events);
        assert asked + ([q] + Requests(events[1..])) == (asked + [q]) + Requests(events[1..]);
        assert q !in asked by {
          assert all[|asked|] == q;
          assert forall i :: 0 <= i < |asked| ==> all[i] == asked[i];
        }
        AcquireKeepsInv(g, q, asked);
        if q.mode == Read && !g.activeWriter && !WriterQueued(g.queue) { FastReadMeansEmptyQueue(g, asked); }
        GrantedWithinHoldersAndQueue(d, events[1..], asked + [q], k);
      case Released(q) =>
        assert Requests(events) == Requests(events[1..]);
        ReleaseKeepsInv(g, q, asked);
        // The queue only ever loses its head, so `r` has moved up by what was granted.
        var moved := |g.queue| - |d.queue|;
        assert asked[|g.granted| + k] == r;
        assert |d.granted| == |g.granted| + moved;
        if k < moved {
          assert d.granted[|g.granted| + k] == r;
          GrantedStays(d, events[1..], r);
        } else {
          assert d.queue[k - moved] == r;
          GrantedWithinHoldersAndQueue(d, events[1..], asked, k - moved);
        }
    }
  }
}
