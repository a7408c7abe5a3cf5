/** End-to-end cache coherence: watchers that revoke exactly what the feed tells them
    never keep an entry that disagrees with the store at the revision they were told. */
module Coherence {
  import opened Prelude
  import opened Paths
  import opened PublicationFeed
  import opened Coordinator
  import opened CoordinatorRuns
  import opened Namespace
  import opened Mutations
  import opened Containment
  import opened DirectoryTimes
  import opened Writes
  import opened OptimisticReads

  // ---- batches -------------------------------------------------------------

  /** What stays unnoticed by clients that look at whole listings, when `full`, or
      at everything but the bookkeeping of listed subdirectories. */
  ghost predicate Unnoticed(full: bool, s: Store, t: Store, cov: iset<Path>) {
    if full then KeptFully(s, t, cov) else Kept(s, t, cov)
  }

  predicate Readable(full: bool, k: Key) {
    k.FullListOf? ==> full
  }

  /** Every mutation of the batch is contained in `cov` when its turn comes. */
  ghost predicate ContainedBatch(full: bool, s: Store, ms: seq<Mutation>, env: Env, cov: iset<Path>)
    decreases |ms|
  {
    ms == [] ||
    (&& Mutations.WellFormed(ms[0]) && Contained(s, ms[0], env, cov) && (full ==> StampsCovered(s, ms[0], env, cov))
     && (Apply(s, ms[0], env).Some? ==> ContainedBatch(full, Apply(s, ms[0], env).value, ms[1..], env, cov)))
  }

  lemma MutationUnnoticed(full: bool, s: Store, m: Mutation, env: Env, cov: iset<Path>)
    requires Namespace.Valid(s) && Mutations.WellFormed(m) && Apply(s, m, env).Some? && Reported(m, cov)
    requires Contained(s, m, env, cov) && (full ==> StampsCovered(s, m, env, cov))
    ensures Namespace.Valid(Apply(s, m, env).value) && Unnoticed(full, s, Apply(s, m, env).value, cov)
  {
    KeptIffContained(s, m, env, cov);
    if full { KeptFullyIffContained(s, m, env, cov); }
  }

  lemma UnnoticedTwice(full: bool, s: Store, t: Store, u: Store, cov: iset<Path>)
    requires Unnoticed(full, s, t, cov) && Unnoticed(full, t, u, cov)
    ensures Unnoticed(full, s, u, cov)
  {
  }

  lemma {:induction false} BatchKept(full: bool, s: Store, ms: seq<Mutation>, env: Env, cov: iset<Path>)
    requires Namespace.Valid(s) && ApplyAll(s, ms, env).Some? && ContainedBatch(full, s, ms, env, cov)
    requires forall i :: 0 <= i < |ms| ==> Reported(ms[i], cov)
    ensures Namespace.Valid(ApplyAll(s, ms, env).value) && Unnoticed(full, s, ApplyAll(s, ms, env).value, cov)
    decreases |ms|
  {
    if ms != [] {
      var t := Apply(s, ms[0], env).value;
      MutationUnnoticed(full, s, ms[0], env, cov);
      BatchKept(full, t, ms[1..], env, cov);
      UnnoticedTwice(full, s, t, ApplyAll(t, ms[1..], env).value, cov);
    }
  }

  // ---- publications --------------------------------------------------------

  /** What a transaction publishes: a batch of namespace mutations, or file writes. */
  datatype Change =
    | Batch(mutations: seq<Mutation>, env: Env)
    | Writing(writes: seq<Write>, now: int, digest: string -> string)

  function ApplyChange(s: Store, c: Change): Option<Store> {
    match c
    case Batch(ms, env) => ApplyAll(s, ms, env)
    case Writing(ws, now, _) => ApplyWrites(s, ws, now)
  }

  /** The paths and subtrees the gateway computes for it. */
  function ReportOf(s: Store, c: Change): Affected {
    match c
    case Batch(ms, _) => Report(ms)
    case Writing(ws, _, digest) => WritesReport(s, ws, digest)
  }

  /** The change is contained in its own report. */
  ghost predicate ContainedChange(full: bool, s: Store, c: Change) {
    match c
    case Batch(ms, env) => ContainedBatch(full, s, ms, env, Cover(Report(ms)))
    case Writing(ws, now, digest) =>
      && WellFormedWrites(ws) && WritesContained(s, ws, now, Cover(WritesReport(s, ws, digest)))
      && (full ==> FreshenedListed(s, ws, now, Cover(WritesReport(s, ws, digest))))
  }

  lemma WritesUnnoticed(full: bool, s: Store, ws: seq<Write>, now: int, cov: iset<Path>)
    requires Namespace.Valid(s) && WellFormedWrites(ws) && ApplyWrites(s, ws, now).Some?
    requires WritesContained(s, ws, now, cov) && (full ==> FreshenedListed(s, ws, now, cov))
    ensures Namespace.Valid(ApplyWrites(s, ws, now).value) && Unnoticed(full, s, ApplyWrites(s, ws, now).value, cov)
  {
    WritesKeptIffContained(s, ws, now, cov);
    if full { WritesKeptFullyIffContained(s, ws, now, cov); }
  }

  lemma BatchUnnoticed(full: bool, s: Store, ms: seq<Mutation>, env: Env)
    requires Namespace.Valid(s) && ApplyAll(s, ms, env).Some? && ContainedBatch(full, s, ms, env, Cover(Report(ms)))
    ensures Namespace.Valid(ApplyAll(s, ms, env).value)
    ensures Unnoticed(full, s, ApplyAll(s, ms, env).value, Cover(Report(ms)))
  {
    forall i | 0 <= i < |ms| ensures Reported(ms[i], Cover(Report(ms))) { ReportIsReported(ms, i); }
    BatchKept(full, s, ms, env, Cover(Report(ms)));
  }

  /** A contained change leaves every read outside its report as it was. */
  lemma ChangeUnnoticed(full: bool, s: Store, c: Change)
    requires Namespace.Valid(s) && ApplyChange(s, c).Some? && ContainedChange(full, s, c)
    ensures Namespace.Valid(ApplyChange(s, c).value)
    ensures Unnoticed(full, s, ApplyChange(s, c).value, Cover(ReportOf(s, c)))
  {
    match c
    case Batch(ms, env) => BatchUnnoticed(full, s, ms, env);
    case Writing(ws, now, digest) => WritesUnnoticed(full, s, ws, now, Cover(WritesReport(s, ws, digest)));
  }

  // ---- the system ----------------------------------------------------------

  /** A value read under a read lock, with the revision it carried and the number
      of publications made by then. */
  datatype Entry = Entry(value: Value, revision: int, at: nat)
  datatype Fetched = Fetched(key: Key, entry: Entry)

  /** `since` is the revision of the last answer applied, or of the read it started
      from, and `seen` how many publications had been made by then. */
  datatype Watcher = Watcher(since: int, seen: nat, cache: map<Key, Entry>)

  /** `stores[i]` is the workspace after `i` publications; `arriving` holds read
      responses still on their way. */
  datatype System = System(
    server: State<Store>, stores: seq<Store>, watchers: map<string, Watcher>, arriving: seq<Fetched>)

  datatype Step =
    | Serve(event: Event<Store>)
    | Publication(request: Gate.Request, change: Change, clock: int, ackClock: int)
    | Fetch(request: Gate.Request, key: Key)
    | Mount(id: string, since: int)
    | Seed(id: string, index: nat)
    | Install(id: string, index: nat)
    | Revoke(id: string, index: nat)

  function Latest(y: System): Store
    requires y.stores != []
  {
    y.stores[|y.stores| - 1]
  }

  function CommitOf(s: Store, p: Step): Event<Store>
    requires p.Publication?
  {
    Commit(p.request, ReportOf(s, p.change).paths, ReportOf(s, p.change).subtrees, p.clock, p.ackClock)
  }

  /** The part of a step that the server takes. */
  function Served(y: System, p: Step): Option<Event<Store>>
    requires y.stores != []
  {
    match p
    case Serve(e) => Some(e)
    case Publication(_, _, _, _) => Some(CommitOf(Latest(y), p))
    case _ => None
  }

  /** Publications are changes that the store applied as a whole and that are contained;
      a transaction that ends otherwise has left the store as it found it; reads are made
      by holders of the read lock. A watcher comes at any time, with an empty cache and
      told nothing; it may start from the revision of a read that nothing it caches is
      older than; and it applies answers to the poll it is waiting for. */
  ghost predicate CanTake(cfg: Config, full: bool, y: System, p: Step) {
    y.stores != [] &&
    match p
    case Serve(e) => !e.Commit? && Enabled(y.server, e) && (e.Abandon? ==> y.server.store == Latest(y))
    case Publication(_, change, _, _) =>
      && Enabled(y.server, CommitOf(Latest(y), p))
      && ApplyChange(Latest(y), change) == Some(y.server.store)
      && ContainedChange(full, Latest(y), change)
    case Fetch(r, k) => r.mode == Gate.Read && r in y.server.gate.holders && Readable(full, k)
    case Mount(id, since) => id !in y.watchers && since <= cfg.initial
    case Seed(id, i) => id in y.watchers && i < |y.arriving| && NothingOlder(y.watchers[id], y.arriving[i].entry.at)
    case Install(id, i) => id in y.watchers && i < |y.arriving|
    case Revoke(id, i) =>
      id in y.watchers && i < |y.server.answers| && y.server.answers[i].since == y.watchers[id].since
  }

  ghost predicate NothingOlder(w: Watcher, at: nat) {
    forall k :: k in w.cache ==> w.cache[k].at >= at
  }

  /** Drop what the answer names: everything when it is truncated, otherwise the
      reported paths and all that lies at or below a reported subtree. */
  ghost function AfterAnswer(w: Watcher, a: Answer): Watcher {
    if a.revision <= w.since then w
    else if a.affected.None? then Watcher(a.revision, a.at, map[])
    else
      Watcher(a.revision, a.at, map k | k in w.cache && k.path !in Cover(a.affected.value) :: w.cache[k])
  }

  /** A read response older than the watcher's revision is discarded. */
  function AfterRead(w: Watcher, f: Fetched): Watcher {
    if f.entry.revision < w.since then w else w.(cache := w.cache[f.key := f.entry])
  }

  /** The next poll starts from the highest revision read. */
  function AfterSeed(w: Watcher, f: Fetched): Watcher {
    if f.entry.revision <= w.since then w else w.(since := f.entry.revision, seen := f.entry.at)
  }

  ghost function Take(cfg: Config, full: bool, y: System, p: Step): System
    requires CanTake(cfg, full, y, p)
  {
    match p
    case Serve(e) => y.(server := Next(cfg, y.server, e))
    case Publication(_, _, _, _) =>
      y.(server := Next(cfg, y.server, CommitOf(Latest(y), p)), stores := y.stores + [y.server.store])
    case Fetch(_, k) =>
      y.(arriving := y.arriving + [Fetched(k, Entry(Read(y.server.store, k), y.server.revision, |y.server.log|))])
    case Mount(id, since) => y.(watchers := y.watchers[id := Watcher(since, 0, map[])])
    case Seed(id, i) => y.(watchers := y.watchers[id := AfterSeed(y.watchers[id], y.arriving[i])])
    case Install(id, i) => y.(watchers := y.watchers[id := AfterRead(y.watchers[id], y.arriving[i])])
    case Revoke(id, i) => y.(watchers := y.watchers[id := AfterAnswer(y.watchers[id], y.server.answers[i])])
  }

  // ---- the invariant -------------------------------------------------------

  ghost predicate Keeps(full: bool, s: Store, t: Store, e: Published) {
    Unnoticed(full, s, t, Cover(Affected(e.paths, e.subtrees)))
  }

  /** Each publication kept whatever it did not report. */
  ghost predicate Documented(full: bool, stores: seq<Store>, log: seq<Published>) {
    && |stores| == |log| + 1
    && (forall i :: 0 <= i < |log| ==> Keeps(full, stores[i], stores[i + 1], log[i]))
  }

  /** `e` carries the revision of its reading and the value `k` has in `stores[at]`. */
  ghost predicate Genuine(cfg: Config, full: bool, stores: seq<Store>, log: seq<Published>, k: Key, e: Entry, at: nat) {
    && Readable(full, k) && e.at <= |log| && at < |stores|
    && e.revision == RevisionOf(log[..e.at], cfg.initial)
    && e.value == Read(stores[at], k)
  }

  ghost predicate Located(cfg: Config, w: Watcher, log: seq<Published>) {
    && w.seen <= |log|
    && (if w.seen == 0 then w.since <= cfg.initial else w.since == RevisionOf(log[..w.seen], cfg.initial))
  }

  function Later(a: nat, b: nat): nat { if a < b then b else a }

  /** The watcher's cache agrees with the store at the revision it was told, or
      at the later revision an entry was read at. */
  ghost predicate Coherent(cfg: Config, full: bool, stores: seq<Store>, log: seq<Published>, w: Watcher) {
    && Located(cfg, w, log)
    && (forall k :: k in w.cache ==> Genuine(cfg, full, stores, log, k, w.cache[k], Later(w.cache[k].at, w.seen)))
  }

  ghost predicate AllCoherent(cfg: Config, full: bool, stores: seq<Store>, log: seq<Published>,
      watchers: map<string, Watcher>) {
    forall id :: id in watchers ==> Coherent(cfg, full, stores, log, watchers[id])
  }

  ghost predicate ReadsGenuine(cfg: Config, full: bool, stores: seq<Store>, log: seq<Published>,
      arriving: seq<Fetched>) {
    forall f :: f in arriving ==> Genuine(cfg, full, stores, log, f.key, f.entry, f.entry.at)
  }

  ghost predicate StoreInv(y: System) {
    && y.stores != []
    && Namespace.Valid(Latest(y))
    && (!y.server.gate.activeWriter ==> y.server.store == Latest(y))
  }

  ghost predicate SystemInv(cfg: Config, full: bool, y: System) {
    && CoordinatorRuns.Inv(cfg, y.server)
    && StoreInv(y)
    && Documented(full, y.stores, y.server.log)
    && ReadsGenuine(cfg, full, y.stores, y.server.log, y.arriving)
    && AllCoherent(cfg, full, y.stores, y.server.log, y.watchers)
  }

  // ---- reading the log -----------------------------------------------------

  lemma RevisionsOrdered(cfg: Config, log: seq<Published>, i: nat, j: nat)
    requires Increasing(log, cfg.initial) && i <= j <= |log|
    ensures RevisionOf(log[..i], cfg.initial) <= RevisionOf(log[..j], cfg.initial)
    ensures i < j ==> RevisionOf(log[..i], cfg.initial) < RevisionOf(log[..j], cfg.initial)
  {
  }

  ghost predicate Within(b: Affected, a: Affected) {
    (forall p :: p in b.paths ==> p in a.paths) && (forall p :: p in b.subtrees ==> p in a.subtrees)
  }

  lemma CoverGrows(b: Affected, a: Affected, p: Path)
    requires Within(b, a) && p in Cover(b)
    ensures p in Cover(a)
  {
    if p !in b.paths {
      var i :| 0 <= i < |b.subtrees| && AtOrBelow(p, b.subtrees[i]);
      assert b.subtrees[i] in a.subtrees;
      var n :| 0 <= n < |a.subtrees| && a.subtrees[n] == b.subtrees[i];
      assert AtOrBelow(p, a.subtrees[n]);
    }
  }

  /** An answer covers every publication it spans. */
  lemma AnswerCovers(entries: seq<Published>, j: nat, since: int, p: Path)
    requires j < |entries| && entries[j].revision > since
    requires p in Cover(Affected(entries[j].paths, entries[j].subtrees))
    ensures p in Cover(Affected(PathUnion(entries, since), SubtreeUnion(entries, since)))
  {
    NewerEntriesCount(entries, j, since);
    CoverGrows(Affected(entries[j].paths, entries[j].subtrees),
               Affected(PathUnion(entries, since), SubtreeUnion(entries, since)), p);
  }

  lemma UseKeeps(full: bool, s: Store, t: Store, e: Published, k: Key)
    requires Keeps(full, s, t, e) && Readable(full, k) && k.path !in Cover(Affected(e.paths, e.subtrees))
    ensures Read(t, k) == Read(s, k)
  {
  }

  /** A key no publication in a stretch reported reads the same at both ends. */
  lemma {:induction false} KeptOverStretch(full: bool, stores: seq<Store>, log: seq<Published>, m: nat, n: nat, k: Key)
    requires Documented(full, stores, log) && Readable(full, k) && m <= n <= |log|
    requires forall j :: m <= j < n ==> k.path !in Cover(Affected(log[j].paths, log[j].subtrees))
    ensures Read(stores[n], k) == Read(stores[m], k)
    decreases n - m
  {
    if m < n {
      KeptOverStretch(full, stores, log, m, n - 1, k);
      assert Keeps(full, stores[n - 1], stores[n - 1 + 1], log[n - 1]);
      UseKeeps(full, stores[n - 1], stores[n], log[n - 1], k);
    }
  }

  lemma SeenBefore(cfg: Config, w: Watcher, log: seq<Published>, revision: int, at: nat)
    requires Located(cfg, w, log) && Increasing(log, cfg.initial) && at <= |log|
    requires revision == RevisionOf(log[..at], cfg.initial) && revision >= w.since
    ensures w.seen <= at
  {
    if at < w.seen { RevisionsOrdered(cfg, log, at, w.seen); }
  }

  lemma NewSince(cfg: Config, w: Watcher, log: seq<Published>, j: nat)
    requires Located(cfg, w, log) && Increasing(log, cfg.initial) && w.seen <= j < |log|
    ensures log[j].revision > w.since
  {
    RevisionsOrdered(cfg, log, w.seen, j + 1);
    assert log[..j + 1][j] == log[j];
  }

  // ---- applying answers and reads ------------------------------------------

  /** No publication between what the watcher knew and what it was told touched
      a path the answer leaves alone. */
  lemma NothingMissed(cfg: Config, log: seq<Published>, w: Watcher, a: Answer, p: Path, j: nat)
    requires Located(cfg, w, log) && Increasing(log, cfg.initial) && Truthful(cfg, a, log)
    requires a.since == w.since && a.revision > a.since && a.affected.Some? && p !in Cover(a.affected.value)
    requires w.seen <= j < a.at
    ensures p !in Cover(Affected(log[j].paths, log[j].subtrees))
  {
    var entries := log[..a.at];
    NewSince(cfg, w, log, j);
    assert entries[j] == log[j];
    OwedIsUnion(entries, cfg.initial, a.since);
    if p in Cover(Affected(log[j].paths, log[j].subtrees)) { AnswerCovers(entries, j, a.since, p); }
  }

  /** What the watcher keeps when told `a` still holds at the revision it was told. */
  lemma KeptEntryHolds(cfg: Config, full: bool, stores: seq<Store>, log: seq<Published>, w: Watcher, a: Answer, k: Key)
    requires Documented(full, stores, log) && Increasing(log, cfg.initial) && Coherent(cfg, full, stores, log, w)
    requires Truthful(cfg, a, log) && a.since == w.since && a.revision > a.since && a.affected.Some?
    requires k in w.cache && k.path !in Cover(a.affected.value)
    ensures Genuine(cfg, full, stores, log, k, w.cache[k], Later(w.cache[k].at, a.at))
  {
    var e := w.cache[k];
    var m := Later(e.at, w.seen);
    assert Genuine(cfg, full, stores, log, k, e, m);
    SeenBefore(cfg, w, log, a.revision, a.at);
    if e.at < a.at {
      forall j | m <= j < a.at ensures k.path !in Cover(Affected(log[j].paths, log[j].subtrees)) {
        NothingMissed(cfg, log, w, a, k.path, j);
      }
      KeptOverStretch(full, stores, log, m, a.at, k);
    }
  }

  /** Revoking exactly what an answer names keeps the cache coherent. */
  lemma RevocationKeepsCoherence(cfg: Config, full: bool, stores: seq<Store>, log: seq<Published>, w: Watcher,
      a: Answer)
    requires Documented(full, stores, log) && Increasing(log, cfg.initial) && Coherent(cfg, full, stores, log, w)
    requires Truthful(cfg, a, log) && a.since == w.since
    ensures Coherent(cfg, full, stores, log, AfterAnswer(w, a))
  {
    var w' := AfterAnswer(w, a);
    if a.revision > w.since {
      assert Located(cfg, w', log) by { if a.at == 0 { assert log[..0] == []; } }
      forall k | k in w'.cache ensures Genuine(cfg, full, stores, log, k, w'.cache[k], Later(w'.cache[k].at, w'.seen)) {
        KeptEntryHolds(cfg, full, stores, log, w, a, k);
      }
    }
  }

  /** Installing a read that is not older than what the watcher knows is safe. */
  lemma ReadKeepsCoherence(cfg: Config, full: bool, stores: seq<Store>, log: seq<Published>, w: Watcher, f: Fetched)
    requires Increasing(log, cfg.initial) && Coherent(cfg, full, stores, log, w)
    requires Genuine(cfg, full, stores, log, f.key, f.entry, f.entry.at)
    ensures Coherent(cfg, full, stores, log, AfterRead(w, f))
  {
    if f.entry.revision >= w.since {
      SeenBefore(cfg, w, log, f.entry.revision, f.entry.at);
      var w' := AfterRead(w, f);
      forall k | k in w'.cache ensures Genuine(cfg, full, stores, log, k, w'.cache[k], Later(w'.cache[k].at, w'.seen)) {
        if k != f.key { assert Genuine(cfg, full, stores, log, k, w.cache[k], Later(w.cache[k].at, w.seen)); }
      }
    }
  }

  /** Starting from a read that nothing cached is older than is safe. */
  lemma SeedKeepsCoherence(cfg: Config, full: bool, stores: seq<Store>, log: seq<Published>, w: Watcher, f: Fetched)
    requires Increasing(log, cfg.initial) && Coherent(cfg, full, stores, log, w)
    requires Genuine(cfg, full, stores, log, f.key, f.entry, f.entry.at) && NothingOlder(w, f.entry.at)
    ensures Coherent(cfg, full, stores, log, AfterSeed(w, f))
  {
    if f.entry.revision > w.since {
      SeenBefore(cfg, w, log, f.entry.revision, f.entry.at);
      var w' := AfterSeed(w, f);
      assert Located(cfg, w', log) by { if f.entry.at == 0 { assert log[..0] == []; } }
      forall k | k in w'.cache ensures Genuine(cfg, full, stores, log, k, w'.cache[k], Later(w'.cache[k].at, w'.seen)) {
        assert Genuine(cfg, full, stores, log, k, w.cache[k], Later(w.cache[k].at, w.seen));
      }
    }
  }

  // ---- publishing ----------------------------------------------------------

  lemma GenuineStays(cfg: Config, full: bool, stores: seq<Store>, log: seq<Published>, t: Store, e: Published,
      k: Key, x: Entry, at: nat)
    requires Genuine(cfg, full, stores, log, k, x, at)
    ensures Genuine(cfg, full, stores + [t], log + [e], k, x, at)
  {
    assert (log + [e])[..x.at] == log[..x.at];
  }

  lemma CoherentStays(cfg: Config, full: bool, stores: seq<Store>, log: seq<Published>, w: Watcher, t: Store,
      e: Published)
    requires Coherent(cfg, full, stores, log, w)
    ensures Coherent(cfg, full, stores + [t], log + [e], w)
  {
    assert (log + [e])[..w.seen] == log[..w.seen];
    forall k | k in w.cache
      ensures Genuine(cfg, full, stores + [t], log + [e], k, w.cache[k], Later(w.cache[k].at, w.seen))
    {
      GenuineStays(cfg, full, stores, log, t, e, k, w.cache[k], Later(w.cache[k].at, w.seen));
    }
  }

  lemma ReadsStayGenuine(cfg: Config, full: bool, stores: seq<Store>, log: seq<Published>, arriving: seq<Fetched>,
      t: Store, e: Published)
    requires ReadsGenuine(cfg, full, stores, log, arriving)
    ensures ReadsGenuine(cfg, full, stores + [t], log + [e], arriving)
  {
    forall f | f in arriving ensures Genuine(cfg, full, stores + [t], log + [e], f.key, f.entry, f.entry.at) {
      GenuineStays(cfg, full, stores, log, t, e, f.key, f.entry, f.entry.at);
    }
  }

  lemma AllCoherentStay(cfg: Config, full: bool, stores: seq<Store>, log: seq<Published>,
      watchers: map<string, Watcher>, t: Store, e: Published)
    requires AllCoherent(cfg, full, stores, log, watchers)
    ensures AllCoherent(cfg, full, stores + [t], log + [e], watchers)
  {
    forall id | id in watchers ensures Coherent(cfg, full, stores + [t], log + [e], watchers[id]) {
      CoherentStays(cfg, full, stores, log, watchers[id], t, e);
    }
  }

  /** `e` records the report `a`. */
  predicate Records(e: Published, a: Affected) {
    e.paths == Dedup(a.paths) && e.subtrees == Dedup(a.subtrees)
  }

  lemma DedupCovers(a: Affected, e: Published, p: Path)
    requires Records(e, a) && p in Cover(a)
    ensures p in Cover(Affected(e.paths, e.subtrees))
  {
    CoverGrows(a, Affected(e.paths, e.subtrees), p);
  }

  lemma UnnoticedBeyondMore(full: bool, s: Store, t: Store, cov: iset<Path>, cov': iset<Path>)
    requires Unnoticed(full, s, t, cov) && cov <= cov'
    ensures Unnoticed(full, s, t, cov')
  {
  }

  /** A contained change is documented by the entry its publication records. */
  lemma ChangeIsDocumented(full: bool, s: Store, c: Change, t: Store, e: Published)
    requires Namespace.Valid(s) && ApplyChange(s, c) == Some(t) && ContainedChange(full, s, c)
    requires Records(e, ReportOf(s, c))
    ensures Namespace.Valid(t) && Keeps(full, s, t, e)
  {
    var a := ReportOf(s, c);
    ChangeUnnoticed(full, s, c);
    forall p | p in Cover(a) ensures p in Cover(Affected(e.paths, e.subtrees)) { DedupCovers(a, e, p); }
    UnnoticedBeyondMore(full, s, t, Cover(a), Cover(Affected(e.paths, e.subtrees)));
  }

  lemma DocumentedGrows(full: bool, stores: seq<Store>, log: seq<Published>, t: Store, e: Published)
    requires Documented(full, stores, log) && Keeps(full, stores[|stores| - 1], t, e)
    ensures Documented(full, stores + [t], log + [e])
  {
    var ss, ll := stores + [t], log + [e];
    forall i | 0 <= i < |ll| ensures Keeps(full, ss[i], ss[i + 1], ll[i]) {
      if i < |log| { assert Keeps(full, stores[i], stores[i + 1], log[i]); }
    }
  }

  // ---- every step, every run -----------------------------------------------

  /** The publication's own effect, apart from the coordinator's bookkeeping. */
  lemma PublicationRecorded(cfg: Config, full: bool, y: System, c: Change, e: Published)
    requires y.stores != [] && Namespace.Valid(Latest(y))
    requires Documented(full, y.stores, y.server.log) && AllCoherent(cfg, full, y.stores, y.server.log, y.watchers)
    requires ReadsGenuine(cfg, full, y.stores, y.server.log, y.arriving)
    requires ApplyChange(Latest(y), c) == Some(y.server.store) && ContainedChange(full, Latest(y), c)
    requires Records(e, ReportOf(Latest(y), c))
    ensures Namespace.Valid(y.server.store)
    ensures var stores, log := y.stores + [y.server.store], y.server.log + [e];
      && Documented(full, stores, log)
      && AllCoherent(cfg, full, stores, log, y.watchers)
      && ReadsGenuine(cfg, full, stores, log, y.arriving)
  {
    var s := y.server;
    ChangeIsDocumented(full, Latest(y), c, s.store, e);
    DocumentedGrows(full, y.stores, s.log, s.store, e);
    AllCoherentStay(cfg, full, y.stores, s.log, y.watchers, s.store, e);
    ReadsStayGenuine(cfg, full, y.stores, s.log, y.arriving, s.store, e);
  }

  lemma PublicationStep(cfg: Config, full: bool, y: System, p: Step)
    requires SystemInv(cfg, full, y) && CanTake(cfg, full, y, p) && p.Publication?
    ensures SystemInv(cfg, full, y.(server := Next(cfg, y.server, CommitOf(Latest(y), p)),
                                    stores := y.stores + [y.server.store]))
  {
    var e := CommitOf(Latest(y), p);
    StepKeepsInv(cfg, y.server, e);
    CommitShape(cfg, y.server, e);
    PublicationRecorded(cfg, full, y, p.change, Next(cfg, y.server, e).log[|y.server.log|]);
    PublishedInv(cfg, full, y, Next(cfg, y.server, e));
  }

  lemma PublishedInv(cfg: Config, full: bool, y: System, server: State<Store>)
    requires CoordinatorRuns.Inv(cfg, server) && Namespace.Valid(server.store)
    requires var stores := y.stores + [server.store];
      && Documented(full, stores, server.log)
      && AllCoherent(cfg, full, stores, server.log, y.watchers)
      && ReadsGenuine(cfg, full, stores, server.log, y.arriving)
    ensures SystemInv(cfg, full, y.(server := server, stores := y.stores + [server.store]))
  {
    assert StoreInv(y.(server := server, stores := y.stores + [server.store]));
  }

  lemma CommitShape<S>(cfg: Config, s: State<S>, e: Event<S>)
    requires Enabled(s, e) && e.Commit?
    ensures var t := Next(cfg, s, e);
      t.store == s.store && |t.log| == |s.log| + 1 && t.log == s.log + [t.log[|s.log|]]
      && t.log[|s.log|].paths == Dedup(e.paths) && t.log[|s.log|].subtrees == Dedup(e.subtrees)
  {
  }

  lemma ServeShape<S>(cfg: Config, s: State<S>, e: Event<S>)
    requires GateInv(s) && Enabled(s, e) && !e.Commit?
    ensures Next(cfg, s, e).log == s.log
    ensures !e.StoreWrite? ==> Next(cfg, s, e).store == s.store
    ensures e.StoreWrite? ==> Next(cfg, s, e).gate.activeWriter
    ensures s.gate.activeWriter && !Next(cfg, s, e).gate.activeWriter ==> e.Abandon?
  {
    match e
    case EndRead(r) => if r in s.gate.holders { WriterHeld(s.gate, r); }
    case StoreWrite(r, _) => WriterHeld(s.gate, r);
    case _ =>
  }

  lemma ServeStep(cfg: Config, full: bool, y: System, server: State<Store>)
    requires SystemInv(cfg, full, y) && CoordinatorRuns.Inv(cfg, server) && server.log == y.server.log
    requires !server.gate.activeWriter ==> server.store == Latest(y)
    ensures SystemInv(cfg, full, y.(server := server))
  {
  }

  /** The server's own step leaves the workspace as published, unless a writer is at
      work on it. */
  lemma ServerStands(cfg: Config, y: System, e: Event<Store>)
    requires GateInv(y.server) && StoreInv(y) && Enabled(y.server, e) && !e.Commit?
    requires e.Abandon? ==> y.server.store == Latest(y)
    ensures !Next(cfg, y.server, e).gate.activeWriter ==> Next(cfg, y.server, e).store == Latest(y)
  {
    ServeShape(cfg, y.server, e);
  }

  /** What a holder of the read lock reads is the latest published store. */
  lemma ReadUnderLock(cfg: Config, full: bool, y: System, r: Gate.Request, k: Key)
    requires GateInv(y.server) && StoreInv(y) && |y.stores| == |y.server.log| + 1
    requires y.server.revision == RevisionOf(y.server.log, cfg.initial)
    requires r.mode == Gate.Read && r in y.server.gate.holders && Readable(full, k)
    ensures var at := |y.server.log|;
      Genuine(cfg, full, y.stores, y.server.log, k, Entry(Read(y.server.store, k), y.server.revision, at), at)
  {
    WriterHeld(y.server.gate, r);
    assert y.server.log[..|y.server.log|] == y.server.log;
  }

  lemma OneMoreRead(cfg: Config, full: bool, stores: seq<Store>, log: seq<Published>, arriving: seq<Fetched>,
      f: Fetched)
    requires ReadsGenuine(cfg, full, stores, log, arriving)
    requires Genuine(cfg, full, stores, log, f.key, f.entry, f.entry.at)
    ensures ReadsGenuine(cfg, full, stores, log, arriving + [f])
  {
  }

  /** Only the reads under way changed. */
  lemma ArrivalStep(cfg: Config, full: bool, y: System, arriving: seq<Fetched>)
    requires SystemInv(cfg, full, y) && ReadsGenuine(cfg, full, y.stores, y.server.log, arriving)
    ensures SystemInv(cfg, full, y.(arriving := arriving))
  {
    assert StoreInv(y.(arriving := arriving));
  }

  lemma FetchedGenuine(cfg: Config, full: bool, y: System, r: Gate.Request, k: Key)
    requires SystemInv(cfg, full, y) && r.mode == Gate.Read && r in y.server.gate.holders && Readable(full, k)
    ensures var read := Fetched(k, Entry(Read(y.server.store, k), y.server.revision, |y.server.log|));
      ReadsGenuine(cfg, full, y.stores, y.server.log, y.arriving + [read])
  {
    ReadUnderLock(cfg, full, y, r, k);
    OneMoreRead(cfg, full, y.stores, y.server.log, y.arriving,
                Fetched(k, Entry(Read(y.server.store, k), y.server.revision, |y.server.log|)));
  }

  lemma OneMovedCoherent(cfg: Config, full: bool, stores: seq<Store>, log: seq<Published>,
      watchers: map<string, Watcher>, id: string, w: Watcher)
    requires AllCoherent(cfg, full, stores, log, watchers) && Coherent(cfg, full, stores, log, w)
    ensures AllCoherent(cfg, full, stores, log, watchers[id := w])
  {
  }

  lemma WatchersStep(cfg: Config, full: bool, y: System, watchers: map<string, Watcher>)
    requires SystemInv(cfg, full, y) && AllCoherent(cfg, full, y.stores, y.server.log, watchers)
    ensures SystemInv(cfg, full, y.(watchers := watchers))
  {
    assert StoreInv(y.(watchers := watchers));
  }

  /** Only one watcher moved. */
  lemma WatcherStep(cfg: Config, full: bool, y: System, id: string, w: Watcher)
    requires SystemInv(cfg, full, y) && Coherent(cfg, full, y.stores, y.server.log, w)
    ensures SystemInv(cfg, full, y.(watchers := y.watchers[id := w]))
  {
    OneMovedCoherent(cfg, full, y.stores, y.server.log, y.watchers, id, w);
    WatchersStep(cfg, full, y, y.watchers[id := w]);
  }

  lemma MountCoherent(cfg: Config, full: bool, stores: seq<Store>, log: seq<Published>, since: int)
    requires since <= cfg.initial
    ensures Coherent(cfg, full, stores, log, Watcher(since, 0, map[]))
  {
  }

  lemma ArrivalCoherent(cfg: Config, full: bool, y: System, id: string, i: nat)
    requires SystemInv(cfg, full, y) && id in y.watchers && i < |y.arriving|
    ensures Coherent(cfg, full, y.stores, y.server.log, AfterRead(y.watchers[id], y.arriving[i]))
    ensures NothingOlder(y.watchers[id], y.arriving[i].entry.at) ==>
      Coherent(cfg, full, y.stores, y.server.log, AfterSeed(y.watchers[id], y.arriving[i]))
  {
    var w, f := y.watchers[id], y.arriving[i];
    assert f in y.arriving;
    ReadKeepsCoherence(cfg, full, y.stores, y.server.log, w, f);
    if NothingOlder(w, f.entry.at) { SeedKeepsCoherence(cfg, full, y.stores, y.server.log, w, f); }
  }

  lemma RevokeCoherent(cfg: Config, full: bool, y: System, id: string, i: nat)
    requires SystemInv(cfg, full, y) && id in y.watchers
    requires i < |y.server.answers| && y.server.answers[i].since == y.watchers[id].since
    ensures Coherent(cfg, full, y.stores, y.server.log, AfterAnswer(y.watchers[id], y.server.answers[i]))
  {
    assert y.server.answers[i] in y.server.answers;
    RevocationKeepsCoherence(cfg, full, y.stores, y.server.log, y.watchers[id], y.server.answers[i]);
  }

  lemma StepKeepsCoherence(cfg: Config, full: bool, y: System, p: Step)
    requires SystemInv(cfg, full, y) && CanTake(cfg, full, y, p)
    ensures SystemInv(cfg, full, Take(cfg, full, y, p))
  {
    match p
    case Serve(e) =>
      StepKeepsInv(cfg, y.server, e);
      ServeShape(cfg, y.server, e);
      ServerStands(cfg, y, e);
      ServeStep(cfg, full, y, Next(cfg, y.server, e));
    case Publication(_, _, _, _) => PublicationStep(cfg, full, y, p);
    case Fetch(r, k) =>
      FetchedGenuine(cfg, full, y, r, k);
      var read := Fetched(k, Entry(Read(y.server.store, k), y.server.revision, |y.server.log|));
      ArrivalStep(cfg, full, y, y.arriving + [read]);
    case Mount(id, since) =>
      MountCoherent(cfg, full, y.stores, y.server.log, since);
      WatcherStep(cfg, full, y, id, Watcher(since, 0, map[]));
    case Seed(id, i) =>
      ArrivalCoherent(cfg, full, y, id, i);
      WatcherStep(cfg, full, y, id, AfterSeed(y.watchers[id], y.arriving[i]));
    case Install(id, i) =>
      ArrivalCoherent(cfg, full, y, id, i);
      WatcherStep(cfg, full, y, id, AfterRead(y.watchers[id], y.arriving[i]));
    case Revoke(id, i) =>
      RevokeCoherent(cfg, full, y, id, i);
      WatcherStep(cfg, full, y, id, AfterAnswer(y.watchers[id], y.server.answers[i]));
  }

  ghost predicate LegalRun(cfg: Config, full: bool, y: System, steps: seq<Step>)
    decreases |steps|
  {
    steps == [] || (CanTake(cfg, full, y, steps[0]) && LegalRun(cfg, full, Take(cfg, full, y, steps[0]), steps[1..]))
  }

  ghost function RunSystem(cfg: Config, full: bool, y: System, steps: seq<Step>): System
    requires LegalRun(cfg, full, y, steps)
    decreases |steps|
  {
    if steps == [] then y else RunSystem(cfg, full, Take(cfg, full, y, steps[0]), steps[1..])
  }

  /** A fresh coordinator over a store, and no watcher yet. */
  function Start(cfg: Config, store: Store): System {
    System(Initial(cfg, store), [store], map[], [])
  }

  lemma StartSound(cfg: Config, full: bool, store: Store)
    requires Namespace.Valid(store)
    ensures SystemInv(cfg, full, Start(cfg, store))
  {
    InitialInv(cfg, store);
    FreshSystem(cfg, full, Initial(cfg, store));
  }

  lemma FreshSystem(cfg: Config, full: bool, server: State<Store>)
    requires CoordinatorRuns.Inv(cfg, server) && server.log == [] && Namespace.Valid(server.store)
    ensures SystemInv(cfg, full, System(server, [server.store], map[], []))
  {
    NothingPublished(cfg, full, server.store);
    assert StoreInv(System(server, [server.store], map[], []));
  }

  lemma NothingPublished(cfg: Config, full: bool, store: Store)
    ensures Documented(full, [store], []) && AllCoherent(cfg, full, [store], [], map[])
    ensures ReadsGenuine(cfg, full, [store], [], [])
  {
  }

  lemma {:induction false} RunKeepsInv(cfg: Config, full: bool, y: System, steps: seq<Step>)
    requires SystemInv(cfg, full, y) && LegalRun(cfg, full, y, steps)
    ensures SystemInv(cfg, full, RunSystem(cfg, full, y, steps))
    decreases |steps|
  {
    if steps != [] {
      StepKeepsCoherence(cfg, full, y, steps[0]);
      RunKeepsInv(cfg, full, Take(cfg, full, y, steps[0]), steps[1..]);
    }
  }

  /** The watcher stands at the revision it was last told, and what it caches under
      `k` is what the store held there, or at the later revision it was read at. */
  ghost predicate CacheAgrees(cfg: Config, y: System, w: Watcher, k: Key) {
    && Located(cfg, w, y.server.log) && |y.stores| == |y.server.log| + 1
    && (k in w.cache ==>
          var e := w.cache[k];
          && e.at <= |y.server.log| && e.revision == RevisionOf(y.server.log[..e.at], cfg.initial)
          && e.value == Read(y.stores[Later(e.at, w.seen)], k))
  }

  lemma SoundCacheAgrees(cfg: Config, full: bool, y: System, w: Watcher, k: Key)
    requires Documented(full, y.stores, y.server.log) && Coherent(cfg, full, y.stores, y.server.log, w)
    ensures CacheAgrees(cfg, y, w, k)
  {
    if k in w.cache {
      var e := w.cache[k];
      assert Genuine(cfg, full, y.stores, y.server.log, k, e, Later(e.at, w.seen));
    }
  }

  /** After any run, however reads, writes, polls and deliveries interleave, every entry
      in every watcher's cache agrees with the store as it was at the revision the watcher
      was last told, or at the later revision the entry was read at. */
  lemma CachesStayCoherent(cfg: Config, full: bool, store: Store, steps: seq<Step>, id: string, k: Key)
    requires Namespace.Valid(store) && LegalRun(cfg, full, Start(cfg, store), steps)
    requires id in RunSystem(cfg, full, Start(cfg, store), steps).watchers
    ensures var y := RunSystem(cfg, full, Start(cfg, store), steps);
      CacheAgrees(cfg, y, y.watchers[id], k)
  {
    var y := RunSystem(cfg, full, Start(cfg, store), steps);
    StartSound(cfg, full, store);
    RunKeepsInv(cfg, full, Start(cfg, store), steps);
    SoundCacheAgrees(cfg, full, y, y.watchers[id], k);
  }
}
