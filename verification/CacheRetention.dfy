/** The other half of coherence: a watcher gives up what answers name, and nothing else.
    Without this a watcher that forgot everything would be coherent, too. */
module CacheRetention {
  import opened Paths
  import opened PublicationFeed
  import opened Coordinator
  import opened CoordinatorRuns
  import opened Namespace
  import opened Coherence

  /** The answer lists `p`, or a subtree that `p` lies in. */
  predicate Named(a: Affected, p: Path) {
    p in a.paths || exists i :: 0 <= i < |a.subtrees| && a.subtrees[i] <= p
  }

  /** The answer tells a watcher at `since` something new, and that it must give up `p`. */
  predicate Evicts(a: Answer, since: int, p: Path) {
    a.revision > since && (a.affected.None? || Named(a.affected.value, p))
  }

  /** Applying an answer: the watcher stands at the newer of the two revisions, keeps an
      entry as it is unless the answer evicts it, and gains none. */
  lemma AnswerIsAppliedExactly(w: Watcher, a: Answer, k: Key)
    ensures var w' := AfterAnswer(w, a);
      && w'.since == (if a.revision > w.since then a.revision else w.since)
      && (k in w'.cache <==> k in w.cache && !Evicts(a, w.since, k.path))
      && (k in w'.cache ==> w'.cache[k] == w.cache[k])
  {
  }

  /** Installing a read: it is there afterwards unless it is older than what the watcher
      was told, and every other entry stays. */
  lemma ReadIsInstalled(w: Watcher, f: Fetched, k: Key)
    ensures var w' := AfterRead(w, f);
      && w'.since == w.since
      && (f.entry.revision >= w.since ==> f.key in w'.cache && w'.cache[f.key] == f.entry)
      && (k != f.key || f.entry.revision < w.since ==>
            (k in w'.cache <==> k in w.cache) && (k in w.cache ==> w'.cache[k] == w.cache[k]))
  {
  }

  /** Starting from a read: the watcher stands at the newer of the two revisions and keeps
      its cache. */
  lemma SeedMovesOn(w: Watcher, f: Fetched)
    ensures var w' := AfterSeed(w, f);
      w'.cache == w.cache && w'.since == if f.entry.revision > w.since then f.entry.revision else w.since
  {
  }

  /** A fetch sends off what the latest published store holds, under the current revision. */
  lemma FetchAnswers(cfg: Config, full: bool, y: System, r: Gate.Request, k: Key)
    requires SystemInv(cfg, full, y) && CanTake(cfg, full, y, Fetch(r, k))
    ensures var z, n := Take(cfg, full, y, Fetch(r, k)), |y.arriving|;
      && |z.arriving| == n + 1 && z.arriving[..n] == y.arriving
      && z.arriving[n].key == k && z.arriving[n].entry.value == Read(Latest(y), k)
      && z.arriving[n].entry.revision == y.server.revision
  {
    ReadUnderLock(cfg, full, y, r, k);
  }

  // ---- over runs -----------------------------------------------------------

  /** The step gives watcher `id` no reason to give up or replace what it holds under `k`. */
  ghost predicate Spares(y: System, p: Step, id: string, k: Key) {
    match p
    case Revoke(other, i) =>
      other == id && id in y.watchers && i < |y.server.answers| ==>
        !Evicts(y.server.answers[i], y.watchers[id].since, k.path)
    case Install(other, i) =>
      other == id && id in y.watchers && i < |y.arriving| ==>
        y.arriving[i].key != k || y.arriving[i].entry.revision < y.watchers[id].since
    case _ => true
  }

  ghost predicate SparedThroughout(cfg: Config, full: bool, y: System, steps: seq<Step>, id: string, k: Key)
    requires LegalRun(cfg, full, y, steps)
    decreases |steps|
  {
    steps == [] ||
    (Spares(y, steps[0], id, k) && SparedThroughout(cfg, full, Take(cfg, full, y, steps[0]), steps[1..], id, k))
  }

  ghost predicate Holds(y: System, id: string, k: Key, e: Entry) {
    id in y.watchers && k in y.watchers[id].cache && y.watchers[id].cache[k] == e
  }

  lemma StepRetains(cfg: Config, full: bool, y: System, p: Step, id: string, k: Key, e: Entry)
    requires CanTake(cfg, full, y, p) && Holds(y, id, k, e) && Spares(y, p, id, k)
    ensures Holds(Take(cfg, full, y, p), id, k, e)
  {
    match p
    case Revoke(other, i) => if other == id { AnswerIsAppliedExactly(y.watchers[id], y.server.answers[i], k); }
    case Install(other, i) => if other == id { ReadIsInstalled(y.watchers[id], y.arriving[i], k); }
    case _ =>
  }

  lemma {:induction false} RunRetains(cfg: Config, full: bool, y: System, steps: seq<Step>, id: string, k: Key,
      e: Entry)
    requires LegalRun(cfg, full, y, steps) && Holds(y, id, k, e) && SparedThroughout(cfg, full, y, steps, id, k)
    ensures Holds(RunSystem(cfg, full, y, steps), id, k, e)
    decreases |steps|
  {
    if steps != [] {
      StepRetains(cfg, full, y, steps[0], id, k, e);
      RunRetains(cfg, full, Take(cfg, full, y, steps[0]), steps[1..], id, k, e);
    }
  }

  /** An entry that arrives no older than its watcher's revision is cached, and stays so
      over every run for as long as no answer applied was truncated, listed its path or
      a subtree it lies in, and no other read of the same key was installed. */
  lemma InstalledEntriesAreKept(cfg: Config, full: bool, y: System, id: string, i: nat, steps: seq<Step>)
    requires CanTake(cfg, full, y, Install(id, i)) && y.arriving[i].entry.revision >= y.watchers[id].since
    requires LegalRun(cfg, full, Take(cfg, full, y, Install(id, i)), steps)
    requires SparedThroughout(cfg, full, Take(cfg, full, y, Install(id, i)), steps, id, y.arriving[i].key)
    ensures Holds(RunSystem(cfg, full, Take(cfg, full, y, Install(id, i)), steps), id, y.arriving[i].key,
                  y.arriving[i].entry)
  {
    var f := y.arriving[i];
    ReadIsInstalled(y.watchers[id], f, f.key);
    RunRetains(cfg, full, Take(cfg, full, y, Install(id, i)), steps, id, f.key, f.entry);
  }

  /** Which step made an entry go. */
  ghost predicate Blames(cfg: Config, full: bool, y: System, steps: seq<Step>, n: nat, id: string, k: Key)
    requires LegalRun(cfg, full, y, steps)
    decreases |steps|
  {
    n < |steps| &&
    if n == 0 then !Spares(y, steps[0], id, k)
    else Blames(cfg, full, Take(cfg, full, y, steps[0]), steps[1..], n - 1, id, k)
  }

  /** Nothing goes by itself: when an entry is gone or another, some step evicted or
      replaced it. */
  lemma {:induction false} LostEntriesHaveAReason(cfg: Config, full: bool, y: System, steps: seq<Step>, id: string,
      k: Key, e: Entry) returns (n: nat)
    requires LegalRun(cfg, full, y, steps) && Holds(y, id, k, e)
    requires !Holds(RunSystem(cfg, full, y, steps), id, k, e)
    ensures Blames(cfg, full, y, steps, n, id, k)
    decreases |steps|
  {
    if !Spares(y, steps[0], id, k) {
      n := 0;
    } else {
      StepRetains(cfg, full, y, steps[0], id, k, e);
      var m := LostEntriesHaveAReason(cfg, full, Take(cfg, full, y, steps[0]), steps[1..], id, k, e);
      n := m + 1;
    }
  }

  // ---- what answers name ---------------------------------------------------

  ghost predicate NamedBy(log: seq<Published>, j: nat, p: Path) {
    j < |log| && Named(Affected(log[j].paths, log[j].subtrees), p)
  }

  lemma UnionIsWarranted(entries: seq<Published>, since: int, p: Path) returns (j: nat)
    requires Named(Affected(PathUnion(entries, since), SubtreeUnion(entries, since)), p)
    ensures j < |entries| && entries[j].revision > since && NamedBy(entries, j, p)
  {
    if p in PathUnion(entries, since) {
      UnionMembers(entries, since, p);
      j :| 0 <= j < |entries| && NamesPath(entries[j], since, p);
    } else {
      var subtrees := SubtreeUnion(entries, since);
      var i :| 0 <= i < |subtrees| && subtrees[i] <= p;
      UnionMembers(entries, since, subtrees[i]);
      j :| 0 <= j < |entries| && NamesSubtree(entries[j], since, subtrees[i]);
      var n :| 0 <= n < |entries[j].subtrees| && entries[j].subtrees[n] == subtrees[i];
      assert entries[j].subtrees[n] <= p;
    }
  }

  lemma SeenRevision(cfg: Config, w: Watcher, log: seq<Published>, j: nat)
    requires Located(cfg, w, log) && Increasing(log, cfg.initial)
    ensures j < w.seen ==> log[j].revision <= w.since
  {
  }

  /** An answer that is not truncated evicts an entry only because a publication the
      watcher had not seen named it. */
  lemma EvictionsAreWarranted(cfg: Config, w: Watcher, log: seq<Published>, a: Answer, p: Path) returns (j: nat)
    requires Located(cfg, w, log) && Increasing(log, cfg.initial) && Truthful(cfg, a, log) && a.since == w.since
    requires a.affected.Some? && Evicts(a, w.since, p)
    ensures w.seen <= j < a.at && NamedBy(log, j, p)
  {
    var entries := log[..a.at];
    OwedIsUnion(entries, cfg.initial, a.since);
    j := UnionIsWarranted(entries, a.since, p);
    assert entries[j] == log[j];
    SeenRevision(cfg, w, log, j);
  }
}
