/** The publication history behind the watch feed: what each revision affected,
    bounded to the newest entries, with the eviction floor that says how far back
    an answer can be trusted. */
module PublicationFeed {
  import opened Prelude
  import opened Paths

  const PUBLICATION_HISTORY_LIMIT := 256
  const WATCH_PATHS_LIMIT := 8192

  datatype Published = Published(revision: int, paths: seq<Path>, subtrees: seq<Path>)
  datatype Affected = Affected(paths: seq<Path>, subtrees: seq<Path>)

  // ---- duplicate-free unions -----------------------------------------------

  ghost predicate NoDuplicates<T(!new)>(xs: seq<T>) {
    forall i, j :: 0 <= i < j < |xs| ==> xs[i] != xs[j]
  }

  /** First occurrences, in order (spreading a `Set`). */
  function Dedup<T(==, !new)>(xs: seq<T>): (ys: seq<T>)
    ensures forall x :: x in ys <==> x in xs
    ensures NoDuplicates(ys)
  {
    if xs == [] then []
    else
      var init, last := xs[..|xs| - 1], xs[|xs| - 1];
      assert xs == init + [last];
      var ys := Dedup(init);
      if last in ys then ys else ys + [last]
  }

  lemma DedupSnoc<T(!new)>(xs: seq<T>, x: T)
    ensures Dedup(xs + [x]) == if x in Dedup(xs) then Dedup(xs) else Dedup(xs) + [x]
  {
    assert (xs + [x])[..|xs + [x]| - 1] == xs;
  }

  /** Reading on never shrinks a union. */
  lemma {:induction false} DedupGrows<T(!new)>(xs: seq<T>, more: seq<T>)
    ensures |Dedup(xs)| <= |Dedup(xs + more)|
  {
    if more == [] {
      assert xs + more == xs;
    } else {
      var init, last := more[..|more| - 1], more[|more| - 1];
      DedupGrows(xs, init);
      assert xs + more == (xs + init) + [last];
      DedupSnoc(xs + init, last);
    }
  }

  /** One more element of `more`, and how the whole compares with any prefix. */
  lemma DedupPrefix<T(!new)>(xs: seq<T>, more: seq<T>, j: nat, taken: seq<T>) returns (next: seq<T>)
    requires j < |more| && taken == xs + more[..j]
    ensures next == xs + more[..j + 1]
    ensures Dedup(next) == if more[j] in Dedup(taken) then Dedup(taken) else Dedup(taken) + [more[j]]
    ensures |Dedup(next)| <= |Dedup(xs + more)|
  {
    next := taken + [more[j]];
    DedupSnoc(taken, more[j]);
    SplitAfter(xs, more, j, next);
    DedupGrows(next, more[j + 1..]);
  }

  lemma SplitAfter<T>(xs: seq<T>, more: seq<T>, j: nat, next: seq<T>)
    requires j < |more| && next == xs + more[..j] + [more[j]]
    ensures next == xs + more[..j + 1]
    ensures xs + more == next + more[j + 1..]
  {
  }

  /** A duplicate-free list drawn from another list is no longer than it. */
  lemma {:induction false} NoLonger<T(!new)>(xs: seq<T>, ys: seq<T>)
    requires NoDuplicates(xs) && forall x :: x in xs ==> x in ys
    ensures |xs| <= |ys|
  {
    if xs != [] {
      var x, rest := xs[|xs| - 1], xs[..|xs| - 1];
      assert x in xs && x in ys;
      var i :| 0 <= i < |ys| && ys[i] == x;
      var others := ys[..i] + ys[i + 1..];
      forall z | z in rest ensures z in others {
        assert z in xs && z in ys;
        var j :| 0 <= j < |ys| && ys[j] == z;
        assert j != i;
        if j < i { assert others[j] == z; } else { assert others[j - 1] == z; }
      }
      NoLonger(rest, others);
    }
  }

  /** The paths (or subtree prefixes) of the entries after `since`, concatenated. */
  function PathsAfter(entries: seq<Published>, since: int): seq<Path> {
    if entries == [] then []
    else
      var e := entries[|entries| - 1];
      PathsAfter(entries[..|entries| - 1], since) + (if e.revision > since then e.paths else [])
  }

  function SubtreesAfter(entries: seq<Published>, since: int): seq<Path> {
    if entries == [] then []
    else
      var e := entries[|entries| - 1];
      SubtreesAfter(entries[..|entries| - 1], since) + (if e.revision > since then e.subtrees else [])
  }

  /** The duplicate-free unions. */
  function PathUnion(entries: seq<Published>, since: int): seq<Path> {
    Dedup(PathsAfter(entries, since))
  }

  function SubtreeUnion(entries: seq<Published>, since: int): seq<Path> {
    Dedup(SubtreesAfter(entries, since))
  }

  predicate NamesPath(e: Published, since: int, p: Path) {
    e.revision > since && p in e.paths
  }

  predicate NamesSubtree(e: Published, since: int, p: Path) {
    e.revision > since && p in e.subtrees
  }

  lemma {:induction false} PathsAfterMembers(entries: seq<Published>, since: int, p: Path)
    ensures p in PathsAfter(entries, since) ==> exists i :: 0 <= i < |entries| && NamesPath(entries[i], since, p)
  {
    if p in PathsAfter(entries, since) {
      var n := |entries| - 1;
      if p in PathsAfter(entries[..n], since) {
        PathsAfterMembers(entries[..n], since, p);
        var i :| 0 <= i < n && NamesPath(entries[..n][i], since, p);
        assert NamesPath(entries[i], since, p);
      } else {
        assert NamesPath(entries[n], since, p);
      }
    }
  }

  lemma {:induction false} SubtreesAfterMembers(entries: seq<Published>, since: int, p: Path)
    ensures p in SubtreesAfter(entries, since) ==>
      exists i :: 0 <= i < |entries| && NamesSubtree(entries[i], since, p)
  {
    if p in SubtreesAfter(entries, since) {
      var n := |entries| - 1;
      if p in SubtreesAfter(entries[..n], since) {
        SubtreesAfterMembers(entries[..n], since, p);
        var i :| 0 <= i < n && NamesSubtree(entries[..n][i], since, p);
        assert NamesSubtree(entries[i], since, p);
      } else {
        assert NamesSubtree(entries[n], since, p);
      }
    }
  }

  lemma {:induction false} NewerEntriesCount(entries: seq<Published>, j: nat, since: int)
    requires j < |entries| && entries[j].revision > since
    ensures forall p :: p in entries[j].paths ==> p in PathsAfter(entries, since)
    ensures forall p :: p in entries[j].subtrees ==> p in SubtreesAfter(entries, since)
    decreases |entries|
  {
    if j < |entries| - 1 { NewerEntriesCount(entries[..|entries| - 1], j, since); }
  }

  /** The unions hold what publications after `since` named, and nothing else. */
  lemma UnionMembers(entries: seq<Published>, since: int, p: Path)
    ensures p in PathUnion(entries, since) <==> exists i :: 0 <= i < |entries| && NamesPath(entries[i], since, p)
    ensures p in SubtreeUnion(entries, since) <==> exists i :: 0 <= i < |entries| && NamesSubtree(entries[i], since, p)
  {
    PathsAfterMembers(entries, since, p);
    SubtreesAfterMembers(entries, since, p);
    if i :| 0 <= i < |entries| && NamesPath(entries[i], since, p) { NewerEntriesCount(entries, i, since); }
    if i :| 0 <= i < |entries| && NamesSubtree(entries[i], since, p) { NewerEntriesCount(entries, i, since); }
  }

  /** Report two unions unless either passes the cap. */
  function Capped(paths: seq<Path>, subtrees: seq<Path>): Option<Affected> {
    if |paths| > WATCH_PATHS_LIMIT || |subtrees| > WATCH_PATHS_LIMIT then None else Some(Affected(paths, subtrees))
  }

  lemma {:induction false} UnionsGrow(entries: seq<Published>, i: nat, since: int)
    requires i <= |entries|
    ensures |PathUnion(entries[..i], since)| <= |PathUnion(entries, since)|
    ensures |SubtreeUnion(entries[..i], since)| <= |SubtreeUnion(entries, since)|
    decreases |entries|
  {
    if i == |entries| {
      assert entries[..i] == entries;
    } else {
      var init, e := entries[..|entries| - 1], entries[|entries| - 1];
      UnionsGrow(init, i, since);
      assert init[..i] == entries[..i];
      DedupGrows(PathsAfter(init, since), if e.revision > since then e.paths else []);
      DedupGrows(SubtreesAfter(init, since), if e.revision > since then e.subtrees else []);
    }
  }

  lemma AfterPrefix(entries: seq<Published>, i: nat, since: int)
    requires i < |entries|
    ensures PathsAfter(entries[..i + 1], since) ==
      PathsAfter(entries[..i], since) + (if entries[i].revision > since then entries[i].paths else [])
    ensures SubtreesAfter(entries[..i + 1], since) ==
      SubtreesAfter(entries[..i], since) + (if entries[i].revision > since then entries[i].subtrees else [])
  {
    assert entries[..i + 1][..i] == entries[..i];
  }

  // ---- the history and what it answers -------------------------------------

  /** `publicationHistory` and `publicationHistoryFloor`. */
  datatype History = History(entries: seq<Published>, floor: int)

  /** Retain one more publication, evicting the oldest beyond the limit. */
  function Record(h: History, e: Published): History {
    var grown := h.entries + [e];
    if |grown| <= PUBLICATION_HISTORY_LIMIT then h.(entries := grown)
    else
      var surplus := |grown| - PUBLICATION_HISTORY_LIMIT;
      History(grown[surplus..], grown[surplus - 1].revision)
  }

  /** The affected set after `since`, or `None` for a truncated answer. */
  function Since(h: History, since: int): Option<Affected> {
    if h.entries == [] || since < h.floor then None
    else Capped(PathUnion(h.entries, since), SubtreeUnion(h.entries, since))
  }

  // ---- against the log of everything ever published ------------------------

  ghost predicate Increasing(log: seq<Published>, initial: int) {
    && (forall i :: 0 <= i < |log| ==> initial < log[i].revision)
    && (forall i, j :: 0 <= i < j < |log| ==> log[i].revision < log[j].revision)
  }

  /** The newest revision no longer retained once all of `log` was published. */
  function FloorOf(log: seq<Published>, initial: int): int {
    if |log| <= PUBLICATION_HISTORY_LIMIT then initial
    else log[|log| - PUBLICATION_HISTORY_LIMIT - 1].revision
  }

  function RevisionOf(log: seq<Published>, initial: int): int {
    if log == [] then initial else log[|log| - 1].revision
  }

  function Retained(log: seq<Published>): (n: nat)
    ensures n <= |log|
  {
    if |log| <= PUBLICATION_HISTORY_LIMIT then |log| else PUBLICATION_HISTORY_LIMIT
  }

  /** `h` retains exactly the newest publications of `log`. */
  ghost predicate Retains(h: History, log: seq<Published>, initial: int) {
    && h.entries == log[|log| - Retained(log)..]
    && h.floor == FloorOf(log, initial)
  }

  lemma RecordRetains(h: History, e: Published, log: seq<Published>, initial: int)
    requires Retains(h, log, initial)
    ensures Retains(Record(h, e), log + [e], initial)
  {
    var all := log + [e];
    var grown := h.entries + [e];
    assert grown == all[|log| - Retained(log)..];
    if |log| >= PUBLICATION_HISTORY_LIMIT {
      assert grown[1..] == all[|log| - PUBLICATION_HISTORY_LIMIT + 1..];
    }
  }

  lemma IncreasingSnoc(log: seq<Published>, e: Published, initial: int)
    requires Increasing(log, initial) && RevisionOf(log, initial) < e.revision
    ensures Increasing(log + [e], initial)
  {
  }

  lemma {:induction false} OnlyOldEntries(evicted: seq<Published>, since: int)
    requires forall i :: 0 <= i < |evicted| ==> evicted[i].revision <= since
    ensures PathsAfter(evicted, since) == [] && SubtreesAfter(evicted, since) == []
  {
    if evicted != [] { OnlyOldEntries(evicted[..|evicted| - 1], since); }
  }

  lemma {:induction false} OldEntriesDoNotCount(evicted: seq<Published>, entries: seq<Published>, since: int)
    requires forall i :: 0 <= i < |evicted| ==> evicted[i].revision <= since
    ensures PathsAfter(evicted + entries, since) == PathsAfter(entries, since)
    ensures SubtreesAfter(evicted + entries, since) == SubtreesAfter(entries, since)
    decreases |entries|
  {
    if entries == [] {
      assert evicted + entries == evicted;
      OnlyOldEntries(evicted, since);
    } else {
      var all, init := evicted + entries, entries[..|entries| - 1];
      assert all[..|all| - 1] == evicted + init && all[|all| - 1] == entries[|entries| - 1];
      OldEntriesDoNotCount(evicted, init, since);
    }
  }

  /** The answer the feed owes a watcher at `since`, told from the whole log. */
  function Owed(log: seq<Published>, initial: int, since: int): Option<Affected> {
    if log == [] || since < FloorOf(log, initial) then None
    else Capped(PathUnion(log, since), SubtreeUnion(log, since))
  }

  lemma OwedIsUnion(log: seq<Published>, initial: int, since: int)
    requires Owed(log, initial, since).Some?
    ensures Owed(log, initial, since).value == Affected(PathUnion(log, since), SubtreeUnion(log, since))
  {
  }

  /** Complete or truncated: the bounded history answers every watcher exactly as
      the unbounded log of everything ever published would. */
  lemma AnswersAreCompleteOrTruncated(h: History, log: seq<Published>, initial: int, since: int)
    requires Retains(h, log, initial) && Increasing(log, initial)
    ensures Since(h, since) == Owed(log, initial, since)
  {
    if since >= h.floor {
      var evicted := log[..|log| - Retained(log)];
      assert log == evicted + h.entries;
      EvictedAreSeen(log, initial, since);
      OldEntriesDoNotCount(evicted, h.entries, since);
    }
  }

  lemma EvictedAreSeen(log: seq<Published>, initial: int, since: int)
    requires Increasing(log, initial) && since >= FloorOf(log, initial)
    ensures forall i :: 0 <= i < |log| - Retained(log) ==> log[i].revision <= since
  {
  }

  /** Every recorded subtree prefix is also a recorded path. */
  ghost predicate SubtreesWithinPaths(entries: seq<Published>) {
    forall i, p :: 0 <= i < |entries| && p in entries[i].subtrees ==> p in entries[i].paths
  }

  lemma {:induction false} SubtreeUnionWithinPathUnion(entries: seq<Published>, since: int)
    requires SubtreesWithinPaths(entries)
    ensures forall p :: p in SubtreesAfter(entries, since) ==> p in PathsAfter(entries, since)
  {
    if entries != [] {
      SubtreeUnionWithinPathUnion(entries[..|entries| - 1], since);
    }
  }

  /** While producers keep subtrees within paths, the second cap is dead: an
      answer is truncated by the path cap or by the floor, never by subtrees. */
  lemma SubtreeCapNeverFires(h: History, since: int)
    requires SubtreesWithinPaths(h.entries)
    ensures Since(h, since).None? <==>
      h.entries == [] || since < h.floor || |PathUnion(h.entries, since)| > WATCH_PATHS_LIMIT
  {
    SubtreeUnionWithinPathUnion(h.entries, since);
    NoLonger(SubtreeUnion(h.entries, since), PathUnion(h.entries, since));
  }

  /** An empty history can only be asked about from below its floor, so the
      emptiness test never hides an answer that could have been given. */
  lemma EmptyHistoryIsBelowFloor(h: History, log: seq<Published>, initial: int, since: int)
    requires Retains(h, log, initial) && h.entries == [] && since < RevisionOf(log, initial)
    ensures since < h.floor
  {
  }
}
