/** The everyday case: workspaces without second hard links, and changes that only put
    entries into directories that exist.  Such changes are always contained in their
    report, so watchers' caches stay coherent with nothing left to check. */
module PlainRuns {
  import opened Prelude
  import opened Paths
  import opened Coordinator
  import opened Namespace
  import opened Mutations
  import opened Containment
  import opened Writes
  import opened Coherence

  /** No inode has two names. */
  ghost predicate Unaliased(s: Store) {
    forall p, q :: p in s.names && q in s.names && s.names[p] == s.names[q] ==> p == q
  }

  /** Not a hard link, and where an entry is added its directory exists. */
  predicate Plain(s: Store, m: Mutation) {
    match m
    case CreateFile(p, _) => Parent(p) in s.names
    case CreateDirectory(p, _) => Parent(p) in s.names
    case CreateSymlink(p, _) => Parent(p) in s.names
    case CreateHardLink(_, _) => false
    case Rename(_, to) => Parent(to) in s.names
    case _ => true
  }

  // ---- plain mutations are contained ---------------------------------------

  lemma NoneMissing(s: Store, d: Path)
    requires Valid(s) && d in s.names
    ensures Missing(s, d) == iset{}
  {
    forall x | AtOrBelow(d, x) ensures x in s.names { AncestorsExist(s, d, x); }
  }

  lemma InTree(top: Path, q: Path, cov: iset<Path>)
    requires TreeCovered(top, cov) && AtOrBelow(q, top)
    ensures PointCovered(q, cov)
  {
    if q != top { assert AtOrBelow(Parent(q), top); }
  }

  lemma OnlyNameEnclosed(s: Store, p: Path, cov: iset<Path>)
    requires Unaliased(s) && p in s.names && PointCovered(p, cov)
    ensures Enclosed(s, s.names[p], cov)
  {
  }

  lemma PlainReplayEnclosed(s: Store, c: Store, from: Path, to: Path, cov: iset<Path>)
    requires Unaliased(s) && ModesBelow(s, c, to) && TreeCovered(from, cov) && TreeCovered(to, cov)
    ensures AllEnclosed(s, Removed(s, from) + Remoded(s, c), cov)
  {
    forall ino | ino in Removed(s, from) + Remoded(s, c) ensures Enclosed(s, ino, cov) {
      if ino in Removed(s, from) {
        var q :| q in s.names && from <= q && s.names[q] == ino;
        InTree(from, q, cov);
        OnlyNameEnclosed(s, q, cov);
      } else {
        assert NamedBelow(s, to, ino);
        var q :| q in s.names && AtOrBelow(q, to) && s.names[q] == ino;
        InTree(to, q, cov);
        OnlyNameEnclosed(s, q, cov);
      }
    }
  }

  lemma PlainRenameContained(s: Store, from: Path, to: Path, env: Env, cov: iset<Path>)
    requires Valid(s) && Unaliased(s) && Parent(to) in s.names && Reported(Rename(from, to), cov)
    ensures Contained(s, Rename(from, to), env, cov)
  {
    if Replays(s, from, to, env) {
      var c := CopyModes(s, from, to, env.order(s, from));
      CopyModesBelow(s, from, to, env.order(s, from));
      PlainReplayEnclosed(s, c, from, to, cov);
      ReplayContained(s, from, to, env, c, cov);
    } else {
      NoneMissing(s, Parent(to));
      if to in s.names { OnlyNameEnclosed(s, to, cov); }
    }
  }

  lemma PlainContained(s: Store, m: Mutation, env: Env, cov: iset<Path>)
    requires Valid(s) && Unaliased(s) && Plain(s, m) && Reported(m, cov)
    ensures Contained(s, m, env, cov)
  {
    match m
    case Rename(from, to) => PlainRenameContained(s, from, to, env, cov);
    case SetMode(p, _) => if p in s.names { OnlyNameEnclosed(s, p, cov); }
    case DeleteFile(p) => if p in s.names { OnlyNameEnclosed(s, p, cov); }
    case CreateFile(p, _) => NoneMissing(s, Parent(p));
    case CreateDirectory(p, _) => NoneMissing(s, Parent(p));
    case CreateSymlink(p, _) => NoneMissing(s, Parent(p));
    case _ =>
  }

  // ---- and leave no aliases ------------------------------------------------

  lemma AddEntryUnaliased(s: Store, p: Path, node: Node, now: int)
    requires Valid(s) && Unaliased(s)
    ensures Unaliased(AddEntry(s, p, node, now))
  {
    assert AddEntry(s, p, node, now).names == s.names[p := |s.nodes|];
  }

  lemma MakeDirUnaliased(s: Store, p: Path, now: int)
    requires Valid(s) && Unaliased(s) && Parent(p) in s.names && MakeDirs(s, p, now).Some?
    ensures Unaliased(MakeDirs(s, p, now).value)
  {
    if p !in s.names {
      assert MakeDirs(s, Parent(p), now) == Some(s);
      AddEntryUnaliased(s, p, Node(Directory, DEFAULT_DIRECTORY_MODE, now), now);
    }
  }

  lemma FewerNamesUnaliased(s: Store, t: Store)
    requires Unaliased(s) && forall q :: q in t.names ==> q in s.names && t.names[q] == s.names[q]
    ensures Unaliased(t)
  {
  }

  lemma MoveUnaliased(c: Store, v: Store, from: Path, to: Path)
    requires IsMove(c, v, from, to) && Unaliased(c)
    ensures Unaliased(v)
  {
    forall p, q | p in v.names && q in v.names && v.names[p] == v.names[q] ensures p == q {
      assert MovedTo(c, v, from, to, Source(from, to, p), p) && MovedTo(c, v, from, to, Source(from, to, q), q);
    }
  }

  lemma RelocationUnaliased(s: Store, u: Store, from: Path, to: Path, env: Env)
    requires Moves(s, u, from, to, env) && Unaliased(s) && Parent(to) in s.names
    ensures Unaliased(Renamed(Cleared(s, u, to), from, to, env.now))
  {
    var c := Cleared(s, u, to);
    ClearedCanMove(s, u, from, to, env);
    FewerNamesUnaliased(s, c);
    MoveIsMove(c, from, to);
    MoveUnaliased(c, Move(c, from, to), from, to);
    FewerNamesUnaliased(Move(c, from, to), Renamed(c, from, to, env.now));
  }

  lemma ReplayUnaliased(s: Store, from: Path, to: Path, env: Env)
    requires Unaliased(s)
    ensures Unaliased(Replayed(s, from, to, env))
  {
    CopyModesBelow(s, from, to, env.order(s, from));
    FewerNamesUnaliased(s, Replayed(s, from, to, env));
  }

  lemma CreationUnaliased(s: Store, p: Path, node: Node, now: int)
    requires Valid(s) && Unaliased(s) && Parent(p) in s.names && CreateEntry(s, p, node, now).Some?
    ensures Unaliased(CreateEntry(s, p, node, now).value)
  {
    assert MakeDirs(s, Parent(p), now) == Some(s);
    AddEntryUnaliased(s, p, node, now);
  }

  lemma PlainRenameUnaliased(s: Store, from: Path, to: Path, env: Env)
    requires Valid(s) && Unaliased(s) && Parent(to) in s.names && from != ROOT && to != ROOT
    requires ApplyRename(s, from, to, env).Some?
    ensures Unaliased(ApplyRename(s, from, to, env).value)
  {
    if Replays(s, from, to, env) {
      ReplayUnaliased(s, from, to, env);
    } else if Relocates(s, from, to, env) {
      RelocationApplies(s, from, to, env);
      RelocationUnaliased(s, MakeDirs(s, Parent(to), env.now).value, from, to, env);
    }
  }

  lemma SmallChangeUnaliased(s: Store, p: Path, mode: int, now: int)
    requires Unaliased(s)
    ensures Unaliased(Chmod(s, p, mode)) && Unaliased(RemoveEntry(s, p, now))
  {
    FewerNamesUnaliased(s, Chmod(s, p, mode));
    FewerNamesUnaliased(s, RemoveEntry(s, p, now));
  }

  lemma PlainUnaliased(s: Store, m: Mutation, env: Env)
    requires Valid(s) && Mutations.WellFormed(m) && Unaliased(s) && Plain(s, m) && Apply(s, m, env).Some?
    ensures Unaliased(Apply(s, m, env).value)
  {
    match m
    case CreateFile(p, mode) =>
      var node := Node(File(""), if mode.Some? then mode.value else DEFAULT_FILE_MODE, env.now);
      CreationUnaliased(s, p, node, env.now);
    case CreateSymlink(p, target) =>
      if p !in s.names { CreationUnaliased(s, p, Node(Symlink(target), 0, env.now), env.now); }
    case CreateDirectory(p, mode) =>
      MakeDirUnaliased(s, p, env.now);
      if mode.Some? { SmallChangeUnaliased(MakeDirs(s, p, env.now).value, p, mode.value, env.now); }
    case Rename(from, to) => PlainRenameUnaliased(s, from, to, env);
    case SetMode(p, mode) => SmallChangeUnaliased(s, p, mode, env.now);
    case DeleteFile(p) => SmallChangeUnaliased(s, p, 0, env.now);
    case RemoveDirectory(p) => SmallChangeUnaliased(s, p, 0, env.now);
    case CreateHardLink(_, _) =>
  }

  // ---- plain writes --------------------------------------------------------

  /** Every file is written in a directory that exists, is not the root, and gets a new
      file from the same list. */
  ghost predicate PlainWrites(s: Store, ws: seq<Write>) {
    && WellFormedWrites(ws)
    && (forall i :: 0 <= i < |ws| ==> Parent(ws[i].path) in s.names && Hosts(s, ws, Parent(ws[i].path)))
  }

  lemma WrittenCovered(s: Store, ws: seq<Write>, digest: string -> string, q: Path)
    requires PlainWrites(s, ws) && Written(ws, q)
    ensures PointCovered(q, Cover(WritesReport(s, ws, digest)))
  {
    WritesCover(s, ws, digest, q);
    WritesCover(s, ws, digest, Parent(q));
  }

  lemma PlainNewName(s: Store, ws: seq<Write>, q: Path)
    requires Valid(s) && PlainWrites(s, ws) && NewName(s, ws, q)
    ensures Written(ws, q)
  {
    if q !in s.names {
      var i :| 0 <= i < |ws| && q <= ws[i].path;
      PrefixStep(q, ws[i].path);
      if q <= Parent(ws[i].path) { AncestorsExist(s, Parent(ws[i].path), q); }
    }
  }

  lemma {:induction false} LastWritten(s: Store, ws: seq<Write>, ino: nat)
    requires LastContent(s, ws, ino).Some?
    ensures exists i :: 0 <= i < |ws| && ws[i].path in s.names && s.names[ws[i].path] == ino
  {
    var last := |ws| - 1;
    if !(ws[last].path in s.names && s.names[ws[last].path] == ino) {
      LastWritten(s, ws[..last], ino);
      var i :| 0 <= i < last && ws[..last][i].path in s.names && s.names[ws[..last][i].path] == ino;
      assert ws[i] == ws[..last][i];
    }
  }

  /** The only name of a disturbed inode is written. */
  lemma PlainDisturbed(s: Store, ws: seq<Write>, now: int, q: Path)
    requires Unaliased(s) && q in s.names && Disturbs(s, ws, s.names[q], now)
    ensures Written(ws, q)
  {
    if Rewritten(s, ws, s.names[q], now) { LastWritten(s, ws, s.names[q]); }
  }

  lemma PlainFreshened(s: Store, ws: seq<Write>, now: int, digest: string -> string, d: Path)
    requires Valid(s) && PlainWrites(s, ws) && Freshened(s, ws, d, now)
    ensures d in Cover(WritesReport(s, ws, digest))
  {
    var i :| 0 <= i < |ws| && StagedBy(s, ws[i], s.names[d]);
    var e := Parent(ws[i].path);
    assert d in NamesOf(s, s.names[d]) && e in NamesOf(s, s.names[d]);
    WritesCover(s, ws, digest, d);
  }

  lemma PlainWritesContained(s: Store, ws: seq<Write>, now: int, digest: string -> string)
    requires Valid(s) && Unaliased(s) && PlainWrites(s, ws)
    ensures WritesContained(s, ws, now, Cover(WritesReport(s, ws, digest)))
  {
    var cov := Cover(WritesReport(s, ws, digest));
    forall q | NewName(s, ws, q) ensures PointCovered(q, cov) {
      PlainNewName(s, ws, q);
      WrittenCovered(s, ws, digest, q);
    }
    forall ino | Disturbs(s, ws, ino, now) ensures Enclosed(s, ino, cov) {
      forall q | q in s.names && s.names[q] == ino ensures PointCovered(q, cov) {
        PlainDisturbed(s, ws, now, q);
        WrittenCovered(s, ws, digest, q);
      }
    }
    forall d | Freshened(s, ws, d, now) ensures d in cov { PlainFreshened(s, ws, now, digest, d); }
  }

  lemma WriteUnaliased(s: Store, w: Write, now: int)
    requires Valid(s) && Unaliased(s) && Parent(w.path) in s.names && ApplyWrite(s, w, now).Some?
    ensures Unaliased(ApplyWrite(s, w, now).value)
  {
    if w.path !in s.names {
      CreationUnaliased(s, w.path, NewFile(w, now), now);
    } else if HoldsFile(s, w.path) {
      FewerNamesUnaliased(s, ApplyWrite(s, w, now).value);
    } else {
      AddEntryUnaliased(s, w.path, NewFile(w, now), now);
    }
  }

  lemma {:induction false} WritesUnaliased(s: Store, ws: seq<Write>, now: int)
    requires Valid(s) && Unaliased(s) && WellFormedWrites(ws) && ApplyWrites(s, ws, now).Some?
    requires forall i :: 0 <= i < |ws| ==> Parent(ws[i].path) in s.names
    ensures Unaliased(ApplyWrites(s, ws, now).value)
  {
    if ws != [] {
      var init, w := ws[..|ws| - 1], ws[|ws| - 1];
      WritesUnaliased(s, init, now);
      WritesWrote(s, init, now);
      var u := ApplyWrites(s, init, now).value;
      assert NameAfter(s, u, init, Parent(w.path));
      WriteUnaliased(u, w, now);
    }
  }

  // ---- plain runs ----------------------------------------------------------

  /** Plain mutations one after the other; for clients that read whole listings, the
      directories they restamp are listed within `cov`. */
  ghost predicate PlainBatch(full: bool, s: Store, ms: seq<Mutation>, env: Env, cov: iset<Path>)
    decreases |ms|
  {
    ms == [] ||
    (&& Mutations.WellFormed(ms[0]) && Plain(s, ms[0]) && (full ==> StampsCovered(s, ms[0], env, cov))
     && (Apply(s, ms[0], env).Some? ==> PlainBatch(full, Apply(s, ms[0], env).value, ms[1..], env, cov)))
  }

  ghost predicate PlainChange(full: bool, s: Store, c: Change) {
    match c
    case Batch(ms, env) => PlainBatch(full, s, ms, env, Cover(Report(ms)))
    case Writing(ws, now, digest) =>
      PlainWrites(s, ws) && (full ==> FreshenedListed(s, ws, now, Cover(WritesReport(s, ws, digest))))
  }

  lemma {:induction false} PlainBatchContained(full: bool, s: Store, ms: seq<Mutation>, env: Env, cov: iset<Path>)
    requires Valid(s) && Unaliased(s) && PlainBatch(full, s, ms, env, cov)
    requires forall i :: 0 <= i < |ms| ==> Reported(ms[i], cov)
    ensures ContainedBatch(full, s, ms, env, cov)
    ensures ApplyAll(s, ms, env).Some? ==> Unaliased(ApplyAll(s, ms, env).value)
    decreases |ms|
  {
    if ms != [] {
      PlainContained(s, ms[0], env, cov);
      if Apply(s, ms[0], env).Some? {
        KeptIffContained(s, ms[0], env, cov);
        PlainUnaliased(s, ms[0], env);
        PlainBatchContained(full, Apply(s, ms[0], env).value, ms[1..], env, cov);
      }
    }
  }

  /** A plain change is contained in its report and makes no aliases. */
  lemma PlainChangeContained(full: bool, s: Store, c: Change)
    requires Valid(s) && Unaliased(s) && PlainChange(full, s, c) && ApplyChange(s, c).Some?
    ensures ContainedChange(full, s, c) && Unaliased(ApplyChange(s, c).value)
  {
    match c
    case Batch(ms, env) =>
      forall i | 0 <= i < |ms| ensures Reported(ms[i], Cover(Report(ms))) { ReportIsReported(ms, i); }
      PlainBatchContained(full, s, ms, env, Cover(Report(ms)));
    case Writing(ws, now, digest) =>
      PlainWritesContained(s, ws, now, digest);
      WritesUnaliased(s, ws, now);
  }

  /** As `CanTake`, with plain changes instead of contained ones. */
  ghost predicate CanTakePlainly(cfg: Config, full: bool, y: System, p: Step) {
    if p.Publication? then
      && y.stores != [] && Enabled(y.server, CommitOf(Latest(y), p))
      && ApplyChange(Latest(y), p.change) == Some(y.server.store)
      && PlainChange(full, Latest(y), p.change)
    else CanTake(cfg, full, y, p)
  }

  ghost predicate PlainRun(cfg: Config, full: bool, y: System, steps: seq<Step>)
    decreases |steps|
  {
    steps == [] ||
    (CanTakePlainly(cfg, full, y, steps[0])
     && (CanTake(cfg, full, y, steps[0]) ==> PlainRun(cfg, full, Take(cfg, full, y, steps[0]), steps[1..])))
  }

  lemma PlainStepLegal(cfg: Config, full: bool, y: System, p: Step)
    requires StoreInv(y) && Unaliased(Latest(y)) && CanTakePlainly(cfg, full, y, p)
    ensures CanTake(cfg, full, y, p)
    ensures p.Publication? ==> Unaliased(y.server.store)
  {
    if p.Publication? { PlainChangeContained(full, Latest(y), p.change); }
  }

  lemma LatestAfter(cfg: Config, full: bool, y: System, p: Step)
    requires CanTake(cfg, full, y, p)
    ensures Take(cfg, full, y, p).stores == if p.Publication? then y.stores + [y.server.store] else y.stores
  {
  }

  lemma PlainStepUnaliased(cfg: Config, full: bool, y: System, p: Step)
    requires y.stores != [] && Unaliased(Latest(y)) && CanTake(cfg, full, y, p)
    requires p.Publication? ==> Unaliased(y.server.store)
    ensures Take(cfg, full, y, p).stores != [] && Unaliased(Latest(Take(cfg, full, y, p)))
  {
    LatestAfter(cfg, full, y, p);
  }

  lemma {:induction false} PlainRunLegal(cfg: Config, full: bool, y: System, steps: seq<Step>)
    requires SystemInv(cfg, full, y) && Unaliased(Latest(y)) && PlainRun(cfg, full, y, steps)
    ensures LegalRun(cfg, full, y, steps)
    decreases |steps|
  {
    if steps != [] {
      PlainStepLegal(cfg, full, y, steps[0]);
      PlainStepUnaliased(cfg, full, y, steps[0]);
      StepKeepsCoherence(cfg, full, y, steps[0]);
      PlainRunLegal(cfg, full, Take(cfg, full, y, steps[0]), steps[1..]);
    }
  }

  /** Starting from a workspace without second hard links, and as long as changes only
      put entries into directories that exist and make no hard links, no watcher ever
      keeps an entry that disagrees with the store; nor a whole listing, when the
      directories restamped are listed within the reports. */
  lemma PlainCachesStayCoherent(cfg: Config, full: bool, store: Store, steps: seq<Step>, id: string, k: Key)
    requires Valid(store) && Unaliased(store) && PlainRun(cfg, full, Start(cfg, store), steps)
    ensures LegalRun(cfg, full, Start(cfg, store), steps)
    ensures var y := RunSystem(cfg, full, Start(cfg, store), steps);
      id in y.watchers ==> CacheAgrees(cfg, y, y.watchers[id], k)
  {
    StartSound(cfg, full, store);
    PlainRunLegal(cfg, full, Start(cfg, store), steps);
    if id in RunSystem(cfg, full, Start(cfg, store), steps).watchers {
      CachesStayCoherent(cfg, full, store, steps, id, k);
    }
  }
}
