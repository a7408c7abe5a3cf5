/** Namespace mutations: what a batch does to the store, and which paths and
    subtrees the gateway reports as affected by it. */
module Mutations {
  import opened Prelude
  import opened Paths
  import opened PublicationFeed
  import opened Namespace

  datatype Mutation =
    | CreateFile(path: Path, mode: Option<int>)
    | CreateDirectory(path: Path, mode: Option<int>)
    | SetMode(path: Path, newMode: int)
    | CreateSymlink(path: Path, target: string)
    | CreateHardLink(source: Path, destination: Path)
    | DeleteFile(path: Path)
    | RemoveDirectory(path: Path)
    | Rename(from: Path, to: Path)

  /** `mutationPaths`. */
  function OwnPaths(m: Mutation): seq<Path> {
    match m
    case CreateHardLink(source, destination) => [source, destination]
    case Rename(from, to) => [from, to]
    case _ => [m.path]
  }

  predicate SupersedesSubtrees(m: Mutation) {
    m.RemoveDirectory? || m.Rename?
  }

  /** Request validation refuses a mutation of the root. */
  predicate WellFormed(m: Mutation) {
    match m
    case CreateHardLink(source, destination) => source != ROOT && destination != ROOT
    case Rename(from, to) => from != ROOT && to != ROOT
    case _ => m.path != ROOT
  }

  // ---- the affected set ----------------------------------------------------

  function WithParents(paths: seq<Path>): seq<Path> {
    if paths == [] then [] else [paths[0], Parent(paths[0])] + WithParents(paths[1..])
  }

  function SnapshotPaths(ms: seq<Mutation>): seq<Path> {
    if ms == [] then []
    else SnapshotPaths(ms[..|ms| - 1]) + WithParents(OwnPaths(ms[|ms| - 1]))
  }

  function Superseded(ms: seq<Mutation>): seq<Path> {
    if ms == [] then []
    else
      var m := ms[|ms| - 1];
      Superseded(ms[..|ms| - 1]) + (if SupersedesSubtrees(m) then OwnPaths(m) else [])
  }

  /** What one publication of `ms` reports. */
  function Report(ms: seq<Mutation>): Affected {
    Affected(SnapshotPaths(ms), Superseded(ms))
  }

  /** The paths a watcher told `a` must give up. */
  ghost function Cover(a: Affected): iset<Path> {
    iset p | p in a.paths || exists i :: 0 <= i < |a.subtrees| && AtOrBelow(p, a.subtrees[i])
  }

  /** Every path a batch touches, each followed by its parent. */
  method MutationSnapshotPaths(ms: seq<Mutation>) returns (paths: seq<Path>)
    ensures paths == SnapshotPaths(ms)
  {
    paths := [];
    for i := 0 to |ms|
      invariant paths == SnapshotPaths(ms[..i])
    {
      var own := OwnPaths(ms[i]);
      ghost var before := paths;
      assert ms[..i + 1][..i] == ms[..i];
      for j := 0 to |own|
        invariant paths + WithParents(own[j..]) == before + WithParents(own)
      {
        paths := paths + [own[j], Parent(own[j])];
        assert own[j..][1..] == own[j + 1..];
      }
    }
    assert ms[..|ms|] == ms;
  }

  /** The prefixes a batch superseded wholesale. */
  method MutationSupersededSubtrees(ms: seq<Mutation>) returns (prefixes: seq<Path>)
    ensures prefixes == Superseded(ms)
  {
    prefixes := [];
    for i := 0 to |ms|
      invariant prefixes == Superseded(ms[..i])
    {
      assert ms[..i + 1][..i] == ms[..i];
      if !SupersedesSubtrees(ms[i]) { continue; }
      prefixes := prefixes + OwnPaths(ms[i]);
    }
    assert ms[..|ms|] == ms;
  }

  /** `p` is mutated by `m`, or is the parent of a path that is. */
  ghost predicate Touches(m: Mutation, p: Path) {
    exists q :: q in OwnPaths(m) && (p == q || p == Parent(q))
  }

  lemma {:induction false} WithParentsMembers(paths: seq<Path>, p: Path)
    ensures p in WithParents(paths) <==> exists q :: q in paths && (p == q || p == Parent(q))
  {
    if paths != [] {
      WithParentsMembers(paths[1..], p);
      assert forall q :: q in paths <==> q == paths[0] || q in paths[1..];
    }
  }

  lemma SomeTouches(ms: seq<Mutation>, p: Path)
    requires ms != []
    ensures var init, m := ms[..|ms| - 1], ms[|ms| - 1];
      (exists i :: 0 <= i < |ms| && Touches(ms[i], p))
      <==> (exists i :: 0 <= i < |init| && Touches(init[i], p)) || Touches(m, p)
  {
    var init := ms[..|ms| - 1];
    if i :| 0 <= i < |init| && Touches(init[i], p) { assert Touches(ms[i], p); }
    if i :| 0 <= i < |ms| && Touches(ms[i], p) { assert i < |init| ==> Touches(init[i], p); }
  }

  /** The reported paths are exactly the mutated paths and their parents. */
  lemma {:induction false} SnapshotMembers(ms: seq<Mutation>, p: Path)
    ensures p in SnapshotPaths(ms) <==> exists i :: 0 <= i < |ms| && Touches(ms[i], p)
  {
    if ms != [] {
      var init, m := ms[..|ms| - 1], ms[|ms| - 1];
      SnapshotMembers(init, p);
      WithParentsMembers(OwnPaths(m), p);
      assert p in SnapshotPaths(ms) <==> p in SnapshotPaths(init) || Touches(m, p);
      SomeTouches(ms, p);
    }
  }

  lemma {:induction false} SupersededMembers(ms: seq<Mutation>, p: Path)
    ensures p in Superseded(ms) <==>
      exists i :: 0 <= i < |ms| && SupersedesSubtrees(ms[i]) && p in OwnPaths(ms[i])
  {
    if ms != [] {
      var init := ms[..|ms| - 1];
      SupersededMembers(init, p);
      assert forall i :: 0 <= i < |init| ==> ms[i] == init[i];
    }
  }

  /** Reported subtrees are reported paths too, so the feed's second cap is dead. */
  lemma SupersededWithinSnapshot(ms: seq<Mutation>, p: Path)
    requires p in Superseded(ms)
    ensures p in SnapshotPaths(ms)
  {
    SupersededMembers(ms, p);
    var i :| 0 <= i < |ms| && SupersedesSubtrees(ms[i]) && p in OwnPaths(ms[i]);
    assert Touches(ms[i], p);
    SnapshotMembers(ms, p);
  }

  // ---- applying a mutation -------------------------------------------------

  function AddEntry(s: Store, p: Path, node: Node, now: int): Store {
    Touch(Bind(s, p, node), Parent(p), now)
  }

  /** Create `d` and whatever is missing above it; `None` if a non-directory is in the way. */
  function MakeDirs(s: Store, d: Path, now: int): Option<Store>
    decreases |d|
  {
    if d in s.names then (if IsDir(s, d) then Some(s) else None)
    else if d == ROOT then None
    else
      match MakeDirs(s, Parent(d), now)
      case None => None
      case Some(t) => Some(AddEntry(t, d, Node(Directory, DEFAULT_DIRECTORY_MODE, now), now))
  }

  function CreateEntry(s: Store, p: Path, node: Node, now: int): Option<Store> {
    match MakeDirs(s, Parent(p), now)
    case None => None
    case Some(t) => Some(AddEntry(t, p, node, now))
  }

  predicate HasChildren(s: Store, p: Path) {
    exists q | q in s.names :: p <= q && q != p
  }

  function RemoveEntry(s: Store, p: Path, now: int): Store {
    Touch(Unlink(s, p), Parent(p), now)
  }

  predicate SameNode(s: Store, p: Path, q: Path) {
    p in s.names && q in s.names && s.names[p] == s.names[q]
  }

  /** What the store's surroundings decide: the time, whether a symlink leads to
      anything that exists, and the order in which a directory tree is read, as the
      suffixes of its names. */
  datatype Env = Env(now: int, leads: (Store, Path) -> bool, order: (Store, Path) -> seq<Path>)

  function KindAt(s: Store, p: Path): Option<Kind> {
    if p in s.names && s.names[p] < |s.nodes| then Some(s.nodes[s.names[p]].kind) else None
  }

  /** `Path::exists`, which follows a symlink. */
  predicate Exists(s: Store, p: Path, env: Env) {
    && p in s.names
    && (KindAt(s, p).Some? && KindAt(s, p).value.Symlink? ==> env.leads(s, p))
  }

  /** The same tree of names with the same contents, permissions aside. */
  predicate Equivalent(s: Store, a: Path, b: Path) {
    forall q {:trigger SameAt(s, a, b, q)} | q in s.names :: SameAt(s, a, b, q)
  }

  predicate SameAt(s: Store, a: Path, b: Path, q: Path) {
    && (a <= q ==> KindAt(s, b + q[|a|..]) == KindAt(s, q))
    && (b <= q ==> KindAt(s, a + q[|b|..]) == KindAt(s, q))
  }

  /** A rename that finds its outcome already there: a replay. */
  predicate Replays(s: Store, from: Path, to: Path, env: Env) {
    from in s.names && Exists(s, to, env) && Equivalent(s, from, to)
  }

  function CopyMode(s: Store, from: Path, to: Path): Store {
    if KindAt(s, from).Some? && !KindAt(s, from).value.Symlink? then Chmod(s, to, s.nodes[s.names[from]].mode) else s
  }

  /** The permissions of one tree set on another, name by name. */
  function CopyModes(s: Store, from: Path, to: Path, order: seq<Path>): Store {
    if order == [] then s
    else
      var x := order[|order| - 1];
      CopyMode(CopyModes(s, from, to, order[..|order| - 1]), from + x, to + x)
  }

  /** A replayed rename keeps the target, with the source's permissions, and
      removes the source. */
  function Replayed(s: Store, from: Path, to: Path, env: Env): Store {
    Touch(RemoveTree(CopyModes(s, from, to, env.order(s, from)), from), Parent(from), env.now)
  }

  function ApplyRename(s: Store, from: Path, to: Path, env: Env): Option<Store> {
    if from !in s.names then Some(s)
    else if Replays(s, from, to, env) then Some(Replayed(s, from, to, env))
    else if SameNode(s, from, to) then Some(s)
    else if from <= to || (to in s.names && (IsDir(s, from) != IsDir(s, to) || HasChildren(s, to))) then None
    else
      match MakeDirs(s, Parent(to), env.now)
      case None => None
      case Some(t) =>
        var cleared := if to in s.names then Unlink(t, to) else t;
        Some(Touch(Touch(Move(cleared, from, to), Parent(from), env.now), Parent(to), env.now))
  }

  /** One mutation, or `None` where the store refuses the batch. */
  function Apply(s: Store, m: Mutation, env: Env): Option<Store> {
    var now := env.now;
    match m
    case CreateFile(p, mode) =>
      if p in s.names then None
      else CreateEntry(s, p, Node(File(""), if mode.Some? then mode.value else DEFAULT_FILE_MODE, now), now)
    case CreateDirectory(p, mode) => (
      match MakeDirs(s, p, now)
      case None => None
      case Some(t) => Some(if mode.Some? then Chmod(t, p, mode.value) else t))
    case SetMode(p, mode) =>
      if p !in s.names then Some(s)
      else if s.names[p] < |s.nodes| && s.nodes[s.names[p]].kind.Symlink? then None
      else Some(Chmod(s, p, mode))
    case CreateSymlink(p, target) =>
      if p in s.names then
        if s.names[p] < |s.nodes| && s.nodes[s.names[p]].kind == Symlink(target) then Some(s) else None
      else CreateEntry(s, p, Node(Symlink(target), 0, now), now)
    case CreateHardLink(source, destination) =>
      if source !in s.names || s.names[source] >= |s.nodes| || !s.nodes[s.names[source]].kind.File? then None
      else if destination in s.names then (if SameNode(s, source, destination) then Some(s) else None)
      else (
        match MakeDirs(s, Parent(destination), now)
        case None => None
        case Some(t) => Some(Touch(Link(t, destination, s.names[source]), Parent(destination), now)))
    case DeleteFile(p) =>
      if p !in s.names then Some(s) else if IsDir(s, p) then None else Some(RemoveEntry(s, p, now))
    case RemoveDirectory(p) =>
      if p !in s.names then Some(s)
      else if !IsDir(s, p) || HasChildren(s, p) then None
      else Some(RemoveEntry(s, p, now))
    case Rename(from, to) => ApplyRename(s, from, to, env)
  }

  /** A batch the store takes as a whole. */
  function ApplyAll(s: Store, ms: seq<Mutation>, env: Env): Option<Store>
    decreases |ms|
  {
    if ms == [] then Some(s)
    else
      match Apply(s, ms[0], env)
      case None => None
      case Some(t) => ApplyAll(t, ms[1..], env)
  }

  // ---- when a report is enough ---------------------------------------------

  /** The directories missing on the way to `d`, `d` included. */
  ghost function Missing(s: Store, d: Path): iset<Path> {
    iset x | AtOrBelow(d, x) && x !in s.names
  }

  /** A rename that is carried out: there is a source, and it is not there yet. */
  predicate Relocates(s: Store, from: Path, to: Path, env: Env) {
    from in s.names && !Replays(s, from, to, env) && !SameNode(s, from, to)
  }

  /** Directories the store creates on the side. */
  ghost function NewDirs(s: Store, m: Mutation, env: Env): iset<Path> {
    match m
    case CreateFile(p, _) => Missing(s, Parent(p))
    case CreateDirectory(p, _) => Missing(s, Parent(p))
    case CreateSymlink(p, _) => if p in s.names then iset{} else Missing(s, Parent(p))
    case CreateHardLink(_, destination) => if destination in s.names then iset{} else Missing(s, Parent(destination))
    case Rename(from, to) => if Relocates(s, from, to, env) then Missing(s, Parent(to)) else iset{}
    case _ => iset{}
  }

  /** Inodes whose metadata changes under every name they have. */
  function Disturbed(s: Store, m: Mutation, env: Env): set<nat> {
    match m
    case SetMode(p, mode) =>
      if p in s.names && s.names[p] < |s.nodes| && s.nodes[s.names[p]].mode != mode then {s.names[p]} else {}
    case CreateHardLink(source, destination) =>
      if source in s.names && destination !in s.names then {s.names[source]} else {}
    case DeleteFile(p) => if p in s.names then {s.names[p]} else {}
    case Rename(from, to) =>
      if Replays(s, from, to, env) then Removed(s, from) + Remoded(s, CopyModes(s, from, to, env.order(s, from)))
      else if Relocates(s, from, to, env) && to in s.names && !IsDir(s, to) then {s.names[to]}
      else {}
    case _ => {}
  }

  /** The inodes that lose a name with the tree at `p`. */
  function Removed(s: Store, p: Path): set<nat> {
    set q | q in s.names && p <= q :: s.names[q]
  }

  /** The inodes whose permissions differ. */
  function Remoded(s: Store, t: Store): set<nat> {
    set ino | 0 <= ino < |s.nodes| && ino < |t.nodes| && t.nodes[ino].mode != s.nodes[ino].mode
  }

  ghost predicate NewDirsCovered(s: Store, m: Mutation, env: Env, cov: iset<Path>) {
    forall d :: d in NewDirs(s, m, env) ==> PointCovered(d, cov)
  }

  /** Nothing outside `cov` is created or disturbed: no directory springs up
      beyond it, and no inode the mutation disturbs has a name beyond it. */
  ghost predicate Contained(s: Store, m: Mutation, env: Env, cov: iset<Path>) {
    && NewDirsCovered(s, m, env, cov)
    && (forall ino :: ino in Disturbed(s, m, env) ==> Enclosed(s, ino, cov))
  }

  /** `d`, or the nearest directory above it that exists. */
  function Nearest(s: Store, d: Path): Path
    decreases |d|
  {
    if d in s.names || d == ROOT then d else Nearest(s, Parent(d))
  }

  /** The directories that gain or lose an entry. */
  function Restamped(s: Store, m: Mutation, env: Env): set<Path> {
    match m
    case CreateFile(p, _) => {Nearest(s, Parent(p))}
    case CreateDirectory(p, _) => if p in s.names then {} else {Nearest(s, Parent(p))}
    case CreateSymlink(p, _) => if p in s.names then {} else {Nearest(s, Parent(p))}
    case CreateHardLink(_, p) => if p in s.names then {} else {Nearest(s, Parent(p))}
    case SetMode(_, _) => {}
    case DeleteFile(p) => if p in s.names then {Parent(p)} else {}
    case RemoveDirectory(p) => if p in s.names then {Parent(p)} else {}
    case Rename(from, to) =>
      if Replays(s, from, to, env) then {Parent(from)}
      else if Relocates(s, from, to, env) then {Parent(from), Nearest(s, Parent(to))}
      else {}
  }

  /** Every directory whose bookkeeping changes is the root, or the listing that
      shows it is within `cov`. */
  ghost predicate StampsCovered(s: Store, m: Mutation, env: Env, cov: iset<Path>) {
    ListedWithin(s, Restamped(s, m, env), env.now, cov)
  }

  ghost predicate ListedWithin(s: Store, ds: set<Path>, now: int, cov: iset<Path>) {
    forall d :: d in ds && IsDir(s, d) && s.nodes[s.names[d]].stamp != now ==> d == ROOT || Parent(d) in cov
  }

  ghost predicate TreeCovered(p: Path, cov: iset<Path>) {
    PointCovered(p, cov) && forall q :: AtOrBelow(q, p) ==> q in cov
  }

  /** `cov` includes what the gateway reports for `m`. */
  ghost predicate Reported(m: Mutation, cov: iset<Path>) {
    match m
    case Rename(from, to) => TreeCovered(from, cov) && TreeCovered(to, cov)
    case RemoveDirectory(p) => TreeCovered(p, cov)
    case CreateHardLink(source, destination) => PointCovered(source, cov) && PointCovered(destination, cov)
    case _ => PointCovered(m.path, cov)
  }

  lemma ReportCoversPoint(ms: seq<Mutation>, i: nat, p: Path)
    requires i < |ms| && p in OwnPaths(ms[i])
    ensures PointCovered(p, Cover(Report(ms)))
  {
    assert Touches(ms[i], p) && Touches(ms[i], Parent(p));
    SnapshotMembers(ms, p);
    SnapshotMembers(ms, Parent(p));
  }

  lemma ReportCoversTree(ms: seq<Mutation>, i: nat, p: Path)
    requires i < |ms| && p in OwnPaths(ms[i]) && SupersedesSubtrees(ms[i])
    ensures TreeCovered(p, Cover(Report(ms)))
  {
    ReportCoversPoint(ms, i, p);
    SupersededMembers(ms, p);
    assert p in Report(ms).subtrees;
  }

  lemma ReportIsReported(ms: seq<Mutation>, i: nat)
    requires i < |ms|
    ensures Reported(ms[i], Cover(Report(ms)))
  {
    var own := OwnPaths(ms[i]);
    ReportCoversPoint(ms, i, own[0]);
    if SupersedesSubtrees(ms[i]) { ReportCoversTree(ms, i, own[0]); }
    if |own| == 2 {
      ReportCoversPoint(ms, i, own[1]);
      if SupersedesSubtrees(ms[i]) { ReportCoversTree(ms, i, own[1]); }
    }
  }
}
