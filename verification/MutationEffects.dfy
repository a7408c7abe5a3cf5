/** What each namespace mutation leaves at the paths it names, and when it is refused:
    said of the store before and after, not of the steps in between. */
module MutationEffects {
  import opened Prelude
  import opened Paths
  import opened Namespace
  import opened Mutations
  import opened Containment
  import opened DirectoryTimes

  // ---- the vocabulary ------------------------------------------------------

  /** At `p` there is `node`, new to the store, under this one name. */
  predicate Fresh(s: Store, t: Store, p: Path, node: Node) {
    Stat(t, p).Some? && Stat(t, p).value.ino >= |s.nodes| && Stat(t, p).value == Meta(Stat(t, p).value.ino, node, 1)
  }

  /** What was at `p` is at `q`: the same inode, contents and mode. */
  predicate Carried(s: Store, t: Store, p: Path, q: Path) {
    && Stat(s, p).Some? && Stat(t, q).Some? && Stat(t, q).value.ino == Stat(s, p).value.ino
    && Stat(t, q).value.node.kind == Stat(s, p).value.node.kind
    && Stat(t, q).value.node.mode == Stat(s, p).value.node.mode
  }

  /** A directory made on the way. */
  predicate FreshDirectory(s: Store, t: Store, q: Path, now: int) {
    Fresh(s, t, q, Node(Directory, DEFAULT_DIRECTORY_MODE, now))
  }

  /** There are the new name `p`, the directories missing above it, and all there was. */
  ghost predicate Extended(s: Store, t: Store, p: Path, now: int) {
    && (forall q :: q in t.names <==> q in s.names || AtOrBelow(p, q))
    && (forall q :: q in s.names ==> Carried(s, t, q, q))
    && (forall q :: q in Missing(s, Parent(p)) ==> FreshDirectory(s, t, q, now))
  }

  /** The names at and below `p` are gone, and nothing else changed but times. */
  ghost predicate Removed(s: Store, t: Store, p: Path) {
    && (forall q :: q in t.names <==> q in s.names && !AtOrBelow(q, p))
    && (forall q :: q in t.names ==> Carried(s, t, q, q))
  }

  /** The names at and below `from` are gone; every other stays with its inode and contents,
      and with its mode unless the inode has a name at or below `to`. */
  ghost predicate RemovedReplayed(s: Store, t: Store, from: Path, to: Path) {
    && (forall q :: q in t.names <==> q in s.names && !AtOrBelow(q, from))
    && (forall q :: q in t.names ==> t.names[q] == s.names[q] && KindAt(t, q) == KindAt(s, q))
    && (forall q :: q in t.names && !NamedBelow(s, to, s.names[q]) ==> ModeAt(t, q) == ModeAt(s, q))
  }

  /** The same names for the same inodes and contents; only `ino` has another mode. */
  ghost predicate ModeSet(s: Store, t: Store, ino: nat, mode: int) {
    && t.names == s.names
    && (forall q :: q in s.names ==> KindAt(t, q) == KindAt(s, q))
    && (forall q :: q in s.names ==> ModeAt(t, q) == if s.names[q] == ino then mode else ModeAt(s, q))
  }

  /** The name in the tree at `from` that `q`, in the tree at `to`, comes from. */
  function Origin(from: Path, to: Path, q: Path): Path
    requires AtOrBelow(q, to)
  {
    from + q[|to|..]
  }

  /** The tree at `from` is at `to`, name by name; the directories missing above `to` are
      made; every name beyond the two trees stays. */
  ghost predicate TreeMoved(s: Store, t: Store, from: Path, to: Path, now: int) {
    && (forall q :: AtOrBelow(q, to) ==> (q in t.names <==> Origin(from, to, q) in s.names))
    && (forall q :: !AtOrBelow(q, to) ==>
          (q in t.names <==> !AtOrBelow(q, from) && (q in s.names || AtOrBelow(to, q))))
    && (forall q :: AtOrBelow(q, to) && q in t.names ==> Carried(s, t, Origin(from, to, q), q))
    && (forall q :: q in s.names && !AtOrBelow(q, from) && !AtOrBelow(q, to) ==> Carried(s, t, q, q))
    && (forall q :: q in Missing(s, Parent(to)) ==> FreshDirectory(s, t, q, now))
  }

  /** What `m` leaves. */
  ghost predicate Leaves(s: Store, t: Store, m: Mutation, env: Env) {
    match m
    case CreateFile(p, mode) =>
      && Extended(s, t, p, env.now)
      && Fresh(s, t, p, Node(File(""), if mode.Some? then mode.value else DEFAULT_FILE_MODE, env.now))
    case CreateDirectory(p, mode) =>
      if p !in s.names then
        && Extended(s, t, p, env.now)
        && Fresh(s, t, p, Node(Directory, if mode.Some? then mode.value else DEFAULT_DIRECTORY_MODE, env.now))
      else if mode.Some? then ModeSet(s, t, s.names[p], mode.value)
      else t == s
    case CreateSymlink(p, target) =>
      if p in s.names then t == s
      else Extended(s, t, p, env.now) && Fresh(s, t, p, Node(Symlink(target), 0, env.now))
    case CreateHardLink(source, p) =>
      if p in s.names then t == s
      else
        && Extended(s, t, p, env.now) && Carried(s, t, source, p)
        && Stat(t, p).value.links == Stat(s, source).value.links + 1
    case SetMode(p, mode) => if p in s.names then ModeSet(s, t, s.names[p], mode) else t == s
    case DeleteFile(p) => if p in s.names then Removed(s, t, p) else t == s
    case RemoveDirectory(p) => if p in s.names then Removed(s, t, p) else t == s
    case Rename(from, to) =>
      if from in s.names && Replays(s, from, to, env) then RemovedReplayed(s, t, from, to)
      else if from in s.names && !SameNode(s, from, to) then TreeMoved(s, t, from, to, env.now)
      else t == s
  }

  /** Something at or above `d` is not a directory. */
  ghost predicate Blocked(s: Store, d: Path) {
    exists x :: AtOrBelow(d, x) && x in s.names && !IsDir(s, x)
  }

  /** The store refuses `m`. */
  ghost predicate Refuses(s: Store, m: Mutation, env: Env) {
    match m
    case CreateFile(p, _) => p in s.names || Blocked(s, Parent(p))
    case CreateDirectory(p, _) => Blocked(s, p)
    case CreateSymlink(p, target) =>
      if p in s.names then KindAt(s, p) != Some(Symlink(target)) else Blocked(s, Parent(p))
    case CreateHardLink(source, p) =>
      || KindAt(s, source).None? || !KindAt(s, source).value.File?
      || (if p in s.names then !SameNode(s, source, p) else Blocked(s, Parent(p)))
    case SetMode(p, _) => KindAt(s, p).Some? && KindAt(s, p).value.Symlink?
    case DeleteFile(p) => IsDir(s, p)
    case RemoveDirectory(p) => p in s.names && (!IsDir(s, p) || !Childless(s, p))
    case Rename(from, to) =>
      Relocates(s, from, to, env) && InTheWay(s, from, to)
  }

  /** `to` lies in the tree to be moved, is of the other kind, has something in it, or is
      below something that is not a directory. */
  ghost predicate InTheWay(s: Store, from: Path, to: Path) {
    || from <= to
    || (to in s.names && (IsDir(s, from) != IsDir(s, to) || !Childless(s, to)))
    || Blocked(s, Parent(to))
  }

  // ---- when a rename is a replay -------------------------------------------

  /** Two trees are equivalent if and only if they have the same names below them, with the
      same contents. */
  lemma EquivalentIff(s: Store, a: Path, b: Path)
    requires Valid(s)
    ensures Equivalent(s, a, b) <==> forall x: Path :: KindAt(s, a + x) == KindAt(s, b + x)
  {
    if Equivalent(s, a, b) {
      forall x: Path ensures KindAt(s, a + x) == KindAt(s, b + x) {
        assert (a + x)[|a|..] == x && (b + x)[|b|..] == x && a <= a + x && b <= b + x;
        if a + x in s.names { assert SameAt(s, a, b, a + x); }
        if b + x in s.names { assert SameAt(s, a, b, b + x); }
      }
    }
    if forall x: Path :: KindAt(s, a + x) == KindAt(s, b + x) {
      forall q | q in s.names ensures SameAt(s, a, b, q) {
        if a <= q { assert a + q[|a|..] == q; }
        if b <= q { assert b + q[|b|..] == q; }
      }
    }
  }

  // ---- refusals ------------------------------------------------------------

  lemma {:induction false} MakeDirsRefusedIff(s: Store, d: Path, now: int)
    requires Valid(s)
    ensures MakeDirs(s, d, now).None? <==> Blocked(s, d)
    decreases |d|
  {
    if d in s.names {
      if x :| AtOrBelow(d, x) && x in s.names && !IsDir(s, x) {
        if x != d { FileHasNothingBelow(s, x, d); }
      }
      assert AtOrBelow(d, d);
    } else {
      MakeDirsRefusedIff(s, Parent(d), now);
      forall x ensures AtOrBelow(d, x) <==> AtOrBelow(Parent(d), x) || x == d { PrefixStep(x, d); }
    }
  }

  lemma ChildlessIff(s: Store, p: Path)
    ensures Childless(s, p) <==> !HasChildren(s, p)
  {
  }

  /** A rename that would be carried out, and what stands in its way. */
  lemma RelocationRefusedIff(s: Store, from: Path, to: Path, env: Env)
    requires Relocates(s, from, to, env)
    ensures ApplyRename(s, from, to, env).None? <==>
      || from <= to
      || (to in s.names && (IsDir(s, from) != IsDir(s, to) || HasChildren(s, to)))
      || MakeDirs(s, Parent(to), env.now).None?
  {
  }

  lemma InTheWayIff(s: Store, from: Path, to: Path, now: int)
    requires Valid(s)
    ensures InTheWay(s, from, to) <==>
      || from <= to
      || (to in s.names && (IsDir(s, from) != IsDir(s, to) || HasChildren(s, to)))
      || MakeDirs(s, Parent(to), now).None?
  {
    MakeDirsRefusedIff(s, Parent(to), now);
    ChildlessIff(s, to);
  }

  lemma RelocationRefuses(s: Store, from: Path, to: Path, env: Env)
    requires Valid(s) && Relocates(s, from, to, env)
    ensures ApplyRename(s, from, to, env).None? <==> InTheWay(s, from, to)
  {
    RelocationRefusedIff(s, from, to, env);
    InTheWayIff(s, from, to, env.now);
  }

  lemma OthersNotRefused(s: Store, from: Path, to: Path, env: Env)
    requires !Relocates(s, from, to, env)
    ensures ApplyRename(s, from, to, env).Some? && !Refuses(s, Rename(from, to), env)
  {
    if Replays(s, from, to, env) {
      var t, ds := ReplayOutcome(s, from, to, env);
    } else {
      IdleOutcome(s, from, to, env);
    }
  }

  lemma RenameRefusedIff(s: Store, from: Path, to: Path, env: Env)
    requires Valid(s)
    ensures ApplyRename(s, from, to, env).None? <==> Refuses(s, Rename(from, to), env)
  {
    if Relocates(s, from, to, env) {
      RelocationRefuses(s, from, to, env);
      RefusesInTheWay(s, from, to, env);
    } else {
      OthersNotRefused(s, from, to, env);
    }
  }

  lemma RefusesInTheWay(s: Store, from: Path, to: Path, env: Env)
    requires Relocates(s, from, to, env)
    ensures Refuses(s, Rename(from, to), env) <==> InTheWay(s, from, to)
  {
  }

  /** The store takes a mutation unless it refuses it for the reasons given. */
  lemma RefusedIff(s: Store, m: Mutation, env: Env)
    requires Valid(s) && WellFormed(m)
    ensures Apply(s, m, env).None? <==> Refuses(s, m, env)
  {
    match m
    case CreateFile(p, _) => MakeDirsRefusedIff(s, Parent(p), env.now);
    case CreateDirectory(p, _) => MakeDirsRefusedIff(s, p, env.now);
    case CreateSymlink(p, _) => MakeDirsRefusedIff(s, Parent(p), env.now);
    case CreateHardLink(_, p) => MakeDirsRefusedIff(s, Parent(p), env.now);
    case RemoveDirectory(p) => ChildlessIff(s, p);
    case Rename(from, to) => RenameRefusedIff(s, from, to, env);
    case _ =>
  }

  // ---- creations -----------------------------------------------------------

  lemma CarriedByExtends(s: Store, t: Store, q: Path)
    requires Extends(s, t) && q in s.names
    ensures Carried(s, t, q, q)
  {
    var ino := s.names[q];
    assert t.nodes[ino].(stamp := 0) == s.nodes[ino].(stamp := 0);
    assert t.nodes[ino].kind == s.nodes[ino].(stamp := 0).kind && t.nodes[ino].mode == s.nodes[ino].(stamp := 0).mode;
  }

  /** A new entry is fresh, and directories made before it stay as they were made. */
  lemma AddEntryFresh(s: Store, u: Store, p: Path, node: Node, now: int)
    requires Valid(u) && p !in u.names && p != ROOT && IsDir(u, Parent(p)) && |s.nodes| <= |u.nodes|
    ensures Fresh(s, AddEntry(u, p, node, now), p, node)
  {
    var t := AddEntry(u, p, node, now);
    assert Parent(p) != p;
    assert NamesOf(t, |u.nodes|) == {p};
    assert t.names[p] == |u.nodes| && t.nodes[|u.nodes|] == node;
  }

  lemma FreshDirectoryStays(s: Store, u: Store, p: Path, node: Node, now: int, q: Path)
    requires Valid(u) && p !in u.names && FreshDirectory(s, u, q, now)
    ensures FreshDirectory(s, AddEntry(u, p, node, now), q, now)
  {
  }

  lemma {:induction false} MakeDirsLeaves(s: Store, d: Path, now: int)
    requires Valid(s) && MakeDirs(s, d, now).Some?
    ensures forall q :: q in Missing(s, d) ==> FreshDirectory(s, MakeDirs(s, d, now).value, q, now)
    decreases |d|
  {
    if d in s.names {
      forall q | AtOrBelow(d, q) ensures q in s.names { AncestorsExist(s, d, q); }
    } else {
      var u := MakeDirs(s, Parent(d), now).value;
      var node := Node(Directory, DEFAULT_DIRECTORY_MODE, now);
      MakeDirsLeaves(s, Parent(d), now);
      MakeDirsExtends(s, Parent(d), now);
      assert !AtOrBelow(Parent(d), d);
      AddEntryFresh(s, u, d, node, now);
      forall q | q in Missing(s, d) ensures FreshDirectory(s, AddEntry(u, d, node, now), q, now) {
        MissingStep(s, d, q);
        if q != d { FreshDirectoryStays(s, u, d, node, now, q); }
      }
    }
  }

  lemma CreateEntryLeaves(s: Store, p: Path, node: Node, now: int)
    requires Valid(s) && p !in s.names && p != ROOT && CreateEntry(s, p, node, now).Some?
    ensures Extended(s, CreateEntry(s, p, node, now).value, p, now)
    ensures Fresh(s, CreateEntry(s, p, node, now).value, p, node)
  {
    var d := Parent(p);
    var u := MakeDirs(s, d, now).value;
    var t := AddEntry(u, p, node, now);
    MakeDirsExtends(s, d, now);
    MakeDirsLeaves(s, d, now);
    assert !AtOrBelow(d, p);
    AddEntryExtends(u, p, node, now);
    ExtendsTransitive(s, u, t);
    AddEntryFresh(s, u, p, node, now);
    forall q ensures AtOrBelow(p, q) <==> AtOrBelow(d, q) || q == p { PrefixStep(q, p); }
    forall q | q in s.names ensures Carried(s, t, q, q) { CarriedByExtends(s, t, q); }
    forall q | q in Missing(s, d) ensures FreshDirectory(s, t, q, now) { FreshDirectoryStays(s, u, p, node, now, q); }
  }

  lemma MadeDirectoryLeaves(s: Store, p: Path, now: int)
    requires Valid(s) && p !in s.names && p != ROOT && MakeDirs(s, p, now).Some?
    ensures Extended(s, MakeDirs(s, p, now).value, p, now)
    ensures Fresh(s, MakeDirs(s, p, now).value, p, Node(Directory, DEFAULT_DIRECTORY_MODE, now))
  {
    CreateEntryLeaves(s, p, Node(Directory, DEFAULT_DIRECTORY_MODE, now), now);
  }

  /** Another mode for a directory just made. */
  lemma FreshModeLeaves(s: Store, u: Store, p: Path, mode: int, now: int)
    requires Valid(u) && Extended(s, u, p, now) && Fresh(s, u, p, Node(Directory, DEFAULT_DIRECTORY_MODE, now))
    requires p !in s.names && p != ROOT && |s.nodes| <= |u.nodes|
    ensures Extended(s, Chmod(u, p, mode), p, now)
    ensures Fresh(s, Chmod(u, p, mode), p, Node(Directory, mode, now))
  {
    var t := Chmod(u, p, mode);
    assert IsDir(u, p);
    forall q | q in s.names ensures Carried(s, t, q, q) { assert Carried(s, u, q, q); }
    forall q | q in Missing(s, Parent(p)) ensures FreshDirectory(s, t, q, now) {
      assert FreshDirectory(s, u, q, now) && AtOrBelow(Parent(p), q) && q != p;
      assert q in NamesOf(u, u.names[q]) && p !in NamesOf(u, u.names[q]) by { assert IsDir(u, q); }
    }
  }

  lemma CreateDirectoryLeaves(s: Store, p: Path, mode: Option<int>, env: Env)
    requires Valid(s) && p != ROOT && Apply(s, CreateDirectory(p, mode), env).Some?
    ensures Leaves(s, Apply(s, CreateDirectory(p, mode), env).value, CreateDirectory(p, mode), env)
  {
    if p in s.names {
      if mode.Some? { ChmodSets(s, p, mode.value); }
    } else {
      MadeDirectoryLeaves(s, p, env.now);
      MakeDirsExtends(s, p, env.now);
      if mode.Some? { FreshModeLeaves(s, MakeDirs(s, p, env.now).value, p, mode.value, env.now); }
    }
  }

  lemma ChmodSets(s: Store, p: Path, mode: int)
    requires Valid(s) && p in s.names
    ensures ModeSet(s, Chmod(s, p, mode), s.names[p], mode)
  {
  }

  /** The second name, in a store where the directories above it are there. */
  lemma HardLinkedAt(u: Store, p: Path, ino: nat, now: int, q: Path)
    requires Valid(u) && p !in u.names && ino < |u.nodes| && q in u.names
    ensures var t := HardLinked(u, p, ino, now);
      && q in t.names && t.names[q] == u.names[q]
      && t.nodes[u.names[q]].kind == u.nodes[u.names[q]].kind && t.nodes[u.names[q]].mode == u.nodes[u.names[q]].mode
      && (u.nodes[u.names[q]].stamp == now ==> t.nodes[u.names[q]] == u.nodes[u.names[q]])
  {
  }

  lemma HardLinkExtends(s: Store, u: Store, p: Path, ino: nat, now: int)
    requires Valid(s) && p !in s.names && p != ROOT && MakeDirs(s, Parent(p), now) == Some(u) && ino < |s.nodes|
    ensures Extended(s, HardLinked(u, p, ino, now), p, now)
  {
    var d, t := Parent(p), HardLinked(u, p, ino, now);
    MakeDirsExtends(s, d, now);
    MakeDirsLeaves(s, d, now);
    assert !AtOrBelow(d, p) && t.names == u.names[p := ino];
    forall q ensures AtOrBelow(p, q) <==> AtOrBelow(d, q) || q == p { PrefixStep(q, p); }
    forall q | q in s.names ensures Carried(s, t, q, q) {
      CarriedByExtends(s, u, q);
      HardLinkedAt(u, p, ino, now, q);
    }
    forall q | q in Missing(s, d) ensures FreshDirectory(s, t, q, now) {
      assert FreshDirectory(s, u, q, now);
      HardLinkedAt(u, p, ino, now, q);
    }
  }

  lemma HardLinkLeaves(s: Store, source: Path, p: Path, now: int)
    requires Valid(s) && KindAt(s, source).Some? && KindAt(s, source).value.File?
    requires p !in s.names && p != ROOT && MakeDirs(s, Parent(p), now).Some?
    ensures var t := HardLinked(MakeDirs(s, Parent(p), now).value, p, s.names[source], now);
      && Extended(s, t, p, now) && Carried(s, t, source, p)
      && Stat(t, p).value.links == Stat(s, source).value.links + 1
  {
    var ino, u := s.names[source], MakeDirs(s, Parent(p), now).value;
    MakeDirsExtends(s, Parent(p), now);
    HardLinkExtends(s, u, p, ino, now);
    CarriedByExtends(s, u, source);
    assert !AtOrBelow(Parent(p), p);
    LinkNames(u, p, ino);
    SecondName(s, u, source, p, now);
  }

  lemma SecondName(s: Store, u: Store, source: Path, p: Path, now: int)
    requires Valid(s) && Valid(u) && Carried(s, u, source, source) && KindAt(s, source) != Some(Directory)
    requires p !in u.names && NamesOf(u, s.names[source]) == NamesOf(s, s.names[source])
    requires NamesOf(Link(u, p, s.names[source]), s.names[source]) == NamesOf(u, s.names[source]) + {p}
    ensures var t := HardLinked(u, p, s.names[source], now);
      Carried(s, t, source, p) && Stat(t, p).value.links == Stat(s, source).value.links + 1
  {
    var ino, v := s.names[source], Link(u, p, s.names[source]);
    var t := HardLinked(u, p, ino, now);
    HardLinkedAt(u, p, ino, now, source);
    assert t.names == v.names && NamesOf(t, ino) == NamesOf(v, ino);
    assert p !in NamesOf(u, ino);
  }

  // ---- removals and renames ------------------------------------------------

  lemma RemovalLeaves(s: Store, p: Path, now: int)
    requires Valid(s) && p in s.names && p != ROOT && Childless(s, p)
    ensures Removed(s, RemoveEntry(s, p, now), p)
  {
    var t := RemoveEntry(s, p, now);
    forall q | q in t.names ensures Carried(s, t, q, q) { assert t.names[q] == s.names[q]; }
  }

  lemma ReplayedName(s: Store, c: Store, t: Store, from: Path, to: Path, q: Path)
    requires ModesBelow(s, c, to) && ReplayedTo(s, c, t, from) && q in t.names
    ensures t.names[q] == s.names[q] && KindAt(t, q) == KindAt(s, q)
    ensures !NamedBelow(s, to, s.names[q]) ==> ModeAt(t, q) == ModeAt(s, q)
  {
  }

  lemma ReplayLeaves(s: Store, from: Path, to: Path, env: Env)
    requires Valid(s) && from != ROOT && Replays(s, from, to, env)
    ensures RemovedReplayed(s, Replayed(s, from, to, env), from, to)
  {
    var order := env.order(s, from);
    CopyModesBelow(s, from, to, order);
    ReplayedFacts(s, CopyModes(s, from, to, order), from, to, env.now);
    ReplayedLeaves(s, CopyModes(s, from, to, order), Replayed(s, from, to, env), from, to);
  }

  lemma ReplayedLeaves(s: Store, c: Store, t: Store, from: Path, to: Path)
    requires ModesBelow(s, c, to) && ReplayedTo(s, c, t, from)
    ensures RemovedReplayed(s, t, from, to)
  {
    forall q | q in t.names
      ensures t.names[q] == s.names[q] && KindAt(t, q) == KindAt(s, q)
      ensures !NamedBelow(s, to, s.names[q]) ==> ModeAt(t, q) == ModeAt(s, q)
    {
      ReplayedName(s, c, t, from, to, q);
    }
  }

  /** Old nodes after a relocation: only times may differ. */
  lemma RenamedNodes(c: Store, from: Path, to: Path, now: int, ino: nat)
    requires ino < |c.nodes|
    ensures var t := Renamed(c, from, to, now);
      && |t.nodes| == |c.nodes|
      && t.nodes[ino].kind == c.nodes[ino].kind && t.nodes[ino].mode == c.nodes[ino].mode
      && (c.nodes[ino].stamp == now ==> t.nodes[ino] == c.nodes[ino])
  {
  }

  lemma RelocatedName(s: Store, u: Store, from: Path, to: Path, env: Env, q: Path)
    requires Moves(s, u, from, to, env)
    ensures var t := Renamed(Cleared(s, u, to), from, to, env.now);
      if AtOrBelow(q, to) then
        && (q in t.names <==> Origin(from, to, q) in s.names)
        && (q in t.names ==> t.names[q] == s.names[Origin(from, to, q)])
      else
        && (q in t.names <==> !AtOrBelow(q, from) && (q in s.names || AtOrBelow(to, q)))
        && (q in t.names ==> t.names[q] == if q in s.names then s.names[q] else u.names[q])
  {
    var c := Cleared(s, u, to);
    var v := Move(c, from, to);
    ClearedCanMove(s, u, from, to, env);
    MoveIsMove(c, from, to);
    SameNames(v, Parent(from), Parent(to), env.now);
    if AtOrBelow(q, to) {
      RelocatedInTree(s, u, from, to, env, q);
    } else if AtOrBelow(q, from) {
      assert q in v.names ==> MovedTo(c, v, from, to, Source(from, to, q), q);
    } else {
      MoveElsewhere(c, v, from, to, q);
      ClearedBinding(s, u, from, to, env, q);
      PrefixStep(q, to);
      if q !in s.names && q in c.names { MakeDirsExtends(s, Parent(to), env.now); }
    }
  }

  lemma RelocatedInTree(s: Store, u: Store, from: Path, to: Path, env: Env, q: Path)
    requires Moves(s, u, from, to, env) && AtOrBelow(q, to)
    ensures var v, p := Move(Cleared(s, u, to), from, to), Origin(from, to, q);
      (q in v.names <==> p in s.names) && (q in v.names ==> v.names[q] == s.names[p])
  {
    var c, p := Cleared(s, u, to), Origin(from, to, q);
    var v := Move(c, from, to);
    ClearedCanMove(s, u, from, to, env);
    MoveIsMove(c, from, to);
    Regraft(from, to, q);
    assert from <= p && p != to && !AtOrBelow(Parent(to), p) by {
      assert p <= Parent(to) ==> from <= to;
    }
    ClearedBinding(s, u, from, to, env, p);
    assert Source(from, to, q) == p && Moved(from, to, p) == q;
    if q in v.names { assert MovedTo(c, v, from, to, p, q); }
    if p in c.names { assert MovedTo(c, v, from, to, p, q); }
  }

  lemma RelocatedNode(s: Store, u: Store, from: Path, to: Path, env: Env, ino: nat)
    requires Moves(s, u, from, to, env) && ino < |s.nodes|
    ensures var t := Renamed(Cleared(s, u, to), from, to, env.now);
      ino < |t.nodes| && t.nodes[ino].kind == s.nodes[ino].kind && t.nodes[ino].mode == s.nodes[ino].mode
  {
    MakeDirsExtends(s, Parent(to), env.now);
    assert u.nodes[ino].(stamp := 0) == s.nodes[ino].(stamp := 0);
    assert u.nodes[ino].kind == s.nodes[ino].(stamp := 0).kind && u.nodes[ino].mode == s.nodes[ino].(stamp := 0).mode;
    RenamedNodes(Cleared(s, u, to), from, to, env.now, ino);
  }

  lemma RelocatedNewDirectory(s: Store, u: Store, from: Path, to: Path, env: Env, q: Path)
    requires Moves(s, u, from, to, env) && q in Missing(s, Parent(to))
    ensures FreshDirectory(s, Renamed(Cleared(s, u, to), from, to, env.now), q, env.now)
  {
    assert !AtOrBelow(q, to) && AtOrBelow(to, q);
    assert AtOrBelow(q, from) ==> from <= to;
    RelocatedName(s, u, from, to, env, q);
    MakeDirsLeaves(s, Parent(to), env.now);
    assert FreshDirectory(s, u, q, env.now);
    RenamedNodes(Cleared(s, u, to), from, to, env.now, u.names[q]);
  }

  lemma RelocationLeaves(s: Store, u: Store, from: Path, to: Path, env: Env)
    requires Moves(s, u, from, to, env)
    ensures TreeMoved(s, Renamed(Cleared(s, u, to), from, to, env.now), from, to, env.now)
  {
    var t := Renamed(Cleared(s, u, to), from, to, env.now);
    forall q ensures AtOrBelow(q, to) ==> (q in t.names <==> Origin(from, to, q) in s.names) {
      RelocatedName(s, u, from, to, env, q);
    }
    forall q | !AtOrBelow(q, to)
      ensures q in t.names <==> !AtOrBelow(q, from) && (q in s.names || AtOrBelow(to, q))
    {
      RelocatedName(s, u, from, to, env, q);
    }
    forall q | AtOrBelow(q, to) && q in t.names ensures Carried(s, t, Origin(from, to, q), q) {
      RelocatedName(s, u, from, to, env, q);
      RelocatedNode(s, u, from, to, env, s.names[Origin(from, to, q)]);
    }
    forall q | q in s.names && !AtOrBelow(q, from) && !AtOrBelow(q, to) ensures Carried(s, t, q, q) {
      RelocatedName(s, u, from, to, env, q);
      RelocatedNode(s, u, from, to, env, s.names[q]);
    }
    forall q | q in Missing(s, Parent(to)) ensures FreshDirectory(s, t, q, env.now) {
      RelocatedNewDirectory(s, u, from, to, env, q);
    }
  }

  lemma RenameLeaves(s: Store, from: Path, to: Path, env: Env)
    requires Valid(s) && from != ROOT && to != ROOT && ApplyRename(s, from, to, env).Some?
    ensures Leaves(s, ApplyRename(s, from, to, env).value, Rename(from, to), env)
  {
    if Replays(s, from, to, env) {
      var t, _ := ReplayOutcome(s, from, to, env);
      ReplayLeaves(s, from, to, env);
    } else if Relocates(s, from, to, env) {
      var u, t, _ := RelocationOutcome(s, from, to, env);
      RelocationLeaves(s, u, from, to, env);
    } else {
      IdleOutcome(s, from, to, env);
    }
  }

  /** Every mutation the store takes leaves what it is named for, and nothing else
      changes but times. */
  lemma MutationLeaves(s: Store, m: Mutation, env: Env)
    requires Valid(s) && WellFormed(m) && Apply(s, m, env).Some?
    ensures Leaves(s, Apply(s, m, env).value, m, env)
  {
    match m
    case CreateFile(p, mode) =>
      CreateEntryLeaves(s, p, Node(File(""), if mode.Some? then mode.value else DEFAULT_FILE_MODE, env.now), env.now);
    case CreateDirectory(p, mode) => CreateDirectoryLeaves(s, p, mode, env);
    case CreateSymlink(p, target) =>
      if p !in s.names { CreateEntryLeaves(s, p, Node(Symlink(target), 0, env.now), env.now); }
    case CreateHardLink(source, p) => if p !in s.names { HardLinkLeaves(s, source, p, env.now); }
    case SetMode(p, mode) => if p in s.names { ChmodSets(s, p, mode); }
    case DeleteFile(p) =>
      if p in s.names {
        FileIsChildless(s, p);
        RemovalLeaves(s, p, env.now);
      }
    case RemoveDirectory(p) =>
      if p in s.names {
        ChildlessIff(s, p);
        RemovalLeaves(s, p, env.now);
      }
    case Rename(from, to) => RenameLeaves(s, from, to, env);
  }
}
