/** Listings as they are sent, with the times and sizes of listed subdirectories.
    A mutation restamps the directories whose entries it changes, and the listing
    one level up shows that. */
module DirectoryTimes {
  import opened Prelude
  import opened Paths
  import opened Namespace
  import opened Mutations
  import opened Containment

  // ---- which inodes are restamped ------------------------------------------

  /** Of the inodes of `s`, exactly those in `inodes` carry the stamp `now` in `t`
      instead of their own. */
  ghost predicate StampsAt(s: Store, t: Store, inodes: set<nat>, now: int) {
    && |s.nodes| <= |t.nodes|
    && (forall ino: nat :: ino < |s.nodes| ==>
          t.nodes[ino].stamp == if ino in inodes then now else s.nodes[ino].stamp)
  }

  lemma StampsTwice(s: Store, u: Store, t: Store, a: set<nat>, b: set<nat>, now: int)
    requires StampsAt(s, u, a, now) && StampsAt(u, t, b, now)
    ensures StampsAt(s, t, a + b, now)
  {
  }

  /** Only inodes of `s` matter. */
  lemma StampsOfOld(s: Store, t: Store, a: set<nat>, b: set<nat>, now: int)
    requires StampsAt(s, t, a, now) && forall ino: nat :: ino < |s.nodes| ==> (ino in a <==> ino in b)
    ensures StampsAt(s, t, b, now)
  {
  }

  function InodeOf(s: Store, d: Path): set<nat> {
    if IsDir(s, d) then {s.names[d]} else {}
  }

  lemma TouchStamps(s: Store, d: Path, now: int)
    ensures StampsAt(s, Touch(s, d, now), InodeOf(s, d), now)
  {
  }

  lemma {:induction false} CopyModesStamps(s: Store, from: Path, to: Path, order: seq<Path>, now: int)
    ensures StampsAt(s, CopyModes(s, from, to, order), {}, now)
  {
    if order != [] { CopyModesStamps(s, from, to, order[..|order| - 1], now); }
  }

  lemma NewNamesNewInodes(s: Store, t: Store, d: Path)
    requires Extends(s, t) && d in t.names && d !in s.names
    ensures t.names[d] >= |s.nodes|
  {
    assert d in NamesOf(t, t.names[d]);
  }

  lemma AddEntryStamps(s: Store, p: Path, node: Node, now: int)
    requires Valid(s) && p !in s.names && p != ROOT && IsDir(s, Parent(p))
    ensures StampsAt(s, AddEntry(s, p, node, now), {s.names[Parent(p)]}, now)
  {
    var u := Bind(s, p, node);
    assert Parent(p) != p;
    TouchStamps(u, Parent(p), now);
    StampsTwice(s, u, AddEntry(s, p, node, now), {}, InodeOf(u, Parent(p)), now);
    assert {} + InodeOf(u, Parent(p)) == {s.names[Parent(p)]};
  }

  lemma {:induction false} NearestExists(s: Store, d: Path, now: int)
    requires Valid(s) && MakeDirs(s, d, now).Some?
    ensures IsDir(s, Nearest(s, d)) && Nearest(s, d) <= d
    decreases |d|
  {
    if d !in s.names { NearestExists(s, Parent(d), now); }
  }

  lemma {:induction false} NearestPrefix(s: Store, d: Path)
    ensures Nearest(s, d) <= d && (Nearest(s, d) in s.names || Nearest(s, d) == ROOT)
    decreases |d|
  {
    if d !in s.names && d != ROOT { NearestPrefix(s, Parent(d)); }
  }

  lemma {:induction false} NearestBelow(s: Store, x: Path, d: Path)
    requires Valid(s) && x <= d && x !in s.names
    ensures Nearest(s, d) == Nearest(s, x)
    decreases |d|
  {
    if x != d {
      if d in s.names { AncestorsExist(s, d, x); }
      PrefixStep(x, d);
      NearestBelow(s, x, Parent(d));
    }
  }

  /** Adding an entry to a store that only gained directories below `base`. */
  lemma AddedBelow(s: Store, u: Store, p: Path, node: Node, base: Path, made: set<nat>, now: int)
    requires Extends(s, u) && p !in u.names && p != ROOT && IsDir(u, Parent(p))
    requires IsDir(s, base) && StampsAt(s, u, made, now)
    requires Parent(p) in s.names ==> base == Parent(p) && made == {}
    requires Parent(p) !in s.names ==> made == {s.names[base]}
    ensures StampsAt(s, AddEntry(u, p, node, now), {s.names[base]}, now)
  {
    AddEntryStamps(u, p, node, now);
    var ino := u.names[Parent(p)];
    StampsTwice(s, u, AddEntry(u, p, node, now), made, {ino}, now);
    if Parent(p) !in s.names { NewNamesNewInodes(s, u, Parent(p)); }
    StampsOfOld(s, AddEntry(u, p, node, now), made + {ino}, {s.names[base]}, now);
  }

  /** Making directories restamps the nearest one that was there. */
  lemma {:induction false} MakeDirsStamps(s: Store, d: Path, now: int)
    requires Valid(s) && MakeDirs(s, d, now).Some?
    ensures StampsAt(s, MakeDirs(s, d, now).value, if d in s.names then {} else InodeOf(s, Nearest(s, d)), now)
    decreases |d|
  {
    if d !in s.names {
      var u := MakeDirs(s, Parent(d), now).value;
      MakeDirsStamps(s, Parent(d), now);
      MakeDirsExtends(s, Parent(d), now);
      NearestExists(s, Parent(d), now);
      assert !AtOrBelow(Parent(d), d);
      AddedBelow(s, u, d, Node(Directory, DEFAULT_DIRECTORY_MODE, now), Nearest(s, Parent(d)),
                 if Parent(d) in s.names then {} else InodeOf(s, Nearest(s, Parent(d))), now);
    }
  }

  // ---- what each mutation restamps -----------------------------------------

  function InodesOf(s: Store, ds: set<Path>): set<nat> {
    set d | d in ds && IsDir(s, d) :: s.names[d]
  }

  predicate StillAt(s: Store, t: Store, d: Path) {
    d in s.names && d in t.names && t.names[d] == s.names[d]
  }

  /** The directories `ds`, still in place, are restamped, and no others. */
  ghost predicate Restamps(s: Store, t: Store, ds: set<Path>, now: int) {
    && StampsAt(s, t, InodesOf(s, ds), now)
    && (forall d :: d in ds && IsDir(s, d) ==> StillAt(s, t, d))
  }

  lemma InodesOfOne(s: Store, d: Path)
    ensures InodesOf(s, {d}) == InodeOf(s, d)
  {
  }

  lemma InodesOfTwo(s: Store, d: Path, e: Path)
    ensures InodesOf(s, {d, e}) == InodeOf(s, d) + InodeOf(s, e)
  {
  }

  lemma CreateEntryRestamps(s: Store, p: Path, node: Node, now: int)
    requires Valid(s) && p !in s.names && p != ROOT && CreateEntry(s, p, node, now).Some?
    ensures Restamps(s, CreateEntry(s, p, node, now).value, {Nearest(s, Parent(p))}, now)
  {
    var d, base := Parent(p), Nearest(s, Parent(p));
    var u := MakeDirs(s, d, now).value;
    MakeDirsStamps(s, d, now);
    MakeDirsExtends(s, d, now);
    NearestExists(s, d, now);
    assert !AtOrBelow(d, p);
    AddedBelow(s, u, p, node, base, if d in s.names then {} else InodeOf(s, base), now);
    InodesOfOne(s, base);
    AddEntryExtends(u, p, node, now);
  }

  lemma MakeDirsRestamps(s: Store, p: Path, now: int)
    requires Valid(s) && p != ROOT && MakeDirs(s, p, now).Some?
    ensures Restamps(s, MakeDirs(s, p, now).value, if p in s.names then {} else {Nearest(s, Parent(p))}, now)
  {
    MakeDirsStamps(s, p, now);
    if p !in s.names {
      MakeDirsExtends(s, p, now);
      NearestExists(s, p, now);
      InodesOfOne(s, Nearest(s, p));
    }
  }

  /** Changes that leave names and stamps alone. */
  lemma StaysRestamped(s: Store, u: Store, t: Store, ds: set<Path>, now: int)
    requires Restamps(s, u, ds, now) && t.names == u.names && StampsAt(u, t, {}, now)
    ensures Restamps(s, t, ds, now)
  {
    StampsTwice(s, u, t, InodesOf(s, ds), {}, now);
  }

  lemma CreateDirectoryRestamps(s: Store, u: Store, p: Path, mode: Option<int>, now: int)
    requires Valid(s) && p != ROOT && MakeDirs(s, p, now) == Some(u)
    ensures Restamps(s, MadeDirectory(u, p, mode), if p in s.names then {} else {Nearest(s, Parent(p))}, now)
  {
    MakeDirsRestamps(s, p, now);
    StaysRestamped(s, u, MadeDirectory(u, p, mode), if p in s.names then {} else {Nearest(s, Parent(p))}, now);
  }

  /** Touching a directory that is `base` itself, or was made below it. */
  lemma TouchBelow(s: Store, u: Store, v: Store, d: Path, base: Path, now: int)
    requires Extends(s, u) && IsDir(s, base) && IsDir(u, d) && IsDir(v, d) && v.names[d] == u.names[d]
    requires StampsAt(s, v, if d in s.names then {} else {s.names[base]}, now)
    requires d in s.names ==> base == d
    ensures StampsAt(s, Touch(v, d, now), {s.names[base]}, now)
  {
    var made := if d in s.names then {} else {s.names[base]};
    TouchStamps(v, d, now);
    StampsTwice(s, v, Touch(v, d, now), made, {u.names[d]}, now);
    if d !in s.names { NewNamesNewInodes(s, u, d); }
    StampsOfOld(s, Touch(v, d, now), made + {u.names[d]}, {s.names[base]}, now);
  }

  /** What making `d` and its missing parents leaves to build on. */
  ghost predicate Made(s: Store, u: Store, d: Path, base: Path, now: int) {
    && Extends(s, u) && IsDir(u, d) && IsDir(s, base) && |base| <= |d| && base <= d
    && (d in s.names ==> base == d)
    && StampsAt(s, u, if d in s.names then {} else {s.names[base]}, now)
  }

  lemma MakesMade(s: Store, u: Store, d: Path, now: int)
    requires Valid(s) && MakeDirs(s, d, now) == Some(u)
    ensures Made(s, u, d, Nearest(s, d), now)
  {
    MakeDirsStamps(s, d, now);
    MakeDirsExtends(s, d, now);
    NearestExists(s, d, now);
  }

  lemma RestampsOne(s: Store, t: Store, d: Path, now: int)
    requires IsDir(s, d) && StampsAt(s, t, {s.names[d]}, now) && StillAt(s, t, d)
    ensures Restamps(s, t, {d}, now)
  {
    InodesOfOne(s, d);
  }

  lemma RestampsTwo(s: Store, t: Store, d: Path, e: Path, now: int)
    requires IsDir(s, d) && IsDir(s, e) && StampsAt(s, t, {s.names[d], s.names[e]}, now)
    requires StillAt(s, t, d) && StillAt(s, t, e)
    ensures Restamps(s, t, {d, e}, now)
  {
    InodesOfTwo(s, d, e);
    assert InodeOf(s, d) + InodeOf(s, e) == {s.names[d], s.names[e]};
  }

  lemma LinkedIn(s: Store, u: Store, p: Path, ino: nat, base: Path, now: int)
    requires Made(s, u, Parent(p), base, now) && p != ROOT
    ensures Restamps(s, HardLinked(u, p, ino, now), {base}, now)
  {
    var d, v := Parent(p), Link(u, p, ino);
    assert d != p && base != p;
    TouchBelow(s, u, v, d, base, now);
    RestampsOne(s, HardLinked(u, p, ino, now), base, now);
  }

  lemma HardLinkRestamps(s: Store, u: Store, p: Path, ino: nat, now: int)
    requires Valid(s) && p != ROOT && p !in s.names && MakeDirs(s, Parent(p), now) == Some(u)
    ensures Restamps(s, HardLinked(u, p, ino, now), {Nearest(s, Parent(p))}, now)
  {
    MakesMade(s, u, Parent(p), now);
    LinkedIn(s, u, p, ino, Nearest(s, Parent(p)), now);
  }

  lemma RemoveEntryRestamps(s: Store, p: Path, now: int)
    requires Valid(s) && p in s.names && p != ROOT
    ensures Restamps(s, RemoveEntry(s, p, now), {Parent(p)}, now)
  {
    var u := Unlink(s, p);
    assert Parent(p) != p && IsDir(s, Parent(p)) && IsDir(u, Parent(p));
    TouchStamps(u, Parent(p), now);
    StampsTwice(s, u, RemoveEntry(s, p, now), {}, InodeOf(u, Parent(p)), now);
    InodesOfOne(s, Parent(p));
  }

  lemma ReplayRestamps(s: Store, c: Store, from: Path, now: int)
    requires Valid(s) && from in s.names && from != ROOT && c.names == s.names && StampsAt(s, c, {}, now)
    requires |c.nodes| == |s.nodes| && IsDir(c, Parent(from))
    ensures Restamps(s, Touch(RemoveTree(c, from), Parent(from), now), {Parent(from)}, now)
  {
    var u := RemoveTree(c, from);
    assert IsDir(s, Parent(from)) && !(from <= Parent(from));
    assert IsDir(u, Parent(from)) && u.names[Parent(from)] == s.names[Parent(from)];
    TouchStamps(u, Parent(from), now);
    StampsTwice(s, u, Touch(u, Parent(from), now), {}, InodeOf(u, Parent(from)), now);
    InodesOfOne(s, Parent(from));
  }

  /** Two touches in a row, on directories that a store has kept since `s` or gained. */
  lemma TouchBoth(s: Store, v: Store, d: Path, e: Path, made: set<nat>, now: int)
    requires Valid(v) && StampsAt(s, v, made, now) && IsDir(v, d) && IsDir(v, e)
    ensures StampsAt(s, Touch(Touch(v, d, now), e, now), made + {v.names[d], v.names[e]}, now)
  {
    var w := Touch(v, d, now);
    TouchStamps(v, d, now);
    TouchValid(v, d, now);
    TouchStamps(w, e, now);
    StampsTwice(s, v, w, made, {v.names[d]}, now);
    StampsTwice(s, w, Touch(w, e, now), made + {v.names[d]}, {v.names[e]}, now);
    assert made + {v.names[d]} + {v.names[e]} == made + {v.names[d], v.names[e]};
  }

  /** The parents of both ends stay where they are when a tree moves. */
  lemma ParentsStay(s: Store, u: Store, from: Path, to: Path, env: Env)
    requires Moves(s, u, from, to, env)
    ensures var v := Move(Cleared(s, u, to), from, to);
      && Valid(v) && v.nodes == u.nodes
      && IsDir(v, Parent(from)) && v.names[Parent(from)] == s.names[Parent(from)]
      && IsDir(v, Parent(to)) && v.names[Parent(to)] == u.names[Parent(to)]
  {
    var c := Cleared(s, u, to);
    ClearedCanMove(s, u, from, to, env);
    MakeDirsExtends(s, Parent(to), env.now);
    MoveIsMove(c, from, to);
    MoveValid(c, Move(c, from, to), from, to);
    assert IsDir(s, Parent(from)) && from in c.names;
    assert !(from <= Parent(from)) && !(to <= Parent(to));
    assert to <= Parent(from) ==> to <= from;
    assert from <= Parent(to) ==> from <= to;
    StaysPut(c, from, to, Parent(from));
    StaysPut(c, from, to, Parent(to));
  }

  lemma StaysPut(c: Store, from: Path, to: Path, d: Path)
    requires CanMove(c, from, to) && IsDir(c, d) && !(from <= d) && !(to <= d)
    ensures IsDir(Move(c, from, to), d) && Move(c, from, to).names[d] == c.names[d]
  {
    MoveIsMove(c, from, to);
    MoveElsewhere(c, Move(c, from, to), from, to, d);
  }

  lemma RelocationStamps(s: Store, u: Store, v: Store, from: Path, d: Path, base: Path, now: int)
    requires Extends(s, u) && Valid(v) && IsDir(s, Parent(from)) && IsDir(s, base) && IsDir(u, d)
    requires v.nodes == u.nodes && StampsAt(s, u, if d in s.names then {} else {s.names[base]}, now)
    requires IsDir(v, Parent(from)) && v.names[Parent(from)] == s.names[Parent(from)]
    requires IsDir(v, d) && v.names[d] == u.names[d] && (d in s.names ==> base == d)
    ensures StampsAt(s, Touch(Touch(v, Parent(from), now), d, now), {s.names[Parent(from)], s.names[base]}, now)
  {
    var made := if d in s.names then {} else {s.names[base]};
    var t := Touch(Touch(v, Parent(from), now), d, now);
    TouchBoth(s, v, Parent(from), d, made, now);
    if d !in s.names { NewNamesNewInodes(s, u, d); }
    StampsOfOld(s, t, made + {v.names[Parent(from)], v.names[d]}, {s.names[Parent(from)], s.names[base]}, now);
  }

  lemma RelocationRestamps(s: Store, u: Store, from: Path, to: Path, env: Env)
    requires Moves(s, u, from, to, env)
    ensures Restamps(s, Renamed(Cleared(s, u, to), from, to, env.now), {Parent(from), Nearest(s, Parent(to))}, env.now)
  {
    var d, base := Parent(to), Nearest(s, Parent(to));
    MakesMade(s, u, d, env.now);
    ParentsStay(s, u, from, to, env);
    BaseStays(s, u, from, to, env);
    assert IsDir(s, Parent(from));
    MovedIn(s, u, Move(Cleared(s, u, to), from, to), from, d, base, env.now);
  }

  lemma MovedIn(s: Store, u: Store, v: Store, from: Path, d: Path, base: Path, now: int)
    requires Made(s, u, d, base, now) && Valid(v) && v.nodes == u.nodes && IsDir(s, Parent(from))
    requires IsDir(v, Parent(from)) && v.names[Parent(from)] == s.names[Parent(from)]
    requires IsDir(v, d) && v.names[d] == u.names[d] && StillAt(s, v, base)
    ensures Restamps(s, Touch(Touch(v, Parent(from), now), d, now), {Parent(from), base}, now)
  {
    RelocationStamps(s, u, v, from, d, base, now);
    SameNames(v, Parent(from), d, now);
    RestampsTwo(s, Touch(Touch(v, Parent(from), now), d, now), Parent(from), base, now);
  }

  lemma SameNames(v: Store, d: Path, e: Path, now: int)
    ensures Touch(Touch(v, d, now), e, now).names == v.names
  {
  }

  lemma BaseStays(s: Store, u: Store, from: Path, to: Path, env: Env)
    requires Moves(s, u, from, to, env)
    ensures StillAt(s, Move(Cleared(s, u, to), from, to), Nearest(s, Parent(to)))
  {
    var c, base := Cleared(s, u, to), Nearest(s, Parent(to));
    ClearedCanMove(s, u, from, to, env);
    MakeDirsExtends(s, Parent(to), env.now);
    NearestExists(s, Parent(to), env.now);
    assert base <= Parent(to) && !(to <= base);
    assert from <= base ==> from <= to;
    StaysPut(c, from, to, base);
  }

  lemma ReplayedRestamps(s: Store, from: Path, to: Path, env: Env)
    requires Valid(s) && from in s.names && from != ROOT
    ensures Restamps(s, Replayed(s, from, to, env), {Parent(from)}, env.now)
  {
    var order := env.order(s, from);
    var c := CopyModes(s, from, to, order);
    CopyModesStamps(s, from, to, order, env.now);
    CopyModesBelow(s, from, to, order);
    ModesValid(s, c, to);
    assert IsDir(s, Parent(from));
    ReplayRestamps(s, c, from, env.now);
  }

  lemma RenameRestamps(s: Store, from: Path, to: Path, env: Env)
    requires Valid(s) && from != ROOT && to != ROOT && ApplyRename(s, from, to, env).Some?
    ensures Restamps(s, ApplyRename(s, from, to, env).value, Restamped(s, Rename(from, to), env), env.now)
  {
    if Replays(s, from, to, env) {
      var t, ds := ReplayOutcome(s, from, to, env);
      ReplayedRestamps(s, from, to, env);
    } else if Relocates(s, from, to, env) {
      var u, t, ds := RelocationOutcome(s, from, to, env);
      RelocationRestamps(s, u, from, to, env);
    } else {
      IdleOutcome(s, from, to, env);
      RestampsNothing(s, env.now);
    }
  }

  /** What a replayed rename leaves and restamps. */
  lemma ReplayOutcome(s: Store, from: Path, to: Path, env: Env) returns (t: Store, ds: set<Path>)
    requires Replays(s, from, to, env)
    ensures t == Replayed(s, from, to, env) && ds == {Parent(from)}
    ensures ApplyRename(s, from, to, env) == Some(t) && Restamped(s, Rename(from, to), env) == ds
  {
    t, ds := Replayed(s, from, to, env), {Parent(from)};
    ReplaySet(s, from, to, env);
  }

  lemma ReplaySet(s: Store, from: Path, to: Path, env: Env)
    requires Replays(s, from, to, env)
    ensures Restamped(s, Rename(from, to), env) == {Parent(from)}
  {
  }

  lemma IdleOutcome(s: Store, from: Path, to: Path, env: Env)
    requires !Replays(s, from, to, env) && !Relocates(s, from, to, env)
    ensures ApplyRename(s, from, to, env) == Some(s) && Restamped(s, Rename(from, to), env) == {}
  {
  }

  lemma RelocationSet(s: Store, from: Path, to: Path, env: Env)
    requires Relocates(s, from, to, env)
    ensures Restamped(s, Rename(from, to), env) == {Parent(from), Nearest(s, Parent(to))}
  {
  }

  /** What a rename that is carried out leaves and restamps. */
  lemma RelocationOutcome(s: Store, from: Path, to: Path, env: Env) returns (u: Store, t: Store, ds: set<Path>)
    requires Valid(s) && from != ROOT && to != ROOT && Relocates(s, from, to, env)
    requires ApplyRename(s, from, to, env).Some?
    ensures Moves(s, u, from, to, env) && t == Renamed(Cleared(s, u, to), from, to, env.now)
    ensures ds == {Parent(from), Nearest(s, Parent(to))}
    ensures ApplyRename(s, from, to, env) == Some(t) && Restamped(s, Rename(from, to), env) == ds
  {
    RelocationApplies(s, from, to, env);
    RelocationSet(s, from, to, env);
    u := MakeDirs(s, Parent(to), env.now).value;
    t, ds := Renamed(Cleared(s, u, to), from, to, env.now), {Parent(from), Nearest(s, Parent(to))};
  }

  lemma RestampsNothing(s: Store, now: int)
    ensures Restamps(s, s, {}, now)
  {
    assert InodesOf(s, {}) == {};
  }

  /** Every mutation restamps exactly the directories whose entries it changes. */
  lemma MutationRestamps(s: Store, m: Mutation, env: Env)
    requires Valid(s) && WellFormed(m) && Apply(s, m, env).Some?
    ensures Restamps(s, Apply(s, m, env).value, Restamped(s, m, env), env.now)
  {
    match m
    case CreateFile(p, mode) =>
      CreateEntryRestamps(s, p, Node(File(""), if mode.Some? then mode.value else DEFAULT_FILE_MODE, env.now), env.now);
    case CreateSymlink(p, target) =>
      if p !in s.names { CreateEntryRestamps(s, p, Node(Symlink(target), 0, env.now), env.now); }
    case CreateDirectory(p, mode) =>
      CreateDirectoryRestamps(s, MakeDirs(s, p, env.now).value, p, mode, env.now);
    case CreateHardLink(source, p) =>
      if p !in s.names {
        HardLinkRestamps(s, MakeDirs(s, Parent(p), env.now).value, p, s.names[source], env.now);
      }
    case DeleteFile(p) => if p in s.names { RemoveEntryRestamps(s, p, env.now); }
    case RemoveDirectory(p) => if p in s.names { RemoveEntryRestamps(s, p, env.now); }
    case Rename(from, to) => RenameRestamps(s, from, to, env);
    case SetMode(_, _) =>
  }

  // ---- full listings -------------------------------------------------------

  lemma FullyMeansKept(s: Store, t: Store, cov: iset<Path>)
    requires KeptFully(s, t, cov)
    ensures Kept(s, t, cov)
  {
  }

  /** A restamped directory shows in the full listing of its parent. */
  lemma StampShows(s: Store, t: Store, d: Path, cov: iset<Path>)
    requires Valid(s) && Valid(t) && IsDir(s, d) && d != ROOT && StillAt(s, t, d)
    requires s.names[d] < |t.nodes| && t.nodes[s.names[d]].stamp != s.nodes[s.names[d]].stamp
    requires Parent(d) !in cov
    ensures Read(t, FullListOf(Parent(d))) != Read(s, FullListOf(Parent(d)))
    ensures !KeptFully(s, t, cov)
  {
    var e := Parent(d);
    assert IsDir(s, e) && IsDir(t, e);
    assert d in FullEntries(s, e) && FullEntries(s, e)[d] == Stat(s, d);
    assert d in FullEntries(t, e) && FullEntries(t, e)[d] == Stat(t, d);
  }

  lemma SameFullEntries(s: Store, t: Store, e: Path)
    requires forall c :: c != ROOT && Parent(c) == e ==> Stat(t, c) == Stat(s, c)
    ensures FullEntries(t, e) == FullEntries(s, e)
  {
    forall c ensures (c in FullEntries(t, e) <==> c in FullEntries(s, e))
                  && (c in FullEntries(s, e) ==> FullEntries(t, e)[c] == FullEntries(s, e)[c])
    {
      if c != ROOT && Parent(c) == e { assert Stat(t, c) == Stat(s, c); }
    }
  }

  /** Equal listings of an existing directory show every child alike. */
  lemma ListedAlike(s: Store, t: Store, e: Path, c: Path)
    requires Valid(s) && Valid(t) && List(t, e) == List(s, e) && c != ROOT && Parent(c) == e
    ensures Listed(Stat(t, c)) == Listed(Stat(s, c))
  {
    assert c in s.names ==> IsDir(s, e) && c in Entries(s, e) && Entries(s, e)[c] == Listed(Stat(s, c));
    assert c in t.names ==> IsDir(t, e) && c in Entries(t, e) && Entries(t, e)[c] == Listed(Stat(t, c));
    if IsDir(s, e) { assert Entries(t, e) == Entries(s, e); }
  }

  /** A directory still in place that shows another time. */
  predicate StampMoved(s: Store, t: Store, d: Path) {
    && IsDir(s, d) && StillAt(s, t, d) && s.names[d] < |t.nodes|
    && t.nodes[s.names[d]].stamp != s.nodes[s.names[d]].stamp
  }

  lemma FullListKept(s: Store, t: Store, cov: iset<Path>, e: Path)
    requires Valid(s) && Valid(t) && Kept(s, t, cov) && e !in cov
    requires forall d :: StampMoved(s, t, d) ==> d == ROOT || Parent(d) in cov
    ensures Read(t, FullListOf(e)) == Read(s, FullListOf(e))
  {
    assert Read(t, ListOf(e)) == Read(s, ListOf(e));
    forall c | c != ROOT && Parent(c) == e ensures Stat(t, c) == Stat(s, c) {
      ListedAlike(s, t, e, c);
      assert !StampMoved(s, t, c);
    }
    SameFullEntries(s, t, e);
  }

  /** Full listings are kept, too, exactly when no directory that shows another time is
      listed beyond the report. */
  lemma FullyIffStampsListed(s: Store, t: Store, cov: iset<Path>)
    requires Valid(s) && Valid(t)
    ensures KeptFully(s, t, cov) <==>
      Kept(s, t, cov) && forall d :: StampMoved(s, t, d) ==> d == ROOT || Parent(d) in cov
  {
    if Kept(s, t, cov) && forall d :: StampMoved(s, t, d) ==> d == ROOT || Parent(d) in cov {
      forall k: Key | k.path !in cov ensures Read(t, k) == Read(s, k) {
        if k.FullListOf? { FullListKept(s, t, cov, k.path); }
      }
    }
    if KeptFully(s, t, cov) {
      FullyMeansKept(s, t, cov);
      forall d | StampMoved(s, t, d) ensures d == ROOT || Parent(d) in cov {
        if d != ROOT && Parent(d) !in cov { StampShows(s, t, d, cov); }
      }
    }
  }

  /** Which directories show another time. */
  lemma RestampedMoved(s: Store, t: Store, ds: set<Path>, now: int, d: Path)
    requires Valid(s) && Restamps(s, t, ds, now)
    ensures StampMoved(s, t, d) <==> d in ds && IsDir(s, d) && StillAt(s, t, d) && s.nodes[s.names[d]].stamp != now
  {
    if IsDir(s, d) {
      var ino := s.names[d];
      assert d in NamesOf(s, ino);
      if ino in InodesOf(s, ds) {
        var x :| x in ds && IsDir(s, x) && s.names[x] == ino;
        assert x in NamesOf(s, ino);
      }
    }
  }

  lemma FullyIffListedWithin(s: Store, t: Store, ds: set<Path>, now: int, cov: iset<Path>)
    requires Valid(s) && Valid(t) && Restamps(s, t, ds, now)
    ensures KeptFully(s, t, cov) <==> Kept(s, t, cov) && ListedWithin(s, ds, now, cov)
  {
    FullyIffStampsListed(s, t, cov);
    forall d ensures StampMoved(s, t, d) <==> d in ds && IsDir(s, d) && s.nodes[s.names[d]].stamp != now {
      RestampedMoved(s, t, ds, now, d);
    }
  }

  /** One mutation and clients that read whole listings: everything outside the
      report reads the same if and only if the mutation is contained and every
      directory it restamps is the root or listed within the report. */
  lemma KeptFullyIffContained(s: Store, m: Mutation, env: Env, cov: iset<Path>)
    requires Valid(s) && WellFormed(m) && Apply(s, m, env).Some? && Reported(m, cov)
    ensures Valid(Apply(s, m, env).value)
    ensures KeptFully(s, Apply(s, m, env).value, cov) <==> Contained(s, m, env, cov) && StampsCovered(s, m, env, cov)
  {
    var t := Apply(s, m, env).value;
    KeptIffContained(s, m, env, cov);
    MutationRestamps(s, m, env);
    FullyIffListedWithin(s, t, Restamped(s, m, env), env.now, cov);
  }

  // ---- restamped means a changed entry -------------------------------------

  predicate SameBinding(s: Store, t: Store, c: Path) {
    (c in s.names <==> c in t.names) && (c in s.names && c in t.names ==> t.names[c] == s.names[c])
  }

  /** Some name directly in `d` came, went, or names another inode. */
  ghost predicate EntriesChange(s: Store, t: Store, d: Path) {
    exists c :: c != ROOT && Parent(c) == d && !SameBinding(s, t, c)
  }

  /** The name that is missing directly below the nearest directory on the way to `p`. */
  lemma {:induction false} NearestChild(s: Store, p: Path) returns (c: Path)
    requires Valid(s) && p !in s.names
    ensures c <= p && c !in s.names && c != ROOT && Parent(c) == Nearest(s, Parent(p))
    decreases |p|
  {
    if Parent(p) in s.names { c := p; } else { c := NearestChild(s, Parent(p)); }
  }

  lemma ChildNearest(s: Store, p: Path, c: Path)
    requires Valid(s) && c <= p && c !in s.names && Parent(c) in s.names
    ensures Nearest(s, Parent(p)) == Parent(c)
  {
    if c != p {
      PrefixStep(c, p);
      NearestBelow(s, c, Parent(p));
    }
  }

  /** `t` has the names of `s`, and those on the way to the new name `p`. */
  ghost predicate Added(s: Store, t: Store, p: Path) {
    && Valid(s) && p !in s.names
    && (forall q :: q in t.names <==> q in s.names || AtOrBelow(p, q))
    && (forall q :: q in s.names ==> t.names[q] == s.names[q])
  }

  lemma AddedEntries(s: Store, t: Store, p: Path, d: Path)
    requires Added(s, t, p) && d in s.names
    ensures EntriesChange(s, t, d) <==> d == Nearest(s, Parent(p))
  {
    if c :| c != ROOT && Parent(c) == d && !SameBinding(s, t, c) { ChildNearest(s, p, c); }
    if d == Nearest(s, Parent(p)) {
      var c := NearestChild(s, p);
      assert !SameBinding(s, t, c);
    }
  }

  lemma CreateEntryAdds(s: Store, p: Path, node: Node, now: int)
    requires Valid(s) && p !in s.names && p != ROOT && CreateEntry(s, p, node, now).Some?
    ensures Added(s, CreateEntry(s, p, node, now).value, p)
  {
    var u := MakeDirs(s, Parent(p), now).value;
    MakeDirsExtends(s, Parent(p), now);
    assert !AtOrBelow(Parent(p), p);
    AddEntryExtends(u, p, node, now);
    forall q ensures AtOrBelow(p, q) <==> AtOrBelow(Parent(p), q) || q == p { PrefixStep(q, p); }
  }

  lemma MakeDirsAdds(s: Store, p: Path, now: int)
    requires Valid(s) && p !in s.names && MakeDirs(s, p, now).Some?
    ensures Added(s, MakeDirs(s, p, now).value, p)
  {
    MakeDirsExtends(s, p, now);
  }

  lemma HardLinkAdds(s: Store, p: Path, ino: nat, now: int)
    requires Valid(s) && p !in s.names && p != ROOT && MakeDirs(s, Parent(p), now).Some?
    ensures Added(s, HardLinked(MakeDirs(s, Parent(p), now).value, p, ino, now), p)
  {
    MakeDirsExtends(s, Parent(p), now);
    forall q ensures AtOrBelow(p, q) <==> AtOrBelow(Parent(p), q) || q == p { PrefixStep(q, p); }
  }

  lemma SameNamesSameEntries(s: Store, t: Store, d: Path)
    requires t.names == s.names
    ensures !EntriesChange(s, t, d)
  {
  }

  lemma RemovedEntries(s: Store, t: Store, p: Path, d: Path)
    requires p in s.names && p != ROOT && t.names == s.names - {p}
    ensures EntriesChange(s, t, d) <==> d == Parent(p)
  {
    assert !SameBinding(s, t, p);
  }

  lemma ReplayedEntries(s: Store, t: Store, from: Path, d: Path)
    requires from in s.names && from != ROOT && d in t.names
    requires forall q :: q in t.names <==> q in s.names && !AtOrBelow(q, from)
    requires forall q :: q in t.names ==> t.names[q] == s.names[q]
    ensures EntriesChange(s, t, d) <==> d == Parent(from)
  {
    assert !SameBinding(s, t, from);
    if c :| c != ROOT && Parent(c) == d && !SameBinding(s, t, c) { PrefixStep(from, c); }
  }

  /** What a rename needs to be told about a directory that stays where it is. */
  lemma BeyondBoth(s: Store, u: Store, v: Store, from: Path, to: Path, env: Env, d: Path)
    requires Moves(s, u, from, to, env) && v == Move(Cleared(s, u, to), from, to)
    requires IsDir(s, d) && StillAt(s, v, d)
    ensures !(from <= d) && !(to <= d)
  {
    var c := Cleared(s, u, to);
    ClearedCanMove(s, u, from, to, env);
    MakeDirsExtends(s, Parent(to), env.now);
    MoveIsMove(c, from, to);
    assert MovedTo(c, v, from, to, Source(from, to, d), d);
    if from <= d && to <= d { PrefixesCompare(from, to, d); }
  }

  lemma PrefixesCompare(a: Path, b: Path, q: Path)
    requires a <= q && b <= q
    ensures a <= b || b <= a
  {
    if |a| <= |b| { assert a == b[..|a|]; } else { assert b == a[..|b|]; }
  }

  lemma MoveEnds(x: Store, v: Store, from: Path, to: Path)
    requires IsMove(x, v, from, to)
    ensures from !in v.names && to in v.names && v.names[to] == x.names[from]
  {
    assert MovedTo(x, v, from, to, from, Moved(from, to, from));
    assert Moved(from, to, from) == to;
    assert from in v.names ==> MovedTo(x, v, from, to, Source(from, to, from), from);
  }

  lemma ClearedBinding(s: Store, u: Store, from: Path, to: Path, env: Env, c: Path)
    requires Moves(s, u, from, to, env) && c != to
    ensures var x := Cleared(s, u, to);
      && (c in x.names <==> c in s.names || AtOrBelow(Parent(to), c))
      && (c in s.names ==> x.names[c] == s.names[c])
  {
    MakeDirsExtends(s, Parent(to), env.now);
  }

  /** How a rename binds a name directly in such a directory. */
  lemma RelocatedBinding(s: Store, u: Store, v: Store, from: Path, to: Path, env: Env, c: Path)
    requires Moves(s, u, from, to, env) && v == Move(Cleared(s, u, to), from, to)
    requires c != ROOT && !(from <= Parent(c)) && !(to <= Parent(c))
    ensures SameBinding(s, v, c) <==> c != from && c != to && (c in s.names || !AtOrBelow(Parent(to), c))
  {
    var x := Cleared(s, u, to);
    ClearedCanMove(s, u, from, to, env);
    MoveIsMove(x, from, to);
    MoveEnds(x, v, from, to);
    assert from != to;
    ClearedBinding(s, u, from, to, env, from);
    if c != from && c != to {
      ClearedBinding(s, u, from, to, env, c);
      PrefixStep(from, c);
      PrefixStep(to, c);
      MoveElsewhere(x, v, from, to, c);
    }
  }

  lemma RelocatedEntries(s: Store, u: Store, v: Store, from: Path, to: Path, env: Env, d: Path)
    requires Moves(s, u, from, to, env) && v == Move(Cleared(s, u, to), from, to)
    requires IsDir(s, d) && StillAt(s, v, d)
    ensures EntriesChange(s, v, d) <==> d == Parent(from) || d == Nearest(s, Parent(to))
  {
    BeyondBoth(s, u, v, from, to, env, d);
    if c :| c != ROOT && Parent(c) == d && !SameBinding(s, v, c) {
      RelocatedBinding(s, u, v, from, to, env, c);
      if c != from && c != to {
        PrefixStep(c, to);
        ChildNearest(s, to, c);
      }
    }
    if d == Parent(from) {
      RelocatedBinding(s, u, v, from, to, env, from);
    } else if d == Nearest(s, Parent(to)) {
      NearestGains(s, u, v, from, to, env, d);
    }
  }

  lemma NearestGains(s: Store, u: Store, v: Store, from: Path, to: Path, env: Env, d: Path)
    requires Moves(s, u, from, to, env) && v == Move(Cleared(s, u, to), from, to)
    requires d == Nearest(s, Parent(to)) && !(from <= d) && !(to <= d)
    ensures EntriesChange(s, v, d)
  {
    if Parent(to) in s.names {
      RelocatedBinding(s, u, v, from, to, env, to);
    } else {
      var c := NearestChild(s, Parent(to));
      RelocatedBinding(s, u, v, from, to, env, c);
      assert !SameBinding(s, v, c);
    }
  }

  lemma RenameEntries(s: Store, from: Path, to: Path, env: Env, d: Path)
    requires Valid(s) && from != ROOT && to != ROOT && ApplyRename(s, from, to, env).Some?
    requires IsDir(s, d) && StillAt(s, ApplyRename(s, from, to, env).value, d)
    ensures EntriesChange(s, ApplyRename(s, from, to, env).value, d) <==> d in Restamped(s, Rename(from, to), env)
  {
    if Replays(s, from, to, env) {
      var t, ds := ReplayOutcome(s, from, to, env);
      ReplayEntries(s, from, to, env, d);
    } else if Relocates(s, from, to, env) {
      var u, t, ds := RelocationOutcome(s, from, to, env);
      RenamedEntries(s, u, from, to, env, d);
    } else {
      IdleOutcome(s, from, to, env);
      SameNamesSameEntries(s, s, d);
    }
  }

  lemma ReplayEntries(s: Store, from: Path, to: Path, env: Env, d: Path)
    requires from in s.names && from != ROOT && d in Replayed(s, from, to, env).names
    ensures EntriesChange(s, Replayed(s, from, to, env), d) <==> d == Parent(from)
  {
    CopyModesBelow(s, from, to, env.order(s, from));
    ReplayedEntries(s, Replayed(s, from, to, env), from, d);
  }

  lemma EntriesByName(s: Store, t: Store, v: Store, d: Path)
    requires t.names == v.names
    ensures EntriesChange(s, t, d) <==> EntriesChange(s, v, d)
  {
    if c :| c != ROOT && Parent(c) == d && !SameBinding(s, t, c) { assert !SameBinding(s, v, c); }
    if c :| c != ROOT && Parent(c) == d && !SameBinding(s, v, c) { assert !SameBinding(s, t, c); }
  }

  lemma RenamedEntries(s: Store, u: Store, from: Path, to: Path, env: Env, d: Path)
    requires Moves(s, u, from, to, env)
    requires IsDir(s, d) && StillAt(s, Renamed(Cleared(s, u, to), from, to, env.now), d)
    ensures EntriesChange(s, Renamed(Cleared(s, u, to), from, to, env.now), d) <==>
      d == Parent(from) || d == Nearest(s, Parent(to))
  {
    var v := Move(Cleared(s, u, to), from, to);
    SameNames(v, Parent(from), Parent(to), env.now);
    RelocatedEntries(s, u, v, from, to, env, d);
    EntriesByName(s, Renamed(Cleared(s, u, to), from, to, env.now), v, d);
  }

  /** Names that come to be, or are there already. */
  lemma NewEntries(s: Store, t: Store, p: Path, d: Path)
    requires d in s.names && (if p in s.names then t.names == s.names else Added(s, t, p))
    ensures EntriesChange(s, t, d) <==> p !in s.names && d == Nearest(s, Parent(p))
  {
    if p in s.names { SameNamesSameEntries(s, t, d); } else { AddedEntries(s, t, p, d); }
  }

  lemma CreationEntries(s: Store, m: Mutation, env: Env, d: Path)
    requires Valid(s) && WellFormed(m) && Apply(s, m, env).Some? && d in s.names
    requires m.CreateFile? || m.CreateSymlink? || m.CreateDirectory? || m.CreateHardLink?
    ensures EntriesChange(s, Apply(s, m, env).value, d) <==> d in Restamped(s, m, env)
  {
    var t := Apply(s, m, env).value;
    match m
    case CreateFile(p, mode) =>
      CreateEntryAdds(s, p, Node(File(""), if mode.Some? then mode.value else DEFAULT_FILE_MODE, env.now), env.now);
      NewEntries(s, t, p, d);
    case CreateSymlink(p, target) =>
      if p !in s.names { CreateEntryAdds(s, p, Node(Symlink(target), 0, env.now), env.now); }
      NewEntries(s, t, p, d);
    case CreateDirectory(p, mode) =>
      if p !in s.names { MakeDirsAdds(s, p, env.now); }
      NewEntries(s, t, p, d);
    case CreateHardLink(source, p) =>
      if p !in s.names { HardLinkAdds(s, p, s.names[source], env.now); }
      NewEntries(s, t, p, d);
  }

  lemma RemovalEntries(s: Store, m: Mutation, env: Env, d: Path)
    requires (m.DeleteFile? || m.RemoveDirectory?) && WellFormed(m) && Apply(s, m, env).Some?
    ensures EntriesChange(s, Apply(s, m, env).value, d) <==> d in Restamped(s, m, env)
  {
    var t := Apply(s, m, env).value;
    if m.path in s.names { RemovedEntries(s, t, m.path, d); } else { SameNamesSameEntries(s, t, d); }
  }

  lemma MutationEntries(s: Store, m: Mutation, env: Env, d: Path)
    requires Valid(s) && WellFormed(m) && Apply(s, m, env).Some?
    requires IsDir(s, d) && StillAt(s, Apply(s, m, env).value, d)
    ensures EntriesChange(s, Apply(s, m, env).value, d) <==> d in Restamped(s, m, env)
  {
    match m
    case Rename(from, to) => RenameEntries(s, from, to, env, d);
    case SetMode(_, _) => SameNamesSameEntries(s, Apply(s, m, env).value, d);
    case DeleteFile(_) => RemovalEntries(s, m, env, d);
    case RemoveDirectory(_) => RemovalEntries(s, m, env, d);
    case _ => CreationEntries(s, m, env, d);
  }

  /** Whatever the mutation: a directory that stays in place shows the time of the
      mutation if some name directly in it came, went or was bound anew, and the time it
      showed before if not. */
  lemma RestampedIffEntriesChange(s: Store, m: Mutation, env: Env, d: Path)
    requires Valid(s) && WellFormed(m) && Apply(s, m, env).Some?
    requires IsDir(s, d) && StillAt(s, Apply(s, m, env).value, d)
    ensures var t := Apply(s, m, env).value;
      && s.names[d] < |t.nodes|
      && t.nodes[s.names[d]].stamp == if EntriesChange(s, t, d) then env.now else s.nodes[s.names[d]].stamp
  {
    var t, ds, ino := Apply(s, m, env).value, Restamped(s, m, env), s.names[d];
    MutationRestamps(s, m, env);
    MutationEntries(s, m, env, d);
    assert d in NamesOf(s, ino);
    if ino in InodesOf(s, ds) {
      var x :| x in ds && IsDir(s, x) && s.names[x] == ino;
      assert x in NamesOf(s, ino);
    }
  }
}
