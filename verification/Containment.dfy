/** When the gateway's report about a mutation is enough: everything outside the
    reported paths still reads the same exactly when the mutation is contained
    in them. */
module Containment {
  import opened Prelude
  import opened Paths
  import opened Namespace
  import opened Mutations

  // ---- creating entries ----------------------------------------------------

  /** `t` has all of `s`: same names, same inodes up to store bookkeeping. */
  ghost predicate Extends(s: Store, t: Store) {
    && Valid(s) && Valid(t)
    && |s.nodes| <= |t.nodes|
    && (forall q :: q in s.names ==> q in t.names && t.names[q] == s.names[q])
    && (forall ino: nat :: ino < |s.nodes| ==>
          t.nodes[ino].(stamp := 0) == s.nodes[ino].(stamp := 0) && NamesOf(t, ino) == NamesOf(s, ino))
  }

  lemma ExtendsTransitive(s: Store, t: Store, u: Store)
    requires Extends(s, t) && Extends(t, u)
    ensures Extends(s, u)
  {
  }

  lemma BindExtends(s: Store, p: Path, node: Node)
    requires Valid(s) && p !in s.names && p != ROOT && IsDir(s, Parent(p))
    ensures Extends(s, Bind(s, p, node))
  {
    BindValid(s, p, node);
  }

  lemma TouchExtends(s: Store, d: Path, now: int)
    requires Valid(s)
    ensures Extends(s, Touch(s, d, now))
  {
    TouchValid(s, d, now);
  }

  lemma AddEntryExtends(s: Store, p: Path, node: Node, now: int)
    requires Valid(s) && p !in s.names && p != ROOT && IsDir(s, Parent(p))
    ensures Extends(s, AddEntry(s, p, node, now))
    ensures AddEntry(s, p, node, now).names.Keys == s.names.Keys + {p}
    ensures IsDir(AddEntry(s, p, node, now), p) <==> node.kind.Directory?
  {
    BindExtends(s, p, node);
    TouchExtends(Bind(s, p, node), Parent(p), now);
    TouchValid(Bind(s, p, node), Parent(p), now);
    ExtendsTransitive(s, Bind(s, p, node), AddEntry(s, p, node, now));
  }

  lemma AddEntryAgrees(s: Store, p: Path, node: Node, now: int, cov: iset<Path>)
    requires Valid(s) && p !in s.names && p != ROOT && IsDir(s, Parent(p))
    requires PointCovered(p, cov)
    ensures Agree(s, AddEntry(s, p, node, now), cov)
  {
    BindAgrees(s, p, node, cov);
    BindValid(s, p, node);
    TouchAgrees(Bind(s, p, node), Parent(p), now, cov);
    AgreeTransitive(s, Bind(s, p, node), AddEntry(s, p, node, now), cov);
  }

  lemma {:induction false} AncestorsExist(s: Store, d: Path, q: Path)
    requires Valid(s) && d in s.names && q <= d
    ensures q in s.names
    decreases |d|
  {
    if q != d { AncestorsExist(s, Parent(d), q); }
  }

  lemma {:induction false} MakeDirsExtends(s: Store, d: Path, now: int)
    requires Valid(s) && MakeDirs(s, d, now).Some?
    ensures var t := MakeDirs(s, d, now).value;
      && Extends(s, t) && IsDir(t, d)
      && (forall q :: q in t.names <==> q in s.names || AtOrBelow(d, q))
    decreases |d|
  {
    if d in s.names {
      forall q | AtOrBelow(d, q) ensures q in s.names { AncestorsExist(s, d, q); }
    } else {
      MakeDirsExtends(s, Parent(d), now);
      var t := MakeDirs(s, Parent(d), now).value;
      var node := Node(Directory, DEFAULT_DIRECTORY_MODE, now);
      assert !(d <= Parent(d));
      AddEntryExtends(t, d, node, now);
      ExtendsTransitive(s, t, AddEntry(t, d, node, now));
      forall q ensures AtOrBelow(d, q) <==> AtOrBelow(Parent(d), q) || q == d { PrefixStep(q, d); }
    }
  }

  lemma PrefixStep(q: Path, d: Path)
    requires d != ROOT
    ensures q <= d <==> q <= Parent(d) || q == d
  {
    if q <= d && q != d { assert q == d[..|q|] == Parent(d)[..|q|]; }
  }

  lemma MissingStep(s: Store, d: Path, x: Path)
    requires d != ROOT
    ensures x in Missing(s, d) <==> x in Missing(s, Parent(d)) || (x == d && d !in s.names)
  {
    PrefixStep(x, d);
  }

  lemma {:induction false} MakeDirsAgrees(s: Store, d: Path, now: int, cov: iset<Path>)
    requires Valid(s) && MakeDirs(s, d, now).Some?
    requires forall x :: x in Missing(s, d) ==> PointCovered(x, cov)
    ensures Agree(s, MakeDirs(s, d, now).value, cov)
    decreases |d|
  {
    if d !in s.names {
      forall x | x in Missing(s, Parent(d)) ensures PointCovered(x, cov) { MissingStep(s, d, x); }
      MakeDirsAgrees(s, Parent(d), now, cov);
      MakeDirsExtends(s, Parent(d), now);
      MissingStep(s, d, d);
      assert AtOrBelow(d, d);
      var t := MakeDirs(s, Parent(d), now).value;
      var node := Node(Directory, DEFAULT_DIRECTORY_MODE, now);
      assert !(d <= Parent(d));
      AddEntryAgrees(t, d, node, now, cov);
      AgreeTransitive(s, t, AddEntry(t, d, node, now), cov);
    }
  }

  // ---- what gives an uncontained mutation away -----------------------------

  /** A visible change of one entry shows in a key that was not reported. */
  lemma ChangeShows(s: Store, t: Store, q: Path, cov: iset<Path>)
    requires Valid(s) && Valid(t) && q != ROOT
    requires Listed(Stat(t, q)) != Listed(Stat(s, q))
    requires !PointCovered(q, cov)
    ensures !Kept(s, t, cov)
  {
    if q !in cov {
      assert Read(t, StatOf(q)) != Read(s, StatOf(q));
    } else {
      var d := Parent(q);
      assert q in s.names ==> IsDir(s, d) && q in Entries(s, d) && Entries(s, d)[q] == Listed(Stat(s, q));
      assert q in t.names ==> IsDir(t, d) && q in Entries(t, d) && Entries(t, d)[q] == Listed(Stat(t, q));
      assert Read(t, ListOf(d)) != Read(s, ListOf(d));
    }
  }

  lemma NewDirShows(s: Store, t: Store, d: Path, top: Path, cov: iset<Path>)
    requires Valid(s) && Valid(t) && d in Missing(s, top) && d in t.names
    requires !PointCovered(d, cov)
    ensures !Kept(s, t, cov)
  {
    assert d != ROOT;
    ChangeShows(s, t, d, cov);
  }

  // ---- kept if and only if contained ---------------------------------------

  /** The common part of every creation: directories first, then the entry. */
  lemma CreateEntryKept(s: Store, p: Path, node: Node, now: int, cov: iset<Path>)
    requires Valid(s) && p !in s.names && p != ROOT && CreateEntry(s, p, node, now).Some?
    requires PointCovered(p, cov)
    ensures var t := CreateEntry(s, p, node, now).value;
      && Valid(t)
      && (Kept(s, t, cov) <==> forall d :: d in Missing(s, Parent(p)) ==> PointCovered(d, cov))
  {
    var u := MakeDirs(s, Parent(p), now).value;
    var t := AddEntry(u, p, node, now);
    MakeDirsExtends(s, Parent(p), now);
    assert !AtOrBelow(Parent(p), p);
    AddEntryExtends(u, p, node, now);
    if forall d :: d in Missing(s, Parent(p)) ==> PointCovered(d, cov) {
      MakeDirsAgrees(s, Parent(p), now, cov);
      AddEntryAgrees(u, p, node, now, cov);
      AgreeTransitive(s, u, t, cov);
      AgreeMeansKept(s, t, cov);
    } else {
      var d :| d in Missing(s, Parent(p)) && !PointCovered(d, cov);
      assert AtOrBelow(Parent(p), d);
      NewDirShows(s, t, d, Parent(p), cov);
    }
  }

  /** A directory's mode can be set without anyone beyond it noticing. */
  lemma DirectoryModeAgrees(u: Store, p: Path, mode: int, cov: iset<Path>)
    requires Valid(u) && IsDir(u, p) && PointCovered(p, cov)
    ensures Valid(Chmod(u, p, mode)) && Agree(u, Chmod(u, p, mode), cov)
  {
    assert Enclosed(u, u.names[p], cov) by {
      forall q | q in u.names && u.names[q] == u.names[p] ensures q == p { assert q in NamesOf(u, u.names[p]); }
    }
    ChmodValid(u, p, mode);
    ChmodAgrees(u, p, mode, cov);
  }

  function MadeDirectory(u: Store, p: Path, mode: Option<int>): Store {
    if mode.Some? then Chmod(u, p, mode.value) else u
  }

  lemma CreateDirectoryKept(s: Store, u: Store, p: Path, mode: Option<int>, now: int, cov: iset<Path>)
    requires Valid(s) && p != ROOT && MakeDirs(s, p, now) == Some(u) && PointCovered(p, cov)
    ensures Valid(MadeDirectory(u, p, mode))
    ensures Kept(s, MadeDirectory(u, p, mode), cov) <==> forall d :: d in Missing(s, Parent(p)) ==> PointCovered(d, cov)
  {
    var t := MadeDirectory(u, p, mode);
    MakeDirsExtends(s, p, now);
    if mode.Some? { DirectoryModeAgrees(u, p, mode.value, cov); }
    if forall d :: d in Missing(s, Parent(p)) ==> PointCovered(d, cov) {
      ContainedDirectoryKept(s, u, t, p, now, cov);
    } else {
      var d :| d in Missing(s, Parent(p)) && !PointCovered(d, cov);
      PrefixStep(d, p);
      assert AtOrBelow(p, d);
      NewDirShows(s, t, d, Parent(p), cov);
    }
  }

  lemma ContainedDirectoryKept(s: Store, u: Store, t: Store, p: Path, now: int, cov: iset<Path>)
    requires Valid(s) && p != ROOT && MakeDirs(s, p, now) == Some(u) && Agree(u, t, cov)
    requires PointCovered(p, cov)
    requires forall d :: d in Missing(s, Parent(p)) ==> PointCovered(d, cov)
    ensures Kept(s, t, cov)
  {
    forall x | x in Missing(s, p) ensures PointCovered(x, cov) { MissingStep(s, p, x); }
    MakeDirsAgrees(s, p, now, cov);
    AgreeTransitive(s, u, t, cov);
    AgreeMeansKept(s, t, cov);
  }

  /** A directory has one name, so covering the name encloses it. */
  lemma DirectoryEnclosed(s: Store, p: Path, cov: iset<Path>)
    requires Valid(s) && IsDir(s, p) && PointCovered(p, cov)
    ensures Enclosed(s, s.names[p], cov)
  {
    forall q | q in s.names && s.names[q] == s.names[p] ensures PointCovered(q, cov) {
      assert q in NamesOf(s, s.names[p]);
    }
  }

  /** A changed mode shows under a name that is not covered. */
  lemma ModeShows(s: Store, p: Path, mode: int, cov: iset<Path>)
    requires Valid(s) && p in s.names && Valid(Chmod(s, p, mode)) && PointCovered(p, cov)
    requires s.nodes[s.names[p]].mode != mode && !Enclosed(s, s.names[p], cov)
    ensures !Kept(s, Chmod(s, p, mode), cov)
  {
    var q :| q in s.names && s.names[q] == s.names[p] && !PointCovered(q, cov);
    assert !IsDir(s, p) by { assert q in NamesOf(s, s.names[p]) && q != p; }
    ChangeShows(s, Chmod(s, p, mode), q, cov);
  }

  lemma SetModeKept(s: Store, m: Mutation, env: Env, cov: iset<Path>)
    requires Valid(s) && m.SetMode? && Apply(s, m, env).Some? && Reported(m, cov)
    ensures Valid(Apply(s, m, env).value)
    ensures Kept(s, Apply(s, m, env).value, cov) <==> Contained(s, m, env, cov)
  {
    var p := m.path;
    var t := Apply(s, m, env).value;
    if p in s.names {
      ChmodValid(s, p, m.newMode);
      if s.nodes[s.names[p]].mode == m.newMode {
        assert t.nodes == s.nodes;
      } else if Enclosed(s, s.names[p], cov) {
        ChmodAgrees(s, p, m.newMode, cov);
        AgreeMeansKept(s, t, cov);
      } else {
        ModeShows(s, p, m.newMode, cov);
      }
    }
  }

  lemma EnclosedRemovalKept(s: Store, p: Path, now: int, cov: iset<Path>)
    requires Valid(s) && p in s.names && p != ROOT && Childless(s, p) && PointCovered(p, cov)
    requires Enclosed(s, s.names[p], cov)
    ensures Kept(s, RemoveEntry(s, p, now), cov)
  {
    UnlinkValid(s, p);
    UnlinkAgrees(s, p, cov);
    TouchAgrees(Unlink(s, p), Parent(p), now, cov);
    AgreeTransitive(s, Unlink(s, p), RemoveEntry(s, p, now), cov);
    AgreeMeansKept(s, RemoveEntry(s, p, now), cov);
  }

  /** A removed name shows in the link count of an alias that is not covered. */
  lemma RemovalShows(s: Store, p: Path, now: int, cov: iset<Path>)
    requires Valid(s) && p in s.names && p != ROOT && Childless(s, p) && PointCovered(p, cov)
    requires !IsDir(s, p) && !Enclosed(s, s.names[p], cov)
    ensures !Kept(s, RemoveEntry(s, p, now), cov)
  {
    var q :| q in s.names && s.names[q] == s.names[p] && !PointCovered(q, cov);
    RemovedFacts(s, p, now, q);
    AliasShows(s, RemoveEntry(s, p, now), q, cov);
  }

  lemma RemovedFacts(s: Store, p: Path, now: int, q: Path)
    requires Valid(s) && p in s.names && p != ROOT && Childless(s, p) && !IsDir(s, p)
    requires q != p && SameNode(s, p, q)
    ensures var t := RemoveEntry(s, p, now);
      && Valid(t) && SameEntry(s, t, q)
      && |NamesOf(t, s.names[p])| != |NamesOf(s, s.names[p])|
  {
    var u, t, ino := Unlink(s, p), RemoveEntry(s, p, now), s.names[p];
    UnlinkValid(s, p);
    TouchValid(u, Parent(p), now);
    assert p in NamesOf(s, ino);
    assert NamesOf(t, ino) == NamesOf(s, ino) - {p};
  }

  lemma RemoveEntryKept(s: Store, p: Path, now: int, cov: iset<Path>)
    requires Valid(s) && p in s.names && p != ROOT && Childless(s, p) && PointCovered(p, cov)
    ensures Valid(RemoveEntry(s, p, now))
    ensures Kept(s, RemoveEntry(s, p, now), cov) <==> IsDir(s, p) || Enclosed(s, s.names[p], cov)
  {
    UnlinkValid(s, p);
    TouchValid(Unlink(s, p), Parent(p), now);
    if IsDir(s, p) { DirectoryEnclosed(s, p, cov); }
    if Enclosed(s, s.names[p], cov) {
      EnclosedRemovalKept(s, p, now, cov);
    } else {
      RemovalShows(s, p, now, cov);
    }
  }

  /** Gaining or losing a name shows in the link count under every other name. */
  lemma LinksShow(s: Store, t: Store, q: Path)
    requires q in s.names && q in t.names && t.names[q] == s.names[q]
    requires s.names[q] < |s.nodes| && s.names[q] < |t.nodes|
    requires !IsDir(s, q) && !IsDir(t, q)
    requires |NamesOf(t, s.names[q])| != |NamesOf(s, s.names[q])|
    ensures Listed(Stat(t, q)) != Listed(Stat(s, q))
  {
  }

  lemma AliasShows(s: Store, t: Store, q: Path, cov: iset<Path>)
    requires Valid(s) && Valid(t)
    requires q in s.names && q in t.names && t.names[q] == s.names[q] && !IsDir(s, q) && !IsDir(t, q)
    requires |NamesOf(t, s.names[q])| != |NamesOf(s, s.names[q])|
    requires !PointCovered(q, cov)
    ensures !Kept(s, t, cov)
  {
    LinksShow(s, t, q);
    ChangeShows(s, t, q, cov);
  }

  // ---- hard links ----------------------------------------------------------

  function HardLinked(u: Store, p: Path, ino: nat, now: int): Store {
    Touch(Link(u, p, ino), Parent(p), now)
  }

  lemma HardLinkedFacts(s: Store, u: Store, p: Path, ino: nat, now: int)
    requires Extends(s, u) && p !in u.names && p != ROOT && IsDir(u, Parent(p))
    requires ino < |s.nodes| && !s.nodes[ino].kind.Directory?
    ensures var t := HardLinked(u, p, ino, now);
      && Valid(t) && t.names == u.names[p := ino] && |t.nodes| == |u.nodes|
      && NamesOf(t, ino) == NamesOf(s, ino) + {p}
      && !t.nodes[ino].kind.Directory?
  {
    assert u.nodes[ino].(stamp := 0) == s.nodes[ino].(stamp := 0);
    LinkValid(u, p, ino);
    LinkNames(u, p, ino);
    TouchValid(Link(u, p, ino), Parent(p), now);
  }

  lemma HardLinkedAgrees(s: Store, u: Store, p: Path, ino: nat, now: int, cov: iset<Path>)
    requires Extends(s, u) && p !in u.names && p != ROOT && IsDir(u, Parent(p))
    requires ino < |s.nodes| && !s.nodes[ino].kind.Directory?
    requires PointCovered(p, cov) && Enclosed(s, ino, cov)
    ensures Agree(u, HardLinked(u, p, ino, now), cov)
  {
    assert u.nodes[ino].(stamp := 0) == s.nodes[ino].(stamp := 0);
    assert Enclosed(u, ino, cov) by {
      forall q | q in u.names && u.names[q] == ino ensures PointCovered(q, cov) {
        assert q in NamesOf(u, ino) && q in NamesOf(s, ino);
      }
    }
    LinkAgrees(u, p, ino, cov);
    LinkValid(u, p, ino);
    TouchAgrees(Link(u, p, ino), Parent(p), now, cov);
    AgreeTransitive(u, Link(u, p, ino), HardLinked(u, p, ino, now), cov);
  }

  lemma HardLinkKept(s: Store, m: Mutation, env: Env, cov: iset<Path>)
    requires Valid(s) && m.CreateHardLink? && WellFormed(m) && Apply(s, m, env).Some? && Reported(m, cov)
    ensures Valid(Apply(s, m, env).value)
    ensures Kept(s, Apply(s, m, env).value, cov) <==> Contained(s, m, env, cov)
  {
    var p := m.destination;
    if p !in s.names {
      var ino := s.names[m.source];
      var u := MakeDirs(s, Parent(p), env.now).value;
      MakeDirsExtends(s, Parent(p), env.now);
      assert !AtOrBelow(Parent(p), p);
      HardLinkedFacts(s, u, p, ino, env.now);
      if Contained(s, m, env, cov) {
        assert ino in Disturbed(s, m, env);
        MakeDirsAgrees(s, Parent(p), env.now, cov);
        HardLinkedAgrees(s, u, p, ino, env.now, cov);
        AgreeTransitive(s, u, HardLinked(u, p, ino, env.now), cov);
        AgreeMeansKept(s, HardLinked(u, p, ino, env.now), cov);
      } else {
        UncontainedHardLinkShows(s, u, m, env, cov);
      }
    }
  }

  lemma UncontainedHardLinkShows(s: Store, u: Store, m: Mutation, env: Env, cov: iset<Path>)
    requires Valid(s) && m.CreateHardLink? && WellFormed(m) && Reported(m, cov) && !Contained(s, m, env, cov)
    requires m.destination !in s.names && Apply(s, m, env).Some?
    requires MakeDirs(s, Parent(m.destination), env.now) == Some(u)
    ensures !Kept(s, HardLinked(u, m.destination, s.names[m.source], env.now), cov)
  {
    var p, ino := m.destination, s.names[m.source];
    MakeDirsExtends(s, Parent(p), env.now);
    assert !AtOrBelow(Parent(p), p);
    if !NewDirsCovered(s, m, env, cov) {
      var d :| d in Missing(s, Parent(p)) && !PointCovered(d, cov);
      HardLinkShowsDir(s, u, p, ino, env.now, d, cov);
    } else {
      var q :| q in s.names && s.names[q] == ino && !PointCovered(q, cov);
      HardLinkShowsAlias(s, u, p, ino, env.now, q, cov);
    }
  }

  lemma HardLinkShowsDir(s: Store, u: Store, p: Path, ino: nat, now: int, d: Path, cov: iset<Path>)
    requires Extends(s, u) && p !in u.names && p != ROOT && IsDir(u, Parent(p))
    requires forall q :: q in u.names <==> q in s.names || AtOrBelow(Parent(p), q)
    requires ino < |s.nodes| && !s.nodes[ino].kind.Directory?
    requires d in Missing(s, Parent(p)) && !PointCovered(d, cov)
    ensures !Kept(s, HardLinked(u, p, ino, now), cov)
  {
    HardLinkedFacts(s, u, p, ino, now);
    assert AtOrBelow(Parent(p), d);
    NewDirShows(s, HardLinked(u, p, ino, now), d, Parent(p), cov);
  }

  lemma HardLinkShowsAlias(s: Store, u: Store, p: Path, ino: nat, now: int, q: Path, cov: iset<Path>)
    requires Extends(s, u) && p !in u.names && p != ROOT && IsDir(u, Parent(p))
    requires ino < |s.nodes| && !s.nodes[ino].kind.Directory?
    requires q in s.names && s.names[q] == ino && !PointCovered(q, cov)
    ensures !Kept(s, HardLinked(u, p, ino, now), cov)
  {
    HardLinkedFacts(s, u, p, ino, now);
    assert p !in NamesOf(s, ino) && q in u.names;
    AliasShows(s, HardLinked(u, p, ino, now), q, cov);
  }

  // ---- rename --------------------------------------------------------------

  /** The store just before the move: missing directories made, victim gone. */
  function Cleared(s: Store, u: Store, to: Path): Store {
    if to in s.names then Unlink(u, to) else u
  }

  function Renamed(c: Store, from: Path, to: Path, now: int): Store {
    Touch(Touch(Move(c, from, to), Parent(from), now), Parent(to), now)
  }

  /** The guards under which a rename moves something. */
  ghost predicate Moves(s: Store, u: Store, from: Path, to: Path, env: Env) {
    && Valid(s) && from != ROOT && to != ROOT
    && Relocates(s, from, to, env) && !(from <= to)
    && (to in s.names ==> IsDir(s, from) == IsDir(s, to) && Childless(s, to))
    && MakeDirs(s, Parent(to), env.now) == Some(u)
  }

  lemma NothingBelowMissing(s: Store, p: Path, q: Path)
    requires Valid(s) && p !in s.names && q in s.names
    ensures !(p <= q)
  {
    if p <= q { AncestorsExist(s, q, p); }
  }

  lemma ClearedCanMove(s: Store, u: Store, from: Path, to: Path, env: Env)
    requires Moves(s, u, from, to, env)
    ensures CanMove(Cleared(s, u, to), from, to)
    ensures to in s.names ==> u == s
  {
    var c := Cleared(s, u, to);
    MakeDirsExtends(s, Parent(to), env.now);
    if to in s.names {
      assert IsDir(s, Parent(to));
      UnlinkValid(s, to);
      assert Parent(to) != to;
    } else {
      forall q | q in u.names ensures !(to <= q) {
        if q in s.names { NothingBelowMissing(s, to, q); } else { assert AtOrBelow(Parent(to), q); }
      }
    }
  }

  /** What a rename leaves alone: everything beyond its two subtrees, and every
      inode's number of names. */
  ghost predicate Relocated(c: Store, t: Store, from: Path, to: Path) {
    && Valid(t)
    && (forall ino :: |NamesOf(t, ino)| == |NamesOf(c, ino)|)
    && (forall q :: !AtOrBelow(q, from) && !AtOrBelow(q, to) ==> SameEntry(c, t, q))
  }

  predicate SameEntry(c: Store, t: Store, q: Path) {
    && (q in t.names <==> q in c.names)
    && (q in c.names ==> t.names[q] == c.names[q] && (IsDir(t, q) <==> IsDir(c, q)))
  }

  lemma MoveRelocates(c: Store, v: Store, from: Path, to: Path)
    requires IsMove(c, v, from, to)
    ensures Relocated(c, v, from, to)
  {
    MoveValid(c, v, from, to);
    forall ino ensures |NamesOf(v, ino)| == |NamesOf(c, ino)| { MoveLinks(c, v, from, to, ino); }
    forall q | !AtOrBelow(q, from) && !AtOrBelow(q, to) ensures SameEntry(c, v, q) { MoveElsewhere(c, v, from, to, q); }
  }

  lemma TouchStaysRelocated(c: Store, v: Store, from: Path, to: Path, d: Path, now: int)
    requires Relocated(c, v, from, to)
    ensures Relocated(c, Touch(v, d, now), from, to)
  {
    TouchValid(v, d, now);
    forall q | !AtOrBelow(q, from) && !AtOrBelow(q, to) ensures SameEntry(c, Touch(v, d, now), q) {
      assert SameEntry(c, v, q);
    }
  }

  lemma RenamedFacts(c: Store, from: Path, to: Path, now: int)
    requires CanMove(c, from, to)
    ensures Relocated(c, Renamed(c, from, to, now), from, to)
  {
    var v := Move(c, from, to);
    MoveIsMove(c, from, to);
    MoveRelocates(c, v, from, to);
    TouchStaysRelocated(c, v, from, to, Parent(from), now);
    TouchStaysRelocated(c, Touch(v, Parent(from), now), from, to, Parent(to), now);
  }

  lemma TwoTouchesAgree(v: Store, d: Path, e: Path, now: int, cov: iset<Path>)
    requires Valid(v) && d in cov && e in cov
    ensures Agree(v, Touch(Touch(v, d, now), e, now), cov)
  {
    TouchAgrees(v, d, now, cov);
    TouchValid(v, d, now);
    TouchAgrees(Touch(v, d, now), e, now, cov);
    AgreeTransitive(v, Touch(v, d, now), Touch(Touch(v, d, now), e, now), cov);
  }

  lemma RenamedAgrees(c: Store, v: Store, from: Path, to: Path, now: int, cov: iset<Path>)
    requires IsMove(c, v, from, to) && Reported(Rename(from, to), cov)
    ensures Agree(c, Touch(Touch(v, Parent(from), now), Parent(to), now), cov)
  {
    MoveValid(c, v, from, to);
    MoveAgrees(c, v, from, to, cov);
    TwoTouchesAgree(v, Parent(from), Parent(to), now, cov);
    AgreeTransitive(c, v, Touch(Touch(v, Parent(from), now), Parent(to), now), cov);
  }

  lemma TargetEnclosed(s: Store, u: Store, from: Path, to: Path, env: Env, cov: iset<Path>)
    requires Moves(s, u, from, to, env) && Reported(Rename(from, to), cov) && Contained(s, Rename(from, to), env, cov)
    requires to in s.names
    ensures Enclosed(s, s.names[to], cov)
  {
    if IsDir(s, to) {
      DirectoryEnclosed(s, to, cov);
    } else {
      assert s.names[to] in Disturbed(s, Rename(from, to), env);
    }
  }

  lemma ClearedAgrees(s: Store, u: Store, from: Path, to: Path, env: Env, cov: iset<Path>)
    requires Moves(s, u, from, to, env) && Reported(Rename(from, to), cov) && Contained(s, Rename(from, to), env, cov)
    ensures Agree(s, Cleared(s, u, to), cov)
  {
    ClearedCanMove(s, u, from, to, env);
    if to in s.names {
      TargetEnclosed(s, u, from, to, env, cov);
      UnlinkAgrees(s, to, cov);
    } else {
      MakeDirsAgrees(s, Parent(to), env.now, cov);
    }
  }

  lemma ContainedRenameKept(s: Store, u: Store, from: Path, to: Path, env: Env, cov: iset<Path>)
    requires Moves(s, u, from, to, env) && Reported(Rename(from, to), cov) && Contained(s, Rename(from, to), env, cov)
    ensures Kept(s, Renamed(Cleared(s, u, to), from, to, env.now), cov)
  {
    var c := Cleared(s, u, to);
    ClearedCanMove(s, u, from, to, env);
    ClearedAgrees(s, u, from, to, env, cov);
    MoveIsMove(c, from, to);
    RenamedAgrees(c, Move(c, from, to), from, to, env.now, cov);
    AgreeTransitive(s, c, Renamed(c, from, to, env.now), cov);
    AgreeMeansKept(s, Renamed(c, from, to, env.now), cov);
  }

  lemma UncontainedRenameShows(s: Store, u: Store, t: Store, from: Path, to: Path, env: Env, cov: iset<Path>)
    requires Moves(s, u, from, to, env) && Reported(Rename(from, to), cov) && !Contained(s, Rename(from, to), env, cov)
    requires Relocated(Cleared(s, u, to), t, from, to)
    ensures !Kept(s, t, cov)
  {
    if !NewDirsCovered(s, Rename(from, to), env, cov) {
      var d :| d in Missing(s, Parent(to)) && !PointCovered(d, cov);
      NewDirSurvivesRename(s, u, t, from, to, env, d);
      NewDirShows(s, t, d, Parent(to), cov);
    } else {
      assert to in s.names && !IsDir(s, to);
      var q :| q in s.names && s.names[q] == s.names[to] && !PointCovered(q, cov);
      ClearedCanMove(s, u, from, to, env);
      BeyondSubtree(from, q, cov);
      BeyondSubtree(to, q, cov);
      VictimAliasShows(s, t, from, to, q, cov);
    }
  }

  lemma VictimAliasShows(s: Store, t: Store, from: Path, to: Path, q: Path, cov: iset<Path>)
    requires Valid(s) && to in s.names && to != ROOT && Childless(s, to) && !IsDir(s, to)
    requires Relocated(Unlink(s, to), t, from, to)
    requires SameNode(s, to, q) && !AtOrBelow(q, from) && !AtOrBelow(q, to)
    requires !PointCovered(q, cov)
    ensures !Kept(s, t, cov)
  {
    UnlinkValid(s, to);
    assert SameEntry(Unlink(s, to), t, q);
    assert to in NamesOf(s, s.names[to]);
    AliasShows(s, t, q, cov);
  }

  lemma BeyondSubtree(top: Path, q: Path, cov: iset<Path>)
    requires TreeCovered(top, cov)
    requires !PointCovered(q, cov)
    ensures !AtOrBelow(q, top)
  {
    assert AtOrBelow(q, top) && q != top ==> AtOrBelow(Parent(q), top);
  }

  lemma NewDirSurvivesRename(s: Store, u: Store, t: Store, from: Path, to: Path, env: Env, d: Path)
    requires Moves(s, u, from, to, env) && d in Missing(s, Parent(to))
    requires Relocated(Cleared(s, u, to), t, from, to)
    ensures d in t.names
  {
    MakeDirsExtends(s, Parent(to), env.now);
    ClearedCanMove(s, u, from, to, env);
    assert AtOrBelow(Parent(to), d);
    assert !AtOrBelow(d, to);
    assert AtOrBelow(d, from) ==> from <= to;
    assert SameEntry(Cleared(s, u, to), t, d);
  }

  // ---- a rename that is already there --------------------------------------

  /** `t` is `s` with other permissions, on inodes that have a name at or below `top`. */
  ghost predicate ModesBelow(s: Store, t: Store, top: Path) {
    && t.names == s.names && |t.nodes| == |s.nodes|
    && (forall ino: nat :: ino < |s.nodes| ==> t.nodes[ino] == s.nodes[ino].(mode := t.nodes[ino].mode))
    && (forall ino: nat :: ino < |s.nodes| && t.nodes[ino].mode != s.nodes[ino].mode ==> NamedBelow(s, top, ino))
  }

  ghost predicate NamedBelow(s: Store, top: Path, ino: nat) {
    exists q :: q in s.names && AtOrBelow(q, top) && s.names[q] == ino
  }

  lemma CopyModeBelow(s: Store, c: Store, from: Path, top: Path, to: Path)
    requires ModesBelow(s, c, top) && AtOrBelow(to, top)
    ensures ModesBelow(s, CopyMode(c, from, to), top)
  {
    var t := CopyMode(c, from, to);
    if t != c {
      assert to in s.names && AtOrBelow(to, top);
      assert NamedBelow(s, top, s.names[to]);
    }
  }

  lemma {:induction false} CopyModesBelow(s: Store, from: Path, to: Path, order: seq<Path>)
    ensures ModesBelow(s, CopyModes(s, from, to, order), to)
  {
    if order != [] {
      var init, x := order[..|order| - 1], order[|order| - 1];
      CopyModesBelow(s, from, to, init);
      CopyModeBelow(s, CopyModes(s, from, to, init), from + x, to, to + x);
    }
  }

  lemma ModesValid(s: Store, c: Store, top: Path)
    requires Valid(s) && ModesBelow(s, c, top)
    ensures Valid(c)
    ensures forall q :: IsDir(c, q) <==> IsDir(s, q)
    ensures forall ino :: NamesOf(c, ino) == NamesOf(s, ino)
  {
    forall ino ensures NamesOf(c, ino) == NamesOf(s, ino) {}
    forall q ensures IsDir(c, q) <==> IsDir(s, q) {}
  }

  /** The store without the replayed rename's source, permissions already copied. */
  lemma ReplayedAgrees(s: Store, c: Store, from: Path, to: Path, cov: iset<Path>)
    requires Valid(s) && ModesBelow(s, c, to) && from != ROOT && TreeCovered(from, cov)
    requires forall ino :: ino in Removed(s, from) + Remoded(s, c) ==> Enclosed(s, ino, cov)
    ensures Agree(s, RemoveTree(c, from), cov)
  {
    var t := RemoveTree(c, from);
    ModesValid(s, c, to);
    RemoveTreeValid(c, from);
    var changed := iset q | AtOrBelow(q, from) || (q in s.names && s.names[q] in Removed(s, from) + Remoded(s, c));
    forall q | q !in changed ensures Stat(t, q) == Stat(s, q) { UntouchedByReplay(s, c, from, to, q); }
    forall q | q in changed ensures PointCovered(q, cov) {
      if AtOrBelow(q, from) && q != from { assert AtOrBelow(Parent(q), from); }
    }
    AgreeIfSameElsewhere(s, t, changed, cov);
  }

  lemma UntouchedByReplay(s: Store, c: Store, from: Path, to: Path, q: Path)
    requires Valid(s) && ModesBelow(s, c, to) && from != ROOT && !AtOrBelow(q, from)
    requires q in s.names ==> s.names[q] !in Removed(s, from) && s.names[q] !in Remoded(s, c)
    ensures Stat(RemoveTree(c, from), q) == Stat(s, q)
  {
    var t := RemoveTree(c, from);
    if q in s.names {
      var ino := s.names[q];
      assert t.nodes[ino] == s.nodes[ino];
      forall x | x in NamesOf(s, ino) ensures x in NamesOf(t, ino) {
        assert from <= x ==> ino in Removed(s, from);
      }
      assert NamesOf(t, ino) == NamesOf(s, ino);
      SameStat(s, t, q);
    }
  }

  /** `t` is the replayed store, up to bookkeeping. */
  ghost predicate ReplayedTo(s: Store, c: Store, t: Store, from: Path) {
    && Valid(s) && Valid(t) && |t.nodes| == |s.nodes| == |c.nodes|
    && (forall q :: q in t.names <==> q in s.names && !AtOrBelow(q, from))
    && (forall q :: q in t.names ==> t.names[q] == s.names[q])
    && (forall ino: nat :: ino < |s.nodes| ==>
          t.nodes[ino].mode == c.nodes[ino].mode && t.nodes[ino].kind == s.nodes[ino].kind)
  }

  lemma NewModeShows(s: Store, c: Store, t: Store, from: Path, q: Path, cov: iset<Path>)
    requires ReplayedTo(s, c, t, from) && q in t.names && q != ROOT && !PointCovered(q, cov)
    requires s.names[q] in Remoded(s, c)
    ensures !Kept(s, t, cov)
  {
    ChangeShows(s, t, q, cov);
  }

  lemma LostNameShows(s: Store, c: Store, t: Store, from: Path, q: Path, cov: iset<Path>)
    requires ReplayedTo(s, c, t, from) && q in t.names && !IsDir(s, q) && !PointCovered(q, cov)
    requires s.names[q] in Removed(s, from)
    ensures !Kept(s, t, cov)
  {
    FewerNames(s, t, from, s.names[q]);
    AliasShows(s, t, q, cov);
  }

  /** A name beyond the report of an inode that a replay disturbs: a file, still
      there, and seen to have changed. */
  lemma ReplayShows(s: Store, c: Store, t: Store, from: Path, to: Path, q: Path, cov: iset<Path>)
    requires ModesBelow(s, c, to) && ReplayedTo(s, c, t, from)
    requires TreeCovered(from, cov) && TreeCovered(to, cov)
    requires q in s.names && s.names[q] in Removed(s, from) + Remoded(s, c) && !PointCovered(q, cov)
    ensures !Kept(s, t, cov)
  {
    BeyondSubtree(from, q, cov);
    if IsDir(s, q) { DisturbedDirectoryCovered(s, c, from, to, q, cov); }
    if s.names[q] in Remoded(s, c) {
      NewModeShows(s, c, t, from, q, cov);
    } else {
      LostNameShows(s, c, t, from, q, cov);
    }
  }

  lemma DisturbedDirectoryCovered(s: Store, c: Store, from: Path, to: Path, q: Path, cov: iset<Path>)
    requires Valid(s) && ModesBelow(s, c, to) && TreeCovered(from, cov) && TreeCovered(to, cov)
    requires IsDir(s, q) && s.names[q] in Removed(s, from) + Remoded(s, c)
    ensures PointCovered(q, cov)
  {
    var ino := s.names[q];
    if ino in Removed(s, from) {
      var x :| x in s.names && from <= x && s.names[x] == ino;
      assert x in NamesOf(s, ino);
      if !PointCovered(q, cov) { BeyondSubtree(from, q, cov); }
    } else {
      assert NamedBelow(s, to, ino);
      var x :| x in s.names && AtOrBelow(x, to) && s.names[x] == ino;
      assert x in NamesOf(s, ino);
      if !PointCovered(q, cov) { BeyondSubtree(to, q, cov); }
    }
  }

  lemma FewerNames(s: Store, t: Store, from: Path, ino: nat)
    requires ino in Removed(s, from)
    requires forall q :: q in t.names <==> q in s.names && !(from <= q)
    requires forall q :: q in t.names ==> t.names[q] == s.names[q]
    ensures |NamesOf(t, ino)| < |NamesOf(s, ino)|
  {
    var x :| x in s.names && from <= x && s.names[x] == ino;
    assert x in NamesOf(s, ino) && x !in NamesOf(t, ino);
    assert NamesOf(t, ino) <= NamesOf(s, ino) - {x};
    SmallerSet(NamesOf(t, ino), NamesOf(s, ino) - {x});
  }

  lemma {:induction false} SmallerSet(a: set<Path>, b: set<Path>)
    requires a <= b
    ensures |a| <= |b|
  {
    if a != {} {
      var x :| x in a;
      SmallerSet(a - {x}, b - {x});
    }
  }

  lemma ReplayedFacts(s: Store, c: Store, from: Path, to: Path, now: int)
    requires Valid(s) && ModesBelow(s, c, to) && from != ROOT
    ensures Valid(RemoveTree(c, from))
    ensures ReplayedTo(s, c, Touch(RemoveTree(c, from), Parent(from), now), from)
  {
    ModesValid(s, c, to);
    RemoveTreeValid(c, from);
    TouchValid(RemoveTree(c, from), Parent(from), now);
  }

  ghost predicate AllEnclosed(s: Store, inodes: set<nat>, cov: iset<Path>) {
    forall ino :: ino in inodes ==> Enclosed(s, ino, cov)
  }

  lemma ReplayKept(s: Store, c: Store, from: Path, to: Path, now: int, cov: iset<Path>)
    requires Valid(s) && ModesBelow(s, c, to) && from != ROOT && TreeCovered(from, cov) && TreeCovered(to, cov)
    ensures Kept(s, Touch(RemoveTree(c, from), Parent(from), now), cov)
            <==> AllEnclosed(s, Removed(s, from) + Remoded(s, c), cov)
  {
    var r := RemoveTree(c, from);
    var t := Touch(r, Parent(from), now);
    ReplayedFacts(s, c, from, to, now);
    if AllEnclosed(s, Removed(s, from) + Remoded(s, c), cov) {
      ReplayedAgrees(s, c, from, to, cov);
      TouchAgrees(r, Parent(from), now, cov);
      AgreeTransitive(s, r, t, cov);
      AgreeMeansKept(s, t, cov);
    } else {
      var ino :| ino in Removed(s, from) + Remoded(s, c) && !Enclosed(s, ino, cov);
      var q :| q in s.names && s.names[q] == ino && !PointCovered(q, cov);
      ReplayShows(s, c, t, from, to, q, cov);
    }
  }

  lemma ReplayedRenameKept(s: Store, from: Path, to: Path, env: Env, cov: iset<Path>)
    requires Valid(s) && from != ROOT && Replays(s, from, to, env) && Reported(Rename(from, to), cov)
    ensures Valid(Replayed(s, from, to, env))
    ensures Kept(s, Replayed(s, from, to, env), cov) <==> Contained(s, Rename(from, to), env, cov)
  {
    var order := env.order(s, from);
    var c := CopyModes(s, from, to, order);
    CopyModesBelow(s, from, to, order);
    ReplayedFacts(s, c, from, to, env.now);
    ReplayKept(s, c, from, to, env.now, cov);
    ReplayContained(s, from, to, env, c, cov);
  }

  lemma ReplayContained(s: Store, from: Path, to: Path, env: Env, c: Store, cov: iset<Path>)
    requires Replays(s, from, to, env) && c == CopyModes(s, from, to, env.order(s, from))
    ensures Contained(s, Rename(from, to), env, cov) <==> AllEnclosed(s, Removed(s, from) + Remoded(s, c), cov)
  {
  }

  /** The trees lie apart, no two names below `to` share an inode, and none shares
      one with a name below `from`. */
  ghost predicate TargetApart(s: Store, from: Path, to: Path) {
    && !AtOrBelow(to, from) && !AtOrBelow(from, to)
    && (forall p, q :: p in s.names && AtOrBelow(p, to) && q in s.names && s.names[q] == s.names[p] ==>
          q == p || (!AtOrBelow(q, from) && !AtOrBelow(q, to)))
  }

  function ModeAt(s: Store, p: Path): int {
    if p in s.names && s.names[p] < |s.nodes| then s.nodes[s.names[p]].mode else 0
  }

  lemma ChmodAt(c: Store, p: Path, mode: int, q: Path)
    requires p in c.names && q in c.names && c.names[p] < |c.nodes| && c.names[q] < |c.nodes|
    ensures ModeAt(Chmod(c, p, mode), q) == if c.names[q] == c.names[p] then mode else ModeAt(c, q)
  {
  }

  lemma TreesApart(from: Path, to: Path, x: Path, y: Path)
    requires !AtOrBelow(to, from) && !AtOrBelow(from, to)
    ensures from + x != to + y && AtOrBelow(from + x, from) && AtOrBelow(to + y, to)
    ensures x != y ==> to + x != to + y
  {
    assert (to + x)[|to|..] == x && (to + y)[|to|..] == y;
  }

  lemma CopyModeAt(s: Store, c: Store, from: Path, to: Path, x: Path, y: Path)
    requires Valid(s) && ModesBelow(s, c, to) && TargetApart(s, from, to)
    requires from + x in s.names && to + x in s.names && from + y in s.names && to + y in s.names
    requires ModeAt(c, from + x) == ModeAt(s, from + x) && ModeAt(c, from + y) == ModeAt(s, from + y)
    requires KindAt(c, from + y).Some? && !KindAt(c, from + y).value.Symlink?
    ensures var t := CopyMode(c, from + y, to + y);
      && ModeAt(t, from + x) == ModeAt(s, from + x)
      && ModeAt(t, to + x) == if x == y then ModeAt(s, from + x) else ModeAt(c, to + x)
  {
    TreesApart(from, to, x, y);
    TreesApart(from, to, y, y);
    TreesApart(from, to, x, x);
    var mode := ModeAt(c, from + y);
    ChmodAt(c, to + y, mode, from + x);
    ChmodAt(c, to + y, mode, to + x);
    assert s.names[from + x] != s.names[to + y];
    assert x != y ==> s.names[to + x] != s.names[to + y];
  }

  /** Reading a tree of plain names in any order leaves every target it visits with
      the permissions of its source. */
  lemma {:induction false} ModesCopied(s: Store, from: Path, to: Path, order: seq<Path>, x: Path)
    requires Valid(s) && TargetApart(s, from, to)
    requires forall y :: y in order ==>
      from + y in s.names && to + y in s.names && !KindAt(s, from + y).value.Symlink?
    requires from + x in s.names && to + x in s.names
    ensures var c := CopyModes(s, from, to, order);
      && ModeAt(c, from + x) == ModeAt(s, from + x)
      && (x in order ==> ModeAt(c, to + x) == ModeAt(s, from + x))
  {
    if order != [] {
      var init, y := order[..|order| - 1], order[|order| - 1];
      ModesCopied(s, from, to, init, x);
      ModesCopied(s, from, to, init, y);
      CopyModesBelow(s, from, to, init);
      assert KindAt(CopyModes(s, from, to, init), from + y) == KindAt(s, from + y);
      CopyModeAt(s, CopyModes(s, from, to, init), from, to, x, y);
    }
  }

  /** A replayed rename leaves at the target what a move would have put there. */
  lemma ReplayKeepsContents(s: Store, from: Path, to: Path, env: Env, x: Path)
    requires Valid(s) && Replays(s, from, to, env) && from + x in s.names && !AtOrBelow(to + x, from)
    ensures KindAt(Replayed(s, from, to, env), to + x) == KindAt(s, from + x)
  {
    var q, order := from + x, env.order(s, from);
    assert from <= q && q[|from|..] == x;
    assert SameAt(s, from, to, q);
    CopyModesBelow(s, from, to, order);
    if from != ROOT { ReplayedFacts(s, CopyModes(s, from, to, order), from, to, env.now); }
  }

  /** A rename that is carried out moves a tree. */
  lemma RelocationApplies(s: Store, from: Path, to: Path, env: Env)
    requires Valid(s) && from != ROOT && to != ROOT && Relocates(s, from, to, env)
    requires ApplyRename(s, from, to, env).Some?
    ensures MakeDirs(s, Parent(to), env.now).Some?
    ensures var u := MakeDirs(s, Parent(to), env.now).value;
      && Moves(s, u, from, to, env)
      && ApplyRename(s, from, to, env) == Some(Renamed(Cleared(s, u, to), from, to, env.now))
  {
  }

  /** A rename is unnoticed elsewhere exactly when it is contained, whether it moves
      a tree, replaces a file, or finds its outcome there already. */
  lemma RenameKept(s: Store, m: Mutation, env: Env, cov: iset<Path>)
    requires Valid(s) && m.Rename? && WellFormed(m) && Apply(s, m, env).Some? && Reported(m, cov)
    ensures Valid(Apply(s, m, env).value)
    ensures Kept(s, Apply(s, m, env).value, cov) <==> Contained(s, m, env, cov)
  {
    var from, to := m.from, m.to;
    if Replays(s, from, to, env) {
      ReplayedRenameKept(s, from, to, env, cov);
    } else if Relocates(s, from, to, env) {
      RelocationApplies(s, from, to, env);
      RelocationKept(s, m, MakeDirs(s, Parent(to), env.now).value, env, cov);
    }
  }

  lemma RelocationKept(s: Store, m: Mutation, u: Store, env: Env, cov: iset<Path>)
    requires m.Rename? && Moves(s, u, m.from, m.to, env) && Reported(m, cov)
    ensures var t := Renamed(Cleared(s, u, m.to), m.from, m.to, env.now);
      Valid(t) && (Kept(s, t, cov) <==> Contained(s, m, env, cov))
  {
    var from, to := m.from, m.to;
    var c := Cleared(s, u, to);
    ClearedCanMove(s, u, from, to, env);
    RenamedFacts(c, from, to, env.now);
    if Contained(s, m, env, cov) {
      ContainedRenameKept(s, u, from, to, env, cov);
    } else {
      UncontainedRenameShows(s, u, Renamed(c, from, to, env.now), from, to, env, cov);
    }
  }

  // ---- the theorem ---------------------------------------------------------

  lemma CreationKept(s: Store, m: Mutation, env: Env, cov: iset<Path>)
    requires Valid(s) && (m.CreateFile? || m.CreateSymlink? || m.CreateDirectory?)
    requires WellFormed(m) && Apply(s, m, env).Some? && Reported(m, cov)
    ensures Valid(Apply(s, m, env).value)
    ensures Kept(s, Apply(s, m, env).value, cov) <==> NewDirsCovered(s, m, env, cov)
  {
    match m
    case CreateFile(p, mode) =>
      var node := Node(File(""), if mode.Some? then mode.value else DEFAULT_FILE_MODE, env.now);
      CreateEntryKept(s, p, node, env.now, cov);
    case CreateSymlink(p, target) =>
      if p !in s.names { CreateEntryKept(s, p, Node(Symlink(target), 0, env.now), env.now, cov); }
    case CreateDirectory(p, mode) =>
      CreateDirectoryKept(s, MakeDirs(s, p, env.now).value, p, mode, env.now, cov);
  }

  lemma RemovalKept(s: Store, m: Mutation, env: Env, cov: iset<Path>)
    requires Valid(s) && (m.DeleteFile? || m.RemoveDirectory?)
    requires WellFormed(m) && Apply(s, m, env).Some? && Reported(m, cov)
    ensures Valid(Apply(s, m, env).value)
    ensures Kept(s, Apply(s, m, env).value, cov) <==> Contained(s, m, env, cov)
  {
    var p := m.path;
    if p in s.names {
      if m.DeleteFile? { FileIsChildless(s, p); }
      RemoveEntryKept(s, p, env.now, cov);
      assert m.DeleteFile? ==> Disturbed(s, m, env) == {s.names[p]};
    }
  }

  lemma FileIsChildless(s: Store, p: Path)
    requires Valid(s) && p in s.names && !IsDir(s, p)
    ensures Childless(s, p)
  {
    forall q | q in s.names && p <= q ensures q == p { FileHasNothingBelow(s, p, q); }
  }

  lemma {:induction false} FileHasNothingBelow(s: Store, p: Path, q: Path)
    requires Valid(s) && p in s.names && !IsDir(s, p) && q in s.names && p <= q
    ensures q == p
    decreases |q|
  {
    if q != p {
      assert IsDir(s, Parent(q)) && p <= Parent(q);
      FileHasNothingBelow(s, p, Parent(q));
    }
  }

  /** One mutation published alone: everything outside the report reads the same
      if and only if no directory is created outside it and no inode the mutation
      disturbs has a name outside it.  Both can be checked before the call. */
  lemma KeptIffContained(s: Store, m: Mutation, env: Env, cov: iset<Path>)
    requires Valid(s) && WellFormed(m) && Apply(s, m, env).Some? && Reported(m, cov)
    ensures Valid(Apply(s, m, env).value)
    ensures Kept(s, Apply(s, m, env).value, cov) <==> Contained(s, m, env, cov)
  {
    match m
    case SetMode(_, _) => SetModeKept(s, m, env, cov);
    case CreateHardLink(_, _) => HardLinkKept(s, m, env, cov);
    case DeleteFile(_) => RemovalKept(s, m, env, cov);
    case RemoveDirectory(_) => RemovalKept(s, m, env, cov);
    case Rename(_, _) => RenameKept(s, m, env, cov);
    case _ => CreationKept(s, m, env, cov);
  }
}
