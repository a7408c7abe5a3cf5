/** Where the report of a namespace batch falls short: the concrete situations that
    leave a watcher with a stale entry. */
module ReportLimits {
  import opened Prelude
  import opened Paths
  import opened Namespace
  import opened Mutations
  import opened Containment
  import opened DirectoryTimes

  /** A point mutation alone is reported as its path and its parent. */
  lemma PointReport(m: Mutation, p: Path, q: Path)
    requires !SupersedesSubtrees(m) && OwnPaths(m) == [p]
    ensures q in Cover(Report([m])) <==> q == p || q == Parent(p)
  {
    var ms := [m];
    assert ms[..|ms| - 1] == [] && [p][1..] == [];
    assert WithParents([p]) == [p, Parent(p)] + WithParents([]);
    assert SnapshotPaths(ms) == SnapshotPaths([]) + WithParents([p]) == [p, Parent(p)];
    assert Superseded(ms) == Superseded([]) + [];
  }

  /** A creation refreshes its directory's own bookkeeping. The directory is
      reported; the listing one level up, as it is sent, shows the change and is not. */
  lemma DirectoryTimesGoUnreported(s: Store, d: Path, name: string, env: Env)
    requires Valid(s) && IsDir(s, d) && d != ROOT && d + [name] !in s.names
    requires s.nodes[s.names[d]].stamp != env.now
    ensures var m := CreateFile(d + [name], None);
      && Apply(s, m, env).Some?
      && d in Cover(Report([m])) && Parent(d) !in Cover(Report([m]))
      && Read(Apply(s, m, env).value, FullListOf(Parent(d))) != Read(s, FullListOf(Parent(d)))
      && Kept(s, Apply(s, m, env).value, Cover(Report([m])))
  {
    var p := d + [name];
    var m, node := CreateFile(p, None), Node(File(""), DEFAULT_FILE_MODE, env.now);
    var cov := Cover(Report([m]));
    assert Parent(p) == d && |Parent(d)| < |d| < |p|;
    PointReport(m, p, p);
    PointReport(m, p, d);
    PointReport(m, p, Parent(d));
    MutationRestamps(s, m, env);
    KeptIffContained(s, m, env, cov);
    forall x | AtOrBelow(d, x) ensures x in s.names { AncestorsExist(s, d, x); }
    assert s.names[d] in InodesOf(s, {d});
    StampShows(s, Apply(s, m, env).value, d, cov);
  }

  /** Two names of one file: changing the mode through one leaves the other's
      cached metadata stale. */
  lemma HardLinkAliasGoesStale(s: Store, p: Path, q: Path, mode: int, env: Env)
    requires Valid(s) && SameNode(s, p, q) && p != q && p != ROOT
    requires s.nodes[s.names[p]].kind.File? && s.nodes[s.names[p]].mode != mode
    ensures Apply(s, SetMode(p, mode), env).Some?
    ensures q !in Cover(Report([SetMode(p, mode)]))
    ensures Stat(Apply(s, SetMode(p, mode), env).value, q) != Stat(s, q)
  {
    PointReport(SetMode(p, mode), p, q);
    assert IsDir(s, Parent(p)) && !IsDir(s, q);
  }

  /** ... and such a workspace exists: one hard link makes it. */
  lemma AliasedWorkspaceExists()
    ensures exists s: Store, p: Path, q: Path ::
      Valid(s) && SameNode(s, p, q) && p != q && s.nodes[s.names[p]].kind.File?
  {
    var dir, file := Node(Directory, DEFAULT_DIRECTORY_MODE, 0), Node(File(""), DEFAULT_FILE_MODE, 0);
    var s := Store(map[ROOT := 0, ["a"] := 1, ["b"] := 1], [dir, file]);
    assert Parent(["a"]) == ROOT && Parent(["b"]) == ROOT;
    assert NamesOf(s, 0) == {ROOT};
    assert ["a"][0] != ["b"][0];
    assert SameNode(s, ["a"], ["b"]);
  }

  /** Creating a directory below a missing one goes unreported above it: the
      listing of the nearest existing ancestor is never named. */
  lemma MissingParentGoesStale(s: Store, p: Path, env: Env)
    requires Valid(s) && p != ROOT && Parent(p) !in s.names
    requires Apply(s, CreateDirectory(p, None), env).Some?
    ensures !Kept(s, Apply(s, CreateDirectory(p, None), env).value, Cover(Report([CreateDirectory(p, None)])))
  {
    var m, d := CreateDirectory(p, None), Parent(p);
    var cov := Cover(Report([m]));
    PointReport(m, p, p);
    PointReport(m, p, d);
    PointReport(m, p, Parent(d));
    CreateDirectoryKept(s, MakeDirs(s, p, env.now).value, p, None, env.now, cov);
    assert AtOrBelow(d, d) && d in Missing(s, d);
    assert |Parent(d)| < |d| < |p|;
  }

  /** A rename onto a file with the same contents keeps the target and deletes the
      source: another name of the source loses a link, unreported. */
  lemma ReplayedRenameLeavesAliasStale(s: Store, from: Path, to: Path, q: Path, env: Env)
    requires Valid(s) && from != ROOT && Replays(s, from, to, env) && !IsDir(s, from)
    requires SameNode(s, from, q) && q !in Cover(Report([Rename(from, to)]))
    ensures Apply(s, Rename(from, to), env) == Some(Replayed(s, from, to, env))
    ensures Stat(Replayed(s, from, to, env), q) != Stat(s, q)
  {
    var order, m := env.order(s, from), Rename(from, to);
    var c, t, cov := CopyModes(s, from, to, order), Replayed(s, from, to, env), Cover(Report([m]));
    ReportIsReported([m], 0);
    assert Reported(m, cov) by { assert [m][0] == m; }
    assert from in cov && q != from;
    BeyondSubtree(from, q, cov);
    CopyModesBelow(s, from, to, order);
    ReplayedFacts(s, c, from, to, env.now);
    assert s.names[from] in Removed(s, from);
    FewerNames(s, t, from, s.names[from]);
    assert !IsDir(s, q) && !IsDir(t, q);
    LinksShow(s, t, q);
  }

  /** Files are equivalent when their contents are. */
  lemma EquivalentFiles(s: Store, a: Path, b: Path)
    requires Valid(s) && a in s.names && b in s.names && !IsDir(s, a) && !IsDir(s, b)
    requires KindAt(s, a) == KindAt(s, b)
    ensures Equivalent(s, a, b)
  {
    forall q | q in s.names ensures SameAt(s, a, b, q) {
      if a <= q {
        FileHasNothingBelow(s, a, q);
        assert b + q[|a|..] == b;
      }
      if b <= q {
        FileHasNothingBelow(s, b, q);
        assert a + q[|b|..] == a;
      }
    }
  }

  /** `a` and `c` are one empty file, `b` is another. */
  function TwoEmptyFiles(): Store {
    var dir, file := Node(Directory, DEFAULT_DIRECTORY_MODE, 0), Node(File(""), DEFAULT_FILE_MODE, 0);
    Store(map[ROOT := 0, ["a"] := 1, ["c"] := 1, ["b"] := 2], [dir, file, file])
  }

  lemma TwoEmptyFilesValid()
    ensures var s := TwoEmptyFiles();
      && Valid(s) && !IsDir(s, ["a"]) && !IsDir(s, ["b"])
      && SameNode(s, ["a"], ["c"]) && KindAt(s, ["a"]) == KindAt(s, ["b"]) == Some(File(""))
  {
    var s := TwoEmptyFiles();
    var a, b, c: Path := ["a"], ["b"], ["c"];
    assert a[0] != b[0] && b[0] != c[0] && a[0] != c[0];
    assert Parent(a) == Parent(b) == Parent(c) == ROOT;
    assert s.names[ROOT] == 0 && s.names[a] == 1 && s.names[b] == 2 && s.names[c] == 1;
    forall q ensures IsDir(s, q) <==> q == ROOT {}
    assert NamesOf(s, 0) == {ROOT};
  }

  /** A workspace in which the link count of `c` goes stale. */
  lemma ReplayedRenameExample(env: Env)
    ensures var s := TwoEmptyFiles();
      && Valid(s) && !IsDir(s, ["a"]) && Replays(s, ["a"], ["b"], env) && SameNode(s, ["a"], ["c"])
      && ["c"] !in Cover(Report([Rename(["a"], ["b"])]))
      && !Contained(s, Rename(["a"], ["b"]), env, Cover(Report([Rename(["a"], ["b"])])))
  {
    var s, m := TwoEmptyFiles(), Rename(["a"], ["b"]);
    var a, b, c: Path := ["a"], ["b"], ["c"];
    TwoEmptyFilesValid();
    EquivalentFiles(s, a, b);
    RenameReport(a, b, c);
    assert a[0] != c[0] && b[0] != c[0] && Parent(a) == Parent(b) == ROOT;
    assert s.names[a] in Removed(s, a);
    assert !PointCovered(c, Cover(Report([m])));
    ReplayContained(s, a, b, env, CopyModes(s, a, b, env.order(s, a)), Cover(Report([m])));
  }

  /** A rename alone reports its two subtrees and the parents of their tops. */
  lemma RenameReport(from: Path, to: Path, q: Path)
    ensures q in Cover(Report([Rename(from, to)])) <==>
      AtOrBelow(q, from) || AtOrBelow(q, to) || q == Parent(from) || q == Parent(to)
  {
    var ms, own := [Rename(from, to)], [from, to];
    assert ms[..|ms| - 1] == [] && own[1..] == [to] && [to][1..] == [];
    assert WithParents([to]) == [to, Parent(to)] + WithParents([]);
    assert WithParents(own) == [from, Parent(from)] + WithParents([to]) == [from, Parent(from), to, Parent(to)];
    assert SnapshotPaths(ms) == SnapshotPaths([]) + WithParents(own) == [from, Parent(from), to, Parent(to)];
    assert Superseded(ms) == Superseded([]) + own == own;
    var subtrees := Report(ms).subtrees;
    assert subtrees[0] == from && subtrees[1] == to;
  }

  lemma SelfEquivalent(s: Store, p: Path)
    ensures Equivalent(s, p, p)
  {
    forall x | x in s.names ensures SameAt(s, p, p, x) { assert p <= x ==> p + x[|p|..] == x; }
  }

  lemma ReplayApplies(s: Store, from: Path, to: Path, env: Env)
    requires Replays(s, from, to, env)
    ensures Apply(s, Rename(from, to), env) == Some(Replayed(s, from, to, env))
  {
  }

  lemma ReplayedNames(s: Store, from: Path, to: Path, env: Env, q: Path)
    ensures q in Replayed(s, from, to, env).names <==> q in s.names && !AtOrBelow(q, from)
  {
    CopyModesBelow(s, from, to, env.order(s, from));
  }

  /** A rename of an existing path to itself deletes it. */
  lemma RenameToItselfDeletes(s: Store, p: Path, env: Env, q: Path)
    requires Exists(s, p, env)
    ensures Apply(s, Rename(p, p), env).Some?
    ensures q in Apply(s, Rename(p, p), env).value.names <==> q in s.names && !AtOrBelow(q, p)
  {
    SelfEquivalent(s, p);
    ReplayApplies(s, p, p, env);
    ReplayedNames(s, p, p, env, q);
  }

  /** A rename to itself changes nothing exactly when `Path::exists` is false of the path:
      when there is nothing there, or a symlink that leads nowhere. */
  lemma RenameToItselfKeepsIff(s: Store, p: Path, env: Env)
    requires Valid(s) && p != ROOT
    ensures Apply(s, Rename(p, p), env) == Some(s) <==> !Exists(s, p, env)
  {
    if Exists(s, p, env) { RenameToItselfDeletes(s, p, env, p); }
  }
}
