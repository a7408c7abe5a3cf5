/** The worklist walk that answers a subtree-metadata request, against a
    recursive and a declarative definition of what lies below a prefix. */
module SubtreeWalk {

  import opened Prelude
  import opened Paths

  // ---- excluded paths ------------------------------------------------------

  function CaseFold(s: string): string {
    seq(|s|, i requires 0 <= i < |s| => if 'A' <= s[i] <= 'Z' then s[i] + 32 as char else s[i])
  }

  function Slashes(s: string): string {
    seq(|s|, i requires 0 <= i < |s| => if s[i] == '\\' then '/' else s[i])
  }

  /** The parts of `s` between slashes, always at least one. */
  function Split(s: string): (parts: seq<string>)
    ensures |parts| > 0
  {
    if s == [] then [[]]
    else
      var rest := Split(s[1..]);
      if s[0] == '/' then [[]] + rest else [[s[0]] + rest[0]] + rest[1..]
  }

  predicate IsGitMetadataSegment(segment: string) {
    CaseFold(segment) == ".git"
  }

  predicate IsGitExcludedPath(path: string) {
    exists part :: part in Split(Slashes(path)) && part != "" && part != "." && IsGitMetadataSegment(part)
  }

  function Join(path: Path): string {
    if path == [] then "" else if |path| == 1 then path[0] else Join(path[..|path| - 1]) + "/" + path[|path| - 1]
  }

  predicate Excluded(allowGit: bool, path: Path) {
    !allowGit && IsGitExcludedPath(Join(path))
  }

  lemma {:induction false} SplitAtSlash(a: string, b: string)
    ensures Split(a + "/" + b) == Split(a) + Split(b)
  {
    if a == [] {
      assert ("/" + b)[1..] == b && a + "/" + b == "/" + b;
    } else {
      assert (a + "/" + b)[1..] == a[1..] + "/" + b;
      SplitAtSlash(a[1..], b);
    }
  }

  lemma SlashesAtSlash(a: string, b: string)
    ensures Slashes(a + "/" + b) == Slashes(a) + "/" + Slashes(b)
  {
  }

  lemma ExcludedJoin(a: string, b: string)
    ensures IsGitExcludedPath(a + "/" + b) <==> IsGitExcludedPath(a) || IsGitExcludedPath(b)
  {
    SlashesAtSlash(a, b);
    SplitAtSlash(Slashes(a), Slashes(b));
    var left, right := Split(Slashes(a)), Split(Slashes(b));
    assert forall part :: part in left + right <==> part in left || part in right;
  }

  /** The root is never excluded, and a child is excluded exactly when its
      directory is, or its own name is. */
  lemma ExcludedChild(allowGit: bool, path: Path, name: string)
    ensures !Excluded(allowGit, ROOT)
    ensures Excluded(allowGit, path + [name])
            <==> Excluded(allowGit, path) || (!allowGit && IsGitExcludedPath(name))
  {
    assert Split("") == [""];
    assert Slashes("") == "";
    if path == [] {
      assert path + [name] == [name];
    } else {
      var child := path + [name];
      assert child[..|child| - 1] == path;
      ExcludedJoin(Join(path), name);
    }
  }

  // ---- exclusion, letter by letter -----------------------------------------

  predicate Separator(c: char) { c == '/' || c == '\\' }

  /** Four characters: a dot, then g, i and t, each in either case. */
  predicate SpellsGit(s: string) {
    |s| == 4 && s[0] == '.' && s[1] in "gG" && s[2] in "iI" && s[3] in "tT"
  }

  /** The four characters from `i` spell it, with a separator or an end on both sides. */
  predicate GitAt(s: string, i: nat) {
    && i + 4 <= |s| && SpellsGit(s[i..i + 4])
    && (i == 0 || Separator(s[i - 1])) && (i + 4 == |s| || Separator(s[i + 4]))
  }

  lemma GitSegment(segment: string)
    ensures IsGitMetadataSegment(segment) <==> SpellsGit(segment)
  {
    var folded := CaseFold(segment);
    assert folded == ".git" <==>
      |folded| == 4 && folded[0] == '.' && folded[1] == 'g' && folded[2] == 'i' && folded[3] == 't';
  }

  /** The part of `s` before its first slash. */
  lemma {:induction false} FirstPart(s: string)
    ensures var n := |Split(s)[0]|;
      && n <= |s| && Split(s)[0] == s[..n] && (forall i :: 0 <= i < n ==> s[i] != '/')
      && (n < |s| ==> s[n] == '/' && Split(s)[1..] == Split(s[n + 1..]))
      && (n == |s| ==> |Split(s)| == 1)
  {
    if s != [] && s[0] != '/' {
      FirstPart(s[1..]);
      var n := |Split(s[1..])[0]|;
      assert s[..n + 1] == [s[0]] + s[1..][..n];
      if n < |s[1..]| { assert s[1..][n + 1..] == s[n + 2..]; }
    } else if s != [] {
      assert s[0 + 1..] == s[1..];
    }
  }

  /** A part is a stretch between two slashes, or between a slash and an end. */
  ghost predicate PartAt(s: string, i: nat, n: nat) {
    && i + n <= |s| && (i == 0 || s[i - 1] == '/') && (i + n == |s| || s[i + n] == '/')
    && forall j :: i <= j < i + n ==> s[j] != '/'
  }

  lemma {:induction false} PartsAreStretches(s: string, part: string)
    ensures part in Split(s) <==> exists i: nat :: PartAt(s, i, |part|) && s[i..i + |part|] == part
    decreases |s|
  {
    FirstPart(s);
    var n := |Split(s)[0]|;
    assert PartAt(s, 0, n) && s[0..0 + n] == s[..n];
    if n < |s| {
      var rest := s[n + 1..];
      PartsAreStretches(rest, part);
      assert part in Split(s) <==> part == Split(s)[0] || part in Split(s)[1..];
      if i: nat :| PartAt(rest, i, |part|) && rest[i..i + |part|] == part { LaterPart(s, n, i, part); }
      if i: nat :| PartAt(s, i, |part|) && s[i..i + |part|] == part { EarlierPart(s, n, i, part); }
    } else {
      assert Split(s) == [Split(s)[0]];
      if i: nat :| PartAt(s, i, |part|) && s[i..i + |part|] == part { assert i == 0; }
    }
  }

  lemma LaterPart(s: string, n: nat, i: nat, part: string)
    requires n < |s| && s[n] == '/' && PartAt(s[n + 1..], i, |part|) && s[n + 1..][i..i + |part|] == part
    ensures PartAt(s, n + 1 + i, |part|) && s[n + 1 + i..n + 1 + i + |part|] == part
  {
    var rest := s[n + 1..];
    assert forall j :: 0 <= j < |rest| ==> rest[j] == s[n + 1 + j];
  }

  lemma EarlierPart(s: string, n: nat, i: nat, part: string)
    requires n < |s| && s[n] == '/' && (forall j :: 0 <= j < n ==> s[j] != '/')
    requires PartAt(s, i, |part|) && s[i..i + |part|] == part
    ensures (i == 0 && part == s[..n]) ||
      (i > n && PartAt(s[n + 1..], i - n - 1, |part|) && s[n + 1..][i - n - 1..i - n - 1 + |part|] == part)
  {
    var rest := s[n + 1..];
    assert forall j :: 0 <= j < |rest| ==> rest[j] == s[n + 1 + j];
    if i == 0 {
      assert |part| == n;
    } else {
      assert i - 1 >= n;
    }
  }

  lemma SlashedPart(s: string, i: nat)
    ensures GitAt(s, i) <==> PartAt(Slashes(s), i, 4) && SpellsGit(Slashes(s)[i..i + 4])
  {
    if i + 4 <= |s| {
      var t := Slashes(s);
      assert s[i..i + 4][0] == s[i] && s[i..i + 4][1] == s[i + 1] && s[i..i + 4][2] == s[i + 2]
          && s[i..i + 4][3] == s[i + 3];
      assert t[i..i + 4][0] == t[i] && t[i..i + 4][1] == t[i + 1] && t[i..i + 4][2] == t[i + 2]
          && t[i..i + 4][3] == t[i + 3];
      if SpellsGit(s[i..i + 4]) {
        forall j | i <= j < i + 4 ensures t[j] != '/' { assert j == i || j == i + 1 || j == i + 2 || j == i + 3; }
      }
    }
  }

  /** A path is excluded if and only if somewhere in it, between separators of either kind
      or the ends, a dot is followed by g, i and t in either case. */
  lemma ExcludedLetterByLetter(path: string)
    ensures IsGitExcludedPath(path) <==> exists i: nat :: GitAt(path, i)
  {
    var s := Slashes(path);
    if i: nat :| GitAt(path, i) {
      SlashedPart(path, i);
      var part := s[i..i + 4];
      PartsAreStretches(s, part);
      GitSegment(part);
    }
    if part :| part in Split(s) && part != "" && part != "." && IsGitMetadataSegment(part) {
      GitSegment(part);
      PartsAreStretches(s, part);
      var i: nat :| PartAt(s, i, |part|) && s[i..i + |part|] == part;
      SlashedPart(path, i);
    }
  }

  /** Exclusion is inherited, so a walk that turns back at an excluded directory
      misses nothing it should report. */
  lemma {:induction false} ExclusionInherited(allowGit: bool, directory: Path, p: Path)
    requires AtOrBelow(p, directory) && Excluded(allowGit, directory)
    ensures Excluded(allowGit, p)
    decreases |p|
  {
    if p != directory {
      var n := |p| - 1;
      assert p == p[..n] + [p[n]];
      ExclusionInherited(allowGit, directory, p[..n]);
      ExcludedChild(allowGit, p[..n], p[n]);
    }
  }

  // ---- the tree ------------------------------------------------------------

  datatype Node = File | Symlink | Special | Directory(children: seq<Child>)

  datatype Child = Child(name: string, node: Node)

  datatype Entry = Entry(path: Path, node: Node)

  function Size(n: Node): nat {
    if n.Directory? then 1 + SizeAll(n.children) else 1
  }

  function SizeAll(children: seq<Child>): nat {
    if children == [] then 0 else SizeAll(children[..|children| - 1]) + Size(children[|children| - 1].node)
  }

  /** No directory holds a name twice, and no name is empty. */
  ghost predicate WellFormed(n: Node) {
    n.Directory? ==> WellFormedAll(n.children)
  }

  ghost predicate WellFormedAll(children: seq<Child>) {
    children != [] ==>
      && children[0].name != ""
      && Find(children[1..], children[0].name).None?
      && WellFormed(children[0].node)
      && WellFormedAll(children[1..])
  }

  function Find(children: seq<Child>, name: string): Option<Node> {
    if children == [] then None
    else if children[0].name == name then Some(children[0].node)
    else Find(children[1..], name)
  }

  /** Where a path leads: to a node, to nothing, or into something that is not a
      directory on the way. */
  datatype Resolution = Found(node: Node) | Missing | Blocked

  function Resolve(n: Node, path: Path): Resolution
    decreases |path|
  {
    if path == [] then Found(n)
    else if !n.Directory? then Blocked
    else
      var child := Find(n.children, path[0]);
      if child.None? then Missing else Resolve(child.value, path[1..])
  }

  datatype Listing = Listed(children: seq<Child>) | NotFound | Failed

  /** `listDir`: links and special nodes list as empty, a file cannot be listed. */
  function ListDir(root: Node, path: Path): Listing {
    match Resolve(root, path)
    case Found(Directory(children)) => Listed(children)
    case Found(File) => Failed
    case Found(_) => Listed([])
    case Missing => NotFound
    case Blocked => Failed
  }

  // ---- what a walk should report -------------------------------------------

  /** Declaratively: `e` is a file or link strictly below the prefix, on a path that
      is not excluded. */
  ghost predicate Visible(allowGit: bool, root: Node, prefix: Path, e: Entry) {
    && (e.node.File? || e.node.Symlink?)
    && AtOrBelow(e.path, prefix) && e.path != prefix
    && Resolve(root, e.path) == Found(e.node)
    && !Excluded(allowGit, e.path)
  }

  predicate Skipped(allowGit: bool, path: Path, child: Child) {
    child.name == "" || Excluded(allowGit, path + [child.name])
  }

  /** Recursively: how often `e` is reported for one child of the directory at `path`,
      for all of its children, and for a path that is listed. */
  function Of(allowGit: bool, path: Path, child: Child, e: Entry): nat
    decreases child
  {
    if Skipped(allowGit, path, child) then 0
    else match child.node
      case Directory(children) => Below(allowGit, path + [child.name], children, e)
      case Special => 0
      case _ => if e == Entry(path + [child.name], child.node) then 1 else 0
  }

  function Below(allowGit: bool, path: Path, children: seq<Child>, e: Entry): nat
    decreases children
  {
    if children == [] then 0
    else Below(allowGit, path, children[..|children| - 1], e) + Of(allowGit, path, children[|children| - 1], e)
  }

  function At(allowGit: bool, root: Node, path: Path, e: Entry): nat {
    match ListDir(root, path)
    case Listed(children) => Below(allowGit, path, children, e)
    case _ => 0
  }

  function Reported(allowGit: bool, root: Node, pending: seq<Path>, e: Entry): nat {
    if pending == [] then 0
    else Reported(allowGit, root, pending[..|pending| - 1], e) + At(allowGit, root, pending[|pending| - 1], e)
  }

  function Count(entries: seq<Entry>, e: Entry): nat {
    if entries == [] then 0
    else Count(entries[..|entries| - 1], e) + if entries[|entries| - 1] == e then 1 else 0
  }

  // ---- resolving and listing -----------------------------------------------

  lemma {:induction false} FindAt(children: seq<Child>, i: nat)
    requires WellFormedAll(children) && i < |children|
    ensures children[i].name != "" && WellFormed(children[i].node)
    ensures Find(children, children[i].name) == Some(children[i].node)
  {
    if i > 0 {
      FindAt(children[1..], i - 1);
    }
  }

  lemma {:induction false} ResolveStep(n: Node, path: Path, name: string)
    requires Resolve(n, path).Found?
    ensures var m := Resolve(n, path).node;
            Resolve(n, path + [name]) ==
            if !m.Directory? then Blocked
            else if Find(m.children, name).None? then Missing
            else Found(Find(m.children, name).value)
    decreases |path|
  {
    var longer := path + [name];
    if path == [] {
      assert longer == [name];
    } else {
      assert longer[0] == path[0] && longer[1..] == path[1..] + [name];
      ResolveStep(Find(n.children, path[0]).value, path[1..], name);
    }
  }

  lemma {:induction false} ResolvedWellFormed(n: Node, path: Path)
    requires WellFormed(n) && Resolve(n, path).Found?
    ensures WellFormed(Resolve(n, path).node)
    decreases |path|
  {
    if path != [] {
      FoundWellFormed(n.children, path[0]);
      ResolvedWellFormed(Find(n.children, path[0]).value, path[1..]);
    }
  }

  lemma {:induction false} FoundWellFormed(children: seq<Child>, name: string)
    requires WellFormedAll(children) && Find(children, name).Some?
    ensures WellFormed(Find(children, name).value)
  {
    if children[0].name != name {
      FoundWellFormed(children[1..], name);
    }
  }

  /** A listed child is where its path leads. */
  lemma ListedChild(root: Node, path: Path, i: nat)
    requires WellFormed(root)
    requires ListDir(root, path).Listed? && i < |ListDir(root, path).children|
    ensures var child := ListDir(root, path).children[i];
            child.name != "" && Resolve(root, path + [child.name]) == Found(child.node)
  {
    var children := ListDir(root, path).children;
    ResolvedWellFormed(root, path);
    FindAt(children, i);
    ResolveStep(root, path, children[i].name);
  }

  // ---- the walk ------------------------------------------------------------

  function Weight(root: Node, path: Path): nat {
    match Resolve(root, path)
    case Found(n) => Size(n)
    case _ => 1
  }

  function Load(root: Node, pending: seq<Path>): nat {
    if pending == [] then 0 else Load(root, pending[..|pending| - 1]) + Weight(root, pending[|pending| - 1])
  }

  lemma ReportedPush(allowGit: bool, root: Node, pending: seq<Path>, p: Path, e: Entry)
    ensures Reported(allowGit, root, pending + [p], e)
            == Reported(allowGit, root, pending, e) + At(allowGit, root, p, e)
  {
    assert (pending + [p])[..|pending|] == pending;
  }

  lemma LoadPush(root: Node, pending: seq<Path>, p: Path)
    ensures Load(root, pending + [p]) == Load(root, pending) + Weight(root, p)
  {
    assert (pending + [p])[..|pending|] == pending;
  }

  lemma CountPush(entries: seq<Entry>, x: Entry, e: Entry)
    ensures Count(entries + [x], e) == Count(entries, e) + if x == e then 1 else 0
  {
    assert (entries + [x])[..|entries|] == entries;
  }

  /** The entries and the subdirectories one visit of a directory adds. */
  function Files(allowGit: bool, path: Path, children: seq<Child>): seq<Entry> {
    if children == [] then []
    else
      var child := children[|children| - 1];
      var rest := Files(allowGit, path, children[..|children| - 1]);
      if !Skipped(allowGit, path, child) && (child.node.File? || child.node.Symlink?)
      then rest + [Entry(path + [child.name], child.node)] else rest
  }

  function Directories(allowGit: bool, path: Path, children: seq<Child>): seq<Path> {
    if children == [] then []
    else
      var child := children[|children| - 1];
      var rest := Directories(allowGit, path, children[..|children| - 1]);
      if !Skipped(allowGit, path, child) && child.node.Directory? then rest + [path + [child.name]] else rest
  }

  lemma DirectoryChild(allowGit: bool, root: Node, path: Path, child: Child, e: Entry)
    requires Resolve(root, path + [child.name]) == Found(child.node)
    requires child.node.Directory? && !Skipped(allowGit, path, child)
    ensures At(allowGit, root, path + [child.name], e) == Of(allowGit, path, child, e)
  {
  }

  ghost predicate Resolves(root: Node, path: Path, children: seq<Child>) {
    forall i :: 0 <= i < |children| ==> Resolve(root, path + [children[i].name]) == Found(children[i].node)
  }

  /** One more child adds what it reports. */
  lemma VisitChild(allowGit: bool, root: Node, path: Path, children: seq<Child>, e: Entry)
    requires children != []
    requires var child := children[|children| - 1]; Resolve(root, path + [child.name]) == Found(child.node)
    ensures var n := |children| - 1;
            Count(Files(allowGit, path, children), e)
            + Reported(allowGit, root, Directories(allowGit, path, children), e)
            == Count(Files(allowGit, path, children[..n]), e)
               + Reported(allowGit, root, Directories(allowGit, path, children[..n]), e)
               + Of(allowGit, path, children[n], e)
  {
    var n := |children| - 1;
    var child := children[n];
    if !Skipped(allowGit, path, child) {
      if child.node.Directory? {
        ReportedPush(allowGit, root, Directories(allowGit, path, children[..n]), path + [child.name], e);
        DirectoryChild(allowGit, root, path, child, e);
      } else {
        CountPush(Files(allowGit, path, children[..n]), Entry(path + [child.name], child.node), e);
      }
    }
  }

  /** Visiting a directory loses nothing and repeats nothing: its entries and its
      subdirectories together report what the directory does. */
  lemma {:induction false} VisitConserves(allowGit: bool, root: Node, path: Path, children: seq<Child>, e: Entry)
    requires Resolves(root, path, children)
    ensures Below(allowGit, path, children, e)
            == Count(Files(allowGit, path, children), e)
               + Reported(allowGit, root, Directories(allowGit, path, children), e)
  {
    if children != [] {
      VisitConserves(allowGit, root, path, children[..|children| - 1], e);
      VisitChild(allowGit, root, path, children, e);
    }
  }

  /** And it shrinks the work left. */
  lemma {:induction false} VisitShrinks(allowGit: bool, root: Node, path: Path, children: seq<Child>)
    requires Resolves(root, path, children)
    ensures Load(root, Directories(allowGit, path, children)) <= SizeAll(children)
  {
    if children != [] {
      var n := |children| - 1;
      VisitShrinks(allowGit, root, path, children[..n]);
      LoadPush(root, Directories(allowGit, path, children[..n]), path + [children[n].name]);
    }
  }

  lemma {:induction false} SubdirectoriesList(allowGit: bool, root: Node, path: Path, children: seq<Child>, p: Path)
    requires Resolves(root, path, children) && p in Directories(allowGit, path, children)
    ensures ListDir(root, p).Listed?
  {
    var n := |children| - 1;
    if p in Directories(allowGit, path, children[..n]) {
      SubdirectoriesList(allowGit, root, path, children[..n], p);
    }
  }

  lemma {:induction false} ReportedConcat(allowGit: bool, root: Node, ps: seq<Path>, qs: seq<Path>, e: Entry)
    ensures Reported(allowGit, root, ps + qs, e) == Reported(allowGit, root, ps, e) + Reported(allowGit, root, qs, e)
  {
    if qs == [] {
      assert ps + qs == ps;
    } else {
      var n := |qs| - 1;
      ReportedConcat(allowGit, root, ps, qs[..n], e);
      assert (ps + qs)[..|ps + qs| - 1] == ps + qs[..n];
    }
  }

  lemma {:induction false} LoadConcat(root: Node, ps: seq<Path>, qs: seq<Path>)
    ensures Load(root, ps + qs) == Load(root, ps) + Load(root, qs)
  {
    if qs == [] {
      assert ps + qs == ps;
    } else {
      LoadConcat(root, ps, qs[..|qs| - 1]);
      assert (ps + qs)[..|ps + qs| - 1] == ps + qs[..|qs| - 1];
    }
  }

  lemma {:induction false} CountConcat(xs: seq<Entry>, ys: seq<Entry>, e: Entry)
    ensures Count(xs + ys, e) == Count(xs, e) + Count(ys, e)
  {
    if ys == [] {
      assert xs + ys == xs;
    } else {
      CountConcat(xs, ys[..|ys| - 1], e);
      assert (xs + ys)[..|xs + ys| - 1] == xs + ys[..|ys| - 1];
    }
  }

  /** The loop over the children of one directory. It stops as soon as the limit is
      reached, leaving the remaining children unvisited. */
  method Visit(allowGit: bool, directory: Path, children: seq<Child>, limit: Option<nat>,
               before: seq<Entry>, waiting: seq<Path>)
      returns (entries: seq<Entry>, pending: seq<Path>, ghost visited: nat)
    requires limit.Some? ==> |before| < limit.value
    ensures visited <= |children|
    ensures entries == before + Files(allowGit, directory, children[..visited])
    ensures pending == waiting + Directories(allowGit, directory, children[..visited])
    ensures limit.Some? ==> |entries| <= limit.value
    ensures visited < |children| ==> limit.Some? && |entries| == limit.value
  {
    entries, pending, visited := before, waiting, 0;
    var i := 0;
    while i < |children|
      invariant 0 <= i == visited <= |children|
      invariant entries == before + Files(allowGit, directory, children[..i])
      invariant pending == waiting + Directories(allowGit, directory, children[..i])
      invariant limit.Some? ==> |entries| < limit.value
    {
      var child := children[i];
      assert children[..i + 1][..i] == children[..i];
      i, visited := i + 1, i + 1;
      var childPath := directory + [child.name];
      if child.name == "" || Excluded(allowGit, childPath) { continue; }
      if child.node.Directory? {
        pending := pending + [childPath];
        continue;
      }
      if !child.node.File? && !child.node.Symlink? { continue; }
      entries := entries + [Entry(childPath, child.node)];
      if limit.Some? && |entries| >= limit.value { break; }
    }
  }

  datatype Reply = Entries(entries: seq<Entry>) | Hidden | Error

  /** Some stage of a walk: what is collected and what still waits make up the whole,
      or the limit is reached and nothing collected is spurious. */
  ghost predicate Progress(allowGit: bool, root: Node, prefix: Path, limit: Option<nat>,
                           entries: seq<Entry>, pending: seq<Path>) {
    if limit.None? || |entries| < limit.value
    then forall e :: Count(entries, e) + Reported(allowGit, root, pending, e) == At(allowGit, root, prefix, e)
    else |entries| == limit.value && forall e :: Count(entries, e) <= At(allowGit, root, prefix, e)
  }

  lemma StartsWhole(allowGit: bool, root: Node, prefix: Path, limit: Option<nat>)
    ensures Progress(allowGit, root, prefix, limit, [], [prefix])
  {
    forall e: Entry
      ensures Count([], e) + Reported(allowGit, root, [prefix], e) == At(allowGit, root, prefix, e)
    {
      assert [prefix][..0] == [];
      ReportedPush(allowGit, root, [], prefix, e);
    }
  }

  lemma ListedResolves(root: Node, path: Path)
    requires WellFormed(root) && ListDir(root, path).Listed?
    ensures Resolves(root, path, ListDir(root, path).children)
    ensures SizeAll(ListDir(root, path).children) < Weight(root, path)
  {
    var children := ListDir(root, path).children;
    forall i | 0 <= i < |children|
      ensures Resolve(root, path + [children[i].name]) == Found(children[i].node)
    {
      ListedChild(root, path, i);
    }
  }

  lemma {:induction false} FilesPrefix(allowGit: bool, path: Path, children: seq<Child>, k: nat, e: Entry)
    requires k <= |children|
    ensures Count(Files(allowGit, path, children[..k]), e) <= Count(Files(allowGit, path, children), e)
    decreases |children|
  {
    var n := |children| - 1;
    if k == |children| {
      assert children[..k] == children;
    } else {
      FilesPrefix(allowGit, path, children[..n], k, e);
      assert children[..n][..k] == children[..k];
      CountPush(Files(allowGit, path, children[..n]), Entry(path + [children[n].name], children[n].node), e);
    }
  }

  /** Popping a directory and visiting it, to the end or up to the limit, is progress. */
  lemma VisitProgresses(allowGit: bool, root: Node, prefix: Path, limit: Option<nat>,
                        before: seq<Entry>, waiting: seq<Path>, directory: Path, visited: nat)
    requires limit.None? || |before| < limit.value
    requires Progress(allowGit, root, prefix, limit, before, waiting + [directory])
    requires ListDir(root, directory).Listed? && visited <= |ListDir(root, directory).children|
    requires Resolves(root, directory, ListDir(root, directory).children)
    ensures var children := ListDir(root, directory).children;
            var entries := before + Files(allowGit, directory, children[..visited]);
            var pending := waiting + Directories(allowGit, directory, children[..visited]);
            (limit.Some? ==> |entries| <= limit.value) && (visited < |children| ==> limit == Some(|entries|)) ==>
            Progress(allowGit, root, prefix, limit, entries, pending)
  {
    var children := ListDir(root, directory).children;
    var files := Files(allowGit, directory, children[..visited]);
    var directories := Directories(allowGit, directory, children[..visited]);
    if visited == |children| { assert children[..visited] == children; }
    forall e: Entry
      ensures Count(before + files, e) <= At(allowGit, root, prefix, e)
      ensures visited == |children| ==>
                Count(before + files, e) + Reported(allowGit, root, waiting + directories, e)
                == At(allowGit, root, prefix, e)
    {
      ReportedPush(allowGit, root, waiting, directory, e);
      CountConcat(before, files, e);
      VisitConserves(allowGit, root, directory, children, e);
      FilesPrefix(allowGit, directory, children, visited, e);
      ReportedConcat(allowGit, root, waiting, directories, e);
    }
  }

  /** Popping a directory that is gone is progress too. */
  lemma MissingProgresses(allowGit: bool, root: Node, prefix: Path, limit: Option<nat>,
                          entries: seq<Entry>, waiting: seq<Path>, directory: Path)
    requires limit.None? || |entries| < limit.value
    requires Progress(allowGit, root, prefix, limit, entries, waiting + [directory])
    requires ListDir(root, directory).NotFound?
    ensures Progress(allowGit, root, prefix, limit, entries, waiting)
  {
    forall e: Entry
      ensures Count(entries, e) + Reported(allowGit, root, waiting, e) == At(allowGit, root, prefix, e)
    {
      ReportedPush(allowGit, root, waiting, directory, e);
    }
  }

  /** What a walk has collected when it stops. */
  lemma StopsRight(allowGit: bool, root: Node, prefix: Path, limit: Option<nat>, entries: seq<Entry>,
      pending: seq<Path>)
    requires Progress(allowGit, root, prefix, limit, entries, pending)
    requires pending == [] || (limit.Some? && |entries| >= limit.value)
    ensures limit.None? || |entries| < limit.value ==> forall e :: Count(entries, e) == At(allowGit, root, prefix, e)
    ensures limit.Some? ==> |entries| <= limit.value && forall e :: Count(entries, e) <= At(allowGit, root, prefix, e)
  {
    forall e: Entry
      ensures limit.None? || |entries| < limit.value ==> Count(entries, e) == At(allowGit, root, prefix, e)
      ensures Count(entries, e) <= At(allowGit, root, prefix, e)
    {
      assert pending == [] ==> Reported(allowGit, root, pending, e) == 0;
    }
  }

  /** The whole request. Without a limit, or when the limit is not reached, every
      entry is reported as often as the recursive definition says; with one, at most
      that many are, all of them genuine. */
  method Walk(allowGit: bool, root: Node, prefix: Path, limit: Option<nat>) returns (r: Reply)
    requires WellFormed(root)
    ensures r.Hidden? <==> Excluded(allowGit, prefix)
    ensures r.Error? <==> !r.Hidden? && limit != Some(0) && ListDir(root, prefix).Failed?
    ensures r.Entries? && (limit.None? || |r.entries| < limit.value) ==>
              forall e :: Count(r.entries, e) == At(allowGit, root, prefix, e)
    ensures r.Entries? && limit.Some? ==>
              |r.entries| <= limit.value && forall e :: Count(r.entries, e) <= At(allowGit, root, prefix, e)
  {
    if Excluded(allowGit, prefix) { return Hidden; }
    var entries: seq<Entry> := [];
    var pending := [prefix];
    StartsWhole(allowGit, root, prefix, limit);
    while pending != [] && (limit.None? || |entries| < limit.value)
      invariant Progress(allowGit, root, prefix, limit, entries, pending)
      invariant forall p :: p in pending ==> p == prefix || ListDir(root, p).Listed?
      invariant (pending == [prefix] && entries == []) || !ListDir(root, prefix).Failed?
      decreases Load(root, pending)
    {
      var directory := pending[|pending| - 1];
      ghost var popped := pending;
      pending := pending[..|pending| - 1];
      assert popped == pending + [directory];
      LoadPush(root, pending, directory);
      var listing := ListDir(root, directory);
      if listing.NotFound? {
        MissingProgresses(allowGit, root, prefix, limit, entries, pending, directory);
        continue;
      }
      if listing.Failed? { return Error; }
      entries, pending := Visited(allowGit, root, prefix, directory, listing.children, limit, entries, pending);
    }
    StopsRight(allowGit, root, prefix, limit, entries, pending);
    return Entries(entries);
  }

  /** One turn of the walk: a visit, and the progress it makes. */
  method Visited(allowGit: bool, ghost root: Node, ghost prefix: Path, directory: Path, children: seq<Child>,
                 limit: Option<nat>, before: seq<Entry>, waiting: seq<Path>)
      returns (entries: seq<Entry>, pending: seq<Path>)
    requires WellFormed(root) && ListDir(root, directory) == Listed(children)
    requires limit.None? || |before| < limit.value
    requires Progress(allowGit, root, prefix, limit, before, waiting + [directory])
    ensures Progress(allowGit, root, prefix, limit, entries, pending)
    ensures Load(root, pending) < Load(root, waiting) + Weight(root, directory)
    ensures forall p :: p in pending ==> p in waiting || ListDir(root, p).Listed?
  {
    ghost var visited;
    entries, pending, visited := Visit(allowGit, directory, children, limit, before, waiting);
    ListedResolves(root, directory);
    VisitProgresses(allowGit, root, prefix, limit, before, waiting, directory, visited);
    ghost var directories := Directories(allowGit, directory, children[..visited]);
    VisitShrinks(allowGit, root, directory, children[..visited]);
    SizeAllPrefix(children, visited);
    LoadConcat(root, waiting, directories);
    forall p | p in directories ensures ListDir(root, p).Listed? {
      SubdirectoriesList(allowGit, root, directory, children[..visited], p);
    }
  }

  lemma {:induction false} SizeAllPrefix(children: seq<Child>, k: nat)
    requires k <= |children|
    ensures SizeAll(children[..k]) <= SizeAll(children)
  {
    if k == |children| {
      assert children[..k] == children;
    } else {
      var n := |children| - 1;
      SizeAllPrefix(children[..n], k);
      assert children[..n][..k] == children[..k];
    }
  }

  // ---- the recursive definition is the declarative one ---------------------

  lemma {:induction false} FindLast(children: seq<Child>, name: string)
    requires children != [] && WellFormedAll(children)
    ensures var n := |children| - 1;
            && WellFormedAll(children[..n])
            && children[n].name != "" && WellFormed(children[n].node)
            && Find(children[..n], children[n].name).None?
            && Find(children, name)
               == if children[n].name == name then Some(children[n].node) else Find(children[..n], name)
  {
    var n := |children| - 1;
    if n > 0 {
      FindLast(children[1..], name);
      FindLast(children[1..], children[0].name);
      assert children[..n][1..] == children[1..][..n - 1];
      FindAt(children[1..], n - 1);
    }
  }

  lemma {:induction false} ResolveThrough(n: Node, p: Path, q: Path)
    ensures Resolve(n, p).Found? ==> Resolve(n, p + q) == Resolve(Resolve(n, p).node, q)
    ensures !Resolve(n, p).Found? ==> !Resolve(n, p + q).Found?
    decreases |p|
  {
    if p == [] {
      assert p + q == q;
    } else {
      assert (p + q)[0] == p[0] && (p + q)[1..] == p[1..] + q;
      if n.Directory? && Find(n.children, p[0]).Some? {
        ResolveThrough(Find(n.children, p[0]).value, p[1..], q);
      }
    }
  }

  /** `Visible`, seen from the directory at `path`. */
  ghost predicate Here(allowGit: bool, path: Path, n: Node, e: Entry) {
    && (e.node.File? || e.node.Symlink?)
    && AtOrBelow(e.path, path) && e.path != path
    && Resolve(n, e.path[|path|..]) == Found(e.node)
    && !Excluded(allowGit, e.path)
  }

  function Once(b: bool): nat { if b then 1 else 0 }

  /** A child contributes exactly what is visible through its name. */
  lemma {:induction false} OfExact(allowGit: bool, path: Path, child: Child, e: Entry)
    requires child.name != "" && WellFormed(child.node)
    ensures Of(allowGit, path, child, e)
            == Once(AtOrBelow(e.path, path + [child.name]) && Here(allowGit, path, Directory([child]), e))
    decreases child
  {
    var p := path + [child.name];
    if AtOrBelow(e.path, p) {
      var rest := e.path[|path|..];
      assert rest[0] == child.name && rest[1..] == e.path[|p|..];
      assert Resolve(Directory([child]), rest) == Resolve(child.node, rest[1..]);
      if Excluded(allowGit, p) { ExclusionInherited(allowGit, p, e.path); }
      if rest[1..] == [] { assert e.path == p; }
    }
    if child.node.Directory? && !Skipped(allowGit, path, child) {
      BelowExact(allowGit, p, child.node.children, e);
    }
  }

  lemma {:induction false} BelowExact(allowGit: bool, path: Path, children: seq<Child>, e: Entry)
    requires WellFormedAll(children)
    ensures Below(allowGit, path, children, e) == Once(Here(allowGit, path, Directory(children), e))
    decreases children
  {
    if children != [] {
      var n := |children| - 1;
      var child := children[n];
      FindLast(children, if |e.path| > |path| then e.path[|path|] else "");
      OfExact(allowGit, path, child, e);
      BelowExact(allowGit, path, children[..n], e);
    }
  }

  /** Each file or link below the prefix on a path that is not excluded is reported
      once, and nothing else is. */
  lemma ReportedIffVisible(allowGit: bool, root: Node, prefix: Path, e: Entry)
    requires WellFormed(root)
    ensures At(allowGit, root, prefix, e) == Once(Visible(allowGit, root, prefix, e))
  {
    if AtOrBelow(e.path, prefix) {
      assert e.path == prefix + e.path[|prefix|..];
      ResolveThrough(root, prefix, e.path[|prefix|..]);
    }
    var listing := ListDir(root, prefix);
    if Resolve(root, prefix).Found? && Resolve(root, prefix).node.Directory? {
      ResolvedWellFormed(root, prefix);
      BelowExact(allowGit, prefix, listing.children, e);
    }
  }
}
