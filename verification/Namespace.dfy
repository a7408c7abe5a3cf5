/** A POSIX-like workspace as the gateway's store presents it: names bound to
    inodes, with the metadata and listings that clients read and cache. */
module Namespace {
  import opened Prelude
  import opened Paths

  datatype Kind = File(content: string) | Directory | Symlink(target: string)

  /** `stamp` is the bookkeeping a store keeps by itself: modification time and,
      for directories, size and subdirectory count. */
  datatype Node = Node(kind: Kind, mode: int, stamp: int)

  /** `nodes` is indexed by inode number and only ever grows. */
  datatype Store = Store(names: map<Path, nat>, nodes: seq<Node>)

  const DEFAULT_DIRECTORY_MODE := 0x1ED
  const DEFAULT_FILE_MODE := 0x1A4

  predicate IsDir(s: Store, p: Path) {
    p in s.names && s.names[p] < |s.nodes| && s.nodes[s.names[p]].kind.Directory?
  }

  /** A tree under the root, in which only files and symlinks have second names. */
  ghost predicate Valid(s: Store) {
    && IsDir(s, ROOT)
    && (forall p :: p in s.names ==> s.names[p] < |s.nodes|)
    && (forall p :: p in s.names && p != ROOT ==> IsDir(s, Parent(p)))
    && (forall p :: IsDir(s, p) ==> NamesOf(s, s.names[p]) == {p})
  }

  // ---- what clients read ---------------------------------------------------

  function NamesOf(s: Store, ino: nat): set<Path> {
    set p | p in s.names && s.names[p] == ino
  }

  datatype Meta = Meta(ino: nat, node: Node, links: nat)

  function Stat(s: Store, p: Path): Option<Meta> {
    if p !in s.names || s.names[p] >= |s.nodes| then None
    else
      var ino := s.names[p];
      Some(Meta(ino, s.nodes[ino], if s.nodes[ino].kind.Directory? then 1 else |NamesOf(s, ino)|))
  }

  /** Metadata without what the store keeps about a directory's own contents. */
  function Listed(m: Option<Meta>): Option<Meta> {
    if m.Some? && m.value.node.kind.Directory? then Some(m.value.(node := m.value.node.(stamp := 0))) else m
  }

  function Entries(s: Store, d: Path): map<Path, Option<Meta>> {
    map p | p in s.names && p != ROOT && Parent(p) == d && Stat(s, p).Some? :: Listed(Stat(s, p))
  }

  function List(s: Store, d: Path): Option<map<Path, Option<Meta>>> {
    if IsDir(s, d) then Some(Entries(s, d)) else None
  }

  /** The listing as it is sent, subdirectory bookkeeping and all. */
  function FullEntries(s: Store, d: Path): map<Path, Option<Meta>> {
    map p | p in s.names && p != ROOT && Parent(p) == d && Stat(s, p).Some? :: Stat(s, p)
  }

  function FullList(s: Store, d: Path): Option<map<Path, Option<Meta>>> {
    if IsDir(s, d) then Some(FullEntries(s, d)) else None
  }

  /** `ListOf` stands for clients that do not look at the bookkeeping of listed
      subdirectories, `FullListOf` for those that do. */
  datatype Key = StatOf(path: Path) | ListOf(path: Path) | FullListOf(path: Path)
  datatype Value = StatValue(meta: Option<Meta>) | ListValue(entries: Option<map<Path, Option<Meta>>>)

  function Read(s: Store, k: Key): Value {
    match k
    case StatOf(p) => StatValue(Stat(s, p))
    case ListOf(d) => ListValue(List(s, d))
    case FullListOf(d) => ListValue(FullList(s, d))
  }

  /** Everything outside `cov` reads the same in both stores, but for the
      bookkeeping of listed subdirectories. */
  ghost predicate Kept(s: Store, t: Store, cov: iset<Path>) {
    forall k: Key :: !k.FullListOf? && k.path !in cov ==> Read(t, k) == Read(s, k)
  }

  /** Everything outside `cov` reads the same in both stores. */
  ghost predicate KeptFully(s: Store, t: Store, cov: iset<Path>) {
    forall k: Key :: k.path !in cov ==> Read(t, k) == Read(s, k)
  }

  /** The entry-by-entry form of `Kept`. */
  ghost predicate Agree(s: Store, t: Store, cov: iset<Path>) {
    && (forall p :: p !in cov ==> Stat(t, p) == Stat(s, p))
    && (forall c :: c != ROOT && Parent(c) !in cov ==> Listed(Stat(t, c)) == Listed(Stat(s, c)))
  }

  lemma SameEntries(s: Store, t: Store, d: Path)
    requires forall c :: c != ROOT && Parent(c) == d ==> Listed(Stat(t, c)) == Listed(Stat(s, c))
    ensures Entries(t, d) == Entries(s, d)
  {
    forall c ensures (c in Entries(t, d) <==> c in Entries(s, d))
                  && (c in Entries(s, d) ==> Entries(t, d)[c] == Entries(s, d)[c])
    {
      if c != ROOT && Parent(c) == d { assert Listed(Stat(t, c)) == Listed(Stat(s, c)); }
    }
  }

  lemma AgreeMeansKept(s: Store, t: Store, cov: iset<Path>)
    requires Agree(s, t, cov)
    ensures Kept(s, t, cov)
  {
    forall k: Key | !k.FullListOf? && k.path !in cov ensures Read(t, k) == Read(s, k) {
      assert Stat(t, k.path) == Stat(s, k.path);
      if k.ListOf? { SameEntries(s, t, k.path); }
    }
  }

  // ---- elementary changes --------------------------------------------------

  function Touch(s: Store, d: Path, now: int): Store {
    if IsDir(s, d) then s.(nodes := s.nodes[s.names[d] := s.nodes[s.names[d]].(stamp := now)]) else s
  }

  /** A new inode under a new name. */
  function Bind(s: Store, p: Path, node: Node): Store {
    Store(s.names[p := |s.nodes|], s.nodes + [node])
  }

  /** A second name for an inode. */
  function Link(s: Store, p: Path, ino: nat): Store {
    s.(names := s.names[p := ino])
  }

  function Unlink(s: Store, p: Path): Store {
    s.(names := s.names - {p})
  }

  function Chmod(s: Store, p: Path, mode: int): Store {
    if p in s.names && s.names[p] < |s.nodes| then
      s.(nodes := s.nodes[s.names[p] := s.nodes[s.names[p]].(mode := mode)])
    else s
  }

  /** Everything at and below `p` gone. */
  function RemoveTree(s: Store, p: Path): Store {
    s.(names := map q | q in s.names && !(p <= q) :: s.names[q])
  }

  /** Where a name ends up when `from` is renamed to `to`. */
  function Moved(from: Path, to: Path, q: Path): Path {
    if from <= q then to + q[|from|..] else q
  }

  function Move(s: Store, from: Path, to: Path): Store {
    s.(names :=
      (map q | q in s.names && !(from <= q) :: s.names[q])
      + (map q | q in (set p | p in s.names && from <= p :: to + p[|from|..]) && to <= q && from + q[|to|..] in s.names
         :: s.names[from + q[|to|..]]))
  }

  ghost predicate Childless(s: Store, p: Path) {
    forall q :: q in s.names && p <= q ==> q == p
  }

  /** The entry `p`, and the listing that shows it, lie within `cov`. */
  ghost predicate PointCovered(p: Path, cov: iset<Path>) {
    p in cov && Parent(p) in cov
  }

  /** All names of `ino`, and the listings that show them, lie within `cov`. */
  ghost predicate Enclosed(s: Store, ino: nat, cov: iset<Path>) {
    forall q :: q in s.names && s.names[q] == ino ==> PointCovered(q, cov)
  }

  lemma SameStat(s: Store, t: Store, q: Path)
    requires q in s.names <==> q in t.names
    requires q in s.names ==>
      && s.names[q] == t.names[q]
      && s.names[q] < |s.nodes| && s.names[q] < |t.nodes| && t.nodes[s.names[q]] == s.nodes[s.names[q]]
      && NamesOf(t, s.names[q]) == NamesOf(s, s.names[q])
    ensures Stat(t, q) == Stat(s, q)
  {
  }

  /** Stores that differ at no uncovered path and in no uncovered listing entry. */
  lemma AgreeIfSameElsewhere(s: Store, t: Store, changed: iset<Path>, cov: iset<Path>)
    requires forall q :: q !in changed ==> Stat(t, q) == Stat(s, q)
    requires forall q :: q in changed ==> q in cov && (Parent(q) in cov || Listed(Stat(t, q)) == Listed(Stat(s, q)))
    ensures Agree(s, t, cov)
  {
  }

  lemma TouchValid(s: Store, d: Path, now: int)
    requires Valid(s)
    ensures Valid(Touch(s, d, now))
    ensures forall p :: IsDir(Touch(s, d, now), p) <==> IsDir(s, p)
    ensures forall ino :: NamesOf(Touch(s, d, now), ino) == NamesOf(s, ino)
  {
    var t := Touch(s, d, now);
    assert t.names == s.names && |t.nodes| == |s.nodes|;
    assert forall ino :: NamesOf(t, ino) == NamesOf(s, ino);
    assert forall p :: IsDir(t, p) <==> IsDir(s, p);
  }

  lemma TouchAgrees(s: Store, d: Path, now: int, cov: iset<Path>)
    requires Valid(s) && d in cov
    ensures Agree(s, Touch(s, d, now), cov)
  {
    var t := Touch(s, d, now);
    TouchValid(s, d, now);
    if IsDir(s, d) {
      forall q | q != d ensures Stat(t, q) == Stat(s, q) {
        if q in s.names {
          assert s.names[q] != s.names[d] by { assert d in NamesOf(s, s.names[d]) && q !in NamesOf(s, s.names[d]); }
          SameStat(s, t, q);
        }
      }
      AgreeIfSameElsewhere(s, t, iset{d}, cov);
    }
  }

  lemma BindValid(s: Store, p: Path, node: Node)
    requires Valid(s) && p !in s.names && p != ROOT && IsDir(s, Parent(p))
    ensures Valid(Bind(s, p, node))
    ensures forall q :: q != p ==> (IsDir(Bind(s, p, node), q) <==> IsDir(s, q))
    ensures forall ino: nat :: ino < |s.nodes| ==> NamesOf(Bind(s, p, node), ino) == NamesOf(s, ino)
  {
    var t := Bind(s, p, node);
    assert forall ino: nat :: ino < |s.nodes| ==> NamesOf(t, ino) == NamesOf(s, ino);
    assert forall q :: q != p ==> (IsDir(t, q) <==> IsDir(s, q));
    assert NamesOf(t, |s.nodes|) == {p};
    forall q | q in t.names && q != ROOT ensures IsDir(t, Parent(q)) {
      if q == p { assert Parent(p) != p; } else { assert IsDir(s, Parent(q)) && Parent(q) != p; }
    }
  }

  lemma BindAgrees(s: Store, p: Path, node: Node, cov: iset<Path>)
    requires Valid(s) && p !in s.names && p != ROOT && IsDir(s, Parent(p))
    requires p in cov && Parent(p) in cov
    ensures Agree(s, Bind(s, p, node), cov)
  {
    var t := Bind(s, p, node);
    BindValid(s, p, node);
    forall q | q != p ensures Stat(t, q) == Stat(s, q) { SameStat(s, t, q); }
    AgreeIfSameElsewhere(s, t, iset{p}, cov);
  }

  lemma LinkNames(s: Store, p: Path, ino: nat)
    requires p !in s.names
    ensures NamesOf(Link(s, p, ino), ino) == NamesOf(s, ino) + {p}
    ensures forall j :: j != ino ==> NamesOf(Link(s, p, ino), j) == NamesOf(s, j)
  {
    var t := Link(s, p, ino);
    forall j | j != ino ensures NamesOf(t, j) == NamesOf(s, j) {}
  }

  lemma LinkValid(s: Store, p: Path, ino: nat)
    requires Valid(s) && p !in s.names && p != ROOT && IsDir(s, Parent(p))
    requires ino < |s.nodes| && !s.nodes[ino].kind.Directory?
    ensures Valid(Link(s, p, ino))
    ensures forall q :: IsDir(Link(s, p, ino), q) <==> IsDir(s, q)
  {
    var t := Link(s, p, ino);
    forall q ensures IsDir(t, q) <==> IsDir(s, q) {}
    forall q | IsDir(t, q) ensures NamesOf(t, t.names[q]) == {q} {
      assert IsDir(s, q) && s.names[q] != ino;
      LinkNames(s, p, ino);
    }
    forall q | q in t.names && q != ROOT ensures IsDir(t, Parent(q)) {
      assert IsDir(s, Parent(q));
    }
  }

  lemma LinkAgrees(s: Store, p: Path, ino: nat, cov: iset<Path>)
    requires Valid(s) && p !in s.names && p != ROOT && IsDir(s, Parent(p))
    requires ino < |s.nodes| && !s.nodes[ino].kind.Directory?
    requires p in cov && Parent(p) in cov && Enclosed(s, ino, cov)
    ensures Agree(s, Link(s, p, ino), cov)
  {
    var t := Link(s, p, ino);
    LinkNames(s, p, ino);
    var changed := iset q | q == p || (q in s.names && s.names[q] == ino);
    forall q | q !in changed ensures Stat(t, q) == Stat(s, q) { SameStat(s, t, q); }
    AgreeIfSameElsewhere(s, t, changed, cov);
  }

  lemma UnlinkValid(s: Store, p: Path)
    requires Valid(s) && p in s.names && p != ROOT && Childless(s, p)
    ensures Valid(Unlink(s, p))
    ensures forall q :: q != p ==> (IsDir(Unlink(s, p), q) <==> IsDir(s, q))
    ensures NamesOf(Unlink(s, p), s.names[p]) == NamesOf(s, s.names[p]) - {p}
    ensures forall j :: j != s.names[p] ==> NamesOf(Unlink(s, p), j) == NamesOf(s, j)
  {
    var t := Unlink(s, p);
    assert forall j :: j != s.names[p] ==> NamesOf(t, j) == NamesOf(s, j);
    assert forall q :: q != p ==> (IsDir(t, q) <==> IsDir(s, q));
    forall q | q in t.names && q != ROOT ensures IsDir(t, Parent(q)) {
      assert Parent(q) <= q && IsDir(s, Parent(q));
      assert Parent(q) != p;
    }
    forall q | IsDir(t, q) ensures NamesOf(t, t.names[q]) == {q} {
      assert NamesOf(s, s.names[q]) == {q};
      assert p !in NamesOf(s, s.names[q]);
    }
  }

  lemma UnlinkAgrees(s: Store, p: Path, cov: iset<Path>)
    requires Valid(s) && p in s.names && p != ROOT && Childless(s, p)
    requires p in cov && Parent(p) in cov && Enclosed(s, s.names[p], cov)
    ensures Agree(s, Unlink(s, p), cov)
  {
    var t := Unlink(s, p);
    UnlinkValid(s, p);
    var changed := iset q | q in s.names && s.names[q] == s.names[p];
    forall q | q !in changed ensures Stat(t, q) == Stat(s, q) { SameStat(s, t, q); }
    AgreeIfSameElsewhere(s, t, changed, cov);
  }

  lemma RemoveTreeValid(s: Store, p: Path)
    requires Valid(s) && p != ROOT
    ensures Valid(RemoveTree(s, p))
    ensures forall q :: IsDir(RemoveTree(s, p), q) <==> IsDir(s, q) && !(p <= q)
    ensures forall ino, q :: q in NamesOf(RemoveTree(s, p), ino) <==> q in NamesOf(s, ino) && !(p <= q)
  {
    var t := RemoveTree(s, p);
    forall q ensures IsDir(t, q) <==> IsDir(s, q) && !(p <= q) {}
    forall q | q in t.names && q != ROOT ensures IsDir(t, Parent(q)) {
      assert IsDir(s, Parent(q));
      assert p <= Parent(q) ==> p <= q;
    }
    forall q | IsDir(t, q) ensures NamesOf(t, t.names[q]) == {q} {
      assert NamesOf(s, s.names[q]) == {q};
    }
  }

  lemma ChmodValid(s: Store, p: Path, mode: int)
    requires Valid(s) && p in s.names
    ensures Valid(Chmod(s, p, mode))
    ensures forall q :: IsDir(Chmod(s, p, mode), q) <==> IsDir(s, q)
    ensures forall ino :: NamesOf(Chmod(s, p, mode), ino) == NamesOf(s, ino)
  {
    var t := Chmod(s, p, mode);
    assert t.names == s.names && |t.nodes| == |s.nodes|;
    assert forall ino :: NamesOf(t, ino) == NamesOf(s, ino);
    assert forall q :: IsDir(t, q) <==> IsDir(s, q);
  }

  lemma ChmodAgrees(s: Store, p: Path, mode: int, cov: iset<Path>)
    requires Valid(s) && p in s.names && Enclosed(s, s.names[p], cov)
    ensures Agree(s, Chmod(s, p, mode), cov)
  {
    var t := Chmod(s, p, mode);
    ChmodValid(s, p, mode);
    var changed := iset q | q in s.names && s.names[q] == s.names[p];
    forall q | q !in changed ensures Stat(t, q) == Stat(s, q) { SameStat(s, t, q); }
    AgreeIfSameElsewhere(s, t, changed, cov);
  }

  // ---- moving a subtree ----------------------------------------------------

  /** What a rename has established by the time it moves anything. */
  ghost predicate CanMove(s: Store, from: Path, to: Path) {
    && Valid(s)
    && from in s.names && from != ROOT && to != ROOT
    && !(from <= to) && IsDir(s, Parent(to))
    && (forall q :: q in s.names ==> !(to <= q))
  }

  /** Where a name came from. */
  function Source(from: Path, to: Path, q: Path): Path {
    if to <= q then from + q[|to|..] else q
  }

  /** `t` is `s` with the subtree `from` renamed to `to`, name by name. */
  ghost predicate IsMove(s: Store, t: Store, from: Path, to: Path) {
    && CanMove(s, from, to)
    && t.nodes == s.nodes
    && (forall p {:trigger Moved(from, to, p)} :: p in s.names ==> MovedTo(s, t, from, to, p, Moved(from, to, p)))
    && (forall q {:trigger Source(from, to, q)} :: q in t.names ==> MovedTo(s, t, from, to, Source(from, to, q), q))
  }

  /** `p` in `s` and `q` in `t` are the same name before and after the rename. */
  predicate MovedTo(s: Store, t: Store, from: Path, to: Path, p: Path, q: Path) {
    && p in s.names && q in t.names && t.names[q] == s.names[p]
    && Moved(from, to, p) == q && Source(from, to, q) == p
  }

  lemma MovedName(s: Store, from: Path, to: Path, p: Path)
    requires CanMove(s, from, to) && p in s.names
    ensures MovedTo(s, Move(s, from, to), from, to, p, Moved(from, to, p))
  {
    if from <= p {
      var q := to + p[|from|..];
      assert q[|to|..] == p[|from|..] && from + p[|from|..] == p;
      assert q in set x | x in s.names && from <= x :: to + x[|from|..];
    }
  }

  lemma SourceName(s: Store, from: Path, to: Path, q: Path)
    requires CanMove(s, from, to) && q in Move(s, from, to).names
    ensures MovedTo(s, Move(s, from, to), from, to, Source(from, to, q), q)
  {
    if to <= q {
      Regraft(from, to, q);
      assert q !in s.names;
    }
  }

  /** Swapping one prefix for another and back. */
  lemma Regraft(from: Path, to: Path, q: Path)
    requires to <= q
    ensures from <= from + q[|to|..]
    ensures (from + q[|to|..])[|from|..] == q[|to|..]
    ensures to + q[|to|..] == q
    ensures q != to ==> Parent(from + q[|to|..]) == from + Parent(q)[|to|..] && to <= Parent(q)
  {
  }

  lemma MoveIsMove(s: Store, from: Path, to: Path)
    requires CanMove(s, from, to)
    ensures IsMove(s, Move(s, from, to), from, to)
  {
    var t := Move(s, from, to);
    forall p | p in s.names ensures MovedTo(s, t, from, to, p, Moved(from, to, p)) { MovedName(s, from, to, p); }
    forall q | q in t.names ensures MovedTo(s, t, from, to, Source(from, to, q), q) { SourceName(s, from, to, q); }
  }

  lemma {:induction false} ImageSize(a: set<Path>, f: Path -> Path)
    requires forall x, y :: x in a && y in a && f(x) == f(y) ==> x == y
    ensures |set x | x in a :: f(x)| == |a|
  {
    if a != {} {
      var x :| x in a;
      var rest := a - {x};
      ImageSize(rest, f);
      assert (set y | y in a :: f(y)) == (set y | y in rest :: f(y)) + {f(x)};
      assert f(x) !in set y | y in rest :: f(y);
    } else {
      assert (set y | y in a :: f(y)) == {};
    }
  }

  lemma MoveNames(s: Store, t: Store, from: Path, to: Path, ino: nat)
    requires IsMove(s, t, from, to)
    ensures NamesOf(t, ino) == set p | p in NamesOf(s, ino) :: Moved(from, to, p)
  {
    forall q ensures q in NamesOf(t, ino) <==> q in (set p | p in NamesOf(s, ino) :: Moved(from, to, p)) {
      if q in NamesOf(t, ino) {
        assert Source(from, to, q) in NamesOf(s, ino);
      }
    }
  }

  lemma MoveLinks(s: Store, t: Store, from: Path, to: Path, ino: nat)
    requires IsMove(s, t, from, to)
    ensures |NamesOf(t, ino)| == |NamesOf(s, ino)|
  {
    var f := (p: Path) => Moved(from, to, p);
    MoveNames(s, t, from, to, ino);
    assert NamesOf(t, ino) == set p | p in NamesOf(s, ino) :: f(p);
    forall x, y | x in NamesOf(s, ino) && y in NamesOf(s, ino) && f(x) == f(y) ensures x == y {
      assert Source(from, to, f(x)) == x && Source(from, to, f(y)) == y;
    }
    ImageSize(NamesOf(s, ino), f);
  }

  lemma MoveElsewhere(s: Store, t: Store, from: Path, to: Path, q: Path)
    requires IsMove(s, t, from, to) && !(from <= q) && !(to <= q)
    ensures q in t.names <==> q in s.names
    ensures q in s.names ==> t.names[q] == s.names[q]
    ensures Stat(t, q) == Stat(s, q)
  {
    assert Moved(from, to, q) == q == Source(from, to, q);
    if q in s.names { MoveLinks(s, t, from, to, s.names[q]); }
  }

  lemma MoveParents(s: Store, t: Store, from: Path, to: Path, q: Path)
    requires IsMove(s, t, from, to) && q in t.names && q != ROOT
    ensures IsDir(t, Parent(q))
  {
    var p, d := Source(from, to, q), Parent(q);
    assert MovedTo(s, t, from, to, p, q);
    if to <= q && q != to {
      Regraft(from, to, q);
      Regraft(from, to, d);
      assert IsDir(s, Parent(p));
      assert MovedTo(s, t, from, to, Parent(p), Moved(from, to, Parent(p)));
    } else {
      assert IsDir(s, d);
      assert from <= d ==> from <= q;
      assert MovedTo(s, t, from, to, d, Moved(from, to, d));
    }
  }

  lemma MoveValid(s: Store, t: Store, from: Path, to: Path)
    requires IsMove(s, t, from, to)
    ensures Valid(t)
  {
    assert Moved(from, to, ROOT) == ROOT;
    forall q | q in t.names ensures t.names[q] < |t.nodes| { assert MovedTo(s, t, from, to, Source(from, to, q), q); }
    forall q | q in t.names && q != ROOT ensures IsDir(t, Parent(q)) { MoveParents(s, t, from, to, q); }
    forall q | IsDir(t, q) ensures NamesOf(t, t.names[q]) == {q} { MoveKeepsSingleNames(s, t, from, to, q); }
  }

  lemma MoveKeepsSingleNames(s: Store, t: Store, from: Path, to: Path, q: Path)
    requires IsMove(s, t, from, to) && IsDir(t, q)
    ensures NamesOf(t, t.names[q]) == {q}
  {
    var p := Source(from, to, q);
    assert MovedTo(s, t, from, to, p, q);
    assert IsDir(s, p) && NamesOf(s, s.names[p]) == {p};
    MoveNames(s, t, from, to, t.names[q]);
  }

  lemma MoveAgrees(s: Store, t: Store, from: Path, to: Path, cov: iset<Path>)
    requires IsMove(s, t, from, to)
    requires forall q :: AtOrBelow(q, from) || AtOrBelow(q, to) ==> q in cov
    requires Parent(from) in cov && Parent(to) in cov
    ensures Agree(s, t, cov)
  {
    var changed := iset q | AtOrBelow(q, from) || AtOrBelow(q, to);
    forall q | q !in changed ensures Stat(t, q) == Stat(s, q) { MoveElsewhere(s, t, from, to, q); }
    forall q | q in changed ensures Parent(q) in cov {
      if AtOrBelow(q, from) && q != from { assert AtOrBelow(Parent(q), from); }
      if AtOrBelow(q, to) && q != to { assert AtOrBelow(Parent(q), to); }
    }
    AgreeIfSameElsewhere(s, t, changed, cov);
  }

  lemma AgreeTransitive(s: Store, t: Store, u: Store, cov: iset<Path>)
    requires Agree(s, t, cov) && Agree(t, u, cov)
    ensures Agree(s, u, cov)
  {
  }
}
