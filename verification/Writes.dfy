/** File writes: what a write-many request does to the store, which paths the gateway
    reports for it, and exactly when that report is enough. */
module Writes {
  import opened Prelude
  import opened Paths
  import opened PublicationFeed
  import opened Namespace
  import opened Mutations
  import opened Containment
  import opened DirectoryTimes

  // ---- the report ----------------------------------------------------------

  /** One result of a write: `previousHash` is absent when the write created its file. */
  datatype WriteResult = WriteResult(path: Path, previousHash: Option<string>)

  /** The parent a result adds to the report, if any. */
  function ReportedParent(r: WriteResult): Option<Path> {
    if r.previousHash.Some? || Parent(r.path) == ROOT then None else Some(Parent(r.path))
  }

  function AffectedPaths(written: seq<Path>, results: seq<WriteResult>): seq<Path> {
    if results == [] then written
    else
      var rest := AffectedPaths(written, results[..|results| - 1]);
      var parent := ReportedParent(results[|results| - 1]);
      if parent.None? || parent.value in rest then rest else rest + [parent.value]
  }

  /** The written paths, then the parents of the created ones, each once. */
  method WriteManyAffectedPaths(written: seq<Path>, results: seq<WriteResult>) returns (affected: seq<Path>)
    ensures affected == AffectedPaths(written, results)
    ensures written <= affected
    ensures forall p :: p in affected <==>
      p in written || exists i :: 0 <= i < |results| && ReportedParent(results[i]) == Some(p)
    ensures NoDuplicates(affected[|written|..])
    ensures forall p :: p in affected[|written|..] ==> p !in written
  {
    affected := written;
    var seen := set p | p in written;
    for i := 0 to |results|
      invariant affected == AffectedPaths(written, results[..i])
      invariant forall p :: p in seen <==> p in affected
    {
      var r := results[i];
      assert results[..i + 1][..i] == results[..i];
      if r.previousHash.Some? { continue; }
      var parent := Parent(r.path);
      if parent == ROOT || parent in seen { continue; }
      seen := seen + {parent};
      affected := affected + [parent];
    }
    assert results[..|results|] == results;
    AffectedShape(written, results);
    forall p { AffectedMembers(written, results, p); }
  }

  lemma {:induction false} AffectedShape(written: seq<Path>, results: seq<WriteResult>)
    ensures var affected := AffectedPaths(written, results);
      && written <= affected && NoDuplicates(affected[|written|..])
      && forall p :: p in affected[|written|..] ==> p !in written
  {
    if results != [] {
      AffectedShape(written, results[..|results| - 1]);
      var rest := AffectedPaths(written, results[..|results| - 1]);
      var parent := ReportedParent(results[|results| - 1]);
      if parent.Some? && parent.value !in rest {
        assert (rest + [parent.value])[|written|..] == rest[|written|..] + [parent.value];
        assert forall p :: p in rest[|written|..] ==> p in rest;
        assert forall p :: p in written ==> p in rest;
      }
    }
  }

  lemma {:induction false} AffectedMembers(written: seq<Path>, results: seq<WriteResult>, p: Path)
    ensures p in AffectedPaths(written, results) <==>
      p in written || exists i :: 0 <= i < |results| && ReportedParent(results[i]) == Some(p)
  {
    if results != [] {
      var init := results[..|results| - 1];
      AffectedMembers(written, init, p);
      assert forall i :: 0 <= i < |init| ==> results[i] == init[i];
    }
  }

  // ---- what a write does ---------------------------------------------------

  /** `mode` is the mode a file gets if the write creates it. */
  datatype Write = Write(path: Path, content: string, mode: int)

  function Overwrite(s: Store, p: Path, content: string, now: int): Store {
    if p in s.names && s.names[p] < |s.nodes| then
      s.(nodes := s.nodes[s.names[p] := Node(File(content), s.nodes[s.names[p]].mode, now)])
    else s
  }

  function NewFile(w: Write, now: int): Node {
    Node(File(w.content), w.mode, now)
  }

  /** The bytes are staged in a temporary file beside the destination, whose directory is
      made if need be. An existing file is then rewritten in place and the temporary file
      removed; otherwise the temporary file is renamed to the destination, over a symlink
      if there is one. Either way the directory that holds it is restamped. */
  function ApplyWrite(s: Store, w: Write, now: int): Option<Store> {
    if w.path !in s.names then CreateEntry(s, w.path, NewFile(w, now), now)
    else
      match KindAt(s, w.path)
      case Some(File(_)) => Some(Touch(Overwrite(s, w.path, w.content, now), Parent(w.path), now))
      case Some(Symlink(_)) => Some(AddEntry(s, w.path, NewFile(w, now), now))
      case _ => None
  }

  function ApplyWrites(s: Store, ws: seq<Write>, now: int): Option<Store> {
    if ws == [] then Some(s)
    else
      match ApplyWrites(s, ws[..|ws| - 1], now)
      case None => None
      case Some(u) => ApplyWrite(u, ws[|ws| - 1], now)
  }

  /** Request validation refuses the root, and the store a path written twice. */
  ghost predicate WellFormedWrites(ws: seq<Write>) {
    && (forall i :: 0 <= i < |ws| ==> ws[i].path != ROOT)
    && (forall i, j :: 0 <= i < j < |ws| ==> ws[i].path != ws[j].path)
  }

  // ---- the store afterwards, without the steps -----------------------------

  /** `q` is written, or is above a written path. */
  ghost predicate Leading(ws: seq<Write>, q: Path) {
    exists i :: 0 <= i < |ws| && q <= ws[i].path
  }

  ghost predicate Written(ws: seq<Write>, q: Path) {
    exists i :: 0 <= i < |ws| && q == ws[i].path
  }

  /** A symlink that a written file takes the place of. */
  ghost predicate Replaced(s: Store, ws: seq<Write>, q: Path) {
    KindAt(s, q).Some? && KindAt(s, q).value.Symlink? && Written(ws, q)
  }

  /** What is last written to an inode under any of its names. */
  function LastContent(s: Store, ws: seq<Write>, ino: nat): Option<string> {
    if ws == [] then None
    else
      var w := ws[|ws| - 1];
      if w.path in s.names && s.names[w.path] == ino then Some(w.content) else LastContent(s, ws[..|ws| - 1], ino)
  }

  /** A temporary file, or a directory made for one, goes into the directory `ino`. */
  ghost predicate Staged(s: Store, ws: seq<Write>, ino: nat) {
    exists i :: 0 <= i < |ws| && StagedBy(s, ws[i], ino)
  }

  predicate StagedBy(s: Store, w: Write, ino: nat) {
    var d := Nearest(s, Parent(w.path));
    IsDir(s, d) && s.names[d] == ino
  }

  ghost function NodeAfter(s: Store, ws: seq<Write>, ino: nat, now: int): Node
    requires ino < |s.nodes|
  {
    var node := s.nodes[ino];
    match node.kind
    case File(_) =>
      if LastContent(s, ws, ino).Some? then Node(File(LastContent(s, ws, ino).value), node.mode, now) else node
    case Directory => if Staged(s, ws, ino) then node.(stamp := now) else node
    case Symlink(_) => node
  }

  ghost predicate NameAfter(s: Store, t: Store, ws: seq<Write>, q: Path) {
    && (q in t.names <==> q in s.names || Leading(ws, q))
    && (q in t.names ==>
          if q in s.names && !Replaced(s, ws, q) then t.names[q] == s.names[q] else t.names[q] >= |s.nodes|)
  }

  /** `t` is `s` after the writes `ws`. */
  ghost predicate Wrote(s: Store, t: Store, ws: seq<Write>, now: int) {
    && Valid(s) && Valid(t) && |s.nodes| <= |t.nodes|
    && (forall q {:trigger NameAfter(s, t, ws, q)} :: NameAfter(s, t, ws, q))
    && (forall ino: nat :: ino < |s.nodes| ==> t.nodes[ino] == NodeAfter(s, ws, ino, now))
    && (forall q :: Written(ws, q) ==> HoldsFile(t, q))
  }

  predicate HoldsFile(s: Store, p: Path) {
    KindAt(s, p).Some? && KindAt(s, p).value.File?
  }

  // ---- one more write ------------------------------------------------------

  lemma LeadingSnoc(ws: seq<Write>, w: Write, q: Path)
    ensures Leading(ws + [w], q) <==> Leading(ws, q) || q <= w.path
    ensures Written(ws + [w], q) <==> Written(ws, q) || q == w.path
  {
    var all := ws + [w];
    assert all[|ws|] == w;
    if i :| 0 <= i < |ws| && q <= ws[i].path { assert all[i] == ws[i]; }
    if i :| 0 <= i < |ws| && q == ws[i].path { assert all[i] == ws[i]; }
  }

  lemma StagedSnoc(s: Store, ws: seq<Write>, w: Write, ino: nat)
    ensures Staged(s, ws + [w], ino) <==> Staged(s, ws, ino) || StagedBy(s, w, ino)
  {
    var all := ws + [w];
    assert all[|ws|] == w;
    if i :| 0 <= i < |ws| && StagedBy(s, ws[i], ino) { assert all[i] == ws[i]; }
  }

  lemma LastContentSnoc(s: Store, ws: seq<Write>, w: Write, ino: nat)
    ensures LastContent(s, ws + [w], ino) ==
      if w.path in s.names && s.names[w.path] == ino then Some(w.content) else LastContent(s, ws, ino)
  {
    assert (ws + [w])[..|ws|] == ws;
  }

  lemma {:induction false} NearestOld(s: Store, u: Store, d: Path)
    requires forall q :: q in s.names ==> q in u.names
    requires Nearest(u, d) in s.names
    ensures Nearest(s, d) == Nearest(u, d)
    decreases |d|
  {
    if d !in u.names && d != ROOT { NearestOld(s, u, Parent(d)); }
  }

  /** A directory of `u` that `s` had is where it was. */
  lemma OldDirectory(s: Store, u: Store, ws: seq<Write>, now: int, d: Path)
    requires Wrote(s, u, ws, now) && IsDir(u, d) && d in s.names
    ensures IsDir(s, d) && u.names[d] == s.names[d]
  {
    assert NameAfter(s, u, ws, d);
    assert Written(ws, d) ==> HoldsFile(u, d);
  }

  lemma NothingAbove(u: Store, x: Path, q: Path)
    requires Valid(u) && q in u.names && x <= q && x != q
    ensures IsDir(u, x)
  {
    AncestorsExist(u, q, x);
    if !IsDir(u, x) { FileHasNothingBelow(u, x, q); }
  }

  /** The nearest directory was there before, or an earlier write made it, below the one
      that was. */
  lemma NearestAfter(s: Store, u: Store, ws: seq<Write>, now: int, d: Path)
    requires Wrote(s, u, ws, now) && IsDir(u, Nearest(u, d))
    ensures var x, y := Nearest(u, d), Nearest(s, d);
      && IsDir(s, y)
      && (x in s.names ==> x == y && u.names[x] == s.names[y])
      && (x !in s.names ==> u.names[x] >= |s.nodes| && Staged(s, ws, s.names[y]))
  {
    var x, y := Nearest(u, d), Nearest(s, d);
    assert NameAfter(s, u, ws, x);
    NearestPrefix(u, d);
    NearestPrefix(s, d);
    forall q | q in s.names ensures q in u.names { assert NameAfter(s, u, ws, q); }
    if x in s.names {
      NearestOld(s, u, d);
      OldDirectory(s, u, ws, now, x);
    } else {
      var i :| 0 <= i < |ws| && x <= ws[i].path;
      assert Written(ws, ws[i].path) && HoldsFile(u, ws[i].path);
      PrefixStep(x, ws[i].path);
      NearestBelow(s, x, d);
      NearestBelow(s, x, Parent(ws[i].path));
      NearestPrefix(s, x);
      assert y in s.names;
      NothingAbove(u, y, x);
      OldDirectory(s, u, ws, now, y);
      assert StagedBy(s, ws[i], s.names[y]);
    }
  }

  /** What a write does to the old nodes: rewrites the file it names, and restamps the
      directory it is staged in. */
  ghost predicate OneWrite(s: Store, u: Store, t: Store, w: Write, now: int) {
    && |s.nodes| <= |u.nodes| <= |t.nodes|
    && (forall ino: nat :: ino < |s.nodes| ==> t.nodes[ino] == NodeWritten(s, u, w, ino, now))
  }

  function NodeWritten(s: Store, u: Store, w: Write, ino: nat, now: int): Node
    requires ino < |u.nodes|
  {
    var node := u.nodes[ino];
    if node.kind.File? && w.path in s.names && s.names[w.path] == ino then Node(File(w.content), node.mode, now)
    else if node.kind.Directory? && StagedBy(s, w, ino) then node.(stamp := now)
    else node
  }

  lemma NodesFollow(s: Store, u: Store, t: Store, ws: seq<Write>, w: Write, now: int, ino: nat)
    requires Wrote(s, u, ws, now) && OneWrite(s, u, t, w, now) && ino < |s.nodes|
    ensures t.nodes[ino] == NodeAfter(s, ws + [w], ino, now)
  {
    LastContentSnoc(s, ws, w, ino);
    StagedSnoc(s, ws, w, ino);
    assert u.nodes[ino] == NodeAfter(s, ws, ino, now);
  }

  lemma AllNodesFollow(s: Store, u: Store, t: Store, ws: seq<Write>, w: Write, now: int)
    requires Wrote(s, u, ws, now) && OneWrite(s, u, t, w, now)
    ensures forall ino: nat :: ino < |s.nodes| ==> t.nodes[ino] == NodeAfter(s, ws + [w], ino, now)
  {
    forall ino: nat | ino < |s.nodes| ensures t.nodes[ino] == NodeAfter(s, ws + [w], ino, now) {
      NodesFollow(s, u, t, ws, w, now, ino);
    }
  }

  /** Names follow when a write adds a name or leaves all names alone. */
  lemma NamesFollow(s: Store, u: Store, t: Store, ws: seq<Write>, w: Write, now: int, q: Path)
    requires Wrote(s, u, ws, now) && |u.nodes| <= |t.nodes|
    requires q in t.names <==> q in u.names || q <= w.path
    requires q in t.names ==>
      if q in u.names && !(q == w.path && Replaced(s, [w], q)) then t.names[q] == u.names[q]
      else t.names[q] >= |u.nodes|
    ensures NameAfter(s, t, ws + [w], q)
  {
    assert NameAfter(s, u, ws, q);
    LeadingSnoc(ws, w, q);
    assert Written([w], w.path) by { assert [w][0].path == w.path; }
  }

  lemma FilesStay(u: Store, t: Store, q: Path)
    requires HoldsFile(u, q) && q in t.names && t.names[q] == u.names[q] && u.names[q] < |t.nodes|
    requires t.nodes[u.names[q]].kind.File?
    ensures HoldsFile(t, q)
  {
  }

  /** Old nodes under a creation. */
  lemma CreationNodes(s: Store, u: Store, t: Store, ws: seq<Write>, w: Write, now: int)
    requires Wrote(s, u, ws, now) && w.path != ROOT && w.path !in u.names
    requires CreateEntry(u, w.path, NewFile(w, now), now) == Some(t) && Extends(u, t)
    ensures forall ino: nat :: ino < |s.nodes| ==> t.nodes[ino] == NodeAfter(s, ws + [w], ino, now)
  {
    var d, x := Parent(w.path), Nearest(u, Parent(w.path));
    CreateEntryRestamps(u, w.path, NewFile(w, now), now);
    NearestExists(u, d, now);
    NearestAfter(s, u, ws, now, d);
    InodesOfOne(u, x);
    assert NameAfter(s, u, ws, w.path);
    forall ino: nat | ino < |s.nodes| ensures t.nodes[ino] == NodeAfter(s, ws + [w], ino, now) {
      CreationNode(s, u, t, ws, w, now, ino);
    }
  }

  lemma CreationNode(s: Store, u: Store, t: Store, ws: seq<Write>, w: Write, now: int, ino: nat)
    requires Wrote(s, u, ws, now) && w.path !in s.names && Extends(u, t) && ino < |s.nodes|
    requires IsDir(u, Nearest(u, Parent(w.path)))
    requires StampsAt(u, t, {u.names[Nearest(u, Parent(w.path))]}, now)
    ensures t.nodes[ino] == NodeAfter(s, ws + [w], ino, now)
  {
    var d, x := Parent(w.path), Nearest(u, Parent(w.path));
    NearestAfter(s, u, ws, now, d);
    LastContentSnoc(s, ws, w, ino);
    StagedSnoc(s, ws, w, ino);
    assert u.nodes[ino] == NodeAfter(s, ws, ino, now);
    assert t.nodes[ino].(stamp := 0) == u.nodes[ino].(stamp := 0);
    assert t.nodes[ino].stamp == if ino == u.names[x] then now else u.nodes[ino].stamp;
    if ino == u.names[x] { assert x in s.names; }
  }

  lemma CreationStep(s: Store, u: Store, t: Store, ws: seq<Write>, w: Write, now: int)
    requires Wrote(s, u, ws, now) && w.path != ROOT && w.path !in u.names
    requires CreateEntry(u, w.path, NewFile(w, now), now) == Some(t)
    ensures Wrote(s, t, ws + [w], now)
  {
    var d, p := Parent(w.path), w.path;
    var v := MakeDirs(u, d, now).value;
    MakeDirsExtends(u, d, now);
    assert !AtOrBelow(d, p);
    AddEntryExtends(v, p, NewFile(w, now), now);
    ExtendsTransitive(u, v, t);
    CreationNodes(s, u, t, ws, w, now);
    assert NameAfter(s, u, ws, p);
    forall q ensures NameAfter(s, t, ws + [w], q) {
      PrefixStep(q, p);
      if q in t.names && q !in u.names { NewNamesNewInodes(u, t, q); }
      NamesFollow(s, u, t, ws, w, now, q);
    }
    forall q | Written(ws + [w], q) ensures HoldsFile(t, q) {
      LeadingSnoc(ws, w, q);
      if q != p { FilesStay(u, t, q); }
    }
  }

  /** A destination that is there and is not a directory was there all along. */
  lemma TargetIsOld(s: Store, u: Store, ws: seq<Write>, now: int, p: Path)
    requires Wrote(s, u, ws, now) && p in u.names && !IsDir(u, p) && !Written(ws, p)
    ensures p in s.names && u.names[p] == s.names[p]
  {
    assert NameAfter(s, u, ws, p);
    if p !in s.names {
      var i :| 0 <= i < |ws| && p <= ws[i].path;
      assert Written(ws, ws[i].path) && HoldsFile(u, ws[i].path);
      NothingAbove(u, p, ws[i].path);
    }
  }

  lemma StagedInParent(s: Store, w: Write)
    requires Valid(s) && w.path in s.names && w.path != ROOT
    ensures IsDir(s, Parent(w.path)) && Nearest(s, Parent(w.path)) == Parent(w.path)
  {
  }

  lemma OverwriteNodes(s: Store, u: Store, w: Write, now: int)
    requires w.path in s.names && w.path in u.names && u.names[w.path] == s.names[w.path] && HoldsFile(u, w.path)
    requires |s.nodes| <= |u.nodes| && Valid(s) && w.path != ROOT
    requires IsDir(u, Parent(w.path)) && u.names[Parent(w.path)] == s.names[Parent(w.path)]
    ensures OneWrite(s, u, Touch(Overwrite(u, w.path, w.content, now), Parent(w.path), now), w, now)
  {
    StagedInParent(s, w);
  }

  lemma OverwriteStep(s: Store, u: Store, t: Store, ws: seq<Write>, w: Write, now: int)
    requires Wrote(s, u, ws, now) && w.path != ROOT && !Written(ws, w.path)
    requires HoldsFile(u, w.path) && t == Touch(Overwrite(u, w.path, w.content, now), Parent(w.path), now)
    ensures Wrote(s, t, ws + [w], now)
  {
    var p, d := w.path, Parent(w.path);
    TargetIsOld(s, u, ws, now, p);
    StagedInParent(s, w);
    StagedInParent(u, w);
    OldDirectory(s, u, ws, now, d);
    OverwriteValid(u, p, w.content, now);
    TouchValid(Overwrite(u, p, w.content, now), d, now);
    OverwriteNodes(s, u, w, now);
    AllNodesFollow(s, u, t, ws, w, now);
    forall q ensures NameAfter(s, t, ws + [w], q) { OverwriteName(s, u, t, ws, w, now, q); }
    forall q | Written(ws + [w], q) ensures HoldsFile(t, q) {
      LeadingSnoc(ws, w, q);
      OverwriteHolds(u, w, now, q);
    }
  }

  lemma OverwriteName(s: Store, u: Store, t: Store, ws: seq<Write>, w: Write, now: int, q: Path)
    requires Wrote(s, u, ws, now) && w.path in u.names && !Replaced(s, [w], w.path)
    requires t.names == u.names && |u.nodes| <= |t.nodes|
    ensures NameAfter(s, t, ws + [w], q)
  {
    if q <= w.path { AncestorsExist(u, w.path, q); }
    NamesFollow(s, u, t, ws, w, now, q);
  }

  lemma OverwriteHolds(u: Store, w: Write, now: int, q: Path)
    requires Valid(u) && HoldsFile(u, w.path) && HoldsFile(u, q)
    ensures HoldsFile(Touch(Overwrite(u, w.path, w.content, now), Parent(w.path), now), q)
  {
  }

  lemma OverwriteValid(s: Store, p: Path, content: string, now: int)
    requires Valid(s) && HoldsFile(s, p)
    ensures Valid(Overwrite(s, p, content, now))
    ensures forall q :: IsDir(Overwrite(s, p, content, now), q) <==> IsDir(s, q)
  {
    var t := Overwrite(s, p, content, now);
    forall ino ensures NamesOf(t, ino) == NamesOf(s, ino) {}
    forall q ensures IsDir(t, q) <==> IsDir(s, q) {}
  }

  lemma RebindValid(s: Store, p: Path, node: Node)
    requires Valid(s) && p in s.names && p != ROOT && !IsDir(s, p) && !node.kind.Directory?
    ensures Valid(Bind(s, p, node))
    ensures forall q :: IsDir(Bind(s, p, node), q) <==> IsDir(s, q)
  {
    var t := Bind(s, p, node);
    forall q ensures IsDir(t, q) <==> IsDir(s, q) { ReboundDirectory(s, p, node, q); }
    forall q | IsDir(t, q) ensures NamesOf(t, t.names[q]) == {q} { ReboundDirectory(s, p, node, q); }
    forall q | q in t.names && q != ROOT ensures IsDir(t, Parent(q)) { assert IsDir(s, Parent(q)); }
  }

  lemma ReboundDirectory(s: Store, p: Path, node: Node, q: Path)
    requires Valid(s) && p in s.names && !IsDir(s, p) && !node.kind.Directory?
    ensures IsDir(Bind(s, p, node), q) <==> IsDir(s, q)
    ensures IsDir(s, q) ==> Bind(s, p, node).names[q] == s.names[q] && NamesOf(Bind(s, p, node), s.names[q]) == {q}
  {
    if IsDir(s, q) {
      assert NamesOf(s, s.names[q]) == {q};
      forall x ensures x in NamesOf(Bind(s, p, node), s.names[q]) <==> x == q {
        assert x in NamesOf(s, s.names[q]) <==> x == q;
      }
    }
  }

  predicate HoldsSymlink(s: Store, p: Path) {
    KindAt(s, p).Some? && KindAt(s, p).value.Symlink?
  }

  lemma ReplacementNodes(s: Store, u: Store, w: Write, now: int)
    requires w.path in s.names && w.path in u.names && u.names[w.path] == s.names[w.path] && HoldsSymlink(u, w.path)
    requires |s.nodes| <= |u.nodes| && Valid(s) && w.path != ROOT
    requires IsDir(u, Parent(w.path)) && u.names[Parent(w.path)] == s.names[Parent(w.path)]
    ensures OneWrite(s, u, AddEntry(u, w.path, NewFile(w, now), now), w, now)
  {
    StagedInParent(s, w);
    assert Parent(w.path) != w.path;
  }

  lemma SymlinkWas(s: Store, u: Store, ws: seq<Write>, now: int, p: Path)
    requires Wrote(s, u, ws, now) && p in s.names && p in u.names && u.names[p] == s.names[p] && HoldsSymlink(u, p)
    ensures HoldsSymlink(s, p)
  {
    assert u.nodes[s.names[p]] == NodeAfter(s, ws, s.names[p], now);
  }

  lemma ReplacementStep(s: Store, u: Store, t: Store, ws: seq<Write>, w: Write, now: int)
    requires Wrote(s, u, ws, now) && w.path != ROOT && !Written(ws, w.path)
    requires HoldsSymlink(u, w.path) && t == AddEntry(u, w.path, NewFile(w, now), now)
    ensures Wrote(s, t, ws + [w], now)
  {
    var p, d := w.path, Parent(w.path);
    TargetIsOld(s, u, ws, now, p);
    StagedInParent(s, w);
    StagedInParent(u, w);
    OldDirectory(s, u, ws, now, d);
    RebindValid(u, p, NewFile(w, now));
    TouchValid(Bind(u, p, NewFile(w, now)), d, now);
    ReplacementNodes(s, u, w, now);
    AllNodesFollow(s, u, t, ws, w, now);
    SymlinkWas(s, u, ws, now, p);
    forall q ensures NameAfter(s, t, ws + [w], q) { ReplacementName(s, u, ws, w, now, q); }
    forall q | Written(ws + [w], q) ensures HoldsFile(t, q) {
      LeadingSnoc(ws, w, q);
      ReplacementHolds(u, w, now, q);
    }
  }

  lemma ReplacementHolds(u: Store, w: Write, now: int, q: Path)
    requires Valid(u) && (q == w.path || HoldsFile(u, q))
    ensures HoldsFile(AddEntry(u, w.path, NewFile(w, now), now), q)
  {
  }

  lemma ReplacementName(s: Store, u: Store, ws: seq<Write>, w: Write, now: int, q: Path)
    requires Wrote(s, u, ws, now) && w.path in u.names && HoldsSymlink(s, w.path)
    ensures NameAfter(s, AddEntry(u, w.path, NewFile(w, now), now), ws + [w], q)
  {
    if q <= w.path { AncestorsExist(u, w.path, q); }
    assert Written([w], w.path) by { assert [w][0].path == w.path; }
    NamesFollow(s, u, AddEntry(u, w.path, NewFile(w, now), now), ws, w, now, q);
  }

  /** The writes, one after the other, leave the store that `Wrote` describes. */
  lemma {:induction false} WritesWrote(s: Store, ws: seq<Write>, now: int)
    requires Valid(s) && WellFormedWrites(ws) && ApplyWrites(s, ws, now).Some?
    ensures Wrote(s, ApplyWrites(s, ws, now).value, ws, now)
  {
    if ws == [] {
      NothingWrote(s, now);
    } else {
      var init, w := SplitWrites(ws);
      WritesWrote(s, init, now);
      WriteStep(s, ApplyWrites(s, init, now).value, init, w, now);
    }
  }

  lemma SplitWrites(ws: seq<Write>) returns (init: seq<Write>, w: Write)
    requires WellFormedWrites(ws) && ws != []
    ensures init == ws[..|ws| - 1] && w == ws[|ws| - 1] && ws == init + [w]
    ensures WellFormedWrites(init) && w.path != ROOT && !Written(init, w.path)
  {
    init, w := ws[..|ws| - 1], ws[|ws| - 1];
  }

  lemma NothingWrote(s: Store, now: int)
    requires Valid(s)
    ensures Wrote(s, s, [], now)
  {
    forall q ensures NameAfter(s, s, [], q) {}
  }

  lemma WriteStep(s: Store, u: Store, ws: seq<Write>, w: Write, now: int)
    requires Wrote(s, u, ws, now) && w.path != ROOT && !Written(ws, w.path) && ApplyWrite(u, w, now).Some?
    ensures Wrote(s, ApplyWrite(u, w, now).value, ws + [w], now)
  {
    var t := ApplyWrite(u, w, now).value;
    if w.path !in u.names {
      CreationStep(s, u, t, ws, w, now);
    } else if HoldsFile(u, w.path) {
      OverwriteStep(s, u, t, ws, w, now);
    } else {
      ReplacementStep(s, u, t, ws, w, now);
    }
  }

  // ---- what the writes change ----------------------------------------------

  /** A name that comes to be, or comes to name another inode. */
  ghost predicate NewName(s: Store, ws: seq<Write>, q: Path) {
    Leading(ws, q) && (q !in s.names || Replaced(s, ws, q))
  }

  /** A file that is rewritten with other contents, or at another time than it shows. */
  predicate Rewritten(s: Store, ws: seq<Write>, ino: nat, now: int) {
    && ino < |s.nodes| && s.nodes[ino].kind.File? && LastContent(s, ws, ino).Some?
    && s.nodes[ino] != Node(File(LastContent(s, ws, ino).value), s.nodes[ino].mode, now)
  }

  /** A symlink that loses a name. */
  ghost predicate Unseated(s: Store, ws: seq<Write>, ino: nat) {
    exists q :: q in s.names && s.names[q] == ino && Replaced(s, ws, q)
  }

  ghost predicate Disturbs(s: Store, ws: seq<Write>, ino: nat, now: int) {
    Rewritten(s, ws, ino, now) || Unseated(s, ws, ino)
  }

  /** A directory that something is staged in and that shows another time. */
  ghost predicate Freshened(s: Store, ws: seq<Write>, d: Path, now: int) {
    IsDir(s, d) && Staged(s, ws, s.names[d]) && s.nodes[s.names[d]].stamp != now
  }

  lemma NewNameShows(s: Store, t: Store, ws: seq<Write>, now: int, q: Path)
    requires Wrote(s, t, ws, now) && NewName(s, ws, q)
    ensures q != ROOT && Listed(Stat(t, q)) != Listed(Stat(s, q))
  {
    assert NameAfter(s, t, ws, q);
  }

  lemma NamesLeft(s: Store, t: Store, ws: seq<Write>, now: int, ino: nat)
    requires Wrote(s, t, ws, now) && ino < |s.nodes|
    ensures forall q :: q in NamesOf(t, ino) <==> q in NamesOf(s, ino) && !Replaced(s, ws, q)
    ensures !Unseated(s, ws, ino) ==> NamesOf(t, ino) == NamesOf(s, ino)
  {
    forall q ensures q in NamesOf(t, ino) <==> q in NamesOf(s, ino) && !Replaced(s, ws, q) {
      assert NameAfter(s, t, ws, q);
    }
  }

  lemma RewrittenShows(s: Store, t: Store, ws: seq<Write>, now: int, q: Path)
    requires Wrote(s, t, ws, now) && q in s.names && Rewritten(s, ws, s.names[q], now)
    ensures q != ROOT && Listed(Stat(t, q)) != Listed(Stat(s, q))
  {
    assert NameAfter(s, t, ws, q);
    assert t.nodes[s.names[q]] == NodeAfter(s, ws, s.names[q], now);
  }

  lemma UnseatedShows(s: Store, t: Store, ws: seq<Write>, now: int, q: Path)
    requires Wrote(s, t, ws, now) && q in s.names && Unseated(s, ws, s.names[q]) && !Replaced(s, ws, q)
    ensures q != ROOT && Listed(Stat(t, q)) != Listed(Stat(s, q))
  {
    var ino := s.names[q];
    var x :| x in s.names && s.names[x] == ino && Replaced(s, ws, x);
    assert NameAfter(s, t, ws, q);
    assert t.nodes[ino] == NodeAfter(s, ws, ino, now);
    FewerLeft(s, t, ws, now, ino, x);
    LinksShow(s, t, q);
  }

  lemma FewerLeft(s: Store, t: Store, ws: seq<Write>, now: int, ino: nat, x: Path)
    requires Wrote(s, t, ws, now) && ino < |s.nodes| && x in s.names && s.names[x] == ino && Replaced(s, ws, x)
    ensures |NamesOf(t, ino)| < |NamesOf(s, ino)|
  {
    NamesLeft(s, t, ws, now, ino);
    assert x in NamesOf(s, ino) && x !in NamesOf(t, ino) && NamesOf(t, ino) <= NamesOf(s, ino) - {x};
    SmallerSet(NamesOf(t, ino), NamesOf(s, ino) - {x});
  }

  lemma DisturbedShows(s: Store, t: Store, ws: seq<Write>, now: int, q: Path)
    requires Wrote(s, t, ws, now) && q in s.names && Disturbs(s, ws, s.names[q], now)
    ensures q != ROOT && Listed(Stat(t, q)) != Listed(Stat(s, q))
  {
    if Rewritten(s, ws, s.names[q], now) {
      RewrittenShows(s, t, ws, now, q);
    } else if Replaced(s, ws, q) {
      NewNameShows(s, t, ws, now, q);
    } else {
      UnseatedShows(s, t, ws, now, q);
    }
  }

  /** What is neither new nor disturbed looks as before, directory times aside. */
  lemma UndisturbedSame(s: Store, t: Store, ws: seq<Write>, now: int, q: Path)
    requires Wrote(s, t, ws, now) && !NewName(s, ws, q)
    requires q in s.names ==> !Disturbs(s, ws, s.names[q], now)
    ensures Listed(Stat(t, q)) == Listed(Stat(s, q))
    ensures !Freshened(s, ws, q, now) ==> Stat(t, q) == Stat(s, q)
  {
    assert NameAfter(s, t, ws, q);
    if q in s.names {
      var ino := s.names[q];
      assert !Replaced(s, ws, q);
      assert t.nodes[ino] == NodeAfter(s, ws, ino, now);
      NamesLeft(s, t, ws, now, ino);
    }
  }

  lemma FreshenedShows(s: Store, t: Store, ws: seq<Write>, now: int, d: Path)
    requires Wrote(s, t, ws, now) && Freshened(s, ws, d, now)
    ensures StillAt(s, t, d) && t.nodes[s.names[d]].stamp == now
    ensures Read(t, StatOf(d)) != Read(s, StatOf(d))
  {
    assert NameAfter(s, t, ws, d);
    assert t.nodes[s.names[d]] == NodeAfter(s, ws, s.names[d], now);
  }

  // ---- when the report is enough -------------------------------------------

  /** Nothing outside `cov` is created, rewritten, unseated or restamped. */
  ghost predicate WritesContained(s: Store, ws: seq<Write>, now: int, cov: iset<Path>) {
    && (forall q :: NewName(s, ws, q) ==> PointCovered(q, cov))
    && (forall ino :: Disturbs(s, ws, ino, now) ==> Enclosed(s, ino, cov))
    && (forall d :: Freshened(s, ws, d, now) ==> d in cov)
  }

  lemma ContainedWritesKept(s: Store, t: Store, ws: seq<Write>, now: int, cov: iset<Path>)
    requires Wrote(s, t, ws, now) && WritesContained(s, ws, now, cov)
    ensures Kept(s, t, cov)
  {
    var changed := iset q | NewName(s, ws, q) || (q in s.names && Disturbs(s, ws, s.names[q], now))
                            || Freshened(s, ws, q, now);
    forall q | q !in changed ensures Stat(t, q) == Stat(s, q) { UndisturbedSame(s, t, ws, now, q); }
    forall q | q in changed
      ensures q in cov && (Parent(q) in cov || Listed(Stat(t, q)) == Listed(Stat(s, q)))
    {
      if NewName(s, ws, q) {
      } else if q in s.names && Disturbs(s, ws, s.names[q], now) {
        assert Enclosed(s, s.names[q], cov);
      } else {
        UndisturbedSame(s, t, ws, now, q);
      }
    }
    AgreeIfSameElsewhere(s, t, changed, cov);
    AgreeMeansKept(s, t, cov);
  }

  lemma KeptWritesContained(s: Store, t: Store, ws: seq<Write>, now: int, cov: iset<Path>)
    requires Wrote(s, t, ws, now) && Kept(s, t, cov)
    ensures WritesContained(s, ws, now, cov)
  {
    forall q | NewName(s, ws, q) ensures PointCovered(q, cov) {
      NewNameShows(s, t, ws, now, q);
      if !PointCovered(q, cov) { ChangeShows(s, t, q, cov); }
    }
    forall ino | Disturbs(s, ws, ino, now) ensures Enclosed(s, ino, cov) {
      forall q | q in s.names && s.names[q] == ino ensures PointCovered(q, cov) {
        DisturbedShows(s, t, ws, now, q);
        if !PointCovered(q, cov) { ChangeShows(s, t, q, cov); }
      }
    }
    forall d | Freshened(s, ws, d, now) ensures d in cov { FreshenedShows(s, t, ws, now, d); }
  }

  /** A list of writes leaves everything outside `cov` as it reads if and only if whatever
      it creates, rewrites or unseats has all its names, and the listings that show them,
      within `cov`, and so has every directory it restamps. */
  lemma WritesKeptIffContained(s: Store, ws: seq<Write>, now: int, cov: iset<Path>)
    requires Valid(s) && WellFormedWrites(ws) && ApplyWrites(s, ws, now).Some?
    ensures Valid(ApplyWrites(s, ws, now).value)
    ensures Kept(s, ApplyWrites(s, ws, now).value, cov) <==> WritesContained(s, ws, now, cov)
  {
    var t := ApplyWrites(s, ws, now).value;
    WritesWrote(s, ws, now);
    if WritesContained(s, ws, now, cov) { ContainedWritesKept(s, t, ws, now, cov); }
    if Kept(s, t, cov) { KeptWritesContained(s, t, ws, now, cov); }
  }

  /** Every directory the writes restamp is the root or listed within `cov`. */
  ghost predicate FreshenedListed(s: Store, ws: seq<Write>, now: int, cov: iset<Path>) {
    forall d :: Freshened(s, ws, d, now) ==> d == ROOT || Parent(d) in cov
  }

  lemma FreshenedMoved(s: Store, t: Store, ws: seq<Write>, now: int, d: Path)
    requires Wrote(s, t, ws, now)
    ensures StampMoved(s, t, d) <==> Freshened(s, ws, d, now)
  {
    if Freshened(s, ws, d, now) { FreshenedShows(s, t, ws, now, d); }
    if StampMoved(s, t, d) { assert t.nodes[s.names[d]] == NodeAfter(s, ws, s.names[d], now); }
  }

  /** The same for whole listings. */
  lemma WritesKeptFullyIffContained(s: Store, ws: seq<Write>, now: int, cov: iset<Path>)
    requires Valid(s) && WellFormedWrites(ws) && ApplyWrites(s, ws, now).Some?
    ensures KeptFully(s, ApplyWrites(s, ws, now).value, cov) <==>
      WritesContained(s, ws, now, cov) && FreshenedListed(s, ws, now, cov)
  {
    var t := ApplyWrites(s, ws, now).value;
    WritesKeptIffContained(s, ws, now, cov);
    WritesWrote(s, ws, now);
    FullyIffStampsListed(s, t, cov);
    forall d ensures StampMoved(s, t, d) <==> Freshened(s, ws, d, now) { FreshenedMoved(s, t, ws, now, d); }
  }

  // ---- the computed report -------------------------------------------------

  function PathsOf(ws: seq<Write>): seq<Path> {
    seq(|ws|, i requires 0 <= i < |ws| => ws[i].path)
  }

  /** The hash the store finds before it writes; only a regular file has one. */
  function PreviousHash(s: Store, p: Path, digest: string -> string): Option<string> {
    match KindAt(s, p)
    case Some(File(content)) => Some(digest(content))
    case _ => None
  }

  function ResultsOf(s: Store, ws: seq<Write>, digest: string -> string): seq<WriteResult> {
    seq(|ws|, i requires 0 <= i < |ws| => WriteResult(ws[i].path, PreviousHash(s, ws[i].path, digest)))
  }

  /** What the gateway reports for the writes. */
  function WritesReport(s: Store, ws: seq<Write>, digest: string -> string): Affected {
    Affected(AffectedPaths(PathsOf(ws), ResultsOf(s, ws, digest)), [])
  }

  /** `q` is the directory, other than the root, of a file that a write creates. */
  ghost predicate Hosts(s: Store, ws: seq<Write>, q: Path) {
    q != ROOT && exists i :: 0 <= i < |ws| && Parent(ws[i].path) == q && !HoldsFile(s, ws[i].path)
  }

  /** The report covers the written paths and the directories of created files. */
  lemma WritesCover(s: Store, ws: seq<Write>, digest: string -> string, q: Path)
    ensures q in Cover(WritesReport(s, ws, digest)) <==> Written(ws, q) || Hosts(s, ws, q)
  {
    var paths, results := PathsOf(ws), ResultsOf(s, ws, digest);
    AffectedMembers(paths, results, q);
    assert q in paths <==> Written(ws, q) by {
      if i :| 0 <= i < |ws| && q == ws[i].path { assert paths[i] == q; }
    }
    if i :| 0 <= i < |ws| && Parent(ws[i].path) == q && !HoldsFile(s, ws[i].path) && q != ROOT {
      assert ReportedParent(results[i]) == Some(q);
    }
  }

  lemma OneWriteCover(s: Store, w: Write, digest: string -> string, q: Path)
    ensures q in Cover(WritesReport(s, [w], digest)) <==>
      q == w.path || (q == Parent(w.path) && q != ROOT && !HoldsFile(s, w.path))
    ensures Leading([w], q) <==> q <= w.path
    ensures Written([w], q) <==> q == w.path
  {
    WritesCover(s, [w], digest, q);
    assert [w][0] == w;
  }

  lemma OneApplies(s: Store, w: Write, now: int)
    ensures ApplyWrites(s, [w], now) == ApplyWrite(s, w, now)
  {
    assert [w][..0] == [];
  }

  lemma LastOfOne(s: Store, w: Write, ino: nat)
    ensures LastContent(s, [w], ino) == if w.path in s.names && s.names[w.path] == ino then Some(w.content) else None
  {
    assert [w][..0] == [];
  }

  /** A single write restamps at most the directory it is staged in. */
  lemma FreshenedByOne(s: Store, w: Write, now: int, d: Path)
    requires Valid(s)
    ensures Freshened(s, [w], d, now) <==>
      d == Nearest(s, Parent(w.path)) && IsDir(s, d) && s.nodes[s.names[d]].stamp != now
  {
    var x := Nearest(s, Parent(w.path));
    assert [w][0] == w;
    if IsDir(s, d) && IsDir(s, x) && s.names[x] == s.names[d] {
      assert x in NamesOf(s, s.names[d]) && d in NamesOf(s, s.names[d]);
    }
  }

  /** `cov` is what the gateway reports for one creation. */
  ghost predicate CoversCreation(w: Write, cov: iset<Path>) {
    forall q :: q in cov <==> q == w.path || (q == Parent(w.path) && q != ROOT)
  }

  lemma CreationUncontained(s: Store, w: Write, now: int, cov: iset<Path>)
    requires Valid(s) && w.path != ROOT && w.path !in s.names && CoversCreation(w, cov)
    requires Parent(w.path) == ROOT || Parent(w.path) !in s.names
    ensures !WritesContained(s, [w], now, cov)
  {
    var p, d := w.path, Parent(w.path);
    assert [w][0] == w;
    if d == ROOT {
      assert NewName(s, [w], p) && !PointCovered(p, cov);
    } else {
      assert d <= p && |Parent(d)| < |d| < |p|;
      assert NewName(s, [w], d) && !PointCovered(d, cov);
    }
  }

  lemma CreationContained(s: Store, w: Write, now: int, cov: iset<Path>)
    requires Valid(s) && w.path != ROOT && w.path !in s.names && CoversCreation(w, cov)
    requires IsDir(s, Parent(w.path)) && Parent(w.path) != ROOT
    ensures WritesContained(s, [w], now, cov)
  {
    var p, d := w.path, Parent(w.path);
    forall q | NewName(s, [w], q) ensures PointCovered(q, cov) {
      PrefixStep(q, p);
      if q <= d { AncestorsExist(s, d, q); }
    }
    forall ino ensures !Disturbs(s, [w], ino, now) { LastOfOne(s, w, ino); }
    forall e | Freshened(s, [w], e, now) ensures e in cov { FreshenedByOne(s, w, now, e); }
  }

  /** A write that creates its file is fully reported exactly when its directory already
      exists and is not the root: the root's listing is never named. */
  lemma CreatingWriteReported(s: Store, w: Write, now: int, digest: string -> string)
    requires Valid(s) && w.path != ROOT && w.path !in s.names && ApplyWrites(s, [w], now).Some?
    ensures Kept(s, ApplyWrites(s, [w], now).value, Cover(WritesReport(s, [w], digest)))
            <==> IsDir(s, Parent(w.path)) && Parent(w.path) != ROOT
  {
    var cov := Cover(WritesReport(s, [w], digest));
    forall q ensures q in cov <==> q == w.path || (q == Parent(w.path) && q != ROOT) { OneWriteCover(s, w, digest, q); }
    WritesKeptIffContained(s, [w], now, cov);
    OneApplies(s, w, now);
    if IsDir(s, Parent(w.path)) && Parent(w.path) != ROOT {
      CreationContained(s, w, now, cov);
    } else {
      CreationUncontained(s, w, now, cov);
    }
  }

  predicate OverwriteChanges(s: Store, w: Write, now: int)
    requires HoldsFile(s, w.path)
  {
    s.nodes[s.names[w.path]] != Node(File(w.content), s.nodes[s.names[w.path]].mode, now)
  }

  lemma OverwriteNames(s: Store, w: Write, q: Path)
    requires Valid(s) && HoldsFile(s, w.path)
    ensures !NewName(s, [w], q) && !Replaced(s, [w], q)
  {
    if q <= w.path { AncestorsExist(s, w.path, q); }
  }

  lemma OverwriteDisturbs(s: Store, w: Write, now: int, ino: nat)
    requires Valid(s) && HoldsFile(s, w.path)
    ensures Disturbs(s, [w], ino, now) <==> OverwriteChanges(s, w, now) && ino == s.names[w.path]
  {
    LastOfOne(s, w, ino);
    forall q ensures !Replaced(s, [w], q) { OverwriteNames(s, w, q); }
  }

  /** What an overwrite may leave stale beyond the file's own path: the file under its
      names and in its listing, and its directory. */
  lemma OverwriteContained(s: Store, w: Write, now: int, cov: iset<Path>)
    requires Valid(s) && w.path != ROOT && HoldsFile(s, w.path) && forall q :: q in cov <==> q == w.path
    ensures WritesContained(s, [w], now, cov) <==>
      && s.nodes[s.names[w.path]] == Node(File(w.content), s.nodes[s.names[w.path]].mode, now)
      && s.nodes[s.names[Parent(w.path)]].stamp == now
  {
    var p, d := w.path, Parent(w.path);
    var ino := s.names[p];
    StagedInParent(s, w);
    forall q ensures !NewName(s, [w], q) { OverwriteNames(s, w, q); }
    forall i ensures Disturbs(s, [w], i, now) <==> OverwriteChanges(s, w, now) && i == ino {
      OverwriteDisturbs(s, w, now, i);
    }
    assert !PointCovered(p, cov) && !Enclosed(s, ino, cov);
    forall e ensures Freshened(s, [w], e, now) <==> e == d && s.nodes[s.names[d]].stamp != now {
      FreshenedByOne(s, w, now, e);
    }
  }

  /** An overwrite names only the file: the listing that shows the file keeps its names but
      goes stale in the file's own fields, and the directory goes stale in its own. Every
      other read stays valid if and only if nothing changed, times included. */
  lemma OverwriteReported(s: Store, w: Write, now: int, digest: string -> string)
    requires Valid(s) && w.path != ROOT && HoldsFile(s, w.path)
    ensures ApplyWrites(s, [w], now).Some?
    ensures var t, d, node := ApplyWrites(s, [w], now).value, Parent(w.path), s.nodes[s.names[w.path]];
      && Entries(t, d).Keys == Entries(s, d).Keys
      && (Kept(s, t, Cover(WritesReport(s, [w], digest)))
          <==> node == Node(File(w.content), node.mode, now) && s.nodes[s.names[d]].stamp == now)
  {
    var cov := Cover(WritesReport(s, [w], digest));
    OneApplies(s, w, now);
    forall q ensures q in cov <==> q == w.path { OneWriteCover(s, w, digest, q); }
    WritesKeptIffContained(s, [w], now, cov);
    OverwriteContained(s, w, now, cov);
    SameChildren(s, ApplyWrites(s, [w], now).value, Parent(w.path));
  }

  lemma SameChildren(s: Store, t: Store, d: Path)
    requires Valid(s) && Valid(t) && t.names == s.names
    ensures Entries(t, d).Keys == Entries(s, d).Keys
  {
  }
}
