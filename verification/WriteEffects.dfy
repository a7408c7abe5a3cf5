/** What a list of writes leaves at the paths it names, and when a write is refused. */
module WriteEffects {
  import opened Prelude
  import opened Paths
  import opened Namespace
  import opened Mutations
  import opened Containment
  import opened DirectoryTimes
  import opened MutationEffects
  import opened Writes

  /** A write is refused if and only if it names a directory, or a name below something
      that is not one. */
  lemma WriteRefusedIff(s: Store, w: Write, now: int)
    requires Valid(s) && w.path != ROOT
    ensures ApplyWrite(s, w, now).None? <==> IsDir(s, w.path) || (w.path !in s.names && Blocked(s, Parent(w.path)))
  {
    MakeDirsRefusedIff(s, Parent(w.path), now);
  }

  // ---- what was made stays as it was made ----------------------------------

  /** A file, or a directory made at `now`. */
  predicate Made(node: Node, now: int) {
    node.kind.File? || (node.kind.Directory? && node.stamp == now)
  }

  lemma OnlyName(s: Store, u: Store, q: Path, node: Node, p: Path)
    requires Valid(u) && Fresh(s, u, q, node) && p in u.names && u.names[p] == u.names[q]
    ensures p == q
  {
    var names := NamesOf(u, u.names[q]);
    assert p in names && q in names;
    if node.kind.Directory? {
      assert IsDir(u, q);
    } else {
      OfOne(names, p, q);
    }
  }

  lemma OfOne(names: set<Path>, p: Path, q: Path)
    requires |names| == 1 && p in names && q in names
    ensures p == q
  {
    var rest := names - {p};
    assert |rest| == 0;
    assert q !in rest;
  }

  lemma FreshUnderCreation(s: Store, u: Store, t: Store, w: Write, now: int, q: Path, node: Node)
    requires Valid(u) && w.path != ROOT && w.path !in u.names && Fresh(s, u, q, node) && Made(node, now)
    requires CreateEntry(u, w.path, NewFile(w, now), now) == Some(t)
    ensures Fresh(s, t, q, node)
  {
    var d, p, ino := Parent(w.path), w.path, u.names[q];
    var v := MakeDirs(u, d, now).value;
    MakeDirsExtends(u, d, now);
    assert !AtOrBelow(d, p);
    AddEntryExtends(v, p, NewFile(w, now), now);
    ExtendsTransitive(u, v, t);
    CreateEntryRestamps(u, p, NewFile(w, now), now);
    CarriedByExtends(u, t, q);
    assert t.nodes[ino].stamp == node.stamp by {
      if node.kind.File? { assert ino !in InodesOf(u, {Nearest(u, d)}); }
    }
    assert NamesOf(t, ino) == NamesOf(u, ino);
  }

  lemma FreshUnderOverwrite(s: Store, u: Store, w: Write, now: int, q: Path, node: Node)
    requires Valid(u) && HoldsFile(u, w.path) && q != w.path && Fresh(s, u, q, node) && Made(node, now)
    ensures Fresh(s, Touch(Overwrite(u, w.path, w.content, now), Parent(w.path), now), q, node)
  {
    var v := Overwrite(u, w.path, w.content, now);
    var t := Touch(v, Parent(w.path), now);
    if u.names[w.path] == u.names[q] { OnlyName(s, u, q, node, w.path); }
    assert t.names == u.names && NamesOf(t, u.names[q]) == NamesOf(u, u.names[q]);
    assert t.nodes[u.names[q]] == node;
  }

  lemma FreshUnderReplacement(s: Store, u: Store, w: Write, now: int, q: Path, node: Node)
    requires Valid(u) && w.path in u.names && q != w.path && Fresh(s, u, q, node) && Made(node, now)
    ensures Fresh(s, AddEntry(u, w.path, NewFile(w, now), now), q, node)
  {
    var t, ino := AddEntry(u, w.path, NewFile(w, now), now), u.names[q];
    if u.names[w.path] == ino { OnlyName(s, u, q, node, w.path); }
    ReboundNames(u, w.path, NewFile(w, now), now, ino);
    RestampedNode(u, w.path, NewFile(w, now), now, ino);
  }

  lemma ReboundNames(u: Store, p: Path, node: Node, now: int, ino: nat)
    requires Valid(u) && p in u.names && u.names[p] != ino && ino < |u.nodes|
    ensures NamesOf(AddEntry(u, p, node, now), ino) == NamesOf(u, ino)
  {
    AddEntryNames(u, p, node, now);
    var names := u.names[p := |u.nodes|];
    forall x ensures x in names && names[x] == ino <==> x in u.names && u.names[x] == ino {}
  }

  lemma AddEntryNames(u: Store, p: Path, node: Node, now: int)
    ensures AddEntry(u, p, node, now).names == u.names[p := |u.nodes|]
  {
  }

  lemma RestampedNode(u: Store, p: Path, node: Node, now: int, ino: nat)
    requires ino < |u.nodes| && Made(u.nodes[ino], now)
    ensures var t := AddEntry(u, p, node, now);
      ino < |t.nodes| && t.nodes[ino] == u.nodes[ino]
  {
  }

  lemma FreshStays(s: Store, u: Store, w: Write, now: int, q: Path, node: Node)
    requires Valid(u) && w.path != ROOT && ApplyWrite(u, w, now).Some?
    requires q != w.path && Fresh(s, u, q, node) && Made(node, now)
    ensures Fresh(s, ApplyWrite(u, w, now).value, q, node)
  {
    if w.path !in u.names {
      FreshUnderCreation(s, u, ApplyWrite(u, w, now).value, w, now, q, node);
    } else if HoldsFile(u, w.path) {
      FreshUnderOverwrite(s, u, w, now, q, node);
    } else {
      FreshUnderReplacement(s, u, w, now, q, node);
    }
  }

  // ---- what the last write makes -------------------------------------------

  lemma RebindFresh(s: Store, u: Store, p: Path, node: Node, now: int)
    requires Valid(u) && p != ROOT && p in u.names && !node.kind.Directory? && |s.nodes| <= |u.nodes|
    ensures Fresh(s, AddEntry(u, p, node, now), p, node)
  {
    var t := AddEntry(u, p, node, now);
    assert Parent(p) != p;
    forall x ensures x in NamesOf(t, |u.nodes|) <==> x == p {}
    assert NamesOf(t, |u.nodes|) == {p};
    assert t.nodes[|u.nodes|] == node;
  }

  lemma FileWas(s: Store, u: Store, ws: seq<Write>, now: int, p: Path)
    requires Wrote(s, u, ws, now) && HoldsFile(u, p) && !Written(ws, p)
    ensures HoldsFile(s, p)
  {
    TargetIsOld(s, u, ws, now, p);
    assert u.nodes[s.names[p]] == NodeAfter(s, ws, s.names[p], now);
  }

  lemma LastWriteHolds(s: Store, u: Store, ws: seq<Write>, w: Write, now: int)
    requires Wrote(s, u, ws, now) && w.path != ROOT && !Written(ws, w.path) && ApplyWrite(u, w, now).Some?
    requires !HoldsFile(s, w.path)
    ensures Fresh(s, ApplyWrite(u, w, now).value, w.path, NewFile(w, now))
  {
    if w.path !in u.names {
      CreateEntryLeaves(u, w.path, NewFile(w, now), now);
    } else if HoldsFile(u, w.path) {
      FileWas(s, u, ws, now, w.path);
    } else {
      RebindFresh(s, u, w.path, NewFile(w, now), now);
    }
  }

  /** A write that finds no file at its path leaves one there, under this one name, with
      the contents, the mode and the time it was written with. */
  lemma {:induction false} WrittenFileHolds(s: Store, ws: seq<Write>, now: int, i: nat)
    requires Valid(s) && WellFormedWrites(ws) && ApplyWrites(s, ws, now).Some?
    requires i < |ws| && !HoldsFile(s, ws[i].path)
    ensures Fresh(s, ApplyWrites(s, ws, now).value, ws[i].path, Node(File(ws[i].content), ws[i].mode, now))
    decreases |ws|
  {
    var init, w := SplitWrites(ws);
    var u := ApplyWrites(s, init, now).value;
    WritesWrote(s, init, now);
    if i == |init| {
      LastWriteHolds(s, u, init, w, now);
    } else {
      WrittenFileHolds(s, init, now, i);
      assert init[i] == ws[i] && ws[i].path != ws[|init|].path;
      FreshStays(s, u, w, now, ws[i].path, NewFile(ws[i], now));
    }
  }

  /** A file that is there keeps inode and mode, and holds what was last written under any
      of its names. */
  lemma RewrittenFileHolds(s: Store, ws: seq<Write>, now: int, i: nat)
    requires Valid(s) && WellFormedWrites(ws) && ApplyWrites(s, ws, now).Some?
    requires i < |ws| && HoldsFile(s, ws[i].path)
    requires forall j :: i < j < |ws| && ws[j].path in s.names ==> s.names[ws[j].path] != s.names[ws[i].path]
    ensures var t, ino := ApplyWrites(s, ws, now).value, s.names[ws[i].path];
      && ws[i].path in t.names && t.names[ws[i].path] == ino && ino < |t.nodes|
      && t.nodes[ino] == Node(File(ws[i].content), s.nodes[ino].mode, now)
  {
    var t, ino := ApplyWrites(s, ws, now).value, s.names[ws[i].path];
    WritesWrote(s, ws, now);
    LastIs(s, ws, i);
    assert NameAfter(s, t, ws, ws[i].path);
    assert t.nodes[ino] == NodeAfter(s, ws, ino, now);
  }

  lemma {:induction false} LastIs(s: Store, ws: seq<Write>, i: nat)
    requires i < |ws| && ws[i].path in s.names
    requires forall j :: i < j < |ws| && ws[j].path in s.names ==> s.names[ws[j].path] != s.names[ws[i].path]
    ensures LastContent(s, ws, s.names[ws[i].path]) == Some(ws[i].content)
    decreases |ws|
  {
    if i < |ws| - 1 { LastIs(s, ws[..|ws| - 1], i); }
  }

  // ---- directories made on the way -----------------------------------------

  lemma MissingMade(s: Store, u: Store, w: Write, now: int, q: Path)
    requires Valid(u) && w.path != ROOT && ApplyWrite(u, w, now).Some? && |s.nodes| <= |u.nodes|
    requires q in Missing(u, Parent(w.path))
    ensures FreshDirectory(s, ApplyWrite(u, w, now).value, q, now)
  {
    if w.path in u.names { AncestorsExist(u, Parent(w.path), q); }
    CreateEntryLeaves(u, w.path, NewFile(w, now), now);
  }

  /** Each directory a list of writes makes on the way is an ordinary new one. */
  lemma {:induction false} MadeDirectoryHolds(s: Store, ws: seq<Write>, now: int, q: Path)
    requires Valid(s) && WellFormedWrites(ws) && ApplyWrites(s, ws, now).Some?
    requires Leading(ws, q) && q !in s.names && !Written(ws, q)
    ensures FreshDirectory(s, ApplyWrites(s, ws, now).value, q, now)
    decreases |ws|
  {
    var init, w := SplitWrites(ws);
    var u := ApplyWrites(s, init, now).value;
    WritesWrote(s, init, now);
    LeadingSnoc(init, w, q);
    if Leading(init, q) {
      MadeDirectoryHolds(s, init, now, q);
      FreshStays(s, u, w, now, q, Node(Directory, DEFAULT_DIRECTORY_MODE, now));
    } else {
      MadeByLast(s, u, init, w, now, q);
    }
  }

  lemma MadeByLast(s: Store, u: Store, ws: seq<Write>, w: Write, now: int, q: Path)
    requires Wrote(s, u, ws, now) && w.path != ROOT && ApplyWrite(u, w, now).Some?
    requires !Leading(ws, q) && q !in s.names && q <= w.path && q != w.path
    ensures FreshDirectory(s, ApplyWrite(u, w, now).value, q, now)
  {
    assert NameAfter(s, u, ws, q);
    PrefixStep(q, w.path);
    MissingMade(s, u, w, now, q);
  }
}
