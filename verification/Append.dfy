/** Appending to a file through the gateway when the store has no native append:
    the base is read back, the tail is put behind it, the whole is checked against
    the declared hash and installed under a compare-and-swap on the base. */
module Append {

  import opened Prelude

  type Byte = x: int | 0 <= x < 256

  type Bytes = seq<Byte>

  /** What the store holds at one path. */
  datatype Node = Absent | Directory | Symlink(target: string) | File(content: Bytes)

  /** Digests are ideal: each is the value it was computed from, so no two values
      share one. The tag keeps link digests apart from content digests. */
  datatype Digest = ContentHash(content: Bytes) | LinkHash(target: string)

  /** `mutationFingerprint` of the metadata at a path. */
  function Fingerprint(n: Node): Option<Digest> {
    match n
    case Absent => None
    case Directory => None
    case Symlink(target) => if target == "" then None else Some(LinkHash(target))
    case File(content) => Some(ContentHash(content))
  }

  function Size(n: Node): nat {
    match n
    case Absent => 0
    case Directory => 0
    case Symlink(target) => |target|
    case File(content) => |content|
  }

  datatype Precondition = Anything | MustBeAbsent | MustBe(digest: Digest)

  /** How the base is read back: range by range, the reply to the `t`-th request for
      `length` bytes at `position` being arbitrary, or in one piece. */
  datatype Source =
    | Ranges(reply: (nat, nat, nat) -> Bytes)
    | Whole(base: Bytes)

  datatype Request = Request(precondition: Precondition, offset: nat, tail: Bytes, declared: Digest)

  datatype Answer = Committed | BadRequest | PreconditionFailed | BaseMismatch | HashMismatch

  const COPY_CHUNK: nat := 8 * 1024 * 1024

  // ---- the early check -----------------------------------------------------

  /** `enforceFingerprintPrecondition`: `None` lets the request through. */
  function Enforce(current: Node, p: Precondition, offset: Option<nat>): Option<Answer> {
    var matches := (p.MustBeAbsent? && current.Absent?) || (p.MustBe? && Fingerprint(current) == Some(p.digest));
    if p.Anything? then None
    else if !matches then Some(PreconditionFailed)
    else if offset.Some? && !current.Absent? && Size(current) != offset.value then Some(BaseMismatch)
    else None
  }

  // ---- reading the base back -----------------------------------------------

  function Length(offset: nat, copied: nat): nat
    requires copied < offset
  {
    if offset - copied < COPY_CHUNK then offset - copied else COPY_CHUNK
  }

  /** The bytes the copy collects from request `t` on, `copied` being already there. */
  function Copied(reply: (nat, nat, nat) -> Bytes, offset: nat, t: nat, copied: nat): Bytes
    decreases offset - copied
  {
    if copied >= offset then []
    else
      var chunk := reply(t, copied, Length(offset, copied));
      if chunk == [] then [] else chunk + Copied(reply, offset, t + 1, copied + |chunk|)
  }

  function Fetched(source: Source, offset: nat): Bytes {
    match source
    case Ranges(reply) => Copied(reply, offset, 0, 0)
    case Whole(base) => if |base| == offset then base else []
  }

  lemma Associative(a: Bytes, b: Bytes, c: Bytes)
    ensures a + (b + c) == a + b + c
  {
  }

  /** The staged file, or `None` when the base did not come to `offset` bytes. The
      loop ends whatever the replies are: an empty one stops it, any other advances. */
  method StageFull(source: Source, offset: nat, tail: Bytes) returns (full: Option<Bytes>)
    ensures full == if |Fetched(source, offset)| == offset then Some(Fetched(source, offset) + tail) else None
  {
    var staged: Bytes := [];
    var copied := 0;
    match source {
    case Ranges(reply) =>
      var t := 0;
      while copied < offset
        invariant copied == |staged|
        invariant Fetched(source, offset) == staged + Copied(reply, offset, t, copied)
        decreases offset - copied
      {
        var chunk := reply(t, copied, Length(offset, copied));
        if chunk == [] { break; }
        Associative(staged, chunk, Copied(reply, offset, t + 1, copied + |chunk|));
        staged := staged + chunk;
        copied := copied + |chunk|;
        t := t + 1;
      }
      assert staged == Fetched(source, offset);
    case Whole(base) =>
      if |base| == offset {
        staged := base;
        copied := offset;
      }
    }
    if copied != offset { return None; }
    return Some(staged + tail);
  }

  // ---- the whole request ---------------------------------------------------

  /** The answer to an append whose early check saw `seen` and whose install found
      `current`. */
  function Verdict(seen: Node, current: Node, req: Request, source: Source): Answer {
    if !req.precondition.MustBe? then BadRequest
    else
      var early := Enforce(seen, req.precondition, Some(req.offset));
      if early.Some? then early.value
      else
        var base := Fetched(source, req.offset);
        if |base| != req.offset then BaseMismatch
        else if ContentHash(base + req.tail) != req.declared then HashMismatch
        else if Fingerprint(current) != Some(req.precondition.digest) then PreconditionFailed
        else Committed
  }

  function After(seen: Node, current: Node, req: Request, source: Source): Node {
    if Verdict(seen, current, req, source) == Committed then File(Fetched(source, req.offset) + req.tail) else current
  }

  /** One path of a store that installs a file by compare-and-swap. */
  class Entry {
    var node: Node

    constructor (n: Node)
      ensures node == n
    {
      node := n;
    }

    method Install(staged: Bytes, ifMatch: Digest) returns (ok: bool)
      modifies this
      ensures ok <==> Fingerprint(old(node)) == Some(ifMatch)
      ensures node == if ok then File(staged) else old(node)
    {
      ok := Fingerprint(node) == Some(ifMatch);
      if ok { node := File(staged); }
    }

    /** The route and `appendStagedTail`. `seen` is what the early check met, which
        other writers may have replaced by the time of the install. */
    method Append(seen: Node, req: Request, source: Source) returns (answer: Answer)
      modifies this
      ensures answer == Verdict(seen, old(node), req, source)
      ensures node == After(seen, old(node), req, source)
    {
      if !req.precondition.MustBe? { return BadRequest; }
      var early := Enforce(seen, req.precondition, Some(req.offset));
      if early.Some? { return early.value; }
      var full := StageFull(source, req.offset, req.tail);
      if full.None? { return BaseMismatch; }
      if ContentHash(full.value) != req.declared { return HashMismatch; }
      var ok := Install(full.value, req.precondition.digest);
      return if ok then Committed else PreconditionFailed;
    }
  }

  // ---- what an append guarantees -------------------------------------------

  /** All or nothing. A refused append leaves the path alone. A committed one
      replaced a file of exactly `offset` bytes, the one the early check saw, by a
      file with the declared hash that ends in the tail. */
  lemma AppendIsAllOrNothing(seen: Node, current: Node, req: Request, source: Source)
    requires req.precondition.MustBe? ==> req.precondition.digest.ContentHash?
    ensures Verdict(seen, current, req, source) != Committed ==> After(seen, current, req, source) == current
    ensures Verdict(seen, current, req, source) == Committed ==>
              && current.File? && seen == current && |current.content| == req.offset
              && After(seen, current, req, source).File?
              && ContentHash(After(seen, current, req, source).content) == req.declared
              && After(seen, current, req, source).content[req.offset..] == req.tail
  {
    var base := Fetched(source, req.offset);
    assert |base| == req.offset ==> (base + req.tail)[req.offset..] == req.tail;
  }

  /** The early check saw the very file the precondition names. */
  predicate SawBase(seen: Node, req: Request) {
    seen.File? && req.precondition == MustBe(ContentHash(seen.content))
  }

  /** Each refusal tells what was wrong: the request names no base; the base is not, or no
      longer, the one it names; its length, or what was read of it, is not as said; or the
      whole does not have the declared hash. */
  lemma RefusalsTell(seen: Node, current: Node, req: Request, source: Source)
    requires req.precondition.MustBe? ==> req.precondition.digest.ContentHash?
    ensures var answer, read := Verdict(seen, current, req, source), Fetched(source, req.offset);
      && (answer == BadRequest <==> !req.precondition.MustBe?)
      && (answer == BaseMismatch <==>
            SawBase(seen, req) && (|seen.content| != req.offset || |read| != req.offset))
      && (answer == HashMismatch <==>
            && SawBase(seen, req) && |seen.content| == |read| == req.offset
            && ContentHash(read + req.tail) != req.declared)
      && (answer == PreconditionFailed <==>
            && req.precondition.MustBe?
            && (|| !SawBase(seen, req)
                || (|seen.content| == |read| == req.offset && ContentHash(read + req.tail) == req.declared
                    && current != seen)))
  {
  }

  /** Whatever the reads returned, a committed append wrote the old content followed
      by the tail exactly when the declared hash is the hash of just that. */
  lemma CommitsOldThenTail(seen: Node, current: Node, req: Request, source: Source)
    requires Verdict(seen, current, req, source) == Committed && current.File?
    ensures After(seen, current, req, source) == File(current.content + req.tail)
            <==> req.declared == ContentHash(current.content + req.tail)
  {
    AppendIsAllOrNothing(seen, current, req, source);
  }

  /** A declared hash that does not name base and tail can commit a mixture: the
      reads met other bytes than the install did. */
  lemma MisdeclaredHashCommitsOtherBytes()
    ensures exists seen: Node, current: Node, req: Request, source: Source ::
              && Verdict(seen, current, req, source) == Committed
              && current.File? && After(seen, current, req, source) != File(current.content + req.tail)
  {
    var current := File([1]);
    var req := Request(MustBe(ContentHash([1])), 1, [3], ContentHash([2, 3]));
    var source := Whole([2]);
    assert source.base + req.tail == [2, 3];
    assert After(current, current, req, source).content[0] == 2;
    assert (current.content + req.tail)[0] == 1;
    assert Verdict(current, current, req, source) == Committed;
  }

  // ---- a store that holds still --------------------------------------------

  /** A reply is what lies at the position, cut anywhere but before its first byte,
      and no longer than asked. */
  predicate Serves(content: Bytes, position: nat, length: nat, chunk: Bytes) {
    if position >= |content| || length == 0 then chunk == []
    else 0 < |chunk| <= length && position + |chunk| <= |content| && chunk == content[position..position + |chunk|]
  }

  ghost predicate AlwaysServes(reply: (nat, nat, nat) -> Bytes, content: Bytes) {
    forall t: nat, position: nat, length: nat :: Serves(content, position, length, reply(t, position, length))
  }

  ghost predicate Faithful(source: Source, content: Bytes) {
    match source
    case Ranges(reply) => AlwaysServes(reply, content)
    case Whole(base) => base == content
  }

  lemma {:induction false} CopiedSlice(
    reply: (nat, nat, nat) -> Bytes, content: Bytes, offset: nat, t: nat, copied: nat)
    requires AlwaysServes(reply, content) && copied <= offset && copied <= |content|
    ensures Copied(reply, offset, t, copied) == content[copied..if offset < |content| then offset else |content|]
    decreases offset - copied
  {
    if copied < offset {
      var chunk := reply(t, copied, Length(offset, copied));
      assert Serves(content, copied, Length(offset, copied), chunk);
      if chunk != [] {
        CopiedSlice(reply, content, offset, t + 1, copied + |chunk|);
        var end := if offset < |content| then offset else |content|;
        assert content[copied..end] == chunk + content[copied + |chunk|..end];
      }
    }
  }

  lemma FetchedFromStill(source: Source, content: Bytes, offset: nat)
    requires Faithful(source, content)
    ensures |content| == offset ==> Fetched(source, offset) == content
  {
    if source.Ranges? {
      CopiedSlice(source.reply, content, offset, 0, 0);
      assert content[0..|content|] == content;
    }
  }

  /** Against a file nobody else touches from the early check's answer on, whatever
      that check saw and whatever the sizes of the chunks read, an append goes through
      exactly when it saw this very file, names its hash and length and declares the
      hash of the result; and then it wrote content and tail. */
  lemma StillStoreAppends(seen: Node, content: Bytes, req: Request, source: Source)
    requires Faithful(source, content)
    ensures Verdict(seen, File(content), req, source) == Committed <==>
              && seen == File(content)
              && req.precondition == MustBe(ContentHash(content))
              && req.offset == |content|
              && req.declared == ContentHash(content + req.tail)
    ensures Verdict(seen, File(content), req, source) == Committed ==>
              After(seen, File(content), req, source) == File(content + req.tail)
  {
    FetchedFromStill(source, content, req.offset);
  }
}
