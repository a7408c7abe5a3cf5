/** The advisory byte-range lock table of the VFS gateway: `F_SETLK`-style
    locks kept as a list of leased intervals.

    The list is specified against a byte map: `Holding(locks, who, byte)` is
    what `who` holds on one byte of a file, if anything. */
module AdvisoryLocks {
  import opened Prelude

  const LEASE_MS := 45_000
  const MAX_BATCH_ITEMS := 4096

  datatype Kind = Read | Write
  datatype Namespace = Posix | Flock

  /** Who holds a lock, and on what: the key within which ranges are rewritten. */
  datatype Identity = Identity(mount: string, owner: string, namespace: Namespace, file: string)

  /** One stored interval, both ends inclusive. */
  datatype Lock = Lock(who: Identity, start: nat, end: nat, kind: Kind, pid: nat, expiresAt: int)

  /** What the byte map stores for a held byte. */
  datatype Held = Held(kind: Kind, pid: nat, expiresAt: int)

  // ---- the byte map --------------------------------------------------------

  predicate Covers(lock: Lock, who: Identity, byte: nat) {
    lock.who == who && lock.start <= byte <= lock.end
  }

  function Holding(locks: seq<Lock>, who: Identity, byte: nat): (h: Option<Held>)
    ensures h.None? <==> forall lock :: lock in locks ==> !Covers(lock, who, byte)
  {
    if locks == [] then None
    else
      assert forall lock :: lock in locks <==> lock == locks[0] || lock in locks[1..];
      if Covers(locks[0], who, byte) then
        Some(Held(locks[0].kind, locks[0].pid, locks[0].expiresAt))
      else Holding(locks[1..], who, byte)
  }

  /** A byte whose lease has run out counts as free. */
  function Unexpired(h: Option<Held>, now: int): Option<Held> {
    if h.Some? && h.value.expiresAt > now then h else None
  }

  // ---- the list operations -------------------------------------------------

  predicate Overlap(aStart: nat, aEnd: nat, bStart: nat, bEnd: nat) {
    aStart <= bEnd && bStart <= aEnd
  }

  function LiveLocks(locks: seq<Lock>, now: int): (live: seq<Lock>) {
    if locks == [] then []
    else (if locks[0].expiresAt > now then [locks[0]] else []) + LiveLocks(locks[1..], now)
  }

  /** What is left of `lock` once `start..end` is cut out of it. */
  function SubtractRange(lock: Lock, start: nat, end: nat): (out: seq<Lock>) {
    (if lock.start < start then [lock.(end := start - 1)] else [])
    + (if lock.end > end then [lock.(start := end + 1)] else [])
  }

  function Rewritten(lock: Lock, who: Identity, start: nat, end: nat): seq<Lock> {
    if lock.who != who || !Overlap(lock.start, lock.end, start, end) then [lock]
    else SubtractRange(lock, start, end)
  }

  /** The table with `start..end` taken away from `who` (`flatMap`). */
  function Rewrite(locks: seq<Lock>, who: Identity, start: nat, end: nat): seq<Lock> {
    if locks == [] then []
    else Rewritten(locks[0], who, start, end) + Rewrite(locks[1..], who, start, end)
  }

  predicate Blocks(lock: Lock, who: Identity, start: nat, end: nat, kind: Kind) {
    && lock.who.file == who.file
    && lock.who.namespace == who.namespace
    && !(lock.who.mount == who.mount && lock.who.owner == who.owner)
    && Overlap(lock.start, lock.end, start, end)
    && (lock.kind == Write || kind == Write)
  }

  /** The first lock in the way of a request (`Array.prototype.find`). */
  function FirstConflict(locks: seq<Lock>, who: Identity, start: nat, end: nat, kind: Kind): (c: Option<Lock>)
    ensures c.Some? ==> c.value in locks && Blocks(c.value, who, start, end, kind)
    ensures c.None? ==> forall lock :: lock in locks ==> !Blocks(lock, who, start, end, kind)
  {
    if locks == [] then None
    else if Blocks(locks[0], who, start, end, kind) then Some(locks[0])
    else
      assert forall lock :: lock in locks <==> lock == locks[0] || lock in locks[1..];
      FirstConflict(locks[1..], who, start, end, kind)
  }

  /** The names a renewal request lists, within one mount. */
  datatype RenewalKey = RenewalKey(owner: string, namespace: Namespace, file: string)

  predicate Renews(lock: Lock, mount: string, keys: set<RenewalKey>) {
    lock.who.mount == mount && RenewalKey(lock.who.owner, lock.who.namespace, lock.who.file) in keys
  }

  // ---- requests ------------------------------------------------------------

  datatype Operation =
    | Renew(mount: string, keys: set<RenewalKey>)
    | ReleaseMount(mount: string)
    | ReleaseOwner(who: Identity)
    | Get(who: Identity, start: nat, end: nat, kind: Kind)
    | SetLock(who: Identity, start: nat, end: nat, kind: Kind, pid: nat)
    | Unlock(who: Identity, start: nat, end: nat)

  predicate WellFormed(op: Operation) {
    match op
    case Get(_, start, end, _) => start <= end
    case SetLock(_, start, end, _, _) => start <= end
    case Unlock(_, start, end) => start <= end
    case _ => true
  }

  /** The table one request leaves behind. */
  ghost function After(locks: seq<Lock>, op: Operation, now: int): seq<Lock> {
    var live := LiveLocks(locks, now);
    match op
    case Renew(mount, keys) =>
      seq(|live|, i requires 0 <= i < |live| =>
        if Renews(live[i], mount, keys) then live[i].(expiresAt := now + LEASE_MS) else live[i])
    case ReleaseMount(mount) => Filter(live, (lock: Lock) => lock.who.mount != mount)
    case ReleaseOwner(who) => Filter(live, (lock: Lock) => lock.who != who)
    case Get(_, _, _, _) => live
    case Unlock(who, start, end) => Rewrite(live, who, start, end)
    case SetLock(_, _, _, _, _) => AfterSet(live, op, now)
  }

  /** A set on a live table: the caller's locks give way, unless somebody else's do not. */
  function AfterSet(live: seq<Lock>, op: Operation, now: int): seq<Lock>
    requires op.SetLock?
  {
    var replacement := Rewrite(live, op.who, op.start, op.end);
    if FirstConflict(replacement, op.who, op.start, op.end, op.kind).Some? then live
    else replacement + [Lock(op.who, op.start, op.end, op.kind, op.pid, now + LEASE_MS)]
  }

  // ---- safety --------------------------------------------------------------

  /** Two stored locks may share a byte of a file and namespace only as readers
      with different identities. */
  predicate Compatible(a: Lock, b: Lock) {
    a.who.file == b.who.file && a.who.namespace == b.who.namespace
    && Overlap(a.start, a.end, b.start, b.end)
    ==> a.who != b.who && a.kind == Read && b.kind == Read
  }

  ghost predicate Safe(locks: seq<Lock>) {
    && (forall i :: 0 <= i < |locks| ==> locks[i].start <= locks[i].end)
    && (forall i, j :: 0 <= i < j < |locks| ==> Compatible(locks[i], locks[j]))
  }

  // ---- the byte map under the list operations ------------------------------

  lemma {:induction false} HoldingConcat(a: seq<Lock>, b: seq<Lock>, who: Identity, byte: nat)
    ensures Holding(a + b, who, byte) ==
            if Holding(a, who, byte).Some? then Holding(a, who, byte) else Holding(b, who, byte)
  {
    if a == [] {
      assert a + b == b;
    } else {
      HoldingConcat(a[1..], b, who, byte);
      assert (a + b)[1..] == a[1..] + b;
    }
  }

  lemma {:induction false} LiveIsSubsequence(locks: seq<Lock>, now: int)
    ensures forall lock :: lock in LiveLocks(locks, now) <==> lock in locks && lock.expiresAt > now
    ensures |LiveLocks(locks, now)| <= |locks|
    ensures Safe(locks) ==> Safe(LiveLocks(locks, now))
  {
    if locks != [] {
      LiveIsSubsequence(locks[1..], now);
      assert forall lock :: lock in locks <==> lock == locks[0] || lock in locks[1..];
      if Safe(locks) {
        SafeTail(locks);
        if locks[0].expiresAt > now {
          SafeCons(locks[0], LiveLocks(locks[1..], now));
        }
      }
    }
  }

  lemma SafeTail(locks: seq<Lock>)
    requires Safe(locks) && locks != []
    ensures Safe(locks[1..])
    ensures forall lock :: lock in locks[1..] ==> Compatible(locks[0], lock)
  {
    forall i, j | 0 <= i < j < |locks[1..]| ensures Compatible(locks[1..][i], locks[1..][j]) {
      assert Compatible(locks[i + 1], locks[j + 1]);
    }
    forall lock | lock in locks[1..] ensures Compatible(locks[0], lock) {
      var i :| 0 <= i < |locks[1..]| && locks[1..][i] == lock;
      assert Compatible(locks[0], locks[i + 1]);
    }
  }

  lemma SafeCons(head: Lock, rest: seq<Lock>)
    requires Safe(rest) && head.start <= head.end
    requires forall lock :: lock in rest ==> Compatible(head, lock)
    ensures Safe([head] + rest)
  {
    var all := [head] + rest;
    forall i, j | 0 <= i < j < |all| ensures Compatible(all[i], all[j]) {
      assert all[j] == rest[j - 1];
      if i > 0 { assert all[i] == rest[i - 1]; }
    }
  }

  /** Dropping expired entries is, byte by byte, forgetting expired holdings. */
  lemma {:induction false} LiveHolding(locks: seq<Lock>, now: int, who: Identity, byte: nat)
    requires Safe(locks)
    ensures Holding(LiveLocks(locks, now), who, byte) == Unexpired(Holding(locks, who, byte), now)
  {
    if locks != [] {
      SafeTail(locks);
      LiveHolding(locks[1..], now, who, byte);
      HoldingConcat(if locks[0].expiresAt > now then [locks[0]] else [], LiveLocks(locks[1..], now), who, byte);
      if Covers(locks[0], who, byte) {
        assert Holding(locks[1..], who, byte).None?;
      }
    }
  }

  lemma SubtractHolding(lock: Lock, start: nat, end: nat, who: Identity, byte: nat)
    requires start <= end && Overlap(lock.start, lock.end, start, end)
    ensures Holding(SubtractRange(lock, start, end), who, byte) ==
            if start <= byte <= end then None else Holding([lock], who, byte)
  {
    var left := if lock.start < start then [lock.(end := start - 1)] else [];
    var right := if lock.end > end then [lock.(start := end + 1)] else [];
    HoldingConcat(left, right, who, byte);
  }

  /** Cutting a range out of the table clears exactly those bytes of `who`. */
  lemma {:induction false} RewriteHolding(
      locks: seq<Lock>, who: Identity, start: nat, end: nat, k: Identity, byte: nat)
    requires start <= end
    ensures Holding(Rewrite(locks, who, start, end), k, byte) ==
            if k == who && start <= byte <= end then None else Holding(locks, k, byte)
  {
    if locks != [] {
      RewriteHolding(locks[1..], who, start, end, k, byte);
      HoldingConcat(Rewritten(locks[0], who, start, end), Rewrite(locks[1..], who, start, end), k, byte);
      HoldingConcat([locks[0]], locks[1..], k, byte);
      assert [locks[0]] + locks[1..] == locks;
      if Overlap(locks[0].start, locks[0].end, start, end) {
        SubtractHolding(locks[0], start, end, k, byte);
      }
    }
  }

  lemma {:induction false} FilterHolding(locks: seq<Lock>, keep: Lock -> bool, gone: Identity -> bool, k: Identity,
      byte: nat)
    requires forall lock :: lock in locks ==> (keep(lock) <==> !gone(lock.who))
    ensures Holding(Filter(locks, keep), k, byte) == if gone(k) then None else Holding(locks, k, byte)
  {
    if locks != [] {
      FilterHolding(locks[1..], keep, gone, k, byte);
      HoldingConcat(if keep(locks[0]) then [locks[0]] else [], Filter(locks[1..], keep), k, byte);
    }
  }

  /** One request, byte by byte: what the POSIX rules say each byte must hold
      afterwards.  `granted` is whether a set found nothing in its way. */
  function ByteAfter(op: Operation, granted: bool, now: int, k: Identity, byte: nat,
      before: Option<Held>): Option<Held> {
    match op
    case Renew(mount, keys) =>
      if before.Some? && k.mount == mount && RenewalKey(k.owner, k.namespace, k.file) in keys
      then Some(before.value.(expiresAt := now + LEASE_MS)) else before
    case ReleaseMount(mount) => if k.mount == mount then None else before
    case ReleaseOwner(who) => if k == who then None else before
    case Get(_, _, _, _) => before
    case Unlock(who, start, end) => if k == who && start <= byte <= end then None else before
    case SetLock(who, start, end, kind, pid) =>
      if granted && k == who && start <= byte <= end then Some(Held(kind, pid, now + LEASE_MS)) else before
  }

  /** A set is granted when no other (mount, owner) holds, unexpired, a byte of
      the range in a mode that excludes it. */
  ghost predicate Grantable(locks: seq<Lock>, op: Operation, now: int)
    requires op.SetLock?
  {
    forall k: Identity, byte: nat ::
      && k.file == op.who.file && k.namespace == op.who.namespace && k != op.who
      && op.start <= byte <= op.end
      && Unexpired(Holding(locks, k, byte), now).Some?
      ==> op.kind == Read && Holding(locks, k, byte).value.kind == Read
  }

  lemma {:induction false} RenewHolding(live: seq<Lock>, renewed: seq<Lock>, mount: string, keys: set<RenewalKey>,
      now: int, k: Identity, byte: nat)
    requires |renewed| == |live|
    requires forall i :: 0 <= i < |live| ==>
      renewed[i] == if Renews(live[i], mount, keys) then live[i].(expiresAt := now + LEASE_MS) else live[i]
    ensures Holding(renewed, k, byte) == ByteAfter(Renew(mount, keys), true, now, k, byte, Holding(live, k, byte))
  {
    if live != [] {
      RenewHolding(live[1..], renewed[1..], mount, keys, now, k, byte);
    }
  }

  lemma ConflictBlocks(locks: seq<Lock>, op: Operation, now: int, lock: Lock)
    requires Safe(locks) && op.SetLock? && WellFormed(op)
    requires FirstConflict(LiveLocks(locks, now), op.who, op.start, op.end, op.kind) == Some(lock)
    ensures !Grantable(locks, op, now)
  {
    var byte := if lock.start < op.start then op.start else lock.start;
    LiveIsSubsequence(locks, now);
    LiveHolding(locks, now, lock.who, byte);
    HoldingIs(LiveLocks(locks, now), lock, byte);
  }

  lemma NoConflictAt(locks: seq<Lock>, op: Operation, now: int, k: Identity, byte: nat)
    requires Safe(locks) && op.SetLock? && WellFormed(op)
    requires FirstConflict(LiveLocks(locks, now), op.who, op.start, op.end, op.kind).None?
    requires k.file == op.who.file && k.namespace == op.who.namespace && k != op.who
    requires op.start <= byte <= op.end && Unexpired(Holding(locks, k, byte), now).Some?
    ensures op.kind == Read && Holding(locks, k, byte).value.kind == Read
  {
    LiveHolding(locks, now, k, byte);
    var lock := HolderOf(LiveLocks(locks, now), k, byte);
    assert !Blocks(lock, op.who, op.start, op.end, op.kind);
  }

  /** The entry behind a held byte. */
  lemma {:induction false} HolderOf(locks: seq<Lock>, k: Identity, byte: nat) returns (lock: Lock)
    requires Holding(locks, k, byte).Some?
    ensures lock in locks && Covers(lock, k, byte)
    ensures Holding(locks, k, byte) == Some(Held(lock.kind, lock.pid, lock.expiresAt))
  {
    if Covers(locks[0], k, byte) {
      lock := locks[0];
    } else {
      lock := HolderOf(locks[1..], k, byte);
    }
  }

  /** A byte-level reading of `FirstConflict`. */
  lemma ConflictIsOnSomeByte(locks: seq<Lock>, op: Operation, now: int)
    requires Safe(locks) && op.SetLock? && WellFormed(op)
    ensures FirstConflict(LiveLocks(locks, now), op.who, op.start, op.end, op.kind).None? <==> Grantable(locks, op, now)
  {
    var conflict := FirstConflict(LiveLocks(locks, now), op.who, op.start, op.end, op.kind);
    if conflict.Some? {
      ConflictBlocks(locks, op, now, conflict.value);
    } else {
      forall k: Identity, byte: nat |
        && k.file == op.who.file && k.namespace == op.who.namespace && k != op.who
        && op.start <= byte <= op.end
        && Unexpired(Holding(locks, k, byte), now).Some?
        ensures op.kind == Read && Holding(locks, k, byte).value.kind == Read
      {
        NoConflictAt(locks, op, now, k, byte);
      }
    }
  }

  /** In a safe table at most one entry covers a byte for an identity. */
  lemma {:induction false} HoldingIs(locks: seq<Lock>, lock: Lock, byte: nat)
    requires Safe(locks) && lock in locks && lock.start <= byte <= lock.end
    ensures Holding(locks, lock.who, byte) == Some(Held(lock.kind, lock.pid, lock.expiresAt))
  {
    if locks[0] != lock {
      SafeTail(locks);
      assert Compatible(locks[0], lock);
      HoldingIs(locks[1..], lock, byte);
    }
  }

  // ---- get predicts set ----------------------------------------------------

  /** `set` looks for a conflict in the rewritten list and `get` in the list as
      it stands; both find the very same lock. */
  lemma {:induction false} GetPredictsSet(locks: seq<Lock>, who: Identity, start: nat, end: nat, kind: Kind)
    ensures FirstConflict(Rewrite(locks, who, start, end), who, start, end, kind)
         == FirstConflict(locks, who, start, end, kind)
  {
    if locks != [] {
      GetPredictsSet(locks[1..], who, start, end, kind);
      var head := Rewritten(locks[0], who, start, end);
      var tail := Rewrite(locks[1..], who, start, end);
      if locks[0].who == who {
        SkipOwn(head, tail, who, start, end, kind);
      } else {
        assert (head + tail)[1..] == tail;
      }
    }
  }

  lemma {:induction false} SkipOwn(own: seq<Lock>, rest: seq<Lock>, who: Identity, start: nat, end: nat, kind: Kind)
    requires forall lock :: lock in own ==> lock.who == who
    ensures FirstConflict(own + rest, who, start, end, kind) == FirstConflict(rest, who, start, end, kind)
  {
    if own == [] {
      assert own + rest == rest;
    } else {
      assert (own + rest)[1..] == own[1..] + rest;
      SkipOwn(own[1..], rest, who, start, end, kind);
    }
  }

  // ---- the refinement ------------------------------------------------------

  /** After a set the range is the caller's, or nothing changed. */
  lemma SetHolding(live: seq<Lock>, op: Operation, now: int, k: Identity, byte: nat)
    requires op.SetLock? && WellFormed(op)
    ensures var free := FirstConflict(live, op.who, op.start, op.end, op.kind).None?;
      Holding(AfterSet(live, op, now), k, byte) == ByteAfter(op, free, now, k, byte, Holding(live, k, byte))
  {
    GetPredictsSet(live, op.who, op.start, op.end, op.kind);
    RewriteHolding(live, op.who, op.start, op.end, k, byte);
    HoldingConcat(Rewrite(live, op.who, op.start, op.end),
                  [Lock(op.who, op.start, op.end, op.kind, op.pid, now + LEASE_MS)], k, byte);
  }

  /** The interval table refines the byte map: every request leaves every byte of
      every identity exactly as `ByteAfter` prescribes, and a set is granted
      exactly when the byte map allows it. */
  lemma TableRefinesByteMap(locks: seq<Lock>, op: Operation, now: int, k: Identity, byte: nat)
    requires Safe(locks) && WellFormed(op)
    ensures Holding(After(locks, op, now), k, byte) ==
            ByteAfter(op, op.SetLock? && Grantable(locks, op, now), now, k, byte,
                      Unexpired(Holding(locks, k, byte), now))
  {
    var live := LiveLocks(locks, now);
    LiveHolding(locks, now, k, byte);
    match op
    case Renew(mount, keys) =>
      RenewHolding(live, After(locks, op, now), mount, keys, now, k, byte);
    case ReleaseMount(mount) =>
      FilterHolding(live, (lock: Lock) => lock.who.mount != mount, (w: Identity) => w.mount == mount, k, byte);
    case ReleaseOwner(who) =>
      FilterHolding(live, (lock: Lock) => lock.who != who, (w: Identity) => w == who, k, byte);
    case Get(_, _, _, _) =>
    case Unlock(who, start, end) =>
      RewriteHolding(live, who, start, end, k, byte);
    case SetLock(_, _, _, _, _) =>
      ConflictIsOnSomeByte(locks, op, now);
      SetHolding(live, op, now, k, byte);
  }

  // ---- safety is kept ------------------------------------------------------

  /** `piece` is part of `whole`: same holder, mode and lease, narrower range. */
  predicate PieceOf(piece: Lock, whole: Lock) {
    && piece == whole.(start := piece.start, end := piece.end)
    && whole.start <= piece.start <= piece.end <= whole.end
  }

  /** At most two pieces in front of a safe table they go with. */
  lemma SafePieces(head: seq<Lock>, tail: seq<Lock>)
    requires Safe(head) && Safe(tail) && |head| <= 2
    requires forall p, q :: p in head && q in tail ==> Compatible(p, q)
    ensures Safe(head + tail)
  {
    if |head| == 0 {
      assert head + tail == tail;
    } else if |head| == 1 {
      SafeCons(head[0], tail);
      assert head == [head[0]];
    } else {
      SafeCons(head[1], tail);
      assert Compatible(head[0], head[1]);
      assert forall q :: q in [head[1]] + tail ==> q == head[1] || q in tail;
      SafeCons(head[0], [head[1]] + tail);
      assert head + tail == [head[0]] + ([head[1]] + tail);
    }
  }

  lemma {:induction false} RewriteGivesPieces(locks: seq<Lock>, who: Identity, start: nat, end: nat)
    requires Safe(locks) && start <= end
    ensures forall p :: p in Rewrite(locks, who, start, end) ==>
      exists lock :: lock in locks && PieceOf(p, lock)
    ensures forall p :: p in Rewrite(locks, who, start, end) && p.who == who ==>
      !Overlap(p.start, p.end, start, end)
    ensures Safe(Rewrite(locks, who, start, end))
  {
    if locks != [] {
      SafeTail(locks);
      RewriteGivesPieces(locks[1..], who, start, end);
      var head := Rewritten(locks[0], who, start, end);
      var tail := Rewrite(locks[1..], who, start, end);
      forall p | p in head ensures PieceOf(p, locks[0]) {}
      forall p, q | p in head && q in tail ensures Compatible(p, q) {
        var lock :| lock in locks[1..] && PieceOf(q, lock);
        assert Compatible(locks[0], lock);
      }
      SafePieces(head, tail);
    }
  }

  lemma {:induction false} SafeAppend(locks: seq<Lock>, last: Lock)
    requires Safe(locks) && last.start <= last.end
    requires forall lock :: lock in locks ==> Compatible(lock, last)
    ensures Safe(locks + [last])
  {
    var all := locks + [last];
    forall i, j | 0 <= i < j < |all| ensures Compatible(all[i], all[j]) {
      assert all[i] == locks[i];
    }
  }

  lemma {:induction false} FilterSafe(locks: seq<Lock>, keep: Lock -> bool)
    requires Safe(locks)
    ensures Safe(Filter(locks, keep))
  {
    if locks != [] {
      SafeTail(locks);
      FilterSafe(locks[1..], keep);
      if keep(locks[0]) { SafeCons(locks[0], Filter(locks[1..], keep)); }
    }
  }

  /** Every request keeps the table safe, whatever the clock says. */
  lemma RequestKeepsSafe(locks: seq<Lock>, op: Operation, now: int)
    requires Safe(locks) && WellFormed(op)
    ensures Safe(After(locks, op, now))
  {
    var live := LiveLocks(locks, now);
    LiveIsSubsequence(locks, now);
    match op
    case Renew(mount, keys) =>
      var renewed := After(locks, op, now);
      forall i, j | 0 <= i < j < |renewed| ensures Compatible(renewed[i], renewed[j]) {
        assert Compatible(live[i], live[j]);
      }
    case ReleaseMount(mount) => FilterSafe(live, (lock: Lock) => lock.who.mount != mount);
    case ReleaseOwner(who) => FilterSafe(live, (lock: Lock) => lock.who != who);
    case Get(_, _, _, _) =>
    case Unlock(who, start, end) => RewriteGivesPieces(live, who, start, end);
    case SetLock(who, start, end, kind, pid) =>
      RewriteGivesPieces(live, who, start, end);
      var replacement := Rewrite(live, who, start, end);
      if FirstConflict(replacement, who, start, end, kind).None? {
        SafeAppend(replacement, Lock(who, start, end, kind, pid, now + LEASE_MS));
      }
  }

  // ---- growth --------------------------------------------------------------

  lemma {:induction false} RewriteGrowth(locks: seq<Lock>, who: Identity, start: nat, end: nat)
    requires Safe(locks) && start <= end
    ensures |Rewrite(locks, who, start, end)| <= |locks| + 1
    ensures (forall lock :: lock in locks && lock.who == who ==> !(lock.start < start && end < lock.end))
            ==> |Rewrite(locks, who, start, end)| <= |locks|
  {
    if locks != [] {
      SafeTail(locks);
      RewriteGrowth(locks[1..], who, start, end);
      var head := locks[0];
      if head.who == who && head.start < start && end < head.end {
        // A second straddling lock would overlap this one.
        forall lock | lock in locks[1..] && lock.who == who
          ensures !(lock.start < start && end < lock.end)
        {
          assert Compatible(head, lock);
        }
        assert head in locks;
      } else {
        assert forall lock :: lock in locks[1..] ==> lock in locks;
      }
    }
  }

  /** One set adds at most two entries, one unlock at most one, and every other
      request none. */
  lemma RequestGrowth(locks: seq<Lock>, op: Operation, now: int)
    requires Safe(locks) && WellFormed(op)
    ensures |After(locks, op, now)| <= |locks| + (if op.SetLock? then 2 else if op.Unlock? then 1 else 0)
  {
    LiveIsSubsequence(locks, now);
    match op
    case Unlock(who, start, end) => RewriteGrowth(LiveLocks(locks, now), who, start, end);
    case SetLock(who, start, end, _, _) => RewriteGrowth(LiveLocks(locks, now), who, start, end);
    case _ =>
  }

  // ---- whole runs ----------------------------------------------------------

  /** A request together with the clock reading it is served at. */
  datatype Timed = Timed(op: Operation, now: int)

  ghost function Run(locks: seq<Lock>, requests: seq<Timed>): seq<Lock>
    decreases |requests|
  {
    if requests == [] then locks
    else Run(After(locks, requests[0].op, requests[0].now), requests[1..])
  }

  /** From an empty table, after any requests at any clock readings: no two
      holders share a byte unless both only read it, no identity holds a byte
      twice, no range is empty, and `n` requests leave at most `2 * n` entries. */
  lemma {:induction false} EveryRunIsSafe(locks: seq<Lock>, requests: seq<Timed>)
    requires Safe(locks)
    requires forall i :: 0 <= i < |requests| ==> WellFormed(requests[i].op)
    ensures Safe(Run(locks, requests))
    ensures |Run(locks, requests)| <= |locks| + 2 * |requests|
    decreases |requests|
  {
    if requests != [] {
      RequestKeepsSafe(locks, requests[0].op, requests[0].now);
      RequestGrowth(locks, requests[0].op, requests[0].now);
      EveryRunIsSafe(After(locks, requests[0].op, requests[0].now), requests[1..]);
    }
  }

  // ---- runs of the byte map ------------------------------------------------

  /** What each identity holds at each byte, with no table behind it. */
  type ByteMap = (Identity, nat) -> Option<Held>

  ghost predicate Represents(locks: seq<Lock>, m: ByteMap) {
    forall k: Identity, byte: nat :: m(k, byte) == Holding(locks, k, byte)
  }

  /** `Grantable`, asked of the byte map. */
  ghost predicate Allows(m: ByteMap, op: Operation, now: int)
    requires op.SetLock?
  {
    forall k: Identity, byte: nat ::
      && k.file == op.who.file && k.namespace == op.who.namespace && k != op.who
      && op.start <= byte <= op.end
      && Unexpired(m(k, byte), now).Some?
      ==> op.kind == Read && m(k, byte).value.kind == Read
  }

  ghost function ByteStep(m: ByteMap, r: Timed): ByteMap {
    var granted := r.op.SetLock? && Allows(m, r.op, r.now);
    (k: Identity, byte: nat) => ByteAfter(r.op, granted, r.now, k, byte, Unexpired(m(k, byte), r.now))
  }

  ghost function ByteRun(m: ByteMap, requests: seq<Timed>): ByteMap
    decreases |requests|
  {
    if requests == [] then m else ByteRun(ByteStep(m, requests[0]), requests[1..])
  }

  lemma StepRepresents(locks: seq<Lock>, m: ByteMap, r: Timed)
    requires Safe(locks) && WellFormed(r.op) && Represents(locks, m)
    ensures Represents(After(locks, r.op, r.now), ByteStep(m, r))
  {
    if r.op.SetLock? { assert Allows(m, r.op, r.now) <==> Grantable(locks, r.op, r.now); }
    forall k: Identity, byte: nat ensures ByteStep(m, r)(k, byte) == Holding(After(locks, r.op, r.now), k, byte) {
      TableRefinesByteMap(locks, r.op, r.now, k, byte);
    }
  }

  /** Whole runs refine, too: after any requests at any clock readings the table holds
      at every byte what running the byte map alone would have left there. */
  lemma {:induction false} RunRefinesByteMap(locks: seq<Lock>, m: ByteMap, requests: seq<Timed>)
    requires Safe(locks) && Represents(locks, m)
    requires forall i :: 0 <= i < |requests| ==> WellFormed(requests[i].op)
    ensures Represents(Run(locks, requests), ByteRun(m, requests))
    decreases |requests|
  {
    if requests != [] {
      var r := requests[0];
      StepRepresents(locks, m, r);
      RequestKeepsSafe(locks, r.op, r.now);
      RunRefinesByteMap(After(locks, r.op, r.now), ByteStep(m, r), requests[1..]);
    }
  }

  // ---- mutual exclusion ----------------------------------------------------

  /** Mutual exclusion read off the byte map: in every reachable table a byte
      held for writing is held by nobody else in that file and namespace. */
  lemma WriterExcludesEveryone(requests: seq<Timed>, a: Identity, b: Identity, byte: nat)
    requires forall i :: 0 <= i < |requests| ==> WellFormed(requests[i].op)
    requires a.file == b.file && a.namespace == b.namespace && a != b
    ensures var table := Run([], requests);
            Holding(table, a, byte).Some? && Holding(table, a, byte).value.kind == Write
            ==> Holding(table, b, byte).None?
  {
    EveryRunIsSafe([], requests);
    SafeTableExcludes(Run([], requests), a, b, byte);
  }

  lemma StoredCompatible(table: seq<Lock>, la: Lock, lb: Lock)
    requires Safe(table) && la in table && lb in table && la != lb
    ensures Compatible(la, lb) || Compatible(lb, la)
  {
    var i :| 0 <= i < |table| && table[i] == la;
    var j :| 0 <= j < |table| && table[j] == lb;
    if i < j { assert Compatible(table[i], table[j]); } else { assert Compatible(table[j], table[i]); }
  }

  lemma SafeTableExcludes(table: seq<Lock>, a: Identity, b: Identity, byte: nat)
    requires Safe(table) && a.file == b.file && a.namespace == b.namespace && a != b
    ensures Holding(table, a, byte).Some? && Holding(table, a, byte).value.kind == Write
            ==> Holding(table, b, byte).None?
  {
    if Holding(table, a, byte).Some? && Holding(table, b, byte).Some? {
      var la := HolderOf(table, a, byte);
      var lb := HolderOf(table, b, byte);
      StoredCompatible(table, la, lb);
    }
  }
}
