/** The lock coordinator in front of its in-memory state store: request
    validation, then one transaction on the requesting workspace's lock list. */
module AdvisoryLockTable {
  import opened Prelude
  import opened AdvisoryLocks

  // ---- the wire request ----------------------------------------------------

  datatype Action = GetAction | SetAction | ReleaseOwnerAction | RenewOwnersAction
                  | RenewMountAction | ReleaseMountAction | UnsupportedAction
  datatype NamespaceField = Absent | Named(namespace: Namespace) | Unrecognised
  datatype KindField = LockKind(kind: Kind) | UnlockKind | UnrecognisedKind

  datatype RawIdentity =
    | NotAnObject
    | RawIdentity(lockOwner: Option<string>, fileId: Option<string>, namespace: NamespaceField)

  datatype Request = Request(
    action: Action,
    mountId: Option<string>,
    lockOwner: Option<string>,
    namespace: NamespaceField,
    fileId: Option<string>,
    identities: Option<seq<RawIdentity>>,
    start: Option<string>,
    end: Option<string>,
    kind: KindField,
    pid: Option<int>)

  datatype Response = Rejected(status: nat) | Done | Verdict(acquired: bool, conflict: Option<Lock>)
  datatype Decoded = Reject(status: nat) | Accept(op: Operation)

  // ---- field validation ----------------------------------------------------

  const MAX_SAFE_INTEGER := 9007199254740991

  /** White space and line terminators as `String.prototype.trim` strips them. */
  predicate IsTrimmed(c: char) {
    var code := c as int;
    9 <= code <= 13 || code == 0x20 || code == 0xA0 || code == 0x1680 || 0x2000 <= code <= 0x200A
    || code == 0x2028 || code == 0x2029 || code == 0x202F || code == 0x205F || code == 0x3000 || code == 0xFEFF
  }

  predicate NonEmpty(field: Option<string>) {
    field.Some? && exists i :: 0 <= i < |field.value| && !IsTrimmed(field.value[i])
  }

  /** The code points of white space and line terminators. */
  const WHITE_SPACE: set<int> :=
    {9, 10, 11, 12, 13, 0x20, 0xA0, 0x1680, 0x2000, 0x2001, 0x2002, 0x2003, 0x2004, 0x2005, 0x2006, 0x2007, 0x2008,
     0x2009, 0x200A, 0x2028, 0x2029, 0x202F, 0x205F, 0x3000, 0xFEFF}

  /** A field counts as given if and only if it has some other character. */
  lemma NonEmptyIff(field: Option<string>)
    ensures NonEmpty(field) <==>
      field.Some? && exists i :: 0 <= i < |field.value| && field.value[i] as int !in WHITE_SPACE
  {
    if field.Some? {
      forall i | 0 <= i < |field.value| ensures IsTrimmed(field.value[i]) <==> field.value[i] as int in WHITE_SPACE {
        TrimmedIff(field.value[i]);
      }
    }
  }

  lemma TrimmedIff(c: char)
    ensures IsTrimmed(c) <==> c as int in WHITE_SPACE
  {
  }

  predicate Digits(s: string) {
    forall i :: 0 <= i < |s| ==> '0' <= s[i] <= '9'
  }

  predicate IsDecimal(s: string) {
    s != "" && Digits(s)
  }

  function DecimalValue(s: string): nat
    requires Digits(s)
  {
    if s == "" then 0 else 10 * DecimalValue(s[..|s| - 1]) + (s[|s| - 1] as int - '0' as int)
  }

  function ParseOffset(field: Option<string>): Option<nat> {
    if field.Some? && IsDecimal(field.value) then Some(DecimalValue(field.value)) else None
  }

  // ---- what an offset denotes ----------------------------------------------

  function Digit(d: nat): char
    requires d < 10
  {
    ('0' as int + d) as char
  }

  /** The numeral of `n`, most significant digit first. */
  function Decimal(n: nat): string {
    if n < 10 then [Digit(n)] else Decimal(n / 10) + [Digit(n % 10)]
  }

  function Zeros(k: nat): string {
    seq(k, _ => '0')
  }

  lemma DigitsConcat(a: string, b: string)
    ensures Digits(a + b) <==> Digits(a) && Digits(b)
  {
    var all := a + b;
    if Digits(all) {
      forall i | 0 <= i < |a| ensures '0' <= a[i] <= '9' { assert all[i] == a[i]; }
      forall i | 0 <= i < |b| ensures '0' <= b[i] <= '9' { assert all[|a| + i] == b[i]; }
    }
  }

  lemma DecimalValueSnoc(s: string, c: char)
    requires Digits(s) && '0' <= c <= '9'
    ensures Digits(s + [c]) && DecimalValue(s + [c]) == 10 * DecimalValue(s) + (c as int - '0' as int)
  {
    assert (s + [c])[..|s|] == s;
  }

  lemma {:induction false} NumeralParses(n: nat)
    ensures ParseOffset(Some(Decimal(n))) == Some(n)
  {
    if n < 10 {
      DecimalValueSnoc("", Digit(n));
      assert "" + [Digit(n)] == [Digit(n)];
    } else {
      NumeralParses(n / 10);
      DecimalValueSnoc(Decimal(n / 10), Digit(n % 10));
    }
  }

  lemma {:induction false} LeadingZero(s: string)
    requires Digits(s)
    ensures Digits("0" + s) && DecimalValue("0" + s) == DecimalValue(s)
    decreases |s|
  {
    if s == "" {
      DecimalValueSnoc("", '0');
      assert "" + "0" == "0" + s;
    } else {
      var init, last := LastDigit(s);
      LeadingZero(init);
      DecimalValueSnoc(init, last);
      DecimalValueSnoc("0" + init, last);
      ZeroInFront(init, last);
    }
  }

  lemma ZeroInFront(init: string, last: char)
    ensures ("0" + init) + [last] == "0" + (init + [last])
  {
  }

  lemma LastDigit(s: string) returns (init: string, last: char)
    requires Digits(s) && s != ""
    ensures |init| == |s| - 1 && s == init + [last] && Digits(init) && '0' <= last <= '9'
  {
    init, last := s[..|s| - 1], s[|s| - 1];
  }

  lemma {:induction false} LeadingZeros(k: nat, s: string)
    requires IsDecimal(s)
    ensures ParseOffset(Some(Zeros(k) + s)) == ParseOffset(Some(s))
  {
    if k == 0 {
      assert Zeros(0) + s == s;
    } else {
      LeadingZeros(k - 1, s);
      LeadingZero(Zeros(k - 1) + s);
      assert Zeros(k) + s == "0" + (Zeros(k - 1) + s);
    }
  }

  /** A string of digits is the numeral of its value behind zeros. */
  lemma {:induction false} DigitsAreANumeral(s: string) returns (k: nat)
    requires IsDecimal(s)
    ensures s == Zeros(k) + Decimal(DecimalValue(s))
    decreases |s|
  {
    var init, last := LastDigit(s);
    var value := ValueOf(init, last);
    if init == "" {
      k := 0;
      OneDigit(last);
    } else {
      var j := DigitsAreANumeral(init);
      k := OneMoreDigit(init, j, DecimalValue(init), last);
    }
  }

  lemma ValueOf(init: string, last: char) returns (value: nat)
    requires Digits(init) && '0' <= last <= '9'
    ensures Digits(init + [last]) && value == DecimalValue(init + [last])
    ensures value == 10 * DecimalValue(init) + (last as int - '0' as int)
    ensures init == "" ==> value == last as int - '0' as int
  {
    DecimalValueSnoc(init, last);
    value := DecimalValue(init + [last]);
  }

  lemma OneDigit(c: char)
    requires '0' <= c <= '9'
    ensures "" + [c] == Zeros(0) + Decimal(c as int - '0' as int)
  {
    assert Digit(c as int - '0' as int) == c;
  }

  lemma OneMoreDigit(init: string, j: nat, n: nat, c: char) returns (k: nat)
    requires init == Zeros(j) + Decimal(n) && '0' <= c <= '9'
    ensures init + [c] == Zeros(k) + Decimal(10 * n + (c as int - '0' as int))
  {
    var d := c as int - '0' as int;
    assert Digit(d) == c;
    if n == 0 {
      k := j + 1;
      assert Zeros(j) + "0" == Zeros(j + 1) && Decimal(0) == "0" && Decimal(d) == [c];
    } else {
      k := j;
      NumeralGrows(n, d);
      assert Zeros(j) + Decimal(n) + [c] == Zeros(j) + (Decimal(n) + [c]);
    }
  }

  lemma NumeralGrows(n: nat, d: nat)
    requires n > 0 && d < 10
    ensures Decimal(10 * n + d) == Decimal(n) + [Digit(d)]
  {
    assert (10 * n + d) / 10 == n && (10 * n + d) % 10 == d;
  }

  /** `field` is the numeral of `n`, possibly behind zeros. */
  ghost predicate Writes(field: Option<string>, n: nat) {
    field.Some? && exists k: nat :: field.value == Zeros(k) + Decimal(n)
  }

  /** An offset is accepted if and only if it is the numeral of some number, possibly
      behind zeros, and then it is that number. */
  lemma OffsetIsItsNumeral(field: Option<string>, n: nat)
    ensures ParseOffset(field) == Some(n) <==> Writes(field, n)
  {
    if ParseOffset(field) == Some(n) { var k := DigitsAreANumeral(field.value); }
    if Writes(field, n) {
      var k: nat :| field.value == Zeros(k) + Decimal(n);
      NumeralParses(n);
      LeadingZeros(k, Decimal(n));
    }
  }

  function RequestPid(pid: Option<int>): nat {
    if pid.Some? && 0 <= pid.value <= MAX_SAFE_INTEGER then pid.value else 0
  }

  predicate ValidIdentity(raw: RawIdentity) {
    raw.RawIdentity? && NonEmpty(raw.lockOwner) && NonEmpty(raw.fileId) && raw.namespace.Named?
  }

  function KeyOf(raw: RawIdentity): RenewalKey
    requires ValidIdentity(raw)
  {
    RenewalKey(raw.lockOwner.value, raw.namespace.namespace, raw.fileId.value)
  }

  ghost function RenewalKeys(identities: Option<seq<RawIdentity>>): Option<set<RenewalKey>> {
    if identities.None? || !(1 <= |identities.value| <= MAX_BATCH_ITEMS)
       || exists i :: 0 <= i < |identities.value| && !ValidIdentity(identities.value[i])
    then None
    else Some(set i | 0 <= i < |identities.value| :: KeyOf(identities.value[i]))
  }

  /** Accept a renewal list only as a whole: one bad identity refuses it all. */
  method NormalizeIdentities(identities: Option<seq<RawIdentity>>) returns (keys: Option<set<RenewalKey>>)
    ensures keys == RenewalKeys(identities)
  {
    if identities.None? || |identities.value| == 0 || |identities.value| > MAX_BATCH_ITEMS { return None; }
    var items := identities.value;
    var found: set<RenewalKey> := {};
    for index := 0 to |items|
      invariant forall i :: 0 <= i < index ==> ValidIdentity(items[i])
      invariant found == set i | 0 <= i < index :: KeyOf(items[i])
    {
      if !ValidIdentity(items[index]) { return None; }
      found := found + {KeyOf(items[index])};
    }
    return Some(found);
  }

  /** What a request asks for, or the status it is refused with.  `stat` is the
      stable identity of the file named by the request's path, if it has one. */
  ghost function Decode(stat: Option<string>, request: Request): (d: Decoded)
    ensures d.Accept? ==> WellFormed(d.op)
    ensures d.Reject? ==> d.status in {400, 501}
  {
    if !NonEmpty(request.mountId) then Reject(400)
    else if request.action == RenewMountAction then Reject(400)
    else if request.action == RenewOwnersAction then
      var keys := RenewalKeys(request.identities);
      if keys.None? then Reject(400) else Accept(Renew(request.mountId.value, keys.value))
    else if request.action == ReleaseMountAction then Accept(ReleaseMount(request.mountId.value))
    else if !NonEmpty(request.lockOwner) then Reject(400)
    else if request.namespace.Unrecognised? then Reject(400)
    else
      var namespace := if request.namespace.Absent? then Posix else request.namespace.namespace;
      if request.action == ReleaseOwnerAction then
        if !NonEmpty(request.fileId) then Reject(400)
        else
          var who := Identity(request.mountId.value, request.lockOwner.value, namespace, request.fileId.value);
          Accept(ReleaseOwner(who))
      else if stat.None? then Reject(501)
      else
        var who := Identity(request.mountId.value, request.lockOwner.value, namespace, stat.value);
        DecodeRange(who, request)
  }

  ghost function DecodeRange(who: Identity, request: Request): (d: Decoded)
    ensures d.Accept? ==> WellFormed(d.op)
    ensures d.Reject? ==> d.status == 400
  {
    var start, end := ParseOffset(request.start), ParseOffset(request.end);
    if start.None? || end.None? || end.value < start.value || request.kind.UnrecognisedKind? then Reject(400)
    else if request.action == GetAction then
      if request.kind.UnlockKind? then Reject(400)
      else Accept(Get(who, start.value, end.value, request.kind.kind))
    else if request.action != SetAction then Reject(400)
    else if request.kind.UnlockKind? then Accept(Unlock(who, start.value, end.value))
    else Accept(SetLock(who, start.value, end.value, request.kind.kind, RequestPid(request.pid)))
  }

  // ---- what a request asks for ---------------------------------------------

  /** The request comes from `who`, about the file with identity `file`. */
  ghost predicate From(request: Request, who: Identity, file: Option<string>) {
    && request.mountId == Some(who.mount) && NonEmpty(request.mountId)
    && request.lockOwner == Some(who.owner) && NonEmpty(request.lockOwner)
    && (request.namespace == Named(who.namespace) || (request.namespace == Absent && who.namespace == Posix))
    && file == Some(who.file)
  }

  ghost predicate Spans(request: Request, start: nat, end: nat) {
    Writes(request.start, start) && Writes(request.end, end) && start <= end
  }

  /** The request, read field by field, asks for `op`. */
  ghost predicate Asks(stat: Option<string>, request: Request, op: Operation) {
    match op
    case SetLock(who, start, end, kind, pid) =>
      && request.action == SetAction && request.kind == LockKind(kind)
      && From(request, who, stat) && Spans(request, start, end)
      && (if request.pid.Some? && 0 <= request.pid.value <= MAX_SAFE_INTEGER then request.pid == Some(pid)
          else pid == 0)
    case Unlock(who, start, end) =>
      && request.action == SetAction && request.kind == UnlockKind
      && From(request, who, stat) && Spans(request, start, end)
    case Get(who, start, end, kind) =>
      && request.action == GetAction && request.kind == LockKind(kind)
      && From(request, who, stat) && Spans(request, start, end)
    case ReleaseOwner(who) =>
      request.action == ReleaseOwnerAction && From(request, who, request.fileId) && NonEmpty(request.fileId)
    case ReleaseMount(mount) =>
      request.action == ReleaseMountAction && request.mountId == Some(mount) && NonEmpty(request.mountId)
    case Renew(mount, keys) =>
      && request.action == RenewOwnersAction && request.mountId == Some(mount) && NonEmpty(request.mountId)
      && Lists(request.identities, keys)
  }

  /** Between one and the most identities allowed, every one complete, naming just `keys`. */
  ghost predicate Lists(identities: Option<seq<RawIdentity>>, keys: set<RenewalKey>) {
    && identities.Some? && 1 <= |identities.value| <= MAX_BATCH_ITEMS
    && (forall raw :: raw in identities.value ==>
          raw.RawIdentity? && NonEmpty(raw.lockOwner) && NonEmpty(raw.fileId) && raw.namespace.Named?)
    && (forall key :: key in keys <==> exists raw :: raw in identities.value && ListsKey(raw, key))
  }

  predicate ListsKey(raw: RawIdentity, key: RenewalKey) {
    raw == RawIdentity(Some(key.owner), Some(key.file), Named(key.namespace))
  }

  lemma ListedKeys(identities: Option<seq<RawIdentity>>, keys: set<RenewalKey>)
    ensures RenewalKeys(identities) == Some(keys) <==> Lists(identities, keys)
  {
    if identities.Some? && 1 <= |identities.value| <= MAX_BATCH_ITEMS {
      var items := identities.value;
      if forall raw :: raw in items ==> ValidIdentity(raw) {
        var found := set i | 0 <= i < |items| :: KeyOf(items[i]);
        assert RenewalKeys(identities) == Some(found);
        forall key ensures key in found <==> exists raw :: raw in items && ListsKey(raw, key) {
          if key in found {
            var i :| 0 <= i < |items| && KeyOf(items[i]) == key;
            assert ListsKey(items[i], key);
          }
        }
        if Lists(identities, keys) { assert keys == found; }
      } else {
        var raw :| raw in items && !ValidIdentity(raw);
        assert RenewalKeys(identities).None?;
      }
    }
  }

  lemma RangeAsked(who: Identity, request: Request, op: Operation)
    requires op.SetLock? || op.Unlock? || op.Get?
    requires From(request, who, Some(who.file)) && (request.action == SetAction || request.action == GetAction)
    ensures DecodeRange(who, request) == Accept(op) <==> Asks(Some(who.file), request, op)
  {
    OffsetIsItsNumeral(request.start, op.start);
    OffsetIsItsNumeral(request.end, op.end);
  }

  /** A request is accepted as `op` if and only if its fields ask for `op`. */
  lemma AcceptedIffAsked(stat: Option<string>, request: Request, op: Operation)
    ensures Decode(stat, request) == Accept(op) <==> Asks(stat, request, op)
  {
    match op
    case Renew(_, keys) => ListedKeys(request.identities, keys);
    case ReleaseMount(_) =>
    case ReleaseOwner(_) =>
    case _ =>
      if From(request, op.who, stat) && (request.action == SetAction || request.action == GetAction) {
        RangeAsked(op.who, request, op);
      }
  }

  /** A request that asks for nothing is refused: for want of a stable identity of its
      file when that is looked at, otherwise as malformed. */
  lemma RefusedIffNothingAsked(stat: Option<string>, request: Request)
    ensures Decode(stat, request).Reject? <==> forall op :: !Asks(stat, request, op)
    ensures Decode(stat, request) == Reject(501) <==>
      && stat.None? && NonEmpty(request.mountId) && NonEmpty(request.lockOwner) && !request.namespace.Unrecognised?
      && request.action in {GetAction, SetAction, UnsupportedAction}
  {
    var d := Decode(stat, request);
    if d.Accept? { AcceptedIffAsked(stat, request, d.op); }
    forall op | Asks(stat, request, op) ensures d == Accept(op) { AcceptedIffAsked(stat, request, op); }
  }

  // ---- the table -----------------------------------------------------------

  class LockTable {
    /** Lock lists by workspace; a workspace with no lock has no entry. */
    var byOwner: map<string, seq<Lock>>

    ghost predicate Valid()
      reads this
    {
      forall o :: o in byOwner ==> byOwner[o] != [] && Safe(byOwner[o])
    }

    function Locks(ownerId: string): seq<Lock>
      reads this
    {
      if ownerId in byOwner then byOwner[ownerId] else []
    }

    constructor ()
      ensures Valid() && forall o :: Locks(o) == []
    {
      byOwner := map[];
    }

    /** The store's write-back: an emptied list is dropped, not kept. */
    method Replace(ownerId: string, locks: seq<Lock>)
      requires Valid() && Safe(locks)
      modifies this
      ensures Valid() && Locks(ownerId) == locks
      ensures forall o :: o != ownerId ==> Locks(o) == old(Locks(o))
    {
      if |locks| == 0 {
        byOwner := byOwner - {ownerId};
      } else {
        byOwner := byOwner[ownerId := locks];
      }
    }

    /** Extend the leases of the listed holdings, in place in the live list. */
    method RenewLeases(locks: seq<Lock>, mount: string, keys: set<RenewalKey>, now: int) returns (out: seq<Lock>)
      ensures out == After(locks, Renew(mount, keys), now)
    {
      var live := LiveLocks(locks, now);
      out := live;
      for i := 0 to |live|
        invariant |out| == |live|
        invariant forall j :: 0 <= j < i ==>
          out[j] == if Renews(live[j], mount, keys) then live[j].(expiresAt := now + LEASE_MS) else live[j]
        invariant forall j :: i <= j < |live| ==> out[j] == live[j]
      {
        if Renews(out[i], mount, keys) {
          out := out[i := out[i].(expiresAt := now + LEASE_MS)];
        }
      }
    }

    /** One `set` transaction. */
    method Set(locks: seq<Lock>, who: Identity, start: nat, end: nat, kind: Kind, pid: nat, now: int)
        returns (out: seq<Lock>, verdict: Response)
      ensures out == After(locks, SetLock(who, start, end, kind, pid), now)
      ensures verdict.Verdict?
      ensures verdict.conflict == FirstConflict(LiveLocks(locks, now), who, start, end, kind)
      ensures verdict.acquired == verdict.conflict.None?
    {
      var live := LiveLocks(locks, now);
      var replacement := Rewrite(live, who, start, end);
      var conflict := FirstConflict(replacement, who, start, end, kind);
      GetPredictsSet(live, who, start, end, kind);
      if conflict.Some? {
        return live, Verdict(false, conflict);
      }
      return replacement + [Lock(who, start, end, kind, pid, now + LEASE_MS)], Verdict(true, None);
    }

    /** Serve one request.  A refused request leaves every list alone.  An accepted
        one changes only the requester's workspace, and there every byte of every
        identity becomes exactly what the byte map prescribes. */
    method Handle(ownerId: string, stat: Option<string>, request: Request, now: int) returns (response: Response)
      requires Valid()
      modifies this
      ensures Valid()
      ensures forall o :: o != ownerId ==> Locks(o) == old(Locks(o))
      ensures Decode(stat, request).Reject? ==>
        && response == Rejected(Decode(stat, request).status) && byOwner == old(byOwner)
        && forall op :: !Asks(stat, request, op)
      ensures Decode(stat, request).Accept? ==> Asks(stat, request, Decode(stat, request).op)
      ensures Decode(stat, request).Accept? ==>
        var op := Decode(stat, request).op;
        && Locks(ownerId) == After(old(Locks(ownerId)), op, now)
        && (op.Get? || op.SetLock? ==>
              && response.Verdict?
              && response.acquired == response.conflict.None?
              && response.conflict ==
                   FirstConflict(LiveLocks(old(Locks(ownerId)), now), op.who, op.start, op.end, op.kind))
        && (op.Unlock? ==> response == Verdict(true, None))
        && (op.Renew? || op.ReleaseMount? || op.ReleaseOwner? ==> response == Done)
      ensures Decode(stat, request).Accept? ==> forall k: Identity, byte: nat ::
        var op := Decode(stat, request).op;
        Holding(Locks(ownerId), k, byte) ==
          ByteAfter(op, response.Verdict? && response.acquired, now, k, byte,
                    Unexpired(Holding(old(Locks(ownerId)), k, byte), now))
    {
      ghost var op := Decode(stat, request);
      ghost var before := Locks(ownerId);
      var locks, served;
      locks, served, response := Transaction(Locks(ownerId), stat, request, now);
      RefusedIffNothingAsked(stat, request);
      if served { AcceptedIffAsked(stat, request, op.op); }
      if served {
        RequestKeepsSafe(before, op.op, now);
        Replace(ownerId, locks);
        forall k: Identity, byte: nat
          ensures Holding(Locks(ownerId), k, byte) ==
            ByteAfter(op.op, response.Verdict? && response.acquired, now, k, byte,
                      Unexpired(Holding(before, k, byte), now))
        {
          TableRefinesByteMap(before, op.op, now, k, byte);
          if op.op.SetLock? { ConflictIsOnSomeByte(before, op.op, now); }
        }
      }
    }

    /** The body of `handle` against the stored list. */
    method Transaction(stored: seq<Lock>, stat: Option<string>, request: Request, now: int)
        returns (locks: seq<Lock>, served: bool, response: Response)
      ensures served == Decode(stat, request).Accept?
      ensures !served ==> response == Rejected(Decode(stat, request).status)
      ensures served ==>
        var op := Decode(stat, request).op;
        && locks == After(stored, op, now)
        && (op.Get? || op.SetLock? ==>
              && response.Verdict?
              && response.acquired == response.conflict.None?
              && response.conflict == FirstConflict(LiveLocks(stored, now), op.who, op.start, op.end, op.kind))
        && (op.Unlock? ==> response == Verdict(true, None))
        && (op.Renew? || op.ReleaseMount? || op.ReleaseOwner? ==> response == Done)
    {
      locks, served, response := [], false, Rejected(400);
      if !NonEmpty(request.mountId) { return; }
      var mount := request.mountId.value;
      if request.action == RenewMountAction { return; }
      if request.action == RenewOwnersAction {
        var keys := NormalizeIdentities(request.identities);
        if keys.None? { return; }
        locks := RenewLeases(stored, mount, keys.value, now);
        return locks, true, Done;
      }
      if request.action == ReleaseMountAction {
        return Filter(LiveLocks(stored, now), (lock: Lock) => lock.who.mount != mount), true, Done;
      }
      if !NonEmpty(request.lockOwner) || request.namespace.Unrecognised? { return; }
      var namespace := if request.namespace.Absent? then Posix else request.namespace.namespace;
      if request.action == ReleaseOwnerAction {
        if !NonEmpty(request.fileId) { return; }
        var gone := Identity(mount, request.lockOwner.value, namespace, request.fileId.value);
        return Filter(LiveLocks(stored, now), (lock: Lock) => lock.who != gone), true, Done;
      }
      if stat.None? { return locks, false, Rejected(501); }
      var who := Identity(mount, request.lockOwner.value, namespace, stat.value);
      var start, end := ParseOffset(request.start), ParseOffset(request.end);
      if start.None? || end.None? || end.value < start.value || request.kind.UnrecognisedKind? { return; }
      if request.action == GetAction {
        if request.kind.UnlockKind? { return; }
        var live := LiveLocks(stored, now);
        var conflict := FirstConflict(live, who, start.value, end.value, request.kind.kind);
        return live, true, Verdict(conflict.None?, conflict);
      }
      if request.action != SetAction { return; }
      if request.kind.UnlockKind? {
        return Rewrite(LiveLocks(stored, now), who, start.value, end.value), true, Verdict(true, None);
      }
      served := true;
      locks, response := Set(stored, who, start.value, end.value, request.kind.kind, RequestPid(request.pid), now);
    }
  }
}
