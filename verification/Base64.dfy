/** The gateway's base64 acceptance test, which looks at symbols and padding bits
    without decoding, against the encoding it is meant to recognise (sections 3.5
    and 4 of RFC 4648). */
module Base64 {
  import opened Prelude

  type Byte = b: int | 0 <= b < 256

  // ---- the standard --------------------------------------------------------

  function Symbol(x: int): char
    requires 0 <= x < 64
  {
    if x < 26 then ('A' as int + x) as char
    else if x < 52 then ('a' as int + (x - 26)) as char
    else if x < 62 then ('0' as int + (x - 52)) as char
    else if x == 62 then '+' else '/'
  }

  const PAD := '='

  /** Three bytes as four symbols. */
  function Full(x: Byte, y: Byte, z: Byte): string {
    [Symbol(x / 4), Symbol(x % 4 * 16 + y / 16), Symbol(y % 16 * 4 + z / 64), Symbol(z % 64)]
  }

  /** A short last group: padded, its unused bits zero. */
  function Short(b: seq<Byte>): string
    requires 1 <= |b| <= 2
  {
    if |b| == 1 then [Symbol(b[0] / 4), Symbol(b[0] % 4 * 16), PAD, PAD]
    else [Symbol(b[0] / 4), Symbol(b[0] % 4 * 16 + b[1] / 16), Symbol(b[1] % 16 * 4), PAD]
  }

  function Encode(b: seq<Byte>): string {
    if |b| == 0 then [] else if |b| < 3 then Short(b) else Full(b[0], b[1], b[2]) + Encode(b[3..])
  }

  /** The test vectors of section 10 of RFC 4648. */
  lemma TestVectors()
    ensures Encode([]) == "" && Encode([102]) == "Zg==" && Encode([102, 111]) == "Zm8="
    ensures Encode([102, 111, 111]) == "Zm9v" && Encode([102, 111, 111, 98, 97, 114]) == "Zm9vYmFy"
  {
    ShortVectors();
    assert Full(102, 111, 111) == "Zm9v" && Full(98, 97, 114) == "YmFy";
    OneGroup([102, 111, 111]);
    OneGroup([98, 97, 114]);
    assert [102, 111, 111, 98, 97, 114][3..] == [98, 97, 114];
  }

  lemma ShortVectors()
    ensures Encode([102]) == "Zg==" && Encode([102, 111]) == "Zm8="
  {
  }

  lemma OneGroup(b: seq<Byte>)
    requires |b| == 3
    ensures Encode(b) == Full(b[0], b[1], b[2])
  {
    assert b[3..] == [] && Full(b[0], b[1], b[2]) + [] == Full(b[0], b[1], b[2]);
  }

  /** The four symbols of a group are the digits, to base 64, of its three bytes to base
      256, the most significant first. */
  lemma GroupIsBigEndian(x: Byte, y: Byte, z: Byte) returns (a: int, b: int, c: int, d: int)
    ensures 0 <= a < 64 && 0 <= b < 64 && 0 <= c < 64 && 0 <= d < 64
    ensures Full(x, y, z) == [Symbol(a), Symbol(b), Symbol(c), Symbol(d)]
    ensures 65536 * x + 256 * y + z == 262144 * a + 4096 * b + 64 * c + d
  {
    a, b, c, d := x / 4, x % 4 * 16 + y / 16, y % 16 * 4 + z / 64, z % 64;
    SplitBits(x, y, z, x / 4, x % 4, y / 16, y % 16, z / 64, z % 64);
  }

  lemma SplitBits(x: int, y: int, z: int, xh: int, xl: int, yh: int, yl: int, zh: int, zl: int)
    requires x == 4 * xh + xl && y == 16 * yh + yl && z == 64 * zh + zl
    ensures 65536 * x + 256 * y + z == 262144 * xh + 4096 * (xl * 16 + yh) + 64 * (yl * 4 + zh) + zl
  {
  }

  // ---- the gateway ---------------------------------------------------------

  /** `base64Sextet`: the value of a symbol, or -1. */
  function Sextet(c: char): (x: int)
    ensures -1 <= x < 64
    ensures x >= 0 ==> Symbol(x) == c
    ensures c == PAD ==> x == -1
  {
    var code := c as int;
    if 65 <= code <= 90 then code - 65
    else if 97 <= code <= 122 then code - 97 + 26
    else if 48 <= code <= 57 then code - 48 + 52
    else if code == 43 then 62
    else if code == 47 then 63
    else -1
  }

  lemma SextetOfSymbol(x: int)
    requires 0 <= x < 64
    ensures Sextet(Symbol(x)) == x && Symbol(x) != PAD
  {
  }

  function Padding(s: string): (n: nat)
    ensures n <= 2 && n <= |s|
  {
    if |s| == 0 || s[|s| - 1] != PAD then 0
    else if |s| > 1 && s[|s| - 2] == PAD then 2
    else 1
  }

  predicate Symbols(s: string) {
    forall i :: 0 <= i < |s| ==> Sextet(s[i]) >= 0
  }

  /** The last symbol has no stray bits for this much padding. */
  predicate CleanTail(s: string, padding: nat) {
    s != [] && Sextet(s[|s| - 1]) % (if padding == 2 then 16 else if padding == 1 then 4 else 1) == 0
  }

  predicate Canonical(s: string) {
    |s| % 4 == 0 && (s == [] ||
      (Symbols(s[..|s| - Padding(s)]) && CleanTail(s[..|s| - Padding(s)], Padding(s))))
  }

  function Unfull(g: string): seq<Byte>
    requires |g| == 4 && Symbols(g)
  {
    var a, b, c, d := Sextet(g[0]), Sextet(g[1]), Sextet(g[2]), Sextet(g[3]);
    [a * 4 + b / 16, b % 16 * 16 + c / 4, c % 4 * 64 + d]
  }

  function Unshort(g: string): seq<Byte>
    requires |g| == 4 && Canonical(g) && Padding(g) > 0
  {
    assert forall i :: 0 <= i < 4 - Padding(g) ==> g[..4 - Padding(g)][i] == g[i];
    var a, b := Sextet(g[0]), Sextet(g[1]);
    if Padding(g) == 2 then [a * 4 + b / 16]
    else [a * 4 + b / 16, b % 16 * 16 + Sextet(g[2]) / 4]
  }

  function Decode(s: string): seq<Byte>
    requires Canonical(s)
  {
    if s == [] then []
    else if |s| == 4 && Padding(s) > 0 then Unshort(s)
    else
      CanonicalStep(s);
      Unfull(s[..4]) + Decode(s[4..])
  }

  // ---- one group at a time -------------------------------------------------

  /** A string is canonical group by group, but for a padded last group. */
  lemma CanonicalStep(s: string)
    requires |s| >= 4 && |s| % 4 == 0 && (|s| == 4 ==> Padding(s) == 0)
    ensures Canonical(s) <==> Symbols(s[..4]) && Canonical(s[4..])
  {
    var rest := s[4..];
    var pad := Padding(s);
    var body, tail := s[..|s| - pad], rest[..|rest| - Padding(rest)];
    assert body == s[..4] + tail;
    assert tail != [] ==> body[|body| - 1] == tail[|tail| - 1];
    SymbolsConcat(s[..4], tail);
  }

  lemma SymbolsConcat(a: string, b: string)
    ensures Symbols(a + b) <==> Symbols(a) && Symbols(b)
  {
    if Symbols(a + b) {
      forall i | 0 <= i < |a| ensures Sextet(a[i]) >= 0 { assert (a + b)[i] == a[i]; }
      forall i | 0 <= i < |b| ensures Sextet(b[i]) >= 0 { assert (a + b)[|a| + i] == b[i]; }
    }
  }

  lemma FullAfterUnfull(g: string)
    requires |g| == 4 && Symbols(g)
    ensures |Unfull(g)| == 3 && Full(Unfull(g)[0], Unfull(g)[1], Unfull(g)[2]) == g
  {
    var u := Unfull(g);
    ThreeBytesBack(Sextet(g[0]), Sextet(g[1]), Sextet(g[2]), Sextet(g[3]), u[0], u[1], u[2]);
    assert Full(u[0], u[1], u[2]) == [g[0], g[1], g[2], g[3]];
  }

  lemma ThreeBytesBack(a: int, b: int, c: int, d: int, x: int, y: int, z: int)
    requires 0 <= a < 64 && 0 <= b < 64 && 0 <= c < 64 && 0 <= d < 64
    requires x == a * 4 + b / 16 && y == b % 16 * 16 + c / 4 && z == c % 4 * 64 + d
    ensures x / 4 == a && x % 4 * 16 + y / 16 == b && y % 16 * 4 + z / 64 == c && z % 64 == d
  {
    assert x % 4 == b / 16 && y / 16 == b % 16;
    assert y % 16 == c / 4 && z / 64 == c % 4;
  }

  lemma ShortAfterUnshort(g: string)
    requires |g| == 4 && Canonical(g) && Padding(g) > 0
    ensures 1 <= |Unshort(g)| <= 2 && Short(Unshort(g)) == g
  {
    if Padding(g) == 2 { OneByteGroup(g); } else { TwoByteGroup(g); }
  }

  lemma OneByteGroup(g: string)
    requires |g| == 4 && Canonical(g) && Padding(g) == 2
    ensures |Unshort(g)| == 1 && Short(Unshort(g)) == g
  {
    assert g[..2][0] == g[0] && g[..2][1] == g[1];
    OneByteBack(Sextet(g[0]), Sextet(g[1]));
  }

  lemma TwoByteGroup(g: string)
    requires |g| == 4 && Canonical(g) && Padding(g) == 1
    ensures |Unshort(g)| == 2 && Short(Unshort(g)) == g
  {
    assert g[..3][0] == g[0] && g[..3][1] == g[1] && g[..3][2] == g[2];
    TwoBytesBack(Sextet(g[0]), Sextet(g[1]), Sextet(g[2]));
  }

  lemma OneByteBack(a: int, b: int)
    requires 0 <= a < 64 && 0 <= b < 64 && b % 16 == 0
    ensures (a * 4 + b / 16) / 4 == a && (a * 4 + b / 16) % 4 * 16 == b
  {
  }

  lemma TwoBytesBack(a: int, b: int, c: int)
    requires 0 <= a < 64 && 0 <= b < 64 && 0 <= c < 64 && c % 4 == 0
    ensures (a * 4 + b / 16) / 4 == a
    ensures (a * 4 + b / 16) % 4 * 16 + (b % 16 * 16 + c / 4) / 16 == b
    ensures (b % 16 * 16 + c / 4) % 16 * 4 == c
  {
  }

  lemma UnfullAfterFull(x: Byte, y: Byte, z: Byte)
    ensures Symbols(Full(x, y, z)) && Unfull(Full(x, y, z)) == [x, y, z]
    ensures Full(x, y, z)[3] != PAD
  {
    var a, b, c, d := x / 4, x % 4 * 16 + y / 16, y % 16 * 4 + z / 64, z % 64;
    SextetOfSymbol(a);
    SextetOfSymbol(b);
    SextetOfSymbol(c);
    SextetOfSymbol(d);
    ThreeBytesOn(x, y, z, a, b, c, d);
  }

  lemma ThreeBytesOn(x: int, y: int, z: int, a: int, b: int, c: int, d: int)
    requires 0 <= x < 256 && 0 <= y < 256 && 0 <= z < 256
    requires a == x / 4 && b == x % 4 * 16 + y / 16 && c == y % 16 * 4 + z / 64 && d == z % 64
    ensures a * 4 + b / 16 == x && b % 16 * 16 + c / 4 == y && c % 4 * 64 + d == z
  {
    assert b / 16 == x % 4 && b % 16 == y / 16;
    assert c / 4 == y % 16 && c % 4 == z / 64;
  }

  lemma UnshortAfterShort(b: seq<Byte>)
    requires 1 <= |b| <= 2
    ensures Canonical(Short(b)) && Padding(Short(b)) > 0 && Unshort(Short(b)) == b
  {
    if |b| == 1 { OneByteShort(b[0]); } else { TwoByteShort(b[0], b[1]); }
    assert b == if |b| == 1 then [b[0]] else [b[0], b[1]];
  }

  lemma OneByteShort(x: Byte)
    ensures Canonical(Short([x])) && Padding(Short([x])) == 2 && Unshort(Short([x])) == [x]
  {
    var a, b := x / 4, x % 4 * 16;
    SextetOfSymbol(a);
    SextetOfSymbol(b);
    assert b % 16 == 0 && a * 4 + b / 16 == x;
  }

  lemma TwoByteShort(x: Byte, y: Byte)
    ensures Canonical(Short([x, y])) && Padding(Short([x, y])) == 1 && Unshort(Short([x, y])) == [x, y]
  {
    var a, b, c := x / 4, x % 4 * 16 + y / 16, y % 16 * 4;
    SextetOfSymbol(a);
    SextetOfSymbol(b);
    SextetOfSymbol(c);
    TwoBytesOn(x, y, a, b, c);
  }

  lemma TwoBytesOn(x: int, y: int, a: int, b: int, c: int)
    requires 0 <= x < 256 && 0 <= y < 256 && a == x / 4 && b == x % 4 * 16 + y / 16 && c == y % 16 * 4
    ensures c % 4 == 0 && a * 4 + b / 16 == x && b % 16 * 16 + c / 4 == y
  {
    assert b / 16 == x % 4 && b % 16 == y / 16;
  }

  // ---- round trips ---------------------------------------------------------

  /** Accepted strings are reproduced by decoding and encoding. */
  lemma {:induction false} EncodeAfterDecode(s: string)
    requires Canonical(s)
    ensures Encode(Decode(s)) == s
  {
    if s == [] {
    } else if |s| == 4 && Padding(s) > 0 {
      ShortAfterUnshort(s);
    } else {
      CanonicalStep(s);
      FullAfterUnfull(s[..4]);
      EncodeAfterDecode(s[4..]);
      assert Decode(s)[3..] == Decode(s[4..]);
    }
  }

  /** Every encoding is accepted and decodes to what was encoded. */
  lemma {:induction false} DecodeAfterEncode(b: seq<Byte>)
    ensures Canonical(Encode(b)) && Decode(Encode(b)) == b
  {
    if |b| == 0 {
    } else if |b| < 3 {
      UnshortAfterShort(b);
    } else {
      DecodeAfterEncode(b[3..]);
      UnfullAfterFull(b[0], b[1], b[2]);
      DecodeGroup(Full(b[0], b[1], b[2]), Encode(b[3..]));
    }
  }

  lemma DecodeGroup(g: string, rest: string)
    requires |g| == 4 && Symbols(g) && Canonical(rest)
    ensures Canonical(g + rest) && Decode(g + rest) == Unfull(g) + Decode(rest)
  {
    var s := g + rest;
    assert s[..4] == g && s[4..] == rest;
    assert Sextet(g[3]) >= 0;
    CanonicalStep(s);
  }

  /** No body has two encodings and no encoding two bodies. */
  lemma EncodingIsUnique(a: seq<Byte>, b: seq<Byte>)
    requires Encode(a) == Encode(b)
    ensures a == b
  {
    DecodeAfterEncode(a);
    DecodeAfterEncode(b);
  }

  /** `isCanonicalBase64`; `None` stands for a value that is not a string. */
  method IsCanonicalBase64(value: Option<string>) returns (ok: bool)
    ensures ok <==> value.Some? && exists b: seq<Byte> :: Encode(b) == value.value
  {
    ok := Accepts(value);
    if ok {
      EncodeAfterDecode(value.value);
    } else {
      forall b: seq<Byte> | value.Some? && Encode(b) == value.value ensures false { DecodeAfterEncode(b); }
    }
  }

  /** The value of the last symbol, or -1 when there is none or any is not a symbol. */
  method LastSextet(payload: string) returns (finalSextet: int)
    ensures finalSextet >= 0 <==> payload != [] && Symbols(payload)
    ensures finalSextet >= 0 ==> finalSextet == Sextet(payload[|payload| - 1])
  {
    finalSextet := -1;
    for index := 0 to |payload|
      invariant forall i :: 0 <= i < index ==> Sextet(payload[i]) >= 0
      invariant if index > 0 then finalSextet == Sextet(payload[index - 1]) else finalSextet == -1
    {
      finalSextet := Sextet(payload[index]);
      if finalSextet < 0 { return; }
    }
  }

  method Accepts(value: Option<string>) returns (ok: bool)
    ensures ok <==> value.Some? && Canonical(value.value)
  {
    if value.None? || |value.value| % 4 != 0 { return false; }
    var s := value.value;
    if |s| == 0 { return true; }
    var payloadLength, padding := |s|, 0;
    if s[payloadLength - 1] == '=' {
      padding, payloadLength := 1, payloadLength - 1;
      if payloadLength > 0 && s[payloadLength - 1] == '=' {
        padding, payloadLength := 2, payloadLength - 1;
      }
    }
    var finalSextet := LastSextet(s[..payloadLength]);
    if finalSextet < 0 { return false; }
    if padding == 2 { return payloadLength % 4 == 2 && finalSextet % 16 == 0; }
    if padding == 1 { return payloadLength % 4 == 3 && finalSextet % 4 == 0; }
    return payloadLength % 4 == 0;
  }
}
