/** Fixed-width unsigned integers, big-endian coding, UTF-8 validity and in-place file writes. */
module Bytes {
  type byte = n: int | 0 <= n < 256
  type u16 = n: int | 0 <= n < 0x1_0000
  type u32 = n: int | 0 <= n < 0x1_0000_0000
  type u64 = n: int | 0 <= n < 0x1_0000_0000_0000_0000

  function Pow256(width: nat): (p: nat)
    ensures p > 0
  {
    if width == 0 then 1 else 256 * Pow256(width - 1)
  }

  lemma Pow256Values()
    ensures Pow256(2) == 0x1_0000
    ensures Pow256(4) == 0x1_0000_0000
    ensures Pow256(8) == 0x1_0000_0000_0000_0000
  {
    assert Pow256(2) == 256 * Pow256(1);
    assert Pow256(4) == 256 * Pow256(3);
    assert Pow256(6) == 256 * Pow256(5);
    assert Pow256(8) == 256 * Pow256(7);
  }

  /** The low `width` bytes of `n`, most significant first; higher bytes are dropped, as an `as u32` cast does. */
  function BigEndian(n: nat, width: nat): (s: seq<byte>)
    ensures |s| == width
  {
    if width == 0 then [] else BigEndian(n / 256, width - 1) + [n % 256]
  }

  function FromBigEndian(s: seq<byte>): nat {
    if s == [] then 0 else 256 * FromBigEndian(s[..|s| - 1]) + s[|s| - 1]
  }

  lemma {:induction false} FromBigEndianBound(s: seq<byte>)
    ensures FromBigEndian(s) < Pow256(|s|)
  {
    if s != [] {
      FromBigEndianBound(s[..|s| - 1]);
    }
  }

  lemma {:induction false} DecodeEncoded(n: nat, width: nat)
    requires n < Pow256(width)
    ensures FromBigEndian(BigEndian(n, width)) == n
  {
    if width > 0 {
      DecodeEncoded(n / 256, width - 1);
      var s := BigEndian(n, width);
      assert s[..|s| - 1] == BigEndian(n / 256, width - 1);
    }
  }

  lemma {:induction false} EncodeDecoded(s: seq<byte>)
    ensures BigEndian(FromBigEndian(s), |s|) == s
  {
    if s != [] {
      EncodeDecoded(s[..|s| - 1]);
      assert FromBigEndian(s) / 256 == FromBigEndian(s[..|s| - 1]);
      assert s == s[..|s| - 1] + [s[|s| - 1]];
    }
  }

  /** Well-formed UTF-8, the invariant of a Rust `String`. */
  predicate ValidUtf8(s: seq<byte>) {
    s == [] ||
    (var n := Utf8Width(s); 0 < n <= |s| && ValidUtf8(s[n..]))
  }

  predicate Continuation(b: byte) {
    0x80 <= b < 0xC0
  }

  /** The length of the scalar value that `s` starts with, or 0 when `s` does not start with one. */
  function Utf8Width(s: seq<byte>): nat
    requires s != []
  {
    var b := s[0];
    if b < 0x80 then 1
    else if 0xC2 <= b < 0xE0 then
      if |s| >= 2 && Continuation(s[1]) then 2 else 0
    else if 0xE0 <= b < 0xF0 then
      if |s| >= 3 && Continuation(s[1]) && Continuation(s[2]) &&
         (b == 0xE0 ==> s[1] >= 0xA0) && (b == 0xED ==> s[1] < 0xA0) then 3 else 0
    else if 0xF0 <= b < 0xF5 then
      if |s| >= 4 && Continuation(s[1]) && Continuation(s[2]) && Continuation(s[3]) &&
         (b == 0xF0 ==> s[1] >= 0x90) && (b == 0xF4 ==> s[1] < 0x90) then 4 else 0
    else 0
  }

  /** A Unicode scalar value: any code point but a surrogate. */
  type Scalar = c: int | 0 <= c < 0xD800 || 0xE000 <= c < 0x11_0000

  /** The encoding of one scalar value (section 3 of RFC 3629). */
  function Utf8(c: Scalar): (s: seq<byte>)
    ensures 1 <= |s| <= 4
  {
    if c < 0x80 then [c]
    else if c < 0x800 then [0xC0 + c / 0x40, 0x80 + c % 0x40]
    else if c < 0x1_0000 then [0xE0 + c / 0x1000, 0x80 + c / 0x40 % 0x40, 0x80 + c % 0x40]
    else [0xF0 + c / 0x4_0000, 0x80 + c / 0x1000 % 0x40, 0x80 + c / 0x40 % 0x40, 0x80 + c % 0x40]
  }

  function Utf8Text(cs: seq<Scalar>): seq<byte> {
    if cs == [] then [] else Utf8(cs[0]) + Utf8Text(cs[1..])
  }

  lemma WidthOfScalar(c: Scalar, rest: seq<byte>)
    ensures Utf8Width(Utf8(c) + rest) == |Utf8(c)|
  {
  }

  lemma TwoDigits(a: nat, x: nat)
    requires x < 0x40
    ensures var c := a * 0x40 + x; c / 0x40 == a && c % 0x40 == x
  {
  }

  lemma ThreeDigits(a: nat, x: nat, y: nat)
    requires x < 0x40 && y < 0x40
    ensures var c := (a * 0x40 + x) * 0x40 + y; c / 0x1000 == a && c / 0x40 % 0x40 == x && c % 0x40 == y
  {
    TwoDigits(a * 0x40 + x, y);
    TwoDigits(a, x);
  }

  lemma FourDigits(a: nat, x: nat, y: nat, z: nat)
    requires x < 0x40 && y < 0x40 && z < 0x40
    ensures var c := ((a * 0x40 + x) * 0x40 + y) * 0x40 + z;
      c / 0x4_0000 == a && c / 0x1000 % 0x40 == x && c / 0x40 % 0x40 == y && c % 0x40 == z
  {
    TwoDigits((a * 0x40 + x) * 0x40 + y, z);
    ThreeDigits(a, x, y);
  }

  /** The scalar value that `s` starts with. */
  lemma ScalarAtFront(s: seq<byte>) returns (c: Scalar)
    requires s != [] && 0 < Utf8Width(s) <= |s|
    ensures s[..Utf8Width(s)] == Utf8(c)
  {
    var n, b: int := Utf8Width(s), s[0];
    if n == 1 {
      c := b;
    } else if n == 2 {
      c := TwoByteScalar(b, s[1]);
      assert s[..2] == [s[0], s[1]];
    } else if n == 3 {
      c := ThreeByteScalar(b, s[1], s[2]);
      assert s[..3] == [s[0], s[1], s[2]];
    } else {
      c := FourByteScalar(b, s[1], s[2], s[3]);
      assert s[..4] == [s[0], s[1], s[2], s[3]];
    }
  }

  lemma TwoByteScalar(b: int, x: int) returns (c: Scalar)
    requires 0xC2 <= b < 0xE0 && 0x80 <= x < 0xC0
    ensures Utf8(c) == [b, x]
  {
    TwoDigits(b - 0xC0, x - 0x80);
    c := (b - 0xC0) * 0x40 + (x - 0x80);
  }

  lemma ThreeByteScalar(b: int, x: int, y: int) returns (c: Scalar)
    requires 0xE0 <= b < 0xF0 && 0x80 <= x < 0xC0 && 0x80 <= y < 0xC0
    requires (b == 0xE0 ==> x >= 0xA0) && (b == 0xED ==> x < 0xA0)
    ensures Utf8(c) == [b, x, y]
  {
    ThreeDigits(b - 0xE0, x - 0x80, y - 0x80);
    c := ((b - 0xE0) * 0x40 + (x - 0x80)) * 0x40 + (y - 0x80);
  }

  lemma FourByteScalar(b: int, x: int, y: int, z: int) returns (c: Scalar)
    requires 0xF0 <= b < 0xF5 && 0x80 <= x < 0xC0 && 0x80 <= y < 0xC0 && 0x80 <= z < 0xC0
    requires (b == 0xF0 ==> x >= 0x90) && (b == 0xF4 ==> x < 0x90)
    ensures Utf8(c) == [b, x, y, z]
  {
    FourDigits(b - 0xF0, x - 0x80, y - 0x80, z - 0x80);
    c := (((b - 0xF0) * 0x40 + (x - 0x80)) * 0x40 + (y - 0x80)) * 0x40 + (z - 0x80);
  }

  lemma {:induction false} TextIsValid(cs: seq<Scalar>)
    ensures ValidUtf8(Utf8Text(cs))
  {
    hide Utf8, Utf8Width;
    if cs != [] {
      var rest := Utf8Text(cs[1..]);
      TextIsValid(cs[1..]);
      WidthOfScalar(cs[0], rest);
      assert (Utf8(cs[0]) + rest)[|Utf8(cs[0])|..] == rest;
    }
  }

  lemma {:induction false} ValidIsText(s: seq<byte>) returns (cs: seq<Scalar>)
    requires ValidUtf8(s)
    ensures Utf8Text(cs) == s
  {
    hide Utf8, Utf8Width;
    cs := [];
    if s != [] {
      var c := ScalarAtFront(s);
      var rest := ValidIsText(s[Utf8Width(s)..]);
      cs := [c] + rest;
      assert s == s[..Utf8Width(s)] + s[Utf8Width(s)..];
    }
  }

  /** Valid are exactly the encodings of sequences of scalar values. */
  lemma ValidUtf8Exactly(s: seq<byte>)
    ensures ValidUtf8(s) <==> exists cs :: Utf8Text(cs) == s
  {
    if ValidUtf8(s) {
      var cs := ValidIsText(s);
    }
    if cs :| Utf8Text(cs) == s {
      TextIsValid(cs);
    }
  }

  function Zeros(n: nat): (s: seq<byte>)
    ensures |s| == n
  {
    seq(n, _ => 0)
  }

  /** A file's contents after `buf` is written at `offset`: a gap past the end reads as zeros. */
  function Overwrite(file: seq<byte>, offset: nat, buf: seq<byte>): seq<byte> {
    var padded := if offset <= |file| then file else file + Zeros(offset - |file|);
    padded[..offset] + buf + if offset + |buf| <= |file| then file[offset + |buf|..] else []
  }

  /** A write that reaches the end of the file replaces everything from its offset on. */
  lemma OverwriteTail(file: seq<byte>, offset: nat, buf: seq<byte>)
    requires offset <= |file| <= offset + |buf|
    ensures Overwrite(file, offset, buf) == file[..offset] + buf
  {
  }
}
