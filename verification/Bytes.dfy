// Bytes, big-endian integers and the JPEG marker check.
module Bytes {
  import opened GoInts

  type byte = b: int | 0 <= b < 256

  // A payload that starts with the Start Of Image marker and ends with the End Of
  // Image marker.
  predicate LooksLikeJpeg(payload: seq<byte>) {
    && |payload| >= 4
    && payload[0] == 0xFF && payload[1] == 0xD8
    && payload[|payload| - 2] == 0xFF && payload[|payload| - 1] == 0xD9
  }

  function Pow256(n: nat): (p: nat)
    ensures p > 0
  {
    if n == 0 then 1 else 256 * Pow256(n - 1)
  }

  // The lowest width bytes of n, most significant first.
  function ToBigEndian(n: nat, width: nat): (s: seq<byte>)
    ensures |s| == width
  {
    if width == 0 then [] else ToBigEndian(n / 256, width - 1) + [n % 256]
  }

  function FromBigEndian(s: seq<byte>): nat {
    if s == [] then 0 else FromBigEndian(s[..|s| - 1]) * 256 + s[|s| - 1]
  }

  lemma RemainderOf(x: int, d: int, q: int, r: int)
    requires d > 0 && x == q * d + r && 0 <= r < d
    ensures x % d == r
  {
    assert (q + 1) * d == q * d + d;
    QuotientOf(x, d, q);
  }

  lemma LowestByteFirst(n: nat, p: nat)
    requires p > 0
    ensures n % (256 * p) == (n / 256 % p) * 256 + n % 256
  {
    var h := n / 256;
    var q, r := h / p, h % p;
    assert h == q * p + r;
    assert h * 256 == q * p * 256 + r * 256;
    assert q * p * 256 == q * (256 * p);
    RemainderOf(n, 256 * p, q, r * 256 + n % 256);
  }

  // Writing keeps a value up to the width of the field and no more.
  lemma {:induction false} FromOfToBigEndian(n: nat, width: nat)
    ensures FromBigEndian(ToBigEndian(n, width)) == n % Pow256(width)
  {
    if width > 0 {
      FromOfToBigEndian(n / 256, width - 1);
      var s := ToBigEndian(n, width);
      assert s[..|s| - 1] == ToBigEndian(n / 256, width - 1);
      LowestByteFirst(n, Pow256(width - 1));
    }
  }

  lemma FieldHolds(n: nat, width: nat)
    requires n < Pow256(width)
    ensures FromBigEndian(ToBigEndian(n, width)) == n
  {
    FromOfToBigEndian(n, width);
    RemainderOf(n, Pow256(width), 0, n);
  }

  lemma {:induction false} FromBigEndianIsBounded(s: seq<byte>)
    ensures FromBigEndian(s) < Pow256(|s|)
  {
    if s != [] {
      FromBigEndianIsBounded(s[..|s| - 1]);
    }
  }

  lemma {:induction false} ToOfFromBigEndian(s: seq<byte>)
    ensures ToBigEndian(FromBigEndian(s), |s|) == s
  {
    if s != [] {
      ToOfFromBigEndian(s[..|s| - 1]);
    }
  }

  lemma FieldWidths()
    ensures Pow256(1) == 0x100 && Pow256(2) == 0x1_0000
    ensures Pow256(4) == 0x1_0000_0000 && Pow256(8) == 0x1_0000_0000_0000_0000
  {
    assert Pow256(3) == 0x100_0000;
    assert Pow256(5) == 0x100_0000_0000;
    assert Pow256(6) == 0x1_0000_0000_0000;
    assert Pow256(7) == 0x100_0000_0000_0000;
  }

  // ---- Fields by byte position: the first byte is the most significant one.

  function U16(s: seq<byte>, at: nat): int
    requires at + 2 <= |s|
  {
    s[at] as int * 0x100 + s[at + 1]
  }

  function U32(s: seq<byte>, at: nat): int
    requires at + 4 <= |s|
  {
    s[at] as int * 0x100_0000 + s[at + 1] as int * 0x1_0000 + s[at + 2] as int * 0x100 + s[at + 3]
  }

  function U64(s: seq<byte>, at: nat): int
    requires at + 8 <= |s|
  {
    U32(s, at) * 0x1_0000_0000 + U32(s, at + 4)
  }

  lemma LastByte(s: seq<byte>, from: nat, to: nat)
    requires from < to <= |s|
    ensures FromBigEndian(s[from..to]) == FromBigEndian(s[from..to - 1]) * 256 + s[to - 1]
  {
    var t := s[from..to];
    assert t[..|t| - 1] == s[from..to - 1] && t[|t| - 1] == s[to - 1];
  }

  lemma TwoBytes(s: seq<byte>, at: nat)
    requires at + 2 <= |s|
    ensures FromBigEndian(s[at..at + 2]) == U16(s, at)
  {
    hide FromBigEndian;
    assert FromBigEndian(s[at..at]) == 0 by { NoBytes(); assert s[at..at] == []; }
    LastByte(s, at, at + 1);
    LastByte(s, at, at + 2);
  }

  lemma NoBytes()
    ensures FromBigEndian([]) == 0
  {
  }

  lemma FourBytes(s: seq<byte>, at: nat)
    requires at + 4 <= |s|
    ensures FromBigEndian(s[at..at + 4]) == U32(s, at)
  {
    hide FromBigEndian;
    TwoBytes(s, at);
    LastByte(s, at, at + 3);
    LastByte(s, at, at + 4);
  }

  lemma EightBytes(s: seq<byte>, at: nat)
    requires at + 8 <= |s|
    ensures FromBigEndian(s[at..at + 8]) == U64(s, at)
  {
    hide FromBigEndian;
    FourBytes(s, at);
    LastByte(s, at, at + 5);
    LastByte(s, at, at + 6);
    LastByte(s, at, at + 7);
    LastByte(s, at, at + 8);
  }
}
