// Rotating pictures by quarter turns, and normalising configured angles.
module Rotation {
  import opened GoInts

  // ---- Angles.

  // Go's remainder takes the sign of the dividend, hence the second one.
  function Normalize(deg: int): (angle: int)
    ensures angle in {0, 90, 180, 270}
  {
    var n := Rem(Rem(deg, 360) + 360, 360);
    if n < 45 || n >= 315 then 0
    else if n < 135 then 90
    else if n < 225 then 180
    else 270
  }

  lemma WrappedAngle(deg: int) returns (turns: int)
    ensures Rem(Rem(deg, 360) + 360, 360) == deg - 360 * turns
    ensures 0 <= deg - 360 * turns < 360
  {
    var r := Rem(deg, 360) + 360;
    turns := Quo(deg, 360) - 1 + Quo(r, 360);
  }

  // The result is the legal angle nearest to deg, up to whole turns; halfway it is the
  // larger one.
  lemma NormalizeIsNearest(deg: int) returns (turns: int)
    ensures -45 <= deg - Normalize(deg) - 360 * turns < 45
  {
    turns := WrappedAngle(deg);
    if deg - 360 * turns >= 315 {
      turns := turns + 1;
    }
  }

  // ---- Pictures as values: h rows of w pixels.

  datatype Image<P> = Image(w: nat, h: nat, rows: seq<seq<P>>)
  {
    ghost predicate Valid() {
      |rows| == h && forall y :: 0 <= y < h ==> |rows[y]| == w
    }

    function At(x: nat, y: nat): P
      requires y < |rows| && x < |rows[y]|
    {
      rows[y][x]
    }
  }

  lemma SameImage<P>(a: Image<P>, b: Image<P>)
    requires a.Valid() && b.Valid() && a.w == b.w && a.h == b.h
    requires forall x, y :: 0 <= x < a.w && 0 <= y < a.h ==> a.At(x, y) == b.At(x, y)
    ensures a == b
  {
    forall y | 0 <= y < a.h ensures a.rows[y] == b.rows[y] {
      forall x | 0 <= x < a.w ensures a.rows[y][x] == b.rows[y][x] {
        assert a.At(x, y) == b.At(x, y);
      }
    }
    assert a.rows == b.rows;
  }

  function Rot90<P>(i: Image<P>): (r: Image<P>)
    requires i.Valid()
    ensures r.Valid() && r.w == i.h && r.h == i.w
  {
    Image(i.h, i.w, seq(i.w, y requires 0 <= y < i.w => seq(i.h, x requires 0 <= x < i.h => i.rows[i.h - 1 - x][y])))
  }

  function Rot180<P>(i: Image<P>): (r: Image<P>)
    requires i.Valid()
    ensures r.Valid() && r.w == i.w && r.h == i.h
  {
    Image(i.w, i.h, seq(i.h, y requires 0 <= y < i.h =>
                               seq(i.w, x requires 0 <= x < i.w => i.rows[i.h - 1 - y][i.w - 1 - x])))
  }

  function Rot270<P>(i: Image<P>): (r: Image<P>)
    requires i.Valid()
    ensures r.Valid() && r.w == i.h && r.h == i.w
  {
    Image(i.h, i.w, seq(i.w, y requires 0 <= y < i.w => seq(i.h, x requires 0 <= x < i.h => i.rows[x][i.w - 1 - y])))
  }

  // ---- The group of quarter turns.

  // k quarter turns.
  function Turned<P>(i: Image<P>, k: nat): (r: Image<P>)
    requires i.Valid()
    ensures r.Valid()
  {
    if k == 0 then i else Rot90(Turned(i, k - 1))
  }

  lemma TwoTurns<P>(i: Image<P>)
    requires i.Valid()
    ensures Rot90(Rot90(i)) == Rot180(i)
  {
    SameImage(Rot90(Rot90(i)), Rot180(i));
  }

  lemma ThreeTurns<P>(i: Image<P>)
    requires i.Valid()
    ensures Rot90(Rot180(i)) == Rot270(i)
  {
    SameImage(Rot90(Rot180(i)), Rot270(i));
  }

  lemma FourTurns<P>(i: Image<P>)
    requires i.Valid()
    ensures Rot90(Rot270(i)) == i && Rot270(Rot90(i)) == i && Rot180(Rot180(i)) == i
  {
    SameImage(Rot90(Rot270(i)), i);
    SameImage(Rot270(Rot90(i)), i);
    SameImage(Rot180(Rot180(i)), i);
  }

  // What Apply does with a decoded picture; other angles leave it alone.
  function Rotate<P>(i: Image<P>, angle: int): (r: Image<P>)
    requires i.Valid()
    ensures r.Valid()
  {
    if angle == 90 then Rot90(i) else if angle == 180 then Rot180(i) else if angle == 270 then Rot270(i) else i
  }

  lemma FewTurns<P>(i: Image<P>)
    requires i.Valid()
    ensures Turned(i, 0) == i && Turned(i, 1) == Rot90(i)
    ensures Turned(i, 2) == Rot180(i) && Turned(i, 3) == Rot270(i) && Turned(i, 4) == i
  {
    var t1 := Rot90(i);
    assert Turned(i, 0) == i;
    assert Turned(i, 1) == t1;
    TwoTurns(i);
    assert Turned(i, 2) == Rot90(t1);
    ThreeTurns(i);
    assert Turned(i, 3) == Rot90(Rot180(i));
    FourTurns(i);
    assert Turned(i, 4) == Rot90(Rot270(i));
  }

  // Configured angles are clockwise. A quarter turn, whatever whole turns are added,
  // makes the top row the right-hand column from top to bottom and the left-hand column
  // the top row from right to left; every pixel (x, y) goes to (h - 1 - y, x).
  lemma TurnsClockwise<P>(i: Image<P>, k: int, x: nat, y: nat)
    requires i.Valid() && x < i.w && y < i.h
    ensures var r := Rotate(i, Normalize(90 + 360 * k));
            && r.w == i.h && r.h == i.w
            && r.At(i.h - 1 - y, x) == i.At(x, y)
            && r.At(r.w - 1, x) == i.At(x, 0)
            && r.At(r.w - 1 - y, 0) == i.At(0, y)
  {
    NormalizeOfTurned(90, k);
  }

  lemma TurnsBack<P>(i: Image<P>, k: int, x: nat, y: nat)
    requires i.Valid() && x < i.w && y < i.h
    ensures var r := Rotate(i, Normalize(270 + 360 * k));
            r.w == i.h && r.h == i.w && r.At(y, i.w - 1 - x) == i.At(x, y)
  {
    NormalizeOfTurned(270, k);
  }

  lemma TurnsUpsideDown<P>(i: Image<P>, k: int, x: nat, y: nat)
    requires i.Valid() && x < i.w && y < i.h
    ensures var r := Rotate(i, Normalize(180 + 360 * k));
            r.w == i.w && r.h == i.h && r.At(i.w - 1 - x, i.h - 1 - y) == i.At(x, y)
  {
    NormalizeOfTurned(180, k);
  }

  // Whole turns do not matter.
  lemma NormalizeOfTurned(angle: int, k: int)
    requires angle in {0, 90, 180, 270}
    ensures Normalize(angle + 360 * k) == angle
  {
    hide *;
    StaysMultiple(angle, k);
    var turns := MultipleIsExact(angle + 360 * k);
    SameLegalAngle(angle, Normalize(angle + 360 * k), k - turns);
  }

  lemma StaysMultiple(angle: int, k: int)
    requires angle in {0, 90, 180, 270}
    ensures (angle + 360 * k) % 90 == 0
  {
    assert angle + 360 * k == (angle / 90 + 4 * k) * 90;
  }

  lemma SameLegalAngle(a: int, b: int, turns: int)
    requires a in {0, 90, 180, 270} && b in {0, 90, 180, 270} && b == a + 360 * turns
    ensures a == b
  {
  }

  lemma RotateIsTurned<P>(i: Image<P>, angle: int)
    requires i.Valid() && angle in {0, 90, 180, 270}
    ensures Rotate(i, angle) == Turned(i, angle / 90)
  {
    FewTurns(i);
  }

  lemma {:induction false} TurnsAdd<P>(i: Image<P>, a: nat, b: nat)
    requires i.Valid()
    ensures Turned(Turned(i, a), b) == Turned(i, a + b)
  {
    if b > 0 {
      TurnsAdd(i, a, b - 1);
      assert a + b - 1 == a + (b - 1);
    }
  }

  lemma FullTurn<P>(i: Image<P>, k: nat)
    requires i.Valid()
    ensures Turned(i, k + 4) == Turned(i, k)
  {
    TurnsAdd(i, k, 4);
    FewTurns(Turned(i, k));
  }

  // For two configured multiples of 90, one rotation after the other is the rotation by
  // the sum, negative angles and several turns included.
  lemma RotationsCompose<P>(i: Image<P>, a: int, b: int)
    requires i.Valid() && a % 90 == 0 && b % 90 == 0
    ensures Rotate(Rotate(i, Normalize(a)), Normalize(b)) == Rotate(i, Normalize(a + b))
  {
    var x, y, z := Normalize(a), Normalize(b), Normalize(a + b);
    AnglesAdd(a, b);
    RotateIsTurned(i, x);
    RotateIsTurned(Rotate(i, x), y);
    RotateIsTurned(i, z);
    TurnsAdd(i, x / 90, y / 90);
    if x + y != z {
      FullTurn(i, z / 90);
    }
  }

  lemma AnglesAdd(a: int, b: int)
    requires a % 90 == 0 && b % 90 == 0
    ensures var x, y, z := Normalize(a), Normalize(b), Normalize(a + b);
            x / 90 + y / 90 == z / 90 + (if x + y == z then 0 else 4)
  {
    hide *;
    var ta := MultipleIsExact(a);
    var tb := MultipleIsExact(b);
    MultiplesAdd(a, b);
    var tc := MultipleIsExact(a + b);
    LegalAnglesAdd(Normalize(a), Normalize(b), Normalize(a + b), tc - ta - tb);
  }

  lemma MultiplesAdd(a: int, b: int)
    requires a % 90 == 0 && b % 90 == 0
    ensures (a + b) % 90 == 0
  {
  }

  lemma LegalAnglesAdd(x: int, y: int, z: int, turns: int)
    requires x in {0, 90, 180, 270} && y in {0, 90, 180, 270} && z in {0, 90, 180, 270}
    requires x + y - z == 360 * turns
    ensures x / 90 + y / 90 == z / 90 + (if x + y == z then 0 else 4)
  {
    assert turns == 0 || turns == 1;
  }

  lemma MultipleIsExact(deg: int) returns (turns: int)
    requires deg % 90 == 0
    ensures deg == Normalize(deg) + 360 * turns
  {
    turns := NormalizeIsNearest(deg);
    NearMultiple(deg, Normalize(deg), turns);
  }

  lemma NearMultiple(deg: int, angle: int, turns: int)
    requires deg % 90 == 0 && angle in {0, 90, 180, 270}
    requires -45 <= deg - angle - 360 * turns < 45
    ensures deg == angle + 360 * turns
  {
  }

  // ---- The pixel loops. A buffer is indexed by x and y.

  ghost function View<P>(a: array2<P>): (i: Image<P>)
    reads a
    ensures i.Valid() && i.w == a.Length0 && i.h == a.Length1
    ensures forall x, y :: 0 <= x < i.w && 0 <= y < i.h ==> i.At(x, y) == a[x, y]
  {
    Image(a.Length0, a.Length1,
          seq(a.Length1, y requires 0 <= y < a.Length1 reads a =>
                seq(a.Length0, x requires 0 <= x < a.Length0 && 0 <= y < a.Length1 reads a => a[x, y])))
  }

  method Rotate90<P(0)>(src: array2<P>) returns (dst: array2<P>)
    ensures fresh(dst) && View(dst) == Rot90(View(src))
    ensures dst.Length0 == src.Length1 && dst.Length1 == src.Length0
    ensures forall x, y :: 0 <= x < src.Length0 && 0 <= y < src.Length1 ==> dst[src.Length1 - 1 - y, x] == src[x, y]
  {
    var w, h := src.Length0, src.Length1;
    dst := new P[h, w];
    for y := 0 to h
      invariant forall i, j :: 0 <= i < w && 0 <= j < y ==> dst[h - 1 - j, i] == src[i, j]
    {
      for x := 0 to w
        invariant forall i, j :: 0 <= i < w && 0 <= j < y ==> dst[h - 1 - j, i] == src[i, j]
        invariant forall i :: 0 <= i < x ==> dst[h - 1 - y, i] == src[i, y]
      {
        dst[h - 1 - y, x] := src[x, y];
      }
    }
    forall x, y | 0 <= x < h && 0 <= y < w ensures dst[x, y] == src[y, h - 1 - x] {
      assert dst[h - 1 - (h - 1 - x), y] == src[y, h - 1 - x];
    }
    SameImage(View(dst), Rot90(View(src)));
  }

  method Rotate180<P(0)>(src: array2<P>) returns (dst: array2<P>)
    ensures fresh(dst) && View(dst) == Rot180(View(src))
    ensures dst.Length0 == src.Length0 && dst.Length1 == src.Length1
    ensures forall x, y :: 0 <= x < src.Length0 && 0 <= y < src.Length1 ==>
              dst[src.Length0 - 1 - x, src.Length1 - 1 - y] == src[x, y]
  {
    var w, h := src.Length0, src.Length1;
    dst := new P[w, h];
    for y := 0 to h
      invariant forall i, j :: 0 <= i < w && 0 <= j < y ==> dst[w - 1 - i, h - 1 - j] == src[i, j]
    {
      for x := 0 to w
        invariant forall i, j :: 0 <= i < w && 0 <= j < y ==> dst[w - 1 - i, h - 1 - j] == src[i, j]
        invariant forall i :: 0 <= i < x ==> dst[w - 1 - i, h - 1 - y] == src[i, y]
      {
        dst[w - 1 - x, h - 1 - y] := src[x, y];
      }
    }
    forall x, y | 0 <= x < w && 0 <= y < h ensures dst[x, y] == src[w - 1 - x, h - 1 - y] {
      assert dst[w - 1 - (w - 1 - x), h - 1 - (h - 1 - y)] == src[w - 1 - x, h - 1 - y];
    }
    SameImage(View(dst), Rot180(View(src)));
  }

  method Rotate270<P(0)>(src: array2<P>) returns (dst: array2<P>)
    ensures fresh(dst) && View(dst) == Rot270(View(src))
    ensures dst.Length0 == src.Length1 && dst.Length1 == src.Length0
    ensures forall x, y :: 0 <= x < src.Length0 && 0 <= y < src.Length1 ==> dst[y, src.Length0 - 1 - x] == src[x, y]
  {
    var w, h := src.Length0, src.Length1;
    dst := new P[h, w];
    for y := 0 to h
      invariant forall i, j :: 0 <= i < w && 0 <= j < y ==> dst[j, w - 1 - i] == src[i, j]
    {
      for x := 0 to w
        invariant forall i, j :: 0 <= i < w && 0 <= j < y ==> dst[j, w - 1 - i] == src[i, j]
        invariant forall i :: 0 <= i < x ==> dst[y, w - 1 - i] == src[i, y]
      {
        dst[y, w - 1 - x] := src[x, y];
      }
    }
    forall x, y | 0 <= x < h && 0 <= y < w ensures dst[x, y] == src[w - 1 - y, x] {
      assert dst[x, w - 1 - (w - 1 - y)] == src[w - 1 - y, x];
    }
    SameImage(View(dst), Rot270(View(src)));
  }
}
