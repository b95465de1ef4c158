// What the overlap of two boxes measures, said in points and in cells.
module Overlap {
  import opened Nms

  // ---- Real boxes.

  predicate Covers(d: Detection, x: real, y: real) {
    d.x1 <= x < d.x2 && d.y1 <= y < d.y2
  }

  // c holds exactly the points that a and b have in common.
  ghost predicate IsCommonPart(c: Detection, a: Detection, b: Detection) {
    forall x, y :: Covers(c, x, y) <==> Covers(a, x, y) && Covers(b, x, y)
  }

  lemma CommonCorners(a: Detection, b: Detection, c: Detection)
    requires Proper(a) && Proper(b) && Proper(c) && IsCommonPart(c, a, b)
    ensures c.x1 == Max(a.x1, b.x1) && c.y1 == Max(a.y1, b.y1)
    ensures c.x2 == Min(a.x2, b.x2) && c.y2 == Min(a.y2, b.y2)
  {
    var left, top, right, bottom := Max(a.x1, b.x1), Max(a.y1, b.y1), Min(a.x2, b.x2), Min(a.y2, b.y2);
    assert Covers(c, c.x1, c.y1);
    assert Covers(c, left, c.y1) && Covers(c, c.x1, top);
    assert c.x2 < right ==> Covers(c, c.x2, c.y1);
    assert c.y2 < bottom ==> Covers(c, c.x1, c.y2);
    assert right < c.x2 ==> Covers(c, right, c.y1);
    assert bottom < c.y2 ==> Covers(c, c.x1, bottom);
  }

  // The area of the common part over the area of both together, that is of one and the
  // other less the common part, up to the constant that keeps the denominator positive.
  lemma IouOfCommonPart(a: Detection, b: Detection, c: Detection)
    requires Proper(a) && Proper(b) && Proper(c) && IsCommonPart(c, a, b)
    ensures var all := Area(a) + Area(b) - Area(c);
            0.0 < Area(c) <= all && Iou(a, b) == Area(c) / (all + 0.000001)
  {
    CommonArea(a, b, c);
    IouOfIntersection(a, b);
    hide Area, Iou, Intersection, Proper, IsCommonPart;
  }

  lemma IouOfIntersection(a: Detection, b: Detection)
    requires Proper(a) && Proper(b)
    ensures var all := Area(a) + Area(b) - Intersection(a, b);
            Intersection(a, b) <= all && Iou(a, b) == Intersection(a, b) / (all + 0.000001)
  {
    IntersectionIsInside(a, b);
    IntersectionIsInside(b, a);
    IntersectionIsSymmetric(a, b);
    hide Intersection, Area, Proper;
  }

  lemma CommonArea(a: Detection, b: Detection, c: Detection)
    requires Proper(a) && Proper(b) && Proper(c) && IsCommonPart(c, a, b)
    ensures Intersection(a, b) == Area(c) > 0.0
  {
    CommonCorners(a, b, c);
    hide IsCommonPart;
  }

  // Boxes without a common point do not overlap, whether or not they touch.
  lemma IouOfApart(a: Detection, b: Detection)
    requires Proper(a) && Proper(b)
    ensures Iou(a, b) == 0.0 <==> forall x, y :: !(Covers(a, x, y) && Covers(b, x, y))
  {
    var left, top, right, bottom := Max(a.x1, b.x1), Max(a.y1, b.y1), Min(a.x2, b.x2), Min(a.y2, b.y2);
    if left < right && top < bottom {
      var c := Detection(0, 0.0, left, top, right, bottom);
      IouOfCommonPart(a, b, c);
      assert Covers(a, left, top) && Covers(b, left, top);
      PositiveRatio(Intersection(a, b), Union(a, b));
    } else {
      IouIsAFraction(a, b);
    }
  }

  lemma PositiveRatio(i: real, u: real)
    requires i > 0.0 && u > 0.0
    ensures i / u > 0.0
  {
  }

  // A box inside another: the ratio of their areas.
  lemma IouOfInside(a: Detection, b: Detection)
    requires Proper(a) && Proper(b)
    requires b.x1 <= a.x1 && a.x2 <= b.x2 && b.y1 <= a.y1 && a.y2 <= b.y2
    ensures Iou(a, b) == Area(a) / (Area(b) + 0.000001)
  {
    IouOfCommonPart(a, b, a);
  }

  // ---- Boxes with whole coordinates.

  datatype Cell = Cell(x: int, y: int)

  // The unit cells of a box.
  function Cells(x1: int, y1: int, x2: int, y2: int): set<Cell> {
    set x, y | x1 <= x < x2 && y1 <= y < y2 :: Cell(x, y)
  }

  lemma {:induction false} CountColumn(x: int, y1: int, y2: int)
    requires y1 <= y2
    ensures |Cells(x, y1, x + 1, y2)| == y2 - y1
    decreases y2 - y1
  {
    if y1 < y2 {
      CountColumn(x, y1, y2 - 1);
      assert Cells(x, y1, x + 1, y2) == Cells(x, y1, x + 1, y2 - 1) + {Cell(x, y2 - 1)};
    } else {
      assert Cells(x, y1, x + 1, y2) == {};
    }
  }

  lemma {:induction false} CountCells(x1: int, y1: int, x2: int, y2: int)
    requires x1 <= x2 && y1 <= y2
    ensures |Cells(x1, y1, x2, y2)| == (x2 - x1) * (y2 - y1)
    decreases x2 - x1
  {
    if x1 < x2 {
      CountCells(x1, y1, x2 - 1, y2);
      CountColumn(x2 - 1, y1, y2);
      assert Cells(x1, y1, x2, y2) == Cells(x1, y1, x2 - 1, y2) + Cells(x2 - 1, y1, x2, y2);
      assert Cells(x1, y1, x2 - 1, y2) !! Cells(x2 - 1, y1, x2, y2);
      assert (x2 - x1) * (y2 - y1) == (x2 - 1 - x1) * (y2 - y1) + (y2 - y1);
    } else {
      assert Cells(x1, y1, x2, y2) == {};
    }
  }

  function BoxCells(d: Detection): set<Cell> {
    Cells(d.x1.Floor, d.y1.Floor, d.x2.Floor, d.y2.Floor)
  }

  predicate IsWhole(d: Detection) {
    && d.x1 == d.x1.Floor as real && d.x2 == d.x2.Floor as real
    && d.y1 == d.y1.Floor as real && d.y2 == d.y2.Floor as real
  }

  lemma AreaIsCells(d: Detection)
    requires Proper(d) && IsWhole(d)
    ensures Area(d) == |BoxCells(d)| as real
  {
    CountCells(d.x1.Floor, d.y1.Floor, d.x2.Floor, d.y2.Floor);
    RealProduct(d.x2.Floor - d.x1.Floor, d.y2.Floor - d.y1.Floor);
  }

  lemma RealProduct(m: int, n: int)
    ensures (m as real) * (n as real) == (m * n) as real
  {
  }

  function IntMax(a: int, b: int): int {
    if a >= b then a else b
  }

  function IntMin(a: int, b: int): int {
    if a <= b then a else b
  }

  lemma CommonCells(a: Detection, b: Detection)
    ensures BoxCells(a) * BoxCells(b) ==
            Cells(IntMax(a.x1.Floor, b.x1.Floor), IntMax(a.y1.Floor, b.y1.Floor),
                  IntMin(a.x2.Floor, b.x2.Floor), IntMin(a.y2.Floor, b.y2.Floor))
  {
  }

  // A side of the common part, whole or empty.
  lemma WholeSide(a1: real, b1: real, a2: real, b2: real)
    requires a1 == a1.Floor as real && b1 == b1.Floor as real && a2 == a2.Floor as real && b2 == b2.Floor as real
    ensures var side := IntMin(a2.Floor, b2.Floor) - IntMax(a1.Floor, b1.Floor);
            Max(0.0, Min(a2, b2) - Max(a1, b1)) == IntMax(0, side) as real
  {
  }

  lemma CellsOfSides(x1: int, y1: int, x2: int, y2: int)
    ensures |Cells(x1, y1, x2, y2)| == IntMax(0, x2 - x1) * IntMax(0, y2 - y1)
  {
    if x1 <= x2 && y1 <= y2 {
      CountCells(x1, y1, x2, y2);
    } else {
      assert Cells(x1, y1, x2, y2) == {};
      assert IntMax(0, x2 - x1) == 0 || IntMax(0, y2 - y1) == 0;
    }
  }

  lemma IntersectionOfSides(a: Detection, b: Detection, m: int, n: int)
    requires OverlapX(a, b) == m as real && OverlapY(a, b) == n as real
    ensures Intersection(a, b) == (m * n) as real
  {
    hide OverlapX, OverlapY;
    RealProduct(m, n);
  }

  lemma IntersectionIsCommonCells(a: Detection, b: Detection)
    requires IsWhole(a) && IsWhole(b)
    ensures Intersection(a, b) == |BoxCells(a) * BoxCells(b)| as real
  {
    hide BoxCells, Cells, Intersection, IntMax, IntMin, Max, Min;
    CommonCells(a, b);
    var x1, y1 := IntMax(a.x1.Floor, b.x1.Floor), IntMax(a.y1.Floor, b.y1.Floor);
    var x2, y2 := IntMin(a.x2.Floor, b.x2.Floor), IntMin(a.y2.Floor, b.y2.Floor);
    WholeSide(a.x1, b.x1, a.x2, b.x2);
    WholeSide(a.y1, b.y1, a.y2, b.y2);
    CellsOfSides(x1, y1, x2, y2);
    IntersectionOfSides(a, b, IntMax(0, x2 - x1), IntMax(0, y2 - y1));
  }

  // The overlap of boxes with whole coordinates: how many cells they have in common over
  // how many they have together.
  lemma IouCountsCells(a: Detection, b: Detection)
    requires Proper(a) && Proper(b) && IsWhole(a) && IsWhole(b)
    ensures Iou(a, b) == |BoxCells(a) * BoxCells(b)| as real / (|BoxCells(a) + BoxCells(b)| as real + 0.000001)
  {
    AreaIsCells(a);
    AreaIsCells(b);
    IntersectionIsCommonCells(a, b);
    assert |BoxCells(a)| + |BoxCells(b)| == |BoxCells(a) + BoxCells(b)| + |BoxCells(a) * BoxCells(b)|;
  }
}
