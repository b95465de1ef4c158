// The merged canvas: a grid of cells, one scaled camera picture centred in each.
module Compose {
  import opened GoInts
  import opened Reals
  import opened Sets
  import opened Sorting
  import opened Wrappers

  // ---- The grid.

  // The least c >= from with n <= c * c.
  function RootFrom(n: nat, from: nat): (c: nat)
    requires from == 0 || (from - 1) * (from - 1) < n
    ensures n <= c * c && (c == 0 || (c - 1) * (c - 1) < n)
    decreases n + 1 - from
  {
    if n <= from * from then from
    else
      SquareAtLeast(from);
      RootFrom(n, from + 1)
  }

  lemma SquareAtLeast(from: nat)
    ensures from <= from * from
  {
  }

  datatype Grid = Grid(cols: nat, rows: nat)

  // gridLayout, with the square root exact.
  function GridLayout(n: nat): (g: Grid)
    ensures n > 0 ==> g.cols > 0
  {
    if n == 0 then Grid(0, 0)
    else
      var cols := RootFrom(n, 0);
      Grid(cols, (n + cols - 1) / cols)
  }

  // Every picture has a cell, no row is empty, and the grid is the narrowest that is not
  // higher than wide.
  lemma GridIsTight(n: nat)
    requires n > 0
    ensures var g := GridLayout(n);
            && (g.rows - 1) * g.cols < n <= g.rows * g.cols
            && 0 < g.rows <= g.cols
            && (g.cols - 1) * (g.cols - 1) < n <= g.cols * g.cols
  {
    RoundedUp(n, RootFrom(n, 0));
  }

  lemma RoundedUp(n: nat, cols: nat)
    requires 0 < n <= cols * cols && cols > 0
    ensures var rows := (n + cols - 1) / cols;
            (rows - 1) * cols < n <= rows * cols && 0 < rows <= cols
  {
    var x, rows := n + cols - 1, (n + cols - 1) / cols;
    Expand(rows, cols);
    Expand(cols, cols);
    QuotientAtLeast(x, cols, rows);
    QuotientAtLeast(x, cols, rows + 1);
    QuotientAtLeast(x, cols, 1);
    QuotientAtLeast(x, cols, cols + 1);
  }

  lemma Expand(a: int, b: int)
    ensures (a + 1) * b == a * b + b && (a - 1) * b == a * b - b
  {
  }

  // ---- Fitting a picture into a cell.

  datatype Size = Size(w: nat, h: nat)

  function Scale(src: Size, max: Size): (s: real)
    requires src.w > 0 && src.h > 0
    ensures 0.0 <= s
    ensures src.w as real * s <= max.w as real && src.h as real * s <= max.h as real
    ensures src.w as real * s == max.w as real || src.h as real * s == max.h as real
  {
    var sx, sy := max.w as real / src.w as real, max.h as real / src.h as real;
    Ratio(max.w, src.w);
    Ratio(max.h, src.h);
    if sy < sx then
      MulMonotone(src.w as real, sy, sx);
      sy
    else
      MulMonotone(src.h as real, sx, sy);
      sx
  }

  lemma Ratio(a: nat, b: nat)
    requires b > 0
    ensures 0.0 <= a as real / b as real && b as real * (a as real / b as real) == a as real
  {
    var q := a as real / b as real;
    assert q * b as real == a as real;
  }

  // The size fitImage gives a picture: inside the cell, and as large as the cell in one
  // direction. A picture without pixels becomes a blank one of the cell's size.
  function FitSize(src: Size, max: Size): (d: Size)
    ensures d.w <= max.w && d.h <= max.h
    ensures d.w == max.w || d.h == max.h
  {
    if src.w == 0 || src.h == 0 then max
    else
      var s := Scale(src, max);
      MulNonNegative(src.w as real, s);
      MulNonNegative(src.h as real, s);
      Size((src.w as real * s).Floor, (src.h as real * s).Floor)
  }

  lemma MulNonNegative(a: real, b: real)
    requires a >= 0.0 && b >= 0.0
    ensures a * b >= 0.0
  {
  }

  // The picture keeps its proportions up to less than a pixel in each direction.
  lemma ProportionsAreKept(src: Size, max: Size)
    requires src.w > 0 && src.h > 0
    ensures var d := FitSize(src, max);
            d.w * src.h - d.h * src.w < src.w && d.h * src.w - d.w * src.h < src.h
  {
    hide *;
    var s := FitSizeIsScaled(src, max);
    SameArea(s, src, FitSize(src, max));
  }

  lemma FitSizeIsScaled(src: Size, max: Size) returns (s: real)
    requires src.w > 0 && src.h > 0
    ensures FitSize(src, max).w == (src.w as real * s).Floor
    ensures FitSize(src, max).h == (src.h as real * s).Floor
  {
    s := Scale(src, max);
  }

  lemma SameArea(s: real, src: Size, d: Size)
    requires src.w > 0 && src.h > 0
    requires d.w == (src.w as real * s).Floor && d.h == (src.h as real * s).Floor
    ensures d.w * src.h - d.h * src.w < src.w && d.h * src.w - d.w * src.h < src.h
  {
    var p, t := FloorTimes(src.w as real * s, d.w, src.h);
    var q, u := FloorTimes(src.h as real * s, d.h, src.w);
    assert t == u;
    Closer(p, q, src.w, src.h, t);
  }

  // x cut down to an integer n, times k.
  lemma FloorTimes(x: real, n: int, k: nat) returns (p: int, t: real)
    requires n == x.Floor && k > 0
    ensures p == n * k && t == x * k as real
    ensures p as real <= t < p as real + k as real
  {
    p := n * k;
    Product(n, k);
    var low;
    low, t := Between(x, n as real, k as real);
  }

  lemma Product(a: int, b: int)
    ensures (a * b) as real == a as real * b as real
  {
  }

  lemma Closer(p: int, q: int, a: int, b: int, t: real)
    requires p as real <= t < p as real + b as real
    requires q as real <= t < q as real + a as real
    ensures p - q < a && q - p < b
  {
  }

  lemma Between(x: real, m: real, r: real) returns (low: real, t: real)
    requires m <= x < m + 1.0 && r > 0.0
    ensures low == m * r && t == x * r
    ensures low <= t < low + r
  {
    low, t := m * r, x * r;
    var gap := x - m;
    assert t - low == gap * r;
    assert gap * r < 1.0 * r;
    assert 0.0 <= gap * r;
  }

  // The source pixel behind pixel x of a picture scaled from n to d pixels.
  function Sample(x: nat, n: nat, d: nat): (s: nat)
    requires x < d
    ensures n > 0 ==> s < n
  {
    SampleIsInside(x, n, d);
    x * n / d
  }

  lemma SampleIsInside(x: nat, n: nat, d: nat)
    requires x < d
    ensures n > 0 ==> x * n / d < n
  {
    if n > 0 {
      assert x * n < d * n;
    }
    QuotientAtLeast(x * n, d, n);
  }

  // It is the source pixel that the left edge of pixel x falls into, on a line that both
  // pictures cover with equal pixels of their own.
  lemma SampleIsBehind(x: nat, n: nat, d: nat, s: nat)
    requires x < d
    ensures Sample(x, n, d) == s <==> s * d <= x * n < (s + 1) * d
    ensures forall x' :: x <= x' < d ==> Sample(x, n, d) <= Sample(x', n, d)
  {
    QuotientAtLeast(x * n, d, s);
    QuotientAtLeast(x * n, d, s + 1);
    forall x' | x <= x' < d ensures Sample(x, n, d) <= Sample(x', n, d) {
      assert x * n <= x' * n;
      QuotientAtLeast(x * n, d, Sample(x, n, d));
      QuotientAtLeast(x' * n, d, Sample(x, n, d));
    }
  }

  // A scaled picture shows, at each of its pixels, the source pixel behind it.
  lemma ScaledShows<P>(src: array2<P>, zero: P, x: nat, y: nat, w: nat, h: nat, sx: nat, sy: nat)
    requires x < w && y < h && sx < src.Length0 && sy < src.Length1
    requires sx * w <= x * src.Length0 < (sx + 1) * w
    requires sy * h <= y * src.Length1 < (sy + 1) * h
    ensures Scaled(src, zero, x, y, w, h) == src[sx, sy]
  {
    SampleIsBehind(x, src.Length0, w, sx);
    SampleIsBehind(y, src.Length1, h, sy);
  }

  // fitImage. A blank picture is one of zero pixels.
  method FitImage<P>(src: array2<P>, max: Size, zero: P) returns (dst: array2<P>)
    ensures dst == src || fresh(dst)
    ensures Size(dst.Length0, dst.Length1) == FitSize(Size(src.Length0, src.Length1), max)
    ensures forall x, y :: 0 <= x < dst.Length0 && 0 <= y < dst.Length1 ==>
              dst[x, y] == Scaled(src, zero, x, y, dst.Length0, dst.Length1)
  {
    var srcW, srcH := src.Length0, src.Length1;
    var size := FitSize(Size(srcW, srcH), max);
    if srcW == 0 || srcH == 0 {
      dst := new P[max.w, max.h]((_, _) => zero);
      return;
    }
    if size == Size(srcW, srcH) {
      forall x: nat, n: nat | x < n ensures Sample(x, n, n) == x {
        SampleOfSame(x, n);
      }
      return src;
    }
    dst := new P[size.w, size.h]((_, _) => zero);
    for y := 0 to size.h
      invariant forall i, j :: 0 <= i < size.w && 0 <= j < y ==> dst[i, j] == Scaled(src, zero, i, j, size.w, size.h)
    {
      for x := 0 to size.w
        invariant forall i, j :: 0 <= i < size.w && 0 <= j < y ==> dst[i, j] == Scaled(src, zero, i, j, size.w, size.h)
        invariant forall i :: 0 <= i < x ==> dst[i, y] == Scaled(src, zero, i, y, size.w, size.h)
      {
        dst[x, y] := src[Sample(x, srcW, size.w), Sample(y, srcH, size.h)];
      }
    }
  }

  // Pixel (x, y) of src scaled to w by h pixels.
  function Scaled<P>(src: array2<P>, zero: P, x: int, y: int, w: nat, h: nat): P
    requires 0 <= x < w && 0 <= y < h
    reads src
  {
    if src.Length0 == 0 || src.Length1 == 0 then zero
    else src[Sample(x, src.Length0, w), Sample(y, src.Length1, h)]
  }

  lemma SampleOfSame(x: nat, n: nat)
    requires x < n
    ensures Sample(x, n, n) == x
  {
    assert (x + 1) * n == x * n + n;
    QuotientOf(x * n, n, x);
  }

  // ---- Placement.

  datatype Rect = Rect(x: nat, y: nat, w: nat, h: nat)
  {
    predicate Contains(px: int, py: int) {
      x <= px < x + w && y <= py < y + h
    }
  }

  // Where Canvas puts picture i of the given size.
  function Place(i: nat, g: Grid, cell: Size, size: Size): (r: Rect)
    requires g.cols > 0 && size.w <= cell.w && size.h <= cell.h
  {
    Rect((i % g.cols) * cell.w + (cell.w - size.w) / 2, (i / g.cols) * cell.h + (cell.h - size.h) / 2, size.w, size.h)
  }

  lemma MulAtMost(a: int, b: int, c: int)
    requires a < b && c >= 0
    ensures a * c + c <= b * c
  {
    assert a * c + c == (a + 1) * c;
    assert (a + 1) * c <= b * c;
  }

  // The rectangle lies in the cell of that column and row.
  ghost predicate InCell(r: Rect, col: nat, row: nat, cell: Size) {
    && col * cell.w <= r.x && r.x + r.w <= col * cell.w + cell.w
    && row * cell.h <= r.y && r.y + r.h <= row * cell.h + cell.h
  }

  // In the middle of its cell, up to the odd pixel, which is on the right and at the bottom.
  ghost predicate InTheMiddle(r: Rect, col: nat, row: nat, cell: Size) {
    var left, right := r.x - col * cell.w, col * cell.w + cell.w - (r.x + r.w);
    var above, below := r.y - row * cell.h, row * cell.h + cell.h - (r.y + r.h);
    left <= right <= left + 1 && above <= below <= above + 1
  }

  // A picture stays inside its own cell, in its middle, and inside the canvas.
  lemma PlacedInside(i: nat, n: nat, cell: Size, size: Size) returns (col: nat, row: nat)
    requires i < n && size.w <= cell.w && size.h <= cell.h
    ensures var g := GridLayout(n);
            var r := Place(i, g, cell, size);
            && i == row * g.cols + col && col < g.cols
            && (r.w, r.h) == (size.w, size.h)
            && InCell(r, col, row, cell) && InTheMiddle(r, col, row, cell)
            && r.x + r.w <= g.cols * cell.w
            && r.y + r.h <= g.rows * cell.h
  {
    var g := GridLayout(n);
    GridIsTight(n);
    QuotientAtLeast(i, g.cols, g.rows);
    col, row := i % g.cols, i / g.cols;
    MulAtMost(col, g.cols, cell.w);
    MulAtMost(row, g.rows, cell.h);
  }

  // Two intervals that lie in different cells of a row share nothing.
  lemma IntervalsApart(i: nat, j: nat, cell: nat, x: int, w: int, y: int, v: int, p: int)
    requires i != j
    requires i * cell <= x && x + w <= i * cell + cell
    requires j * cell <= y && y + v <= j * cell + cell
    ensures !(x <= p < x + w && y <= p < y + v)
  {
    if i < j {
      MulAtMost(i, j, cell);
    } else {
      MulAtMost(j, i, cell);
    }
  }

  lemma CellsAreApart(r: Rect, col: nat, row: nat, r': Rect, col': nat, row': nat, cell: Size, px: int, py: int)
    requires InCell(r, col, row, cell) && InCell(r', col', row', cell)
    requires col != col' || row != row'
    ensures !(r.Contains(px, py) && r'.Contains(px, py))
  {
    if col != col' {
      IntervalsApart(col, col', cell.w, r.x, r.w, r'.x, r'.w, px);
    } else {
      IntervalsApart(row, row', cell.h, r.y, r.h, r'.y, r'.h, py);
    }
  }

  // No pixel belongs to two pictures.
  lemma PlacedApart(i: nat, j: nat, n: nat, cell: Size, a: Size, b: Size, px: int, py: int)
    requires i < n && j < n && i != j
    requires a.w <= cell.w && a.h <= cell.h && b.w <= cell.w && b.h <= cell.h
    ensures var g := GridLayout(n);
            !(Place(i, g, cell, a).Contains(px, py) && Place(j, g, cell, b).Contains(px, py))
  {
    hide *;
    var g := GridLayout(n);
    var col, row := PlacedInside(i, n, cell, a);
    var col', row' := PlacedInside(j, n, cell, b);
    CellsAreApart(Place(i, g, cell, a), col, row, Place(j, g, cell, b), col', row', cell, px, py);
  }

  // ---- Drawing.

  // draw.Draw of a whole picture.
  method DrawImage<P>(canvas: array2<P>, img: array2<P>, r: Rect)
    requires canvas != img
    requires r.w == img.Length0 && r.h == img.Length1
    requires r.x + r.w <= canvas.Length0 && r.y + r.h <= canvas.Length1
    modifies canvas
    ensures forall px, py :: 0 <= px < canvas.Length0 && 0 <= py < canvas.Length1 ==>
              canvas[px, py] == if r.Contains(px, py) then img[px - r.x, py - r.y] else old(canvas[px, py])
  {
    for y := 0 to r.h
      invariant forall px, py :: 0 <= px < canvas.Length0 && 0 <= py < canvas.Length1 ==>
                  canvas[px, py] == if r.Contains(px, py) && py < r.y + y then img[px - r.x, py - r.y] else old(canvas[px, py])
    {
      for x := 0 to r.w
        invariant forall px, py :: 0 <= px < canvas.Length0 && 0 <= py < canvas.Length1 ==>
                    canvas[px, py] ==
                    if r.Contains(px, py) && (py < r.y + y || (py == r.y + y && px < r.x + x))
                    then img[px - r.x, py - r.y] else old(canvas[px, py])
      {
        canvas[r.x + x, r.y + y] := img[x, y];
      }
    }
  }

  // The rectangle of picture i on the canvas.
  function RectOf<P>(images: seq<array2<P>>, cell: Size, i: nat): (r: Rect)
    requires i < |images|
  {
    var size := FitSize(Size(images[i].Length0, images[i].Length1), cell);
    Place(i, GridLayout(|images|), cell, size)
  }

  lemma RectsAreApart<P>(images: seq<array2<P>>, cell: Size, i: nat, j: nat, px: int, py: int)
    requires i < |images| && j < |images| && i != j
    ensures !(RectOf(images, cell, i).Contains(px, py) && RectOf(images, cell, j).Contains(px, py))
  {
    PlacedApart(i, j, |images|, cell, FitSize(Size(images[i].Length0, images[i].Length1), cell),
                FitSize(Size(images[j].Length0, images[j].Length1), cell), px, py);
  }

  lemma RectIsPlace<P>(images: seq<array2<P>>, cell: Size, i: nat, size: Size)
    requires i < |images| && size == FitSize(Size(images[i].Length0, images[i].Length1), cell)
    ensures GridLayout(|images|).cols > 0
    ensures RectOf(images, cell, i) == Place(i, GridLayout(|images|), cell, size)
    ensures size == Size(RectOf(images, cell, i).w, RectOf(images, cell, i).h)
  {
  }

  // p is what a canvas showing the first k pictures has at (px, py): every picture is
  // there in full, scaled, and everything else is zero.
  ghost predicate IsPixel<P>(images: seq<array2<P>>, cell: Size, zero: P, k: nat, px: int, py: int, p: P)
    requires k <= |images|
    reads images
  {
    && (forall i :: 0 <= i < k && RectOf(images, cell, i).Contains(px, py) ==>
          var r := RectOf(images, cell, i);
          p == Scaled(images[i], zero, px - r.x, py - r.y, r.w, r.h))
    && ((forall i :: 0 <= i < k ==> !RectOf(images, cell, i).Contains(px, py)) ==> p == zero)
  }

  lemma PixelKept<P>(images: seq<array2<P>>, cell: Size, zero: P, k: nat, px: int, py: int, p: P)
    requires k < |images| && !RectOf(images, cell, k).Contains(px, py)
    requires IsPixel(images, cell, zero, k, px, py, p)
    ensures IsPixel(images, cell, zero, k + 1, px, py, p)
  {
  }

  lemma PixelDrawn<P>(images: seq<array2<P>>, cell: Size, zero: P, k: nat, px: int, py: int, p: P)
    requires k < |images|
    requires var r := RectOf(images, cell, k);
             r.Contains(px, py) && p == Scaled(images[k], zero, px - r.x, py - r.y, r.w, r.h)
    ensures IsPixel(images, cell, zero, k + 1, px, py, p)
  {
    forall i | 0 <= i < k ensures !RectOf(images, cell, i).Contains(px, py) {
      RectsAreApart(images, cell, i, k, px, py);
    }
  }

  lemma NoPictureYet<P>(images: seq<array2<P>>, cell: Size, zero: P, px: int, py: int)
    ensures IsPixel(images, cell, zero, 0, px, py, zero)
  {
  }

  // The drawing of Canvas, from the decoded pictures in their order.
  method DrawCells<P>(images: seq<array2<P>>, cell: Size, zero: P) returns (canvas: array2<P>)
    requires |images| > 0
    ensures fresh(canvas)
    ensures canvas.Length0 == GridLayout(|images|).cols * cell.w
    ensures canvas.Length1 == GridLayout(|images|).rows * cell.h
    ensures forall px, py :: 0 <= px < canvas.Length0 && 0 <= py < canvas.Length1 ==>
              IsPixel(images, cell, zero, |images|, px, py, canvas[px, py])
  {
    hide GridLayout, Place, RectOf, FitSize, Scaled, IsPixel;
    var n := |images|;
    var g := GridLayout(n);
    canvas := new P[g.cols * cell.w, g.rows * cell.h]((_, _) => zero);
    forall px, py ensures IsPixel(images, cell, zero, 0, px, py, zero) {
      NoPictureYet(images, cell, zero, px, py);
    }
    for k := 0 to n
      invariant canvas !in images
      invariant forall px, py :: 0 <= px < canvas.Length0 && 0 <= py < canvas.Length1 ==>
                  IsPixel(images, cell, zero, k, px, py, canvas[px, py])
    {
      var scaled := FitImage(images[k], cell, zero);
      var size := Size(scaled.Length0, scaled.Length1);
      var r := Place(k, g, cell, size);
      assert r == RectOf(images, cell, k) && size == Size(r.w, r.h) by {
        RectIsPlace(images, cell, k, size);
      }
      ghost var _, _ := PlacedInside(k, n, cell, size);
      label before: DrawImage(canvas, scaled, r);
      forall px, py | 0 <= px < canvas.Length0 && 0 <= py < canvas.Length1
        ensures IsPixel(images, cell, zero, k + 1, px, py, canvas[px, py])
      {
        if r.Contains(px, py) {
          PixelDrawn(images, cell, zero, k, px, py, canvas[px, py]);
        } else {
          assert IsPixel(images, cell, zero, k, px, py, old@before(canvas[px, py]));
          PixelKept(images, cell, zero, k, px, py, canvas[px, py]);
        }
      }
    }
  }

  // ---- Which pictures are drawn, and in which order.

  predicate Smaller(a: nat, b: nat) {
    a < b
  }

  predicate Ascending(ids: seq<nat>) {
    forall i, j :: 0 <= i < j < |ids| ==> ids[i] < ids[j]
  }

  lemma {:induction false} OnceEach(ids: seq<nat>, s: set<nat>)
    requires multiset(ids) == multiset(s) && Sorted(ids, Smaller)
    ensures Ascending(ids) && forall id :: id in ids <==> id in s
  {
    forall id ensures id in ids <==> id in s {
      assert id in ids <==> id in multiset(ids);
    }
    forall i, j | 0 <= i < j < |ids| ensures ids[i] < ids[j] {
      assert !Smaller(ids[j], ids[i]);
      if ids[i] == ids[j] {
        TwiceInSequence(ids, i, j);
      }
    }
  }

  lemma TwiceInSequence(ids: seq<nat>, i: nat, j: nat)
    requires i < j < |ids| && ids[i] == ids[j]
    ensures multiset(ids)[ids[i]] >= 2
  {
    assert ids == ids[..j] + ids[j..];
    assert ids[i] in ids[..j] && ids[j] in ids[j..];
  }

  method SortedIds(frames: set<nat>) returns (ids: seq<nat>)
    ensures Ascending(ids) && forall id :: id in ids <==> id in frames
  {
    var found: seq<nat> := [];
    var todo := frames;
    while todo != {}
      invariant todo <= frames && multiset(found) == multiset(frames - todo)
      decreases |todo|
    {
      ghost var _ := SomeElement(todo);
      var id :| id in todo;
      assert frames - (todo - {id}) == (frames - todo) + {id};
      found := found + [id];
      todo := todo - {id};
    }
    assert frames - {} == frames;
    ids := SortSlice(found, Smaller);
    OnceEach(ids, frames);
  }

  // The pictures of the given cameras.
  function PicturesOf<P>(pictures: map<nat, Option<array2<P>>>, ids: seq<nat>): seq<array2<P>>
    requires forall i :: 0 <= i < |ids| ==> ids[i] in pictures && pictures[ids[i]].Some?
  {
    seq(|ids|, i requires 0 <= i < |ids| => pictures[ids[i]].value)
  }

  // The cells: the cameras whose frame can be decoded, in the order of their ids.
  method Cells<P>(pictures: map<nat, Option<array2<P>>>) returns (images: seq<array2<P>>, shown: seq<nat>)
    ensures Ascending(shown) && forall id :: id in shown <==> id in pictures && pictures[id].Some?
    ensures images == PicturesOf(pictures, shown)
  {
    var ids := SortedIds(pictures.Keys);
    images, shown := [], [];
    assert PicturesOf(pictures, []) == [];
    for k := 0 to |ids|
      invariant Ascending(shown)
      invariant forall id :: id in shown <==> id in ids[..k] && pictures[id].Some?
      invariant forall i :: 0 <= i < |shown| ==> shown[i] in pictures && pictures[shown[i]].Some?
      invariant images == PicturesOf(pictures, shown)
    {
      hide Ascending;
      var id := ids[k];
      assert ids[..k + 1] == ids[..k] + [id];
      if pictures[id].Some? {
        ShownOneMore(ids, k, shown);
        assert PicturesOf(pictures, shown + [id]) == PicturesOf(pictures, shown) + [pictures[id].value];
        images, shown := images + [pictures[id].value], shown + [id];
      }
    }
    assert ids[..|ids|] == ids;
  }

  lemma ShownOneMore(ids: seq<nat>, k: nat, shown: seq<nat>)
    requires k < |ids| && Ascending(ids) && Ascending(shown) && forall id :: id in shown ==> id in ids[..k]
    ensures Ascending(shown + [ids[k]])
  {
    forall i | 0 <= i < |shown| ensures shown[i] < ids[k] {
      assert shown[i] in ids[..k];
    }
  }

  // Canvas. A frame that cannot be decoded has no picture; with no picture at all there is
  // no canvas.
  method Canvas<P>(pictures: map<nat, Option<array2<P>>>, cell: Size, zero: P)
    returns (canvas: Option<array2<P>>, ghost shown: seq<nat>)
    ensures Ascending(shown) && forall id :: id in shown <==> id in pictures && pictures[id].Some?
    ensures canvas.None? <==> shown == []
    ensures canvas.Some? ==>
              var c := canvas.value;
              && fresh(c)
              && c.Length0 == GridLayout(|shown|).cols * cell.w
              && c.Length1 == GridLayout(|shown|).rows * cell.h
              && forall px, py :: 0 <= px < c.Length0 && 0 <= py < c.Length1 ==>
                   IsPixel(PicturesOf(pictures, shown), cell, zero, |shown|, px, py, c[px, py])
  {
    hide GridLayout, IsPixel;
    var images;
    images, shown := Cells(pictures);
    if |images| == 0 {
      return None, shown;
    }
    var drawn := DrawCells(images, cell, zero);
    canvas := Some(drawn);
  }
}
