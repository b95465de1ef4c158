// Decoding the detector's output tensor: two memory layouts, the letterbox that has to be
// undone, and the boxes that come out. Floats are reals.
module Detect {
  import opened Wrappers
  import opened GoInts
  import opened Reals
  import opened Nms

  // ---- Letterbox.

  datatype Letterbox = Letterbox(scale: real, padLeft: int, padTop: int)

  function Clamp(v: real, lo: real, hi: real): real {
    if v < lo then lo else if v > hi then hi else v
  }

  // toOriginal, for one coordinate.
  function Unpad(v: real, pad: int, scale: real, size: int): real
    requires scale != 0.0
  {
    Clamp((v - pad as real) / scale, 0.0, size as real)
  }

  // The scaling and padding that letterbox applies to a w x h frame.
  function ScaleFor(w: int, h: int, targetW: int, targetH: int): (s: real)
    requires w > 0 && h > 0 && targetW > 0 && targetH > 0
    ensures s > 0.0
  {
    Positive(targetW, w);
    Positive(targetH, h);
    var ws, hs := targetW as real / w as real, targetH as real / h as real;
    if hs < ws then hs else ws
  }

  lemma Positive(a: int, b: int)
    requires a > 0 && b > 0
    ensures a as real / b as real > 0.0
  {
  }

  function Scaled(size: int, scale: real): int {
    (size as real * scale + 0.5).Floor
  }

  function LetterboxFor(w: int, h: int, targetW: int, targetH: int): (lb: Letterbox)
    requires w > 0 && h > 0 && targetW > 0 && targetH > 0
    ensures lb.scale > 0.0
  {
    var s := ScaleFor(w, h, targetW, targetH);
    Letterbox(s, Quo(targetW - Scaled(w, s), 2), Quo(targetH - Scaled(h, s), 2))
  }

  lemma ScaledFits(size: int, target: int, scale: real)
    requires size > 0 && target > 0 && 0.0 < scale <= target as real / size as real
    ensures 0 <= Scaled(size, scale) <= target
    ensures scale == target as real / size as real ==> Scaled(size, scale) == target
  {
    var q := target as real / size as real;
    assert q * size as real == target as real;
    assert 0.0 < size as real * scale by {
      MulPositive(size as real, scale);
    }
    assert size as real * scale <= size as real * q by {
      MulPositive(size as real, q - scale + 1.0);
      MulMonotone(size as real, scale, q);
    }
  }

  lemma MulPositive(a: real, b: real)
    requires a > 0.0 && b > 0.0
    ensures a * b > 0.0
  {
  }

  // The scaled frame, its sides rounded to the nearest pixel, and its padding lie inside
  // the target, it fills the target in one direction, and the paddings on its two sides
  // differ by a pixel at most.
  lemma LetterboxFits(w: int, h: int, targetW: int, targetH: int)
    requires w > 0 && h > 0 && targetW > 0 && targetH > 0
    ensures var lb := LetterboxFor(w, h, targetW, targetH);
            var newW, newH := Scaled(w, lb.scale), Scaled(h, lb.scale);
            && 0 <= lb.padLeft && lb.padLeft + newW <= targetW
            && 0 <= lb.padTop && lb.padTop + newH <= targetH
            && (newW == targetW || newH == targetH)
            && w as real * lb.scale - 0.5 < newW as real <= w as real * lb.scale + 0.5
            && h as real * lb.scale - 0.5 < newH as real <= h as real * lb.scale + 0.5
            && 0 <= (targetW - newW - lb.padLeft) - lb.padLeft <= 1
            && 0 <= (targetH - newH - lb.padTop) - lb.padTop <= 1
  {
    var s := ScaleFor(w, h, targetW, targetH);
    ScaledFits(w, targetW, s);
    ScaledFits(h, targetH, s);
  }

  // Where letterbox puts a coordinate of the original frame.
  function Pad(v: real, pad: int, scale: real): real {
    v * scale + pad as real
  }

  // Undoing the letterbox gives a coordinate back, moved to the border of the frame when it
  // lies outside.
  lemma UnpadOfPad(v: real, pad: int, scale: real, size: nat)
    requires scale > 0.0
    ensures var u := Unpad(Pad(v, pad, scale), pad, scale, size);
            && (v < 0.0 ==> u == 0.0)
            && (0.0 <= v <= size as real ==> u == v)
            && (v > size as real ==> u == size as real)
  {
    assert (v * scale) / scale == v;
  }

  // ---- The tensor.

  // Transposed means that the values of one box lie next to each other.
  datatype Layout = Layout(numChannels: nat, numBoxes: nat, transposed: bool)
  {
    function Size(): nat {
      numChannels * numBoxes
    }
  }

  function Offset(l: Layout, ch: nat, box: nat): nat {
    if l.transposed then box * l.numChannels + ch else ch * l.numBoxes + box
  }

  lemma OffsetIsInside(l: Layout, ch: nat, box: nat)
    requires ch < l.numChannels && box < l.numBoxes
    ensures Offset(l, ch, box) < l.Size()
  {
    if l.transposed {
      assert (box + 1) * l.numChannels <= l.numBoxes * l.numChannels;
    } else {
      assert (ch + 1) * l.numBoxes <= l.numChannels * l.numBoxes;
    }
  }

  function At(data: seq<real>, l: Layout, ch: nat, box: nat): real
    requires |data| == l.Size() && ch < l.numChannels && box < l.numBoxes
  {
    OffsetIsInside(l, ch, box);
    data[Offset(l, ch, box)]
  }

  // The values of one box.
  function Row(data: seq<real>, l: Layout, box: nat): (r: seq<real>)
    requires |data| == l.Size() && box < l.numBoxes
    ensures |r| == l.numChannels
  {
    seq(l.numChannels, ch requires 0 <= ch < l.numChannels => At(data, l, ch, box))
  }

  // Where the values of a box are: next to each other, or a whole channel apart.
  lemma RowInMemory(data: seq<real>, l: Layout, box: nat, ch: nat)
    requires |data| == l.Size() && box < l.numBoxes && ch < l.numChannels
    ensures var at := if l.transposed then box * l.numChannels + ch else ch * l.numBoxes + box;
            0 <= at < |data| && Row(data, l, box)[ch] == data[at]
  {
    OffsetIsInside(l, ch, box);
  }

  // A detection set, one row per box, written out in a layout.
  function EncodeRows(rows: seq<seq<real>>, l: Layout): (data: seq<real>)
    requires |rows| == l.numBoxes && forall b :: 0 <= b < |rows| ==> |rows[b]| == l.numChannels
    ensures |data| == l.Size()
  {
    seq(l.Size(), k requires 0 <= k < l.Size() => CellAt(rows, l, k))
  }

  function CellAt(rows: seq<seq<real>>, l: Layout, k: nat): real
    requires |rows| == l.numBoxes && forall b :: 0 <= b < |rows| ==> |rows[b]| == l.numChannels
    requires k < l.Size()
  {
    CellIsInside(l, k);
    if l.transposed then rows[k / l.numChannels][k % l.numChannels] else rows[k % l.numBoxes][k / l.numBoxes]
  }

  lemma PositiveFactors(a: nat, b: nat)
    requires a * b > 0
    ensures a > 0 && b > 0
  {
  }

  lemma CellIsInside(l: Layout, k: nat)
    requires k < l.Size()
    ensures l.numChannels > 0 && l.numBoxes > 0
    ensures k / l.numChannels < l.numBoxes && k / l.numBoxes < l.numChannels
  {
    PositiveFactors(l.numChannels, l.numBoxes);
    QuotientAtLeast(k, l.numChannels, l.numBoxes);
    QuotientAtLeast(k, l.numBoxes, l.numChannels);
  }

  lemma DivideBack(q: nat, r: nat, d: nat)
    requires r < d
    ensures (q * d + r) / d == q && (q * d + r) % d == r
  {
    var k := q * d + r;
    assert (q + 1) * d == q * d + d;
    QuotientOf(k, d, q);
    assert k == (k / d) * d + k % d;
  }

  lemma CellAtOffset(rows: seq<seq<real>>, l: Layout, ch: nat, box: nat)
    requires |rows| == l.numBoxes && forall b :: 0 <= b < |rows| ==> |rows[b]| == l.numChannels
    requires ch < l.numChannels && box < l.numBoxes
    ensures Offset(l, ch, box) < l.Size() && CellAt(rows, l, Offset(l, ch, box)) == rows[box][ch]
  {
    OffsetIsInside(l, ch, box);
    CellIsInside(l, Offset(l, ch, box));
    if l.transposed {
      DivideBack(box, ch, l.numChannels);
    } else {
      DivideBack(ch, box, l.numBoxes);
    }
  }

  // Both layouts give back the rows that were written.
  lemma RowOfEncoded(rows: seq<seq<real>>, l: Layout, box: nat)
    requires |rows| == l.numBoxes && forall b :: 0 <= b < |rows| ==> |rows[b]| == l.numChannels
    requires box < l.numBoxes
    ensures Row(EncodeRows(rows, l), l, box) == rows[box]
  {
    var r := Row(EncodeRows(rows, l), l, box);
    forall ch | 0 <= ch < l.numChannels ensures r[ch] == rows[box][ch] {
      CellAtOffset(rows, l, ch, box);
    }
  }

  // ---- One box.

  datatype Params = Params(confThreshold: real, letterbox: Letterbox, origW: nat, origH: nat)

  datatype Best = Best(score: real, classId: nat)

  // The class loop over the first n classes of a row.
  function BestOf(row: seq<real>, n: nat): Best
    requires 4 + n <= |row|
  {
    if n == 0 then Best(0.0, 0)
    else
      var b := BestOf(row, n - 1);
      if row[4 + n - 1] > b.score then Best(row[4 + n - 1], n - 1) else b
  }

  // The highest score, at the first class that has it; class 0 with score 0 when no score
  // is positive.
  lemma {:induction false} BestIsFirstMaximum(row: seq<real>, n: nat)
    requires 4 + n <= |row|
    ensures var b := BestOf(row, n);
            && (forall i :: 4 <= i < 4 + n ==> row[i] <= b.score)
            && (b == Best(0.0, 0) || (b.classId < n && b.score > 0.0 && row[4 + b.classId] == b.score))
            && (forall i :: 4 <= i < 4 + b.classId ==> row[i] < b.score)
  {
    if n > 0 {
      BestIsFirstMaximum(row, n - 1);
    }
  }

  function BoxOf(row: seq<real>, b: Best, p: Params): Detection
    requires |row| >= 4 && p.letterbox.scale > 0.0
  {
    var lb := p.letterbox;
    Detection(b.classId, b.score,
              Unpad(row[0] - row[2] / 2.0, lb.padLeft, lb.scale, p.origW),
              Unpad(row[1] - row[3] / 2.0, lb.padTop, lb.scale, p.origH),
              Unpad(row[0] + row[2] / 2.0, lb.padLeft, lb.scale, p.origW),
              Unpad(row[1] + row[3] / 2.0, lb.padTop, lb.scale, p.origH))
  }

  // The body of the box loop: a candidate, or none.
  function Decode(row: seq<real>, p: Params): Option<Detection>
    requires |row| >= 4 && p.letterbox.scale > 0.0
  {
    var b := BestOf(row, |row| - 4);
    var d := BoxOf(row, b, p);
    if b.score < p.confThreshold || !Proper(d) then None else Some(d)
  }

  predicate InFrame(d: Detection, p: Params) {
    0.0 <= d.x1 < d.x2 <= p.origW as real && 0.0 <= d.y1 < d.y2 <= p.origH as real
  }

  lemma CandidatesAreInFrame(row: seq<real>, p: Params)
    requires |row| >= 4 && p.letterbox.scale > 0.0 && Decode(row, p).Some?
    ensures InFrame(Decode(row, p).value, p) && Decode(row, p).value.confidence >= p.confThreshold
  {
  }

  // A row that describes a box of the original frame, as the model sees it: the centre and
  // the size of the letterboxed one.
  predicate Describes(row: seq<real>, d: Detection, lb: Letterbox) {
    && |row| >= 4
    && row[0] == Pad((d.x1 + d.x2) / 2.0, lb.padLeft, lb.scale)
    && row[1] == Pad((d.y1 + d.y2) / 2.0, lb.padTop, lb.scale)
    && row[2] == (d.x2 - d.x1) * lb.scale
    && row[3] == (d.y2 - d.y1) * lb.scale
    && BestOf(row, |row| - 4).score == d.confidence
    && BestOf(row, |row| - 4).classId == d.classId
  }

  // The decoder gives back the part of a described box that lies in the frame, when there
  // is one and the box is confident enough, and nothing otherwise.
  lemma DecodeGivesBackTheBox(row: seq<real>, d: Detection, p: Params)
    requires p.letterbox.scale > 0.0 && Describes(row, d, p.letterbox)
    ensures var inside := d.(x1 := Max(d.x1, 0.0), y1 := Max(d.y1, 0.0),
                             x2 := Min(d.x2, p.origW as real), y2 := Min(d.y2, p.origH as real));
            && Decode(row, p) == (if d.confidence >= p.confThreshold && Proper(inside) then Some(inside) else None)
            && (InFrame(d, p) ==> inside == d)
  {
    CornersOfBox(row, d, p);
    hide BoxOf;
  }

  // The corners that are computed from centre and size are those of the box, moved into
  // the frame.
  lemma CornersOfBox(row: seq<real>, d: Detection, p: Params)
    requires p.letterbox.scale > 0.0 && Describes(row, d, p.letterbox)
    ensures var c := BoxOf(row, BestOf(row, |row| - 4), p);
            && (c.classId, c.confidence) == (d.classId, d.confidence)
            && c.x1 == Clamp(d.x1, 0.0, p.origW as real) && c.x2 == Clamp(d.x2, 0.0, p.origW as real)
            && c.y1 == Clamp(d.y1, 0.0, p.origH as real) && c.y2 == Clamp(d.y2, 0.0, p.origH as real)
  {
    var lb := p.letterbox;
    SideUnpadded(d.x1, d.x2, lb.padLeft, lb.scale, p.origW, row[0], row[2]);
    SideUnpadded(d.y1, d.y2, lb.padTop, lb.scale, p.origH, row[1], row[3]);
    hide Unpad, Pad, BestOf, Clamp;
  }

  lemma SideUnpadded(a: real, b: real, pad: int, scale: real, size: nat, centre: real, extent: real)
    requires scale > 0.0
    requires centre == Pad((a + b) / 2.0, pad, scale) && extent == (b - a) * scale
    ensures Unpad(centre - extent / 2.0, pad, scale, size) == Clamp(a, 0.0, size as real)
    ensures Unpad(centre + extent / 2.0, pad, scale, size) == Clamp(b, 0.0, size as real)
  {
    CornerOfCentre(a, b, pad, scale);
    hide Unpad, Pad;
    UnpadOfPad(a, pad, scale, size);
    UnpadOfPad(b, pad, scale, size);
  }

  lemma CornerOfCentre(a: real, b: real, pad: int, scale: real)
    ensures Pad((a + b) / 2.0, pad, scale) - (b - a) * scale / 2.0 == Pad(a, pad, scale)
    ensures Pad((a + b) / 2.0, pad, scale) + (b - a) * scale / 2.0 == Pad(b, pad, scale)
  {
    assert (a + b) / 2.0 * scale == a * scale / 2.0 + b * scale / 2.0;
    assert (b - a) * scale == b * scale - a * scale;
  }

  // ---- The whole output.

  // The candidate that box i gives, if any.
  function CandidateAt(data: seq<real>, l: Layout, p: Params, i: nat): Option<Detection>
    requires |data| == l.Size() && l.numChannels >= 4 && i < l.numBoxes && p.letterbox.scale > 0.0
  {
    Decode(Row(data, l, i), p)
  }

  // The candidates among the first n boxes.
  function Candidates(data: seq<real>, l: Layout, p: Params, n: nat): seq<Detection>
    requires |data| == l.Size() && l.numChannels >= 4 && n <= l.numBoxes && p.letterbox.scale > 0.0
  {
    if n == 0 then []
    else Candidates(data, l, p, n - 1) + AsSeq(CandidateAt(data, l, p, n - 1))
  }

  function AsSeq(d: Option<Detection>): seq<Detection> {
    if d.Some? then [d.value] else []
  }

  // The same detections in the two layouts decode to the same candidates.
  lemma {:induction false} LayoutsAgree(rows: seq<seq<real>>, a: Layout, b: Layout, p: Params, n: nat)
    requires a.numChannels == b.numChannels >= 4 && a.numBoxes == b.numBoxes == |rows| && n <= |rows|
    requires forall i :: 0 <= i < |rows| ==> |rows[i]| == a.numChannels
    requires p.letterbox.scale > 0.0
    ensures Candidates(EncodeRows(rows, a), a, p, n) == Candidates(EncodeRows(rows, b), b, p, n)
  {
    hide *;
    LastCandidate(EncodeRows(rows, a), a, p, n);
    LastCandidate(EncodeRows(rows, b), b, p, n);
    if n > 0 {
      LayoutsAgree(rows, a, b, p, n - 1);
      RowOfEncoded(rows, a, n - 1);
      RowOfEncoded(rows, b, n - 1);
    }
  }

  lemma LastCandidate(data: seq<real>, l: Layout, p: Params, n: nat)
    requires |data| == l.Size() && l.numChannels >= 4 && n <= l.numBoxes && p.letterbox.scale > 0.0
    ensures Candidates(data, l, p, n) ==
            if n == 0 then [] else Candidates(data, l, p, n - 1) + AsSeq(Decode(Row(data, l, n - 1), p))
  {
    hide Decode, Row;
  }

  lemma {:induction false} AllInFrame(data: seq<real>, l: Layout, p: Params, n: nat, d: Detection)
    requires |data| == l.Size() && l.numChannels >= 4 && n <= l.numBoxes && p.letterbox.scale > 0.0
    requires d in Candidates(data, l, p, n)
    ensures InFrame(d, p) && d.confidence >= p.confThreshold
  {
    if d in Candidates(data, l, p, n - 1) {
      AllInFrame(data, l, p, n - 1, d);
    } else {
      CandidatesAreInFrame(Row(data, l, n - 1), p);
    }
  }

  // The class loop of parseOutput.
  method BestClass(data: seq<real>, l: Layout, box: nat) returns (b: Best)
    requires |data| == l.Size() && l.numChannels >= 4 && box < l.numBoxes
    ensures b == BestOf(Row(data, l, box), l.numChannels - 4)
  {
    var bestScore, bestClass := 0.0, 0;
    for c := 0 to l.numChannels - 4
      invariant Best(bestScore, bestClass) == BestOf(Row(data, l, box), c)
    {
      var s := At(data, l, 4 + c, box);
      assert s == Row(data, l, box)[4 + c];
      if s > bestScore {
        bestScore, bestClass := s, c;
      }
    }
    return Best(bestScore, bestClass);
  }

  // The body of the box loop.
  method ParseBox(data: seq<real>, l: Layout, p: Params, i: nat) returns (d: Option<Detection>)
    requires |data| == l.Size() && l.numChannels >= 4 && i < l.numBoxes && p.letterbox.scale > 0.0
    ensures d == CandidateAt(data, l, p, i)
  {
    var best := BestClass(data, l, i);
    if best.score < p.confThreshold {
      return None;
    }
    var cx, cy, w, h := At(data, l, 0, i), At(data, l, 1, i), At(data, l, 2, i), At(data, l, 3, i);
    ghost var row := Row(data, l, i);
    assert row[0] == cx && row[1] == cy && row[2] == w && row[3] == h;
    var lb := p.letterbox;
    var x1, y1 := Unpad(cx - w / 2.0, lb.padLeft, lb.scale, p.origW), Unpad(cy - h / 2.0, lb.padTop, lb.scale, p.origH);
    var x2, y2 := Unpad(cx + w / 2.0, lb.padLeft, lb.scale, p.origW), Unpad(cy + h / 2.0, lb.padTop, lb.scale, p.origH);
    if x2 <= x1 || y2 <= y1 {
      return None;
    }
    return Some(Detection(best.classId, best.score, x1, y1, x2, y2));
  }

  // The tensor is as long as its layout says; indexing panics otherwise.
  method ParseCandidates(data: seq<real>, l: Layout, p: Params) returns (candidates: seq<Detection>)
    requires |data| == l.Size() && l.numChannels >= 4 && p.letterbox.scale > 0.0
    ensures candidates == Candidates(data, l, p, l.numBoxes)
  {
    candidates := [];
    for i := 0 to l.numBoxes
      invariant candidates == Candidates(data, l, p, i)
    {
      var d := ParseBox(data, l, p, i);
      if d.Some? {
        candidates := candidates + [d.value];
      }
    }
  }

  // parseOutput: the suppressed candidates, every one inside the frame.
  method ParseOutput(data: seq<real>, l: Layout, p: Params, nmsThreshold: real) returns (result: seq<Detection>)
    requires |data| == l.Size() && l.numChannels >= 4 && p.letterbox.scale > 0.0
    ensures Suppressed(Candidates(data, l, p, l.numBoxes), result, nmsThreshold)
    ensures forall i :: 0 <= i < |result| ==> InFrame(result[i], p) && result[i].confidence >= p.confThreshold
  {
    var candidates := ParseCandidates(data, l, p);
    result := Suppress(candidates, nmsThreshold);
    forall i | 0 <= i < |result| ensures InFrame(result[i], p) && result[i].confidence >= p.confThreshold {
      assert result[i] in multiset(result);
      AllInFrame(data, l, p, l.numBoxes, result[i]);
    }
  }
}
