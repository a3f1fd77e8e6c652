/** Bitmap lines: the integer error loop, and the brush it drags along. */
module Line {
  import opened Basics
  import opened Pixels

  // ---- The error loop ----

  // Where the pen is, and the error it carries.
  datatype Pen = Pen(x: int, y: int, err: int)

  datatype Segment = Segment(x0: int, y0: int, x1: int, y1: int) {
    function Dx(): nat { Abs(x1 - x0) }

    function Dy(): nat { Abs(y1 - y0) }

    /** The longer side: how many steps the loop takes. */
    function Steps(): nat { Max(Dx(), Dy()) }

    function Start(): Pen { Pen(x0, y0, Dx() - Dy()) }

    /** The coordinates `i` steps along in x and `j` in y. */
    function XAt(i: int): int { if x0 < x1 then x0 + i else x0 - i }

    function YAt(j: int): int { if y0 < y1 then y0 + j else y0 - j }
  }

  function Advance(l: Segment, pen: Pen): Pen {
    var e2 := 2 * pen.err;
    var p := if e2 + l.Dy() >= 0 then Pen(if l.x0 < l.x1 then pen.x + 1 else pen.x - 1, pen.y, pen.err - l.Dy()) else pen;
    if e2 <= l.Dx() then Pen(p.x, if l.y0 < l.y1 then p.y + 1 else p.y - 1, p.err + l.Dx()) else p
  }

  function PenAfter(l: Segment, n: nat): Pen {
    if n == 0 then l.Start() else Advance(l, PenAfter(l, n - 1))
  }

  predicate Arrived(l: Segment, pen: Pen) {
    pen.x == l.x1 && pen.y == l.y1
  }

  /** Twice the area between the point `i`, `j` steps along and the ideal line, up to sign. */
  function Drift(l: Segment, i: nat, j: nat): int {
    j * l.Dx() - i * l.Dy()
  }

  /** After `n` steps: `i` in x and `j` in y, every one of them along the longer side, half a pixel off at most. */
  ghost predicate OnLine(l: Segment, pen: Pen, n: nat, i: nat, j: nat) {
    && pen == Pen(l.XAt(i), l.YAt(j), Drift(l, i, j) + l.Dx() - l.Dy())
    && (l.Dx() >= l.Dy() ==> i == n) && (l.Dy() >= l.Dx() ==> j == n)
    && i <= l.Dx() && j <= l.Dy()
    && Abs(2 * Drift(l, i, j)) <= l.Steps()
  }

  lemma DriftSteps(l: Segment, i: nat, j: nat)
    ensures Drift(l, i + 1, j) == Drift(l, i, j) - l.Dy()
    ensures Drift(l, i, j + 1) == Drift(l, i, j) + l.Dx()
    ensures Drift(l, i + 1, j + 1) == Drift(l, i, j) + l.Dx() - l.Dy()
  {
    assert (j + 1) * l.Dx() == j * l.Dx() + l.Dx();
    assert (i + 1) * l.Dy() == i * l.Dy() + l.Dy();
  }

  /** The two tests of a step always take the longer side, and keep the drift within half of it. */
  lemma StepKeepsDrift(a: nat, b: nat, drift: int)
    requires Abs(2 * drift) <= Max(a, b) && Max(a, b) > 0
    ensures var e2 := 2 * (drift + a - b); var stepX, stepY := e2 + b >= 0, e2 <= a;
            && (a >= b ==> stepX) && (b >= a ==> stepY)
            && Abs(2 * (drift - (if stepX then b else 0) + (if stepY then a else 0))) <= Max(a, b)
  {
  }

  lemma ProductGap(u: nat, v: nat, a: nat)
    ensures u < v ==> v * a >= u * a + a
  {
    if u < v {
      MulMonotone(u + 1, v, a);
      assert (u + 1) * a == u * a + a;
    }
  }

  /** The shorter side never overshoots. */
  lemma ShortSideBound(a: nat, b: nat, i: nat, j: nat)
    requires a > 0 && i <= a && 2 * (j * a - i * b) <= a
    ensures j <= b
  {
    ProductGap(b, j, a);
    MulMonotone(i, a, b);
    assert a * b == b * a;
  }

  lemma AdvanceOnLine(l: Segment, pen: Pen, n: nat, i: nat, j: nat) returns (i': nat, j': nat)
    requires OnLine(l, pen, n, i, j) && n < l.Steps()
    ensures OnLine(l, Advance(l, pen), n + 1, i', j') && i <= i' <= i + 1 && j <= j' <= j + 1
  {
    var e2 := 2 * pen.err;
    i' := if e2 + l.Dy() >= 0 then i + 1 else i;
    j' := if e2 <= l.Dx() then j + 1 else j;
    StepKeepsDrift(l.Dx(), l.Dy(), Drift(l, i, j));
    DriftSteps(l, i, j);
    if l.Dx() >= l.Dy() {
      ShortSideBound(l.Dx(), l.Dy(), i', j');
    } else {
      ShortSideBound(l.Dy(), l.Dx(), j', i');
    }
  }

  /** For every step up to the last, the pen is on the line. */
  lemma {:induction false} LineIsAccurate(l: Segment, n: nat) returns (i: nat, j: nat)
    requires n <= l.Steps()
    ensures OnLine(l, PenAfter(l, n), n, i, j)
  {
    if n == 0 {
      i, j := 0, 0;
    } else {
      i, j := LineIsAccurate(l, n - 1);
      i, j := AdvanceOnLine(l, PenAfter(l, n - 1), n - 1, i, j);
    }
  }

  /** Nor does it fall short when the longer side is used up. */
  lemma ShortSideArrives(a: nat, b: nat, j: nat)
    requires a > 0 && j <= b && 2 * (a * b - j * a) <= a
    ensures j == b
  {
    ProductGap(j, b, a);
    assert a * b == b * a;
  }

  /** The unconditional loop stops: first at the exact end, after exactly as many steps as the longer side is long. */
  lemma LineEndsExactly(l: Segment, n: nat)
    requires n <= l.Steps()
    ensures Arrived(l, PenAfter(l, n)) <==> n == l.Steps()
  {
    var i, j := LineIsAccurate(l, n);
    if n == l.Steps() && n > 0 {
      if l.Dx() >= l.Dy() {
        ShortSideArrives(l.Dx(), l.Dy(), j);
      } else {
        ShortSideArrives(l.Dy(), l.Dx(), i);
      }
    }
  }

  /** Successive points are neighbours, diagonal ones included. */
  lemma StepsTouch(l: Segment, n: nat)
    requires n < l.Steps()
    ensures var p, q := PenAfter(l, n), PenAfter(l, n + 1);
            Abs(q.x - p.x) <= 1 && Abs(q.y - p.y) <= 1 && (q.x != p.x || q.y != p.y)
  {
    var i, j := LineIsAccurate(l, n);
    var i', j' := AdvanceOnLine(l, PenAfter(l, n), n, i, j);
  }

  /** Every value the loop computes stays within three times the longer side, and the points within the endpoints. */
  lemma StaysInRange(l: Segment, n: nat)
    requires n <= l.Steps()
    ensures var pen := PenAfter(l, n);
            && Abs(2 * pen.err) <= 3 * l.Steps() && Abs(pen.err - l.Dy()) <= 3 * l.Steps()
            && Min(l.x0, l.x1) <= pen.x <= Max(l.x0, l.x1) && Min(l.y0, l.y1) <= pen.y <= Max(l.y0, l.y1)
  {
    var i, j := LineIsAccurate(l, n);
  }

  // ---- The brush ----

  function EffectivePenWidth(width: uint32): nat {
    Min(if width == 0 then 1 else width, 256)
  }

  function StrokeBefore(width: uint32): nat { (EffectivePenWidth(width) - 1) / 2 }

  function StrokeAfter(width: uint32): nat { EffectivePenWidth(width) / 2 }

  function Brush(pen: Pen, before: nat, after: nat): seq<Point> {
    RectPoints(pen.x - before, pen.y - before, pen.x + after + 1, pen.y + after + 1)
  }

  /** The brush put down at the first `n` points. */
  function Strokes(l: Segment, before: nat, after: nat, n: nat): seq<Point> {
    if n == 0 then [] else Strokes(l, before, after, n - 1) + Brush(PenAfter(l, n - 1), before, after)
  }

  predicate Covers(pen: Pen, before: nat, after: nat, q: Point) {
    pen.x - before <= q.x <= pen.x + after && pen.y - before <= q.y <= pen.y + after
  }

  ghost predicate CoveredBefore(l: Segment, before: nat, after: nat, n: nat, q: Point) {
    exists k: nat :: k < n && Covers(PenAfter(l, k), before, after, q)
  }

  lemma {:induction false} InStrokes(l: Segment, before: nat, after: nat, n: nat, q: Point)
    ensures q in Strokes(l, before, after, n) <==> CoveredBefore(l, before, after, n, q)
  {
    if n == 0 {
    } else {
      InStrokes(l, before, after, n - 1, q);
      InBrush(PenAfter(l, n - 1), before, after, q);
      CoveredOneMore(l, before, after, n - 1, q);
    }
  }

  lemma InBrush(pen: Pen, before: nat, after: nat, q: Point)
    ensures q in Brush(pen, before, after) <==> Covers(pen, before, after, q)
  {
    InRect(pen.x - before, pen.y - before, pen.x + after + 1, pen.y + after + 1, q);
  }

  lemma CoveredOneMore(l: Segment, before: nat, after: nat, n: nat, q: Point)
    ensures CoveredBefore(l, before, after, n + 1, q) <==>
            CoveredBefore(l, before, after, n, q) || Covers(PenAfter(l, n), before, after, q)
  {
    if CoveredBefore(l, before, after, n + 1, q) {
      var k: nat :| k < n + 1 && Covers(PenAfter(l, k), before, after, q);
      assert k == n || k < n;
    }
  }

  /** Every brush stroke of the whole line, for a pen of this width. */
  function LineStrokes(l: Segment, width: uint32): seq<Point> {
    Strokes(l, StrokeBefore(width), StrokeAfter(width), l.Steps() + 1)
  }

  ghost predicate UnderLine(l: Segment, width: uint32, q: Point) {
    CoveredBefore(l, StrokeBefore(width), StrokeAfter(width), l.Steps() + 1, q)
  }

  /** A drawn line changes exactly the pixels under a brush of the pen's width at some point of the line. */
  lemma DrawnIs(b: Bitmap, bits: seq<byte>, l: Segment, width: uint32, pixel: uint32, q: Point)
    requires Fits(b, |bits|) && Supported(b) && Inside(b, q)
    ensures StrokeBefore(width) + 1 + StrokeAfter(width) == if width == 0 then 1 else if width < 256 then width else 256
    ensures StrokeBefore(width) <= StrokeAfter(width) <= StrokeBefore(width) + 1
    ensures Read(b, PaintAll(b, bits, LineStrokes(l, width), pixel), q) ==
            if UnderLine(l, width, q) then Some(Kept(b, pixel)) else Read(b, bits, q)
  {
    PaintedIs(b, bits, LineStrokes(l, width), pixel, q);
    InStrokes(l, StrokeBefore(width), StrokeAfter(width), l.Steps() + 1, q);
  }

  // ---- The methods ----

  method DrawBitmapLine(b: Bitmap, bits: array<byte>, l: Segment, pixel: uint32, width: uint32) returns (ok: bool)
    requires Fits(b, bits.Length)
    modifies bits
    ensures ok <==> b.width > 0 && Height(b) > 0 && b.stride != 0 && pixel != 0 && bits.Length <= 0x200_0000
    ensures bits[..] == if ok then PaintAll(b, old(bits[..]), LineStrokes(l, width), pixel) else old(bits[..])
  {
    if b.width <= 0 || Height(b) <= 0 || b.stride == 0 || pixel == 0 {
      return false;
    }
    if bits.Length > 0x200_0000 {
      return false;
    }
    DrawLine(b, bits, l, pixel, StrokeBefore(width), StrokeAfter(width));
    return true;
  }

  method DrawLine(b: Bitmap, bits: array<byte>, l: Segment, pixel: uint32, strokeBefore: nat, strokeAfter: nat)
    requires Fits(b, bits.Length)
    modifies bits
    ensures bits[..] == PaintAll(b, old(bits[..]), Strokes(l, strokeBefore, strokeAfter, l.Steps() + 1), pixel)
  {
    ghost var before := bits[..];
    var dx: int, dy: int := Abs(l.x1 - l.x0), Abs(l.y1 - l.y0);
    var x0, y0, err := l.x0, l.y0, dx - dy;
    ghost var n := 0;
    assert PenAfter(l, 0) == Pen(x0, y0, err);
    while true
      invariant n <= l.Steps() && PenAfter(l, n) == Pen(x0, y0, err)
      invariant bits[..] == PaintAll(b, before, Strokes(l, strokeBefore, strokeAfter, n), pixel)
      decreases l.Steps() - n
    {
      ghost var pen := PenAfter(l, n);
      StrokeOneMore(b, before, l, strokeBefore, strokeAfter, n, pen, pixel);
      DrawBrush(b, bits, Pen(x0, y0, err), pixel, strokeBefore, strokeAfter);
      LineEndsExactly(l, n);
      if x0 == l.x1 && y0 == l.y1 {
        break;
      }
      x0, y0, err := StepPen(l, x0, y0, err);
      n := n + 1;
    }
    assert n == l.Steps();
  }

  lemma StrokeOneMore(b: Bitmap, bits: seq<byte>, l: Segment, before: nat, after: nat, n: nat, pen: Pen, pixel: uint32)
    requires Fits(b, |bits|) && pen == PenAfter(l, n)
    ensures PaintAll(b, bits, Strokes(l, before, after, n + 1), pixel) ==
            PaintAll(b, PaintAll(b, bits, Strokes(l, before, after, n), pixel), Brush(pen, before, after), pixel)
  {
    PaintConcat(b, bits, Strokes(l, before, after, n), Brush(pen, before, after), pixel);
  }

  method DrawBrush(b: Bitmap, bits: array<byte>, pen: Pen, pixel: uint32, strokeBefore: nat, strokeAfter: nat)
    requires Fits(b, bits.Length)
    modifies bits
    ensures bits[..] == PaintAll(b, old(bits[..]), Brush(pen, strokeBefore, strokeAfter), pixel)
  {
    DrawClipped(b, bits, pen.x - strokeBefore, pen.y - strokeBefore, pen.x + strokeAfter + 1, pen.y + strokeAfter + 1, pixel);
  }

  method StepPen(l: Segment, x: int, y: int, err: int) returns (x': int, y': int, err': int)
    ensures Pen(x', y', err') == Advance(l, Pen(x, y, err))
  {
    var dx: int, dy: int := Abs(l.x1 - l.x0), Abs(l.y1 - l.y0);
    x', y', err' := x, y, err;
    var e2 := 2 * err;
    if e2 + dy >= 0 {
      err' := err' - dy;
      x' := if l.x0 < l.x1 then x' + 1 else x' - 1;
    }
    if e2 <= dx {
      err' := err' + dx;
      y' := if l.y0 < l.y1 then y' + 1 else y' - 1;
    }
  }

  method DrawClipped(b: Bitmap, bits: array<byte>, left: int, top: int, right: int, bottom: int, pixel: uint32)
    requires Fits(b, bits.Length) && left <= right && top <= bottom
    modifies bits
    ensures bits[..] == PaintAll(b, old(bits[..]), RectPoints(left, top, right, bottom), pixel)
  {
    ghost var before := bits[..];
    var py := top;
    while py < bottom
      invariant top <= py <= bottom && bits[..] == PaintAll(b, before, RectPoints(left, top, right, py), pixel)
    {
      PaintConcat(b, before, RectPoints(left, top, right, py), RowPoints(py, left, right), pixel);
      if py < 0 || py >= Height(b) {
        RowOutside(b, bits[..], py, left, right, pixel);
      } else {
        DrawBrushRow(b, bits, py, left, right, pixel);
      }
      py := py + 1;
    }
    assert py == bottom;
  }

  method DrawBrushRow(b: Bitmap, bits: array<byte>, py: int, left: int, right: int, pixel: uint32)
    requires Fits(b, bits.Length) && left <= right
    modifies bits
    ensures bits[..] == PaintAll(b, old(bits[..]), RowPoints(py, left, right), pixel)
  {
    ghost var before := bits[..];
    var px := left;
    while px < right
      invariant left <= px <= right && bits[..] == PaintAll(b, before, RowPoints(py, left, px), pixel)
    {
      PaintOneMore(b, before, py, left, px, pixel);
      if px >= 0 && px < b.width {
        var wrote := WriteBitmapPixel(b, bits, Height(b), px, py, pixel);
      }
      px := px + 1;
    }
    assert px == right;
  }
}
