/**
 The average-colour reduction (`Processor::calcAvgColor`, run from `preProcess`):
 per-channel sums of the present top-layer pixels of the render window and their
 count, divided at the end.
 */
module Average {
  import opened Wrappers
  import opened Pixels
  import opened Geometry
  import opened Cancellation
  import opened Composite

  /** Running sums of R, G, B and the number of pixels summed. */
  datatype Acc = Acc(sum: Color3, count: nat)

  const Empty: Acc := Acc(Zero3, 0)

  function Add(a: Acc, b: Acc): Acc {
    Acc(Color3(a.sum.r + b.sum.r, a.sum.g + b.sum.g, a.sum.b + b.sum.b), a.count + b.count)
  }

  /** What one coordinate adds: the pixel's colour and one to the count when the top
      layer has a pixel there, nothing otherwise. */
  function Contribution(top: Image, c: Coord): Acc {
    if c in top then Acc(top[c].Rgb(), 1) else Empty
  }

  /** The accumulator after the inner loop has visited columns `[x1, xEnd)` of row `y`. */
  function RowAcc(top: Image, y: int, x1: int, xEnd: int): Acc
    decreases xEnd - x1
  {
    if xEnd <= x1 then Empty else Add(RowAcc(top, y, x1, xEnd - 1), Contribution(top, Coord(xEnd - 1, y)))
  }

  /** The accumulator after the outer loop has visited rows `[w.y1, yEnd)` of `w`. */
  function WindowAcc(top: Image, w: Rect, yEnd: int): Acc
    decreases yEnd - w.y1
  {
    if yEnd <= w.y1 then Empty else Add(WindowAcc(top, w, yEnd - 1), RowAcc(top, yEnd - 1, w.x1, w.x2))
  }

  function Mean(a: Acc): Color3
    requires a.count > 0
  {
    Color3(a.sum.r / a.count as real, a.sum.g / a.count as real, a.sum.b / a.count as real)
  }

  /** Nothing is counted in a row exactly when the top layer has no pixel in it. */
  lemma {:induction false} RowCountZeroIff(top: Image, y: int, x1: int, xEnd: int)
    ensures RowAcc(top, y, x1, xEnd).count == 0 <==> forall c :: InRow(c, y, x1, xEnd) ==> c !in top
    decreases xEnd - x1
  {
    if x1 < xEnd {
      RowCountZeroIff(top, y, x1, xEnd - 1);
      if RowAcc(top, y, x1, xEnd - 1).count != 0 {
        var c :| InRow(c, y, x1, xEnd - 1) && c in top;
        assert InRow(c, y, x1, xEnd);
      } else if Coord(xEnd - 1, y) in top {
        assert InRow(Coord(xEnd - 1, y), y, x1, xEnd);
      }
    }
  }

  /** Nothing is counted over rows `[w.y1, yEnd)` exactly when the top layer has no
      pixel in them. */
  lemma {:induction false} WindowCountZeroIff(top: Image, w: Rect, yEnd: int)
    ensures WindowAcc(top, w, yEnd).count == 0 <==> forall c :: InRows(c, w, yEnd) ==> c !in top
    decreases yEnd - w.y1
  {
    if w.y1 < yEnd {
      WindowCountZeroIff(top, w, yEnd - 1);
      RowCountZeroIff(top, yEnd - 1, w.x1, w.x2);
      if WindowAcc(top, w, yEnd - 1).count != 0 {
        var c :| InRows(c, w, yEnd - 1) && c in top;
        assert InRows(c, w, yEnd);
      } else if RowAcc(top, yEnd - 1, w.x1, w.x2).count != 0 {
        var c :| InRow(c, yEnd - 1, w.x1, w.x2) && c in top;
        assert InRows(c, w, yEnd);
      }
    }
  }

  /** `n` copies of `col` added up. */
  function Scale(n: nat, col: Color3): Color3 {
    Color3(n as real * col.r, n as real * col.g, n as real * col.b)
  }

  /** Every pixel summed into `a` had colour `col`. */
  predicate SumsOf(a: Acc, col: Color3) {
    a.sum == Scale(a.count, col)
  }

  lemma AddSumsOf(a: Acc, b: Acc, col: Color3)
    requires SumsOf(a, col) && SumsOf(b, col)
    ensures SumsOf(Add(a, b), col)
  {
    var m, n := a.count as real, b.count as real;
    assert (m + n) * col.r == m * col.r + n * col.r;
    assert (m + n) * col.g == m * col.g + n * col.g;
    assert (m + n) * col.b == m * col.b + n * col.b;
  }

  /** The top layer has colour `col` at each of its pixels inside window `w`. */
  ghost predicate UniformIn(top: Image, w: Rect, col: Color3) {
    forall c :: InRect(c, w) && c in top ==> top[c].Rgb() == col
  }

  lemma {:induction false} RowSumsOf(top: Image, w: Rect, y: int, xEnd: int, col: Color3)
    requires UniformIn(top, w, col)
    requires w.y1 <= y < w.y2 && xEnd <= w.x2
    ensures SumsOf(RowAcc(top, y, w.x1, xEnd), col)
    decreases xEnd - w.x1
  {
    if w.x1 < xEnd {
      RowSumsOf(top, w, y, xEnd - 1, col);
      var c := Coord(xEnd - 1, y);
      if c in top {
        assert InRect(c, w);
      }
      AddSumsOf(RowAcc(top, y, w.x1, xEnd - 1), Contribution(top, c), col);
    }
  }

  /** Over a uniform top layer each channel sum is the count times that colour. */
  lemma {:induction false} WindowSumsOf(top: Image, w: Rect, yEnd: int, col: Color3)
    requires UniformIn(top, w, col)
    requires yEnd <= w.y2
    ensures SumsOf(WindowAcc(top, w, yEnd), col)
    decreases yEnd - w.y1
  {
    if w.y1 < yEnd {
      WindowSumsOf(top, w, yEnd - 1, col);
      RowSumsOf(top, w, yEnd - 1, w.x2, col);
      AddSumsOf(WindowAcc(top, w, yEnd - 1), RowAcc(top, yEnd - 1, w.x1, w.x2), col);
    }
  }

  /** The mean of sums that all came from colour `col` is `col`. */
  lemma MeanOfSumsOf(a: Acc, col: Color3)
    requires a.count > 0 && SumsOf(a, col)
    ensures Mean(a) == col
  {
    var n := a.count as real;
    CancelFactor(n, col.r);
    CancelFactor(n, col.g);
    CancelFactor(n, col.b);
  }

  lemma CancelFactor(n: real, v: real)
    requires n != 0.0
    ensures (n * v) / n == v
  {
  }

  /** The average of a uniform top layer over the rows scanned is its colour. */
  lemma UniformAverage(top: Image, w: Rect, yEnd: int, col: Color3)
    requires UniformIn(top, w, col)
    requires yEnd <= w.y2
    requires WindowAcc(top, w, yEnd).count > 0
    ensures Mean(WindowAcc(top, w, yEnd)) == col
  {
    WindowSumsOf(top, w, yEnd, col);
    MeanOfSumsOf(WindowAcc(top, w, yEnd), col);
  }

  /** The sum of channel `ch` lies between `count * lo` and `count * hi`. */
  predicate SumBetween(a: Acc, ch: Channel, lo: real, hi: real) {
    a.count as real * lo <= a.sum.Get(ch) <= a.count as real * hi
  }

  lemma AddSumBetween(a: Acc, b: Acc, ch: Channel, lo: real, hi: real)
    requires SumBetween(a, ch, lo, hi) && SumBetween(b, ch, lo, hi)
    ensures SumBetween(Add(a, b), ch, lo, hi)
  {
    var m, n := a.count as real, b.count as real;
    assert Add(a, b).sum.Get(ch) == a.sum.Get(ch) + b.sum.Get(ch);
    assert (m + n) * lo == m * lo + n * lo;
    assert (m + n) * hi == m * hi + n * hi;
  }

  /** Channel `ch` of each top-layer pixel inside window `w` lies in [lo, hi]. */
  ghost predicate BoundedIn(top: Image, w: Rect, ch: Channel, lo: real, hi: real) {
    forall c :: InRect(c, w) && c in top ==> lo <= top[c].Get(ch) <= hi
  }

  lemma {:induction false} RowSumBetween(top: Image, w: Rect, y: int, xEnd: int, ch: Channel, lo: real, hi: real)
    requires BoundedIn(top, w, ch, lo, hi)
    requires w.y1 <= y < w.y2 && xEnd <= w.x2
    ensures SumBetween(RowAcc(top, y, w.x1, xEnd), ch, lo, hi)
    decreases xEnd - w.x1
  {
    if w.x1 < xEnd {
      RowSumBetween(top, w, y, xEnd - 1, ch, lo, hi);
      var c := Coord(xEnd - 1, y);
      if c in top {
        assert InRect(c, w);
        assert Contribution(top, c).sum.Get(ch) == top[c].Get(ch);
      }
      AddSumBetween(RowAcc(top, y, w.x1, xEnd - 1), Contribution(top, c), ch, lo, hi);
    }
  }

  lemma {:induction false} WindowSumBetween(top: Image, w: Rect, yEnd: int, ch: Channel, lo: real, hi: real)
    requires BoundedIn(top, w, ch, lo, hi)
    requires yEnd <= w.y2
    ensures SumBetween(WindowAcc(top, w, yEnd), ch, lo, hi)
    decreases yEnd - w.y1
  {
    if w.y1 < yEnd {
      WindowSumBetween(top, w, yEnd - 1, ch, lo, hi);
      RowSumBetween(top, w, yEnd - 1, w.x2, ch, lo, hi);
      AddSumBetween(WindowAcc(top, w, yEnd - 1), RowAcc(top, yEnd - 1, w.x1, w.x2), ch, lo, hi);
    }
  }

  /** Each channel of the average lies between the smallest and the largest value of that
      channel over the top layer's pixels in the window. */
  lemma AverageWithinBounds(top: Image, w: Rect, yEnd: int, ch: Channel, lo: real, hi: real)
    requires BoundedIn(top, w, ch, lo, hi)
    requires yEnd <= w.y2
    requires WindowAcc(top, w, yEnd).count > 0
    ensures lo <= Mean(WindowAcc(top, w, yEnd)).Get(ch) <= hi
  {
    WindowSumBetween(top, w, yEnd, ch, lo, hi);
    var a := WindowAcc(top, w, yEnd);
    MeanGet(a, ch);
    MeanBetween(a, ch, lo, hi);
  }

  lemma MeanGet(a: Acc, ch: Channel)
    requires a.count > 0
    ensures Mean(a).Get(ch) == a.sum.Get(ch) / a.count as real
  {
  }

  lemma MeanBetween(a: Acc, ch: Channel, lo: real, hi: real)
    requires a.count > 0 && SumBetween(a, ch, lo, hi)
    ensures lo <= a.sum.Get(ch) / a.count as real <= hi
  {
    QuotientBetween(a.sum.Get(ch), a.count as real, lo, hi);
  }

  lemma QuotientBetween(x: real, n: real, lo: real, hi: real)
    requires n > 0.0 && n * lo <= x <= n * hi
    ensures lo <= x / n <= hi
  {
    var q := x / n;
    assert q * n == x;
    assert (q - lo) * n == x - n * lo;
    assert (hi - q) * n == n * hi - x;
  }

  /** The inner loop of `calcAvgColor`: columns `[x1, x2)` of row `y`, left to right,
      added into the running sums. */
  method AccumulateRow(acc0: Acc, top: Image, y: int, x1: int, x2: int) returns (acc: Acc)
    ensures acc == Add(acc0, RowAcc(top, y, x1, x2))
  {
    acc := acc0;
    var x := x1;
    RowStart(acc0, top, y, x1);
    while x < x2
      invariant x1 <= x
      invariant x1 <= x2 ==> x <= x2
      invariant x2 <= x1 ==> x == x1
      invariant acc == Add(acc0, RowAcc(top, y, x1, x))
      decreases x2 - x
    {
      RowStep(acc0, top, y, x1, x, acc);
      acc := Add(acc, Contribution(top, Coord(x, y)));
      x := x + 1;
    }
    RowEnd(top, y, x1, x, x2);
  }

  /** `acc` holds the sums of rows `[w.y1, y)`. */
  predicate SumsSoFar(acc: Acc, top: Image, w: Rect, y: int) {
    acc == WindowAcc(top, w, y)
  }

  /** One pass of the outer loop: row `y` added to the sums of the rows above it. */
  method AccumulateNextRow(acc0: Acc, top: Image, w: Rect, y: int) returns (acc: Acc)
    requires w.y1 <= y
    requires SumsSoFar(acc0, top, w, y)
    ensures SumsSoFar(acc, top, w, y + 1)
  {
    acc := AccumulateRow(acc0, top, y, w.x1, w.x2);
    WindowStep(top, w, y);
  }

  lemma RowStart(acc0: Acc, top: Image, y: int, x1: int)
    ensures Add(acc0, RowAcc(top, y, x1, x1)) == acc0
  {
  }

  lemma RowStep(acc0: Acc, top: Image, y: int, x1: int, x: int, acc: Acc)
    requires x1 <= x
    requires acc == Add(acc0, RowAcc(top, y, x1, x))
    ensures Add(acc, Contribution(top, Coord(x, y))) == Add(acc0, RowAcc(top, y, x1, x + 1))
  {
    var r, t := RowAcc(top, y, x1, x), Contribution(top, Coord(x, y));
    assert RowAcc(top, y, x1, x + 1) == Add(r, t);
    AddAssoc(acc0, r, t);
  }

  lemma AddAssoc(a: Acc, b: Acc, c: Acc)
    ensures Add(Add(a, b), c) == Add(a, Add(b, c))
  {
  }

  lemma RowEnd(top: Image, y: int, x1: int, x: int, x2: int)
    requires x1 <= x && x2 <= x
    requires x1 <= x2 ==> x == x2
    requires x2 <= x1 ==> x == x1
    ensures RowAcc(top, y, x1, x) == RowAcc(top, y, x1, x2)
  {
  }

  lemma WindowStep(top: Image, w: Rect, y: int)
    requires w.y1 <= y
    ensures WindowAcc(top, w, y + 1) == Add(WindowAcc(top, w, y), RowAcc(top, y, w.x1, w.x2))
  {
  }

  /** The two loops of `calcAvgColor`: rows of the render window top to bottom, polling
      the abort flag before each row. */
  method AccumulateWindow(top: Image, w: Rect, aborted: int -> bool) returns (acc: Acc, stop: int)
    ensures stop == FirstAbort(aborted, w.y1, w.y2)
    ensures acc == WindowAcc(top, w, stop)
  {
    acc := Empty;
    var y := w.y1;
    while y < w.y2
      invariant w.y1 <= y
      invariant w.y1 <= w.y2 ==> y <= w.y2
      invariant w.y2 <= w.y1 ==> y == w.y1
      invariant FirstAbort(aborted, y, w.y2) == FirstAbort(aborted, w.y1, w.y2)
      invariant SumsSoFar(acc, top, w, y)
      decreases w.y2 - y
    {
      if aborted(y) {
        break;
      }
      acc := AccumulateNextRow(acc, top, w, y);
      y := y + 1;
    }
    stop := y;
  }

  /** `calcAvgColor` over the render window `w`. The mean is `None` where the code
      divides a zero sum by a zero count; that happens exactly when the rows scanned
      before an abort hold no top-layer pixel. */
  method CalcAvgColor(top: Image, w: Rect, aborted: int -> bool) returns (avg: Option<Color3>, stop: int)
    ensures stop == FirstAbort(aborted, w.y1, w.y2)
    ensures avg.Some? <==> WindowAcc(top, w, stop).count > 0
    ensures avg.None? <==> forall c :: InRows(c, w, stop) ==> c !in top
    ensures avg.Some? ==> avg.value == Mean(WindowAcc(top, w, stop))
  {
    var acc;
    acc, stop := AccumulateWindow(top, w, aborted);
    WindowCountZeroIff(top, w, stop);
    if acc.count > 0 {
      avg := Some(Mean(acc));
    } else {
      avg := None;
    }
  }

  /** `preProcess`: the average-colour vector the kernel reads. It is computed only when
      `useAvgColor` is set; otherwise it keeps its initial zero value. Where the code
      would divide by a zero count, the zero vector stands in for the result. */
  function PreProcess(p: Params, top: Image, w: Rect, aborted: int -> bool): (avg: Color3)
    ensures !p.useAvgColor ==> avg == Zero3
    ensures p.useAvgColor && WindowAcc(top, w, FirstAbort(aborted, w.y1, w.y2)).count > 0 ==>
      avg == Mean(WindowAcc(top, w, FirstAbort(aborted, w.y1, w.y2)))
  {
    if !p.useAvgColor then Zero3
    else
      var acc := WindowAcc(top, w, FirstAbort(aborted, w.y1, w.y2));
      if acc.count > 0 then Mean(acc) else Zero3
  }

  /** When the top layer has a single colour over the render window and the reduction
      saw at least one of its pixels, the average is that colour. */
  lemma UniformTopLayerAverage(p: Params, top: Image, w: Rect, aborted: int -> bool, col: Color3, c0: Coord)
    requires p.useAvgColor
    requires UniformIn(top, w, col)
    requires c0 in top && InRows(c0, w, FirstAbort(aborted, w.y1, w.y2))
    ensures PreProcess(p, top, w, aborted) == col
  {
    var stop := FirstAbort(aborted, w.y1, w.y2);
    WindowCountZeroIff(top, w, stop);
    UniformAverage(top, w, stop, col);
  }

  /** When the reduction ran over the whole window and counted nothing, the top layer has
      no pixel in the window, so the kernel writes transparent black wherever it runs and
      never reads the stand-in average. */
  lemma ZeroCountAverageNeverRead(dst: Image, src: Image, p: Params, top: Image, w: Rect, aborted: int -> bool,
                                  avg: Color3, yEnd: int)
    requires FirstAbort(aborted, w.y1, w.y2) >= w.y2
    requires WindowAcc(top, w, FirstAbort(aborted, w.y1, w.y2)).count == 0
    requires yEnd <= w.y2
    ensures CompositeWindow(dst, src, top, w, p, PreProcess(p, top, w, aborted), yEnd)
         == CompositeWindow(dst, src, top, w, p, avg, yEnd)
  {
    var stop := FirstAbort(aborted, w.y1, w.y2);
    WindowCountZeroIff(top, w, stop);
    assert forall c :: InRect(c, w) ==> InRows(c, w, stop);
    AverageIrrelevantWithoutTop(dst, src, top, w, p, PreProcess(p, top, w, aborted), avg, yEnd);
  }
}
