/**
 The composite kernel of the blend processor (`Processor::multiThreadProcessImages`):
 for each pixel of a window it combines a source pixel with a top-layer pixel into a
 destination pixel.
 */
module Composite {
  import opened Wrappers
  import opened Pixels
  import opened Geometry
  import opened Cancellation

  /** The parameter snapshot handed to the processor by `setParams`. */
  datatype Params = Params(useAvgColor: bool, blend: real, clamp: bool)

  /** The colour the luminance is compared with: the top layer's average colour when
      `useAvgColor` is set, otherwise the top pixel's own channel. */
  function Reference(p: Params, avg: Color3, top: Pixel, c: Channel): real {
    if p.useAvgColor then avg.Get(c) else top.Get(c)
  }

  /** A colour channel `v` moved by `blend * topAlpha * (lum - ref)`: the value the kernel
      writes before any clamp. */
  function Shifted(v: real, topAlpha: real, lum: real, ref: real, blend: real): real {
    v + blend * topAlpha * (lum - ref)
  }

  /** One colour channel as the kernel computes it: the composite, then the mix with the
      source by `blend`, then the clamp when asked. The two steps amount to shifting the
      source channel. */
  function MixChannel(s: real, topAlpha: real, lum: real, ref: real, p: Params): (v: real)
    ensures !p.clamp ==> v == Shifted(s, topAlpha, lum, ref, p.blend)
    ensures p.clamp ==> v == Clamp01(Shifted(s, topAlpha, lum, ref, p.blend))
  {
    var composite := s + topAlpha * (lum - ref);
    var mixed := composite * p.blend + s * (1.0 - p.blend);
    assert mixed == Shifted(s, topAlpha, lum, ref, p.blend);
    if p.clamp then Clamp01(mixed) else mixed
  }

  /** The destination pixel written for a source pixel and a top-layer pixel, either of
      which may be missing. Each colour channel moves away from the source by
      `blend * top.a * (luminance - reference)`, and is then clamped when asked. */
  function ProcessPixel(src: Option<Pixel>, top: Option<Pixel>, p: Params, avg: Color3): (r: Pixel)
    ensures src.None? || top.None? ==> r == Transparent
    ensures src.Some? && top.Some? ==> r.a == src.value.a
    ensures src.Some? && top.Some? && p.clamp ==> forall c :: InUnit(r.Get(c))
    ensures src.Some? && top.Some? && p.clamp ==>
      forall c :: r.Get(c) == Clamp01(Shifted(src.value.Get(c), top.value.a, Luminance(src.value), Reference(p, avg, top.value, c), p.blend))
    ensures src.Some? && top.Some? && !p.clamp ==>
      forall c :: r.Get(c) == Shifted(src.value.Get(c), top.value.a, Luminance(src.value), Reference(p, avg, top.value, c), p.blend)
  {
    if src.Some? && top.Some? then
      var s, t := src.value, top.value;
      var lum := Luminance(s);
      var r := Pixel(MixChannel(s.r, t.a, lum, Reference(p, avg, t, Red), p),
                     MixChannel(s.g, t.a, lum, Reference(p, avg, t, Green), p),
                     MixChannel(s.b, t.a, lum, Reference(p, avg, t, Blue), p),
                     s.a);
      MixChannelsOf(s, t, p, avg, r);
      r
    else
      Transparent
  }

  /** Each colour channel of `r` is the mix of the same channel of `s`. */
  lemma MixChannelsOf(s: Pixel, t: Pixel, p: Params, avg: Color3, r: Pixel)
    requires r.r == MixChannel(s.r, t.a, Luminance(s), Reference(p, avg, t, Red), p)
    requires r.g == MixChannel(s.g, t.a, Luminance(s), Reference(p, avg, t, Green), p)
    requires r.b == MixChannel(s.b, t.a, Luminance(s), Reference(p, avg, t, Blue), p)
    ensures forall c :: r.Get(c) == MixChannel(s.Get(c), t.a, Luminance(s), Reference(p, avg, t, c), p)
  {
  }

  /** With `blend` at zero and no clamping, the source pixel comes through unchanged,
      whatever the top pixel and the average colour are. */
  lemma BlendZeroKeepsSource(src: Pixel, top: Pixel, p: Params, avg: Color3)
    requires p.blend == 0.0 && !p.clamp
    ensures ProcessPixel(Some(src), Some(top), p, avg) == src
  {
    var r := ProcessPixel(Some(src), Some(top), p, avg);
    assert r.Get(Red) == src.r && r.Get(Green) == src.g && r.Get(Blue) == src.b;
  }

  /** Blending a pixel with itself at full strength, with its own colour as reference,
      moves every channel towards the luminance by the pixel's alpha. */
  lemma SelfBlendTowardsLuminance(s: Pixel, p: Params, avg: Color3)
    requires p.blend == 1.0 && !p.useAvgColor && !p.clamp
    ensures forall c :: ProcessPixel(Some(s), Some(s), p, avg).Get(c) == (1.0 - s.a) * s.Get(c) + s.a * Luminance(s)
  {
    var r := ProcessPixel(Some(s), Some(s), p, avg);
    forall c
      ensures r.Get(c) == (1.0 - s.a) * s.Get(c) + s.a * Luminance(s)
    {
      assert r.Get(c) == s.Get(c) + 1.0 * s.a * (Luminance(s) - s.Get(c));
    }
  }

  /** A neutral grey pixel blended with itself is a fixed point (the luminance weights
      sum to one); with clamping this needs the grey level to lie in [0,1]. */
  lemma NeutralGreyFixedPoint(s: Pixel, p: Params, avg: Color3)
    requires s.r == s.g == s.b
    requires p.blend == 1.0 && !p.useAvgColor
    requires p.clamp ==> InUnit(s.r)
    ensures ProcessPixel(Some(s), Some(s), p, avg) == s
  {
    var lum := Luminance(s);
    assert lum == s.r;
    assert MixChannel(s.r, s.a, lum, s.r, p) == s.r;
  }

  /** An opaque pixel blended with itself at full strength, unclamped, turns into the
      grey of its own luminance. */
  lemma OpaqueSelfBlendDesaturates(s: Pixel, p: Params, avg: Color3)
    requires s.a == 1.0
    requires p.blend == 1.0 && !p.useAvgColor && !p.clamp
    ensures ProcessPixel(Some(s), Some(s), p, avg) == Pixel(Luminance(s), Luminance(s), Luminance(s), 1.0)
  {
    SelfBlendTowardsLuminance(s, p, avg);
    var r := ProcessPixel(Some(s), Some(s), p, avg);
    assert r.Get(Red) == Luminance(s);
    assert r.Get(Green) == Luminance(s);
    assert r.Get(Blue) == Luminance(s);
  }

  /** Opaque pure red over itself at full strength gives 0.2126 in every colour channel,
      with and without clamping. */
  lemma OpaqueRedOverItself(clamp: bool, avg: Color3)
    ensures ProcessPixel(Some(Pixel(1.0, 0.0, 0.0, 1.0)), Some(Pixel(1.0, 0.0, 0.0, 1.0)), Params(false, 1.0, clamp), avg)
         == Pixel(0.2126, 0.2126, 0.2126, 1.0)
  {
    var red := Pixel(1.0, 0.0, 0.0, 1.0);
    var p := Params(false, 1.0, clamp);
    assert Luminance(red) == 0.2126;
    assert MixChannel(1.0, 1.0, 0.2126, 1.0, p) == 0.2126;
    assert MixChannel(0.0, 1.0, 0.2126, 0.0, p) == 0.2126;
  }

  /** With `useAvgColor` off, the average colour has no influence on any pixel. */
  lemma AverageUnusedWhenOff(src: Option<Pixel>, top: Option<Pixel>, p: Params, avg1: Color3, avg2: Color3)
    requires !p.useAvgColor
    ensures ProcessPixel(src, top, p, avg1) == ProcessPixel(src, top, p, avg2)
  {
  }

  /** The destination after the kernel has processed rows `[w.y1, yEnd)` of window `w`. */
  function CompositeWindow(dst: Image, src: Image, top: Image, w: Rect, p: Params, avg: Color3, yEnd: int): Image {
    map c | c in dst.Keys + RowsSet(w, yEnd) ::
      if InRows(c, w, yEnd) then PixelAt(src, top, p, avg, c) else dst[c]
  }

  /** The value the kernel writes at `c`. */
  function PixelAt(src: Image, top: Image, p: Params, avg: Color3, c: Coord): Pixel {
    ProcessPixel(Lookup(src, c), Lookup(top, c), p, avg)
  }

  /** The inner loop of `multiThreadProcessImages`: one row, left to right. */
  method ProcessRow(out0: Image, src: Image, top: Image, y: int, x1: int, x2: int, p: Params, avg: Color3)
    returns (out: Image, written: seq<Coord>)
    ensures written == RowScan(y, x1, x2)
    ensures forall c :: c in out <==> c in out0 || InRow(c, y, x1, x2)
    ensures forall c :: InRow(c, y, x1, x2) ==> out[c] == PixelAt(src, top, p, avg, c)
    ensures forall c :: c in out0 && !InRow(c, y, x1, x2) ==> out[c] == out0[c]
  {
    out := out0;
    written := [];
    var x := x1;
    while x < x2
      invariant x1 <= x
      invariant x1 <= x2 ==> x <= x2
      invariant x2 <= x1 ==> x == x1
      invariant written == RowScan(y, x1, x)
      invariant forall c :: c in out <==> c in out0 || InRow(c, y, x1, x)
      invariant forall c :: InRow(c, y, x1, x) ==> out[c] == PixelAt(src, top, p, avg, c)
      invariant forall c :: c in out0 && !InRow(c, y, x1, x) ==> out[c] == out0[c]
      decreases x2 - x
    {
      var c := Coord(x, y);
      out := out[c := PixelAt(src, top, p, avg, c)];
      written := written + [c];
      x := x + 1;
    }
    assert RowScan(y, x1, x) == RowScan(y, x1, x2);
  }

  /** `multiThreadProcessImages` over one window: rows top to bottom, polling the abort
      flag before each row, pixels left to right. Returns the destination, the order in
      which pixels were written, and the row at which the loop stopped. */
  method ProcessWindow(dst: Image, src: Image, top: Image, w: Rect, p: Params, avg: Color3, aborted: int -> bool)
    returns (out: Image, trace: seq<Coord>, stop: int)
    ensures stop == FirstAbort(aborted, w.y1, w.y2)
    ensures trace == Scan(w, stop)
    ensures forall c :: c in out <==> c in dst || InRows(c, w, stop)
    ensures forall c :: InRows(c, w, stop) ==> out[c] == PixelAt(src, top, p, avg, c)
    ensures forall c :: c in dst && !InRows(c, w, stop) ==> out[c] == dst[c]
    ensures out == CompositeWindow(dst, src, top, w, p, avg, stop)
  {
    out := dst;
    trace := [];
    var y := w.y1;
    while y < w.y2
      invariant w.y1 <= y
      invariant w.y1 <= w.y2 ==> y <= w.y2
      invariant w.y2 <= w.y1 ==> y == w.y1
      invariant FirstAbort(aborted, y, w.y2) == FirstAbort(aborted, w.y1, w.y2)
      invariant trace == Scan(w, y)
      invariant forall c :: c in out <==> c in dst || InRows(c, w, y)
      invariant forall c :: InRows(c, w, y) ==> out[c] == PixelAt(src, top, p, avg, c)
      invariant forall c :: c in dst && !InRows(c, w, y) ==> out[c] == dst[c]
      decreases w.y2 - y
    {
      if aborted(y) {
        break;
      }
      var row;
      out, row := ProcessRow(out, src, top, y, w.x1, w.x2, p, avg);
      trace := trace + row;
      y := y + 1;
    }
    stop := y;
    CompositeWindowPointwise(dst, src, top, w, p, avg, stop, out);
  }

  /** An image that agrees with the kernel's writes on rows `[w.y1, yEnd)` and with `dst`
      elsewhere is `CompositeWindow`. */
  lemma CompositeWindowPointwise(dst: Image, src: Image, top: Image, w: Rect, p: Params, avg: Color3, yEnd: int, out: Image)
    requires forall c :: c in out <==> c in dst || InRows(c, w, yEnd)
    requires forall c :: InRows(c, w, yEnd) ==> out[c] == PixelAt(src, top, p, avg, c)
    requires forall c :: c in dst && !InRows(c, w, yEnd) ==> out[c] == dst[c]
    ensures out == CompositeWindow(dst, src, top, w, p, avg, yEnd)
  {
    RowsSetMembers(w, yEnd);
    assert out.Keys == CompositeWindow(dst, src, top, w, p, avg, yEnd).Keys;
  }

  /** Processing one window and then another gives the same destination as the other
      order: every written value depends only on the source and top images, so tiles
      handed to concurrent workers need no ordering between them. */
  lemma TilesCommute(dst: Image, src: Image, top: Image, w1: Rect, e1: int, w2: Rect, e2: int, p: Params, avg: Color3)
    ensures CompositeWindow(CompositeWindow(dst, src, top, w1, p, avg, e1), src, top, w2, p, avg, e2)
         == CompositeWindow(CompositeWindow(dst, src, top, w2, p, avg, e2), src, top, w1, p, avg, e1)
  {
    var a := CompositeWindow(CompositeWindow(dst, src, top, w1, p, avg, e1), src, top, w2, p, avg, e2);
    var b := CompositeWindow(CompositeWindow(dst, src, top, w2, p, avg, e2), src, top, w1, p, avg, e1);
    RowsSetMembers(w1, e1);
    RowsSetMembers(w2, e2);
    assert a.Keys == b.Keys;
  }

  /** Splitting a window at row `m` into an upper and a lower tile and processing both
      writes the same destination as processing the whole window at once. */
  lemma RowSplitComposes(dst: Image, src: Image, top: Image, w: Rect, m: int, p: Params, avg: Color3)
    requires w.y1 <= m <= w.y2
    ensures CompositeWindow(CompositeWindow(dst, src, top, Rect(w.x1, w.y1, w.x2, m), p, avg, m),
                            src, top, Rect(w.x1, m, w.x2, w.y2), p, avg, w.y2)
         == CompositeWindow(dst, src, top, w, p, avg, w.y2)
  {
    var upper := Rect(w.x1, w.y1, w.x2, m);
    var lower := Rect(w.x1, m, w.x2, w.y2);
    var a := CompositeWindow(CompositeWindow(dst, src, top, upper, p, avg, m), src, top, lower, p, avg, w.y2);
    var b := CompositeWindow(dst, src, top, w, p, avg, w.y2);
    RowsSetMembers(upper, m);
    RowsSetMembers(lower, w.y2);
    RowsSetMembers(w, w.y2);
    assert a.Keys == b.Keys;
  }

  lemma RowsSetMembers(w: Rect, yEnd: int)
    ensures forall c :: c in RowsSet(w, yEnd) <==> InRows(c, w, yEnd)
  {
    forall c | InRows(c, w, yEnd)
      ensures c in RowsSet(w, yEnd)
    {
      assert c == Coord(c.x, c.y);
    }
  }

  /** Where the top layer has no pixel in the window, every written pixel is transparent
      black and the average colour is never read. */
  lemma AverageIrrelevantWithoutTop(dst: Image, src: Image, top: Image, w: Rect, p: Params,
                                    avg1: Color3, avg2: Color3, yEnd: int)
    requires forall c :: InRect(c, w) ==> c !in top
    requires yEnd <= w.y2
    ensures CompositeWindow(dst, src, top, w, p, avg1, yEnd) == CompositeWindow(dst, src, top, w, p, avg2, yEnd)
  {
    var a := CompositeWindow(dst, src, top, w, p, avg1, yEnd);
    var b := CompositeWindow(dst, src, top, w, p, avg2, yEnd);
    assert a.Keys == b.Keys;
    forall c | c in a
      ensures a[c] == b[c]
    {
      if InRows(c, w, yEnd) {
        assert c !in top;
      }
    }
  }
}
