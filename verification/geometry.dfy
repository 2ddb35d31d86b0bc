/**
 Pixel coordinates, the half-open render window (`OfxRectI`), images as partial
 maps from coordinates to pixels, and the row-major order in which the processor
 visits a window.
 */
module Geometry {
  import opened Wrappers
  import opened Pixels

  datatype Coord = Coord(x: int, y: int)

  /** An integer rectangle, half-open on the upper bounds: x1 <= x < x2, y1 <= y < y2. */
  datatype Rect = Rect(x1: int, y1: int, x2: int, y2: int)

  /** An image: `getPixelAddress(x, y)` yields a pixel exactly at the keys of the map,
      and null everywhere else. A missing image is the empty map. */
  type Image = map<Coord, Pixel>

  function Lookup(img: Image, c: Coord): Option<Pixel> {
    if c in img then Some(img[c]) else None
  }

  /** `c` lies in the columns of `w` and in its rows `[w.y1, yEnd)`. */
  predicate InRows(c: Coord, w: Rect, yEnd: int) {
    w.x1 <= c.x < w.x2 && w.y1 <= c.y < yEnd
  }

  /** `c` lies in columns `[x1, xEnd)` of row `y`. */
  predicate InRow(c: Coord, y: int, x1: int, xEnd: int) {
    c.y == y && x1 <= c.x < xEnd
  }

  predicate InRect(c: Coord, w: Rect) {
    InRows(c, w, w.y2)
  }

  /** The coordinates of rows `[w.y1, yEnd)` of `w`, as a set. */
  function RowsSet(w: Rect, yEnd: int): set<Coord> {
    set x: int, y: int | w.x1 <= x < w.x2 && w.y1 <= y < yEnd :: Coord(x, y)
  }

  /** Two windows that share no coordinate: separated along x or along y. */
  predicate Separated(w1: Rect, w2: Rect) {
    w1.x2 <= w2.x1 || w2.x2 <= w1.x1 || w1.y2 <= w2.y1 || w2.y2 <= w1.y1
  }

  /** The columns `[x1, xEnd)` of row `y`, left to right. */
  function RowScan(y: int, x1: int, xEnd: int): seq<Coord>
    decreases xEnd - x1
  {
    if xEnd <= x1 then [] else RowScan(y, x1, xEnd - 1) + [Coord(xEnd - 1, y)]
  }

  /** The rows `[w.y1, yEnd)` of `w`, top to bottom, each left to right: the order in
      which the nested `for` loops over a window visit its pixels. */
  function Scan(w: Rect, yEnd: int): seq<Coord>
    decreases yEnd - w.y1
  {
    if yEnd <= w.y1 then [] else Scan(w, yEnd - 1) + RowScan(yEnd - 1, w.x1, w.x2)
  }

  /** Strict row-major order: an earlier row, or the same row and an earlier column. */
  predicate Before(a: Coord, b: Coord) {
    a.y < b.y || (a.y == b.y && a.x < b.x)
  }

  predicate RowMajor(s: seq<Coord>) {
    forall i, j :: 0 <= i < j < |s| ==> Before(s[i], s[j])
  }

  lemma {:induction false} RowScanMembers(y: int, x1: int, xEnd: int)
    ensures forall c :: c in RowScan(y, x1, xEnd) <==> (c.y == y && x1 <= c.x < xEnd)
    decreases xEnd - x1
  {
    if x1 < xEnd {
      RowScanMembers(y, x1, xEnd - 1);
    }
  }

  lemma {:induction false} RowScanRowMajor(y: int, x1: int, xEnd: int)
    ensures RowMajor(RowScan(y, x1, xEnd))
    decreases xEnd - x1
  {
    if x1 < xEnd {
      RowScanRowMajor(y, x1, xEnd - 1);
      RowScanMembers(y, x1, xEnd - 1);
      RowMajorAppend(RowScan(y, x1, xEnd - 1), [Coord(xEnd - 1, y)]);
    }
  }

  /** Concatenating two row-major runs, the first entirely before the second, is row-major. */
  lemma RowMajorAppend(s: seq<Coord>, t: seq<Coord>)
    requires RowMajor(s) && RowMajor(t)
    requires forall a, b :: a in s && b in t ==> Before(a, b)
    ensures RowMajor(s + t)
  {
    forall i, j | 0 <= i < j < |s + t|
      ensures Before((s + t)[i], (s + t)[j])
    {
      if i < |s| && |s| <= j {
        assert s[i] in s;
        assert t[j - |s|] in t;
      }
    }
  }

  /** The scan of rows `[w.y1, yEnd)` visits exactly the coordinates of those rows. */
  lemma {:induction false} ScanMembers(w: Rect, yEnd: int)
    ensures forall c :: c in Scan(w, yEnd) <==> InRows(c, w, yEnd)
    decreases yEnd - w.y1
  {
    if w.y1 < yEnd {
      ScanMembers(w, yEnd - 1);
      RowScanMembers(yEnd - 1, w.x1, w.x2);
    }
  }

  /** The scan is strictly row-major, so no coordinate is visited twice. */
  lemma {:induction false} ScanRowMajor(w: Rect, yEnd: int)
    ensures RowMajor(Scan(w, yEnd))
    ensures forall i, j :: 0 <= i < j < |Scan(w, yEnd)| ==> Scan(w, yEnd)[i] != Scan(w, yEnd)[j]
    decreases yEnd - w.y1
  {
    if w.y1 < yEnd {
      ScanRowMajor(w, yEnd - 1);
      RowScanRowMajor(yEnd - 1, w.x1, w.x2);
      ScanMembers(w, yEnd - 1);
      RowScanMembers(yEnd - 1, w.x1, w.x2);
      RowMajorAppend(Scan(w, yEnd - 1), RowScan(yEnd - 1, w.x1, w.x2));
    }
  }

  lemma {:induction false} RowScanLength(y: int, x1: int, xEnd: int)
    requires x1 <= xEnd
    ensures |RowScan(y, x1, xEnd)| == xEnd - x1
    decreases xEnd - x1
  {
    if x1 < xEnd {
      RowScanLength(y, x1, xEnd - 1);
    }
  }

  /** A scan of a well-formed window writes width times height pixels. */
  lemma {:induction false} ScanLength(w: Rect, yEnd: int)
    requires w.x1 <= w.x2 && w.y1 <= yEnd
    ensures |Scan(w, yEnd)| == (w.x2 - w.x1) * (yEnd - w.y1)
    decreases yEnd - w.y1
  {
    if w.y1 < yEnd {
      ScanLength(w, yEnd - 1);
      RowScanLength(yEnd - 1, w.x1, w.x2);
    }
  }

  /** Two separated windows are scanned over disjoint coordinates, so two workers given
      separated windows never write the same pixel. */
  lemma SeparatedWindowsScanDisjoint(w1: Rect, w2: Rect)
    requires Separated(w1, w2)
    ensures forall c :: c in Scan(w1, w1.y2) ==> c !in Scan(w2, w2.y2)
  {
    ScanMembers(w1, w1.y2);
    ScanMembers(w2, w2.y2);
  }
}
