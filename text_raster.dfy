/**
 * The text-to-particle rasterizer of the fireworks engine
 * (getTextParticleCoordinates in components/FireworksDisplay.tsx).
 *
 * Drawing the glyph into an off-screen canvas is a foreign canvas call; the
 * model receives its result, the RGBA buffer of a w-by-h canvas (four bytes
 * per pixel, row-major), or None when no 2D context could be obtained.
 */
module TextRaster {
  import opened Wrappers

  /** Grid stride of the sampling scan, in pixels. */
  const SampleStep: nat := 4
  /** A grid pixel is kept when its alpha byte is strictly above this value. */
  const AlphaThreshold: int := 128

  /** An offset relative to the centre of the glyph canvas. */
  datatype Point = Point(x: real, y: real)

  /** Number of grid positions 0, 4, 8, ... below n, that is ceil(n / 4). */
  function Cells(n: nat): (c: nat)
    ensures SampleStep * c >= n && (c > 0 ==> SampleStep * (c - 1) < n)
  {
    (n + SampleStep - 1) / SampleStep
  }

  /** Index of the alpha byte of pixel (gx, gy) in the RGBA buffer. */
  function AlphaIndex(w: nat, gx: nat, gy: nat): nat
  {
    (gy * w + gx) * 4 + 3
  }

  lemma MulStep(m: nat, c: nat)
    requires m > 0
    ensures (m - 1) * c + c == m * c
  {
  }

  lemma MulMonotone(a: nat, b: nat, c: nat)
    requires a <= b
    ensures a * c <= b * c
  {
  }

  /** The alpha byte of every pixel of the canvas lies inside the buffer. */
  lemma AlphaIndexInBounds(w: nat, h: nat, gx: nat, gy: nat)
    requires gx < w && gy < h
    ensures AlphaIndex(w, gx, gy) < w * h * 4
  {
    assert gy * w + gx < (gy + 1) * w;
    MulMonotone(gy + 1, h, w);
  }

  /** The sampling rule: the pixel's alpha byte exceeds the threshold. */
  predicate Kept(data: seq<int>, w: nat, h: nat, gx: nat, gy: nat)
    requires |data| == w * h * 4 && gx < w && gy < h
  {
    AlphaIndexInBounds(w, h, gx, gy);
    data[AlphaIndex(w, gx, gy)] > AlphaThreshold
  }

  /** The emitted offset of pixel (gx, gy): relative to the canvas centre. */
  function Offset(w: nat, h: nat, gx: nat, gy: nat): Point
  {
    Point(gx as real - w as real / 2.0, gy as real - h as real / 2.0)
  }

  /** Row-major order: a precedes b when it lies on an earlier row, or on the same row further left. */
  predicate Before(a: Point, b: Point)
  {
    a.y < b.y || (a.y == b.y && a.x < b.x)
  }

  predicate RowMajor(ps: seq<Point>)
  {
    forall j, k :: 0 <= j < k < |ps| ==> Before(ps[j], ps[k])
  }

  /** Points strictly increasing in x. */
  predicate LeftToRight(ps: seq<Point>)
  {
    forall j, k :: 0 <= j < k < |ps| ==> ps[j].x < ps[k].x
  }

  /** Offsets of pixels of row gy, inside the canvas, left of grid column n. */
  predicate OnRow(ps: seq<Point>, w: nat, h: nat, gy: nat, n: nat)
  {
    forall k :: 0 <= k < |ps| ==>
      ps[k].y == gy as real - h as real / 2.0 &&
      - (w as real) / 2.0 <= ps[k].x < w as real / 2.0 &&
      ps[k].x + w as real / 2.0 < (SampleStep * n) as real
  }

  /** Offsets of pixels inside the w-by-h canvas. */
  predicate InCanvas(ps: seq<Point>, w: nat, h: nat)
  {
    forall k :: 0 <= k < |ps| ==>
      - (w as real) / 2.0 <= ps[k].x < w as real / 2.0 &&
      - (h as real) / 2.0 <= ps[k].y < h as real / 2.0
  }

  /** Offsets of pixels inside the canvas, above grid row m. */
  predicate AboveRow(ps: seq<Point>, w: nat, h: nat, m: nat)
  {
    && InCanvas(ps, w, h)
    && forall k :: 0 <= k < |ps| ==> ps[k].y + h as real / 2.0 < (SampleStep * m) as real
  }

  /** A row-major list followed by one later row, left to right, is row-major. */
  lemma RowMajorJoin(a: seq<Point>, b: seq<Point>, y: real)
    requires RowMajor(a)
    requires forall k :: 0 <= k < |a| ==> a[k].y < y
    requires forall k :: 0 <= k < |b| ==> b[k].y == y
    requires LeftToRight(b)
    ensures RowMajor(a + b)
  {
    forall j, k | 0 <= j < k < |a + b| ensures Before((a + b)[j], (a + b)[k]) {
      if k < |a| {
        assert Before(a[j], a[k]);
      } else if j < |a| {
        assert (a + b)[j] == a[j] && (a + b)[k] == b[k - |a|];
      } else {
        assert (a + b)[j] == b[j - |a|] && (a + b)[k] == b[k - |a|];
      }
    }
  }

  /**
   * The samples of the first n grid columns of pixel row gy, in scan order
   * (the inner loop of the scan).
   */
  function RowSamples(data: seq<int>, w: nat, h: nat, gy: nat, n: nat): (r: seq<Point>)
    requires |data| == w * h * 4 && gy < h && n <= Cells(w)
    ensures |r| <= n
  {
    if n == 0 then []
    else
      var gx := SampleStep * (n - 1);
      RowSamples(data, w, h, gy, n - 1) + (if Kept(data, w, h, gx, gy) then [Offset(w, h, gx, gy)] else [])
  }

  /** A row prefix lies on its pixel row, inside the canvas and left of the prefix end, left to right. */
  lemma {:induction false} RowShape(data: seq<int>, w: nat, h: nat, gy: nat, n: nat)
    requires |data| == w * h * 4 && gy < h && n <= Cells(w)
    ensures OnRow(RowSamples(data, w, h, gy, n), w, h, gy, n)
    ensures LeftToRight(RowSamples(data, w, h, gy, n))
  {
    if n > 0 {
      var gx := SampleStep * (n - 1);
      var prev := RowSamples(data, w, h, gy, n - 1);
      var last := if Kept(data, w, h, gx, gy) then [Offset(w, h, gx, gy)] else [];
      var r := prev + last;
      assert RowSamples(data, w, h, gy, n) == r;
      RowShape(data, w, h, gy, n - 1);
      forall k | 0 <= k < |r|
        ensures r[k].y == gy as real - h as real / 2.0
        ensures - (w as real) / 2.0 <= r[k].x < w as real / 2.0
        ensures r[k].x + w as real / 2.0 < (SampleStep * n) as real
      {
        if k < |prev| {
          assert r[k] == prev[k];
        } else {
          assert r[k] == Offset(w, h, gx, gy);
        }
      }
      forall j, k | 0 <= j < k < |r| ensures r[j].x < r[k].x {
        assert r[j] == prev[j];
        if k < |prev| {
          assert r[k] == prev[k];
        } else {
          assert r[k] == Offset(w, h, gx, gy);
        }
      }
    }
  }

  /** The samples of the first m grid rows, in scan order (the outer loop of the scan). */
  function Samples(data: seq<int>, w: nat, h: nat, m: nat): (r: seq<Point>)
    requires |data| == w * h * 4 && m <= Cells(h)
    ensures |r| <= m * Cells(w)
  {
    if m == 0 then []
    else
      var prev := Samples(data, w, h, m - 1);
      var row := RowSamples(data, w, h, SampleStep * (m - 1), Cells(w));
      MulStep(m, Cells(w));
      prev + row
  }

  /** The samples of the first m rows lie inside the canvas, above row 4 * m, in row-major order. */
  lemma {:induction false} SamplesShape(data: seq<int>, w: nat, h: nat, m: nat)
    requires |data| == w * h * 4 && m <= Cells(h)
    ensures AboveRow(Samples(data, w, h, m), w, h, m)
    ensures RowMajor(Samples(data, w, h, m))
  {
    if m > 0 {
      var gy := SampleStep * (m - 1);
      var prev := Samples(data, w, h, m - 1);
      var row := RowSamples(data, w, h, gy, Cells(w));
      assert Samples(data, w, h, m) == prev + row;
      SamplesShape(data, w, h, m - 1);
      RowShape(data, w, h, gy, Cells(w));
      RowMajorJoin(prev, row, gy as real - h as real / 2.0);
      var r := prev + row;
      forall k | 0 <= k < |r|
        ensures - (h as real) / 2.0 <= r[k].y < h as real / 2.0
        ensures r[k].y + h as real / 2.0 < (SampleStep * m) as real
        ensures - (w as real) / 2.0 <= r[k].x < w as real / 2.0
      {
        if k < |prev| {
          assert r[k] == prev[k];
        } else {
          assert r[k] == row[k - |prev|];
        }
      }
    }
  }

  /**
   * The whole result of the scan: empty without a 2D context, otherwise the
   * samples of every grid row.
   */
  function Raster(image: Option<seq<int>>, w: nat, h: nat): (r: seq<Point>)
    requires image.Some? ==> |image.value| == w * h * 4
    ensures image.None? ==> r == []
    ensures |r| <= Cells(h) * Cells(w)
    ensures InCanvas(r, w, h)
    ensures RowMajor(r)
  {
    match image
    case None => []
    case Some(data) =>
      SamplesShape(data, w, h, Cells(h));
      Samples(data, w, h, Cells(h))
  }

  /**
   * The point p is the offset of a grid pixel of the canvas whose alpha
   * exceeds the threshold: the grid pixel is recovered from p itself.
   */
  predicate IsSample(data: seq<int>, w: nat, h: nat, p: Point)
    requires |data| == w * h * 4
  {
    var gx := (p.x + w as real / 2.0).Floor;
    var gy := (p.y + h as real / 2.0).Floor;
    && 0 <= gx < w && 0 <= gy < h
    && gx % SampleStep == 0 && gy % SampleStep == 0
    && p == Offset(w, h, gx as nat, gy as nat)
    && Kept(data, w, h, gx as nat, gy as nat)
  }

  lemma FloorOfOffset(w: nat, h: nat, gx: nat, gy: nat)
    ensures (Offset(w, h, gx, gy).x + w as real / 2.0).Floor == gx
    ensures (Offset(w, h, gx, gy).y + h as real / 2.0).Floor == gy
  {
  }

  /** Every sample of a row prefix is a kept grid pixel of that row, left of the prefix end. */
  lemma {:induction false} RowSound(data: seq<int>, w: nat, h: nat, gy: nat, n: nat, p: Point)
    requires |data| == w * h * 4 && gy < h && gy % SampleStep == 0 && n <= Cells(w)
    requires p in RowSamples(data, w, h, gy, n)
    ensures IsSample(data, w, h, p) && p.y + h as real / 2.0 == gy as real
    ensures p.x + w as real / 2.0 < (SampleStep * n) as real
  {
    if n > 0 {
      var gx := SampleStep * (n - 1);
      var prev := RowSamples(data, w, h, gy, n - 1);
      var last := if Kept(data, w, h, gx, gy) then [Offset(w, h, gx, gy)] else [];
      assert RowSamples(data, w, h, gy, n) == prev + last;
      if p in prev {
        RowSound(data, w, h, gy, n - 1, p);
      } else {
        assert p in last;
        LastSample(data, w, h, gy, n);
      }
    }
  }

  /** The pixel at grid column n - 1 of row gy, when kept, is a sample of the row prefix of length n. */
  lemma LastSample(data: seq<int>, w: nat, h: nat, gy: nat, n: nat)
    requires |data| == w * h * 4 && gy < h && gy % SampleStep == 0 && 0 < n <= Cells(w)
    requires Kept(data, w, h, SampleStep * (n - 1), gy)
    ensures var p := Offset(w, h, SampleStep * (n - 1), gy);
      IsSample(data, w, h, p) && p.y + h as real / 2.0 == gy as real &&
      p.x + w as real / 2.0 < (SampleStep * n) as real
  {
    var gx := SampleStep * (n - 1);
    GridColumn(w, n);
    GridSample(data, w, h, gx, gy);
    var p := Offset(w, h, gx, gy);
    assert p.x + w as real / 2.0 == gx as real;
  }

  /** Grid column n - 1 of a row of width w lies inside the row, on the grid, left of column n. */
  lemma GridColumn(w: nat, n: nat)
    requires 0 < n <= Cells(w)
    ensures SampleStep * (n - 1) < w && (SampleStep * (n - 1)) % SampleStep == 0
    ensures SampleStep * (n - 1) < SampleStep * n
  {
    assert SampleStep * (n - 1) <= SampleStep * (Cells(w) - 1);
  }

  /** Every kept grid pixel of the row left of the prefix end is among its samples. */
  lemma {:induction false} RowComplete(data: seq<int>, w: nat, h: nat, gy: nat, n: nat, p: Point)
    requires |data| == w * h * 4 && gy < h && gy % SampleStep == 0 && n <= Cells(w)
    requires IsSample(data, w, h, p) && p.y + h as real / 2.0 == gy as real
    requires p.x + w as real / 2.0 < (SampleStep * n) as real
    ensures p in RowSamples(data, w, h, gy, n)
  {
    var px, py := SampleGrid(data, w, h, p);
    StrideBelow(px, n);
    var gx := SampleStep * (n - 1);
    if px < gx {
      RowComplete(data, w, h, gy, n - 1, p);
    } else {
      assert p == Offset(w, h, gx, gy);
    }
  }

  lemma RowMembership(data: seq<int>, w: nat, h: nat, gy: nat, n: nat, p: Point)
    requires |data| == w * h * 4 && gy < h && gy % SampleStep == 0 && n <= Cells(w)
    ensures p in RowSamples(data, w, h, gy, n) <==>
      IsSample(data, w, h, p) && p.y + h as real / 2.0 == gy as real &&
      p.x + w as real / 2.0 < (SampleStep * n) as real
  {
    if p in RowSamples(data, w, h, gy, n) {
      RowSound(data, w, h, gy, n, p);
    }
    if IsSample(data, w, h, p) && p.y + h as real / 2.0 == gy as real &&
       p.x + w as real / 2.0 < (SampleStep * n) as real {
      RowComplete(data, w, h, gy, n, p);
    }
  }

  /** The grid pixel behind a sample: a multiple of 4 on both axes, inside the canvas. */
  lemma SampleGrid(data: seq<int>, w: nat, h: nat, p: Point) returns (gx: nat, gy: nat)
    requires |data| == w * h * 4 && IsSample(data, w, h, p)
    ensures gx < w && gy < h && gx % SampleStep == 0 && gy % SampleStep == 0
    ensures p.x + w as real / 2.0 == gx as real && p.y + h as real / 2.0 == gy as real
  {
    gx := (p.x + w as real / 2.0).Floor as nat;
    gy := (p.y + h as real / 2.0).Floor as nat;
  }

  /** Every sample of the first m rows is a kept grid pixel above row 4 * m. */
  lemma {:induction false} SamplesSound(data: seq<int>, w: nat, h: nat, m: nat, p: Point)
    requires |data| == w * h * 4 && m <= Cells(h)
    requires p in Samples(data, w, h, m)
    ensures IsSample(data, w, h, p) && p.y + h as real / 2.0 < (SampleStep * m) as real
  {
    var gy := SampleStep * (m - 1);
    RowStart(m, h);
    var prev := Samples(data, w, h, m - 1);
    var row := RowSamples(data, w, h, gy, Cells(w));
    assert Samples(data, w, h, m) == prev + row;
    if p in prev {
      SamplesSound(data, w, h, m - 1, p);
    } else {
      RowSound(data, w, h, gy, Cells(w), p);
    }
  }

  /** Row 4 * (m - 1) of the sampling grid lies on the canvas, below row 4 * m. */
  lemma RowStart(m: nat, h: nat)
    requires 0 < m <= Cells(h)
    ensures SampleStep * (m - 1) < h && (SampleStep * (m - 1)) % SampleStep == 0
    ensures (SampleStep * (m - 1)) as real < (SampleStep * m) as real
  {
  }

  /** Every kept grid pixel above row 4 * m is among the samples of the first m rows. */
  lemma {:induction false} SamplesComplete(data: seq<int>, w: nat, h: nat, m: nat, p: Point)
    requires |data| == w * h * 4 && m <= Cells(h)
    requires IsSample(data, w, h, p) && p.y + h as real / 2.0 < (SampleStep * m) as real
    ensures p in Samples(data, w, h, m)
  {
    var px, py := SampleGrid(data, w, h, p);
    StrideBelow(py, m);
    var gy := SampleStep * (m - 1);
    var prev := Samples(data, w, h, m - 1);
    var row := RowSamples(data, w, h, gy, Cells(w));
    assert Samples(data, w, h, m) == prev + row;
    if py < gy {
      SamplesComplete(data, w, h, m - 1, p);
    } else {
      RowComplete(data, w, h, gy, Cells(w), p);
    }
  }

  lemma SamplesMembership(data: seq<int>, w: nat, h: nat, m: nat, p: Point)
    requires |data| == w * h * 4 && m <= Cells(h)
    ensures p in Samples(data, w, h, m) <==>
      IsSample(data, w, h, p) && p.y + h as real / 2.0 < (SampleStep * m) as real
  {
    if p in Samples(data, w, h, m) {
      SamplesSound(data, w, h, m, p);
    }
    if IsSample(data, w, h, p) && p.y + h as real / 2.0 < (SampleStep * m) as real {
      SamplesComplete(data, w, h, m, p);
    }
  }

  /** A multiple of the stride below stride * m is at most stride * (m - 1). */
  lemma StrideBelow(g: nat, m: nat)
    requires g % SampleStep == 0 && g < SampleStep * m
    ensures g <= SampleStep * (m - 1)
  {
    var q := g / SampleStep;
    assert g == SampleStep * q;
  }

  /**
   * Inclusion rule of the scan, both directions: a point is emitted iff it
   * is the centre-relative offset of a grid pixel (both coordinates
   * multiples of 4, inside the canvas) whose alpha byte exceeds 128.
   */
  lemma RasterMembership(data: seq<int>, w: nat, h: nat, p: Point)
    requires |data| == w * h * 4
    ensures p in Raster(Some(data), w, h) <==> IsSample(data, w, h, p)
  {
    SamplesMembership(data, w, h, Cells(h), p);
  }

  /** The same rule phrased on grid coordinates. */
  lemma GridMembership(data: seq<int>, w: nat, h: nat, gx: nat, gy: nat)
    requires |data| == w * h * 4
    requires gx < w && gy < h && gx % SampleStep == 0 && gy % SampleStep == 0
    ensures Offset(w, h, gx, gy) in Raster(Some(data), w, h) <==> Kept(data, w, h, gx, gy)
  {
    RasterMembership(data, w, h, Offset(w, h, gx, gy));
    GridSample(data, w, h, gx, gy);
  }

  /** A grid pixel's offset is a sample exactly when the pixel is kept. */
  lemma GridSample(data: seq<int>, w: nat, h: nat, gx: nat, gy: nat)
    requires |data| == w * h * 4
    requires gx < w && gy < h && gx % SampleStep == 0 && gy % SampleStep == 0
    ensures IsSample(data, w, h, Offset(w, h, gx, gy)) <==> Kept(data, w, h, gx, gy)
  {
    FloorOfOffset(w, h, gx, gy);
  }

  /** Scan order rules out duplicates. */
  lemma RasterDistinct(image: Option<seq<int>>, w: nat, h: nat, j: nat, k: nat)
    requires image.Some? ==> |image.value| == w * h * 4
    requires j < k < |Raster(image, w, h)|
    ensures Raster(image, w, h)[j] != Raster(image, w, h)[k]
  {
  }

  /**
   * The scan itself: nested loops over the stride-4 grid, appending the
   * offset of every kept pixel.
   */
  method TextParticleCoordinates(image: Option<seq<int>>, w: nat, h: nat) returns (points: seq<Point>)
    requires image.Some? ==> |image.value| == w * h * 4
    ensures points == Raster(image, w, h)
  {
    if image.None? {
      return [];
    }
    var data := image.value;
    points := [];
    var y := 0;
    ghost var row := 0;
    while y < h
      invariant y == SampleStep * row && row <= Cells(h)
      invariant points == Samples(data, w, h, row)
    {
      var x := 0;
      ghost var col := 0;
      while x < w
        invariant x == SampleStep * col && col <= Cells(w)
        invariant points == Samples(data, w, h, row) + RowSamples(data, w, h, y, col)
      {
        AlphaIndexInBounds(w, h, x, y);
        if data[(y * w + x) * 4 + 3] > AlphaThreshold {
          points := points + [Point(x as real - w as real / 2.0, y as real - h as real / 2.0)];
        }
        x, col := x + SampleStep, col + 1;
      }
      y, row := y + SampleStep, row + 1;
    }
  }
}
