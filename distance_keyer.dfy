/** The chroma keyer of the constructor. Its key colour is the per-channel
    integer mean of a frame of 8-bit, three-channel pixels. The matte itself
    is computed on the graphics card and is not part of this model. */
module Keying {
  import opened Voxels

  /** The largest value of a C++ `int`. */
  const IntMax: int := 0x7fff_ffff

  /** A three-channel byte pixel; channel k is `c[k]` of the source. */
  datatype Pixel = Pixel(c0: UInt8, c1: UInt8, c2: UInt8)

  function Channel(p: Pixel, c: nat): (v: UInt8)
    requires c < 3
  {
    if c == 0 then p.c0 else if c == 1 then p.c1 else p.c2
  }

  /** A downloaded frame: `rows` rows of `cols` pixels each. */
  datatype Frame = Frame(rows: nat, cols: nat, pixels: seq<seq<Pixel>>)
  {
    ghost predicate Valid()
    {
      && |pixels| == rows
      && forall i :: 0 <= i < |pixels| ==> |pixels[i]| == cols
    }
  }

  /** The sum of channel c along one row. */
  function RowSum(row: seq<Pixel>, c: nat): (s: nat)
    requires c < 3
    ensures s <= 255 * |row|
  {
    if row == [] then 0 else RowSum(row[..|row| - 1], c) + Channel(row[|row| - 1], c)
  }

  /** The sum of channel c over all pixels of the given rows. */
  function GridSum(rows: seq<seq<Pixel>>, c: nat): nat
    requires c < 3
  {
    if rows == [] then 0 else GridSum(rows[..|rows| - 1], c) + RowSum(rows[|rows| - 1], c)
  }

  /** The key colour the keyer looks for: the integer mean of each channel. */
  function Mean(f: Frame, c: nat): int
    requires c < 3 && f.rows * f.cols > 0
  {
    GridSum(f.pixels, c) / (f.rows * f.cols)
  }

  /** No channel sums to more than 255 per pixel. */
  lemma {:induction false} GridSumBound(rows: seq<seq<Pixel>>, cols: nat, c: nat)
    requires c < 3 && forall i :: 0 <= i < |rows| ==> |rows[i]| == cols
    ensures GridSum(rows, c) <= 255 * (cols * |rows|)
  {
    if rows != [] {
      GridSumBound(rows[..|rows| - 1], cols, c);
      MulStep(255, cols, |rows|);
    }
  }

  /** Each key colour component is a byte. */
  lemma MeanRange(f: Frame, c: nat)
    requires f.Valid() && c < 3 && f.rows * f.cols > 0
    ensures 0 <= Mean(f, c) <= 255
  {
    GridSumBound(f.pixels, f.cols, c);
    MulComm(f.cols, f.rows);
    DivBound(GridSum(f.pixels, c), 255, f.rows * f.cols);
  }

  /** A row of one colour sums to that colour times its length. */
  lemma {:induction false} RowSumUniform(row: seq<Pixel>, p: Pixel, c: nat)
    requires c < 3 && forall j :: 0 <= j < |row| ==> row[j] == p
    ensures RowSum(row, c) == Channel(p, c) * |row|
  {
    if row != [] {
      RowSumUniform(row[..|row| - 1], p, c);
      MulStep(Channel(p, c), 1, |row|);
    }
  }

  lemma {:induction false} GridSumUniform(rows: seq<seq<Pixel>>, cols: nat, p: Pixel, c: nat)
    requires c < 3
    requires forall i, j :: 0 <= i < |rows| && 0 <= j < |rows[i]| ==> rows[i][j] == p
    requires forall i :: 0 <= i < |rows| ==> |rows[i]| == cols
    ensures GridSum(rows, c) == Channel(p, c) * (cols * |rows|)
  {
    if rows != [] {
      GridSumUniform(rows[..|rows| - 1], cols, p, c);
      RowSumUniform(rows[|rows| - 1], p, c);
      MulStep(Channel(p, c), cols, |rows|);
    }
  }

  /** A frame of a single colour has that colour as its key colour. */
  lemma MeanUniform(f: Frame, p: Pixel, c: nat)
    requires f.Valid() && c < 3 && f.rows * f.cols > 0
    requires forall i, j :: 0 <= i < f.rows && 0 <= j < f.cols ==> f.pixels[i][j] == p
    ensures Mean(f, c) == Channel(p, c)
  {
    GridSumUniform(f.pixels, f.cols, p, c);
    MulComm(f.cols, f.rows);
    DivExact(Channel(p, c), f.rows * f.cols);
  }

  lemma MulStep(a: nat, b: nat, n: nat)
    requires n > 0
    ensures a * (b * (n - 1)) + a * b == a * (b * n)
  {
  }

  lemma MulComm(a: nat, b: nat)
    ensures a * b == b * a
  {
  }

  lemma DivBound(s: nat, m: nat, n: nat)
    requires n > 0 && s <= m * n
    ensures s / n <= m
  {
  }

  lemma DivExact(v: nat, n: nat)
    requires n > 0
    ensures (v * n) / n == v
  {
    var q, r := (v * n) / n, (v * n) % n;
    assert v * n == q * n + r && 0 <= r < n;
    if q < v {
      MulMono(q + 1, v, n);
      MulSucc(q, n);
      assert false;
    } else if q > v {
      MulMono(v + 1, q, n);
      MulSucc(v, n);
      assert false;
    }
  }

  lemma MulMono(a: int, b: int, n: nat)
    requires a <= b
    ensures a * n <= b * n
  {
  }

  lemma MulSucc(a: int, n: nat)
    ensures (a + 1) * n == a * n + n
  {
  }

  class DistanceKeyer {
    /** The key colour, channel 0 first. */
    var keyColor: seq<int>
    var threshold: int
    var tolerance: int
    var garbageThreshold: int
    var hasKeyColor: bool

    /** A keyer without a key colour. */
    constructor()
      ensures !hasKeyColor
      ensures keyColor == [0, 0, 0] && threshold == 0 && tolerance == 0 && garbageThreshold == 0
    {
      hasKeyColor := false;
      keyColor := [0, 0, 0];
      threshold := 0;
      tolerance := 0;
      garbageThreshold := 0;
    }

    /** Sums each channel over the frame row by row, divides the sums by
        the pixel count, and stores them as the key colour, channel k at
        position k. The frame must hold a pixel, and its channel sums must
        fit the source's `int` accumulators. */
    method FindKeyColor(f: Frame)
      requires f.Valid() && f.rows * f.cols > 0
      requires 255 * (f.rows * f.cols) <= IntMax
      modifies this
      ensures hasKeyColor
      ensures |keyColor| == 3 && forall c :: 0 <= c < 3 ==> keyColor[c] == Mean(f, c)
      ensures forall c :: 0 <= c < 3 ==> 0 <= keyColor[c] <= 255
      ensures threshold == old(threshold) && tolerance == old(tolerance) && garbageThreshold == old(garbageThreshold)
    {
      var size := f.rows * f.cols;
      var r, g, b := 0, 0, 0;
      var i := 0;
      while i < f.rows
        invariant i <= f.rows
        invariant r == GridSum(f.pixels[..i], 0) && g == GridSum(f.pixels[..i], 1) && b == GridSum(f.pixels[..i], 2)
      {
        var row := f.pixels[i];
        var j := 0;
        while j < f.cols
          invariant j <= f.cols == |row|
          invariant r == GridSum(f.pixels[..i], 0) + RowSum(row[..j], 0)
          invariant g == GridSum(f.pixels[..i], 1) + RowSum(row[..j], 1)
          invariant b == GridSum(f.pixels[..i], 2) + RowSum(row[..j], 2)
        {
          assert row[..j + 1][..j] == row[..j];
          r := r + row[j].c0;
          g := g + row[j].c1;
          b := b + row[j].c2;
          j := j + 1;
        }
        assert row[..j] == row;
        assert f.pixels[..i + 1][..i] == f.pixels[..i];
        i := i + 1;
      }
      assert f.pixels[..i] == f.pixels;
      r := r / size;
      g := g / size;
      b := b / size;
      keyColor := [r, g, b];
      MeanRange(f, 0);
      MeanRange(f, 1);
      MeanRange(f, 2);
      hasKeyColor := true;
    }
  }
}
