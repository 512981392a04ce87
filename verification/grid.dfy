/** The screen grid, the viewport it shows, and the two maps the renderer
    uses on pixel coordinates: the flat row-major buffer index and the
    linear map into the complex plane. */
module Grid {
  import opened Plane

  /** The renderer's configuration. In the program these are compile-time
      constants; here they are parameters with the same relations. */
  datatype Config = Config(
    width: nat,
    height: nat,
    maxIterations: nat,
    xLower: real,
    xUpper: real,
    yLower: real,
    yUpper: real)
  {
    /** A usable configuration. The grid must be square: every buffer is
        indexed with the height as row stride. */
    predicate Valid()
    {
      && width > 0
      && height == width
      && maxIterations > 0
      && xLower < xUpper
      && yLower < yUpper
    }

    function PixelAmount(): nat
    {
      width * height
    }

    /** Position of pixel (x, y) in the flat buffers: row y, column x,
        with the height as row stride. */
    function Index(x: nat, y: nat): nat
    {
      y * height + x
    }

    predicate InGrid(x: nat, y: nat)
    {
      x < width && y < height
    }

    /** The column of flat position i: the inverse of Index on x. */
    function Column(i: nat): nat
      requires height > 0
    {
      i % height
    }

    /** The row of flat position i: the inverse of Index on y. */
    function Row(i: nat): nat
      requires height > 0
    {
      i / height
    }
  }

  /** The configuration the program is built with: a 10000 x 10000 grid over
      [-2, 0.5] x [-1.3, 1.3] with at most 1000 iterations per pixel. */
  const Program: Config := Config(10000, 10000, 1000, -2.0, 0.5, -1.3, 1.3)

  const Int32Max: int := 0x7fff_ffff
  const UInt32Max: int := 0xffff_ffff

  /** The program's constants form a valid configuration, and its pixel count
      fits in the signed 32-bit integer that accumulates the cumulative rank
      (so also in the unsigned 32-bit histogram slots). */
  lemma ProgramConfigFits()
    ensures Program.Valid()
    ensures Program.PixelAmount() <= Int32Max <= UInt32Max
  {
  }

  /** Linear map from a pixel to its seed point in the viewport. */
  function MapPixel(cfg: Config, x: nat, y: nat): Point
    requires cfg.width > 0 && cfg.height > 0
  {
    Point(
      (cfg.xUpper - cfg.xLower) / cfg.width as real * x as real + cfg.xLower,
      (cfg.yUpper - cfg.yLower) / cfg.height as real * y as real + cfg.yLower)
  }

  /** Helper: a coordinate in [0, n) scaled by (hi - lo) / n and shifted
      by lo lands in [lo, hi). */
  lemma ScaleIntoRange(lo: real, hi: real, n: nat, i: nat)
    requires lo < hi && 0 <= i < n
    ensures lo <= (hi - lo) / n as real * i as real + lo < hi
  {
    var s := (hi - lo) / n as real;
    assert s * n as real == hi - lo;
    assert s > 0.0;
    assert s * i as real < s * n as real;
  }

  /** Every pixel of the grid is mapped to a seed inside the viewport: the
      left column and top row land on the lower bounds, and no pixel reaches
      the upper bounds. */
  lemma MapPixelInViewport(cfg: Config, x: nat, y: nat)
    requires cfg.Valid() && cfg.InGrid(x, y)
    ensures cfg.xLower <= MapPixel(cfg, x, y).x < cfg.xUpper
    ensures cfg.yLower <= MapPixel(cfg, x, y).y < cfg.yUpper
    ensures x == 0 ==> MapPixel(cfg, x, y).x == cfg.xLower
    ensures y == 0 ==> MapPixel(cfg, x, y).y == cfg.yLower
  {
    ScaleIntoRange(cfg.xLower, cfg.xUpper, cfg.width, x);
    ScaleIntoRange(cfg.yLower, cfg.yUpper, cfg.height, y);
  }

  /** On a square grid the flat index of every pixel is a valid buffer
      position. */
  lemma IndexInRange(cfg: Config, x: nat, y: nat)
    requires cfg.Valid() && cfg.InGrid(x, y)
    ensures cfg.Index(x, y) < cfg.PixelAmount()
  {
    var h := cfg.height;
    assert y * h <= (h - 1) * h by {
      assert y <= h - 1;
    }
    assert (h - 1) * h == h * h - h;
  }

  /** On a square grid distinct pixels get distinct flat indices. */
  lemma IndexInjective(cfg: Config, x1: nat, y1: nat, x2: nat, y2: nat)
    requires cfg.Valid() && cfg.InGrid(x1, y1) && cfg.InGrid(x2, y2)
    requires cfg.Index(x1, y1) == cfg.Index(x2, y2)
    ensures x1 == x2 && y1 == y2
  {
    IndexRoundTrip(cfg, x1, y1);
    IndexRoundTrip(cfg, x2, y2);
  }

  /** Helper: the next multiple of n after a * n is at most b * n when
      a < b. */
  lemma MultipleStep(a: nat, b: nat, n: nat)
    requires a < b
    ensures a * n + n <= b * n
  {
    assert (a + 1) * n <= b * n;
  }

  /** Helper: a number written as q * n + r with r < n has quotient q and
      remainder r. */
  lemma DivModUnique(i: nat, n: nat, q: nat, r: nat)
    requires n > 0 && r < n && i == q * n + r
    ensures i / n == q && i % n == r
  {
    var q', r' := i / n, i % n;
    assert i == q' * n + r';
    if q < q' {
      MultipleStep(q, q', n);
    } else if q' < q {
      MultipleStep(q', q, n);
    }
  }

  /** Reading back the row and column of a pixel's flat index gives the
      pixel. */
  lemma IndexRoundTrip(cfg: Config, x: nat, y: nat)
    requires cfg.Valid() && cfg.InGrid(x, y)
    ensures cfg.Column(cfg.Index(x, y)) == x && cfg.Row(cfg.Index(x, y)) == y
  {
    DivModUnique(cfg.Index(x, y), cfg.height, y, x);
  }

  /** Every position of a flat buffer is the index of the pixel at its row
      and column: together with IndexRoundTrip, Index is a bijection between
      the grid and the buffer positions. */
  lemma PositionRoundTrip(cfg: Config, i: nat)
    requires cfg.Valid() && i < cfg.PixelAmount()
    ensures cfg.InGrid(cfg.Column(i), cfg.Row(i))
    ensures cfg.Index(cfg.Column(i), cfg.Row(i)) == i
  {
    var h := cfg.height;
    assert i == (i / h) * h + i % h;
  }

  /** Visiting the grid row by row, column by column, visits the flat buffer
      in order: the index after the last pixel of a row is the index of the
      first pixel of the next row. */
  lemma IndexRowMajor(cfg: Config, y: nat)
    requires cfg.Valid()
    ensures cfg.Index(cfg.width, y) == cfg.Index(0, y + 1)
    ensures cfg.Index(0, cfg.height) == cfg.PixelAmount()
  {
    assert (y + 1) * cfg.height == y * cfg.height + cfg.height;
  }

  /** Why the grid must be square: with the height as row stride, a grid
      wider than tall maps two pixels to one index, and one taller than wide
      indexes past the end of the buffer. */
  lemma NonSquareStrideFails()
    ensures var wide := Config(3, 2, 1, -2.0, 0.5, -1.3, 1.3);
            wide.InGrid(2, 0) && wide.InGrid(0, 1) && wide.Index(2, 0) == wide.Index(0, 1)
    ensures var tall := Config(2, 3, 1, -2.0, 0.5, -1.3, 1.3);
            tall.InGrid(1, 2) && tall.Index(1, 2) >= tall.PixelAmount()
  {
  }
}
