/** The two passes of the renderer over the whole grid. The escape-time pass
    fills the per-pixel iteration grid and the iteration histogram; the
    normalising pass turns each pixel's count into a cumulative rank and
    the rank into an intensity. Both visit pixels row by row, column by
    column, and address the flat buffers through Config.Index. */
module Render {
  import opened Plane
  import opened Grid
  import opened Escape
  import opened Histogram
  import Hue

  /** The count pass one stores at flat position i: the escape count of the
      seed of the pixel at that position. */
  function CountAt(cfg: Config, seed: (nat, nat) -> Point, i: nat): (n: nat)
    requires cfg.height > 0
    ensures n <= cfg.maxIterations
  {
    EscapeCount(seed(cfg.Column(i), cfg.Row(i)), cfg.maxIterations)
  }

  /** The state of pass one after the positions below p: their cells hold
      their pixels' counts and the histogram is exactly theirs. */
  ghost predicate PassOneState(cfg: Config, seed: (nat, nat) -> Point, cells: seq<nat>, slots: seq<nat>, p: nat)
  {
    && cfg.height > 0
    && p <= |cells|
    && (forall i | 0 <= i < p :: cells[i] == CountAt(cfg, seed, i))
    && IsHistogramOf(slots, cells[..p])
    && Sum(slots) == p
  }

  /** Helper: storing the count of position p at p and counting it in its
      histogram slot advances the state by one position. */
  lemma PassOneStep(cfg: Config, seed: (nat, nat) -> Point, cells: seq<nat>, slots: seq<nat>, p: nat)
    requires p < |cells| && |slots| == cfg.maxIterations + 1
    requires PassOneState(cfg, seed, cells, slots, p)
    ensures var n := CountAt(cfg, seed, p);
            PassOneState(cfg, seed, cells[p := n], slots[n := slots[n] + 1], p + 1)
  {
    var n := CountAt(cfg, seed, p);
    assert cells[p := n][..p + 1] == cells[..p] + [n];
    HistogramStep(slots, cells[..p], n);
  }

  /** One row of pass one, x running from 0 to the width. */
  method EscapeRow(cfg: Config, seed: (nat, nat) -> Point, y: nat, cells: seq<nat>, slots: seq<nat>)
    returns (cells': seq<nat>, slots': seq<nat>)
    requires cfg.Valid() && y < cfg.height
    requires |cells| == cfg.PixelAmount() && |slots| == cfg.maxIterations + 1
    requires PassOneState(cfg, seed, cells, slots, cfg.Index(0, y))
    ensures |cells'| == |cells| && |slots'| == |slots|
    ensures PassOneState(cfg, seed, cells', slots', cfg.Index(0, y + 1))
  {
    cells', slots' := cells, slots;
    var x: nat := 0;
    while x < cfg.width
      invariant x <= cfg.width
      invariant |cells'| == |cells| && |slots'| == |slots|
      invariant PassOneState(cfg, seed, cells', slots', cfg.Index(x, y))
    {
      cells', slots' := EscapePixel(cfg, seed, x, y, cells', slots');
      x := x + 1;
    }
    IndexRowMajor(cfg, y);
  }

  /** The body of pass one for pixel (x, y). */
  method EscapePixel(cfg: Config, seed: (nat, nat) -> Point, x: nat, y: nat, cells: seq<nat>, slots: seq<nat>)
    returns (cells': seq<nat>, slots': seq<nat>)
    requires cfg.Valid() && cfg.InGrid(x, y)
    requires |cells| == cfg.PixelAmount() && |slots| == cfg.maxIterations + 1
    requires PassOneState(cfg, seed, cells, slots, cfg.Index(x, y))
    ensures |cells'| == |cells| && |slots'| == |slots|
    ensures PassOneState(cfg, seed, cells', slots', cfg.Index(x, y) + 1)
  {
    var p := cfg.Index(x, y);
    IndexInRange(cfg, x, y);
    IndexRoundTrip(cfg, x, y);
    PassOneStep(cfg, seed, cells, slots, p);
    var it := PixelCount(seed(x, y), cfg.maxIterations);
    slots' := slots[it := slots[it] + 1];
    cells' := cells[p := it];
  }

  /** Pass one: for each pixel, run the escape-time loop on its seed, bump the
      histogram slot of the resulting count and store the count at the
      pixel's index. The map from pixels to seeds is a parameter; the
      renderer passes MapPixel. */
  method EscapePass(cfg: Config, seed: (nat, nat) -> Point) returns (iterations: seq<nat>, histogram: seq<nat>)
    requires cfg.Valid()
    ensures |iterations| == cfg.PixelAmount()
    ensures |histogram| == cfg.maxIterations + 1
    ensures forall x: nat, y: nat | cfg.InGrid(x, y) ::
              cfg.Index(x, y) < |iterations| && iterations[cfg.Index(x, y)] == EscapeCount(seed(x, y), cfg.maxIterations)
    ensures forall i | 0 <= i < |iterations| :: iterations[i] <= cfg.maxIterations
    ensures IsHistogramOf(histogram, iterations)
    ensures Sum(histogram) == |iterations|
  {
    iterations := seq(cfg.PixelAmount(), _ => 0);
    histogram := seq(cfg.maxIterations + 1, _ => 0);
    PassOneStart(cfg, seed, iterations, histogram);
    var y: nat := 0;
    while y < cfg.height
      invariant y <= cfg.height
      invariant |iterations| == cfg.PixelAmount() && |histogram| == cfg.maxIterations + 1
      invariant PassOneState(cfg, seed, iterations, histogram, cfg.Index(0, y))
    {
      iterations, histogram := EscapeRow(cfg, seed, y, iterations, histogram);
      y := y + 1;
    }
    PassOneDone(cfg, seed, iterations, histogram);
  }

  /** Helper: before any pixel, zeroed buffers are a valid state. */
  lemma PassOneStart(cfg: Config, seed: (nat, nat) -> Point, cells: seq<nat>, slots: seq<nat>)
    requires cfg.Valid()
    requires cells == seq(cfg.PixelAmount(), _ => 0)
    requires slots == seq(cfg.maxIterations + 1, _ => 0)
    ensures PassOneState(cfg, seed, cells, slots, cfg.Index(0, 0))
  {
    ZeroSum(cfg.maxIterations + 1);
    assert cells[..0] == [];
  }

  /** Helper: after the last row the state covers the whole buffer, and by
      the index round trip every pixel's cell holds its own count. */
  lemma PassOneDone(cfg: Config, seed: (nat, nat) -> Point, cells: seq<nat>, slots: seq<nat>)
    requires cfg.Valid() && |cells| == cfg.PixelAmount()
    requires PassOneState(cfg, seed, cells, slots, cfg.Index(0, cfg.height))
    ensures forall x: nat, y: nat | cfg.InGrid(x, y) ::
              cfg.Index(x, y) < |cells| && cells[cfg.Index(x, y)] == EscapeCount(seed(x, y), cfg.maxIterations)
    ensures forall i | 0 <= i < |cells| :: cells[i] <= cfg.maxIterations
    ensures IsHistogramOf(slots, cells)
    ensures Sum(slots) == |cells|
  {
    IndexRowMajor(cfg, 0);
    assert cells[..cfg.Index(0, cfg.height)] == cells;
    forall x: nat, y: nat | cfg.InGrid(x, y)
      ensures cfg.Index(x, y) < |cells| && cells[cfg.Index(x, y)] == EscapeCount(seed(x, y), cfg.maxIterations)
    {
      IndexInRange(cfg, x, y);
      IndexRoundTrip(cfg, x, y);
    }
  }

  /** Helper: a sequence of zeros sums to zero. */
  lemma {:induction false} ZeroSum(n: nat)
    ensures Sum(seq(n, _ => 0)) == 0
  {
    if n > 0 {
      assert seq(n, _ => 0)[..n - 1] == seq(n - 1, _ => 0);
      ZeroSum(n - 1);
    }
  }

  /** The intensities at buffer positions below p are those of their pixels'
      cumulative ranks, over total pixels. */
  ghost predicate Shaded(iterations: seq<nat>, intensities: seq<real>, p: nat)
  {
    && p <= |intensities|
    && p <= |iterations|
    && |iterations| > 0
    && forall i | 0 <= i < p ::
         intensities[i] == Hue.Intensity(CountAtMost(iterations, iterations[i]), |iterations|)
  }

  /** One row of pass two, x running from 0 to the width: sum the histogram
      up to the pixel's count and shade the pixel by that rank. */
  method NormalizeRow(cfg: Config, iterations: seq<nat>, histogram: seq<nat>, y: nat, intensities: seq<real>)
    returns (intensities': seq<real>)
    requires cfg.Valid() && y < cfg.height
    requires |iterations| == cfg.PixelAmount() && |intensities| == cfg.PixelAmount()
    requires |histogram| == cfg.maxIterations + 1
    requires forall i | 0 <= i < |iterations| :: iterations[i] <= cfg.maxIterations
    requires IsHistogramOf(histogram, iterations)
    requires Shaded(iterations, intensities, cfg.Index(0, y))
    ensures |intensities'| == |intensities|
    ensures Shaded(iterations, intensities', cfg.Index(0, y + 1))
  {
    intensities' := intensities;
    var x: nat := 0;
    while x < cfg.width
      invariant x <= cfg.width
      invariant |intensities'| == |intensities|
      invariant Shaded(iterations, intensities', cfg.Index(x, y))
    {
      var p := cfg.Index(x, y);
      IndexInRange(cfg, x, y);
      var rank := CumulativeRank(histogram, iterations[p]);
      PrefixSumIsCountAtMost(histogram, iterations, iterations[p]);
      intensities' := intensities'[p := Hue.Intensity(rank, cfg.PixelAmount())];
      x := x + 1;
    }
    IndexRowMajor(cfg, y);
  }

  /** Pass two: every pixel's intensity is the shaping curve applied to the
      fraction of pixels whose count is at most its own. */
  method NormalizePass(cfg: Config, iterations: seq<nat>, histogram: seq<nat>) returns (intensities: seq<real>)
    requires cfg.Valid()
    requires |iterations| == cfg.PixelAmount() && |histogram| == cfg.maxIterations + 1
    requires forall i | 0 <= i < |iterations| :: iterations[i] <= cfg.maxIterations
    requires IsHistogramOf(histogram, iterations)
    ensures |intensities| == |iterations|
    ensures forall i | 0 <= i < |iterations| ::
              intensities[i] == Hue.Intensity(CountAtMost(iterations, iterations[i]), |iterations|)
    ensures forall i | 0 <= i < |iterations| :: 0.0 <= intensities[i] <= 255.0
  {
    IndexInRange(cfg, 0, 0);
    intensities := seq(cfg.PixelAmount(), _ => 0.0);
    var y: nat := 0;
    while y < cfg.height
      invariant y <= cfg.height
      invariant |intensities| == cfg.PixelAmount()
      invariant Shaded(iterations, intensities, cfg.Index(0, y))
    {
      intensities := NormalizeRow(cfg, iterations, histogram, y, intensities);
      y := y + 1;
    }
    IndexRowMajor(cfg, 0);
    ShadedInRange(iterations, intensities);
  }

  /** Helper: a fully shaded buffer holds intensities in [0, 255]. */
  lemma ShadedInRange(iterations: seq<nat>, intensities: seq<real>)
    requires Shaded(iterations, intensities, |iterations|)
    ensures forall i | 0 <= i < |iterations| :: 0.0 <= intensities[i] <= 255.0
  {
    forall i | 0 <= i < |iterations|
      ensures 0.0 <= intensities[i] <= 255.0
    {
      CountAtMostBounds(iterations, iterations[i]);
      Hue.IntensityProperties(CountAtMost(iterations, iterations[i]), |iterations|);
    }
  }

  /** Pixels that reached the cap are shaded 0: every pixel has count at most
      the cap, so their rank is the whole grid. */
  lemma CappedPixelsAreDark(iterations: seq<nat>, intensities: seq<real>, maxIterations: nat)
    requires Shaded(iterations, intensities, |iterations|)
    requires forall i | 0 <= i < |iterations| :: iterations[i] <= maxIterations
    ensures forall i | 0 <= i < |iterations| && iterations[i] == maxIterations :: intensities[i] == 0.0
  {
    CountAtMostBounds(iterations, maxIterations);
    Hue.IntensityProperties(|iterations|, |iterations|);
  }

  /** The whole program without the output step: pass one over the seeds the
      viewport map gives each pixel, then pass two over its results. */
  method Render(cfg: Config) returns (iterations: seq<nat>, intensities: seq<real>)
    requires cfg.Valid()
    ensures |iterations| == cfg.PixelAmount() && |intensities| == cfg.PixelAmount()
    ensures forall x: nat, y: nat | cfg.InGrid(x, y) ::
              cfg.Index(x, y) < |iterations| &&
              iterations[cfg.Index(x, y)] == EscapeCount(MapPixel(cfg, x, y), cfg.maxIterations)
    ensures forall i | 0 <= i < |iterations| ::
              intensities[i] == Hue.Intensity(CountAtMost(iterations, iterations[i]), |iterations|)
    ensures forall i | 0 <= i < |iterations| :: 0.0 <= intensities[i] <= 255.0
    ensures forall i | 0 <= i < |iterations| && iterations[i] == cfg.maxIterations :: intensities[i] == 0.0
  {
    var histogram;
    iterations, histogram := EscapePass(cfg, (x: nat, y: nat) => MapPixel(cfg, x, y));
    intensities := NormalizePass(cfg, iterations, histogram);
    CappedPixelsAreDark(iterations, intensities, cfg.maxIterations);
  }
}
