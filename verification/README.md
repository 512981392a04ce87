# Mandelbrot histogram renderer — Dafny model

This project models the core of a small Mandelbrot renderer (`main.cpp`). The
renderer makes two passes over a square pixel grid:

- **Escape-time pass.** Each pixel is mapped linearly into a viewport of the
  complex plane. The recurrence z ← z² + c runs from the origin until the
  point leaves the closed disc of radius 2 or the iteration cap is reached.
  The resulting count is stored per pixel, and the pass builds a histogram of
  how many pixels reached each count.
- **Normalising pass.** Each pixel's cumulative rank is the number of pixels
  whose count is at most its own, found by summing the histogram up to its
  count. The rank is divided by the pixel total and shaped by the parabola
  (x − x²)·255/0.25 into an intensity.

Modules:

- `Plane`: points, the escape test, the recurrence and the orbit of a seed.
- `Grid`: the configuration (grid size, iteration cap, viewport) as
  parameters, with the program's own values as `Grid.Program`. It also holds
  the row-major buffer index with its inverse, and the pixel-to-viewport map.
- `Escape`: the per-pixel loop, and a reference definition of the escape
  count that the loop is proved to compute.
- `Histogram`: histogram sums, the reference count `CountAtMost`, and the
  cumulative-rank loop.
- `Hue`: the shaping curve, evaluated over mathematical reals.
- `Render`: the two passes over the whole grid and the full pipeline. The
  global buffers become sequences threaded through the loops.

`Render.Render` determines both of its outputs completely from the
configuration: every count and every intensity is fixed by its postcondition,
so the image is a function of the configuration alone.

## Model

| member | source | states |
|---|---|---|
| Plane.OrbitOfOrigin | main.cpp:61-65 | Starting from the origin with seed 0, every step of the recurrence stays at the origin. |
| Escape.EscapeTime | main.cpp:61-65 | The loop stops with a count at most the cap. Every orbit point before the count passed the inclusive radius-2 test. Unless the cap was hit, the point reached at the count failed it. The returned point is the orbit point at the count, and the count equals the reference escape count. |
| Escape.CountFromIsEscapeCount | main.cpp:64-65 | Continuing the loop from any step whose earlier points all passed the test yields a count that meets the escape-count description. |
| Escape.EscapeCountCharacterized | main.cpp:64-65 | The reference escape count meets the description (earlier points inside, the point at the count outside unless capped). It is the only count that does. |
| Escape.EscapeCountUnique | main.cpp:64-65 | At most one count meets the escape-count description for a given seed and cap. |
| Escape.OriginNeverEscapes | main.cpp:61-65 | Seed 0 always reaches the cap. |
| Escape.EscapesAtStepTwo | main.cpp:29-31 | A seed whose orbit is inside at step 1 and outside at step 2 has count 2, or the cap when the cap is below 2. |
| Escape.SeedTwoEscapesAtTwo | main.cpp:29-38 | Seed 2: the point 2 passes the test (4 ≤ 4) and the next point 6 fails it, so the count is 2 whenever the cap is at least 2. |
| Escape.PixelCount | main.cpp:61-65 | The per-pixel loop as the grid pass uses it returns the reference escape count. |
| Grid.ProgramConfigFits | main.cpp:3-15 | The program's constants form a valid configuration: a square grid, a positive cap and a non-empty viewport. The pixel total fits in the signed 32-bit accumulator of the rank and in the unsigned 32-bit histogram slots. |
| Grid.MapPixelInViewport | main.cpp:22-27 | Every grid pixel maps inside the viewport, lower bounds included and upper bounds excluded. Column 0 and row 0 map exactly onto the lower bounds. |
| Grid.IndexInRange | main.cpp:68 | On a square grid, `y*height + x` is below the pixel total for every grid pixel. |
| Grid.IndexInjective | main.cpp:68 | Distinct pixels of a square grid get distinct buffer positions. |
| Grid.IndexRoundTrip | main.cpp:68 | Taking the row and column of a pixel's buffer position gives back the pixel. |
| Grid.PositionRoundTrip | main.cpp:52 | Every buffer position is the index of a grid pixel, namely the one at its row and column. |
| Grid.IndexRowMajor | main.cpp:57-58 | The row-by-row, column-by-column visit order walks the buffer in order. The position after a row's last pixel starts the next row, and the position after the last row is the pixel total. |
| Grid.NonSquareStrideFails | main.cpp:68 | With the height as row stride, a wide grid sends two pixels to one position and a tall grid indexes past the buffer. This is why the model requires a square grid. |
| Histogram.SumIncrement | main.cpp:67 | Bumping one histogram slot raises the sum of all slots by exactly one. |
| Histogram.HistogramStep | main.cpp:67 | Counting a pixel with count c in slot c keeps every slot equal to the number of recorded pixels with that count, and raises the total by one. |
| Histogram.HistogramSumsToPixels | main.cpp:53 | When every count fits the histogram, its slots sum to the number of pixels. |
| Histogram.CumulativeRank | main.cpp:75-78 | The rank loop returns the sum of slots 0..c. The result is at least slot c and at most the whole sum. |
| Histogram.PrefixSumIsCountAtMost | main.cpp:77-78 | The sum of slots 0..c equals the number of pixels whose count is at most c. |
| Histogram.CountAtMostStep | main.cpp:77-78 | Raising the threshold from c to c+1 adds exactly the pixels with count c+1. Threshold 0 counts exactly the zeros. |
| Histogram.CountAtMostBounds | main.cpp:77-78 | The count of pixels at most c lies between 0 and the pixel total. It is at least 1 if some pixel is at most c, and it is the total if all are. |
| Histogram.RankBounds | main.cpp:75-78 | Every pixel's rank is between 1 and the pixel total, since the pixel counts itself. |
| Histogram.RankMonotone | main.cpp:77-78 | A higher count never gets a lower rank. |
| Histogram.RankAtCap | main.cpp:77-78 | The rank of the last slot (the cap) is the pixel total. |
| Hue.ShapeBounds | main.cpp:49 | On [0, 1] the shaping curve stays within [0, 255]. |
| Hue.ShapePeak | main.cpp:49 | The curve equals 255 exactly at x = 1/2. |
| Hue.ShapeZeros | main.cpp:49 | The curve equals 0 exactly at x = 0 and x = 1. |
| Hue.IntensityProperties | main.cpp:47-50 | For a rank between 1 and the total, the intensity is in [0, 255]. It is 255 exactly when the rank is half the total, and 0 exactly when the rank is the total. |
| Render.PassOneStep | main.cpp:67-68 | Storing a position's count and bumping its histogram slot extends the filled prefix and the exact histogram by one position. |
| Render.EscapePixel | main.cpp:60-68 | One pixel of pass one: the pixel's escape count is stored at its own buffer position and counted in its slot. |
| Render.EscapeRow | main.cpp:58-69 | One row of pass one advances the filled prefix from the start of row y to the start of row y+1. |
| Render.EscapePass | main.cpp:57-70 | After pass one, every pixel's buffer cell holds the escape count of its seed. Every count is within the cap, each slot k holds the number of pixels with count k, and the slots sum to the pixel total. |
| Render.NormalizeRow | main.cpp:73-81 | One row of pass two shades every pixel of row y by its cumulative rank. |
| Render.NormalizePass | main.cpp:72-82 | After pass two, each position's intensity is the curve at the fraction of pixels whose count is at most its own, and every intensity lies in [0, 255]. |
| Render.ShadedInRange | main.cpp:80 | A fully shaded buffer holds only intensities in [0, 255]. |
| Render.CappedPixelsAreDark | main.cpp:75-80 | Pixels that reached the cap get intensity 0. |
| Render.Render | main.cpp:56-82 | The whole pipeline maps each pixel through the viewport, stores its escape count, and shades it by its cumulative rank. The result lies in [0, 255], and capped pixels are 0. |

## Left out

- Output (`print_pixels` and the final call in `main`) is I/O and is not modelled.
- All `double` arithmetic is modelled over mathematical reals. IEEE rounding in the seed map, the recurrence, the escape test and the curve is not modelled. Neither are points whose exact orbit sits on the radius-2 boundary but whose rounded orbit does not.
- The assignment of the curve's value to an 8-bit pixel is not modelled. The model keeps the real intensity and proves it lies in [0, 255]. Over reals the value never leaves that range, because every rank is between 1 and the pixel total. How the program rounds or truncates a fraction into the byte is left out.
- The compile-time constants are configuration parameters, and the program's own values are `Grid.Program`. Fixed-width integer types (`size_t`, `uint32_t`, `int`) are unbounded in the model. `Grid.ProgramConfigFits` shows that the program's values stay within those widths, so no wrap-around arises.
- Render.EscapePass: takes the pixel-to-seed map as a parameter, and `Render.Render` passes `MapPixel`. This keeps the nonlinear real arithmetic of the map out of the loop proofs. `Grid.MapPixelInViewport` states the map's own properties.
- Render.EscapePass: the contract does not restate the per-orbit facts for each pixel. It refers to `Escape.EscapeCount`, whose meaning `Escape.EscapeCountCharacterized` states.
- The global arrays are modelled as sequences passed through the loops. The flat layout and the index expression are kept.
- A square grid is required (`Config.Valid`). With unequal sides the program's row stride (the height) is wrong, as `Grid.NonSquareStrideFails` shows. The program's constants are equal, so this never shows.

## Notes on the design

- The shaping curve never exceeds 255 for the inputs the program feeds it. This holds over reals, because the cumulative rank is always between 1 and the pixel total (`Hue.IntensityProperties`, `Histogram.RankBounds`). A pixel only ever gets intensity 255 when its rank is exactly half the total.
- The seed 2 does not escape on the first step. The escape test is inclusive (|z|² ≤ 4), so the orbit point 2 passes it, and the count is 2 (`Escape.SeedTwoEscapesAtTwo`).
