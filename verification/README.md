# Parallelbrot: colour table, row bands and escape counting

Parallelbrot renders the Mandelbrot set into a `(RESOLUTION + 1)`-square image
(`RESOLUTION = 4096`). `main` splits the rows into `N = THREADS * GRANULARITY`
bands and hands bands `1 .. N-1` to a thread pool. It runs band 0 on the main thread.
Each band task (`Mandelbrot.run`) visits every row of its band and `RESOLUTION`
columns per row. For each pixel it runs `escapes`, which counts steps of z := z*z + c
until the real part overflows to infinity or NaN. `setPixelColor` then maps that
count through a fixed if/else chain of fourteen colours and writes one pixel.

This project models the integer logic of that pipeline in Dafny:

- `Coloring` (coloring.dfy) has the colour chain as a function `ColorOf`. The same
  table is also written as data (`Table`), and the module proves that exactly one
  bucket matches every count up to 256 and none above. It also has the white image
  that `main` allocates and the single-pixel write, including the two cases where
  nothing is written.
- `EscapeTime` (escape_time.dfy) has the loop of `escapes`. The float step and the
  infinity/NaN test are replaced by an abstract per-step test `diverged: nat -> bool`.
  The result is the least step where the test fires, or 0, and always lies in
  [0, 255]. "Diverged at step 0" and "never diverged" give the same result.
- `JavaInt` (java_int.dfy) has Java's 32-bit `int` multiplication, which wraps, and
  Java's `/`, which truncates toward zero.
- `Partition` (partition.dfy) has the band bounds and the launch loop of `main`.
  The started bands are pairwise disjoint and adjacent, and their union is exactly
  `[0, N*w)`. The `(RESOLUTION + 1) mod N` trailing rows lie in no band.
  `CoveringPartition` (same file) is the corrected band layout, proved to cover every row.
- `Render` (render.dfy) has the `Mandelbrot` task as a class whose `Run` counts its
  row and column iterations, plus running every started band. It proves the total
  number of rows visited. It also links the range of `escapes` to the colour table.

The launch model follows the code as written: it keeps the truncation and the
ambiguous 0 result. The corrected layout stands beside it and is not used by the launch model.

## Model

| member | source | states |
|---|---|---|
| Coloring.ColorOf | Parallelbrot.java:47-76 | a colour is chosen exactly when z <= 256; every z <= 14, negatives included, is black; every colour is a 24-bit RGB value |
| Coloring.BucketIndex | Parallelbrot.java:48-75 | every z <= 256 has a table bucket that holds it |
| Coloring.ExactlyOneBucket | Parallelbrot.java:48-76 | some branch of the chain matches z exactly when z <= 256, and no two branches match the same z |
| Coloring.ColorOfAgreesWithTable | Parallelbrot.java:48-75 | the chain gives the colour of the bucket that holds z |
| Coloring.BoundaryColors | Parallelbrot.java:48-76 | every range boundary (14/15, 20/21, 30/31, 40/41, 50/51, 100/101, 150/151, 200/201, 256/257) maps as the chain says |
| Coloring.NewImage | Parallelbrot.java:128-131 | the image is freshly allocated at the given size and every pixel is white |
| Coloring.SetPixelColor | Parallelbrot.java:40-76 | for z <= 256 and an in-range pixel, that pixel gets ColorOf(z); for z > 256 nothing is written; for z <= 256 and an out-of-range pixel the write fails (setRGB throws) and nothing changes; no other pixel changes |
| EscapeTime.CountFromSpec | Parallelbrot.java:23-37 | from any step with no earlier divergence, the result is below 256 and is the first diverging step, or 0 if none diverges |
| EscapeTime.EscapeCountSpec | Parallelbrot.java:16-38 | the result is in [0, 255]; it is the least diverging step if one exists below 256, and 0 otherwise |
| EscapeTime.ZeroIsAmbiguous | Parallelbrot.java:18-37 | the result is 0 exactly when the orbit diverges at step 0 or never diverges |
| EscapeTime.ZeroConflation | Parallelbrot.java:18-37 | an orbit diverging at once and one never diverging both give 0 |
| EscapeTime.Escapes | Parallelbrot.java:16-38 | the loop returns the escape count, in [0, 255], after at most 256 iterations: one more than the result if the test fires, 256 otherwise |
| JavaInt.Mul | Parallelbrot.java:133 | the int product is congruent to the exact product modulo 2^32 and equal to it when it fits in an int |
| JavaInt.Div | Parallelbrot.java:135-141 | int division of a non-negative dividend is floor division for a positive divisor, and rounds toward zero (result <= 0) for a negative one |
| Partition.Width | Parallelbrot.java:135-141 | for N > 0 the width satisfies N*w <= RESOLUTION+1 < N*w + N; for N < 0 it is <= 0; for N > RESOLUTION+1 it is 0 |
| Partition.BandAt | Parallelbrot.java:135-136 | band k spans exactly w rows when w >= 0 |
| Partition.LaunchOrder | Parallelbrot.java:133-142 | N bands are started when N > 0 (N-1 submitted, band 0 inline), and one when N < 0 |
| Partition.StartBands | Parallelbrot.java:125-142 | THREADS <= 0 fails when the pool is created; N == 0 fails with a division by zero; otherwise the bands started are thread = 1 .. N-1 in order, then band 0 |
| Partition.LaunchOrderIsRotation | Parallelbrot.java:133-142 | the i-th band started is row-order band (i+1) mod N |
| Partition.Adjacent | Parallelbrot.java:135-136 | band k ends exactly where band k+1 begins |
| Partition.Disjoint | Parallelbrot.java:135-136 | two different bands share no row |
| Partition.BandOfRow | Parallelbrot.java:135-136 | row r lies in band r / w |
| Partition.RowInSomeBand | Parallelbrot.java:135-136 | every row of [0, N*w) lies in band row / w, which is one of bands 0 .. N-1 |
| Partition.BandRowsBelow | Parallelbrot.java:135-136 | every row of bands 0 .. N-1 lies in [0, N*w) |
| Partition.Union | Parallelbrot.java:135-141 | a row lies in one of the N bands exactly when it is in [0, N*w) |
| Partition.StartedBandsPartition | Parallelbrot.java:133-142 | each row of [0, N*w) lies in exactly one started band, and no other row lies in any |
| Partition.TrailingGap | Parallelbrot.java:135-141 | 0 <= RESOLUTION+1 - N*w < N, the gap equals (RESOLUTION+1) mod N, and the rows of the gap lie in no started band |
| Partition.TooManyBands | Parallelbrot.java:135-141 | with N > RESOLUTION+1 the width is 0 and every started band is empty |
| Partition.NegativeBandCount | Parallelbrot.java:133-141 | with N < 0 only band 0 is started, and it is empty |
| Partition.UnrenderedRowsExample | Parallelbrot.java:118-142 | THREADS = 3, GRANULARITY = 1: w = 1365 and row-loop rows 4095 and 4096 lie in no band |
| Partition.OverflowToZeroExample | Parallelbrot.java:133-141 | THREADS = GRANULARITY = 65536 wraps N to 0 |
| CoveringPartition.LastBandStartsAfterOthers | Parallelbrot.java:135-141 | in the corrected layout the last band starts after every other band ends |
| CoveringPartition.CoveringBandsCover | Parallelbrot.java:133-142 | in the corrected layout every row of the image lies in some band |
| CoveringPartition.CoveringBandsWithinImage | Parallelbrot.java:133-142 | in the corrected layout no band holds a row outside the image |
| CoveringPartition.CoveringBandsDisjoint | Parallelbrot.java:133-142 | in the corrected layout no row lies in two bands |
| Render.RowCount | Parallelbrot.java:99 | the row loop runs zero times exactly for an empty band, and otherwise covers every row of the band |
| Render.Mandelbrot.constructor | Parallelbrot.java:87-93 | the task keeps the band bounds and the resolution it was given |
| Render.Mandelbrot.Run | Parallelbrot.java:95-113 | the row loop runs max(0, endY - startY) times and the column loop max(0, resolution) times per row |
| Render.TotalRowsUniform | Parallelbrot.java:133-142 | bands of w rows each visit count * w rows together |
| Render.RunAll | Parallelbrot.java:137-142 | running every band visits the sum of their row counts, with resolution pixels per row |
| Render.StartedRows | Parallelbrot.java:133-142 | for N > 0 the started bands visit N*w = RESOLUTION+1 - (RESOLUTION+1) mod N rows; for N < 0 none |
| Render.MainWork | Parallelbrot.java:116-145 | main fails exactly when THREADS <= 0 or N == 0; otherwise it visits N*w rows (none if N < 0), missing (RESOLUTION+1) mod N rows, with RESOLUTION pixels per row |
| Render.EscapeCountHasColor | Parallelbrot.java:104-108 | every count escapes can return has a colour, and the top colour is reached only by counts 201..255 |
| Render.BoundedOrbitsPaintedBlack | Parallelbrot.java:16-49 | orbits that diverge at step 0 and orbits that never diverge are both painted black |

## Left out

- The complex iteration z := z*z + c and the infinity/NaN test in `escapes` (Parallelbrot.java:25-31) use IEEE doubles. They are replaced by the abstract per-step test `diverged`.
- The pixel coordinates `px_scr` and `py_scr` come from double scaling and casts (Parallelbrot.java:43-45, 97-111). `SetPixelColor` takes them as given integers.
- The row and column indices in this model are the loop counters of `Mandelbrot.run`, not image coordinates. The float mapping sends counter row `i` to about image row `i - 1` (counter rows 0 and 1 both land on image row 0) and counter column `j` to about image column `j + 1` (Parallelbrot.java:43-45, 97, 101-102, 106, 109, 111). So the image rows and columns left white are not the same as the counter rows the bands never visit. For example, image row 4096 and image column 0 are never written for any N, including under the corrected layout.
- Render.Mandelbrot.Run: counts the loop iterations but does not call `escapes` or `setPixelColor`. Which pixel each visit writes depends on the float coordinates above.
- Render.RunAll: runs the tasks one after another. The thread pool, its queue, `shutdown` and `awaitTermination` (Parallelbrot.java:125-126, 137, 144-145) are concurrency and are not modelled. The counts are sums of per-band counts, so the order in which the pool runs the tasks does not change them.
- `BufferedImage` and `Graphics2D` are modelled only as a 2D int array of 24-bit RGB values painted white. The 3-byte BGR storage and alpha handling are not modelled.
- `ImageIO.write`, the `PrintWriter` report and `Instant` timing (Parallelbrot.java:122-123, 147-158) are I/O and wall-clock time.
- `Integer.parseInt` of the arguments (Parallelbrot.java:119-120) is argument parsing. THREADS and GRANULARITY are taken as 32-bit ints.
- The resolution is a natural-number parameter, not the fixed 4096 (`Partition.RESOLUTION` holds 4096). `RESOLUTION + 1` is not wrapped to 32 bits, which is exact for 4096.
- Partition.StartBands: THREADS <= 0 is rejected as `ThreadPoolExecutor` documents. The constructor's other argument checks cannot fail for the arguments used.

## Findings

| source | as written | input that shows it | evidently intended | confidence | as-written member | corrected member |
|---|---|---|---|---|---|---|
| Parallelbrot.java:135-141 | band width (RESOLUTION+1)/N truncates and the last band ends at N*w | THREADS = 3, GRANULARITY = 1: w = 1365, the bands cover row-loop rows 0..4094, and the row loops never visit rows 4095 and 4096 | the last band ends at RESOLUTION+1 so that the row loops visit every row index 0..RESOLUTION | not executed | Partition.UnrenderedRowsExample | CoveringPartition.CoveringBandsCover |
