/**
 * The `Mandelbrot` task and the work of a whole render, reduced to loop counts: a task
 * visits every row of its band and, in each row, `resolution` columns. The per-pixel
 * float coordinates are not modelled; what each visit computes is stated by the lemmas
 * that join the escape count to the colour table.
 */
module Render {
  import opened Wrappers
  import opened Coloring
  import opened EscapeTime
  import opened JavaInt
  import opened Partition

  /** How many times the row loop of a task for `band` runs. */
  function RowCount(band: Band): (r: nat)
    ensures r == 0 <==> band.IsEmpty()
    ensures forall row :: band.Covers(row) ==> band.startY <= row < band.startY + r
  {
    if band.endY > band.startY then band.endY - band.startY else 0
  }

  /** How many times the column loop runs in each row. */
  function ColumnCount(resolution: int): nat
  {
    if resolution > 0 then resolution else 0
  }

  /** A row band together with the image resolution: one `Runnable` handed to the pool. */
  class Mandelbrot {
    const startY: int
    const endY: int
    const resolution: int

    constructor (band: Band, resolution: int)
      ensures startY == band.startY && endY == band.endY && this.resolution == resolution
    {
      startY := band.startY;
      endY := band.endY;
      this.resolution := resolution;
    }

    /**
     * The two nested loops of `run`: one row per value of the row counter in
     * [startY, endY), and `resolution` pixels in each row.
     */
    method Run() returns (rows: nat, pixels: nat)
      ensures rows == RowCount(Band(startY, endY))
      ensures pixels == rows * ColumnCount(resolution)
    {
      rows, pixels := 0, 0;
      var i := startY;
      while i < endY
        invariant startY <= endY ==> startY <= i <= endY
        invariant startY > endY ==> i == startY
        invariant rows == i - startY
        invariant pixels == rows * ColumnCount(resolution)
      {
        var j := 0;
        while j < resolution
          invariant resolution > 0 ==> 0 <= j <= resolution
          invariant resolution <= 0 ==> j == 0
          invariant pixels == rows * ColumnCount(resolution) + j
        {
          // escapes(px, py) and setPixelColor at the float coordinates of (i, j)
          pixels := pixels + 1;
          j := j + 1;
        }
        rows := rows + 1;
        i := i + 1;
      }
    }
  }

  /** The rows visited by all the given bands together. */
  function TotalRows(bands: seq<Band>): nat
  {
    if bands == [] then 0 else RowCount(bands[0]) + TotalRows(bands[1..])
  }

  /** Bands that all have `w` rows visit `|bands| * w` rows together. */
  lemma {:induction false} TotalRowsUniform(bands: seq<Band>, w: nat)
    requires forall i :: 0 <= i < |bands| ==> RowCount(bands[i]) == w
    ensures TotalRows(bands) == |bands| * w
  {
    if bands != [] {
      TotalRowsUniform(bands[1..], w);
    }
  }

  /**
   * Runs one task per band, one after the other (the pool's interleaving does not
   * change the counts), and adds up the rows and pixels visited.
   */
  method RunAll(bands: seq<Band>, resolution: int) returns (rows: nat, pixels: nat)
    ensures rows == TotalRows(bands)
    ensures pixels == rows * ColumnCount(resolution)
  {
    rows, pixels := 0, 0;
    var t := 0;
    while t < |bands|
      invariant 0 <= t <= |bands|
      invariant rows + TotalRows(bands[t..]) == TotalRows(bands)
      invariant pixels == rows * ColumnCount(resolution)
    {
      var task := new Mandelbrot(bands[t], resolution);
      var r, p := task.Run();
      assert bands[t..][1..] == bands[t + 1..];
      rows, pixels := rows + r, pixels + p;
      t := t + 1;
    }
  }

  /**
   * The started bands together visit exactly N*w rows for N > 0, which is
   * RESOLUTION + 1 less the truncated remainder, and no row at all for N < 0.
   */
  lemma StartedRows(resolution: nat, n: int)
    requires n != 0
    ensures n > 0 ==>
      TotalRows(LaunchOrder(resolution, n)) == n * Width(resolution, n) == resolution + 1 - (resolution + 1) % n
    ensures n < 0 ==> TotalRows(LaunchOrder(resolution, n)) == 0
  {
    var bands := LaunchOrder(resolution, n);
    if n > 0 {
      var w := Width(resolution, n);
      forall i | 0 <= i < |bands|
        ensures RowCount(bands[i]) == w
      {
        LaunchOrderIsRotation(resolution, n, i);
      }
      TotalRowsUniform(bands, w);
      TrailingGap(resolution, n);
    } else {
      assert bands == [Band(0, Width(resolution, n))];
      assert TotalRows(bands[1..]) == 0;
    }
  }

  /**
   * The work of `main`: start the bands and run each one. On success the result is
   * the number of rows and of pixels visited over all bands.
   */
  method MainWork(resolution: nat, threads: int32, granularity: int32)
    returns (r: Result<(nat, nat), LaunchError>)
    ensures r.Err? <==> threads <= 0 || BandCount(threads, granularity) == 0
    ensures r.Ok? && BandCount(threads, granularity) > 0 ==>
      var n := BandCount(threads, granularity) as int;
      r.value.0 == n * Width(resolution, n) && r.value.0 + (resolution + 1) % n == resolution + 1
    ensures r.Ok? && BandCount(threads, granularity) < 0 ==> r.value.0 == 0
    ensures r.Ok? ==> r.value.1 == r.value.0 * resolution
  {
    var started := StartBands(resolution, threads, granularity);
    match started
    case Err(e) =>
      r := Err(e);
    case Ok(bands) =>
      var rows, pixels := RunAll(bands, resolution as int);
      StartedRows(resolution, BandCount(threads, granularity) as int);
      r := Ok((rows, pixels));
  }

  /** Every count `escapes` can return has a colour, so every visited pixel is written. */
  lemma EscapeCountHasColor(diverged: nat -> bool)
    ensures ColorOf(EscapeCount(diverged)).Some?
    ensures ColorOf(EscapeCount(diverged)) != Some(0xFFD98F) || 201 <= EscapeCount(diverged) <= 255
  {
    EscapeCountSpec(diverged);
  }

  /** An orbit that never diverges and one that diverges at step 0 are both painted black. */
  lemma BoundedOrbitsPaintedBlack(diverged: nat -> bool)
    requires diverged(0) || !EverDiverges(diverged)
    ensures ColorOf(EscapeCount(diverged)) == Some(BLACK)
  {
    ZeroIsAmbiguous(diverged);
  }
}
