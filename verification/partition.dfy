/**
 * The row bands of `main`. With N = THREADS * GRANULARITY (a Java int product) and
 * w = (RESOLUTION + 1) / N (Java division), band k covers rows [k*w, (k+1)*w).
 * Bands 1 .. N-1 are handed to the pool in that order and band 0 runs on the main
 * thread afterwards. The division truncates, so the last (RESOLUTION + 1) - N*w rows
 * belong to no band; the model keeps that.
 */
module Partition {
  import opened Wrappers
  import opened JavaInt

  /** The fixed resolution of `main`; the image is RESOLUTION + 1 pixels square. */
  const RESOLUTION: nat := 4096

  /** A half-open range of rows [startY, endY) handed to one `Mandelbrot` task. */
  datatype Band = Band(startY: int, endY: int)
  {
    predicate Covers(row: int) { startY <= row < endY }
    predicate IsEmpty() { endY <= startY }
  }

  /** Why `main` stops before any band is rendered. */
  datatype LaunchError =
    | PoolSizeNotPositive  // ThreadPoolExecutor rejects a maximum pool size THREADS <= 0
    | DivisionByZero       // THREADS * GRANULARITY == 0 makes the band width a division by zero

  /** The number of bands N, computed in Java int arithmetic. */
  function BandCount(threads: int32, granularity: int32): int32
  {
    Mul(threads, granularity)
  }

  /** The band width w = (resolution + 1) / n, with Java's truncating division. */
  function Width(resolution: nat, n: int): (w: int)
    requires n != 0
    ensures n > 0 ==> w >= 0 && n * w <= resolution + 1 < n * w + n
    ensures n < 0 ==> w <= 0
    ensures n > resolution + 1 ==> w == 0
  {
    Div(resolution + 1, n)
  }

  /** Band k for width w: rows [k*w, (k+1)*w). */
  function BandAt(w: int, k: int): (b: Band)
    ensures w >= 0 ==> b.endY - b.startY == w
  {
    Band(k * w, (k + 1) * w)
  }

  /** The N bands in row order, 0 .. N-1. */
  function RowOrderBands(resolution: nat, n: int): (bands: seq<Band>)
    requires n > 0
    ensures |bands| == n
  {
    seq(n, k requires 0 <= k < n => BandAt(Width(resolution, n), k))
  }

  /**
   * The bands `main` starts, in the order it starts them: the submitted bands
   * thread = 1 .. N-1, then band 0 inline. When N < 0 the submitting loop does
   * not run and only band 0, which is empty, is started.
   */
  function LaunchOrder(resolution: nat, n: int): (bands: seq<Band>)
    requires n != 0
    ensures |bands| == if n > 0 then n as int else 1
  {
    var w := Width(resolution, n);
    var submitted := if n > 1 then seq(n - 1, i requires 0 <= i < n - 1 => BandAt(w, i + 1)) else [];
    submitted + [Band(0, w)]
  }

  /** The band loop of `main` (the pool is replaced by recording each submitted band). */
  method StartBands(resolution: nat, threads: int32, granularity: int32)
    returns (r: Result<seq<Band>, LaunchError>)
    ensures threads <= 0 ==> r == Err(PoolSizeNotPositive)
    ensures threads > 0 && BandCount(threads, granularity) == 0 ==> r == Err(DivisionByZero)
    ensures threads > 0 && BandCount(threads, granularity) != 0 ==>
      r == Ok(LaunchOrder(resolution, BandCount(threads, granularity) as int))
  {
    if threads <= 0 {
      return Err(PoolSizeNotPositive);
    }
    var n := Mul(threads, granularity) as int;
    var submitted: seq<Band> := [];
    var thread := 1;
    while thread < n
      invariant n > 1 ==> 1 <= thread <= n
      invariant n <= 1 ==> thread == 1
      invariant |submitted| == thread - 1
      invariant n > 1 ==> forall i :: 0 <= i < thread - 1 ==> submitted[i] == BandAt(Width(resolution, n), i + 1)
    {
      var w := Div(resolution + 1, n);
      var startY := w * thread;
      var endY := w * (thread + 1);
      submitted := submitted + [Band(startY, endY)];
      thread := thread + 1;
    }
    if n == 0 {
      return Err(DivisionByZero);
    }
    var endY := Div(resolution + 1, n);
    r := Ok(submitted + [Band(0, endY)]);
    assert submitted == (if n > 1 then seq(n - 1, i requires 0 <= i < n - 1 => BandAt(Width(resolution, n), i + 1)) else []);
  }

  /** The row-order index of the band started at position i, for N > 0: (i + 1) mod N. */
  function RowIndex(n: int, i: int): (k: int)
    requires 0 <= i < n
    ensures 0 <= k < n && k == (i + 1) % n
  {
    if i == n - 1 then 0 else i + 1
  }

  /** For N > 0 the launch order is the row order rotated by one: position i holds band (i+1) mod N. */
  lemma LaunchOrderIsRotation(resolution: nat, n: int, i: int)
    requires n > 0 && 0 <= i < n
    ensures LaunchOrder(resolution, n)[i] == RowOrderBands(resolution, n)[(i + 1) % n]
  {
    assert RowIndex(n, i) == (i + 1) % n;
  }

  /** Band k ends exactly where band k+1 begins. */
  lemma Adjacent(w: int, k: int)
    ensures BandAt(w, k).endY == BandAt(w, k + 1).startY
  {
  }

  /** With w >= 0, two different bands share no row. */
  lemma {:induction false} Disjoint(w: int, k1: int, k2: int, row: int)
    requires w >= 0 && k1 != k2
    ensures !(BandAt(w, k1).Covers(row) && BandAt(w, k2).Covers(row))
  {
    if k1 < k2 {
      MulMono(w, k1 + 1, k2);
    } else {
      MulMono(w, k2 + 1, k1);
    }
  }

  lemma MulMono(w: int, a: int, b: int)
    requires w >= 0 && a <= b
    ensures a * w <= b * w
  {
    assert b * w - a * w == (b - a) * w;
  }

  /** The band of width w > 0 that holds a row r >= 0 is band r / w. */
  lemma BandOfRow(w: int, row: int)
    requires w > 0 && row >= 0
    ensures BandAt(w, row / w).Covers(row)
  {
    var k, m := row / w, row % w;
    assert row == k * w + m && 0 <= m < w;
    assert (k + 1) * w == k * w + w;
  }

  /** A row of [0, n*w) lies in band row / w, one of bands 0 .. n-1. */
  lemma RowInSomeBand(w: int, n: int, row: int)
    requires w >= 0 && 0 <= row < n * w
    ensures w > 0 && 0 <= row / w < n && BandAt(w, row / w).Covers(row)
  {
    BandOfRow(w, row);
    if row / w >= n {
      MulMono(w, n, row / w);
    }
  }

  /** A row of one of bands 0 .. n-1 lies in [0, n*w). */
  lemma BandRowsBelow(w: int, n: int, k: int, row: int)
    requires w >= 0 && 0 <= k < n && BandAt(w, k).Covers(row)
    ensures 0 <= row < n * w
  {
    MulMono(w, 0, k);
    MulMono(w, k + 1, n);
  }

  /** For N > 0, a row lies in one of the N bands exactly when it is in [0, N*w). */
  lemma {:induction false} Union(resolution: nat, n: int, row: int)
    requires n > 0
    ensures (exists k :: 0 <= k < n && BandAt(Width(resolution, n), k).Covers(row))
        <==> 0 <= row < n * Width(resolution, n)
  {
    var w := Width(resolution, n);
    if 0 <= row < n * w {
      RowInSomeBand(w, n, row);
    }
    if exists k :: 0 <= k < n && BandAt(w, k).Covers(row) {
      var k :| 0 <= k < n && BandAt(w, k).Covers(row);
      BandRowsBelow(w, n, k, row);
    }
  }

  /**
   * The bands actually started partition [0, N*w): each row of that range lies in
   * exactly one started band and no other row lies in any.
   */
  lemma StartedBandsPartition(resolution: nat, n: int, row: int)
    requires n > 0
    ensures var bands := LaunchOrder(resolution, n);
      (0 <= row < n * Width(resolution, n) <==> exists i :: 0 <= i < |bands| && bands[i].Covers(row)) &&
      forall i, j :: 0 <= i < |bands| && 0 <= j < |bands| && bands[i].Covers(row) && bands[j].Covers(row) ==> i == j
  {
    var bands := LaunchOrder(resolution, n);
    var w := Width(resolution, n);
    assert forall i :: 0 <= i < n ==> bands[i] == BandAt(w, RowIndex(n, i));
    Union(resolution, n, row);
    if 0 <= row < n * w {
      var k :| 0 <= k < n && BandAt(w, k).Covers(row);
      var i := if k == 0 then n - 1 else k - 1;
      assert RowIndex(n, i) == k;
      assert bands[i].Covers(row);
    }
    if exists i :: 0 <= i < |bands| && bands[i].Covers(row) {
      var i :| 0 <= i < |bands| && bands[i].Covers(row);
      assert BandAt(w, RowIndex(n, i)).Covers(row);
    }
    forall i, j | 0 <= i < |bands| && 0 <= j < |bands| && bands[i].Covers(row) && bands[j].Covers(row)
      ensures i == j
    {
      if RowIndex(n, i) != RowIndex(n, j) {
        Disjoint(w, RowIndex(n, i), RowIndex(n, j), row);
      }
    }
  }

  /**
   * The rows the started bands visit fall short of RESOLUTION + 1 by fewer than N, and by none
   * exactly when N divides RESOLUTION + 1; the trailing rows [N*w, RESOLUTION + 1)
   * lie in no started band.
   */
  lemma TrailingGap(resolution: nat, n: int)
    requires n > 0
    ensures 0 <= resolution + 1 - n * Width(resolution, n) < n
    ensures resolution + 1 - n * Width(resolution, n) == (resolution + 1) % n
    ensures forall row, i :: n * Width(resolution, n) <= row <= resolution && 0 <= i < n ==>
      !LaunchOrder(resolution, n)[i].Covers(row)
  {
    forall row, i | n * Width(resolution, n) <= row <= resolution && 0 <= i < n
      ensures !LaunchOrder(resolution, n)[i].Covers(row)
    {
      StartedBandsPartition(resolution, n, row);
    }
  }

  /** More bands than rows: the width is 0 and every started band is empty. */
  lemma TooManyBands(resolution: nat, n: int)
    requires n > resolution + 1
    ensures Width(resolution, n) == 0
    ensures forall i :: 0 <= i < |LaunchOrder(resolution, n)| ==> LaunchOrder(resolution, n)[i].IsEmpty()
  {
    forall i | 0 <= i < n - 1
      ensures LaunchOrder(resolution, n)[i].IsEmpty()
    {
      assert LaunchOrder(resolution, n)[i] == BandAt(0, i + 1);
    }
  }

  /** N < 0 (a negative argument, or an overflowing product): only band 0 is started, and it is empty. */
  lemma NegativeBandCount(resolution: nat, n: int)
    requires n < 0
    ensures |LaunchOrder(resolution, n)| == 1 && LaunchOrder(resolution, n)[0].IsEmpty()
  {
  }

  /** THREADS = 3, GRANULARITY = 1 at the fixed resolution: the row loops never visit rows 4095 and 4096. */
  lemma UnrenderedRowsExample()
    ensures BandCount(3, 1) == 3 && Width(RESOLUTION, 3) == 1365
    ensures forall i :: 0 <= i < 3 ==> !LaunchOrder(RESOLUTION, 3)[i].Covers(4095) && !LaunchOrder(RESOLUTION, 3)[i].Covers(4096)
  {
    TrailingGap(RESOLUTION, 3);
  }

  /** THREADS = GRANULARITY = 65536: the int product wraps to 0 and `main` divides by zero. */
  lemma OverflowToZeroExample()
    ensures BandCount(65536, 65536) == 0
  {
  }
}

/**
 * Bands that cover every row: the first N-1 bands as in `main`, the last one
 * stretched to end at RESOLUTION + 1 so that the truncated rows are not lost.
 */
module CoveringPartition {
  import opened Partition

  function CoveringBands(resolution: nat, n: int): (bands: seq<Band>)
    requires n > 0
    ensures |bands| == n
  {
    var w := Width(resolution, n);
    seq(n, k requires 0 <= k < n => if k == n - 1 then Band(k * w, resolution + 1) else BandAt(w, k))
  }

  /** The last covering band starts after every other one ends. */
  lemma LastBandStartsAfterOthers(resolution: nat, n: int, k: int)
    requires n > 0 && 0 <= k < n - 1
    ensures CoveringBands(resolution, n)[k].endY <= CoveringBands(resolution, n)[n - 1].startY
  {
    MulMono(Width(resolution, n), k + 1, n - 1);
  }

  /** Every row of the image lies in some covering band. */
  lemma {:induction false} CoveringBandsCover(resolution: nat, n: int, row: int)
    requires n > 0 && 0 <= row <= resolution
    ensures exists k :: 0 <= k < n && CoveringBands(resolution, n)[k].Covers(row)
  {
    var w := Width(resolution, n);
    if row < (n - 1) * w {
      BandOfRow(w, row);
      var k := row / w;
      if k >= n - 1 {
        MulMono(w, n - 1, k);
        assert false;
      }
      assert CoveringBands(resolution, n)[k] == BandAt(w, k);
    } else {
      assert CoveringBands(resolution, n)[n - 1].Covers(row);
    }
  }

  /** No row outside the image lies in a covering band. */
  lemma {:induction false} CoveringBandsWithinImage(resolution: nat, n: int, row: int, k: int)
    requires n > 0 && 0 <= k < n && CoveringBands(resolution, n)[k].Covers(row)
    ensures 0 <= row <= resolution
  {
    var w := Width(resolution, n);
    MulMono(w, 0, k);
    if k < n - 1 {
      LastBandStartsAfterOthers(resolution, n, k);
    }
  }

  /** No row lies in two covering bands. */
  lemma {:induction false} CoveringBandsDisjoint(resolution: nat, n: int, row: int, i: int, j: int)
    requires n > 0 && 0 <= i < n && 0 <= j < n
    requires CoveringBands(resolution, n)[i].Covers(row) && CoveringBands(resolution, n)[j].Covers(row)
    ensures i == j
  {
    var w := Width(resolution, n);
    if i < n - 1 && j < n - 1 {
      if i != j {
        Disjoint(w, i, j, row);
      }
    } else if i < n - 1 {
      LastBandStartsAfterOthers(resolution, n, i);
    } else if j < n - 1 {
      LastBandStartsAfterOthers(resolution, n, j);
    }
  }
}
