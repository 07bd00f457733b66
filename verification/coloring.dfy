/**
 * The colour table of `setPixelColor` and the single-pixel write it performs.
 * An escape count `z` selects one of fourteen fixed 24-bit RGB values through an
 * if/else chain; a count above 256 matches no branch and nothing is written.
 */
module Coloring {
  import opened Wrappers

  const BLACK: int := 0x000000
  const WHITE: int := 0xFFFFFF

  /** The colour the if/else chain selects for escape count `z`, or None when no branch matches. */
  function ColorOf(z: int): (r: Option<int>)
    ensures r.Some? <==> z <= 256
    ensures z <= 14 ==> r == Some(BLACK)
    ensures r.Some? ==> 0 <= r.value <= WHITE
  {
    if z <= 14 then Some(0x000000)
    else if z == 15 then Some(0x0E1B00)
    else if z == 16 then Some(0x122200)
    else if z == 17 then Some(0x162A00)
    else if z == 18 then Some(0x1B3500)
    else if z == 19 then Some(0x224200)
    else if z == 20 then Some(0x2A5300)
    else if 20 < z && z <= 30 then Some(0x264C00)
    else if 30 < z && z <= 40 then Some(0x336600)
    else if 40 < z && z <= 50 then Some(0x4C9900)
    else if 50 < z && z <= 100 then Some(0xFFB424)
    else if 100 < z && z <= 150 then Some(0xFFC350)
    else if 150 < z && z <= 200 then Some(0xFFCF73)
    else if 200 < z && z <= 256 then Some(0xFFD98F)
    else None
  }

  /**
   * The same table written as data: one bucket per branch of the chain, each an
   * inclusive range of counts (the first one unbounded below) and its colour.
   */
  datatype Bucket = AtMost(hi: int, color: int) | Range(lo: int, hi: int, color: int)
  {
    predicate Holds(z: int) {
      match this
      case AtMost(hi, _) => z <= hi
      case Range(lo, hi, _) => lo <= z <= hi
    }
  }

  const Table: seq<Bucket> := [
    AtMost(14, 0x000000),
    Range(15, 15, 0x0E1B00),
    Range(16, 16, 0x122200),
    Range(17, 17, 0x162A00),
    Range(18, 18, 0x1B3500),
    Range(19, 19, 0x224200),
    Range(20, 20, 0x2A5300),
    Range(21, 30, 0x264C00),
    Range(31, 40, 0x336600),
    Range(41, 50, 0x4C9900),
    Range(51, 100, 0xFFB424),
    Range(101, 150, 0xFFC350),
    Range(151, 200, 0xFFCF73),
    Range(201, 256, 0xFFD98F)
  ]

  /** Some bucket of the table holds `z` exactly when `z <= 256`, and no two buckets hold the same count. */
  lemma ExactlyOneBucket(z: int)
    ensures (exists i :: 0 <= i < |Table| && Table[i].Holds(z)) <==> z <= 256
    ensures forall i, j :: 0 <= i < |Table| && 0 <= j < |Table| && Table[i].Holds(z) && Table[j].Holds(z) ==> i == j
  {
    if z <= 256 {
      var i := BucketIndex(z);
      assert Table[i].Holds(z);
    }
  }

  /** The position in the table of the bucket holding `z`. */
  function BucketIndex(z: int): (i: nat)
    requires z <= 256
    ensures i < |Table| && Table[i].Holds(z)
  {
    if z <= 14 then 0
    else if z <= 20 then z - 14
    else if z <= 30 then 7
    else if z <= 40 then 8
    else if z <= 50 then 9
    else if z <= 100 then 10
    else if z <= 150 then 11
    else if z <= 200 then 12
    else 13
  }

  /** The chain picks the colour of the (unique) bucket holding `z`. */
  lemma ColorOfAgreesWithTable(z: int)
    ensures forall i :: 0 <= i < |Table| && Table[i].Holds(z) ==> ColorOf(z) == Some(Table[i].color)
  {
  }

  /** Each boundary of the chain maps exactly as written. */
  lemma BoundaryColors()
    ensures ColorOf(-1) == Some(0x000000) && ColorOf(0) == Some(0x000000) && ColorOf(14) == Some(0x000000)
    ensures ColorOf(15) == Some(0x0E1B00) && ColorOf(16) == Some(0x122200) && ColorOf(17) == Some(0x162A00)
    ensures ColorOf(18) == Some(0x1B3500) && ColorOf(19) == Some(0x224200) && ColorOf(20) == Some(0x2A5300)
    ensures ColorOf(21) == Some(0x264C00) && ColorOf(30) == Some(0x264C00) && ColorOf(31) == Some(0x336600)
    ensures ColorOf(40) == Some(0x336600) && ColorOf(41) == Some(0x4C9900) && ColorOf(50) == Some(0x4C9900)
    ensures ColorOf(51) == Some(0xFFB424) && ColorOf(100) == Some(0xFFB424) && ColorOf(101) == Some(0xFFC350)
    ensures ColorOf(150) == Some(0xFFC350) && ColorOf(151) == Some(0xFFCF73) && ColorOf(200) == Some(0xFFCF73)
    ensures ColorOf(201) == Some(0xFFD98F) && ColorOf(256) == Some(0xFFD98F) && ColorOf(257) == None
  {
  }

  /** Whether `(x, y)` addresses a pixel of `image` (column `x`, row `y`). */
  predicate InBounds(image: array2<int>, x: int, y: int)
  {
    0 <= x < image.Length0 && 0 <= y < image.Length1
  }

  /**
   * A fresh `size` by `size` image filled with white: the `BufferedImage` that `main`
   * allocates and paints white before any band runs.
   */
  method NewImage(size: nat) returns (image: array2<int>)
    ensures fresh(image)
    ensures image.Length0 == size && image.Length1 == size
    ensures forall x, y :: 0 <= x < size && 0 <= y < size ==> image[x, y] == WHITE
  {
    image := new int[size, size];
    var x := 0;
    while x < size
      invariant 0 <= x <= size
      invariant forall i, j :: 0 <= i < x && 0 <= j < size ==> image[i, j] == WHITE
    {
      var y := 0;
      while y < size
        invariant 0 <= y <= size
        invariant forall i, j :: 0 <= i < x && 0 <= j < size ==> image[i, j] == WHITE
        invariant forall j :: 0 <= j < y ==> image[x, j] == WHITE
      {
        image[x, y] := WHITE;
        y := y + 1;
      }
      x := x + 1;
    }
  }

  /**
   * Writes the colour of escape count `z` at pixel `(px, py)`. When no branch matches
   * (`z > 256`) nothing is written. When a branch matches but the pixel lies outside
   * the image, `setRGB` throws: `ok` is false and the image is unchanged.
   */
  method SetPixelColor(image: array2<int>, px: int, py: int, z: int) returns (ok: bool)
    modifies image
    ensures ok <==> z > 256 || InBounds(image, px, py)
    ensures z <= 256 && ok ==> image[px, py] == ColorOf(z).value
    ensures forall x, y :: InBounds(image, x, y) && !(ok && z <= 256 && x == px && y == py) ==>
              image[x, y] == old(image[x, y])
  {
    match ColorOf(z)
    case None =>
      ok := true;
    case Some(c) =>
      if InBounds(image, px, py) {
        image[px, py] := c;
        ok := true;
      } else {
        ok := false;
      }
  }
}
