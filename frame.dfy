/**
  A pixel canvas: a row-major buffer of `width * height` pixels together with a
  table holding the start of every row, and rectangular windows ("views") onto
  such a buffer that are painted in local coordinates.
 */
module Frames {
  import opened Pixels

  /** A painter gives the colour of the pixel at local column x and row y. */
  type Painter = (nat, nat) -> Pixel

  /** Row-major addressing never leaves the buffer. */
  lemma FlatIndexInRange(w: nat, h: nat, x: nat, y: nat)
    requires x < w && y < h
    ensures y * w + x < w * h
  {
    assert y * w + x < (y + 1) * w;
    MulMonotone(y + 1, h, w);
  }

  lemma MulMonotone(a: nat, b: nat, w: nat)
    requires a <= b
    ensures a * w <= b * w
  {
  }

  /** Row-major addressing names every pixel of a row of width w exactly once. */
  lemma FlatIndexInjective(w: nat, x1: nat, y1: nat, x2: nat, y2: nat)
    requires x1 < w && x2 < w
    requires y1 * w + x1 == y2 * w + x2
    ensures x1 == x2 && y1 == y2
  {
    if y1 < y2 {
      assert y1 * w + x1 < (y1 + 1) * w;
      MulMonotone(y1 + 1, y2, w);
    } else if y2 < y1 {
      assert y2 * w + x2 < (y2 + 1) * w;
      MulMonotone(y2 + 1, y1, w);
    }
  }

  /** Two different pixels of a frame of width w have different flat positions. */
  lemma DistinctCells(w: nat, x1: nat, y1: nat, x2: nat, y2: nat)
    requires x1 < w && x2 < w && (x1 != x2 || y1 != y2)
    ensures y1 * w + x1 != y2 * w + x2
  {
    if y1 * w + x1 == y2 * w + x2 {
      FlatIndexInjective(w, x1, y1, x2, y2);
    }
  }

  class Frame {
    const width: nat
    const height: nat
    /** `_pixels`: the pixel at column x and row y is `pixels[y * width + x]`. */
    const pixels: array<Pixel>
    /** `_pixel_rows`: row j starts at position `rows[j]` of `pixels`. */
    const rows: array<nat>

    ghost predicate Valid()
      reads this, rows
    {
      && pixels.Length == width * height
      && rows.Length == height
      && forall j :: 0 <= j < height ==> rows[j] == j * width
    }

    /** Allocates the buffer and fills the row table. */
    constructor (w: nat, h: nat)
      ensures Valid()
      ensures width == w && height == h
      ensures fresh(pixels) && fresh(rows)
    {
      var table := new nat[h];
      var j := 0;
      while j < h
        invariant 0 <= j <= h
        invariant forall k :: 0 <= k < j ==> table[k] == k * w
      {
        table[j] := j * w;
        j := j + 1;
      }
      width, height := w, h;
      pixels := new Pixel[w * h];
      rows := table;
    }

    /** `paint(x, y)`: the pixel at column x and row y. */
    function Get(x: nat, y: nat): Pixel
      requires Valid() && x < width && y < height
      reads this, rows, pixels
    {
      FlatIndexInRange(width, height, x, y);
      pixels[y * width + x]
    }

    /** `_pixel_rows[y][x]`: the row table names the same pixel as `paint(x, y)`. */
    function RowAt(x: nat, y: nat): (px: Pixel)
      requires Valid() && x < width && y < height
      reads this, rows, pixels
      ensures px == Get(x, y)
    {
      FlatIndexInRange(width, height, x, y);
      pixels[rows[y] + x]
    }

    /** Writes the pixel at flat position `idx`, which is column x of row y. */
    method Store(idx: nat, ghost x: nat, ghost y: nat, px: Pixel)
      requires Valid() && x < width && y < height && idx == y * width + x
      modifies pixels
      ensures forall i: nat, j: nat :: i < width && j < height ==>
        Get(i, j) == if i == x && j == y then px else old(Get(i, j))
    {
      FlatIndexInRange(width, height, x, y);
      pixels[idx] := px;
      forall i: nat, j: nat | i < width && j < height
        ensures Get(i, j) == if i == x && j == y then px else old(Get(i, j))
      {
        if i != x || j != y {
          DistinctCells(width, i, j, x, y);
        }
      }
    }

    /** `_pixel_rows[y][x] = px`: a write through the row table. */
    method SetRowCell(x: nat, y: nat, px: Pixel)
      requires Valid() && x < width && y < height
      modifies pixels
      ensures forall i: nat, j: nat :: i < width && j < height ==>
        Get(i, j) == if i == x && j == y then px else old(Get(i, j))
    {
      Store(rows[y] + x, x, y, px);
    }

    /** `paint(painter)`: sets every pixel (i, j) to `p(i, j)`. */
    method Paint(p: Painter)
      requires Valid()
      modifies pixels
      ensures forall x: nat, y: nat :: x < width && y < height ==> Get(x, y) == p(x, y)
    {
      var j := 0;
      while j < height
        invariant 0 <= j <= height
        invariant forall x: nat, y: nat :: x < width && y < j ==> Get(x, y) == p(x, y)
      {
        var idx := j * width;
        var i := 0;
        while i < width
          invariant 0 <= i <= width
          invariant idx == j * width + i
          invariant forall x: nat, y: nat :: x < width && y < j ==> Get(x, y) == p(x, y)
          invariant forall x: nat :: x < i ==> Get(x, j) == p(x, j)
        {
          Store(idx, i, j, p(i, j));
          idx := idx + 1;
          i := i + 1;
        }
        j := j + 1;
      }
    }

    /** `view(i, j, n, m)`: the window of size n x m whose origin is (i, j). */
    method View(i: nat, j: nat, n: nat, m: nat) returns (v: FrameView)
      ensures fresh(v)
      ensures v.parent == this && v.initI == i && v.initJ == j && v.n == n && v.m == m
    {
      v := new FrameView(this, i, j, n, m);
    }
  }

  class FrameView {
    const parent: Frame
    /** Origin of the window on the root frame. */
    const initI: nat
    const initJ: nat
    /** Width and height of the window. */
    const n: nat
    const m: nat

    constructor (parent: Frame, i: nat, j: nat, n: nat, m: nat)
      ensures this.parent == parent && initI == i && initJ == j && this.n == n && this.m == m
    {
      this.parent := parent;
      initI, initJ := i, j;
      this.n, this.m := n, m;
    }

    /** The window lies inside its parent; `frame_view::paint` writes without checking it. */
    ghost predicate Fits()
      reads this, parent
    {
      initI + n <= parent.width && initJ + m <= parent.height
    }

    /** True when the root-frame pixel (x, y) lies in the window. */
    ghost predicate Contains(x: nat, y: nat)
      reads this
    {
      initI <= x < initI + n && initJ <= y < initJ + m
    }

    /** `view(i, j, n, m)` on a view: offsets add up and the root frame stays the same. */
    method View(i: nat, j: nat, n: nat, m: nat) returns (v: FrameView)
      ensures fresh(v)
      ensures v.parent == parent && v.initI == initI + i && v.initJ == initJ + j
      ensures v.n == n && v.m == m
    {
      v := new FrameView(parent, initI + i, initJ + j, n, m);
    }

    /** `paint(x, y)`: local pixel (x, y) of the window. */
    function Get(x: nat, y: nat): (px: Pixel)
      requires parent.Valid() && Fits() && x < n && y < m
      reads this, parent, parent.rows, parent.pixels
      ensures px == parent.Get(initI + x, initJ + y)
    {
      FlatIndexInRange(parent.width, parent.height, initI + x, initJ + y);
      parent.pixels[(initJ + y) * parent.width + initI + x]
    }

    /** `paint(painter)`: paints the window from `p` in local coordinates; nothing outside changes. */
    method Paint(p: Painter)
      requires parent.Valid() && Fits()
      modifies parent.pixels
      ensures forall x: nat, y: nat :: x < n && y < m ==> parent.Get(initI + x, initJ + y) == p(x, y)
      ensures forall x: nat, y: nat :: x < parent.width && y < parent.height && !Contains(x, y) ==>
        parent.Get(x, y) == old(parent.Get(x, y))
    {
      var j := 0;
      while j < m
        invariant 0 <= j <= m
        invariant forall x: nat, y: nat :: x < parent.width && y < parent.height ==>
          parent.Get(x, y) == if PaintedSoFar(initI, initJ, n, j, 0, x, y) then p(x - initI, y - initJ)
                              else old(parent.Get(x, y))
      {
        var idx := (initJ + j) * parent.width + initI;
        var i := 0;
        while i < n
          invariant 0 <= i <= n
          invariant idx == (initJ + j) * parent.width + initI + i
          invariant forall x: nat, y: nat :: x < parent.width && y < parent.height ==>
            parent.Get(x, y) == if PaintedSoFar(initI, initJ, n, j, i, x, y) then p(x - initI, y - initJ)
                                else old(parent.Get(x, y))
        {
          parent.Store(idx, initI + i, initJ + j, p(i, j));
          idx := idx + 1;
          i := i + 1;
        }
        j := j + 1;
      }
    }
  }

  /**
    The part of a window with origin (i0, j0) and width n that row-by-row painting has
    covered after `rowsDone` full rows and `colsDone` pixels of the next row.
   */
  ghost predicate PaintedSoFar(i0: nat, j0: nat, n: nat, rowsDone: nat, colsDone: nat, x: nat, y: nat)
  {
    i0 <= x < i0 + n && j0 <= y &&
    (y < j0 + rowsDone || (y == j0 + rowsDone && x < i0 + colsDone))
  }
}
