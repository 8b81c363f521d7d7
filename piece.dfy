/**
  The rasteriser `piece<lw, sep, sl>(p, c)`: paints the background into a new
  n x n frame, then writes the pixels of the twelve layers of module Tiles
  through the frame's row table, side by side, turning the local frame a
  quarter turn after each side. Each method is proved to leave the frame equal
  to the corresponding stage of Tiles.Painted.
 */
module Rasteriser {
  import opened Pixels
  import opened Frames
  import opened Tiles
  import Draws

  /** The pixels of column x of a rectangle whose rows below y are done. */
  ghost predicate ColumnPart(q: Pose, x: int, y: int, px: int, py: int) {
    Along(q.ix, q.dx, px) == x && 0 <= Along(q.iy, q.dy, py) < y
  }

  /** The pixels of row i of a `bx` notch whose first j steps are done. */
  ghost predicate NotchXRow(q: Pose, lw: int, i: int, j: int, px: int, py: int) {
    var u, v := Along(q.ix, q.dx, px), Along(q.iy, q.dy, py);
    v == i && (-j <= u <= -1 || lw <= u < lw + j)
  }

  /** The pixels of column i of a `by` notch whose first j steps are done. */
  ghost predicate NotchYColumn(q: Pose, lw: int, i: int, j: int, px: int, py: int) {
    var u, v := Along(q.ix, q.dx, px), Along(q.iy, q.dy, py);
    u == i && (-j <= v <= -1 || lw <= v < lw + j)
  }

  /** One more step of a `bx` notch row adds the two pixels it writes. */
  lemma NotchXStep(q: Pose, lw: nat, i: int, j: nat, px: int, py: int)
    ensures var u, v := Along(q.ix, q.dx, px), Along(q.iy, q.dy, py);
      NotchXRow(q, lw, i, j + 1, px, py) <==>
      NotchXRow(q, lw, i, j, px, py) || (u == -(j + 1) && v == i) || (u == lw + j && v == i)
  {
  }

  /** A finished row i joins the rows below it. */
  lemma NotchXGrow(q: Pose, lw: nat, i: nat, px: int, py: int)
    requires i >= 1
    ensures InNotchX(q, i + 1, lw, px, py) <==> InNotchX(q, i, lw, px, py) || NotchXRow(q, lw, i, i, px, py)
  {
  }

  lemma NotchYStep(q: Pose, lw: nat, i: int, j: nat, px: int, py: int)
    ensures var u, v := Along(q.ix, q.dx, px), Along(q.iy, q.dy, py);
      NotchYColumn(q, lw, i, j + 1, px, py) <==>
      NotchYColumn(q, lw, i, j, px, py) || (u == i && v == -(j + 1)) || (u == i && v == lw + j)
  {
  }

  lemma NotchYGrow(q: Pose, lw: nat, i: nat, px: int, py: int)
    requires i >= 1
    ensures InNotchY(q, i + 1, lw, px, py) <==> InNotchY(q, i, lw, px, py) || NotchYColumn(q, lw, i, i, px, py)
  {
  }

  /** `o + d*k` and `o - d*k` are moves by k and -k along a unit direction d. */
  lemma MoveBy(o: int, d: int, k: int)
    requires Unit(d)
    ensures o + d * k == Move(o, d, k) && o - d * k == Move(o, d, -k)
  {
  }

  /** Local coordinates name pixels one to one. */
  lemma AlongInjective(o: int, d: int, a: int, b: int)
    requires Unit(d) && Along(o, d, a) == Along(o, d, b)
    ensures a == b
  {
  }

  /**
    `rows[iy + v*dy][ix + u*dx] = col`: sets the pixel at local coordinates
    (u, v) of frame q to col and leaves every other pixel as it was.
   */
  method Plot(f: Frame, q: Pose, u: int, v: int, col: Pixel)
    requires f.Valid() && UnitPose(q)
    requires 0 <= q.ix + u * q.dx < f.width && 0 <= q.iy + v * q.dy < f.height
    modifies f.pixels
    ensures forall px: nat, py: nat :: px < f.width && py < f.height ==>
      f.Get(px, py) == if Along(q.ix, q.dx, px) == u && Along(q.iy, q.dy, py) == v then col else old(f.Get(px, py))
  {
    ghost var cx, cy := q.ix + u * q.dx, q.iy + v * q.dy;
    AlongMove(q.ix, q.dx, u);
    AlongMove(q.iy, q.dy, v);
    f.SetRowCell(q.ix + u * q.dx, q.iy + v * q.dy, col);
    forall px: nat, py: nat | px < f.width && py < f.height && Along(q.ix, q.dx, px) == u && Along(q.iy, q.dy, py) == v
      ensures px == cx && py == cy
    {
      AlongInjective(q.ix, q.dx, px, cx);
      AlongInjective(q.iy, q.dy, py, cy);
    }
  }

  /**
    `for x < w: for y < h: rows[iy + y*dy][ix + x*dx] = col`: sets the w x h
    rectangle of frame q to col and leaves every other pixel as it was.
   */
  method FillRect(f: Frame, q: Pose, w: nat, h: nat, col: Pixel)
    requires f.Valid() && UnitPose(q)
    requires forall px: int, py: int :: InRect(q, w, h, px, py) ==> 0 <= px < f.width && 0 <= py < f.height
    modifies f.pixels
    ensures forall px: nat, py: nat :: px < f.width && py < f.height ==>
      f.Get(px, py) == if InRect(q, w, h, px, py) then col else old(f.Get(px, py))
  {
    var x := 0;
    while x < w
      invariant x <= w
      invariant forall px: nat, py: nat :: px < f.width && py < f.height ==>
        f.Get(px, py) == if InRect(q, x, h, px, py) then col else old(f.Get(px, py))
    {
      var y := 0;
      while y < h
        invariant y <= h
        invariant forall px: nat, py: nat :: px < f.width && py < f.height ==>
          f.Get(px, py) == if InRect(q, x, h, px, py) || ColumnPart(q, x, y, px, py) then col else old(f.Get(px, py))
      {
        AlongMove(q.ix, q.dx, x);
        AlongMove(q.iy, q.dy, y);
        assert InRect(q, w, h, q.ix + x * q.dx, q.iy + y * q.dy);
        Plot(f, q, x, y, col);
        y := y + 1;
      }
      x := x + 1;
    }
  }

  /**
    The `bx` loop: for 1 <= i < b and j < i, writes `rows[iy + i*dy][ix - (j+1)*dx]`
    and `rows[iy + i*dy][ix + (lw+j)*dx]`: sets the notch InNotchX to col and
    leaves every other pixel as it was.
   */
  method FillNotchX(f: Frame, q: Pose, b: nat, lw: nat, col: Pixel)
    requires f.Valid() && UnitPose(q)
    requires forall px: int, py: int :: InNotchX(q, b, lw, px, py) ==> 0 <= px < f.width && 0 <= py < f.height
    modifies f.pixels
    ensures forall px: nat, py: nat :: px < f.width && py < f.height ==>
      f.Get(px, py) == if InNotchX(q, b, lw, px, py) then col else old(f.Get(px, py))
  {
    var i := 1;
    while i < b
      invariant 1 <= i && (i <= b || i == 1)
      invariant forall px: nat, py: nat :: px < f.width && py < f.height ==>
        f.Get(px, py) == if InNotchX(q, i, lw, px, py) then col else old(f.Get(px, py))
    {
      FillNotchXLine(f, q, b, lw, i, col);
      forall px: nat, py: nat | px < f.width && py < f.height {
        NotchXGrow(q, lw, i, px, py);
      }
      i := i + 1;
    }
  }

  /** Line i of the `bx` loop: the 2i pixels of row i of the notch. */
  method FillNotchXLine(f: Frame, q: Pose, b: nat, lw: nat, i: nat, col: Pixel)
    requires f.Valid() && UnitPose(q) && 1 <= i < b
    requires forall px: int, py: int :: InNotchX(q, b, lw, px, py) ==> 0 <= px < f.width && 0 <= py < f.height
    modifies f.pixels
    ensures forall px: nat, py: nat :: px < f.width && py < f.height ==>
      f.Get(px, py) == if NotchXRow(q, lw, i, i, px, py) then col else old(f.Get(px, py))
  {
    var j := 0;
    while j < i
      invariant j <= i
      invariant forall px: nat, py: nat :: px < f.width && py < f.height ==>
        f.Get(px, py) == if NotchXRow(q, lw, i, j, px, py) then col else old(f.Get(px, py))
    {
      AlongMove(q.ix, q.dx, -(j + 1));
      AlongMove(q.ix, q.dx, lw + j);
      AlongMove(q.iy, q.dy, i);
      assert InNotchX(q, b, lw, q.ix - (j + 1) * q.dx, q.iy + i * q.dy);
      assert InNotchX(q, b, lw, q.ix + (lw + j) * q.dx, q.iy + i * q.dy);
      Plot(f, q, -(j + 1), i, col);
      Plot(f, q, lw + j, i, col);
      forall px: nat, py: nat | px < f.width && py < f.height {
        NotchXStep(q, lw, i, j, px, py);
      }
      j := j + 1;
    }
  }

  /**
    The `by` loop: for 1 <= i < b and j < i, writes `rows[iy - (j+1)*dy][ix + i*dx]`
    and `rows[iy + (lw+j)*dy][ix + i*dx]`: sets the notch InNotchY to col and
    leaves every other pixel as it was.
   */
  method FillNotchY(f: Frame, q: Pose, b: nat, lw: nat, col: Pixel)
    requires f.Valid() && UnitPose(q)
    requires forall px: int, py: int :: InNotchY(q, b, lw, px, py) ==> 0 <= px < f.width && 0 <= py < f.height
    modifies f.pixels
    ensures forall px: nat, py: nat :: px < f.width && py < f.height ==>
      f.Get(px, py) == if InNotchY(q, b, lw, px, py) then col else old(f.Get(px, py))
  {
    var i := 1;
    while i < b
      invariant 1 <= i && (i <= b || i == 1)
      invariant forall px: nat, py: nat :: px < f.width && py < f.height ==>
        f.Get(px, py) == if InNotchY(q, i, lw, px, py) then col else old(f.Get(px, py))
    {
      FillNotchYLine(f, q, b, lw, i, col);
      forall px: nat, py: nat | px < f.width && py < f.height {
        NotchYGrow(q, lw, i, px, py);
      }
      i := i + 1;
    }
  }

  /** Line i of the `by` loop: the 2i pixels of column i of the notch. */
  method FillNotchYLine(f: Frame, q: Pose, b: nat, lw: nat, i: nat, col: Pixel)
    requires f.Valid() && UnitPose(q) && 1 <= i < b
    requires forall px: int, py: int :: InNotchY(q, b, lw, px, py) ==> 0 <= px < f.width && 0 <= py < f.height
    modifies f.pixels
    ensures forall px: nat, py: nat :: px < f.width && py < f.height ==>
      f.Get(px, py) == if NotchYColumn(q, lw, i, i, px, py) then col else old(f.Get(px, py))
  {
    var j := 0;
    while j < i
      invariant j <= i
      invariant forall px: nat, py: nat :: px < f.width && py < f.height ==>
        f.Get(px, py) == if NotchYColumn(q, lw, i, j, px, py) then col else old(f.Get(px, py))
    {
      AlongMove(q.iy, q.dy, -(j + 1));
      AlongMove(q.iy, q.dy, lw + j);
      AlongMove(q.ix, q.dx, i);
      assert InNotchY(q, b, lw, q.ix + i * q.dx, q.iy - (j + 1) * q.dy);
      assert InNotchY(q, b, lw, q.ix + i * q.dx, q.iy + (lw + j) * q.dy);
      Plot(f, q, i, -(j + 1), col);
      Plot(f, q, i, lw + j, col);
      forall px: nat, py: nat | px < f.width && py < f.height {
        NotchYStep(q, lw, i, j, px, py);
      }
      j := j + 1;
    }
  }

  /** The loop `p_inv[p[d]] = d`: the inverse of the routing p. */
  method InvertRouting(p: array<nat>) returns (q: array<nat>)
    requires IsRouting(p[..])
    ensures fresh(q) && q[..] == Inverse(p[..])
  {
    q := new nat[4];
    var d := 0;
    while d < 4
      invariant 0 <= d <= 4
      invariant forall e :: 0 <= e < d ==> q[p[e]] == e
    {
      q[p[d]] := d;
      d := d + 1;
    }
    InverseInverts(p[..]);
    forall k | 0 <= k < 4
      ensures q[k] == Inverse(p[..])[k]
    {
      assert p[Inverse(p[..])[k]] == k;
    }
  }

  /** The frame holds the first k layers of the tile over the background. */
  ghost predicate HoldsLayers(f: Frame, g: Geometry, p: seq<nat>, c: seq<Pixel>, k: nat)
    requires f.Valid() && f.width == Size(g) && f.height == Size(g)
    requires |p| == 4 && |c| == 4 && (forall d :: 0 <= d < 4 ==> p[d] < 4) && k <= Layers
    reads f, f.rows, f.pixels
  {
    forall x: nat, y: nat :: x < Size(g) && y < Size(g) ==> f.Get(x, y) == Painted(g, p, c, k, x, y)
  }

  /**
    The first loop of `piece`: the entry tab of each side, `tlw x tsl` pixels in
    colour c[d]. Returns the frame it leaves behind, which four quarter turns have
    brought back to the start.
   */
  method EntryTabs(f: Frame, g: Geometry, ghost p: seq<nat>, c: array<Pixel>)
    returns (iy: int, dx: int, dy: int, tlw: nat, tsl: nat)
    requires ValidGeometry(g) && f.Valid() && f.width == Size(g) && f.height == Size(g)
    requires |p| == 4 && (forall d :: 0 <= d < 4 ==> p[d] < 4) && c.Length == 4 && c != f.pixels
    requires HoldsLayers(f, g, p, c[..], 0)
    modifies f.pixels
    ensures HoldsLayers(f, g, p, c[..], 4)
    ensures iy == 0 && dx == 1 && dy == 1 && tlw == g.lw && tsl == g.sl
  {
    var n: int := Size(g);
    var tmp: int;
    dx := 1;
    dy := 1;
    var ix: int := g.sep;
    iy := 0;
    tlw, tsl := g.lw, g.sl;
    var d := 0;
    while d < 4
      invariant 0 <= d <= 4
      invariant Pose(ix, iy, dx, dy) == TurnN(n, EntryStart(g), d)
      invariant tlw == TabWidth(g, d) && tsl == TabHeight(g, d)
      invariant HoldsLayers(f, g, p, c[..], d)
    {
      DrawEntry(f, g, p, c[..], d, Pose(ix, iy, dx, dy), tlw, tsl, c[d]);
      tmp := dy;
      dy := dx;
      dx := -tmp;
      tmp := iy;
      iy := ix;
      ix := n - 1 - tmp;
      tlw, tsl := tsl, tlw;
      d := d + 1;
    }
    TurnFour(n, EntryStart(g));
  }

  /** One iteration of the first loop of `piece`: the entry tab of side d, in colour col. */
  method DrawEntry(f: Frame, g: Geometry, ghost p: seq<nat>, ghost c: seq<Pixel>, ghost d: nat,
                   q: Pose, tlw: nat, tsl: nat, col: Pixel)
    requires ValidGeometry(g) && f.Valid() && f.width == Size(g) && f.height == Size(g)
    requires |p| == 4 && (forall k :: 0 <= k < 4 ==> p[k] < 4) && |c| == 4 && d < 4
    requires q == TurnN(Size(g), EntryStart(g), d) && tlw == TabWidth(g, d) && tsl == TabHeight(g, d)
    requires col == LayerColour(p, c, d) && HoldsLayers(f, g, p, c, d)
    modifies f.pixels
    ensures HoldsLayers(f, g, p, c, d + 1)
  {
    TurnNUnit(Size(g), EntryStart(g), d);
    forall px: int, py: int | InRect(q, tlw, tsl, px, py)
      ensures 0 <= px < Size(g) && 0 <= py < Size(g)
    {
      EntryInTile(g, d, px, py);
    }
    FillRect(f, q, tlw, tsl, col);
  }

  /**
    The second loop of `piece`: the exit tab of each side with its notches, in
    colour c[p_inv[d]]. It starts from the frame the first loop left, with ix
    moved to `n - sep - lw`.
   */
  method ExitTabs(f: Frame, g: Geometry, ghost p: seq<nat>, c: array<Pixel>, pInv: array<nat>,
                  iy0: int, dx0: int, dy0: int, tlw0: nat, tsl0: nat)
    requires ValidGeometry(g) && f.Valid() && f.width == Size(g) && f.height == Size(g)
    requires |p| == 4 && (forall d :: 0 <= d < 4 ==> p[d] < 4) && c.Length == 4 && c != f.pixels
    requires pInv[..] == Inverse(p)
    requires iy0 == 0 && dx0 == 1 && dy0 == 1 && tlw0 == g.lw && tsl0 == g.sl
    requires HoldsLayers(f, g, p, c[..], 4)
    modifies f.pixels
    ensures HoldsLayers(f, g, p, c[..], 8)
  {
    var n: int := Size(g);
    var tmp: int;
    var iy, dx, dy, tlw, tsl := iy0, dx0, dy0, tlw0, tsl0;
    var ix: int := n - g.sep - g.lw;
    var bx: nat, bY: nat := g.lw, 0;  // `bx`, `by`
    var d := 0;
    while d < 4
      invariant 0 <= d <= 4
      invariant Pose(ix, iy, dx, dy) == TurnN(n, ExitStart(g), d)
      invariant tlw == TabWidth(g, d) && tsl == TabHeight(g, d)
      invariant bx == NotchX(g, d) && bY == NotchY(g, d)
      invariant HoldsLayers(f, g, p, c[..], 4 + d)
    {
      DrawExit(f, g, p, c[..], d, Pose(ix, iy, dx, dy), bx, bY, tlw, tsl, c[pInv[d]]);
      bx, bY := bY, bx;
      tmp := dy;
      dy := dx;
      dx := -tmp;
      tmp := iy;
      iy := ix;
      ix := n - 1 - tmp;
      tlw, tsl := tsl, tlw;
      d := d + 1;
    }
  }

  /**
    One iteration of the second loop of `piece`: the two notch loops and the
    tab of exit d, in colour col. (`piece` exchanges `bx` and `by` between
    the notches and the tab; the caller does it after the tab, which reads
    neither.)
   */
  method DrawExit(f: Frame, g: Geometry, ghost p: seq<nat>, ghost c: seq<Pixel>, ghost d: nat,
                  q: Pose, bx: nat, bY: nat, tlw: nat, tsl: nat, col: Pixel)
    requires ValidGeometry(g) && f.Valid() && f.width == Size(g) && f.height == Size(g)
    requires |p| == 4 && (forall k :: 0 <= k < 4 ==> p[k] < 4) && |c| == 4 && d < 4
    requires q == TurnN(Size(g), ExitStart(g), d)
    requires bx == NotchX(g, d) && bY == NotchY(g, d) && tlw == TabWidth(g, d) && tsl == TabHeight(g, d)
    requires col == LayerColour(p, c, 4 + d) && HoldsLayers(f, g, p, c, 4 + d)
    modifies f.pixels
    ensures HoldsLayers(f, g, p, c, 4 + d + 1)
  {
    TurnNUnit(Size(g), ExitStart(g), d);
    forall px: int, py: int | InNotchX(q, bx, g.lw, px, py)
      ensures 0 <= px < Size(g) && 0 <= py < Size(g)
    {
      ExitInTile(g, d, px, py);
    }
    FillNotchX(f, q, bx, g.lw, col);
    forall px: int, py: int | InNotchY(q, bY, g.lw, px, py)
      ensures 0 <= px < Size(g) && 0 <= py < Size(g)
    {
      ExitInTile(g, d, px, py);
    }
    FillNotchY(f, q, bY, g.lw, col);
    forall px: int, py: int | InRect(q, tlw, tsl, px, py)
      ensures 0 <= px < Size(g) && 0 <= py < Size(g)
    {
      ExitInTile(g, d, px, py);
    }
    FillRect(f, q, tlw, tsl, col);
  }

  /** A square of a spoke belongs to every longer run of its squares. */
  lemma {:induction false} SquareInSquares(s: Spoke, i: int, k: int, x: int, y: int)
    requires 0 <= i < k && InRect(SquareAt(s, i), s.w, s.w, x, y)
    ensures InSquares(s, k, x, y)
    decreases k
  {
    if i < k - 1 {
      SquareInSquares(s, i, k - 1, x, y);
    }
  }

  /**
    The `switch (rel)` of the third loop of `piece`: the step direction and count at side 0,
    the statements whose reference definitions are Tiles.BaseDir and Tiles.BaseSteps.
   */
  method Heading(g: Geometry, rel: nat) returns (sx: int, sy: int, steps: int)
    requires rel < 4
    ensures Dir(sx, sy) == BaseDir(rel) && steps == BaseSteps(g, rel)
  {
    if rel == 0 {
      sx, sy, steps := 1, 0, g.sep + g.lw;
    } else if rel == 1 {
      sx, sy, steps := 1, 1, 2 * g.sep + g.lw - g.sl;
    } else if rel == 2 {
      sx, sy, steps := 0, 1, 3 * g.sep - 2 * g.sl + g.lw;
    } else {
      sx, sy, steps := -1, 1, g.sep - g.sl;
    }
  }

  /**
    The start of an iteration of the third loop of `piece`: `rel`, the heading
    it selects, the d quarter turns of `(sx, sy)` and, for a diagonal spoke, the
    narrower width and the inset of the origin. The result is SpokeOf.
   */
  method SpokeSetup(g: Geometry, d: nat, o: nat, ix0: int, iy0: int, dx: int, dy: int)
    returns (rel: nat, ix: int, iy: int, sx: int, sy: int, steps: int, w: nat)
    requires d < 4 && o < 4
    requires Pose(ix0, iy0, dx, dy) == TurnN(Size(g), SpokeStart(g), d)
    ensures rel == Rel(o, d)
    ensures Spoke(Pose(ix, iy, dx, dy), Dir(sx, sy), steps, w) == SpokeOf(g, rel, d)
    ensures Pose(ix, iy, dx, dy) == if sx != 0 && sy != 0 then Inset(Pose(ix0, iy0, dx, dy), d, rel, g.lw - w)
                                    else Pose(ix0, iy0, dx, dy)
  {
    TurnNUnit(Size(g), SpokeStart(g), d);
    ix, iy := ix0, iy0;
    rel := (o - d + 4) % 4;
    assert rel == Rel(o, d);
    sx, sy, steps := Heading(g, rel);
    sx, sy := TurnHeading(sx, sy, d);
    w := g.lw;
    if sx != 0 && sy != 0 {
      w := DiagonalWidth(g.lw);
      ix, iy := InsetOrigin(d, rel, ix, iy, dx, dy, g.lw - w);
      steps := steps + 2 * (g.lw - w);
    }
  }

  /** `for t < d: tmp = sy; sy = sx; sx = -tmp`: the heading turned d quarter turns. */
  method TurnHeading(sx0: int, sy0: int, d: nat) returns (sx: int, sy: int)
    ensures Dir(sx, sy) == TurnDir(Dir(sx0, sy0), d)
  {
    sx, sy := sx0, sy0;
    var t := 0;
    var tmp: int;
    while t < d
      invariant 0 <= t <= d
      invariant Dir(sx, sy) == TurnDir(Dir(sx0, sy0), t)
    {
      tmp := sy;
      sy := sx;
      sx := -tmp;
      t := t + 1;
    }
  }

  /**
    The inset of a diagonal spoke's origin by `delta = lw - w`: `iy -= dy*delta`
    (and `ix += dx*delta` when rel is 3) on even sides, `ix -= dx*delta` (and
    `iy += dy*delta` when rel is 3) on odd ones: the statements whose reference
    definition is Tiles.Inset.
   */
  method InsetOrigin(d: nat, rel: nat, ix0: int, iy0: int, dx: int, dy: int, delta: int) returns (ix: int, iy: int)
    requires Unit(dx) && Unit(dy)
    ensures Pose(ix, iy, dx, dy) == Inset(Pose(ix0, iy0, dx, dy), d, rel, delta)
  {
    ix, iy := ix0, iy0;
    MoveBy(ix, dx, delta);
    MoveBy(iy, dy, delta);
    if d % 2 == 0 {
      iy := iy - dy * delta;
      if rel == 3 {
        ix := ix + dx * delta;
      }
    } else {
      ix := ix - dx * delta;
      if rel == 3 {
        iy := iy + dy * delta;
      }
    }
  }

  /**
    One iteration of the third loop of `piece`: the spoke from side d to side o
    in colour c[d]. Returns the origin after the diagonal inset has been undone.
   */
  method DrawSpoke(f: Frame, g: Geometry, c: array<Pixel>, d: nat, o: nat, ix0: int, iy0: int, dx: int, dy: int)
    returns (ix: int, iy: int)
    requires ValidGeometry(g) && f.Valid() && f.width == Size(g) && f.height == Size(g)
    requires d < 4 && o < 4 && c.Length == 4 && c != f.pixels
    requires Pose(ix0, iy0, dx, dy) == TurnN(Size(g), SpokeStart(g), d)
    modifies f.pixels
    ensures ix == ix0 && iy == iy0
    ensures forall x: nat, y: nat :: x < Size(g) && y < Size(g) ==>
      f.Get(x, y) == if InSpoke(g, Rel(o, d), d, x, y) then c[d] else old(f.Get(x, y))
  {
    var n: int := Size(g);
    var rel, sx, sy, steps, w;
    rel, ix, iy, sx, sy, steps, w := SpokeSetup(g, d, o, ix0, iy0, dx, dy);
    TurnNUnit(n, SpokeStart(g), d);
    StepsNonNegative(g, rel, d);
    ghost var s := Spoke(Pose(ix, iy, dx, dy), Dir(sx, sy), steps, w);
    forall px: int, py: int | InRun(s, px, py)
      ensures 0 <= px < n && 0 <= py < n
    {
      SpokeInTile(g, rel, d, px, py);
    }
    FillSquares(f, s, ix, iy, dx, dy, sx, sy, steps, w, c[d]);
    if sx != 0 && sy != 0 {
      MoveBy(ix, dx, g.lw - w);
      MoveBy(iy, dy, g.lw - w);
      InsetUndo(Pose(ix0, iy0, dx, dy), d, rel, g.lw - w);
      if d % 2 == 0 {
        iy := iy + dy * (g.lw - w);
        if rel == 3 {
          ix := ix - dx * (g.lw - w);
        }
      } else {
        ix := ix + dx * (g.lw - w);
        if rel == 3 {
          iy := iy - dy * (g.lw - w);
        }
      }
    }
  }

  /**
    `for i < steps + 1: for x < w: for y < w: rows[iy + i*sy + y*dy][ix + i*sx + x*dx] = col`:
    sets the squares of the spoke to col and leaves every other pixel as it was.
   */
  method FillSquares(f: Frame, ghost s: Spoke, ix: int, iy: int, dx: int, dy: int, sx: int, sy: int, steps: int, w: nat, col: Pixel)
    requires f.Valid() && Unit(dx) && Unit(dy) && steps >= 0
    requires s == Spoke(Pose(ix, iy, dx, dy), Dir(sx, sy), steps, w)
    requires forall px: int, py: int :: InRun(s, px, py) ==> 0 <= px < f.width && 0 <= py < f.height
    modifies f.pixels
    ensures forall x: nat, y: nat :: x < f.width && y < f.height ==>
      f.Get(x, y) == if InRun(s, x, y) then col else old(f.Get(x, y))
  {
    var i := 0;
    while i < steps + 1
      invariant 0 <= i <= steps + 1
      invariant forall x: nat, y: nat :: x < f.width && y < f.height ==>
        f.Get(x, y) == if InSquares(s, i, x, y) then col else old(f.Get(x, y))
    {
      forall px: int, py: int | InRect(SquareAt(s, i), w, w, px, py)
        ensures 0 <= px < f.width && 0 <= py < f.height
      {
        SquareInSquares(s, i, steps + 1, px, py);
        assert InRun(s, px, py);
      }
      assert SquareAt(s, i) == Pose(ix + i * sx, iy + i * sy, dx, dy);
      FillRect(f, Pose(ix + i * sx, iy + i * sy, dx, dy), w, w, col);
      i := i + 1;
    }
  }

  /** The third loop of `piece`: spoke d from entry d to exit p[d], in colour c[d]. */
  method Spokes(f: Frame, g: Geometry, p: array<nat>, c: array<Pixel>)
    requires ValidGeometry(g) && f.Valid() && f.width == Size(g) && f.height == Size(g)
    requires IsRouting(p[..]) && c.Length == 4 && c != f.pixels
    requires HoldsLayers(f, g, p[..], c[..], 8)
    modifies f.pixels
    ensures HoldsLayers(f, g, p[..], c[..], 12)
  {
    var n: int := Size(g);
    var tmp: int;
    var ix: int, iy: int := g.sep, g.sl;
    var dx, dy := 1, 1;
    var d := 0;
    while d < 4
      invariant 0 <= d <= 4
      invariant Pose(ix, iy, dx, dy) == TurnN(n, SpokeStart(g), d)
      invariant HoldsLayers(f, g, p[..], c[..], 8 + d)
    {
      ix, iy := DrawSpoke(f, g, c, d, p[d], ix, iy, dx, dy);
      assert HoldsLayers(f, g, p[..], c[..], 8 + d + 1);
      tmp := dy;
      dy := dx;
      dx := -tmp;
      tmp := iy;
      iy := ix;
      ix := n - 1 - tmp;
      d := d + 1;
    }
  }

  /**
    `piece<lw, sep, sl>(p, c)`: a new n x n frame holding the tile of routing p
    and colours c.
   */
  method Piece(g: Geometry, p: array<nat>, c: array<Pixel>) returns (f: Frame)
    requires ValidGeometry(g) && IsRouting(p[..]) && c.Length == 4
    ensures fresh(f) && fresh(f.pixels) && f.Valid() && f.width == Size(g) && f.height == Size(g)
    ensures forall x: nat, y: nat :: x < Size(g) && y < Size(g) ==> f.Get(x, y) == Tile(g, p[..], c[..], x, y)
  {
    var n := Size(g);
    var pInv := InvertRouting(p);
    f := new Frame(n, n);
    f.Paint((x: nat, y: nat) => Background(n, n, 3, x, y));
    var iy, dx, dy, tlw, tsl := EntryTabs(f, g, p[..], c);
    ExitTabs(f, g, p[..], c, pInv, iy, dx, dy, tlw, tsl);
    Spokes(f, g, p, c);
  }
}
