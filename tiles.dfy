/**
  What a tile looks like. A tile of side n = 2*lw + 3*sep is a bordered
  background over which twelve layers are drawn in order, each in one colour,
  the last layer to cover a pixel deciding its colour:

    - 4 entry tabs, tab d coloured c[d];
    - 4 exit tabs with their notch triangles, exit d coloured c[p_inv[d]];
    - 4 spokes, spoke d coloured c[d], leaving entry d towards exit p[d].

  Side d is drawn in a local frame (a Pose) obtained from the frame of side 0
  by d quarter turns. Shapes are described by membership predicates over the
  pixel grid; the rasteriser in module Rasteriser is proved to draw exactly them.
 */
module Tiles {
  import opened Pixels
  import Draws

  /** The template parameters of `piece<lw, sep, sl>`: line width, separation, tab length. */
  datatype Geometry = Geometry(lw: nat, sep: nat, sl: nat)

  /** The values `piece_main` and `rand_main` use. */
  const Default := Geometry(30, 100, 50)

  /** Side length of a tile. */
  function Size(g: Geometry): nat {
    2 * g.lw + 3 * g.sep
  }

  // ---------------------------------------------------------------------------
  // The diagonal line width ⌊lw / √2⌋ + 1, in integers

  /** The largest r >= k with 2 r^2 <= lw^2, searching upwards from k. */
  function HalfRootFrom(lw: nat, k: nat): (r: nat)
    requires 2 * k * k <= lw * lw
    ensures 2 * r * r <= lw * lw < 2 * (r + 1) * (r + 1)
    decreases lw - k
  {
    if 2 * (k + 1) * (k + 1) > lw * lw then k
    else
      SquareBelow(k + 1, lw);
      HalfRootFrom(lw, k + 1)
  }

  /** A square at most lw^2 / 2 has a root below lw, for lw >= 1. */
  lemma SquareBelow(k: nat, lw: nat)
    requires 2 * k * k <= lw * lw && k > 0
    ensures k < lw
  {
  }

  /** `(int)(lw / sqrt(2))`: the largest r with r * sqrt(2) <= lw. */
  function HalfRoot(lw: nat): (r: nat)
    ensures 2 * r * r <= lw * lw < 2 * (r + 1) * (r + 1)
  {
    HalfRootFrom(lw, 0)
  }

  /** The width `w` of a diagonal spoke, `(int)(lw / sqrt(2)) + 1`. */
  function DiagonalWidth(lw: nat): (w: nat)
    ensures w >= 1 && 2 * (w - 1) * (w - 1) <= lw * lw < 2 * w * w
    ensures lw >= 1 ==> w <= lw
  {
    var r := HalfRoot(lw);
    assert lw >= 1 ==> r + 1 <= lw by {
      if r > 0 {
        SquareBelow(r, lw);
      }
    }
    r + 1
  }

  /** For the default line width 30 the diagonal width is 22. */
  lemma DefaultDiagonalWidth()
    ensures DiagonalWidth(Default.lw) == 22
  {
    DiagonalWidthUnique(Default.lw, 22);
  }

  /** The diagonal width is the only w >= 1 with 2 (w - 1)^2 <= lw^2 < 2 w^2. */
  lemma DiagonalWidthUnique(lw: nat, w: nat)
    requires w >= 1 && 2 * (w - 1) * (w - 1) <= lw * lw < 2 * w * w
    ensures DiagonalWidth(lw) == w
  {
    var v := DiagonalWidth(lw);
    if v < w {
      MulLe(v, w - 1);
    } else if w < v {
      MulLe(w, v - 1);
    }
  }

  lemma MulLe(a: nat, b: nat)
    requires a <= b
    ensures 2 * a * a <= 2 * b * b
  {
    assert a * a <= a * b <= b * b;
  }

  /**
    What the rasteriser needs of its parameters for every pixel write to fall
    inside the n x n tile (`piece` does not check any of it).
   */
  predicate ValidGeometry(g: Geometry) {
    && g.lw >= 1
    && g.sl <= g.sep
    && g.lw <= g.sep + 1
    && g.lw - DiagonalWidth(g.lw) <= g.sl
  }

  lemma DefaultIsValid()
    ensures ValidGeometry(Default)
  {
    DefaultDiagonalWidth();
  }

  // ---------------------------------------------------------------------------
  // Local frames and quarter turns

  /** A unit step: 1 or -1. */
  predicate Unit(d: int) {
    d == 1 || d == -1
  }

  /** The local frame of a side: origin (ix, iy) and axis directions dx, dy. */
  datatype Pose = Pose(ix: int, iy: int, dx: int, dy: int)

  predicate UnitPose(q: Pose) {
    Unit(q.dx) && Unit(q.dy)
  }

  /** `o + k * d` for a unit d. */
  function Move(o: int, d: int, k: int): int {
    if d < 0 then o - k else o + k
  }

  /** The local coordinate of v along an axis with origin o and direction d: the k with v == o + k * d. */
  function Along(o: int, d: int, v: int): int {
    if d < 0 then o - v else v - o
  }

  lemma AlongMove(o: int, d: int, k: int)
    requires Unit(d)
    ensures Along(o, d, o + k * d) == k && Move(o, d, k) == o + k * d
  {
  }

  /**
    The quarter turn applied after each side: `(dx, dy) -> (-dy, dx)` and
    `(ix, iy) -> (n - 1 - iy, ix)`.
   */
  function Turn(n: int, q: Pose): Pose {
    Pose(n - 1 - q.iy, q.ix, -q.dy, q.dx)
  }

  /** k quarter turns. */
  function TurnN(n: int, q: Pose, k: nat): Pose {
    if k == 0 then q else Turn(n, TurnN(n, q, k - 1))
  }

  /** Four quarter turns bring every frame back to where it started. */
  lemma TurnFour(n: int, q: Pose)
    ensures TurnN(n, q, 4) == q
  {
    assert TurnN(n, q, 1) == Turn(n, q);
    assert TurnN(n, q, 2) == Pose(n - 1 - q.ix, n - 1 - q.iy, -q.dx, -q.dy);
    assert TurnN(n, q, 3) == Pose(q.iy, n - 1 - q.ix, q.dy, -q.dx);
  }

  lemma {:induction false} TurnNUnit(n: int, q: Pose, k: nat)
    requires UnitPose(q)
    ensures UnitPose(TurnN(n, q, k))
  {
    if k > 0 {
      TurnNUnit(n, q, k - 1);
    }
  }

  /**
    The two coordinates seen from a turned frame: the point (n - 1 - y, x), the
    image of (x, y) under the quarter turn, has in Turn(q) the local
    coordinates that (x, y) has in q, with the axes exchanged.
   */
  lemma AlongTurn(n: int, q: Pose, x: int, y: int)
    requires UnitPose(q)
    ensures var t := Turn(n, q);
      Along(t.ix, t.dx, n - 1 - y) == Along(q.iy, q.dy, y) && Along(t.iy, t.dy, x) == Along(q.ix, q.dx, x)
  {
  }

  // ---------------------------------------------------------------------------
  // Shapes

  /** `for x < w: for y < h: pixel(ix + x*dx, iy + y*dy)`: a w x h rectangle. */
  predicate InRect(q: Pose, w: int, h: int, x: int, y: int) {
    0 <= Along(q.ix, q.dx, x) < w && 0 <= Along(q.iy, q.dy, y) < h
  }

  /**
    The `bx` notch loop: for 1 <= i < b and j < i, the pixels
    `(ix - (j+1)*dx, iy + i*dy)` and `(ix + (lw+j)*dx, iy + i*dy)`: two
    staircase triangles either side of the tab.
   */
  predicate InNotchX(q: Pose, b: int, lw: int, x: int, y: int) {
    var u, v := Along(q.ix, q.dx, x), Along(q.iy, q.dy, y);
    1 <= v < b && (-v <= u <= -1 || lw <= u < lw + v)
  }

  /** The `by` notch loop: the same triangles with the roles of the two axes exchanged. */
  predicate InNotchY(q: Pose, b: int, lw: int, x: int, y: int) {
    var u, v := Along(q.ix, q.dx, x), Along(q.iy, q.dy, y);
    1 <= u < b && (-u <= v <= -1 || lw <= v < lw + u)
  }

  lemma RectTurn(n: int, q: Pose, w: int, h: int, x: int, y: int)
    requires UnitPose(q)
    ensures InRect(Turn(n, q), h, w, n - 1 - y, x) == InRect(q, w, h, x, y)
  {
    AlongTurn(n, q, x, y);
  }

  lemma NotchTurn(n: int, q: Pose, b: int, lw: int, x: int, y: int)
    requires UnitPose(q)
    ensures InNotchX(Turn(n, q), b, lw, n - 1 - y, x) == InNotchY(q, b, lw, x, y)
    ensures InNotchY(Turn(n, q), b, lw, n - 1 - y, x) == InNotchX(q, b, lw, x, y)
  {
    AlongTurn(n, q, x, y);
  }

  // ---------------------------------------------------------------------------
  // Tabs

  /** Where the entry-tab loop starts: `ix = sep, iy = 0, dx = dy = 1`. */
  function EntryStart(g: Geometry): Pose {
    Pose(g.sep, 0, 1, 1)
  }

  /** Where the exit-tab loop starts: `ix = n - sep - lw`, iy left at 0. */
  function ExitStart(g: Geometry): Pose {
    Pose(Size(g) - g.sep - g.lw, 0, 1, 1)
  }

  /** `tlw` and `tsl` at side d: lw and sl, exchanged after every side. */
  function TabWidth(g: Geometry, d: nat): nat {
    if d % 2 == 0 then g.lw else g.sl
  }

  function TabHeight(g: Geometry, d: nat): nat {
    if d % 2 == 0 then g.sl else g.lw
  }

  /** `bx` and `by` at side d: lw and 0, exchanged after every side. */
  function NotchX(g: Geometry, d: nat): nat {
    if d % 2 == 0 then g.lw else 0
  }

  function NotchY(g: Geometry, d: nat): nat {
    if d % 2 == 0 then 0 else g.lw
  }

  /** The entry tab of side d. */
  predicate InEntry(g: Geometry, d: nat, x: int, y: int) {
    InRect(TurnN(Size(g), EntryStart(g), d), TabWidth(g, d), TabHeight(g, d), x, y)
  }

  /** The exit tab of side d with its two notch loops. */
  predicate InExit(g: Geometry, d: nat, x: int, y: int) {
    var q := TurnN(Size(g), ExitStart(g), d);
    || InNotchX(q, NotchX(g, d), g.lw, x, y)
    || InNotchY(q, NotchY(g, d), g.lw, x, y)
    || InRect(q, TabWidth(g, d), TabHeight(g, d), x, y)
  }

  /** Side d + 1 is the quarter-turned image of side d. */
  lemma EntryTurn(g: Geometry, d: nat, x: int, y: int)
    ensures InEntry(g, d + 1, Size(g) - 1 - y, x) == InEntry(g, d, x, y)
  {
    TurnNUnit(Size(g), EntryStart(g), d);
    RectTurn(Size(g), TurnN(Size(g), EntryStart(g), d), TabWidth(g, d), TabHeight(g, d), x, y);
  }

  lemma ExitTurn(g: Geometry, d: nat, x: int, y: int)
    ensures InExit(g, d + 1, Size(g) - 1 - y, x) == InExit(g, d, x, y)
  {
    var n, q := Size(g), TurnN(Size(g), ExitStart(g), d);
    TurnNUnit(n, ExitStart(g), d);
    RectTurn(n, q, TabWidth(g, d), TabHeight(g, d), x, y);
    NotchTurn(n, q, NotchX(g, d), g.lw, x, y);
    NotchTurn(n, q, NotchY(g, d), g.lw, x, y);
  }

  // ---------------------------------------------------------------------------
  // Spokes

  /** A step direction `(sx, sy)`. */
  datatype Dir = Dir(x: int, y: int)

  predicate Diagonal(v: Dir) {
    v.x != 0 && v.y != 0
  }

  /** Where the spoke loop starts: `ix = sep, iy = sl, dx = dy = 1`. */
  function SpokeStart(g: Geometry): Pose {
    Pose(g.sep, g.sl, 1, 1)
  }

  /** `rel = (p[d] - d + 4) % 4`: how many sides on from d the spoke's exit lies. */
  function Rel(o: nat, d: nat): (r: nat)
    requires o < 4 && d < 4
    ensures r < 4 && (d + r) % 4 == o
  {
    (o - d + 4) % 4
  }

  /** The `switch (rel)`: the step direction at side 0. */
  function BaseDir(r: nat): Dir
    requires r < 4
  {
    if r == 0 then Dir(1, 0)
    else if r == 1 then Dir(1, 1)
    else if r == 2 then Dir(0, 1)
    else Dir(-1, 1)
  }

  /** The `switch (rel)`: the number of steps before any diagonal adjustment. */
  function BaseSteps(g: Geometry, r: nat): int
    requires r < 4
  {
    if r == 0 then g.sep + g.lw
    else if r == 1 then 2 * g.sep + g.lw - g.sl
    else if r == 2 then 3 * g.sep - 2 * g.sl + g.lw
    else g.sep - g.sl
  }

  /** The loop `for t < d: (sx, sy) = (-sy, sx)`. */
  function TurnDir(v: Dir, k: nat): Dir {
    if k == 0 then v else var u := TurnDir(v, k - 1); Dir(-u.y, u.x)
  }

  /** A spoke: `w x w` squares at `at + i * dir`, for i from 0 to steps. */
  datatype Spoke = Spoke(at: Pose, dir: Dir, steps: int, w: int)

  /**
    The origin of a diagonal spoke of side d, moved by delta: towards the
    entry tab's outer edge and, for an exit three sides on, along the tab.
   */
  function Inset(q: Pose, d: nat, r: nat, delta: int): Pose {
    if d % 2 == 0 then Pose(if r == 3 then Move(q.ix, q.dx, delta) else q.ix, Move(q.iy, q.dy, -delta), q.dx, q.dy)
    else Pose(Move(q.ix, q.dx, -delta), if r == 3 then Move(q.iy, q.dy, delta) else q.iy, q.dx, q.dy)
  }

  /** Moving by -delta undoes the inset by delta. */
  lemma InsetUndo(q: Pose, d: nat, r: nat, delta: int)
    ensures Inset(Inset(q, d, r, delta), d, r, -delta) == q
  {
  }

  /**
    The spoke of side d whose exit is r sides on: its frame is the side's frame,
    moved inwards by `lw - w` (and sideways, when r == 3) when the spoke is
    diagonal and therefore narrowed to w.
   */
  function SpokeOf(g: Geometry, r: nat, d: nat): Spoke
    requires r < 4
  {
    var q := TurnN(Size(g), SpokeStart(g), d);
    var v := TurnDir(BaseDir(r), d);
    if Diagonal(v) then
      var w := DiagonalWidth(g.lw);
      var delta := g.lw - w;
      Spoke(Inset(q, d, r, delta), v, BaseSteps(g, r) + 2 * delta, w)
    else
      Spoke(q, v, BaseSteps(g, r), g.lw)
  }

  /** The frame of square i of a spoke: `(ix + i*sx, iy + i*sy)`. */
  function SquareAt(s: Spoke, i: int): Pose {
    Pose(s.at.ix + i * s.dir.x, s.at.iy + i * s.dir.y, s.at.dx, s.at.dy)
  }

  /** The union of the first k squares of a spoke. */
  predicate InSquares(s: Spoke, k: int, x: int, y: int)
    decreases k
  {
    k > 0 && (InRect(SquareAt(s, k - 1), s.w, s.w, x, y) || InSquares(s, k - 1, x, y))
  }

  /** Spoke d of a tile whose exits are routed by p: `steps + 1` squares. */
  predicate InSpoke(g: Geometry, r: nat, d: nat, x: int, y: int)
    requires r < 4
  {
    InRun(SpokeOf(g, r, d), x, y)
  }

  /** All `steps + 1` squares of a spoke. */
  predicate InRun(s: Spoke, x: int, y: int) {
    InSquares(s, s.steps + 1, x, y)
  }

  /** The spoke is diagonal exactly when its exit is an adjacent side (rel 1 or 3), at every side. */
  lemma {:induction false} DiagonalIffAdjacent(r: nat, d: nat)
    requires r < 4
    ensures Diagonal(TurnDir(BaseDir(r), d)) <==> r % 2 == 1
  {
    if d > 0 {
      DiagonalIffAdjacent(r, d - 1);
    }
  }

  /** Step counts are never negative. */
  lemma StepsNonNegative(g: Geometry, r: nat, d: nat)
    requires ValidGeometry(g) && r < 4
    ensures SpokeOf(g, r, d).steps >= 0 && SpokeOf(g, r, d).w >= 1
  {
  }

  /** A spoke turned with its side. */
  function TurnSpoke(n: int, s: Spoke): Spoke {
    Spoke(Turn(n, s.at), Dir(-s.dir.y, s.dir.x), s.steps, s.w)
  }

  /** The spoke of side d + 1 is the spoke of side d turned, inset included. */
  lemma SpokeOfTurn(g: Geometry, r: nat, d: nat)
    requires r < 4
    ensures SpokeOf(g, r, d + 1) == TurnSpoke(Size(g), SpokeOf(g, r, d))
  {
    TurnNUnit(Size(g), SpokeStart(g), d);
    assert TurnDir(BaseDir(r), d + 1) == Dir(-TurnDir(BaseDir(r), d).y, TurnDir(BaseDir(r), d).x);
  }

  lemma {:induction false} SquaresTurn(n: int, s: Spoke, k: int, x: int, y: int)
    requires UnitPose(s.at)
    ensures InSquares(TurnSpoke(n, s), k, n - 1 - y, x) == InSquares(s, k, x, y)
    decreases k
  {
    if k > 0 {
      var t := TurnSpoke(n, s);
      assert SquareAt(t, k - 1) == Turn(n, SquareAt(s, k - 1));
      RectTurn(n, SquareAt(s, k - 1), s.w, s.w, x, y);
      SquaresTurn(n, s, k - 1, x, y);
    }
  }

  lemma SpokeTurn(g: Geometry, r: nat, d: nat, x: int, y: int)
    requires r < 4
    ensures InSpoke(g, r, d + 1, Size(g) - 1 - y, x) == InSpoke(g, r, d, x, y)
  {
    SpokeOfTurn(g, r, d);
    TurnNUnit(Size(g), SpokeStart(g), d);
    SquaresTurn(Size(g), SpokeOf(g, r, d), SpokeOf(g, r, d).steps + 1, x, y);
  }

  // ---------------------------------------------------------------------------
  // Bounds: every shape lies inside the n x n tile

  predicate InTile(g: Geometry, x: int, y: int) {
    0 <= x < Size(g) && 0 <= y < Size(g)
  }

  /** A pixel of entry tab d is a pixel of entry tab 0 turned d times, and inside the tile if that one is. */
  lemma {:induction false} EntryFromSideZero(g: Geometry, d: nat, x: int, y: int) returns (x0: int, y0: int)
    requires InEntry(g, d, x, y)
    ensures InEntry(g, 0, x0, y0) && (InTile(g, x0, y0) ==> InTile(g, x, y))
  {
    if d == 0 {
      x0, y0 := x, y;
    } else {
      var x', y' := y, Size(g) - 1 - x;
      assert Size(g) - 1 - y' == x;
      EntryTurn(g, d - 1, x', y');
      assert InEntry(g, d, x, y) == InEntry(g, d - 1, x', y');
      x0, y0 := EntryFromSideZero(g, d - 1, x', y');
    }
  }

  lemma EntryInTile(g: Geometry, d: nat, x: int, y: int)
    requires ValidGeometry(g) && InEntry(g, d, x, y)
    ensures InTile(g, x, y)
  {
    var x0, y0 := EntryFromSideZero(g, d, x, y);
  }

  /** A pixel of exit d is a pixel of exit 0 turned d times, and inside the tile if that one is. */
  lemma {:induction false} ExitFromSideZero(g: Geometry, d: nat, x: int, y: int) returns (x0: int, y0: int)
    requires InExit(g, d, x, y)
    ensures InExit(g, 0, x0, y0) && (InTile(g, x0, y0) ==> InTile(g, x, y))
  {
    if d == 0 {
      x0, y0 := x, y;
    } else {
      var x', y' := y, Size(g) - 1 - x;
      assert Size(g) - 1 - y' == x;
      ExitTurn(g, d - 1, x', y');
      assert InExit(g, d, x, y) == InExit(g, d - 1, x', y');
      x0, y0 := ExitFromSideZero(g, d - 1, x', y');
    }
  }

  lemma ExitInTile(g: Geometry, d: nat, x: int, y: int)
    requires ValidGeometry(g) && InExit(g, d, x, y)
    ensures InTile(g, x, y)
  {
    var x0, y0 := ExitFromSideZero(g, d, x, y);
  }

  /** A pixel of the first k squares lies in one of them. */
  lemma {:induction false} SquaresWitness(s: Spoke, k: int, x: int, y: int) returns (i: int)
    requires InSquares(s, k, x, y)
    ensures 0 <= i < k && InRect(SquareAt(s, i), s.w, s.w, x, y)
    decreases k
  {
    if InRect(SquareAt(s, k - 1), s.w, s.w, x, y) {
      i := k - 1;
    } else {
      i := SquaresWitness(s, k - 1, x, y);
    }
  }

  /** A square of a straight or diagonal run lies in the n x n tile when the first and the last do. */
  lemma SquareInside(n: int, s: Spoke, i: int, x: int, y: int)
    requires s.at.dx == 1 && s.at.dy == 1 && -1 <= s.dir.x <= 1 && -1 <= s.dir.y <= 1
    requires 0 <= i <= s.steps && InRect(SquareAt(s, i), s.w, s.w, x, y)
    requires 0 <= s.at.ix && s.at.ix + s.w <= n && 0 <= s.at.iy && s.at.iy + s.w <= n
    requires 0 <= s.at.ix + s.steps * s.dir.x && s.at.ix + s.steps * s.dir.x + s.w <= n
    requires 0 <= s.at.iy + s.steps * s.dir.y && s.at.iy + s.steps * s.dir.y + s.w <= n
    ensures 0 <= x < n && 0 <= y < n
  {
    if s.dir.x == 1 {
      assert i * s.dir.x == i && s.steps * s.dir.x == s.steps;
    } else if s.dir.x == -1 {
      assert i * s.dir.x == -i && s.steps * s.dir.x == -s.steps;
    } else {
      assert i * s.dir.x == 0;
    }
    if s.dir.y == 1 {
      assert i * s.dir.y == i && s.steps * s.dir.y == s.steps;
    } else if s.dir.y == -1 {
      assert i * s.dir.y == -i && s.steps * s.dir.y == -s.steps;
    } else {
      assert i * s.dir.y == 0;
    }
  }

  lemma SideZeroSpokeInTile(g: Geometry, r: nat, x: int, y: int)
    requires ValidGeometry(g) && r < 4 && InSpoke(g, r, 0, x, y)
    ensures InTile(g, x, y)
  {
    var s := SpokeOf(g, r, 0);
    var i := SquaresWitness(s, s.steps + 1, x, y);
    var w := DiagonalWidth(g.lw);
    var delta := g.lw - w;
    assert TurnN(Size(g), SpokeStart(g), 0) == SpokeStart(g);
    assert TurnDir(BaseDir(r), 0) == BaseDir(r);
    if r == 0 {
      assert s == Spoke(SpokeStart(g), Dir(1, 0), g.sep + g.lw, g.lw);
    } else if r == 1 {
      assert s == Spoke(Pose(g.sep, g.sl - delta, 1, 1), Dir(1, 1), 2 * g.sep + g.lw - g.sl + 2 * delta, w);
    } else if r == 2 {
      assert s == Spoke(SpokeStart(g), Dir(0, 1), 3 * g.sep - 2 * g.sl + g.lw, g.lw);
    } else {
      assert s == Spoke(Pose(g.sep + delta, g.sl - delta, 1, 1), Dir(-1, 1), g.sep - g.sl + 2 * delta, w);
    }
    SquareInside(Size(g), s, i, x, y);
  }

  /** A pixel of spoke d is a pixel of spoke 0 turned d times, and inside the tile if that one is. */
  lemma {:induction false} SpokeFromSideZero(g: Geometry, r: nat, d: nat, x: int, y: int) returns (x0: int, y0: int)
    requires r < 4 && InSpoke(g, r, d, x, y)
    ensures InSpoke(g, r, 0, x0, y0) && (InTile(g, x0, y0) ==> InTile(g, x, y))
  {
    if d == 0 {
      x0, y0 := x, y;
    } else {
      var x', y' := y, Size(g) - 1 - x;
      assert Size(g) - 1 - y' == x;
      SpokeTurn(g, r, d - 1, x', y');
      assert InSpoke(g, r, d, x, y) == InSpoke(g, r, d - 1, x', y');
      x0, y0 := SpokeFromSideZero(g, r, d - 1, x', y');
    }
  }

  lemma SpokeInTile(g: Geometry, r: nat, d: nat, x: int, y: int)
    requires ValidGeometry(g) && r < 4 && InSpoke(g, r, d, x, y)
    ensures InTile(g, x, y)
  {
    var x0, y0 := SpokeFromSideZero(g, r, d, x, y);
    SideZeroSpokeInTile(g, r, x0, y0);
  }

  // ---------------------------------------------------------------------------
  // Routing and colours

  /** A routing: entry d leads to exit p[d], a permutation of the four sides. */
  ghost predicate IsRouting(p: seq<nat>) {
    |p| == 4 && Draws.IsPermutation(p)
  }

  /** The side whose spoke leads to exit k. */
  function Source(p: seq<nat>, k: nat): (d: nat)
    requires |p| == 4
    ensures d < 4
    ensures (exists e :: 0 <= e < 4 && p[e] == k) ==> p[d] == k
  {
    if p[0] == k then 0 else if p[1] == k then 1 else if p[2] == k then 2 else 3
  }

  /** `p_inv`, the inverse routing. */
  function Inverse(p: seq<nat>): (q: seq<nat>)
    requires |p| == 4
    ensures |q| == 4 && forall k :: 0 <= k < 4 ==> q[k] < 4
  {
    seq(4, k requires 0 <= k < 4 => Source(p, k))
  }

  /** p_inv undoes p in both directions. */
  lemma InverseInverts(p: seq<nat>)
    requires IsRouting(p)
    ensures forall k :: 0 <= k < 4 ==> Inverse(p)[k] < 4 && p[Inverse(p)[k]] == k
    ensures forall d :: 0 <= d < 4 ==> Inverse(p)[p[d]] == d
  {
    assert p[0] < 4 && p[1] < 4 && p[2] < 4 && p[3] < 4;
    assert p[0] != p[1] && p[0] != p[2] && p[0] != p[3] && p[1] != p[2] && p[1] != p[3] && p[2] != p[3];
  }

  /** The number of layers: 4 entry tabs, 4 exits, 4 spokes. */
  const Layers := 12

  /** Layer k covers pixel (x, y). */
  predicate Covers(g: Geometry, p: seq<nat>, k: nat, x: int, y: int)
    requires |p| == 4 && (forall d :: 0 <= d < 4 ==> p[d] < 4) && k < Layers
  {
    if k < 4 then InEntry(g, k, x, y)
    else if k < 8 then InExit(g, k - 4, x, y)
    else InSpoke(g, Rel(p[k - 8], k - 8), k - 8, x, y)
  }

  /** The colour of layer k. */
  function LayerColour(p: seq<nat>, c: seq<Pixel>, k: nat): Pixel
    requires |p| == 4 && |c| == 4 && k < Layers
    requires forall d :: 0 <= d < 4 ==> p[d] < 4
  {
    if k < 4 then c[k]
    else if k < 8 then c[Inverse(p)[k - 4]]
    else c[k - 8]
  }

  /** The exit that spoke d reaches is drawn in the spoke's colour. */
  lemma ExitMatchesSpoke(p: seq<nat>, c: seq<Pixel>, d: nat)
    requires IsRouting(p) && |c| == 4 && d < 4
    ensures LayerColour(p, c, 4 + p[d]) == LayerColour(p, c, 8 + d) == c[d]
  {
    InverseInverts(p);
    assert Source(p, p[d]) == Inverse(p)[p[d]];
  }

  // ---------------------------------------------------------------------------
  // The background and the finished tile

  const Grey := Pixel(64, 64, 64)
  const White := Pixel(255, 255, 255)

  /** Subtraction of `size_t` values: modulo 2^64. */
  function SizeSub(a: nat, b: nat): nat {
    (a - b) % 0x1_0000_0000_0000_0000
  }

  /** `bg_painter<w, l, t>::paint(x, y)`. */
  function Background(w: nat, l: nat, t: nat, x: nat, y: nat): (px: Pixel)
    ensures px == Grey || px == White
  {
    if x < t || y < t || x >= SizeSub(w, t) || y >= SizeSub(l, t) then Grey else White
  }

  /**
    Inside a w x l frame, the background is grey exactly on the pixels closer
    than t to an edge, whatever the sizes (the wrap-around of `w - t` for w < t
    changes nothing there).
   */
  lemma BackgroundIsBorder(w: nat, l: nat, t: nat, x: nat, y: nat)
    requires x < w < 0x1_0000_0000_0000_0000 && y < l < 0x1_0000_0000_0000_0000
    ensures Background(w, l, t, x, y) == Grey <==> x < t || y < t || w - 1 - x < t || l - 1 - y < t
    ensures Background(w, l, t, x, y) == White <==> !(x < t || y < t || w - 1 - x < t || l - 1 - y < t)
  {
    if w >= t {
      assert SizeSub(w, t) == w - t;
    }
    if l >= t {
      assert SizeSub(l, t) == l - t;
    }
  }

  /** The tile after the first k layers have been drawn over the background. */
  function Painted(g: Geometry, p: seq<nat>, c: seq<Pixel>, k: nat, x: nat, y: nat): Pixel
    requires |p| == 4 && |c| == 4 && (forall d :: 0 <= d < 4 ==> p[d] < 4) && k <= Layers
  {
    if k == 0 then Background(Size(g), Size(g), 3, x, y)
    else if Covers(g, p, k - 1, x, y) then LayerColour(p, c, k - 1)
    else Painted(g, p, c, k - 1, x, y)
  }

  /** The finished tile `piece<lw, sep, sl>(p, c)`. */
  function Tile(g: Geometry, p: seq<nat>, c: seq<Pixel>, x: nat, y: nat): Pixel
    requires |p| == 4 && |c| == 4 && forall d :: 0 <= d < 4 ==> p[d] < 4
  {
    Painted(g, p, c, Layers, x, y)
  }

  /** Layer j is the last of the first k layers to cover (x, y). */
  predicate LastCover(g: Geometry, p: seq<nat>, j: nat, k: nat, x: int, y: int)
    requires |p| == 4 && (forall d :: 0 <= d < 4 ==> p[d] < 4) && k <= Layers
  {
    j < k && Covers(g, p, j, x, y) && forall j': nat :: j < j' < k ==> !Covers(g, p, j', x, y)
  }

  /** Every pixel of the tile is the colour of the last layer covering it, or the background. */
  lemma {:induction false} PaintedIsLastCover(g: Geometry, p: seq<nat>, c: seq<Pixel>, k: nat, x: nat, y: nat)
    requires |p| == 4 && |c| == 4 && (forall d :: 0 <= d < 4 ==> p[d] < 4) && k <= Layers
    ensures (forall j :: 0 <= j < k ==> !Covers(g, p, j, x, y)) ==>
      Painted(g, p, c, k, x, y) == Background(Size(g), Size(g), 3, x, y)
    ensures forall j: nat :: LastCover(g, p, j, k, x, y) ==> Painted(g, p, c, k, x, y) == LayerColour(p, c, j)
  {
    if k > 0 {
      PaintedIsLastCover(g, p, c, k - 1, x, y);
    }
  }

  /** Every layer lies inside the tile, so no write of the rasteriser leaves it. */
  lemma LayerInTile(g: Geometry, p: seq<nat>, k: nat, x: int, y: int)
    requires ValidGeometry(g) && |p| == 4 && (forall d :: 0 <= d < 4 ==> p[d] < 4) && k < Layers
    requires Covers(g, p, k, x, y)
    ensures InTile(g, x, y)
  {
    if k < 4 {
      EntryInTile(g, k, x, y);
    } else if k < 8 {
      ExitInTile(g, k - 4, x, y);
    } else {
      SpokeInTile(g, Rel(p[k - 8], k - 8), k - 8, x, y);
    }
  }
}
