/**
  The placement loop of the random pattern: an `n*ps x m*ps` frame in which
  tile (i, j), rasterised by `piece` from its own routing and colours, is
  painted through the view of size `ps x ps` at `(i*ps, j*ps)`.
 */
module Pattern {
  import opened Pixels
  import opened Frames
  import opened Tiles
  import opened Rasteriser

  /** `i * ps`, the offset of slot i when slots are ps wide, counted slot by slot. */
  function Origin(ps: nat, i: nat): nat {
    if i == 0 then 0 else Origin(ps, i - 1) + ps
  }

  lemma {:induction false} OriginIsProduct(ps: nat, i: nat)
    ensures Origin(ps, i) == i * ps
  {
    if i > 0 {
      OriginIsProduct(ps, i - 1);
      assert i * ps == (i - 1) * ps + ps;
    }
  }

  /** Slots follow one another without overlap: slot a ends where a later slot i may start. */
  lemma {:induction false} OriginsApart(ps: nat, a: nat, i: nat)
    requires a < i
    ensures Origin(ps, a) + ps <= Origin(ps, i)
  {
    if a < i - 1 {
      OriginsApart(ps, a, i - 1);
    }
  }

  /** Slot i of n slots lies inside the n slots. */
  lemma SlotInRange(ps: nat, n: nat, i: nat)
    requires i < n
    ensures Origin(ps, i) + ps <= n * ps
  {
    if i < n - 1 {
      OriginsApart(ps, i, n - 1);
    }
    OriginIsProduct(ps, n - 1);
    assert (n - 1) * ps + ps == n * ps;
  }

  /** Pixel (x, y) lies in the ps x ps box with origin (x0, y0). */
  ghost predicate InBox(x0: nat, y0: nat, ps: nat, x: nat, y: nat) {
    x0 <= x < x0 + ps && y0 <= y < y0 + ps
  }

  /** The routings and colours of an n x m grid of tiles, indexed `[i][j]`. */
  ghost predicate WellFormed(n: nat, m: nat, pieces: seq<seq<seq<nat>>>, colors: seq<seq<seq<Pixel>>>) {
    && |pieces| == n && |colors| == n
    && (forall i :: 0 <= i < n ==> |pieces[i]| == m && |colors[i]| == m)
    && (forall i, j :: 0 <= i < n && 0 <= j < m ==> IsRouting(pieces[i][j]) && |colors[i][j]| == 4)
  }

  /** The box with origin (x0, y0) of the pattern holds the tile of routing p and colours c. */
  ghost predicate HoldsTile(pattern: Frame, g: Geometry, x0: nat, y0: nat, p: seq<nat>, c: seq<Pixel>)
    requires pattern.Valid() && |p| == 4 && |c| == 4 && forall d :: 0 <= d < 4 ==> p[d] < 4
    reads pattern, pattern.rows, pattern.pixels
  {
    forall x: nat, y: nat :: x < Size(g) && y < Size(g) ==> HoldsTileAt(pattern, g, x0, y0, p, c, x, y)
  }

  /** Local pixel (x, y) of the box with origin (x0, y0) holds pixel (x, y) of the tile. */
  ghost predicate HoldsTileAt(pattern: Frame, g: Geometry, x0: nat, y0: nat, p: seq<nat>, c: seq<Pixel>, x: nat, y: nat)
    requires pattern.Valid() && |p| == 4 && |c| == 4 && forall d :: 0 <= d < 4 ==> p[d] < 4
    reads pattern, pattern.rows, pattern.pixels
  {
    x0 + x < pattern.width && y0 + y < pattern.height &&
    pattern.Get(x0 + x, y0 + y) == Tile(g, p, c, x, y)
  }

  /** The box of size ps at (x0, y0) holds what the painter gives at each local pixel. */
  ghost predicate Shows(pattern: Frame, x0: nat, y0: nat, ps: nat, painter: Painter)
    requires pattern.Valid()
    reads pattern, pattern.rows, pattern.pixels
  {
    forall x: nat, y: nat :: x < ps && y < ps ==> ShowsAt(pattern, x0, y0, painter, x, y)
  }

  /** Local pixel (x, y) of the box with origin (x0, y0) is what the painter gives there. */
  ghost predicate ShowsAt(pattern: Frame, x0: nat, y0: nat, painter: Painter, x: nat, y: nat)
    requires pattern.Valid()
    reads pattern, pattern.rows, pattern.pixels
  {
    x0 + x < pattern.width && y0 + y < pattern.height &&
    pattern.Get(x0 + x, y0 + y) == painter(x, y)
  }

  /** The painter gives the tile of routing p and colours c at every pixel of the tile. */
  ghost predicate PaintsTile(painter: Painter, g: Geometry, p: seq<nat>, c: seq<Pixel>)
    requires |p| == 4 && |c| == 4 && forall d :: 0 <= d < 4 ==> p[d] < 4
  {
    forall x: nat, y: nat :: x < Size(g) && y < Size(g) ==> painter(x, y) == Tile(g, p, c, x, y)
  }

  /** A box that shows a painter of the tile holds the tile. */
  lemma ShowsTile(pattern: Frame, g: Geometry, x0: nat, y0: nat, painter: Painter, p: seq<nat>, c: seq<Pixel>)
    requires pattern.Valid() && |p| == 4 && |c| == 4 && forall d :: 0 <= d < 4 ==> p[d] < 4
    requires Shows(pattern, x0, y0, Size(g), painter) && PaintsTile(painter, g, p, c)
    ensures HoldsTile(pattern, g, x0, y0, p, c)
  {
    forall x: nat, y: nat | x < Size(g) && y < Size(g)
      ensures HoldsTileAt(pattern, g, x0, y0, p, c, x, y)
    {
      assert ShowsAt(pattern, x0, y0, painter, x, y);
    }
  }

  /**
    `pattern_piece` used as a painter: `paint(x, y)` of the tile frame, read from
    the pixels the tile holds.
   */
  method Snapshot(tile: Frame) returns (painter: Painter)
    requires tile.Valid()
    ensures forall x: nat, y: nat :: x < tile.width && y < tile.height ==> painter(x, y) == tile.Get(x, y)
  {
    var w := tile.width;
    var snap := tile.pixels[..];
    painter := (x: nat, y: nat) => if y * w + x < |snap| then snap[y * w + x] else Grey;
    forall x: nat, y: nat | x < w && y < tile.height
      ensures painter(x, y) == tile.Get(x, y)
    {
      FlatIndexInRange(w, tile.height, x, y);
    }
  }

  /** `piece<lw, sep, sl>(p, c)` as the painter `pattern_piece`. */
  method PiecePainter(g: Geometry, p: seq<nat>, c: seq<Pixel>) returns (painter: Painter)
    requires ValidGeometry(g) && IsRouting(p) && |c| == 4
    ensures PaintsTile(painter, g, p, c)
  {
    var pa := new nat[4](k => if 0 <= k < |p| then p[k] else 0);
    var ca := new Pixel[4](k => if 0 <= k < |c| then c[k] else Grey);
    assert pa[..] == p && ca[..] == c;
    var tile := Piece(g, pa, ca);
    painter := Snapshot(tile);
    forall x: nat, y: nat | x < Size(g) && y < Size(g)
      ensures painter(x, y) == Tile(g, p, c, x, y)
    {
      ghost var shade := tile.Get(x, y);
      assert painter(x, y) == shade;
    }
  }

  /** Two ps x ps boxes with these origins do not overlap. */
  predicate Apart(x0: nat, y0: nat, x1: nat, y1: nat, ps: nat) {
    x0 + ps <= x1 || x1 + ps <= x0 || y0 + ps <= y1 || y1 + ps <= y0
  }

  /**
    `pattern.view(x0, y0, ps, ps).paint(painter)`, the body of the placement loop: the box
    then shows the painter, every pixel outside it is as it was, and so every box apart
    from it shows what it showed before.
   */
  method PlaceTile(pattern: Frame, x0: nat, y0: nat, ps: nat, painter: Painter)
    requires pattern.Valid() && x0 + ps <= pattern.width && y0 + ps <= pattern.height
    modifies pattern.pixels
    ensures pattern.Valid() && Shows(pattern, x0, y0, ps, painter)
    ensures forall x: nat, y: nat :: x < pattern.width && y < pattern.height && !InBox(x0, y0, ps, x, y) ==>
      pattern.Get(x, y) == old(pattern.Get(x, y))
    ensures forall x1: nat, y1: nat, f: Painter ::
      Apart(x1, y1, x0, y0, ps) && old(Shows(pattern, x1, y1, ps, f)) ==> Shows(pattern, x1, y1, ps, f)
  {
    var v := pattern.View(x0, y0, ps, ps);
    v.Paint(painter);
    forall x: nat, y: nat | x < ps && y < ps
      ensures ShowsAt(pattern, x0, y0, painter, x, y)
    {
    }
    forall x1: nat, y1: nat, f: Painter | Apart(x1, y1, x0, y0, ps) && old(Shows(pattern, x1, y1, ps, f))
      ensures Shows(pattern, x1, y1, ps, f)
    {
      forall x: nat, y: nat | x < ps && y < ps
        ensures ShowsAt(pattern, x1, y1, f, x, y)
      {
        assert old(ShowsAt(pattern, x1, y1, f, x, y));
        assert !InBox(x0, y0, ps, x1 + x, y1 + y);
      }
    }
  }

  /** Slot (a, b) shows the painter recorded for it in shown, which paints the tile of p and c. */
  ghost predicate Placed(pattern: Frame, g: Geometry, a: nat, b: nat, shown: map<(nat, nat), Painter>,
                         p: seq<nat>, c: seq<Pixel>)
    requires pattern.Valid()
    reads pattern, pattern.rows, pattern.pixels
  {
    && (a, b) in shown
    && Shows(pattern, Origin(Size(g), a), Origin(Size(g), b), Size(g), shown[(a, b)])
    && IsRouting(p) && |c| == 4
    && PaintsTile(shown[(a, b)], g, p, c)
  }

  /** A placed slot holds its tile at `(a * ps, b * ps)`. */
  lemma PlacedHolds(pattern: Frame, g: Geometry, a: nat, b: nat, shown: map<(nat, nat), Painter>,
                    p: seq<nat>, c: seq<Pixel>)
    requires pattern.Valid() && Placed(pattern, g, a, b, shown, p, c)
    ensures HoldsTile(pattern, g, a * Size(g), b * Size(g), p, c)
  {
    OriginIsProduct(Size(g), a);
    OriginIsProduct(Size(g), b);
    ShowsTile(pattern, g, Origin(Size(g), a), Origin(Size(g), b), shown[(a, b)], p, c);
  }

  /** When every slot is placed, every slot holds its tile. */
  lemma AllPlacedHold(pattern: Frame, g: Geometry, n: nat, m: nat, shown: map<(nat, nat), Painter>,
                      pieces: seq<seq<seq<nat>>>, colors: seq<seq<seq<Pixel>>>)
    requires pattern.Valid() && WellFormed(n, m, pieces, colors)
    requires forall a, b :: 0 <= a < n && 0 <= b < m ==> Placed(pattern, g, a, b, shown, pieces[a][b], colors[a][b])
    ensures forall a, b :: 0 <= a < n && 0 <= b < m ==>
      HoldsTile(pattern, g, a * Size(g), b * Size(g), pieces[a][b], colors[a][b])
  {
    forall a, b | 0 <= a < n && 0 <= b < m
      ensures HoldsTile(pattern, g, a * Size(g), b * Size(g), pieces[a][b], colors[a][b])
    {
      PlacedHolds(pattern, g, a, b, shown, pieces[a][b], colors[a][b]);
    }
  }

  /** Slots (a, b) and (i, j) of width ps do not overlap unless they are the same. */
  lemma SlotsApart(ps: nat, a: nat, b: nat, i: nat, j: nat)
    requires a != i || b != j
    ensures Apart(Origin(ps, a), Origin(ps, b), Origin(ps, i), Origin(ps, j), ps)
  {
    if a < i {
      OriginsApart(ps, a, i);
    } else if i < a {
      OriginsApart(ps, i, a);
    } else if b < j {
      OriginsApart(ps, b, j);
    } else {
      OriginsApart(ps, j, b);
    }
  }

  /**
    One step of the placement loop: slot (i, j) gets the tile of its routing and colours,
    and every slot placed before it stays placed.
   */
  method PlaceSlot(pattern: Frame, g: Geometry, n: nat, m: nat, i: nat, j: nat, ghost shown: map<(nat, nat), Painter>,
                   pieces: seq<seq<seq<nat>>>, colors: seq<seq<seq<Pixel>>>) returns (ghost painter: Painter)
    requires ValidGeometry(g) && pattern.Valid()
    requires pattern.width == n * Size(g) && pattern.height == m * Size(g)
    requires WellFormed(n, m, pieces, colors) && i < n && j < m
    requires forall a, b :: 0 <= a < n && 0 <= b < m && (a < i || (a == i && b < j)) ==>
      Placed(pattern, g, a, b, shown, pieces[a][b], colors[a][b])
    modifies pattern.pixels
    ensures pattern.Valid()
    ensures forall a, b :: 0 <= a < n && 0 <= b < m && (a < i || (a == i && b <= j)) ==>
      Placed(pattern, g, a, b, shown[(i, j) := painter], pieces[a][b], colors[a][b])
  {
    var ps := Size(g);
    var shade := PiecePainter(g, pieces[i][j], colors[i][j]);
    SlotInRange(ps, n, i);
    SlotInRange(ps, m, j);
    OriginIsProduct(ps, i);
    OriginIsProduct(ps, j);
    PlaceTile(pattern, i * ps, j * ps, ps, shade);
    painter := shade;
    forall a, b | 0 <= a < n && 0 <= b < m && (a < i || (a == i && b < j))
      ensures Placed(pattern, g, a, b, shown[(i, j) := painter], pieces[a][b], colors[a][b])
    {
      SlotsApart(ps, a, b, i, j);
    }
  }

  /**
    `for i < n: for j < m: pattern.view(i*ps, j*ps, ps, ps).paint(piece(pieces[i][j],
    colors[i][j]))`: every slot of the pattern holds the tile of its own routing and
    colours.
   */
  method PlacePieces(pattern: Frame, g: Geometry, n: nat, m: nat,
                     pieces: seq<seq<seq<nat>>>, colors: seq<seq<seq<Pixel>>>)
    requires ValidGeometry(g) && pattern.Valid()
    requires pattern.width == n * Size(g) && pattern.height == m * Size(g)
    requires WellFormed(n, m, pieces, colors)
    modifies pattern.pixels
    ensures pattern.Valid()
    ensures forall a, b :: 0 <= a < n && 0 <= b < m ==>
      HoldsTile(pattern, g, a * Size(g), b * Size(g), pieces[a][b], colors[a][b])
  {
    ghost var shown: map<(nat, nat), Painter> := map[];
    for i := 0 to n
      invariant pattern.Valid()
      invariant forall a, b :: 0 <= a < i && 0 <= b < m ==> Placed(pattern, g, a, b, shown, pieces[a][b], colors[a][b])
    {
      for j := 0 to m
        invariant pattern.Valid()
        invariant forall a, b :: 0 <= a < n && 0 <= b < m && (a < i || (a == i && b < j)) ==>
          Placed(pattern, g, a, b, shown, pieces[a][b], colors[a][b])
      {
        var painter := PlaceSlot(pattern, g, n, m, i, j, shown, pieces, colors);
        shown := shown[(i, j) := painter];
      }
    }
    AllPlacedHold(pattern, g, n, m, shown, pieces, colors);
  }
}
