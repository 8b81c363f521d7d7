# lfg_visuals tiles, in Dafny

lfg_visuals draws square "piece" tiles and lays them out in grids. This model covers the following parts of it.

- **The tile rasteriser `piece<lw, sep, sl>(p, c)`.** A tile is an n x n image with n = 2 lw + 3 sep. It has a grey-bordered white background (`bg_painter`). On top of that come four entry tabs, four exit tabs with their notch triangles, and four spokes. Spoke d leaves entry d and reaches exit p[d]. Module `Tiles` defines the finished tile declaratively as twelve layers drawn over the background, where the last layer covering a pixel decides its colour. Module `Rasteriser` follows the three loops of `piece` write by write through the frame's row table, and proves that the frame it returns is exactly that tile.
- **The frame and frame view classes.** These are a row-major pixel buffer with a row table, and windows onto it painted in local coordinates (module `Frames`).
- **The pixel type** (module `Pixels`).
- **The xoshiro256++ generator** `rotl` / `next` (module `Xoshiro`). The model proves that its state update is invertible, so the seed `{1, 1, 1, 1}` never reaches the all-zero fixed point.
- **`next_permutation` and `next_color_idxs`** (module `Draws`). Both work over an abstract stream of generator outputs. The model proves that `next_permutation` yields a permutation whose parity is the parity of the number of swaps, so with the default eight swaps it is always even.
- **The placement loop of `rand_main`** (module `Pattern`). Tile (i, j) is painted into the ps x ps view at (i ps, j ps) of the pattern. The model proves that afterwards every slot holds its own tile.

## Model

| member | source | states |
|---|---|---|
| Pixels.MakePixel | include/pixel.hpp:14 | the constructor stores r, g and b in that order, and a pixel is determined by its three channels |
| Pixels.Equal | include/pixel.hpp:16-18 | `==` holds exactly when the two pixels agree on every channel |
| Pixels.NotEqual | include/pixel.hpp:20-22 | `!=` is the negation of `==`, that is, some channel differs |
| Pixels.EqualIsEquivalence | include/pixel.hpp:16-18 | `==` is reflexive, symmetric and transitive |
| Frames.FlatIndexInRange | include/frame.hpp:45-47 | `y*width + x` lies inside the `width*height` buffer for every pixel of the frame |
| Frames.FlatIndexInjective | include/frame.hpp:45-47 | two pixels of a row-major frame at the same flat position are the same pixel |
| Frames.DistinctCells | include/frame.hpp:38-41 | different pixels have different flat positions, so a write to one leaves the others alone |
| Frames.Frame.Valid | include/frame.hpp:23-28 | the invariant the constructor sets up: a `width*height` buffer and a row table whose row j starts at `j*width`; kept by every method, since none of them reassigns the table |
| Frames.Frame.Get | include/frame.hpp:45-47 | `paint(x, y)` reads `_pixels[y*width + x]`; RowAt shows the row table reads the same pixel and Paint shows that Get returns what was painted |
| Frames.Frame.constructor | include/frame.hpp:23-28 | allocates a `width*height` buffer; row j of the row table starts at `j*width` |
| Frames.Frame.RowAt | include/frame.hpp:25-27 | reading through the row table gives the same pixel as `paint(x, y)` |
| Frames.Frame.Store | include/frame.hpp:40 | writing flat position `y*width + x` changes pixel (x, y) and no other |
| Frames.Frame.SetRowCell | src/main.cpp:92 | `_pixel_rows[y][x] = px` changes pixel (x, y) to px and no other |
| Frames.Frame.Paint | include/frame.hpp:34-43 | afterwards every pixel (i, j) of the frame is `p(i, j)` |
| Frames.Frame.View | include/frame.hpp:30-32 | the view has this frame as its parent, origin (i, j) and size n x m |
| Frames.FrameView.constructor | include/frame.hpp:62 | stores the parent, the origin and the size |
| Frames.FrameView.View | include/frame.hpp:64-66 | a view of a view has the same root frame and adds the offsets |
| Frames.FrameView.Get | include/frame.hpp:78-80 | local pixel (x, y) is pixel (init_i + x, init_j + y) of the parent |
| Frames.FrameView.Paint | include/frame.hpp:68-76 | every local pixel (x, y) of the window becomes `p(x, y)`, and every parent pixel outside the window keeps its value |
| Xoshiro.Rotl | src/main.cpp:19-21 | `rotl` with its two shifts, for 0 < k < 64; RotlIsRotation proves it a left rotation at the two amounts, 23 and 45, that `next()` uses |
| Xoshiro.Output | src/main.cpp:27 | the value `next()` returns, `rotl(s[0] + s[3], 23) + s[0]` modulo 2^64; Generator.Next returns it |
| Xoshiro.Step | src/main.cpp:29-38 | the state `next()` leaves; StepUnstep and UnstepStep prove it invertible |
| Xoshiro.Iterate | src/main.cpp:26-41 | the state after k calls of `next()`; NonZeroForever and SeedNeverZero are about it |
| Xoshiro.Draw | src/main.cpp:26-41 | the k-th value `next()` returns, the stream the Draws module abstracts; Generator.Next proves that call number k returns `Draw(Seed, k)` |
| Xoshiro.RotlIsRotation | src/main.cpp:19-21 | the two shifts of `rotl` are a left rotation by 23 and by 45 bits |
| Xoshiro.RotlRoundTrip | src/main.cpp:19-21 | rotations by 45 and 19 bits undo each other |
| Xoshiro.UnXorShift17Inverts | src/main.cpp:29-36 | UnXorShift17 is a right inverse of `x ^ (x << 17)` |
| Xoshiro.UnXorShift17Recovers | src/main.cpp:29-36 | UnXorShift17 is a left inverse of `x ^ (x << 17)` |
| Xoshiro.StepUnstep | src/main.cpp:26-41 | the state update of `next()` undoes Unstep |
| Xoshiro.UnstepStep | src/main.cpp:26-41 | Unstep undoes the state update of `next()` |
| Xoshiro.StepInjective | src/main.cpp:26-41 | two states that `next()` takes to the same state are equal |
| Xoshiro.ZeroIsFixed | src/main.cpp:26-41 | from the all-zero state `next()` returns 0 and stays all-zero, the reason the comment forbids that seed |
| Xoshiro.OnlyZeroReachesZero | src/main.cpp:26-41 | only the all-zero state steps to the all-zero state |
| Xoshiro.NonZeroForever | src/main.cpp:26-41 | a non-zero state stays non-zero after any number of calls |
| Xoshiro.SeedNeverZero | src/main.cpp:24 | the seed `{1, 1, 1, 1}` never reaches the all-zero state |
| Xoshiro.Generator.constructor | src/main.cpp:24 | the generator starts in state `{1, 1, 1, 1}` with no calls made |
| Xoshiro.Generator.Next | src/main.cpp:26-41 | returns `rotl(s0 + s3, 23) + s0` of the old state modulo 2^64 and moves the array to the next state; it keeps the array equal to the seed after `calls` steps, so call number k returns `Draw(Seed, k)` |
| Draws.Identity | src/main.cpp:45-46 | the identity of length n maps every i to i |
| Draws.Swap | src/main.cpp:53 | `std::swap(p[a], p[b])` exchanges the two entries and leaves every other entry alone |
| Draws.ApplySwaps | src/main.cpp:47-54 | applying transpositions keeps the length |
| Draws.IdentityHasNoInversions | src/main.cpp:45-46 | the identity has no inversions |
| Draws.AdjacentSwapInversions | src/main.cpp:53 | exchanging two different neighbours changes the number of inversions by exactly one |
| Draws.SwapByNeighbours | src/main.cpp:53 | a transposition of positions a < b is two neighbour swaps around a shorter transposition |
| Draws.SwapDistinct | src/main.cpp:53 | a swap keeps the entries pairwise different |
| Draws.SwapFlipsParity | src/main.cpp:53 | swapping two different positions of a list of distinct values flips the parity of its inversions |
| Draws.SwapSymmetric | src/main.cpp:53 | the order of the two positions does not matter |
| Draws.SwapKeepsPermutation | src/main.cpp:53 | a swap of a permutation is a permutation |
| Draws.ApplySwapsParity | src/main.cpp:45-54 | any sequence of proper transpositions of the identity gives a permutation whose inversion count has the parity of the number of transpositions |
| Draws.EightSwapsAreEven | src/main.cpp:43-54 | with the default `ITERS = 8` the permutation is always even |
| Draws.DrawPair | src/main.cpp:49-52 | a is the first draw mod N; b is the first later draw mod N that differs from a; every draw in between equals a mod N |
| Draws.Round | src/main.cpp:49-52 | one round of draws: a is the first draw mod N, b the first later one that differs from a mod N |
| Draws.RoundUnique | src/main.cpp:49-52 | where a round starts decides where it ends and which transposition it draws |
| Draws.RoundsUnique | src/main.cpp:47-54 | two runs of ITERS rounds from the same first draw use the same draws and the same transpositions |
| Draws.NextPermutation | src/main.cpp:43-55 | round r uses the draws from `starts[r]` to `starts[r+1] - 1` and draws transposition r, starting at pos and ending at next, so the draws determine the result; p ends as the identity after those transpositions, a permutation with the parity of ITERS |
| Draws.ColorPicks | src/main.cpp:57-61 | entry i is palette entry `draw(pos + i) mod D`, so it is always one of the palette's colours |
| Draws.PicksMayRepeat | src/main.cpp:57-61 | picks are made with replacement: a constant stream gives the same colour everywhere |
| Draws.PicksInPlace | src/main.cpp:57-61 | what the loop leaves when c is the palette array itself: each step reads the palette as the earlier steps left it |
| Draws.PicksInPlaceFromPalette | src/main.cpp:57-61 | even then every entry is one of the palette's original colours, and entries not yet reached are untouched |
| Draws.NextColorIdxs | src/main.cpp:57-61 | for a separate palette c ends as ColorPicks; for c the palette itself c ends as PicksInPlace of its old contents; exactly N draws are used |
| Tiles.HalfRoot | src/main.cpp:183 | `(int)(lw / sqrt(2))` is the r with 2 r^2 <= lw^2 < 2 (r+1)^2 |
| Tiles.DiagonalWidth | src/main.cpp:183 | w = HalfRoot + 1 satisfies 2 (w-1)^2 <= lw^2 < 2 w^2 and is at most lw |
| Tiles.DiagonalWidthUnique | src/main.cpp:183 | that inequality determines the diagonal width uniquely |
| Tiles.DefaultDiagonalWidth | src/main.cpp:183 | for lw = 30, w = 22 |
| Tiles.DefaultIsValid | src/main.cpp:227-229 | the parameters lw = 30, sep = 100, sl = 50 keep every write inside the tile |
| Tiles.InEntry | src/main.cpp:88-105 | the pixels of entry tab d: the `tlw x tsl` rectangle of side d's frame; EntryTurn and EntryInTile are about it |
| Tiles.InExit | src/main.cpp:107-140 | the pixels of exit d: its two notch triangles and its tab; ExitTurn and ExitInTile are about it |
| Tiles.BaseDir | src/main.cpp:150-175 | the heading `(sx, sy)` of the `switch (rel)`; DiagonalIffAdjacent is about it |
| Tiles.BaseSteps | src/main.cpp:150-175 | the step count of the `switch (rel)`; StepsNonNegative is about it |
| Tiles.SpokeOf | src/main.cpp:146-195 | spoke d's origin, heading, step count and width after the turns and the diagonal inset; SpokeOfTurn and StepsNonNegative are about it |
| Tiles.InSpoke | src/main.cpp:196-202 | the pixels of spoke d: its `steps + 1` squares of side w; SpokeTurn and SpokeInTile are about it |
| Tiles.Source | src/main.cpp:76-78 | the side whose spoke leads to exit k: a side, and one that p maps to k whenever some side does |
| Tiles.Background | src/main.cpp:63-70 | `bg_painter::paint` gives grey or white; BackgroundIsBorder says which |
| Tiles.Painted | src/main.cpp:88-222 | the tile after its first k layers; PaintedIsLastCover characterises it |
| Tiles.Tile | src/main.cpp:72-224 | what `piece` returns: all twelve layers; Rasteriser.Piece returns a frame equal to it |
| Tiles.TurnFour | src/main.cpp:96-102 | four quarter turns of the side frame bring it back to where it started |
| Tiles.TurnNUnit | src/main.cpp:96-98 | turned frames keep unit axis directions |
| Tiles.AlongTurn | src/main.cpp:96-102 | local coordinates in the turned frame are those of the pixel turned back |
| Tiles.RectTurn | src/main.cpp:90-104 | the rectangle of the turned frame, with `tlw` and `tsl` exchanged, is the old rectangle turned |
| Tiles.NotchTurn | src/main.cpp:111-123 | the `bx` notch of the turned frame is the old `by` notch turned, and the reverse, matching the exchange of `bx` and `by` |
| Tiles.EntryTurn | src/main.cpp:88-105 | entry tab d + 1 is entry tab d turned a quarter turn |
| Tiles.ExitTurn | src/main.cpp:107-140 | exit d + 1, notches included, is exit d turned a quarter turn |
| Tiles.Rel | src/main.cpp:148 | `rel` is below 4 and `d + rel` is the exit p[d] modulo 4 |
| Tiles.InsetUndo | src/main.cpp:184-214 | the moves of the origin after the squares undo the inset made before them |
| Tiles.DiagonalIffAdjacent | src/main.cpp:150-182 | the spoke is diagonal at any side exactly when its exit is an adjacent side (rel 1 or 3) |
| Tiles.StepsNonNegative | src/main.cpp:150-195 | step counts are never negative and square widths are at least 1 for valid parameters |
| Tiles.SpokeOfTurn | src/main.cpp:146-222 | the spoke of side d + 1 is the spoke of side d turned, inset included |
| Tiles.SquaresTurn | src/main.cpp:196-202 | the squares of a turned spoke are the squares of the spoke turned |
| Tiles.SpokeTurn | src/main.cpp:146-222 | spoke d + 1 is spoke d turned a quarter turn |
| Tiles.EntryFromSideZero | src/main.cpp:88-105 | every pixel of entry tab d is a pixel of entry tab 0 turned, and lies in the tile when that one does |
| Tiles.EntryInTile | src/main.cpp:88-105 | every write of the entry loop stays inside the n x n tile |
| Tiles.ExitFromSideZero | src/main.cpp:107-140 | every pixel of exit d is a pixel of exit 0 turned, and lies in the tile when that one does |
| Tiles.ExitInTile | src/main.cpp:107-140 | every write of the exit loop stays inside the n x n tile |
| Tiles.SquareInside | src/main.cpp:196-202 | when the first and the last square of a straight or diagonal run are inside, every square is |
| Tiles.SideZeroSpokeInTile | src/main.cpp:146-202 | every pixel of spoke 0 lies inside the tile, for every rel |
| Tiles.SpokeFromSideZero | src/main.cpp:146-222 | every pixel of spoke d is a pixel of spoke 0 turned, and lies in the tile when that one does |
| Tiles.SpokeInTile | src/main.cpp:146-222 | every write of the spoke loop stays inside the n x n tile |
| Tiles.Inverse | src/main.cpp:76-78 | `p_inv` has four entries, each a side |
| Tiles.InverseInverts | src/main.cpp:76-78 | for a permutation p, `p[p_inv[k]] == k` and `p_inv[p[d]] == d` |
| Tiles.ExitMatchesSpoke | src/main.cpp:113-127 | the exit that spoke d reaches is drawn in spoke d's colour c[d] (source lines 113, 127 and 199) |
| Tiles.BackgroundIsBorder | src/main.cpp:63-70 | the background is grey exactly on the border of width t and white inside it |
| Tiles.PaintedIsLastCover | src/main.cpp:88-222 | every pixel is the colour of the last layer that covers it, or the background when none does |
| Tiles.LayerInTile | src/main.cpp:88-222 | every layer lies inside the tile |
| Rasteriser.NotchXStep | src/main.cpp:112-115 | one step of the inner `bx` loop adds exactly the two pixels it writes |
| Rasteriser.NotchXGrow | src/main.cpp:111-116 | a finished row i joins the rows below it in the `bx` notch |
| Rasteriser.NotchYStep | src/main.cpp:118-121 | one step of the inner `by` loop adds exactly the two pixels it writes |
| Rasteriser.NotchYGrow | src/main.cpp:117-122 | a finished column i joins the columns before it in the `by` notch |
| Rasteriser.Plot | src/main.cpp:92 | the write `rows[iy + v*dy][ix + u*dx] = col` sets the pixel at local (u, v) and no other |
| Rasteriser.FillRect | src/main.cpp:90-94 | the rectangle `x < tlw, y < tsl` of the side frame becomes col; nothing else changes |
| Rasteriser.FillNotchX | src/main.cpp:111-116 | the two `bx` triangles become col; nothing else changes |
| Rasteriser.FillNotchXLine | src/main.cpp:112-115 | row i of the `bx` triangles becomes col; nothing else changes |
| Rasteriser.FillNotchY | src/main.cpp:117-122 | the two `by` triangles become col; nothing else changes |
| Rasteriser.FillNotchYLine | src/main.cpp:118-121 | column i of the `by` triangles becomes col; nothing else changes |
| Rasteriser.InvertRouting | src/main.cpp:76-78 | the new array `p_inv` is the inverse of the routing |
| Rasteriser.EntryTabs | src/main.cpp:88-105 | the first loop adds the four entry layers to the background and leaves the frame variables as the second loop expects them |
| Rasteriser.DrawEntry | src/main.cpp:90-104 | one iteration adds entry layer d |
| Rasteriser.ExitTabs | src/main.cpp:107-140 | the second loop adds the four exit layers |
| Rasteriser.DrawExit | src/main.cpp:111-129 | one iteration adds exit layer d (both notches and the tab) in colour `c[p_inv[d]]` |
| Rasteriser.Heading | src/main.cpp:150-175 | the `switch (rel)` gives the base direction and step count of rel |
| Rasteriser.TurnHeading | src/main.cpp:176-180 | the loop `for t < d` turns the heading d quarter turns |
| Rasteriser.SpokeSetup | src/main.cpp:147-195 | computes rel, the spoke's origin, heading, step count and width as Tiles.SpokeOf of side d; the origin is inset exactly when the spoke is diagonal |
| Rasteriser.InsetOrigin | src/main.cpp:184-193 | the moves of the origin for a diagonal spoke are the inset by `lw - w` |
| Rasteriser.DrawSpoke | src/main.cpp:147-214 | one iteration paints spoke d in c[d], changes no other pixel, and restores the origin |
| Rasteriser.FillSquares | src/main.cpp:196-202 | the `steps + 1` squares of the run become col; nothing else changes |
| Rasteriser.Spokes | src/main.cpp:142-222 | the third loop adds the four spoke layers |
| Rasteriser.Piece | src/main.cpp:72-224 | the returned fresh n x n frame is pixel for pixel the tile Tiles.Tile of p and c |
| Pattern.OriginIsProduct | src/main.cpp:286 | the slot offset counted slot by slot is `i*ps` |
| Pattern.OriginsApart | src/main.cpp:283-286 | slot a ends at or before every later slot starts |
| Pattern.SlotInRange | src/main.cpp:239-243 | slot i of n ends inside the `n*ps` pattern |
| Pattern.SlotsApart | src/main.cpp:283-288 | two different slots do not overlap |
| Pattern.ShowsTile | src/main.cpp:285-286 | a box showing a painter of the tile holds the tile |
| Pattern.Snapshot | include/image.hpp:39-41 | reading the finished tile as a painter gives the tile's pixel `paint(x, y)` |
| Pattern.PiecePainter | src/main.cpp:285 | `pattern_piece` paints pixel (x, y) of the tile of `pieces[i][j]` and `colors[i][j]` |
| Pattern.PlaceTile | src/main.cpp:286 | afterwards the box shows the painter, every pixel outside it is unchanged, and every box apart from it shows what it showed |
| Pattern.PlacedHolds | src/main.cpp:283-288 | a placed slot holds its tile at `(a*ps, b*ps)` |
| Pattern.AllPlacedHold | src/main.cpp:283-288 | when every slot is placed, every slot holds its tile |
| Pattern.PlaceSlot | src/main.cpp:285-286 | one iteration places slot (i, j) and keeps every earlier slot placed |
| Pattern.PlacePieces | src/main.cpp:283-288 | after both loops, slot (a, b) of the pattern holds, at `(a*ps, b*ps)`, the tile of routing `pieces[a][b]` and colours `colors[a][b]` |

## Left out

- Image files: `image.hpp` reading and writing PNG files, and the drivers `piece_main`, `rand_main` and `path_main`, are file I/O and are not modelled. Only the placement loop of `rand_main` is modelled.
- The construction of `pieces` in `rand_main` (the `is`/`t1`/`t3` walk) is not modelled. It reads `is[4]`, one past the end of the array.
- `#pragma omp parallel for` in `frame::paint` is modelled as a sequential loop. The rows are disjoint, so the result is the same.
- Destructors and memory management (`~frame`) are not modelled.
- Floating point: `(int)(lw / sqrt(2)) + 1` is modelled by the exact integer characterisation of Tiles.DiagonalWidth. The model assumes the `double` quotient truncates to the true integer part. Rounding could break that only when lw / √2 lies within one rounding error of an integer.
- `int` overflow is not modelled: coordinates and indices are unbounded integers. This covers the rasteriser's coordinate arithmetic and the indices of Frames.Frame.Paint (`int idx = j*width`, include/frame.hpp:37-38) and Frames.FrameView.Paint (`(init_j+j)*width + init_i`, include/frame.hpp:70-71), which wrap in the source for frames of 2^31 pixels or more. `size_t` wrap-around is modelled where it decides a branch, in `bg_painter`'s `w - t` (Tiles.SizeSub).
- The generator in `next_permutation` and `next_color_idxs` is an abstract stream `draw(k)` of the k-th `next()` value. Xoshiro.Draw gives the stream of the real generator, and Xoshiro.Generator.Next proves that its k-th call returns `Draw(Seed, k)`. The model does not prove that the stream is Draws.Unsettled.
- Draws.DrawPair: requires that the stream is not eventually constant modulo N (Draws.Unsettled). Without that the source's `do … while (b == a)` loop never ends; the model does not describe that non-terminating run.
- Draws.NextPermutation: requires N >= 2. For N = 1 the source's retry loop never ends.
- `next_color_idxs` writes to the undeclared name `ci` at main.cpp:60. It is modelled as writing `c[i]`, which the signature evidently intends.
- Rasteriser.Piece: requires p to be a permutation of the four sides. The source does not check this. For any other p, `p_inv` is left partly uninitialised and `c[p_inv[d]]` reads garbage.
- Rasteriser.Piece: requires Tiles.ValidGeometry of lw, sep and sl. The source relies on its template arguments keeping every write inside the tile and checks nothing. Tiles.DefaultIsValid shows that the values used by the drivers qualify.
- Rasteriser.DrawExit: the source exchanges `bx` and `by` between the notch loops and the exit tab. The model does it after the tab, which reads neither, so every write is the same.
- Rasteriser.Plot: writes `ix + u*dx` with u = `-(j+1)` or `lw + j` for the notch writes, which is the source's `ix - (j+1)*dx` and `ix + (lw+j)*dx`.
- Pattern.Snapshot: the painter `pattern_piece` is modelled as a snapshot of the finished tile's pixels. In the source it is the tile image itself, used through `image::paint(x, y)`. The tile frame is never written after `piece` returns, so the two read the same pixels.
- Pattern.PlacePieces: requires the pattern to be n ps x m ps and every `pieces[i][j]` to be a permutation. `rand_main`'s swaps would ensure that only if `is[3]` read in-range values. As written, `is[3]` is computed from `is[4]`, which is one past the end of the array, so it is undefined and may even be negative, because C++ `%` truncates toward zero. The swaps at src/main.cpp:259-260 can then index outside `p`.
