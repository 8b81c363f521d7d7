/**
  The two helpers that turn generator output into tile parameters: a random
  permutation built from the identity by a fixed number of transpositions, and
  a list of colours drawn from a palette with replacement. The generator is
  abstracted as a stream: `draw(k)` is the value of the k-th call of `next()`.
 */
module Draws {
  import opened Pixels

  /** The k-th value returned by `next()`. */
  type Stream = nat -> nat

  /** `(a, b)`: the positions exchanged by one `std::swap(p[a], p[b])`. */
  datatype Transposition = Transposition(a: nat, b: nat)

  /** Some draw at index k or later is not congruent to v modulo n. */
  ghost predicate NotStuck(draw: Stream, n: nat, k: nat, v: nat)
    requires n > 0
  {
    exists j: nat :: k <= j && draw(j) % n != v
  }

  /**
    The stream never settles on one residue modulo n for good; without this the
    retry loop of `next_permutation` would spin forever.
   */
  ghost predicate Unsettled(draw: Stream, n: nat)
    requires n > 0
  {
    forall k: nat, v: nat :: v < n ==> NotStuck(draw, n, k, v)
  }

  /** `p[i] = i` for i < n. */
  function Identity(n: nat): (s: seq<nat>)
    ensures |s| == n && forall i :: 0 <= i < n ==> s[i] == i
  {
    seq(n, i => i)
  }

  /** s with the entries at positions a and b exchanged. */
  function Swap(s: seq<nat>, a: nat, b: nat): (r: seq<nat>)
    requires a < |s| && b < |s|
    ensures |r| == |s|
    ensures r[a] == s[b] && r[b] == s[a]
    ensures forall i :: 0 <= i < |s| && i != a && i != b ==> r[i] == s[i]
  {
    s[a := s[b]][b := s[a]]
  }

  /** A transposition of two different positions below n. */
  predicate ProperFor(t: Transposition, n: nat) {
    t.a < n && t.b < n && t.a != t.b
  }

  /** The result of applying the transpositions ts to s, first one first. */
  function ApplySwaps(s: seq<nat>, ts: seq<Transposition>): (r: seq<nat>)
    requires forall i :: 0 <= i < |ts| ==> ProperFor(ts[i], |s|)
    ensures |r| == |s|
    decreases |ts|
  {
    if |ts| == 0 then s
    else
      var last := ts[|ts| - 1];
      assert ProperFor(last, |s|);
      Swap(ApplySwaps(s, ts[..|ts| - 1]), last.a, last.b)
  }

  /** s holds every number below |s| exactly once. */
  ghost predicate IsPermutation(s: seq<nat>) {
    && (forall i :: 0 <= i < |s| ==> s[i] < |s|)
    && Distinct(s)
  }

  /** No value occurs twice in s. */
  predicate Distinct(s: seq<nat>) {
    forall i, j :: 0 <= i < j < |s| ==> s[i] != s[j]
  }

  /** How many entries of t are smaller than x. */
  function Below(x: nat, t: seq<nat>): nat {
    if |t| == 0 then 0 else (if t[0] < x then 1 else 0) + Below(x, t[1..])
  }

  /** The number of inversions: pairs i < j with s[i] > s[j]. */
  function Inversions(s: seq<nat>): nat {
    if |s| == 0 then 0 else Below(s[0], s[1..]) + Inversions(s[1..])
  }

  /** A permutation is even when its number of inversions is even. */
  predicate IsEven(s: seq<nat>) {
    Inversions(s) % 2 == 0
  }

  /** The identity has no inversions. */
  lemma {:induction false} IdentityHasNoInversions(n: nat)
    ensures Inversions(Identity(n)) == 0
  {
    IncreasingHasNoInversions(Identity(n));
  }

  lemma {:induction false} IncreasingHasNoInversions(s: seq<nat>)
    requires forall i, j :: 0 <= i < j < |s| ==> s[i] < s[j]
    ensures Inversions(s) == 0
  {
    if |s| > 0 {
      NoneBelow(s[0], s[1..]);
      IncreasingHasNoInversions(s[1..]);
    }
  }

  lemma {:induction false} NoneBelow(x: nat, t: seq<nat>)
    requires forall i :: 0 <= i < |t| ==> x < t[i]
    ensures Below(x, t) == 0
  {
    if |t| > 0 {
      NoneBelow(x, t[1..]);
    }
  }

  /** Exchanging two neighbours inside t does not change how many entries are below x. */
  lemma {:induction false} BelowAdjacentSwap(x: nat, t: seq<nat>, k: nat)
    requires k + 1 < |t|
    ensures Below(x, Swap(t, k, k + 1)) == Below(x, t)
  {
    var u := Swap(t, k, k + 1);
    if k == 0 {
      assert u[1..][1..] == t[1..][1..];
    } else {
      assert u[1..] == Swap(t[1..], k - 1, k);
      BelowAdjacentSwap(x, t[1..], k - 1);
    }
  }

  /** Exchanging two different neighbours changes the number of inversions by one. */
  lemma {:induction false} AdjacentSwapInversions(s: seq<nat>, k: nat)
    requires k + 1 < |s| && s[k] != s[k + 1]
    ensures var d := Inversions(Swap(s, k, k + 1));
      d == Inversions(s) + 1 || d + 1 == Inversions(s)
  {
    var u := Swap(s, k, k + 1);
    if k == 0 {
      var r := s[2..];
      assert s[1..][1..] == r && u[1..][1..] == r;
      assert u[1..] == [s[0]] + r;
      assert s[1..] == [s[1]] + r;
    } else {
      assert u[1..] == Swap(s[1..], k - 1, k);
      BelowAdjacentSwap(s[0], s[1..], k - 1);
      AdjacentSwapInversions(s[1..], k - 1);
    }
  }

  /** A transposition of positions a < b is three steps: two neighbour swaps around a shorter one. */
  lemma SwapByNeighbours(s: seq<nat>, a: nat, b: nat)
    requires a + 1 < b < |s|
    ensures Swap(s, a, b) == Swap(Swap(Swap(s, a, a + 1), a + 1, b), a, a + 1)
  {
  }

  /** Swapping keeps the entries pairwise different. */
  lemma SwapDistinct(s: seq<nat>, a: nat, b: nat)
    requires a < |s| && b < |s| && Distinct(s)
    ensures Distinct(Swap(s, a, b))
  {
    var r := Swap(s, a, b);
    forall i, j | 0 <= i < j < |r|
      ensures r[i] != r[j]
    {
      var i' := if i == a then b else if i == b then a else i;
      var j' := if j == a then b else if j == b then a else j;
      assert r[i] == s[i'] && r[j] == s[j'] && i' != j';
    }
  }

  /** A transposition of two different positions flips the parity of the number of inversions. */
  lemma {:induction false} SwapFlipsParity(s: seq<nat>, a: nat, b: nat)
    requires a < b < |s| && Distinct(s)
    ensures Inversions(Swap(s, a, b)) % 2 != Inversions(s) % 2
    decreases b - a
  {
    if b == a + 1 {
      AdjacentSwapInversions(s, a);
    } else {
      var s1 := Swap(s, a, a + 1);
      var s2 := Swap(s1, a + 1, b);
      var s3 := Swap(s2, a, a + 1);
      SwapByNeighbours(s, a, b);
      assert Swap(s, a, b) == s3;
      AdjacentSwapInversions(s, a);
      SwapDistinct(s, a, a + 1);
      SwapFlipsParity(s1, a + 1, b);
      SwapDistinct(s1, a + 1, b);
      AdjacentSwapInversions(s2, a);
      var i0, i1, i2, i3 := Inversions(s), Inversions(s1), Inversions(s2), Inversions(s3);
      assert (i1 == i0 + 1 || i1 + 1 == i0) && i2 % 2 != i1 % 2 && (i3 == i2 + 1 || i3 + 1 == i2);
    }
  }

  /** Swap does not care about the order of its two positions. */
  lemma SwapSymmetric(s: seq<nat>, a: nat, b: nat)
    requires a < |s| && b < |s|
    ensures Swap(s, a, b) == Swap(s, b, a)
  {
  }

  /** Swapping entries of a permutation gives a permutation. */
  lemma SwapKeepsPermutation(s: seq<nat>, a: nat, b: nat)
    requires IsPermutation(s) && a < |s| && b < |s|
    ensures IsPermutation(Swap(s, a, b))
  {
    SwapDistinct(s, a, b);
  }

  /**
    Applying proper transpositions to the identity gives a permutation whose
    number of inversions has the parity of the number of transpositions.
   */
  lemma {:induction false} ApplySwapsParity(n: nat, ts: seq<Transposition>)
    requires forall i :: 0 <= i < |ts| ==> ProperFor(ts[i], n)
    ensures IsPermutation(ApplySwaps(Identity(n), ts))
    ensures Inversions(ApplySwaps(Identity(n), ts)) % 2 == |ts| % 2
    decreases |ts|
  {
    if |ts| == 0 {
      IdentityHasNoInversions(n);
    } else {
      var front := ts[..|ts| - 1];
      var last := ts[|ts| - 1];
      assert ProperFor(last, n);
      ApplySwapsParity(n, front);
      var s := ApplySwaps(Identity(n), front);
      assert ApplySwaps(Identity(n), ts) == Swap(s, last.a, last.b);
      SwapKeepsPermutation(s, last.a, last.b);
      if last.a < last.b {
        SwapFlipsParity(s, last.a, last.b);
      } else {
        SwapSymmetric(s, last.a, last.b);
        SwapFlipsParity(s, last.b, last.a);
      }
    }
  }

  /** With the default eight transpositions the permutation is always even. */
  lemma EightSwapsAreEven(n: nat, ts: seq<Transposition>)
    requires |ts| == 8 && forall i :: 0 <= i < |ts| ==> ProperFor(ts[i], n)
    ensures IsEven(ApplySwaps(Identity(n), ts))
  {
    ApplySwapsParity(n, ts);
  }

  /**
    One round of draws of `next_permutation`: a is drawn once, then b is drawn until
    it differs from a. The draws start at index pos; `next` is the index after the
    last one used.
   */
  method DrawPair(draw: Stream, n: nat, pos: nat) returns (a: nat, b: nat, next: nat)
    requires n >= 2 && Unsettled(draw, n)
    ensures pos + 2 <= next
    ensures a == draw(pos) % n && b == draw(next - 1) % n
    ensures a < n && b < n && a != b
    ensures forall k :: pos < k < next - 1 ==> draw(k) % n == a
  {
    a := draw(pos) % n;
    b := draw(pos + 1) % n;
    next := pos + 2;
    assert NotStuck(draw, n, pos + 1, a);
    ghost var target: nat :| pos + 1 <= target && draw(target) % n != a;
    while b == a
      invariant pos + 2 <= next && b == draw(next - 1) % n
      invariant forall k :: pos < k < next - 1 ==> draw(k) % n == a
      invariant b == a ==> next <= target
      decreases target - next
    {
      b := draw(next) % n;
      next := next + 1;
    }
  }

  /**
    One round of `next_permutation` in the draws `draw(start)`, ..., `draw(stop - 1)`:
    t.a is the first of them modulo n, t.b the last, which is the first later one
    that differs from t.a modulo n.
   */
  ghost predicate Round(draw: Stream, n: nat, start: nat, stop: nat, t: Transposition)
    requires n > 0
  {
    && start + 2 <= stop
    && t.a == draw(start) % n && t.b == draw(stop - 1) % n && t.a != t.b
    && forall k :: start < k < stop - 1 ==> draw(k) % n == t.a
  }

  /** The draws decide a round: its end and its transposition are determined by where it starts. */
  lemma RoundUnique(draw: Stream, n: nat, start: nat, stop1: nat, t1: Transposition, stop2: nat, t2: Transposition)
    requires n > 0 && Round(draw, n, start, stop1, t1) && Round(draw, n, start, stop2, t2)
    ensures stop1 == stop2 && t1 == t2
  {
  }

  /** Consecutive rounds from the draw at `starts[0]`: round r uses `starts[r]` to `starts[r + 1] - 1`. */
  ghost predicate Rounds(draw: Stream, n: nat, starts: seq<nat>, ts: seq<Transposition>)
    requires n > 0
  {
    && |starts| == |ts| + 1
    && forall r :: 0 <= r < |ts| ==> Round(draw, n, starts[r], starts[r + 1], ts[r])
  }

  /** The draws decide every round: two runs of rounds from the same draw agree. */
  lemma {:induction false} RoundsUnique(draw: Stream, n: nat, starts1: seq<nat>, ts1: seq<Transposition>,
                                        starts2: seq<nat>, ts2: seq<Transposition>)
    requires n > 0 && Rounds(draw, n, starts1, ts1) && Rounds(draw, n, starts2, ts2)
    requires |ts1| == |ts2| && starts1[0] == starts2[0]
    ensures starts1 == starts2 && ts1 == ts2
    decreases |ts1|
  {
    if |ts1| > 0 {
      var k := |ts1| - 1;
      assert Rounds(draw, n, starts1[..k + 1], ts1[..k]);
      assert Rounds(draw, n, starts2[..k + 1], ts2[..k]);
      RoundsUnique(draw, n, starts1[..k + 1], ts1[..k], starts2[..k + 1], ts2[..k]);
      assert starts1[k] == starts1[..k + 1][k] == starts2[k];
      RoundUnique(draw, n, starts1[k], starts1[k + 1], ts1[k], starts2[k + 1], ts2[k]);
      assert starts1 == starts1[..k + 1] + [starts1[k + 1]] && starts2 == starts2[..k + 1] + [starts2[k + 1]];
      assert ts1 == ts1[..k] + [ts1[k]] && ts2 == ts2[..k] + [ts2[k]];
    }
  }

  /**
    `next_permutation<N, ITERS>(p)`: fills p with the identity, then ITERS times
    draws a position a, draws positions b until b differs from a, and exchanges
    p[a] and p[b]. The draws are `draw(pos)`, `draw(pos + 1)`, ...; `next` is the
    index of the first draw left unused. The transpositions performed, and the
    index at which each round of draws starts, are returned as a ghost record;
    RoundsUnique shows that the draws determine both.
   */
  method NextPermutation(p: array<nat>, iters: nat, draw: Stream, pos: nat)
      returns (next: nat, ghost ts: seq<Transposition>, ghost starts: seq<nat>)
    requires p.Length >= 2 && Unsettled(draw, p.Length)
    modifies p
    ensures |ts| == iters && Rounds(draw, p.Length, starts, ts)
    ensures starts[0] == pos && starts[iters] == next
    ensures forall i :: 0 <= i < |ts| ==> ProperFor(ts[i], p.Length)
    ensures p[..] == ApplySwaps(Identity(p.Length), ts)
    ensures IsPermutation(p[..])
    ensures Inversions(p[..]) % 2 == iters % 2
    ensures pos + 2 * iters <= next
  {
    var n := p.Length;
    for i := 0 to n
      invariant forall k :: 0 <= k < i ==> p[k] == k
    {
      p[i] := i;
    }
    assert p[..] == Identity(n);
    next := pos;
    ts := [];
    starts := [pos];
    for iter := 0 to iters
      invariant |ts| == iter && forall i :: 0 <= i < |ts| ==> ProperFor(ts[i], n)
      invariant Rounds(draw, n, starts, ts) && starts[0] == pos && starts[iter] == next
      invariant p[..] == ApplySwaps(Identity(n), ts)
      invariant pos + 2 * iter <= next
    {
      ghost var start := next;
      var a, b;
      a, b, next := DrawPair(draw, n, next);
      assert Round(draw, n, start, next, Transposition(a, b));
      ghost var prev := p[..];
      var tmp := p[a];
      p[a] := p[b];
      p[b] := tmp;
      assert p[..] == Swap(prev, a, b);
      ts := ts + [Transposition(a, b)];
      starts := starts + [next];
      assert ts[..|ts| - 1] == ts[..iter];
    }
    ApplySwapsParity(n, ts);
  }

  /** The colours `next_color_idxs` picks: entry i is palette entry `draw(pos + i) % |colors|`. */
  function ColorPicks(colors: seq<Pixel>, draw: Stream, pos: nat, n: nat): (c: seq<Pixel>)
    requires |colors| > 0
    ensures |c| == n
    ensures forall i :: 0 <= i < n ==> c[i] == colors[draw(pos + i) % |colors|]
    ensures forall i :: 0 <= i < n ==> c[i] in colors
  {
    seq(n, i requires 0 <= i => colors[draw(pos + i) % |colors|])
  }

  /** Picks may repeat: when every draw is the same, every entry is the same palette colour. */
  lemma PicksMayRepeat(colors: seq<Pixel>, draw: Stream, pos: nat, n: nat, v: nat)
    requires |colors| > 0 && forall k: nat :: draw(k) == v
    ensures forall i :: 0 <= i < n ==> ColorPicks(colors, draw, pos, n)[i] == colors[v % |colors|]
  {
  }

  /**
    What `next_color_idxs` leaves in c when c is the palette itself (D == N): step i
    sets entry i to the entry `draw(pos + i) % D` of the array as the earlier steps
    left it.
   */
  function PicksInPlace(s: seq<Pixel>, draw: Stream, pos: nat, k: nat): (r: seq<Pixel>)
    requires |s| > 0 && k <= |s|
    ensures |r| == |s|
    decreases k
  {
    if k == 0 then s
    else
      var t := PicksInPlace(s, draw, pos, k - 1);
      t[k - 1 := t[draw(pos + k - 1) % |s|]]
  }

  /** Even in place, every entry stays one of the palette's original colours. */
  lemma {:induction false} PicksInPlaceFromPalette(s: seq<Pixel>, draw: Stream, pos: nat, k: nat)
    requires |s| > 0 && k <= |s|
    ensures forall i :: 0 <= i < |s| ==> PicksInPlace(s, draw, pos, k)[i] in s
    ensures forall i :: k <= i < |s| ==> PicksInPlace(s, draw, pos, k)[i] == s[i]
  {
    if k > 0 {
      PicksInPlaceFromPalette(s, draw, pos, k - 1);
    }
  }

  /**
    `next_color_idxs<D, N>(colors, c)`: sets `c[i]` to `colors[next() % D]` for
    i < N in order, using the draws `draw(pos)`, ..., `draw(pos + N - 1)`. When c
    and the palette are different arrays, c ends as ColorPicks; when they are the
    same array, each step reads the palette as the earlier steps left it.
   */
  method NextColorIdxs(colors: array<Pixel>, c: array<Pixel>, draw: Stream, pos: nat)
      returns (next: nat)
    requires colors.Length > 0
    modifies c
    ensures colors != c ==> c[..] == ColorPicks(colors[..], draw, pos, c.Length)
    ensures colors == c ==> c[..] == PicksInPlace(old(c[..]), draw, pos, c.Length)
    ensures next == pos + c.Length
  {
    ghost var c0 := c[..];
    next := pos;
    for i := 0 to c.Length
      invariant next == pos + i
      invariant colors != c ==> forall k :: 0 <= k < i ==> c[k] == colors[draw(pos + k) % colors.Length]
      invariant colors == c ==> c[..] == PicksInPlace(c0, draw, pos, i)
    {
      c[i] := colors[draw(next) % colors.Length];
      next := next + 1;
    }
  }
}
