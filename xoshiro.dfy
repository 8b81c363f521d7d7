/**
  xoshiro256++ 1.0 (Blackman and Vigna): a 64-bit generator over a 256-bit
  state of four 64-bit words, with all arithmetic modulo 2^64.
 */
module Xoshiro {

  /** The four words s[0], s[1], s[2], s[3] of the generator state. */
  datatype State = State(s0: bv64, s1: bv64, s2: bv64, s3: bv64)

  const Zero := State(0, 0, 0, 0)

  /** The hard-coded seed `{1, 1, 1, 1}`. */
  const Seed := State(1, 1, 1, 1)

  /**
    `rotl(x, k)`: rotation to the left by k bits, written with the two shifts of
    `rotl`; k = 0 would shift by 64, which C leaves undefined.
   */
  function Rotl(x: bv64, k: bv64): bv64
    requires 0 < k < 64
  {
    (x << k) | (x >> (64 - k))
  }

  /** The two shifts of `rotl` make a rotation, for the amounts the generator uses. */
  lemma RotlIsRotation(x: bv64)
    ensures Rotl(x, 23) == x.RotateLeft(23) && Rotl(x, 45) == x.RotateLeft(45)
  {
  }

  /** Rotations by 45 and by 19 bits undo each other. */
  lemma RotlRoundTrip(x: bv64)
    ensures Rotl(Rotl(x, 45), 19) == x && Rotl(Rotl(x, 19), 45) == x
  {
  }

  /** The value `next()` returns from state st. */
  function Output(st: State): bv64 {
    Add(Rotl(Add(st.s0, st.s3), 23), st.s0)
  }

  /**
    Addition modulo 2^64, exclusive or and left shift, named so that the proofs below
    can rewrite with them one identity at a time.
   */
  function Add(a: bv64, b: bv64): bv64 {
    a + b
  }

  function Xor(a: bv64, b: bv64): bv64 {
    a ^ b
  }

  function Shl(a: bv64, k: bv64): bv64
    requires k < 64
  {
    a << k
  }

  /** The state `next()` leaves behind when called in state st. */
  function Step(st: State): State {
    var t := Shl(st.s1, 17);
    var s2 := Xor(st.s2, st.s0);
    var s3 := Xor(st.s3, st.s1);
    var s1 := Xor(st.s1, s2);
    var s0 := Xor(st.s0, s3);
    State(s0, s1, Xor(s2, t), Rotl(s3, 45))
  }

  lemma XorZero(a: bv64)
    ensures Xor(a, 0) == a
  {
  }

  lemma XorAssoc(a: bv64, b: bv64, c: bv64)
    ensures Xor(Xor(a, b), c) == Xor(a, Xor(b, c))
  {
  }

  lemma XorCancelRight(a: bv64, x: bv64)
    ensures Xor(Xor(a, x), x) == a
  {
  }

  lemma XorCancelLeft(a: bv64, x: bv64)
    ensures Xor(Xor(a, x), a) == x
  {
  }

  lemma XorCancelFront(a: bv64, x: bv64)
    ensures Xor(a, Xor(a, x)) == x
  {
  }

  lemma XorCancelOuter(x: bv64, a: bv64)
    ensures Xor(x, Xor(a, x)) == a
  {
  }

  lemma XorMiddle(b: bv64, c: bv64, e: bv64)
    ensures Xor(Xor(b, c), Xor(c, e)) == Xor(b, e)
  {
  }

  /** Left shift by 17 distributes over exclusive or. */
  lemma ShiftXor(a: bv64, b: bv64)
    ensures Shl(Xor(a, b), 17) == Xor(Shl(a, 17), Shl(b, 17))
  {
  }

  /** Repeated shifts by 17 add up, and 68 bits clear the word. */
  lemma ShiftShift(a: bv64)
    ensures Shl(Shl(a, 17), 17) == Shl(a, 34)
    ensures Shl(Shl(a, 34), 17) == Shl(a, 51)
    ensures Shl(Shl(a, 51), 17) == 0
  {
  }

  /** Recovers x from `x ^ (x << 17)`. */
  function UnXorShift17(y: bv64): bv64 {
    Xor(Xor(Xor(y, Shl(y, 17)), Shl(y, 34)), Shl(y, 51))
  }

  /** UnXorShift17 is a right inverse of `x ^ (x << 17)`. */
  lemma UnXorShift17Inverts(y: bv64)
    ensures var x := UnXorShift17(y); Xor(x, Shl(x, 17)) == y
  {
    var y1, y2, y3 := Shl(y, 17), Shl(y, 34), Shl(y, 51);
    ShiftShift(y);
    ShiftXor(y, y1);
    ShiftXor(Xor(y, y1), y2);
    ShiftXor(Xor(Xor(y, y1), y2), y3);
    XorZero(Xor(Xor(y1, y2), y3));
    var q := Xor(Xor(y1, y2), y3);
    assert Shl(UnXorShift17(y), 17) == q;
    XorAssoc(y, y1, y2);
    XorAssoc(y, Xor(y1, y2), y3);
    XorCancelRight(y, q);
  }

  /** UnXorShift17 is a left inverse of `x ^ (x << 17)`. */
  lemma UnXorShift17Recovers(a: bv64)
    ensures UnXorShift17(Xor(a, Shl(a, 17))) == a
  {
    var a1, a2, a3 := Shl(a, 17), Shl(a, 34), Shl(a, 51);
    var y := Xor(a, a1);
    ShiftShift(a);
    ShiftShift(y);
    ShiftXor(a, a1);
    assert Shl(y, 17) == Xor(a1, a2);
    ShiftXor(a1, a2);
    assert Shl(y, 34) == Xor(a2, a3);
    ShiftXor(a2, a3);
    XorZero(a3);
    assert Shl(y, 51) == a3;
    XorMiddle(a, a1, a2);
    XorMiddle(a, a2, a3);
    XorCancelRight(a, a3);
  }

  /** The state that Step takes to st. */
  function Unstep(st: State): State {
    var s3 := Rotl(st.s3, 19);                     // s[3] ^ s[1] before the rotation
    var s1 := UnXorShift17(Xor(st.s1, st.s2));     // s1' ^ s2' == s1 ^ (s1 << 17)
    var s0 := Xor(st.s0, s3);
    State(s0, s1, Xor(Xor(st.s1, s1), s0), Xor(s3, s1))
  }

  /** Step undoes Unstep. */
  lemma StepUnstep(st: State)
    ensures Step(Unstep(st)) == st
  {
    var pre := Unstep(st);
    var r := Rotl(st.s3, 19);
    var s1 := UnXorShift17(Xor(st.s1, st.s2));
    var s0 := Xor(st.s0, r);
    RotlRoundTrip(st.s3);
    XorCancelRight(r, s1);
    XorCancelRight(st.s0, r);
    assert Step(pre).s0 == st.s0;
    XorCancelRight(Xor(st.s1, s1), s0);
    XorCancelOuter(s1, st.s1);
    assert Step(pre).s1 == st.s1;
    UnXorShift17Inverts(Xor(st.s1, st.s2));
    XorAssoc(st.s1, s1, Shl(s1, 17));
    XorCancelFront(st.s1, st.s2);
    assert Step(pre).s2 == st.s2;
    assert Step(pre).s3 == st.s3;
  }

  /** Unstep undoes Step. */
  lemma UnstepStep(st: State)
    ensures Unstep(Step(st)) == st
  {
    var st' := Step(st);
    var x := Xor(st.s2, st.s0);
    var y := Xor(st.s3, st.s1);
    RotlRoundTrip(y);
    XorMiddle(st.s1, x, Shl(st.s1, 17));
    UnXorShift17Recovers(st.s1);
    assert UnXorShift17(Xor(st'.s1, st'.s2)) == st.s1;
    XorCancelRight(st.s0, y);
    assert Unstep(st').s0 == st.s0;
    XorCancelLeft(st.s1, x);
    XorCancelRight(st.s2, st.s0);
    assert Unstep(st').s2 == st.s2;
    XorCancelRight(st.s3, st.s1);
    assert Unstep(st').s3 == st.s3;
  }

  /** The state update is injective. */
  lemma StepInjective(a: State, b: State)
    requires Step(a) == Step(b)
    ensures a == b
  {
    UnstepStep(a);
    UnstepStep(b);
  }

  /** From the all-zero state, `next()` returns 0 and stays in the all-zero state. */
  lemma ZeroIsFixed()
    ensures Step(Zero) == Zero && Output(Zero) == 0
  {
  }

  /** Only the all-zero state steps to the all-zero state. */
  lemma OnlyZeroReachesZero(st: State)
    requires Step(st) == Zero
    ensures st == Zero
  {
    ZeroIsFixed();
    StepInjective(st, Zero);
  }

  /** The state after k calls of `next()`. */
  function Iterate(st: State, k: nat): State {
    if k == 0 then st else Step(Iterate(st, k - 1))
  }

  /** A non-zero state never reaches the all-zero state. */
  lemma {:induction false} NonZeroForever(st: State, k: nat)
    requires st != Zero
    ensures Iterate(st, k) != Zero
  {
    if k > 0 {
      NonZeroForever(st, k - 1);
      if Iterate(st, k) == Zero {
        OnlyZeroReachesZero(Iterate(st, k - 1));
      }
    }
  }

  /** The seed `{1, 1, 1, 1}` never reaches the all-zero state. */
  lemma SeedNeverZero(k: nat)
    ensures Iterate(Seed, k) != Zero
  {
    NonZeroForever(Seed, k);
  }

  /** The k-th value `next()` returns, counting from 0, from state st. */
  function Draw(st: State, k: nat): bv64 {
    Output(Iterate(st, k))
  }

  /** The generator: the static array `s[4]`, updated in place by `next()`. */
  class Generator {
    const s: array<bv64>
    /** How many times `next()` has been called since the generator was seeded. */
    ghost var calls: nat

    /** The array holds the seed advanced by one Step per call of `next()`. */
    ghost predicate Valid()
      reads this, s
    {
      s.Length == 4 && Current() == Iterate(Seed, calls)
    }

    /** The state the array holds. */
    ghost function Current(): State
      requires s.Length == 4
      reads this, s
    {
      State(s[0], s[1], s[2], s[3])
    }

    /** The generator seeded with `{1, 1, 1, 1}`. */
    constructor ()
      ensures Valid() && fresh(s) && calls == 0 && Current() == Seed
    {
      s := new bv64[4](_ => 1);
      calls := 0;
    }

    /**
      `next()`: returns Output of the current state and advances it by Step, so the
      call numbered `calls` returns `Draw(Seed, calls)`.
     */
    method Next() returns (result: bv64)
      requires Valid()
      modifies this, s
      ensures Valid() && calls == old(calls) + 1
      ensures result == Output(old(Current()))
      ensures Current() == Step(old(Current()))
      ensures result == Draw(Seed, old(calls))
    {
      result := Add(Rotl(Add(s[0], s[3]), 23), s[0]);
      var t := Shl(s[1], 17);
      s[2] := Xor(s[2], s[0]);
      s[3] := Xor(s[3], s[1]);
      s[1] := Xor(s[1], s[2]);
      s[0] := Xor(s[0], s[3]);
      s[2] := Xor(s[2], t);
      s[3] := Rotl(s[3], 45);
      calls := calls + 1;
    }
  }
}
