/** Confinement of particle coordinates to the square [-1, 1] x [-1, 1]
    (Range.java). Coordinates are modelled as reals; a JOML vector is the
    small mutable class Vector3d below. */
module Range {

  /** The floored remainder of a / b for a positive divisor: the value that
      `modulo` is meant to compute. */
  ghost function FloorMod(a: real, b: real): real
    requires b > 0.0
  {
    a - (a / b).Floor as real * b
  }

  /** The value `wrap(double)` is meant to compute. */
  ghost function Wrapped(v: real): real
  {
    FloorMod(v + 1.0, 2.0) - 1.0
  }

  /** The distance between two points on the line. */
  function Dist(x: real, y: real): real
  {
    if x <= y then y - x else x - y
  }

  /** Any r in [0, b) that differs from a by an integer multiple of b is the
      floored remainder. */
  lemma {:induction false} FloorModUnique(a: real, b: real, r: real, k: int)
    requires b > 0.0
    requires 0.0 <= r < b
    requires a == r + k as real * b
    ensures FloorMod(a, b) == r
  {
    var q := a / b;
    DivMul(a, b);
    MulLeCancel(k as real, q, b);
    MulSucc(k as real, b);
    MulLtCancel(q, k as real + 1.0, b);
    assert q.Floor == k;
  }

  /** The floored remainder lies in [0, b). */
  lemma FloorModRange(a: real, b: real)
    requires b > 0.0
    ensures 0.0 <= FloorMod(a, b) < b
  {
    FloorTimesBelow(a, b);
    FloorTimesAbove(a, b);
  }

  /** The floor of a / b times b does not exceed a. */
  lemma FloorTimesBelow(a: real, b: real)
    requires b > 0.0
    ensures (a / b).Floor as real * b <= a
  {
    var q := a / b;
    var f := q.Floor as real;
    DivMul(a, b);
    MulMono(f, q, b);
  }

  /** a lies below one more than the floor of a / b, times b. */
  lemma FloorTimesAbove(a: real, b: real)
    requires b > 0.0
    ensures a < (a / b).Floor as real * b + b
  {
    var q := a / b;
    var f := q.Floor as real;
    DivMul(a, b);
    MulStrict(q, f + 1.0, b);
    MulSucc(f, b);
  }

  /** Division by b undoes multiplication by b. */
  lemma DivMul(a: real, b: real)
    requires b > 0.0
    ensures (a / b) * b == a
  {
  }

  /** Multiplying by a positive number keeps <=. */
  lemma MulMono(x: real, y: real, c: real)
    requires c > 0.0 && x <= y
    ensures x * c <= y * c
  {
  }

  /** Multiplying by a positive number keeps <. */
  lemma MulStrict(x: real, y: real, c: real)
    requires c > 0.0 && x < y
    ensures x * c < y * c
  {
  }

  /** Dividing out a positive factor keeps <=. */
  lemma MulLeCancel(x: real, y: real, c: real)
    requires c > 0.0 && x * c <= y * c
    ensures x <= y
  {
  }

  /** Dividing out a positive factor keeps <. */
  lemma MulLtCancel(x: real, y: real, c: real)
    requires c > 0.0 && x * c < y * c
    ensures x < y
  {
  }

  /** One more factor: (f + 1) * c == f * c + c. */
  lemma MulSucc(f: real, c: real)
    ensures (f + 1.0) * c == f * c + c
  {
  }

  /** `modulo(a, b)`: floored remainder by repeated addition or subtraction of
      the divisor. The source documents that b must be positive. */
  method Modulo(a: real, b: real) returns (r: real)
    requires b > 0.0
    ensures r == FloorMod(a, b)
    ensures 0.0 <= r < b
    ensures a - r == (a / b).Floor as real * b
    ensures 0.0 <= a < b ==> r == a
  {
    r := a;
    if r < 0.0 {
      ghost var k: int := 1;
      r := r + b;
      while r < 0.0
        invariant r == a + k as real * b
        invariant r - b < 0.0
        invariant k >= 1
        decreases (-a / b).Floor - k
      {
        BelowFloor(-a, b, k);
        MulSucc(k as real, b);
        r := r + b;
        k := k + 1;
      }
      NegTimes(k, b);
      FloorModUnique(a, b, r, -k);
    } else if r >= b {
      ghost var k: int := 1;
      r := r - b;
      while r >= b
        invariant r == a - k as real * b
        invariant r >= 0.0
        invariant k >= 1
        decreases (a / b).Floor - k
      {
        BelowFloor(a, b, k);
        MulSucc(k as real, b);
        r := r - b;
        k := k + 1;
      }
      FloorModUnique(a, b, r, k);
    } else {
      FloorModUnique(a, b, r, 0);
    }
  }

  /** Negating the integer factor negates the product. */
  lemma {:induction false} NegTimes(k: int, b: real)
    ensures (-k) as real * b == -(k as real * b)
  {
  }

  /** If k whole divisors fit strictly below u, then k is below the floor of
      u / b (the loops of Modulo run a bounded number of times). */
  lemma {:induction false} BelowFloor(u: real, b: real, k: int)
    requires b > 0.0
    requires k as real * b < u
    ensures k <= (u / b).Floor
  {
    var q := u / b;
    DivMul(u, b);
    MulLtCancel(k as real, q, b);
  }

  /** `wrap(double)`: maps a coordinate into [-1, 1) by shifting it by a
      multiple of 2. */
  method Wrap(value: real) returns (r: real)
    ensures r == Wrapped(value)
    ensures -1.0 <= r < 1.0
    ensures -1.0 <= value < 1.0 ==> r == value
  {
    r := Modulo(value + 1.0, 2.0);
    r := r - 1.0;
  }

  /** `clamp(double)`: the nearest point of [-1, 1]. */
  function Clamp(val: real): (r: real)
    ensures -1.0 <= r <= 1.0
    ensures -1.0 <= val <= 1.0 ==> r == val
  {
    if val < -1.0 then -1.0
    else if val > 1.0 then 1.0
    else val
  }

  /** Wrapped values lie in [-1, 1). */
  lemma WrappedRange(v: real)
    ensures -1.0 <= Wrapped(v) < 1.0
  {
    FloorModRange(v + 1.0, 2.0);
  }

  /** Wrapping leaves values already in [-1, 1) untouched. */
  lemma WrappedFixed(v: real)
    requires -1.0 <= v < 1.0
    ensures Wrapped(v) == v
  {
    FloorModUnique(v + 1.0, 2.0, v + 1.0, 0);
  }

  /** Wrapping twice is wrapping once. */
  lemma WrappedIdempotent(v: real)
    ensures Wrapped(Wrapped(v)) == Wrapped(v)
  {
    WrappedRange(v);
    WrappedFixed(Wrapped(v));
  }

  /** A wrapped value differs from the input by an integer multiple of 2. */
  lemma WrappedShift(v: real)
    ensures Wrapped(v) - v == -2.0 * ((v + 1.0) / 2.0).Floor as real
  {
  }

  /** Shifting the input by any whole multiple of 2 does not change where it
      wraps to: wrapping is periodic with period 2. */
  lemma {:induction false} WrappedPeriodic(v: real, k: int)
    ensures Wrapped(v + 2.0 * k as real) == Wrapped(v)
  {
    var fl := ((v + 1.0) / 2.0).Floor;
    FloorModRange(v + 1.0, 2.0);
    FloorModUnique(v + 2.0 * k as real + 1.0, 2.0, FloorMod(v + 1.0, 2.0), fl + k);
  }

  /** Among all the displacements d + 2k that describe the same pair of
      points on the wrapped domain, the wrapped one is the shortest: this is
      why `wrap(b - a)` gives the shortest path from a to b. */
  lemma {:induction false} WrappedShortest(d: real, k: int)
    ensures Dist(Wrapped(d), 0.0) <= Dist(d + 2.0 * k as real, 0.0)
  {
    var w := Wrapped(d);
    var m := k + ((d + 1.0) / 2.0).Floor;
    WrappedRange(d);
    WrappedShift(d);
    assert d + 2.0 * k as real == w + 2.0 * m as real;
  }

  /** Clamping twice is clamping once. */
  lemma ClampIdempotent(v: real)
    ensures Clamp(Clamp(v)) == Clamp(v)
  {
  }

  /** The clamped value is the point of [-1, 1] nearest to the input. */
  lemma ClampNearest(v: real, y: real)
    requires -1.0 <= y <= 1.0
    ensures Dist(Clamp(v), v) <= Dist(y, v)
  {
  }

  /** The documented scalar examples: 0.4, -1.3 and 2.0 wrap to 0.4, 0.7 and
      0.0. */
  lemma WrapExamples()
    ensures Wrapped(0.4) == 0.4
    ensures Wrapped(-1.3) == 0.7
    ensures Wrapped(2.0) == 0.0
  {
    WrappedFixed(0.4);
    FloorModUnique(-0.3, 2.0, 1.7, -1);
    FloorModUnique(3.0, 2.0, 1.0, 1);
  }

  /** A JOML `Vector3d`: three mutable coordinates. */
  class Vector3d {
    var x: real
    var y: real
    var z: real

    constructor (x: real, y: real, z: real)
      ensures this.x == x && this.y == y && this.z == z
    {
      this.x, this.y, this.z := x, y, z;
    }
  }

  /** `wrap(Vector3d)`: wraps x and y in place and sets z to 0. */
  method WrapVector(v: Vector3d)
    modifies v
    ensures v.x == Wrapped(old(v.x)) && v.y == Wrapped(old(v.y)) && v.z == 0.0
  {
    v.x := Wrap(v.x);
    v.y := Wrap(v.y);
    v.z := 0.0;
  }

  /** `clamp(Vector3d)`: clamps x and y in place and sets z to 0. */
  method ClampVector(v: Vector3d)
    modifies v
    ensures v.x == Clamp(old(v.x)) && v.y == Clamp(old(v.y)) && v.z == 0.0
  {
    v.x := Clamp(v.x);
    v.y := Clamp(v.y);
    v.z := 0.0;
  }

  /** The documented vector examples on (0.4, -1.3, 2.0): wrapping gives
      (0.4, 0.7, 0.0) as documented; clamping gives (0.4, -1.0, 0.0), not the
      documented (0.4, -1.0, 1.0), because the code sets z to 0. */
  method VectorExamples() returns (wrapped: (real, real, real), clamped: (real, real, real))
    ensures wrapped == (0.4, 0.7, 0.0)
    ensures clamped == (0.4, -1.0, 0.0)
  {
    var w := new Vector3d(0.4, -1.3, 2.0);
    WrapVector(w);
    WrapExamples();
    wrapped := (w.x, w.y, w.z);
    var c := new Vector3d(0.4, -1.3, 2.0);
    ClampVector(c);
    clamped := (c.x, c.y, c.z);
  }
}
