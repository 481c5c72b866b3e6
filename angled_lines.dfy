/**
 * The integer pixel offsets of toPath.ts: `repeat`, the angled sampling kernel
 * `createAngledKernel`, and the `angleBasedIncrement` generator. The tangent of the
 * angle is a parameter (the result of `Math.tan`).
 */
module AngledLines {
  import opened JsMath

  /** repeat: `n` copies of `what`; a count of 0 or less gives none. */
  method Repeat<T>(what: T, n: int) returns (arr: seq<T>)
    ensures |arr| == if n > 0 then n else 0
    ensures forall i :: 0 <= i < |arr| ==> arr[i] == what
  {
    arr := [];
    var i := 0;
    while i < n
      invariant 0 <= i <= if n > 0 then n else 0
      invariant |arr| == i
      invariant forall k :: 0 <= k < i ==> arr[k] == what
    {
      arr := arr + [what];
      i := i + 1;
    }
  }

  // ---------------------------------------------------------------------------
  // createAngledKernel

  /** The centre row of a kernel of `size` rows, `(size - 1) / 2`. */
  function KernelCentre(size: int): real
  {
    (size - 1) as real / 2.0
  }

  /** Offset y of the kernel: `Math.round(tangent * (y - center))`. */
  function KernelOffset(tangent: real, size: int, y: int): int
  {
    Round(tangent * (y as real - KernelCentre(size)))
  }

  /** The `size` offsets createAngledKernel returns, one per kernel row. */
  function AngledKernel(tangent: real, size: int): (kernel: seq<int>)
    ensures |kernel| == if size > 0 then size else 0
  {
    seq(if size > 0 then size else 0, y requires 0 <= y => KernelOffset(tangent, size, y))
  }

  /** createAngledKernel, with `Math.tan(angleDegrees * PI / 180)` given as `tangent`. */
  method CreateAngledKernel(tangent: real, size: int) returns (kernel: seq<int>)
    ensures kernel == AngledKernel(tangent, size)
  {
    var center := KernelCentre(size);
    kernel := [];
    var y := 0;
    while y < size
      invariant 0 <= y <= if size > 0 then size else 0
      invariant kernel == AngledKernel(tangent, size)[..y]
    {
      var xOffset := tangent * (y as real - center);
      assert AngledKernel(tangent, size)[y] == KernelOffset(tangent, size, y) == Round(xOffset);
      assert AngledKernel(tangent, size)[..y + 1] == AngledKernel(tangent, size)[..y] + [KernelOffset(tangent, size, y)];
      kernel := kernel + [Round(xOffset)];
      y := y + 1;
    }
  }

  /** Offset y of the kernel is the rounded tangent times y's distance from the centre row. */
  lemma AngledKernelEntry(tangent: real, size: int, y: nat)
    requires y < size
    ensures AngledKernel(tangent, size)[y] == Round(tangent * (y as real - (size - 1) as real / 2.0))
  {
  }

  /** For an odd size the centre row has offset 0. */
  lemma AngledKernelCentre(tangent: real, m: nat)
    ensures AngledKernel(tangent, 2 * m + 1)[m] == 0
  {
    assert m as real - (2 * m + 1 - 1) as real / 2.0 == 0.0;
    RoundOfInteger(tangent * 0.0, 0);
  }

  /** For a non-negative tangent the offsets are non-decreasing. */
  lemma AngledKernelMonotone(tangent: real, size: int, y1: nat, y2: nat)
    requires tangent >= 0.0 && y1 <= y2 < size
    ensures AngledKernel(tangent, size)[y1] <= AngledKernel(tangent, size)[y2]
  {
    var c := (size - 1) as real / 2.0;
    var a := y1 as real - c;
    var b := y2 as real - c;
    assert tangent * b - tangent * a == tangent * (b - a);
    RoundMonotone(tangent * a, tangent * b);
  }

  // ---------------------------------------------------------------------------
  // angleBasedIncrement

  /** The k-th value (from 0) the generator yields: `Math.round(dx * k + initVal)`. */
  function IncrementAt(dx: real, initVal: real, k: nat): int
  {
    Round(dx * k as real + initVal)
  }

  /**
   * angleBasedIncrement as a cursor: `y` counts the values yielded so far and `dx` is the
   * tangent of the angle (a parameter).
   */
  class AngleBasedIncrement {
    const dx: real
    const initVal: real
    var y: nat

    /** A fresh generator, before its first value. */
    constructor (dx: real, initVal: real)
      ensures this.dx == dx && this.initVal == initVal && y == 0
    {
      this.dx := dx;
      this.initVal := initVal;
      y := 0;
    }

    /** `next().value`: the value for the current y, after which y advances by one. */
    method Next() returns (value: int)
      modifies this
      ensures value == IncrementAt(dx, initVal, old(y))
      ensures y == old(y) + 1
    {
      var exactX := dx * y as real;
      value := Round(exactX + initVal);
      y := y + 1;
    }
  }

  /** The first value a generator yields is `Math.round(initVal)`. */
  lemma FirstIncrement(dx: real, initVal: real)
    ensures IncrementAt(dx, initVal, 0) == Round(initVal)
  {
    assert dx * 0 as real + initVal == initVal;
  }

  /** Successive values are within the rounded slope of each other: value k+1 lies in [value k + dx - 1, value k + dx + 1]. */
  lemma IncrementStep(dx: real, initVal: real, k: nat)
    ensures dx - 1.0 < (IncrementAt(dx, initVal, k + 1) - IncrementAt(dx, initVal, k)) as real < dx + 1.0
  {
    assert dx * (k + 1) as real + initVal == dx * k as real + initVal + dx;
  }

  /** For a non-negative slope the generated values never decrease. */
  lemma IncrementMonotone(dx: real, initVal: real, k1: nat, k2: nat)
    requires dx >= 0.0 && k1 <= k2
    ensures IncrementAt(dx, initVal, k1) <= IncrementAt(dx, initVal, k2)
  {
    assert dx * k2 as real - dx * k1 as real == dx * (k2 - k1) as real;
    RoundMonotone(dx * k1 as real + initVal, dx * k2 as real + initVal);
  }
}
