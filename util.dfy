/**
 * The raster-matrix utilities of util.ts: bins, snapping to a step, the
 * per-cell grid filters, NaN removal, running extrema, centring ragged rows,
 * the valid-region convolution, uniform kernels, and the pixel-buffer layout
 * around PNG encoding and decoding.
 *
 * Images are ragged grids `seq<seq<real>>`; where the source can read past a
 * row's end or produce NaN the cells are `Num` (None is NaN or `undefined`).
 */
module Util {
  import opened Wrappers
  import opened JsMath

  // ---------------------------------------------------------------------------
  // makeBins

  /** Entry `i` of `n` evenly spaced bins from `from` to `to`. */
  function Bin(from: real, to: real, n: int, i: int): real
    requires n >= 2
  {
    from + i as real * (to - from) / (n - 1) as real
  }

  /**
   * makeBins: `from`, then `from + stepSize * i` for 0 < i < n - 1, then `to`.
   * The step size is only used when the loop runs, so n == 1 (a division by
   * zero in the source) still gives [from, to].
   */
  method MakeBins(from: real, to: real, n: int) returns (bins: seq<real>)
    ensures |bins| == if n < 2 then 2 else n
    ensures bins[0] == from && bins[|bins| - 1] == to
    ensures n < 2 ==> bins == [from, to]
    ensures n >= 2 ==> forall i :: 0 <= i < n ==> bins[i] == Bin(from, to, n, i)
  {
    bins := [from];
    var delta := to - from;
    var stepSize := if n != 1 then delta / (n - 1) as real else 0.0;
    var i := 1;
    while i < n - 1
      invariant 1 <= i && (n >= 2 ==> i <= n - 1)
      invariant n < 2 ==> i == 1
      invariant |bins| == i
      invariant bins[0] == from
      invariant n >= 2 ==> forall k :: 0 <= k < i ==> bins[k] == Bin(from, to, n, k)
    {
      bins := bins + [from + stepSize * i as real];
      i := i + 1;
    }
    bins := bins + [to];
    if n >= 2 {
      LastBin(from, to, n);
    }
  }

  /** The formula reaches `to` at index n - 1. */
  lemma LastBin(from: real, to: real, n: int)
    requires n >= 2
    ensures Bin(from, to, n, n - 1) == to
  {
    var d := (n - 1) as real;
    assert (n - 1) as real * (to - from) / d == to - from;
  }

  /** Bins are evenly spaced: consecutive entries differ by (to - from) / (n - 1). */
  lemma BinsEvenlySpaced(from: real, to: real, n: int, i: int)
    requires n >= 2 && 0 <= i < n - 1
    ensures Bin(from, to, n, i + 1) - Bin(from, to, n, i) == (to - from) / (n - 1) as real
  {
    var d := (n - 1) as real;
    calc {
      Bin(from, to, n, i + 1) - Bin(from, to, n, i);
      (i + 1) as real * (to - from) / d - i as real * (to - from) / d;
      ((i + 1) as real * (to - from) - i as real * (to - from)) / d;
      (to - from) / d;
    }
  }

  /** With from <= to the bins are sorted. */
  lemma BinsSorted(from: real, to: real, n: int, i: int, j: int)
    requires n >= 2 && 0 <= i <= j < n && from <= to
    ensures Bin(from, to, n, i) <= Bin(from, to, n, j)
  {
    var d := (n - 1) as real;
    var q := (to - from) / d;
    assert q >= 0.0;
    assert i as real * (to - from) / d == i as real * q;
    assert j as real * (to - from) / d == j as real * q;
    assert i as real * q <= j as real * q;
  }

  // ---------------------------------------------------------------------------
  // findClosestStepIncrement, downsampleBWImage, round

  /**
   * findClosestStepIncrement: `Math.round(num / step) * step`. A zero step
   * divides by zero and the product is NaN (None).
   */
  function FindClosestStepIncrement(num: real, step: real): (r: Num)
    ensures r.Some? <==> step != 0.0
    ensures step != 0.0 ==> Abs(r.value - num) <= Abs(step) / 2.0
  {
    if step == 0.0 then None else Some(NearestMultiple(num, step))
  }

  /** The multiple of a non-zero step nearest to num. */
  function NearestMultiple(num: real, step: real): (r: real)
    requires step != 0.0
    ensures Abs(r - num) <= Abs(step) / 2.0
  {
    NearestMultipleBound(num, step, Round(num / step));
    Round(num / step) as real * step
  }

  /** |n*step - num| <= |step|/2 when n is the rounded quotient. */
  lemma NearestMultipleBound(num: real, step: real, n: int)
    requires step != 0.0 && n == Round(num / step)
    ensures Abs(n as real * step - num) <= Abs(step) / 2.0
  {
    var q := num / step;
    assert num == q * step;
    var e := n as real - q;
    assert -0.5 <= e <= 0.5;
    assert n as real * step - num == e * step;
    if step > 0.0 {
      assert -0.5 * step <= e * step <= 0.5 * step;
    } else {
      assert 0.5 * step <= e * step <= -0.5 * step;
    }
  }

  /** (n * b) / b is the integer n again. */
  lemma MulDivCancel(n: int, b: real)
    requires b != 0.0
    ensures n as real * b / b == n as real
  {
  }

  /** The snapped value is a whole multiple of the step. */
  lemma FindClosestStepIncrementOnGrid(num: real, step: real)
    requires step != 0.0
    ensures IsInteger(FindClosestStepIncrement(num, step).value / step)
  {
    var n := Round(num / step);
    var r := n as real * step;
    assert NearestMultiple(num, step) == r;
    MulDivCancel(n, step);
    var q := r / step;
    assert q == n as real;
    IntegerIsInteger(q, n);
  }

  /** Snapping an already snapped value changes nothing. */
  lemma FindClosestStepIncrementIdempotent(num: real, step: real)
    requires step != 0.0
    ensures FindClosestStepIncrement(FindClosestStepIncrement(num, step).value, step)
            == FindClosestStepIncrement(num, step)
  {
    var n := Round(num / step);
    var r := n as real * step;
    assert NearestMultiple(num, step) == r;
    MulDivCancel(n, step);
    var q := r / step;
    assert q == n as real;
    RoundOfInteger(q, n);
    assert NearestMultiple(r, step) == Round(q) as real * step;
  }

  /**
   * The step that downsampleBWImage snaps to, `(nColors - 1) ** -1`;
   * None stands for Infinity when nColors == 1.
   */
  function ColorStep(nColors: real): Num
  {
    if nColors == 1.0 then None else Some(1.0 / (nColors - 1.0))
  }

  /** One pixel of downsampleBWImage. */
  function DownsamplePixel(px: real, nColors: real): (r: Num)
    ensures r.Some? <==> nColors != 1.0
    ensures nColors != 1.0 ==> Abs(r.value - px) <= Abs(1.0 / (nColors - 1.0)) / 2.0
    ensures nColors != 1.0 ==> IsInteger(r.value / (1.0 / (nColors - 1.0)))
  {
    match ColorStep(nColors)
    case None => None
    case Some(step) =>
      FindClosestStepIncrementOnGrid(px, step);
      FindClosestStepIncrement(px, step)
  }

  /**
   * downsampleBWImage: every pixel snapped to the nearest multiple of
   * 1 / (nColors - 1), a colour level. With nColors == 1 the step is Infinity and
   * `Math.round(px / Infinity) * Infinity` is `0 * Infinity`, NaN.
   */
  function DownsampleBWImage(img: seq<seq<real>>, nColors: real): (out: seq<seq<Num>>)
    ensures |out| == |img|
    ensures forall i :: 0 <= i < |img| ==> |out[i]| == |img[i]|
    ensures forall i, j :: 0 <= i < |img| && 0 <= j < |img[i]| ==>
              (out[i][j].Some? <==> nColors != 1.0)
    ensures forall i, j :: 0 <= i < |img| && 0 <= j < |img[i]| && nColors != 1.0 ==>
              Abs(out[i][j].value - img[i][j]) <= Abs(1.0 / (nColors - 1.0)) / 2.0
    ensures forall i, j :: 0 <= i < |img| && 0 <= j < |img[i]| && nColors != 1.0 ==>
              IsInteger(out[i][j].value / (1.0 / (nColors - 1.0)))
  {
    seq(|img|, i requires 0 <= i < |img| =>
      seq(|img[i]|, j requires 0 <= j < |img[i]| =>
        DownsamplePixel(img[i][j], nColors)))
  }

  /** `10 ** n` for an integer exponent. */
  function Pow10(n: int): (r: real)
    ensures r > 0.0
    decreases IntAbs(n)
  {
    if n == 0 then 1.0 else if n > 0 then 10.0 * Pow10(n - 1) else Pow10(n + 1) / 10.0
  }

  /** round(x, nPrec): `Math.round(x * 10**nPrec) / 10**nPrec`. */
  function RoundToPrecision(x: real, nPrec: int): real
  {
    RoundScaled(x, Pow10(nPrec))
  }

  /** Math.round(x * factor) / factor. */
  function RoundScaled(x: real, factor: real): real
    requires factor > 0.0
  {
    Round(x * factor) as real / factor
  }

  /** Rounding error and exactness of n / f for the rounded n. */
  lemma PrecisionBound(x: real, f: real, n: int)
    requires f > 0.0 && -0.5 <= n as real - x * f <= 0.5
    ensures Abs(n as real / f - x) <= 0.5 / f
    ensures (n as real / f) * f == n as real
  {
    var e := n as real - x * f;
    assert -0.5 <= e <= 0.5;
    assert n as real / f - x == e / f;
  }

  /** Math.round(x * f) / f is within 1/(2f) of x and a whole number of units 1/f; round(x, nPrec) is the case f = 10**nPrec. */
  lemma RoundScaledOnGrid(x: real, f: real)
    requires f > 0.0
    ensures Abs(RoundScaled(x, f) - x) <= 0.5 / f
    ensures IsInteger(RoundScaled(x, f) * f)
  {
    var n := Round(x * f);
    var r := n as real / f;
    assert RoundScaled(x, f) == r;
    PrecisionBound(x, f, n);
    assert RoundScaled(x, f) * f == n as real;
    IntegerIsInteger(RoundScaled(x, f) * f, n);
  }

  // ---------------------------------------------------------------------------
  // sum, abs, max, min

  /** sum: `arr.reduce((a, b) => a + b, 0)`, a left fold. */
  function Sum(arr: seq<real>): real
  {
    if arr == [] then 0.0 else Sum(arr[..|arr| - 1]) + arr[|arr| - 1]
  }

  /** The sum of a concatenation is the sum of the parts. */
  lemma {:induction false} SumAppend(a: seq<real>, b: seq<real>)
    ensures Sum(a + b) == Sum(a) + Sum(b)
    decreases |b|
  {
    if b == [] {
      assert a + b == a;
    } else {
      var b' := b[..|b| - 1];
      assert (a + b)[..|a + b| - 1] == a + b';
      SumAppend(a, b');
    }
  }

  /** n copies of c sum to n * c. */
  lemma {:induction false} SumConstant(arr: seq<real>, c: real)
    requires forall i :: 0 <= i < |arr| ==> arr[i] == c
    ensures Sum(arr) == |arr| as real * c
    decreases |arr|
  {
    if arr != [] {
      SumConstant(arr[..|arr| - 1], c);
    }
  }

  /** Every element in [lo, hi] puts the sum in [n*lo, n*hi]. */
  lemma {:induction false} SumBounds(arr: seq<real>, lo: real, hi: real)
    requires forall i :: 0 <= i < |arr| ==> lo <= arr[i] <= hi
    ensures |arr| as real * lo <= Sum(arr) <= |arr| as real * hi
    decreases |arr|
  {
    if arr != [] {
      SumBounds(arr[..|arr| - 1], lo, hi);
    }
  }

  /** abs on an array: `arr.map(Math.abs)`. */
  function AbsAll(arr: seq<real>): (r: seq<real>)
    ensures |r| == |arr|
    ensures forall i :: 0 <= i < |arr| ==> r[i] >= 0.0 && (r[i] == arr[i] || r[i] == -arr[i])
  {
    seq(|arr|, i requires 0 <= i < |arr| => Abs(arr[i]))
  }

  /** max: a running maximum that starts at -Infinity. */
  method Max(arr: seq<real>) returns (m: Extended)
    ensures arr == [] <==> m == NegInf
    ensures m != PosInf
    ensures m.Finite? ==> m.value in arr && forall e :: e in arr ==> e <= m.value
  {
    m := NegInf;
    for i := 0 to |arr|
      invariant i == 0 <==> m == NegInf
      invariant m != PosInf
      invariant m.Finite? ==> m.value in arr[..i] && forall k :: 0 <= k < i ==> arr[k] <= m.value
    {
      var e := arr[i];
      if m.NegInf? || e > m.value {
        m := Finite(e);
      }
    }
    assert arr[..|arr|] == arr;
  }

  /** min: a running minimum that starts at +Infinity. */
  method Min(arr: seq<real>) returns (m: Extended)
    ensures arr == [] <==> m == PosInf
    ensures m != NegInf
    ensures m.Finite? ==> m.value in arr && forall e :: e in arr ==> m.value <= e
  {
    m := PosInf;
    for i := 0 to |arr|
      invariant i == 0 <==> m == PosInf
      invariant m != NegInf
      invariant m.Finite? ==> m.value in arr[..i] && forall k :: 0 <= k < i ==> m.value <= arr[k]
    {
      var e := arr[i];
      if m.PosInf? || e < m.value {
        m := Finite(e);
      }
    }
    assert arr[..|arr|] == arr;
  }

  // ---------------------------------------------------------------------------
  // makeWhiteOffWhite, invertImage

  /** The row length both filters use for every row: the first row's length. */
  function FirstWidth<T>(img: seq<seq<T>>): nat
  {
    if img == [] then 0 else |img[0]|
  }

  /** Every row is as long as the first. */
  predicate Rectangular<T>(img: seq<seq<T>>)
  {
    forall i :: 0 <= i < |img| ==> |img[i]| == FirstWidth(img)
  }

  /** `img[i][j]` as JavaScript reads it: `undefined` (None) past the end of row i. */
  function CellAt(img: seq<seq<Num>>, i: nat, j: nat): Num
    requires i < |img|
  {
    if j < |img[i]| then img[i][j] else None
  }

  /** `v >= .95 ? .95 : v`; NaN and `undefined` fail the comparison and are kept. */
  function OffWhite(v: Num): Num
  {
    match v
    case Some(x) => if x >= 0.95 then Some(0.95) else v
    case None => None
  }

  /** `1 - v`; NaN and `undefined` give NaN. */
  function InvertCell(v: Num): Num
  {
    match v
    case Some(x) => Some(1.0 - x)
    case None => None
  }

  /** The grid makeWhiteOffWhite builds: |img| rows of FirstWidth(img) cells. */
  function OffWhiteImage(img: seq<seq<Num>>): seq<seq<Num>>
  {
    seq(|img|, i requires 0 <= i < |img| =>
      seq(FirstWidth(img), j requires 0 <= j < FirstWidth(img) => OffWhite(CellAt(img, i, j))))
  }

  /** The grid invertImage builds: |img| rows of FirstWidth(img) cells. */
  function InvertedImage(img: seq<seq<Num>>): seq<seq<Num>>
  {
    seq(|img|, i requires 0 <= i < |img| =>
      seq(FirstWidth(img), j requires 0 <= j < FirstWidth(img) => InvertCell(CellAt(img, i, j))))
  }

  /** makeWhiteOffWhite: row-by-row push loops over i < img.length, j < img[0].length. */
  method MakeWhiteOffWhite(img: seq<seq<Num>>) returns (out: seq<seq<Num>>)
    ensures out == OffWhiteImage(img)
  {
    out := [];
    for i := 0 to |img|
      invariant |out| == i
      invariant forall k :: 0 <= k < i ==> out[k] == OffWhiteImage(img)[k]
    {
      var row: seq<Num> := [];
      for j := 0 to |img[0]|
        invariant |row| == j
        invariant forall l :: 0 <= l < j ==> row[l] == OffWhite(CellAt(img, i, l))
      {
        var px := CellAt(img, i, j);
        row := row + [if px.Some? && px.value >= 0.95 then Some(0.95) else px];
      }
      out := out + [row];
    }
  }

  /** invertImage: row-by-row push loops over i < img.length, j < img[0].length. */
  method InvertImage(img: seq<seq<Num>>) returns (out: seq<seq<Num>>)
    ensures out == InvertedImage(img)
  {
    out := [];
    for i := 0 to |img|
      invariant |out| == i
      invariant forall k :: 0 <= k < i ==> out[k] == InvertedImage(img)[k]
    {
      var row: seq<Num> := [];
      for j := 0 to |img[0]|
        invariant |row| == j
        invariant forall l :: 0 <= l < j ==> row[l] == InvertCell(CellAt(img, i, l))
      {
        var px := CellAt(img, i, j);
        row := row + [if px.Some? then Some(1.0 - px.value) else None];
      }
      out := out + [row];
    }
  }

  /** A cell at or above .95 becomes .95, any other cell is kept, and missing cells read as NaN. */
  lemma OffWhiteImageCells(img: seq<seq<Num>>, i: nat, j: nat)
    requires i < |img| && j < FirstWidth(img)
    ensures |OffWhiteImage(img)| == |img| && |OffWhiteImage(img)[i]| == FirstWidth(img)
    ensures j < |img[i]| && img[i][j].Some? && img[i][j].value >= 0.95 ==> OffWhiteImage(img)[i][j] == Some(0.95)
    ensures j < |img[i]| && !(img[i][j].Some? && img[i][j].value >= 0.95) ==> OffWhiteImage(img)[i][j] == img[i][j]
    ensures j >= |img[i]| ==> OffWhiteImage(img)[i][j] == None
  {
  }

  /** No cell of the result is above .95. */
  lemma OffWhiteImageBounded(img: seq<seq<Num>>)
    ensures forall i, j :: 0 <= i < |img| && 0 <= j < FirstWidth(img) && OffWhiteImage(img)[i][j].Some?
              ==> OffWhiteImage(img)[i][j].value <= 0.95
  {
  }

  /** makeWhiteOffWhite is idempotent (on every grid, since its result is rectangular). */
  lemma OffWhiteImageIdempotent(img: seq<seq<Num>>)
    ensures OffWhiteImage(OffWhiteImage(img)) == OffWhiteImage(img)
  {
    var once := OffWhiteImage(img);
    assert FirstWidth(once) == FirstWidth(img);
    var twice := OffWhiteImage(once);
    forall i | 0 <= i < |img|
      ensures twice[i] == once[i]
    {
      forall j | 0 <= j < FirstWidth(img)
        ensures twice[i][j] == once[i][j]
      {
        assert CellAt(once, i, j) == once[i][j];
      }
    }
  }

  /** Each cell of invertImage's result is 1 - px; missing cells read as NaN. */
  lemma InvertedImageCells(img: seq<seq<Num>>, i: nat, j: nat)
    requires i < |img| && j < FirstWidth(img)
    ensures |InvertedImage(img)| == |img| && |InvertedImage(img)[i]| == FirstWidth(img)
    ensures j < |img[i]| && img[i][j].Some? ==> InvertedImage(img)[i][j] == Some(1.0 - img[i][j].value)
    ensures j >= |img[i]| || img[i][j].None? ==> InvertedImage(img)[i][j] == None
  {
  }

  /** On a rectangular grid, inverting twice gives the original back. */
  lemma InvertedImageInvolution(img: seq<seq<Num>>)
    requires Rectangular(img)
    ensures InvertedImage(InvertedImage(img)) == img
  {
    var once := InvertedImage(img);
    assert FirstWidth(once) == FirstWidth(img);
    var twice := InvertedImage(once);
    forall i | 0 <= i < |img|
      ensures twice[i] == img[i]
    {
      forall j | 0 <= j < FirstWidth(img)
        ensures twice[i][j] == img[i][j]
      {
        assert CellAt(once, i, j) == once[i][j];
        assert CellAt(img, i, j) == img[i][j];
      }
    }
  }

  // ---------------------------------------------------------------------------
  // clearNaN

  /** The items of arr that are not NaN, in their original order. */
  function NonNaN(arr: seq<Num>): seq<Num>
  {
    if arr == [] then []
    else NonNaN(arr[..|arr| - 1]) + (if arr[|arr| - 1].Some? then [arr[|arr| - 1]] else [])
  }

  /** clearNaN: pushes every item that is not NaN. */
  method ClearNaN(arr: seq<Num>) returns (newArr: seq<Num>)
    ensures newArr == NonNaN(arr)
  {
    newArr := [];
    for i := 0 to |arr|
      invariant newArr == NonNaN(arr[..i])
    {
      var item := arr[i];
      assert arr[..i + 1][..i] == arr[..i];
      if item.Some? {
        newArr := newArr + [item];
      }
    }
    assert arr[..|arr|] == arr;
  }

  /** Filtering a concatenation filters each part: the order of the kept items is preserved. */
  lemma {:induction false} NonNaNAppend(a: seq<Num>, b: seq<Num>)
    ensures NonNaN(a + b) == NonNaN(a) + NonNaN(b)
    decreases |b|
  {
    if b == [] {
      assert a + b == a;
    } else {
      var b' := b[..|b| - 1];
      assert (a + b)[..|a + b| - 1] == a + b';
      NonNaNAppend(a, b');
    }
  }

  /** The result holds no NaN, is no longer than the input, and keeps each number as often as it occurs. */
  lemma {:induction false} NonNaNContents(arr: seq<Num>)
    ensures None !in NonNaN(arr)
    ensures |NonNaN(arr)| <= |arr|
    ensures forall x: real :: multiset(NonNaN(arr))[Some(x)] == multiset(arr)[Some(x)]
    decreases |arr|
  {
    if arr != [] {
      var init := arr[..|arr| - 1];
      NonNaNContents(init);
      assert arr == init + [arr[|arr| - 1]];
    }
  }

  /** The result holds exactly the numbers of the input. */
  lemma {:induction false} NonNaNMembers(arr: seq<Num>)
    ensures forall v :: v in NonNaN(arr) <==> v in arr && v != None
    decreases |arr|
  {
    if arr != [] {
      var init := arr[..|arr| - 1];
      NonNaNMembers(init);
      assert arr == init + [arr[|arr| - 1]];
    }
  }

  /** An input without NaN comes back unchanged. */
  lemma {:induction false} NonNaNOfNumbers(arr: seq<Num>)
    requires None !in arr
    ensures NonNaN(arr) == arr
    decreases |arr|
  {
    if arr != [] {
      var init := arr[..|arr| - 1];
      assert arr == init + [arr[|arr| - 1]];
      NonNaNOfNumbers(init);
    }
  }

  /** clearNaN is idempotent. */
  lemma NonNaNIdempotent(arr: seq<Num>)
    ensures NonNaN(NonNaN(arr)) == NonNaN(arr)
  {
    NonNaNContents(arr);
    NonNaNOfNumbers(NonNaN(arr));
  }

  // ---------------------------------------------------------------------------
  // centerIrregularImageOnDiagonal

  /** The running `Math.max(maxWidth, image[y].length)` over all rows, starting at 0. */
  function MaxRowLength(image: seq<seq<real>>): (r: nat)
    ensures forall y :: 0 <= y < |image| ==> |image[y]| <= r
    ensures r == 0 || exists y :: 0 <= y < |image| && |image[y]| == r
  {
    if image == [] then 0
    else
      var init := image[..|image| - 1];
      assert forall y :: 0 <= y < |init| ==> init[y] == image[y];
      if |image[|image| - 1]| > MaxRowLength(init) then |image[|image| - 1]| else MaxRowLength(init)
  }

  /** `Math.floor((maxWidth - rowWidth) / 2)`: the zeros written before a row. */
  function LeftPadding(maxWidth: nat, rowWidth: nat): nat
    requires rowWidth <= maxWidth
  {
    (maxWidth - rowWidth) / 2
  }

  /** Cell (y, x) of the centred grid: the row's value if x falls inside the copied span, 0 elsewhere. */
  function CenteredCell(image: seq<seq<real>>, y: nat, x: nat): real
    requires y < |image|
  {
    var lp := LeftPadding(MaxRowLength(image), |image[y]|);
    if lp <= x < lp + |image[y]| then image[y][x - lp] else 0.0
  }

  /** Row y of the centred grid after its first `count` values are copied. */
  function PartlyCenteredRow(image: seq<seq<real>>, y: nat, count: nat): seq<real>
    requires y < |image| && count <= |image[y]|
  {
    var lp := LeftPadding(MaxRowLength(image), |image[y]|);
    seq(MaxRowLength(image), x requires 0 <= x < MaxRowLength(image) =>
      if lp <= x < lp + count then image[y][x - lp] else 0.0)
  }

  /** The grid centerIrregularImageOnDiagonal returns. */
  function CenteredImage(image: seq<seq<real>>): seq<seq<real>>
  {
    seq(|image|, y requires 0 <= y < |image| =>
      seq(MaxRowLength(image), x requires 0 <= x < MaxRowLength(image) => CenteredCell(image, y, x)))
  }

  /** The first loop of centerIrregularImageOnDiagonal: the running maximum of the row lengths. */
  method WidestRow(image: seq<seq<real>>) returns (maxWidth: nat)
    ensures maxWidth == MaxRowLength(image)
  {
    maxWidth := 0;
    for y := 0 to |image|
      invariant maxWidth == MaxRowLength(image[..y])
    {
      assert image[..y + 1][..y] == image[..y];
      maxWidth := if maxWidth > |image[y]| then maxWidth else |image[y]|;
    }
    assert image[..|image|] == image;
  }

  /** The inner loop: copy row y into a zero row at its left padding. */
  method CopyRow(image: seq<seq<real>>, y: nat, maxWidth: nat, zeroRow: seq<real>) returns (row: seq<real>)
    requires y < |image| && maxWidth == MaxRowLength(image)
    requires zeroRow == seq(maxWidth, _ => 0.0)
    ensures row == CenteredImage(image)[y]
  {
    var rowWidth := |image[y]|;
    var leftPadding := (maxWidth - rowWidth) / 2;
    row := zeroRow;
    assert row == PartlyCenteredRow(image, y, 0);
    for x := 0 to rowWidth
      invariant row == PartlyCenteredRow(image, y, x)
    {
      row := row[leftPadding + x := image[y][x]];
    }
    assert PartlyCenteredRow(image, y, rowWidth) == CenteredImage(image)[y];
  }

  /** centerIrregularImageOnDiagonal: find the widest row, fill a grid with zeros, copy each row to its padded position. */
  method CenterIrregularImageOnDiagonal(image: seq<seq<real>>) returns (centered: seq<seq<real>>)
    ensures centered == CenteredImage(image)
  {
    var height := |image|;
    var maxWidth := WidestRow(image);
    var zeroRow := seq(maxWidth, _ => 0.0);
    centered := seq(height, _ => zeroRow);
    for y := 0 to height
      invariant |centered| == height
      invariant forall k :: 0 <= k < y ==> centered[k] == CenteredImage(image)[k]
      invariant forall k :: y <= k < height ==> centered[k] == zeroRow
    {
      var row := CopyRow(image, y, maxWidth, centered[y]);
      centered := centered[y := row];
    }
  }

  /**
   * Centring: row y's values occupy the span starting at its left padding, and the zeros to
   * its right number the left padding or one more.
   */
  lemma CenteredRowPlacement(image: seq<seq<real>>, y: nat)
    requires y < |image|
    ensures |CenteredImage(image)| == |image| && |CenteredImage(image)[y]| == MaxRowLength(image)
    ensures LeftPadding(MaxRowLength(image), |image[y]|) + |image[y]| <= MaxRowLength(image)
    ensures CenteredImage(image)[y][LeftPadding(MaxRowLength(image), |image[y]|)..
              LeftPadding(MaxRowLength(image), |image[y]|) + |image[y]|] == image[y]
    ensures LeftPadding(MaxRowLength(image), |image[y]|)
              <= MaxRowLength(image) - LeftPadding(MaxRowLength(image), |image[y]|) - |image[y]|
              <= LeftPadding(MaxRowLength(image), |image[y]|) + 1
  {
  }

  /** Every cell outside a row's copied span is 0. */
  lemma CenteredPaddingIsZero(image: seq<seq<real>>, y: nat, x: nat)
    requires y < |image| && x < MaxRowLength(image)
    requires x < LeftPadding(MaxRowLength(image), |image[y]|)
          || x >= LeftPadding(MaxRowLength(image), |image[y]|) + |image[y]|
    ensures CenteredImage(image)[y][x] == 0.0
  {
  }

  /** A widest row is copied unchanged, with no padding. */
  lemma CenteredWidestRow(image: seq<seq<real>>, y: nat)
    requires y < |image| && |image[y]| == MaxRowLength(image)
    ensures CenteredImage(image)[y] == image[y]
  {
    var m := MaxRowLength(image);
    var row := CenteredImage(image)[y];
    CenteredRowPlacement(image, y);
    assert LeftPadding(m, |image[y]|) == 0;
    assert row[0..m] == image[y];
    assert row[0..|row|] == row;
  }

  // ---------------------------------------------------------------------------
  // convolution2D

  /** `Math.min(...rows.map(r => r.length))` over a nonempty list of rows. */
  function MinRowLength(rows: seq<seq<real>>): (r: nat)
    requires |rows| > 0
    ensures forall k :: 0 <= k < |rows| ==> r <= |rows[k]|
    ensures exists k :: 0 <= k < |rows| && |rows[k]| == r
  {
    if |rows| == 1 then |rows[0]|
    else
      var init := rows[..|rows| - 1];
      assert forall k :: 0 <= k < |init| ==> init[k] == rows[k];
      if |rows[|rows| - 1]| < MinRowLength(init) then |rows[|rows| - 1]| else MinRowLength(init)
  }

  /** The kernel shape convolution2D reads without hitting `undefined`: some row, and no row shorter than the first. */
  predicate KernelShaped(kernel: seq<seq<real>>)
  {
    |kernel| > 0 && forall k :: 0 <= k < |kernel| ==> |kernel[0]| <= |kernel[k]|
  }

  /** `blockMinWidth` for the block of kernel-height rows starting at row i. */
  function BlockMinWidth(img: seq<seq<real>>, kernelHeight: nat, i: nat): nat
    requires 0 < kernelHeight && i + kernelHeight <= |img|
  {
    MinRowLength(img[i..i + kernelHeight])
  }

  /** `Σ_{l < n} row[j + l] * krow[l]`, accumulated in the order of the source's innermost loop. */
  function RowProducts(row: seq<real>, krow: seq<real>, j: nat, n: nat): real
    requires j + n <= |row| && n <= |krow|
  {
    if n == 0 then 0.0 else RowProducts(row, krow, j, n - 1) + row[j + n - 1] * krow[n - 1]
  }

  /** Image row r exists and is long enough for a window of kernelWidth columns starting at column j. */
  predicate RowFits(img: seq<seq<real>>, r: nat, j: nat, kernelWidth: nat)
  {
    r < |img| && j + kernelWidth <= |img[r]|
  }

  /** Whether the kernel rows 0..m-1 fit over image rows i.. at column j for kernelWidth columns. */
  predicate Fits(img: seq<seq<real>>, kernel: seq<seq<real>>, i: nat, j: nat, m: nat, kernelWidth: nat)
  {
    i + m <= |img| && m <= |kernel|
    && (forall r :: i <= r < i + m ==> RowFits(img, r, j, kernelWidth))
    && (forall k :: 0 <= k < m ==> kernelWidth <= |kernel[k]|)
  }

  /** `Σ_{k < m, l < kernelWidth} img[i + k][j + l] * kernel[k][l]`, row by row. */
  function BlockSum(img: seq<seq<real>>, kernel: seq<seq<real>>, i: nat, j: nat, m: nat, kernelWidth: nat): real
    requires Fits(img, kernel, i, j, m, kernelWidth)
  {
    if m == 0 then 0.0
    else
      assert RowFits(img, i + m - 1, j, kernelWidth);
      BlockSum(img, kernel, i, j, m - 1, kernelWidth) + RowProducts(img[i + m - 1], kernel[m - 1], j, kernelWidth)
  }

  /** The number of output values for block i: `blockMinWidth - kernelWidth + 1`, or none. */
  function BlockRowLength(img: seq<seq<real>>, kernel: seq<seq<real>>, i: nat): nat
    requires KernelShaped(kernel) && i + |kernel| <= |img|
  {
    if BlockMinWidth(img, |kernel|, i) >= |kernel[0]| then BlockMinWidth(img, |kernel|, i) - |kernel[0]| + 1 else 0
  }

  /** The row the source builds for block i. */
  function BlockRow(img: seq<seq<real>>, kernel: seq<seq<real>>, i: nat): (row: seq<real>)
    requires KernelShaped(kernel) && i + |kernel| <= |img|
    ensures |row| == BlockRowLength(img, kernel, i)
  {
    seq(BlockRowLength(img, kernel, i), j requires 0 <= j < BlockRowLength(img, kernel, i) =>
      BlockFits(img, kernel, i, j);
      BlockSum(img, kernel, i, j, |kernel|, |kernel[0]|))
  }

  /** Below `blockMinWidth - kernelWidth + 1` the whole kernel fits, so the source's `valid` check always holds. */
  lemma BlockFits(img: seq<seq<real>>, kernel: seq<seq<real>>, i: nat, j: nat)
    requires KernelShaped(kernel) && i + |kernel| <= |img|
    requires j + |kernel[0]| <= BlockMinWidth(img, |kernel|, i)
    ensures Fits(img, kernel, i, j, |kernel|, |kernel[0]|)
  {
    var block := img[i..i + |kernel|];
    forall r | i <= r < i + |kernel|
      ensures RowFits(img, r, j, |kernel[0]|)
    {
      assert block[r - i] == img[r];
    }
  }

  /** The rows the source outputs for the blocks 0..n-1: each block's row, if it is nonempty. */
  function BlockRows(img: seq<seq<real>>, kernel: seq<seq<real>>, n: nat): seq<seq<real>>
    requires KernelShaped(kernel) && n + |kernel| <= |img| + 1
  {
    if n == 0 then []
    else BlockRows(img, kernel, n - 1)
         + (if BlockRowLength(img, kernel, n - 1) > 0 then [BlockRow(img, kernel, n - 1)] else [])
  }

  /** What convolution2D returns: nothing for an empty image, else the nonempty rows of every block. */
  function Convolution(img: seq<seq<real>>, kernel: seq<seq<real>>): seq<seq<real>>
    requires |img| > 0 ==> KernelShaped(kernel)
  {
    if |img| == 0 || |kernel| > |img| then [] else BlockRows(img, kernel, |img| - |kernel| + 1)
  }

  /** The source's `valid` check: every kernel row lands on an image row long enough for the window at column j. */
  method WindowFits(img: seq<seq<real>>, i: nat, j: nat, kernelHeight: nat, kernelWidth: nat) returns (valid: bool)
    ensures valid <==> forall r :: i <= r < i + kernelHeight ==> RowFits(img, r, j, kernelWidth)
  {
    valid := true;
    var k := 0;
    while k < kernelHeight && valid
      invariant k <= kernelHeight
      invariant valid
      invariant forall r :: i <= r < i + k ==> RowFits(img, r, j, kernelWidth)
    {
      if i + k >= |img| || |img[i + k]| < j + kernelWidth {
        valid := false;
        assert !RowFits(img, i + k, j, kernelWidth);
        break;
      }
      k := k + 1;
    }
  }

  /** The source's nested `sum +=` loops over the kernel window at (i, j). */
  method WindowSum(img: seq<seq<real>>, kernel: seq<seq<real>>, i: nat, j: nat, kernelHeight: nat, kernelWidth: nat)
    returns (sum: real)
    requires Fits(img, kernel, i, j, kernelHeight, kernelWidth)
    ensures sum == BlockSum(img, kernel, i, j, kernelHeight, kernelWidth)
  {
    sum := 0.0;
    for k := 0 to kernelHeight
      invariant sum == BlockSum(img, kernel, i, j, k, kernelWidth)
    {
      assert RowFits(img, i + k, j, kernelWidth);
      ghost var before := sum;
      for l := 0 to kernelWidth
        invariant sum == before + RowProducts(img[i + k], kernel[k], j, l)
      {
        sum := sum + img[i + k][j + l] * kernel[k][l];
      }
    }
  }

  /** The inner loop of convolution2D over block i: one value per column where the kernel fits. */
  method BlockRowValues(img: seq<seq<real>>, kernel: seq<seq<real>>, i: nat) returns (row: seq<real>)
    requires KernelShaped(kernel) && i + |kernel| <= |img|
    ensures row == BlockRow(img, kernel, i)
  {
    var kernelHeight := |kernel|;
    var kernelWidth := |kernel[0]|;
    row := [];
    var blockMinWidth := MinRowLength(img[i..i + kernelHeight]);
    var j := 0;
    while j <= blockMinWidth - kernelWidth
      invariant j <= BlockRowLength(img, kernel, i)
      invariant row == BlockRow(img, kernel, i)[..j]
    {
      BlockFits(img, kernel, i, j);
      var valid := WindowFits(img, i, j, kernelHeight, kernelWidth);
      if valid {
        var sum := WindowSum(img, kernel, i, j, kernelHeight, kernelWidth);
        row := row + [sum];
      }
      j := j + 1;
    }
    assert row == BlockRow(img, kernel, i);
  }

  /** convolution2D: the "valid" 2-D convolution over ragged rows. */
  method Convolution2D(img: seq<seq<real>>, kernel: seq<seq<real>>) returns (out: seq<seq<real>>)
    requires |img| > 0 ==> KernelShaped(kernel)
    ensures out == Convolution(img, kernel)
  {
    if |img| == 0 {
      return [];
    }
    var kernelHeight := |kernel|;
    out := [];
    if kernelHeight > |img| {
      return;
    }
    for i := 0 to |img| - kernelHeight + 1
      invariant out == BlockRows(img, kernel, i)
    {
      var row := BlockRowValues(img, kernel, i);
      if |row| > 0 {
        out := out + [row];
      }
    }
  }

  /** An empty image gives no rows. */
  lemma ConvolutionOfEmpty(kernel: seq<seq<real>>)
    ensures Convolution([], kernel) == []
  {
  }

  /** The blocks 0..n-1 give at most n rows, none of them empty, each the row of some block. */
  lemma {:induction false} BlockRowsShape(img: seq<seq<real>>, kernel: seq<seq<real>>, n: nat)
    requires KernelShaped(kernel) && n + |kernel| <= |img| + 1
    ensures |BlockRows(img, kernel, n)| <= n
    ensures forall p :: 0 <= p < |BlockRows(img, kernel, n)| ==>
              |BlockRows(img, kernel, n)[p]| > 0
              && exists i :: 0 <= i < n && BlockRows(img, kernel, n)[p] == BlockRow(img, kernel, i)
  {
    if n > 0 {
      BlockRowsShape(img, kernel, n - 1);
    }
  }

  /** When every block is at least as wide as the kernel, block i gives output row i. */
  lemma {:induction false} BlockRowsAllKept(img: seq<seq<real>>, kernel: seq<seq<real>>, n: nat)
    requires KernelShaped(kernel) && n + |kernel| <= |img| + 1
    requires forall i :: 0 <= i < n ==> BlockMinWidth(img, |kernel|, i) >= |kernel[0]|
    ensures |BlockRows(img, kernel, n)| == n
    ensures forall i :: 0 <= i < n ==> BlockRows(img, kernel, n)[i] == BlockRow(img, kernel, i)
  {
    if n > 0 {
      BlockRowsAllKept(img, kernel, n - 1);
    }
  }

  /** An image shorter than the kernel gives no rows; otherwise at most `img.length - kernelHeight + 1`. */
  lemma ConvolutionRowCount(img: seq<seq<real>>, kernel: seq<seq<real>>)
    requires |img| > 0 ==> KernelShaped(kernel)
    ensures |kernel| > |img| ==> Convolution(img, kernel) == []
    ensures |img| > 0 && |kernel| <= |img| ==> |Convolution(img, kernel)| <= |img| - |kernel| + 1
  {
    if |img| > 0 && |kernel| <= |img| {
      BlockRowsShape(img, kernel, |img| - |kernel| + 1);
    }
  }

  /**
   * Output row p is the nonempty row of some block i, of length `blockMinWidth - kernelWidth + 1`.
   */
  lemma ConvolutionRow(img: seq<seq<real>>, kernel: seq<seq<real>>, p: nat)
    requires |img| > 0 ==> KernelShaped(kernel)
    requires p < |Convolution(img, kernel)|
    ensures |kernel| <= |img|
    ensures exists i :: 0 <= i <= |img| - |kernel|
              && Convolution(img, kernel)[p] == BlockRow(img, kernel, i)
              && BlockMinWidth(img, |kernel|, i) >= |kernel[0]|
              && |Convolution(img, kernel)[p]| == BlockMinWidth(img, |kernel|, i) - |kernel[0]| + 1
  {
    BlockRowsShape(img, kernel, |img| - |kernel| + 1);
    var i :| 0 <= i < |img| - |kernel| + 1 && Convolution(img, kernel)[p] == BlockRow(img, kernel, i);
    assert |BlockRow(img, kernel, i)| > 0;
  }

  /** Entry j of block i's row is the kernel-weighted sum of the window at (i, j). */
  lemma BlockRowEntry(img: seq<seq<real>>, kernel: seq<seq<real>>, i: nat, j: nat)
    requires KernelShaped(kernel) && i + |kernel| <= |img| && j < BlockRowLength(img, kernel, i)
    ensures Fits(img, kernel, i, j, |kernel|, |kernel[0]|)
    ensures BlockRow(img, kernel, i)[j] == BlockSum(img, kernel, i, j, |kernel|, |kernel[0]|)
  {
    BlockFits(img, kernel, i, j);
  }

  // ---------------------------------------------------------------------------
  // encodeBWPngFromMatrix: the buffer fill

  /** A Uint8Array element. */
  newtype byte = x: int | 0 <= x < 256

  /**
   * The byte stored for cell (y, x): `Math.max(0, Math.min(255, Math.round(v * 255)))`. A cell past
   * the end of a short row is `undefined`, which makes the expression NaN, and a Uint8Array stores NaN as 0.
   */
  function PixelByte(image: seq<seq<real>>, y: nat, x: nat): byte
  {
    if y < |image| && x < |image[y]| then ClampByte(Round(image[y][x] * 255.0)) as byte else 0
  }

  /** Row y of the buffer: `width` bytes, width taken from the first row. */
  function RowBytes(image: seq<seq<real>>, y: nat, width: nat): seq<byte>
  {
    seq(width, x requires 0 <= x < width => PixelByte(image, y, x))
  }

  /** Rows 0..n-1 laid out one after another. */
  function RowMajorRows(image: seq<seq<real>>, width: nat, n: nat): seq<byte>
  {
    if n == 0 then [] else RowMajorRows(image, width, n - 1) + RowBytes(image, n - 1, width)
  }

  /** The row-major `height * width` buffer the source fills. */
  function RowMajorBuffer(image: seq<seq<real>>): seq<byte>
    requires |image| > 0
  {
    RowMajorRows(image, |image[0]|, |image|)
  }

  /** Multiplication by a natural number is monotone. */
  lemma {:induction false} MulMonotone(a: nat, b: nat, c: nat)
    requires a <= b
    ensures a * c <= b * c
    decreases c
  {
    if c > 0 {
      MulMonotone(a, b, c - 1);
      assert a * c == a * (c - 1) + a;
      assert b * c == b * (c - 1) + b;
    }
  }

  /** Row-major index bound: (y, x) with y < height and x < width maps to `y * width + x < height * width`. */
  lemma RowMajorBound(y: nat, x: nat, width: nat, height: nat)
    requires y < height && x < width
    ensures y * width + x < height * width
  {
    MulMonotone(y + 1, height, width);
    assert (y + 1) * width == y * width + width;
  }

  /** Rows 0..n-1 take `n * width` bytes. */
  lemma {:induction false} RowMajorRowsLength(image: seq<seq<real>>, width: nat, n: nat)
    ensures |RowMajorRows(image, width, n)| == n * width
  {
    if n > 0 {
      RowMajorRowsLength(image, width, n - 1);
      assert n * width == (n - 1) * width + width;
    }
  }

  /** Position `y * width + x` of the rows 0..n-1 holds cell (y, x). */
  lemma {:induction false} RowMajorRowsAt(image: seq<seq<real>>, width: nat, n: nat, y: nat, x: nat)
    requires y < n && x < width
    ensures y * width + x < |RowMajorRows(image, width, n)|
    ensures RowMajorRows(image, width, n)[y * width + x] == PixelByte(image, y, x)
  {
    RowMajorRowsLength(image, width, n);
    RowMajorRowsLength(image, width, n - 1);
    RowMajorBound(y, x, width, n);
    if y < n - 1 {
      RowMajorBound(y, x, width, n - 1);
      RowMajorRowsAt(image, width, n - 1, y, x);
    } else {
      assert y * width + x - (n - 1) * width == x;
    }
  }

  /** The pixel loop of encodeBWPngFromMatrix; the PNG encoding of the buffer is not modelled. */
  method EncodeBWBuffer(image: seq<seq<real>>) returns (buffer: seq<byte>)
    requires |image| > 0
    ensures buffer == RowMajorBuffer(image)
  {
    var height := |image|;
    var width := |image[0]|;
    var data := new byte[height * width];
    for y := 0 to height
      invariant y * width <= height * width
      invariant data[..y * width] == RowMajorRows(image, width, y)
    {
      ghost var base := y * width;
      assert (y + 1) * width == base + width;
      MulMonotone(y + 1, height, width);
      for x := 0 to width
        invariant data[..base + x] == RowMajorRows(image, width, y) + RowBytes(image, y, width)[..x]
      {
        assert y * width + x == base + x;
        data[y * width + x] := if x < |image[y]| then ClampByte(Round(image[y][x] * 255.0)) as byte else 0;
        assert data[..base + x + 1] == data[..base + x] + [data[base + x]];
      }
      assert RowBytes(image, y, width)[..width] == RowBytes(image, y, width);
    }
    assert data[..] == data[..height * width];
    buffer := data[..];
  }

  /**
   * The buffer is `height * width` bytes long, and position `y * width + x` holds the clamped, rounded
   * cell (y, x), or 0 where row y is shorter than the first.
   */
  lemma EncodedCell(image: seq<seq<real>>, y: nat, x: nat)
    requires |image| > 0 && y < |image| && x < |image[0]|
    ensures |RowMajorBuffer(image)| == |image| * |image[0]|
    ensures y * |image[0]| + x < |RowMajorBuffer(image)|
    ensures x < |image[y]| ==> RowMajorBuffer(image)[y * |image[0]| + x] as int == ClampByte(Round(image[y][x] * 255.0))
    ensures x >= |image[y]| ==> RowMajorBuffer(image)[y * |image[0]| + x] == 0
  {
    RowMajorRowsLength(image, |image[0]|, |image|);
    RowMajorRowsAt(image, |image[0]|, |image|, y, x);
  }

  /** A brightness in [0, 1] needs no clamping: its byte is `Math.round(v * 255)`. */
  lemma PixelByteOfUnit(image: seq<seq<real>>, y: nat, x: nat)
    requires y < |image| && x < |image[y]| && 0.0 <= image[y][x] <= 1.0
    ensures PixelByte(image, y, x) as int == Round(image[y][x] * 255.0)
  {
    RoundMonotone(0.0, image[y][x] * 255.0);
    RoundMonotone(image[y][x] * 255.0, 255.0);
    RoundOfInteger(0.0, 0);
    RoundOfInteger(255.0, 255);
  }

  // ---------------------------------------------------------------------------
  // calculateBrightness: the range check

  const BelowZero := "Value cannot be less than 0"
  const AboveOne := "Value cannot be greater than 1"

  /** A value the range check lets through: NaN and `undefined` fail both comparisons and pass. */
  predicate InUnitRange(v: Num)
  {
    v.None? || 0.0 <= v.value <= 1.0
  }

  /** `sanitize`: throws on a value below 0 or above 1 and returns any other value. */
  function Sanitize(v: Num): (r: Result<Num>)
    ensures r.Success? <==> InUnitRange(v)
    ensures r.Success? ==> r.value == v
    ensures r.Failure? ==> r.error == (if v.value < 0.0 then BelowZero else AboveOne)
  {
    if v.Some? && v.value < 0.0 then Failure(BelowZero)
    else if v.Some? && v.value > 1.0 then Failure(AboveOne)
    else Success(v)
  }

  /**
   * calculateBrightness: checks r, g and b in that order and reports the first failure; the gamma
   * expansion, luminance weighting and gamma compression are the parameter `luminance`.
   */
  function CalculateBrightness(r: Num, g: Num, b: Num, luminance: (Num, Num, Num) -> Num): (res: Result<Num>)
    ensures res.Success? <==> InUnitRange(r) && InUnitRange(g) && InUnitRange(b)
    ensures res.Success? ==> res.value == luminance(r, g, b)
    ensures !InUnitRange(r) ==> res == Failure(Sanitize(r).error)
    ensures InUnitRange(r) && !InUnitRange(g) ==> res == Failure(Sanitize(g).error)
    ensures InUnitRange(r) && InUnitRange(g) && !InUnitRange(b) ==> res == Failure(Sanitize(b).error)
  {
    match Sanitize(r)
    case Failure(e) => Failure(e)
    case Success(_) =>
      match Sanitize(g)
      case Failure(e) => Failure(e)
      case Success(_) =>
        match Sanitize(b)
        case Failure(e) => Failure(e)
        case Success(_) => Success(luminance(r, g, b))
  }

  // ---------------------------------------------------------------------------
  // decodeRGBPngToBwMatrix: channel grouping and reshape

  /** `s[p]`, or `undefined` past the end. */
  function At(s: seq<Num>, p: nat): Num
  {
    if p < |s| then s[p] else None
  }

  /**
   * Channel c of pixel p as the source reads it: `data[p * channels + c] / 255`, or `undefined`
   * for a channel the decoder did not report or a position past the data.
   */
  function ChannelValue(data: seq<nat>, channels: nat, p: nat, c: nat): Num
  {
    if c < channels && p * channels + c < |data| then Some(data[p * channels + c] as real / 255.0) else None
  }

  /** Channel c of pixel p, where present, is a sample of at most 255. */
  predicate SampleInRange(data: seq<nat>, channels: nat, p: nat, c: nat)
  {
    c < channels && p * channels + c < |data| ==> data[p * channels + c] <= 255
  }

  /** A channel value is never negative, and passes the range check exactly when its sample is at most 255. */
  lemma ChannelValueRange(data: seq<nat>, channels: nat, p: nat, c: nat)
    ensures InUnitRange(ChannelValue(data, channels, p, c)) <==> SampleInRange(data, channels, p, c)
    ensures ChannelValue(data, channels, p, c).Some? ==> ChannelValue(data, channels, p, c).value >= 0.0
  {
  }

  /** calculateBrightness applied to the first three channels of pixel p. */
  function PixelBrightness(data: seq<nat>, channels: nat, luminance: (Num, Num, Num) -> Num, p: nat): Result<Num>
  {
    CalculateBrightness(ChannelValue(data, channels, p, 0), ChannelValue(data, channels, p, 1),
                        ChannelValue(data, channels, p, 2), luminance)
  }

  /** The brightness of pixels 0..count-1, or the error of the first pixel whose range check throws. */
  function Brightnesses(data: seq<nat>, channels: nat, luminance: (Num, Num, Num) -> Num, count: nat): Result<seq<Num>>
  {
    if count == 0 then Success([])
    else
      match Brightnesses(data, channels, luminance, count - 1)
      case Failure(e) => Failure(e)
      case Success(bw) =>
        match PixelBrightness(data, channels, luminance, count - 1)
        case Failure(e) => Failure(e)
        case Success(v) => Success(bw + [v])
  }

  /** The `height` rows of `width` values cut from the flat list: cell (i, j) is `bwImg[i * width + j]`. */
  function Reshape(bw: seq<Num>, width: nat, height: nat): seq<seq<Num>>
  {
    seq(height, i requires 0 <= i < height => seq(width, j requires 0 <= j < width => At(bw, i * width + j)))
  }

  /** What decodeRGBPngToBwMatrix returns for the decoded samples, or the error it throws. */
  function DecodedImage(data: seq<nat>, width: nat, height: nat, channels: nat, luminance: (Num, Num, Num) -> Num)
    : Result<seq<seq<Num>>>
  {
    match Brightnesses(data, channels, luminance, height * width)
    case Failure(e) => Failure(e)
    case Success(bw) => Success(Reshape(bw, width, height))
  }

  /** Once a pixel throws, the error is the result for every longer run. */
  lemma {:induction false} BrightnessesFailurePersists(data: seq<nat>, channels: nat, luminance: (Num, Num, Num) -> Num,
                                                        count: nat, n: nat)
    requires count <= n && Brightnesses(data, channels, luminance, count).Failure?
    ensures Brightnesses(data, channels, luminance, n) == Brightnesses(data, channels, luminance, count)
    decreases n - count
  {
    if count < n {
      BrightnessesFailurePersists(data, channels, luminance, count, n - 1);
    }
  }

  /** The channel values of pixel p, pushed one per channel as in the source's inner loop. */
  method PixelChannels(data: seq<nat>, channels: nat, p: nat) returns (rgb: seq<Num>)
    ensures |rgb| == channels
    ensures forall c :: 0 <= c < channels ==> rgb[c] == ChannelValue(data, channels, p, c)
  {
    rgb := [];
    ghost var base := p * channels;
    for j := 0 to channels
      invariant |rgb| == j
      invariant forall c :: 0 <= c < j ==> rgb[c] == ChannelValue(data, channels, p, c)
    {
      assert p * channels + j == base + j;
      var v := if p * channels + j < |data| then Some(data[p * channels + j] as real / 255.0) else None;
      rgb := rgb + [v];
    }
  }

  /** The source's second loop: row i collects `bwImg[i * width + j]` for j < width. */
  method ReshapeRows(bwImg: seq<Num>, width: nat, height: nat) returns (out: seq<seq<Num>>)
    ensures out == Reshape(bwImg, width, height)
  {
    out := [];
    for i := 0 to height
      invariant |out| == i
      invariant forall k :: 0 <= k < i ==> out[k] == Reshape(bwImg, width, height)[k]
    {
      var row: seq<Num> := [];
      for j := 0 to width
        invariant |row| == j
        invariant forall l :: 0 <= l < j ==> row[l] == At(bwImg, i * width + l)
      {
        row := row + [At(bwImg, i * width + j)];
      }
      out := out + [row];
    }
  }

  /** decodeRGBPngToBwMatrix after `decode`: `data`, `width`, `height`, `channels` are what the decoder reports. */
  method DecodeRGBPngToBwMatrix(data: seq<nat>, width: nat, height: nat, channels: nat,
                                luminance: (Num, Num, Num) -> Num)
    returns (img: Result<seq<seq<Num>>>)
    ensures img == DecodedImage(data, width, height, channels, luminance)
  {
    var count := height * width;
    var bwImg: seq<Num> := [];
    for i := 0 to count
      invariant Brightnesses(data, channels, luminance, i) == Success(bwImg)
    {
      var rgb := PixelChannels(data, channels, i);
      assert At(rgb, 0) == ChannelValue(data, channels, i, 0);
      assert At(rgb, 1) == ChannelValue(data, channels, i, 1);
      assert At(rgb, 2) == ChannelValue(data, channels, i, 2);
      var brightness := CalculateBrightness(At(rgb, 0), At(rgb, 1), At(rgb, 2), luminance);
      if brightness.Failure? {
        BrightnessesFailurePersists(data, channels, luminance, i + 1, count);
        return Failure(brightness.error);
      }
      bwImg := bwImg + [brightness.value];
    }
    var out := ReshapeRows(bwImg, width, height);
    return Success(out);
  }

  /** A successful run yields exactly `count` values, value p being pixel p's brightness. */
  lemma {:induction false} BrightnessesValues(data: seq<nat>, channels: nat, luminance: (Num, Num, Num) -> Num, count: nat)
    requires Brightnesses(data, channels, luminance, count).Success?
    ensures |Brightnesses(data, channels, luminance, count).value| == count
    ensures forall p :: 0 <= p < count ==>
              PixelBrightness(data, channels, luminance, p).Success?
              && Brightnesses(data, channels, luminance, count).value[p] == PixelBrightness(data, channels, luminance, p).value
  {
    if count > 0 {
      BrightnessesValues(data, channels, luminance, count - 1);
    }
  }

  /** Samples are `/ 255` of natural numbers, so a pixel passes unless one of its first three samples exceeds 255. */
  lemma PixelRange(data: seq<nat>, channels: nat, luminance: (Num, Num, Num) -> Num, p: nat)
    ensures PixelBrightness(data, channels, luminance, p).Success?
        <==> SampleInRange(data, channels, p, 0) && SampleInRange(data, channels, p, 1) && SampleInRange(data, channels, p, 2)
    ensures PixelBrightness(data, channels, luminance, p).Failure? ==>
              PixelBrightness(data, channels, luminance, p).error == AboveOne
  {
    ChannelValueRange(data, channels, p, 0);
    ChannelValueRange(data, channels, p, 1);
    ChannelValueRange(data, channels, p, 2);
  }

  /** The brightness pass succeeds exactly when every red, green and blue sample is at most 255; else it reports AboveOne. */
  lemma {:induction false} BrightnessesSucceed(data: seq<nat>, channels: nat, luminance: (Num, Num, Num) -> Num, count: nat)
    ensures Brightnesses(data, channels, luminance, count).Success?
        <==> forall p, c :: 0 <= p < count && 0 <= c < 3 ==> SampleInRange(data, channels, p, c)
    ensures Brightnesses(data, channels, luminance, count).Failure? ==>
              Brightnesses(data, channels, luminance, count).error == AboveOne
  {
    if count > 0 {
      BrightnessesSucceed(data, channels, luminance, count - 1);
      PixelRange(data, channels, luminance, count - 1);
      if Brightnesses(data, channels, luminance, count).Success? {
        forall p, c | 0 <= p < count && 0 <= c < 3
          ensures SampleInRange(data, channels, p, c)
        {
          if p < count - 1 {
          } else {
            assert c == 0 || c == 1 || c == 2;
          }
        }
      } else if Brightnesses(data, channels, luminance, count - 1).Success? {
        assert PixelBrightness(data, channels, luminance, count - 1).Failure?;
        var c :| 0 <= c < 3 && !SampleInRange(data, channels, count - 1, c);
      }
    }
  }

  /**
   * Decoding succeeds exactly when every red, green and blue sample of the `width * height` pixels is at
   * most 255 (always, for 8-bit images), and otherwise reports "Value cannot be greater than 1".
   */
  lemma DecodeSucceeds(data: seq<nat>, width: nat, height: nat, channels: nat, luminance: (Num, Num, Num) -> Num)
    ensures DecodedImage(data, width, height, channels, luminance).Success?
        <==> forall p, c :: 0 <= p < height * width && 0 <= c < 3 ==> SampleInRange(data, channels, p, c)
    ensures DecodedImage(data, width, height, channels, luminance).Failure? ==>
              DecodedImage(data, width, height, channels, luminance).error == AboveOne
  {
    BrightnessesSucceed(data, channels, luminance, height * width);
  }

  /** A decoded image has `height` rows of `width` values, cell (i, j) being the brightness of pixel `i * width + j`. */
  lemma DecodedCell(data: seq<nat>, width: nat, height: nat, channels: nat,
                    luminance: (Num, Num, Num) -> Num, i: nat, j: nat)
    requires i < height && j < width
    requires DecodedImage(data, width, height, channels, luminance).Success?
    ensures |DecodedImage(data, width, height, channels, luminance).value| == height
    ensures |DecodedImage(data, width, height, channels, luminance).value[i]| == width
    ensures PixelBrightness(data, channels, luminance, i * width + j).Success?
    ensures DecodedImage(data, width, height, channels, luminance).value[i][j]
         == PixelBrightness(data, channels, luminance, i * width + j).value
  {
    var count := height * width;
    BrightnessesValues(data, channels, luminance, count);
    RowMajorBound(i, j, width, height);
  }

  // ---------------------------------------------------------------------------
  // kernel1d.uniformKernel, kernel2d.uniformKernel

  /** kernel1d.uniformKernel: `size` entries of `1 / size`. */
  method UniformKernel1d(size: nat) returns (kernel: seq<real>)
    ensures |kernel| == size
    ensures forall i :: 0 <= i < size ==> kernel[i] == 1.0 / size as real
  {
    kernel := [];
    for i := 0 to size
      invariant |kernel| == i
      invariant forall k :: 0 <= k < i ==> kernel[k] == 1.0 / size as real
    {
      kernel := kernel + [1.0 / size as real];
    }
  }

  /** kernel2d.uniformKernel: `size` rows of `size` entries of `1 / (size * size)`. */
  method UniformKernel2d(size: nat) returns (kernel: seq<seq<real>>)
    ensures |kernel| == size
    ensures forall i :: 0 <= i < size ==> |kernel[i]| == size
    ensures forall i, j :: 0 <= i < size && 0 <= j < size ==> kernel[i][j] == 1.0 / (size * size) as real
  {
    kernel := [];
    for i := 0 to size
      invariant |kernel| == i
      invariant forall k :: 0 <= k < i ==> |kernel[k]| == size
      invariant forall k, l :: 0 <= k < i && 0 <= l < size ==> kernel[k][l] == 1.0 / (size * size) as real
    {
      var row: seq<real> := [];
      for j := 0 to size
        invariant |row| == j
        invariant forall l :: 0 <= l < j ==> row[l] == 1.0 / (size * size) as real
      {
        row := row + [1.0 / (size * size) as real];
      }
      kernel := kernel + [row];
    }
  }

  /** A nonempty uniform 1-D kernel sums to 1. */
  lemma UniformKernel1dSumsToOne(kernel: seq<real>, size: nat)
    requires size > 0 && |kernel| == size
    requires forall i :: 0 <= i < size ==> kernel[i] == 1.0 / size as real
    ensures Sum(kernel) == 1.0
  {
    SumConstant(kernel, 1.0 / size as real);
  }

  /** The sum of all entries of a grid, row by row. */
  function GridSum(grid: seq<seq<real>>): real
  {
    if grid == [] then 0.0 else GridSum(grid[..|grid| - 1]) + Sum(grid[|grid| - 1])
  }

  /** A nonempty uniform 2-D kernel sums to 1. */
  lemma UniformKernel2dSumsToOne(kernel: seq<seq<real>>, size: nat)
    requires size > 0 && |kernel| == size
    requires forall i :: 0 <= i < size ==> |kernel[i]| == size
    requires forall i, j :: 0 <= i < size && 0 <= j < size ==> kernel[i][j] == 1.0 / (size * size) as real
    ensures GridSum(kernel) == 1.0
  {
    var c := 1.0 / (size * size) as real;
    var rowSum := size as real * c;
    forall i | 0 <= i < size
      ensures Sum(kernel[i]) == rowSum
    {
      SumConstant(kernel[i], c);
    }
    GridOfEqualRows(kernel, rowSum);
    assert (size * size) as real == size as real * size as real;
  }

  /** A grid whose rows all sum to s sums to `|grid| * s`. */
  lemma {:induction false} GridOfEqualRows(grid: seq<seq<real>>, s: real)
    requires forall i :: 0 <= i < |grid| ==> Sum(grid[i]) == s
    ensures GridSum(grid) == |grid| as real * s
    decreases |grid|
  {
    if grid != [] {
      GridOfEqualRows(grid[..|grid| - 1], s);
    }
  }
}
