/**
 * quantizeHalftoneImg (toPath.ts): sampling lines at an angle are walked across the
 * image, and at each step the angled kernel's weighted samples are averaged into a
 * density value. The trigonometric results are parameters; the image is read only.
 */
module Sampler {
  import opened Wrappers
  import opened JsMath
  import Util
  import AngledLines

  /**
   * The trigonometric values for the angle: `tan` is `Math.tan(angle)`, the others are
   * `Math.sin`, `Math.cos` and `Math.tan` of `90 - angle` (all in degrees).
   */
  datatype Trig = Trig(tan: real, sinComplement: real, cosComplement: real, tanComplement: real)

  /** The divisions by the complement's sine, cosine and tangent are defined. */
  predicate Divisible(trig: Trig)
  {
    trig.sinComplement != 0.0 && trig.cosComplement != 0.0 && trig.tanComplement != 0.0
  }

  /** The vertical distance between sampling lines: `lineHeight / sin(90 - angle)`. */
  function LineHeightY(lineHeight: real, trig: Trig): real
    requires Divisible(trig)
  {
    lineHeight / trig.sinComplement
  }

  /** The horizontal distance between sampling lines: `lineHeight / cos(90 - angle)`. */
  function LineHeightX(lineHeight: real, trig: Trig): real
    requires Divisible(trig)
  {
    lineHeight / trig.cosComplement
  }

  /** `height / 2 + (width / 2) / tan(90 - angle)`: where the middle line meets the left border. */
  function HeightOfMiddleLine(height: nat, width: nat, trig: Trig): real
    requires Divisible(trig)
  {
    height as real / 2.0 + (width as real / 2.0) / trig.tanComplement
  }

  /** `heightOfMiddleLine - Math.floor(heightOfMiddleLine / lhY) * lhY`: where the first line starts. */
  function KernelBeginPoint(heightOfMiddleLine: real, lineHeightY: real): real
    requires lineHeightY != 0.0
  {
    heightOfMiddleLine - Floor(heightOfMiddleLine / lineHeightY) as real * lineHeightY
  }

  /** `height / lhY + width / lhX`: the bound on the line counter. */
  function NLines(height: nat, width: nat, lineHeight: real, trig: Trig): real
    requires Divisible(trig) && lineHeight != 0.0
  {
    height as real / LineHeightY(lineHeight, trig) + width as real / LineHeightX(lineHeight, trig)
  }

  /** The number of integers `line` from 0 with `line < nLines`. */
  function LineCount(nLines: real): nat
  {
    if nLines <= 0.0 then 0 else Ceil(nLines)
  }

  /** The line loop runs for exactly the integers below nLines. */
  lemma LineCountExact(nLines: real, line: nat)
    ensures line < LineCount(nLines) <==> (line as real) < nLines
  {
  }

  /** The first line starts at a point in [0, lhY) when the line spacing is positive. */
  lemma KernelBeginPointRange(heightOfMiddleLine: real, lineHeightY: real)
    requires lineHeightY > 0.0
    ensures 0.0 <= KernelBeginPoint(heightOfMiddleLine, lineHeightY) < lineHeightY
  {
    var q := heightOfMiddleLine / lineHeightY;
    var n := Floor(q);
    assert q * lineHeightY == heightOfMiddleLine;
    var d := q - n as real;
    assert 0.0 <= d < 1.0;
    assert KernelBeginPoint(heightOfMiddleLine, lineHeightY) == d * lineHeightY;
  }

  // ---------------------------------------------------------------------------
  // One sampling step

  /**
   * Kernel row i's contribution at (x, y): `img[y + i][x + offset_i] * weighting[i]`, NaN (None)
   * when the row, the cell or the weight is missing, or the cell is NaN.
   */
  function Contribution(img: seq<seq<Num>>, weighting: seq<real>, kernel: seq<int>, x: int, y: int, i: nat): Num
    requires i < |kernel|
  {
    if 0 <= y + i < |img| && 0 <= x + kernel[i] < |img[y + i]| && i < |weighting| && img[y + i][x + kernel[i]].Some?
    then Some(img[y + i][x + kernel[i]].value * weighting[i])
    else None
  }

  /** `angledKernel.map(...)`: every kernel row's contribution at (x, y). */
  function Contributions(img: seq<seq<Num>>, weighting: seq<real>, kernel: seq<int>, x: int, y: int): (c: seq<Num>)
    ensures |c| == |kernel|
  {
    seq(|kernel|, i requires 0 <= i < |kernel| => Contribution(img, weighting, kernel, x, y, i))
  }

  /** The numbers of a list that holds no NaN. */
  function Numbers(values: seq<Num>): (r: seq<real>)
    requires None !in values
    ensures |r| == |values|
  {
    seq(|values|, k requires 0 <= k < |values| => values[k].value)
  }

  /** `sum(values) / values.length`, which is NaN (not pushed) for an empty list. */
  function Mean(values: seq<real>): Num
  {
    if values == [] then None else Some(Util.Sum(values) / |values| as real)
  }

  /** The density value of the step at (x, y): the mean of the contributions that are present. */
  function StepValue(img: seq<seq<Num>>, weighting: seq<real>, kernel: seq<int>, x: int, y: int): Num
  {
    Util.NonNaNContents(Contributions(img, weighting, kernel, x, y));
    Mean(Numbers(Util.NonNaN(Contributions(img, weighting, kernel, x, y))))
  }

  /** A step has a value exactly when some kernel row contributes. */
  lemma StepValuePresent(img: seq<seq<Num>>, weighting: seq<real>, kernel: seq<int>, x: int, y: int)
    ensures StepValue(img, weighting, kernel, x, y).Some?
        <==> exists i :: 0 <= i < |kernel| && Contribution(img, weighting, kernel, x, y, i).Some?
  {
    var c := Contributions(img, weighting, kernel, x, y);
    Util.NonNaNMembers(c);
    if exists i :: 0 <= i < |kernel| && Contribution(img, weighting, kernel, x, y, i).Some? {
      var i :| 0 <= i < |kernel| && Contribution(img, weighting, kernel, x, y, i).Some?;
      assert c[i] in Util.NonNaN(c);
    } else if Util.NonNaN(c) != [] {
      assert Util.NonNaN(c)[0] in c;
    }
  }

  /** A mean lies between the bounds of its values. */
  lemma MeanBounds(values: seq<real>, lo: real, hi: real)
    requires values != []
    requires forall k :: 0 <= k < |values| ==> lo <= values[k] <= hi
    ensures lo <= Mean(values).value <= hi
  {
    Util.SumBounds(values, lo, hi);
    var n := |values| as real;
    assert n * lo <= Util.Sum(values) <= n * hi;
    assert Util.Sum(values) / n * n == Util.Sum(values);
  }

  /** If every present contribution lies in [lo, hi], so does the step's value. */
  lemma StepValueBounds(img: seq<seq<Num>>, weighting: seq<real>, kernel: seq<int>, x: int, y: int, lo: real, hi: real)
    requires forall v :: v in Contributions(img, weighting, kernel, x, y) && v.Some? ==> lo <= v.value <= hi
    requires StepValue(img, weighting, kernel, x, y).Some?
    ensures lo <= StepValue(img, weighting, kernel, x, y).value <= hi
  {
    var c := Contributions(img, weighting, kernel, x, y);
    Util.NonNaNContents(c);
    Util.NonNaNMembers(c);
    var kept := Util.NonNaN(c);
    var values := Numbers(kept);
    forall k | 0 <= k < |values|
      ensures lo <= values[k] <= hi
    {
      assert kept[k] in kept;
    }
    MeanBounds(values, lo, hi);
  }

  /** On an image of one gray level g, with all weights 1, every step that has a value has value g. */
  lemma StepValueOfUniformImage(img: seq<seq<Num>>, weighting: seq<real>, kernel: seq<int>, x: int, y: int, g: real)
    requires forall r, c :: 0 <= r < |img| && 0 <= c < |img[r]| ==> img[r][c] == Some(g)
    requires forall i :: 0 <= i < |weighting| ==> weighting[i] == 1.0
    requires StepValue(img, weighting, kernel, x, y).Some?
    ensures StepValue(img, weighting, kernel, x, y).value == g
  {
    var c := Contributions(img, weighting, kernel, x, y);
    forall v | v in c && v.Some?
      ensures g <= v.value <= g
    {
      var i :| 0 <= i < |c| && c[i] == v;
    }
    StepValueBounds(img, weighting, kernel, x, y, g, g);
  }

  // ---------------------------------------------------------------------------
  // The walk along one line

  /** `Math.max(...abs(kernel))` for a nonempty kernel. */
  function MaxAbs(kernel: seq<int>): (r: nat)
    requires |kernel| > 0
    ensures forall i :: 0 <= i < |kernel| ==> IntAbs(kernel[i]) <= r
    ensures exists i :: 0 <= i < |kernel| && IntAbs(kernel[i]) == r
  {
    if |kernel| == 1 then IntAbs(kernel[0])
    else
      var init := kernel[..|kernel| - 1];
      assert forall i :: 0 <= i < |init| ==> init[i] == kernel[i];
      if IntAbs(kernel[|kernel| - 1]) > MaxAbs(init) then IntAbs(kernel[|kernel| - 1]) else MaxAbs(init)
  }

  /**
   * The walk's condition `y + K >= 0 && x - Math.max(...abs(kernel)) < width`, with K the kernel
   * length. An empty kernel has maximum -Infinity, so the walk then does not start.
   */
  predicate Continues(kernel: seq<int>, width: nat, x: int, y: int)
  {
    y + |kernel| >= 0 && |kernel| > 0 && x - MaxAbs(kernel) < width
  }

  /** The most steps a walk can take: x starts at -K and must stay below `width + max|offset|`. */
  function WalkBound(kernel: seq<int>, width: nat): nat
  {
    if |kernel| == 0 then 0 else width + MaxAbs(kernel) + |kernel|
  }

  /** The y the walk uses at step s: initY first, then `initY - round(tangent * (s - 1))`. */
  function StepY(initY: int, tangent: real, s: nat): int
  {
    if s == 0 then initY else initY - AngledLines.IncrementAt(tangent, 0.0, s - 1)
  }

  /** The x the walk uses at step s. */
  function StepX(kernel: seq<int>, s: nat): int
  {
    s - |kernel|
  }

  /** The density values the walk pushes from step s on. */
  function WalkFrom(img: seq<seq<Num>>, weighting: seq<real>, kernel: seq<int>, tangent: real, initY: int,
                    width: nat, s: nat): seq<real>
    decreases WalkBound(kernel, width) - s
  {
    if !Continues(kernel, width, StepX(kernel, s), StepY(initY, tangent, s)) then []
    else
      (if StepValue(img, weighting, kernel, StepX(kernel, s), StepY(initY, tangent, s)).Some?
       then [StepValue(img, weighting, kernel, StepX(kernel, s), StepY(initY, tangent, s)).value]
       else [])
      + WalkFrom(img, weighting, kernel, tangent, initY, width, s + 1)
  }

  /** One step of the walk: the kernel's contributions, cleared of NaN, averaged. */
  method SampleStep(img: seq<seq<Num>>, weighting: seq<real>, kernel: seq<int>, x: int, y: int) returns (avg: Num)
    ensures avg == StepValue(img, weighting, kernel, x, y)
  {
    var contributions := Contributions(img, weighting, kernel, x, y);
    var values := Util.ClearNaN(contributions);
    Util.NonNaNContents(contributions);
    avg := Mean(Numbers(values));
  }

  /** A step where the walk's condition holds pushes its value, if any, and the walk goes on. */
  lemma WalkStep(img: seq<seq<Num>>, weighting: seq<real>, kernel: seq<int>, tangent: real, initY: int,
                 width: nat, s: nat)
    requires Continues(kernel, width, StepX(kernel, s), StepY(initY, tangent, s))
    ensures WalkFrom(img, weighting, kernel, tangent, initY, width, s)
         == (if StepValue(img, weighting, kernel, StepX(kernel, s), StepY(initY, tangent, s)).Some?
             then [StepValue(img, weighting, kernel, StepX(kernel, s), StepY(initY, tangent, s)).value]
             else [])
            + WalkFrom(img, weighting, kernel, tangent, initY, width, s + 1)
  {
  }

  /** One walk: x from -K, y from initY, a fresh generator for the y steps. */
  method WalkLine(img: seq<seq<Num>>, weighting: seq<real>, kernel: seq<int>, tangent: real, initY: int, width: nat)
    returns (densityLine: seq<real>)
    ensures densityLine == WalkFrom(img, weighting, kernel, tangent, initY, width, 0)
  {
    var x := -|kernel|;
    var y := initY;
    var yIncGenerator := new AngledLines.AngleBasedIncrement(tangent, 0.0);
    densityLine := [];
    ghost var s: nat := 0;
    while Continues(kernel, width, x, y)
      invariant x == StepX(kernel, s) && y == StepY(initY, tangent, s)
      invariant yIncGenerator.dx == tangent && yIncGenerator.initVal == 0.0 && yIncGenerator.y == s
      invariant densityLine + WalkFrom(img, weighting, kernel, tangent, initY, width, s)
             == WalkFrom(img, weighting, kernel, tangent, initY, width, 0)
      decreases WalkBound(kernel, width) - s
    {
      var avg := SampleStep(img, weighting, kernel, x, y);
      WalkStep(img, weighting, kernel, tangent, initY, width, s);
      ghost var rest := WalkFrom(img, weighting, kernel, tangent, initY, width, s + 1);
      if avg.Some? {
        assert (densityLine + [avg.value]) + rest == densityLine + ([avg.value] + rest);
        densityLine := densityLine + [avg.value];
      } else {
        assert [] + rest == rest;
      }
      x := x + 1;
      var inc := yIncGenerator.Next();
      y := initY - inc;
      assert y == StepY(initY, tangent, s + 1);
      s := s + 1;
    }
  }

  /** A walk from step s pushes at most `WalkBound - s` values. */
  lemma {:induction false} WalkLength(img: seq<seq<Num>>, weighting: seq<real>, kernel: seq<int>, tangent: real,
                                      initY: int, width: nat, s: nat)
    ensures |WalkFrom(img, weighting, kernel, tangent, initY, width, s)| <= if s <= WalkBound(kernel, width) then WalkBound(kernel, width) - s else 0
    decreases WalkBound(kernel, width) - s
  {
    if Continues(kernel, width, StepX(kernel, s), StepY(initY, tangent, s)) {
      WalkLength(img, weighting, kernel, tangent, initY, width, s + 1);
    }
  }

  /** Every value a walk pushes is the value of one of its steps, taken where the walk's condition held. */
  lemma {:induction false} WalkValues(img: seq<seq<Num>>, weighting: seq<real>, kernel: seq<int>, tangent: real,
                                      initY: int, width: nat, s: nat, v: real)
    requires v in WalkFrom(img, weighting, kernel, tangent, initY, width, s)
    ensures exists t :: s <= t < WalkBound(kernel, width)
              && Continues(kernel, width, StepX(kernel, t), StepY(initY, tangent, t))
              && StepValue(img, weighting, kernel, StepX(kernel, t), StepY(initY, tangent, t)) == Some(v)
    decreases WalkBound(kernel, width) - s
  {
    var here := StepValue(img, weighting, kernel, StepX(kernel, s), StepY(initY, tangent, s));
    if here != Some(v) {
      WalkValues(img, weighting, kernel, tangent, initY, width, s + 1, v);
    }
  }

  /** With an empty kernel no walk takes a step. */
  lemma WalkOfEmptyKernel(img: seq<seq<Num>>, weighting: seq<real>, tangent: real, initY: int, width: nat)
    ensures WalkFrom(img, weighting, [], tangent, initY, width, 0) == []
  {
  }

  // ---------------------------------------------------------------------------
  // quantizeHalftoneImg

  /** `Math.round(kernelBeginPoint + lhY * line)`: where the walk of a line starts. */
  function InitY(img: seq<seq<Num>>, lineHeight: real, trig: Trig, line: nat): int
    requires |img| > 0 && Divisible(trig) && lineHeight != 0.0
  {
    Round(KernelBeginPoint(HeightOfMiddleLine(|img|, |img[0]|, trig), LineHeightY(lineHeight, trig))
          + LineHeightY(lineHeight, trig) * line as real)
  }

  /** The density line for sampling line `line`. */
  function DensityLine(img: seq<seq<Num>>, weighting: seq<real>, lineHeight: real, trig: Trig, kernel: seq<int>, line: nat)
    : seq<real>
    requires |img| > 0 && Divisible(trig) && lineHeight != 0.0
  {
    WalkFrom(img, weighting, kernel, trig.tan, InitY(img, lineHeight, trig, line), |img[0]|, 0)
  }

  /** What quantizeHalftoneImg returns: one density line per integer line below nLines. */
  function Quantization(img: seq<seq<Num>>, weighting: seq<real>, lineHeight: real, trig: Trig, kernelSize: int)
    : seq<seq<real>>
    requires |img| > 0 && Divisible(trig) && lineHeight != 0.0
  {
    seq(LineCount(NLines(|img|, |img[0]|, lineHeight, trig)), line requires 0 <= line =>
      DensityLine(img, weighting, lineHeight, trig, AngledLines.AngledKernel(trig.tan, kernelSize), line))
  }

  /**
   * quantizeHalftoneImg. `lineHeight` is the assumed line height, `kernelSize` the value of
   * `Math.ceil(Math.sqrt(lineHeight ** 2 / 2))`, and `weighting` the per-row kernel weights.
   */
  method QuantizeHalftoneImg(img: seq<seq<Num>>, weighting: seq<real>, lineHeight: real, trig: Trig, kernelSize: int)
    returns (densityLines: seq<seq<real>>)
    requires |img| > 0 && Divisible(trig) && lineHeight != 0.0
    ensures densityLines == Quantization(img, weighting, lineHeight, trig, kernelSize)
  {
    var height := |img|;
    var width := |img[0]|;
    var lineHeightAtAngleY := lineHeight / trig.sinComplement;
    var lineHeightAtAngleX := lineHeight / trig.cosComplement;
    var centerLineOffsetYAtLeftBorder := (width as real / 2.0) / trig.tanComplement;
    var heightOfMiddleLine := height as real / 2.0 + centerLineOffsetYAtLeftBorder;
    var nTimesUp := heightOfMiddleLine / lineHeightAtAngleY;
    var kernelBeginPoint := heightOfMiddleLine - Floor(nTimesUp) as real * lineHeightAtAngleY;
    var angledKernel := AngledLines.CreateAngledKernel(trig.tan, kernelSize);
    var nLines := height as real / lineHeightAtAngleY + width as real / lineHeightAtAngleX;
    assert kernelBeginPoint == KernelBeginPoint(HeightOfMiddleLine(height, width, trig), LineHeightY(lineHeight, trig));
    assert nLines == NLines(height, width, lineHeight, trig);
    densityLines := [];
    var line := 0;
    while line as real < nLines
      invariant line <= LineCount(nLines)
      invariant densityLines == Quantization(img, weighting, lineHeight, trig, kernelSize)[..line]
      decreases LineCount(nLines) - line
    {
      var initY := Round(kernelBeginPoint + lineHeightAtAngleY * line as real);
      assert initY == InitY(img, lineHeight, trig, line);
      var densityLine := WalkLine(img, weighting, angledKernel, trig.tan, initY, width);
      assert densityLine == Quantization(img, weighting, lineHeight, trig, kernelSize)[line];
      densityLines := densityLines + [densityLine];
      line := line + 1;
    }
  }

  /** One density line per integer below nLines, each at most `width + max|offset| + K` long. */
  lemma QuantizationShape(img: seq<seq<Num>>, weighting: seq<real>, lineHeight: real, trig: Trig, kernelSize: int, line: nat)
    requires |img| > 0 && Divisible(trig) && lineHeight != 0.0
    requires line < |Quantization(img, weighting, lineHeight, trig, kernelSize)|
    ensures (line as real) < NLines(|img|, |img[0]|, lineHeight, trig)
    ensures |Quantization(img, weighting, lineHeight, trig, kernelSize)[line]|
         <= WalkBound(AngledLines.AngledKernel(trig.tan, kernelSize), |img[0]|)
  {
    LineCountExact(NLines(|img|, |img[0]|, lineHeight, trig), line);
    WalkLength(img, weighting, AngledLines.AngledKernel(trig.tan, kernelSize), trig.tan,
               InitY(img, lineHeight, trig, line), |img[0]|, 0);
  }
}
