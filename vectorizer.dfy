/**
 * vectorizeQuantizationOfHalftoneImage (toPath.ts): every nonempty density row becomes
 * a polyline along its baseline, wobbled by random noise weighted by the row's lightness,
 * and the running maxima of the points' coordinates give the SVG view box. The trigonometric
 * and square-root results are parameters, and `Math.random` is the function `random`, whose
 * argument k is the number of draws made before.
 */
module Vectorizer {
  import opened JsMath

  datatype Point = Point(x: real, y: real)

  /** An SVG path command: `M x,y` or `L x,y`. */
  datatype Command = Move(to: Point) | Line(to: Point)

  /** A `<path>` element: its name index, its rotation (degrees) about a pivot, and its commands. */
  datatype PathElement = PathElement(index: nat, rotation: real, pivot: Point, commands: seq<Command>)

  /** The SVG document: view box `0 0 width height` and the path elements. */
  datatype Svg = Svg(viewBoxWidth: real, viewBoxHeight: real, paths: seq<PathElement>)

  /**
   * The drawing parameters. `spacingDiagonal` is `Math.sqrt(2 * lineSpacing ** 2)`, and
   * `sinComplement`, `cosComplement` are `Math.sin` and `Math.cos` of `90 - angleDegree`.
   */
  datatype Params = Params(angleDegree: real, maxAmplitude: real, spacingDiagonal: real, noiseFrequency: real,
                           amplitudeScale: real, sinComplement: real, cosComplement: real)

  /** The point loop advances (a non-positive frequency would not), and the divisions are defined. */
  predicate ValidParams(p: Params)
  {
    p.noiseFrequency > 0.0 && p.sinComplement != 0.0 && p.cosComplement != 0.0
  }

  /** `maxAmplitude + Math.sqrt(2 * lineSpacing ** 2)`. */
  function LineHeight(p: Params): real
  {
    p.maxAmplitude + p.spacingDiagonal
  }

  function LineHeightY(p: Params): real
    requires ValidParams(p)
  {
    LineHeight(p) / p.sinComplement
  }

  function LineHeightX(p: Params): real
    requires ValidParams(p)
  {
    LineHeight(p) / p.cosComplement
  }

  /** Rows up to the middle (`rowI <= rows / 2`) are stacked downwards; the rest share the middle baseline. */
  predicate UpperRow(rows: nat, rowI: nat)
  {
    rowI as real <= rows as real / 2.0
  }

  /** The baseline y of row rowI out of `rows` rows. */
  function BaselineY(p: Params, rows: nat, rowI: nat): real
    requires ValidParams(p)
  {
    if UpperRow(rows, rowI) then (rowI + 1) as real * LineHeightY(p) / 2.0
    else (rows as real / 2.0 + 1.0) * LineHeightY(p) / 2.0
  }

  /** The x offset of row rowI: 0 for upper rows, else `lhX * (rowI - rows / 2) / 2`. */
  function XOffset(p: Params, rows: nat, rowI: nat): real
    requires ValidParams(p)
  {
    if UpperRow(rows, rowI) then 0.0 else LineHeightX(p) * (rowI as real - rows as real / 2.0) / 2.0
  }

  /** `noiseFrequency ** -1`: the x distance between points. */
  function Step(p: Params): real
    requires ValidParams(p)
  {
    1.0 / p.noiseFrequency
  }

  /** How many more points the x loop makes from x on: `Math.ceil((len - x) * noiseFrequency)` while x < len. */
  function Remaining(p: Params, len: nat, x: real): nat
    requires ValidParams(p)
  {
    if x < len as real then
      RemainingPositive(p, len, x);
      Ceil((len as real - x) * p.noiseFrequency)
    else 0
  }

  /** A point still to be made leaves a positive count. */
  lemma RemainingPositive(p: Params, len: nat, x: real)
    requires ValidParams(p) && x < len as real
    ensures Ceil((len as real - x) * p.noiseFrequency) >= 1
  {
    var d := len as real - x;
    assert d * p.noiseFrequency > 0.0;
  }

  /** Each step of the x loop lowers the count of points still to be made by one. */
  lemma RemainingDecreases(p: Params, len: nat, x: real)
    requires ValidParams(p) && x < len as real
    ensures Remaining(p, len, x + Step(p)) == Remaining(p, len, x) - 1
  {
    var nf := p.noiseFrequency;
    var d := len as real - x;
    var s := Step(p);
    var v := d * nf;
    assert s * nf == 1.0;
    assert (d - s) * nf == v - 1.0;
    assert len as real - (x + s) == d - s;
    RemainingPositive(p, len, x);
    if x + s < len as real {
      CeilShift(v);
    } else {
      assert (s - d) * nf >= 0.0;
      assert (s - d) * nf == 1.0 - v;
      assert 0.0 < v <= 1.0;
    }
  }

  /** Math.ceil commutes with subtracting one. */
  lemma CeilShift(v: real)
    ensures Ceil(v - 1.0) == Ceil(v) - 1
  {
  }

  /** The wobble of a point: `(random * 2 - 1) * (1 - value) * maxAmplitude / 2 * amplitudeScale`. */
  function Wobble(p: Params, value: real, draw: real): real
  {
    (draw * 2.0 - 1.0) * (1.0 - value) * p.maxAmplitude / 2.0 * p.amplitudeScale
  }

  /** The point of row rowI at x (which is in [0, len)), made with the draw `draw` of Math.random. */
  function RowPoint(p: Params, q: seq<seq<real>>, rowI: nat, x: real, draw: real): Point
    requires ValidParams(p) && rowI < |q| && 0.0 <= x < |q[rowI]| as real
  {
    Point(x + XOffset(p, |q|, rowI), BaselineY(p, |q|, rowI) + Wobble(p, q[rowI][Floor(x)], draw))
  }

  /** The points of row rowI from x on, the first using draw k. */
  function RowPointsFrom(p: Params, q: seq<seq<real>>, random: nat -> real, rowI: nat, k: nat, x: real): seq<Point>
    requires ValidParams(p) && rowI < |q| && x >= 0.0
    decreases Remaining(p, |q[rowI]|, x)
  {
    if x >= |q[rowI]| as real then []
    else
      RemainingDecreases(p, |q[rowI]|, x);
      [RowPoint(p, q, rowI, x, random(k))] + RowPointsFrom(p, q, random, rowI, k + 1, x + Step(p))
  }

  /** One step of the x loop: a point at x, then the points from the next x. */
  lemma RowPointsStep(p: Params, q: seq<seq<real>>, random: nat -> real, rowI: nat, k: nat, x: real)
    requires ValidParams(p) && rowI < |q| && 0.0 <= x < |q[rowI]| as real
    ensures x + Step(p) >= 0.0
    ensures RowPointsFrom(p, q, random, rowI, k, x)
         == [RowPoint(p, q, rowI, x, random(k))] + RowPointsFrom(p, q, random, rowI, k + 1, x + Step(p))
  {
  }

  /** The point lists of the nonempty rows from rowI on, the first using draws from k. */
  function PathsFrom(p: Params, q: seq<seq<real>>, random: nat -> real, rowI: nat, k: nat): seq<seq<Point>>
    requires ValidParams(p) && rowI <= |q|
    decreases |q| - rowI
  {
    if rowI == |q| then []
    else if |q[rowI]| == 0 then PathsFrom(p, q, random, rowI + 1, k)
    else
      [RowPointsFrom(p, q, random, rowI, k, 0.0)]
      + PathsFrom(p, q, random, rowI + 1, k + |RowPointsFrom(p, q, random, rowI, k, 0.0)|)
  }

  /** One step of the row loop: an empty row adds no path, any other row adds its points. */
  lemma PathsStep(p: Params, q: seq<seq<real>>, random: nat -> real, rowI: nat, k: nat)
    requires ValidParams(p) && rowI < |q|
    ensures |q[rowI]| == 0 ==> PathsFrom(p, q, random, rowI, k) == PathsFrom(p, q, random, rowI + 1, k)
    ensures |q[rowI]| > 0 ==>
              PathsFrom(p, q, random, rowI, k)
              == [RowPointsFrom(p, q, random, rowI, k, 0.0)]
                 + PathsFrom(p, q, random, rowI + 1, k + |RowPointsFrom(p, q, random, rowI, k, 0.0)|)
  {
  }

  /** All points of all paths, in order. */
  function Flatten(paths: seq<seq<Point>>): seq<Point>
  {
    if paths == [] then [] else Flatten(paths[..|paths| - 1]) + paths[|paths| - 1]
  }

  /** `Math.max(a, b)`. */
  function Max2(a: real, b: real): real
  {
    if a >= b then a else b
  }

  /** The running `Math.max` over the points' x values, starting at acc. */
  function FoldMaxX(acc: real, pts: seq<Point>): real
  {
    if pts == [] then acc else Max2(FoldMaxX(acc, pts[..|pts| - 1]), pts[|pts| - 1].x)
  }

  /** The running `Math.max` over the points' y values, starting at acc. */
  function FoldMaxY(acc: real, pts: seq<Point>): real
  {
    if pts == [] then acc else Max2(FoldMaxY(acc, pts[..|pts| - 1]), pts[|pts| - 1].y)
  }

  /** Flattening one more path appends its points. */
  lemma FlattenAppend(paths: seq<seq<Point>>, path: seq<Point>)
    ensures Flatten(paths + [path]) == Flatten(paths) + path
  {
    assert (paths + [path])[..|paths|] == paths;
  }

  /** Appending a point takes the maxima with its coordinates. */
  lemma FoldMaxAppend(pts: seq<Point>, pt: Point)
    ensures FoldMaxX(0.0, pts + [pt]) == Max2(FoldMaxX(0.0, pts), pt.x)
    ensures FoldMaxY(0.0, pts + [pt]) == Max2(FoldMaxY(0.0, pts), pt.y)
  {
    assert (pts + [pt])[..|pts|] == pts;
  }

  /** `M` for the first point, `L` for every other. */
  function Commands(path: seq<Point>): seq<Command>
  {
    seq(|path|, i requires 0 <= i < |path| => if i == 0 then Move(path[i]) else Line(path[i]))
  }

  /** The path elements: path n is named n, rotated by `-angleDegree` about its first point. */
  function PathElements(p: Params, paths: seq<seq<Point>>): seq<PathElement>
    requires forall n :: 0 <= n < |paths| ==> |paths[n]| > 0
  {
    seq(|paths|, n requires 0 <= n < |paths| => PathElement(n, -p.angleDegree, paths[n][0], Commands(paths[n])))
  }

  /** Every path of PathsFrom is nonempty: a nonempty row always has its point at x = 0. */
  lemma {:induction false} PathsNonempty(p: Params, q: seq<seq<real>>, random: nat -> real, rowI: nat, k: nat)
    requires ValidParams(p) && rowI <= |q|
    ensures forall n :: 0 <= n < |PathsFrom(p, q, random, rowI, k)| ==> |PathsFrom(p, q, random, rowI, k)[n]| > 0
    decreases |q| - rowI
  {
    if rowI < |q| {
      if |q[rowI]| == 0 {
        PathsNonempty(p, q, random, rowI + 1, k);
      } else {
        PathsNonempty(p, q, random, rowI + 1, k + |RowPointsFrom(p, q, random, rowI, k, 0.0)|);
      }
    }
  }

  /** The SVG vectorizeQuantizationOfHalftoneImage describes, before formatting as text. */
  function VectorizedSvg(p: Params, q: seq<seq<real>>, random: nat -> real): Svg
    requires ValidParams(p)
  {
    PathsNonempty(p, q, random, 0, 0);
    Svg(FoldMaxX(0.0, Flatten(PathsFrom(p, q, random, 0, 0))),
        FoldMaxY(0.0, Flatten(PathsFrom(p, q, random, 0, 0))),
        PathElements(p, PathsFrom(p, q, random, 0, 0)))
  }

  /** The baseline and x offset of row rowI, as the row loop computes them. */
  method RowPlacement(p: Params, rows: nat, rowI: nat) returns (y: real, xOffset: real)
    requires ValidParams(p)
    ensures y == BaselineY(p, rows, rowI) && xOffset == XOffset(p, rows, rowI)
  {
    var lineHeight := p.maxAmplitude + p.spacingDiagonal;
    var lineHeightAtAngleY := lineHeight / p.sinComplement;
    var lineHeightAtAngleX := lineHeight / p.cosComplement;
    xOffset := 0.0;
    if rowI as real <= rows as real / 2.0 {
      y := (rowI + 1) as real * lineHeightAtAngleY / 2.0;
    } else {
      y := (rows as real / 2.0 + 1.0) * lineHeightAtAngleY / 2.0;
      xOffset := lineHeightAtAngleX * (rowI as real - rows as real / 2.0) / 2.0;
    }
  }

  /** The body of the x loop: the point at x from the cell under it and one draw of Math.random. */
  method MakePoint(p: Params, q: seq<seq<real>>, rowI: nat, x: real, draw: real, y: real, xOffset: real)
    returns (point: Point)
    requires ValidParams(p) && rowI < |q| && 0.0 <= x < |q[rowI]| as real
    requires y == BaselineY(p, |q|, rowI) && xOffset == XOffset(p, |q|, rowI)
    ensures point == RowPoint(p, q, rowI, x, draw)
  {
    var pixelIndex := Floor(x);
    var lightnessValueInv := q[rowI][pixelIndex];
    var lightnessValue := 1.0 - lightnessValueInv;
    var noise := draw * 2.0 - 1.0;
    var noiseWeighted := noise * lightnessValue * p.maxAmplitude / 2.0;
    point := Point(x + xOffset, y + noiseWeighted * p.amplitudeScale);
  }

  /** The SVG in terms of the point lists of all rows. */
  lemma VectorizedSvgOf(p: Params, q: seq<seq<real>>, random: nat -> real, paths: seq<seq<Point>>)
    requires ValidParams(p) && paths == PathsFrom(p, q, random, 0, 0)
    ensures forall n :: 0 <= n < |paths| ==> |paths[n]| > 0
    ensures VectorizedSvg(p, q, random) == Svg(FoldMaxX(0.0, Flatten(paths)), FoldMaxY(0.0, Flatten(paths)), PathElements(p, paths))
  {
    PathsNonempty(p, q, random, 0, 0);
  }

  /** The point loop of one row, from draw k on; returns the points and updates the view-box maxima. */
  method RowPath(p: Params, q: seq<seq<real>>, random: nat -> real, rowI: nat, k: nat,
                 viewBoxWidth0: real, viewBoxHeight0: real, ghost emitted0: seq<Point>)
    returns (path: seq<Point>, viewBoxWidth: real, viewBoxHeight: real)
    requires ValidParams(p) && rowI < |q|
    requires viewBoxWidth0 == FoldMaxX(0.0, emitted0) && viewBoxHeight0 == FoldMaxY(0.0, emitted0)
    ensures path == RowPointsFrom(p, q, random, rowI, k, 0.0)
    ensures viewBoxWidth == FoldMaxX(0.0, emitted0 + path) && viewBoxHeight == FoldMaxY(0.0, emitted0 + path)
  {
    var y, xOffset := RowPlacement(p, |q|, rowI);
    viewBoxWidth, viewBoxHeight := viewBoxWidth0, viewBoxHeight0;
    path := [];
    assert emitted0 + path == emitted0;
    var x := 0.0;
    var draws := k;
    while x < |q[rowI]| as real
      invariant x >= 0.0 && draws == k + |path|
      invariant path + RowPointsFrom(p, q, random, rowI, draws, x) == RowPointsFrom(p, q, random, rowI, k, 0.0)
      invariant viewBoxWidth == FoldMaxX(0.0, emitted0 + path) && viewBoxHeight == FoldMaxY(0.0, emitted0 + path)
      decreases Remaining(p, |q[rowI]|, x)
    {
      RemainingDecreases(p, |q[rowI]|, x);
      RowPointsStep(p, q, random, rowI, draws, x);
      var point := MakePoint(p, q, rowI, x, random(draws), y, xOffset);
      viewBoxWidth := Max2(viewBoxWidth, point.x);
      viewBoxHeight := Max2(viewBoxHeight, point.y);
      FoldMaxAppend(emitted0 + path, point);
      assert emitted0 + (path + [point]) == (emitted0 + path) + [point];
      ghost var rest := RowPointsFrom(p, q, random, rowI, draws + 1, x + Step(p));
      assert (path + [point]) + rest == path + ([point] + rest);
      path := path + [point];
      draws := draws + 1;
      x := x + 1.0 / p.noiseFrequency;
    }
  }

  /**
   * One pass of the row loop: an empty row is skipped, any other row adds its path, moves the
   * draw count past its points and updates the view-box maxima.
   */
  method VisitRow(p: Params, q: seq<seq<real>>, random: nat -> real, rowI: nat, k: nat, paths: seq<seq<Point>>,
                  viewBoxWidth: real, viewBoxHeight: real)
    returns (paths': seq<seq<Point>>, k': nat, viewBoxWidth': real, viewBoxHeight': real)
    requires ValidParams(p) && rowI < |q|
    requires viewBoxWidth == FoldMaxX(0.0, Flatten(paths)) && viewBoxHeight == FoldMaxY(0.0, Flatten(paths))
    ensures paths' + PathsFrom(p, q, random, rowI + 1, k') == paths + PathsFrom(p, q, random, rowI, k)
    ensures viewBoxWidth' == FoldMaxX(0.0, Flatten(paths')) && viewBoxHeight' == FoldMaxY(0.0, Flatten(paths'))
  {
    PathsStep(p, q, random, rowI, k);
    if |q[rowI]| == 0 {
      return paths, k, viewBoxWidth, viewBoxHeight;
    }
    var path;
    path, viewBoxWidth', viewBoxHeight' := RowPath(p, q, random, rowI, k, viewBoxWidth, viewBoxHeight, Flatten(paths));
    FlattenAppend(paths, path);
    ghost var rest := PathsFrom(p, q, random, rowI + 1, k + |path|);
    assert (paths + [path]) + rest == paths + ([path] + rest);
    paths' := paths + [path];
    k' := k + |path|;
  }

  /** vectorizeQuantizationOfHalftoneImage, up to the SVG text. */
  method VectorizeQuantizationOfHalftoneImage(q: seq<seq<real>>, p: Params, random: nat -> real) returns (svg: Svg)
    requires ValidParams(p)
    ensures svg == VectorizedSvg(p, q, random)
  {
    var viewBoxHeight := 0.0;
    var viewBoxWidth := 0.0;
    var paths: seq<seq<Point>> := [];
    var k: nat := 0;
    ghost var all := PathsFrom(p, q, random, 0, 0);
    for rowI := 0 to |q|
      invariant paths + PathsFrom(p, q, random, rowI, k) == all
      invariant viewBoxWidth == FoldMaxX(0.0, Flatten(paths)) && viewBoxHeight == FoldMaxY(0.0, Flatten(paths))
    {
      paths, k, viewBoxWidth, viewBoxHeight := VisitRow(p, q, random, rowI, k, paths, viewBoxWidth, viewBoxHeight);
    }
    assert PathsFrom(p, q, random, |q|, k) == [];
    assert paths == all;
    VectorizedSvgOf(p, q, random, paths);
    svg := Svg(viewBoxWidth, viewBoxHeight, PathElements(p, paths));
  }

  // ---------------------------------------------------------------------------
  // Properties

  /** The view-box width is at least its start and every point's x, and is the start or some point's x. */
  lemma {:induction false} FoldMaxXBounds(acc: real, pts: seq<Point>)
    ensures FoldMaxX(acc, pts) >= acc
    ensures forall i :: 0 <= i < |pts| ==> pts[i].x <= FoldMaxX(acc, pts)
    ensures FoldMaxX(acc, pts) == acc || exists i :: 0 <= i < |pts| && pts[i].x == FoldMaxX(acc, pts)
  {
    if pts != [] {
      var init := pts[..|pts| - 1];
      FoldMaxXBounds(acc, init);
      assert forall i :: 0 <= i < |init| ==> init[i] == pts[i];
    }
  }

  /** The view-box height is at least its start and every point's y, and is the start or some point's y. */
  lemma {:induction false} FoldMaxYBounds(acc: real, pts: seq<Point>)
    ensures FoldMaxY(acc, pts) >= acc
    ensures forall i :: 0 <= i < |pts| ==> pts[i].y <= FoldMaxY(acc, pts)
    ensures FoldMaxY(acc, pts) == acc || exists i :: 0 <= i < |pts| && pts[i].y == FoldMaxY(acc, pts)
  {
    if pts != [] {
      var init := pts[..|pts| - 1];
      FoldMaxYBounds(acc, init);
      assert forall i :: 0 <= i < |init| ==> init[i] == pts[i];
    }
  }

  /** The view box is at least 0 and at least every emitted point's coordinates. */
  lemma ViewBoxBounds(p: Params, q: seq<seq<real>>, random: nat -> real)
    requires ValidParams(p)
    ensures VectorizedSvg(p, q, random).viewBoxWidth >= 0.0 && VectorizedSvg(p, q, random).viewBoxHeight >= 0.0
    ensures forall pt :: pt in Flatten(PathsFrom(p, q, random, 0, 0)) ==>
              pt.x <= VectorizedSvg(p, q, random).viewBoxWidth && pt.y <= VectorizedSvg(p, q, random).viewBoxHeight
  {
    FoldMaxXBounds(0.0, Flatten(PathsFrom(p, q, random, 0, 0)));
    FoldMaxYBounds(0.0, Flatten(PathsFrom(p, q, random, 0, 0)));
  }

  /** The x loop's value after i steps of `x += st` from x0. */
  function XAfter(x0: real, st: real, i: nat): real
  {
    if i == 0 then x0 else XAfter(x0, st, i - 1) + st
  }

  /** Starting one step later is taking one step more. */
  lemma {:induction false} XAfterShift(x0: real, st: real, i: nat)
    ensures XAfter(x0 + st, st, i) == XAfter(x0, st, i + 1)
  {
    if i > 0 {
      XAfterShift(x0, st, i - 1);
    }
  }

  /** With a positive step, x never falls below its start. */
  lemma {:induction false} XAfterAtLeastStart(x0: real, st: real, i: nat)
    requires st > 0.0
    ensures XAfter(x0, st, i) >= x0
  {
    if i > 0 {
      XAfterAtLeastStart(x0, st, i - 1);
    }
  }

  /** After i steps, x is `x0 + i * st`. */
  lemma {:induction false} XAfterClosedForm(x0: real, st: real, i: nat)
    ensures XAfter(x0, st, i) == x0 + i as real * st
  {
    if i > 0 {
      XAfterClosedForm(x0, st, i - 1);
      var m := (i - 1) as real;
      assert (m + 1.0) * st == m * st + st;
    }
  }

  /** The x loop from x0 makes a point i exactly when x, after i steps, is still inside the row. */
  lemma {:induction false} RowPointsFromLength(p: Params, q: seq<seq<real>>, random: nat -> real, rowI: nat, k: nat,
                                               x0: real, i: nat)
    requires ValidParams(p) && rowI < |q| && x0 >= 0.0
    ensures i < |RowPointsFrom(p, q, random, rowI, k, x0)| <==> XAfter(x0, Step(p), i) < |q[rowI]| as real
    decreases Remaining(p, |q[rowI]|, x0)
  {
    var st := Step(p);
    XAfterAtLeastStart(x0, st, i);
    if x0 < |q[rowI]| as real {
      RemainingDecreases(p, |q[rowI]|, x0);
      RowPointsStep(p, q, random, rowI, k, x0);
      if i > 0 {
        RowPointsFromLength(p, q, random, rowI, k + 1, x0 + st, i - 1);
        XAfterShift(x0, st, i - 1);
      }
    }
  }

  /** Point i of the x loop from x0 lies at x after i steps and is made with draw `k + i`. */
  lemma {:induction false} RowPointsFromAt(p: Params, q: seq<seq<real>>, random: nat -> real, rowI: nat, k: nat,
                                           x0: real, i: nat)
    requires ValidParams(p) && rowI < |q| && x0 >= 0.0
    requires i < |RowPointsFrom(p, q, random, rowI, k, x0)|
    ensures 0.0 <= XAfter(x0, Step(p), i) < |q[rowI]| as real
    ensures RowPointsFrom(p, q, random, rowI, k, x0)[i] == RowPoint(p, q, rowI, XAfter(x0, Step(p), i), random(k + i))
    decreases Remaining(p, |q[rowI]|, x0)
  {
    var st := Step(p);
    XAfterAtLeastStart(x0, st, i);
    RowPointsFromLength(p, q, random, rowI, k, x0, i);
    RemainingDecreases(p, |q[rowI]|, x0);
    RowPointsStep(p, q, random, rowI, k, x0);
    if i > 0 {
      RowPointsFromAt(p, q, random, rowI, k + 1, x0 + st, i - 1);
      XAfterShift(x0, st, i - 1);
    }
  }

  /** In closed form: a row's path has a point i exactly when `i / noiseFrequency < row.length`. */
  lemma RowPointCount(p: Params, q: seq<seq<real>>, random: nat -> real, rowI: nat, k: nat, i: nat)
    requires ValidParams(p) && rowI < |q|
    ensures i < |RowPointsFrom(p, q, random, rowI, k, 0.0)| <==> i as real * Step(p) < |q[rowI]| as real
  {
    XAfterClosedForm(0.0, Step(p), i);
    RowPointsFromLength(p, q, random, rowI, k, 0.0, i);
  }

  /** In closed form: point i of a row's path lies at `x = i / noiseFrequency` and uses draw `k + i`. */
  lemma RowPointAt(p: Params, q: seq<seq<real>>, random: nat -> real, rowI: nat, k: nat, i: nat)
    requires ValidParams(p) && rowI < |q| && i < |RowPointsFrom(p, q, random, rowI, k, 0.0)|
    ensures 0.0 <= i as real * Step(p) < |q[rowI]| as real
    ensures RowPointsFrom(p, q, random, rowI, k, 0.0)[i] == RowPoint(p, q, rowI, i as real * Step(p), random(k + i))
  {
    var xi := XAfter(0.0, Step(p), i);
    XAfterClosedForm(0.0, Step(p), i);
    assert xi == i as real * Step(p);
    RowPointsFromAt(p, q, random, rowI, k, 0.0, i);
  }

  /**
   * With non-negative line heights, baselines never move up from one row to the next: the rows up
   * to the middle are stacked half a line height apart, and every later row shares the lowest one.
   */
  lemma BaselineMonotone(p: Params, rows: nat, rowI: nat, rowJ: nat)
    requires ValidParams(p) && LineHeightY(p) >= 0.0 && rowI <= rowJ
    ensures BaselineY(p, rows, rowI) <= BaselineY(p, rows, rowJ)
    ensures !UpperRow(rows, rowI) ==> BaselineY(p, rows, rowI) == BaselineY(p, rows, rowJ)
  {
    var h := LineHeightY(p);
    if UpperRow(rows, rowJ) {
      assert (rowJ + 1) as real * h - (rowI + 1) as real * h == (rowJ - rowI) as real * h;
    } else if UpperRow(rows, rowI) {
      var a := (rowI + 1) as real;
      var b := rows as real / 2.0 + 1.0;
      assert a <= b;
      assert b * h - a * h == (b - a) * h;
    }
  }

  /** Upper rows are not shifted; with a non-negative lhX, later rows shift further right the later they come. */
  lemma XOffsetMonotone(p: Params, rows: nat, rowI: nat, rowJ: nat)
    requires ValidParams(p) && LineHeightX(p) >= 0.0 && rowI <= rowJ
    ensures UpperRow(rows, rowI) ==> XOffset(p, rows, rowI) == 0.0
    ensures 0.0 <= XOffset(p, rows, rowI) <= XOffset(p, rows, rowJ)
  {
    var w := LineHeightX(p);
    var m := rows as real / 2.0;
    if !UpperRow(rows, rowI) {
      var a := rowI as real - m;
      var b := rowJ as real - m;
      assert 0.0 < a <= b;
      assert w * b - w * a == w * (b - a);
    } else if !UpperRow(rows, rowJ) {
      assert w * (rowJ as real - m) >= 0.0;
    }
  }

  /** Without amplitude scaling, every point lies on its row's baseline. */
  lemma FlatWithoutAmplitude(p: Params, q: seq<seq<real>>, rowI: nat, x: real, draw: real)
    requires ValidParams(p) && rowI < |q| && 0.0 <= x < |q[rowI]| as real
    requires p.amplitudeScale == 0.0
    ensures RowPoint(p, q, rowI, x, draw).y == BaselineY(p, |q|, rowI)
  {
  }

  /** A fully dark cell (value 1) gives no wobble, whatever the noise. */
  lemma NoWobbleOnDarkCell(p: Params, q: seq<seq<real>>, rowI: nat, x: real, draw: real)
    requires ValidParams(p) && rowI < |q| && 0.0 <= x < |q[rowI]| as real
    requires q[rowI][Floor(x)] == 1.0
    ensures RowPoint(p, q, rowI, x, draw).y == BaselineY(p, |q|, rowI)
  {
  }

  /**
   * With a draw in [0, 1], a cell value in [0, 1] and non-negative amplitudes, a point lies within
   * `(1 - value) * maxAmplitude / 2 * amplitudeScale` of its baseline.
   */
  lemma WobbleBound(p: Params, value: real, draw: real)
    requires 0.0 <= draw <= 1.0 && 0.0 <= value <= 1.0 && p.maxAmplitude >= 0.0 && p.amplitudeScale >= 0.0
    ensures Abs(Wobble(p, value, draw)) <= (1.0 - value) * p.maxAmplitude / 2.0 * p.amplitudeScale
  {
    var w := (1.0 - value) * p.maxAmplitude / 2.0 * p.amplitudeScale;
    var n := draw * 2.0 - 1.0;
    assert w >= 0.0;
    assert Wobble(p, value, draw) == n * w;
    assert -1.0 <= n <= 1.0;
    assert -w <= n * w <= w;
  }

  /** A path is the point list of some nonempty row from rowI on, for some start of the draws. */
  ghost predicate RowPathOf(p: Params, q: seq<seq<real>>, random: nat -> real, rowI: nat, path: seq<Point>)
    requires ValidParams(p)
  {
    exists r: nat, d: nat :: rowI <= r < |q| && |q[r]| > 0 && path == RowPointsFrom(p, q, random, r, d, 0.0)
  }

  /** A path of a row after rowI + 1 is a path of a row after rowI. */
  lemma RowPathOfWeaken(p: Params, q: seq<seq<real>>, random: nat -> real, rowI: nat, path: seq<Point>)
    requires ValidParams(p) && RowPathOf(p, q, random, rowI + 1, path)
    ensures RowPathOf(p, q, random, rowI, path)
  {
    var r: nat, d: nat :| rowI + 1 <= r < |q| && |q[r]| > 0 && path == RowPointsFrom(p, q, random, r, d, 0.0);
    assert rowI <= r;
  }

  /** Each path is the point list of a nonempty row, and there are no more paths than rows. */
  lemma {:induction false} PathsFromRows(p: Params, q: seq<seq<real>>, random: nat -> real, rowI: nat, k: nat)
    requires ValidParams(p) && rowI <= |q|
    ensures |PathsFrom(p, q, random, rowI, k)| <= |q| - rowI
    ensures forall n :: 0 <= n < |PathsFrom(p, q, random, rowI, k)| ==> RowPathOf(p, q, random, rowI, PathsFrom(p, q, random, rowI, k)[n])
    decreases |q| - rowI
  {
    if rowI < |q| {
      var all := PathsFrom(p, q, random, rowI, k);
      if |q[rowI]| == 0 {
        var rest := PathsFrom(p, q, random, rowI + 1, k);
        assert all == rest;
        PathsFromRows(p, q, random, rowI + 1, k);
        forall n | 0 <= n < |rest|
          ensures RowPathOf(p, q, random, rowI, rest[n])
        {
          RowPathOfWeaken(p, q, random, rowI, rest[n]);
        }
      } else {
        var first := RowPointsFrom(p, q, random, rowI, k, 0.0);
        var rest := PathsFrom(p, q, random, rowI + 1, k + |first|);
        assert all == [first] + rest;
        PathsFromRows(p, q, random, rowI + 1, k + |first|);
        forall n | 0 <= n < |all|
          ensures RowPathOf(p, q, random, rowI, all[n])
        {
          if n == 0 {
            assert all[n] == RowPointsFrom(p, q, random, rowI, k, 0.0);
          } else {
            assert all[n] == rest[n - 1];
            RowPathOfWeaken(p, q, random, rowI, rest[n - 1]);
          }
        }
      }
    }
  }

  /** The number of nonempty rows from rowI on. */
  function NonemptyRows(q: seq<seq<real>>, rowI: nat): nat
    requires rowI <= |q|
    decreases |q| - rowI
  {
    if rowI == |q| then 0 else (if |q[rowI]| > 0 then 1 else 0) + NonemptyRows(q, rowI + 1)
  }

  /** One path per nonempty row: empty rows produce no path. */
  lemma {:induction false} PathCount(p: Params, q: seq<seq<real>>, random: nat -> real, rowI: nat, k: nat)
    requires ValidParams(p) && rowI <= |q|
    ensures |PathsFrom(p, q, random, rowI, k)| == NonemptyRows(q, rowI)
    decreases |q| - rowI
  {
    if rowI < |q| {
      if |q[rowI]| == 0 {
        PathCount(p, q, random, rowI + 1, k);
      } else {
        PathCount(p, q, random, rowI + 1, k + |RowPointsFrom(p, q, random, rowI, k, 0.0)|);
      }
    }
  }

  /**
   * Each path element is named by its index, rotated by `-angleDegree` about its path's first point,
   * and draws one M to the first point followed by an L to every other point.
   */
  lemma PathElementShape(p: Params, q: seq<seq<real>>, random: nat -> real, n: nat, i: nat)
    requires ValidParams(p) && n < |PathsFrom(p, q, random, 0, 0)|
    requires i < |PathsFrom(p, q, random, 0, 0)[n]|
    ensures |VectorizedSvg(p, q, random).paths| == |PathsFrom(p, q, random, 0, 0)|
    ensures VectorizedSvg(p, q, random).paths[n].index == n
    ensures VectorizedSvg(p, q, random).paths[n].rotation == -p.angleDegree
    ensures VectorizedSvg(p, q, random).paths[n].pivot == PathsFrom(p, q, random, 0, 0)[n][0]
    ensures |VectorizedSvg(p, q, random).paths[n].commands| == |PathsFrom(p, q, random, 0, 0)[n]|
    ensures VectorizedSvg(p, q, random).paths[n].commands[i]
         == if i == 0 then Move(PathsFrom(p, q, random, 0, 0)[n][i]) else Line(PathsFrom(p, q, random, 0, 0)[n][i])
  {
    PathsNonempty(p, q, random, 0, 0);
  }
}
