# halftone-lines, modelled in Dafny

This project models the core of halftone-lines. The program turns a halftoned raster into an SVG of wobbly parallel lines. It has two parts:

- **Raster utilities** (`util.ts`). Binning, snapping to a step, clamping near-white values, inversion, dropping NaN, running max and min, centring ragged rows, a "valid" 2-D convolution over ragged rows, the byte-buffer fill before PNG encoding, the channel grouping and reshape after PNG decoding, the brightness range check, and uniform kernels.
- **Angled sampler and path builder** (`toPath.ts`):
  - `repeat`, `createAngledKernel` and the `angleBasedIncrement` generator.
  - `quantizeHalftoneImg`, which walks sampling lines at an angle across the image and averages the kernel's weighted samples at each step.
  - `vectorizeQuantizationOfHalftoneImage`, which turns every density row into a polyline wobbled by lightness-weighted noise and tracks the SVG view box.

Modules:

- `wrappers.dfy`: `Option` and `Result`.
- `js_math.dfy`: `Math.round`, `Math.floor`, `Math.ceil`, `Math.abs`, and the byte clamp.
  - A JavaScript number that may be NaN or `undefined` is `Option<real>` (`None` is NaN or `undefined`).
  - The ±Infinity that `max` and `min` start from is the `Extended` datatype.
- `util.dfy`: `util.ts`.
- `angled_lines.dfy`: `repeat`, `createAngledKernel`, `angleBasedIncrement`. The generator is a class whose field `y` counts the values it has yielded.
- `sampler.dfy`: `quantizeHalftoneImg`.
- `vectorizer.dfy`: `vectorizeQuantizationOfHalftoneImage`, up to the SVG text.

The loops of the source are methods with loop invariants. Most methods are proved equal to a specification function, and what the source promises is proved about that function as lemmas. The smaller ones (`Util.Max`, `Util.Min`, `Util.WindowFits`, `AngledLines.Repeat`, the uniform kernels and `Util.PixelChannels`) state their results directly in their contracts. Some modelling choices:

- Numbers are exact reals.
- `Math.round(v)` is `floor(v + 1/2)`.
- The results of `Math.tan`, `Math.sin`, `Math.cos` and `Math.sqrt` are parameters: the `Trig` and `Params` records, the kernel size, and the tangent.
- `Math.random` is a parameter `random: nat -> real`. Its argument is the number of draws made before.
- The brightness curve of `calculateBrightness` is a parameter `luminance`.
- The decoded PNG (its data, width, height and channel count) is a parameter.

## Model

| member | source | states |
|---|---|---|
| JsMath.Round | util.ts:32 | `Math.round(v)` is the integer in (v − ½, v + ½]; halves round up |
| JsMath.Floor | toPath.ts:135 | `Math.floor(v)` is the integer n with n ≤ v < n + 1 |
| JsMath.Ceil | toPath.ts:43 | `Math.ceil(v)` is the integer n with n − 1 < v ≤ n |
| JsMath.Abs | util.ts:143 | `Math.abs(v)` is non-negative and is v or −v |
| JsMath.IntAbs | toPath.ts:61 | `Math.abs` of an integer kernel offset is a natural number equal to the offset or its negation |
| JsMath.ClampByte | util.ts:281 | `Math.max(0, Math.min(255, n))` lies in [0, 255], is n inside that range, 0 below it and 255 above it |
| JsMath.RoundMonotone | toPath.ts:219 | `Math.round` never decreases as its argument grows |
| Util.MakeBins | util.ts:8-17 | makeBins gives max(n, 2) values, first `from` and last `to`; for n < 2 exactly [from, to]; for n ≥ 2 entry i is `from + i*(to-from)/(n-1)` |
| Util.LastBin | util.ts:8-17 | the formula `from + i*(to-from)/(n-1)` at i = n − 1 is `to`, so the trailing push of `to` continues the sequence |
| Util.BinsEvenlySpaced | util.ts:10-14 | consecutive bins are exactly `(to-from)/(n-1)` apart |
| Util.BinsSorted | util.ts:8-17 | for from ≤ to the bins are non-decreasing |
| Util.FindClosestStepIncrement | util.ts:30-34 | the result is defined (not NaN) exactly when step ≠ 0, and then lies within \|step\|/2 of num |
| Util.NearestMultipleBound | util.ts:31-33 | `round(num/step)*step` is within \|step\|/2 of num |
| Util.FindClosestStepIncrementOnGrid | util.ts:30-34 | the result divided by step is an integer |
| Util.FindClosestStepIncrementIdempotent | util.ts:30-34 | snapping an already snapped value leaves it unchanged |
| Util.DownsamplePixel | util.ts:37-43 | a pixel snapped to the step `(nColors-1)**-1` is defined exactly when nColors ≠ 1, and then is a whole number of steps (a colour level) within half a step of the pixel |
| Util.DownsampleBWImage | util.ts:37-43 | the output has the image's shape; every cell is NaN exactly when nColors = 1, and otherwise is a whole number of colour steps `1/(nColors-1)` within half a step of the input cell |
| Util.Pow10 | util.ts:103 | `10**n` is positive for every integer n |
| Util.RoundScaledOnGrid | util.ts:102-105 | `Math.round(x*f)/f` (round(x, nPrec) for f = 10**nPrec) is within 1/(2f) of x and is a whole number of units 1/f |
| Util.SumAppend | util.ts:135-137 | the sum of a concatenation is the sum of the sums |
| Util.SumConstant | util.ts:135-137 | n copies of c sum to n·c |
| Util.SumBounds | util.ts:135-137 | values in [lo, hi] sum to between n·lo and n·hi |
| Util.AbsAll | util.ts:139-146 | the mapped abs keeps the length, and each entry is non-negative and equal to ± the input entry |
| Util.Max | util.ts:148-154 | the result is -Infinity exactly for an empty list, never +Infinity, otherwise an element of the list that no element exceeds |
| Util.Min | util.ts:184-190 | the result is +Infinity exactly for an empty list, never -Infinity, otherwise an element of the list below which no element lies |
| Util.MakeWhiteOffWhite | util.ts:108-118 | the nested loop builds exactly the off-white grid |
| Util.OffWhiteImageCells | util.ts:108-118 | the grid has img.length rows of img[0].length cells; a cell ≥ .95 becomes .95, every other cell is unchanged, and a cell past a short row's end is `undefined` |
| Util.OffWhiteImageBounded | util.ts:112 | no defined cell of the output exceeds .95 |
| Util.OffWhiteImageIdempotent | util.ts:108-118 | clamping twice equals clamping once, on every grid |
| Util.InvertImage | util.ts:120-130 | the nested loop builds exactly the inverted grid |
| Util.InvertedImageCells | util.ts:120-130 | the grid has img.length rows of img[0].length cells; a defined cell becomes 1 − px, and a missing or NaN cell stays NaN |
| Util.InvertedImageInvolution | util.ts:120-130 | on a rectangular grid, inverting twice gives the original back |
| Util.ClearNaN | util.ts:164-172 | the loop returns the left fold that keeps the non-NaN items |
| Util.NonNaNAppend | util.ts:164-172 | dropping NaN from a concatenation is the concatenation of the results |
| Util.NonNaNContents | util.ts:164-172 | no NaN remains; the result is no longer than the input; every number occurs as often as in the input |
| Util.NonNaNMembers | util.ts:164-172 | a value is in the result exactly when it is in the input and is not NaN |
| Util.NonNaNOfNumbers | util.ts:164-172 | a list without NaN comes back unchanged |
| Util.NonNaNIdempotent | util.ts:164-172 | clearNaN applied twice equals clearNaN applied once |
| Util.MaxRowLength | util.ts:195-199 | the running maximum is at least every row's length, and is 0 or some row's length |
| Util.WidestRow | util.ts:195-199 | the first loop computes the maximum row length |
| Util.CopyRow | util.ts:205-214 | copying row y into a zero row at its left padding gives exactly row y of the centred grid |
| Util.CenterIrregularImageOnDiagonal | util.ts:193-217 | the result is the centred grid |
| Util.CenteredRowPlacement | util.ts:193-217 | the output has height rows of maxWidth cells; row y's values occupy `[floor((maxWidth-len)/2), +len)`; the zeros to the right number the left padding or one more |
| Util.CenteredPaddingIsZero | util.ts:201-214 | every cell outside a row's copied span is 0 |
| Util.CenteredWidestRow | util.ts:205-214 | a widest row is copied without padding |
| Util.MinRowLength | util.ts:234-238 | `Math.min` of the row lengths is at most every row's length and is some row's length |
| Util.BlockRow | util.ts:240-260 | block i's row has `blockMinWidth - kernelWidth + 1` entries, or none |
| Util.BlockFits | util.ts:244-250 | below `blockMinWidth - kernelWidth + 1` the fit check always passes |
| Util.WindowFits | util.ts:242-250 | `valid` is true exactly when every kernel row lands on an image row with at least `j + kernelWidth` cells |
| Util.WindowSum | util.ts:253-257 | the double loop computes Σ_{k,l} img[i+k][j+l]·kernel[k][l] |
| Util.BlockRowValues | util.ts:231-260 | the j loop builds block i's row |
| Util.Convolution2D | util.ts:220-266 | the loops compute the convolution specification |
| Util.ConvolutionOfEmpty | util.ts:221 | an empty image gives [] |
| Util.BlockRowsShape | util.ts:230-264 | at most one output row per block; every output row is nonempty and is the row of some block |
| Util.BlockRowsAllKept | util.ts:261-263 | when every block is wide enough, the output is every block's row, in order |
| Util.ConvolutionRowCount | util.ts:230 | a kernel taller than the image gives []; otherwise there are at most `img.length - kernelHeight + 1` output rows |
| Util.ConvolutionRow | util.ts:230-264 | output row p is the row of some block i with `blockMinWidth ≥ kernelWidth`, and it has `blockMinWidth - kernelWidth + 1` entries |
| Util.BlockRowEntry | util.ts:252-258 | entry j of block i's row is Σ_{k,l} img[i+k][j+l]·kernel[k][l], and the kernel fits there |
| Util.RowMajorRowsLength | util.ts:278 | n rows of width w fill n·w bytes |
| Util.RowMajorRowsAt | util.ts:279-283 | byte `y*width + x` of the buffer is cell (y, x) |
| Util.EncodeBWBuffer | util.ts:272-283 | the nested loop fills the row-major buffer |
| Util.EncodedCell | util.ts:272-283 | the buffer has height·width bytes, and `data[y*width+x]` is `clamp(0, 255, round(image[y][x]*255))`, or 0 when row y is too short (NaN is stored as 0) |
| Util.PixelByteOfUnit | util.ts:281 | a cell in [0, 1] is stored unclamped, as round(v·255) |
| Util.Sanitize | util.ts:356-360 | sanitize succeeds exactly for values in [0, 1] (NaN too), returns the value, and otherwise fails with the matching message |
| Util.CalculateBrightness | util.ts:354-363 | brightness succeeds exactly when r, g and b pass the range check; it then gives the luminance; otherwise it fails with the first failing channel's error |
| Util.ChannelValueRange | util.ts:304-306 | a channel value passes the range check exactly when its sample is at most 255 or missing; defined values are non-negative |
| Util.PixelChannels | util.ts:303-306 | pixel p's channel list holds `data[p*channels + c] / 255` for every channel c |
| Util.BrightnessesFailurePersists | util.ts:302-309 | once a pixel's brightness throws, all later prefixes end in the same error |
| Util.BrightnessesValues | util.ts:302-309 | a successful pass yields one value per pixel, each that pixel's brightness |
| Util.PixelRange | util.ts:302-308 | a pixel's brightness succeeds exactly when its first three samples are in range; it can only fail with "greater than 1" |
| Util.BrightnessesSucceed | util.ts:302-309 | the pass over the first count pixels succeeds exactly when all their r, g, b samples are at most 255 |
| Util.ReshapeRows | util.ts:311-318 | the reshape loop builds the height × width grid from the row-major list |
| Util.DecodeRGBPngToBwMatrix | util.ts:298-321 | decoding computes the specification: the brightness pass and then the reshape |
| Util.DecodeSucceeds | util.ts:298-321 | decoding succeeds exactly when every sample of every pixel's r, g, b lies at most at 255 (otherwise "greater than 1") |
| Util.DecodedCell | util.ts:311-318 | a decoded image has height rows of width cells, and cell (i, j) is the brightness of pixel i·width + j |
| Util.UniformKernel1d | util.ts:337-345 | size entries, each 1/size |
| Util.UniformKernel2d | util.ts:323-335 | size rows of size entries, each 1/size² |
| Util.UniformKernel1dSumsToOne | util.ts:337-345 | a uniform 1-D kernel of positive size sums to 1 |
| Util.UniformKernel2dSumsToOne | util.ts:323-335 | a uniform 2-D kernel of positive size sums to 1 |
| Util.GridOfEqualRows | util.ts:323-335 | rows that each sum to s sum to rows·s |
| AngledLines.Repeat | toPath.ts:7-13 | max(n, 0) copies of `what` |
| AngledLines.AngledKernel | toPath.ts:201-223 | a kernel of `size` rows has max(size, 0) offsets |
| AngledLines.CreateAngledKernel | toPath.ts:201-223 | the loop builds the angled kernel specification |
| AngledLines.AngledKernelEntry | toPath.ts:215-220 | offset y is `round(tangent*(y - (size-1)/2))` |
| AngledLines.AngledKernelCentre | toPath.ts:209-220 | for an odd size the centre offset is 0 |
| AngledLines.AngledKernelMonotone | toPath.ts:215-220 | for a non-negative tangent the offsets never decrease |
| AngledLines.AngleBasedIncrement.constructor | toPath.ts:231-242 | a fresh generator has yielded nothing (y = 0), so every fresh generator restarts the same sequence |
| AngledLines.AngleBasedIncrement.Next | toPath.ts:243-252 | the k-th value (from 0) is `round(dx*k + initVal)`, and the counter advances by one |
| AngledLines.FirstIncrement | toPath.ts:245-248 | the first value is round(initVal) |
| AngledLines.IncrementStep | toPath.ts:245-251 | consecutive values differ by between dx − 1 and dx + 1 |
| AngledLines.IncrementMonotone | toPath.ts:245-251 | for dx ≥ 0 the values never decrease |
| Sampler.LineCountExact | toPath.ts:52 | the line loop visits exactly the integers below nLines |
| Sampler.KernelBeginPointRange | toPath.ts:31-38 | `heightOfMiddleLine - floor(heightOfMiddleLine/lhY)*lhY` lies in [0, lhY) for lhY > 0 |
| Sampler.Contributions | toPath.ts:62-67 | one contribution per kernel row |
| Sampler.StepValuePresent | toPath.ts:61-69 | a step pushes a value exactly when some kernel row's row, cell and weight all exist |
| Sampler.MeanBounds | toPath.ts:69 | the mean of values in [lo, hi] lies in [lo, hi] |
| Sampler.StepValueBounds | toPath.ts:61-69 | a pushed value lies within the bounds of the present contributions |
| Sampler.StepValueOfUniformImage | toPath.ts:61-69 | with unit weights, an image of one grey g pushes exactly g |
| Sampler.MaxAbs | toPath.ts:61 | `Math.max(...abs(kernel))` is at least every \|offset\| and is one of them |
| Sampler.SampleStep | toPath.ts:61-69 | one step's clearNaN-and-average computes the step value |
| Sampler.WalkLine | toPath.ts:53-75 | the while loop (x from −K by 1, y from the fresh generator) pushes exactly the walk's values |
| Sampler.WalkLength | toPath.ts:61 | a walk pushes at most `width + max\|offset\| + K` values |
| Sampler.WalkValues | toPath.ts:61-70 | every pushed value is the value of a step the loop condition admitted, at x = s − K and the y of step s |
| Sampler.WalkOfEmptyKernel | toPath.ts:61 | with an empty kernel (`Math.max()` is -Infinity) no step is taken |
| Sampler.QuantizeHalftoneImg | toPath.ts:16-88 | the method returns one density line per integer line below nLines, each the walk from `round(kernelBeginPoint + lhY*line)` |
| Sampler.QuantizationShape | toPath.ts:52-75 | density line `line` exists only for line < nLines, and it has at most `width + max\|offset\| + K` values |
| Vectorizer.RemainingDecreases | toPath.ts:134 | each `x += noiseFrequency**-1` lowers `ceil((len - x)*noiseFrequency)` by one, so the point loop ends |
| Vectorizer.RowPlacement | toPath.ts:123-132 | the baseline and x offset are the row-index rule |
| Vectorizer.MakePoint | toPath.ts:135-143 | the point is `(x + xOffset, y + noise*(1 - row[floor x])*maxAmplitude/2*amplitudeScale)` |
| Vectorizer.RowPath | toPath.ts:120-156 | the point loop emits the row's points and keeps the view box equal to the running maxima |
| Vectorizer.VisitRow | toPath.ts:116-157 | an empty row adds no path; another row adds its path and moves the draw count past its points |
| Vectorizer.VectorizeQuantizationOfHalftoneImage | toPath.ts:94-177 | the result is the SVG specification: the view box and the path elements |
| Vectorizer.VectorizedSvgOf | toPath.ts:159-173 | the SVG holds the running maxima over all points and one element per path |
| Vectorizer.PathsNonempty | toPath.ts:118-134 | every path has a point, since a nonempty row always has its point at x = 0 |
| Vectorizer.FoldMaxXBounds | toPath.ts:145 | the running max of x is at least its start and every point's x, and is the start or some point's x |
| Vectorizer.FoldMaxYBounds | toPath.ts:146 | the same for y |
| Vectorizer.ViewBoxBounds | toPath.ts:108-146 | the final view box is at least 0 and at least every emitted point's x and y |
| Vectorizer.XAfterClosedForm | toPath.ts:134 | after i steps of `x += st` from x0, x is `x0 + i*st` |
| Vectorizer.RowPointsFromLength | toPath.ts:134 | the loop makes point i exactly when x after i steps is below the row length |
| Vectorizer.RowPointsFromAt | toPath.ts:134-155 | point i is taken at x after i steps, inside the row, with draw k + i |
| Vectorizer.RowPointCount | toPath.ts:134 | a row's path has a point i exactly when `i/noiseFrequency < row.length` |
| Vectorizer.RowPointAt | toPath.ts:134-155 | point i lies at x = i/noiseFrequency, so floor(x) is a valid index, and uses draw k + i |
| Vectorizer.BaselineMonotone | toPath.ts:126-131 | rows up to the middle are stacked downward and every later row shares the lowest baseline (for lhY ≥ 0) |
| Vectorizer.XOffsetMonotone | toPath.ts:123-131 | upper rows are not shifted; later rows shift further right the later they come (for lhX ≥ 0) |
| Vectorizer.FlatWithoutAmplitude | toPath.ts:143 | with amplitudeScale = 0 every point lies on its baseline |
| Vectorizer.NoWobbleOnDarkCell | toPath.ts:137-143 | a cell of value 1 gives no wobble, whatever the noise |
| Vectorizer.WobbleBound | toPath.ts:140-143 | with a draw in [0, 1] the wobble is at most `(1 - v)*maxAmplitude/2*amplitudeScale` |
| Vectorizer.PathsFromRows | toPath.ts:116-121 | there are no more paths than rows, and each path is the point list of a nonempty row |
| Vectorizer.PathCount | toPath.ts:118-121 | there is exactly one path per nonempty row |
| Vectorizer.PathElementShape | toPath.ts:159-167 | path n is named n and rotated by −angleDegree about its first point; its commands are M to the first point and then L to every other point |

## Left out

- `openTmpFolder` (util.ts:45-99) is not part of this model. It is file-system and Bun I/O.
- The `fast-png` `encode` and `decode` calls are left out because they are a foreign library. The buffer fill before `encode` and the reshape after `decode` are modelled. The decoded image is a parameter.
- The gamma curve of `calculateBrightness` (util.ts:365-394) is left out. It is floating-point `Math.pow`, so brightness is the parameter `luminance` and only its range check is modelled.
- `degToRad`, `radToDeg` and `rotateByAngle` are left out, as are every `Math.sin`, `Math.cos`, `Math.tan` and `Math.sqrt` in toPath.ts. Their results are parameters.
- The debug write-back in `quantizeHalftoneImg` (toPath.ts:64-65) is left out. It writes .8 and .3 into the caller's image, possibly at negative or past-end indices. The model samples a read-only grid, so it does not capture a cell that is read again after such a write.
- `Math.random` is nondeterministic. It is the parameter `random`, and the model does not constrain its range except where a lemma says so.
- IEEE rounding is not modelled. `x += noiseFrequency**-1` is exact real arithmetic here, so for steps that are not exact binary fractions the float program may make one point more or fewer.
- SVG text formatting (`toFixed`, `join`, the attribute strings) is left out. Paths are `Move` and `Line` commands in a datatype.
- cli.ts and test.ts are not part of this model.
- `quantizeHalftoneImg` computes `centerPoint` and `centerLineOffsetXAtTopBorder` but never uses them, so they are left out. The unused `minRowLength` of `convolution2D` is left out for the same reason.
- Sampler.QuantizeHalftoneImg: `weighting` and the line height are parameters, because the default `repeat(1, assumedLineHeight)` and `assumedLineHeight` come from cli.ts. The function returns only the density lines, as the code does.
- Util.Convolution2D: requires a nonempty kernel with no row shorter than its first row whenever the image is nonempty. Otherwise `kernel[0].length` throws on an empty kernel, and a short row reads `undefined`.
- Sampler.QuantizeHalftoneImg: requires a nonempty image. For an empty image the source throws a TypeError at `img[0].length` (toPath.ts:19), and the model does not represent that error.
- Util.EncodeBWBuffer: requires a nonempty image. For an empty image the source throws a TypeError at `image[0].length` (util.ts:275), and the model does not represent that error.
- Sampler.QuantizeHalftoneImg: requires the sine, cosine and tangent of `90 - angle` to be nonzero and a nonzero line height. Otherwise the source divides by zero and goes on with Infinity and NaN, which exact reals cannot represent.
- Vectorizer.VectorizeQuantizationOfHalftoneImage: requires `noiseFrequency > 0` and a nonzero sine and cosine of `90 - angle`. With a negative frequency the source's point loop never ends. With 0 the step is Infinity, so each row gets one point, which exact reals cannot represent. A zero sine or cosine divides by zero.
- Util.UniformKernel1d and Util.UniformKernel2d take the size as a natural number. A fractional size in the source would run the loop `ceil(size)` times.
- Util.RoundToPrecision has no contract of its own. Its error bound and grid are stated by Util.RoundScaledOnGrid with f = 10**nPrec, and its idempotence is not stated.
- JavaScript's rounding of `1 / size` and of `10**nPrec` is not modelled. Both are exact reals here.
- Cells of `makeWhiteOffWhite` and `invertImage` past the end of a shorter row read `undefined`. The model keeps that as NaN rather than rejecting such grids.
- Default arguments are not modelled, and every argument is explicit. These are the vectorizer's `angleDegree = 40, maxAmplitude = 20, lineSpacing = 10, noiseFrequency = 10, amplitudeScale = 1` (toPath.ts:96-100), `nColors = 255` of `downsampleBWImage` (util.ts:37) and `initVal = 0` of `angleBasedIncrement` (toPath.ts:231).
- Util.MakeBins and AngledLines.Repeat take the count as an integer. A fractional count in the source would run the loop up to the next integer.
- Util.Max and Util.Min take lists of numbers without NaN. The source's comparisons skip a NaN entry (util.ts:151, 187), a case the model's `seq<real>` input cannot hold.
