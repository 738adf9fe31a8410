# Texture ripper: perspective extraction, modelled in Dafny

Texture Ripper lets a user mark four corners of a planar region in a photograph (a wall, a
poster, a floor tile). It then "unwarps" that quadrilateral into a rectangular texture. The
repository holds two generations of the tool:

- **js/...** is a plain-script version:
  - `TextureRipper` (js/main.js) keeps a list of `TextureArea`s (js/textureArea.js);
  - js/transform.js solves an 8-unknown perspective system by Gaussian elimination and resamples
    pixels by nearest neighbour;
  - js/utils.js holds the distance helpers.
- **src/...** is a React version:
  - src/utils/transform.ts and src/utils/texture.ts each solve the same system, with different
    solvers;
  - they size the output canvas and hand the affine part of the matrix to the canvas's
    `setTransform`;
  - src/components/Canvas.tsx holds the editor: zoom and pan, corner placement and dragging,
    rotation and flips, the grid-density keys, and the preview size.

The model works over mathematical reals and integers:

- **Distances.** They are used squared (`Utils.DistSq`). Where a real length is needed, the
  length is a parameter tied to its two points by `Utils.IsLength`.
- **Gaussian elimination.** Module `Gauss` states it once, as functions on an augmented
  n × (n + 1) matrix: `Pivot`, `SwapRows`, `ReduceRow`, `EliminateBelow` and `Forward`. It
  proves that forward elimination keeps the solution set and ends upper-triangular, and that
  the solution is then unique.
- **The three solvers.**
  - `solveEquations`, `solve` and `solveEquation` are imperative methods. Their loops carry
    invariants tying the working matrix to that specification.
  - `solveEquation` works on a 2-D array and a vector and updates both in place, as the
    source does.
- **Division by zero.** Where it goes unchecked in the source, the model does not stop with an
  error. It returns an explicit `NonFinite` outcome, and a TypeError from reading past an
  array's end is `Thrown`.
- **The editors.** The main.js application and `TextureArea` are classes whose methods update
  their fields. The React component's handlers are functions from the old view state to the
  new one, as their `setState` calls are.

There is also a Dafny module per source file. Together with `Gauss`, the shared modules are:

- `Types`: Point, Option, Outcome and TransformOptions;
- `JsBuiltins`: `Math.round`, the `%` remainder, `indexOf`/`splice`, and non-finite quotients
  and canvas-size assignment;
- `Homography`: the 3 × 3 projective map and its eight equations.

## Model

| member | source | states |
|---|---|---|
| Utils.DistSq | js/utils.js:5-7 | the squared distance between two points is never negative |
| Utils.DistSqSymmetric | js/utils.js:5-7 | the distance from p to q equals the distance from q to p |
| Utils.DistSqSelf | js/utils.js:5-7 | a point is at distance 0 from itself |
| Utils.DistSqTranslation | js/utils.js:5-7 | moving both points by one offset keeps their distance |
| Utils.LengthUnique | js/utils.js:5-7 | the non-negative root `distance` returns is determined by the two points, in either order |
| Utils.LengthOrder | js/utils.js:5-7 | comparing two distances is comparing their squares, so searches over squared distances pick the same points |
| Utils.IsNearPointMeaning | js/utils.js:10-12 | `isNearPoint` holds exactly when the distance is strictly below the threshold |
| Utils.DefaultThreshold | js/utils.js:10 | with no threshold given, near means closer than 5 |
| JsBuiltins.Round | src/components/Canvas.tsx:191-192 | `Math.round` gives the integer within half a unit, halves rounded up |
| JsBuiltins.Rem | src/components/Canvas.tsx:286 | JavaScript `%` takes the dividend's sign and agrees with the Euclidean remainder on non-negative dividends |
| JsBuiltins.IndexOf | js/main.js:222 | `indexOf` gives the first index holding the value, or -1 exactly when it is absent |
| JsBuiltins.SpliceOut | js/main.js:224 | `splice(i, 1)` removes exactly element i and keeps the others in order |
| JsBuiltins.Quotient | src/utils/texture.ts:100-101 | a / b is finite exactly when b > 0 (then the quotient times b is a), `Infinity` for a positive a over 0, otherwise `NaN` |
| JsBuiltins.MultiplyBy | src/utils/texture.ts:106 | a non-negative number times a non-negative extended number stays non-negative when finite |
| JsBuiltins.CanvasDimension | src/utils/texture.ts:102-106 | a canvas side set to a finite value is its integer part; a non-finite value gives 0 |
| TextureAreas.Prev | js/textureArea.js:16 | the partner j of vertex i is the last vertex for i = 0 and i - 1 otherwise |
| TextureAreas.HorizontalEdgeNeverCrosses | js/textureArea.js:20-21 | a horizontal edge never toggles `inside` |
| TextureAreas.EdgeCrossesTranslation | js/textureArea.js:20-21 | each edge test is invariant under moving the edge and the point together |
| TextureAreas.CrossingsTranslation | js/textureArea.js:14-25 | moving the outline and the point together keeps the number of crossings, hence `containsPoint` |
| TextureAreas.NoCrossingsBeyondAllVertices | js/textureArea.js:14-25 | a point not above any vertex's height has no crossings, so it is outside |
| TextureAreas.UnitSquareContainsCentre | js/textureArea.js:14-25 | the centre of the unit square is inside it: exactly one edge is crossed |
| TextureAreas.Extent | js/textureArea.js:83-94 | the extent is the longer top/bottom edge by the longer right/left edge: at least each, and equal to one |
| TextureAreas.TranslatedRoundTrip | js/textureArea.js:51-53 | moving an area by (dx, dy) and back gives the original corners |
| TextureAreas.TranslatedKeepsDistances | js/textureArea.js:51-53 | moving an area keeps every distance between its corners |
| TextureAreas.TextureArea.constructor | js/textureArea.js:4-11 | a new area holds the given corners, with nothing selected, hovered, dragged or active |
| TextureAreas.TextureArea.ContainsPoint | js/textureArea.js:14-25 | the loop's result is the even-odd rule over all edges (i, j), j trailing i cyclically |
| TextureAreas.TextureArea.GetNearestPoint | js/textureArea.js:28-41 | index -1 and an infinite distance without corners; otherwise a corner at minimal distance, the first on ties |
| TextureAreas.TextureArea.MovePoint | js/textureArea.js:44-48 | only a valid index is replaced, the length never changes, an invalid index changes nothing |
| TextureAreas.TextureArea.MoveArea | js/textureArea.js:51-53 | every corner is translated by (dx, dy), in order |
| TextureAreas.TextureArea.Clone | js/textureArea.js:107-109 | the copy is a new area with equal corners, back in the rest state |
| Gauss.Pivot | js/transform.js:167-176 | the chosen pivot row lies in i..n-1 |
| Gauss.PivotIsFirstMax | js/transform.js:167-176 | the pivot row has the largest magnitude in column i from row i down, and is the first such row |
| Gauss.ZeroPivotColumn | src/utils/transform.ts:158-162 | a zero maximum means the column is zero from the diagonal down |
| Gauss.SwapRows | js/transform.js:178-181 | swapping rows keeps an n × (n + 1) shape |
| Gauss.ReduceRow | js/transform.js:184-189 | reducing a row keeps its length |
| Gauss.EliminateBelow | js/transform.js:183-189 | eliminating below the pivot keeps the shape |
| Gauss.ForwardUnfold | js/transform.js:166-190 | one column of forward elimination is pivot search, swap and elimination, then the remaining columns |
| Gauss.SwapKeepsShape | js/transform.js:178-181 | swapping row i with a row below keeps the zeros and the non-zero diagonal built so far |
| Gauss.EliminateExtendsShape | js/transform.js:183-189 | elimination clears column i below the diagonal, extending the triangular part by one column |
| Gauss.ForwardIsUpperTriangular | js/transform.js:166-190 | successful forward elimination ends upper triangular with a non-zero diagonal |
| Gauss.ForwardFailsOnZeroColumn | src/utils/transform.ts:147-162 | elimination fails only at a step whose column is zero from the diagonal down |
| Gauss.SwapPreservesSolutions | js/transform.js:178-181 | a row swap does not change the solutions |
| Gauss.ReducedRowEquivalent | js/transform.js:184-189 | given the pivot row, a vector satisfies a reduced row exactly when it satisfied the row |
| Gauss.EliminatePreservesSolutions | js/transform.js:183-189 | elimination below a pivot does not change the solutions |
| Gauss.StepPreservesSolutions | js/transform.js:166-190 | one full step has the solutions of the system before it |
| Gauss.ForwardPreservesSolutions | js/transform.js:166-190 | the reduced system has exactly the solutions of the original |
| Gauss.TriangularSolutionUnique | js/transform.js:192-200 | a triangular system with a non-zero diagonal has at most one solution |
| Gauss.RowDeterminesUnknown | js/transform.js:194-200 | a triangular row fixes its unknown once the later ones are fixed |
| Gauss.SolutionUnique | js/transform.js:152-203 | when forward elimination succeeds, the original system has at most one solution |
| Gauss.RowsSolvedSolve | js/transform.js:192-200 | once every row is solved from its diagonal on, the vector solves the system |
| Gauss.SolveNextRow | js/transform.js:195-199 | setting unknown r from its row's right-hand side minus the later terms solves row r and keeps the rows below solved |
| Gauss.SolvedEntryFrames | js/transform.js:194-199 | fixing unknown i leaves every sum over later columns unchanged, and a sum from column i gains exactly the entry times the new value |
| Homography.TransformPoint | js/transform.js:51-56 | undefined exactly at a zero denominator; otherwise each coordinate times the denominator is the numerator |
| Homography.IdentityFixesPoints | js/transform.js:46-47 | the identity matrix maps every point to itself |
| Homography.Equations | src/utils/transform.ts:104-119 | the system has 8 rows of 9 entries, rows 2k and 2k+1 being the x- and y-equations of correspondence k |
| Homography.RowsMeanCorrespondence | src/utils/transform.ts:110-118 | a vector solves a correspondence's two rows exactly when that homography sends the source point to the target in homogeneous form |
| Homography.XRowMeaning | src/utils/transform.ts:110-112 | the x-row dotted with h, minus X, is the cross-multiplied x-equation of the homography |
| Homography.YRowMeaning | src/utils/transform.ts:113-115 | the y-row dotted with h, minus Y, is the cross-multiplied y-equation of the homography |
| Homography.SolvesByPairs | src/utils/transform.ts:104-119 | the eight-row system is solved exactly when each correspondence's pair of rows is |
| Homography.EquationsMeanCorrespondence | src/utils/transform.ts:104-122 | a vector solves the eight equations exactly when it corresponds all four point pairs |
| Homography.CorrespondenceMaps | src/utils/transform.ts:126-129 | with ninth entry 1 and a non-zero denominator, a corresponding matrix maps the source point onto its target |
| JsTransform.Matrix9 | js/transform.js:129 | the coefficient record has the nine entries of a 3 × 3 matrix |
| JsTransform.CalculateHomographyFixesEveryPoint | js/transform.js:5-48 | it throws exactly with fewer than four points; otherwise it returns the identity, which fixes every point |
| JsTransform.InverseFlagIgnored | js/transform.js:133-149 | both values of `inverse` give the same result, the forward map |
| JsTransform.AugmentRow | js/transform.js:154-162 | a widened row has 9 entries: the first eight, then entry 8 or 0 |
| JsTransform.Augmented | js/transform.js:153-163 | the widened first eight rows form an 8 × 9 augmented system |
| JsTransform.AugmentedOfNineWide | js/transform.js:154-163 | eight nine-entry rows are left unchanged by the widening |
| JsTransform.SolveEquations | js/transform.js:152-203 | it throws exactly with fewer than 8 rows; it is non-finite exactly when elimination meets a zero pivot; otherwise it returns the unique solution |
| JsTransform.Eliminate | js/transform.js:165-200 | non-finite exactly when forward elimination fails; otherwise the result solves the system |
| JsTransform.FindPivot | js/transform.js:167-176 | the loop returns the first row of largest magnitude in column i |
| JsTransform.EliminateColumn | js/transform.js:183-189 | the in-place loop computes the specification's elimination below the pivot |
| JsTransform.BackSubstitute | js/transform.js:192-200 | on a triangular system with a non-zero diagonal, the result solves it |
| JsTransform.FactorCancels | js/transform.js:185-187 | subtracting the factor times the pivot leaves exactly zero below it |
| JsTransform.PackedRow | js/transform.js:121-124 | each pushed row has 16 entries |
| JsTransform.GetPerspectiveTransform | js/transform.js:114-130 | as written, it always throws: four rows reach a solver that reads eight |
| JsTransform.CoefficientsOf | js/transform.js:128-129 | the record holds the eight solved entries and i = 1 |
| JsTransform.GetPerspectiveTransformCorrected | js/transform.js:114-130 | the corrected version throws exactly with fewer than four pairs, is non-finite exactly when singular, and otherwise gives i = 1 and matches all four pairs |
| JsTransform.RowsAreEquations | js/transform.js:117-125 | the corrected rows are the system's equations |
| JsTransform.PointInQuadMeaning | js/transform.js:206-222 | inside exactly when the four edge signs are not of both strict signs |
| JsTransform.PointInQuadTranslation | js/transform.js:206-222 | moving the point and the quad together keeps the answer |
| JsTransform.PointInQuadReversed | js/transform.js:206-222 | listing the corners in reverse order keeps the answer |
| JsTransform.ConvexQuadContainsBlends | js/transform.js:206-222 | for a convex quad, every convex combination of its corners is inside |
| JsTransform.RotateTwiceRestoresSize | js/transform.js:225-228 | a quarter turn exchanges width and height, and two turns restore them |
| JsExtract.PixelIndex | js/transform.js:97-98 | byte ch of pixel (x, y) is at (y·w + x)·4 + ch, and the pixel and channel can be read back from it |
| JsExtract.PixelInBuffer | js/transform.js:97-103 | every byte written for a pixel inside the image is inside the w·h·4 buffer |
| JsExtract.Resampled | js/transform.js:82-106 | the target buffer has width·height·4 bytes |
| JsExtract.ResampledPixel | js/transform.js:86-104 | a target byte is the matching source byte when the rounded mapped point is in bounds, and 0 otherwise |
| JsExtract.ExtractPixels | js/transform.js:82-106 | the double loop fills a freshly allocated buffer with exactly the resampled bytes |
| JsExtract.ExtractRow | js/transform.js:87-105 | one pass of the outer loop extends the correctly filled prefix of the target by one whole row |
| JsExtract.CopyPixel | js/transform.js:94-104 | the loop body writes the four bytes of its pixel and nothing else |
| JsExtract.ExtractTexture | js/transform.js:59-111 | as written, it always throws, since `getPerspectiveTransform` does |
| JsExtract.TargetRect | js/transform.js:67-72 | the target rectangle has four corners, top-left first, clockwise |
| JsExtract.ExtractTextureCorrected | js/transform.js:59-111 | it throws exactly with fewer than four corners and is non-finite exactly when singular; otherwise the buffer is resampled with coefficients taking the rectangle onto the quad |
| JsExtract.CorrectedFirstPixel | js/transform.js:86-104 | with the corrected coefficients, target pixel (0, 0) takes the quad's first corner's source pixel |
| JsExtract.SquareToRectIsTranslation | js/transform.js:114-130 | the only coefficients taking the shifted square onto the rectangle are a translation by -10 |
| JsExtract.InverseIgnoredLeavesCornerBlank | js/transform.js:89 | as written, the first pixel of the example stays 0 because it is mapped off the image |
| JsExtract.CorrectedSamplesCorner | js/transform.js:89 | corrected, the first pixel of the example is the square's corner pixel |
| Ripper.CornersOf | js/main.js:122 | the list of each area's corners, in order |
| Ripper.FirstGrabbed | js/main.js:122-131 | the loop picks the first area with a corner closer than 10, or none |
| Ripper.NearestDecidesGrab | js/main.js:123-124 | the nearest corner is closer than 10 exactly when some corner is |
| Ripper.SpliceOutRemovesExactly | js/main.js:222-224 | removing the first occurrence from a repeat-free list removes exactly that element |
| Ripper.SpliceOutKeepsDistinct | js/main.js:224 | splicing one element out of a repeat-free list leaves it repeat-free |
| Ripper.TextureRipper.constructor | js/main.js:17-21 | the application starts with no areas, no selection and no pending points |
| Ripper.TextureRipper.ResetForNewImage | js/main.js:67-71 | an image load clears areas, selection and pending points |
| Ripper.TextureRipper.HandleMouseDown | js/main.js:100-134 | it appends the point while fewer than 4 are pending, and the fourth closes a new selected area; with 4 or more pending it would grab the first area within 10 at its nearest corner, the lowest-indexed one on ties, but no reachable state has 4 pending, since the constructor establishes `Valid` (fewer than 4) and every handler keeps it, so the grab branch is dead code (see Findings); existing corners and their selection, hover and local-transform flags are untouched, and so are the drag state and active corner of every area it does not grab |
| Ripper.TextureRipper.AddPoint | js/main.js:103-119 | the point is appended; a fourth closes a new, fresh, at-rest, selected area and empties the pending list; validity is kept |
| Ripper.TextureRipper.Grab | js/main.js:125-127 | the area is selected with the given corner active and dragging on; its corners and other flags, the list and the pending points stay |
| Ripper.TextureRipper.HandleMouseDownCorrected | js/main.js:100-134 | the corrected handler hit-tests first: a click within 10 of a corner grabs the first such area at its nearest, lowest-indexed corner and adds no point; any other click is collected as before; validity and the frames are kept |
| Ripper.CornerClickAsWritten | js/main.js:103-132 | as written, after four clicks close the square (0, 0)–(10, 10), a click exactly on its first corner leaves one pending point and the square not dragging |
| Ripper.CornerClickCorrected | js/main.js:100-134 | with the corrected handler the same click grabs the square at corner 0 and leaves nothing pending |
| Ripper.TextureRipper.FindGrabbed | js/main.js:122-131 | the search loop yields the first area with a corner closer than 10, or -1, together with that area's nearest corner, the lowest-indexed one on ties |
| Ripper.TextureRipper.HandleMouseMove | js/main.js:136-150 | while dragging: shift sets the local-transform flag, and the active corner moves to the pointer; nothing else changes. As written `dragging` is set only by the unreachable grab branch, so this path never runs in the application |
| Ripper.TextureRipper.HandleMouseUp | js/main.js:152-159 | the selected area stops dragging, with no active corner and the local transform off; its corners, selection flag and hover flag stay. As written those flags are already clear, since only the unreachable grab branch sets them |
| Ripper.TextureRipper.DuplicateSelectedTexture | js/main.js:210-218 | a selection is copied, moved by (20, 20), appended and selected |
| Ripper.TextureRipper.DeleteSelectedTexture | js/main.js:220-228 | when `indexOf` finds the selection, that position is spliced out and the selection cleared, otherwise nothing changes; a valid state stays valid |
| Ripper.TextureRipper.RemoveArea | js/main.js:224-225 | the list loses exactly the element at the index, the selection is cleared, and a repeat-free list stays repeat-free |
| Ripper.TextureRipper.HandleKeyPress | js/main.js:182-202 | without a selection nothing changes; 'd' duplicates; Delete deletes; other keys leave the state unchanged |
| TsTransform.AugmentedOf | src/utils/transform.ts:144 | each augmented row is the row followed by its right-hand side |
| TsTransform.AugmentedMeaning | src/utils/transform.ts:144 | a vector solves the augmented copy exactly when A x = b row by row |
| TsTransform.Solve | src/utils/transform.ts:138-200 | null exactly for an empty system or a zero pivot; otherwise A x = b, and the solution is unique |
| TsTransform.FindPivot | src/utils/transform.ts:148-156 | the loop yields the specification's pivot row and its magnitude |
| TsTransform.EliminateBelowPivot | src/utils/transform.ts:169-179 | the loop computes the specification's elimination, zero under the pivot |
| TsTransform.ReduceEntries | src/utils/transform.ts:171-178 | the inner loop over k yields the specification's reduced row |
| TsTransform.SwapPivotRow | src/utils/transform.ts:164-167 | the guarded destructuring swap is the specification's row swap |
| TsTransform.NegatedFactor | src/utils/transform.ts:171-176 | adding (-a/p)·q equals subtracting (a/p)·q |
| TsTransform.BackSubstitute | src/utils/transform.ts:182-195 | null exactly when the triangular system has a zero diagonal entry; otherwise the result solves it |
| TsTransform.SubtractColumn | src/utils/transform.ts:190-192 | every earlier right-hand side loses its term for the solved unknown; all other entries are kept |
| TsTransform.GetPerspectiveTransform | src/utils/transform.ts:96-136 | null exactly with fewer than four points or a singular system; otherwise nine entries ending in 1 that match all four pairs, uniquely |
| TsTransform.FormMatrix | src/utils/transform.ts:125-129 | the matrix is the eight solved entries followed by 1 |
| TsTransform.PushEquations | src/utils/transform.ts:101-119 | the loop completes exactly with four points on each side, and then builds the system's equations |
| TsTransform.PushCorrespondence | src/utils/transform.ts:110-118 | one pass appends the x- and y-rows of a correspondence to A and (X, Y) to B |
| TsTransform.XCoefficients | src/utils/transform.ts:110-112 | the x-row's eight coefficients are those of the system |
| TsTransform.YCoefficients | src/utils/transform.ts:113-115 | the y-row's eight coefficients are those of the system |
| TsTransform.AugmentedIsEquations | src/utils/transform.ts:101-122 | the pushed A and B, augmented, are the system's equations |
| TsTransform.SetTransformArgs | src/utils/transform.ts:42-46 | the six arguments passed as written are entries 0, 1, 3, 4, 6 and 7 |
| TsTransform.CorrectedArgs | src/utils/transform.ts:42-46 | the arguments in canvas order (a, b, c, d, e, f) are entries 0, 3, 1, 4, 2 and 5 |
| TsTransform.TargetCorners | src/utils/transform.ts:31-36 | the target corners of a w × h canvas, top-left first, clockwise |
| TsTransform.ExtractTexture | src/utils/transform.ts:4-55 | it throws exactly without four points or with a singular system; otherwise it draws the quad with the as-written arguments |
| TsTransform.ExtractTextureCorrected | src/utils/transform.ts:4-55 | the same, drawing with the arguments in canvas order |
| TsTransform.CorrectedArgsFollowMatrix | src/utils/transform.ts:42-46 | for an affine matrix, the canvas-order arguments map every point as the matrix does |
| TsTransform.AsWrittenMisplacesSquare | src/utils/transform.ts:42-47 | as written, the shifted square's first corner is drawn at (10, 0), not at the canvas origin |
| TsTransform.CorrectedPlacesSquare | src/utils/transform.ts:42-47 | corrected, every corner of the shifted square lands on its canvas corner |
| TsTransform.ShiftedSquareMatrix | src/utils/transform.ts:96-131 | the matrix for the shifted square is the translation by -10 |
| TsTransform.TransformedCanvasSize | src/utils/transform.ts:64-66 | the output canvas of `applyTransformToCanvas` has the input's size |
| TsTransform.TransformedCanvasKeepsSize | src/utils/transform.ts:64-66 | every rotation and flip gives a canvas of the input's width and height |
| TsTexture.SolveEquation | src/utils/texture.ts:25-71 | it never throws; it is non-finite exactly when elimination meets a zero pivot; otherwise it returns the unique solution and leaves A triangular and b reduced, in place |
| TsTexture.FindPivot | src/utils/texture.ts:28-36 | the loop yields the first row of largest magnitude in column i |
| TsTexture.SwapFrom | src/utils/texture.ts:38-46 | the pivot row and row i are exchanged in A (from column i) and in b |
| TsTexture.EliminateBelowPivot | src/utils/texture.ts:48-59 | the loop leaves A and b holding the specification's elimination below the pivot |
| TsTexture.ReduceLowerRow | src/utils/texture.ts:49-58 | one pass reduces row k of A and b as the specification does, extending the reduced rows by one |
| TsTexture.ReduceRowEntries | src/utils/texture.ts:51-57 | one row's reduction in place: column i set to 0, later columns reduced, other rows untouched |
| TsTexture.BackSubstitute | src/utils/texture.ts:62-70 | on a triangular system with a non-zero diagonal, the result solves it |
| TsTexture.SubtractColumn | src/utils/texture.ts:66-68 | each earlier right-hand side loses its term for the solved unknown |
| TsTexture.GetProjectiveTransform | src/utils/texture.ts:3-23 | it throws exactly with fewer than four points and is non-finite exactly when singular; otherwise the eight entries match all four pairs, uniquely |
| TsTexture.LoadedEquations | src/utils/texture.ts:5-18 | the loaded A and v, augmented, are the system's equations |
| TsTexture.PushCoefficientRows | src/utils/texture.ts:5-13 | the loop pushes the x- and y-coefficient rows of each correspondence in turn |
| TsTexture.PushTargets | src/utils/texture.ts:14-18 | the targets are pushed as X0, Y0, …, X3, Y3 |
| TsTexture.OutputScale | src/utils/texture.ts:184-185 | the scale is in (0, 1]: 1 when the longer side is at most 2048, otherwise it scales that side to exactly 2048 |
| TsTexture.OutputSize | src/utils/texture.ts:183-187 | both sides are within [0, 2048], and a texture whose sides both fit is rounded but not scaled |
| TsTexture.ScaledAtMost | src/utils/texture.ts:185-187 | a side scaled by the output scale is at most 2048 |
| TsTexture.ExtractTexture | src/utils/texture.ts:156-217 | it throws exactly without four points; the canvas is the scaled natural size, whatever width and height are requested; the transform maps the corners onto it |
| TsTexture.PreviewFits | src/utils/texture.ts:99-111 | one canvas side is its preview side and the other does not exceed its own, so both offsets are non-negative |
| TsTexture.WideFit | src/utils/texture.ts:101-103 | for a relatively wider quad, the height following from the full preview width stays within the preview height |
| TsTexture.TallFit | src/utils/texture.ts:104-107 | otherwise the width following from the full preview height stays within the preview width |
| TsTexture.PreviewKeepsAspect | src/utils/texture.ts:99-107 | with positive sides, the computed side follows the quad's aspect ratio up to truncation |
| TsTexture.CreatePerspectivePreview | src/utils/texture.ts:73-154 | it throws exactly without four points; the canvas is fitted and centred, and the transform maps the corners onto it |
| CanvasView.Initial | src/components/Canvas.tsx:32-52 | the mount state is valid: no corners, zoom 1, no pan in progress |
| CanvasView.StageToImage | src/components/Canvas.tsx:91-96 | the image point is the one that zoom and pan carry onto the stage point |
| CanvasView.ImageToStage | src/components/Canvas.tsx:99-104 | undoing the pan and zoom of the stage point gives the image point |
| CanvasView.ImageStageRoundTrip | src/components/Canvas.tsx:91-104 | image to stage and back is the identity for a non-zero zoom |
| CanvasView.StageImageRoundTrip | src/components/Canvas.tsx:91-104 | stage to image and back is the identity for a non-zero zoom |
| CanvasView.CenterImage | src/components/Canvas.tsx:75-88 | the image fits within 80% of the container, filling 80% on one axis, with its centre at the container's centre |
| CanvasView.CenterImageKeepsValid | src/components/Canvas.tsx:75-88 | a load into a non-empty container keeps the view valid |
| CanvasView.PreviewSides | src/components/Canvas.tsx:177-188 | NaN exactly for two zero averages; otherwise both sides are in [0, 1024], the aspect ratio is kept, and the larger side is min(1024, larger average) |
| CanvasView.WideSides | src/components/Canvas.tsx:182-184 | with a ratio above 1 the width is the larger average and the capped width with its divided height fit the preview |
| CanvasView.TallSides | src/components/Canvas.tsx:185-187 | otherwise the width average is at most the height average, and the capped height with its multiplied width fit the preview |
| CanvasView.CalculatePreviewSize | src/components/Canvas.tsx:151-194 | 512 × 512 unless four corners are placed; otherwise the rounded fitted sides, each within [0, 1024] |
| CanvasView.Wheel | src/components/Canvas.tsx:196-221 | without a pointer nothing changes; scrolling down zooms out by 1.1 to no less than 0.1, scrolling up zooms in to no more than 10; only zoom and pan change |
| CanvasView.WheelKeepsPointUnderPointer | src/components/Canvas.tsx:206-220 | the image point under the pointer stays under it |
| CanvasView.WheelKeepsScaleRange | src/components/Canvas.tsx:211-214 | a zoom starting in [0.1, 10] stays in [0.1, 10] |
| CanvasView.MouseDown | src/components/Canvas.tsx:223-251 | the middle and right buttons start a pan; a new corner is added exactly on a left click on the stage with fewer than 4 corners, at the image point under the pointer; the list never exceeds 4 |
| CanvasView.MouseMove | src/components/Canvas.tsx:253-267 | during a pan the stage moves by the pointer's movement, which becomes the new drag start; otherwise nothing changes |
| CanvasView.PanKeepsGrabbedPoint | src/components/Canvas.tsx:257-266 | the image point grabbed at the drag start stays under the pointer |
| CanvasView.MouseUp | src/components/Canvas.tsx:269-272 | the pan ends and nothing else changes |
| CanvasView.PanKeepsValid | src/components/Canvas.tsx:253-272 | panning and releasing never touch the corners and keep the view valid |
| CanvasView.PointDragMove | src/components/Canvas.tsx:274-283 | only the dragged corner changes, to the image point under the marker; the length is kept |
| CanvasView.Rotate | src/components/Canvas.tsx:285-288 | it keeps the flips, gives a rotation in [0, 360), and turns by -90 or +90 modulo 360 |
| CanvasView.RotateKeepsQuarterTurn | src/components/Canvas.tsx:285-288 | a rotation in {0, 90, 180, 270} stays there |
| CanvasView.RotateRoundTrip | src/components/Canvas.tsx:285-288 | left then right, or right then left, restores every rotation in [0, 360) |
| CanvasView.Flip | src/components/Canvas.tsx:290-296 | only the named axis is toggled |
| CanvasView.FlipInvolution | src/components/Canvas.tsx:290-296 | flipping an axis twice restores the transform, and flips commute |
| CanvasView.KeyDown | src/components/Canvas.tsx:304-335 | the corrected handler, reading the current state: only the transform, the two overlay flags and the grid density can change (never the corners, zoom, pan position or pan state); nothing happens unless 4 corners are placed; '[' and ']' step the density with clamps at 4 and 20; 'g' and '?' toggle their overlays and no other key touches them; 'r' rotates and 'h'/'v' flip the current transform, and no other key touches it |
| CanvasView.KeyDownAsWritten | src/components/Canvas.tsx:304-339 | as written, 'r', 'h' and 'v' act as the corrected handler would on the captured transform; every other key acts exactly as the corrected handler |
| CanvasView.Press | src/components/Canvas.tsx:337-339 | a press applies the listener; a new listener capturing the new transform is registered exactly when a dependency changed, and the transform keys never change one |
| CanvasView.FreshListenerAgrees | src/components/Canvas.tsx:304-339 | a listener registered in the current render agrees with the corrected handler on every key |
| CanvasView.SecondRotationIsLost | src/components/Canvas.tsx:285-339 | from any quarter turn with four corners, two 'r' presses as written give one rotation, while the corrected handler turns twice, and the two differ |
| CanvasView.StaleTransformExample | src/components/Canvas.tsx:304-339 | from (0, no flips): 'r' twice gives 90 as written and 180 corrected; 'r' then 'h' gives (0, flipX) as written and (90, flipX) corrected |
| CanvasView.KeyDownKeepsValid | src/components/Canvas.tsx:325-330 | the density stays in [4, 20], and every shortcut keeps the view valid |
| CanvasView.Reset | src/components/Canvas.tsx:610-617 | the corners and the transform are cleared, and nothing else changes |

## Findings

| source | as written | input that shows it | evidently intended | confidence | as-written member | corrected member |
|---|---|---|---|---|---|---|
| js/transform.js:117-128 | four 16-entry rows (two equations packed per row, no right-hand sides) go to `solveEquations`, which reads eight rows | any four point pairs: row 4 is undefined and reading `row[i]` throws a TypeError | eight rows of nine entries: each correspondence's x- and y-equation with its target coordinate | not executed | JsTransform.GetPerspectiveTransform | JsTransform.GetPerspectiveTransformCorrected |
| js/transform.js:75,89 | the coefficients map source to target, and the resampler, asked for the inverse, applies that same forward map to target pixels | the shifted square (10,0)…(10,10) onto a 10 × 10 texture: pixel (0, 0) is sent to (-10, 0) and stays blank | map each target pixel back to the source, with coefficients from the target rectangle to the quad | not executed | JsExtract.InverseIgnoredLeavesCornerBlank | JsExtract.CorrectedSamplesCorner |
| src/utils/transform.ts:42-46 | `setTransform(m[0], m[1], m[3], m[4], m[6], m[7])`: the translation slots get the projective row and the shear slots are swapped | the square (10,0), (20,0), (20,10), (10,10) onto a 10 × 10 canvas: corner (10, 0) is drawn at (10, 0) instead of (0, 0) | `setTransform(m[0], m[3], m[1], m[4], m[2], m[5])`, the order src/utils/texture.ts:127-130 uses | not executed | TsTransform.AsWrittenMisplacesSquare | TsTransform.CorrectedPlacesSquare |
| src/components/Canvas.tsx:304-339 | the keydown effect depends on `[showGrid, gridDensity, points.length, showHelp]` only, so its `handleRotate` and `handleFlip` read the transform of the render that registered the listener | four corners, transform (0, no flips): `r` twice ends at rotation 90, and `r` then `h` at (0, flipX) | each shortcut acts on the current transform: 180, and (90, flipX) | not executed | CanvasView.StaleTransformExample | CanvasView.KeyDown |
| js/main.js:103-132 | the corner hit-test sits in the `else` of `currentPoints.length < 4`, but the pending list is emptied as soon as it reaches 4 (js/main.js:115), so the test always holds and the grab branch never runs; no corner can ever be dragged | four clicks on (0, 0), (10, 0), (10, 10), (0, 10) close a square; a fifth click on (0, 0) adds a pending point instead of grabbing corner 0 | a click near an existing corner grabs it, and only other clicks are collected as corners | not executed | Ripper.CornerClickAsWritten | Ripper.TextureRipper.HandleMouseDownCorrected |

For the first two rows, the rest of the model uses the corrected versions:
`JsExtract.ExtractTextureCorrected` solves with `JsTransform.GetPerspectiveTransformCorrected`.
For the third row, `TsTransform.ExtractTexture` keeps the source's argument order and
`TsTransform.ExtractTextureCorrected` uses the canvas order. For the fourth row,
`CanvasView.KeyDownAsWritten` and `CanvasView.Press` model the listener as registered, and
`CanvasView.SecondRotationIsLost` shows that a second rotation is lost from every quarter turn;
the rest of the model uses `CanvasView.KeyDown`, which reads the current transform. For the
fifth row, `Ripper.TextureRipper.HandleMouseDown` is the handler as written, and
`Ripper.TextureRipper.HandleMouseDownCorrected` hit-tests the areas before collecting a point;
`Ripper.CornerClickCorrected` runs the example through it.

## Left out

- Browser I/O is not modelled: canvas drawing (`drawImage`, `setTransform` rendering, `rotate`/`scale`, `putImageData`), `toDataURL`, clipboard, file reading, DOM events and React rendering. Source pixels are a given byte sequence. `setTransform` is modelled through the affine map its six arguments define.
- Square roots are not computed: `utils.distance`, `Math.hypot` and `Math.sqrt` lengths are parameters tied to their points by `Utils.IsLength`.
- Floating point is not modelled. All arithmetic is exact over reals, so rounding error in elimination and the order of operations are not captured.
- NaN and Infinity are modelled only where the source depends on them: a zero pivot gives `NonFinite`, and so do the comparisons and canvas sizes of `createPerspectivePreview` and `calculatePreviewSize`. When a zero pivot occurs, the model does not carry the NaN values on through the remaining loop iterations.
- CanvasView.StageToImage: requires a non-zero zoom, since a zero zoom divides to NaN. The same holds for CanvasView.Wheel, CanvasView.MouseDown and CanvasView.PointDragMove, which convert through it. The editor keeps the zoom positive (`CanvasView.Valid`) whenever the container is non-empty.
- CanvasView.PointDragMove: requires an existing corner's index, because the index comes from a rendered marker; an out-of-range write that would extend the JavaScript array is not modelled.
- CanvasView.KeyDown: takes the key already lower-cased; `toLowerCase` on arbitrary key names is not modelled.
- TsTexture.CreatePerspectivePreview: requires non-negative preview sizes; negative sizes would need signed infinities in the quotient model.
- JsBuiltins.CanvasDimension: does not model canvas sizes of 2^31 or more, which the `unsigned long` conversion wraps modulo 2^32 and the HTML reflection rule then replaces by the default 300 whenever the wrapped value is 2^31 or more; the callers produce at most 2048.
- TsTransform.Solve: requires a square A with one right-hand side per row; the only caller passes 8 × 8. Non-square input, where the source reads undefined entries as NaN, is not modelled.
- JsTransform.SolveEquations: requires rows of at least 8 entries once there are 8 rows; shorter rows fill with `undefined`, giving NaN, and are not modelled.
- JsTransform.PointInQuad: requires at least four corners; with fewer the source reads undefined corners.
- TsTexture.SolveEquation: the swap at src/utils/texture.ts:39-43 also exchanges column n, one past the end of each 8-entry row. That only shuffles `undefined` entries nobody reads, and the model swaps columns i..n-1.
- TsTransform.ExtractTexture and TsTransform.ExtractTextureCorrected: the drawing is stated as the affine map of the six `setTransform` arguments; a canvas cannot draw the projective part, and that limitation is the source's.
- JsExtract.ExtractTexture and JsExtract.ExtractTextureCorrected: take whole-number sizes. `textureArea.extractTexture` passes real edge lengths; with those, `createCanvas` rounds, `createImageData` truncates and the pixel loops run up to the next integer, none of which is modelled.
- `copySelectedTexture` and `rotateSelectedTexture` (js/main.js:204-208, 230-238) only extract, draw and copy to the clipboard; what remains is the size swap of `rotateCanvas`, stated by `JsTransform.RotateTwiceRestoresSize`.
- `updatePreview` (js/main.js:161-183) is not modelled as a step of its own: with a selection it calls `TextureArea.extractTexture`, then `transform.extractTexture` and `getPerspectiveTransform`, and by the first finding that always throws a TypeError (`JsExtract.ExtractTexture`). So `handleMouseDown` ends in an uncaught TypeError when it completes a fourth corner (js/main.js:118), and `handleMouseUp` does whenever an area is selected (157), each before its `redraw` where it has one. The calls at js/main.js:128 (after a grab) and 145 (after moving a corner) would throw too, but they are never reached: the grab branch is dead code (see Findings), and without it no area is ever dragging. Every state change those handlers make comes before the call, so the end states of `Ripper.TextureRipper.HandleMouseDown`, `HandleMouseMove` and `HandleMouseUp` are the source's; the throw itself and the skipped `redraw` are not modelled.
- `redraw`, `draw`, `drawPreview`, `redrawImage` and the preview-image pipeline of `generatePreview` are drawing only and are not modelled.
- CanvasView.KeyDownAsWritten and CanvasView.Press: the transform the listener captured is a parameter; which render registered the listener is not derived from a history of renders, only the rule that a press registers a new listener when a dependency changes.
- Corner lists are sequence values. Two main.js areas do not share a corner list, since `clone` copies it, so no aliasing is lost.
- `calculateHomography`'s normalisation (js/transform.js:6-31) is computed and then discarded, so only its result, the identity, and its throw on short lists are modelled.
- The React component's remaining state and its renderers (arrows, grid, legend, help panels) are not modelled, and neither is the slider that sets the grid density directly (src/components/Canvas.tsx:828), whose `parseInt` value is unconstrained.
