# Tesseract hero and release countdown, modelled in Dafny

This project models the two pieces of sequential logic in a promotional
single-page site for a music release.

- **The 4-cube animation** (`src/components/ThreeJSHero.tsx`). The page
  background is a rotating hypercube. It is built once: 16 vertices whose
  ±1 coordinates come from the bits of the vertex index, and the edge list
  joining vertices that differ in exactly one coordinate. One cylinder mesh
  is bound to each edge. On every frame, `rotate4D` turns both endpoints of
  each edge through six plane rotations, in the order XY, XZ, XW, YZ, YW,
  ZW. `project4DTo3D` then divides them down to 3-space with viewing
  distance 5. Finally each cylinder is moved to the midpoint of its two
  projected endpoints and stretched to their distance.
- **The countdown** (`src/components/CountdownTimer.tsx`). Once a second, the
  millisecond difference to the release date is split into days, hours,
  minutes and seconds. All four are zero once the date has passed. Each field
  is shown through `toString().padStart(2, "0")`.

Modules, one per component:

| file | module | models |
|---|---|---|
| `wrappers.dfy` | `Wrappers` | `Option`, for results that JavaScript would make non-finite |
| `geometry.dfy` | `Geometry` | points of 4- and 3-space, squared norm and distance, two facts about squares |
| `hypercube.dfy` | `Hypercube` | vertex generation, edge generation, cylinder binding |
| `rotation.dfy` | `Rotation` | the six plane steps and `rotate4D`, with the inverse rotation as partner |
| `projection.dfy` | `Projection` | `project4DTo3D` and the per-edge midpoint and length |
| `countdown.dfy` | `Countdown` | the millisecond decomposition |
| `padding.dfy` | `Padding` | `toString()` of a non-negative integer and `padStart(2, "0")` |

Modelling choices:

- All geometry is over `real`. The cosine and sine of each plane's angle are
  passed in as a pair `Turn(c, s)`. The properties that rely on real angles
  assume `c*c + s*s == 1` (`IsUnit`, `AllUnit`). `NoTurn` = `(1, 0)` stands
  for the angle zero.
- `distanceTo` takes a square root, which cannot be computed over the reals
  here. `PlaceEdge` therefore receives the length as a parameter and requires
  it to be the non-negative root of the squared distance (`IsLength`). Any
  root passed in satisfies the contract.
- `project4DTo3D` divides by `5 + w`. JavaScript produces infinities or NaN
  when that is zero. The model returns `None` there, and proves that this
  never happens for a rotated hypercube vertex.
- The countdown's `difference` is an integer number of milliseconds
  (`getTime()` values). `Math.floor(a / b)` is modelled as `FloorDiv` and
  JavaScript's truncating `%` as `JsRem`.
- The edge list is proved equal to the 32-entry table `HypercubeEdges`.
  The proof uses three facts: any output of the edge loop is strictly
  sorted, it holds exactly the connected pairs, and two strictly sorted lists
  with the same elements are equal. The table's pairs are also proved to be
  exactly those whose indices are one bit apart (`i ^ j` a power of two).

- The code has no guard for coincident endpoints of an edge, so none is
  modelled. `PlaceEdgeCoincident` shows that the position and length the
  code computes stay finite in that case.
- The code does not clamp the projection denominator `5 + w`.
  `RotatedVertexDepth` proves the denominator stays in [3, 7] for every
  rotated vertex.
- A plane step is pinned down as a turn by its angle, not just as some
  length-preserving map: `Turn2` sends a quarter turn `(0, 1)` to
  `(p, q) ↦ (-q, p)`, and `Turn2Compose` proves the angle-addition law, so
  two steps in one plane add their angles (`Compose`).

## Model

| member | source | states |
|---|---|---|
| `Hypercube.BitIsAnd` | src/components/ThreeJSHero.tsx:198-201 | the arithmetic bit test used for vertex signs agrees with the bitwise `i & 1`, `i & 2`, `i & 4`, `i & 8` on every index 0..15 |
| `Hypercube.Vertex` | src/components/ThreeJSHero.tsx:198-202 | vertex i is a corner of [−1, 1]⁴ (every coordinate ±1), and reading its signs back as bits gives i, so the 16 vertices are distinct |
| `Hypercube.GenerateVertices` | src/components/ThreeJSHero.tsx:197-203 | 16 vertices; every coordinate is +1 or −1; coordinate k of vertex i is +1 iff bit k of i is set (x↔bit 0 … w↔bit 3); the 16 vertices are pairwise distinct |
| `Hypercube.VertexNormSq` | src/components/ThreeJSHero.tsx:197-203 | every vertex has squared norm 4 |
| `Hypercube.DiffCount` | src/components/ThreeJSHero.tsx:212-216 | the difference count lies in 0..4 and is 0 exactly when the two points are equal |
| `Hypercube.ConnectVertices` | src/components/ThreeJSHero.tsx:206-223 | every emitted pair `(i, j)` has `0 ≤ i < j < 16` and endpoints differing in exactly one coordinate; every such pair is emitted; the list is strictly increasing in lexicographic order, so it has no duplicates |
| `Hypercube.DiffCountOneIffOneBitApart` | src/components/ThreeJSHero.tsx:212-219 | two hypercube vertices differ in exactly one coordinate iff `i ^ j` is 1, 2, 4 or 8 (both directions) |
| `Hypercube.HypercubeEdgesOneBitApart` | src/components/ThreeJSHero.tsx:206-223 | every pair of the 32-entry table has `0 ≤ i < j < 16` and `i ^ j` a power of two |
| `Hypercube.OneBitApartConnected` | src/components/ThreeJSHero.tsx:212-219 | indices one bit apart name vertices the edge loop connects |
| `Hypercube.HypercubeEdgesSound` | src/components/ThreeJSHero.tsx:206-223 | every pair of the table joins two generated vertices that differ in exactly one coordinate |
| `Hypercube.SortedListsEqual` | src/components/ThreeJSHero.tsx:206-223 | two strictly sorted edge lists with the same elements are equal, so the loop's output is determined by the pairs it must hold |
| `Hypercube.HypercubeEdgeList` | src/components/ThreeJSHero.tsx:206-223 | for the generated vertices, any list meeting the edge loop's contract is the 32-entry table; its pairs are exactly the pairs one bit apart |
| `Hypercube.ConnectHypercube` | src/components/ThreeJSHero.tsx:206-223 | the edge loop run on the generated vertices yields exactly the 32-entry table |
| `Hypercube.BindCylinders` | src/components/ThreeJSHero.tsx:232-243 | one cylinder per edge; cylinder k is bound to edge k; every mesh starts at the origin unstretched |
| `Hypercube.BuildHypercube` | src/components/ThreeJSHero.tsx:193-243 | the whole set-up: the generated vertices, exactly 32 edges equal to the table, 32 cylinders bound in order, no edge bound twice |
| `Hypercube.SortedDistinct` | src/components/ThreeJSHero.tsx:206-223 | a list in strict loop order holds no pair twice, so no edge gets two cylinders |
| `Rotation.RotateXY` | src/components/ThreeJSHero.tsx:131-137 | the XY step leaves z and w untouched; with a unit (cos, sin) pair it keeps x²+y²+z²+w²; at angle zero it is the identity; a quarter turn sends (x, y) to (−y, x) |
| `Rotation.RotateXZ` | src/components/ThreeJSHero.tsx:139-145 | the XZ step leaves y and w untouched, keeps the squared norm for a unit pair, and is the identity at angle zero; a quarter turn sends (x, z) to (−z, x) |
| `Rotation.RotateXW` | src/components/ThreeJSHero.tsx:147-153 | the XW step leaves y and z untouched, keeps the squared norm for a unit pair, and is the identity at angle zero; a quarter turn sends (x, w) to (−w, x) |
| `Rotation.RotateYZ` | src/components/ThreeJSHero.tsx:155-161 | the YZ step leaves x and w untouched, keeps the squared norm for a unit pair, and is the identity at angle zero; a quarter turn sends (y, z) to (−z, y) |
| `Rotation.RotateYW` | src/components/ThreeJSHero.tsx:163-169 | the YW step leaves x and z untouched, keeps the squared norm for a unit pair, and is the identity at angle zero; a quarter turn sends (y, w) to (−w, y) |
| `Rotation.RotateZW` | src/components/ThreeJSHero.tsx:171-177 | the ZW step leaves x and y untouched, keeps the squared norm for a unit pair, and is the identity at angle zero; a quarter turn sends (z, w) to (−w, z) |
| `Rotation.Rotate4D` | src/components/ThreeJSHero.tsx:120-180 | with six unit pairs the composed rotation keeps x²+y²+z²+w²; with all angles zero it is the identity |
| `Rotation.Turn2` | src/components/ThreeJSHero.tsx:132-135 | a plane step with angle zero leaves the pair alone, and a quarter turn takes (p, q) to (−q, p): it turns counter-clockwise |
| `Rotation.Turn2Compose` | src/components/ThreeJSHero.tsx:132-135 | a step by one angle followed by a step by another equals one step by their sum (angle addition), so a step is a turn by its angle |
| `Rotation.ComposeUnit` | src/components/ThreeJSHero.tsx:132-135 | the sum of two unit angles is a unit angle |
| `Rotation.ComposeOpposite` | src/components/ThreeJSHero.tsx:132-135 | an angle plus its opposite is no turn |
| `Rotation.RotateXYCompose` | src/components/ThreeJSHero.tsx:131-137 | two XY steps add their angles |
| `Rotation.RotateXZCompose` | src/components/ThreeJSHero.tsx:139-145 | two XZ steps add their angles |
| `Rotation.RotateXWCompose` | src/components/ThreeJSHero.tsx:147-153 | two XW steps add their angles |
| `Rotation.RotateYZCompose` | src/components/ThreeJSHero.tsx:155-161 | two YZ steps add their angles |
| `Rotation.RotateYWCompose` | src/components/ThreeJSHero.tsx:163-169 | two YW steps add their angles |
| `Rotation.RotateZWCompose` | src/components/ThreeJSHero.tsx:171-177 | two ZW steps add their angles |
| `Rotation.Turn2NormSq` | src/components/ThreeJSHero.tsx:132-135 | one plane step multiplies the squared length of its coordinate pair by c²+s² |
| `Rotation.Turn2Opposite` | src/components/ThreeJSHero.tsx:132-135 | for a unit pair, a plane step followed by the step with the opposite angle gives back the original coordinates |
| `Rotation.UnrotateRotate` | src/components/ThreeJSHero.tsx:120-180 | for unit pairs, applying the opposite angles in reverse plane order undoes `rotate4D` |
| `Rotation.RotateUnrotate` | src/components/ThreeJSHero.tsx:120-180 | for unit pairs, `rotate4D` undoes the reverse-order opposite rotation, so every point is reached |
| `Rotation.PlaneOrderMatters` | src/components/ThreeJSHero.tsx:131-145 | quarter turns in XY then XZ differ from XZ then XY on (1,0,0,0), so the fixed step order is significant |
| `Projection.Project` | src/components/ThreeJSHero.tsx:182-190 | the result is finite iff `5 + w ≠ 0`; each projected coordinate times `5 + w` equals 5 times the original coordinate |
| `Projection.RotatedVertexDepth` | src/components/ThreeJSHero.tsx:182-190 | for unit pairs, a rotated hypercube vertex keeps squared norm 4, its w lies in [−2, 2], and the projection denominator `5 + w` lies in [3, 7], so the projection is finite |
| `Projection.ProjectAtDepth` | src/components/ThreeJSHero.tsx:182-190 | a point with w = −1 is scaled by 5/4 and one with w = +1 by 5/6 |
| `Projection.UnrotatedPoint` | src/components/ThreeJSHero.tsx:182-190 | at angle zero a point with w = ±1 is left in place by the rotation and then scaled by 5/4 or 5/6 |
| `Projection.UnrotatedProjection` | src/components/ThreeJSHero.tsx:182-190 | at angle zero every hypercube vertex projects to itself scaled by 5/4 if its w is −1 and by 5/6 if its w is +1 |
| `Projection.EveryEdgeProjects` | src/components/ThreeJSHero.tsx:270-296 | for unit pairs, both rotated and projected endpoints of every edge (indeed of any vertex pair) are finite |
| `Projection.PlaceEdge` | src/components/ThreeJSHero.tsx:298-310 | the position is the componentwise midpoint, equally far from both endpoints, at a quarter of the squared length from each; the y-scale is non-negative and its square is the sum of squared coordinate differences |
| `Projection.PlaceEdgeCoincident` | src/components/ThreeJSHero.tsx:298-310 | coincident endpoints give the point itself as position and length 0, both finite |
| `Projection.LengthUnique` | src/components/ThreeJSHero.tsx:305-310 | the stretch `distanceTo` gives is fixed by the two endpoints: any two non-negative roots of their squared distance are equal |
| `Projection.PlaceEdgeExample` | src/components/ThreeJSHero.tsx:298-310 | endpoints (0,0,0) and (0,2,0) place the mesh at (0,1,0), stretched to 2 |
| `Countdown.FloorDiv` | src/components/CountdownTimer.tsx:19-26 | `Math.floor(a / b)` for positive b: the largest q with q·b ≤ a |
| `Countdown.JsRem` | src/components/CountdownTimer.tsx:21-26 | JavaScript `%` with positive divisor: `a` is the quotient rounded toward zero times `b` plus the remainder; the remainder lies in [0, b) for non-negative dividends (equal to the mathematical remainder there) and in (−b, 0] for negative ones, which together fix its value for both signs |
| `Countdown.JsRemNegate` | src/components/CountdownTimer.tsx:21-26 | negating the dividend negates the remainder, as JavaScript does: `-5 % 3` is −2 |
| `Countdown.Decompose` | src/components/CountdownTimer.tsx:16-30 | difference ≤ 0 gives all four fields 0; difference > 0 gives days ≥ 0, hours < 24, minutes < 60, seconds < 60, and days·86400000 + hours·3600000 + minutes·60000 + seconds·1000 ≤ difference < that + 1000 |
| `Countdown.NestedRems` | src/components/CountdownTimer.tsx:21-26 | the remainder by a day and then by an hour is the remainder by an hour, and likewise for minutes and seconds |
| `Countdown.DecomposeUnique` | src/components/CountdownTimer.tsx:19-26 | the decomposition is the only in-range tuple that reconstructs the difference to within a second |
| `Countdown.DecomposeTotal` | src/components/CountdownTimer.tsx:19-26 | round trip: a positive in-range tuple converted to milliseconds and decomposed again is unchanged |
| `Countdown.LexLeIffTotalLe` | src/components/CountdownTimer.tsx:19-26 | between in-range tuples, lexicographic order on (days, hours, minutes, seconds) is the order of the milliseconds they stand for |
| `Countdown.DecomposeMonotone` | src/components/CountdownTimer.tsx:19-30 | a larger difference never gives a lexicographically smaller (days, hours, minutes, seconds) |
| `Padding.ToDecimal` | src/components/CountdownTimer.tsx:42 | `toString()` of a non-negative integer is a non-empty digit string, of length 1 exactly for values below 10, with no leading zero except for 0 itself |
| `Padding.ParseToDecimal` | src/components/CountdownTimer.tsx:42 | reading the decimal string back gives the number |
| `Padding.ParseLeadingZero` | src/components/CountdownTimer.tsx:42 | a padding zero in front does not change a digit string's value |
| `Padding.PadStart2` | src/components/CountdownTimer.tsx:42 | the result has length max(2, \|s\|), ends with s, and everything in front of s is '0' |
| `Padding.FormatField` | src/components/CountdownTimer.tsx:42 | a displayed field has at least two characters, all decimal digits, and reads back as the value |
| `Padding.FormatFieldFacts` | src/components/CountdownTimer.tsx:42 | values below 10 become "0" and then the digit; values of 10 and more are shown as `toString()` writes them |
| `Padding.TwoDigitsBelowHundred` | src/components/CountdownTimer.tsx:52-72 | hours, minutes and seconds (all below 100) are shown with exactly two digits |
| `Padding.Display` | src/components/CountdownTimer.tsx:42-72 | the four displayed fields, days first, each at least two digits and reading back as days, hours, minutes and seconds |
| `Padding.DisplayReadsBack` | src/components/CountdownTimer.tsx:42-72 | for any difference, the four displayed fields are digit strings of length ≥ 2 that read back as days, hours, minutes and seconds; hours, minutes and seconds take exactly two digits |

## Left out

- Scene, camera, `WebGLRenderer`, `EffectComposer`, the bloom and blur passes and their shaders (ThreeJSHero.tsx:25-115) are left out. They are calls into the rendering library.
- Resize handling (ThreeJSHero.tsx:334-355) and teardown and disposal (ThreeJSHero.tsx:358-382) are left out. They are event and resource side effects with no logic of their own.
- The `shapes` container (ThreeJSHero.tsx:117, 246-251, 260) is left out. It only ever holds the one hypercube.
- `Math.cos` and `Math.sin` are replaced by a (cos, sin) parameter pair per plane. IEEE-754 rounding is not modelled: all arithmetic is exact over the reals.
- The square root inside `distanceTo` is not computed. The length is a parameter constrained to be that root.
- The orientation step is left out: `normalize()`, `Quaternion.setFromUnitVectors` and `setRotationFromQuaternion` (ThreeJSHero.tsx:312-324). These are library internals. The code adds no guard for coincident endpoints, and the model adds none either.
- `requestAnimationFrame`, `Date.now()` and the angle schedule (ThreeJSHero.tsx:254-268) are left out as clock and event-loop plumbing. The model takes the six angles as inputs.
- `setInterval`, `new Date()` and the React state of the countdown (CountdownTimer.tsx:11-15, 28-35) are left out for the same reason. The model takes `difference` as an input.
- Padding.ToDecimal: JavaScript writes numbers of 10^21 and more in exponent notation. The model always writes plain digits; a day count never comes near that size.
- Countdown.Decompose: the source's `difference / 86400000` is a floating-point division before `Math.floor`. The model uses exact integer division. The two agree for integer millisecond differences far below 2^53.
- Projection.ProjectEdge only packages the two projected endpoints of one edge. Its properties are stated by `Projection.EveryEdgeProjects`.
- The "Seconds" caption under the minutes field (CountdownTimer.tsx:66) is left out. It is presentation only.
- src/components/HeroSection.tsx and tailwind.config.js are not part of this model. They hold static markup and build configuration.
