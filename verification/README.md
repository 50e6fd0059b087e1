# Verified models of the evaluation guests

This project models the algorithmic parts of the guest programs used to evaluate the Bao hypervisor,
and proves what they are relied on for. `dafny verify dfyconfig.toml` checks all of it.

Three groups of programs are covered.

* The SUSAN image kernels. `SusanThin` is the body of the edge-thinning loop, in place on the edge map;
  `ThinRun` is every run of the scan, whose counters the body moves back, from any marks with positive
  response. `EdgeGraph`, `EdgeMerge`, `RingTest`, `ThinGraph` and `ThinTrace` prove that thinning breaks no
  edge: the arithmetic on the 3x3 ring decides whether the neighbours of a pixel hang together, arbitrary
  paths are rerouted around a removed or moved pixel, a new pixel joins exactly the edges it touches, and the
  argument is carried over whole runs as an exact count, together with bounds on the rescanning. `ThinDecisions`
  says of the picture, both ways, when each decision is taken. `ThinRescan`
  says when a second scan would change the map, and that no scan skips a pixel, and `ThinExamples` holds small maps that show what may happen.
  `Gradient`, `SmallMask`, `EdgeMode` and `EdgeDraw` put the marking before it and the drawing after it, for
  the 37-pixel and the 3x3 mask. `MaskMoments` ties all sums over the disc to the pixels the pointer walk
  addresses. `Usan` shows that the early-exit corner response equals the plain one,
  `CornerResponse` that the refinement is safe, `Corners` that suppression spaces corners and finds one
  whenever some response is positive, `CornerAttributes`, `CornerList` and `CornerDraw` what is listed and
  drawn, `CornerMode` all of it from image to image, for the careful and the quick finder. `Enlarge`, `Median`,
  `Smoothing` and `SmoothImage` prove the maximum principle of smoothing.
* The interference guest. `Interference` is a step system of any number of CPUs with an exclusive
  reservation each, every memory access one step; mutual exclusion, the partition of the tickets and the
  isolation of the buffer rows are invariants of all interleavings, and the lock can always be had.
  `Passes` says who gets past the cut-off and that every row can be filled.
  `GuestMachine` executes the same steps on one set of mutable words.
* Integer and bit algorithms. `ISqrt` is the scaled square root without multiplication, `BitFiles` the
  buffered bit stream, `BitCount` (on `Words` and `ParallelSum`) the family of bit counters, `BitString`
  the printer and the parser of binary numerals.

## How the code is rendered

* Code that works in place stays in place: methods over `array2`, `array` and classes, each tied to a
  function of the old state. Images are two-dimensional arrays, `mid[i, j]` for `mid[i*x_size+j]`; the
  moving pixel pointer of the 37-pixel mask is related to coordinates by `Usan.PointerVisitsMask`.
  Straight-line repetitions of one read are loops over a row of the mask.
* The brightness table is a parameter with the facts its construction gives: even, between 0 and 100,
  100 at 0. The Gaussian distance table is a parameter with weights in 0..100 and 100 at the centre. Both
  presuppose thresholds other than 0.
* The test `r'/centre > 0.7` is `10*r' > 7*centre`. `FTOI` of a quotient is rounding of the exact quotient.
* The comparisons of the gradient, `z > 0.9*n`, `z < 0.5` and the like, are exact comparisons of the integers
  the quotients and roots are made of (`Gradient.GravityAxisByQuotient`, `Gradient.FarByDistance`); the
  rounding of `sqrt` and of `0.9*n` is not modelled.
* A `long` has 64 bits, `char` and image bytes have 8, the byte order is low byte first, and shifts,
  truncations and wrap-arounds are written out. `&`, `<<` and `>>` on words are recursive functions on
  their bits, so the proofs about masks are linear.
* Run relations (`ThinRun.IsRun`, `Interference.Run`) cover every prefix of every execution.

## Where the code falls short of its description

* The square root (documented as the scaled root of its `unsigned long` argument) ignores the bits above
  the 32nd: `ISqrt.ScaledRootExactly` gives the exact condition.
* The bit stream never writes its last 1 to 8 bits, since closing does not flush; reading past the end
  delivers ones (`BitFiles.Conservation`, `BitFiles.RoundTrip`, `BitFiles.BFile.Read`).
* The parallel, nybble-table and byte-table counters ignore the bits above the 32nd of a 64-bit `long`:
  `BitCount.CountersAgree`. The recursive counter does not return for a negative argument:
  `BitCount.RecursionEnds`.
* For no bits at all the printer emits one blank more than the width asked for (`BitString.WidthExact`),
  and the parser does not skip the printer's blanks (`BitString.ParserStopsAtBlank`).
* Drawing the corner blocks in list order is right exactly when no two corners are neighbours, which
  nothing in the drawing itself checks (`CornerDraw.BlackExactlyWhenApart`); the suppression guarantees it.
* Thinning removes edges that consist of one pixel (`ThinExamples.LoneEdgeIsLost`), and an extension may merge
  two edges (`ThinExamples.ExtensionMayMerge`). Nothing else changes their number: removals and merges account
  for it exactly (`ThinRun.RunComponentCount`), and an extension merges if and only if the new pixel has a
  neighbour that was not joined to the line (`ThinGraph.ExtensionMerges`).
* Where the scan goes back to the left margin it skips the first scanned column, because the loop still adds one
  to the clamped column (`ThinDecisions.JumpExactly`). Every scanned pixel is still visited
  at least once (`ThinRescan.ScanCovers`).
* One scan is said to be enough, because it goes back where necessary. It goes back one row, while a removal can
  free a pixel two rows up: `ThinExamples.SecondScanChanges` is a map that a second scan would change. The exact
  condition is that the body keeps the map at every scanned pixel (`ThinRescan.RescanExactly`).

## Model

| member | source | states |
|---|---|---|
| ThinRun.RunNeverSplits | eval/guests/linux/mibench/automotive/susan/susan.c:865-1056 | over every prefix of every thinning run, from any marks with positive response: two pixels that stay edge pixels and were 8-connected at the start are 8-connected at the end; conversely too, if no extension merged two edges |
| ThinRun.RunComponentCount | eval/guests/linux/mibench/automotive/susan/susan.c:865-1056 | the number of 8-connected edges after a run, plus the isolated pixels removed, plus the edges merged by extensions, is the number before, exactly |
| ThinRun.RunConservesEdges | eval/guests/linux/mibench/automotive/susan/susan.c:865-1056 | if no edge starts as a single pixel, no isolated-pixel removal ever happens, and the number of edges is conserved if and only if no extension merges two |
| ThinRun.RunLosesNoEdge | eval/guests/linux/mibench/automotive/susan/susan.c:865-1056 | if every edge pixel starts with an edge neighbour, every edge pixel has one in every reachable map |
| ThinRun.RunSound | eval/guests/linux/mibench/automotive/susan/susan.c:865-1056 | every reachable map has levels 1..6 or 100 and positive response at each edge pixel (the ratio never divides by 0); the loop counters stay at 4 or more |
| ThinRun.RunJumpsBounded | eval/guests/linux/mibench/automotive/susan/susan.c:928-941 | in any run prefix, backward jumps plus edge pixels left are at most the edge pixels at the start plus twice the extensions |
| ThinRun.RunLengthBounded | eval/guests/linux/mibench/automotive/susan/susan.c:865-1056 | a scan still active after n iterations has made enough extensions to pay for them; in particular a run that extends no line ends |
| ThinRun.RunKeepsInset | eval/guests/linux/mibench/automotive/susan/susan.c:865-1056 | edge pixels that start m pixels inside stay min(m,3) pixels inside |
| ThinRun.RunIsTrace | eval/guests/linux/mibench/automotive/susan/susan.c:865-1056 | every iteration of a run keeps connectivity and the component count as its act demands, changes the edge-pixel count by the act's amount, and advances the scan or jumps back by at most a row |
| ThinRun.ActLands | eval/guests/linux/mibench/automotive/susan/susan.c:894-942 | in a sound map an extension or a move lands on an 8-neighbour with positive response that is not an edge pixel, and extension levels are 4..6 |
| ThinRun.VisitPixel | eval/guests/linux/mibench/automotive/susan/susan.c:867-1054 | one iteration of the inner loop, in place, is one step of the run relation |
| ThinRun.ThinScan | eval/guests/linux/mibench/automotive/susan/susan.c:865-1056 | the two nested loops with counters moved back by their body: the states they pass through are a run, and the buffer ends as its last map |
| ThinTrace.TraceNeverSplits | eval/guests/linux/mibench/automotive/susan/susan.c:865-1056 | connectivity of surviving pixels carries over any sequence of steps that each keep it |
| ThinTrace.TraceJumps | eval/guests/linux/mibench/automotive/susan/susan.c:928-941 | every backward jump is paid for by a removed pixel or by an extension |
| ThinGraph.StepConnectivity | eval/guests/linux/mibench/automotive/susan/susan.c:872-1054 | one body step never separates two connected pixels that survive it; it joins others if and only if it extends a line and the new pixel merges edges; the component count falls by exactly the merges, and by one for a removed isolated pixel |
| ThinGraph.StepNoneIsolated | eval/guests/linux/mibench/automotive/susan/susan.c:886-1054 | if no edge pixel is isolated, the body does not take the isolated-pixel branch and leaves none isolated |
| ThinGraph.ExtensionMerges | eval/guests/linux/mibench/automotive/susan/susan.c:928-933 | an extension merges nothing if and only if every neighbour of the new pixel was joined to the pixel it extends |
| ThinGraph.ThinExactly | eval/guests/linux/mibench/automotive/susan/susan.c:1029-1047 | a pixel with more than two neighbours is removed if and only if it has at least two side neighbours and its neighbours are 8-connected among themselves |
| ThinDecisions.DropExactly | eval/guests/linux/mibench/automotive/susan/susan.c:886-887 | a pixel is dropped if and only if it is an edge pixel without an edge neighbour |
| ThinDecisions.GrowExactly | eval/guests/linux/mibench/automotive/susan/susan.c:894-933 | a line is extended if and only if its end has one neighbour and a level below 6, to the neighbouring pixel of the first highest positive score, straight on counting 4 and otherwise the distance from the neighbour; the level becomes 4, or one more |
| ThinDecisions.ShiftExactly | eval/guests/linux/mibench/automotive/susan/susan.c:947-978 | a pixel moves if and only if its two neighbours are the corners beside one of its sides, that side responds more than 0.7 times as strongly, and nothing lies beyond it; it moves to that side |
| ThinDecisions.SquareExactly | eval/guests/linux/mibench/automotive/susan/susan.c:1010-1014 | a right angle is cleared if and only if the two neighbours are touching sides and an edge pixel two away is diagonal to one of them, in every orientation |
| ThinDecisions.ThinExactlyThick | eval/guests/linux/mibench/automotive/susan/susan.c:1029-1048 | a pixel is thinned away if and only if it has more than two neighbours, at least two of them sides, and they hang together without it |
| ThinDecisions.JumpExactly | eval/guests/linux/mibench/automotive/susan/susan.c:934-941 | where the scan goes on: after an extension to a pixel already passed at that pixel, after a removal at the first pixel of the 3x3 block, with the clamps; otherwise onward |
| ThinDecisions.LevelsAfter | eval/guests/linux/mibench/automotive/susan/susan.c:886-972 | the levels after a step: a pixel that goes gets 100, one that an edge pixel moves to gets 3, the one a line is extended by gets one more than the end, at least 4, and all others keep theirs |
| ThinDecisions.CountIsSize | eval/guests/linux/mibench/automotive/susan/susan.c:874-881 | the eight flags add up to the number of edge neighbours |
| ThinGraph.OnePieceIsRingConnected | eval/guests/linux/mibench/automotive/susan/susan.c:1036-1046 | the test on the four groups and four links of the neighbour ring holds if and only if the neighbours are pairwise 8-connected without the pixel |
| RingTest.PiecesTestExact | eval/guests/linux/mibench/automotive/susan/susan.c:1041-1046 | the arithmetic p1+p2+p3+p4 minus links < 2 decides connectivity of an arbitrary set of ring pixels, both ways |
| ThinGraph.SquareRing | eval/guests/linux/mibench/automotive/susan/susan.c:1010-1014 | an odd right angle has two neighbours, and they touch each other |
| ThinGraph.GrowTarget | eval/guests/linux/mibench/automotive/susan/susan.c:894-933 | an extension goes to a neighbouring non-edge pixel of positive response, at level 4 to 6 |
| ThinGraph.ShiftTarget | eval/guests/linux/mibench/automotive/susan/susan.c:949-978 | a straightening move lands on a non-edge pixel whose edge neighbours are then exactly those the pixel had |
| ThinGraph.EdgesAfter | eval/guests/linux/mibench/automotive/susan/susan.c:886-1054 | the set of edge pixels after each kind of act |
| EdgeGraph.DeletePreserves | eval/guests/linux/mibench/automotive/susan/susan.c:1029-1048 | removing a pixel whose neighbours are non-empty and hang together splits nothing, joins nothing and keeps the number of components, for arbitrary pixel sets |
| EdgeGraph.MovePreserves | eval/guests/linux/mibench/automotive/susan/susan.c:967-978 | moving a pixel to a place with the same neighbours keeps connectivity of the others and the number of components |
| EdgeMerge.GrowPreserves | eval/guests/linux/mibench/automotive/susan/susan.c:928-933 | adding a pixel beside an edge pixel keeps every connection; it adds connections, and lowers the number of components by the exact number merged, if and only if it has a neighbour that was not joined |
| EdgeMerge.JoinedExactly | eval/guests/linux/mibench/automotive/susan/susan.c:928-933 | two old pixels are joined after the addition if and only if they were before or both lie in components the new pixel touches |
| EdgeMerge.CountAfter | eval/guests/linux/mibench/automotive/susan/susan.c:928-933 | one component takes the place of those the new pixel touches |
| EdgeGraph.DropPreserves | eval/guests/linux/mibench/automotive/susan/susan.c:886-887 | removing an isolated pixel removes exactly its own component |
| ThinRescan.RescanExactly | eval/guests/linux/mibench/automotive/susan/susan.c:850-851 | scanning a map changes nothing if and only if the body keeps it at every scanned pixel |
| ThinRescan.ScanCovers | eval/guests/linux/mibench/automotive/susan/susan.c:865-941 | a scan that has ended has visited every scanned pixel, however often the body moved the counters back |
| ThinExamples.SecondScanChanges | eval/guests/linux/mibench/automotive/susan/susan.c:850-851 | a map on which one complete scan, without any extension, leaves work for a second |
| ThinExamples.LoneEdgeIsLost | eval/guests/linux/mibench/automotive/susan/susan.c:886-887 | a single pixel, an edge of its own, is removed |
| ThinExamples.ExtensionMayMerge | eval/guests/linux/mibench/automotive/susan/susan.c:894-942 | two lines one pixel apart become one by an extension |
| SusanThin.WeightsFavourStraight | eval/guests/linux/mibench/automotive/susan/susan.c:894-921 | the weights of an extension: 0 for the pixel, its neighbour and what touches it, 4 straight across, the distance from the neighbour elsewhere |
| SusanThin.BestIsFirstHighest | eval/guests/linux/mibench/automotive/susan/susan.c:923-926 | the search over the weighted responses finds the highest positive one, the first in raster order among equals |
| SusanThin.Highest | eval/guests/linux/mibench/automotive/susan/susan.c:923-926 | the nested loops return that place |
| SusanThin.BestContinuation | eval/guests/linux/mibench/automotive/susan/susan.c:894-933 | target and level of an extension as the code computes them |
| SusanThin.ChooseShift | eval/guests/linux/mibench/automotive/susan/susan.c:957-973 | whether and where a pixel between two corner neighbours moves, the 0.7 ratio as exact integers |
| SusanThin.OddRightAngle | eval/guests/linux/mibench/automotive/susan/susan.c:1010-1012 | decides the right angle in all four orientations with its eight reads two pixels away |
| SusanThin.ThinThick | eval/guests/linux/mibench/automotive/susan/susan.c:1029-1047 | the removal test for more than two neighbours |
| SusanThin.Choose | eval/guests/linux/mibench/automotive/susan/susan.c:869-1047 | the decision for one edge pixel; all reads are inside the image |
| SusanThin.ThinPixel | eval/guests/linux/mibench/automotive/susan/susan.c:867-1054 | the loop body in place: the map becomes the decided one and the counters jump as decided, clamped at 4 |
| SusanThin.DecideIsLocal | eval/guests/linux/mibench/automotive/susan/susan.c:928-978 | the body writes at most the pixel and one of its eight neighbours |
| EdgeDraw.WhitePass | eval/guests/linux/mibench/automotive/susan/susan.c:821-836 | block mode, first pass: a pixel turns white exactly when an edge pixel is beside it, whatever the overlaps |
| EdgeDraw.BlackPass | eval/guests/linux/mibench/automotive/susan/susan.c:839-846 | second pass: black exactly at edge pixels |
| EdgeDraw.EdgeDraw | eval/guests/linux/mibench/automotive/susan/susan.c:814-846 | closed form of the drawn image: 0 at edge pixels, 255 at other pixels with an edge neighbour (block mode), the old value elsewhere |
| EdgeDraw.ThinAndDraw | eval/guests/linux/mibench/automotive/susan/susan.c:2084-2086 | thinning, then drawing: in block mode marks that do not touch the border are enough for the blocks to stay inside the image |
| Gradient.FindDirection | eval/guests/linux/mibench/automotive/susan/susan.c:1138-1290 | the direction across the edge at a pixel, from the moments of the disc, as the code decides it |
| Gradient.Symmetry | eval/guests/linux/mibench/automotive/susan/susan.c:1221-1279 | the second moments of the disc as the code accumulates them |
| Gradient.GravityAxisTurns | eval/guests/linux/mibench/automotive/susan/susan.c:1203-1212 | the axis does not depend on the side of the gravity, and mirrors and turns with the picture |
| Gradient.GravityAxisNear | eval/guests/linux/mibench/automotive/susan/susan.c:1203-1212 | the axis is within 45 degrees of the line to the centre of gravity |
| Gradient.SymmetryAxisTurns | eval/guests/linux/mibench/automotive/susan/susan.c:1281-1288 | turning the picture by a right angle turns the axis of symmetry |
| Gradient.LineAxis | eval/guests/linux/mibench/automotive/susan/susan.c:1282-1288 | a vertical line is a vertical edge, a horizontal line a horizontal one |
| Gradient.DiagonalAxis | eval/guests/linux/mibench/automotive/susan/susan.c:1282-1288 | a diagonal line is crossed along the other diagonal |
| Gradient.GravityAxisByQuotient | eval/guests/linux/mibench/automotive/susan/susan.c:1201-1212 | the integer comparisons choose the axis that the quotient y/x chooses |
| Gradient.SymmetryAxisByQuotient | eval/guests/linux/mibench/automotive/susan/susan.c:1281-1288 | and the one that the quotient of the second moments chooses |
| Gradient.GravityDecides | eval/guests/linux/mibench/automotive/susan/susan.c:1144-1201 | the gravity decides if and only if the area is above 600 and its centre of gravity more than 0.9 of it away |
| Gradient.StraightUpIsVertical | eval/guests/linux/mibench/automotive/susan/susan.c:1146-1215 | in a window that looks the same upside down the vertical moment is 0 and the gravity finds a vertical edge |
| SmallMask.BlockLevels | eval/guests/linux/mibench/automotive/susan/susan.c:1320-1332 | for byte images every read of the 3x3 mask is in 0..100 and the nucleus counts 100 |
| SmallMask.BlockArea | eval/guests/linux/mibench/automotive/susan/susan.c:1319-1332 | the eight reads plus 100 are the area of the 3x3 block |
| SmallMask.SmallPrinciple | eval/guests/linux/mibench/automotive/susan/susan.c:1309-1336 | the response of the 3x3 mask at every pixel one inside, 0 elsewhere |
| SmallMask.FindBlockDirection | eval/guests/linux/mibench/automotive/susan/susan.c:1341-1420 | the direction across the edge from the moments of the 3x3 block |
| SmallMask.BlockAt | eval/guests/linux/mibench/automotive/susan/susan.c:1314-1332 | the block holds at each offset the similarity of the pixel at that offset |
| SmallMask.BlockSums | eval/guests/linux/mibench/automotive/susan/susan.c:1349-1408 | area, first and second moments of the block, written out |
| SmallMask.BlockResponseMeans | eval/guests/linux/mibench/automotive/susan/susan.c:1319-1336 | the response is what 100 and the eight similarities leave missing to 730, or 0 |
| SmallMask.BlockGravityDecides | eval/guests/linux/mibench/automotive/susan/susan.c:1347-1371 | the gravity decides if and only if the area is above 250 and its centre of gravity more than 0.4 of it away |
| EdgeMode.MarksAreThin | eval/guests/linux/mibench/automotive/susan/susan.c:1213-1215 | two marked pixels that agree on the direction across the edge are never one step apart in it, nor two with the large mask |
| EdgeMode.RidgeMeans | eval/guests/linux/mibench/automotive/susan/susan.c:1213-1215 | a ridge pixel is strictly above the pixels one way across the edge and not below those the other way, at every distance compared |
| EdgeMode.MarkTells | eval/guests/linux/mibench/automotive/susan/susan.c:1135-1292 | a mark stands exactly on the ridges across the direction of their pixel, and is 1 where the gravity decided that and 2 where the symmetry did |
| EdgeMode.MarkEdges | eval/guests/linux/mibench/automotive/susan/susan.c:1135-1292 | the marking loop marks exactly the ridge pixels with positive response, across the direction of their own moments, 1 or 2 by the branch taken, with either mask |
| EdgeMode.MarksAreSeeds | eval/guests/linux/mibench/automotive/susan/susan.c:1135-1292 | the marks are a valid start of the thinning, and keep off the border by four pixels, or two with the small mask |
| EdgeMode.DetectEdges | eval/guests/linux/mibench/automotive/susan/susan.c:1064-1292 | responses of the whole image and the marks on them, with either mask |
| EdgeMode.DrawEdges | eval/guests/linux/mibench/automotive/susan/susan.c:2074-2087 | the edge mode from image to drawn image, with either mask, thinned or not |
| Usan.WindowLevels | eval/guests/linux/mibench/automotive/susan/susan.c:483-486 | for byte images every table read is in 0..100 and the nucleus reads 100 |
| Usan.PlainArea | eval/guests/linux/mibench/automotive/susan/susan.c:506-558 | the 36 reads of the mask plus 100 are the area of the 37-pixel disc |
| Usan.EarlyArea | eval/guests/linux/mibench/automotive/susan/susan.c:1481-1551 | the computation with early exits stops if and only if the area reaches the limit, and otherwise yields the area |
| Usan.ReadOn | eval/guests/linux/mibench/automotive/susan/susan.c:1508-1551 | a run of reads with a test after each: leaving early happens exactly when the whole run would reach the limit |
| Usan.SpanMonotone | eval/guests/linux/mibench/automotive/susan/susan.c:1481-1551 | partial areas only grow |
| Usan.Principle | eval/guests/linux/mibench/automotive/susan/susan.c:494-563 | the response at every pixel three inside, 0 elsewhere |
| Usan.QuickPass | eval/guests/linux/mibench/automotive/susan/susan.c:1747-1833 | the first pass of the quick finder leaves the same response, seven pixels inside |
| Usan.EarlyExitAgrees | eval/guests/linux/mibench/automotive/susan/susan.c:1757-1833 | where both look, plain and early-exit responses are equal |
| Usan.PointerVisitsMask | eval/guests/linux/mibench/automotive/susan/susan.c:507-558 | the increments of the pixel pointer address the mask pixels in order, for every row length |
| Usan.MaskIsDisc | eval/guests/linux/mibench/automotive/susan/susan.c:507-558 | these are the disc without its nucleus, each pixel exactly once |
| MaskMoments.WindowAt | eval/guests/linux/mibench/automotive/susan/susan.c:504-558 | the window holds at each offset the similarity of the pixel at that offset |
| MaskMoments.AreaByPointer | eval/guests/linux/mibench/automotive/susan/susan.c:504-561 | the area is 100 plus the similarities of the 36 pixels the pointer addresses, and the response is what it leaves missing to the limit, or 0 |
| MaskMoments.DiscIsMask | eval/guests/linux/mibench/automotive/susan/susan.c:1555-1606 | area and first moments of the disc are the sums over the mask in reading order |
| MaskMoments.DiscSpreadIsMask | eval/guests/linux/mibench/automotive/susan/susan.c:1221-1279 | so are its second moments |
| CornerResponse.Gravity | eval/guests/linux/mibench/automotive/susan/susan.c:1555-1606 | the accumulated x and y are the first moments of the disc |
| CornerResponse.MomentsBounded | eval/guests/linux/mibench/automotive/susan/susan.c:1555-1606 | both moments are at most three times the area without the nucleus |
| CornerResponse.RoundDivNearest | eval/guests/linux/mibench/automotive/susan/susan.c:307 | rounding of a quotient is to a nearest integer |
| CornerResponse.RoundDivHalf | eval/guests/linux/mibench/automotive/susan/susan.c:307 | halves are rounded away from zero |
| CornerResponse.TruncDivExact | eval/guests/linux/mibench/automotive/susan/susan.c:1628-1629 | integer division truncates towards zero |
| CornerResponse.SampleInWindow | eval/guests/linux/mibench/automotive/susan/susan.c:1612-1624 | the three sample places are within three pixels of the nucleus, whatever the direction |
| CornerResponse.SampleTowards | eval/guests/linux/mibench/automotive/susan/susan.c:1612-1624 | the three samples lie towards the centre of gravity: k steps along the longer axis, and at a nearest pixel to the line along the other |
| CornerResponse.TrueCornerMeans | eval/guests/linux/mibench/automotive/susan/susan.c:1608-1626 | a corner is genuine if and only if twice the squared distance of the gravity exceeds the squared area and the three samples miss less than 10 to full similarity |
| CornerResponse.RefinedMeans | eval/guests/linux/mibench/automotive/susan/susan.c:1626-1627 | a genuine corner responds with what its area leaves missing to the limit, any other pixel not at all |
| CornerResponse.FalseCornerTest | eval/guests/linux/mibench/automotive/susan/susan.c:1608-1626 | the test is made without dividing by 0 and without reading outside the image |
| CornerResponse.AttributeBound | eval/guests/linux/mibench/automotive/susan/susan.c:1628-1629 | the stored attributes are below 153 in magnitude |
| CornerResponse.RespondAt | eval/guests/linux/mibench/automotive/susan/susan.c:1479-1630 | response and attributes of one pixel, early exit included |
| Corners.SuppressionIsPeak | eval/guests/linux/mibench/automotive/susan/susan.c:1667-1722 | the 48 comparisons single out exactly the pixels strictly above the earlier and not below the later ones of their 7x7 neighbourhood |
| Corners.PeaksApart | eval/guests/linux/mibench/automotive/susan/susan.c:1667-1722 | two different corners are at Chebyshev distance at least 4 |
| Corners.PeaksPacked | eval/guests/linux/mibench/automotive/susan/susan.c:1634-1722 | the number of corners is at most the number of 4x4 blocks the scanned area needs |
| Corners.PeaksExist | eval/guests/linux/mibench/automotive/susan/susan.c:1634-1722 | at least one corner is found if and only if some response is positive |
| CornerList.FindCorners | eval/guests/linux/mibench/automotive/susan/susan.c:1634-1737 | the list holds exactly the corners, each once, in raster order, with the attributes the careful or the quick finder gives its pixel, and the end mark; the finder gives up if and only if there are MAX_CORNERS or more |
| CornerAttributes.QuickMeanBounds | eval/guests/linux/mibench/automotive/susan/susan.c:1929-1936 | the brightness the quick finder records lies between any bounds of the 5x5 block |
| CornerAttributes.QuickGradientBounds | eval/guests/linux/mibench/automotive/susan/susan.c:1938-1948 | no recorded gradient exceeds the difference of the bounds |
| CornerAttributes.QuickSlopes | eval/guests/linux/mibench/automotive/susan/susan.c:1938-1948 | on a plane of brightness the gradients are its slopes times 50 over 15 |
| CornerAttributes.QuickIsMoment | eval/guests/linux/mibench/automotive/susan/susan.c:1929-1948 | the recorded brightness is the mean of the 25 pixels, the gradients are their first moments over 15 |
| CornerDraw.DrawCorners | eval/guests/linux/mibench/automotive/susan/susan.c:1434-1459 | the drawing loop visits exactly the entries before the end mark |
| CornerDraw.DrawnAsExpected | eval/guests/linux/mibench/automotive/susan/susan.c:1441-1448 | if no two corners are neighbours the drawn image does not depend on the order of the list: 0 at corners, 255 around them, the old value elsewhere |
| CornerDraw.BlackExactlyWhenApart | eval/guests/linux/mibench/automotive/susan/susan.c:1441-1448 | every listed corner ends up black if and only if no two corners are neighbours |
| CornerDraw.PeaksAreApart | eval/guests/linux/mibench/automotive/susan/susan.c:1667-1722 | the suppression guarantees that no two corners are neighbours |
| CornerDraw.DrawPeaks | eval/guests/linux/mibench/automotive/susan/susan.c:1434-1459 | drawing a list of corners no two of which are neighbours gives the expected image in either mode |
| CornerDraw.NeighbourPaintsOver | eval/guests/linux/mibench/automotive/susan/susan.c:1441-1448 | of two neighbours in the list the first is painted white |
| CornerMode.RespondAll | eval/guests/linux/mibench/automotive/susan/susan.c:1479-1630 | first pass over the image: responses everywhere, attributes wherever the response is positive |
| CornerMode.FoundSmall | eval/guests/linux/mibench/automotive/susan/susan.c:1626-1629 | responses are not negative and attributes are below 153 |
| CornerMode.FoundMeans | eval/guests/linux/mibench/automotive/susan/susan.c:1479-1630 | the response is positive exactly at the true corners of area below the limit five pixels inside, and the attributes are 51 times the centre of gravity over the area, truncated, columns first |
| CornerMode.ListCorners | eval/guests/linux/mibench/automotive/susan/susan.c:1634-1737 | the recorded entries describe their pixels: centre of gravity and brightness, or gradient and mean |
| CornerMode.EntryTells | eval/guests/linux/mibench/automotive/susan/susan.c:1634-1737 | what an entry tells about its pixel: brightness and what was found there, or mean and first moments over 15 of its 5x5 block, columns first |
| CornerMode.MarkCorners | eval/guests/linux/mibench/automotive/susan/susan.c:2105-2108 | the corner mode with either finder, from image to marked image: corners exist if and only if some response is positive, all of them are listed with their attributes and drawn, and the mode gives up if and only if there are MAX_CORNERS or more |
| Enlarge.CopySides | eval/guests/linux/mibench/automotive/susan/susan.c:658-663 | the left and right columns, read from the buffer being written, complete the mirrored image |
| Enlarge.EnlargeImage | eval/guests/linux/mibench/automotive/susan/susan.c:642-668 | every pixel of the larger buffer is assigned the image pixel at the reflected place |
| Enlarge.MirrorReflects | eval/guests/linux/mibench/automotive/susan/susan.c:651-663 | reflection maps the border back into the image, at both ends |
| Median.BubblePass | eval/guests/linux/mibench/automotive/susan/susan.c:626-632 | one pass moves the highest remaining value to its place and keeps all values |
| Median.MedianOf8 | eval/guests/linux/mibench/automotive/susan/susan.c:612-635 | the result is the mean, rounded down, of the two middle values |
| Median.MedianWithin | eval/guests/linux/mibench/automotive/susan/susan.c:634 | the median lies between any bounds of the eight values |
| Median.MedianUnique | eval/guests/linux/mibench/automotive/susan/susan.c:612-635 | there is only one such value |
| Median.MedianSplits | eval/guests/linux/mibench/automotive/susan/susan.c:634 | four values lie at or below one value, four at or above another, and the median is the mean of these two |
| Smoothing.NucleusSubtracted | eval/guests/linux/mibench/automotive/susan/susan.c:759-764 | subtracting the nucleus afterwards equals never having added it |
| Smoothing.SmoothedWithin | eval/guests/linux/mibench/automotive/susan/susan.c:738-765 | mean or median, the new value lies between any bounds of the other pixels of the mask |
| Smoothing.OnlySimilarCount | eval/guests/linux/mibench/automotive/susan/susan.c:752-764 | a mean lies between the bounds of those pixels alone that are near and similar enough to have a positive weight |
| Smoothing.TwoCount | eval/guests/linux/mibench/automotive/susan/susan.c:752-764 | with two pixels that count, the mean weighs them by their weights |
| Smoothing.CombinedPositive | eval/guests/linux/mibench/automotive/susan/susan.c:752 | a pixel counts if and only if its distance weight and its similarity are positive |
| Smoothing.MaskPixelAt | eval/guests/linux/mibench/automotive/susan/susan.c:745-757 | place (y,x) of the mask is the pixel y rows below and x columns right of the nucleus |
| Smoothing.NeighboursAreBlock | eval/guests/linux/mibench/automotive/susan/susan.c:618-625 | the eight values of the median are the 3x3 block without its middle |
| Smoothing.MaskSums | eval/guests/linux/mibench/automotive/susan/susan.c:742-758 | the two loops accumulate weights and weighted brightness over the whole mask |
| Smoothing.SmoothPixel | eval/guests/linux/mibench/automotive/susan/susan.c:742-764 | one pixel under the large mask, the nucleus counting exactly 10000 |
| Smoothing.SmoothPixel3 | eval/guests/linux/mibench/automotive/susan/susan.c:777-799 | one pixel under the flat 3x3 mask, the nucleus counting exactly 100 |
| Smoothing.RestNonNegative | eval/guests/linux/mibench/automotive/susan/susan.c:759-799 | numerator and denominator are not negative, so the direction of rounding does not matter |
| SmoothImage.SmoothedAtWithin | eval/guests/linux/mibench/automotive/susan/susan.c:738-801 | maximum principle over the mask neighbourhood, in both modes |
| SmoothImage.TotalBounded | eval/guests/linux/mibench/automotive/susan/susan.c:697-703 | the accumulated total is bounded by the distance weights and fits an int when they sum to at most 84215 |
| SmoothImage.MaskSize | eval/guests/linux/mibench/automotive/susan/susan.c:690-693 | the mask is the least whole number above 1.5 times the threshold, or 1 |
| SmoothImage.OneValuePerCell | eval/guests/linux/mibench/automotive/susan/susan.c:738-801 | the smoothed value of a pixel is uniquely determined |
| SmoothImage.SmoothScan | eval/guests/linux/mibench/automotive/susan/susan.c:738-801 | every output pixel is the smoothed value of its place in the padded image |
| SmoothImage.Smooth | eval/guests/linux/mibench/automotive/susan/susan.c:673-805 | a threshold above 15 or an image smaller than the mask is refused untouched; otherwise every pixel is smoothed from the mirrored original and none leaves the range of the original, so a constant image stays |
| Interference.RunInv | eval/guests/interf/src/arch/armv8/inc/spinlock.h:26-47 | the invariant of lock, tickets and buffer holds in every state any schedule reaches, for any number of CPUs |
| Interference.MutualExclusion | eval/guests/interf/src/arch/armv8/inc/spinlock.h:26-47 | at most one CPU is between spin_lock and spin_unlock, the lock word is 1 exactly while one holds it, and a kept reservation after reading 0 means it is still 0 |
| Interference.TicketsPartition | eval/guests/interf/src/main.c:44-47 | issued tickets are pairwise distinct and exactly 0..t-1 in the order of service |
| Interference.FewInLoop | eval/guests/interf/src/main.c:53 | at most NUM_CPUS CPUs enter the passes |
| Passes.CutOffExactly | eval/guests/interf/src/main.c:53 | past the cut-off, exactly the CPUs with the NUM_CPUS first tickets run the passes and exactly the others return |
| Passes.ReservationFresh | eval/guests/interf/src/arch/armv8/inc/spinlock.h:33-46 | a CPU that has just loaded the lock word and still holds its reservation has seen its present value |
| Passes.WritesRow | eval/guests/interf/src/main.c:74-76 | k steps of the write pass store in each cell visited its own index, and change no other cell |
| Passes.OneRound | eval/guests/interf/src/main.c:71-84 | a CPU left to itself writes its whole row, reads its whole row, and begins again |
| Passes.RowIsFilled | eval/guests/interf/src/main.c:66-76 | from every reachable state, a CPU with one of the NUM_CPUS first tickets can be scheduled to fill every strided cell of its row |
| Passes.PassCoversRow | eval/guests/interf/src/main.c:66-76 | the cells of a pass are those of the row whose index is a multiple of the stride |
| Interference.WriterWasServed | eval/guests/interf/src/main.c:74-76 | every written cell is in range and its writer is the CPU served with the ticket of that row |
| Interference.BufferIsolation | eval/guests/interf/src/main.c:66-82 | two writes to one cell, however far apart in a run, are by the same CPU |
| Interference.LockIsAvailable | eval/guests/interf/src/arch/armv8/inc/spinlock.h:26-47 | from every reachable state every waiting CPU can be scheduled into the critical section |
| Interference.BumpTicketInv | eval/guests/interf/src/main.c:45-46 | the unprotected read and write of the counter are safe under the lock |
| GuestMachine.Machine.ExecuteLock | eval/guests/interf/src/arch/armv8/inc/spinlock.h:31-46 | one lock instruction on the shared words, in place |
| GuestMachine.Machine.ExecuteMain | eval/guests/interf/src/main.c:45-84 | one instruction of main on the shared words, in place |
| GuestMachine.Machine.RunSchedule | eval/guests/interf/src/main.c:37-85 | running any schedule leads to the state of the protocol, with its invariant |
| ISqrt.Usqrt | eval/guests/linux/mibench/automotive/basicmath/isqrt.c:45-65 | the result is the floor root of the low 32 bits of x scaled by 2^32, without multiplication |
| ISqrt.RootRound | eval/guests/linux/mibench/automotive/basicmath/isqrt.c:55-62 | one round appends a base-4 digit to the radicand and keeps root and remainder exact; remainder and trial product stay below 2^35 |
| ISqrt.NextDigit | eval/guests/linux/mibench/automotive/basicmath/isqrt.c:8-55 | the two bits taken and the shift consume one base-4 digit of the low half, whatever the high half holds |
| ISqrt.FullPrefix | eval/guests/linux/mibench/automotive/basicmath/isqrt.c:53-55 | after all rounds the digits consumed are x times 2^32 |
| ISqrt.RootUnique | eval/guests/linux/mibench/automotive/basicmath/isqrt.c:11-22 | the bracket determines the root |
| ISqrt.ScaledRootExactly | eval/guests/linux/mibench/automotive/basicmath/isqrt.c:11-22 | the documented scaled root is returned if and only if x is below 2^32 |
| ISqrt.HighBitLost | eval/guests/linux/mibench/automotive/basicmath/isqrt.c:11-22 | the root delivered for 2^32 is 0 |
| BitFiles.BFile.OpenWrite | eval/guests/linux/mibench/automotive/bitcount/bitfiles.c:12-28 | a stream opened for writing holds no bits, whatever its buffer contains |
| BitFiles.BFile.OpenRead | eval/guests/linux/mibench/automotive/bitcount/bitfiles.c:12-28 | a stream opened for reading starts at the first bit |
| BitFiles.BFile.Read | eval/guests/linux/mibench/automotive/bitcount/bitfiles.c:30-39 | delivers the next bit of the file, most significant first, and ones after its end |
| BitFiles.BFile.Flush | eval/guests/linux/mibench/automotive/bitcount/bitfiles.c:43-47 | a full buffer becomes the next byte of the file |
| BitFiles.BFile.Write | eval/guests/linux/mibench/automotive/bitcount/bitfiles.c:41-51 | appends the low bit of its argument |
| BitFiles.ShiftIn | eval/guests/linux/mibench/automotive/bitcount/bitfiles.c:49-50 | shifting in eight bits keeps the pending bits in order |
| BitFiles.BitsAt | eval/guests/linux/mibench/automotive/bitcount/bitfiles.c:38 | bit 8k+j of the stream is bit 7-j of byte k |
| BitFiles.Conservation | eval/guests/linux/mibench/automotive/bitcount/bitfiles.c:41-51 | after m >= 1 writes the file holds (m-1)/8 bytes and the remaining 1 to 8 bits are pending, in order |
| BitFiles.RoundTrip | eval/guests/linux/mibench/automotive/bitcount/bitfiles.c:30-51 | writing bits and reading the file back returns exactly the first 8*((m-1)/8) of them |
| BitCount.BitShifter | eval/guests/linux/mibench/automotive/bitcount/bitcnts.c:80-87 | the reference loop counts the ones of the 64-bit pattern of any long, negative ones included |
| BitCount.ClearLowest | eval/guests/linux/mibench/automotive/bitcount/bitcnt_1.c:17 | x and x-1 has exactly one one less than x |
| BitCount.BitCounter | eval/guests/linux/mibench/automotive/bitcount/bitcnt_1.c:9-20 | the loop runs exactly once per one of the pattern of any long |
| ParallelSum.PairUpKeepsSum | eval/guests/linux/mibench/automotive/bitcount/bitcnt_2.c:11-15 | adding neighbouring fields pairwise keeps the sum of all fields, for every field width |
| ParallelSum.MaskFills | eval/guests/linux/mibench/automotive/bitcount/bitcnt_2.c:11-15 | a field mask and its shifted complement fill the word |
| ParallelSum.Folded | eval/guests/linux/mibench/automotive/bitcount/bitcnt_2.c:11-15 | one line of the code with its two constants keeps the sum of the fields, and the last line leaves one field |
| BitCount.ParallelCountExact | eval/guests/linux/mibench/automotive/bitcount/bitcnt_2.c:9-17 | the parallel sum counts the ones among the low 32 bits of the pattern of any long |
| BitCount.Entry | eval/guests/linux/mibench/automotive/bitcount/bitcnt_3.c:15-33 | each of the 256 table entries is the number of ones of its index |
| BitCount.NybbleCountExact | eval/guests/linux/mibench/automotive/bitcount/bitcnt_3.c:42-53 | eight look-ups count the ones among the low 32 bits |
| BitCount.RecursiveCount | eval/guests/linux/mibench/automotive/bitcount/bitcnt_4.c:38-46 | the recursive look-up counts all ones of a non-negative long |
| BitCount.ByteCountExact | eval/guests/linux/mibench/automotive/bitcount/bitcnt_3.c:61-73 | four byte look-ups count the ones among the low 32 bits |
| BitCount.PointerCount | eval/guests/linux/mibench/automotive/bitcount/bitcnt_3.c:81-91 | so does the walking pointer |
| BitCount.CountersAgree | eval/guests/linux/mibench/automotive/bitcount/bitcnt_3.c:42-91 | the forms that look at 32 bits agree with each other on every long, and with the full count if and only if the argument is from 0 to 2^32 - 1 |
| BitCount.HighBitUncounted | eval/guests/linux/mibench/automotive/bitcount/bitcnt_3.c:42-91 | an argument like 2^32 has one one, and the forms that look at 32 bits find none |
| BitCount.HighBitParts | eval/guests/linux/mibench/automotive/bitcount/bitcnt_3.c:42-91 | 2^32 is such an argument |
| BitCount.RecursionEnds | eval/guests/linux/mibench/automotive/bitcount/bitcnt_4.c:42-43 | the recursive counter returns if and only if its argument is not negative |
| BitString.Bitstring | eval/guests/linux/mibench/automotive/bitcount/bitstrng.c:31-45 | the text and its terminator are stored, and nothing behind them changes |
| BitString.WidthExact | eval/guests/linux/mibench/automotive/bitcount/bitstrng.c:35-43 | exact length of the text: for at least one bit the width asked for or what the groups need, for no bits one blank too many, for a negative count that many blanks more |
| BitString.TextFromRight | eval/guests/linux/mibench/automotive/bitcount/bitstrng.c:35-43 | counted from the right every fifth character is a blank, the others are the bits of ascending weight, and blanks fill the left |
| BitString.TextNonBlank | eval/guests/linux/mibench/automotive/bitcount/bitstrng.c:38-43 | without blanks the text is the low bits, most significant first |
| BitString.BstrI | eval/guests/linux/mibench/automotive/bitcount/bstr_i.c:12-23 | the value of the leading binary digits modulo 2^32, and 0 for a null pointer |
| BitString.PrintThenParse | eval/guests/linux/mibench/automotive/bitcount/bitstrng.c:31-45 | printing, dropping the blanks and parsing returns the number modulo 2^min(biz,32), negative numbers included |
| BitString.ParserStopsAtBlank | eval/guests/linux/mibench/automotive/bitcount/bstr_i.c:16 | with the blanks left in, the parser sees all the bits if and only if there are none, or at most four and no padding |
| BitString.FifthBitUnseen | eval/guests/linux/mibench/automotive/bitcount/bstr_i.c:16 | with five bits the parser never sees them all |

## Left out

- ThinRun.ThinScan: takes a budget of iterations, because extensions and moves put pixels back and no measure is known that decreases on every run; `ThinRun.RunLengthBounded` bounds a run by its number of extensions.
- GuestMachine.Machine.RunSchedule: memory accesses are sequentially consistent; weaker orderings, and the RISC-V lock whose unlock depends on them, are not modelled.
- BitCount.ByteCount: only the low-byte-first layout of a word in memory is modelled.
- Gradient.FindDirection: compares exactly where the code compares rounded floats.
- Smoothing.SmoothPixel: the exponential in the distance table is a parameter; `SmoothImage.TotalBounded` says which tables cannot overflow.
- Flat pixel indices: images are addressed by coordinates, except in the pointer theorem of `Usan`.
- The principle mode's rescaling of responses to bytes, `int_to_uchar`.
- The disabled right-angle-ends code of the thinning and the disabled 5x5 suppression.
- PGM reading and writing, option parsing, `malloc` failures, stdio and the benchmark `main` functions.
- `bfclose`, failure of `bfopen`, and mixed reading and writing of one stream.
- The layout of `struct int_sqrt`, into which the root is copied.
- `btbl_bitcnt`, which the test program disables.
- The cubic solver, the angle conversion, the qsort programs, the Zephyr demo, and the drivers, boot code and configuration tables of the guests.
