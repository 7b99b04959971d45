# Software rasterizer of the DirectX dual rasterizer, in Dafny

This project models the CPU rasterizer of the dual (DirectX / software)
renderer. It covers `Renderer::RenderRasterizer` from the clear to the last
colour write. Its stages are:

- the clear of both buffers;
- the vertex stage (`VertexTransformationFunctionW4`);
- triangle extraction from list and strip index buffers, with the strip
  winding swap and the degenerate-index skips;
- the coarse NDC rejection;
- screen mapping and the clamped bounding box;
- the edge-function coverage test and the barycentric weights;
- perspective-correct interpolation;
- the less-or-equal depth test;
- per-pixel culling;
- the depth visualisation;
- `PixelShading` with its four light modes.

It also models:

- `Texture::Sample`;
- the renderer's key-driven mode switches, including `ToggleCullMode`;
- the filtering-technique cycle of the dual renderer's `Effect`
  (`ToggleTechniques`, the technique names, `GetSampleState`) and of the
  DirectX starter project's `Effect`, whose `ToggleTechniques` reads the F2 key
  itself and latches it.

Floating-point values are modelled as exact reals. The math library's
`Normalized`, 3D cross product, matrix transforms, `powf`,
`ColorRGB::MaxToOne` and the constant `PI` are not visible, so they are
parameters of the model. So are the texture maps, the camera position and the
frame's matrices.

Modules, one per file:

| module | content |
|---|---|
| `Geometry` | vectors and colours |
| `Mesh` | vertex, shading vertex, topology, mesh |
| `VertexTransform` | the vertex stage |
| `Assembly` | triangle extraction |
| `Rejection` | the coarse NDC rejection |
| `Screen` | screen mapping, bounding box, pixel index |
| `EdgeFunctions` | coverage test and weights |
| `Interpolation` | depth, w and attribute interpolation |
| `DepthBuffer` | the depth test on a buffer, and the running minimum it computes |
| `Culling` | the cull mode and its per-pixel decision |
| `Shading` | `PixelShading` |
| `Raster` | one triangle's pixel loops |
| `Frame` | the whole frame |
| `Texture` | `Texture::Sample` |
| `RendererModes` | the renderer's switches |
| `Filtering`, `DualEffect`, `LatchedEffect` | the two effect classes |

Four behaviours of the code that a reader might not expect:

- An observed-area pixel whose normal is exactly the negated light direction
  shows 0.998787, not 1. The light direction's components are 0.577, so its
  length is not one.
- Zero-area triangles are not filtered before the barycentric division. The
  only degenerate check is the strip mode's index-equality test. See
  "Findings"; the pixel loop of the model uses the guarded test.
- Texture coordinates are neither clamped nor wrapped.
- The coarse rejection tests each vertex on its own, so a triangle whose
  three vertices all have x outside [-1, 1] is dropped even when it covers
  the screen (`Rejection.ScreenCoveringTriangleDropped`).

## Model

| member | source | states |
|---|---|---|
| Frame.RenderRasterizer | GP1_DualRasterizer/source/Renderer.cpp:312-536 | the frame is the clear followed by every mesh's kept triangles drawn in order; both buffers keep one entry per pixel; every stored depth ends as `FLT_MAX` or in (0, 1], and equals the running minimum, from `FLT_MAX`, of the depths the kept triangles covering that pixel offer in drawing order; in bounding-box visualisation the depth buffer stays cleared |
| Frame.RasterizeMesh | GP1_DualRasterizer/source/Renderer.cpp:335-529 | the triangle loop of one mesh draws its triangles in index-buffer order, each rejected or mapped and scanned |
| Frame.ClearColor | GP1_DualRasterizer/source/Renderer.cpp:316-318 | the clear colour is a grey inside the unit cube |
| Frame.PackAsWritten | GP1_DualRasterizer/source/Renderer.cpp:321 | the fill word has alpha 0xFF in the top byte, green in bits 16-23, blue in bits 8-15 and red in the low byte |
| Frame.PackArgb | GP1_DualRasterizer/source/Renderer.cpp:321 | reference ARGB layout the as-written word is compared with: red, green, blue from bit 16 down |
| Frame.GrayPacksAlike | GP1_DualRasterizer/source/Renderer.cpp:316-321 | for a grey, the as-written channel order gives the same word as ARGB |
| Frame.ClearWords | GP1_DualRasterizer/source/Renderer.cpp:316-322 | the two clear words are 0xFF636363 and, with the uniform clear colour, 0xFF191919 |
| Frame.ClearedBuffers | GP1_DualRasterizer/source/Renderer.cpp:316-324 | after the clear every depth is `FLT_MAX` and every pixel holds the clear colour |
| Frame.TransformedVertexInFront | GP1_DualRasterizer/source/Renderer.cpp:550-555 | a divided vertex whose depth lies in [0, 1] has a positive w and a non-zero z, given a perspective-like projection |
| Frame.DrawTriangle | GP1_DualRasterizer/source/Renderer.cpp:363-377 | a triangle the rejection drops leaves both buffers unchanged, wherever its vertices lie, behind the camera included |
| Frame.DrawTriangleDepthAt | GP1_DualRasterizer/source/Renderer.cpp:435-440 | one triangle never raises a stored depth; it keeps every depth `FLT_MAX` or in (0, 1]; in bounding-box visualisation it writes no depth |
| Frame.DrawTriangleDepths | GP1_DualRasterizer/source/Renderer.cpp:398-440 | the same three facts at every buffer position |
| Frame.MeshTrianglesReady | GP1_DualRasterizer/source/Renderer.cpp:338-361 | with indices in range, every extracted triangle reads existing transformed vertices, and every triangle the rejection keeps lies in front of the camera |
| Frame.DrawTrianglesDepths | GP1_DualRasterizer/source/Renderer.cpp:335-529 | depths never rise, stay in range, and are untouched in bounding-box visualisation, over all triangles of a mesh |
| Frame.DrawMeshesDepths | GP1_DualRasterizer/source/Renderer.cpp:327-530 | the same over all meshes |
| Frame.FrameDepths | GP1_DualRasterizer/source/Renderer.cpp:324-530 | at the end of the frame every depth is `FLT_MAX` or in (0, 1] and is the running minimum, from `FLT_MAX`, of the depths the kept covering triangles offer at that pixel; in bounding-box visualisation the depth buffer equals the cleared one |
| Frame.DrawTriangleDepthIsLowest | GP1_DualRasterizer/source/Renderer.cpp:363-440 | one triangle leaves at each position the minimum of the stored depth and the fragment it offers there: none if dropped, in bounding-box visualisation or not covering the pixel centre |
| Frame.DrawTrianglesDepthIsLowest | GP1_DualRasterizer/source/Renderer.cpp:335-529 | a mesh's triangles leave at each position the running minimum of the stored depth and their fragments there, in drawing order |
| Frame.DrawMeshesDepthIsLowest | GP1_DualRasterizer/source/Renderer.cpp:327-530 | the same over all meshes |
| Frame.FrameDepthAt | GP1_DualRasterizer/source/Renderer.cpp:324-530 | a position's final depth is the running minimum from `FLT_MAX` of the scene's fragments there, which is also what the depth buffer's own test leaves after them |
| Frame.ShortMeshesDrawNothing | GP1_DualRasterizer/source/Renderer.cpp:335 | under the corrected loop bound, meshes with fewer than three indices leave the buffers unchanged |
| Raster.WeightsAt | GP1_DualRasterizer/source/Renderer.cpp:431-433 | the weights of a covered pixel centre are each in [0, 1] and sum to one |
| Raster.DepthGray | GP1_DualRasterizer/source/Renderer.cpp:504-510 | the depth grey is in [0, 1]; it is 0 at or below 0.995 and 1 at or above 1 |
| Raster.DepthGrayMonotone | GP1_DualRasterizer/source/Renderer.cpp:506-508 | a nearer fragment is never shown brighter than a farther one |
| Raster.StepCell | GP1_DualRasterizer/source/Renderer.cpp:402-525 | bounding-box visualisation paints white and keeps the depth; an uncovered pixel is unchanged; a covered pixel's depth becomes the minimum of old and fragment depth, and a farther fragment changes nothing; a culled fragment keeps the old colour; a kept fragment stores its depth and its colour: the depth grey or `PixelShading` of the perspective-correct shading vertex, through `MaxToOne` |
| Raster.BackLitFragmentIsBlack | GP1_DualRasterizer/source/Renderer.cpp:512-519 | outside both visualisations a kept fragment whose shading normal faces away from the light is written black, through `MaxToOne`, in every light mode |
| Raster.PixelStepDepthIsDepthTest | GP1_DualRasterizer/source/Renderer.cpp:435-440 | a loop iteration's depth write is the depth buffer's less-or-equal test at the pixel's position for a covered pixel outside bounding-box visualisation, and no write otherwise |
| Raster.StepCellIdempotent | GP1_DualRasterizer/source/Renderer.cpp:437-440 | the same fragment applied twice has the effect of applying it once, because ties pass the depth test |
| Raster.CulledPixelKeepsColorNotDepth | GP1_DualRasterizer/source/Renderer.cpp:437-502 | a nearer fragment that is culled still writes its depth but not its colour |
| Raster.DepthVisualizationShowsDepth | GP1_DualRasterizer/source/Renderer.cpp:504-519 | in depth visualisation a kept fragment stores its depth and, after `MaxToOne`, the grey of that depth |
| Raster.PixelStep | GP1_DualRasterizer/source/Renderer.cpp:398-525 | one loop iteration writes inside the buffers and keeps their size |
| Raster.RasterizeTriangle | GP1_DualRasterizer/source/Renderer.cpp:398-528 | the nested pixel loops compute the column-by-column scan of the clamped box |
| Raster.RasterizeColumn | GP1_DualRasterizer/source/Renderer.cpp:400-527 | the inner loop computes the row-by-row scan of one column |
| Raster.PixelIndexInjective | GP1_DualRasterizer/source/Renderer.cpp:437-440 | two on-screen pixels share a buffer position only if they are the same pixel |
| Raster.ScanColumnCell | GP1_DualRasterizer/source/Renderer.cpp:400-527 | the inner loop applies one step to each of its rows' original cells and leaves every other cell unchanged |
| Raster.ScanBoxCell | GP1_DualRasterizer/source/Renderer.cpp:398-528 | the loops from a column on apply one step to each visited pixel's original cell and leave all others unchanged |
| Raster.TriangleActsOncePerPixel | GP1_DualRasterizer/source/Renderer.cpp:398-528 | each pixel the box visits gets exactly one step; every other pixel keeps depth and colour |
| Raster.RasterizeTwiceIsOnce | GP1_DualRasterizer/source/Renderer.cpp:398-528 | drawing the same triangle twice leaves both buffers as drawing it once |
| Raster.BoundingBoxModePaintsBox | GP1_DualRasterizer/source/Renderer.cpp:402-411 | in bounding-box visualisation every visited pixel is white with its depth unchanged |
| Raster.DepthAfterTriangle | GP1_DualRasterizer/source/Renderer.cpp:387-440 | a pixel's depth becomes the minimum of its old value and the fragment depth exactly when the triangle covers its centre; otherwise it stays, because the box never misses a covered centre |
| EdgeFunctions.EdgesSplitArea | GP1_DualRasterizer/source/Renderer.cpp:420-427 | the three edge values are the doubled areas of the sub-triangles the pixel forms and sum to the triangle's doubled area |
| EdgeFunctions.SwapNegatesArea | GP1_DualRasterizer/source/Renderer.cpp:344-347 | swapping B and C negates the signed area; rotating the vertices keeps it |
| EdgeFunctions.NegativeAreaCoversNothing | GP1_DualRasterizer/source/Renderer.cpp:429 | a clockwise (negative-area) triangle passes the inside test at no pixel |
| EdgeFunctions.ZeroAreaInsideHasZeroEdges | GP1_DualRasterizer/source/Renderer.cpp:427-433 | at a pixel inside a zero-area triangle all three edge values are zero, so each weight is 0 / 0 |
| EdgeFunctions.ZeroAreaPixelPassesInsideTest | GP1_DualRasterizer/source/Renderer.cpp:429-433 | a triangle collapsed to one point passes the inside test at every pixel, with area zero |
| EdgeFunctions.CoversMeansPositiveArea | GP1_DualRasterizer/source/Renderer.cpp:429 | the guarded test admits only positive-area triangles, and on those it agrees with the source's inside test |
| EdgeFunctions.BarycentricWeights | GP1_DualRasterizer/source/Renderer.cpp:431-433 | the weights sum to one, are convex for a covered pixel, and each times the area is the opposite edge's value |
| EdgeFunctions.BarycentricReproducesPoint | GP1_DualRasterizer/source/Renderer.cpp:431-433 | blending the vertex positions with the weights gives back the pixel centre |
| EdgeFunctions.ConvexBlendBetween | GP1_DualRasterizer/source/Renderer.cpp:431-435 | a blend with convex weights lies between the smallest and largest blended value |
| EdgeFunctions.CoveredPointInExtent | GP1_DualRasterizer/source/Renderer.cpp:387-429 | a covered pixel centre lies within the x and y extent of the three vertices |
| Interpolation.HarmonicBlend | GP1_DualRasterizer/source/Renderer.cpp:435 | the interpolated depth (and w) of positive vertex values is positive |
| Interpolation.HarmonicBlendBetween | GP1_DualRasterizer/source/Renderer.cpp:435 | the interpolated depth lies between the nearest and the farthest vertex depth |
| Interpolation.HarmonicBlendOfEqual | GP1_DualRasterizer/source/Renderer.cpp:435 | three equal depths interpolate to that depth for any weights |
| Interpolation.HarmonicBlendAtVertex | GP1_DualRasterizer/source/Renderer.cpp:435 | at a vertex the interpolated depth is that vertex's depth |
| Interpolation.ConstantAttributeReproduced | GP1_DualRasterizer/source/Renderer.cpp:442-449 | an attribute equal at the three vertices is reproduced exactly whatever the three w |
| Interpolation.EqualWIsAffine | GP1_DualRasterizer/source/Renderer.cpp:442-449 | with equal w the perspective-correct blend is the plain barycentric blend |
| Interpolation.CorrectedBlendAtVertex | GP1_DualRasterizer/source/Renderer.cpp:442-449 | at a vertex the perspective-correct blend is that vertex's attribute |
| Interpolation.CorrectedBlend2Properties | GP1_DualRasterizer/source/Renderer.cpp:444-449 | for uv, a shared value is reproduced, and equal w give the plain blend |
| Interpolation.SharedAttributeReproduced3 | GP1_DualRasterizer/source/Renderer.cpp:451-473 | for normal, tangent and view direction a shared value is reproduced before renormalising |
| DepthBuffer.Cleared | GP1_DualRasterizer/source/Renderer.cpp:324 | the cleared buffer has one `FLT_MAX` entry per pixel |
| DepthBuffer.DepthTest | GP1_DualRasterizer/source/Renderer.cpp:437-440 | the offered position ends at the minimum of the stored and the fragment depth; every other position is unchanged |
| DepthBuffer.DepthTestNonIncreasing | GP1_DualRasterizer/source/Renderer.cpp:437-440 | no stored depth ever rises |
| DepthBuffer.DepthTestIdempotent | GP1_DualRasterizer/source/Renderer.cpp:437-440 | offering a fragment twice is the same as offering it once |
| DepthBuffer.DepthTestsCommute | GP1_DualRasterizer/source/Renderer.cpp:437-440 | the depth buffer does not depend on the order two fragments arrive in |
| DepthBuffer.ApplyFragmentsIsRunningMinimum | GP1_DualRasterizer/source/Renderer.cpp:324-440 | after any fragment sequence each position holds the minimum of its start value and the depths offered to it |
| DepthBuffer.LowestAtIsLowerBound | GP1_DualRasterizer/source/Renderer.cpp:437-440 | that minimum is at most the start value and every depth offered at the position |
| DepthBuffer.UntouchedPositionsKeepValue | GP1_DualRasterizer/source/Renderer.cpp:437-440 | a position no fragment targets keeps its value |
| DepthBuffer.LowestAtAppend | GP1_DualRasterizer/source/Renderer.cpp:437-440 | for two runs of fragments offered one after the other, the second starts from the minimum the first left |
| Screen.ToScreen | GP1_DualRasterizer/source/Renderer.cpp:380-385 | NDC [-1, 1] maps onto [0, width] and, flipped, onto [0, height]; corners map to screen corners; z and w are kept |
| Screen.ScreenMappingRoundTrip | GP1_DualRasterizer/source/Renderer.cpp:380-385 | the screen mapping and its inverse undo each other in both directions |
| Screen.ScreenMappingOrientation | GP1_DualRasterizer/source/Renderer.cpp:380-385 | moving right in NDC moves right on screen; moving up in NDC moves to a smaller row |
| Screen.BoundingBoxOf | GP1_DualRasterizer/source/Renderer.cpp:387-395 | the clamped box lies on the screen and contains the vertices' extent clipped to the screen |
| Screen.PixelIndexInRange | GP1_DualRasterizer/source/Renderer.cpp:406 | every on-screen pixel's `px + py * width` is inside the buffers |
| Screen.VisitedPixelsOnScreen | GP1_DualRasterizer/source/Renderer.cpp:387-400 | every pixel the loops visit is on the screen |
| Screen.CentresInExtentAreVisited | GP1_DualRasterizer/source/Renderer.cpp:387-400 | every on-screen pixel whose centre lies in the vertices' extent is visited |
| Screen.PixelIndexDecodes | GP1_DualRasterizer/source/Renderer.cpp:406 | the position decodes back to `px` (remainder) and `py` (quotient) |
| Screen.PositionIsPixelIndex | GP1_DualRasterizer/source/Renderer.cpp:406 | every buffer position is the index of a pixel |
| Rejection.Classify | GP1_DualRasterizer/source/Renderer.cpp:363-377 | a triangle is kept exactly when some vertex has x in [-1, 1], some vertex has y in [-1, 1], and every z is in [0, 1] |
| Rejection.StraddlingTriangleKept | GP1_DualRasterizer/source/Renderer.cpp:363-377 | a triangle is kept when one vertex has x in [-1, 1], another has y in [-1, 1], and all three depths lie in [0, 1], even if no vertex lies inside the unit square; the same triangle with one depth moved to 5 is dropped |
| Rejection.ScreenCoveringTriangleDropped | GP1_DualRasterizer/source/Renderer.cpp:363-366 | a triangle whose three x all lie outside [-1, 1] is dropped although the screen centre is a convex blend of its vertices |
| Assembly.ShortIndexBufferOverruns | GP1_DualRasterizer/source/Renderer.cpp:335-340 | with fewer than two indices the unsigned bound is positive, so the first iteration reads `indices[2]` past the end |
| Assembly.LoopGuardsAgree | GP1_DualRasterizer/source/Renderer.cpp:335 | from two indices on, the unsigned bound and `i + 2 < size` admit the same positions |
| Assembly.StripTriangle | GP1_DualRasterizer/source/Renderer.cpp:338-347 | a strip step reads the window at `i`, with B and C swapped exactly on odd `i` |
| Assembly.DrawableMembership | GP1_DualRasterizer/source/Renderer.cpp:349-356 | a candidate is drawn exactly when it has no two equal indices |
| Assembly.StripMembership | GP1_DualRasterizer/source/Renderer.cpp:338-357 | a triangle is drawn in strip mode exactly when it is some window's swapped triangle and is not degenerate |
| Assembly.TrianglesUseBufferIndices | GP1_DualRasterizer/source/Renderer.cpp:338-361 | with indices in range, every drawn triangle's vertex lookups are in range |
| Assembly.DegenerateOnlySkippedInStrips | GP1_DualRasterizer/source/Renderer.cpp:342-357 | a repeated index is drawn in list mode and skipped in strip mode |
| Assembly.AssembleTriangles | GP1_DualRasterizer/source/Renderer.cpp:329-357 | the extraction loop yields the reference triangles of the topology; list mode yields one triangle per complete triple; every index used comes from the buffer |
| Assembly.MembersAreIndices | GP1_DualRasterizer/source/Renderer.cpp:338-340 | the indices of a drawn triangle are entries of the index buffer |
| VertexTransform.PerspectiveDivide | GP1_DualRasterizer/source/Renderer.cpp:552-555 | the divide keeps w, and multiplying back by w recovers the clip position |
| VertexTransform.PerspectiveIsDepthProjectable | GP1_DualRasterizer/GP1_DualRasterizer/source/Camera.h:66-69 | for a left-handed perspective projection, every point off the camera plane and off the near plane has a non-zero w, and a divided depth in [0, 1] only in front of the camera; a point behind it divides to a depth above 1 |
| VertexTransform.CameraIsDepthProjectable | GP1_DualRasterizer/GP1_DualRasterizer/source/Camera.h:35-36 | the camera's planes 0.1 and 100 satisfy the same |
| VertexTransform.DivideIsInjective | GP1_DualRasterizer/source/Renderer.cpp:552-555 | two clip positions with non-zero w that divide to the same point are equal |
| VertexTransform.TransformVertex | GP1_DualRasterizer/source/Renderer.cpp:543-566 | the output vertex re-homogenises to the projected point; it keeps the uv; normal and tangent are the normalised world vectors; world position plus view direction is the camera origin |
| VertexTransform.TransformVertices | GP1_DualRasterizer/source/Renderer.cpp:541-570 | one output vertex per input vertex, in order, each the transform of its input |
| Shading.UnpackNormal | GP1_DualRasterizer/source/Renderer.cpp:588-590 | a unit-range texel unpacks to a direction with components in [-1, 1], and mid-grey to zero |
| Shading.PixelShading | GP1_DualRasterizer/source/Renderer.cpp:575-628 | a surface facing away from the light is black; otherwise ObservedArea shows the grey of the observed area, Diffuse the Lambert term times the observed area, Specular the Phong term unscaled, and Combined the sum of Lambert, Phong and ambient times the observed area |
| Shading.CombinedIsSumOfParts | GP1_DualRasterizer/source/Renderer.cpp:612-626 | Combined is the Diffuse result plus the Phong and ambient terms, each weighted by the observed area |
| Shading.DiffuseVanishesEdgeOn | GP1_DualRasterizer/source/Renderer.cpp:617-618 | in Diffuse mode a surface edge-on to the light is black |
| Shading.NormalMapIgnoredWhenOff | GP1_DualRasterizer/source/Renderer.cpp:585-594 | with the normal map off the normal-map texture does not affect the colour |
| Shading.ObservedAreaFacingLight | GP1_DualRasterizer/source/Renderer.cpp:577-596 | a normal equal to the negated light direction gives grey 0.998787 in ObservedArea mode |
| Shading.ObservedAreaIsGray | GP1_DualRasterizer/source/Renderer.cpp:596-615 | ObservedArea mode always gives a non-negative grey |
| Culling.ToggleCullMode | GP1_DualRasterizer/source/Renderer.cpp:806-812 | the cull mode's integer advances by one and wraps from 2 to 0; the None, Front, Back order is `Effect::CullMode`'s (see Left out) |
| Culling.ToggleCullModeTimesAdvances | GP1_DualRasterizer/source/Renderer.cpp:806-812 | `k` toggles advance the mode `k` places modulo three |
| Culling.ToggleCullModeCycle | GP1_DualRasterizer/source/Renderer.cpp:806-812 | three toggles return to the start, and one or two never do |
| Culling.CullModesPartition | GP1_DualRasterizer/source/Renderer.cpp:495-502 | a zero dot is always dropped; None keeps every non-zero dot; Back keeps exactly the negative dots and Front the positive ones |
| RendererModes.SwitchState | GP1_DualRasterizer/source/Renderer.cpp:630-643 | flips the renderer and changes nothing else |
| RendererModes.SwitchRotating | GP1_DualRasterizer/source/Renderer.cpp:645-659 | flips rotation and changes nothing else |
| RendererModes.SwitchUsingFire | GP1_DualRasterizer/source/Renderer.cpp:661-677 | flips the fire mesh only while DirectX renders; otherwise a no-op |
| RendererModes.SwitchShadingMode | GP1_DualRasterizer/source/Renderer.cpp:706-714 | advances the light mode one place modulo four in the software renderer; a no-op under DirectX; nothing else changes |
| RendererModes.SwitchNormalMap | GP1_DualRasterizer/source/Renderer.cpp:737-742 | flips the normal map only in the software renderer; nothing else changes |
| RendererModes.SwitchDepthBufferVisualization | GP1_DualRasterizer/source/Renderer.cpp:755-760 | flips depth visualisation only in the software renderer; nothing else changes |
| RendererModes.SwitchBoundingBoxVisualization | GP1_DualRasterizer/source/Renderer.cpp:773-778 | flips bounding-box visualisation only in the software renderer; nothing else changes |
| RendererModes.ToggleUniformClearColor | GP1_DualRasterizer/source/Renderer.cpp:791-793 | flips the clear colour in either renderer; nothing else changes |
| RendererModes.ToggleRendererCullMode | GP1_DualRasterizer/source/Renderer.cpp:806-812 | advances the cull mode in either renderer; nothing else changes |
| RendererModes.SwitchShadingModeTimesAdvances | GP1_DualRasterizer/source/Renderer.cpp:706-714 | `k` presses advance the light mode `k` places modulo four in the software renderer; under DirectX they do nothing |
| RendererModes.SwitchShadingModeCycle | GP1_DualRasterizer/source/Renderer.cpp:706-714 | four presses restore the state; in the software renderer one to three presses never do |
| RendererModes.SwitchesAreInvolutions | GP1_DualRasterizer/source/Renderer.cpp:630-804 | every flag switch pressed twice restores the state |
| Texture.TexelCoordinate | GP1_DualRasterizer/source/Texture.cpp:97-98 | the texel coordinate is the floor of coordinate times extent |
| Texture.Channels | GP1_DualRasterizer/source/Texture.cpp:104 | each 8-bit channel maps into [0, 1] |
| Texture.ChannelsInjective | GP1_DualRasterizer/source/Texture.cpp:104 | two texels give the same colour exactly when they are equal |
| Texture.TexelInRange | GP1_DualRasterizer/source/Texture.cpp:97-100 | for uv in [0, 1)² both coordinates and the index lie inside the surface |
| Texture.Sample | GP1_DualRasterizer/source/Texture.cpp:93-105 | a sample is a colour in the unit cube |
| Texture.SampleTexelCentre | GP1_DualRasterizer/source/Texture.cpp:93-105 | sampling at texel (x, y)'s centre returns that texel's colour |
| Texture.RightEdgeSpillsIntoNextRow | GP1_DualRasterizer/source/Texture.cpp:97-100 | u = 1 reads the first texel of the next row |
| Texture.BottomEdgeOverruns | GP1_DualRasterizer/source/Texture.cpp:97-100 | v = 1 reads past the last texel |
| Filtering.NextMethod | GP1_DualRasterizer/source/Effect.cpp:70-73 | the filtering method advances one place modulo three |
| Filtering.NextMethodTimesAdvances | GP1_DualRasterizer/source/Effect.cpp:70-73 | `k` toggles advance the method `k` places modulo three |
| Filtering.NextMethodCycle | GP1_DualRasterizer/source/Effect.cpp:70-73 | Point to Linear to Anisotropic to Point; three toggles return to the start and fewer never do |
| Filtering.TechniqueNamesDistinct | GP1_DualRasterizer/source/Effect.cpp:76-95 | two methods ask for the same technique name exactly when they are the same method |
| DualEffect.ToggleTechniques | GP1_DualRasterizer/source/Effect.cpp:68-100 | advances the method one place modulo three and fetches that method's technique |
| DualEffect.GetSampleState | GP1_DualRasterizer/source/Effect.cpp:183-200 | the sample state is the method's enum position, always 0, 1 or 2 |
| DualEffect.SampleStateCountsToggles | GP1_DualRasterizer/source/Effect.cpp:183-200 | starting at Point, after `k` toggles the sample state is `k mod 3`, and from the first toggle on the technique matches |
| DualEffect.ToggleTechniquesCycle | GP1_DualRasterizer/source/Effect.cpp:68-100 | three toggles restore a consistent effect |
| DualEffect.SwitchTechniques | GP1_DualRasterizer/source/Renderer.cpp:679-688 | under DirectX every mesh's effect advances and is consistent; in the software renderer nothing changes |
| DualEffect.SwitchTechniquesKeepsInStep | GP1_DualRasterizer/source/Renderer.cpp:684-687 | effects on the same method stay equal after a switch |
| LatchedEffect.ToggleTechniques | GP1_2223_DirectX_Start-main/source/Effect.cpp:68-106 | a poll latches exactly when F2 is down and was not latched, and then advances the method and fetches its technique; otherwise method and technique are kept |
| LatchedEffect.ToggleIffFreshPress | GP1_2223_DirectX_Start-main/source/Effect.cpp:71-105 | the method changes exactly on a fresh press |
| LatchedEffect.NoTwoConsecutiveToggles | GP1_2223_DirectX_Start-main/source/Effect.cpp:71-105 | two consecutive polls never both toggle |
| LatchedEffect.HeldKeyTogglesEveryOtherPoll | GP1_2223_DirectX_Start-main/source/Effect.cpp:71-105 | holding F2 for 2k polls advances the method k places and leaves the latch open |
| LatchedEffect.ReleasedKeyNeverToggles | GP1_2223_DirectX_Start-main/source/Effect.cpp:102-105 | with F2 released the method and technique never change, and the latch opens |
| LatchedEffect.ToggleOnRelease | GP1_2223_DirectX_Start-main/source/Effect.cpp:68-106 | corrected latch: a fresh press toggles and fetches the technique, the latch follows the key, and no other poll changes the method |
| LatchedEffect.LatchesDifferOnlyWhileHeld | GP1_2223_DirectX_Start-main/source/Effect.cpp:100-105 | the as-written and corrected latches agree on every poll except one with F2 held and latched |
| LatchedEffect.HeldKeyTogglesOnce | GP1_2223_DirectX_Start-main/source/Effect.cpp:71-105 | under the corrected latch, F2 held for any number of polls toggles exactly once |
| LatchedEffect.HeldKeyTogglesTwiceInThreePolls | GP1_2223_DirectX_Start-main/source/Effect.cpp:71-105 | as written, F2 held for three polls toggles twice; the corrected latch toggles once |

## Left out

- Floating point: every `float` is an exact real. Rounding, infinities and
  NaN are not modelled. The depth-grey scale `1 / (1 - 0.995)` is exactly 200
  here.
- Frame.RenderRasterizer: requires every vertex to project to a
  depth-projectable clip point: w is non-zero, and a divided depth in [0, 1]
  comes only with a positive w and a non-zero clip z. The projection is a
  parameter; `VertexTransform.PerspectiveIsDepthProjectable` shows that the
  camera's left-handed perspective projection meets this for every point
  except those on the camera plane (w = 0, where the divide gives infinities)
  and on the near plane (clip z = 0, where the reciprocal depth is infinite).
  Those two planes are not modelled, since reals have no infinities.
  Vertices behind the camera are modelled: their triangles are dropped.
- Frame.RenderRasterizer: requires every index to name a vertex. The source
  does not check, and an out-of-range index reads past `vertices_out`.
- Frame.RenderRasterizer transforms each mesh just before drawing it. The
  source transforms all meshes first. The vertex stage reads no buffer, so the
  frame is the same.
- Texture.Sample: requires uv in [0, 1)², where the lookup reads the texel
  that uv lies on. At u = 1 the source reads the first texel of the next row
  (`RightEdgeSpillsIntoNextRow`), which is still inside the array except on
  the last row. At v = 1 it reads past the last texel
  (`BottomEdgeOverruns`). A negative coordinate goes through
  `static_cast<size_t>` of a negative float, which C++ leaves undefined, so
  negative uv is not modelled.
- `ColorRGB::MaxToOne` and `SDL_MapRGB`: `MaxToOne` is a parameter. The back
  buffer holds `MaxToOne`'s colour, as reals. The source then converts each
  channel with `static_cast<uint8_t>(c * 255)` and packs the bytes with
  `SDL_MapRGB`. The model leaves out that truncation and the packing: the
  range of `MaxToOne`'s result is not visible, so the cast's behaviour is not
  known, and the surface format is not visible either. For example, a depth
  grey of 0.5 is stored as 0.5, where the source passes 127. The white
  bounding-box colour is likewise stored as a colour.
- Culling.ToggleCullMode: the order None, Front, Back is borrowed from
  `Effect::CullMode`. The enum behind `Renderer`'s own `m_CullMode` is not
  visible; the renderer's code shows only `int + 1` with a wrap to 0. The F9
  help text lists "BACK/FRONT/NONE", which suggests another order. If that
  text lists the cycle from the start value, the model's order would give
  Back, None, Front instead. The per-pixel decision in `CullModesPartition`
  does not depend on the order.
- Frame.ChannelByte: the clear colour's `(uint32_t)` conversion is modelled,
  and `SDL_FillRect` is the colour fill of the back buffer.
- The math library (`Normalized`, 3D `Cross`, `Matrix::TransformPoint` and
  `TransformVector`, `powf`) and `PI` are parameters.
- The texture maps that `PixelShading` samples are function parameters.
  `Texture::Sample` is modelled on its own.
- The world, view and projection matrices, the camera, the timer and
  rotation (`Update`, `UpdateRasterizer`) are outside the model.
- The DirectX renderer (`InitializeDirectX`, `RenderDirectX`, effect loading,
  shader variables, technique validity checks) is outside the model.
- SDL surface locking, blitting and window updates are outside the model, as
  is every console message of the switches.
- DualEffect.SwitchTechniques: the console message reads `m_pMeshes[0]` even
  when there are no meshes. Only the print uses it, so it is not modelled.
- DualEffect.GetSampleState: returns `int` as in the definition; the header
  declares `FilteringMethod`. The `default: return 4` branch has no enum
  value to reach it.
- DualEffect.SampleStateCountsToggles: requires the effect to start at Point, the
  technique the constructor fetches. Both effect classes leave
  `m_FilteringMethod` uninitialised.
- The second `viewDirectionInterpolated` scaling and renormalisation after
  `interpolatedPos` (Renderer.cpp lines 490-491) is not modelled. Nothing
  reads the vector afterwards.
- The `color` field of the shading vertex is never filled in by the rasterizer
  and stays black.

## Findings

| source | as written | input that shows it | evidently intended | confidence | as-written member | corrected member |
|---|---|---|---|---|---|---|
| GP1_DualRasterizer/source/Renderer.cpp:335 | `i < mesh.indices.size() - 2` is computed on unsigned `size_t`, so for fewer than two indices the bound wraps to about 2^64 | a mesh with an empty or single-entry index buffer: the first iteration reads `indices[1]` and `indices[2]` past the end | run only while `i + 2 < size()`, drawing nothing for fewer than three indices | not executed | Assembly.ShortIndexBufferOverruns | Assembly.AssembleTriangles |
| GP1_2223_DirectX_Start-main/source/Effect.cpp:100-105 | every poll that does not toggle clears `m_IsButtonDown`, including one that finds F2 still held | F2 held for three polls from an unlatched state: the method advances on the first and third polls | clear the latch only when F2 is released, so one press toggles once | not executed | LatchedEffect.HeldKeyTogglesTwiceInThreePolls | LatchedEffect.HeldKeyTogglesOnce |
| GP1_DualRasterizer/source/Renderer.cpp:429-433 | the inside test admits zero-area triangles, and the weights then divide by `triangleArea` = 0 | a list-mode triangle with indices (k, k, k) whose vertex lands at screen (10.5, 20.5): pixel (10, 20) is visited, all three edge values are 0, and every weight is 0 / 0 | skip pixels of zero-area triangles before dividing | not executed | EdgeFunctions.ZeroAreaPixelPassesInsideTest | EdgeFunctions.CoversMeansPositiveArea |
