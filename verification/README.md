# Xamarin.Forms.AR (Android face tracking) in Dafny

This project models the rendering core of Xamarin.Forms.AR's Android face-tracking
view. The view's `ARFragment` owns an ARCore session. On each GL frame it does three things:

- draws the camera image as a full-screen quad (`BackgroundRenderer`);
- for every tracked face, draws the face mesh (`AugmentedFaceRenderer`) and three textured objects pinned to face regions (`ObjectRenderer`);
- keeps the screen awake while the camera tracks (`TrackingStateHelper`).

Around that core sit:

- the display-rotation bookkeeping that hands the session its viewport (`DisplayRotationHelper`);
- the shader loader with `#define` prefixing and `#include` expansion (`ShaderHelper`);
- the Xamarin.Forms renderer that hosts the fragment (`ARFaceViewRenderer`, including its measure-spec packing);
- the iOS `VirtualContentType` mapping.

The model is functional:

- **GPU.** The GL context is an immutable record (`Gl.Gpu`): depth test and mask, blending and its factors, the current program, viewport, clear colour, the pending error queue, the name counter, the shader/program/texture tables, and an append-only trace of clear and draw calls. Each draw records the state it ran under and the uniforms and attributes it was given.
- **Operations.** Every renderer is a datatype. Every operation is a function that returns the new renderer, the new GPU, and the exception it raised, if any (`Gl.Out`). An operation that raises half-way keeps the partial state the C# code would keep.
- **Numbers.** Matrices are sequences of 16 reals in column-major order, multiplied as `Matrix.multiplyMM` does. Floats are reals. C# `int` arithmetic that can wrap is written out (`CSharp.Wrap32`, `CSharp.ToShort`), and measure specs are 32-bit vectors.

What the model shows about the code as written:

- **Split finding.** The shader reader cuts each line with `line.Split(" ", -1)`. In .NET that overload takes a maximum count, so a negative count throws. The catch-all swallows the exception, and every non-empty shader file reads as "" (see Findings). The rest of the model uses the evidently intended word split.
- **AlphaBlending factors.** `ObjectRenderer` draws AlphaBlending objects with `glBlendFunc(GL_NONE, GL_ONE_MINUS_SRC_ALPHA)`. `GL_NONE` is numerically `GL_ZERO`, so the fragment's colour is dropped exactly as in the Shadow mode, while the face renderer uses the premultiplied pair (`GL_ONE`, `GL_ONE_MINUS_SRC_ALPHA`). The factor is kept as written; `Blending.AlphaBlendingDropsSource` states the consequence.
- **Shadow factor.** `BlendMode.Shadow` is documented as multiplying the stored colour by the source alpha. The factor it is drawn with, `GL_ONE_MINUS_SRC_ALPHA`, multiplies it by one minus that alpha (`Blending.ShadowDarkens`).
- **Quad check.** `BackgroundRenderer` checks the quad with an integer division by two floats per vertex. It therefore lets a 9-float array through as well as the expected 8 (`Background.QuadCheck`).
- **Depth writes are not off for the objects.** The comment in `OnDrawFrame` says face objects are drawn "without depth write". That does not hold: the face renderer switches depth writes back on after the mesh, and an AlphaBlending object draws with depth writes on. The face renderer also leaves blending enabled after its draw.
- **Include guard.** The `#include` guard compares only with the calling file's own name. Two files that include each other recurse until the stack overflows, which .NET cannot catch (`ShaderHelper.MutualIncludeDiverges`).
- **Sensor angle wrap.** `GetCameraSensorToDisplayRotation` adds 360 in 32-bit arithmetic before taking the remainder. A sensor orientation above `int.MaxValue - 360` wraps to a negative sum, and C#'s `%` then gives a negative angle (`DisplayRotation.SensorToDisplayOverflow`). Android reports only 0, 90, 180 and 270, so this stays out of reach in practice.
- **Clearing the element raises.** When the renderer's element becomes null, `OnElementChanged` still hands `Replace` its new fragment, which is then null. The same happens for an element that is not an `ARFaceView`, because `as ARFaceView` yields null. The fragment transaction dereferences it and raises, after the old fragment has been disposed and before anything is committed or `ElementChanged` is raised (`FaceView.OtherElementRaises`).
- **Measure-spec packing.** `MakeMeasureSpec` adds the mode to the size. This agrees with Android's masking version exactly when the size fits in thirty bits; a larger size carries into the mode bits (`FaceView.AgreesWithAndroidWhenSizeFits`).

## Model

| member | source | states |
|---|---|---|
| ShaderHelper.CheckGlError | Xamarin.Forms.AR/Helpers/ShaderHelper.android.cs:71-86 | afterwards nothing is pending; it raises exactly when something was, naming the most recent code |
| ShaderHelper.DrainErrorQueue | Xamarin.Forms.AR/Helpers/ShaderHelper.android.cs:71-86 | the drain loop leaves the error queue empty and raises exactly when something was pending, naming the last code drained; it agrees with the functional `CheckGlError` the renderers use |
| ShaderHelper.BuildDefines | Xamarin.Forms.AR/Helpers/ShaderHelper.android.cs:27-31 | the define loop produces one `#define K V\n` line per entry, in enumeration order |
| ShaderHelper.DefinesRoundTrip | Xamarin.Forms.AR/Helpers/ShaderHelper.android.cs:27-33 | the define block, read back line by line as the GLSL preprocessor reads `#define K V`, gives exactly the map's entries in order (keys without spaces or newlines) |
| ShaderHelper.IntToStringRoundTrip | Xamarin.Forms.AR/Helpers/ShaderHelper.android.cs:30 | the decimal text of a define value reads back as that value, sign included |
| ShaderHelper.SplitJoin | Xamarin.Forms.AR/Helpers/ShaderHelper.android.cs:106 | splitting on a separator undoes joining with it when no piece contains it |
| ShaderHelper.JoinSplit | Xamarin.Forms.AR/Helpers/ShaderHelper.android.cs:106 | joining the pieces of a split gives the string back, and no piece contains the separator |
| ShaderHelper.RemoveQuotes | Xamarin.Forms.AR/Helpers/ShaderHelper.android.cs:110 | the include name has no quote left, and a name without quotes is unchanged |
| ShaderHelper.ReadWith | Xamarin.Forms.AR/Helpers/ShaderHelper.android.cs:94-132 | a missing or empty asset reads as "" (the catch-all); the reading can only run away through an `#include` line, and only with the word split that does not raise |
| ShaderHelper.ExpandLines | Xamarin.Forms.AR/Helpers/ShaderHelper.android.cs:104-121 | no lines read as ""; with `Split(" ", -1)` as written the first line already raises; running away needs an `#include` line among the lines |
| ShaderHelper.ReadShaderFile | Xamarin.Forms.AR/Helpers/ShaderHelper.android.cs:94-132 | a missing asset reads as ""; a reading that completes within the include depth is the same with one more level |
| ShaderHelper.ReadShaderFileAsWritten | Xamarin.Forms.AR/Helpers/ShaderHelper.android.cs:106 | as written, every asset reads as "" |
| ShaderHelper.ReadMoreFuel | Xamarin.Forms.AR/Helpers/ShaderHelper.android.cs:94-132 | the include-depth bound only cuts a reading off: once an asset reads within some depth it reads the same with any larger one |
| ShaderHelper.ExpandMoreFuel | Xamarin.Forms.AR/Helpers/ShaderHelper.android.cs:104-121 | the same for the lines of one file: an expansion that did not run away is unchanged by a larger depth |
| ShaderHelper.AsWrittenReadsEmpty | Xamarin.Forms.AR/Helpers/ShaderHelper.android.cs:94-132 | with `Split(" ", -1)` as written, every file (present or not) reads as "" |
| ShaderHelper.AsWrittenLosesSource | Xamarin.Forms.AR/Helpers/ShaderHelper.android.cs:104-131 | a non-empty file without directives reads as its text with the intended split and as "" as written |
| ShaderHelper.ReadPlainFile | Xamarin.Forms.AR/Helpers/ShaderHelper.android.cs:104-122 | a file without `#include` reads as its lines, each followed by a newline |
| ShaderHelper.ExpandPlain | Xamarin.Forms.AR/Helpers/ShaderHelper.android.cs:117-120 | lines that are not directives are copied through, each followed by a newline |
| ShaderHelper.ReadMissingFile | Xamarin.Forms.AR/Helpers/ShaderHelper.android.cs:126-131 | a missing asset reads as "" (the exception is swallowed) |
| ShaderHelper.SelfIncludeReadsEmpty | Xamarin.Forms.AR/Helpers/ShaderHelper.android.cs:112-113 | a file that includes itself never yields its text: the guard's exception is caught and it reads as "", unless an earlier include recursed without end |
| ShaderHelper.ExpandSelfInclude | Xamarin.Forms.AR/Helpers/ShaderHelper.android.cs:107-115 | a run of lines containing a self-include never expands to text |
| ShaderHelper.MutualIncludeDiverges | Xamarin.Forms.AR/Helpers/ShaderHelper.android.cs:112-115 | two files that include each other on their first lines escape the name-only guard and recurse without end |
| ShaderHelper.LoadGlShader | Xamarin.Forms.AR/Helpers/ShaderHelper.android.cs:21-56 | the compiled source is the define block followed by the file's text; a rejected source raises "Error creating shader." and a normal return is a fresh non-zero shader of the requested kind |
| ShaderHelper.LoadWithoutDefines | Xamarin.Forms.AR/Helpers/ShaderHelper.android.cs:59-63 | the overload without defines compiles the file's text unchanged |
| ShaderHelper.CompileProgram | Xamarin.Forms.AR/Models/ObjectRenderer.android.cs:231-237 | a linked program is fresh and holds a vertex shader and a fragment shader whose source starts with the define block; programs linked before stay linked |
| ShaderHelper.BuildProgram | Xamarin.Forms.AR/Models/BackgroundRenderer.android.cs:87-103 | a successful build makes the fresh program current with an empty error queue; a pending GL error always raises; programs linked before stay linked |
| TrackingStates.Update | Xamarin.Forms.AR/Helpers/TrackingStateHelper.android.cs:18-34 | a repeated state posts nothing; a new state posts one flag action, which adds keep-screen-on exactly when the state is neither Paused nor Stopped |
| TrackingStates.RunPostsOnePerChange | Xamarin.Forms.AR/Helpers/TrackingStateHelper.android.cs:18-34 | over a run of states, one action is posted per change of state and the helper remembers the last state |
| TrackingStates.RunKeepsFlagInStep | Xamarin.Forms.AR/Helpers/TrackingStateHelper.android.cs:18-34 | applying the posted actions in order leaves the flag on exactly when the last state keeps the screen on |
| TrackingStates.UpdateIdempotent | Xamarin.Forms.AR/Helpers/TrackingStateHelper.android.cs:20-21 | updating twice with the same state is updating once |
| TrackingStates.ApplyActionsAppend | Xamarin.Forms.AR/Helpers/TrackingStateHelper.android.cs:26-32 | posted actions compose: applying a then b is applying a + b |
| TrackingStates.FailureReasonStringInjective | Xamarin.Forms.AR/Helpers/TrackingStateHelper.android.cs:36-40 | the failure text determines the reason it was built from |
| TrackingStates.FailureReasonString | Xamarin.Forms.AR/Helpers/TrackingStateHelper.android.cs:39 | the text is the fixed prefix followed by the reason |
| VirtualContent.OrdinalRoundTrip | Xamarin.Forms.AR/AR_Face/iOS/VirtualContent/VirtualContentType.ios.cs:3-10 | every content type's ordinal maps back to that type |
| VirtualContent.FromOrdinalRoundTrip | Xamarin.Forms.AR/AR_Face/iOS/VirtualContent/VirtualContentType.ios.cs:3-10 | every ordinal 0..4 names a type whose ordinal it is |
| VirtualContent.MakeController | Xamarin.Forms.AR/AR_Face/iOS/VirtualContent/VirtualContentType.ios.cs:14-31 | the textured face is chosen exactly for Texture and for every value outside the other four cases; the mapping is total |
| VirtualContent.MakeControllerShows | Xamarin.Forms.AR/AR_Face/iOS/VirtualContent/VirtualContentType.ios.cs:16-29 | each declared type gets the controller that shows that type |
| VirtualContent.MakeControllerOnto | Xamarin.Forms.AR/AR_Face/iOS/VirtualContent/VirtualContentType.ios.cs:16-29 | every controller is reached by exactly the type it shows |
| VirtualContent.MakeControllerFallback | Xamarin.Forms.AR/AR_Face/iOS/VirtualContent/VirtualContentType.ios.cs:27-29 | an undeclared value gets the same controller as Texture |
| DisplayRotation.OnSurfaceChanged | Xamarin.Forms.AR/Helpers/DisplayRotationHelper.android.cs:39-44 | the new size is stored and marked to be sent to the session |
| DisplayRotation.OnDisplayChanged | Xamarin.Forms.AR/Helpers/DisplayRotationHelper.android.cs:119-122 | the geometry is marked to be sent again, the size kept |
| DisplayRotation.OnDisplayAdded | Xamarin.Forms.AR/Helpers/DisplayRotationHelper.android.cs:115-117 | adding a display changes nothing |
| DisplayRotation.OnDisplayRemoved | Xamarin.Forms.AR/Helpers/DisplayRotationHelper.android.cs:124-126 | removing a display changes nothing |
| DisplayRotation.UpdateSessionIfNeeded | Xamarin.Forms.AR/Helpers/DisplayRotationHelper.android.cs:46-54 | the session gets (rotation, width, height) exactly when a change is pending, and the pending mark is cleared |
| DisplayRotation.UpdateIdempotent | Xamarin.Forms.AR/Helpers/DisplayRotationHelper.android.cs:46-54 | a second update with no change in between sends nothing and changes nothing |
| DisplayRotation.ResizeReachesSession | Xamarin.Forms.AR/Helpers/DisplayRotationHelper.android.cs:39-54 | after a resize and any display-change events, the next update hands the session exactly the new size |
| DisplayRotation.DisplayChangesKeepSize | Xamarin.Forms.AR/Helpers/DisplayRotationHelper.android.cs:119-122 | display-change events never alter the stored size |
| DisplayRotation.ToDegrees | Xamarin.Forms.AR/Helpers/DisplayRotationHelper.android.cs:98-113 | the four surface rotations are 0, 90, 180 and 270 degrees, a quarter turn each; any other ordinal raises |
| DisplayRotation.SensorToDisplayRotation | Xamarin.Forms.AR/Helpers/DisplayRotationHelper.android.cs:76-96 | a camera that cannot be accessed raises the wrapping NotImplementedException first; then an unknown display rotation raises; then a camera without a sensor orientation raises NullReference; the result exists exactly when none of these happens |
| DisplayRotation.SensorToDisplayValue | Xamarin.Forms.AR/Helpers/DisplayRotationHelper.android.cs:95 | for any sensor orientation from 0 up to the largest int that still leaves room for the added 360, the result is the sensor angle less the display angle, reduced into [0, 360) |
| DisplayRotation.SensorToDisplayRange | Xamarin.Forms.AR/Helpers/DisplayRotationHelper.android.cs:94-95 | over the same orientations the result lies in [0, 360) and differs from the sensor angle less the display angle by a multiple of 360; it is one of 0/90/180/270 when the sensor angle is a multiple of 90 |
| DisplayRotation.SensorToDisplayOverflow | Xamarin.Forms.AR/Helpers/DisplayRotationHelper.android.cs:95 | past that bound the 32-bit sum wraps: a sensor orientation of `int.MaxValue` with the display upright gives -129, where the mathematical remainder is 127 |
| DisplayRotation.SensorToDisplayQuarterTurn | Xamarin.Forms.AR/Helpers/DisplayRotationHelper.android.cs:95 | turning the display one more quarter takes 90 degrees off the result, wrapping 0 to 270 |
| DisplayRotation.Divide | Xamarin.Forms.AR/Helpers/DisplayRotationHelper.android.cs:64-68 | the quotient is finite exactly for a non-zero divisor, and then it times the divisor gives the dividend |
| DisplayRotation.AspectRatio | Xamarin.Forms.AR/Helpers/DisplayRotationHelper.android.cs:56-74 | a rotation error passes through; an angle of 90 or 270 gives height over width, 0 or 180 width over height, and any other angle raises with that angle |
| DisplayRotation.AspectRatioOrientation | Xamarin.Forms.AR/Helpers/DisplayRotationHelper.android.cs:56-74 | for the angles cameras report the ratio is height over width at a quarter turn and width over height otherwise, finite for a viewport with no zero side |
| DisplayRotation.AspectRatioOddAngle | Xamarin.Forms.AR/Helpers/DisplayRotationHelper.android.cs:69-71 | any other angle reaches the default branch and raises with that angle |
| Background.QuadCheck | Xamarin.Forms.AR/Models/BackgroundRenderer.android.cs:69-73 | the vertex-count check passes exactly for quads of 8 or 9 floats, and the built-in quad passes |
| Background.Create | Xamarin.Forms.AR/Models/BackgroundRenderer.android.cs:55-126 | the camera texture is always fresh; a full set-up leaves both quad buffers, a fresh linked camera program, the depth program current and the depth texture recorded; a failed one leaves the depth texture as it was |
| Background.CreatedDrawsCamera | Xamarin.Forms.AR/Models/BackgroundRenderer.android.cs:55-182 | after a set-up that did not raise, drawing the camera frame never raises; every draw uses the camera program set-up linked, and there is exactly one unless suppression holds back a frame with timestamp 0 |
| Background.ReadyDrawsCamera | Xamarin.Forms.AR/Models/BackgroundRenderer.android.cs:148-182 | with both quad buffers and an empty error queue, drawing the camera frame cannot raise |
| Background.CreateWithoutDepth | Xamarin.Forms.AR/Models/BackgroundRenderer.android.cs:128-131 | without a depth texture the recorded id is -1 |
| Background.SetSuppressTimestampZeroRendering | Xamarin.Forms.AR/Models/BackgroundRenderer.android.cs:133-136 | only the suppression flag changes |
| Background.DrawQuad | Xamarin.Forms.AR/Models/BackgroundRenderer.android.cs:235-295 | the quad is drawn once as a 4-vertex strip with depth test and depth writes off, after which both are on whatever they were before; a null buffer raises before drawing; the error check raises exactly when errors were pending |
| Background.DrawFrame | Xamarin.Forms.AR/Models/BackgroundRenderer.android.cs:148-169 | changed display geometry replaces the quad's texture coordinates with the frame's; a zero timestamp under suppression draws nothing; otherwise exactly one draw |
| Background.DrawCameraFrame | Xamarin.Forms.AR/Models/BackgroundRenderer.android.cs:171-174 | every draw it issues uses the camera program, never the depth program |
| Background.Crop | Xamarin.Forms.AR/Models/BackgroundRenderer.android.cs:188-200 | the crop window has the screen's aspect ratio, fits in the image, and spans its full width or its full height |
| Background.MarginsBounds | Xamarin.Forms.AR/Models/BackgroundRenderer.android.cs:188-203 | both margins lie in [0, 0.5], at least one is 0, and the window between them has the screen's aspect ratio |
| Background.TexCoordTable | Xamarin.Forms.AR/Models/BackgroundRenderer.android.cs:206-226 | the table gives 8 coordinates exactly for 0, 90, 180 and 270 and raises IllegalArgumentException with the rotation for anything else |
| Background.AlignedTable | Xamarin.Forms.AR/Models/BackgroundRenderer.android.cs:206-218 | at rotation 0 each vertex samples the point the aligned, cropped mapping gives |
| Background.TableQuarterTurn | Xamarin.Forms.AR/Models/BackgroundRenderer.android.cs:206-218 | each further quarter turn moves every vertex's sample to the next vertex's sample |
| Background.TableIsPermutationOfCorners | Xamarin.Forms.AR/Models/BackgroundRenderer.android.cs:206-218 | every handled rotation samples the four corners of the crop window, each exactly once |
| Background.DrawCropped | Xamarin.Forms.AR/Models/BackgroundRenderer.android.cs:184-229 | an unhandled rotation raises IllegalArgumentException with nothing written or drawn; otherwise the quad gets the table's coordinates and is drawn once |
| ObjectRenderer.CompileAndLoad | Xamarin.Forms.AR/Models/ObjectRenderer.android.cs:225-268 | only the program changes; a compiled program's fragment shader starts with the occlusion define |
| ObjectRenderer.OcclusionDefineLine | Xamarin.Forms.AR/Models/ObjectRenderer.android.cs:227-229 | the fragment shader is prefixed with `#define USE_DEPTH_FOR_OCCLUSION 1` or `0` |
| ObjectRenderer.Narrow | Xamarin.Forms.AR/Models/ObjectRenderer.android.cs:143-152 | each index becomes the 16-bit value congruent to it, one per input |
| ObjectRenderer.NarrowKeepsSmallIndices | Xamarin.Forms.AR/Models/ObjectRenderer.android.cs:143-152 | an index below 65536 reads back unchanged when the GPU reads the short as unsigned |
| ObjectRenderer.NarrowIndices | Xamarin.Forms.AR/Models/ObjectRenderer.android.cs:146-151 | the narrowing loop computes the narrowing, keeping indices below 32768 as they are |
| ObjectRenderer.Create | Xamarin.Forms.AR/Models/ObjectRenderer.android.cs:98-188 | a missing model or texture raises; a full set-up records the mesh's index count and buffer layout and an identity model matrix |
| ObjectRenderer.CreatedMeshIsDrawn | Xamarin.Forms.AR/Models/ObjectRenderer.android.cs:123-188 | the attributes a created object draws with are the mesh's vertices, normals and texture coordinates |
| ObjectRenderer.SetBlendMode | Xamarin.Forms.AR/Models/ObjectRenderer.android.cs:195-198 | the parameter is the non-nullable enum, so afterwards the object blends with the given mode; nothing else changes |
| ObjectRenderer.BlendModeStaysSet | Xamarin.Forms.AR/Models/ObjectRenderer.android.cs:195-198 | once an object blends, it blends for good: setting a mode keeps one, and creation, the occlusion switch, the model matrix, the UV transform and the depth texture leave it as it was |
| ObjectRenderer.SetUseDepthForOcclusion | Xamarin.Forms.AR/Models/ObjectRenderer.android.cs:213-223 | the same flag changes nothing; a new flag recompiles the program with the matching define |
| ObjectRenderer.SetUseDepthIdempotent | Xamarin.Forms.AR/Models/ObjectRenderer.android.cs:215-216 | setting the flag it already holds again is a no-op |
| ObjectRenderer.UpdateModelMatrix | Xamarin.Forms.AR/Models/ObjectRenderer.android.cs:277-285 | the model matrix is the pose with its three axis columns scaled and its translation kept; scale 1 stores the pose |
| ObjectRenderer.SetMaterialProperties | Xamarin.Forms.AR/Models/ObjectRenderer.android.cs:296-303 | only the four material values change, to the given ones |
| ObjectRenderer.SetUvTransformMatrix | Xamarin.Forms.AR/Models/ObjectRenderer.android.cs:444-447 | only the UV transform changes |
| ObjectRenderer.SetDepthTexture | Xamarin.Forms.AR/Models/ObjectRenderer.android.cs:449-453 | the depth texture is recorded and its aspect ratio is width over height, finite exactly for a non-zero height |
| ObjectRenderer.LightIgnoresPosition | Xamarin.Forms.AR/Models/ObjectRenderer.android.cs:339-346 | the lighting direction depends on the object's orientation, not its position |
| ObjectRenderer.ViewLight | Xamarin.Forms.AR/Models/ObjectRenderer.android.cs:339-346 | the lighting uniform is the light direction in view space with w = 1 |
| ObjectRenderer.BlendState | Xamarin.Forms.AR/Models/ObjectRenderer.android.cs:394-414 | without a mode nothing changes; a mode turns blending on with its factors and sets depth writes as the mode requires |
| ObjectRenderer.DrawInputs | Xamarin.Forms.AR/Models/ObjectRenderer.android.cs:333-392 | the draw receives the model-view and model-view-projection matrices, the view-space light, the colour correction and object colour, the material, and the depth-occlusion uniforms exactly when occlusion is on |
| ObjectRenderer.Render | Xamarin.Forms.AR/Models/ObjectRenderer.android.cs:394-424 | one triangle draw under the mode's blend state; a set mode is switched off afterwards with depth writes back on |
| ObjectRenderer.Submit | Xamarin.Forms.AR/Models/ObjectRenderer.android.cs:333-424 | one draw is appended carrying the object's matrices, light and colour, under the blend discipline |
| ObjectRenderer.Draw | Xamarin.Forms.AR/Models/ObjectRenderer.android.cs:322-434 | pending GL errors raise before anything is drawn; short colour arrays or missing occlusion data raise without a draw, a null UV transform with IllegalArgumentException from the GL binding; otherwise one triangle draw with MV = V·M, MVP = P·MV, the view-space light and the object colour, blend and depth writes restored when a mode was set |
| ObjectRenderer.DrawDefault | Xamarin.Forms.AR/Models/ObjectRenderer.android.cs:317-320 | the overload draws with the default colour |
| Matrix.MultiplyAt | Xamarin.Forms.AR/Models/ObjectRenderer.android.cs:333-334 | each entry of a product is the row-by-column dot product in column-major order |
| Matrix.ScaleColumns | Xamarin.Forms.AR/Models/ObjectRenderer.android.cs:277-285 | multiplying by a uniform scale scales the first three columns and keeps the translation |
| Matrix.DirectionIgnoresTranslation | Xamarin.Forms.AR/Models/ObjectRenderer.android.cs:339-340 | a direction vector (w = 0) is transformed by the linear part alone |
| Matrix.ProductKeepsLinearPart | Xamarin.Forms.AR/Models/ObjectRenderer.android.cs:333 | matrices that differ only in translation keep equal linear parts after left multiplication |
| Matrix.LightingParameters | Xamarin.Forms.AR/Models/AugmentedFaceRenderer.android.cs:114-122 | the lighting uniform carries the transformed direction's xyz and w = 1 |
| Matrix.LightFollowsOrientation | Xamarin.Forms.AR/Models/AugmentedFaceRenderer.android.cs:111-122 | the lighting uniform does not depend on the model's translation |
| Blending.Factors | Xamarin.Forms.AR/Models/ObjectRenderer.android.cs:398-412 | both modes as written weight the incoming colour by zero and the stored colour by one minus source alpha |
| Blending.ShadowDarkens | Xamarin.Forms.AR/Models/ObjectRenderer.android.cs:398-403 | the Shadow pass darkens what is drawn by the texture's alpha and never brightens it |
| Blending.PremultipliedOver | Xamarin.Forms.AR/Models/AugmentedFaceRenderer.android.cs:149-152 | the face renderer's factors are the "over" operator on premultiplied colour |
| Blending.AlphaBlendingDropsSource | Xamarin.Forms.AR/Models/ObjectRenderer.android.cs:405-412 | AlphaBlending as written discards the object's colour like Shadow; opaque white over black comes out black, not white |
| FaceRenderer.Create | Xamarin.Forms.AR/Models/AugmentedFaceRenderer.android.cs:49-92 | on success the program is fresh and linked and the texture fresh, nothing else of the renderer changing; a missing texture always raises, and it is the only exception once the program is built; the current program, error queue and trace are untouched |
| FaceRenderer.CreatedDrawsFace | Xamarin.Forms.AR/Models/AugmentedFaceRenderer.android.cs:49-158 | after a set-up that did not raise, a draw raises only for a short colour correction; otherwise its one draw uses the program set-up linked, which the GPU holds, with the material the renderer had |
| FaceRenderer.SetMaterialProperties | Xamarin.Forms.AR/Models/AugmentedFaceRenderer.android.cs:160-167 | only the four material values change, to the given ones |
| FaceRenderer.Draw | Xamarin.Forms.AR/Models/AugmentedFaceRenderer.android.cs:94-158 | it raises exactly when the colour correction is short; otherwise one triangle draw of the face mesh with depth writes off and premultiplied blending, MV = V·M and MVP = (P·V)·M, no tint; afterwards no program is current, depth writes are on and blending stays on |
| FaceRenderer.FaceLightIgnoresPosition | Xamarin.Forms.AR/Models/AugmentedFaceRenderer.android.cs:111-122 | the face light depends on the face's orientation, not its position |
| Fragment.PrepareObject | Xamarin.Forms.AR/AR_Face/ARFragment.android.cs:292-294 | a face object is created with the face material and AlphaBlending, drawing the model's indices; a missing asset raises |
| Fragment.SetUp | Xamarin.Forms.AR/AR_Face/ARFragment.android.cs:286-301 | a full set-up leaves the quad, the face material and all three objects on AlphaBlending; a missing face texture stops before any object is touched |
| Fragment.OnSurfaceCreated | Xamarin.Forms.AR/AR_Face/ARFragment.android.cs:281-306 | the clear colour is set; an IOException from the set-up is swallowed and any other exception escapes; the partial set-up is kept |
| Fragment.MissingFaceTextureSkipsObjects | Xamarin.Forms.AR/AR_Face/ARFragment.android.cs:290-300 | a missing face texture leaves the three face objects as they were |
| Fragment.OnSurfaceChanged | Xamarin.Forms.AR/AR_Face/ARFragment.android.cs:275-279 | the helper records the new size and the viewport covers it; nothing else changes |
| Fragment.ColorCorrectionRgba | Xamarin.Forms.AR/AR_Face/ARFragment.android.cs:217-218 | the colour correction is four values taken from the light estimate |
| Fragment.PlaceAndDraw | Xamarin.Forms.AR/AR_Face/ARFragment.android.cs:251-253 | the object is placed at the region pose with scale 1 and drawn once with that model-view |
| Fragment.DrawObjects | Xamarin.Forms.AR/AR_Face/ARFragment.android.cs:250-263 | right forehead, left forehead and nose are each placed at their region's pose and drawn in that order |
| Fragment.DrawFace | Xamarin.Forms.AR/AR_Face/ARFragment.android.cs:237-263 | the face mesh is drawn first, with depth writes off, then the three objects: four draws in order |
| Fragment.DrawFaces | Xamarin.Forms.AR/AR_Face/ARFragment.android.cs:229-264 | faces not tracking are skipped and each tracked face adds four draws |
| Fragment.UntrackedFacesAreSkipped | Xamarin.Forms.AR/AR_Face/ARFragment.android.cs:230-235 | with no face tracked nothing is drawn and nothing changes |
| Fragment.DrawSession | Xamarin.Forms.AR/AR_Face/ARFragment.android.cs:196-264 | the camera texture is handed to the session first; a failing update stops there; otherwise the background, the keep-screen-on update and four draws per tracked face |
| Fragment.OnDrawFrame | Xamarin.Forms.AR/AR_Face/ARFragment.android.cs:184-273 | the screen is cleared first; without a session nothing else happens; otherwise pending geometry goes to the session and depth writes are on at the end whatever was raised |
| Fragment.ScreenFlagFollowsCamera | Xamarin.Forms.AR/AR_Face/ARFragment.android.cs:224 | over a run of frames the keep-screen-on flag ends up on exactly when the last frame's camera was tracking |
| FaceView.ModeOf | Xamarin.Forms.AR/AR_Face/ARFaceView.android.cs:189-190 | the top two bits of a spec name its mode; the pattern 11 names none |
| FaceView.GetSize | Xamarin.Forms.AR/AR_Face/ARFaceView.android.cs:187-191 | the size is below 2^30 and agrees with the spec in its low thirty bits |
| FaceView.MakeMeasureSpec | Xamarin.Forms.AR/AR_Face/ARFaceView.android.cs:195-196 | a size below 2^30 comes back out of the spec unchanged, and so does the mode |
| FaceView.SpecIsSizeAndMode | Xamarin.Forms.AR/AR_Face/ARFaceView.android.cs:187-196 | a spec with a valid mode is rebuilt from its own size and mode |
| FaceView.AgreesWithAndroidWhenSizeFits | Xamarin.Forms.AR/AR_Face/ARFaceView.android.cs:193-196 | the addition equals Android's masking packing exactly when the size fits in thirty bits |
| FaceView.OversizeBecomesAtMost | Xamarin.Forms.AR/AR_Face/ARFaceView.android.cs:195-196 | a size of 2^30 asked for EXACTLY carries into the mode bits and reads as AT_MOST of size 0 |
| FaceView.CastToInt | Xamarin.Forms.AR/AR_Face/ARFaceView.android.cs:136-137 | the pixel cast truncates into the int range; non-negative pixels give a non-negative size |
| FaceView.ExactSpec | Xamarin.Forms.AR/AR_Face/ARFaceView.android.cs:136-140 | a pixel size that fits is measured EXACTLY at that size |
| FaceView.MeasureExactly | Xamarin.Forms.AR/AR_Face/ARFaceView.android.cs:125-143 | nothing is measured without a control or an element, or when width or height is not positive; otherwise both specs are EXACTLY the given size converted to pixels |
| FaceView.SetElement | Xamarin.Forms.AR/AR_Face/ARFaceView.android.cs:33-46 | setting the current element (the same reference) is a no-op; another value is stored if it is an ARFaceView and as null otherwise; an ARFaceView gets one committed fragment and one change event, while a null new element raises with nothing committed and no event |
| FaceView.SetElementAgain | Xamarin.Forms.AR/AR_Face/ARFaceView.android.cs:33-46 | setting an ARFaceView or null a second time changes nothing and raises nothing, even when the first call raised |
| FaceView.OtherElementRaises | Xamarin.Forms.AR/AR_Face/ARFaceView.android.cs:33-118 | a value of another type is stored as null and the call raises after detaching the old element and disposing its fragment, committing nothing and raising no event; setting it again raises again |
| FaceView.OnElementChanged | Xamarin.Forms.AR/AR_Face/ARFaceView.android.cs:93-119 | the old element's handler is removed and its fragment disposed; a new element gets a handler, an id and a fresh fragment bound to it, the swap is committed and one event raised; without a new element the null fragment handed to `Replace` raises, leaving no fragment, nothing committed and no event |
| FaceView.SetElementKeepsSound | Xamarin.Forms.AR/AR_Face/ARFaceView.android.cs:33-119 | element changes, raising or not, keep every fragment disposed at most once, keep the live fragment bound to the current element, and leave exactly that element's handler attached |
| FaceView.SetElementFromPlatform | Xamarin.Forms.AR/AR_Face/ARFaceView.android.cs:67-80 | an element other than an ARFaceView raises ArgumentException; otherwise a tracker exists and the element is set |
| FaceView.SetLabelFor | Xamarin.Forms.AR/AR_Face/ARFaceView.android.cs:82-88 | the first call remembers the view's own label; a given id is applied and a null id restores the remembered label |
| FaceView.LabelForRestores | Xamarin.Forms.AR/AR_Face/ARFaceView.android.cs:82-88 | whatever ids were set in between, a null id brings back the label the view had before the first call |
| FaceView.Dispose | Xamarin.Forms.AR/AR_Face/ARFaceView.android.cs:145-182 | a second call does nothing; the first disposes the fragment and, when disposing, clears listeners, tracker and renderer, detaches from the element and unregisters this renderer |
| FaceView.DisposeIdempotent | Xamarin.Forms.AR/AR_Face/ARFaceView.android.cs:147-153 | disposing twice with any flags is disposing once, and leaves each fragment disposed at most once |
| CSharp.Wrap32 | Xamarin.Forms.AR/Helpers/DisplayRotationHelper.android.cs:95 | unchecked int arithmetic gives the 32-bit value congruent to the exact result |
| CSharp.TruncRem | Xamarin.Forms.AR/Helpers/DisplayRotationHelper.android.cs:95 | C#'s `%` leaves a remainder with the dividend's sign |
| CSharp.ToShort | Xamarin.Forms.AR/Models/ObjectRenderer.android.cs:150 | the short cast gives the 16-bit value congruent to the int |

## Left out

- GL itself is not executed. Texture upload, buffer contents, uniform and attribute locations, vertex attribute arrays and rasterisation are absent. Each GL call becomes a field update of `Gl.Gpu` or one entry of its draw trace. Whether a shader compiles is an input set of rejected sources. GL errors are an input queue: no modelled call adds errors of its own.
- A GL binding handed a null array, or one shorter than it reads, raises `IllegalArgument`, as Android's GLES20 binding checks both. A call on a null object on the C# side (`quadTexCoords.Position(0)` in BackgroundRenderer) or on the Java side raises `NullReference`. The binding's other argument checks are not modelled.
- `NormalizeVec3` (ObjectRenderer and AugmentedFaceRenderer) needs a square root. The lighting uniform records the unnormalised direction.
- Floating point is modelled by reals. Float rounding, infinities and NaN are absent, except that a float division by zero is `Ratio.NonFinite`.
- ARCore is an input. This covers the session's update, trackables, camera matrices, light estimate and `TransformCoordinates2d`. The projection matrix is a function of the near and far planes (0.1 and 100).
- The OBJ reader (`ObjReader`/`ObjData`) is not part of this model. A mesh asset is already indices, vertices, texture coordinates and normals.
- The Android bitmap decoder and `texImage2D` are absent. A texture asset is only present or missing.
- The asynchronous lifecycle of `ARFragment` is outside the model. This covers `OnCreateView`, `OnResume`/`OnResumeAsync` (camera permission, ARCore install, session creation), `OnPause` and `OnDestroy`.
- These calls are outside the model: `Debug.Write`, `RunOnUiThread` (its actions are recorded as posted), `ElevationHelper`, `EnsureId`, the fragment manager's transaction machinery (beyond committing a fragment and refusing a null one), `GetDesiredSize`, `UpdateLayout` and `OnElementPropertyChanged` (which is empty).
- The iOS renderers, SceneKit controllers and view controllers are not modelled; only `VirtualContentType.MakeController` is.
- ShaderHelper.ReadShaderFile: include recursion is bounded by an include depth (`Assets.includeDepth`). Running out of depth stands for the stack overflow that unbounded recursion causes in .NET, which no `catch` intercepts.
- Background.Crop: requires a positive image size and screen aspect ratio. The C# code divides by them without a check, and a zero yields infinities or NaN, which reals cannot hold.
- Background.MarginsBounds: requires positive sizes and aspect ratio, for the same reason.
- Background.DrawCropped: requires positive sizes and aspect ratio, for the same reason.
- FaceView.CastToInt: a double outside the int range saturates, as on ARM and .NET 9. Older x64 runtimes give `int.MinValue` instead. NaN is not modelled.
- FaceView.OnElementChanged: AndroidX's `FragmentTransaction.Replace` is not part of this model. It dereferences the fragment it is given, so a null one raises a Java NullPointerException, modelled as `NullReference`. The view's id is never 0, so the container-id check before that does not fire.
- FaceView.MeasureExactly: the context's dp-to-pixel conversion is a parameter, and so are the width and height the layout passes in. The control is always the renderer itself, so it is a flag.
- ObjectRenderer.Draw: uniform and attribute location lookups are not modelled; each value is recorded under its input whatever the shader calls it.
- FaceRenderer.Draw: the face renderer looks up the lighting uniform as `u_LightningParameters` (AugmentedFaceRenderer.android.cs:65), while the object renderer uses `u_LightingParameters`. The shader sources are not part of this model, so whether the face shader declares that name is unknown. The light is recorded under the lighting input either way, and FaceRenderer.FaceLightIgnoresPosition is about that recorded value.
- DisplayRotation.SensorToDisplayRange: stated for sensor orientations up to `int.MaxValue - 360`. Beyond that the 32-bit sum wraps and the result is negative (DisplayRotation.SensorToDisplayOverflow). Android only reports 0, 90, 180 and 270.
- DisplayRotation.SensorToDisplayRotation: the camera id is not modelled. The lookup is an input that is either an access failure or characteristics with an optional sensor orientation. An exception other than CameraAccessException from the lookup is not modelled.

## Findings

| source | as written | input that shows it | evidently intended | confidence | as-written member | corrected member |
|---|---|---|---|---|---|---|
| Xamarin.Forms.AR/Helpers/ShaderHelper.android.cs:106 | `line.Split(" ", -1)` binds to .NET's `Split(string, int count, ...)`. A negative count throws `ArgumentOutOfRangeException`, the catch-all at 126-129 swallows it, and the file reads as "" | any shader asset with one line `void main() {}` | split the line on spaces into all its words, as Java's `split(" ", -1)` does | not executed | ShaderHelper.ReadShaderFileAsWritten (ShaderHelper.AsWrittenLosesSource) | ShaderHelper.ReadShaderFile (ShaderHelper.ReadPlainFile) |
