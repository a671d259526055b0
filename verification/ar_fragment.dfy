/** `ARFragment`: the GL surface's renderer. It owns the background, face and
    three object renderers, sets them up when the surface is created, and draws a
    frame: camera image first, then for every tracked face its mesh, the right and
    left forehead objects and the nose. The AR session is an input value; the
    activity lifecycle (install, permissions, resume and pause) is not modelled. */
module Fragment {
  import opened Common
  import opened Gl
  import opened Matrix
  import Assets
  import ArCore
  import Background
  import FaceRenderer
  import ObjectRenderer
  import Blending
  import TrackingStates
  import DisplayRotation

  const NEAR := 0.1
  const FAR := 100.0

  /** The clear colour set when the surface is created. */
  const ClearColor: seq<real> := [0.1, 0.1, 0.1, 1.0]

  /** The material every face object gets: ambient 0, diffuse 1, specular 0.1, power 6. */
  const FaceMaterial: (real, real, real, real) := (0.0, 1.0, 0.1, 6.0)

  const FACE_TEXTURE := "models/freckles.png"
  const NOSE_MODEL := "models/nose.obj"
  const NOSE_TEXTURE := "models/nose_fur.png"
  const RIGHT_EAR_MODEL := "models/forehead_right.obj"
  const LEFT_EAR_MODEL := "models/forehead_left.obj"
  const EAR_TEXTURE := "models/ear_fur.png"

  /** The fragment's fields, plus what it has told the session and the UI thread:
      the last display geometry and camera texture name handed to the session, and
      every keep-screen-on change posted so far. */
  datatype Fragment = Fragment(
    background: Background.Renderer,
    face: FaceRenderer.Renderer,
    nose: ObjectRenderer.Renderer,
    rightEar: ObjectRenderer.Renderer,
    leftEar: ObjectRenderer.Renderer,
    tracking: TrackingStates.Helper,
    display: DisplayRotation.Helper,
    session: Option<ArCore.Session>,
    sessionGeometry: Option<DisplayRotation.Geometry>,
    sessionTextureName: Option<int>,
    posted: seq<TrackingStates.FlagAction>)

  /** A fragment whose renderers are all new. */
  function Fresh(session: Option<ArCore.Session>): Fragment {
    Fragment(Background.Fresh, FaceRenderer.Fresh, ObjectRenderer.Fresh, ObjectRenderer.Fresh, ObjectRenderer.Fresh,
             TrackingStates.Helper(None), DisplayRotation.Fresh, session, None, None, [])
  }

  // ---------------------------------------------------------------------------
  // OnSurfaceCreated

  /** One face object: create it, give it the face material, blend it with alpha. */
  function PrepareObject(r: ObjectRenderer.Renderer, assets: Assets.Assets, g: Gpu, model: string, texture: string): (o: Out<ObjectRenderer.Renderer>)
    ensures o.gpu.trace == g.trace
    ensures o.thrown.None? ==>
      && o.state.blendMode == Some(Blending.AlphaBlending)
      && (o.state.ambient, o.state.diffuse, o.state.specular, o.state.specularPower) == FaceMaterial
      && model in assets.meshes && o.state.indexCount == |assets.meshes[model].indices|
    ensures model !in assets.meshes || texture !in assets.images ==> o.thrown.Some?
  {
    var c := ObjectRenderer.Create(r, assets, g, model, texture);
    if c.thrown.Some? then c
    else
      var r1 := ObjectRenderer.SetMaterialProperties(c.state, FaceMaterial.0, FaceMaterial.1, FaceMaterial.2, FaceMaterial.3);
      Out(ObjectRenderer.SetBlendMode(r1, Blending.AlphaBlending), c.gpu, None)
  }

  /** The body of the `try` in `OnSurfaceCreated`: each step raises before the next. */
  function SetUp(f: Fragment, assets: Assets.Assets, g: Gpu): (o: Out<Fragment>)
    ensures o.gpu.trace == g.trace
    ensures o.state.session == f.session && o.state.posted == f.posted
    ensures o.thrown.None? ==>
      && o.state.nose.blendMode == Some(Blending.AlphaBlending)
      && o.state.rightEar.blendMode == Some(Blending.AlphaBlending)
      && o.state.leftEar.blendMode == Some(Blending.AlphaBlending)
      && (o.state.face.ambient, o.state.face.diffuse, o.state.face.specular, o.state.face.specularPower) == FaceMaterial
      && o.state.background.quadCoords == Some(Background.QuadCoords)
    ensures FACE_TEXTURE !in assets.images ==> o.thrown.Some? && o.state.nose == f.nose && o.state.rightEar == f.rightEar && o.state.leftEar == f.leftEar
  {
    var bg := Background.CreateWithoutDepth(f.background, assets, g);
    var f1 := f.(background := bg.state);
    if bg.thrown.Some? then Out(f1, bg.gpu, bg.thrown)
    else
      var fc := FaceRenderer.Create(f1.face, assets, bg.gpu, FACE_TEXTURE);
      var f2 := f1.(face := fc.state);
      if fc.thrown.Some? then Out(f2, fc.gpu, fc.thrown)
      else
        var f3 := f2.(face := FaceRenderer.SetMaterialProperties(f2.face, FaceMaterial.0, FaceMaterial.1, FaceMaterial.2, FaceMaterial.3));
        var nose := PrepareObject(f3.nose, assets, fc.gpu, NOSE_MODEL, NOSE_TEXTURE);
        var f4 := f3.(nose := nose.state);
        if nose.thrown.Some? then Out(f4, nose.gpu, nose.thrown)
        else
          var right := PrepareObject(f4.rightEar, assets, nose.gpu, RIGHT_EAR_MODEL, EAR_TEXTURE);
          var f5 := f4.(rightEar := right.state);
          if right.thrown.Some? then Out(f5, right.gpu, right.thrown)
          else
            var left := PrepareObject(f5.leftEar, assets, right.gpu, LEFT_EAR_MODEL, EAR_TEXTURE);
            Out(f5.(leftEar := left.state), left.gpu, left.thrown)
  }

  /** `OnSurfaceCreated(gl, config)`: set the clear colour, then set up the renderers,
      swallowing an IOException (a missing asset) and letting every other
      exception through. Whatever was set up before the exception stays set up.
      The set-up never reads or writes the clear colour, so it is applied to the
      GPU the set-up leaves. */
  function OnSurfaceCreated(f: Fragment, assets: Assets.Assets, g: Gpu): (o: Out<Fragment>)
    ensures o.gpu.clearColor == ClearColor
    ensures o.gpu.trace == g.trace
    ensures o.thrown.Some? ==> !IsIOException(o.thrown.value)
    ensures o.state == SetUp(f, assets, g).state
    ensures o.thrown.None? <==>
      var t := SetUp(f, assets, g).thrown;
      t.None? || IsIOException(t.value)
  {
    var s := SetUp(f, assets, g);
    var g' := s.gpu.(clearColor := ClearColor);
    if s.thrown.Some? && IsIOException(s.thrown.value) then Out(s.state, g', None)
    else Out(s.state, g', s.thrown)
  }

  /** A missing face texture leaves the three face objects as they were. */
  lemma MissingFaceTextureSkipsObjects(f: Fragment, assets: Assets.Assets, g: Gpu)
    requires FACE_TEXTURE !in assets.images
    ensures var o := OnSurfaceCreated(f, assets, g);
            o.state.nose == f.nose && o.state.rightEar == f.rightEar && o.state.leftEar == f.leftEar
  {
  }

  // ---------------------------------------------------------------------------
  // OnSurfaceChanged

  /** `OnSurfaceChanged(gl, width, height)`: remember the size for the session and
      make the viewport the whole surface. */
  function OnSurfaceChanged(f: Fragment, g: Gpu, width: int, height: int): (r: (Fragment, Gpu))
    ensures r.0.display.viewportChanged
    ensures r.0.display.viewportWidth == width && r.0.display.viewportHeight == height
    ensures r.1.viewport == [0, 0, width, height]
    ensures r.0.(display := f.display) == f && r.1.(viewport := g.viewport) == g
  {
    (f.(display := DisplayRotation.OnSurfaceChanged(f.display, width, height)), g.(viewport := [0, 0, width, height]))
  }

  // ---------------------------------------------------------------------------
  // OnDrawFrame

  /** The four colour-correction factors `GetColorCorrection` writes into a new
      four-float array. */
  function ColorCorrectionRgba(frame: ArCore.Frame): (r: seq<real>)
    ensures |r| == 4
    ensures forall i :: 0 <= i < 4 && i < |frame.colorCorrection| ==> r[i] == frame.colorCorrection[i]
  {
    seq(4, i requires 0 <= i < 4 => if i < |frame.colorCorrection| then frame.colorCorrection[i] else 0.0)
  }

  /** One face object: `UpdateModelMatrix(pose, 1)` and `Draw` with the default colour. */
  function PlaceAndDraw(r: ObjectRenderer.Renderer, g: Gpu, pose: Mat4, view: Mat4, projection: Mat4, colorCorrection: seq<real>): (o: Out<ObjectRenderer.Renderer>)
    requires |colorCorrection| == 4
    ensures o.state == r.(modelMatrix := pose)
    ensures g.trace <= o.gpu.trace
    ensures o.thrown.None? ==>
      && |o.gpu.trace| == |g.trace| + 1
      && o.gpu.trace[|g.trace|].Draw? && o.gpu.trace[|g.trace|].state.program == r.program
      && ModelView in o.gpu.trace[|g.trace|].inputs
      && o.gpu.trace[|g.trace|].inputs[ModelView] == Multiply(view, pose)
  {
    var placed := ObjectRenderer.UpdateModelMatrix(r, pose, 1.0);
    ObjectRenderer.Draw(placed, g, view, projection, colorCorrection, ObjectRenderer.DefaultColor)
  }

  /** The three objects attached to a face: right forehead, left forehead, nose,
      each placed at its region's pose; the first exception stops the rest. */
  function DrawObjects(f: Fragment, g: Gpu, face: ArCore.AugmentedFace, view: Mat4, projection: Mat4, colorCorrection: seq<real>): (o: Out<Fragment>)
    requires |colorCorrection| == 4
    ensures o.state.(rightEar := f.rightEar, leftEar := f.leftEar, nose := f.nose) == f
    ensures g.trace <= o.gpu.trace
    ensures o.thrown.None? ==> |o.gpu.trace| == |g.trace| + 3
    ensures o.thrown.None? ==>
      && o.gpu.trace[|g.trace|].Draw? && o.gpu.trace[|g.trace|].state.program == f.rightEar.program
      && o.gpu.trace[|g.trace| + 1].Draw? && o.gpu.trace[|g.trace| + 1].state.program == f.leftEar.program
      && o.gpu.trace[|g.trace| + 2].Draw? && o.gpu.trace[|g.trace| + 2].state.program == f.nose.program
    ensures o.thrown.None? ==>
      && o.state.rightEar.modelMatrix == face.regionPose(ArCore.ForeheadRight)
      && o.state.leftEar.modelMatrix == face.regionPose(ArCore.ForeheadLeft)
      && o.state.nose.modelMatrix == face.regionPose(ArCore.NoseTip)
  {
    var right := PlaceAndDraw(f.rightEar, g, face.regionPose(ArCore.ForeheadRight), view, projection, colorCorrection);
    var f1 := f.(rightEar := right.state);
    if right.thrown.Some? then Out(f1, right.gpu, right.thrown)
    else
      var left := PlaceAndDraw(f.leftEar, right.gpu, face.regionPose(ArCore.ForeheadLeft), view, projection, colorCorrection);
      var f2 := f1.(leftEar := left.state);
      if left.thrown.Some? then Out(f2, left.gpu, left.thrown)
      else
        var nose := PlaceAndDraw(f.nose, left.gpu, face.regionPose(ArCore.NoseTip), view, projection, colorCorrection);
        if nose.thrown.Some? then Out(f2.(nose := nose.state), nose.gpu, nose.thrown)
        else
          ThreeSteps(g.trace, right.gpu.trace, left.gpu.trace, nose.gpu.trace);
          Out(f2.(nose := nose.state), nose.gpu, None)
  }

  /** Calls appended one after another stay where they were appended. */
  lemma ThreeSteps<T>(t0: seq<T>, t1: seq<T>, t2: seq<T>, t3: seq<T>)
    requires t0 <= t1 <= t2 <= t3
    requires |t1| == |t0| + 1 && |t2| == |t1| + 1 && |t3| == |t2| + 1
    ensures t0 <= t3 && |t3| == |t0| + 3
    ensures t3[|t0|] == t1[|t0|] && t3[|t0| + 1] == t2[|t0| + 1]
  {
    assert t1 <= t3;
  }

  lemma PrefixAt<T>(a: seq<T>, b: seq<T>, i: int)
    requires a <= b && 0 <= i < |a|
    ensures b[i] == a[i]
  {
  }

  /** One tracked face: its mesh with depth writes off, then its three objects. */
  function DrawFace(f: Fragment, g: Gpu, face: ArCore.AugmentedFace, view: Mat4, projection: Mat4, colorCorrection: seq<real>): (o: Out<Fragment>)
    requires |colorCorrection| == 4
    ensures o.state.(rightEar := f.rightEar, leftEar := f.leftEar, nose := f.nose) == f
    ensures g.trace <= o.gpu.trace
    ensures o.thrown.None? ==> |o.gpu.trace| == |g.trace| + 4
    ensures o.thrown.None? ==>
      o.gpu.trace[|g.trace|].Draw? && o.gpu.trace[|g.trace|].state.program == f.face.program
      && !o.gpu.trace[|g.trace|].state.depthMask
    ensures o.thrown.None? ==>
      && o.gpu.trace[|g.trace| + 1].Draw? && o.gpu.trace[|g.trace| + 1].state.program == f.rightEar.program
      && o.gpu.trace[|g.trace| + 2].Draw? && o.gpu.trace[|g.trace| + 2].state.program == f.leftEar.program
      && o.gpu.trace[|g.trace| + 3].Draw? && o.gpu.trace[|g.trace| + 3].state.program == f.nose.program
    ensures o.thrown.None? ==>
      && o.state.rightEar.modelMatrix == face.regionPose(ArCore.ForeheadRight)
      && o.state.leftEar.modelMatrix == face.regionPose(ArCore.ForeheadLeft)
      && o.state.nose.modelMatrix == face.regionPose(ArCore.NoseTip)
  {
    var mesh := FaceRenderer.Draw(f.face, g.(depthMask := false), projection, view, face.centerPose, colorCorrection, face);
    if mesh.thrown.Some? then Out(f, mesh.gpu, mesh.thrown)
    else
      var objects := DrawObjects(f, mesh.gpu, face, view, projection, colorCorrection);
      var call := mesh.gpu.trace[|g.trace|];
      assert call.Draw? && call.state.program == f.face.program && !call.state.depthMask;
      PrefixAt(mesh.gpu.trace, objects.gpu.trace, |g.trace|);
      objects
  }

  /** How many of the faces ARCore is tracking. */
  function Tracked(faces: seq<ArCore.AugmentedFace>): nat
    decreases |faces|
  {
    if |faces| == 0 then 0
    else (if faces[0].trackingState == TrackingStates.Tracking then 1 else 0) + Tracked(faces[1..])
  }

  /** The `foreach` over the session's faces: faces that are not tracking are
      skipped; every tracked face is drawn with four draw calls. */
  function DrawFaces(f: Fragment, g: Gpu, faces: seq<ArCore.AugmentedFace>, view: Mat4, projection: Mat4, colorCorrection: seq<real>): (o: Out<Fragment>)
    requires |colorCorrection| == 4
    ensures g.trace <= o.gpu.trace
    ensures o.thrown.None? ==> |o.gpu.trace| == |g.trace| + 4 * Tracked(faces)
    ensures o.state.(rightEar := f.rightEar, leftEar := f.leftEar, nose := f.nose) == f
    decreases |faces|
  {
    if |faces| == 0 then Out(f, g, None)
    else if faces[0].trackingState != TrackingStates.Tracking then DrawFaces(f, g, faces[1..], view, projection, colorCorrection)
    else
      var o := DrawFace(f, g, faces[0], view, projection, colorCorrection);
      if o.thrown.Some? then o
      else DrawFaces(o.state, o.gpu, faces[1..], view, projection, colorCorrection)
  }

  /** With no face tracked nothing is drawn and nothing changes. */
  lemma {:induction false} UntrackedFacesAreSkipped(f: Fragment, g: Gpu, faces: seq<ArCore.AugmentedFace>, view: Mat4, projection: Mat4, colorCorrection: seq<real>)
    requires |colorCorrection| == 4
    requires forall i :: 0 <= i < |faces| ==> faces[i].trackingState != TrackingStates.Tracking
    ensures DrawFaces(f, g, faces, view, projection, colorCorrection) == Out(f, g, None)
    decreases |faces|
  {
    if |faces| > 0 {
      UntrackedFacesAreSkipped(f, g, faces[1..], view, projection, colorCorrection);
    }
  }

  /** The body of the `try` in `OnDrawFrame`, once a session exists. */
  function DrawSession(f: Fragment, g: Gpu, session: ArCore.Session): (o: Out<Fragment>)
    ensures g.trace <= o.gpu.trace
    ensures o.state.sessionTextureName == Some(f.background.cameraTextureId)
    ensures session.update.Err? ==> o.gpu == g && o.thrown == Some(session.update.error) && o.state.posted == f.posted
    ensures session.update.Ok? && o.thrown.None? ==>
      var frame := session.update.value;
      && |g.trace| + 4 * Tracked(session.faces) <= |o.gpu.trace| <= |g.trace| + 1 + 4 * Tracked(session.faces)
      && o.state.tracking.previous == Some(frame.camera.trackingState)
      && o.state.posted == f.posted + (if f.tracking.previous == Some(frame.camera.trackingState) then [] else
           [if TrackingStates.KeepsScreenOn(frame.camera.trackingState) then TrackingStates.AddKeepScreenOn else TrackingStates.ClearKeepScreenOn])
  {
    var f1 := f.(sessionTextureName := Some(Background.TextureId(f.background)));
    match session.update
    case Err(e) => Out(f1, g, Some(e))
    case Ok(frame) =>
      var projection := frame.camera.projection(NEAR, FAR);
      var view := frame.camera.viewMatrix;
      var colorCorrection := ColorCorrectionRgba(frame);
      var bg := Background.DrawCameraFrame(f1.background, g, frame);
      var f2 := f1.(background := bg.state);
      if bg.thrown.Some? then Out(f2, bg.gpu, bg.thrown)
      else
        var (tracking, action) := TrackingStates.Update(f2.tracking, frame.camera.trackingState);
        var f3 := f2.(tracking := tracking, posted := f2.posted + (if action.Some? then [action.value] else []));
        DrawFaces(f3, bg.gpu, session.faces, view, projection, colorCorrection)
  }

  /** `OnDrawFrame(gl)` with the display's current rotation: clear, stop if there is
      no session, hand the session the display geometry if it changed, then draw
      inside a `try` that swallows every exception; depth writes are switched back
      on at the end whatever happened. */
  function OnDrawFrame(f: Fragment, g: Gpu, rotation: int): (r: (Fragment, Gpu))
    ensures g.trace + [Clear(true, true)] <= r.1.trace
    ensures f.session.None? ==> r == (f, g.(trace := g.trace + [Clear(true, true)]))
    ensures f.session.Some? ==>
      && r.1.depthMask
      && !r.0.display.viewportChanged
      && r.0.sessionGeometry == (if f.display.viewportChanged
           then Some(DisplayRotation.Geometry(rotation, f.display.viewportWidth, f.display.viewportHeight))
           else f.sessionGeometry)
    ensures f.session.Some? && f.session.value.update.Err? ==>
      r.1.trace == g.trace + [Clear(true, true)] && r.0.posted == f.posted
  {
    var g1 := g.(trace := g.trace + [Clear(true, true)]);
    if f.session.None? then (f, g1)
    else
      var (display, geometry) := DisplayRotation.UpdateSessionIfNeeded(f.display, rotation);
      var f1 := f.(display := display, sessionGeometry := if geometry.Some? then geometry else f.sessionGeometry);
      var o := DrawSession(f1, g1, f.session.value);
      (o.state, o.gpu.(depthMask := true))
  }

  /** Over a run of frames the keep-screen-on flag follows the camera: once the flag
      agrees with what the fragment last saw, after the frames it is on exactly
      when the camera of the last frame was tracking. */
  lemma ScreenFlagFollowsCamera(h: TrackingStates.Helper, flag: bool, states: seq<TrackingStates.TrackingState>)
    requires h.previous.Some? ==> flag == TrackingStates.KeepsScreenOn(h.previous.value)
    requires |states| > 0
    ensures TrackingStates.ApplyActions(flag, TrackingStates.Run(h, states).1) == TrackingStates.KeepsScreenOn(states[|states| - 1])
  {
    TrackingStates.RunKeepsFlagInStep(h, flag, states);
  }
}
