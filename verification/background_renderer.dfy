/** `BackgroundRenderer`: draws the camera image (or the depth image) as a
    full-screen quad behind everything else. */
module Background {
  import opened Common
  import opened Gl
  import Assets
  import ArCore
  import ShaderHelper

  const CAMERA_VERTEX_SHADER_NAME := "shaders/screenquad.vert"
  const CAMERA_FRAGMENT_SHADER_NAME := "shaders/screenquad.frag"
  const DEPTH_VISUALIZER_VERTEX_SHADER_NAME := "shaders/background_show_depth_color_visualization.vert"
  const DEPTH_VISUALIZER_FRAGMENT_SHADER_NAME := "shaders/background_show_depth_color_visualization.frag"

  const COORDS_PER_VERTEX := 2

  /** The screen quad in normalised device coordinates, drawn as a triangle strip:
      (-1,-1), (1,-1), (-1,1), (1,1). */
  const QuadCoords: seq<real> := [-1.0, -1.0, 1.0, -1.0, -1.0, 1.0, 1.0, 1.0]

  /** The renderer's fields; a buffer that was never allocated is `None` (null). */
  datatype Renderer = Renderer(
    quadCoords: Option<seq<real>>,
    quadTexCoords: Option<seq<real>>,
    cameraProgram: int,
    depthProgram: int,
    cameraTextureId: int,
    depthTextureId: int,
    suppressTimestampZeroRendering: bool)

  /** A new renderer: no buffers, texture ids -1, suppression on. */
  const Fresh := Renderer(None, None, 0, 0, -1, -1, true)

  /** `numVertices != QUAD_COORDS.Length / COORDS_PER_VERTEX` fails for 4 vertices. */
  predicate QuadCheckPasses(length: nat) {
    4 == length / COORDS_PER_VERTEX
  }

  /** The check lets through exactly the quads of 8 or 9 floats (the division
      truncates); the quad the renderer carries is one of them. */
  lemma QuadCheck(length: nat)
    ensures QuadCheckPasses(length) <==> length == 8 || length == 9
    ensures QuadCheckPasses(|QuadCoords|)
  {
  }

  /** `CreateOnGlThread(context, depthTextureId)`: the camera texture, the quad
      buffers, the camera program, then the depth-visualisation program, each step
      raising before the next. */
  function Create(r: Renderer, assets: Assets.Assets, g: Gpu, depthTextureId: int): (o: Out<Renderer>)
    ensures o.gpu.trace == g.trace
    ensures o.state.cameraTextureId > g.issued
    ensures o.thrown.None? ==>
      && o.state.quadCoords == Some(QuadCoords)
      && o.state.quadTexCoords == Some(seq(8, _ => 0.0))
      && o.state.cameraProgram in o.gpu.programs && o.state.cameraProgram > g.issued
      && o.state.depthProgram in o.gpu.programs && o.gpu.program == o.state.depthProgram
      && o.state.depthTextureId == depthTextureId
      && o.gpu.errors == [] && |g.errors| == 0
    ensures o.thrown.Some? ==> o.state.depthTextureId == r.depthTextureId
    ensures o.state.suppressTimestampZeroRendering == r.suppressTimestampZeroRendering
  {
    var (g1, texture) := GenTexture(g);
    var r1 := r.(cameraTextureId := texture);
    if !QuadCheckPasses(|QuadCoords|) then Out(r1, g1, Some(UnexpectedVertexCount))
    else
      var r2 := r1.(quadCoords := Some(QuadCoords), quadTexCoords := Some(seq(8, _ => 0.0)));
      var camera := ShaderHelper.BuildProgram(assets, g1, CAMERA_VERTEX_SHADER_NAME, CAMERA_FRAGMENT_SHADER_NAME, [], r.cameraProgram);
      var r3 := r2.(cameraProgram := camera.state);
      if camera.thrown.Some? then Out(r3, camera.gpu, camera.thrown)
      else
        var depth := ShaderHelper.BuildProgram(assets, camera.gpu, DEPTH_VISUALIZER_VERTEX_SHADER_NAME, DEPTH_VISUALIZER_FRAGMENT_SHADER_NAME, [], r.depthProgram);
        var r4 := r3.(depthProgram := depth.state);
        if depth.thrown.Some? then Out(r4, depth.gpu, depth.thrown)
        else Out(r4.(depthTextureId := depthTextureId), depth.gpu, None)
  }

  /** `CreateOnGlThread(context)`: no depth texture. */
  function CreateWithoutDepth(r: Renderer, assets: Assets.Assets, g: Gpu): (o: Out<Renderer>)
    ensures o.thrown.None? ==> o.state.depthTextureId == -1
  {
    Create(r, assets, g, -1)
  }

  /** `GetTextureId()`. */
  function TextureId(r: Renderer): int {
    r.cameraTextureId
  }

  /** `SuppressTimestampZeroRendering(flag)`. */
  function SetSuppressTimestampZeroRendering(r: Renderer, flag: bool): (r': Renderer)
    ensures r'.suppressTimestampZeroRendering == flag
    ensures r'.(suppressTimestampZeroRendering := r.suppressTimestampZeroRendering) == r
  {
    r.(suppressTimestampZeroRendering := flag)
  }

  /** The private `Draw(debugShowDepthMap)`: one triangle strip of four vertices with
      depth test and depth writes off, after which both are switched on again
      whatever they were before, and the error queue is checked. */
  function DrawQuad(r: Renderer, g: Gpu, debugShowDepthMap: bool): (o: Out<Renderer>)
    ensures r.quadCoords.None? || r.quadTexCoords.None? ==> o == Out(r, g, Some(NullReference))
    ensures r.quadCoords.Some? && r.quadTexCoords.Some? ==>
      var program := if debugShowDepthMap then r.depthProgram else r.cameraProgram;
      && o.state == r
      && o.gpu.trace == g.trace + [Draw(TRIANGLE_STRIP, 4,
           Snapshot(program, false, false, g.blend, g.blendSrc, g.blendDst),
           map[Position := r.quadCoords.value, TexCoord := r.quadTexCoords.value])]
      && o.gpu.depthTest && o.gpu.depthMask
      && o.gpu.program == program
      && o.gpu.blend == g.blend && o.gpu.blendSrc == g.blendSrc && o.gpu.blendDst == g.blendDst
      && o.gpu.errors == []
      && (o.thrown.Some? <==> |g.errors| > 0)
  {
    if r.quadCoords.None? || r.quadTexCoords.None? then Out(r, g, Some(NullReference))
    else
      var program := if debugShowDepthMap then r.depthProgram else r.cameraProgram;
      var g1 := g.(depthTest := false, depthMask := false, program := program);
      var g2 := Emit(g1, TRIANGLE_STRIP, 4, map[Position := r.quadCoords.value, TexCoord := r.quadTexCoords.value]);
      var (g3, e) := ShaderHelper.CheckGlError(g2.(depthMask := true, depthTest := true), "BackgroundRendererDraw");
      Out(r, g3, e)
  }

  /** `Draw(frame, debugShowDepthMap)`: take the quad's texture coordinates from the
      frame when the display geometry changed, then draw unless the camera has not
      produced a frame yet (timestamp 0) and suppression is on. */
  function DrawFrame(r: Renderer, g: Gpu, frame: ArCore.Frame, debugShowDepthMap: bool): (o: Out<Renderer>)
    ensures frame.displayGeometryChanged && (r.quadCoords.None? || r.quadTexCoords.None?) ==>
      o == Out(r, g, Some(NullReference))
    ensures o.thrown != Some(NullReference) ==>
      o.state == if frame.displayGeometryChanged then r.(quadTexCoords := Some(frame.transformedTexCoords)) else r
    ensures frame.timestamp == 0 && r.suppressTimestampZeroRendering && o.thrown.None? ==> o.gpu == g
    ensures r.quadCoords.Some? && r.quadTexCoords.Some? && !(frame.timestamp == 0 && r.suppressTimestampZeroRendering) ==>
      |o.gpu.trace| == |g.trace| + 1 && o.gpu.depthTest && o.gpu.depthMask
    ensures g.trace <= o.gpu.trace && |o.gpu.trace| <= |g.trace| + 1
  {
    if frame.displayGeometryChanged && (r.quadCoords.None? || r.quadTexCoords.None?) then Out(r, g, Some(NullReference))
    else
      var r1 := if frame.displayGeometryChanged then r.(quadTexCoords := Some(frame.transformedTexCoords)) else r;
      if frame.timestamp == 0 && r1.suppressTimestampZeroRendering then Out(r1, g, None)
      else DrawQuad(r1, g, debugShowDepthMap)
  }

  /** `Draw(frame)`: the camera image, not the depth image. */
  function DrawCameraFrame(r: Renderer, g: Gpu, frame: ArCore.Frame): (o: Out<Renderer>)
    ensures forall i :: |g.trace| <= i < |o.gpu.trace| ==> o.gpu.trace[i].Draw? && o.gpu.trace[i].state.program == r.cameraProgram
  {
    DrawFrame(r, g, frame, false)
  }

  /** A renderer that was created without raising draws the camera frame without
      raising: both quad buffers exist and the error queue is empty. Whatever it
      draws uses the camera program it linked, and it draws once unless the
      camera has not produced a frame yet and suppression is on. */
  lemma CreatedDrawsCamera(r: Renderer, assets: Assets.Assets, g: Gpu, depthTextureId: int, frame: ArCore.Frame)
    requires Create(r, assets, g, depthTextureId).thrown.None?
    ensures var o := Create(r, assets, g, depthTextureId);
      var d := DrawCameraFrame(o.state, o.gpu, frame);
      && d.thrown.None?
      && (forall i :: |o.gpu.trace| <= i < |d.gpu.trace| ==>
            d.gpu.trace[i].Draw? && d.gpu.trace[i].state.program == o.state.cameraProgram)
      && o.state.cameraProgram in o.gpu.programs
      && (|d.gpu.trace| == |o.gpu.trace| + 1 <==> !(frame.timestamp == 0 && r.suppressTimestampZeroRendering))
  {
    var o := Create(r, assets, g, depthTextureId);
    ReadyDrawsCamera(o.state, o.gpu, frame);
  }

  /** The step behind `CreatedDrawsCamera`: with both buffers and nothing pending,
      drawing the camera frame cannot raise. */
  lemma ReadyDrawsCamera(s: Renderer, g: Gpu, frame: ArCore.Frame)
    requires s.quadCoords.Some? && s.quadTexCoords.Some? && g.errors == []
    ensures var d := DrawCameraFrame(s, g, frame);
      && d.thrown.None?
      && (|d.gpu.trace| == |g.trace| + 1 <==> !(frame.timestamp == 0 && s.suppressTimestampZeroRendering))
  {
  }

  // ---------------------------------------------------------------------------
  // Centre crop and rotation table of Draw(imageWidth, imageHeight, screenAspectRatio, rotation)

  /** The largest centred window of the image with the screen's aspect ratio:
      full height when the screen is narrower than the image, full width otherwise. */
  function Crop(imageWidth: int, imageHeight: int, screenAspectRatio: real): (r: (real, real))
    requires imageWidth > 0 && imageHeight > 0 && screenAspectRatio > 0.0
    ensures r.0 == r.1 * screenAspectRatio
    ensures 0.0 < r.0 <= imageWidth as real && 0.0 < r.1 <= imageHeight as real
    ensures r.0 == imageWidth as real || r.1 == imageHeight as real
  {
    var w := imageWidth as real;
    var h := imageHeight as real;
    if screenAspectRatio < w / h then
      assert h * screenAspectRatio < h * (w / h) by { MulStrict(h, screenAspectRatio, w / h); }
      (h * screenAspectRatio, h)
    else
      assert w / screenAspectRatio <= h by { DivAtMost(w, h, screenAspectRatio); }
      (w, w / screenAspectRatio)
  }

  lemma MulStrict(h: real, a: real, b: real)
    requires h > 0.0 && a < b
    ensures h * a < h * b
  {
  }

  /** a >= w/h means w/a <= h. */
  lemma DivAtMost(w: real, h: real, a: real)
    requires w > 0.0 && h > 0.0 && a > 0.0 && a >= w / h
    ensures w / a <= h
  {
    assert a * h >= (w / h) * h;
  }

  /** The texture-coordinate margins left and below the crop window:
      `(size - cropped) / size * 0.5` on each axis. */
  function Margins(imageWidth: int, imageHeight: int, screenAspectRatio: real): (r: (real, real))
    requires imageWidth > 0 && imageHeight > 0 && screenAspectRatio > 0.0
  {
    var (cw, ch) := Crop(imageWidth, imageHeight, screenAspectRatio);
    ((imageWidth as real - cw) / imageWidth as real * 0.5, (imageHeight as real - ch) / imageHeight as real * 0.5)
  }

  /** The margins lie in [0, 0.5], one of them is 0, and the window between them is
      exactly the cropped size. */
  lemma MarginsBounds(imageWidth: int, imageHeight: int, screenAspectRatio: real)
    requires imageWidth > 0 && imageHeight > 0 && screenAspectRatio > 0.0
    ensures var (u, v) := Margins(imageWidth, imageHeight, screenAspectRatio);
            var (cw, ch) := Crop(imageWidth, imageHeight, screenAspectRatio);
            && 0.0 <= u <= 0.5 && 0.0 <= v <= 0.5
            && (u == 0.0 || v == 0.0)
            && (1.0 - 2.0 * u) * imageWidth as real == cw
            && (1.0 - 2.0 * v) * imageHeight as real == ch
  {
    var (cw, ch) := Crop(imageWidth, imageHeight, screenAspectRatio);
    MarginAxis(imageWidth as real, cw);
    MarginAxis(imageHeight as real, ch);
  }

  lemma MarginAxis(size: real, cropped: real)
    requires 0.0 < cropped <= size
    ensures var m := (size - cropped) / size * 0.5;
            0.0 <= m <= 0.5 && (m == 0.0 <==> cropped == size) && (1.0 - 2.0 * m) * size == cropped
  {
    var q := (size - cropped) / size;
    assert q * size == size - cropped;
    assert 0.0 <= q <= 1.0;
  }

  /** The `switch (cameraToDisplayRotation)` table: texture coordinates for the four
      quad vertices, or an exception for a rotation that is not a quarter turn. */
  function TexCoordTable(rotation: int, u: real, v: real): (r: Result<seq<real>>)
    ensures r.Ok? <==> rotation == 0 || rotation == 90 || rotation == 180 || rotation == 270
    ensures r.Ok? ==> |r.value| == 8
    ensures r.Err? ==> r.error == IllegalRotation(rotation)
  {
    match rotation
    case 90 => Ok([1.0 - u, 1.0 - v, 1.0 - u, v, u, 1.0 - v, u, v])
    case 180 => Ok([1.0 - u, v, u, v, 1.0 - u, 1.0 - v, u, 1.0 - v])
    case 270 => Ok([u, v, u, 1.0 - v, 1.0 - u, v, 1.0 - u, 1.0 - v])
    case 0 => Ok([u, 1.0 - v, 1.0 - u, 1.0 - v, u, v, 1.0 - u, v])
    case _ => Err(IllegalRotation(rotation))
  }

  /** The (s, t) pair of each of the four vertices. */
  function Pairs(t: seq<real>): (r: seq<(real, real)>)
    requires |t| == 8
    ensures |r| == 4 && forall k :: 0 <= k < 4 ==> r[k] == (t[2 * k], t[2 * k + 1])
  {
    [(t[0], t[1]), (t[2], t[3]), (t[4], t[5]), (t[6], t[7])]
  }

  /** The corners of the crop window in texture space. */
  function Corners(u: real, v: real): seq<(real, real)> {
    [(u, 1.0 - v), (1.0 - u, 1.0 - v), (u, v), (1.0 - u, v)]
  }

  /** Where a screen point of the quad samples the texture when sensor and display are
      aligned: the crop window stretched over the screen, flipped vertically
      because image rows run downwards. */
  function AlignedSample(x: real, y: real, u: real, v: real): (real, real) {
    (u + (1.0 - 2.0 * u) * (x + 1.0) / 2.0, v + (1.0 - 2.0 * v) * (1.0 - y) / 2.0)
  }

  /** For rotation 0 every quad vertex samples the point the aligned mapping gives. */
  lemma AlignedTable(u: real, v: real)
    ensures forall k :: 0 <= k < 4 ==>
      Pairs(TexCoordTable(0, u, v).value)[k] == AlignedSample(QuadCoords[2 * k], QuadCoords[2 * k + 1], u, v)
  {
    var p := Pairs(TexCoordTable(0, u, v).value);
    assert p[0] == AlignedSample(-1.0, -1.0, u, v);
    assert p[1] == AlignedSample(1.0, -1.0, u, v);
    assert p[2] == AlignedSample(-1.0, 1.0, u, v);
    assert p[3] == AlignedSample(1.0, 1.0, u, v);
  }

  /** The vertex each vertex takes its coordinates from after one more quarter turn. */
  const QuarterTurn: seq<int> := [1, 3, 0, 2]

  /** Each further quarter turn of the camera moves every vertex's sample to the
      corner its neighbour had, by the same permutation for every step. */
  lemma TableQuarterTurn(rotation: int, u: real, v: real)
    requires rotation == 0 || rotation == 90 || rotation == 180 || rotation == 270
    ensures forall k :: 0 <= k < 4 ==>
      Pairs(TexCoordTable((rotation + 90) % 360, u, v).value)[k] == Pairs(TexCoordTable(rotation, u, v).value)[QuarterTurn[k]]
  {
  }

  /** Every handled rotation samples the four corners of the crop window, each once. */
  lemma TableIsPermutationOfCorners(rotation: int, u: real, v: real)
    requires rotation == 0 || rotation == 90 || rotation == 180 || rotation == 270
    ensures multiset(Pairs(TexCoordTable(rotation, u, v).value)) == multiset(Corners(u, v))
  {
    var c := Corners(u, v);
    var p := Pairs(TexCoordTable(rotation, u, v).value);
    if rotation == 90 {
      assert p == [c[1], c[3], c[0], c[2]];
      PermuteFour(c[0], c[1], c[2], c[3]);
    } else if rotation == 180 {
      assert p == [c[3], c[2], c[1], c[0]];
      ReverseFour(c[0], c[1], c[2], c[3]);
    } else if rotation == 270 {
      assert p == [c[2], c[0], c[3], c[1]];
      PermuteFour(c[1], c[3], c[0], c[2]);
      PermuteFour(c[0], c[1], c[2], c[3]);
      PermuteFour(c[3], c[2], c[1], c[0]);
    } else {
      assert p == c;
    }
  }

  /** One quarter turn reorders four corners without losing or repeating one. */
  lemma PermuteFour<T>(a: T, b: T, c: T, d: T)
    ensures multiset([b, d, a, c]) == multiset([a, b, c, d])
  {
  }

  lemma ReverseFour<T>(a: T, b: T, c: T, d: T)
    ensures multiset([d, c, b, a]) == multiset([a, b, c, d])
  {
  }

  /** `Draw(imageWidth, imageHeight, screenAspectRatio, cameraToDisplayRotation)`:
      crop, look up the rotation, overwrite the quad's texture coordinates, draw the
      camera image. An unhandled rotation raises before anything is written. */
  function DrawCropped(r: Renderer, g: Gpu, imageWidth: int, imageHeight: int, screenAspectRatio: real, rotation: int): (o: Out<Renderer>)
    requires imageWidth > 0 && imageHeight > 0 && screenAspectRatio > 0.0
    ensures !(rotation == 0 || rotation == 90 || rotation == 180 || rotation == 270) ==>
      o == Out(r, g, Some(IllegalRotation(rotation)))
    ensures o.thrown.None? ==>
      var (u, v) := Margins(imageWidth, imageHeight, screenAspectRatio);
      o.state == r.(quadTexCoords := Some(TexCoordTable(rotation, u, v).value))
      && |o.gpu.trace| == |g.trace| + 1 && o.gpu.depthTest && o.gpu.depthMask
  {
    var (u, v) := Margins(imageWidth, imageHeight, screenAspectRatio);
    match TexCoordTable(rotation, u, v)
    case Err(e) => Out(r, g, Some(e))
    case Ok(t) =>
      if r.quadTexCoords.None? then Out(r, g, Some(NullReference))
      else DrawQuad(r.(quadTexCoords := Some(t)), g, false)
  }
}
