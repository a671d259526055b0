/** `ObjectRenderer`: draws a textured OBJ model lit by one directional light,
    optionally blended (Shadow or AlphaBlending) and optionally occluded by the
    depth image. */
module ObjectRenderer {
  import opened Common
  import opened Gl
  import opened Matrix
  import opened CSharp
  import Assets
  import ShaderHelper
  import Blending
  import DisplayRotation

  const VERTEX_SHADER_NAME := "shaders/ar_object.vert"
  const FRAGMENT_SHADER_NAME := "shaders/ar_object.frag"
  const USE_DEPTH_FOR_OCCLUSION_SHADER_FLAG := "USE_DEPTH_FOR_OCCLUSION"

  /** Bytes per float in the vertex buffer. */
  const FLOAT_SIZE := 4

  /** The light, as a direction (w = 0) in model space. */
  const LightDirection: seq<real> := [0.250, 0.866, 0.433, 0.0]

  /** The object colour the three-argument `Draw` passes. */
  const DefaultColor: seq<real> := [0.0, 0.0, 0.0, 0.0]

  /** The renderer's fields. Buffer offsets are byte offsets into the vertex buffer;
      `uvTransform` is `None` while it is null. */
  datatype Renderer = Renderer(
    program: int,
    texture: int,
    vertexBuffer: int,
    indexBuffer: int,
    verticesBase: int,
    texCoordsBase: int,
    normalsBase: int,
    indexCount: int,
    blendMode: Option<Blending.BlendMode>,
    modelMatrix: Mat4,
    ambient: real,
    diffuse: real,
    specular: real,
    specularPower: real,
    useDepthForOcclusion: bool,
    depthAspectRatio: DisplayRotation.Ratio,
    uvTransform: Option<seq<real>>,
    depthTextureId: int)

  /** A new renderer: no blending, the default material, occlusion off, and an
      all-zero model matrix until `CreateOnGlThread` sets the identity. */
  const Fresh := Renderer(0, 0, 0, 0, 0, 0, 0, 0, None, Zero,
                          0.3, 1.0, 1.0, 6.0, false, DisplayRotation.Finite(0.0), None, 0)

  /** The define block `CompileAndLoadShaderProgram` hands to the fragment shader. */
  function OcclusionDefines(useDepthForOcclusion: bool): seq<(string, int)> {
    [(USE_DEPTH_FOR_OCCLUSION_SHADER_FLAG, if useDepthForOcclusion then 1 else 0)]
  }

  /** `CompileAndLoadShaderProgram(context)`: the fragment shader is compiled with
      the occlusion flag defined to the current setting. */
  function CompileAndLoad(r: Renderer, assets: Assets.Assets, g: Gpu): (o: Out<Renderer>)
    ensures o.gpu.trace == g.trace
    ensures o.state == r.(program := o.state.program)
    ensures o.thrown.None? ==>
      && o.state.program in o.gpu.programs && o.gpu.program == o.state.program
      && |o.gpu.programs[o.state.program]| == 2
      && o.gpu.programs[o.state.program][1] in o.gpu.shaders
      && var source := o.gpu.shaders[o.gpu.programs[o.state.program][1]].source;
         ShaderHelper.DefinesPrefix(OcclusionDefines(r.useDepthForOcclusion)) <= source
  {
    var p := ShaderHelper.BuildProgram(assets, g, VERTEX_SHADER_NAME, FRAGMENT_SHADER_NAME,
                                       OcclusionDefines(r.useDepthForOcclusion), r.program);
    Out(r.(program := p.state), p.gpu, p.thrown)
  }

  /** The fragment shader sees `#define USE_DEPTH_FOR_OCCLUSION 1` exactly when
      occlusion is on, and `... 0` otherwise. */
  lemma OcclusionDefineLine(useDepthForOcclusion: bool)
    ensures ShaderHelper.DefinesPrefix(OcclusionDefines(useDepthForOcclusion))
         == "#define" + [' '] + USE_DEPTH_FOR_OCCLUSION_SHADER_FLAG + [' '] + [if useDepthForOcclusion then '1' else '0'] + ['\n']
  {
    var e := OcclusionDefines(useDepthForOcclusion)[0];
    assert OcclusionDefines(useDepthForOcclusion)[1..] == [];
    assert ShaderHelper.IntToString(e.1) == [if useDepthForOcclusion then '1' else '0'];
  }

  /** What the element buffer holds for an index: the `(short)` cast. */
  function Narrow(wide: seq<int>): (r: seq<int>)
    ensures |r| == |wide|
    ensures forall i :: 0 <= i < |r| ==> -0x8000 <= r[i] < 0x8000 && (r[i] - wide[i]) % 0x10000 == 0
  {
    seq(|wide|, i requires 0 <= i < |wide| => ToShort(wide[i]))
  }

  /** GL reads the element buffer as unsigned shorts: every index below 65536
      survives the cast, in order. */
  lemma NarrowKeepsSmallIndices(wide: seq<int>)
    requires forall i :: 0 <= i < |wide| ==> 0 <= wide[i] < 0x10000
    ensures forall i :: 0 <= i < |wide| ==> UnsignedShort(Narrow(wide)[i]) == wide[i]
  {
    forall i | 0 <= i < |wide| ensures UnsignedShort(Narrow(wide)[i]) == wide[i] {
      var n := Narrow(wide)[i];
      assert (n - wide[i]) % 0x10000 == 0;
      CongruentInRange(n, wide[i]);
    }
  }

  lemma CongruentInRange(n: int, w: int)
    requires -0x8000 <= n < 0x8000 && 0 <= w < 0x10000 && (n - w) % 0x10000 == 0
    ensures UnsignedShort(n) == w
  {
    var q := (n - w) / 0x10000;
    assert n - w == 0x10000 * q;
    assert -1 <= q <= 0;
  }

  /** How GL_UNSIGNED_SHORT reads the bits of a short. */
  function UnsignedShort(s: int): int {
    if s < 0 then s + 0x10000 else s
  }

  /** The `while (wideIndices.HasRemaining)` loop copying each index through the cast. */
  method NarrowIndices(wide: seq<int>) returns (indices: seq<int>)
    ensures indices == Narrow(wide)
    ensures forall i :: 0 <= i < |wide| && 0 <= wide[i] < 0x8000 ==> indices[i] == wide[i]
  {
    indices := [];
    var i := 0;
    while i < |wide|
      invariant 0 <= i <= |wide|
      invariant indices == Narrow(wide)[..i]
    {
      indices := indices + [ToShort(wide[i])];
      i := i + 1;
    }
    assert Narrow(wide)[..|wide|] == Narrow(wide);
  }

  /** Where an attribute of the vertex buffer starts: 4 bytes per float. */
  function Offset(floats: int): int {
    FLOAT_SIZE * floats
  }

  /** `CreateOnGlThread(context, objAssetName, diffuseTextureAssetName)`: the program,
      then the texture, then the vertex buffer (positions, texture coordinates and
      normals back to back) and the index buffer. Each step raises before the next;
      the identity model matrix is set last. */
  function Create(r: Renderer, assets: Assets.Assets, g: Gpu, objAssetName: string, textureAssetName: string): (o: Out<Renderer>)
    ensures o.gpu.trace == g.trace
    ensures o.thrown.None? ==>
      && objAssetName in assets.meshes && textureAssetName in assets.images
      && var mesh := assets.meshes[objAssetName];
      && o.state.texture in o.gpu.textures
      && o.state.vertexBuffer in o.gpu.arrayBuffers
      && o.gpu.arrayBuffers[o.state.vertexBuffer] == mesh.vertices + mesh.texCoords + mesh.normals
      && o.state.indexBuffer in o.gpu.elementBuffers
      && o.gpu.elementBuffers[o.state.indexBuffer] == Narrow(mesh.indices)
      && o.state.indexCount == |mesh.indices|
      && o.state.verticesBase == 0
      && o.state.texCoordsBase == Offset(|mesh.vertices|)
      && o.state.normalsBase == Offset(|mesh.vertices| + |mesh.texCoords|)
      && o.state.modelMatrix == Identity
      && o.gpu.errors == []
    ensures textureAssetName !in assets.images ==> o.thrown.Some?
    ensures objAssetName !in assets.meshes ==> o.thrown.Some?
  {
    var o1 := CompileAndLoad(r, assets, g);
    if o1.thrown.Some? then o1
    else if textureAssetName !in assets.images then Out(o1.state, o1.gpu, Some(AssetNotFound(textureAssetName)))
    else
      var (g2, texture) := GenTexture(o1.gpu);
      var r2 := o1.state.(texture := texture);
      var (g3, e3) := ShaderHelper.CheckGlError(g2, "Texture loading");
      if e3.Some? then Out(r2, g3, e3)
      else if objAssetName !in assets.meshes then Out(r2, g3, Some(AssetNotFound(objAssetName)))
      else
        var mesh := assets.meshes[objAssetName];
        var indices := Narrow(mesh.indices);
        var (g4, vertexBuffer) := NewName(g3);
        var (g5, indexBuffer) := NewName(g4);
        var g6 := g5.(arrayBuffers := g5.arrayBuffers[vertexBuffer := mesh.vertices + mesh.texCoords + mesh.normals],
                      elementBuffers := g5.elementBuffers[indexBuffer := indices]);
        var r3 := r2.(vertexBuffer := vertexBuffer, indexBuffer := indexBuffer,
                      verticesBase := 0, texCoordsBase := Offset(|mesh.vertices|),
                      normalsBase := Offset(|mesh.vertices|) + Offset(|mesh.texCoords|),
                      indexCount := |indices|);
        var (g7, e7) := ShaderHelper.CheckGlError(g6, "OBJ buffer load");
        if e7.Some? then Out(r3, g7, e7)
        else Out(r3.(modelMatrix := Identity), g7, None)
  }

  /** `SetBlendMode(blendMode)`. The field is nullable (`None` until a mode is set,
      meaning opaque rendering) but the parameter is the non-nullable enum, so a
      call always leaves a mode. */
  function SetBlendMode(r: Renderer, mode: Blending.BlendMode): (r': Renderer)
    ensures r'.blendMode == Some(mode)
    ensures r'.(blendMode := r.blendMode) == r
  {
    r.(blendMode := Some(mode))
  }

  /** Once an object blends it blends for good: no operation clears the mode. */
  lemma BlendModeStaysSet(r: Renderer, mode: Blending.BlendMode, assets: Assets.Assets, g: Gpu, flag: bool,
                          objAssetName: string, textureAssetName: string, pose: Mat4, scaleFactor: real,
                          transform: Option<seq<real>>, textureId: int, width: int, height: int)
    requires r.blendMode.Some?
    ensures SetBlendMode(r, mode).blendMode.Some?
    ensures Create(r, assets, g, objAssetName, textureAssetName).state.blendMode == r.blendMode
    ensures SetUseDepthForOcclusion(r, assets, g, flag).state.blendMode == r.blendMode
    ensures UpdateModelMatrix(r, pose, scaleFactor).blendMode == r.blendMode
    ensures SetUvTransformMatrix(r, transform).blendMode == r.blendMode
    ensures SetDepthTexture(r, textureId, width, height).blendMode == r.blendMode
  {
  }

  /** `SetUseDepthForOcclusion(context, flag)`: nothing when the flag is unchanged;
      otherwise store it and recompile, so the program always matches the flag. */
  function SetUseDepthForOcclusion(r: Renderer, assets: Assets.Assets, g: Gpu, flag: bool): (o: Out<Renderer>)
    ensures o.state.useDepthForOcclusion == flag
    ensures r.useDepthForOcclusion == flag ==> o == Out(r, g, None)
    ensures r.useDepthForOcclusion != flag && o.thrown.None? ==>
      && o.gpu.program == o.state.program && o.state.program in o.gpu.programs
      && |o.gpu.programs[o.state.program]| == 2
      && o.gpu.programs[o.state.program][1] in o.gpu.shaders
      && ShaderHelper.DefinesPrefix(OcclusionDefines(flag)) <= o.gpu.shaders[o.gpu.programs[o.state.program][1]].source
  {
    if r.useDepthForOcclusion == flag then Out(r, g, None)
    else CompileAndLoad(r.(useDepthForOcclusion := flag), assets, g)
  }

  /** Setting the flag a second time does nothing, however the first call ended. */
  lemma SetUseDepthIdempotent(r: Renderer, assets: Assets.Assets, g: Gpu, flag: bool)
    ensures var o := SetUseDepthForOcclusion(r, assets, g, flag);
            SetUseDepthForOcclusion(o.state, assets, o.gpu, flag) == Out(o.state, o.gpu, None)
  {
  }

  /** `UpdateModelMatrix(modelMatrix, scaleFactor)`: the pose, scaled about the
      model's own origin before it is placed. */
  function UpdateModelMatrix(r: Renderer, pose: Mat4, scaleFactor: real): (r': Renderer)
    ensures r'.(modelMatrix := r.modelMatrix) == r
    ensures forall k :: 0 <= k < 12 ==> r'.modelMatrix[k] == pose[k] * scaleFactor
    ensures forall k :: 12 <= k < 16 ==> r'.modelMatrix[k] == pose[k]
    ensures scaleFactor == 1.0 ==> r'.modelMatrix == pose
  {
    ScaleColumns(pose, scaleFactor);
    r.(modelMatrix := Multiply(pose, Scale(scaleFactor)))
  }

  /** `SetMaterialProperties(ambient, diffuse, specular, specularPower)`. */
  function SetMaterialProperties(r: Renderer, ambient: real, diffuse: real, specular: real, specularPower: real): (r': Renderer)
    ensures r'.ambient == ambient && r'.diffuse == diffuse && r'.specular == specular && r'.specularPower == specularPower
    ensures r'.(ambient := r.ambient, diffuse := r.diffuse, specular := r.specular, specularPower := r.specularPower) == r
  {
    r.(ambient := ambient, diffuse := diffuse, specular := specular, specularPower := specularPower)
  }

  /** `SetUvTransformMatrix(transform)`; `None` is null. */
  function SetUvTransformMatrix(r: Renderer, transform: Option<seq<real>>): (r': Renderer)
    ensures r'.uvTransform == transform && r'.(uvTransform := r.uvTransform) == r
  {
    r.(uvTransform := transform)
  }

  /** `SetDepthTexture(textureId, width, height)`: the aspect ratio is a float
      division, infinite or NaN for height 0. */
  function SetDepthTexture(r: Renderer, textureId: int, width: int, height: int): (r': Renderer)
    ensures r'.depthTextureId == textureId
    ensures r'.depthAspectRatio.Finite? <==> height != 0
    ensures r'.depthAspectRatio.Finite? ==> r'.depthAspectRatio.value * height as real == width as real
    ensures r'.(depthTextureId := r.depthTextureId, depthAspectRatio := r.depthAspectRatio) == r
  {
    r.(depthTextureId := textureId, depthAspectRatio := DisplayRotation.Divide(width, height))
  }

  /** The light in view space, as `u_LightingParameters` receives it. */
  function ViewLight(modelView: Mat4): (r: seq<real>)
    ensures |r| == 4 && r[3] == 1.0
  {
    LightingParameters(modelView, LightDirection)
  }

  /** Moving the model leaves the light it is lit by unchanged. */
  lemma LightIgnoresPosition(view: Mat4, model: Mat4, model': Mat4)
    requires model[..12] == model'[..12]
    ensures ViewLight(Multiply(view, model)) == ViewLight(Multiply(view, model'))
  {
    LightFollowsOrientation(view, model, model', LightDirection);
  }

  /** The vertex attributes the draw reads from the vertex buffer at the recorded
      offsets; nothing when the buffer or the offsets do not fit. */
  function Attributes(r: Renderer, g: Gpu): map<Input, seq<real>> {
    if r.vertexBuffer in g.arrayBuffers
       && 0 == r.verticesBase <= r.texCoordsBase <= r.normalsBase <= Offset(|g.arrayBuffers[r.vertexBuffer]|)
       && r.texCoordsBase % FLOAT_SIZE == 0 && r.normalsBase % FLOAT_SIZE == 0
    then
      var data := g.arrayBuffers[r.vertexBuffer];
      map[Position := data[..r.texCoordsBase / FLOAT_SIZE],
          TexCoord := data[r.texCoordsBase / FLOAT_SIZE..r.normalsBase / FLOAT_SIZE],
          Normal := data[r.normalsBase / FLOAT_SIZE..]]
    else map[]
  }

  /** After a successful `CreateOnGlThread` every draw reads the model's positions,
      texture coordinates and normals, each from its own slice of the buffer. */
  lemma CreatedMeshIsDrawn(r: Renderer, assets: Assets.Assets, g: Gpu, objAssetName: string, textureAssetName: string)
    requires Create(r, assets, g, objAssetName, textureAssetName).thrown.None?
    ensures var o := Create(r, assets, g, objAssetName, textureAssetName);
            var mesh := assets.meshes[objAssetName];
            Attributes(o.state, o.gpu) == map[Position := mesh.vertices, TexCoord := mesh.texCoords, Normal := mesh.normals]
  {
    var o := Create(r, assets, g, objAssetName, textureAssetName);
    var mesh := assets.meshes[objAssetName];
    var data := mesh.vertices + mesh.texCoords + mesh.normals;
    var v, t := |mesh.vertices|, |mesh.texCoords|;
    assert o.state.texCoordsBase / FLOAT_SIZE == v;
    assert o.state.normalsBase / FLOAT_SIZE == v + t;
    assert data[..v] == mesh.vertices;
    assert data[v..v + t] == mesh.texCoords;
    assert data[v + t..] == mesh.normals;
  }

  /** The uniforms of the draw call. Occlusion reads nine floats of the uv transform
      and the aspect ratio; a non-finite ratio is recorded as no value. */
  function Uniforms(r: Renderer, modelView: Mat4, modelViewProjection: Mat4, colorCorrection: seq<real>, objColor: seq<real>): map<Input, seq<real>>
    requires |colorCorrection| >= 4 && |objColor| >= 4
    requires r.useDepthForOcclusion ==> r.uvTransform.Some? && |r.uvTransform.value| >= 9
  {
    var common := map[
      ModelView := modelView,
      ModelViewProjection := modelViewProjection,
      Lighting := ViewLight(modelView),
      ColorCorrection := colorCorrection[..4],
      ObjColor := objColor[..4],
      Material := [r.ambient, r.diffuse, r.specular, r.specularPower]];
    if r.useDepthForOcclusion then
      common[DepthUvTransform := r.uvTransform.value[..9]]
            [DepthAspectRatio := if r.depthAspectRatio.Finite? then [r.depthAspectRatio.value] else []]
    else common
  }

  /** The blend state a mode sets before the draw; `None` leaves the state alone. */
  function BlendState(g: Gpu, mode: Option<Blending.BlendMode>): (g': Gpu)
    ensures mode.None? ==> g' == g
    ensures mode.Some? ==>
      && g'.blend
      && (g'.blendSrc, g'.blendDst) == Blending.Factors(mode.value)
      && g'.depthMask == Blending.WritesDepth(mode.value)
      && g'.(blend := g.blend, blendSrc := g.blendSrc, blendDst := g.blendDst, depthMask := g.depthMask) == g
  {
    match mode
    case None => g
    case Some(m) =>
      var (src, dst) := Blending.Factors(m);
      g.(blend := true, depthMask := Blending.WritesDepth(m), blendSrc := src, blendDst := dst)
  }

  /** Everything the draw call reads: the vertex attributes and the uniforms. */
  function DrawInputs(r: Renderer, g: Gpu, modelView: Mat4, modelViewProjection: Mat4, colorCorrection: seq<real>, objColor: seq<real>): (m: map<Input, seq<real>>)
    requires |colorCorrection| >= 4 && |objColor| >= 4
    requires r.useDepthForOcclusion ==> r.uvTransform.Some? && |r.uvTransform.value| >= 9
    ensures ModelView in m && m[ModelView] == modelView
    ensures ModelViewProjection in m && m[ModelViewProjection] == modelViewProjection
    ensures Lighting in m && m[Lighting] == ViewLight(modelView)
    ensures ColorCorrection in m && m[ColorCorrection] == colorCorrection[..4]
    ensures ObjColor in m && m[ObjColor] == objColor[..4]
    ensures Material in m && m[Material] == [r.ambient, r.diffuse, r.specular, r.specularPower]
    ensures DepthUvTransform in m <==> r.useDepthForOcclusion
    ensures forall k :: k in Attributes(r, g) ==> k in m && m[k] == Attributes(r, g)[k]
  {
    Attributes(r, g) + Uniforms(r, modelView, modelViewProjection, colorCorrection, objColor)
  }

  /** The part of `Draw` from the blend switch to the restore: one indexed triangle
      draw under the mode's blend state; a set mode is switched off again
      afterwards and depth writes come back on. */
  function Render(r: Renderer, g: Gpu, inputs: map<Input, seq<real>>): (g': Gpu)
    ensures g'.trace == g.trace + [Gl.Draw(TRIANGLES, r.indexCount, Snap(BlendState(g, r.blendMode)), inputs)]
    ensures g'.program == g.program && g'.errors == g.errors
    ensures r.blendMode.Some? ==> !g'.blend && g'.depthMask
    ensures r.blendMode.None? ==> g'.blend == g.blend && g'.depthMask == g.depthMask
  {
    var g1 := Emit(BlendState(g, r.blendMode), TRIANGLES, r.indexCount, inputs);
    if r.blendMode.Some? then g1.(blend := false, depthMask := true) else g1
  }

  /** The body of `Draw` once the arguments are checked: bind the matrices, the
      light, the colours and the material, and issue the one triangle draw. */
  function Submit(r: Renderer, g: Gpu, view: Mat4, projection: Mat4, colorCorrection: seq<real>, objColor: seq<real>): (g': Gpu)
    requires |colorCorrection| >= 4 && |objColor| >= 4
    requires r.useDepthForOcclusion ==> r.uvTransform.Some? && |r.uvTransform.value| >= 9
    ensures |g'.trace| == |g.trace| + 1 && g'.trace[..|g.trace|] == g.trace
    ensures g'.errors == g.errors
    ensures var call := g'.trace[|g.trace|];
      call.Draw? && call.mode == TRIANGLES && call.count == r.indexCount && call.state.program == g.program
    ensures var call := g'.trace[|g.trace|];
      var modelView := Multiply(view, r.modelMatrix);
      call.Draw? && ModelView in call.inputs && call.inputs[ModelView] == modelView
      && ModelViewProjection in call.inputs && call.inputs[ModelViewProjection] == Multiply(projection, modelView)
    ensures var call := g'.trace[|g.trace|];
      call.Draw? && Lighting in call.inputs && call.inputs[Lighting] == ViewLight(Multiply(view, r.modelMatrix))
    ensures var call := g'.trace[|g.trace|];
      call.Draw? && ObjColor in call.inputs && call.inputs[ObjColor] == objColor[..4]
    ensures r.blendMode.Some? ==>
      var call := g'.trace[|g.trace|];
      call.Draw? && call.state.blend && (call.state.blendSrc, call.state.blendDst) == Blending.Factors(r.blendMode.value)
      && call.state.depthMask == Blending.WritesDepth(r.blendMode.value)
      && !g'.blend && g'.depthMask
    ensures r.blendMode.None? ==>
      var call := g'.trace[|g.trace|];
      call.Draw? && call.state.blend == g.blend && call.state.depthMask == g.depthMask
      && g'.blend == g.blend && g'.depthMask == g.depthMask
  {
    var modelView := Multiply(view, r.modelMatrix);
    Render(r, g, DrawInputs(r, g, modelView, Multiply(projection, modelView), colorCorrection, objColor))
  }

  /** `Draw(cameraView, cameraPerspective, colorCorrectionRgba, objColor)`: check the
      error queue, build the matrices, bind the uniforms, draw, check again. */
  function Draw(r: Renderer, g: Gpu, view: Mat4, projection: Mat4, colorCorrection: seq<real>, objColor: seq<real>): (o: Out<Renderer>)
    ensures o.state == r
    ensures g.trace <= o.gpu.trace
    ensures |g.errors| > 0 ==> o == Out(r, g.(errors := []), Some(GlFailure("Before draw", Last(g.errors))))
    ensures |colorCorrection| < 4 || |objColor| < 4 ==> o.thrown.Some? && o.gpu.trace == g.trace
    ensures r.useDepthForOcclusion && r.uvTransform.None? ==> o.thrown.Some? && o.gpu.trace == g.trace
    ensures |g.errors| == 0 && |colorCorrection| >= 4 && |objColor| >= 4 && r.useDepthForOcclusion && r.uvTransform.None? ==>
      o.thrown == Some(IllegalArgument) && o.gpu.trace == g.trace
    ensures o.thrown.None? ==> |o.gpu.trace| == |g.trace| + 1 && o.gpu.trace[..|g.trace|] == g.trace
    ensures o.thrown.None? ==>
      var call := o.gpu.trace[|g.trace|];
      call.Draw? && call.mode == TRIANGLES && call.count == r.indexCount && call.state.program == r.program
    ensures o.thrown.None? ==>
      var call := o.gpu.trace[|g.trace|];
      var modelView := Multiply(view, r.modelMatrix);
      call.Draw? && ModelView in call.inputs && call.inputs[ModelView] == modelView
      && ModelViewProjection in call.inputs && call.inputs[ModelViewProjection] == Multiply(projection, modelView)
    ensures o.thrown.None? ==>
      var call := o.gpu.trace[|g.trace|];
      call.Draw? && Lighting in call.inputs && call.inputs[Lighting] == ViewLight(Multiply(view, r.modelMatrix))
    ensures o.thrown.None? ==>
      var call := o.gpu.trace[|g.trace|];
      call.Draw? && ObjColor in call.inputs && call.inputs[ObjColor] == objColor[..4]
    ensures o.thrown.None? && r.blendMode.Some? ==>
      var call := o.gpu.trace[|g.trace|];
      call.Draw? && call.state.blend && (call.state.blendSrc, call.state.blendDst) == Blending.Factors(r.blendMode.value)
      && call.state.depthMask == Blending.WritesDepth(r.blendMode.value)
      && !o.gpu.blend && o.gpu.depthMask
    ensures o.thrown.None? && r.blendMode.None? ==>
      var call := o.gpu.trace[|g.trace|];
      call.Draw? && call.state.blend == g.blend && call.state.depthMask == g.depthMask
      && o.gpu.blend == g.blend && o.gpu.depthMask == g.depthMask
  {
    var (g1, e1) := ShaderHelper.CheckGlError(g, "Before draw");
    if e1.Some? then Out(r, g1, e1)
    else
      var g2 := g1.(program := r.program);
      if |colorCorrection| < 4 || |objColor| < 4 then Out(r, g2, Some(IllegalArgument))
      else if r.useDepthForOcclusion && (r.uvTransform.None? || |r.uvTransform.value| < 9) then Out(r, g2, Some(IllegalArgument))
      else
        var g3 := Submit(r, g2, view, projection, colorCorrection, objColor);
        var (g4, e4) := ShaderHelper.CheckGlError(g3, "After draw");
        Out(r, g4, e4)
  }

  /** `Draw(cameraView, cameraPerspective, colorCorrectionRgba)`: the default colour. */
  function DrawDefault(r: Renderer, g: Gpu, view: Mat4, projection: Mat4, colorCorrection: seq<real>): (o: Out<Renderer>)
    ensures o.thrown.None? ==>
      |o.gpu.trace| > |g.trace| &&
      var call := o.gpu.trace[|g.trace|];
      call.Draw? && ObjColor in call.inputs && call.inputs[ObjColor] == DefaultColor
  {
    Draw(r, g, view, projection, colorCorrection, DefaultColor)
  }
}
