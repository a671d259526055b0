/** `AugmentedFaceRenderer`: draws ARCore's face mesh with a texture, blended with
    premultiplied alpha and without writing depth. */
module FaceRenderer {
  import opened Common
  import opened Gl
  import opened Matrix
  import Assets
  import ArCore
  import ShaderHelper
  import Blending

  const VERTEX_SHADER_NAME := "shaders/object.vert"
  const FRAGMENT_SHADER_NAME := "shaders/object.frag"

  /** The light, straight up in model space (a direction: w = 0). */
  const LightDirection: seq<real> := [0.0, 1.0, 0.0, 0.0]

  /** The tint the draw always passes: none. */
  const NoTint: seq<real> := [0.0, 0.0, 0.0, 0.0]

  datatype Renderer = Renderer(
    program: int,
    texture: int,
    ambient: real,
    diffuse: real,
    specular: real,
    specularPower: real)

  /** A new renderer with the default material. */
  const Fresh := Renderer(0, 0, 0.3, 1.0, 1.0, 6.0)

  /** `CreateOnGlThread(context, diffuseTextureAssetName)`: compile and link the
      program (without making it current and without checking the error queue),
      generate the texture, then load it, which raises when the asset is missing. */
  function Create(r: Renderer, assets: Assets.Assets, g: Gpu, textureAssetName: string): (o: Out<Renderer>)
    ensures o.gpu.trace == g.trace && o.gpu.errors == g.errors && o.gpu.program == g.program
    ensures textureAssetName !in assets.images ==> o.thrown.Some?
    ensures o.thrown.None? ==>
      && o.state.program > g.issued && o.state.program in o.gpu.programs
      && o.state.texture > o.state.program && o.state.texture in o.gpu.textures
      && o.state.(program := r.program, texture := r.texture) == r
    ensures o.thrown.Some? && o.state.program != r.program ==> o.thrown == Some(AssetNotFound(textureAssetName))
  {
    match ShaderHelper.CompileProgram(assets, g, VERTEX_SHADER_NAME, FRAGMENT_SHADER_NAME, [])
    case (g1, Err(e)) => Out(r, g1, Some(e))
    case (g1, Ok(program)) =>
      var (g2, texture) := GenTexture(g1);
      var r2 := r.(program := program, texture := texture);
      if textureAssetName !in assets.images then Out(r2, g2, Some(AssetNotFound(textureAssetName)))
      else Out(r2, g2, None)
  }

  /** `SetMaterialProperties(ambient, diffuse, specular, specularPower)`. */
  function SetMaterialProperties(r: Renderer, ambient: real, diffuse: real, specular: real, specularPower: real): (r': Renderer)
    ensures r'.ambient == ambient && r'.diffuse == diffuse && r'.specular == specular && r'.specularPower == specularPower
    ensures r'.(ambient := r.ambient, diffuse := r.diffuse, specular := r.specular, specularPower := r.specularPower) == r
  {
    r.(ambient := ambient, diffuse := diffuse, specular := specular, specularPower := specularPower)
  }

  /** `Draw(projmtx, viewmtx, modelmtx, colorCorrectionRgba, face)`: one indexed
      triangle draw of the face mesh with depth writes off and blending on with the
      premultiplied factors. Afterwards no program is current and depth writes are
      back on, but blending stays enabled. */
  function Draw(r: Renderer, g: Gpu, projection: Mat4, view: Mat4, model: Mat4, colorCorrection: seq<real>, face: ArCore.AugmentedFace): (o: Out<Renderer>)
    ensures o.state == r
    ensures g.trace <= o.gpu.trace
    ensures |colorCorrection| < 4 <==> o.thrown.Some?
    ensures o.thrown.None? ==>
      && |o.gpu.trace| == |g.trace| + 1 && o.gpu.trace[..|g.trace|] == g.trace
      && var call := o.gpu.trace[|g.trace|];
      && call.Draw? && call.mode == TRIANGLES && call.count == |face.triangleIndices|
      && call.state == Snapshot(r.program, g.depthTest, false, true, ONE, ONE_MINUS_SRC_ALPHA)
      && (Position in call.inputs && call.inputs[Position] == face.vertices)
      && (Normal in call.inputs && call.inputs[Normal] == face.normals)
      && (TexCoord in call.inputs && call.inputs[TexCoord] == face.textureCoords)
      && (ModelView in call.inputs && call.inputs[ModelView] == Multiply(view, model))
      && (ModelViewProjection in call.inputs && call.inputs[ModelViewProjection] == Multiply(Multiply(projection, view), model))
      && (TintColor in call.inputs && call.inputs[TintColor] == NoTint)
      && o.gpu.program == 0 && o.gpu.depthMask
      && o.gpu.blend && (o.gpu.blendSrc, o.gpu.blendDst) == Blending.PremultipliedFactors
  {
    var g1 := g.(program := r.program, depthMask := false);
    var modelViewProjection := Multiply(Multiply(projection, view), model);
    var modelView := Multiply(view, model);
    if |colorCorrection| < 4 then Out(r, g1, Some(IllegalArgument))
    else
      var inputs := map[
        Position := face.vertices,
        Normal := face.normals,
        TexCoord := face.textureCoords,
        ModelView := modelView,
        ModelViewProjection := modelViewProjection,
        Lighting := LightingParameters(modelView, LightDirection),
        ColorCorrection := colorCorrection[..4],
        Material := [r.ambient, r.diffuse, r.specular, r.specularPower],
        TintColor := NoTint];
      var g2 := g1.(blend := true, blendSrc := ONE, blendDst := ONE_MINUS_SRC_ALPHA);
      var g3 := Emit(g2, TRIANGLES, |face.triangleIndices|, inputs);
      Out(r, g3.(program := 0, depthMask := true), None)
  }

  /** A renderer that was created without raising draws the face mesh with the
      program it linked, which the GPU still holds, and with the material it had
      before creation; only a colour correction shorter than four values raises. */
  lemma CreatedDrawsFace(r: Renderer, assets: Assets.Assets, g: Gpu, textureAssetName: string,
                         projection: Mat4, view: Mat4, model: Mat4, colorCorrection: seq<real>, face: ArCore.AugmentedFace)
    requires Create(r, assets, g, textureAssetName).thrown.None?
    ensures var o := Create(r, assets, g, textureAssetName);
      var d := Draw(o.state, o.gpu, projection, view, model, colorCorrection, face);
      && (d.thrown.None? <==> |colorCorrection| >= 4)
      && (d.thrown.None? ==>
            && |d.gpu.trace| == |g.trace| + 1
            && d.gpu.trace[|g.trace|].Draw?
            && d.gpu.trace[|g.trace|].state.program == o.state.program
            && o.state.program in d.gpu.programs && o.state.program > g.issued
            && Material in d.gpu.trace[|g.trace|].inputs
            && d.gpu.trace[|g.trace|].inputs[Material] == [r.ambient, r.diffuse, r.specular, r.specularPower])
  {
  }

  /** The face mesh is lit the same wherever the face is: only its orientation counts. */
  lemma FaceLightIgnoresPosition(view: Mat4, model: Mat4, model': Mat4)
    requires model[..12] == model'[..12]
    ensures LightingParameters(Multiply(view, model), LightDirection) == LightingParameters(Multiply(view, model'), LightDirection)
  {
    LightFollowsOrientation(view, model, model', LightDirection);
  }
}
