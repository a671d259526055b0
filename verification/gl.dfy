/** The GPU as the renderers see it through GLES20: an explicit state record in
    place of OpenGL's implicit global context, plus an append-only trace of the
    clear and draw calls issued. Rasterisation, texture contents and attribute
    or uniform locations are not modelled; a draw call is recorded together with
    the pipeline state it ran under and the values bound to the shader inputs. */
module Gl {
  import opened Common

  // GLES20 constants, with the numeric values of the OpenGL ES 2.0 headers.
  const NO_ERROR := 0
  const ZERO := 0
  const NONE := 0                      // GLES20.GlNone: numerically the same as ZERO
  const ONE := 1
  const ONE_MINUS_SRC_ALPHA := 0x0303
  const TRIANGLES := 0x0004
  const TRIANGLE_STRIP := 0x0005
  const VERTEX_SHADER := 0x8B31
  const FRAGMENT_SHADER := 0x8B30

  /** A code `glGetError` can report; `NO_ERROR` means the queue is empty. */
  type ErrorCode = e: int | e != NO_ERROR witness 0x0500

  /** The shader inputs a draw call can read. */
  datatype Input =
    | Position | Normal | TexCoord
    | ModelView | ModelViewProjection
    | Lighting | ColorCorrection | ObjColor | TintColor | Material
    | DepthUvTransform | DepthAspectRatio

  /** The fixed-function state a draw call ran under. */
  datatype Snapshot = Snapshot(
    program: int,
    depthTest: bool,
    depthMask: bool,
    blend: bool,
    blendSrc: int,
    blendDst: int)

  datatype Call =
    | Clear(color: bool, depth: bool)
    | Draw(mode: int, count: int, state: Snapshot, inputs: map<Input, seq<real>>)

  datatype ShaderObject = ShaderObject(kind: int, source: string)

  datatype Gpu = Gpu(
    depthTest: bool,
    depthMask: bool,
    blend: bool,
    blendSrc: int,
    blendDst: int,
    program: int,                          // glUseProgram; 0 = none
    viewport: seq<int>,
    clearColor: seq<real>,
    errors: seq<ErrorCode>,                // pending glGetError codes, oldest first
    issued: nat,                           // names 1..issued have been handed out
    shaders: map<int, ShaderObject>,
    programs: map<int, seq<int>>,          // program -> attached shaders
    textures: set<int>,
    arrayBuffers: map<int, seq<real>>,
    elementBuffers: map<int, seq<int>>,
    rejected: set<string>,                 // sources the driver's compiler refuses
    trace: seq<Call>)

  /** The state of a fresh context, as the OpenGL ES 2.0 specification fixes it,
      with the given pending errors and compiler behaviour. */
  function Initial(errors: seq<ErrorCode>, rejected: set<string>): Gpu {
    Gpu(false, true, false, ONE, ZERO, 0, [], [0.0, 0.0, 0.0, 0.0], errors, 0,
        map[], map[], {}, map[], map[], rejected, [])
  }

  function Snap(g: Gpu): Snapshot {
    Snapshot(g.program, g.depthTest, g.depthMask, g.blend, g.blendSrc, g.blendDst)
  }

  /** glGen* / glCreate*: a name never handed out before. */
  function NewName(g: Gpu): (r: (Gpu, int))
    ensures r.1 > g.issued && r.1 > 0
    ensures r.0 == g.(issued := r.1)
  {
    (g.(issued := g.issued + 1), g.issued + 1)
  }

  /** glGenTextures for one texture. */
  function GenTexture(g: Gpu): (r: (Gpu, int))
    ensures r.1 > g.issued
    ensures r.0.textures == g.textures + {r.1}
    ensures r.0.trace == g.trace && r.0.errors == g.errors && r.0.programs == g.programs
  {
    var (g1, t) := NewName(g);
    (g1.(textures := g1.textures + {t}), t)
  }

  /** glCreateProgram, then glAttachShader for both shaders and glLinkProgram. */
  function LinkProgram(g: Gpu, vertexShader: int, fragmentShader: int): (r: (Gpu, int))
    ensures r.1 > g.issued
    ensures r.0.programs == g.programs[r.1 := [vertexShader, fragmentShader]]
    ensures r.0.program == g.program && r.0.trace == g.trace && r.0.errors == g.errors
  {
    var (g1, p) := NewName(g);
    (g1.(programs := g1.programs[p := [vertexShader, fragmentShader]]), p)
  }

  /** glDrawArrays / glDrawElements: append one draw call to the trace. */
  function Emit(g: Gpu, mode: int, count: int, inputs: map<Input, seq<real>>): Gpu {
    g.(trace := g.trace + [Draw(mode, count, Snap(g), inputs)])
  }

  /** What an operation that may raise leaves behind: the object's state and the
      GPU's as they were when it returned or raised, and the exception if one was
      raised. Assignments made before a throw stay made, as in C#. */
  datatype Out<S> = Out(state: S, gpu: Gpu, thrown: Option<Error>)

  /** glGetError: pop the oldest pending code, or report NO_ERROR when none is pending. */
  function GetError(q: seq<ErrorCode>): (int, seq<ErrorCode>) {
    if |q| == 0 then (NO_ERROR, q) else (q[0], q[1..])
  }
}
