/** `VirtualContentType` on iOS and the controller `MakeController` builds for it.
    A C# enum variable can hold any `int`, so the factory takes the raw value. */
module VirtualContent {
  import opened Common

  datatype ContentType = Transforms | Texture | Geometry | VideoTexture | BlendShape

  /** The controllers, named after their classes. */
  datatype Controller =
    | TransformVisualization
    | TexturedFace
    | FaceOcclusionOverlay
    | VideoTexturedFace
    | BlendShapeCharacter

  /** The underlying value of each member: declaration order from 0. */
  function Ordinal(t: ContentType): (r: int)
    ensures 0 <= r < 5
  {
    match t
    case Transforms => 0
    case Texture => 1
    case Geometry => 2
    case VideoTexture => 3
    case BlendShape => 4
  }

  function FromOrdinal(v: int): (r: Option<ContentType>)
    ensures r.Some? <==> 0 <= v < 5
  {
    match v
    case 0 => Some(Transforms)
    case 1 => Some(Texture)
    case 2 => Some(Geometry)
    case 3 => Some(VideoTexture)
    case 4 => Some(BlendShape)
    case _ => None
  }

  lemma OrdinalRoundTrip(t: ContentType)
    ensures FromOrdinal(Ordinal(t)) == Some(t)
  {
  }

  lemma FromOrdinalRoundTrip(v: int)
    requires 0 <= v < 5
    ensures Ordinal(FromOrdinal(v).value) == v
  {
  }

  /** `self.MakeController()`: one controller per member; `Texture` and every value
      outside the declared members fall to `TexturedFace`. */
  function MakeController(self: int): (r: Controller)
    ensures r == TexturedFace <==> !(self in {0, 2, 3, 4})
  {
    match self
    case 0 => TransformVisualization
    case 2 => FaceOcclusionOverlay
    case 3 => VideoTexturedFace
    case 4 => BlendShapeCharacter
    case _ => TexturedFace
  }

  /** The content type each controller displays. */
  function Shows(c: Controller): ContentType {
    match c
    case TransformVisualization => Transforms
    case TexturedFace => Texture
    case FaceOcclusionOverlay => Geometry
    case VideoTexturedFace => VideoTexture
    case BlendShapeCharacter => BlendShape
  }

  /** Every declared member gets the controller that shows it, so distinct members
      get distinct controllers. */
  lemma MakeControllerShows(t: ContentType)
    ensures Shows(MakeController(Ordinal(t))) == t
  {
  }

  /** Every controller is built for exactly one declared member. */
  lemma MakeControllerOnto(c: Controller)
    ensures MakeController(Ordinal(Shows(c))) == c
  {
  }

  /** An undeclared value falls back to the textured face. */
  lemma MakeControllerFallback(self: int)
    requires FromOrdinal(self).None?
    ensures MakeController(self) == MakeController(Ordinal(Texture))
  {
  }
}
