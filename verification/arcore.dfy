/** What the renderers read from the ARCore session, as plain values. ARCore
    itself (camera access, face tracking, pose estimation) is not modelled: a
    frame and the faces it tracks are inputs. */
module ArCore {
  import opened Common
  import opened Matrix
  import TrackingStates

  datatype RegionType = NoseTip | ForeheadLeft | ForeheadRight

  /** An `AugmentedFace`: its tracking state, the pose of its centre and of each
      region as a column-major model matrix, and its mesh buffers. */
  datatype AugmentedFace = AugmentedFace(
    trackingState: TrackingStates.TrackingState,
    centerPose: Mat4,
    regionPose: RegionType -> Mat4,
    vertices: seq<real>,
    normals: seq<real>,
    textureCoords: seq<real>,
    triangleIndices: seq<int>)

  /** A `Camera`: its tracking state, view matrix, and the projection matrix it
      gives for a near and far plane. */
  datatype Camera = Camera(
    trackingState: TrackingStates.TrackingState,
    viewMatrix: Mat4,
    projection: (real, real) -> Mat4)

  /** A `Frame`: the camera timestamp, whether the display geometry changed since
      the last frame, the texture coordinates `TransformCoordinates2d` gives for
      the screen quad, the camera, and the light estimate's colour correction. */
  datatype Frame = Frame(
    timestamp: int,
    displayGeometryChanged: bool,
    transformedTexCoords: seq<real>,
    camera: Camera,
    colorCorrection: seq<real>)

  /** A running `Session`: what `Update()` returns or raises, and the faces
      `GetAllTrackables` lists, in order. */
  datatype Session = Session(update: Result<Frame>, faces: seq<AugmentedFace>)
}
