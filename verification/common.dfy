/** Values shared by every part of the model: optional values, results, and the
    exceptions the modelled code raises. A C# exception is a value here; the
    operations that can raise one return it next to the state they leave behind. */
module Common {

  datatype Option<+T> = None | Some(value: T)

  /** The exceptions raised by the modelled code, one variant per distinct cause. */
  datatype Error =
    | AssetNotFound(name: string)          // Java.IO.FileNotFoundException from the asset manager (an IOException)
    | ShaderCreation                       // RuntimeException "Error creating shader."
    | GlFailure(site: string, code: int)   // RuntimeException site + ": glError " + code
    | UnhandledRotation(rotation: int)     // NotImplementedException for a rotation or angle
    | IllegalRotation(rotation: int)       // IllegalArgumentException for a rotation
    | CameraUnavailable                    // NotImplementedException wrapping a CameraAccessException
    | UnexpectedVertexCount                // RuntimeException "Unexpected number of vertices ..."
    | NullReference                        // a member called on null (C# NullReferenceException, Java NullPointerException)
    | StackOverflow                        // unbounded #include recursion; cannot be caught in .NET
    | SessionFailure                       // any exception raised by the AR session collaborator
    | ArgumentOutOfRange                   // String.Split with a negative count
    | IllegalArgument                      // a GL binding handed a null array or one shorter than it reads
    | WrongElementType                     // ArgumentException: the element must be an ARFaceView

  /** The only errors `catch (IOException)` intercepts. */
  predicate IsIOException(e: Error) {
    e.AssetNotFound?
  }

  datatype Result<+T> = Ok(value: T) | Err(error: Error)

  /** Last element of a non-empty sequence. */
  function Last<T>(s: seq<T>): T
    requires |s| > 0
  {
    s[|s| - 1]
  }
}
