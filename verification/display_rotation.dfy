/** `DisplayRotationHelper`: remembers the viewport, forwards the display geometry
    to the AR session once after each change, and relates the camera sensor's
    orientation to the display's. The display and camera services are inputs:
    the display rotation arrives as the ordinal of `SurfaceOrientation`
    (Rotation0 .. Rotation270 are 0 .. 3) and the sensor orientation in degrees. */
module DisplayRotation {
  import opened Common
  import opened CSharp

  datatype Helper = Helper(viewportChanged: bool, viewportWidth: int, viewportHeight: int)

  /** A fresh helper: the fields keep their C# defaults. */
  const Fresh := Helper(false, 0, 0)

  /** The arguments of `session.SetDisplayGeometry(rotation, width, height)`. */
  datatype Geometry = Geometry(rotation: int, width: int, height: int)

  /** `OnSurfaceChanged(width, height)`. */
  function OnSurfaceChanged(h: Helper, width: int, height: int): (r: Helper)
    ensures r.viewportChanged
    ensures r.viewportWidth == width && r.viewportHeight == height
  {
    Helper(true, width, height)
  }

  /** `OnDisplayChanged(displayId)`: the geometry must be sent again, the size is kept. */
  function OnDisplayChanged(h: Helper, displayId: int): (r: Helper)
    ensures r.viewportChanged
    ensures r.viewportWidth == h.viewportWidth && r.viewportHeight == h.viewportHeight
  {
    h.(viewportChanged := true)
  }

  /** `OnDisplayAdded` and `OnDisplayRemoved` leave the helper as it is. */
  function OnDisplayAdded(h: Helper, displayId: int): (r: Helper)
    ensures r == h
  {
    h
  }

  function OnDisplayRemoved(h: Helper, displayId: int): (r: Helper)
    ensures r == h
  {
    h
  }

  /** `UpdateSessionIfNeeded(session)` with the display's current rotation ordinal:
      the geometry the session receives, if any, and the helper afterwards. */
  function UpdateSessionIfNeeded(h: Helper, rotation: int): (r: (Helper, Option<Geometry>))
    ensures !r.0.viewportChanged
    ensures r.0.viewportWidth == h.viewportWidth && r.0.viewportHeight == h.viewportHeight
    ensures r.1.Some? <==> h.viewportChanged
    ensures r.1.Some? ==> r.1.value == Geometry(rotation, h.viewportWidth, h.viewportHeight)
  {
    if h.viewportChanged then (h.(viewportChanged := false), Some(Geometry(rotation, h.viewportWidth, h.viewportHeight)))
    else (h, None)
  }

  /** A second update without an intervening change sends nothing and changes nothing. */
  lemma UpdateIdempotent(h: Helper, rotation: int, rotation': int)
    ensures var first := UpdateSessionIfNeeded(h, rotation).0;
            UpdateSessionIfNeeded(first, rotation') == (first, None)
  {
  }

  /** After a resize the next update hands the session exactly the new size,
      however many display events came in between. */
  lemma ResizeReachesSession(h: Helper, width: int, height: int, events: seq<int>, rotation: int)
    ensures var h' := ApplyDisplayChanges(OnSurfaceChanged(h, width, height), events);
            UpdateSessionIfNeeded(h', rotation).1 == Some(Geometry(rotation, width, height))
  {
    DisplayChangesKeepSize(OnSurfaceChanged(h, width, height), events);
  }

  /** A run of `OnDisplayChanged` events. */
  function ApplyDisplayChanges(h: Helper, events: seq<int>): Helper
    decreases |events|
  {
    if |events| == 0 then h else ApplyDisplayChanges(OnDisplayChanged(h, events[0]), events[1..])
  }

  lemma {:induction false} DisplayChangesKeepSize(h: Helper, events: seq<int>)
    ensures var h' := ApplyDisplayChanges(h, events);
            h'.viewportWidth == h.viewportWidth && h'.viewportHeight == h.viewportHeight
            && h'.viewportChanged == (h.viewportChanged || |events| > 0)
    decreases |events|
  {
    if |events| > 0 {
      DisplayChangesKeepSize(OnDisplayChanged(h, events[0]), events[1..]);
    }
  }

  /** `ToDegrees(rotation)`: quarter turns to degrees; any other ordinal raises
      NotImplementedException. */
  function ToDegrees(rotation: int): (r: Result<int>)
    ensures r.Ok? <==> 0 <= rotation < 4
    ensures r.Err? ==> r.error == UnhandledRotation(rotation)
    ensures r.Ok? ==> r.value % 90 == 0 && 0 <= r.value < 360 && r.value / 90 == rotation
  {
    match rotation
    case 0 => Ok(0)
    case 1 => Ok(90)
    case 2 => Ok(180)
    case 3 => Ok(270)
    case _ => Err(UnhandledRotation(rotation))
  }

  /** What `cameraManager.GetCameraCharacteristics(cameraId)` gives: a
      `CameraAccessException`, or the characteristics, whose boxed sensor
      orientation may be null. */
  datatype Camera = AccessDenied | Characteristics(sensorOrientation: Option<int>)

  /** A camera that reports its sensor orientation. */
  function Mounted(sensor: int): Camera {
    Characteristics(Some(sensor))
  }

  /** A reported orientation is a Java `Integer`, so it fits in 32 bits. */
  predicate WellTyped(camera: Camera) {
    camera.Characteristics? && camera.sensorOrientation.Some? ==> IsInt32(camera.sensorOrientation.value)
  }

  /** `GetCameraSensorToDisplayRotation(cameraId)`: a failed lookup is rethrown as
      NotImplementedException; the display rotation is converted next; only then
      is the sensor orientation unboxed, so a null one raises after a bad
      rotation has had its chance. The result is `(sensor - display + 360) % 360`
      in 32-bit arithmetic. */
  function SensorToDisplayRotation(camera: Camera, rotation: int): (r: Result<int>)
    requires WellTyped(camera)
    ensures camera.AccessDenied? ==> r == Err(CameraUnavailable)
    ensures camera.Characteristics? ==> (r.Ok? <==> 0 <= rotation < 4 && camera.sensorOrientation.Some?)
    ensures camera.Characteristics? && !(0 <= rotation < 4) ==> r == Err(UnhandledRotation(rotation))
    ensures camera.Characteristics? && 0 <= rotation < 4 && camera.sensorOrientation.None? ==> r == Err(NullReference)
  {
    if camera.AccessDenied? then Err(CameraUnavailable)
    else
      match ToDegrees(rotation)
      case Err(e) => Err(e)
      case Ok(d) =>
        if camera.sensorOrientation.None? then Err(NullReference)
        else Ok(TruncRem(Wrap32(camera.sensorOrientation.value - d + 360), 360))
  }

  /** While `sensor + 360` does not overflow, the 32-bit arithmetic and the
      truncating remainder agree with the mathematical ones. */
  lemma SensorToDisplayValue(sensor: int, rotation: int)
    requires 0 <= sensor <= INT_MAX - 360 && 0 <= rotation < 4
    ensures SensorToDisplayRotation(Mounted(sensor), rotation) == Ok((sensor - 90 * rotation + 360) % 360)
  {
    var x := sensor - 90 * rotation + 360;
    assert ToDegrees(rotation) == Ok(90 * rotation);
    assert 90 <= x <= INT_MAX && Wrap32(x) == x;
    assert TruncRem(x, 360) == x % 360;
  }

  /** For every non-negative sensor orientation whose sum with 360 fits in an
      `int`, the result is the angle from the display to the sensor, in
      [0, 360); for the orientations Android reports (multiples of 90) it is 0,
      90, 180 or 270. */
  lemma SensorToDisplayRange(sensor: int, rotation: int)
    requires 0 <= sensor <= INT_MAX - 360 && 0 <= rotation < 4
    ensures var r := SensorToDisplayRotation(Mounted(sensor), rotation).value;
            0 <= r < 360 && (r - (sensor - 90 * rotation)) % 360 == 0
            && (sensor % 90 == 0 ==> r in {0, 90, 180, 270})
  {
    SensorToDisplayValue(sensor, rotation);
    var x := sensor - 90 * rotation + 360;
    var q, r := x / 360, x % 360;
    assert x == 360 * q + r;
    Mod360Shift(0, 1 - q);
    assert r - (sensor - 90 * rotation) == 0 + 360 * (1 - q);
    if sensor % 90 == 0 {
      Mod90Shift(sensor, 4 - rotation);
      Mod90Of360(x);
      QuarterAngles(r);
    }
  }

  /** Past `INT_MAX - 360` the sum wraps to a negative number and C#'s `%` keeps
      the sign: a sensor orientation of `INT_MAX` reports -129 degrees instead
      of the 127 the formula means. No camera reports such an orientation. */
  lemma SensorToDisplayOverflow()
    ensures SensorToDisplayRotation(Mounted(INT_MAX), 0) == Ok(-129)
    ensures (INT_MAX + 360) % 360 == 127
  {
    assert Wrap32(INT_MAX + 360) == INT_MAX + 360 - 0x1_0000_0000;
  }

  /** Turning the display a further quarter turn takes 90 degrees off the result,
      wrapping from 0 round to 270. */
  lemma SensorToDisplayQuarterTurn(sensor: int, rotation: int)
    requires 0 <= sensor <= INT_MAX - 360 && 0 <= rotation < 3
    ensures var a := SensorToDisplayRotation(Mounted(sensor), rotation).value;
            var b := SensorToDisplayRotation(Mounted(sensor), rotation + 1).value;
            b == if a >= 90 then a - 90 else a + 270
  {
    SensorToDisplayValue(sensor, rotation);
    SensorToDisplayValue(sensor, rotation + 1);
    var x := sensor - 90 * rotation + 360;
    var q, a := x / 360, x % 360;
    assert x == 360 * q + a;
    var y := sensor - 90 * (rotation + 1) + 360;
    if a >= 90 {
      ModOfSplit(y, q, a - 90);
    } else {
      ModOfSplit(y, q - 1, a + 270);
    }
  }

  /** A number split into whole turns and a remainder below a turn has that remainder. */
  lemma ModOfSplit(y: int, q: int, r: int)
    requires y == 360 * q + r && 0 <= r < 360
    ensures y % 360 == r
  {
    Mod360Shift(r, q);
  }

  /** Adding whole turns leaves the remainder as it was. */
  lemma Mod360Shift(a: int, k: int)
    ensures (a + 360 * k) % 360 == a % 360
  {
  }

  lemma Mod90Shift(a: int, k: int)
    ensures (a + 90 * k) % 90 == a % 90
  {
  }

  /** Reducing modulo a full turn keeps the remainder modulo a quarter turn. */
  lemma Mod90Of360(x: int)
    ensures (x % 360) % 90 == x % 90
  {
    assert x == 360 * (x / 360) + x % 360;
    Mod90Shift(x % 360, 4 * (x / 360));
  }

  lemma QuarterAngles(r: int)
    requires 0 <= r < 360 && r % 90 == 0
    ensures r in {0, 90, 180, 270}
  {
  }

  /** A single-precision quotient: finite, or infinite / NaN after a division by zero. */
  datatype Ratio = Finite(value: real) | NonFinite

  function Divide(a: int, b: int): (r: Ratio)
    ensures r.Finite? <==> b != 0
    ensures r.Finite? ==> r.value * (b as real) == a as real
  {
    if b == 0 then NonFinite else Finite(a as real / b as real)
  }

  /** `GetCameraSensorRelativeViewportAspectRatio(cameraId)`: height over width when
      the sensor is a quarter turn from the display, width over height when it is
      aligned or upside down, an exception for any other angle, and the lookup's
      own exceptions passed on. */
  function AspectRatio(h: Helper, camera: Camera, rotation: int): (r: Result<Ratio>)
    requires WellTyped(camera)
    ensures SensorToDisplayRotation(camera, rotation).Err? ==> r == Err(SensorToDisplayRotation(camera, rotation).error)
    ensures var a := SensorToDisplayRotation(camera, rotation);
            a.Ok? && (a.value == 90 || a.value == 270) ==> r == Ok(Divide(h.viewportHeight, h.viewportWidth))
    ensures var a := SensorToDisplayRotation(camera, rotation);
            a.Ok? && (a.value == 0 || a.value == 180) ==> r == Ok(Divide(h.viewportWidth, h.viewportHeight))
    ensures var a := SensorToDisplayRotation(camera, rotation);
            a.Ok? && !(a.value == 0 || a.value == 90 || a.value == 180 || a.value == 270) ==> r == Err(UnhandledRotation(a.value))
  {
    match SensorToDisplayRotation(camera, rotation)
    case Err(e) => Err(e)
    case Ok(angle) =>
      if angle == 90 || angle == 270 then Ok(Divide(h.viewportHeight, h.viewportWidth))
      else if angle == 0 || angle == 180 then Ok(Divide(h.viewportWidth, h.viewportHeight))
      else Err(UnhandledRotation(angle))
  }

  /** The aspect ratio against the sensor's own frame: for the angles the camera
      reports the exception branch is never taken, and the result is the
      viewport's height over its width when sensor and display are a quarter turn
      apart and its width over its height otherwise; it is finite unless the
      viewport has a zero side. */
  lemma AspectRatioOrientation(h: Helper, sensor: int, rotation: int)
    requires 0 <= sensor <= INT_MAX - 360 && sensor % 90 == 0 && 0 <= rotation < 4
    ensures var angle := SensorToDisplayRotation(Mounted(sensor), rotation).value;
            AspectRatio(h, Mounted(sensor), rotation)
            == Ok(if angle == 90 || angle == 270 then Divide(h.viewportHeight, h.viewportWidth)
                  else Divide(h.viewportWidth, h.viewportHeight))
    ensures h.viewportWidth != 0 && h.viewportHeight != 0 ==> AspectRatio(h, Mounted(sensor), rotation).value.Finite?
  {
    SensorToDisplayRange(sensor, rotation);
  }

  /** Any other sensor angle (one the camera never reports) reaches the `default` branch. */
  lemma AspectRatioOddAngle(h: Helper, sensor: int, rotation: int)
    requires 0 <= sensor <= INT_MAX - 360 && sensor % 90 != 0 && 0 <= rotation < 4
    ensures AspectRatio(h, Mounted(sensor), rotation)
         == Err(UnhandledRotation(SensorToDisplayRotation(Mounted(sensor), rotation).value))
  {
    SensorToDisplayValue(sensor, rotation);
    var x := sensor - 90 * rotation + 360;
    Mod90Shift(sensor, 4 - rotation);
    assert x == sensor + 90 * (4 - rotation);
    Mod90Of360(x);
    var angle := x % 360;
    assert angle % 90 != 0;
    assert SensorToDisplayRotation(Mounted(sensor), rotation) == Ok(angle);
    assert !(angle == 0 || angle == 90 || angle == 180 || angle == 270);
  }
}
