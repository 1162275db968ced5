/**
  * The pinhole camera (src/camera.rs): a viewport of the given height and width at distance
  * `focal_length` in front of the origin, looking down the negative z axis.
  */
module Cameras {
  import opened Vector
  import opened Rays

  datatype Camera = Camera(origin: Point3, lowerLeftCorner: Point3, horizontal: Vec3, vertical: Vec3)

  /** `aspect_ratio` of `Camera::default`. */
  const AspectRatio: real := 16.0 / 9.0

  /**
    * `Camera::new(viewport_height, viewport_width, focal_length, origin)` (height first): the
    * viewport spans `viewportWidth` along x and `viewportHeight` along y, and its lower left corner
    * sits half of each below and left of the point `focalLength` in front of the origin.
    */
  function New(viewportHeight: real, viewportWidth: real, focalLength: real, origin: Point3): (c: Camera)
    ensures c.origin == origin
    ensures c.horizontal == Vec3(viewportWidth, 0.0, 0.0)
    ensures c.vertical == Vec3(0.0, viewportHeight, 0.0)
  {
    var horizontal := Vec3(viewportWidth, 0.0, 0.0);
    var vertical := Vec3(0.0, viewportHeight, 0.0);
    var lowerLeftCorner :=
      Sub(Sub(Sub(origin, DivScalar(horizontal, 2.0)), DivScalar(vertical, 2.0)), Vec3(0.0, 0.0, focalLength));
    Camera(origin, lowerLeftCorner, horizontal, vertical)
  }

  /**
    * `Camera::default()`, which spells out the same construction for a viewport 2 high with the
    * 16:9 aspect ratio, focal length 1 and the origin at zero (`DefaultIsNew`).
    */
  function Default(): (c: Camera)
    ensures c.origin == Zeros
  {
    var aspectRatio := 16.0 / 9.0;
    var viewportHeight := 2.0;
    var viewportWidth := viewportHeight * aspectRatio;
    var focalLength := 1.0;
    var origin := Vec3(0.0, 0.0, 0.0);
    var horizontal := Vec3(viewportWidth, 0.0, 0.0);
    var vertical := Vec3(0.0, viewportHeight, 0.0);
    var lowerLeftCorner :=
      Sub(Sub(Sub(origin, DivScalar(horizontal, 2.0)), DivScalar(vertical, 2.0)), Vec3(0.0, 0.0, focalLength));
    Camera(origin, lowerLeftCorner, horizontal, vertical)
  }

  /**
    * `camera.ray_at(u, v)`: the ray from the camera's origin that reaches the viewport point
    * `lower_left_corner + u horizontal + v vertical` at parameter 1.
    */
  function RayAt(c: Camera, u: real, v: real): (r: Ray)
    ensures r.origin == c.origin
    ensures At(r, 1.0) == Add(Add(c.lowerLeftCorner, ScalarMul(u, c.horizontal)), ScalarMul(v, c.vertical))
  {
    Ray(c.origin, Sub(Add(Add(c.lowerLeftCorner, ScalarMul(u, c.horizontal)), ScalarMul(v, c.vertical)), c.origin))
  }

  /** The lower left corner of a camera built by `New`, in closed form. */
  lemma NewLowerLeftCorner(h: real, w: real, f: real, o: Point3)
    ensures New(h, w, f, o).lowerLeftCorner == Vec3(o.x - w / 2.0, o.y - h / 2.0, o.z - f)
  {
  }

  /**
    * For a camera built by `New`, the direction of `ray_at(u, v)` does not depend on the origin:
    * it is `((u - 1/2) w, (v - 1/2) h, -f)`.
    */
  lemma RayAtDirection(h: real, w: real, f: real, o: Point3, u: real, v: real)
    ensures RayAt(New(h, w, f, o), u, v).direction == Vec3((u - 0.5) * w, (v - 0.5) * h, -f)
  {
    NewLowerLeftCorner(h, w, f, o);
  }

  /** `Camera::default()` is exactly `Camera::new(2, 2 * 16/9, 1, origin zero)`. */
  lemma DefaultIsNew()
    ensures Default() == New(2.0, 2.0 * AspectRatio, 1.0, Zeros)
  {
  }

  /** The ray through the middle of the viewport runs straight ahead, down the negative z axis. */
  lemma CentreRayLooksAhead(h: real, w: real, f: real, o: Point3)
    ensures RayAt(New(h, w, f, o), 0.5, 0.5).direction == Vec3(0.0, 0.0, -f)
  {
    RayAtDirection(h, w, f, o, 0.5, 0.5);
  }
}
