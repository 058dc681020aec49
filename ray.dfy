/** Rays: an origin, a direction and a shutter time (the renderer's ray.h). */
module Rays {
  import opened Vectors

  datatype Ray = Ray(orig: Point3, dir: Vec3, tm: real)
  {
    function Origin(): Point3 { orig }
    function Direction(): Vec3 { dir }
    function Time(): real { tm }

    /** at(t) = origin + t * direction. */
    function At(t: real): Point3 { Add(orig, Scale(t, dir)) }
  }

  /** The two-argument constructor: time 0. */
  function MakeRay(origin: Point3, direction: Vec3): (r: Ray)
    ensures r.Origin() == origin && r.Direction() == direction && r.Time() == 0.0
  {
    Ray(origin, direction, 0.0)
  }

  /** The three-argument constructor keeps all three values. */
  lemma ConstructorAccessors(origin: Point3, direction: Vec3, time: real)
    ensures Ray(origin, direction, time).Origin() == origin
    ensures Ray(origin, direction, time).Direction() == direction
    ensures Ray(origin, direction, time).Time() == time
  {
  }

  /** at(0) is the origin and at is affine: at(t) - at(s) = (t - s) * direction. */
  lemma AtAffine(r: Ray, t: real, s: real)
    ensures r.At(0.0) == r.Origin()
    ensures Sub(r.At(t), r.At(s)) == Scale(t - s, r.Direction())
  {
  }
}
