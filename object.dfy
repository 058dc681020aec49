/**
 * The intersection record filled in by every primitive's intersect (object.h), and the
 * defaults the object interface gives to primitives that do not override them.
 */
module Records {
  import opened Vectors
  import opened Rays

  /** intersect_record, generic in the material type so that materials can refer back to it. */
  datatype Record<M> = Record(p: Point3, normal: Vec3, t: real, frontFace: bool, mat: M, u: real, v: real)
  {
    /**
     * set_face_normal: the record faces the ray when the ray runs against the outward normal,
     * and the stored normal always points against the ray. Nothing else in the record changes.
     */
    function SetFaceNormal(r: Ray, outward: Vec3): (rec: Record<M>)
      ensures rec.frontFace <==> Dot(r.Direction(), outward) < 0.0
      ensures rec.frontFace ==> rec.normal == outward
      ensures !rec.frontFace ==> rec.normal == Neg(outward)
      ensures rec.p == p && rec.t == t && rec.mat == mat && rec.u == u && rec.v == v
    {
      var front := Dot(r.Direction(), outward) < 0.0;
      this.(frontFace := front, normal := if front then outward else Neg(outward))
    }
  }

  /** Whatever the outward normal, the stored normal never points along the ray. */
  lemma FaceNormalOpposesRay<M>(rec: Record<M>, r: Ray, outward: Vec3)
    ensures Dot(r.Direction(), rec.SetFaceNormal(r, outward).normal) <= 0.0
  {
    var d := r.Direction();
    if Dot(d, outward) >= 0.0 {
      assert Dot(d, Neg(outward)) == -Dot(d, outward);
    }
  }

  /** object::get_pdf: an object that does not override it has density 0 everywhere. */
  const DefaultPdf: real := 0.0

  /** object::randomDir: an object that does not override it always proposes (1, 0, 0). */
  const DefaultDirection: Vec3 := Vec3(1.0, 0.0, 0.0)
}
