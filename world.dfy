/**
 * The object hierarchy of object.h and its overrides, as an arena: every object lives at an
 * index of a sequence, and scenes, media and BVH nodes refer to other objects by index, so an
 * object shared by a scene and a BVH is one object, as a shared_ptr makes it in the source.
 * An object refers only to objects at smaller indices, which is what makes the virtual
 * dispatch below terminate.
 */
module Worlds {
  import opened Wrappers
  import opened Numerics
  import opened Vectors
  import opened Intervals
  import opened Rays
  import opened Boxes
  import opened Records
  import opened Materials
  import opened Spheres
  import opened Quads
  import opened Media

  /**
   * What the dispatch needs from outside the objects: the math library, the texture
   * coordinates of a point on a unit sphere (get_sphere_uv), and the uniform draw a medium
   * takes when a ray reaches it.
   */
  datatype Env = Env(m: Libm, uv: Vec3 -> (real, real), mediumDraw: (nat, Ray) -> real)

  /**
   * A BVH subtree. A Leaf is a child pointer to an arena object; a Node is a bvh_node with
   * its two children and its cached box. The one-object case has the same leaf on both sides.
   */
  datatype Bvh = Leaf(obj: nat) | Node(left: Bvh, right: Bvh, box: BBox)

  /** The arena objects a subtree reaches. */
  function Members(node: Bvh): (s: set<nat>)
    ensures node.Node? ==> s == Members(node.left) + Members(node.right)
    ensures node.Leaf? ==> s == {node.obj}
  {
    match node
    case Leaf(j) => {j}
    case Node(l, r, _) => Members(l) + Members(r)
  }

  /** The concrete objects: primitives, media, scene lists (with their cached box) and BVH roots. */
  datatype Object =
    | SphereObj(sphere: Sphere)
    | QuadObj(quad: Quad)
    | MediumObj(medium: Medium)
    | SceneObj(members: seq<nat>, box: BBox)
    | BvhObj(root: Bvh)

  /**
   * o may sit at index `bound`: it refers only to smaller indices, and the primitives have the
   * nonzero radius and positive area their intersection and density divide by.
   */
  ghost predicate Fits(o: Object, bound: nat)
  {
    match o
    case SphereObj(s) => s.radius != 0.0
    case QuadObj(qd) => 0.0 < qd.area
    case MediumObj(md) => md.boundary < bound
    case SceneObj(ms, _) => AllBelow(ms, bound)
    case BvhObj(root) => Below(root, bound)
  }

  /** Every index in the list is below bound. */
  ghost predicate AllBelow(members: seq<nat>, bound: nat)
  {
    forall k :: 0 <= k < |members| ==> members[k] < bound
  }

  /** Every leaf of the subtree is below bound. */
  ghost predicate Below(node: Bvh, bound: nat)
  {
    match node
    case Leaf(j) => j < bound
    case Node(l, r, _) => Below(l, bound) && Below(r, bound)
  }

  ghost predicate WellFormed(arena: seq<Object>)
  {
    forall i {:trigger arena[i]} :: 0 <= i < |arena| ==> Fits(arena[i], i)
  }

  // ---------------------------------------------------------------------------------------------
  // get_bbox

  /** get_bbox: primitives and scenes return their cached box, a medium its boundary's box. */
  function BoxOf(arena: seq<Object>, i: nat): BBox
    requires WellFormed(arena) && i < |arena|
    decreases i, 1
  {
    match arena[i]
    case SphereObj(s) => s.box
    case QuadObj(qd) => qd.box
    case MediumObj(md) => BoxOf(arena, md.boundary)
    case SceneObj(_, box) => box
    case BvhObj(root) => ChildBox(arena, i, root)
  }

  /** The box of a BVH child: the object's own box for a leaf, the cached box for a node. */
  function ChildBox(arena: seq<Object>, bound: nat, node: Bvh): BBox
    requires WellFormed(arena) && bound <= |arena| && Below(node, bound)
    decreases bound, 0
  {
    match node
    case Leaf(j) => BoxOf(arena, j)
    case Node(_, _, box) => box
  }

  /** An object that stores its box itself: a primitive, a scene, or a BVH whose root is a node. */
  predicate StoresBox(o: Object)
  {
    o.SphereObj? || o.QuadObj? || o.SceneObj? || (o.BvhObj? && o.root.Node?)
  }

  /**
   * get_bbox always ends at a stored box: a medium forwards to its boundary and a one-leaf BVH
   * to its leaf, each an earlier object, until one that stores its box answers.
   */
  lemma {:induction false} BoxOfResolves(arena: seq<Object>, i: nat)
    requires WellFormed(arena) && i < |arena|
    ensures exists j: nat :: j <= i && StoresBox(arena[j]) && BoxOf(arena, i) == BoxOf(arena, j)
    decreases i
  {
    match arena[i]
    case MediumObj(md) =>
      BoxOfResolves(arena, md.boundary);
      var j: nat :| j <= md.boundary && StoresBox(arena[j]) && BoxOf(arena, md.boundary) == BoxOf(arena, j);
      assert j <= i && BoxOf(arena, i) == BoxOf(arena, j);
    case BvhObj(root) =>
      if root.Leaf? {
        BoxOfResolves(arena, root.obj);
        var j: nat :| j <= root.obj && StoresBox(arena[j]) && BoxOf(arena, root.obj) == BoxOf(arena, j);
        assert j <= i && BoxOf(arena, i) == BoxOf(arena, j);
      } else {
        assert StoresBox(arena[i]) && BoxOf(arena, i) == BoxOf(arena, i);
      }
    case _ =>
      assert StoresBox(arena[i]) && BoxOf(arena, i) == BoxOf(arena, i);
  }

  /** make_shared never changes the box of an object that already exists. */
  lemma {:induction false} BoxOfExtend(arena: seq<Object>, o: Object, i: nat)
    requires WellFormed(arena) && WellFormed(arena + [o]) && i < |arena|
    ensures BoxOf(arena + [o], i) == BoxOf(arena, i)
    decreases i
  {
    match arena[i]
    case MediumObj(md) => BoxOfExtend(arena, o, md.boundary);
    case BvhObj(root) =>
      if root.Leaf? {
        BoxOfExtend(arena, o, root.obj);
      }
    case _ =>
  }

  // ---------------------------------------------------------------------------------------------
  // intersect

  /**
   * object::intersect dispatched on the object's kind. None stands for a false return with rec
   * untouched, Some(rec) for a true return with rec written. Whatever the object, a hit lies at
   * or below the probe's upper bound: this is what makes closest_so_far non-increasing through a
   * scan and the right child's bound in a BVH no looser.
   */
  function Hit(env: Env, arena: seq<Object>, i: nat, r: Ray, t: Interval): (h: Option<HitRecord>)
    requires WellFormed(arena) && i < |arena|
    ensures env.m.SqrtLaws() && h.Some? ==> Le(Fin(h.value.t), t.max)
    decreases i, 2
  {
    match arena[i]
    case SphereObj(s) => Spheres.Intersect(env.m, env.uv, s, r, t)
    case QuadObj(qd) => Quads.Intersect(qd, r, t)
    case MediumObj(md) => MediumHit(env, arena, i, md, r, t)
    case SceneObj(ms, _) => Scan(env, arena, i, ms, r, t)
    case BvhObj(root) => Traverse(env, arena, i, root, r, t)
  }

  /**
   * constant_medium::intersect: the boundary is probed over the whole line for the entry and
   * beyond the entry for the exit; the clamping procedure decides the interaction. The record
   * has the fixed normal (1, 0, 0), faces the ray, and carries the phase function. The source
   * leaves the record's u and v as they were; here they are 0.
   */
  function MediumHit(env: Env, arena: seq<Object>, i: nat, md: Medium, r: Ray, t: Interval): (h: Option<HitRecord>)
    requires WellFormed(arena) && i < |arena| && md.boundary < i
    ensures env.m.SqrtLaws() && h.Some? ==> Le(Fin(h.value.t), t.max)
    decreases i, 1
  {
    match Hit(env, arena, md.boundary, r, Universe)
    case None => None
    case Some(rec1) =>
      match Hit(env, arena, md.boundary, r, Interval(Fin(rec1.t + ExitOffset), PosInf))
      case None => None
      case Some(rec2) =>
        var hitDistance := HitDistance(env.m, md, env.mediumDraw(i, r));
        var l := Length(env.m, r.dir);
        match Interaction(rec1.t, rec2.t, t, l, hitDistance)
        case None => None
        case Some(s) =>
          InteractionWithin(env.m, rec1.t, rec2.t, t, r.dir, hitDistance);
          Some(Record(r.At(s), MediumNormal, s, true, md.phase, 0.0, 0.0))
  }

  /** Le chains, stated so that a function body can use it without knowing either link holds. */
  lemma LeChain(a: Ext, b: Ext, c: Ext)
    ensures Le(a, b) && Le(b, c) ==> Le(a, c)
  {
    if Le(a, b) && Le(b, c) {
      LeTransitive(a, b, c);
    }
  }

  /** With an exact square root law the ray's length is nonnegative, so the interaction is within t. */
  lemma InteractionWithin(m: Libm, entry: real, exit: real, t: Interval, dir: Vec3, hitDistance: real)
    requires Interaction(entry, exit, t, Length(m, dir), hitDistance).Some?
    ensures m.SqrtLaws() ==> Le(Fin(Interaction(entry, exit, t, Length(m, dir), hitDistance).value), t.max)
  {
    if m.SqrtLaws() {
      LengthSquaredNonnegative(dir);
      InteractionBeforeExit(entry, exit, t, Length(m, dir), hitDistance);
    }
  }

  /**
   * scene::intersect: the closest-so-far scan over the members, from the probe's upper bound.
   * Its hit is never beyond that bound.
   */
  function Scan(env: Env, arena: seq<Object>, bound: nat, members: seq<nat>, r: Ray, t: Interval): (h: Option<HitRecord>)
    requires WellFormed(arena) && bound <= |arena| && AllBelow(members, bound)
    ensures env.m.SqrtLaws() && h.Some? ==> Le(Fin(h.value.t), t.max)
    decreases bound, 1
  {
    ScanFrom(env, arena, bound, members, r, t.min, t.max, 0, None)
  }

  /**
   * The scan from member k on, with the current upper bound `closest` and the last record
   * found. Each member is probed over [tmin, closest]; a hit lowers closest to its t. The result
   * is the record already found or a later hit no further than closest.
   */
  function ScanFrom(env: Env, arena: seq<Object>, bound: nat, members: seq<nat>, r: Ray,
                    tmin: Ext, closest: Ext, k: nat, acc: Option<HitRecord>): (h: Option<HitRecord>)
    requires WellFormed(arena) && bound <= |arena| && AllBelow(members, bound)
    requires k <= |members|
    ensures env.m.SqrtLaws() && h.Some? ==> h == acc || Le(Fin(h.value.t), closest)
    decreases bound, 0, |members| - k
  {
    if k == |members| then acc
    else
      match Hit(env, arena, members[k], r, Interval(tmin, closest))
      case Some(rec) =>
        var h := ScanFrom(env, arena, bound, members, r, tmin, Fin(rec.t), k + 1, Some(rec));
        if h.Some? then LeChain(Fin(h.value.t), Fin(rec.t), closest); h else h
      case None => ScanFrom(env, arena, bound, members, r, tmin, closest, k + 1, acc)
  }

  /**
   * bvh_node::intersect: nothing when the node's box misses; otherwise the left child over t
   * and the right child over t with its upper bound lowered to the left hit, the right hit
   * winning when there is one. The box test is the corrected `ClosedSlabHit`: the source's
   * test (bbox.h:66) also rejects a ray that touches the box at a single parameter, and so
   * loses hits the scene list reports (`Bvhs.GrazingCornerDisagrees`). Its hit is never beyond
   * the interval's upper end.
   */
  function Traverse(env: Env, arena: seq<Object>, bound: nat, node: Bvh, r: Ray, t: Interval): (h: Option<HitRecord>)
    requires WellFormed(arena) && bound <= |arena| && Below(node, bound)
    ensures env.m.SqrtLaws() && h.Some? ==> Le(Fin(h.value.t), t.max)
    decreases bound, 1, node
  {
    match node
    case Leaf(j) => Hit(env, arena, j, r, t)
    case Node(left, right, box) =>
      if !ClosedSlabHit(box, r, t) then None
      else
        var h1 := Traverse(env, arena, bound, left, r, t);
        var c := if h1.Some? then Fin(h1.value.t) else t.max;
        var h2 := Traverse(env, arena, bound, right, r, Interval(t.min, c));
        if h2.Some? then LeChain(Fin(h2.value.t), c, t.max); h2 else h1
  }

  // ---------------------------------------------------------------------------------------------
  // get_pdf and randomDir

  /**
   * object::get_pdf dispatched: a quad's solid-angle density, a scene's average over its
   * members, and the default 0 for the objects that do not override it.
   */
  function ObjPdf(m: Libm, arena: seq<Object>, i: nat, origin: Point3, dir: Vec3): (p: real)
    requires m.SqrtLaws() && WellFormed(arena) && i < |arena|
    ensures 0.0 <= p
    ensures !arena[i].QuadObj? && !arena[i].SceneObj? ==> p == DefaultPdf
    decreases i, 2
  {
    match arena[i]
    case QuadObj(qd) => Quads.GetPdf(m, qd, origin, dir)
    case SceneObj(ms, _) => ScenePdf(m, arena, i, ms, origin, dir)
    case _ => DefaultPdf
  }

  /** scene::get_pdf: each member's density weighted by 1 / N; the empty scene runs no iteration. */
  function ScenePdf(m: Libm, arena: seq<Object>, bound: nat, members: seq<nat>, origin: Point3, dir: Vec3): (p: real)
    requires m.SqrtLaws() && WellFormed(arena) && bound <= |arena| && AllBelow(members, bound)
    ensures 0.0 <= p
    ensures |members| == 0 ==> p == 0.0
    decreases bound, 1
  {
    if |members| == 0 then 0.0
    else WeightedSum(Densities(m, arena, bound, members, origin, dir), 1.0 / Real(|members|), |members|)
  }

  /** The members' densities, in list order. */
  function Densities(m: Libm, arena: seq<Object>, bound: nat, members: seq<nat>, origin: Point3, dir: Vec3): (ps: seq<real>)
    requires m.SqrtLaws() && WellFormed(arena) && bound <= |arena| && AllBelow(members, bound)
    ensures |ps| == |members|
    ensures forall k :: 0 <= k < |ps| ==> 0.0 <= ps[k]
    decreases bound, 0
  {
    seq(|members|, k requires 0 <= k < |members| => ObjPdf(m, arena, members[k], origin, dir))
  }

  /** The running sum after k iterations of `sum += weight * p`. */
  function WeightedSum(ps: seq<real>, weight: real, k: nat): (s: real)
    requires k <= |ps|
    ensures 0.0 <= weight && (forall i :: 0 <= i < k ==> 0.0 <= ps[i]) ==> 0.0 <= s
  {
    if k == 0 then 0.0
    else
      var s := WeightedSum(ps, weight, k - 1);
      if 0.0 <= weight && 0.0 <= ps[k - 1] then NonnegProduct(weight, ps[k - 1]); s + weight * ps[k - 1]
      else s + weight * ps[k - 1]
  }

  /**
   * The draws a light-direction sample uses: one member pick per level of scene nesting, in the
   * order the nested randomDir calls take them (pick(0) by the outermost scene), and the two
   * coordinates of the quad the walk ends at.
   */
  datatype LightDraws = LightDraws(pick: Stream, u1: real, u2: real)
  {
    ghost predicate Valid() { Uniform(pick) }

    /** The draws left for the picked member once a scene has taken its own pick. */
    function Inner(): (d: LightDraws)
      ensures d.u1 == u1 && d.u2 == u2 && forall n: nat :: d.pick(n) == pick(n + 1)
      ensures Valid() ==> d.Valid()
    {
      LightDraws(Drop(pick, 1), u1, u2)
    }
  }

  /**
   * object::randomDir dispatched: a quad samples a point on itself, a scene delegates to the
   * member random_int(0, N - 1) picks, and the others return the default (1, 0, 0). An empty
   * scene has no member to pick (the source indexes an empty vector): None.
   */
  function ObjDir(arena: seq<Object>, i: nat, origin: Point3, ld: LightDraws): (d: Option<Vec3>)
    requires WellFormed(arena) && i < |arena| && ld.Valid()
    ensures arena[i].QuadObj? ==> d == Some(Quads.RandomDir(arena[i].quad, origin, ld.u1, ld.u2))
    ensures !arena[i].QuadObj? && !arena[i].SceneObj? ==> d == Some(DefaultDirection)
    decreases i, 2
  {
    match arena[i]
    case QuadObj(qd) => Some(Quads.RandomDir(qd, origin, ld.u1, ld.u2))
    case SceneObj(ms, _) => SceneDir(arena, i, ms, origin, ld)
    case _ => Some(DefaultDirection)
  }

  /**
   * scene::randomDir: the member at index random_int(0, N - 1), asked with the draws that
   * remain, so a nested scene makes a fresh pick of its own.
   */
  function SceneDir(arena: seq<Object>, bound: nat, members: seq<nat>, origin: Point3, ld: LightDraws): (d: Option<Vec3>)
    requires WellFormed(arena) && bound <= |arena| && AllBelow(members, bound)
    requires ld.Valid()
    ensures |members| == 0 ==> d.None?
    ensures 0 < |members| ==>
              && 0 <= RandomInt(0, |members| - 1, ld.pick(0)) < |members|
              && d == ObjDir(arena, members[RandomInt(0, |members| - 1, ld.pick(0))], origin, ld.Inner())
    decreases bound, 1
  {
    if |members| == 0 then None
    else
      RandomIntInRange(|members|, ld.pick(0));
      ObjDir(arena, members[RandomInt(0, |members| - 1, ld.pick(0))], origin, ld.Inner())
  }

  /** The member index scene::randomDir computes, as written: random_int(0, N - 1) for N members. */
  function AsWrittenPick(members: seq<nat>, u: real): int
  {
    RandomInt(0, |members| - 1, u)
  }

  /**
   * For an empty scene, as the demos pass for their lights, the as-written pick is index 0 of
   * an empty member list: random_int(0, -1) truncates 0 + 0 * u to 0, whatever the draw.
   */
  lemma EmptyScenePickOutOfRange(members: seq<nat>, u: real)
    requires |members| == 0 && 0.0 <= u < 1.0
    ensures AsWrittenPick(members, u) == 0 && !(AsWrittenPick(members, u) < |members|)
  {
    assert Real(0) + Real(-1 + 1 - 0) * u == 0.0;
    TruncBounds(0.0);
  }

  /**
   * Each level of nesting picks afresh: the pick k / N selects member k of a scene of N members,
   * and the member is asked with the later picks, so whatever an enclosing scene picked, every
   * member of a nested scene can still be chosen.
   */
  lemma ScenePickReaches(arena: seq<Object>, bound: nat, members: seq<nat>, origin: Point3, ld: LightDraws, k: nat)
    requires WellFormed(arena) && bound <= |arena| && AllBelow(members, bound) && ld.Valid()
    requires k < |members| && ld.pick(0) == Real(k) / Real(|members|)
    ensures SceneDir(arena, bound, members, origin, ld) == ObjDir(arena, members[k], origin, ld.Inner())
  {
    RandomIntHits(|members|, k);
    var i := RandomInt(0, |members| - 1, ld.pick(0));
    assert i == k;
    assert SceneDir(arena, bound, members, origin, ld) == ObjDir(arena, members[i], origin, ld.Inner());
  }

  // ---------------------------------------------------------------------------------------------
  // rotate and translate

  /** translate(dir): spheres and quads move; every other kind keeps the default no-op. */
  function TranslateObject(m: Libm, o: Object, dir: Vec3): (o': Object)
    requires o.QuadObj? ==> NonDegenerate(m, o.quad.u, o.quad.v)
    ensures o.SphereObj? ==> o' == SphereObj(Spheres.Translate(o.sphere, dir))
    ensures o.QuadObj? ==> o' == QuadObj(Quads.Translate(m, o.quad, dir))
    ensures !o.SphereObj? && !o.QuadObj? ==> o' == o
    ensures forall bound: nat :: Fits(o, bound) ==> Fits(o', bound)
  {
    match o
    case SphereObj(s) => SphereObj(Spheres.Translate(s, dir))
    case QuadObj(qd) => QuadObj(Quads.Translate(m, qd, dir))
    case _ => o
  }

  /** The condition under which rotate(degree, axis) keeps a quad's edges spanning a plane. */
  ghost predicate Rotatable(m: Libm, o: Object, degree: real, axis: int)
  {
    o.QuadObj? ==>
      var rows := RotationRows(m, degree, axis);
      NonDegenerate(m, Apply(rows, o.quad.u), Apply(rows, o.quad.v))
  }

  /** rotate(degree, axis): spheres and quads turn; every other kind keeps the default no-op. */
  function RotateObject(m: Libm, o: Object, degree: real, axis: int): (o': Object)
    requires Rotatable(m, o, degree, axis)
    ensures o.SphereObj? ==> o' == SphereObj(Spheres.Rotate(m, o.sphere, degree, axis))
    ensures o.QuadObj? ==> o' == QuadObj(Quads.Rotate(m, o.quad, degree, axis))
    ensures !o.SphereObj? && !o.QuadObj? ==> o' == o
    ensures forall bound: nat :: Fits(o, bound) ==> Fits(o', bound)
  {
    match o
    case SphereObj(s) => SphereObj(Spheres.Rotate(m, s, degree, axis))
    case QuadObj(qd) => QuadObj(Quads.Rotate(m, qd, degree, axis))
    case _ => o
  }

  /**
   * The objects the program creates, with their rotate and translate updating one object in
   * place: every scene, medium and BVH that holds its index sees the change, while the boxes
   * those holders cached are left as they were.
   */
  class World {
    var arena: seq<Object>

    constructor ()
      ensures arena == []
    {
      arena := [];
    }

    /** make_shared: the new object gets the next index. */
    method Add(o: Object) returns (i: nat)
      requires WellFormed(arena) && Fits(o, |arena|)
      modifies this
      ensures arena == old(arena) + [o] && i == |old(arena)|
      ensures WellFormed(arena)
    {
      i := |arena|;
      arena := arena + [o];
    }

    method Translate(m: Libm, i: nat, dir: Vec3)
      requires WellFormed(arena) && i < |arena|
      requires arena[i].QuadObj? ==> NonDegenerate(m, arena[i].quad.u, arena[i].quad.v)
      modifies this
      ensures arena == old(arena)[i := TranslateObject(m, old(arena)[i], dir)]
      ensures WellFormed(arena)
    {
      arena := arena[i := TranslateObject(m, arena[i], dir)];
    }

    method Rotate(m: Libm, i: nat, degree: real, axis: int)
      requires WellFormed(arena) && i < |arena| && Rotatable(m, arena[i], degree, axis)
      modifies this
      ensures arena == old(arena)[i := RotateObject(m, old(arena)[i], degree, axis)]
      ensures WellFormed(arena)
    {
      arena := arena[i := RotateObject(m, arena[i], degree, axis)];
    }
  }

  // ---------------------------------------------------------------------------------------------
  // Properties of the dispatch

  /** A medium interacts only if its boundary is hit over the whole line and again beyond that hit. */
  lemma MediumNeedsBoundary(env: Env, arena: seq<Object>, i: nat, r: Ray, t: Interval)
    requires WellFormed(arena) && i < |arena| && arena[i].MediumObj?
    requires Hit(env, arena, i, r, t).Some?
    ensures var b := arena[i].medium.boundary;
      && Hit(env, arena, b, r, Universe).Some?
      && Hit(env, arena, b, r, Interval(Fin(Hit(env, arena, b, r, Universe).value.t + ExitOffset), PosInf)).Some?
    ensures var rec := Hit(env, arena, i, r, t).value;
      rec.p == r.At(rec.t) && rec.normal == MediumNormal && rec.frontFace && rec.mat == arena[i].medium.phase
  {
  }

}
