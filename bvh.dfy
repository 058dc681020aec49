/**
 * Bounding volume hierarchies (bvh.h): construction over a range of a private copy of the
 * object list, and the nearest-hit guarantee of the traversal, which makes it agree with a
 * linear scan of the same objects.
 */
module Bvhs {
  import opened Wrappers
  import opened Numerics
  import opened Intervals
  import opened Rays
  import opened Boxes
  import opened Records
  import opened Materials
  import opened Worlds
  import opened Scenes
  import Vectors
  import Spheres
  import Quads

  // ---------------------------------------------------------------------------------------------
  // The comparator and the sort

  /** The box axis a comparator compares on: x for 0, y for 1, z otherwise. */
  function SortAxis(axis: int): (n: int)
    ensures 0 <= n < 3
    ensures axis == 0 || axis == 1 ==> n == axis
  {
    if axis == 0 then 0 else if axis == 1 then 1 else 2
  }

  /** The value b_compare orders by: the minimum of the object's box on the axis. */
  function Key(arena: seq<Object>, axis: int, j: nat): Ext
    requires WellFormed(arena) && j < |arena|
  {
    BoxOf(arena, j).Axis(SortAxis(axis)).min
  }

  /** b_compare: strictly smaller box minimum on the axis. */
  predicate Compare(arena: seq<Object>, axis: int, j1: nat, j2: nat)
    requires WellFormed(arena) && j1 < |arena| && j2 < |arena|
  {
    Lt(Key(arena, axis, j1), Key(arena, axis, j2))
  }

  /** Neighbours appear in non-decreasing key order. */
  ghost predicate SortedOn(arena: seq<Object>, axis: int, s: seq<nat>)
    requires WellFormed(arena) && AllBelow(s, |arena|)
  {
    forall i :: 0 < i < |s| ==> Le(Key(arena, axis, s[i - 1]), Key(arena, axis, s[i]))
  }

  /** Places x before the first element whose key is not smaller than x's. */
  function Insert(arena: seq<Object>, axis: int, x: nat, s: seq<nat>): (s': seq<nat>)
    requires WellFormed(arena) && x < |arena| && AllBelow(s, |arena|)
    ensures multiset(s') == multiset(s) + multiset{x}
    ensures |s'| == |s| + 1 && AllBelow(s', |arena|)
    ensures s'[0] == x || (0 < |s| && s'[0] == s[0])
  {
    if |s| == 0 || !Compare(arena, axis, s[0], x) then [x] + s
    else
      var rest := Insert(arena, axis, x, s[1..]);
      assert s == [s[0]] + s[1..];
      [s[0]] + rest
  }

  /** Insertion keeps a sorted list sorted. */
  lemma {:induction false} InsertSorted(arena: seq<Object>, axis: int, x: nat, s: seq<nat>)
    requires WellFormed(arena) && x < |arena| && AllBelow(s, |arena|)
    requires SortedOn(arena, axis, s)
    ensures SortedOn(arena, axis, Insert(arena, axis, x, s))
  {
    if |s| == 0 || !Compare(arena, axis, s[0], x) {
    } else {
      var tail := s[1..];
      assert SortedOn(arena, axis, tail) by {
        forall i | 0 < i < |tail|
          ensures Le(Key(arena, axis, tail[i - 1]), Key(arena, axis, tail[i]))
        {
          assert tail[i - 1] == s[i] && tail[i] == s[i + 1];
        }
      }
      InsertSorted(arena, axis, x, tail);
      var rest := Insert(arena, axis, x, tail);
      assert Le(Key(arena, axis, s[0]), Key(arena, axis, rest[0])) by {
        if rest[0] != x {
          assert rest[0] == s[1];
        }
      }
    }
  }

  /**
   * std::sort with b_compare: the result is a permutation of the range ordered by key. The order
   * among equal keys, which std::sort leaves unspecified, is the one insertion gives.
   */
  function SortByKey(arena: seq<Object>, axis: int, s: seq<nat>): (s': seq<nat>)
    requires WellFormed(arena) && AllBelow(s, |arena|)
    ensures multiset(s') == multiset(s) && |s'| == |s|
    ensures AllBelow(s', |arena|)
    ensures SortedOn(arena, axis, s')
  {
    if |s| == 0 then []
    else
      assert s == [s[0]] + s[1..];
      var rest := SortByKey(arena, axis, s[1..]);
      InsertSorted(arena, axis, s[0], rest);
      Insert(arena, axis, s[0], rest)
  }

  // ---------------------------------------------------------------------------------------------
  // Construction

  /** The copy of the list with the range [start, end) replaced by its sorted version. */
  function SortRange(arena: seq<Object>, axis: int, objs: seq<nat>, start: nat, end: nat): (sorted: seq<nat>)
    requires WellFormed(arena) && AllBelow(objs, |arena|) && start <= end <= |objs|
    ensures |sorted| == |objs| && AllBelow(sorted, |arena|)
    ensures sorted[start..end] == SortByKey(arena, axis, objs[start..end])
    ensures sorted[..start] == objs[..start] && sorted[end..] == objs[end..]
  {
    var part := SortByKey(arena, axis, objs[start..end]);
    var sorted := objs[..start] + part + objs[end..];
    assert sorted[start..end] == part;
    assert sorted[..start] == objs[..start];
    assert sorted[end..] == objs[end..];
    sorted
  }

  /** The split point start + n / 2 of a range of n objects. */
  function Mid(start: nat, end: nat): (mid: nat)
    requires start <= end
    ensures start <= mid <= end
    ensures start + 2 <= end ==> start < mid < end
  {
    start + (end - start) / 2
  }

  /**
   * bvh_node(objects, start, end). The axis is random_int(0, 2) of the draw this node takes,
   * identified by its range. One object gives a node with that object on both sides; two give
   * the pair ordered by the comparator; more are sorted on the axis in the private copy and
   * split at the midpoint. The node's box is the union of its children's boxes.
   */
  function Build(arena: seq<Object>, objs: seq<nat>, start: nat, end: nat, draw: (nat, nat) -> real): (node: Bvh)
    requires WellFormed(arena) && AllBelow(objs, |arena|) && start < end <= |objs|
    ensures node.Node? && Below(node, |arena|)
    ensures node.box == Union(ChildBox(arena, |arena|, node.left), ChildBox(arena, |arena|, node.right))
    decreases end - start
  {
    var axis := RandomInt(0, 2, draw(start, end));
    if end - start == 1 then
      var o := objs[start];
      Node(Leaf(o), Leaf(o), Union(BoxOf(arena, o), BoxOf(arena, o)))
    else if end - start == 2 then
      var (l, r) := if Compare(arena, axis, objs[start], objs[start + 1]) then (objs[start], objs[start + 1])
                    else (objs[start + 1], objs[start]);
      Node(Leaf(l), Leaf(r), Union(BoxOf(arena, l), BoxOf(arena, r)))
    else
      var sorted := SortRange(arena, axis, objs, start, end);
      var mid := Mid(start, end);
      var left := Build(arena, sorted, start, mid, draw);
      var right := Build(arena, sorted, mid, end, draw);
      Node(left, right, Union(ChildBox(arena, |arena|, left), ChildBox(arena, |arena|, right)))
  }

  /** bvh_node(scene): a tree over the whole list, whose leaves are exactly the scene's objects. */
  function FromScene(arena: seq<Object>, objs: seq<nat>, draw: (nat, nat) -> real): (node: Bvh)
    requires WellFormed(arena) && AllBelow(objs, |arena|) && 0 < |objs|
    ensures node.Node? && Below(node, |arena|)
    ensures Members(node) == set x | x in objs
  {
    BuildMembers(arena, objs, 0, |objs|, draw);
    assert objs[0..|objs|] == objs;
    Build(arena, objs, 0, |objs|, draw)
  }

  /** An empty range, as the source would split it: the left half is the range itself. */
  function AsWrittenSplit(start: nat, end: nat): (halves: ((nat, nat), (nat, nat)))
    requires start <= end
  {
    var mid := start + (end - start) / 2;
    ((start, mid), (mid, end))
  }

  /** With no object, the source's default branch recurses on the same empty range forever. */
  lemma EmptyRangeRecursesOnItself(start: nat)
    ensures AsWrittenSplit(start, start).0 == (start, start)
    ensures AsWrittenSplit(start, start).1 == (start, start)
  {
  }

  /** Each half of a range of three or more objects is nonempty and strictly smaller. */
  lemma SplitShrinks(start: nat, end: nat)
    requires start + 3 <= end
    ensures start < Mid(start, end) < end
    ensures Mid(start, end) - start < end - start && end - Mid(start, end) < end - start
  {
  }

  // ---------------------------------------------------------------------------------------------
  // What the construction builds

  /** The objects a subtree holds, the one-object node's shared child counted once. */
  function Objects(node: Bvh): multiset<nat>
  {
    match node
    case Leaf(j) => multiset{j}
    case Node(l, r, _) => if l.Leaf? && l == r then Objects(l) else Objects(l) + Objects(r)
  }

  /** A range of three or more objects splits the sorted copy at the midpoint. */
  lemma BuildSplit(arena: seq<Object>, objs: seq<nat>, start: nat, end: nat, draw: (nat, nat) -> real)
    requires WellFormed(arena) && AllBelow(objs, |arena|) && start + 2 < end <= |objs|
    ensures var sorted := SortRange(arena, RandomInt(0, 2, draw(start, end)), objs, start, end);
      var node := Build(arena, objs, start, end, draw);
      && multiset(sorted[start..end]) == multiset(objs[start..end])
      && node.left == Build(arena, sorted, start, Mid(start, end), draw)
      && node.right == Build(arena, sorted, Mid(start, end), end, draw)
  {
  }

  /** The two halves of a permuted range hold the range's elements. */
  lemma SplitElements(sorted: seq<nat>, objs: seq<nat>, start: nat, mid: nat, end: nat)
    requires start <= mid <= end <= |sorted| && end <= |objs|
    requires multiset(sorted[start..end]) == multiset(objs[start..end])
    ensures (set x | x in sorted[start..mid]) + (set x | x in sorted[mid..end]) == set x | x in objs[start..end]
  {
    assert sorted[start..end] == sorted[start..mid] + sorted[mid..end];
    forall x
      ensures x in sorted[start..end] <==> x in objs[start..end]
    {
      assert x in sorted[start..end] <==> x in multiset(sorted[start..end]);
      assert x in objs[start..end] <==> x in multiset(objs[start..end]);
    }
  }

  /** The two halves of a permuted range without repetitions have none either, and share it out. */
  lemma SplitDistinct(sorted: seq<nat>, objs: seq<nat>, start: nat, mid: nat, end: nat)
    requires start <= mid <= end <= |sorted| && end <= |objs|
    requires multiset(sorted[start..end]) == multiset(objs[start..end]) && Distinct(objs[start..end])
    ensures Distinct(sorted[start..mid]) && Distinct(sorted[mid..end])
    ensures multiset(sorted[start..mid]) + multiset(sorted[mid..end]) == multiset(objs[start..end])
  {
    assert sorted[start..end] == sorted[start..mid] + sorted[mid..end];
    assert multiset(sorted[start..end]) == multiset(sorted[start..mid]) + multiset(sorted[mid..end]);
    forall x
      ensures multiset(sorted[start..mid])[x] <= 1 && multiset(sorted[mid..end])[x] <= 1
    {
      assert multiset(sorted[start..end])[x] == multiset(objs[start..end])[x];
    }
  }

  /** The leaves reached are exactly the objects of the range. */
  lemma {:induction false} BuildMembers(arena: seq<Object>, objs: seq<nat>, start: nat, end: nat, draw: (nat, nat) -> real)
    requires WellFormed(arena) && AllBelow(objs, |arena|) && start < end <= |objs|
    ensures Members(Build(arena, objs, start, end, draw)) == set x | x in objs[start..end]
    decreases end - start
  {
    if end - start > 2 {
      var sorted := SortRange(arena, RandomInt(0, 2, draw(start, end)), objs, start, end);
      var mid := Mid(start, end);
      BuildSplit(arena, objs, start, end, draw);
      BuildMembers(arena, sorted, start, mid, draw);
      BuildMembers(arena, sorted, mid, end, draw);
      SplitElements(sorted, objs, start, mid, end);
    } else if end - start == 2 {
      assert objs[start..end] == [objs[start], objs[start + 1]];
    } else {
      assert objs[start..end] == [objs[start]];
    }
  }

  /** No object occurs twice. */
  ghost predicate Distinct(s: seq<nat>)
  {
    forall x :: multiset(s)[x] <= 1
  }

  /** Over a list without repetitions, every object of the range is held exactly once. */
  lemma {:induction false} BuildObjects(arena: seq<Object>, objs: seq<nat>, start: nat, end: nat, draw: (nat, nat) -> real)
    requires WellFormed(arena) && AllBelow(objs, |arena|) && start < end <= |objs|
    requires Distinct(objs[start..end])
    ensures Objects(Build(arena, objs, start, end, draw)) == multiset(objs[start..end])
    decreases end - start
  {
    if end - start > 2 {
      var sorted := SortRange(arena, RandomInt(0, 2, draw(start, end)), objs, start, end);
      var mid := Mid(start, end);
      var node := Build(arena, objs, start, end, draw);
      BuildSplit(arena, objs, start, end, draw);
      SplitDistinct(sorted, objs, start, mid, end);
      BuildObjects(arena, sorted, start, mid, draw);
      BuildObjects(arena, sorted, mid, end, draw);
      assert node.left.Node?;
      assert Objects(node) == Objects(node.left) + Objects(node.right);
    } else if end - start == 2 {
      var node := Build(arena, objs, start, end, draw);
      assert objs[start..end] == [objs[start], objs[start + 1]];
      assert multiset(objs[start..end])[objs[start]] == if objs[start] == objs[start + 1] then 2 else 1;
      assert objs[start] != objs[start + 1];
      assert node.left != node.right;
      assert Objects(node) == multiset{objs[start], objs[start + 1]};
    } else {
      assert objs[start..end] == [objs[start]];
    }
  }

  /** A one-object range gives a node whose two children are that object. */
  lemma BuildSingle(arena: seq<Object>, objs: seq<nat>, start: nat, draw: (nat, nat) -> real)
    requires WellFormed(arena) && AllBelow(objs, |arena|) && start < |objs|
    ensures var node := Build(arena, objs, start, start + 1, draw);
      node.left == Leaf(objs[start]) && node.right == Leaf(objs[start])
      && Objects(node) == multiset{objs[start]}
  {
  }

  /** A two-object range puts the object with the smaller key (or the second on a tie) on the left. */
  lemma BuildPair(arena: seq<Object>, objs: seq<nat>, start: nat, draw: (nat, nat) -> real)
    requires WellFormed(arena) && AllBelow(objs, |arena|) && start + 2 <= |objs|
    ensures var node := Build(arena, objs, start, start + 2, draw);
      var axis := RandomInt(0, 2, draw(start, start + 2));
      && node.left.Leaf? && node.right.Leaf?
      && {node.left.obj, node.right.obj} == {objs[start], objs[start + 1]}
      && Le(Key(arena, axis, node.left.obj), Key(arena, axis, node.right.obj))
      && (Compare(arena, axis, objs[start], objs[start + 1]) ==> node.left.obj == objs[start])
      && (Compare(arena, axis, objs[start + 1], objs[start]) ==> node.left.obj == objs[start + 1])
  {
  }

  /** Every node's box includes the boxes of its two children. */
  ghost predicate Covers(arena: seq<Object>, node: Bvh)
    requires WellFormed(arena) && Below(node, |arena|)
  {
    match node
    case Leaf(_) => true
    case Node(l, r, box) =>
      && Includes(box, ChildBox(arena, |arena|, l)) && Includes(box, ChildBox(arena, |arena|, r))
      && Covers(arena, l) && Covers(arena, r)
  }

  /** The constructed tree's boxes include their children's, as unions do. */
  lemma {:induction false} BuildCovers(arena: seq<Object>, objs: seq<nat>, start: nat, end: nat, draw: (nat, nat) -> real)
    requires WellFormed(arena) && AllBelow(objs, |arena|) && start < end <= |objs|
    ensures Covers(arena, Build(arena, objs, start, end, draw))
    decreases end - start
  {
    var axis := RandomInt(0, 2, draw(start, end));
    if end - start > 2 {
      var sorted := SortRange(arena, axis, objs, start, end);
      var mid := Mid(start, end);
      BuildCovers(arena, sorted, start, mid, draw);
      BuildCovers(arena, sorted, mid, end, draw);
    }
  }

  /** A covering node's box includes the box of every object below it. */
  lemma {:induction false} CoversLeaf(arena: seq<Object>, node: Bvh, j: nat)
    requires WellFormed(arena) && Below(node, |arena|) && Covers(arena, node)
    requires j in Members(node)
    ensures j < |arena| && Includes(ChildBox(arena, |arena|, node), BoxOf(arena, j))
  {
    match node
    case Leaf(k) =>
      IncludesReflexive(BoxOf(arena, j));
    case Node(l, r, box) =>
      var child := if j in Members(l) then l else r;
      CoversLeaf(arena, child, j);
      IncludesTransitive(box, ChildBox(arena, |arena|, child), BoxOf(arena, j));
  }

  // ---------------------------------------------------------------------------------------------
  // Traversal finds the nearest hit

  /** Whenever the object is hit over an interval, the slab test of its box over it passes. */
  ghost predicate BoxSound(env: Env, arena: seq<Object>, j: nat, r: Ray, a: Ext)
    requires WellFormed(arena) && j < |arena|
  {
    forall b: Ext :: Hit(env, arena, j, r, Interval(a, b)).Some? ==> ClosedSlabHit(BoxOf(arena, j), r, Interval(a, b))
  }

  /** Every object below the node narrows and is bounded by its box. */
  ghost predicate LeavesSound(env: Env, arena: seq<Object>, node: Bvh, r: Ray, a: Ext)
    requires WellFormed(arena) && Below(node, |arena|)
  {
    match node
    case Leaf(j) => Narrowing(env, arena, j, r, a) && BoxSound(env, arena, j, r, a)
    case Node(l, rt, _) => LeavesSound(env, arena, l, r, a) && LeavesSound(env, arena, rt, r, a)
  }

  lemma {:induction false} LeafSound(env: Env, arena: seq<Object>, node: Bvh, r: Ray, a: Ext, j: nat)
    requires WellFormed(arena) && Below(node, |arena|) && LeavesSound(env, arena, node, r, a)
    requires j in Members(node)
    ensures j < |arena| && Narrowing(env, arena, j, r, a) && BoxSound(env, arena, j, r, a)
  {
    match node
    case Leaf(k) =>
    case Node(l, rt, _) =>
      if j in Members(l) {
        LeafSound(env, arena, l, r, a, j);
      } else {
        LeafSound(env, arena, rt, r, a, j);
      }
  }

  /** The objects below a node are its leaves. */
  lemma {:induction false} MembersBelow(node: Bvh, bound: nat, j: nat)
    requires Below(node, bound) && j in Members(node)
    ensures j < bound
  {
    match node
    case Leaf(k) =>
    case Node(l, r, _) =>
      if j in Members(l) {
        MembersBelow(l, bound, j);
      } else {
        MembersBelow(r, bound, j);
      }
  }

  /** Soundness of every member gives soundness of the whole tree. */
  lemma {:induction false} SoundFromMembers(env: Env, arena: seq<Object>, node: Bvh, r: Ray, a: Ext)
    requires WellFormed(arena) && Below(node, |arena|)
    requires forall j :: j in Members(node) && j < |arena| ==> Narrowing(env, arena, j, r, a) && BoxSound(env, arena, j, r, a)
    ensures LeavesSound(env, arena, node, r, a)
  {
    match node
    case Leaf(j) =>
      assert j in Members(node);
    case Node(l, rt, _) =>
      forall j | j in Members(l) && j < |arena|
        ensures Narrowing(env, arena, j, r, a) && BoxSound(env, arena, j, r, a)
      {
        assert j in Members(node);
      }
      forall j | j in Members(rt) && j < |arena|
        ensures Narrowing(env, arena, j, r, a) && BoxSound(env, arena, j, r, a)
      {
        assert j in Members(node);
      }
      SoundFromMembers(env, arena, l, r, a);
      SoundFromMembers(env, arena, rt, r, a);
  }

  /**
   * bvh_node::intersect finds the nearest hit of the objects below the node, when each of them
   * narrows and is bounded by its box and every node's box includes its children's.
   */
  lemma {:induction false} TraverseIsNearest(env: Env, arena: seq<Object>, node: Bvh, r: Ray, a: Ext, b: Ext)
    requires env.m.SqrtLaws() && WellFormed(arena) && Below(node, |arena|)
    requires Covers(arena, node) && LeavesSound(env, arena, node, r, a)
    ensures NearestIn(env, arena, Members(node), r, a, b, Traverse(env, arena, |arena|, node, r, Interval(a, b)))
    decreases node
  {
    match node
    case Leaf(j) =>
      SingleNearest(env, arena, j, r, a, b);
    case Node(l, rt, box) =>
      if !ClosedSlabHit(box, r, Interval(a, b)) {
        BoxMissesAll(env, arena, node, r, a, b);
      } else {
        var h1 := Traverse(env, arena, |arena|, l, r, Interval(a, b));
        var c := Bound(h1, b);
        TraverseIsNearest(env, arena, l, r, a, b);
        TraverseIsNearest(env, arena, rt, r, a, c);
        forall j | j in Members(rt) && j < |arena|
          ensures Narrowing(env, arena, j, r, a)
        {
          LeafSound(env, arena, rt, r, a, j);
        }
        var h2 := Traverse(env, arena, |arena|, rt, r, Interval(a, c));
        CombineNearest(env, arena, Members(l), Members(rt), r, a, b, h1, h2);
      }
  }

  /** When a node's box is missed, so is every object below it. */
  lemma BoxMissesAll(env: Env, arena: seq<Object>, node: Bvh, r: Ray, a: Ext, b: Ext)
    requires WellFormed(arena) && Below(node, |arena|) && node.Node?
    requires Covers(arena, node) && LeavesSound(env, arena, node, r, a)
    requires !ClosedSlabHit(node.box, r, Interval(a, b))
    ensures AllMiss(env, arena, Members(node), r, a, b)
  {
    forall j | j in Members(node) && j < |arena|
      ensures Hit(env, arena, j, r, Interval(a, b)).None?
    {
      LeafSound(env, arena, node, r, a, j);
      CoversLeaf(arena, node, j);
      if Hit(env, arena, j, r, Interval(a, b)).Some? {
        ClosedSlabHitMonotone(BoxOf(arena, j), node.box, r, Interval(a, b), Interval(a, b));
        assert false;
      }
    }
  }

  /** Two nearest hits of the same objects agree on whether there is a hit and on its t. */
  lemma NearestUnique(env: Env, arena: seq<Object>, S: set<nat>, r: Ray, a: Ext, b: Ext, h1: Option<HitRecord>, h2: Option<HitRecord>)
    requires WellFormed(arena)
    requires NearestIn(env, arena, S, r, a, b, h1) && NearestIn(env, arena, S, r, a, b, h2)
    ensures h1.Some? <==> h2.Some?
    ensures h1.Some? ==> h1.value.t == h2.value.t
  {
    if h1.Some? && h2.Some? {
      var j1 :| j1 in S && j1 < |arena| && Hit(env, arena, j1, r, Interval(a, b)).Some?
        && Hit(env, arena, j1, r, Interval(a, b)).value.t == h1.value.t;
      var j2 :| j2 in S && j2 < |arena| && Hit(env, arena, j2, r, Interval(a, b)).Some?
        && Hit(env, arena, j2, r, Interval(a, b)).value.t == h2.value.t;
    }
  }

  /**
   * A BVH built over a list agrees with the linear scan of that list, on hit or miss and on the
   * nearest t, when every object narrows and is bounded by its box.
   */
  lemma BvhAgreesWithScan(env: Env, arena: seq<Object>, objs: seq<nat>, draw: (nat, nat) -> real, r: Ray, a: Ext, b: Ext)
    requires env.m.SqrtLaws() && WellFormed(arena) && AllBelow(objs, |arena|) && 0 < |objs|
    requires forall k :: 0 <= k < |objs| ==> Narrowing(env, arena, objs[k], r, a) && BoxSound(env, arena, objs[k], r, a)
    ensures var hb := Traverse(env, arena, |arena|, FromScene(arena, objs, draw), r, Interval(a, b));
      var hs := Scan(env, arena, |arena|, objs, r, Interval(a, b));
      (hb.Some? <==> hs.Some?) && (hb.Some? ==> hb.value.t == hs.value.t)
  {
    var root := FromScene(arena, objs, draw);
    BuildCovers(arena, objs, 0, |objs|, draw);
    forall j | j in Members(root) && j < |arena|
      ensures Narrowing(env, arena, j, r, a) && BoxSound(env, arena, j, r, a)
    {
      var k :| 0 <= k < |objs| && objs[k] == j;
    }
    SoundFromMembers(env, arena, root, r, a);
    TraverseIsNearest(env, arena, root, r, a, b);
    ScanIsNearest(env, arena, |arena|, objs, r, a, b);
    NearestUnique(env, arena, Members(root), r, a, b,
                  Traverse(env, arena, |arena|, root, r, Interval(a, b)), Scan(env, arena, |arena|, objs, r, Interval(a, b)));
  }

  // ---------------------------------------------------------------------------------------------
  // Box soundness of the primitives, and the agreement it gives

  /** A quad whose derived fields are those quad's constructor computes lies inside its box. */
  lemma QuadBoxSound(env: Env, arena: seq<Object>, j: nat, r: Ray, a: Ext)
    requires WellFormed(arena) && j < |arena| && arena[j].QuadObj? && arena[j].quad.Valid(env.m)
    ensures BoxSound(env, arena, j, r, a)
  {
    var qd := arena[j].quad;
    forall b: Ext | Hit(env, arena, j, r, Interval(a, b)).Some?
      ensures ClosedSlabHit(BoxOf(arena, j), r, Interval(a, b))
    {
      Quads.HitInsideBox(env.m, qd, r, Interval(a, b));
      var rec := Quads.Intersect(qd, r, Interval(a, b)).value;
      assert Interval(a, b).Contains(rec.t) && qd.box.Contains(r.At(rec.t));
    }
  }

  /**
   * A sphere whose box is the one its constructor computes lies inside that box; a moving
   * sphere only for ray times in [0, 1], the sweep its box covers.
   */
  lemma SphereBoxSound(env: Env, arena: seq<Object>, j: nat, r: Ray, a: Ext)
    requires env.m.SqrtExact() && WellFormed(arena) && j < |arena| && arena[j].SphereObj?
    requires arena[j].sphere.Consistent() && (arena[j].sphere.isMoving ==> 0.0 <= r.tm <= 1.0)
    ensures BoxSound(env, arena, j, r, a)
  {
    var s := arena[j].sphere;
    forall b: Ext | Hit(env, arena, j, r, Interval(a, b)).Some?
      ensures ClosedSlabHit(BoxOf(arena, j), r, Interval(a, b))
    {
      Spheres.HitInsideBox(env.m, env.uv, s, r, Interval(a, b));
      var rec := Spheres.Intersect(env.m, env.uv, s, r, Interval(a, b)).value;
      assert Interval(a, b).Contains(rec.t) && s.box.Contains(r.At(rec.t));
    }
  }

  /** The objects the scene builders put in a BVH: spheres and quads as their constructors make them. */
  ghost predicate Primitive(env: Env, arena: seq<Object>, j: nat, r: Ray)
    requires j < |arena|
  {
    match arena[j]
    case SphereObj(s) => s.Consistent() && (s.isMoving ==> 0.0 <= r.tm <= 1.0)
    case QuadObj(qd) => qd.Valid(env.m)
    case _ => false
  }

  /**
   * A BVH built over spheres and quads agrees with the linear scan of the same list, on hit or
   * miss and on the nearest t: both hypotheses of BvhAgreesWithScan are discharged.
   */
  lemma BvhAgreesWithScanPrimitives(env: Env, arena: seq<Object>, objs: seq<nat>, draw: (nat, nat) -> real, r: Ray, a: Ext, b: Ext)
    requires env.m.SqrtExact() && WellFormed(arena) && AllBelow(objs, |arena|) && 0 < |objs|
    requires forall k :: 0 <= k < |objs| ==> Primitive(env, arena, objs[k], r)
    ensures var hb := Traverse(env, arena, |arena|, FromScene(arena, objs, draw), r, Interval(a, b));
      var hs := Scan(env, arena, |arena|, objs, r, Interval(a, b));
      (hb.Some? <==> hs.Some?) && (hb.Some? ==> hb.value.t == hs.value.t)
  {
    forall k | 0 <= k < |objs|
      ensures Narrowing(env, arena, objs[k], r, a) && BoxSound(env, arena, objs[k], r, a)
    {
      assert Primitive(env, arena, objs[k], r);
      PrimitiveNarrowing(env, arena, objs[k], r, a);
      if arena[objs[k]].SphereObj? {
        SphereBoxSound(env, arena, objs[k], r, a);
      } else {
        QuadBoxSound(env, arena, objs[k], r, a);
      }
    }
    BvhAgreesWithScan(env, arena, objs, draw, r, a, b);
  }

  // ---------------------------------------------------------------------------------------------
  // The grazing ray, at the level of the scene

  /** The union of a box with itself is that box. */
  lemma UnionSelf(box: BBox)
    ensures Union(box, box) == box
  {
    assert Hull(box.x, box.x) == box.x;
    assert Hull(box.y, box.y) == box.y;
    assert Hull(box.z, box.z) == box.z;
  }

  /**
   * Over the one quad qd, the scan reports a hit on t, the root's box fails the slab test of
   * bbox.h:66, and the traversal with the closed test finds the hit.
   */
  ghost predicate OneQuadGraze(env: Env, qd: Quads.Quad, r: Ray, t: Interval, draw: (nat, nat) -> real)
  {
    && 0.0 < qd.area
    && (assert Fits(QuadObj(qd), 0);
        && Scan(env, [QuadObj(qd)], 1, [0], r, t).Some?
        && !SlabHit(FromScene([QuadObj(qd)], [0], draw).box, r, t)
        && Traverse(env, [QuadObj(qd)], 1, FromScene([QuadObj(qd)], [0], draw), r, t).Some?)
  }

  /**
   * As written, a BVH and the scene list disagree on any quad that a ray hits while missing the
   * slab test of bbox.h:66 on the quad's box: over that one quad the scan reports the hit, while
   * the root's box, the union of the quad's box with itself, fails the test, so the BVH reports
   * a miss. With the closed test the traversal finds the hit, as BvhAgreesWithScan promises.
   */
  lemma OneQuadDisagrees(env: Env, qd: Quads.Quad, r: Ray, t: Interval, draw: (nat, nat) -> real)
    requires env.m.SqrtLaws() && qd.Valid(env.m)
    requires Quads.Intersect(qd, r, t).Some? && !SlabHit(qd.box, r, t)
    ensures OneQuadGraze(env, qd, r, t, draw)
  {
    var arena := [QuadObj(qd)];
    assert Fits(arena[0], 0);
    assert Hit(env, arena, 0, r, t).Some?;
    var root := FromScene(arena, [0], draw);
    BuildSingle(arena, [0], 0, draw);
    assert [0][0..1] == [0];
    UnionSelf(qd.box);
    PrimitiveNarrowing(env, arena, 0, r, t.min);
    QuadBoxSound(env, arena, 0, r, t.min);
    var objs := [0];
    forall k | 0 <= k < |objs|
      ensures Narrowing(env, arena, objs[k], r, t.min) && BoxSound(env, arena, objs[k], r, t.min)
    {
      assert objs[k] == 0;
    }
    BvhAgreesWithScan(env, arena, objs, draw, r, t.min, t.max);
  }

  /**
   * The grazing ray of Quads.GrazingCornerMissesSlab, on a quad whose box is exactly the one the
   * program builds: the scene finds the corner, the as-written BVH does not.
   */
  lemma GrazingCornerDisagrees(env: Env, q: Vectors.Point3, u: Vectors.Vec3, v: Vectors.Vec3, r: Ray, draw: (nat, nat) -> real)
    requires env.m.SqrtLaws()
    requires q == Vectors.Zero && u == Vectors.Vec3(1.0, 0.0, 0.0) && v == Vectors.Vec3(0.0, 0.0, 1.0)
    requires r == MakeRay(Vectors.Vec3(0.0, 1.0, -1.0), Vectors.Vec3(1.0, -1.0, 1.0))
    ensures Quads.NonDegenerate(env.m, u, v)
    ensures Quads.MakeQuad(env.m, q, u, v, Base).box == Quads.AsWrittenBox(q, u, v)
    ensures OneQuadGraze(env, Quads.MakeQuad(env.m, q, u, v, Base), r, Quads.PdfProbe, draw)
  {
    Quads.GrazingCornerMissesSlab(env.m, q, u, v, r);
    OneQuadDisagrees(env, Quads.MakeQuad(env.m, q, u, v, Base), r, Quads.PdfProbe, draw);
  }
}
