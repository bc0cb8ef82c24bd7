/** `rayIntersectBvh` (src/common/ray_intersection.cpp): the closest-hit walk
    of the bounding volume hierarchy with an explicit stack, and the
    brute-force scan the tests compare it with (src/tests/bvh.cpp). The
    floating-point tests are supplied by a `RayOracle`: the
    Moller-Trumbore test gives, for each triangle, the intersection it would
    report (its distance `t` is compared with the current `rayTMax`), and the
    slab test answers whether the ray meets a box before a given `rayTMax`.
    Distances are taken as real numbers, which only need to be ordered. */
module RayIntersection {
  import opened Results
  import opened Geometry
  import opened BoundingVolumeHierarchy

  /** The capacity of the `nodesToVisit` stack. */
  const STACK_SIZE: nat := 32

  /** A hit: the (offset) hit point and the distance along the ray. */
  datatype Intersection = Intersection(p: Vec3, t: real)

  /** The ray's floating-point tests. `triangle(tri)` is the intersection
      `rayIntersectTriangle` computes for `tri` when the ray meets it in front
      of the origin (`t > EPSILON`), whatever the current `rayTMax`;
      `aabb(box, tMax)` is `rayIntersectAabb`; `dirNeg(axis)` is the sign of
      the ray direction along `axis`, as `RayAabbIntersector` records it. */
  datatype RayOracle = RayOracle(
    triangle: Positions -> Option<Intersection>,
    aabb: (Aabb, real) -> bool,
    dirNeg: Axis -> bool)

  /** `rayIntersectTriangle(ray, tri, tMax, intersect)` succeeds: the ray
      meets the triangle strictly closer than `tMax`. */
  predicate TriangleHit(o: RayOracle, tri: Positions, tMax: real) {
    o.triangle(tri).Some? && o.triangle(tri).value.t < tMax
  }

  /** `rayTMax` after testing the triangles in order, starting from `tMax`,
      each success lowering it to the hit's distance. */
  function ClosestHit(o: RayOracle, tris: seq<Positions>, tMax: real): (t: real)
    ensures t <= tMax
  {
    if tris == [] then tMax
    else
      var t := ClosestHit(o, tris[..|tris| - 1], tMax);
      if TriangleHit(o, tris[|tris| - 1], t) then o.triangle(tris[|tris| - 1]).value.t else t
  }

  /** `t` is the distance of the closest hit among `tris` nearer than `tMax`,
      or `tMax` itself when there is none: no triangle is hit closer than
      `t`, and `t` is `tMax` or the distance of a hit. */
  ghost predicate IsClosest(o: RayOracle, tris: seq<Positions>, tMax: real, t: real) {
    && t <= tMax
    && (forall j :: 0 <= j < |tris| ==> !TriangleHit(o, tris[j], t))
    && (t == tMax || exists j :: 0 <= j < |tris| && o.triangle(tris[j]).Some? && o.triangle(tris[j]).value.t == t)
  }

  /** Scanning the triangles in order finds the closest hit. */
  lemma {:induction false} ClosestHitIsClosest(o: RayOracle, tris: seq<Positions>, tMax: real)
    ensures IsClosest(o, tris, tMax, ClosestHit(o, tris, tMax))
  {
    if tris != [] {
      var n := |tris| - 1;
      var front := tris[..n];
      ClosestHitIsClosest(o, front, tMax);
      var t := ClosestHit(o, front, tMax);
      var r := ClosestHit(o, tris, tMax);
      forall j | 0 <= j < |tris|
        ensures !TriangleHit(o, tris[j], r)
      {
        if j < n {
          assert tris[j] == front[j];
        }
      }
      if r != tMax && r != t {
        assert o.triangle(tris[n]).value.t == r;
      } else if r != tMax {
        var j :| 0 <= j < |front| && o.triangle(front[j]).Some? && o.triangle(front[j]).value.t == t;
        assert tris[j] == front[j];
      }
    }
  }

  /** The closest hit is unique: whichever order the triangles are tested
      in, the resulting distance is the same. */
  lemma ClosestUnique(o: RayOracle, tris: seq<Positions>, tMax: real, t1: real, t2: real)
    requires IsClosest(o, tris, tMax, t1) && IsClosest(o, tris, tMax, t2)
    ensures t1 == t2
  {
    if t1 != tMax {
      var j :| 0 <= j < |tris| && o.triangle(tris[j]).Some? && o.triangle(tris[j]).value.t == t1;
      assert !TriangleHit(o, tris[j], t2);
    }
    if t2 != tMax {
      var j :| 0 <= j < |tris| && o.triangle(tris[j]).Some? && o.triangle(tris[j]).value.t == t2;
      assert !TriangleHit(o, tris[j], t1);
    }
  }

  /** A closest hit nearer than `tMax` exists exactly when some triangle is
      hit closer than `tMax`. */
  lemma ClosestHitFound(o: RayOracle, tris: seq<Positions>, tMax: real)
    ensures ClosestHit(o, tris, tMax) < tMax <==> exists j :: 0 <= j < |tris| && TriangleHit(o, tris[j], tMax)
  {
    ClosestHitIsClosest(o, tris, tMax);
    var r := ClosestHit(o, tris, tMax);
    if r < tMax {
      var j :| 0 <= j < |tris| && o.triangle(tris[j]).Some? && o.triangle(tris[j]).value.t == r;
      assert TriangleHit(o, tris[j], tMax);
    }
  }

  /** `bruteForceRayIntersectModel`: tests every triangle in order. The
      result says whether any test succeeded; the intersection is that of the
      closest hit, or the caller's value when there is none. */
  method BruteForceIntersect(o: RayOracle, tris: seq<Positions>, rayTMax0: real, intersect0: Intersection)
    returns (didIntersect: bool, intersect: Intersection)
    ensures didIntersect <==> ClosestHit(o, tris, rayTMax0) < rayTMax0
    ensures didIntersect ==> Reported(o, tris, intersect) && intersect.t == ClosestHit(o, tris, rayTMax0)
    ensures !didIntersect ==> intersect == intersect0
  {
    var rayTMax := rayTMax0;
    didIntersect, intersect := false, intersect0;
    for i := 0 to |tris|
      invariant rayTMax == ClosestHit(o, tris[..i], rayTMax0)
      invariant Progress(o, tris, rayTMax0, intersect0, rayTMax, didIntersect, intersect)
    {
      assert tris[..i + 1][..i] == tris[..i];
      var hit := o.triangle(tris[i]);
      if hit.Some? && hit.value.t < rayTMax {
        intersect := hit.value;
        rayTMax := intersect.t;
        didIntersect := true;
      }
    }
    assert tris[..|tris|] == tris;
  }

  /** `intersect` is the intersection reported for one of the triangles. */
  ghost predicate Reported(o: RayOracle, tris: seq<Positions>, intersect: Intersection) {
    exists j :: 0 <= j < |tris| && o.triangle(tris[j]) == Some(intersect)
  }

  /** The state of a search started from `rayTMax0`: `rayTMax` only went
      down, `didIntersect` records whether it did, and then `intersect` is a
      reported hit at distance `rayTMax`; otherwise `intersect` is untouched. */
  ghost predicate Progress(o: RayOracle, tris: seq<Positions>, rayTMax0: real, intersect0: Intersection,
                           rayTMax: real, didIntersect: bool, intersect: Intersection) {
    && rayTMax <= rayTMax0
    && (didIntersect <==> rayTMax < rayTMax0)
    && (didIntersect ==> intersect.t == rayTMax && Reported(o, tris, intersect))
    && (!didIntersect ==> intersect == intersect0)
  }

  /** The leaf loop of `rayIntersectBvh`: tests the triangles
      `offset..offset + count` in order. `rayTMax` ends as the closest hit of
      that range, and the search state stays consistent. */
  method IntersectLeaf(o: RayOracle, tris: seq<Positions>, offset: nat, count: nat,
                       rayTMax: real, didIntersect: bool, intersect: Intersection,
                       ghost rayTMax0: real, ghost intersect0: Intersection)
    returns (rayTMax': real, didIntersect': bool, intersect': Intersection)
    requires offset + count <= |tris|
    requires Progress(o, tris, rayTMax0, intersect0, rayTMax, didIntersect, intersect)
    ensures rayTMax' == ClosestHit(o, tris[offset..offset + count], rayTMax)
    ensures Progress(o, tris, rayTMax0, intersect0, rayTMax', didIntersect', intersect')
  {
    rayTMax', didIntersect', intersect' := rayTMax, didIntersect, intersect;
    for idx := 0 to count
      invariant rayTMax' == ClosestHit(o, tris[offset..offset + idx], rayTMax)
      invariant rayTMax' <= rayTMax
      invariant Progress(o, tris, rayTMax0, intersect0, rayTMax', didIntersect', intersect')
    {
      assert tris[offset..offset + idx + 1][..idx] == tris[offset..offset + idx];
      var triangle := tris[offset + idx];
      var hit := o.triangle(triangle);
      if hit.Some? && hit.value.t < rayTMax' {
        intersect' := hit.value;
        rayTMax' := intersect'.t;
        didIntersect' := true;
      }
    }
  }

  /** The ray meets `box` before `t` whenever one of the triangles in the
      range `ni` is hit closer than `t`. */
  ghost predicate BoxBounds(o: RayOracle, box: Aabb, ni: NodeInfo, tris: seq<Positions>) {
    forall j, t :: 0 <= j < |tris| && InRange(ni, j) && TriangleHit(o, tris[j], t) ==> o.aabb(box, t)
  }

  /** Every node's box is hit whenever one of the triangles in its range is.
      This is a hypothesis of the walk: the builder takes its boxes from its
      bounds oracle, and nothing here proves that they enclose their
      triangles. */
  ghost predicate BoundsConservative(o: RayOracle, nodes: seq<BvhNode>, info: seq<NodeInfo>, tris: seq<Positions>)
    requires |nodes| == |info|
  {
    forall i :: 0 <= i < |nodes| ==> BoxBounds(o, nodes[i].aabb, info[i], tris)
  }

  /** Every triangle still hit closer than `t` lies in the range of a node
      of `frontier`: the nodes still to be visited. */
  ghost predicate Pending(o: RayOracle, info: seq<NodeInfo>, tris: seq<Positions>, t: real, frontier: seq<nat>)
    requires forall k :: 0 <= k < |frontier| ==> frontier[k] < |info|
  {
    forall j :: 0 <= j < |tris| && TriangleHit(o, tris[j], t) ==>
      exists k :: 0 <= k < |frontier| && InRange(info[frontier[k]], j)
  }

  /** A node whose range holds no triangle hit closer than `t'` leaves the
      frontier; lowering `t` to `t'` keeps the rest pending. */
  lemma DropCleared(o: RayOracle, info: seq<NodeInfo>, tris: seq<Positions>, t: real, t': real,
                    stack: seq<nat>, cur: nat)
    requires cur < |info| && forall k :: 0 <= k < |stack| ==> stack[k] < |info|
    requires Pending(o, info, tris, t, stack + [cur])
    requires t' <= t
    requires Cleared(o, info, tris, cur, t')
    ensures Pending(o, info, tris, t', stack)
  {
    forall j | 0 <= j < |tris| && TriangleHit(o, tris[j], t')
      ensures exists k :: 0 <= k < |stack| && InRange(info[stack[k]], j)
    {
      assert TriangleHit(o, tris[j], t);
      var k :| 0 <= k < |stack + [cur]| && InRange(info[(stack + [cur])[k]], j);
      assert k < |stack|;
      assert (stack + [cur])[k] == stack[k];
    }
  }

  /** Replacing a frontier node by two nodes whose ranges cover its range
      keeps every hit pending. */
  lemma SplitPending(o: RayOracle, info: seq<NodeInfo>, tris: seq<Positions>, t: real,
                     stack: seq<nat>, cur: nat, pushed: nat, next: nat)
    requires cur < |info| && pushed < |info| && next < |info|
    requires forall k :: 0 <= k < |stack| ==> stack[k] < |info|
    requires Pending(o, info, tris, t, stack + [cur])
    requires forall j :: InRange(info[cur], j) ==> InRange(info[pushed], j) || InRange(info[next], j)
    ensures Pending(o, info, tris, t, stack + [pushed] + [next])
  {
    var f := stack + [pushed] + [next];
    forall j | 0 <= j < |tris| && TriangleHit(o, tris[j], t)
      ensures exists k :: 0 <= k < |f| && InRange(info[f[k]], j)
    {
      var k :| 0 <= k < |stack + [cur]| && InRange(info[(stack + [cur])[k]], j);
      if k < |stack| {
        assert f[k] == stack[k] && (stack + [cur])[k] == stack[k];
      } else if InRange(info[pushed], j) {
        assert f[|stack|] == pushed;
      } else {
        assert f[|stack| + 1] == next;
      }
    }
  }

  /** With nothing pending, the search state holds the closest hit. */
  lemma Finish(o: RayOracle, info: seq<NodeInfo>, tris: seq<Positions>, rayTMax0: real, intersect0: Intersection,
               rayTMax: real, didIntersect: bool, intersect: Intersection)
    requires Progress(o, tris, rayTMax0, intersect0, rayTMax, didIntersect, intersect)
    requires Pending(o, info, tris, rayTMax, [])
    ensures rayTMax == ClosestHit(o, tris, rayTMax0)
  {
    ClosestHitIsClosest(o, tris, rayTMax0);
    if didIntersect {
      var j :| 0 <= j < |tris| && o.triangle(tris[j]) == Some(intersect);
    }
    ClosestUnique(o, tris, rayTMax0, rayTMax, ClosestHit(o, tris, rayTMax0));
  }

  /** The walk starts at the root, whose range holds every triangle, with an
      empty stack and nothing found. */
  lemma StartWalk(o: RayOracle, nodes: seq<BvhNode>, info: seq<NodeInfo>, tris: seq<Positions>, n: nat, h: nat,
                  rayTMax0: real, intersect0: Intersection)
    requires WellFormed(nodes, info, n, h) && |nodes| > 0
    requires info[0] == NodeInfo(0, n, |nodes|, 0) && n == |tris|
    ensures Walk(o, nodes, info, tris, [], 0, 0, rayTMax0, intersect0, rayTMax0, false, intersect0)
  {
    var empty: seq<nat> := [];
    assert Pending(o, info, tris, rayTMax0, empty + [0]) by {
      forall j | 0 <= j < |tris| && TriangleHit(o, tris[j], rayTMax0)
        ensures exists k :: 0 <= k < |empty + [0]| && InRange(info[(empty + [0])[k]], j)
      {
        assert InRange(info[(empty + [0])[0]], j);
      }
    }
  }

  /** The subtree sizes of the nodes on the stack. */
  function SumSizes(info: seq<NodeInfo>, stack: seq<nat>): nat
    requires forall k :: 0 <= k < |stack| ==> stack[k] < |info|
  {
    if stack == [] then 0 else SumSizes(info, stack[..|stack| - 1]) + info[stack[|stack| - 1]].size
  }

  /** The nodes the walk may still visit: the current node's subtree and
      those of the nodes on the stack. */
  function Remaining(info: seq<NodeInfo>, stack: seq<nat>, cur: nat): nat
    requires cur < |info| && forall k :: 0 <= k < |stack| ==> stack[k] < |info|
  {
    info[cur].size + SumSizes(info, stack)
  }

  /** Every node of the array is well formed, at depth at most `h`, which is
      below the stack capacity. */
  ghost predicate WellFormed(nodes: seq<BvhNode>, info: seq<NodeInfo>, n: nat, h: nat) {
    && |nodes| == |info|
    && h < STACK_SIZE
    && forall i :: 0 <= i < |nodes| ==> NodeOk(nodes, info, 0, 0, n, 0, h, i)
  }

  /** The state at the head of the loop of `rayIntersectBvh`: the node
      indices in range, the stack no deeper than the current node, each stack
      entry deeper than its position, the visited nodes and the subtrees still
      to visit no more than the whole array, the search state consistent and
      every remaining hit pending. */
  ghost predicate Walk(o: RayOracle, nodes: seq<BvhNode>, info: seq<NodeInfo>, tris: seq<Positions>,
                       stack: seq<nat>, cur: nat, visited: nat, rayTMax0: real, intersect0: Intersection,
                       rayTMax: real, didIntersect: bool, intersect: Intersection)
    requires |nodes| == |info|
  {
    && cur < |nodes|
    && (forall k :: 0 <= k < |stack| ==> stack[k] < |nodes|)
    && |stack| <= info[cur].depth
    && (forall k :: 0 <= k < |stack| ==> info[stack[k]].depth >= k + 1)
    && visited + Remaining(info, stack, cur) <= |nodes|
    && Progress(o, tris, rayTMax0, intersect0, rayTMax, didIntersect, intersect)
    && Pending(o, info, tris, rayTMax, stack + [cur])
  }

  /** No triangle in the range of node `cur` is hit closer than `t`. */
  ghost predicate Cleared(o: RayOracle, info: seq<NodeInfo>, tris: seq<Positions>, cur: nat, t: real)
    requires cur < |info|
  {
    forall j :: 0 <= j < |tris| && InRange(info[cur], j) ==> !TriangleHit(o, tris[j], t)
  }

  /** A node whose box the ray misses holds no hit. */
  lemma MissCleared(o: RayOracle, nodes: seq<BvhNode>, info: seq<NodeInfo>, tris: seq<Positions>, cur: nat, t: real)
    requires |nodes| == |info| && cur < |nodes|
    requires BoundsConservative(o, nodes, info, tris)
    requires !o.aabb(nodes[cur].aabb, t)
    ensures Cleared(o, info, tris, cur, t)
  {
    assert BoxBounds(o, nodes[cur].aabb, info[cur], tris);
  }

  /** A leaf's triangles are those of its range, inside the triangle array. */
  lemma LeafFacts(nodes: seq<BvhNode>, info: seq<NodeInfo>, n: nat, h: nat, cur: nat)
    requires WellFormed(nodes, info, n, h) && cur < |nodes|
    requires nodes[cur].triangleCount > 0
    ensures nodes[cur].trianglesOffset == info[cur].offset
    ensures nodes[cur].triangleCount == info[cur].count
    ensures info[cur].offset + info[cur].count <= n
  {
    assert NodeOk(nodes, info, 0, 0, n, 0, h, cur);
  }

  /** An interior node names a valid split axis and two children inside the
      array. */
  lemma InteriorFacts(nodes: seq<BvhNode>, info: seq<NodeInfo>, n: nat, h: nat, cur: nat)
    requires WellFormed(nodes, info, n, h) && cur < |nodes|
    requires nodes[cur].triangleCount == 0
    ensures nodes[cur].splitAxis < 3
    ensures cur + 1 < |nodes| && nodes[cur].secondChildOffset < |nodes|
  {
    assert NodeOk(nodes, info, 0, 0, n, 0, h, cur);
    assert InteriorAt(nodes, info, 0, cur);
  }

  /** After its triangles are tested, a leaf holds no hit closer than the new
      `rayTMax`. */
  lemma LeafCleared(o: RayOracle, info: seq<NodeInfo>, tris: seq<Positions>, cur: nat,
                    offset: nat, count: nat, t: real)
    requires cur < |info| && offset + count <= |tris|
    requires info[cur].offset == offset && info[cur].count == count
    ensures Cleared(o, info, tris, cur, ClosestHit(o, tris[offset..offset + count], t))
  {
    var r := ClosestHit(o, tris[offset..offset + count], t);
    ClosestHitIsClosest(o, tris[offset..offset + count], t);
    forall j | 0 <= j < |tris| && InRange(info[cur], j)
      ensures !TriangleHit(o, tris[j], r)
    {
      assert tris[j] == tris[offset..offset + count][j - offset];
    }
  }

  /** Popping the stack after a node is cleared: the top entry becomes the
      current node, the walk state is kept at the lowered `rayTMax`, and
      fewer nodes remain. */
  lemma PopStep(o: RayOracle, nodes: seq<BvhNode>, info: seq<NodeInfo>, tris: seq<Positions>, n: nat, h: nat,
                stack: seq<nat>, cur: nat, visited: nat, rayTMax0: real, intersect0: Intersection,
                t: real, didIntersect: bool, intersect: Intersection,
                m: nat, stack': seq<nat>, cur': nat,
                t': real, didIntersect': bool, intersect': Intersection)
    requires WellFormed(nodes, info, n, h)
    requires Walk(o, nodes, info, tris, stack, cur, visited, rayTMax0, intersect0, t, didIntersect, intersect)
    requires Progress(o, tris, rayTMax0, intersect0, t', didIntersect', intersect')
    requires t' <= t && Cleared(o, info, tris, cur, t')
    requires m + 1 == |stack| && stack' == stack[..m] && cur' == stack[m]
    ensures Walk(o, nodes, info, tris, stack', cur', visited + 1, rayTMax0, intersect0, t', didIntersect', intersect')
    ensures Remaining(info, stack', cur') < Remaining(info, stack, cur)
  {
    assert NodeOk(nodes, info, 0, 0, n, 0, h, cur);
    DropCleared(o, info, tris, t, t', stack, cur);
    assert stack' + [cur'] == stack;
  }

  /** With the stack empty, a cleared node ends the walk with the closest
      hit, having visited no more nodes than the array holds. */
  lemma DoneStep(o: RayOracle, nodes: seq<BvhNode>, info: seq<NodeInfo>, tris: seq<Positions>, n: nat, h: nat,
                 stack: seq<nat>, cur: nat, visited: nat, rayTMax0: real, intersect0: Intersection,
                 t: real, didIntersect: bool, intersect: Intersection,
                 t': real, didIntersect': bool, intersect': Intersection)
    requires WellFormed(nodes, info, n, h)
    requires Walk(o, nodes, info, tris, stack, cur, visited, rayTMax0, intersect0, t, didIntersect, intersect)
    requires |stack| == 0
    requires Progress(o, tris, rayTMax0, intersect0, t', didIntersect', intersect')
    requires t' <= t && Cleared(o, info, tris, cur, t')
    ensures t' == ClosestHit(o, tris, rayTMax0)
    ensures visited + 1 <= |nodes|
  {
    assert NodeOk(nodes, info, 0, 0, n, 0, h, cur);
    DropCleared(o, info, tris, t, t', stack, cur);
    Finish(o, info, tris, rayTMax0, intersect0, t', didIntersect', intersect');
  }

  /** At an interior node whose box is hit, one child is pushed and the
      other becomes the current node, in either order: the walk state is
      kept, the stack stays below its capacity and fewer nodes remain. */
  lemma PushStep(o: RayOracle, nodes: seq<BvhNode>, info: seq<NodeInfo>, tris: seq<Positions>, n: nat, h: nat,
                 stack: seq<nat>, cur: nat, visited: nat, rayTMax0: real, intersect0: Intersection,
                 t: real, didIntersect: bool, intersect: Intersection,
                 pushed: nat, stack': seq<nat>, next: nat)
    requires WellFormed(nodes, info, n, h)
    requires Walk(o, nodes, info, tris, stack, cur, visited, rayTMax0, intersect0, t, didIntersect, intersect)
    requires nodes[cur].triangleCount == 0
    requires || (pushed == cur + 1 && next == nodes[cur].secondChildOffset)
             || (pushed == nodes[cur].secondChildOffset && next == cur + 1)
    requires stack' == stack + [pushed]
    ensures |stack'| < STACK_SIZE
    ensures Walk(o, nodes, info, tris, stack', next, visited + 1, rayTMax0, intersect0, t, didIntersect, intersect)
    ensures Remaining(info, stack', next) < Remaining(info, stack, cur)
  {
    assert NodeOk(nodes, info, 0, 0, n, 0, h, cur);
    assert InteriorAt(nodes, info, 0, cur);
    assert NodeOk(nodes, info, 0, 0, n, 0, h, next);
    assert stack'[..|stack|] == stack;
    SplitPending(o, info, tris, t, stack, cur, pushed, next);
  }

  /** The node array of a covering tree of height below `STACK_SIZE`, laid
      out by `Flatten`, is well formed for the walk, and its root stands for
      every triangle. */
  lemma FlattenWellFormed(tree: Tree)
    requires Covers(tree, 0) && Height(tree) < STACK_SIZE
    ensures WellFormed(Flatten(tree, 0), Info(tree, 0, 0), Count(tree), Height(tree))
    ensures Info(tree, 0, 0)[0] == NodeInfo(0, Count(tree), |Flatten(tree, 0)|, 0)
  {
    AllNodesOk(tree);
  }

  /** One pass of the loop of `rayIntersectBvh` (its body after
      `nodesVisited` is counted), at node `currentNodeIdx` with the stack
      `nodesToVisit[..toVisitOffset]` and the search state `rayTMax`,
      `didIntersect`, `intersect`. A missed node is skipped, a hit leaf has
      its triangles tested, and either pops the stack or, when the stack is
      empty, ends the walk (`done`), which then holds the closest hit. A hit
      interior node pushes one child and moves to the other. */
  method VisitNode(o: RayOracle, nodes: seq<BvhNode>, tris: seq<Positions>, nodesToVisit: array<nat>,
                   toVisitOffset: nat, currentNodeIdx: nat, rayTMax: real, didIntersect: bool, intersect: Intersection,
                   ghost info: seq<NodeInfo>, ghost h: nat, ghost stack: seq<nat>, ghost visited: nat,
                   ghost rayTMax0: real, ghost intersect0: Intersection)
    returns (done: bool, toVisitOffset': nat, currentNodeIdx': nat,
             rayTMax': real, didIntersect': bool, intersect': Intersection, ghost stack': seq<nat>)
    requires nodesToVisit.Length == STACK_SIZE
    requires WellFormed(nodes, info, |tris|, h) && BoundsConservative(o, nodes, info, tris)
    requires toVisitOffset == |stack| < STACK_SIZE
    requires forall k :: 0 <= k < |stack| ==> nodesToVisit[k] == stack[k]
    requires Walk(o, nodes, info, tris, stack, currentNodeIdx, visited, rayTMax0, intersect0,
                  rayTMax, didIntersect, intersect)
    modifies nodesToVisit
    ensures done ==> && rayTMax' == ClosestHit(o, tris, rayTMax0) && visited + 1 <= |nodes|
                     && Progress(o, tris, rayTMax0, intersect0, rayTMax', didIntersect', intersect')
    ensures !done ==>
              && toVisitOffset' == |stack'| < STACK_SIZE
              && (forall k :: 0 <= k < |stack'| ==> nodesToVisit[k] == stack'[k])
              && Walk(o, nodes, info, tris, stack', currentNodeIdx', visited + 1, rayTMax0, intersect0,
                      rayTMax', didIntersect', intersect')
              && Remaining(info, stack', currentNodeIdx') < Remaining(info, stack, currentNodeIdx)
  {
    ghost var n := |tris|;
    done, toVisitOffset', currentNodeIdx', stack' := false, toVisitOffset, currentNodeIdx, stack;
    rayTMax', didIntersect', intersect' := rayTMax, didIntersect, intersect;
    var node := nodes[currentNodeIdx];
    if o.aabb(node.aabb, rayTMax) {
      if node.triangleCount > 0 {
        LeafFacts(nodes, info, n, h, currentNodeIdx);
        rayTMax', didIntersect', intersect' :=
          IntersectLeaf(o, tris, node.trianglesOffset, node.triangleCount,
                        rayTMax, didIntersect, intersect, rayTMax0, intersect0);
        LeafCleared(o, info, tris, currentNodeIdx, node.trianglesOffset, node.triangleCount, rayTMax);
      } else {
        InteriorFacts(nodes, info, n, h, currentNodeIdx);
        var pushed;
        if o.dirNeg(node.splitAxis) {
          pushed, currentNodeIdx' := currentNodeIdx + 1, node.secondChildOffset;
        } else {
          pushed, currentNodeIdx' := node.secondChildOffset, currentNodeIdx + 1;
        }
        nodesToVisit[toVisitOffset] := pushed;
        toVisitOffset' := toVisitOffset + 1;
        stack' := stack + [pushed];
        PushStep(o, nodes, info, tris, n, h, stack, currentNodeIdx, visited, rayTMax0, intersect0,
                 rayTMax, didIntersect, intersect, pushed, stack', currentNodeIdx');
        return;
      }
    } else {
      MissCleared(o, nodes, info, tris, currentNodeIdx, rayTMax);
    }
    if toVisitOffset == 0 {
      DoneStep(o, nodes, info, tris, n, h, stack, currentNodeIdx, visited, rayTMax0, intersect0,
               rayTMax, didIntersect, intersect, rayTMax', didIntersect', intersect');
      done := true;
      return;
    }
    toVisitOffset' := toVisitOffset - 1;
    currentNodeIdx' := nodesToVisit[toVisitOffset'];
    stack' := stack[..toVisitOffset'];
    PopStep(o, nodes, info, tris, n, h, stack, currentNodeIdx, visited, rayTMax0, intersect0,
            rayTMax, didIntersect, intersect, toVisitOffset', stack', currentNodeIdx',
            rayTMax', didIntersect', intersect');
  }

  /** `rayIntersectBvh` over a well-formed node array with layout `info`
      (for a built hierarchy, `FlattenWellFormed` supplies it), whose root
      covers every triangle and whose boxes bound their triangles. It returns
      whether any triangle is hit closer than `rayTMax0`, the intersection of
      the closest hit (the caller's value when there is none), and the number
      of loop iterations, which never exceeds the number of nodes. Its answer
      is the brute-force scan's. */
  method RayIntersectBvh(o: RayOracle, nodes: seq<BvhNode>, tris: seq<Positions>, rayTMax0: real,
                         intersect0: Intersection, ghost info: seq<NodeInfo>, ghost h: nat)
    returns (didIntersect: bool, intersect: Intersection, nodesVisited: nat)
    requires WellFormed(nodes, info, |tris|, h) && |nodes| > 0
    requires info[0] == NodeInfo(0, |tris|, |nodes|, 0)
    requires BoundsConservative(o, nodes, info, tris)
    ensures didIntersect <==> ClosestHit(o, tris, rayTMax0) < rayTMax0
    ensures didIntersect ==> Reported(o, tris, intersect) && intersect.t == ClosestHit(o, tris, rayTMax0)
    ensures !didIntersect ==> intersect == intersect0
    ensures 1 <= nodesVisited <= |nodes|
  {
    var nodesToVisit := new nat[STACK_SIZE];
    var toVisitOffset: nat := 0;
    var currentNodeIdx: nat := 0;
    ghost var stack: seq<nat> := [];
    var rayTMax := rayTMax0;
    didIntersect, intersect, nodesVisited := false, intersect0, 0;
    StartWalk(o, nodes, info, tris, |tris|, h, rayTMax0, intersect0);
    while true
      invariant toVisitOffset == |stack| < STACK_SIZE
      invariant forall k :: 0 <= k < |stack| ==> nodesToVisit[k] == stack[k]
      invariant Walk(o, nodes, info, tris, stack, currentNodeIdx, nodesVisited, rayTMax0, intersect0,
                     rayTMax, didIntersect, intersect)
      decreases Remaining(info, stack, currentNodeIdx)
    {
      ghost var visited := nodesVisited;
      nodesVisited := nodesVisited + 1;
      var done;
      done, toVisitOffset, currentNodeIdx, rayTMax, didIntersect, intersect, stack :=
        VisitNode(o, nodes, tris, nodesToVisit, toVisitOffset, currentNodeIdx, rayTMax, didIntersect, intersect,
                  info, h, stack, visited, rayTMax0, intersect0);
      if done {
        break;
      }
    }
  }

  /** The BVH test's check for one ray: the brute-force scan and the BVH walk
      start from the same `rayTMax` and intersection; they agree on whether
      a triangle is hit, and on a hit they report the same distance. */
  method CompareWithBruteForce(o: RayOracle, nodes: seq<BvhNode>, tris: seq<Positions>, rayTMax: real,
                               intersect0: Intersection, ghost info: seq<NodeInfo>, ghost h: nat)
    returns (didIntersect: bool, bvhDidIntersect: bool, bruteForceT: real, bvhT: real)
    requires WellFormed(nodes, info, |tris|, h) && |nodes| > 0
    requires info[0] == NodeInfo(0, |tris|, |nodes|, 0)
    requires BoundsConservative(o, nodes, info, tris)
    ensures bvhDidIntersect == didIntersect
    ensures didIntersect ==> bruteForceT == bvhT
  {
    var bruteForceIntersection, bvhIntersection, nodesVisited;
    didIntersect, bruteForceIntersection := BruteForceIntersect(o, tris, rayTMax, intersect0);
    bvhDidIntersect, bvhIntersection, nodesVisited := RayIntersectBvh(o, nodes, tris, rayTMax, intersect0, info, h);
    bruteForceT, bvhT := bruteForceIntersection.t, bvhIntersection.t;
  }
}
