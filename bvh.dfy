/** The bounding volume hierarchy's node layout (src/common/bvh.hpp) and the
    tree it encodes. Nodes are stored in pre-order: an interior node is
    followed by its first child's subtree, and records where its second
    child's subtree starts; a leaf records a contiguous range of the reordered
    triangles. */
module BoundingVolumeHierarchy {
  import opened Geometry

  /** The `splitAxis` a leaf node carries, `static_cast<std::uint32_t>(-1)`. */
  const LEAF_SPLIT_AXIS: nat := 0xFFFF_FFFF

  /** The index of a coordinate axis: x, y or z. */
  type Axis = a: nat | a < 3

  /** `BvhNode`: a leaf has `triangleCount > 0`, an interior node has
      `triangleCount == 0`. */
  datatype BvhNode = BvhNode(
    aabb: Aabb,
    trianglesOffset: nat,
    secondChildOffset: nat,
    triangleCount: nat,
    splitAxis: nat)

  /** `Bvh`: the flattened nodes and, for every triangle of the input, the
      index it was moved to. */
  datatype Bvh = Bvh(nodes: seq<BvhNode>, triangleIndices: seq<nat>)

  /** `initLeafNode`. */
  function LeafNode(bounds: Aabb, trianglesOffset: nat, count: nat): BvhNode {
    BvhNode(bounds, trianglesOffset, 0, count, LEAF_SPLIT_AXIS)
  }

  /** `initInteriorNode`. */
  function InteriorNode(axis: Axis, secondChildOffset: nat, bounds: Aabb): BvhNode {
    BvhNode(bounds, 0, secondChildOffset, 0, axis)
  }

  /** The tree a node array encodes. A leaf covers `count` triangles starting
      at `offset` of the reordered triangle array. */
  datatype Tree =
    | Leaf(bounds: Aabb, offset: nat, count: nat)
    | Interior(bounds: Aabb, axis: Axis, first: Tree, second: Tree)

  /** The number of nodes of a tree. */
  function Size(t: Tree): nat {
    match t
    case Leaf(_, _, _) => 1
    case Interior(_, _, l, r) => 1 + Size(l) + Size(r)
  }

  /** The number of triangles a tree's leaves cover. */
  function Count(t: Tree): nat {
    match t
    case Leaf(_, _, c) => c
    case Interior(_, _, l, r) => Count(l) + Count(r)
  }

  /** The length of the longest path from the root to a leaf. */
  function Height(t: Tree): nat {
    match t
    case Leaf(_, _, _) => 0
    case Interior(_, _, l, r) => 1 + if Height(l) < Height(r) then Height(r) else Height(l)
  }

  /** The leaves of the tree cover adjacent, non-empty triangle ranges, left
      to right, starting at `offset`. */
  predicate Covers(t: Tree, offset: nat) {
    match t
    case Leaf(_, o, c) => o == offset && c > 0
    case Interior(_, _, l, r) => Covers(l, offset) && Covers(r, offset + Count(l))
  }

  /** The pre-order node array of a tree whose root is stored at index
      `base`: what `buildRecursive` appends to the node vector. */
  function Flatten(t: Tree, base: nat): (nodes: seq<BvhNode>)
    ensures |nodes| == Size(t)
  {
    match t
    case Leaf(b, o, c) => [LeafNode(b, o, c)]
    case Interior(b, axis, l, r) =>
      [InteriorNode(axis, base + 1 + Size(l), b)]
        + Flatten(l, base + 1) + Flatten(r, base + 1 + Size(l))
  }

  /** What a node stands for: its triangle range, the size of its subtree
      and its depth. */
  datatype NodeInfo = NodeInfo(offset: nat, count: nat, size: nat, depth: nat)

  /** `NodeInfo` for every node of `Flatten(t, _)`, in the same order. */
  function Info(t: Tree, offset: nat, depth: nat): (info: seq<NodeInfo>)
    ensures |info| == Size(t)
  {
    match t
    case Leaf(_, _, c) => [NodeInfo(offset, c, 1, depth)]
    case Interior(_, _, l, r) =>
      [NodeInfo(offset, Count(t), Size(t), depth)]
        + Info(l, offset, depth + 1) + Info(r, offset + Count(l), depth + 1)
  }

  /** The triangle `j` lies in the range of the node described by `info`. */
  predicate InRange(info: NodeInfo, j: int) {
    info.offset <= j < info.offset + info.count
  }

  /** The facts about an interior node at index `i` that traversal relies on:
      its first child follows it, its second child is at `secondChildOffset`,
      and the two children split its triangle range and its subtree. */
  predicate InteriorAt(nodes: seq<BvhNode>, info: seq<NodeInfo>, base: nat, i: nat)
    requires |nodes| == |info| && i < |nodes|
  {
    && i + 1 < |nodes|
    && nodes[i].splitAxis < 3
    && nodes[i].secondChildOffset == base + i + 1 + info[i + 1].size
    && var sc := i + 1 + info[i + 1].size;
    && sc < |nodes|
    && info[i + 1].offset == info[i].offset
    && info[sc].offset == info[i].offset + info[i + 1].count
    && info[i].count == info[i + 1].count + info[sc].count
    && info[i].size == 1 + info[i + 1].size + info[sc].size
    && info[i + 1].depth == info[i].depth + 1
    && info[sc].depth == info[i].depth + 1
  }

  /** A covering tree covers at least one triangle. */
  lemma {:induction false} CountPositive(t: Tree, offset: nat)
    requires Covers(t, offset)
    ensures Count(t) > 0
  {
    match t
    case Leaf(_, _, _) =>
    case Interior(_, _, l, r) =>
      CountPositive(l, offset);
  }

  /** The facts about node `i` of a flattened subtree that traversal relies
      on: its triangle range is non-empty and inside `lo..hi`, its subtree fits
      in the array, its depth is within `dlo..dhi`, a leaf carries its range
      and an interior node satisfies `InteriorAt`. */
  predicate NodeOk(nodes: seq<BvhNode>, info: seq<NodeInfo>, base: nat,
                   lo: nat, hi: nat, dlo: nat, dhi: nat, i: nat)
    requires |nodes| == |info| && i < |nodes|
  {
    && lo <= info[i].offset
    && info[i].offset + info[i].count <= hi
    && info[i].count > 0
    && 1 <= info[i].size
    && i + info[i].size <= |nodes|
    && dlo <= info[i].depth <= dhi
    && (nodes[i].triangleCount > 0 ==>
          && nodes[i].trianglesOffset == info[i].offset
          && nodes[i].triangleCount == info[i].count
          && info[i].size == 1)
    && (nodes[i].triangleCount == 0 ==> InteriorAt(nodes, info, base, i))
  }

  /** A node that is well formed inside a sub-array starting at `p` is well
      formed in the whole arrays at `i == p + j`, under wider bounds, given
      that the entries it and its children occupy are the same in both. */
  lemma {:induction false} ShiftNodeOk(nodes: seq<BvhNode>, info: seq<NodeInfo>, sub: seq<BvhNode>, isub: seq<NodeInfo>,
                    p: nat, base: nat, subBase: nat, lo: nat, hi: nat, dlo: nat, dhi: nat,
                    lo2: nat, hi2: nat, dlo2: nat, dhi2: nat, j: nat, i: nat)
    requires |nodes| == |info| && |sub| == |isub| && j < |sub| && p + |sub| <= |nodes|
    requires i == p + j && subBase == base + p
    requires NodeOk(sub, isub, subBase, lo, hi, dlo, dhi, j)
    requires nodes[i] == sub[j] && info[i] == isub[j]
    requires sub[j].triangleCount == 0 ==>
               && info[i + 1] == isub[j + 1]
               && info[i + 1 + isub[j + 1].size] == isub[j + 1 + isub[j + 1].size]
    requires lo2 <= lo && hi <= hi2 && dlo2 <= dlo && dhi <= dhi2
    ensures NodeOk(nodes, info, base, lo2, hi2, dlo2, dhi2, i)
  {
  }

  /** The root of a flattened interior tree is well formed. */
  lemma {:induction false} InteriorRootOk(t: Tree, offset: nat, base: nat, depth: nat)
    requires t.Interior? && Covers(t, offset)
    ensures NodeOk(Flatten(t, base), Info(t, offset, depth), base,
                   offset, offset + Count(t), depth, depth + Height(t), 0)
  {
    var l, r := t.first, t.second;
    var nodes, info := Flatten(t, base), Info(t, offset, depth);
    var il, ir := Info(l, offset, depth + 1), Info(r, offset + Count(l), depth + 1);
    assert info == [info[0]] + il + ir;
    CountPositive(l, offset);
    CountPositive(r, offset + Count(l));
    assert info[1] == il[0];
    assert info[1 + Size(l)] == ir[0];
  }

  /** Entry `i == 1 + k` of an interior tree's arrays is entry `k` of its
      first subtree's. */
  lemma {:induction false} FlattenFirstAt(t: Tree, offset: nat, base: nat, depth: nat, q: nat, k: nat, i: nat)
    requires t.Interior? && k < Size(t.first) && q == base + 1 && i == 1 + k
    ensures Flatten(t, base)[i] == Flatten(t.first, q)[k]
    ensures Info(t, offset, depth)[i] == Info(t.first, offset, depth + 1)[k]
  {
    var nodes, info := Flatten(t, base), Info(t, offset, depth);
    assert nodes == [nodes[0]] + Flatten(t.first, base + 1) + Flatten(t.second, base + 1 + Size(t.first));
    assert info == [info[0]] + Info(t.first, offset, depth + 1)
                    + Info(t.second, offset + Count(t.first), depth + 1);
  }

  /** Entry `i == p + k` of an interior tree's arrays, where `p` is one more
      than the size of the first subtree, is entry `k` of its second
      subtree's, whose root is stored at `q`. */
  lemma {:induction false} FlattenSecondAt(t: Tree, offset: nat, base: nat, depth: nat,
                                           p: nat, q: nat, k: nat, i: nat)
    requires t.Interior? && k < Size(t.second)
    requires p == 1 + Size(t.first) && q == base + 1 + Size(t.first) && i == p + k
    ensures Flatten(t, base)[i] == Flatten(t.second, q)[k]
    ensures Info(t, offset, depth)[i] == Info(t.second, offset + Count(t.first), depth + 1)[k]
  {
    var nodes, info := Flatten(t, base), Info(t, offset, depth);
    assert nodes == [nodes[0]] + Flatten(t.first, base + 1) + Flatten(t.second, q);
    assert info == [info[0]] + Info(t.first, offset, depth + 1)
                    + Info(t.second, offset + Count(t.first), depth + 1);
  }

  /** The node array of an interior tree: the interior node, then the first
      subtree, then the second, which starts at `m`. */
  lemma {:induction false} FlattenInteriorEq(n: nat, m: nat, t1: Tree, t2: Tree, bounds: Aabb, axis: Axis)
    requires m == n + 1 + Size(t1)
    ensures Flatten(Interior(bounds, axis, t1, t2), n)
         == [InteriorNode(axis, m, bounds)] + (Flatten(t1, n + 1) + Flatten(t2, m))
  {
  }

  /** Every node of a flattened covering tree is well formed, with its range
      inside the root's and its depth at most the tree's height below the
      root's. */
  lemma {:induction false} NodeFacts(t: Tree, offset: nat, base: nat, depth: nat, i: nat)
    requires Covers(t, offset)
    requires i < Size(t)
    ensures NodeOk(Flatten(t, base), Info(t, offset, depth), base,
                   offset, offset + Count(t), depth, depth + Height(t), i)
    decreases t, 1
  {
    match t
    case Leaf(_, _, _) =>
    case Interior(_, _, l, r) =>
      if i == 0 {
        InteriorRootOk(t, offset, base, depth);
      } else if i <= Size(l) {
        FirstSubtreeOk(t, offset, base, depth, i);
      } else {
        SecondSubtreeOk(t, offset, base, depth, i);
      }
  }

  /** A node of the first child's subtree is well formed in the parent's
      arrays. */
  lemma {:induction false} FirstSubtreeOk(t: Tree, offset: nat, base: nat, depth: nat, i: nat)
    requires t.Interior? && Covers(t, offset)
    requires 1 <= i <= Size(t.first)
    ensures NodeOk(Flatten(t, base), Info(t, offset, depth), base,
                   offset, offset + Count(t), depth, depth + Height(t), i)
    decreases t, 0
  {
    var l, j, q := t.first, i - 1, base + 1;
    var nl, il := Flatten(l, q), Info(l, offset, depth + 1);
    NodeFacts(l, offset, q, depth + 1, j);
    FlattenFirstAt(t, offset, base, depth, q, j, i);
    if nl[j].triangleCount == 0 {
      var sc := j + 1 + il[j + 1].size;
      assert sc < |nl|;
      FlattenFirstAt(t, offset, base, depth, q, j + 1, i + 1);
      FlattenFirstAt(t, offset, base, depth, q, sc, i + 1 + il[j + 1].size);
    }
    ShiftNodeOk(Flatten(t, base), Info(t, offset, depth), nl, il, 1, base, q,
                offset, offset + Count(l), depth + 1, depth + 1 + Height(l),
                offset, offset + Count(t), depth, depth + Height(t), j, i);
  }

  /** A node of the second child's subtree is well formed in the parent's
      arrays. */
  lemma {:induction false} SecondSubtreeOk(t: Tree, offset: nat, base: nat, depth: nat, i: nat)
    requires t.Interior? && Covers(t, offset)
    requires 1 + Size(t.first) <= i < Size(t)
    ensures NodeOk(Flatten(t, base), Info(t, offset, depth), base,
                   offset, offset + Count(t), depth, depth + Height(t), i)
    decreases t, 0
  {
    var l, r := t.first, t.second;
    var p := 1 + Size(l);
    var q, j, o2 := base + 1 + Size(l), i - p, offset + Count(l);
    var nr, ir := Flatten(r, q), Info(r, o2, depth + 1);
    NodeFacts(r, o2, q, depth + 1, j);
    FlattenSecondAt(t, offset, base, depth, p, q, j, i);
    if nr[j].triangleCount == 0 {
      var sc := j + 1 + ir[j + 1].size;
      assert sc < |nr|;
      FlattenSecondAt(t, offset, base, depth, p, q, j + 1, i + 1);
      FlattenSecondAt(t, offset, base, depth, p, q, sc, i + 1 + ir[j + 1].size);
    }
    ShiftNodeOk(Flatten(t, base), Info(t, offset, depth), nr, ir, p, base, q,
                o2, o2 + Count(r), depth + 1, depth + 1 + Height(r),
                offset, offset + Count(t), depth, depth + Height(t), j, i);
  }

  /** Every node of the node array of a covering tree is well formed, and the
      root's entry stands for the whole tree. */
  lemma AllNodesOk(t: Tree)
    requires Covers(t, 0)
    ensures forall i :: 0 <= i < Size(t) ==>
              NodeOk(Flatten(t, 0), Info(t, 0, 0), 0, 0, Count(t), 0, Height(t), i)
    ensures Info(t, 0, 0)[0] == NodeInfo(0, Count(t), Size(t), 0)
  {
    forall i | 0 <= i < Size(t)
      ensures NodeOk(Flatten(t, 0), Info(t, 0, 0), 0, 0, Count(t), 0, Height(t), i)
    {
      NodeFacts(t, 0, 0, 0, i);
    }
  }

  /** A covering tree has fewer than twice as many nodes as it covers
      triangles: every leaf covers at least one triangle, and there is one
      interior node fewer than there are leaves. */
  lemma {:induction false} SizeBelowTwiceCount(t: Tree, offset: nat)
    requires Covers(t, offset)
    ensures Size(t) < 2 * Count(t)
  {
    match t
    case Leaf(_, _, _) =>
    case Interior(_, _, l, r) =>
      SizeBelowTwiceCount(l, offset);
      SizeBelowTwiceCount(r, offset + Count(l));
  }

  /** The fields of a node stay inside its tree: its triangle range ends by
      `end`, its second child index is below `limit`, an interior node
      (one with no triangles) has a real split axis, and no split axis
      exceeds the leaf marker. */
  predicate NodeWithin(node: BvhNode, end: nat, limit: nat) {
    && node.trianglesOffset + node.triangleCount <= end
    && node.secondChildOffset < limit
    && (node.triangleCount == 0 ==> node.splitAxis < 3)
    && node.splitAxis <= LEAF_SPLIT_AXIS
  }

  /** Every node of the node array of a tree covering the triangles from
      `offset`, stored from index `base`, stays inside that range and that
      array. */
  lemma {:induction false} FlattenWithin(t: Tree, base: nat, offset: nat)
    requires Covers(t, offset)
    ensures forall i :: 0 <= i < Size(t) ==>
              NodeWithin(Flatten(t, base)[i], offset + Count(t), base + Size(t))
  {
    match t
    case Leaf(_, _, _) =>
    case Interior(_, _, l, r) =>
      var q := base + 1 + Size(l);
      FlattenWithin(l, base + 1, offset);
      FlattenWithin(r, q, offset + Count(l));
      forall i | 0 <= i < Size(t)
        ensures NodeWithin(Flatten(t, base)[i], offset + Count(t), base + Size(t))
      {
        if i == 0 {
        } else if i <= Size(l) {
          FlattenFirstAt(t, offset, base, 0, base + 1, i - 1, i);
        } else {
          FlattenSecondAt(t, offset, base, 0, 1 + Size(l), q, i - 1 - Size(l), i);
        }
      }
  }

  /** `idx` maps `0..n` one-to-one onto `0..n`. */
  predicate IsPermutation(idx: seq<nat>, n: nat) {
    && |idx| == n
    && (forall i :: 0 <= i < n ==> idx[i] < n)
    && (forall i, j :: 0 <= i < j < n ==> idx[i] != idx[j])
    && (forall k :: 0 <= k < n ==> k in idx)
  }

  /** `reorderAttributes`: element `i` of the input is written to position
      `triangleIndices[i]`; where two inputs share a target the later one
      wins. With a permutation, every output position receives exactly the
      input that the permutation sends there. */
  method ReorderAttributes<T(0)>(attributes: seq<T>, triangleIndices: seq<nat>)
    returns (reordered: seq<T>)
    requires |triangleIndices| >= |attributes|
    requires forall i :: 0 <= i < |attributes| ==> triangleIndices[i] < |attributes|
    ensures |reordered| == |attributes|
    ensures forall i :: 0 <= i < |attributes|
              && (forall i' :: i < i' < |attributes| ==> triangleIndices[i'] != triangleIndices[i])
              ==> reordered[triangleIndices[i]] == attributes[i]
    ensures IsPermutation(triangleIndices[..|attributes|], |attributes|) ==>
              forall i :: 0 <= i < |attributes| ==> reordered[triangleIndices[i]] == attributes[i]
  {
    var n := |attributes|;
    var out := new T[n];
    for i := 0 to n
      invariant forall k :: 0 <= k < i
                  && (forall k' :: k < k' < i ==> triangleIndices[k'] != triangleIndices[k])
                  ==> out[triangleIndices[k]] == attributes[k]
    {
      out[triangleIndices[i]] := attributes[i];
    }
    reordered := out[..];
    if IsPermutation(triangleIndices[..n], n) {
      forall i | 0 <= i < n
        ensures reordered[triangleIndices[i]] == attributes[i]
      {
        assert forall i' :: i < i' < n ==> triangleIndices[..n][i'] != triangleIndices[..n][i];
      }
    }
  }
}
