/** `buildBvh` (src/common/bvh.cpp): top-down construction of the bounding
    volume hierarchy by recursive splitting of a span of primitives. A
    primitive is identified by the index of its triangle. The geometric
    quantities the builder computes from triangle positions in floating
    point -- bounds, the split axis, the degeneracy test, the surface area
    heuristic's verdict and the reorderings done by `std::nth_element` and
    `std::partition` -- are supplied by a `SplitOracle`; the decisions taken
    from them, the node layout and the reordering of triangles are modelled
    exactly. */
module BvhBuild {
  import opened Geometry
  import opened BoundingVolumeHierarchy

  /** A node with more primitives than this is always split when it can be. */
  const MAX_TRIANGLES_IN_NODE: nat := 255

  /** The floating-point decisions taken for a span of primitives:
      `bounds` is the merged box of the primitives (`nodeAabb`);
      `splitAxis` the axis of largest centroid extent (`maxDimension`);
      `degenerate` holds when the node box has zero area or the centroids
      have zero extent along the split axis; `equalCountOrder` is the span
      after `std::nth_element` around its middle; `sahPrefersSplit` holds
      when the best bucket split costs less than a leaf; `sahOrder` and
      `sahSplit` are the span after `std::partition` at the best bucket, and
      the size of its first part. */
  datatype SplitOracle = SplitOracle(
    bounds: seq<nat> -> Aabb,
    splitAxis: seq<nat> -> Axis,
    degenerate: seq<nat> -> bool,
    equalCountOrder: seq<nat> -> seq<nat>,
    sahPrefersSplit: seq<nat> -> bool,
    sahOrder: seq<nat> -> seq<nat>,
    sahSplit: seq<nat> -> nat)

  /** Marks the span `p` as one the builder asks the oracle about; the
      oracle's guarantees for `p` are used only where it is named, which keeps
      them from being applied to every span a proof mentions. */
  ghost predicate Consulted(o: SplitOracle, p: seq<nat>) {
    true
  }

  /** What the standard algorithms and the bucket geometry guarantee: both
      reorderings are permutations, and a partition of a non-degenerate span of
      at least three primitives leaves both parts non-empty. */
  ghost predicate ValidOracle(o: SplitOracle) {
    && (forall p: seq<nat> {:trigger Consulted(o, p)} :: multiset(o.equalCountOrder(p)) == multiset(p))
    && (forall p: seq<nat> {:trigger Consulted(o, p)} :: multiset(o.sahOrder(p)) == multiset(p))
    && (forall p: seq<nat> {:trigger Consulted(o, p)} :: !o.degenerate(p) && |p| >= 3 ==> 0 < o.sahSplit(p) < |p|)
  }

  /** The verdict for one span: a leaf, or a split of a reordering of the span
      after its first `splitIdx` primitives. */
  datatype Decision = MakeLeaf | SplitAt(order: seq<nat>, splitIdx: nat)

  /** The branch `buildRecursive` takes for a span. A single primitive or a
      degenerate span becomes a leaf; two primitives are split one and one;
      larger spans are split by the heuristic, and always split when they hold
      more than `MAX_TRIANGLES_IN_NODE` primitives. */
  function Decide(o: SplitOracle, prims: seq<nat>): (d: Decision)
    requires ValidOracle(o)
    requires |prims| >= 1
    ensures d.SplitAt? ==>
              && 0 < d.splitIdx < |prims|
              && multiset(d.order) == multiset(prims)
              && |d.order| == |prims|
    ensures |prims| == 1 || o.degenerate(prims) ==> d.MakeLeaf?
    ensures !o.degenerate(prims) && |prims| == 2 ==> d.SplitAt? && d.splitIdx == 1
    ensures !o.degenerate(prims) && |prims| > MAX_TRIANGLES_IN_NODE ==> d.SplitAt?
    ensures d.MakeLeaf? && |prims| >= 3 ==> o.degenerate(prims) || !o.sahPrefersSplit(prims)
  {
    assert Consulted(o, prims);
    assert |multiset(o.equalCountOrder(prims))| == |prims| && |multiset(o.sahOrder(prims))| == |prims|;
    if o.degenerate(prims) || |prims| == 1 then MakeLeaf
    else if |prims| < 3 then SplitAt(o.equalCountOrder(prims), |prims| / 2)
    else if |prims| > MAX_TRIANGLES_IN_NODE || o.sahPrefersSplit(prims) then
      SplitAt(o.sahOrder(prims), o.sahSplit(prims))
    else MakeLeaf
  }

  /** The tree `buildRecursive` builds for a span follows the decisions
      taken for it and, recursively, for every sub-span: its box is the
      span's box; it is a leaf exactly when `Decide` says so; an interior
      node splits on the span's axis, its first subtree holds the first
      `splitIdx` primitives of the reordered span and its second subtree the
      rest, each following the decisions taken for its part. */
  ghost predicate FollowsDecisions(o: SplitOracle, tree: Tree, prims: seq<nat>)
    requires ValidOracle(o)
    decreases tree
  {
    && |prims| >= 1
    && tree.bounds == o.bounds(prims)
    && match tree
       case Leaf(_, _, _) => Decide(o, prims).MakeLeaf?
       case Interior(_, axis, first, second) =>
         var d := Decide(o, prims);
         && d.SplitAt?
         && axis == o.splitAxis(prims)
         && Count(first) == d.splitIdx
         && FollowsDecisions(o, first, d.order[..d.splitIdx])
         && FollowsDecisions(o, second, d.order[d.splitIdx..])
  }

  /** The decisions fix the tree: two trees that follow the decisions for
      the same span and cover it from the same offset are equal. So the
      builder's tree is the only one its contract admits. */
  lemma {:induction false} DecisionsDetermineTree(o: SplitOracle, t1: Tree, t2: Tree, prims: seq<nat>, offset: nat)
    requires ValidOracle(o)
    requires FollowsDecisions(o, t1, prims) && FollowsDecisions(o, t2, prims)
    requires Covers(t1, offset) && Covers(t2, offset)
    requires Count(t1) == |prims| && Count(t2) == |prims|
    ensures t1 == t2
    decreases t1
  {
    var d := Decide(o, prims);
    if d.SplitAt? {
      var k := d.splitIdx;
      DecisionsDetermineTree(o, t1.first, t2.first, d.order[..k], offset);
      DecisionsDetermineTree(o, t1.second, t2.second, d.order[k..], offset + k);
    }
  }

  /** The span `buildBvh` starts from: every triangle index, in order. */
  function AllTriangles(n: nat): (prims: seq<nat>)
    ensures |prims| == n && forall k :: 0 <= k < n ==> prims[k] == k
  {
    if n == 0 then [] else AllTriangles(n - 1) + [n - 1]
  }

  /** The order in which the builder lays out a span's triangles: a leaf
      keeps its span's order; a split lays out the first part of the
      reordered span, then the rest, each in its own decision order. */
  ghost function DecisionOrder(o: SplitOracle, prims: seq<nat>): (order: seq<nat>)
    requires ValidOracle(o)
    requires |prims| >= 1
    ensures |order| == |prims|
    decreases |prims|
  {
    var d := Decide(o, prims);
    if d.MakeLeaf? then prims
    else
      assert d.order == d.order[..d.splitIdx] + d.order[d.splitIdx..];
      DecisionOrder(o, d.order[..d.splitIdx]) + DecisionOrder(o, d.order[d.splitIdx..])
  }

  /** The decision order of a span is a permutation of it. */
  lemma {:induction false} DecisionOrderPermutes(o: SplitOracle, prims: seq<nat>)
    requires ValidOracle(o) && |prims| >= 1
    ensures multiset(DecisionOrder(o, prims)) == multiset(prims)
    decreases |prims|
  {
    var d := Decide(o, prims);
    if d.SplitAt? {
      var k := d.splitIdx;
      DecisionOrderPermutes(o, d.order[..k]);
      DecisionOrderPermutes(o, d.order[k..]);
      assert d.order == d.order[..k] + d.order[k..];
    }
  }

  /** Every leaf of a tree that follows the decisions for `prims` finds the
      triangles of its own span, in span order, at its range of `ordered`:
      the contiguous range `bvh.hpp` promises each leaf. */
  ghost predicate LeavesHoldTheirSpans(o: SplitOracle, tree: Tree, prims: seq<nat>,
                                       ordered: seq<Positions>, positions: seq<Positions>)
    requires ValidOracle(o) && FollowsDecisions(o, tree, prims)
    decreases tree
  {
    match tree
    case Leaf(_, offset, count) =>
      && count == |prims|
      && offset + count <= |ordered|
      && forall j :: 0 <= j < count ==> prims[j] < |positions| && ordered[offset + j] == positions[prims[j]]
    case Interior(_, _, first, second) =>
      var d := Decide(o, prims);
      && LeavesHoldTheirSpans(o, first, d.order[..d.splitIdx], ordered, positions)
      && LeavesHoldTheirSpans(o, second, d.order[d.splitIdx..], ordered, positions)
  }

  /** A placement of `a + b` from `offset` is a placement of `a` from
      `offset` and of `b` right after it. */
  lemma {:induction false} PlacedParts(ordered: seq<Positions>, indices: seq<nat>, positions: seq<Positions>,
                                       a: seq<nat>, b: seq<nat>, offset: nat, offset2: nat)
    requires Placed(ordered, indices, positions, a + b, offset)
    requires offset2 == offset + |a|
    ensures Placed(ordered, indices, positions, a, offset)
    ensures Placed(ordered, indices, positions, b, offset2)
  {
    forall k | 0 <= k < |b|
      ensures && b[k] < |indices| && b[k] < |positions| && offset + |a| + k < |ordered|
              && ordered[offset + |a| + k] == positions[b[k]]
              && indices[b[k]] == offset + |a| + k
    {
      assert (a + b)[|a| + k] == b[k];
    }
    forall k | 0 <= k < |a|
      ensures && a[k] < |indices| && a[k] < |positions| && offset + k < |ordered|
              && ordered[offset + k] == positions[a[k]]
              && indices[a[k]] == offset + k
    {
      assert (a + b)[k] == a[k];
    }
  }

  /** A leaf covering `offset..` whose span is placed there, in span order,
      finds its span in its range. */
  lemma {:induction false} LeafHoldsItsSpan(tree: Tree, prims: seq<nat>, offset: nat,
                                            ordered: seq<Positions>, indices: seq<nat>, positions: seq<Positions>)
    requires tree.Leaf? && Covers(tree, offset) && Count(tree) == |prims|
    requires Placed(ordered, indices, positions, prims, offset)
    ensures tree.count == |prims| && tree.offset + tree.count <= |ordered|
    ensures forall j :: 0 <= j < tree.count ==>
              prims[j] < |positions| && ordered[tree.offset + j] == positions[prims[j]]
  {
    var last := |prims| - 1;
    assert 0 <= last < |prims|;
    assert prims[last] < |indices| && offset + last < |ordered|;
  }

  /** Placing a span's triangles in decision order, from the offset where
      its tree starts, puts every leaf's own triangles in the leaf's range. */
  lemma {:induction false} DecisionPlacementFillsLeaves(o: SplitOracle, tree: Tree, prims: seq<nat>, offset: nat,
                                                        ordered: seq<Positions>, indices: seq<nat>,
                                                        positions: seq<Positions>)
    requires ValidOracle(o) && FollowsDecisions(o, tree, prims)
    requires Covers(tree, offset) && Count(tree) == |prims|
    requires Placed(ordered, indices, positions, DecisionOrder(o, prims), offset)
    ensures LeavesHoldTheirSpans(o, tree, prims, ordered, positions)
    decreases tree
  {
    var d := Decide(o, prims);
    if tree.Leaf? {
      assert DecisionOrder(o, prims) == prims;
      LeafHoldsItsSpan(tree, prims, offset, ordered, indices, positions);
    } else {
      var k := d.splitIdx;
      var p1, p2 := d.order[..k], d.order[k..];
      SplitDecisionOrder(o, prims);
      SplitChildren(o, tree, prims, offset);
      PlacedParts(ordered, indices, positions, DecisionOrder(o, p1), DecisionOrder(o, p2),
                  offset, offset + Count(tree.first));
      DecisionPlacementFillsLeaves(o, tree.first, p1, offset, ordered, indices, positions);
      DecisionPlacementFillsLeaves(o, tree.second, p2, offset + Count(tree.first), ordered, indices, positions);
      InteriorLeavesHold(o, tree, prims, ordered, positions);
    }
  }

  /** The subtrees of an interior tree that follows the decisions for a
      span and covers it from `offset` follow the decisions for the two
      parts of the split and cover them, the second from `offset + k`. */
  lemma SplitChildren(o: SplitOracle, tree: Tree, prims: seq<nat>, offset: nat)
    requires ValidOracle(o) && FollowsDecisions(o, tree, prims) && tree.Interior?
    requires Covers(tree, offset) && Count(tree) == |prims|
    ensures var d := Decide(o, prims);
            var k := d.splitIdx;
            && d.SplitAt? && 0 < k < |prims| && |d.order| == |prims|
            && FollowsDecisions(o, tree.first, d.order[..k]) && Covers(tree.first, offset)
            && Count(tree.first) == |d.order[..k]| == k
            && FollowsDecisions(o, tree.second, d.order[k..]) && Covers(tree.second, offset + Count(tree.first))
            && Count(tree.second) == |d.order[k..]|
  {
  }

  /** The decision order of a split span is that of its first part, then
      that of the rest. */
  lemma SplitDecisionOrder(o: SplitOracle, prims: seq<nat>)
    requires ValidOracle(o) && |prims| >= 1 && Decide(o, prims).SplitAt?
    ensures var d := Decide(o, prims);
            DecisionOrder(o, prims)
              == DecisionOrder(o, d.order[..d.splitIdx]) + DecisionOrder(o, d.order[d.splitIdx..])
  {
  }

  /** The leaves of an interior tree hold their spans when those of both
      subtrees do. */
  lemma InteriorLeavesHold(o: SplitOracle, tree: Tree, prims: seq<nat>,
                           ordered: seq<Positions>, positions: seq<Positions>)
    requires ValidOracle(o) && FollowsDecisions(o, tree, prims) && tree.Interior?
    requires var d := Decide(o, prims);
             && LeavesHoldTheirSpans(o, tree.first, d.order[..d.splitIdx], ordered, positions)
             && LeavesHoldTheirSpans(o, tree.second, d.order[d.splitIdx..], ordered, positions)
    ensures LeavesHoldTheirSpans(o, tree, prims, ordered, positions)
  {
  }

  /** No primitive occurs twice. */
  ghost predicate NoDuplicates(s: seq<nat>) {
    forall x :: multiset(s)[x] <= 1
  }

  /** Distinct positions of a duplicate-free sequence hold distinct values. */
  lemma {:induction false} DistinctAt(s: seq<nat>, i: nat, j: nat)
    requires NoDuplicates(s)
    requires i < j < |s|
    ensures s[i] != s[j]
  {
    assert s == s[..i] + [s[i]] + s[i + 1..j] + [s[j]] + s[j + 1..];
    assert multiset(s)[s[i]] >= 1 + multiset{s[j]}[s[i]];
  }

  /** Both parts of a split reordering are duplicate-free, and a primitive of
      one part is not in the other. */
  lemma {:induction false} SplitParts(prims: seq<nat>, order: seq<nat>, k: nat)
    requires NoDuplicates(prims)
    requires multiset(order) == multiset(prims)
    requires k <= |order|
    ensures NoDuplicates(order[..k]) && NoDuplicates(order[k..])
    ensures multiset(order[..k]) + multiset(order[k..]) == multiset(prims)
    ensures forall x :: x in order[..k] ==> x !in order[k..]
  {
    assert order == order[..k] + order[k..];
    assert multiset(order[..k]) + multiset(order[k..]) == multiset(prims);
    forall x
      ensures multiset(order[..k])[x] <= 1 && multiset(order[k..])[x] <= 1
    {
      assert multiset(order[..k])[x] + multiset(order[k..])[x] == multiset(prims)[x];
    }
    forall x | x in order[..k]
      ensures x !in order[k..]
    {
      assert multiset(order[..k])[x] + multiset(order[k..])[x] == multiset(prims)[x];
    }
  }

  /** The triangles of `order` sit at `offset..` of the ordered triangle
      array, in that order, and each one's new index is recorded. */
  ghost predicate Placed(ordered: seq<Positions>, indices: seq<nat>, positions: seq<Positions>,
                         order: seq<nat>, offset: nat) {
    forall k :: 0 <= k < |order| ==>
      && order[k] < |indices| && order[k] < |positions| && offset + k < |ordered|
      && ordered[offset + k] == positions[order[k]]
      && indices[order[k]] == offset + k
  }

  /** `after` differs from `before` at most inside `lo..hi`. */
  ghost predicate SameOutside(before: seq<Positions>, after: seq<Positions>, lo: nat, hi: nat) {
    |before| == |after| && forall j :: 0 <= j < |after| && !(lo <= j < hi) ==> after[j] == before[j]
  }

  /** `after` differs from `before` at most at the indices listed in `changed`. */
  ghost predicate SameExcept(before: seq<nat>, after: seq<nat>, changed: seq<nat>) {
    |before| == |after| && forall t :: 0 <= t < |after| && t !in changed ==> after[t] == before[t]
  }

  /** A reordering of indices below `n` holds indices below `n`. */
  lemma {:induction false} ReorderedBounded(prims: seq<nat>, order: seq<nat>, n: nat)
    requires multiset(order) == multiset(prims)
    requires forall k :: 0 <= k < |prims| ==> prims[k] < n
    ensures forall k :: 0 <= k < |order| ==> order[k] < n
  {
    forall k | 0 <= k < |order|
      ensures order[k] < n
    {
      assert multiset(order)[order[k]] > 0;
      var k' :| 0 <= k' < |prims| && prims[k'] == order[k];
    }
  }

  /** `buildLeafNode`: copies the span's triangles, in span order, to
      `offset..` of the ordered triangle array, records each triangle's new
      index, and returns the leaf node for the range. */
  method BuildLeafNode(positions: seq<Positions>, nodeAabb: Aabb, prims: seq<nat>,
                       orderedPositions: array<Positions>, positionIndices: array<nat>, offset: nat)
    returns (node: BvhNode)
    requires orderedPositions.Length == |positions| == positionIndices.Length
    requires NoDuplicates(prims)
    requires forall k :: 0 <= k < |prims| ==> prims[k] < |positions|
    requires offset + |prims| <= |positions|
    modifies orderedPositions, positionIndices
    ensures node == LeafNode(nodeAabb, offset, |prims|)
    ensures Placed(orderedPositions[..], positionIndices[..], positions, prims, offset)
    ensures SameOutside(old(orderedPositions[..]), orderedPositions[..], offset, offset + |prims|)
    ensures SameExcept(old(positionIndices[..]), positionIndices[..], prims)
  {
    for spanIdx := 0 to |prims|
      invariant forall k :: 0 <= k < spanIdx ==>
                  orderedPositions[offset + k] == positions[prims[k]] && positionIndices[prims[k]] == offset + k
      invariant forall j :: 0 <= j < orderedPositions.Length && !(offset <= j < offset + spanIdx) ==>
                  orderedPositions[j] == old(orderedPositions[j])
      invariant forall t :: 0 <= t < positionIndices.Length && t !in prims[..spanIdx] ==>
                  positionIndices[t] == old(positionIndices[t])
    {
      var newIdx := offset + spanIdx;
      var sourceIdx := prims[spanIdx];
      forall k | 0 <= k < spanIdx
        ensures prims[k] != sourceIdx
      {
        DistinctAt(prims, k, spanIdx);
      }
      orderedPositions[newIdx] := positions[sourceIdx];
      positionIndices[sourceIdx] := newIdx;
      assert prims[..spanIdx + 1] == prims[..spanIdx] + [sourceIdx];
    }
    assert prims[..|prims|] == prims;
    node := LeafNode(nodeAabb, offset, |prims|);
  }

  /** After both children are built, the two halves together are placed, and
      nothing outside the span changed. */
  lemma {:induction false} CombineHalves(positions: seq<Positions>, prims: seq<nat>, reordered: seq<nat>, k: nat,
                      first: seq<nat>, second: seq<nat>, offset: nat, offset2: nat,
                      o1: seq<nat>, o2: seq<nat>,
                      ordered0: seq<Positions>, ordered1: seq<Positions>, ordered2: seq<Positions>,
                      indices0: seq<nat>, indices1: seq<nat>, indices2: seq<nat>)
    requires NoDuplicates(prims) && multiset(reordered) == multiset(prims) && k <= |reordered|
    requires first == reordered[..k] && second == reordered[k..] && offset2 == offset + k
    requires multiset(o1) == multiset(first) && |o1| == |first|
    requires multiset(o2) == multiset(second) && |o2| == |second|
    requires Placed(ordered1, indices1, positions, o1, offset)
    requires SameOutside(ordered0, ordered1, offset, offset + |first|)
    requires SameExcept(indices0, indices1, first)
    requires Placed(ordered2, indices2, positions, o2, offset2)
    requires SameOutside(ordered1, ordered2, offset2, offset2 + |second|)
    requires SameExcept(indices1, indices2, second)
    ensures multiset(o1 + o2) == multiset(prims) && |o1 + o2| == |prims|
    ensures Placed(ordered2, indices2, positions, o1 + o2, offset)
    ensures SameOutside(ordered0, ordered2, offset, offset + |prims|)
    ensures SameExcept(indices0, indices2, prims)
  {
    SplitParts(prims, reordered, k);
    assert |reordered| == |prims| by {
      assert |multiset(reordered)| == |multiset(prims)|;
    }
    var order := o1 + o2;
    forall i | 0 <= i < |order|
      ensures && order[i] < |indices2| && order[i] < |positions| && offset + i < |ordered2|
              && ordered2[offset + i] == positions[order[i]]
              && indices2[order[i]] == offset + i
    {
      if i < k {
        assert order[i] == o1[i];
        assert multiset(o1)[o1[i]] > 0;
        assert o1[i] in reordered[..k];
      } else {
        assert order[i] == o2[i - k];
        assert offset + i == offset + k + (i - k);
      }
    }
    forall t | 0 <= t < |indices2| && t !in prims
      ensures indices2[t] == indices0[t]
    {
      assert multiset(prims)[t] == 0;
      assert multiset(reordered[..k])[t] == 0 && multiset(reordered[k..])[t] == 0;
    }
  }

  /** `buildRecursive`: appends the subtree for the span to `nodes`, in
      pre-order, and returns the index of its root. The subtree's leaves
      cover `offset..offset + |prims|` of the ordered triangle array, which
      afterwards holds the span's triangles in the ghost `order`, their
      decision order; each of those triangles' new index is recorded. Nothing else in either array changes. */
  method BuildRecursive(positions: seq<Positions>, o: SplitOracle, prims: seq<nat>, nodes: seq<BvhNode>,
                        orderedPositions: array<Positions>, positionIndices: array<nat>, offset: nat)
    returns (nodesOut: seq<BvhNode>, currentNodeIdx: nat, ghost tree: Tree, ghost order: seq<nat>)
    requires ValidOracle(o)
    requires orderedPositions.Length == |positions| == positionIndices.Length
    requires |prims| >= 1
    requires NoDuplicates(prims)
    requires forall k :: 0 <= k < |prims| ==> prims[k] < |positions|
    requires offset + |prims| <= |positions|
    modifies orderedPositions, positionIndices
    ensures currentNodeIdx == |nodes|
    ensures nodesOut == nodes + Flatten(tree, |nodes|)
    ensures Covers(tree, offset) && Count(tree) == |prims|
    ensures tree.bounds == o.bounds(prims)
    ensures tree.Leaf? <==> Decide(o, prims).MakeLeaf?
    ensures FollowsDecisions(o, tree, prims)
    ensures order == DecisionOrder(o, prims)
    ensures multiset(order) == multiset(prims) && |order| == |prims|
    ensures Placed(orderedPositions[..], positionIndices[..], positions, order, offset)
    ensures SameOutside(old(orderedPositions[..]), orderedPositions[..], offset, offset + |prims|)
    ensures SameExcept(old(positionIndices[..]), positionIndices[..], prims)
    decreases |prims|, 1
  {
    currentNodeIdx := |nodes|;
    // `emplace_back()`: a placeholder, overwritten before returning.
    var placeholder := BvhNode(Aabb(Vec3(0, 0, 0), Vec3(0, 0, 0)), 0, 0, 0, 0);
    var nodeAabb := o.bounds(prims);
    var decision := Decide(o, prims);
    if decision.MakeLeaf? {
      var node := BuildLeafNode(positions, nodeAabb, prims, orderedPositions, positionIndices, offset);
      nodesOut := (nodes + [placeholder])[currentNodeIdx := node];
      tree := Leaf(nodeAabb, offset, |prims|);
      order := prims;
    } else {
      nodesOut, tree, order := BuildChildren(positions, o, prims, nodes, placeholder, nodeAabb,
                                             decision.order, decision.splitIdx,
                                             orderedPositions, positionIndices, offset);
    }
  }

  /** The interior branch of `buildRecursive`: with the placeholder for the
      node appended, builds the subtree of the first `splitIdx` primitives of
      the reordered span, then that of the rest, and replaces the placeholder
      by an interior node that points at the second subtree. */
  method BuildChildren(positions: seq<Positions>, o: SplitOracle, prims: seq<nat>, nodes: seq<BvhNode>,
                       placeholder: BvhNode, nodeAabb: Aabb, reordered: seq<nat>, splitIdx: nat,
                       orderedPositions: array<Positions>, positionIndices: array<nat>, offset: nat)
    returns (nodesOut: seq<BvhNode>, ghost tree: Tree, ghost order: seq<nat>)
    requires ValidOracle(o)
    requires orderedPositions.Length == |positions| == positionIndices.Length
    requires NoDuplicates(prims)
    requires forall k :: 0 <= k < |prims| ==> prims[k] < |positions|
    requires offset + |prims| <= |positions|
    requires multiset(reordered) == multiset(prims) && |reordered| == |prims|
    requires 0 < splitIdx < |prims|
    requires Decide(o, prims) == SplitAt(reordered, splitIdx) && nodeAabb == o.bounds(prims)
    modifies orderedPositions, positionIndices
    ensures nodesOut == nodes + Flatten(tree, |nodes|)
    ensures tree.Interior? && tree.bounds == nodeAabb && tree.axis == o.splitAxis(prims)
    ensures FollowsDecisions(o, tree, prims)
    ensures Covers(tree, offset) && Count(tree) == |prims|
    ensures order == DecisionOrder(o, prims)
    ensures multiset(order) == multiset(prims) && |order| == |prims|
    ensures Placed(orderedPositions[..], positionIndices[..], positions, order, offset)
    ensures SameOutside(old(orderedPositions[..]), orderedPositions[..], offset, offset + |prims|)
    ensures SameExcept(old(positionIndices[..]), positionIndices[..], prims)
    decreases |prims|, 0
  {
    var currentNodeIdx := |nodes|;
    var first, second := reordered[..splitIdx], reordered[splitIdx..];
    var secondOffset := offset + splitIdx;
    SplitParts(prims, reordered, splitIdx);
    ReorderedBounded(prims, reordered, |positions|);
    ghost var ordered0, indices0 := orderedPositions[..], positionIndices[..];
    var withPlaceholder := nodes + [placeholder];
    var nodes1, firstIdx, t1, o1 :=
      BuildRecursive(positions, o, first, withPlaceholder, orderedPositions, positionIndices, offset);
    ghost var ordered1, indices1 := orderedPositions[..], positionIndices[..];
    var nodes2, secondChildOffset, t2, o2 :=
      BuildRecursive(positions, o, second, nodes1, orderedPositions, positionIndices, secondOffset);
    var axis := o.splitAxis(prims);
    nodesOut := nodes2[currentNodeIdx := InteriorNode(axis, secondChildOffset, nodeAabb)];
    tree := Interior(nodeAabb, axis, t1, t2);
    order := o1 + o2;
    LinkChildren(positions, prims, reordered, splitIdx, offset, secondOffset, first, second,
                 nodes, placeholder, withPlaceholder, nodes1, nodes2, nodesOut, nodeAabb, axis, t1, t2, tree,
                 o1, o2, order, ordered0, ordered1, orderedPositions[..], indices0, indices1, positionIndices[..]);
  }

  /** The facts `buildRecursive` promises for an interior node, from those
      its two recursive calls promise for the children. */
  lemma {:induction false} LinkChildren(positions: seq<Positions>, prims: seq<nat>, reordered: seq<nat>, k: nat,
                     offset: nat, offset2: nat,
                     first: seq<nat>, second: seq<nat>,
                     nodes: seq<BvhNode>, placeholder: BvhNode, withPlaceholder: seq<BvhNode>,
                     nodes1: seq<BvhNode>, nodes2: seq<BvhNode>, nodesOut: seq<BvhNode>,
                     bounds: Aabb, axis: Axis, t1: Tree, t2: Tree, tree: Tree,
                     o1: seq<nat>, o2: seq<nat>, order: seq<nat>,
                     ordered0: seq<Positions>, ordered1: seq<Positions>, ordered2: seq<Positions>,
                     indices0: seq<nat>, indices1: seq<nat>, indices2: seq<nat>)
    requires NoDuplicates(prims) && multiset(reordered) == multiset(prims) && |reordered| == |prims|
    requires 0 < k < |prims| && first == reordered[..k] && second == reordered[k..] && offset2 == offset + k
    requires withPlaceholder == nodes + [placeholder]
    requires nodes1 == withPlaceholder + Flatten(t1, |withPlaceholder|)
    requires Covers(t1, offset) && Count(t1) == |first|
    requires multiset(o1) == multiset(first) && |o1| == |first|
    requires Placed(ordered1, indices1, positions, o1, offset)
    requires SameOutside(ordered0, ordered1, offset, offset + |first|)
    requires SameExcept(indices0, indices1, first)
    requires nodes2 == nodes1 + Flatten(t2, |nodes1|)
    requires Covers(t2, offset2) && Count(t2) == |second|
    requires multiset(o2) == multiset(second) && |o2| == |second|
    requires Placed(ordered2, indices2, positions, o2, offset2)
    requires SameOutside(ordered1, ordered2, offset2, offset2 + |second|)
    requires SameExcept(indices1, indices2, second)
    requires nodesOut == nodes2[|nodes| := InteriorNode(axis, |nodes1|, bounds)]
    requires tree == Interior(bounds, axis, t1, t2) && order == o1 + o2
    ensures nodesOut == nodes + Flatten(tree, |nodes|)
    ensures Covers(tree, offset) && Count(tree) == |prims|
    ensures multiset(order) == multiset(prims) && |order| == |prims|
    ensures Placed(ordered2, indices2, positions, order, offset)
    ensures SameOutside(ordered0, ordered2, offset, offset + |prims|)
    ensures SameExcept(indices0, indices2, prims)
  {
    assert |first| == k && |second| == |prims| - k;
    InteriorLayout(nodes, placeholder, withPlaceholder, t1, t2, bounds, axis, nodes1, nodes2, offset, offset2, k, |prims|);
    CombineHalves(positions, prims, reordered, k, first, second, offset, offset2, o1, o2,
                  ordered0, ordered1, ordered2, indices0, indices1, indices2);
  }

  /** Replacing the element that follows a prefix. */
  lemma {:induction false} UpdateAfterPrefix(prefix: seq<BvhNode>, replaced: BvhNode, node: BvhNode, rest: seq<BvhNode>)
    ensures (prefix + [replaced] + rest)[|prefix| := node] == prefix + ([node] + rest)
  {
  }

  /** The node array after both children are built and the placeholder is
      replaced by the interior node is the pre-order layout of the interior
      tree, which covers both children's ranges. */
  lemma {:induction false} InteriorLayout(nodes: seq<BvhNode>, placeholder: BvhNode, withPlaceholder: seq<BvhNode>,
                       t1: Tree, t2: Tree, bounds: Aabb, axis: Axis,
                       nodes1: seq<BvhNode>, nodes2: seq<BvhNode>, offset: nat, offset2: nat, k: nat, n: nat)
    requires withPlaceholder == nodes + [placeholder]
    requires nodes1 == withPlaceholder + Flatten(t1, |withPlaceholder|)
    requires nodes2 == nodes1 + Flatten(t2, |nodes1|)
    requires Covers(t1, offset) && Count(t1) == k
    requires Covers(t2, offset2) && Count(t2) == n - k && offset2 == offset + k
    ensures nodes2[|nodes| := InteriorNode(axis, |nodes1|, bounds)]
              == nodes + Flatten(Interior(bounds, axis, t1, t2), |nodes|)
    ensures Covers(Interior(bounds, axis, t1, t2), offset) && Count(Interior(bounds, axis, t1, t2)) == n
  {
    var n, m := |nodes|, |nodes1|;
    assert |withPlaceholder| == n + 1;
    var rest := Flatten(t1, n + 1) + Flatten(t2, m);
    assert nodes2 == nodes + [placeholder] + rest;
    UpdateAfterPrefix(nodes, placeholder, InteriorNode(axis, m, bounds), rest);
    FlattenInteriorEq(n, m, t1, t2, bounds, axis);
    assert offset + Count(t1) == offset2;
  }

  /** The triangle indices `0..n`, without duplicates. */
  lemma {:induction false} RangeNoDuplicates(prims: seq<nat>, n: nat)
    requires NoDuplicates(prims)
    requires forall k :: 0 <= k < |prims| ==> prims[k] < n
    ensures NoDuplicates(prims + [n])
  {
    forall x
      ensures multiset(prims + [n])[x] <= 1
    {
      assert multiset(prims + [n]) == multiset(prims) + multiset{n};
      if x == n {
        assert x !in prims;
      }
    }
  }

  /** `buildBvh`: builds the hierarchy over a non-empty triangle array. The
      nodes are the pre-order layout of a tree whose leaves cover every
      triangle exactly once; `triangleIndices` is a permutation of the
      triangle indices, and the ordered triangle array holds each input
      triangle at its new index. */
  method BuildBvh(positions: seq<Positions>, o: SplitOracle)
    returns (bvh: Bvh, orderedPositions: seq<Positions>, ghost tree: Tree)
    requires ValidOracle(o)
    requires |positions| > 0
    ensures bvh.nodes == Flatten(tree, 0)
    ensures Covers(tree, 0) && Count(tree) == |positions|
    ensures FollowsDecisions(o, tree, AllTriangles(|positions|))
    ensures IsPermutation(bvh.triangleIndices, |positions|)
    ensures |orderedPositions| == |positions|
    ensures forall k :: 0 <= k < |positions| ==>
              var order := DecisionOrder(o, AllTriangles(|positions|));
              && order[k] < |positions|
              && orderedPositions[k] == positions[order[k]]
              && bvh.triangleIndices[order[k]] == k
    ensures LeavesHoldTheirSpans(o, tree, AllTriangles(|positions|), orderedPositions, positions)
    ensures forall i :: 0 <= i < |positions| ==> orderedPositions[bvh.triangleIndices[i]] == positions[i]
    ensures |positions| <= MAX_NARROWED_TRIANGLES ==>
              forall i :: 0 <= i < |bvh.nodes| ==> NarrowingAssertsHold(bvh.nodes[i])
  {
    var numTriangles := |positions|;
    var prims: seq<nat> := [];
    for idx := 0 to numTriangles
      invariant |prims| == idx
      invariant forall k :: 0 <= k < idx ==> prims[k] == k
      invariant NoDuplicates(prims)
    {
      RangeNoDuplicates(prims, idx);
      prims := prims + [idx];
    }
    assert prims == AllTriangles(numTriangles);
    var ordered := new Positions[numTriangles];
    var indices := new nat[numTriangles];
    var nodes, _, t, order := BuildRecursive(positions, o, prims, [], ordered, indices, 0);
    tree := t;
    assert nodes == Flatten(t, 0);
    PlacedPermutation(positions, prims, order, ordered[..], indices[..]);
    DecisionPlacementFillsLeaves(o, t, prims, 0, ordered[..], indices[..], positions);
    bvh := Bvh(nodes, indices[..]);
    orderedPositions := ordered[..];
    if numTriangles <= MAX_NARROWED_TRIANGLES {
      NodesPassNarrowingAsserts(t, numTriangles);
    }
  }

  /** The assertions `buildLeafNode` and `buildRecursive` make before
      narrowing a node's fields to `std::uint32_t`: the triangle offset and
      count and the second child's index are below `UINT32_MAX`, and an
      interior node's split axis is at most 2. Where they hold, the casts
      lose nothing. */
  predicate NarrowingAssertsHold(node: BvhNode) {
    && node.trianglesOffset < U32_LIMIT - 1
    && node.triangleCount < U32_LIMIT - 1
    && node.secondChildOffset < U32_LIMIT - 1
    && (node.triangleCount == 0 ==> node.splitAxis <= 2)
    && node.splitAxis < U32_LIMIT
  }

  /** Up to this many triangles, every node passes the narrowing assertions
      whatever the split decisions: a tree has fewer than twice as many
      nodes as triangles. */
  const MAX_NARROWED_TRIANGLES: nat := 0x8000_0000

  /** The nodes of any covering tree over at most `MAX_NARROWED_TRIANGLES`
      triangles pass the narrowing assertions. */
  lemma NodesPassNarrowingAsserts(tree: Tree, n: nat)
    requires Covers(tree, 0) && Count(tree) == n && n <= MAX_NARROWED_TRIANGLES
    ensures forall i :: 0 <= i < Size(tree) ==> NarrowingAssertsHold(Flatten(tree, 0)[i])
  {
    FlattenWithin(tree, 0, 0);
    SizeBelowTwiceCount(tree, 0);
  }

  /** Placing a permutation of all triangle indices at offset 0 leaves a
      permutation as the recorded new indices, and every triangle at its new
      index. */
  lemma {:induction false} PlacedPermutation(positions: seq<Positions>, prims: seq<nat>, order: seq<nat>,
                          ordered: seq<Positions>, indices: seq<nat>)
    requires |prims| == |positions| == |ordered| == |indices|
    requires forall k :: 0 <= k < |prims| ==> prims[k] == k
    requires multiset(order) == multiset(prims)
    requires Placed(ordered, indices, positions, order, 0)
    ensures IsPermutation(indices, |positions|)
    ensures forall i :: 0 <= i < |positions| ==> ordered[indices[i]] == positions[i]
  {
    var n := |positions|;
    assert |order| == n by {
      assert |multiset(order)| == |multiset(prims)|;
    }
    forall t | 0 <= t < n
      ensures t in order
    {
      assert prims[t] == t;
      assert multiset(prims)[t] > 0;
    }
    forall t | 0 <= t < n
      ensures indices[t] < n && order[indices[t]] == t
    {
      assert t in order;
      var k :| 0 <= k < |order| && order[k] == t;
    }
    forall k | 0 <= k < n
      ensures k in indices
    {
      assert indices[order[k]] == k;
    }
  }

  /** The ordered triangle array the builder fills equals the one the tests
      obtain by `reorderAttributes` with the returned `triangleIndices`: two
      arrays that agree with the input at every permuted index are equal. */
  lemma {:induction false} ReorderedEqualsOrdered(positions: seq<Positions>, idx: seq<nat>,
                                                  a: seq<Positions>, b: seq<Positions>)
    requires IsPermutation(idx, |positions|)
    requires |a| == |b| == |positions|
    requires forall i :: 0 <= i < |positions| ==> a[idx[i]] == positions[i]
    requires forall i :: 0 <= i < |positions| ==> b[idx[i]] == positions[i]
    ensures a == b
  {
    forall k | 0 <= k < |a|
      ensures a[k] == b[k]
    {
      assert k in idx;
      var i :| 0 <= i < |idx| && idx[i] == k;
    }
  }
}
