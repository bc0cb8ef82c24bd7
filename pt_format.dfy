/** The `.pt` scene format (src/pt-format/pt_format.cpp): a model's
    triangles unrolled, put in BVH order, and packed into the GPU records of
    src/pt-format/vertex_attributes.hpp. The records' padding words are not
    modelled. */
module PtFormats {
  import opened Geometry
  import opened BoundingVolumeHierarchy
  import opened BvhBuild
  import opened GltfModels
  import opened FlattenedModels

  /** `PositionAttribute`: the three vertex positions of a triangle. */
  datatype PositionAttribute = PositionAttribute(p0: Vec3, p1: Vec3, p2: Vec3)

  /** `VertexAttributes`: a triangle's normals, texture coordinates and
      texture index. */
  datatype VertexAttributes = VertexAttributes(
    n0: Vec3, n1: Vec3, n2: Vec3,
    uv0: Vec2, uv1: Vec2, uv2: Vec2,
    textureIdx: U32)

  /** The record loop of the constructor: one `PositionAttribute` and one
      `VertexAttributes` per triangle, in triangle order, each copying the
      triangle's attributes. */
  method PackAttributes(positions: seq<Positions>, normals: seq<Normals>, texCoords: seq<TexCoords>,
                        textureIndices: seq<U32>)
    returns (positionAttributes: seq<PositionAttribute>, vertexAttributes: seq<VertexAttributes>)
    requires |positions| == |normals| == |texCoords| == |textureIndices|
    ensures |positionAttributes| == |vertexAttributes| == |positions|
    ensures forall i :: 0 <= i < |positions| ==>
              && positionAttributes[i].p0 == positions[i].v0
              && positionAttributes[i].p1 == positions[i].v1
              && positionAttributes[i].p2 == positions[i].v2
    ensures forall i :: 0 <= i < |positions| ==>
              && vertexAttributes[i].n0 == normals[i].n0
              && vertexAttributes[i].n1 == normals[i].n1
              && vertexAttributes[i].n2 == normals[i].n2
              && vertexAttributes[i].uv0 == texCoords[i].uv0
              && vertexAttributes[i].uv1 == texCoords[i].uv1
              && vertexAttributes[i].uv2 == texCoords[i].uv2
              && vertexAttributes[i].textureIdx == textureIndices[i]
  {
    positionAttributes, vertexAttributes := [], [];
    for i := 0 to |positions|
      invariant |positionAttributes| == |vertexAttributes| == i
      invariant forall k :: 0 <= k < i ==>
                  positionAttributes[k] == PositionAttribute(positions[k].v0, positions[k].v1, positions[k].v2)
      invariant forall k :: 0 <= k < i ==>
                  vertexAttributes[k] == VertexAttributes(normals[k].n0, normals[k].n1, normals[k].n2,
                                                          texCoords[k].uv0, texCoords[k].uv1, texCoords[k].uv2,
                                                          textureIndices[k])
    {
      var ps, ns, uvs, textureIdx := positions[i], normals[i], texCoords[i], textureIndices[i];
      positionAttributes := positionAttributes + [PositionAttribute(ps.v0, ps.v1, ps.v2)];
      vertexAttributes := vertexAttributes + [VertexAttributes(ns.n0, ns.n1, ns.n2, uvs.uv0, uvs.uv1, uvs.uv2, textureIdx)];
    }
  }

  class PtFormat {
    var bvhNodes: seq<BvhNode>
    var bvhPositionAttributes: seq<Positions>
    var gpuPositionAttributes: seq<PositionAttribute>
    var gpuVertexAttributes: seq<VertexAttributes>
    var baseColorTextures: seq<Texture>
    /** Where the BVH put each unrolled triangle; not stored by the format. */
    ghost var triangleIndices: seq<nat>

    /** `PtFormat(gltfPath)`, from the model the file holds. All four
        attribute columns go through the same BVH order: the records at
        the position the BVH gives triangle `k` of the unrolled model are
        built from that triangle, the triangle `k`-th in the decision order
        gets new index `k`, and the node array is the pre-order layout of a
        tree covering every triangle that follows the split decisions. */
    constructor (model: GltfModel, o: SplitOracle)
      requires ValidOracle(o)
      requires AllUnrollable(model.meshes)
      requires TriangleCount(model.meshes) > 0
      ensures IsPermutation(triangleIndices, TriangleCount(model.meshes))
      ensures forall k :: 0 <= k < TriangleCount(model.meshes) ==>
                var order := DecisionOrder(o, AllTriangles(TriangleCount(model.meshes)));
                order[k] < TriangleCount(model.meshes) && triangleIndices[order[k]] == k
      ensures exists tree :: Covers(tree, 0) && Count(tree) == TriangleCount(model.meshes) && bvhNodes == Flatten(tree, 0)
                             && FollowsDecisions(o, tree, AllTriangles(TriangleCount(model.meshes)))
      ensures |bvhPositionAttributes| == |gpuPositionAttributes| == |gpuVertexAttributes| == TriangleCount(model.meshes)
      ensures forall k :: 0 <= k < TriangleCount(model.meshes) ==>
                var tri := Unrolled(model.meshes)[k];
                var j := triangleIndices[k];
                && bvhPositionAttributes[j] == tri.positions
                && gpuPositionAttributes[j] == PositionAttribute(tri.positions.v0, tri.positions.v1, tri.positions.v2)
                && gpuVertexAttributes[j] == VertexAttributes(tri.normals.n0, tri.normals.n1, tri.normals.n2,
                                                              tri.texCoords.uv0, tri.texCoords.uv1, tri.texCoords.uv2,
                                                              tri.textureIndex)
      ensures baseColorTextures == model.baseColorTextures
    {
      var flattened := new FlattenedModel(model);
      ghost var tris := Unrolled(model.meshes);
      var bvh, _, tree := BuildBvh(flattened.positions, o);
      var n := |flattened.positions|;
      var positions := ReorderAttributes(flattened.positions, bvh.triangleIndices);
      var normals := ReorderAttributes(flattened.normals, bvh.triangleIndices);
      var texCoords := ReorderAttributes(flattened.texCoords, bvh.triangleIndices);
      var textureIndices := ReorderAttributes(flattened.baseColorTextureIndices, bvh.triangleIndices);
      assert |positions| == |normals|;
      assert |positions| == |texCoords|;
      assert |positions| == |textureIndices|;
      var positionAttributes, vertexAttributes := PackAttributes(positions, normals, texCoords, textureIndices);

      bvhNodes := bvh.nodes;
      bvhPositionAttributes := positions;
      gpuPositionAttributes := positionAttributes;
      gpuVertexAttributes := vertexAttributes;
      baseColorTextures := model.baseColorTextures;
      triangleIndices := bvh.triangleIndices;
      assert bvh.triangleIndices[..n] == bvh.triangleIndices;
    }
  }
}
