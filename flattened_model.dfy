/** `FlattenedModel` (src/common/flattened_model.cpp): a model's index
    buffers unrolled into one record per triangle. Meshes are taken in
    order, and each index triple of a mesh gives one triangle whose three
    positions, normals and texture coordinates are the mesh's attributes at
    those indices, tagged with the mesh's texture index. */
module FlattenedModels {
  import opened Geometry
  import opened GltfModels

  /** A mesh that can be unrolled: whole index triples, each index naming a
      vertex that has a position, a normal and a texture coordinate. */
  ghost predicate Unrollable(mesh: GltfMesh) {
    && |mesh.indices| % 3 == 0
    && forall i :: 0 <= i < |mesh.indices| ==>
         && mesh.indices[i] < |mesh.positions|
         && mesh.indices[i] < |mesh.normals|
         && mesh.indices[i] < |mesh.texCoords|
  }

  ghost predicate AllUnrollable(meshes: seq<GltfMesh>) {
    forall m :: 0 <= m < |meshes| ==> Unrollable(meshes[m])
  }

  /** One unrolled triangle: the four records pushed for one index triple. */
  datatype Triangle = Triangle(positions: Positions, normals: Normals, texCoords: TexCoords, textureIndex: U32)

  /** The number of triangles a mesh contributes. */
  function TriangleCountOf(mesh: GltfMesh): nat {
    |mesh.indices| / 3
  }

  /** The triangle of index triple `t`, with the texture index converted to
      `std::uint32_t` (reduced modulo 2^32). */
  function MeshTriangle(mesh: GltfMesh, t: nat): Triangle
    requires Unrollable(mesh)
    requires t < TriangleCountOf(mesh)
  {
    var i0, i1, i2 := mesh.indices[3 * t], mesh.indices[3 * t + 1], mesh.indices[3 * t + 2];
    Triangle(
      Positions(mesh.positions[i0], mesh.positions[i1], mesh.positions[i2]),
      Normals(mesh.normals[i0], mesh.normals[i1], mesh.normals[i2]),
      TexCoords(mesh.texCoords[i0], mesh.texCoords[i1], mesh.texCoords[i2]),
      mesh.baseColorTextureIndex % U32_LIMIT)
  }

  /** The first `count` triangles of a mesh, in index order. */
  function MeshTriangles(mesh: GltfMesh, count: nat): (r: seq<Triangle>)
    requires Unrollable(mesh)
    requires count <= TriangleCountOf(mesh)
    ensures |r| == count
  {
    if count == 0 then [] else MeshTriangles(mesh, count - 1) + [MeshTriangle(mesh, count - 1)]
  }

  /** The triangles of all meshes, mesh after mesh: one triangle per index
      triple. */
  function Unrolled(meshes: seq<GltfMesh>): (tris: seq<Triangle>)
    requires AllUnrollable(meshes)
    ensures |tris| == TriangleCount(meshes)
  {
    if |meshes| == 0 then []
    else
      var n := |meshes| - 1;
      Unrolled(meshes[..n]) + MeshTriangles(meshes[n], TriangleCountOf(meshes[n]))
  }

  /** The number of triangles of all meshes. */
  function TriangleCount(meshes: seq<GltfMesh>): nat {
    if |meshes| == 0 then 0 else TriangleCount(meshes[..|meshes| - 1]) + TriangleCountOf(meshes[|meshes| - 1])
  }

  /** Triangle `t` of a mesh comes from its `t`-th index triple. */
  lemma {:induction false} MeshTrianglesAt(mesh: GltfMesh, count: nat, t: nat)
    requires Unrollable(mesh)
    requires t < count <= TriangleCountOf(mesh)
    ensures MeshTriangles(mesh, count)[t] == MeshTriangle(mesh, t)
  {
    if t < count - 1 {
      MeshTrianglesAt(mesh, count - 1, t);
    }
  }

  /** Mesh `m`'s triangles sit after those of the meshes before it, in
      index order: triangle `t` of mesh `m` is unrolled from the mesh's
      `t`-th index triple, with the mesh's own texture index. */
  lemma {:induction false} UnrolledTriangle(meshes: seq<GltfMesh>, m: nat, t: nat)
    requires AllUnrollable(meshes)
    requires m < |meshes| && t < |meshes[m].indices| / 3
    ensures TriangleCount(meshes[..m]) + t < |Unrolled(meshes)|
    ensures var tri := Unrolled(meshes)[TriangleCount(meshes[..m]) + t];
            var mesh := meshes[m];
            var i0, i1, i2 := mesh.indices[3 * t], mesh.indices[3 * t + 1], mesh.indices[3 * t + 2];
            && tri.positions == Positions(mesh.positions[i0], mesh.positions[i1], mesh.positions[i2])
            && tri.normals == Normals(mesh.normals[i0], mesh.normals[i1], mesh.normals[i2])
            && tri.texCoords == TexCoords(mesh.texCoords[i0], mesh.texCoords[i1], mesh.texCoords[i2])
            && tri.textureIndex == mesh.baseColorTextureIndex % U32_LIMIT
  {
    var n := |meshes| - 1;
    var prefix := meshes[..n];
    assert AllUnrollable(prefix);
    if m < n {
      assert prefix[..m] == meshes[..m];
      UnrolledTriangle(prefix, m, t);
    } else {
      assert prefix == meshes[..m];
      MeshTrianglesAt(meshes[n], TriangleCountOf(meshes[n]), t);
    }
  }

  /** Four parallel vectors holding, column by column, the triangles
      `tris`. */
  ghost predicate Columns(positions: seq<Positions>, normals: seq<Normals>, texCoords: seq<TexCoords>,
                          textureIndices: seq<U32>, tris: seq<Triangle>) {
    && |positions| == |tris| && |normals| == |tris| && |texCoords| == |tris|
    && |textureIndices| == |tris|
    && (forall k :: 0 <= k < |tris| ==>
          && positions[k] == tris[k].positions && normals[k] == tris[k].normals
          && texCoords[k] == tris[k].texCoords && textureIndices[k] == tris[k].textureIndex)
  }

  /** Pushing one triangle's four records onto the columns. */
  lemma ColumnsAppend(positions: seq<Positions>, normals: seq<Normals>, texCoords: seq<TexCoords>,
                      textureIndices: seq<U32>, tris: seq<Triangle>, tri: Triangle)
    requires Columns(positions, normals, texCoords, textureIndices, tris)
    ensures Columns(positions + [tri.positions], normals + [tri.normals], texCoords + [tri.texCoords],
                    textureIndices + [tri.textureIndex], tris + [tri])
  {
  }

  /** The index triple starting at `3 * t` is triangle `t`, and after it
      the mesh's first `t + 1` triangles are unrolled. */
  lemma TripleStep(mesh: GltfMesh, before: seq<Triangle>, t: nat)
    requires Unrollable(mesh)
    requires 3 * t < |mesh.indices|
    ensures 3 * t + 2 < |mesh.indices| && t < TriangleCountOf(mesh)
    ensures before + MeshTriangles(mesh, t + 1) == (before + MeshTriangles(mesh, t)) + [MeshTriangle(mesh, t)]
  {
  }

  /** Stepping by whole triples ends exactly after the last triangle. */
  lemma TriplesDone(mesh: GltfMesh, t: nat)
    requires Unrollable(mesh)
    requires 3 * t <= |mesh.indices| && !(3 * t < |mesh.indices|)
    ensures t == TriangleCountOf(mesh)
  {
  }

  class FlattenedModel {
    var positions: seq<Positions>
    var normals: seq<Normals>
    var texCoords: seq<TexCoords>
    var baseColorTextureIndices: seq<U32>

    /** The four vectors hold, column by column, the triangles `tris`. */
    ghost predicate Holds(tris: seq<Triangle>)
      reads this
    {
      Columns(positions, normals, texCoords, baseColorTextureIndices, tris)
    }

    /** `FlattenedModel(const GltfModel&)`: the four vectors are the columns
        of the unrolled model, so they have equal length. */
    constructor (model: GltfModel)
      requires AllUnrollable(model.meshes)
      ensures Holds(Unrolled(model.meshes))
      ensures |positions| == |normals| == |texCoords| == |baseColorTextureIndices| == TriangleCount(model.meshes)
    {
      positions, normals, texCoords, baseColorTextureIndices := [], [], [], [];
      new;
      var meshes := model.meshes;
      var m := 0;
      while m < |meshes|
        invariant 0 <= m <= |meshes|
        invariant Holds(Unrolled(meshes[..m]))
      {
        assert meshes[..m + 1][..m] == meshes[..m];
        AppendMesh(meshes[m], Unrolled(meshes[..m]));
        m := m + 1;
      }
      assert meshes[..m] == meshes;
    }

    /** The body of the constructor's outer loop: pushes the triangles of
        one mesh, one per index triple, in index order. */
    method AppendMesh(mesh: GltfMesh, ghost before: seq<Triangle>)
      requires Unrollable(mesh)
      requires Holds(before)
      modifies this
      ensures Holds(before + MeshTriangles(mesh, TriangleCountOf(mesh)))
    {
      var i := 0;
      ghost var t := 0;
      while i < |mesh.indices|
        invariant i == 3 * t && i <= |mesh.indices|
        invariant Holds(before + MeshTriangles(mesh, t))
      {
        TripleStep(mesh, before, t);
        var idx0, idx1, idx2 := mesh.indices[i + 0], mesh.indices[i + 1], mesh.indices[i + 2];
        ColumnsAppend(positions, normals, texCoords, baseColorTextureIndices,
                      before + MeshTriangles(mesh, t), MeshTriangle(mesh, t));
        positions := positions + [Positions(mesh.positions[idx0], mesh.positions[idx1], mesh.positions[idx2])];
        normals := normals + [Normals(mesh.normals[idx0], mesh.normals[idx1], mesh.normals[idx2])];
        texCoords := texCoords + [TexCoords(mesh.texCoords[idx0], mesh.texCoords[idx1], mesh.texCoords[idx2])];
        baseColorTextureIndices := baseColorTextureIndices + [mesh.baseColorTextureIndex % U32_LIMIT];
        i, t := i + 3, t + 1;
      }
      TriplesDone(mesh, t);
    }
  }
}
