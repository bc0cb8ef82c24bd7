# rayfinder, verified core

A Dafny model of the sequential, integer- and sequence-level core of
rayfinder, a WebGPU path tracer. It covers the code that sits between device
plumbing and floating-point shading. The model follows the repository's
files, one module per source file:

- **Containers.**
  - `VectorSets` (src/common/vector_set.hpp) is a class holding a strictly sorted `seq`, with insert, erase by position and by key, find, contains and indexing.
  - `BitFlagSets` (src/common/bit_flags.hpp) models `BitFlags` over a `uint32_t` mask.
- **Bounding volume hierarchy.**
  - `BoundingVolumeHierarchy` (src/common/bvh.hpp) defines the node record, the pre-order layout of a tree and `reorderAttributes`.
  - `BvhBuild` (src/common/bvh.cpp) builds the hierarchy: `buildLeafNode`, `buildRecursive` and `buildBvh` over arrays.
  - `RayIntersection` (src/common/ray_intersection.cpp) is the stack-based `rayIntersectBvh` walk, proved to agree with the brute-force scan of src/tests/bvh.cpp.
  - The floating-point geometry is supplied by oracles. The SAH split choice and the partition become any reordering with a split index strictly inside the range. The slab and Moller-Trumbore tests become given functions, and distances become ordered reals.
- **Mesh pipeline.**
  - `FlattenedModels` (src/common/flattened_model.cpp) unrolls index buffers into per-triangle attributes.
  - `GltfModels` (src/common/gltf_model.cpp) covers FNV-1a, `BaseColorTextureBuilder` texture sharing, the index-count check and the sort by texture index.
  - `PtFormats` (src/pt-format/pt_format.cpp) reorders and zips the attributes into GPU records.
- **Serialisation.**
  - `ByteCodecs` and `RecordCodecs` give the little-endian bytes of sizes, words and fixed-size records, each with its inverse.
  - `ByteStreams` (src/common/buffer_stream.cpp, and the copy in src/tests/archive.cpp) is the FIFO byte stream.
  - `Archive` (src/tests/archive.cpp) covers `serialize`/`deserialize` of `Bvh` and `GltfModel`, with both round trips.
- **Text and byte encoders.**
  - `Decimals` writes and parses decimal numbers.
  - `BlueNoise` (tools/blue_noise/src/main.rs) is the header text the generator emits.
  - `Textractor` (src/textractor/main.cpp) is the BGRA to RGBA swizzle and the per-texture loop.
- **GPU buffers.** `GpuBuffers` (src/pt/gpu_buffer.hpp, src/pt/gpu_buffer.cpp) covers:
  - the usage-flag algebra and its translation to WebGPU flags;
  - the binding type a usage implies;
  - a `GpuBuffer` class that owns a handle and hands it over on move.
- **Renderer bookkeeping.**
  - `TexturePacking` packs the base-colour textures into one buffer, with descriptors whose offsets are prefix sums, under a size limit.
  - `RenderSettings` covers the parameter comparison and the progressive accumulation counter.
  - `DurationWindows` is the 30-entry timing window.
  - `ReferencePathTracers`, `Renderers` and `DeferredRenderers` (src/pt/reference_path_tracer.cpp, src/pt/renderer.cpp, src/pt/deferred_renderer.cpp) are classes holding each renderer's counters, windows and packed buffers. They also cover the G-buffer pass's matrix history and bind-group de-duplication, the blue-noise buffer layout and `getPerfStats`.

Representation choices:

- Floats are their IEEE-754 bit patterns (`bv32`), so they are serialised exactly. No float arithmetic is modelled.
- Unsigned C++ integers are `nat` subset types below 2^32 or 2^64 where a record is serialised or a count can wrap, with wrap-around written out where the source relies on it. The fields of `BvhNode` and the builder's indices are plain `nat`; the 32-bit narrowing the builder asserts is stated as a property (`BvhBuild.NarrowingAssertsHold`).
- A debug assertion (`NLRS_ASSERT`, `assert`) is modelled in one of two ways.
  - Where it checks what the caller passes in or the state the caller must keep, it becomes a `requires`. This covers `GpuBuffer::ptr` and `byteSize`, the uniform size check of the data constructor, the non-`None` usage of the binding-type lookup, the non-empty input of `buildBvh`, `DeferredRenderer::resize` and `getPerfStats`, and `VectorSet::operator[]` and `erase`.
  - Where it checks data read or loaded at run time, a failed assertion becomes a `Failure` result, which is what a debug build does. This covers the glTF loader, the archive readers and the blue-noise tool, whose Rust overflow panic is treated the same way.
  - "## Left out" says which release-build behaviours are not modelled.
- A throwing constructor becomes a `Create` method returning a `Result`.
- A `wgpuBufferMapAsync` callback becomes a plain method that receives the mapped timestamps.

## Model

| member | source | states |
|---|---|---|
| VectorSets.LowerBound | src/common/vector_set.hpp:106 | the binary search returns the lower bound of the key in a sorted vector: every element before it is smaller, none from it on is |
| VectorSets.LowerBoundLocatesKey | src/common/vector_set.hpp:106-111 | in a strictly sorted vector the key is present exactly when the lower bound is in range and holds it |
| VectorSets.InsertAtLowerBoundSorted | src/common/vector_set.hpp:106-112 | inserting an absent key at its lower bound keeps the vector strictly sorted |
| VectorSets.RemoveKeepsStrictlySorted | src/common/vector_set.hpp:127-133 | removing any one element keeps the vector strictly sorted |
| VectorSets.StrictlySortedCardinality | src/common/vector_set.hpp:71-72 | a strictly sorted vector holds as many distinct keys as it has entries, so `size()` counts keys |
| VectorSets.VectorSet.constructor | src/common/vector_set.hpp:23 | the default set is empty and valid |
| VectorSets.VectorSet.FromRange | src/common/vector_set.hpp:38-50 | the array and range constructors copy their input verbatim; the set invariant holds exactly when the input is strictly sorted |
| VectorSets.VectorSet.At | src/common/vector_set.hpp:63-67 | an in-range position holds a key of the set; in a valid set that key is larger than every key before it and smaller than every key after it |
| VectorSets.VectorSet.Size | src/common/vector_set.hpp:72 | the size is the number of keys held |
| VectorSets.VectorSet.Empty | src/common/vector_set.hpp:71 | the set is empty exactly when it holds no key |
| VectorSets.VectorSet.Clear | src/common/vector_set.hpp:77 | clearing leaves an empty, valid set |
| VectorSets.VectorSet.Insert | src/common/vector_set.hpp:102-113 | inserts exactly when the key is absent, at its lower-bound position, keeping the other keys in order; a present key leaves the vector unchanged; either way the returned position holds the key and the keys become the old keys plus the new one |
| VectorSets.VectorSet.EraseAt | src/common/vector_set.hpp:127-133 | an in-range position is required; exactly that element is removed, the order of the rest is kept and the returned position is the one that followed it |
| VectorSets.VectorSet.Find | src/common/vector_set.hpp:142-149 | the key's position when it is held, otherwise `end()` |
| VectorSets.VectorSet.Contains | src/common/vector_set.hpp:151-155 | true exactly when the key is held |
| VectorSets.VectorSet.Erase | src/common/vector_set.hpp:135-140 | an absent key changes nothing and returns `end()`; a held key is removed alone and the following position is returned; the keys become the old keys minus this one |
| BitFlagSets.AddSetsAndKeeps | src/common/bit_flags.hpp:32-41 | after `add(f)`, `has(f)` holds and every flag present before is still present |
| BitFlagSets.AddIdempotent | src/common/bit_flags.hpp:41 | adding a flag twice gives the same flags as adding it once |
| BitFlagSets.AddAllHasListed | src/common/bit_flags.hpp:21-25 | every flag listed to the variadic constructor is present |
| BitFlagSets.AddAllOmitsUnlisted | src/common/bit_flags.hpp:21-25 | a single-bit flag sharing no bit with any listed flag is absent after the variadic constructor |
| BitFlagSets.NoneAndAll | src/common/bit_flags.hpp:27-28 | `none()` has no non-empty flag and `all()` has every flag |
| BitFlagSets.BitFlags.constructor | src/common/bit_flags.hpp:46 | the default object holds no bit: `mFlags` starts at 0 |
| BitFlagSets.BitFlags.Single | src/common/bit_flags.hpp:17-20 | the single-flag constructor holds exactly that flag's bits |
| BitFlagSets.BitFlags.Of | src/common/bit_flags.hpp:21-25 | the variadic constructor equals adding each listed flag in turn, and every listed flag is present |
| BitFlagSets.BitFlags.None | src/common/bit_flags.hpp:27 | `none()` holds no bit and has no non-empty flag |
| BitFlagSets.BitFlags.All | src/common/bit_flags.hpp:28 | `all()` sets every bit of the underlying type and has every flag |
| BitFlagSets.BitFlags.Add | src/common/bit_flags.hpp:41 | `add` ORs the flag in; the flag is present afterwards and so is every flag present before |
| BoundingVolumeHierarchy.Flatten | src/common/bvh.cpp:84-98 | the pre-order node array of a tree has one node per tree node |
| BoundingVolumeHierarchy.Info | src/common/bvh.hpp:14-21 | the per-node triangle range, subtree size and depth list is as long as the node array |
| BoundingVolumeHierarchy.CountPositive | src/common/bvh.cpp:93 | a tree whose leaves cover non-empty adjacent ranges covers at least one triangle |
| BoundingVolumeHierarchy.InteriorRootOk | src/common/bvh.cpp:246-267 | the root of a flattened interior tree is followed by its first child, points at its second child, and its range and subtree split between the two |
| BoundingVolumeHierarchy.FlattenFirstAt | src/common/bvh.cpp:246-252 | the first child's subtree is stored right after its parent, entry for entry |
| BoundingVolumeHierarchy.FlattenSecondAt | src/common/bvh.cpp:253-259 | the second child's subtree is stored after the first, starting at the recorded `secondChildOffset` |
| BoundingVolumeHierarchy.FlattenInteriorEq | src/common/bvh.cpp:263-267 | the node array of an interior node is the node pointing past its first subtree, then both subtrees |
| BoundingVolumeHierarchy.ShiftNodeOk | src/common/bvh.hpp:14-21 | a well-formed node of a subtree stays well formed where the subtree is embedded in the whole array |
| BoundingVolumeHierarchy.NodeFacts | src/common/bvh.hpp:14-21 | every node of a flattened covering tree is well formed: a leaf carries its non-empty triangle range, an interior node its children's layout, inside the root's range and depth |
| BoundingVolumeHierarchy.FirstSubtreeOk | src/common/bvh.cpp:246-252 | each node of the first child's subtree is well formed in the parent's array |
| BoundingVolumeHierarchy.SecondSubtreeOk | src/common/bvh.cpp:253-259 | each node of the second child's subtree is well formed in the parent's array |
| BoundingVolumeHierarchy.AllNodesOk | src/common/bvh.hpp:23-31 | every node of the hierarchy is well formed and the root stands for all triangles |
| BoundingVolumeHierarchy.ReorderAttributes | src/common/bvh.hpp:35-46 | the output has the input's length, each input lands at its index where no later input overwrites it, and under a permutation every input lands at its new index |
| BvhBuild.Decide | src/common/bvh.cpp:109-242 | one primitive or a degenerate span gives a leaf; two are split one and one; more than 255 are always split; a split is a permutation of the span with both parts non-empty; a leaf of three or more means degenerate or the heuristic preferred a leaf |
| BvhBuild.DistinctAt | src/common/bvh.cpp:12-17 | distinct primitives of a span without duplicates name distinct triangles |
| BvhBuild.SplitParts | src/common/bvh.cpp:246-259 | both parts of a split are duplicate-free, disjoint and together the span |
| BvhBuild.ReorderedBounded | src/common/bvh.cpp:136-142 | a reordering of the span names only triangles of the input |
| BvhBuild.BuildLeafNode | src/common/bvh.cpp:57-82 | the span's triangles are copied in order to its range of the ordered array, each one's new index is recorded, nothing else changes, and the leaf node names the range |
| BvhBuild.CombineHalves | src/common/bvh.cpp:246-259 | the two children's placements together place the whole span and change nothing outside it |
| BvhBuild.BuildRecursive | src/common/bvh.cpp:84-270 | appends the pre-order layout of a covering subtree for the span and returns its root index; every node of that subtree has the span's bounds and follows the split decision for its span (leaf or split axis, split index, and children built on the two reordered halves); the span's triangles are placed at its range in their decision order, each leaf's own triangles at the leaf's range, with their new indices recorded; nothing else changes |
| BvhBuild.BuildChildren | src/common/bvh.cpp:244-269 | builds both children and replaces the placeholder by an interior node pointing at the second child; the result is the layout of the interior tree covering the span, which follows the split decision at every node, and the span's triangles are placed in its decision order: the first half's, then the second's |
| BvhBuild.LinkChildren | src/common/bvh.cpp:244-269 | the interior node's promises follow from those of its two children |
| BvhBuild.UpdateAfterPrefix | src/common/bvh.cpp:97-98 | overwriting the node reserved after the prefix yields the prefix, the node, then the rest |
| BvhBuild.InteriorLayout | src/common/bvh.cpp:263-267 | after both children and the overwrite the array is the interior tree's pre-order layout |
| BvhBuild.RangeNoDuplicates | src/common/bvh.cpp:280-289 | the primitives `0..n` are duplicate-free |
| BvhBuild.BuildBvh | src/common/bvh.cpp:273-303 | the nodes are the layout of a tree covering every triangle once that follows the split decisions at every node from the span of all triangles; the ordered array is the triangles in decision order, so every leaf's range holds exactly the triangles of its span; `triangleIndices` is a permutation that gives the triangle `k`-th in decision order the new index `k`, which fixes every entry even when two triangles have equal positions, and the ordered array holds each triangle at its new index; with at most 2^31 triangles every node passes the narrowing assertions |
| BvhBuild.DecisionsDetermineTree | src/common/bvh.cpp:84-270 | two covering trees over the same span that both follow the split decisions at every node are equal, so the decisions fix the hierarchy the builder returns |
| BvhBuild.DecisionOrderPermutes | src/common/bvh.cpp:84-270 | the order the recursion lays out a span's triangles in is a permutation of the span |
| BvhBuild.DecisionPlacementFillsLeaves | src/common/bvh.hpp:26-29 | placing a span's triangles in decision order puts every leaf's own span, in order, at the contiguous range the leaf names |
| BvhBuild.NodesPassNarrowingAsserts | src/common/bvh.cpp:75-76 | for any covering tree over at most 2^31 triangles, every node's offset, count and second-child index are below `UINT32_MAX` and every interior node's split axis is at most 2 |
| BoundingVolumeHierarchy.SizeBelowTwiceCount | src/common/bvh.cpp:261-262 | a covering tree has fewer than twice as many nodes as triangles, which bounds every second-child index |
| BoundingVolumeHierarchy.FlattenWithin | src/common/bvh.cpp:261-262 | every node of a flattened covering tree names a triangle range inside the tree's, a second child inside the array and, when interior, a split axis below 3 |
| BvhBuild.PlacedPermutation | src/common/bvh.cpp:291-301 | placing a permutation of all triangles at offset 0 records a permutation of new indices, each triangle at its own |
| BvhBuild.ReorderedEqualsOrdered | src/common/bvh.hpp:26-29 | reordering the positions by the returned indices gives exactly the builder's ordered array |
| RayIntersection.ClosestHit | src/tests/bvh.cpp:23-30 | scanning the triangles in order never raises `rayTMax` |
| RayIntersection.ClosestHitIsClosest | src/tests/bvh.cpp:16-32 | the scan ends at the distance of the closest hit: no triangle is hit nearer, and the distance is `rayTMax` or some triangle's hit |
| RayIntersection.ClosestUnique | src/tests/bvh.cpp:94-98 | the closest-hit distance is unique, so any visiting order that finds it gives the same `t` |
| RayIntersection.ClosestHitFound | src/tests/bvh.cpp:16-32 | the scan lowers `rayTMax` exactly when some triangle is hit nearer than it |
| RayIntersection.BruteForceIntersect | src/tests/bvh.cpp:16-32 | reports a hit exactly when some triangle is hit; the intersection is a triangle's own at the closest distance, otherwise the caller's value is untouched |
| RayIntersection.IntersectLeaf | src/common/ray_intersection.cpp:164-175 | testing a leaf's triangles lowers `rayTMax` to the closest hit in its range and keeps the search state consistent |
| RayIntersection.DropCleared | src/common/ray_intersection.cpp:197-204 | a node with no nearer hit can leave the frontier without losing a hit |
| RayIntersection.SplitPending | src/common/ray_intersection.cpp:182-195 | replacing an interior node by its two children keeps every pending hit on the frontier |
| RayIntersection.Finish | src/common/ray_intersection.cpp:199-202 | with nothing left to visit, `rayTMax` is the closest hit over all triangles |
| RayIntersection.StartWalk | src/common/ray_intersection.cpp:150-154 | the walk starts at the root with an empty stack, which has every hit pending |
| RayIntersection.MissCleared | src/common/ray_intersection.cpp:197-204 | a node whose box the ray misses holds no nearer hit, given boxes that bound their triangles |
| RayIntersection.LeafFacts | src/common/ray_intersection.cpp:164-169 | a leaf's stored offset and count are its triangle range, which lies inside the triangle array |
| RayIntersection.InteriorFacts | src/common/ray_intersection.cpp:184-193 | an interior node's split axis indexes `dirNeg` and both children are inside the node array |
| RayIntersection.LeafCleared | src/common/ray_intersection.cpp:167-175 | after its loop a leaf holds no hit nearer than the new `rayTMax` |
| RayIntersection.PopStep | src/common/ray_intersection.cpp:180 | popping the stack after a cleared node keeps the loop invariant and shrinks what is left to visit |
| RayIntersection.DoneStep | src/common/ray_intersection.cpp:176-179 | breaking out with an empty stack leaves the closest hit in `rayTMax`, having visited at most every node once |
| RayIntersection.PushStep | src/common/ray_intersection.cpp:184-194 | pushing one child and descending into the other keeps the invariant, never overflows the 32-entry stack, and shrinks what is left to visit |
| RayIntersection.FlattenWellFormed | src/common/ray_intersection.cpp:148 | the layout of a covering tree less than 32 levels high is well formed for the walk |
| RayIntersection.VisitNode | src/common/ray_intersection.cpp:158-204 | one loop pass either ends with the closest hit or keeps the invariant with less left to visit |
| RayIntersection.RayIntersectBvh | src/common/ray_intersection.cpp:138-213 | reports a hit exactly when the brute-force scan would, with a triangle's own intersection at the closest distance, visiting between one and all nodes |
| RayIntersection.CompareWithBruteForce | src/tests/bvh.cpp:86-99 | the walk and the scan agree on whether the ray hits and at which distance |
| FlattenedModels.MeshTriangles | src/common/flattened_model.cpp:22-44 | a mesh yields one triangle per whole index triple |
| FlattenedModels.Unrolled | src/common/flattened_model.cpp:14-45 | all meshes together yield as many triangles as their index triples |
| FlattenedModels.MeshTrianglesAt | src/common/flattened_model.cpp:24-26 | triangle `t` of a mesh is made from its `t`-th index triple |
| FlattenedModels.UnrolledTriangle | src/common/flattened_model.cpp:22-44 | the `t`-th triangle of mesh `m` sits after every earlier mesh's triangles and holds the vertices, normals and texture coordinates its three indices select, and the mesh's texture index cast to 32 bits |
| FlattenedModels.ColumnsAppend | src/common/flattened_model.cpp:31-43 | pushing one record onto each of the four vectors appends one triangle to what they hold |
| FlattenedModels.TripleStep | src/common/flattened_model.cpp:22 | stepping the index by three moves on to the next whole triangle |
| FlattenedModels.TriplesDone | src/common/flattened_model.cpp:22 | the stepping loop ends exactly after the last whole triangle |
| FlattenedModels.FlattenedModel.constructor | src/common/flattened_model.cpp:8-46 | the four vectors, all of one length, hold the triangles of all meshes in order |
| FlattenedModels.FlattenedModel.AppendMesh | src/common/flattened_model.cpp:14-45 | one pass of the outer loop appends the mesh's triangles to what the vectors hold |
| GltfModels.Fnv1aFoldAppend | src/common/gltf_model.cpp:129-133 | hashing one more byte is one more xor-and-multiply round on the hash so far, so a single front-to-back pass computes FNV-1a |
| GltfModels.Fnv1a | src/common/gltf_model.cpp:123-135 | the loop returns the 32-bit FNV-1a hash of the bytes, the offset basis 2166136261 for no bytes |
| GltfModels.FloatArrayBytes | src/common/gltf_model.cpp:140 | a float array is hashed over four bytes per float |
| GltfModels.Fnv1aFloats | src/common/gltf_model.cpp:137-141 | the array overload hashes the array's bytes |
| GltfModels.FindImage | src/common/gltf_model.cpp:197-202 | the search returns the first lookup recording the image, or the end when none does |
| GltfModels.FindColor | src/common/gltf_model.cpp:218-223 | the search returns the first lookup recording the colour hash, or the end when none does |
| GltfModels.AddImage | src/common/gltf_model.cpp:192-213 | a textured material appends exactly one mesh texture index, adds at most one texture and leaves the colour lookups alone |
| GltfModels.AddColor | src/common/gltf_model.cpp:217-239 | a colour-only material appends exactly one mesh texture index, adds at most one texture and leaves the image lookups alone |
| GltfModels.AddBaseColor | src/common/gltf_model.cpp:170-243 | every material appends exactly one mesh texture index and adds at most one texture |
| GltfModels.AddImageCorrect | src/common/gltf_model.cpp:197-213 | a known image adds no texture and returns its recorded index; a new one appends its decoded texture at the end; the result names the image's texture and the builder stays consistent |
| GltfModels.AddColorCorrect | src/common/gltf_model.cpp:217-239 | a known colour hash adds no texture and returns its recorded index; a new one appends the one-pixel texture at the end; the builder stays consistent |
| GltfModels.AddBaseColorCorrect | src/common/gltf_model.cpp:170-243 | the returned index names the material's texture and textures already built are kept unchanged |
| GltfModels.BuildTextures | src/common/gltf_model.cpp:320-334 | one texture index per material and no more textures than materials |
| GltfModels.AssignedStep | src/common/gltf_model.cpp:334 | one more material keeps every earlier assignment and assigns the new one its texture |
| GltfModels.BuildTexturesCorrect | src/common/gltf_model.cpp:320-440 | after all materials every mesh's texture index is in range and names its material's texture |
| GltfModels.FindImageAppend | src/common/gltf_model.cpp:206 | appending a lookup does not change an earlier match |
| GltfModels.FindImageNew | src/common/gltf_model.cpp:206 | a new image is found afterwards at the lookup appended for it |
| GltfModels.FindColorAppend | src/common/gltf_model.cpp:227 | appending a lookup does not change an earlier colour match |
| GltfModels.FindColorNew | src/common/gltf_model.cpp:227 | a new colour hash is found afterwards at the lookup appended for it |
| GltfModels.RecordedImage | src/common/gltf_model.cpp:203-213 | after a textured material its image is recorded |
| GltfModels.RecordedColor | src/common/gltf_model.cpp:224-239 | after a colour-only material its hash is recorded |
| GltfModels.BuildTexturesRecorded | src/common/gltf_model.cpp:320-440 | every image and colour hash handled is recorded |
| GltfModels.SharedTextures | src/common/gltf_model.cpp:197-239 | two meshes naming the same image, or colours with the same hash, get the same texture index |
| GltfModels.BaseColorTextureBuilder.constructor | src/common/gltf_model.cpp:146-154 | the builder starts with no textures, lookups or mesh indices |
| GltfModels.BaseColorTextureBuilder.AddBaseColorOf | src/common/gltf_model.cpp:170-243 | the builder's new state and the returned index are those `addBaseColor` specifies |
| GltfModels.BaseColorTextureBuilder.Build | src/common/gltf_model.cpp:163-168 | hands over the mesh texture indices and textures and leaves the builder empty |
| GltfModels.InsertByTexture | src/common/gltf_model.cpp:462-464 | inserting a mesh into a sorted list keeps it sorted by texture index and adds exactly that mesh |
| GltfModels.SortedCons | src/common/gltf_model.cpp:462-464 | a mesh with no larger index than the head of a sorted list can go in front |
| GltfModels.SortByTexture | src/common/gltf_model.cpp:462-464 | the sort gives the same meshes in non-decreasing texture index order |
| GltfModels.Materials | src/common/gltf_model.cpp:328-335 | one material per primitive, in order |
| GltfModels.UnsortedMeshes | src/common/gltf_model.cpp:449-458 | one mesh per primitive carrying its attributes, indices and texture index |
| GltfModels.LoadedMeshesTextured | src/common/gltf_model.cpp:266-465 | a loaded model has one mesh per primitive and no more textures than meshes, and each mesh's texture index names its material's texture |
| GltfModels.CollectedAppend | src/common/gltf_model.cpp:354-437 | pushing a primitive's data onto the four per-mesh vectors records one more primitive |
| GltfModels.BuildTexturesAppend | src/common/gltf_model.cpp:334 | one more primitive makes one more `addBaseColor` call |
| GltfModels.LoadModel | src/common/gltf_model.cpp:311-465 | the load fails exactly when some primitive fails its checks; otherwise the model is the sorted meshes of all primitives and their shared textures |
| GltfModels.MeshImages | src/common/gltf_model.cpp:193-196 | the primitives of any one mesh name only the file's images |
| GltfModels.MeshFails | src/common/gltf_model.cpp:343-397 | one failing primitive fails the whole file |
| GltfModels.MeshesStep | src/common/gltf_model.cpp:320-323 | a mesh whose primitives all pass extends the checked prefix |
| GltfModels.TextureIndicesFit | src/common/gltf_model.cpp:205 | with fewer than 2^64 primitives every texture index fits a `size_t` |
| GltfModels.LoadedFromParts | src/common/gltf_model.cpp:442-464 | built textures plus a sorted permutation of the per-primitive meshes make the loaded model |
| GltfModels.LoadPrimitives | src/common/gltf_model.cpp:323-439 | the loop over a mesh's primitives succeeds exactly when they all pass, and then has handled their materials and collected their data |
| GltfModels.MeshPrefixStep | src/common/gltf_model.cpp:323 | a passing primitive extends the checked prefix of the mesh |
| GltfModels.LoadPrimitive | src/common/gltf_model.cpp:325-438 | one primitive's material goes to the builder; it succeeds exactly when its data passes the checks, and then its data is collected |
| GltfModels.AssembleModel | src/common/gltf_model.cpp:442-464 | the textures are the builder's, the meshes a sorted permutation of one mesh per primitive, and the builder is left empty |
| GltfModels.PrimitivesPrefix | src/common/gltf_model.cpp:320-323 | the primitives of one more mesh are those before, then that mesh's |
| PtFormats.PackAttributes | src/pt-format/pt_format.cpp:34-55 | one position record and one vertex record per triangle, in order, each copying that triangle's vertices, normals, texture coordinates and texture index |
| PtFormats.PtFormat.constructor | src/pt-format/pt_format.cpp:12-62 | the nodes are the layout of a tree covering every triangle that follows the split decisions; the triangle `k`-th in decision order gets new index `k`; all attribute columns are reordered by the same permutation, so the records at a triangle's new index are built from that triangle; the textures are the model's |
| ByteCodecs.Pow256Widths | src/tests/archive.cpp:101 | four bytes hold exactly the 32-bit values and eight bytes exactly the 64-bit values of a `std::size_t` |
| ByteCodecs.NatToBytes | src/tests/archive.cpp:101 | an integer is written as exactly `k` bytes |
| ByteCodecs.BytesToNat | src/tests/archive.cpp:117 | `k` bytes read back as a value below 256^k |
| ByteCodecs.NatBytesRoundTrip | src/tests/archive.cpp:101-117 | a value that fits in `k` bytes reads back unchanged from its bytes |
| ByteCodecs.BytesNatRoundTrip | src/tests/archive.cpp:117-121 | every byte string is the image of the value it holds, so distinct images hold distinct values |
| ByteCodecs.WordBytes | src/common/gltf_model.cpp:140 | a 32-bit float or pixel occupies four bytes |
| ByteCodecs.WordRoundTrip | src/tests/archive.cpp:173-175 | a 32-bit word reads back unchanged from its four bytes |
| ByteCodecs.DecodeItems | src/tests/archive.cpp:119-121 | `count * size` bytes read back as `count` records |
| ByteCodecs.EncodeItemsLength | src/tests/archive.cpp:102 | an array of `n` records takes `size * n` bytes |
| ByteCodecs.ItemsRoundTrip | src/tests/archive.cpp:102-121 | an array written with one `write` reads back as the same records in the same order |
| ByteCodecs.SizeCodec | src/tests/archive.cpp:105-109 | a `std::size_t` is an eight-byte record that reads back unchanged |
| ByteCodecs.U32Codec | src/tests/archive.cpp:159-161 | a `std::uint32_t` index is a four-byte record that reads back unchanged |
| ByteCodecs.WordCodec | src/tests/archive.cpp:173-175 | a pixel is a four-byte record that reads back unchanged |
| RecordCodecs.Vec3Bytes | src/common/triangle_attributes.hpp:9-11 | a `glm::vec3` takes twelve bytes |
| RecordCodecs.Vec3RoundTrip | src/tests/archive.cpp:142-144 | a `glm::vec3` reads back unchanged from its bytes |
| RecordCodecs.Vec3Codec | src/tests/archive.cpp:140-144 | positions and normals are valid twelve-byte records |
| RecordCodecs.Vec2Bytes | src/common/triangle_attributes.hpp:23-25 | a `glm::vec2` takes eight bytes |
| RecordCodecs.Vec2RoundTrip | src/tests/archive.cpp:153-155 | a `glm::vec2` reads back unchanged from its bytes |
| RecordCodecs.Vec2Codec | src/tests/archive.cpp:151-155 | texture coordinates are valid eight-byte records |
| RecordCodecs.U32Bytes | src/common/bvh.hpp:17-20 | a 32-bit node field takes four bytes |
| RecordCodecs.U32RoundTrip | src/common/bvh.hpp:17-20 | a 32-bit node field reads back unchanged |
| RecordCodecs.DimensionsBytes | src/common/texture.hpp:14-18 | texture dimensions take eight bytes |
| RecordCodecs.DimensionsRoundTrip | src/tests/archive.cpp:177-178 | texture dimensions read back unchanged |
| RecordCodecs.DimensionsCodec | src/tests/archive.cpp:177-178 | dimensions are a valid eight-byte record |
| RecordCodecs.AabbBytes | src/common/geometry.hpp:13-18 | a box takes 32 bytes, its corners each followed by a padding float |
| RecordCodecs.AabbRoundTrip | src/common/geometry.hpp:13-18 | a box reads back unchanged, its padding skipped |
| RecordCodecs.NodeBytes | src/common/bvh.hpp:13-21 | a node takes 48 bytes |
| RecordCodecs.NodeRoundTrip | src/common/bvh.hpp:14-21 | a node whose fields fit 32 bits reads back unchanged |
| RecordCodecs.NodeCodec | src/tests/archive.cpp:100-102 | nodes are valid 48-byte records |
| ByteStreams.Delivered | src/common/buffer_stream.cpp:6-12 | a read delivers no more bytes than were asked for |
| ByteStreams.ReadFront | src/common/buffer_stream.cpp:6-12 | a read of bytes that are all there delivers them in write order and leaves the rest |
| ByteStreams.WriteThenRead | src/tests/archive.cpp:267-275 | bytes written to an empty stream read back unchanged, leaving it empty and good |
| ByteStreams.AfterWriteConcat | src/common/buffer_stream.cpp:14-17 | two writes in a row act as one write of both |
| ByteStreams.FirstInFirstOut | src/common/buffer_stream.cpp:6-17 | two writes read back in the order they were written |
| ByteStreams.ShortRead | src/common/buffer_stream.cpp:6-12 | a read delivers fewer bytes than asked, and fails the stream, exactly when more were asked than remain |
| ByteStreams.BufferStream.constructor | src/tests/archive.cpp:34 | a new stream is empty and good |
| ByteStreams.BufferStream.Write | src/common/buffer_stream.cpp:14-17 | a write on a good stream appends the bytes after everything written before |
| ByteStreams.BufferStream.Read | src/common/buffer_stream.cpp:6-12 | a read delivers the front bytes, returns their count, and moves on by that many or fails the stream |
| Archive.SizeBytes | src/tests/archive.cpp:100-101 | a count takes eight bytes |
| Archive.ReadRecord | src/tests/archive.cpp:117 | reading a record consumes its size and succeeds exactly when the stream was good and held that many bytes |
| Archive.ReadArray | src/tests/archive.cpp:119-121 | reading `count` records succeeds exactly when their byte size fits `std::size_t` and the stream delivers all of it, and yields `count` records |
| Archive.ReadMeshes | src/tests/archive.cpp:188-229 | a successful mesh loop yields exactly `count` meshes |
| Archive.ReadTextures | src/tests/archive.cpp:235-247 | a successful texture loop yields exactly `count` textures |
| Archive.ReadRecordOf | src/tests/archive.cpp:117 | a record that fits reads back from the front of a good stream |
| Archive.ReadSizeOf | src/tests/archive.cpp:116-117 | a count reads back from the front of a good stream |
| Archive.ReadArrayOf | src/tests/archive.cpp:119-121 | an array's payload reads back from the front of a good stream |
| Archive.ReadLengthPrefixedOf | src/tests/archive.cpp:115-121 | an array with its count reads back from the front of a good stream |
| Archive.ReadBvhOf | src/tests/archive.cpp:97-132 | a written hierarchy reads back with the same nodes and triangle indices, leaving what follows |
| Archive.ReadMeshesSnoc | src/tests/archive.cpp:188-229 | one more pass of the mesh loop appends the mesh it reads |
| Archive.ReadTexturesSnoc | src/tests/archive.cpp:235-247 | one more pass of the texture loop appends the texture it reads |
| Archive.ReadModelParts | src/tests/archive.cpp:182-250 | the model is read when its four parts are read in turn |
| Archive.ReadMeshOf | src/tests/archive.cpp:138-165 | a written mesh reads back unchanged |
| Archive.ReadMeshesStep | src/tests/archive.cpp:188-229 | the inductive step of reading written meshes back |
| Archive.ReadMeshesOf | src/tests/archive.cpp:138-229 | written meshes read back unchanged and in order |
| Archive.ReadTextureOf | src/tests/archive.cpp:169-179 | a written texture reads back unchanged |
| Archive.ReadTexturesStep | src/tests/archive.cpp:235-247 | the inductive step of reading written textures back |
| Archive.ReadTexturesOf | src/tests/archive.cpp:169-247 | written textures read back unchanged and in order |
| Archive.ReadModelOf | src/tests/archive.cpp:340-347 | a written model reads back equal, leaving what follows |
| Archive.ReadMeshesFailed | src/tests/archive.cpp:194 | once a mesh read fails, later passes change nothing |
| Archive.ReadTexturesFailed | src/tests/archive.cpp:241 | once a texture read fails, later passes change nothing |
| Archive.EncodeMeshesPrefix | src/tests/archive.cpp:138-165 | writing one more mesh appends its bytes |
| Archive.EncodeTexturesPrefix | src/tests/archive.cpp:169-179 | writing one more texture appends its bytes |
| Archive.WriteLengthPrefixed | src/tests/archive.cpp:100-102 | the two writes of an array append its count and its elements |
| Archive.SerializeBvh | src/tests/archive.cpp:97-111 | appends the hierarchy's encoding |
| Archive.SerializeMesh | src/tests/archive.cpp:140-164 | appends the mesh's encoding |
| Archive.SerializeTexture | src/tests/archive.cpp:171-178 | appends the texture's encoding |
| Archive.SerializeMeshes | src/tests/archive.cpp:138-165 | appends the meshes' encodings in order |
| Archive.SerializeTextures | src/tests/archive.cpp:169-179 | appends the textures' encodings in order |
| Archive.SerializeModel | src/tests/archive.cpp:134-180 | appends the model's encoding |
| Archive.ReadRecordFrom | src/tests/archive.cpp:117 | the stream read gives the record and stream state `ReadRecord` specifies |
| Archive.ReadArrayFrom | src/tests/archive.cpp:119-121 | the sized read gives the records and stream state `ReadArray` specifies, failing on a short read |
| Archive.ReadLengthPrefixedFrom | src/tests/archive.cpp:115-121 | a count, then that many records |
| Archive.DeserializeBvh | src/tests/archive.cpp:113-132 | reads as `ReadBvh` specifies |
| Archive.DeserializeMesh | src/tests/archive.cpp:190-228 | reads one mesh as `ReadMesh` specifies |
| Archive.DeserializeTexture | src/tests/archive.cpp:237-246 | reads one texture as `ReadTexture` specifies |
| Archive.DeserializeModel | src/tests/archive.cpp:182-250 | reads as `ReadModel` specifies |
| Archive.BvhArchiveRoundTrip | src/tests/archive.cpp:267-289 | serializing a hierarchy to a fresh buffer and deserializing it gives it back |
| Archive.BuiltBvhFits | src/tests/archive.cpp:267-289 | a hierarchy as the builder returns it over at most 2^31 triangles fits the archive's 32- and 64-bit fields, so the round trip applies to it |
| Archive.ModelArchiveRoundTrip | src/tests/archive.cpp:333-347 | serializing a model and deserializing it gives back an equal model |
| Decimals.DigitChar | tools/blue_noise/src/main.rs:38 | a digit value prints as a digit character |
| Decimals.DigitValue | tools/blue_noise/src/main.rs:38 | a digit character denotes a value below ten |
| Decimals.DigitRoundTrip | tools/blue_noise/src/main.rs:38 | a digit reads back as the value it was printed from |
| Decimals.Decimal | tools/blue_noise/src/main.rs:24-25 | a number prints as a non-empty run of digits |
| Decimals.DecimalRoundTrip | tools/blue_noise/src/main.rs:38 | the printed digits read back as the number, with no leading zero |
| Decimals.DecimalInjective | src/textractor/main.cpp:32 | distinct numbers print differently |
| Decimals.LeadingDigits | tools/blue_noise/src/main.rs:38 | the leading digit run of a text is all digits and ends at a non-digit or the end |
| Decimals.LeadingDigitsOf | tools/blue_noise/src/main.rs:38 | a printed number followed by the separator is read whole |
| BlueNoise.GenerateHeader | tools/blue_noise/src/main.rs:5-46 | the text written is the preamble, the declaration, two values per pixel row by row and the trailer, or an overflow error when `2 * height * width` exceeds `u32` |
| BlueNoise.RowTextStep | tools/blue_noise/src/main.rs:31-39 | one more pass of the inner loop appends one pixel's text |
| BlueNoise.RowsTextStep | tools/blue_noise/src/main.rs:30-40 | one more pass of the outer loop appends one row's text |
| BlueNoise.RowValues | tools/blue_noise/src/main.rs:31-39 | a row contributes two values per pixel |
| BlueNoise.JoinAppend | tools/blue_noise/src/main.rs:38 | printing two value lists one after the other prints their concatenation |
| BlueNoise.RowTextValues | tools/blue_noise/src/main.rs:31-39 | a row's text is its red and green values, each followed by a comma and space |
| BlueNoise.RowsTextValues | tools/blue_noise/src/main.rs:30-40 | the initializer body is the image's values printed in order |
| BlueNoise.RowsValuesCount | tools/blue_noise/src/main.rs:22-27 | `height` rows of `width` pixels give the `2 * height * width` values the declaration announces |
| BlueNoise.RowValueAt | tools/blue_noise/src/main.rs:33-35 | pixel `x` of a row owns values `2x` (red) and `2x + 1` (green) |
| BlueNoise.RowOffset | tools/blue_noise/src/main.rs:30-31 | every pixel's pair of values lies inside the array |
| BlueNoise.RowsValueAt | tools/blue_noise/src/main.rs:19 | pixel (x, y) counted from the top left owns values `2(y*width + x)` and the next, its red and green |
| BlueNoise.ParseJoin | tools/blue_noise/src/main.rs:38 | the printed initializer list reads back as exactly the values printed |
| BlueNoise.HeaderValues | tools/blue_noise/src/main.rs:13-45 | when the count does not overflow, the header declares exactly as many values as its initializer holds, and those read back as the image's values |
| BlueNoise.NoiseImageLength | tools/blue_noise/src/main.rs:7-8 | the 128 by 128 noise image gives 32768 values without overflow |
| Textractor.Swizzle | src/textractor/main.cpp:44-50 | the red and blue bytes trade places; green and alpha stay |
| Textractor.BytesDetermineWord | src/textractor/main.cpp:45-49 | a word is determined by its four bytes |
| Textractor.SwizzleInvolution | src/textractor/main.cpp:44-50 | swizzling twice gives back the original pixel, so no pixel information is lost |
| Textractor.FileNamesDistinct | src/textractor/main.cpp:32 | different textures are written to different file names |
| Textractor.SwizzlePixels | src/textractor/main.cpp:38-50 | one RGBA word per BGRA word, in order, each the swizzle of its source |
| Textractor.Run | src/textractor/main.cpp:16-63 | a wrong argument count prints the usage and writes nothing; otherwise one PNG per texture, named by its index, with its dimensions, four channels, a `4 * width` stride and its pixels swizzled back to RGBA; the exit code is 0 |
| GpuBuffers.UsageBitsDistinct | src/pt/gpu_buffer.hpp:18-32 | every usage enumerator is a single bit, no two share a bit, and `None` holds none of them |
| GpuBuffers.UsageOr | src/pt/gpu_buffer.hpp:80-83 | the union holds every flag of both operands |
| GpuBuffers.UsageAnd | src/pt/gpu_buffer.hpp:90-93 | the intersection holds only flags of both operands |
| GpuBuffers.SingleBitMask | src/pt/gpu_buffer.hpp:99 | masking by a single-bit flag gives nothing or the flag, so the `(usage & f) == f` test is a membership test |
| GpuBuffers.OrHas | src/pt/gpu_buffer.hpp:80-83 | a single flag is in a union exactly when it is in either operand |
| GpuBuffers.AndHas | src/pt/gpu_buffer.hpp:90-93 | a single flag is in an intersection exactly when it is in both operands |
| GpuBuffers.OrAssign | src/pt/gpu_buffer.hpp:85-88 | `|=` stores the union in its left operand and returns it |
| GpuBuffers.ToWgpuUsage | src/pt/gpu_buffer.hpp:95-145 | the WebGPU flags are exactly those of the enumerators present, `ReadOnlyStorage` giving plain storage |
| GpuBuffers.TranslateStep | src/pt/gpu_buffer.hpp:99-142 | each test adds its enumerator's WebGPU flag exactly when the enumerator is present |
| GpuBuffers.RequestedByUnfold | src/pt/gpu_buffer.hpp:95-145 | one more row of the translation table considered, starting from no flag |
| GpuBuffers.RequestsFlag | src/pt/gpu_buffer.hpp:99-142 | each WebGPU flag is asked for by its own enumerator, storage by either storage enumerator |
| GpuBuffers.TranslationUnique | src/pt/gpu_buffer.hpp:95-145 | a usage has exactly one translation |
| GpuBuffers.TranslateNone | src/pt/gpu_buffer.hpp:97 | `None` translates to no WebGPU flag |
| GpuBuffers.RequestedByOr | src/pt/gpu_buffer.hpp:80-83 | an enumerator stands for a flag in a union exactly when it does in either operand |
| GpuBuffers.TranslateOr | src/pt/gpu_buffer.hpp:95-145 | translating a union is the union of the translations |
| GpuBuffers.BindingTypeOf | src/pt/gpu_buffer.cpp:16-35 | a buffer with the uniform flag binds as uniform, otherwise one with the storage flag binds as storage |
| GpuBuffers.UsageBindingType | src/pt/gpu_buffer.cpp:23-30 | through the translation, the uniform enumerator wins over both storage enumerators |
| GpuBuffers.GpuBuffer.constructor | src/pt/gpu_buffer.hpp:38 | a default buffer owns nothing, has size 0 and no usage |
| GpuBuffers.GpuBuffer.Owning | src/pt/gpu_buffer.cpp:74-76 | the buffer keeps the handle the device returned, with its size and usage |
| GpuBuffers.GpuBuffer.Moved | src/pt/gpu_buffer.cpp:38-50 | the new buffer takes over the handle, size and usage, and the source is left empty |
| GpuBuffers.GpuBuffer.MoveAssign | src/pt/gpu_buffer.cpp:52-67 | self-assignment changes nothing; otherwise the old handle is released, the other's taken over and the other left empty |
| GpuBuffers.GpuBuffer.Destroy | src/pt/gpu_buffer.cpp:95-99 | the destructor releases the owned handle and owns nothing afterwards |
| GpuBuffers.GpuBuffer.Ptr | src/pt/gpu_buffer.hpp:55-59 | a non-null buffer returns its handle |
| GpuBuffers.GpuBuffer.ByteSize | src/pt/gpu_buffer.hpp:60-64 | a positive size is returned as it is |
| GpuBuffers.GpuBuffer.LayoutEntry | src/pt/gpu_buffer.cpp:101-108 | the layout entry carries the binding, visibility, the binding type the usage implies and the buffer's size |
| GpuBuffers.GpuBuffer.BindEntry | src/pt/gpu_buffer.cpp:110-114 | the bind entry covers the whole buffer from offset 0 |
| GpuBuffers.BufferEntriesMatch | src/pt/gpu_buffer.cpp:101-114 | the bind entry and the layout entry of one buffer for the same binding index agree: same binding, a bound buffer, at least the minimum binding size, inside the buffer |
| GpuBuffers.SafeRelease | src/pt/gpu_buffer.cpp:7-14 | exactly the given handle is released, none when it is null |
| GpuBuffers.CreateSized | src/pt/gpu_buffer.cpp:69-93 | creation fails, with the message naming the label, exactly when the device returns no buffer; otherwise the buffer has the size and usage asked for |
| GpuBuffers.CreateWithData | src/pt/gpu_buffer.hpp:147-186 | succeeds exactly when the buffer is created and mapped, each failure with its own message; the size is element size times count, the usage the translated flags, and a uniform buffer's size a multiple of 16 |
| TexturePacking.PackedLength | src/pt/reference_path_tracer.cpp:209-225 | the packed texture data holds exactly as many pixels as all base-colour textures together |
| TexturePacking.PackedPrefix | src/pt/reference_path_tracer.cpp:209-225 | the data packed for the first `j` textures is a prefix of the data packed for all of them, so later textures never move earlier ones |
| TexturePacking.PackedStep | src/pt/reference_path_tracer.cpp:216-222 | packing one more texture appends its pixels, in order, after the data packed so far and grows the pixel count by its size |
| TexturePacking.DescriptorLocatesTexture | src/pt/reference_path_tracer.cpp:209-225 | while the total pixel count fits the 32-bit offset, descriptor `k` starts at the pixel count of the textures before it, and the slice it names in the packed data is exactly texture `k`'s pixels |
| TexturePacking.PackTextures | src/pt/reference_path_tracer.cpp:195-225 | the packing loop produces the concatenated pixels and one descriptor per texture, in the textures' order |
| TexturePacking.PackSceneTextures | src/pt/reference_path_tracer.cpp:195-243 | packing succeeds exactly when the packed bytes (4 per pixel) fit the storage-buffer binding limit; otherwise it fails with the size message naming both numbers |
| TexturePacking.PackingWithinLimit | src/pt/reference_path_tracer.cpp:233-243 | any packing the limit check accepts (for a limit below 2^34 bytes) has no truncated offsets: every descriptor locates its texture's pixels |
| RenderSettings.ParamsEqualReflexive | src/pt/reference_path_tracer.hpp:34-42 | the defaulted `operator==` compares floats, so a parameter set equals itself exactly when none of its floats is NaN |
| RenderSettings.ParamsEqualSamples | src/pt/reference_path_tracer.hpp:26-42 | parameter sets that compare equal have the same sample budget and framebuffer size |
| RenderSettings.SignedZerosEqual | src/pt/reference_path_tracer.hpp:34-42 | changing the exposure between +0 and -0 leaves the parameters equal, so it does not reset accumulation |
| RenderSettings.AccumulationSaturates | src/pt/reference_path_tracer.cpp:562-575 | one frame keeps the accumulated count within the sample budget; below the largest budget it grows by one until it reaches the budget and then stays |
| RenderSettings.AccumulationWrapsAtLargestBudget | src/pt/reference_path_tracer.cpp:574-575 | with the budget 2^32-1 the 32-bit `count + 1` wraps, and the count after a full budget is 0 |
| RenderSettings.AccumulatedAfterReset | src/pt/reference_path_tracer.cpp:538-575 | after a reset, `n` frames accumulate `min(n, budget)` samples |
| RenderSettings.FrameCountCounts | src/pt/reference_path_tracer.cpp:565 | `n` frames advance the 32-bit frame counter by `n` modulo 2^32 |
| DurationWindows.Delta | src/pt/reference_path_tracer.cpp:675-676 | the unsigned 64-bit difference of two timestamps is the duration that, added to the begin stamp modulo 2^64, gives the end stamp; it is the plain difference when the clock did not wrap |
| DurationWindows.Pushed | src/pt/reference_path_tracer.cpp:678-682 | pushing a duration grows the window by one until it holds 30 entries, and keeps it at its size from then on |
| DurationWindows.PushedKeepsNewest | src/pt/reference_path_tracer.cpp:678-682 | the pushed duration is the window's last entry, and the entries before it are the old window with at most its front dropped |
| DurationWindows.PushedFull | src/pt/reference_path_tracer.cpp:678-682 | pushing onto a full window drops exactly its oldest entry |
| DurationWindows.MostRecent | src/pt/reference_path_tracer.cpp:679-682 | the reference window, the last 30 durations, never holds more than 30 entries |
| DurationWindows.WindowKeepsMostRecent | src/pt/reference_path_tracer.cpp:674-682 | a window that starts empty holds, after any run of pushes, exactly the 30 most recent durations in arrival order |
| DurationWindows.AverageOf | src/pt/reference_path_tracer.cpp:694-704 | the average is the empty case exactly for an empty window; otherwise it divides the 64-bit sum by the window's size |
| DurationWindows.SumBounded | src/pt/reference_path_tracer.cpp:701-702 | a sum of durations each below `b` is at most `b` times their number |
| DurationWindows.SumFits | src/pt/reference_path_tracer.cpp:701-702 | a window of at most 30 durations each below 2^59 ns sums without 64-bit overflow, so the average uses the exact sum |
| ReferencePathTracers.ReferencePathTracer.constructor | src/pt/reference_path_tracer.cpp:183-187 | a new tracer holds the given parameters, default post-processing parameters, zero counters, an empty duration window and the packed textures |
| ReferencePathTracers.ReferencePathTracer.SetRenderParameters | src/pt/reference_path_tracer.cpp:538-545 | parameters that compare unequal replace the current ones and reset accumulation; equal ones change nothing |
| ReferencePathTracers.ReferencePathTracer.SetPostProcessingParameters | src/pt/reference_path_tracer.cpp:547-551 | the post-processing parameters are replaced and nothing else changes |
| ReferencePathTracers.ReferencePathTracer.Render | src/pt/reference_path_tracer.cpp:562-575 | the uploaded layout carries the framebuffer size, the frame count before the increment, the parameters and the accumulated count before the update; afterwards the frame count is incremented (mod 2^32) and the accumulated count advanced towards the budget |
| ReferencePathTracers.ReferencePathTracer.OnTimestampsMapped | src/pt/reference_path_tracer.cpp:660-687 | a successful map pushes the render-pass duration onto the 30-entry window; a failed map changes nothing |
| ReferencePathTracers.ReferencePathTracer.AverageRenderpassDurationMs | src/pt/reference_path_tracer.cpp:694-704 | zero exactly for an empty window, otherwise a mean over every entry in the window |
| ReferencePathTracers.Create | src/pt/reference_path_tracer.cpp:195-243 | construction throws exactly when the packed texture bytes exceed the storage-buffer limit; otherwise the tracer holds the packed data with one locating descriptor per texture |
| Renderers.Renderer.constructor | src/pt/renderer.cpp:256-260 | a new renderer holds the given parameters, default post-processing parameters, zero counters and two empty duration windows |
| Renderers.Renderer.SetRenderParameters | src/pt/renderer.cpp:749-756 | parameters that compare unequal replace the current ones and reset accumulation; equal ones leave the state unchanged |
| Renderers.Renderer.SetPostProcessingParameters | src/pt/renderer.cpp:758-761 | the post-processing parameters are replaced and nothing else changes |
| Renderers.Renderer.Render | src/pt/renderer.cpp:763-788 | without a swap-chain texture nothing is uploaded and no counter moves; with one, the layout carries the counters before the update, the frame count is incremented and the accumulated count advanced towards the budget |
| Renderers.Renderer.OnTimestampsMapped | src/pt/renderer.cpp:875-916 | a successful map pushes the render-pass duration, and the draw duration when timestamps inside passes are supported, onto their 30-entry windows; a failed map changes nothing |
| Renderers.Renderer.AverageDrawDurationMs | src/pt/renderer.cpp:923-933 | zero exactly for an empty draw window, otherwise a mean over all its entries |
| Renderers.Renderer.AverageRenderpassDurationMs | src/pt/renderer.cpp:935-945 | zero exactly for an empty render-pass window, otherwise a mean over all its entries |
| Renderers.Create | src/pt/renderer.cpp:310-348 | construction throws exactly when the packed texture bytes exceed the 256 MiB storage-buffer limit; otherwise the renderer holds the packed data with one descriptor per texture |
| Renderers.RendererDescriptorsLocate | src/pt/renderer.cpp:314-330 | under the renderer's 2^28-byte limit no 32-bit offset truncates: each descriptor names exactly its texture's pixels in the packed data |
| DeferredRenderers.BindsCountRuns | src/pt/deferred_renderer.cpp:1154-1182 | the draw loop binds a texture once per run of equal consecutive indices, less one if the first run repeats the current binding |
| DeferredRenderers.BindsMatchRuns | src/pt/deferred_renderer.cpp:1154-1182 | starting from the all-ones sentinel, the number of bind-group switches equals the number of runs of equal texture indices |
| DeferredRenderers.BindsNeverRepeat | src/pt/deferred_renderer.cpp:1175-1181 | no bind repeats the binding in effect before it |
| DeferredRenderers.BindsCoverIndices | src/pt/deferred_renderer.cpp:1175-1181 | every bound texture is some mesh's texture, and every mesh texture other than the initial binding gets bound |
| DeferredRenderers.SortedBindsIncrease | src/pt/deferred_renderer.cpp:1154-1182 | over ascending texture indices the binds are strictly increasing, each above the initial binding |
| DeferredRenderers.SortedMeshesBindEachTextureOnce | src/common/gltf_model.cpp:462-464 | because the loaded meshes are sorted by texture index, the G-buffer pass binds each used texture exactly once, in ascending order |
| DeferredRenderers.GbufferPass.constructor | src/pt/deferred_renderer.cpp:675-682 | the pass keeps each mesh's texture index, truncated through the lambda's 32-bit parameter, and its matrix history starts at the identity |
| DeferredRenderers.GbufferPass.Render | src/pt/deferred_renderer.cpp:1078-1184 | the uniforms carry the current matrix and, as previous matrix, the current one on frame 0 and the remembered one otherwise; the current matrix is remembered; each mesh is drawn with its own texture bound |
| DeferredRenderers.DrawMeshes | src/pt/deferred_renderer.cpp:1154-1184 | the draw loop's bind switches are the reference binds, and every mesh is drawn while its own texture is bound |
| DeferredRenderers.BlueNoiseBufferData | src/pt/deferred_renderer.cpp:1514-1530 | the blue-noise buffer holds the 32-bit width and height followed by one converted value per noise byte, in order |
| DeferredRenderers.SignedSum | src/pt/deferred_renderer.cpp:2142-2153 | accumulating into a signed 64-bit `0ll` gives a value in the signed range congruent to the true sum modulo 2^64 |
| DeferredRenderers.SignedSumExact | src/pt/deferred_renderer.cpp:2142-2153 | for a window of at most 30 durations each below 2^58 ns the signed accumulation equals the true sum |
| DeferredRenderers.DeferredRenderer.constructor | src/pt/deferred_renderer.cpp:92-125 | a new renderer starts at frame 0 with three empty duration windows, the given G-buffer pass, the packed textures and the blue-noise data |
| DeferredRenderers.DeferredRenderer.Render | src/pt/deferred_renderer.cpp:319-356 | the frame uses the count before the increment; the G-buffer uniforms and binds are those of the G-buffer pass for that frame count |
| DeferredRenderers.DeferredRenderer.RenderDebug | src/pt/deferred_renderer.cpp:477-505 | the debug frame advances the same frame counter and runs the G-buffer pass with the plain view-projection matrix |
| DeferredRenderers.DeferredRenderer.InvalidateTemporalAccumulation | src/pt/deferred_renderer.cpp:2156-2161 | the frame count returns to 0, which restarts accumulation, and nothing else changes |
| DeferredRenderers.DeferredRenderer.Resize | src/pt/deferred_renderer.cpp:519-617 | a resize to a non-empty size invalidates temporal accumulation |
| DeferredRenderers.DeferredRenderer.OnTimestampsMapped | src/pt/deferred_renderer.cpp:422-470 | a successful map pushes the G-buffer, lighting and resolve durations onto their 30-entry windows; a failed map changes nothing |
| DeferredRenderers.DeferredRenderer.GetPerfStats | src/pt/deferred_renderer.cpp:2132-2154 | default statistics exactly when no durations were recorded; otherwise each pass's mean of its signed 64-bit sum over its window's size |
| DeferredRenderers.Create | src/pt/deferred_renderer.cpp:1473-1621 | construction throws exactly when the packed texture bytes exceed the 1 GiB limit; otherwise the renderer holds the packed data with locating descriptors, a fresh G-buffer pass whose texture indices are the model's truncated to 32 bits, and a blue-noise buffer of the 32-bit width and height followed by `unitFloat` of each noise byte |

## Left out

- WebGPU plumbing is not modelled. This covers device, queue, pipeline, shader, bind-group and texture creation, command encoding, swap chains, windows and the GUI. It is foreign API with no checkable logic of its own. Buffer uploads are represented by the data a renderer holds.
- Device ticking and the asynchronous map callbacks are not modelled as such. Each callback is a sequential method that receives the map status and the timestamps.
- Floating-point numerics are left out: the sky models, the camera and its controllers, node transforms, `r2Sequence`, shading, and the lighting and resolve passes' uniforms. The ray/box and ray/triangle tests and the SAH cost and partition are oracle parameters. `offsetRay` and the AABB helpers are inside the triangle oracle.
- glTF parsing (cgltf), image decoding (stb), PNG writing and the file streams (`InputFileStream`, `OutputFileStream`) are not modelled. Their results are parameters, and the Rust tool's output file is the text it writes.
- The renderers' move constructors and move assignments are not modelled. `renderProgressPercentage` and the benchmark code are left out too, because they are float-valued.
- The commented-out jitter matrix in src/pt/deferred_renderer.cpp is not modelled.
- `Renderers.Renderer.AverageDrawDurationMs`, `Renderers.Renderer.AverageRenderpassDurationMs`, `ReferencePathTracers.ReferencePathTracer.AverageRenderpassDurationMs` and `DurationWindows.AverageOf` are weaker than the source: they state the empty case and the window's 64-bit sum and count, but not the float division or the conversion to milliseconds.
- DeferredRenderers.DeferredRenderer.GetPerfStats: the per-pass means are kept as (signed sum, count) pairs; the float division and millisecond scaling are not modelled.
- DeferredRenderers.BlueNoiseBufferData: the byte-to-float conversion `value / 255.0f` is the `unitFloat` parameter.
- DeferredRenderers.DeferredRenderer.Resize: only the invalidation of temporal accumulation is stated; recreating the G-buffer textures is GPU work.
- DeferredRenderers.DeferredRenderer.Render does not model the lighting and resolve passes, which only upload float uniforms and dispatch GPU work.
- Textractor.Run: `strideBytes` is stated as `4 * width` without the 32-bit wrap of `width * 4`; PNG encoding is not modelled.
- TexturePacking.PackTextures: the descriptor offset is a 32-bit cast of the running pixel count. The model keeps the count unbounded. `TexturePacking.PackingWithinLimit`, `Renderers.RendererDescriptorsLocate` and the deferred renderer's 2^30-byte limit show that no truncation happens once the size check has passed.
- ReferencePathTracers.Create takes the storage-buffer limit as a parameter, because the reference tracer's limits object is not among the modelled files. `Renderers.Create` uses 2^28 bytes (src/pt/renderer.hpp:121). `DeferredRenderers.Create` uses 2^30 bytes (src/pt/gpu_limits.hpp:21).
- RenderSettings parameter equality compares the camera field by field and floats with IEEE equality. src/common/camera.hpp defines no `operator==` for `Camera`, so the defaulted comparison is taken member-wise.
- Renderers.Renderer.SetRenderParameters uses the same parameter record as the reference tracer, with sky and exposure. src/pt/renderer.hpp:29-36 declares only the framebuffer size, camera and sampling parameters, so here the sky and exposure also take part in the comparison.
- `PostProcessingParameters` is not defined in the modelled sources. It is held as a sequence of float members that the renderers store unchanged.
- src/pt/reference_path_tracer.hpp does not declare `setPostProcessingParameters`. The definition in src/pt/reference_path_tracer.cpp:547-551 is modelled.
- src/pt/deferred_renderer.hpp declares two duration windows and two `PerfStats` fields. src/pt/deferred_renderer.cpp uses three, and the model follows the .cpp.
- src/common/bvh.hpp declares `Bvh::triangleIndices`, while src/common/bvh.cpp returns `positions` and `positionIndices`. `BuildBvh` returns the ordered positions separately and uses `positionIndices` as the `triangleIndices` of the `Bvh` record.
- src/pt/gpu_buffer.cpp treats the stored usage as `WGPUBufferUsageFlags`, while src/pt/gpu_buffer.hpp declares a `GpuBufferUsage`. `GpuBuffer` stores WebGPU flags as the .cpp does, and the sized constructor takes WebGPU flags.
- `VectorSet` is modelled over `int` keys with `std::less`, the key type its tests use. The generic comparator and allocator are not modelled.
- RenderSettings.NextAccumulated: with a budget of 2^32 - 1 samples, the 32-bit `count + 1` in `std::min` wraps to 0. This is stated as written (`AccumulationWrapsAtLargestBudget`). The saturation lemmas assume a smaller budget.
- src/pt/gpu_bind_group.cpp, src/pt/gpu_bind_group_layout.cpp and the GLFW reference count are not part of this model. They repeat the move-ownership pattern of `GpuBuffer` or are library lifetime plumbing.
- BvhBuild.BuildBvh: the node fields are `nat`, and the narrowing assertions of src/common/bvh.cpp:75-76 and :261-262 are proved only for at most 2^31 triangles. Between 2^31 and 2^32 - 2 triangles a second-child index could reach `UINT32_MAX`; the failed assertion or the truncating cast is not modelled.
- RayIntersection.RayIntersectBvh requires the tree height to be below the 32-entry traversal stack. The source assumes this without checking it: src/common/ray_intersection.cpp:148 fixes the size and :194 only asserts it. A deeper tree would overflow the stack in a release build, which is not modelled.
- GltfModels.LoadModel, GltfModels.LoadPrimitives, GltfModels.LoadPrimitive, GltfModels.MeshFails, Archive.ReadRecord, Archive.ReadArray and BlueNoise.GenerateHeader model debug-build semantics. A failed `NLRS_ASSERT` in src/common/gltf_model.cpp:339-397 or src/tests/archive.cpp, a short read of a count in src/tests/archive.cpp:117-246, and the `u32` overflow of `2 * height * width` in tools/blue_noise/src/main.rs:25 all give a `Failure`. In a release build the assertions are no-ops and loading goes on with whatever was read, a short read leaves the count indeterminate, and the Rust product wraps after the preamble has been written. Those release behaviours are not modelled.
- GpuBuffers.BindingTypeOf returns `BindingUndefined` for a usage with neither the uniform nor the storage flag. This is the release-build result of src/pt/gpu_buffer.cpp:32-34. A debug build aborts there on `assert(!"No matching …")`, and that abort is not modelled.
- src/tests/stream.cpp repeats the `Bvh` round trip of src/tests/archive.cpp and is not modelled separately.
