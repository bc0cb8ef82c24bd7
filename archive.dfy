/** The binary archive of src/tests/archive.cpp: `serialize` and
    `deserialize` for `Bvh` and `GltfModel` over a byte stream.

    Every vector is written as its element count (a `std::size_t`) followed
    by the raw bytes of its elements; `deserialize` reads the same fields in
    the same order, sizes each vector from its count and checks that the
    whole payload was delivered. The format is given here as byte strings
    (`EncodeBvh`, `EncodeModel`) and as readers that take a stream state to
    a result and the state after the reads (`ReadBvh`, `ReadModel`); the
    methods are proved to write and read exactly those. */
module Archive {
  import opened Results
  import opened Geometry
  import opened ByteCodecs
  import opened ByteStreams
  import opened BoundingVolumeHierarchy
  import opened GltfModels
  import opened RecordCodecs

  // ------------------------------------------------------------- encoding

  /** A `std::size_t` count. */
  function SizeBytes(n: nat): (b: seq<Byte>)
    ensures |b| == 8
  {
    NatToBytes(n, 8)
  }

  /** A vector: its count, then its elements. */
  function LengthPrefixed<T>(c: Codec<T>, xs: seq<T>): seq<Byte> {
    SizeBytes(|xs|) + EncodeItems(c, xs)
  }

  /** A vector whose elements fit their C++ type and whose byte size fits a
      `std::size_t`. */
  ghost predicate ArrayFits<T(!new)>(c: Codec<T>, xs: seq<T>) {
    && |xs| < U64_LIMIT
    && c.size * |xs| < U64_LIMIT
    && forall i :: 0 <= i < |xs| ==> c.fits(xs[i])
  }

  /** `serialize(ostream, bvh)`: the nodes, then the triangle indices. */
  function EncodeBvh(bvh: Bvh): seq<Byte> {
    LengthPrefixed(NodeCodec(), bvh.nodes) + LengthPrefixed(SizeCodec(), bvh.triangleIndices)
  }

  ghost predicate BvhFits(bvh: Bvh) {
    ArrayFits(NodeCodec(), bvh.nodes) && ArrayFits(SizeCodec(), bvh.triangleIndices)
  }

  /** One mesh: positions, normals, texture coordinates and indices, each
      with its count, then the texture index. */
  function EncodeMesh(m: GltfMesh): seq<Byte> {
    LengthPrefixed(Vec3Codec(), m.positions) + (LengthPrefixed(Vec3Codec(), m.normals)
      + (LengthPrefixed(Vec2Codec(), m.texCoords) + (LengthPrefixed(U32Codec(), m.indices)
      + SizeBytes(m.baseColorTextureIndex))))
  }

  ghost predicate MeshFits(m: GltfMesh) {
    && ArrayFits(Vec3Codec(), m.positions) && ArrayFits(Vec3Codec(), m.normals)
    && ArrayFits(Vec2Codec(), m.texCoords) && ArrayFits(U32Codec(), m.indices)
  }

  /** The meshes, first to last. */
  function EncodeMeshes(ms: seq<GltfMesh>): seq<Byte> {
    if |ms| == 0 then [] else EncodeMeshes(ms[..|ms| - 1]) + EncodeMesh(ms[|ms| - 1])
  }

  /** One texture: its pixels with their count, then its dimensions. */
  function EncodeTexture(t: Texture): seq<Byte> {
    LengthPrefixed(WordCodec(), t.pixels) + DimensionsBytes(t.dimensions)
  }

  function EncodeTextures(ts: seq<Texture>): seq<Byte> {
    if |ts| == 0 then [] else EncodeTextures(ts[..|ts| - 1]) + EncodeTexture(ts[|ts| - 1])
  }

  /** `serialize(ostream, model)`: the mesh count and the meshes, then the
      texture count and the textures. */
  function EncodeModel(model: GltfModel): seq<Byte> {
    SizeBytes(|model.meshes|) + (EncodeMeshes(model.meshes)
      + (SizeBytes(|model.baseColorTextures|) + EncodeTextures(model.baseColorTextures)))
  }

  ghost predicate ModelFits(model: GltfModel) {
    && |model.meshes| < U64_LIMIT
    && (forall i :: 0 <= i < |model.meshes| ==> MeshFits(model.meshes[i]))
    && |model.baseColorTextures| < U64_LIMIT
    && (forall i :: 0 <= i < |model.baseColorTextures| ==>
          ArrayFits(WordCodec(), model.baseColorTextures[i].pixels))
  }

  // ------------------------------------------------------------- decoding

  /** What a sequence of reads produced, and the stream state after them. */
  datatype Outcome<T> = Outcome(result: Result<T>, stream: StreamState)

  /** Reading one fixed-size record. A short read is a failure: the record
      would hold bytes that were never delivered. */
  function ReadRecord<T(!new)>(c: Codec<T>, s: StreamState): (o: Outcome<T>)
    requires ValidCodec(c)
    ensures o.stream == AfterRead(s, c.size)
    ensures o.result.Success? <==> c.size == 0 || (!s.failed && c.size <= |s.unread|)
  {
    var data := Delivered(s, c.size);
    if |data| < c.size then Outcome(Failure("short read"), AfterRead(s, c.size))
    else Outcome(Success(c.decode(data)), AfterRead(s, c.size))
  }

  /** Sizing a vector for `count` elements and reading its payload: a byte
      size beyond `std::size_t` cannot be allocated, and a payload that is
      not delivered in full fails the check on the byte count. */
  function ReadArray<T(!new)>(c: Codec<T>, s: StreamState, count: nat): (o: Outcome<seq<T>>)
    requires ValidCodec(c)
    ensures o.result.Success? <==>
              c.size * count < U64_LIMIT && (c.size * count == 0 || (!s.failed && c.size * count <= |s.unread|))
    ensures o.result.Success? ==> |o.result.value| == count
  {
    if c.size * count >= U64_LIMIT then Outcome(Failure("the vector cannot be sized"), s)
    else
      var numBytes := c.size * count;
      var data := Delivered(s, numBytes);
      if |data| != numBytes then Outcome(Failure("the payload was not read in full"), AfterRead(s, numBytes))
      else Outcome(Success(DecodeItems(c, data, count)), AfterRead(s, numBytes))
  }

  /** Reading a vector's count, then the vector. */
  function ReadLengthPrefixed<T(!new)>(c: Codec<T>, s: StreamState): Outcome<seq<T>>
    requires ValidCodec(c)
  {
    var n := ReadRecord(SizeCodec(), s);
    if n.result.Failure? then Outcome(Failure(n.result.error), n.stream)
    else ReadArray(c, n.stream, n.result.value)
  }

  /** `deserialize(istream, bvh)`. */
  function ReadBvh(s: StreamState): Outcome<Bvh> {
    var nodes := ReadLengthPrefixed(NodeCodec(), s);
    if nodes.result.Failure? then Outcome(Failure(nodes.result.error), nodes.stream)
    else
      var indices := ReadLengthPrefixed(SizeCodec(), nodes.stream);
      if indices.result.Failure? then Outcome(Failure(indices.result.error), indices.stream)
      else Outcome(Success(Bvh(nodes.result.value, indices.result.value)), indices.stream)
  }

  /** One iteration of the mesh loop of `deserialize(istream, model)`. */
  function ReadMesh(s: StreamState): Outcome<GltfMesh> {
    var positions := ReadLengthPrefixed(Vec3Codec(), s);
    if positions.result.Failure? then Outcome(Failure(positions.result.error), positions.stream)
    else
      var normals := ReadLengthPrefixed(Vec3Codec(), positions.stream);
      if normals.result.Failure? then Outcome(Failure(normals.result.error), normals.stream)
      else
        var texCoords := ReadLengthPrefixed(Vec2Codec(), normals.stream);
        if texCoords.result.Failure? then Outcome(Failure(texCoords.result.error), texCoords.stream)
        else
          var indices := ReadLengthPrefixed(U32Codec(), texCoords.stream);
          if indices.result.Failure? then Outcome(Failure(indices.result.error), indices.stream)
          else
            var textureIndex := ReadRecord(SizeCodec(), indices.stream);
            if textureIndex.result.Failure? then Outcome(Failure(textureIndex.result.error), textureIndex.stream)
            else
              Outcome(Success(GltfMesh(positions.result.value, normals.result.value, texCoords.result.value,
                                       indices.result.value, textureIndex.result.value)),
                      textureIndex.stream)
  }

  /** The first `count` iterations of the mesh loop. */
  function ReadMeshes(s: StreamState, count: nat): (o: Outcome<seq<GltfMesh>>)
    ensures o.result.Success? ==> |o.result.value| == count
  {
    if count == 0 then Outcome(Success([]), s)
    else
      var before := ReadMeshes(s, count - 1);
      if before.result.Failure? then before
      else
        var mesh := ReadMesh(before.stream);
        if mesh.result.Failure? then Outcome(Failure(mesh.result.error), mesh.stream)
        else Outcome(Success(before.result.value + [mesh.result.value]), mesh.stream)
  }

  /** One iteration of the texture loop of `deserialize(istream, model)`. */
  function ReadTexture(s: StreamState): Outcome<Texture> {
    var pixels := ReadLengthPrefixed(WordCodec(), s);
    if pixels.result.Failure? then Outcome(Failure(pixels.result.error), pixels.stream)
    else
      var dimensions := ReadRecord(DimensionsCodec(), pixels.stream);
      if dimensions.result.Failure? then Outcome(Failure(dimensions.result.error), dimensions.stream)
      else Outcome(Success(Texture(pixels.result.value, dimensions.result.value)), dimensions.stream)
  }

  /** The first `count` iterations of the texture loop. */
  function ReadTextures(s: StreamState, count: nat): (o: Outcome<seq<Texture>>)
    ensures o.result.Success? ==> |o.result.value| == count
  {
    if count == 0 then Outcome(Success([]), s)
    else
      var before := ReadTextures(s, count - 1);
      if before.result.Failure? then before
      else
        var texture := ReadTexture(before.stream);
        if texture.result.Failure? then Outcome(Failure(texture.result.error), texture.stream)
        else Outcome(Success(before.result.value + [texture.result.value]), texture.stream)
  }

  /** `deserialize(istream, model)`. */
  function ReadModel(s: StreamState): Outcome<GltfModel> {
    var numMeshes := ReadRecord(SizeCodec(), s);
    if numMeshes.result.Failure? then Outcome(Failure(numMeshes.result.error), numMeshes.stream)
    else
      var meshes := ReadMeshes(numMeshes.stream, numMeshes.result.value);
      if meshes.result.Failure? then Outcome(Failure(meshes.result.error), meshes.stream)
      else
        var numTextures := ReadRecord(SizeCodec(), meshes.stream);
        if numTextures.result.Failure? then Outcome(Failure(numTextures.result.error), numTextures.stream)
        else
          var textures := ReadTextures(numTextures.stream, numTextures.result.value);
          if textures.result.Failure? then Outcome(Failure(textures.result.error), textures.stream)
          else Outcome(Success(GltfModel(meshes.result.value, textures.result.value)), textures.stream)
  }

  // ----------------------------------------------------------- round trips

  lemma Concat(a: seq<Byte>, b: seq<Byte>, c: seq<Byte>)
    ensures (a + b) + c == a + (b + c)
  {
  }

  lemma ButLast<T>(xs: seq<T>)
    requires |xs| > 0
    ensures xs[..|xs| - 1] + [xs[|xs| - 1]] == xs
  {
  }

  /** A record that fits reads back from the front of a good stream. */
  lemma ReadRecordOf<T(!new)>(c: Codec<T>, x: T, rest: seq<Byte>)
    requires ValidCodec(c) && c.fits(x)
    ensures ReadRecord(c, StreamState(c.encode(x) + rest, false)) == Outcome(Success(x), StreamState(rest, false))
  {
    ReadFront(StreamState(c.encode(x) + rest, false), c.encode(x), rest);
  }

  /** A count reads back from the front of a good stream. */
  lemma ReadSizeOf(n: nat, rest: seq<Byte>)
    requires n < U64_LIMIT
    ensures ReadRecord(SizeCodec(), StreamState(SizeBytes(n) + rest, false)) == Outcome(Success(n), StreamState(rest, false))
  {
    ReadRecordOf(SizeCodec(), n, rest);
  }

  /** A vector's payload reads back from the front of a good stream. */
  lemma ReadArrayOf<T(!new)>(c: Codec<T>, xs: seq<T>, rest: seq<Byte>)
    requires ValidCodec(c) && ArrayFits(c, xs)
    ensures ReadArray(c, StreamState(EncodeItems(c, xs) + rest, false), |xs|) == Outcome(Success(xs), StreamState(rest, false))
  {
    ItemsRoundTrip(c, xs);
    ReadFront(StreamState(EncodeItems(c, xs) + rest, false), EncodeItems(c, xs), rest);
  }

  /** A vector with its count reads back from the front of a good stream. */
  lemma ReadLengthPrefixedOf<T(!new)>(c: Codec<T>, xs: seq<T>, rest: seq<Byte>)
    requires ValidCodec(c) && ArrayFits(c, xs)
    ensures ReadLengthPrefixed(c, StreamState(LengthPrefixed(c, xs) + rest, false)) == Outcome(Success(xs), StreamState(rest, false))
  {
    var payload := EncodeItems(c, xs) + rest;
    assert LengthPrefixed(c, xs) + rest == SizeBytes(|xs|) + payload;
    ReadSizeOf(|xs|, payload);
    ReadArrayOf(c, xs, rest);
  }

  /** Reading back a written BVH gives the same nodes and triangle indices,
      and leaves whatever followed it in the stream. */
  lemma ReadBvhOf(bvh: Bvh, rest: seq<Byte>)
    requires BvhFits(bvh)
    ensures ReadBvh(StreamState(EncodeBvh(bvh) + rest, false)) == Outcome(Success(bvh), StreamState(rest, false))
  {
    var tail := LengthPrefixed(SizeCodec(), bvh.triangleIndices) + rest;
    Concat(LengthPrefixed(NodeCodec(), bvh.nodes), LengthPrefixed(SizeCodec(), bvh.triangleIndices), rest);
    ReadLengthPrefixedOf(NodeCodec(), bvh.nodes, tail);
    ReadLengthPrefixedOf(SizeCodec(), bvh.triangleIndices, rest);
  }

  /** One more iteration of the mesh loop appends the mesh it reads. */
  lemma ReadMeshesSnoc(s: StreamState, count: nat, ms: seq<GltfMesh>, m: GltfMesh, s1: StreamState, s2: StreamState)
    requires count > 0
    requires ReadMeshes(s, count - 1) == Outcome(Success(ms), s1)
    requires ReadMesh(s1) == Outcome(Success(m), s2)
    ensures ReadMeshes(s, count) == Outcome(Success(ms + [m]), s2)
  {
  }

  /** One more iteration of the texture loop appends the texture it reads. */
  lemma ReadTexturesSnoc(s: StreamState, count: nat, ts: seq<Texture>, t: Texture, s1: StreamState, s2: StreamState)
    requires count > 0
    requires ReadTextures(s, count - 1) == Outcome(Success(ts), s1)
    requires ReadTexture(s1) == Outcome(Success(t), s2)
    ensures ReadTextures(s, count) == Outcome(Success(ts + [t]), s2)
  {
  }

  /** `deserialize(istream, model)` succeeds when each of its four parts
      does. */
  lemma ReadModelParts(s: StreamState, numMeshes: nat, ms: seq<GltfMesh>, numTextures: nat, ts: seq<Texture>,
                       s1: StreamState, s2: StreamState, s3: StreamState, s4: StreamState)
    requires ReadRecord(SizeCodec(), s) == Outcome(Success(numMeshes), s1)
    requires ReadMeshes(s1, numMeshes) == Outcome(Success(ms), s2)
    requires ReadRecord(SizeCodec(), s2) == Outcome(Success(numTextures), s3)
    requires ReadTextures(s3, numTextures) == Outcome(Success(ts), s4)
    ensures ReadModel(s) == Outcome(Success(GltfModel(ms, ts)), s4)
  {
  }

  /** A written mesh reads back unchanged. */
  lemma ReadMeshOf(m: GltfMesh, rest: seq<Byte>)
    requires MeshFits(m)
    ensures ReadMesh(StreamState(EncodeMesh(m) + rest, false)) == Outcome(Success(m), StreamState(rest, false))
  {
    var a0, a1, a2, a3 := LengthPrefixed(Vec3Codec(), m.positions), LengthPrefixed(Vec3Codec(), m.normals),
                          LengthPrefixed(Vec2Codec(), m.texCoords), LengthPrefixed(U32Codec(), m.indices);
    var a4 := SizeBytes(m.baseColorTextureIndex);
    var r4 := a4 + rest;
    var r3 := a3 + r4;
    var r2 := a2 + r3;
    var r1 := a1 + r2;
    Concat(a3, a4, rest);
    Concat(a2, a3 + a4, rest);
    Concat(a1, a2 + (a3 + a4), rest);
    Concat(a0, a1 + (a2 + (a3 + a4)), rest);
    ReadLengthPrefixedOf(Vec3Codec(), m.positions, r1);
    ReadLengthPrefixedOf(Vec3Codec(), m.normals, r2);
    ReadLengthPrefixedOf(Vec2Codec(), m.texCoords, r3);
    ReadLengthPrefixedOf(U32Codec(), m.indices, r4);
    ReadSizeOf(m.baseColorTextureIndex, rest);
  }

  /** The inductive step of `ReadMeshesOf`: after the meshes before the
      last, the last mesh reads back. */
  lemma ReadMeshesStep(ms: seq<GltfMesh>, rest: seq<Byte>)
    requires |ms| > 0 && MeshFits(ms[|ms| - 1])
    requires var n := |ms| - 1;
             ReadMeshes(StreamState(EncodeMeshes(ms[..n]) + (EncodeMesh(ms[n]) + rest), false), n)
               == Outcome(Success(ms[..n]), StreamState(EncodeMesh(ms[n]) + rest, false))
    ensures ReadMeshes(StreamState(EncodeMeshes(ms) + rest, false), |ms|) == Outcome(Success(ms), StreamState(rest, false))
  {
    var n := |ms| - 1;
    Concat(EncodeMeshes(ms[..n]), EncodeMesh(ms[n]), rest);
    ReadMeshOf(ms[n], rest);
    ReadMeshesSnoc(StreamState(EncodeMeshes(ms) + rest, false), |ms|, ms[..n], ms[n],
                   StreamState(EncodeMesh(ms[n]) + rest, false), StreamState(rest, false));
    ButLast(ms);
  }

  /** Written meshes read back unchanged and in order. */
  lemma {:induction false} ReadMeshesOf(ms: seq<GltfMesh>, rest: seq<Byte>)
    requires forall i :: 0 <= i < |ms| ==> MeshFits(ms[i])
    ensures ReadMeshes(StreamState(EncodeMeshes(ms) + rest, false), |ms|) == Outcome(Success(ms), StreamState(rest, false))
  {
    if |ms| > 0 {
      var n := |ms| - 1;
      ReadMeshesOf(ms[..n], EncodeMesh(ms[n]) + rest);
      ReadMeshesStep(ms, rest);
    }
  }

  /** A written texture reads back unchanged. */
  lemma ReadTextureOf(t: Texture, rest: seq<Byte>)
    requires ArrayFits(WordCodec(), t.pixels)
    ensures ReadTexture(StreamState(EncodeTexture(t) + rest, false)) == Outcome(Success(t), StreamState(rest, false))
  {
    var tail := DimensionsBytes(t.dimensions) + rest;
    Concat(LengthPrefixed(WordCodec(), t.pixels), DimensionsBytes(t.dimensions), rest);
    ReadLengthPrefixedOf(WordCodec(), t.pixels, tail);
    ReadRecordOf(DimensionsCodec(), t.dimensions, rest);
  }

  /** The inductive step of `ReadTexturesOf`. */
  lemma ReadTexturesStep(ts: seq<Texture>, rest: seq<Byte>)
    requires |ts| > 0 && ArrayFits(WordCodec(), ts[|ts| - 1].pixels)
    requires var n := |ts| - 1;
             ReadTextures(StreamState(EncodeTextures(ts[..n]) + (EncodeTexture(ts[n]) + rest), false), n)
               == Outcome(Success(ts[..n]), StreamState(EncodeTexture(ts[n]) + rest, false))
    ensures ReadTextures(StreamState(EncodeTextures(ts) + rest, false), |ts|) == Outcome(Success(ts), StreamState(rest, false))
  {
    var n := |ts| - 1;
    Concat(EncodeTextures(ts[..n]), EncodeTexture(ts[n]), rest);
    ReadTextureOf(ts[n], rest);
    ReadTexturesSnoc(StreamState(EncodeTextures(ts) + rest, false), |ts|, ts[..n], ts[n],
                     StreamState(EncodeTexture(ts[n]) + rest, false), StreamState(rest, false));
    ButLast(ts);
  }

  /** Written textures read back unchanged and in order. */
  lemma {:induction false} ReadTexturesOf(ts: seq<Texture>, rest: seq<Byte>)
    requires forall i :: 0 <= i < |ts| ==> ArrayFits(WordCodec(), ts[i].pixels)
    ensures ReadTextures(StreamState(EncodeTextures(ts) + rest, false), |ts|) == Outcome(Success(ts), StreamState(rest, false))
  {
    if |ts| > 0 {
      var n := |ts| - 1;
      ReadTexturesOf(ts[..n], EncodeTexture(ts[n]) + rest);
      ReadTexturesStep(ts, rest);
    }
  }

  /** `deserialize(serialize(model)) == model`: a written model reads back
      equal to the original, and leaves whatever followed it. */
  lemma ReadModelOf(model: GltfModel, rest: seq<Byte>)
    requires ModelFits(model)
    ensures ReadModel(StreamState(EncodeModel(model) + rest, false)) == Outcome(Success(model), StreamState(rest, false))
  {
    var ms, ts := model.meshes, model.baseColorTextures;
    var r3 := EncodeTextures(ts) + rest;
    var r2 := SizeBytes(|ts|) + r3;
    var r1 := EncodeMeshes(ms) + r2;
    Concat(SizeBytes(|ts|), EncodeTextures(ts), rest);
    Concat(EncodeMeshes(ms), SizeBytes(|ts|) + EncodeTextures(ts), rest);
    Concat(SizeBytes(|ms|), EncodeMeshes(ms) + (SizeBytes(|ts|) + EncodeTextures(ts)), rest);
    ReadSizeOf(|ms|, r1);
    ReadMeshesOf(ms, r2);
    ReadSizeOf(|ts|, r3);
    ReadTexturesOf(ts, rest);
    ReadModelParts(StreamState(EncodeModel(model) + rest, false), |ms|, ms, |ts|, ts,
                   StreamState(r1, false), StreamState(r2, false), StreamState(r3, false), StreamState(rest, false));
  }

  /** Once the mesh loop has failed, later iterations are never reached. */
  lemma {:induction false} ReadMeshesFailed(s: StreamState, k: nat, count: nat)
    requires k <= count && ReadMeshes(s, k).result.Failure?
    ensures ReadMeshes(s, count) == ReadMeshes(s, k)
    decreases count
  {
    if k < count {
      ReadMeshesFailed(s, k, count - 1);
    }
  }

  /** Once the texture loop has failed, later iterations are never reached. */
  lemma {:induction false} ReadTexturesFailed(s: StreamState, k: nat, count: nat)
    requires k <= count && ReadTextures(s, k).result.Failure?
    ensures ReadTextures(s, count) == ReadTextures(s, k)
    decreases count
  {
    if k < count {
      ReadTexturesFailed(s, k, count - 1);
    }
  }

  // --------------------------------------------------------------- writing

  /** The meshes up to `i`, and one more. */
  lemma EncodeMeshesPrefix(ms: seq<GltfMesh>, i: nat)
    requires i < |ms|
    ensures EncodeMeshes(ms[..i + 1]) == EncodeMeshes(ms[..i]) + EncodeMesh(ms[i])
  {
    var prefix := ms[..i + 1];
    assert prefix[..i] == ms[..i];
  }

  /** The textures up to `i`, and one more. */
  lemma EncodeTexturesPrefix(ts: seq<Texture>, i: nat)
    requires i < |ts|
    ensures EncodeTextures(ts[..i + 1]) == EncodeTextures(ts[..i]) + EncodeTexture(ts[i])
  {
    var prefix := ts[..i + 1];
    assert prefix[..i] == ts[..i];
  }

  /** Writing to a fresh stream leaves exactly the written bytes unread. */
  lemma FreshWrite(e: seq<Byte>)
    ensures AfterWrite(StreamState([], false), e) == StreamState(e + [], false)
  {
    assert [] + e == e + [];
  }

  /** The two writes of a vector: its count, then its elements' bytes. */
  method WriteLengthPrefixed<T>(stream: BufferStream, c: Codec<T>, xs: seq<T>)
    modifies stream
    ensures stream.State() == AfterWrite(old(stream.State()), LengthPrefixed(c, xs))
  {
    ghost var s0 := stream.State();
    stream.Write(SizeBytes(|xs|));
    stream.Write(EncodeItems(c, xs));
    AfterWriteConcat(s0, SizeBytes(|xs|), EncodeItems(c, xs));
  }

  /** `serialize(ostream, bvh)`. */
  method SerializeBvh(stream: BufferStream, bvh: Bvh)
    modifies stream
    ensures stream.State() == AfterWrite(old(stream.State()), EncodeBvh(bvh))
  {
    ghost var s0 := stream.State();
    WriteLengthPrefixed(stream, NodeCodec(), bvh.nodes);
    WriteLengthPrefixed(stream, SizeCodec(), bvh.triangleIndices);
    AfterWriteConcat(s0, LengthPrefixed(NodeCodec(), bvh.nodes), LengthPrefixed(SizeCodec(), bvh.triangleIndices));
  }

  /** The body of the mesh loop of `serialize(ostream, model)`. */
  method SerializeMesh(stream: BufferStream, m: GltfMesh)
    modifies stream
    ensures stream.State() == AfterWrite(old(stream.State()), EncodeMesh(m))
  {
    ghost var s0 := stream.State();
    ghost var a0, a1, a2, a3 := LengthPrefixed(Vec3Codec(), m.positions), LengthPrefixed(Vec3Codec(), m.normals),
                                LengthPrefixed(Vec2Codec(), m.texCoords), LengthPrefixed(U32Codec(), m.indices);
    ghost var a4 := SizeBytes(m.baseColorTextureIndex);
    WriteLengthPrefixed(stream, Vec3Codec(), m.positions);
    ghost var s1 := stream.State();
    WriteLengthPrefixed(stream, Vec3Codec(), m.normals);
    ghost var s2 := stream.State();
    WriteLengthPrefixed(stream, Vec2Codec(), m.texCoords);
    ghost var s3 := stream.State();
    WriteLengthPrefixed(stream, U32Codec(), m.indices);
    stream.Write(SizeBytes(m.baseColorTextureIndex));
    AfterWriteConcat(s3, a3, a4);
    AfterWriteConcat(s2, a2, a3 + a4);
    AfterWriteConcat(s1, a1, a2 + (a3 + a4));
    AfterWriteConcat(s0, a0, a1 + (a2 + (a3 + a4)));
  }

  /** The body of the texture loop of `serialize(ostream, model)`. */
  method SerializeTexture(stream: BufferStream, t: Texture)
    modifies stream
    ensures stream.State() == AfterWrite(old(stream.State()), EncodeTexture(t))
  {
    ghost var s0 := stream.State();
    WriteLengthPrefixed(stream, WordCodec(), t.pixels);
    stream.Write(DimensionsBytes(t.dimensions));
    AfterWriteConcat(s0, LengthPrefixed(WordCodec(), t.pixels), DimensionsBytes(t.dimensions));
  }

  /** The mesh loop of `serialize(ostream, model)`. */
  method SerializeMeshes(stream: BufferStream, meshes: seq<GltfMesh>)
    modifies stream
    ensures stream.State() == AfterWrite(old(stream.State()), EncodeMeshes(meshes))
  {
    ghost var s1 := stream.State();
    for i := 0 to |meshes|
      invariant stream.State() == AfterWrite(s1, EncodeMeshes(meshes[..i]))
    {
      SerializeMesh(stream, meshes[i]);
      AfterWriteConcat(s1, EncodeMeshes(meshes[..i]), EncodeMesh(meshes[i]));
      EncodeMeshesPrefix(meshes, i);
    }
    assert meshes[..|meshes|] == meshes;
  }

  /** The texture loop of `serialize(ostream, model)`. */
  method SerializeTextures(stream: BufferStream, textures: seq<Texture>)
    modifies stream
    ensures stream.State() == AfterWrite(old(stream.State()), EncodeTextures(textures))
  {
    ghost var s3 := stream.State();
    for i := 0 to |textures|
      invariant stream.State() == AfterWrite(s3, EncodeTextures(textures[..i]))
    {
      SerializeTexture(stream, textures[i]);
      AfterWriteConcat(s3, EncodeTextures(textures[..i]), EncodeTexture(textures[i]));
      EncodeTexturesPrefix(textures, i);
    }
    assert textures[..|textures|] == textures;
  }

  /** `serialize(ostream, model)`. */
  method SerializeModel(stream: BufferStream, model: GltfModel)
    modifies stream
    ensures stream.State() == AfterWrite(old(stream.State()), EncodeModel(model))
  {
    ghost var s0 := stream.State();
    var meshes, textures := model.meshes, model.baseColorTextures;
    stream.Write(SizeBytes(|meshes|));
    ghost var s1 := stream.State();
    SerializeMeshes(stream, meshes);
    ghost var s2 := stream.State();
    stream.Write(SizeBytes(|textures|));
    SerializeTextures(stream, textures);
    AfterWriteConcat(s2, SizeBytes(|textures|), EncodeTextures(textures));
    AfterWriteConcat(s1, EncodeMeshes(meshes), SizeBytes(|textures|) + EncodeTextures(textures));
    AfterWriteConcat(s0, SizeBytes(|meshes|), EncodeMeshes(meshes) + (SizeBytes(|textures|) + EncodeTextures(textures)));
  }

  // --------------------------------------------------------------- reading

  /** `istream.read` of one fixed-size record. */
  method ReadRecordFrom<T(!new)>(stream: BufferStream, c: Codec<T>) returns (r: Result<T>)
    requires ValidCodec(c)
    modifies stream
    ensures Outcome(r, stream.State()) == ReadRecord(c, old(stream.State()))
  {
    var data, count := stream.Read(c.size);
    if count < c.size {
      r := Failure("short read");
    } else {
      r := Success(c.decode(data));
    }
  }

  /** `resize(count)`, then one `istream.read` of the payload with the
      check that all of it was delivered. */
  method ReadArrayFrom<T(!new)>(stream: BufferStream, c: Codec<T>, count: nat) returns (r: Result<seq<T>>)
    requires ValidCodec(c)
    modifies stream
    ensures Outcome(r, stream.State()) == ReadArray(c, old(stream.State()), count)
  {
    if c.size * count >= U64_LIMIT {
      return Failure("the vector cannot be sized");
    }
    var numBytes := c.size * count;
    var data, n := stream.Read(numBytes);
    if n != numBytes {
      return Failure("the payload was not read in full");
    }
    r := Success(DecodeItems(c, data, count));
  }

  /** A vector's count, then the vector. */
  method ReadLengthPrefixedFrom<T(!new)>(stream: BufferStream, c: Codec<T>) returns (r: Result<seq<T>>)
    requires ValidCodec(c)
    modifies stream
    ensures Outcome(r, stream.State()) == ReadLengthPrefixed(c, old(stream.State()))
  {
    var count := ReadRecordFrom(stream, SizeCodec());
    if count.Failure? {
      return Failure(count.error);
    }
    r := ReadArrayFrom(stream, c, count.value);
  }

  /** `deserialize(istream, bvh)`. */
  method DeserializeBvh(stream: BufferStream) returns (r: Result<Bvh>)
    modifies stream
    ensures Outcome(r, stream.State()) == ReadBvh(old(stream.State()))
  {
    var nodes := ReadLengthPrefixedFrom(stream, NodeCodec());
    if nodes.Failure? {
      return Failure(nodes.error);
    }
    var triangleIndices := ReadLengthPrefixedFrom(stream, SizeCodec());
    if triangleIndices.Failure? {
      return Failure(triangleIndices.error);
    }
    r := Success(Bvh(nodes.value, triangleIndices.value));
  }

  /** The body of the mesh loop of `deserialize(istream, model)`. */
  method DeserializeMesh(stream: BufferStream) returns (r: Result<GltfMesh>)
    modifies stream
    ensures Outcome(r, stream.State()) == ReadMesh(old(stream.State()))
  {
    var positions := ReadLengthPrefixedFrom(stream, Vec3Codec());
    if positions.Failure? {
      return Failure(positions.error);
    }
    var normals := ReadLengthPrefixedFrom(stream, Vec3Codec());
    if normals.Failure? {
      return Failure(normals.error);
    }
    var texCoords := ReadLengthPrefixedFrom(stream, Vec2Codec());
    if texCoords.Failure? {
      return Failure(texCoords.error);
    }
    var indices := ReadLengthPrefixedFrom(stream, U32Codec());
    if indices.Failure? {
      return Failure(indices.error);
    }
    var baseColorTextureIndex := ReadRecordFrom(stream, SizeCodec());
    if baseColorTextureIndex.Failure? {
      return Failure(baseColorTextureIndex.error);
    }
    r := Success(GltfMesh(positions.value, normals.value, texCoords.value, indices.value, baseColorTextureIndex.value));
  }

  /** The body of the texture loop of `deserialize(istream, model)`. */
  method DeserializeTexture(stream: BufferStream) returns (r: Result<Texture>)
    modifies stream
    ensures Outcome(r, stream.State()) == ReadTexture(old(stream.State()))
  {
    var pixels := ReadLengthPrefixedFrom(stream, WordCodec());
    if pixels.Failure? {
      return Failure(pixels.error);
    }
    var dimensions := ReadRecordFrom(stream, DimensionsCodec());
    if dimensions.Failure? {
      return Failure(dimensions.error);
    }
    r := Success(Texture(pixels.value, dimensions.value));
  }

  /** `deserialize(istream, model)`. */
  method DeserializeModel(stream: BufferStream) returns (r: Result<GltfModel>)
    modifies stream
    ensures Outcome(r, stream.State()) == ReadModel(old(stream.State()))
  {
    var numMeshes := ReadRecordFrom(stream, SizeCodec());
    if numMeshes.Failure? {
      return Failure(numMeshes.error);
    }
    ghost var s1 := stream.State();
    var meshes: seq<GltfMesh> := [];
    for i := 0 to numMeshes.value
      invariant ReadMeshes(s1, i) == Outcome(Success(meshes), stream.State())
    {
      var mesh := DeserializeMesh(stream);
      if mesh.Failure? {
        ReadMeshesFailed(s1, i + 1, numMeshes.value);
        return Failure(mesh.error);
      }
      meshes := meshes + [mesh.value];
    }
    var numTextures := ReadRecordFrom(stream, SizeCodec());
    if numTextures.Failure? {
      return Failure(numTextures.error);
    }
    ghost var s3 := stream.State();
    var textures: seq<Texture> := [];
    for i := 0 to numTextures.value
      invariant ReadTextures(s3, i) == Outcome(Success(textures), stream.State())
    {
      var texture := DeserializeTexture(stream);
      if texture.Failure? {
        ReadTexturesFailed(s3, i + 1, numTextures.value);
        return Failure(texture.error);
      }
      textures := textures + [texture.value];
    }
    r := Success(GltfModel(meshes, textures));
  }

  // ---------------------------------------------------- the archive tests

  /** Serializing a BVH to a fresh `BufferStream` and deserializing it gives
      back the same nodes and triangle indices. */
  method BvhArchiveRoundTrip(bvh: Bvh) returns (r: Result<Bvh>)
    requires BvhFits(bvh)
    ensures r == Success(bvh)
  {
    var stream := new BufferStream();
    SerializeBvh(stream, bvh);
    FreshWrite(EncodeBvh(bvh));
    ReadBvhOf(bvh, []);
    r := DeserializeBvh(stream);
  }

  /** A BVH as the builder returns it -- the node array of a covering tree
      over `n` triangles and a permutation of `0..n` -- fits the archive's
      widths when `n` is at most 2^31, so it survives a serialize and
      deserialize round trip. */
  lemma BuiltBvhFits(bvh: Bvh, tree: Tree, n: nat)
    requires bvh.nodes == Flatten(tree, 0) && Covers(tree, 0) && Count(tree) == n
    requires IsPermutation(bvh.triangleIndices, n)
    requires n <= 0x8000_0000
    ensures BvhFits(bvh)
  {
    FlattenWithin(tree, 0, 0);
    SizeBelowTwiceCount(tree, 0);
  }

  /** Serializing a model and deserializing it gives back an equal model. */
  method ModelArchiveRoundTrip(model: GltfModel) returns (r: Result<GltfModel>)
    requires ModelFits(model)
    ensures r == Success(model)
  {
    var stream := new BufferStream();
    SerializeModel(stream, model);
    FreshWrite(EncodeModel(model));
    ReadModelOf(model, []);
    r := DeserializeModel(stream);
  }
}
