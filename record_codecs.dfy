/** The byte images of the fixed-size records the archive writes as raw
    memory (src/tests/archive.cpp): `glm::vec3` (12 bytes), `glm::vec2`
    (8 bytes), `Texture::Dimensions` (8 bytes) and the 48-byte `BvhNode`
    of src/common/bvh.hpp, whose `Aabb` (src/common/geometry.hpp) holds a
    zero padding float after each corner. */
module RecordCodecs {
  import opened Geometry
  import opened ByteCodecs
  import opened BoundingVolumeHierarchy
  import opened GltfModels

  /** Four zero bytes: a padding `float` holding 0.0f. */
  const ZERO_PAD: seq<Byte> := [0, 0, 0, 0]

  function Vec3Bytes(v: Vec3): (b: seq<Byte>)
    ensures |b| == 12
  {
    WordBytes(v.x) + WordBytes(v.y) + WordBytes(v.z)
  }

  function BytesVec3(b: seq<Byte>): Vec3
    requires |b| == 12
  {
    Vec3(BytesWord(b[0..4]), BytesWord(b[4..8]), BytesWord(b[8..12]))
  }

  lemma Vec3RoundTrip(v: Vec3)
    ensures BytesVec3(Vec3Bytes(v)) == v
  {
    var b := Vec3Bytes(v);
    assert b[0..4] == WordBytes(v.x);
    assert b[4..8] == WordBytes(v.y);
    assert b[8..12] == WordBytes(v.z);
    WordRoundTrip(v.x);
    WordRoundTrip(v.y);
    WordRoundTrip(v.z);
  }

  /** `glm::vec3`: three floats. */
  function Vec3Codec(): (c: Codec<Vec3>)
    ensures ValidCodec(c) && c.size == 12
  {
    var c := Codec(12, (v: Vec3) => true, (v: Vec3) => Vec3Bytes(v), (b: seq<Byte>) requires |b| == 12 => BytesVec3(b));
    assert forall v: Vec3 :: c.fits(v) ==> c.decode(c.encode(v)) == v by {
      forall v: Vec3 ensures c.decode(c.encode(v)) == v {
        Vec3RoundTrip(v);
      }
    }
    c
  }

  function Vec2Bytes(v: Vec2): (b: seq<Byte>)
    ensures |b| == 8
  {
    WordBytes(v.x) + WordBytes(v.y)
  }

  function BytesVec2(b: seq<Byte>): Vec2
    requires |b| == 8
  {
    Vec2(BytesWord(b[0..4]), BytesWord(b[4..8]))
  }

  lemma Vec2RoundTrip(v: Vec2)
    ensures BytesVec2(Vec2Bytes(v)) == v
  {
    var b := Vec2Bytes(v);
    assert b[0..4] == WordBytes(v.x);
    assert b[4..8] == WordBytes(v.y);
    WordRoundTrip(v.x);
    WordRoundTrip(v.y);
  }

  /** `glm::vec2`: two floats. */
  function Vec2Codec(): (c: Codec<Vec2>)
    ensures ValidCodec(c) && c.size == 8
  {
    var c := Codec(8, (v: Vec2) => true, (v: Vec2) => Vec2Bytes(v), (b: seq<Byte>) requires |b| == 8 => BytesVec2(b));
    assert forall v: Vec2 :: c.fits(v) ==> c.decode(c.encode(v)) == v by {
      forall v: Vec2 ensures c.decode(c.encode(v)) == v {
        Vec2RoundTrip(v);
      }
    }
    c
  }

  /** A `std::uint32_t` field. */
  function U32Bytes(n: nat): (b: seq<Byte>)
    ensures |b| == 4
  {
    NatToBytes(n, 4)
  }

  lemma U32RoundTrip(n: nat)
    requires n < U32_LIMIT
    ensures BytesToNat(U32Bytes(n)) == n
  {
    Pow256Widths();
    NatBytesRoundTrip(n, 4);
  }

  function DimensionsBytes(d: Dimensions): (b: seq<Byte>)
    ensures |b| == 8
  {
    U32Bytes(d.width) + U32Bytes(d.height)
  }

  function BytesDimensions(b: seq<Byte>): Dimensions
    requires |b| == 8
  {
    Pow256Widths();
    Dimensions(BytesToNat(b[0..4]), BytesToNat(b[4..8]))
  }

  lemma DimensionsRoundTrip(d: Dimensions)
    ensures BytesDimensions(DimensionsBytes(d)) == d
  {
    var b := DimensionsBytes(d);
    assert b[0..4] == U32Bytes(d.width);
    assert b[4..8] == U32Bytes(d.height);
    U32RoundTrip(d.width);
    U32RoundTrip(d.height);
  }

  /** `Texture::Dimensions`: width and height. */
  function DimensionsCodec(): (c: Codec<Dimensions>)
    ensures ValidCodec(c) && c.size == 8
  {
    var c := Codec(8, (d: Dimensions) => true, (d: Dimensions) => DimensionsBytes(d),
                   (b: seq<Byte>) requires |b| == 8 => BytesDimensions(b));
    assert forall d: Dimensions :: c.fits(d) ==> c.decode(c.encode(d)) == d by {
      forall d: Dimensions ensures c.decode(c.encode(d)) == d {
        DimensionsRoundTrip(d);
      }
    }
    c
  }

  /** `Aabb`: the minimum corner, a zero pad, the maximum corner, a zero
      pad. */
  function AabbBytes(a: Aabb): (b: seq<Byte>)
    ensures |b| == 32
  {
    Vec3Bytes(a.min) + ZERO_PAD + Vec3Bytes(a.max) + ZERO_PAD
  }

  /** The pads are skipped when a box is read back. */
  function BytesAabb(b: seq<Byte>): Aabb
    requires |b| == 32
  {
    Aabb(BytesVec3(b[0..12]), BytesVec3(b[16..28]))
  }

  lemma AabbRoundTrip(a: Aabb)
    ensures BytesAabb(AabbBytes(a)) == a
  {
    var b := AabbBytes(a);
    assert b[0..12] == Vec3Bytes(a.min);
    assert b[16..28] == Vec3Bytes(a.max);
    Vec3RoundTrip(a.min);
    Vec3RoundTrip(a.max);
  }

  /** A node whose integer fields fit their `std::uint32_t` fields. */
  predicate NodeFits(n: BvhNode) {
    && n.trianglesOffset < U32_LIMIT && n.secondChildOffset < U32_LIMIT
    && n.triangleCount < U32_LIMIT && n.splitAxis < U32_LIMIT
  }

  /** `BvhNode`: the box (32 bytes), then the four 32-bit fields. */
  function NodeBytes(n: BvhNode): (b: seq<Byte>)
    ensures |b| == 48
  {
    AabbBytes(n.aabb) + U32Bytes(n.trianglesOffset) + U32Bytes(n.secondChildOffset)
      + U32Bytes(n.triangleCount) + U32Bytes(n.splitAxis)
  }

  function BytesNode(b: seq<Byte>): BvhNode
    requires |b| == 48
  {
    BvhNode(BytesAabb(b[0..32]), BytesToNat(b[32..36]), BytesToNat(b[36..40]),
            BytesToNat(b[40..44]), BytesToNat(b[44..48]))
  }

  lemma NodeRoundTrip(n: BvhNode)
    requires NodeFits(n)
    ensures BytesNode(NodeBytes(n)) == n
  {
    var b := NodeBytes(n);
    assert b[0..32] == AabbBytes(n.aabb);
    assert b[32..36] == U32Bytes(n.trianglesOffset);
    assert b[36..40] == U32Bytes(n.secondChildOffset);
    assert b[40..44] == U32Bytes(n.triangleCount);
    assert b[44..48] == U32Bytes(n.splitAxis);
    AabbRoundTrip(n.aabb);
    U32RoundTrip(n.trianglesOffset);
    U32RoundTrip(n.secondChildOffset);
    U32RoundTrip(n.triangleCount);
    U32RoundTrip(n.splitAxis);
  }

  /** `BvhNode`, 48 bytes. */
  function NodeCodec(): (c: Codec<BvhNode>)
    ensures ValidCodec(c) && c.size == 48
  {
    var c := Codec(48, (n: BvhNode) => NodeFits(n), (n: BvhNode) => NodeBytes(n), (b: seq<Byte>) requires |b| == 48 => BytesNode(b));
    assert forall n: BvhNode :: c.fits(n) ==> c.decode(c.encode(n)) == n by {
      forall n: BvhNode | c.fits(n) ensures c.decode(c.encode(n)) == n {
        NodeRoundTrip(n);
      }
    }
    c
  }
}
