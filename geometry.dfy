/** The value types shared by the geometry code (src/common/triangle_attributes.hpp,
    src/common/aabb.hpp). A `float` is kept as its IEEE-754 bit pattern, so
    copying and serialising it is exact; floating-point arithmetic is not part
    of this model. */
module Geometry {

  /** A single-precision float, as its bit pattern. */
  type Float = bv32

  datatype Vec2 = Vec2(x: Float, y: Float)

  datatype Vec3 = Vec3(x: Float, y: Float, z: Float)

  /** An axis-aligned bounding box. */
  datatype Aabb = Aabb(min: Vec3, max: Vec3)

  /** The three vertex positions of a triangle. */
  datatype Positions = Positions(v0: Vec3, v1: Vec3, v2: Vec3)

  /** The three vertex normals of a triangle. */
  datatype Normals = Normals(n0: Vec3, n1: Vec3, n2: Vec3)

  /** The three texture coordinates of a triangle. */
  datatype TexCoords = TexCoords(uv0: Vec2, uv1: Vec2, uv2: Vec2)

  /** One past the largest `std::uint32_t`. */
  const U32_LIMIT: nat := 0x1_0000_0000

  /** One past the largest `std::uint64_t` (the width of `std::size_t`). */
  const U64_LIMIT: nat := 0x1_0000_0000_0000_0000

  /** A `std::uint32_t` value. */
  type U32 = n: nat | n < U32_LIMIT

  /** A `std::size_t` value on a 64-bit target. */
  type U64 = n: nat | n < U64_LIMIT
}
