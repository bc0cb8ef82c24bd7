/** The render parameters the progressive renderers compare on every
    `setRenderParameters` call (src/pt/reference_path_tracer.hpp and
    src/pt/renderer.hpp), and the two counters they advance on every
    `render`: the frame count and the accumulated sample count. The structs'
    `operator==` is the defaulted member-wise one, so their float members
    compare as IEEE 754 single-precision values: a NaN equals nothing, not
    even itself, and +0 equals -0. */
module RenderSettings {
  import opened Geometry

  // ------------------------------------------------------ float comparison

  /** A binary32 NaN: all exponent bits set and a non-zero fraction. */
  predicate IsNaN(x: Float) {
    x & 0x7F80_0000 == 0x7F80_0000 && x & 0x007F_FFFF != 0
  }

  /** +0 or -0: every bit but the sign clear. */
  predicate IsZero(x: Float) {
    x & 0x7FFF_FFFF == 0
  }

  /** `float == float`. */
  predicate FloatEq(a: Float, b: Float) {
    !IsNaN(a) && !IsNaN(b) && (a == b || (IsZero(a) && IsZero(b)))
  }

  predicate Vec3Eq(a: Vec3, b: Vec3) {
    FloatEq(a.x, b.x) && FloatEq(a.y, b.y) && FloatEq(a.z, b.z)
  }

  predicate Vec3NoNaN(v: Vec3) {
    !IsNaN(v.x) && !IsNaN(v.y) && !IsNaN(v.z)
  }

  // ------------------------------------------------------- the parameters

  /** `Extent2u`. */
  datatype Extent2u = Extent2u(x: U32, y: U32)

  /** `Camera` (src/common/camera.hpp): four vectors. */
  datatype Camera = Camera(origin: Vec3, lowerLeftCorner: Vec3, horizontal: Vec3, vertical: Vec3)

  /** `SamplingParams`, with their defaults 128 and 4. */
  datatype SamplingParams = SamplingParams(numSamplesPerPixel: U32, numBounces: U32)

  /** `Sky` (src/pt/aligned_sky_state.hpp). */
  datatype Sky = Sky(turbidity: Float, albedo: Vec3, sunZenithDegrees: Float, sunAzimuthDegrees: Float)

  /** `RenderParameters`. */
  datatype RenderParameters = RenderParameters(
    framebufferSize: Extent2u,
    camera: Camera,
    samplingParams: SamplingParams,
    sky: Sky,
    exposure: Float)

  /** `PostProcessingParameters`, whose definition is not part of this
      model: held as its float members. */
  datatype PostProcessingParameters = PostProcessingParameters(members: seq<Float>)

  predicate CameraEq(a: Camera, b: Camera) {
    && Vec3Eq(a.origin, b.origin) && Vec3Eq(a.lowerLeftCorner, b.lowerLeftCorner)
    && Vec3Eq(a.horizontal, b.horizontal) && Vec3Eq(a.vertical, b.vertical)
  }

  predicate SkyEq(a: Sky, b: Sky) {
    && FloatEq(a.turbidity, b.turbidity) && Vec3Eq(a.albedo, b.albedo)
    && FloatEq(a.sunZenithDegrees, b.sunZenithDegrees) && FloatEq(a.sunAzimuthDegrees, b.sunAzimuthDegrees)
  }

  /** The defaulted `RenderParameters::operator==`. */
  predicate ParamsEqual(a: RenderParameters, b: RenderParameters) {
    && a.framebufferSize == b.framebufferSize
    && CameraEq(a.camera, b.camera)
    && a.samplingParams == b.samplingParams
    && SkyEq(a.sky, b.sky)
    && FloatEq(a.exposure, b.exposure)
  }

  /** No float member of the parameters is a NaN. */
  predicate NoNaN(p: RenderParameters) {
    && Vec3NoNaN(p.camera.origin) && Vec3NoNaN(p.camera.lowerLeftCorner)
    && Vec3NoNaN(p.camera.horizontal) && Vec3NoNaN(p.camera.vertical)
    && !IsNaN(p.sky.turbidity) && Vec3NoNaN(p.sky.albedo)
    && !IsNaN(p.sky.sunZenithDegrees) && !IsNaN(p.sky.sunAzimuthDegrees)
    && !IsNaN(p.exposure)
  }

  /** Parameters equal themselves exactly when none of their floats is a
      NaN: setting the same NaN-free parameters again keeps the
      accumulation, while parameters holding a NaN always reset it. */
  lemma ParamsEqualReflexive(p: RenderParameters)
    ensures ParamsEqual(p, p) <==> NoNaN(p)
  {
  }

  /** Equal parameters have bit-identical integer members, so the sample
      budget a renderer keeps after a call that changed nothing is the
      budget of the parameters it was given. */
  lemma ParamsEqualSamples(a: RenderParameters, b: RenderParameters)
    requires ParamsEqual(a, b)
    ensures a.samplingParams.numSamplesPerPixel == b.samplingParams.numSamplesPerPixel
    ensures a.framebufferSize == b.framebufferSize
  {
  }

  /** Two parameter sets that differ only in a float member's zero sign
      compare equal. */
  lemma SignedZerosEqual(p: RenderParameters, z: Float)
    requires NoNaN(p) && IsZero(z) && IsZero(p.exposure)
    ensures ParamsEqual(p, p.(exposure := z))
  {
  }

  // -------------------------------------------------------------- counters

  /** `frameCount++` on a `std::uint32_t`. */
  function NextFrameCount(frameCount: U32): U32 {
    (frameCount + 1) % U32_LIMIT
  }

  /** `std::min(accumulatedSampleCount + 1, numSamplesPerPixel)`, where the
      increment is `std::uint32_t` arithmetic. */
  function NextAccumulated(accumulated: U32, numSamplesPerPixel: U32): U32 {
    var incremented := (accumulated + 1) % U32_LIMIT;
    if incremented < numSamplesPerPixel then incremented else numSamplesPerPixel
  }

  /** The accumulated count never exceeds the sample budget, and below the
      largest `std::uint32_t` budget it saturates: one more sample until the
      budget is reached, then it stays there. */
  lemma AccumulationSaturates(accumulated: U32, numSamplesPerPixel: U32)
    requires accumulated <= numSamplesPerPixel
    ensures NextAccumulated(accumulated, numSamplesPerPixel) <= numSamplesPerPixel
    ensures numSamplesPerPixel < U32_LIMIT - 1 ==>
              NextAccumulated(accumulated, numSamplesPerPixel) == if accumulated < numSamplesPerPixel then accumulated + 1 else numSamplesPerPixel
  {
  }

  /** With the largest budget the increment wraps: a full accumulation
      starts over at 0. */
  lemma AccumulationWrapsAtLargestBudget()
    ensures NextAccumulated(U32_LIMIT - 1, U32_LIMIT - 1) == 0
  {
  }

  /** The counters after `n` renders starting from `accumulated`. */
  function AccumulatedAfter(accumulated: U32, numSamplesPerPixel: U32, n: nat): U32 {
    if n == 0 then accumulated else NextAccumulated(AccumulatedAfter(accumulated, numSamplesPerPixel, n - 1), numSamplesPerPixel)
  }

  function FrameCountAfter(frameCount: U32, n: nat): U32 {
    if n == 0 then frameCount else NextFrameCount(FrameCountAfter(frameCount, n - 1))
  }

  /** After a reset, `n` renders with unchanged parameters have
      accumulated `min(n, numSamplesPerPixel)` samples. */
  lemma {:induction false} AccumulatedAfterReset(numSamplesPerPixel: U32, n: nat)
    requires numSamplesPerPixel < U32_LIMIT - 1
    ensures AccumulatedAfter(0, numSamplesPerPixel, n) == if n < numSamplesPerPixel then n else numSamplesPerPixel
  {
    if n > 0 {
      AccumulatedAfterReset(numSamplesPerPixel, n - 1);
    }
  }

  /** The frame count counts renders modulo 2^32. */
  lemma {:induction false} FrameCountCounts(frameCount: U32, n: nat)
    ensures FrameCountAfter(frameCount, n) == (frameCount + n) % U32_LIMIT
  {
    if n > 0 {
      FrameCountCounts(frameCount, n - 1);
      WrapSucc(frameCount + n - 1);
    }
  }

  lemma WrapSucc(x: nat)
    ensures ((x % U32_LIMIT) + 1) % U32_LIMIT == (x + 1) % U32_LIMIT
  {
    var q, r := x / U32_LIMIT, x % U32_LIMIT;
    assert x == q * U32_LIMIT + r;
    if r + 1 == U32_LIMIT {
      assert x + 1 == (q + 1) * U32_LIMIT;
    } else {
      assert x + 1 == q * U32_LIMIT + (r + 1);
    }
  }

  /** `RenderParamsLayout`: what `render` uploads, built from the counters
      before they advance. */
  datatype RenderParamsLayout = RenderParamsLayout(
    framebufferSize: Extent2u,
    frameCount: U32,
    renderParams: RenderParameters,
    accumulatedSampleCount: U32)
}
