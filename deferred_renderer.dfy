/** `DeferredRenderer` (src/pt/deferred_renderer.cpp) once the GPU calls are
    stripped out: a frame counter that every frame reads and then advances
    and that invalidating the temporal accumulation resets, the G-buffer
    pass's matrix history and texture bind de-duplication, three pass
    duration windows with their averages, and the contents of the buffers
    its lighting pass fills at construction (packed textures and blue
    noise). */
module DeferredRenderers {
  import opened Geometry
  import opened ByteCodecs
  import opened Results
  import opened GltfModels
  import opened RenderSettings
  import opened DurationWindows
  import opened TexturePacking

  // ------------------------------------------------ texture bind groups

  /** `~static_cast<std::size_t>(0)`: the texture index "bound" before the
      first mesh is drawn. */
  const SIZE_MAX: U64 := U64_LIMIT - 1

  /** The bind-group switches of the G-buffer pass's draw loop when the
      meshes' texture indices are `xs` and `current` is bound: a mesh whose
      index differs from the bound one binds its own texture. */
  function BindsFrom(current: U64, xs: seq<U64>): seq<U64>
    decreases |xs|
  {
    if |xs| == 0 then []
    else if xs[0] != current then [xs[0]] + BindsFrom(xs[0], xs[1..])
    else BindsFrom(current, xs[1..])
  }

  /** The switches of one pass, starting from the sentinel. */
  function Binds(xs: seq<U64>): seq<U64> {
    BindsFrom(SIZE_MAX, xs)
  }

  /** The number of maximal runs of equal consecutive indices. */
  function Runs(xs: seq<U64>): nat {
    if |xs| <= 1 then |xs|
    else Runs(xs[1..]) + (if xs[0] == xs[1] then 0 else 1)
  }

  /** One switch per run of equal indices, less one when the first run
      repeats the bound index. */
  lemma {:induction false} BindsCountRuns(current: U64, xs: seq<U64>)
    ensures |BindsFrom(current, xs)| == Runs(xs) - (if 0 < |xs| && xs[0] == current then 1 else 0)
    decreases |xs|
  {
    if |xs| > 1 {
      BindsCountRuns(xs[0], xs[1..]);
      BindsCountRuns(current, xs[1..]);
    }
  }

  /** When the first mesh's index is not the sentinel, the pass switches
      texture exactly once per run of equal consecutive indices. */
  lemma BindsMatchRuns(xs: seq<U64>)
    requires 0 < |xs| ==> xs[0] != SIZE_MAX
    ensures |Binds(xs)| == Runs(xs)
  {
    BindsCountRuns(SIZE_MAX, xs);
  }

  /** No switch rebinds the texture already bound: the first differs from
      the bound one and each from the one before it. */
  lemma {:induction false} BindsNeverRepeat(current: U64, xs: seq<U64>)
    ensures var bs := BindsFrom(current, xs);
            && (0 < |bs| ==> bs[0] != current)
            && forall i :: 0 < i < |bs| ==> bs[i] != bs[i - 1]
    decreases |xs|
  {
    if |xs| > 0 {
      if xs[0] != current {
        BindsNeverRepeat(xs[0], xs[1..]);
      } else {
        BindsNeverRepeat(current, xs[1..]);
      }
    }
  }

  /** Every switch binds some mesh's texture, and every mesh's texture is
      bound at some switch unless it is the one bound at the start. */
  lemma {:induction false} BindsCoverIndices(current: U64, xs: seq<U64>, x: U64)
    ensures x in BindsFrom(current, xs) ==> x in xs
    ensures x in xs && x != current ==> x in BindsFrom(current, xs)
    decreases |xs|
  {
    if |xs| > 0 {
      assert xs == [xs[0]] + xs[1..];
      if xs[0] != current {
        BindsCoverIndices(xs[0], xs[1..], x);
      } else {
        BindsCoverIndices(current, xs[1..], x);
      }
    }
  }

  /** From a bound index no larger than any of the sorted indices, every
      switch binds a larger index than the one before it. */
  lemma {:induction false} SortedBindsIncrease(current: U64, xs: seq<U64>)
    requires forall i, j :: 0 <= i < j < |xs| ==> xs[i] <= xs[j]
    requires forall i :: 0 <= i < |xs| ==> current <= xs[i]
    ensures var bs := BindsFrom(current, xs);
            && (forall i :: 0 <= i < |bs| ==> current < bs[i])
            && (forall i, j :: 0 <= i < j < |bs| ==> bs[i] < bs[j])
    decreases |xs|
  {
    if |xs| > 0 {
      var rest := xs[1..];
      assert forall i :: 0 <= i < |rest| ==> xs[0] <= rest[i] by {
        forall i | 0 <= i < |rest| ensures xs[0] <= rest[i] {
          assert rest[i] == xs[i + 1];
        }
      }
      if xs[0] != current {
        SortedBindsIncrease(xs[0], rest);
        assert forall i :: 0 <= i < |BindsFrom(xs[0], rest)| ==> xs[0] < BindsFrom(xs[0], rest)[i];
        var tail := BindsFrom(xs[0], rest);
        var bs := [xs[0]] + tail;
        assert BindsFrom(current, xs) == bs;
        assert forall i :: 0 < i < |bs| ==> bs[i] == tail[i - 1];
      } else {
        SortedBindsIncrease(current, rest);
        assert BindsFrom(current, xs) == BindsFrom(current, rest);
      }
    }
  }

  /** The model's meshes are sorted by texture index, so the G-buffer pass
      binds every texture the meshes use exactly once, in increasing index
      order. */
  lemma SortedMeshesBindEachTextureOnce(meshes: seq<GltfMesh>, indices: seq<U32>)
    requires SortedByTexture(meshes)
    requires |indices| == |meshes|
    requires forall i :: 0 <= i < |meshes| ==> indices[i] == meshes[i].baseColorTextureIndex
    ensures var bs := Binds(indices);
            && (forall i, j :: 0 <= i < j < |bs| ==> bs[i] < bs[j])
            && (forall x :: x in bs <==> x in indices)
  {
    var xs: seq<U64> := indices;
    if |xs| > 0 {
      SortedBindsIncrease(xs[0], xs[1..]);
      assert Binds(xs) == [xs[0]] + BindsFrom(xs[0], xs[1..]);
    }
    forall x: U64
      ensures x in Binds(xs) <==> x in xs
    {
      BindsCoverIndices(SIZE_MAX, xs, x);
    }
  }

  // ---------------------------------------------------------- G-buffer pass

  /** `glm::mat4`, column by column. */
  datatype Mat4 = Mat4(entries: seq<Float>)

  /** `glm::mat4(1.0f)`. */
  const IDENTITY: Mat4 := Mat4([
    0x3F80_0000, 0, 0, 0,
    0, 0x3F80_0000, 0, 0,
    0, 0, 0x3F80_0000, 0,
    0, 0, 0, 0x3F80_0000])

  /** The G-buffer pass's uniform block. */
  datatype GbufferUniforms = GbufferUniforms(viewReverseZProjection: Mat4, previousViewReverseZProjection: Mat4)

  class GbufferPass {
    /** The meshes' texture indices, in draw order. */
    const baseColorTextureIndices: seq<U32>
    var previousViewReverseZProjectionMat: Mat4

    /** The descriptor's `std::size_t` indices pass through the
        constructor's `std::uint32_t` lambda parameter, which truncates
        them; the matrix history starts at the identity. */
    constructor (modelBaseColorTextureIndices: seq<U64>)
      ensures |baseColorTextureIndices| == |modelBaseColorTextureIndices|
      ensures forall i :: 0 <= i < |modelBaseColorTextureIndices| ==>
                baseColorTextureIndices[i] == modelBaseColorTextureIndices[i] % U32_LIMIT
      ensures previousViewReverseZProjectionMat == IDENTITY
    {
      baseColorTextureIndices := seq(|modelBaseColorTextureIndices|, i requires 0 <= i < |modelBaseColorTextureIndices| =>
                                       modelBaseColorTextureIndices[i] % U32_LIMIT);
      previousViewReverseZProjectionMat := IDENTITY;
    }

    /** `GbufferPass::render`: the first frame of an accumulation sequence
        uses the current matrix as the previous one, later frames the
        matrix of the frame before; the current matrix is then kept. Its
        draw loop switches texture bind group exactly at `Binds`, and draws
        every mesh with its own texture bound. */
    method Render(viewReverseZProjectionMatrix: Mat4, frameCount: U32)
      returns (uniforms: GbufferUniforms, binds: seq<U64>, drawnWith: seq<Option<U64>>)
      modifies this
      ensures uniforms.viewReverseZProjection == viewReverseZProjectionMatrix
      ensures uniforms.previousViewReverseZProjection ==
                if frameCount == 0 then viewReverseZProjectionMatrix else old(previousViewReverseZProjectionMat)
      ensures previousViewReverseZProjectionMat == viewReverseZProjectionMatrix
      ensures binds == Binds(baseColorTextureIndices)
      ensures |drawnWith| == |baseColorTextureIndices|
      ensures forall i :: 0 <= i < |drawnWith| ==> drawnWith[i] == Some(baseColorTextureIndices[i] as U64)
    {
      var previous := if frameCount == 0 then viewReverseZProjectionMatrix else previousViewReverseZProjectionMat;
      uniforms := GbufferUniforms(viewReverseZProjectionMatrix, previous);
      previousViewReverseZProjectionMat := viewReverseZProjectionMatrix;

      binds, drawnWith := DrawMeshes(baseColorTextureIndices);
    }
  }

  /** The draw loop of `GbufferPass::render`: a mesh whose texture index
      differs from the bound one binds its own texture first, so the
      switches are exactly `Binds` and every mesh is drawn with its own
      texture bound. */
  method DrawMeshes(baseColorTextureIndices: seq<U32>) returns (binds: seq<U64>, drawnWith: seq<Option<U64>>)
    ensures binds == Binds(baseColorTextureIndices)
    ensures |drawnWith| == |baseColorTextureIndices|
    ensures forall i :: 0 <= i < |drawnWith| ==> drawnWith[i] == Some(baseColorTextureIndices[i] as U64)
  {
    var indices: seq<U64> := baseColorTextureIndices;
    var currentTextureIdx: U64 := SIZE_MAX;
    var bound: Option<U64> := None;
    binds, drawnWith := [], [];
    for idx := 0 to |indices|
      invariant binds + BindsFrom(currentTextureIdx, indices[idx..]) == Binds(indices)
      invariant idx == 0 ==> currentTextureIdx == SIZE_MAX
      invariant 0 < idx ==> currentTextureIdx == indices[idx - 1] && bound == Some(indices[idx - 1])
      invariant |drawnWith| == idx
      invariant forall i :: 0 <= i < idx ==> drawnWith[i] == Some(indices[i])
    {
      var textureIdx := indices[idx];
      assert indices[idx..] == [textureIdx] + indices[idx + 1..];
      if textureIdx != currentTextureIdx {
        currentTextureIdx := textureIdx;
        bound := Some(textureIdx);
        binds := binds + [textureIdx];
      }
      drawnWith := drawnWith + [bound];
    }
  }

  // ----------------------------------------------------------- blue noise

  /** The blue-noise buffer: the width and height as `std::uint32_t`, then
      one word per noise byte holding the bits of `unitFloat(value)`, the
      float `value / 255.0f`. */
  method BlueNoiseBufferData(width: nat, height: nat, values: seq<Byte>, unitFloat: Byte -> bv32)
    returns (data: seq<bv32>)
    ensures |data| == 2 + |values|
    ensures data[0] == (width % U32_LIMIT) as bv32 && data[1] == (height % U32_LIMIT) as bv32
    ensures forall i :: 0 <= i < |values| ==> data[2 + i] == unitFloat(values[i])
  {
    data := [(width % U32_LIMIT) as bv32, (height % U32_LIMIT) as bv32];
    for i := 0 to |values|
      invariant |data| == 2 + i
      invariant data[0] == (width % U32_LIMIT) as bv32 && data[1] == (height % U32_LIMIT) as bv32
      invariant forall k :: 0 <= k < i ==> data[2 + k] == unitFloat(values[k])
    {
      data := data + [unitFloat(values[i])];
    }
  }

  // ------------------------------------------------------------ perf stats

  /** `std::accumulate(first, last, 0ll)` over `std::uint64_t` durations:
      each addition is done in `unsigned long long` and stored back into a
      `long long`, so the result is the sum modulo 2^64 read as a signed
      64-bit value. */
  function SignedSum(ds: seq<U64>): (s: int)
    ensures -0x8000_0000_0000_0000 <= s < 0x8000_0000_0000_0000
    ensures (s - Sum(ds)) % U64_LIMIT == 0
  {
    var u := Sum(ds) % U64_LIMIT;
    if u < 0x8000_0000_0000_0000 then u else u - U64_LIMIT
  }

  /** The mean a pass reports: its signed sum over its entry count, before
      the conversion to milliseconds. */
  datatype PassMean = ZeroMean | SignedMean(sumNs: int, count: nat)

  /** `PerfStats`: one mean per pass; `{}` is all zeros. */
  datatype PerfStats = PerfStats(gbufferPass: PassMean, lightingPass: PassMean, resolvePass: PassMean)

  const DEFAULT_PERF_STATS: PerfStats := PerfStats(ZeroMean, ZeroMean, ZeroMean)

  /** The sum of durations below 2^58 ns over at most 30 entries is at most
      30 * 2^58, below 2^63: the signed sum is the exact total. */
  lemma SignedSumExact(ds: seq<U64>)
    requires |ds| <= WINDOW_SIZE
    requires forall i :: 0 <= i < |ds| ==> ds[i] < 0x400_0000_0000_0000
    ensures SignedSum(ds) == Sum(ds)
  {
    SumBounded(ds, 0x400_0000_0000_0000);
    assert 0x400_0000_0000_0000 * |ds| <= 0x400_0000_0000_0000 * WINDOW_SIZE;
  }

  // -------------------------------------------------------------- renderer

  class DeferredRenderer {
    var frameCount: U32
    var gbufferPassDurationsNs: seq<U64>
    var lightingPassDurationsNs: seq<U64>
    var resolvePassDurationsNs: seq<U64>
    const gbufferPass: GbufferPass
    /** The contents of the lighting pass's texture descriptor, texture and
        blue-noise buffers. */
    const textureDescriptors: seq<TextureDescriptor>
    const textureData: seq<bv32>
    const blueNoiseData: seq<bv32>

    /** The three windows are pushed together, so they have one size, at
        most 30. */
    ghost predicate Valid()
      reads this
    {
      && |gbufferPassDurationsNs| == |lightingPassDurationsNs| == |resolvePassDurationsNs|
      && |gbufferPassDurationsNs| <= WINDOW_SIZE
    }

    constructor (gbufferPass: GbufferPass, packed: PackedTextures, blueNoiseData: seq<bv32>)
      ensures Valid()
      ensures frameCount == 0
      ensures gbufferPassDurationsNs == [] && lightingPassDurationsNs == [] && resolvePassDurationsNs == []
      ensures this.gbufferPass == gbufferPass
      ensures textureDescriptors == packed.descriptors && textureData == packed.data
      ensures this.blueNoiseData == blueNoiseData
    {
      frameCount := 0;
      gbufferPassDurationsNs, lightingPassDurationsNs, resolvePassDurationsNs := [], [], [];
      this.gbufferPass := gbufferPass;
      textureDescriptors, textureData := packed.descriptors, packed.data;
      this.blueNoiseData := blueNoiseData;
    }

    /** `render`: the frame uses the current frame count, which then
        advances modulo 2^32; the G-buffer pass runs with that count. */
    method Render(viewReverseZProjectionMatrix: Mat4)
      returns (usedFrameCount: U32, uniforms: GbufferUniforms, binds: seq<U64>)
      requires Valid()
      modifies this, gbufferPass
      ensures Valid()
      ensures usedFrameCount == old(frameCount) && frameCount == NextFrameCount(old(frameCount))
      ensures uniforms == GbufferUniforms(viewReverseZProjectionMatrix,
                            if old(frameCount) == 0 then viewReverseZProjectionMatrix
                            else old(gbufferPass.previousViewReverseZProjectionMat))
      ensures gbufferPass.previousViewReverseZProjectionMat == viewReverseZProjectionMatrix
      ensures binds == Binds(gbufferPass.baseColorTextureIndices)
      ensures gbufferPassDurationsNs == old(gbufferPassDurationsNs)
      ensures lightingPassDurationsNs == old(lightingPassDurationsNs)
      ensures resolvePassDurationsNs == old(resolvePassDurationsNs)
    {
      usedFrameCount := frameCount;
      frameCount := (frameCount + 1) % U32_LIMIT;
      var drawnWith;
      uniforms, binds, drawnWith := gbufferPass.Render(viewReverseZProjectionMatrix, usedFrameCount);
    }

    /** `renderDebug`: the same frame-count and G-buffer steps, without the
        timestamps. */
    method RenderDebug(viewProjectionMat: Mat4)
      returns (usedFrameCount: U32, uniforms: GbufferUniforms)
      requires Valid()
      modifies this, gbufferPass
      ensures Valid()
      ensures usedFrameCount == old(frameCount) && frameCount == NextFrameCount(old(frameCount))
      ensures uniforms == GbufferUniforms(viewProjectionMat,
                            if old(frameCount) == 0 then viewProjectionMat
                            else old(gbufferPass.previousViewReverseZProjectionMat))
      ensures gbufferPass.previousViewReverseZProjectionMat == viewProjectionMat
      ensures gbufferPassDurationsNs == old(gbufferPassDurationsNs)
      ensures lightingPassDurationsNs == old(lightingPassDurationsNs)
      ensures resolvePassDurationsNs == old(resolvePassDurationsNs)
    {
      usedFrameCount := frameCount;
      frameCount := (frameCount + 1) % U32_LIMIT;
      var binds, drawnWith;
      uniforms, binds, drawnWith := gbufferPass.Render(viewProjectionMat, usedFrameCount);
    }

    /** `invalidateTemporalAccumulation`: the next frame starts a new
        accumulation sequence. */
    method InvalidateTemporalAccumulation()
      requires Valid()
      modifies this
      ensures Valid()
      ensures frameCount == 0
      ensures gbufferPassDurationsNs == old(gbufferPassDurationsNs)
      ensures lightingPassDurationsNs == old(lightingPassDurationsNs)
      ensures resolvePassDurationsNs == old(resolvePassDurationsNs)
    {
      frameCount := 0;
    }

    /** `resize`: asserts a non-empty size, re-creates the size-dependent
        textures (not modelled) and invalidates the accumulation. */
    method Resize(newSize: Extent2u)
      requires Valid()
      requires newSize.x > 0 && newSize.y > 0
      modifies this
      ensures Valid()
      ensures frameCount == 0
      ensures gbufferPassDurationsNs == old(gbufferPassDurationsNs)
      ensures lightingPassDurationsNs == old(lightingPassDurationsNs)
      ensures resolvePassDurationsNs == old(resolvePassDurationsNs)
    {
      InvalidateTemporalAccumulation();
    }

    /** The timestamp-readback callback: on a successful map, each pass's
        duration enters its window; on a failed one nothing changes. */
    method OnTimestampsMapped(mapSucceeded: bool, gbufferPassStart: U64, gbufferPassEnd: U64,
                              lightingPassStart: U64, lightingPassEnd: U64,
                              resolvePassStart: U64, resolvePassEnd: U64)
      requires Valid()
      modifies this
      ensures Valid()
      ensures gbufferPassDurationsNs ==
                if mapSucceeded then Pushed(old(gbufferPassDurationsNs), Delta(gbufferPassStart, gbufferPassEnd))
                else old(gbufferPassDurationsNs)
      ensures lightingPassDurationsNs ==
                if mapSucceeded then Pushed(old(lightingPassDurationsNs), Delta(lightingPassStart, lightingPassEnd))
                else old(lightingPassDurationsNs)
      ensures resolvePassDurationsNs ==
                if mapSucceeded then Pushed(old(resolvePassDurationsNs), Delta(resolvePassStart, resolvePassEnd))
                else old(resolvePassDurationsNs)
      ensures frameCount == old(frameCount)
    {
      if mapSucceeded {
        var gbufferDuration := (gbufferPassEnd - gbufferPassStart) % U64_LIMIT;
        gbufferPassDurationsNs := gbufferPassDurationsNs + [gbufferDuration];
        if |gbufferPassDurationsNs| > WINDOW_SIZE {
          gbufferPassDurationsNs := gbufferPassDurationsNs[1..];
        }
        var lightingDuration := (lightingPassEnd - lightingPassStart) % U64_LIMIT;
        lightingPassDurationsNs := lightingPassDurationsNs + [lightingDuration];
        if |lightingPassDurationsNs| > WINDOW_SIZE {
          lightingPassDurationsNs := lightingPassDurationsNs[1..];
        }
        var resolveDuration := (resolvePassEnd - resolvePassStart) % U64_LIMIT;
        resolvePassDurationsNs := resolvePassDurationsNs + [resolveDuration];
        if |resolvePassDurationsNs| > WINDOW_SIZE {
          resolvePassDurationsNs := resolvePassDurationsNs[1..];
        }
      }
    }

    /** `getPerfStats`: asserts that the G-buffer and lighting windows have
        one size; all zeros when they are empty, otherwise each pass's
        signed sum over its entry count. */
    function GetPerfStats(): (stats: PerfStats)
      reads this
      requires |gbufferPassDurationsNs| == |lightingPassDurationsNs|
      ensures stats == DEFAULT_PERF_STATS <==> |gbufferPassDurationsNs| == 0
      ensures stats != DEFAULT_PERF_STATS ==>
                && stats.gbufferPass == SignedMean(SignedSum(gbufferPassDurationsNs), |gbufferPassDurationsNs|)
                && stats.lightingPass == SignedMean(SignedSum(lightingPassDurationsNs), |lightingPassDurationsNs|)
                && stats.resolvePass == SignedMean(SignedSum(resolvePassDurationsNs), |resolvePassDurationsNs|)
    {
      if |gbufferPassDurationsNs| == 0 then DEFAULT_PERF_STATS
      else PerfStats(SignedMean(SignedSum(gbufferPassDurationsNs), |gbufferPassDurationsNs|),
                     SignedMean(SignedSum(lightingPassDurationsNs), |lightingPassDurationsNs|),
                     SignedMean(SignedSum(resolvePassDurationsNs), |resolvePassDurationsNs|))
    }
  }

  /** `REQUIRED_LIMITS.maxStorageBufferBindingSize`: 1 GiB. */
  const MAX_STORAGE_BUFFER_BINDING_SIZE: nat := 0x4000_0000

  /** The constructor: the G-buffer pass takes the meshes' texture indices,
      the lighting pass fills the blue-noise buffer and packs the scene's
      textures, throwing when they exceed the 1 GiB binding limit. */
  method Create(modelBaseColorTextureIndices: seq<U64>, sceneBaseColorTextures: seq<Texture>,
                blueNoiseWidth: nat, blueNoiseHeight: nat, blueNoiseValues: seq<Byte>, unitFloat: Byte -> bv32)
    returns (r: Result<DeferredRenderer>)
    ensures r.Success? <==> 4 * PixelCount(sceneBaseColorTextures) <= MAX_STORAGE_BUFFER_BINDING_SIZE
    ensures r.Failure? ==> r.error == SizeError(4 * PixelCount(sceneBaseColorTextures), MAX_STORAGE_BUFFER_BINDING_SIZE)
    ensures r.Success? ==>
              && fresh(r.value) && fresh(r.value.gbufferPass) && r.value.Valid()
              && r.value.frameCount == 0 && r.value.gbufferPassDurationsNs == []
              && r.value.gbufferPass.previousViewReverseZProjectionMat == IDENTITY
              && |r.value.gbufferPass.baseColorTextureIndices| == |modelBaseColorTextureIndices|
              && (forall i :: 0 <= i < |modelBaseColorTextureIndices| ==>
                    r.value.gbufferPass.baseColorTextureIndices[i] == modelBaseColorTextureIndices[i] % U32_LIMIT)
              && r.value.textureData == Packed(sceneBaseColorTextures)
              && |r.value.textureDescriptors| == |sceneBaseColorTextures|
              && (forall k :: 0 <= k < |sceneBaseColorTextures| ==>
                    r.value.textureDescriptors[k] == Descriptor(sceneBaseColorTextures, k))
              && |r.value.blueNoiseData| == 2 + |blueNoiseValues|
              && r.value.blueNoiseData[0] == (blueNoiseWidth % U32_LIMIT) as bv32
              && r.value.blueNoiseData[1] == (blueNoiseHeight % U32_LIMIT) as bv32
              && (forall i :: 0 <= i < |blueNoiseValues| ==>
                    r.value.blueNoiseData[2 + i] == unitFloat(blueNoiseValues[i]))
  {
    var gbufferPass := new GbufferPass(modelBaseColorTextureIndices);
    var blueNoiseData := BlueNoiseBufferData(blueNoiseWidth, blueNoiseHeight, blueNoiseValues, unitFloat);
    var packed := PackSceneTextures(sceneBaseColorTextures, MAX_STORAGE_BUFFER_BINDING_SIZE);
    if packed.Failure? {
      return Failure(packed.error);
    }
    var renderer := new DeferredRenderer(gbufferPass, packed.value, blueNoiseData);
    r := Success(renderer);
  }
}
