/** `Renderer` (src/pt/renderer.cpp): the same progressive bookkeeping as
    `ReferencePathTracer`, with two duration windows (the render pass, and
    the draw inside it when the device supports timestamp queries inside
    passes) and a `render` that does nothing when the swap chain has no
    view to draw into. */
module Renderers {
  import opened Geometry
  import opened Results
  import opened GltfModels
  import opened RenderSettings
  import opened DurationWindows
  import opened TexturePacking

  class Renderer {
    var currentRenderParams: RenderParameters
    var currentPostProcessingParams: PostProcessingParameters
    var frameCount: U32
    var accumulatedSampleCount: U32
    var drawDurationsNs: seq<U64>
    var renderPassDurationsNs: seq<U64>
    /** Whether the build records draw timestamps inside the render pass
        (`TIMESTAMP_QUERY_INSIDE_PASSES_SUPPORTED`). */
    const timestampQueryInsidePasses: bool
    /** The contents of the texture descriptor and texture buffers. */
    var textureDescriptors: seq<TextureDescriptor>
    var textureData: seq<bv32>

    /** The accumulated count stays within the sample budget, and the
        duration windows within 30 entries. */
    ghost predicate Valid()
      reads this
    {
      && accumulatedSampleCount <= currentRenderParams.samplingParams.numSamplesPerPixel
      && |drawDurationsNs| <= WINDOW_SIZE && |renderPassDurationsNs| <= WINDOW_SIZE
    }

    /** The counters and the windows of a new renderer, holding the packed
        textures. */
    constructor (renderParams: RenderParameters, packed: PackedTextures, timestampQueryInsidePasses: bool)
      ensures Valid()
      ensures currentRenderParams == renderParams
      ensures currentPostProcessingParams == PostProcessingParameters([])
      ensures frameCount == 0 && accumulatedSampleCount == 0
      ensures drawDurationsNs == [] && renderPassDurationsNs == []
      ensures textureDescriptors == packed.descriptors && textureData == packed.data
      ensures this.timestampQueryInsidePasses == timestampQueryInsidePasses
    {
      currentRenderParams := renderParams;
      currentPostProcessingParams := PostProcessingParameters([]);
      frameCount := 0;
      accumulatedSampleCount := 0;
      drawDurationsNs := [];
      renderPassDurationsNs := [];
      this.timestampQueryInsidePasses := timestampQueryInsidePasses;
      textureDescriptors := packed.descriptors;
      textureData := packed.data;
    }

    /** `setRenderParameters`: parameters that compare unequal to the
        current ones replace them and restart the accumulation; equal ones
        change nothing. */
    method SetRenderParameters(renderParams: RenderParameters)
      requires Valid()
      modifies this
      ensures Valid()
      ensures !ParamsEqual(old(currentRenderParams), renderParams) ==>
                currentRenderParams == renderParams && accumulatedSampleCount == 0
      ensures ParamsEqual(old(currentRenderParams), renderParams) ==>
                currentRenderParams == old(currentRenderParams) && accumulatedSampleCount == old(accumulatedSampleCount)
      ensures frameCount == old(frameCount) && drawDurationsNs == old(drawDurationsNs) && renderPassDurationsNs == old(renderPassDurationsNs)
      ensures currentPostProcessingParams == old(currentPostProcessingParams)
      ensures textureDescriptors == old(textureDescriptors) && textureData == old(textureData)
    {
      if !ParamsEqual(currentRenderParams, renderParams) {
        currentRenderParams := renderParams;
        accumulatedSampleCount := 0;
      }
    }

    /** `setPostProcessingParameters`: overwrites the post-processing
        parameters and keeps the accumulation. */
    method SetPostProcessingParameters(postProcessingParameters: PostProcessingParameters)
      requires Valid()
      modifies this
      ensures Valid()
      ensures currentPostProcessingParams == postProcessingParameters
      ensures currentRenderParams == old(currentRenderParams)
      ensures accumulatedSampleCount == old(accumulatedSampleCount) && frameCount == old(frameCount)
      ensures drawDurationsNs == old(drawDurationsNs) && renderPassDurationsNs == old(renderPassDurationsNs)
      ensures textureDescriptors == old(textureDescriptors) && textureData == old(textureData)
    {
      currentPostProcessingParams := postProcessingParameters;
    }

    /** `render`: without a swap-chain view it returns before touching
        the counters; otherwise the uploaded layout carries the counters
        before the update, then the frame count advances and one more
        sample is accumulated, up to the budget. */
    method Render(nextTextureAvailable: bool) returns (layout: Option<RenderParamsLayout>)
      requires Valid()
      modifies this
      ensures Valid()
      ensures !nextTextureAvailable ==>
                layout.None? && frameCount == old(frameCount) && accumulatedSampleCount == old(accumulatedSampleCount)
      ensures nextTextureAvailable ==>
                && layout == Some(RenderParamsLayout(currentRenderParams.framebufferSize, old(frameCount),
                                                     currentRenderParams, old(accumulatedSampleCount)))
                && frameCount == NextFrameCount(old(frameCount))
                && accumulatedSampleCount == NextAccumulated(old(accumulatedSampleCount), currentRenderParams.samplingParams.numSamplesPerPixel)
      ensures currentRenderParams == old(currentRenderParams)
      ensures currentPostProcessingParams == old(currentPostProcessingParams)
      ensures drawDurationsNs == old(drawDurationsNs) && renderPassDurationsNs == old(renderPassDurationsNs)
      ensures textureDescriptors == old(textureDescriptors) && textureData == old(textureData)
    {
      if !nextTextureAvailable {
        return None;
      }
      var numSamplesPerPixel := currentRenderParams.samplingParams.numSamplesPerPixel;
      layout := Some(RenderParamsLayout(currentRenderParams.framebufferSize, frameCount, currentRenderParams, accumulatedSampleCount));
      frameCount := (frameCount + 1) % U32_LIMIT;
      var incremented := (accumulatedSampleCount + 1) % U32_LIMIT;
      accumulatedSampleCount := if numSamplesPerPixel < incremented then numSamplesPerPixel else incremented;
      AccumulationSaturates(old(accumulatedSampleCount), numSamplesPerPixel);
    }

    /** The timestamp-readback callback: on a successful map, the render
        pass's duration enters its window, and so does the draw's when
        draw timestamps are recorded; on a failed map nothing changes. */
    method OnTimestampsMapped(mapSucceeded: bool, renderPassBegin: U64, renderPassEnd: U64,
                              drawBegin: U64, drawEnd: U64)
      requires Valid()
      modifies this
      ensures Valid()
      ensures renderPassDurationsNs ==
                if mapSucceeded then Pushed(old(renderPassDurationsNs), Delta(renderPassBegin, renderPassEnd))
                else old(renderPassDurationsNs)
      ensures drawDurationsNs ==
                if mapSucceeded && timestampQueryInsidePasses then Pushed(old(drawDurationsNs), Delta(drawBegin, drawEnd))
                else old(drawDurationsNs)
      ensures currentRenderParams == old(currentRenderParams)
      ensures currentPostProcessingParams == old(currentPostProcessingParams)
      ensures accumulatedSampleCount == old(accumulatedSampleCount) && frameCount == old(frameCount)
      ensures textureDescriptors == old(textureDescriptors) && textureData == old(textureData)
    {
      if mapSucceeded {
        var renderPassDelta := (renderPassEnd - renderPassBegin) % U64_LIMIT;
        renderPassDurationsNs := renderPassDurationsNs + [renderPassDelta];
        if |renderPassDurationsNs| > WINDOW_SIZE {
          renderPassDurationsNs := renderPassDurationsNs[1..];
        }
        if timestampQueryInsidePasses {
          var drawDelta := (drawEnd - drawBegin) % U64_LIMIT;
          drawDurationsNs := drawDurationsNs + [drawDelta];
          if |drawDurationsNs| > WINDOW_SIZE {
            drawDurationsNs := drawDurationsNs[1..];
          }
        }
      }
    }

    /** `averageDrawDurationMs`: zero for an empty window, otherwise the
        mean of all the window's entries. */
    function AverageDrawDurationMs(): (a: Average)
      reads this
      ensures a.NoDurations? <==> |drawDurationsNs| == 0
      ensures a.Mean? ==> a.count == |drawDurationsNs|
    {
      AverageOf(drawDurationsNs)
    }

    /** `averageRenderpassDurationMs`: zero for an empty window, otherwise
        the mean of all the window's entries. */
    function AverageRenderpassDurationMs(): (a: Average)
      reads this
      ensures a.NoDurations? <==> |renderPassDurationsNs| == 0
      ensures a.Mean? ==> a.count == |renderPassDurationsNs|
    {
      AverageOf(renderPassDurationsNs)
    }
  }

  /** `wgpuRequiredLimits.limits.maxStorageBufferBindingSize`: 256 MiB. */
  const MAX_STORAGE_BUFFER_BINDING_SIZE: nat := 0x1000_0000

  /** The constructor: packs the scene's textures and throws when they
      exceed the renderer's 256 MiB storage-binding limit. */
  method Create(renderParams: RenderParameters, baseColorTextures: seq<Texture>, timestampQueryInsidePasses: bool)
    returns (r: Result<Renderer>)
    ensures r.Success? <==> 4 * PixelCount(baseColorTextures) <= MAX_STORAGE_BUFFER_BINDING_SIZE
    ensures r.Failure? ==> r.error == SizeError(4 * PixelCount(baseColorTextures), MAX_STORAGE_BUFFER_BINDING_SIZE)
    ensures r.Success? ==>
              && fresh(r.value) && r.value.Valid()
              && r.value.currentRenderParams == renderParams
              && r.value.frameCount == 0 && r.value.accumulatedSampleCount == 0
              && r.value.drawDurationsNs == [] && r.value.renderPassDurationsNs == []
              && r.value.textureData == Packed(baseColorTextures)
              && |r.value.textureDescriptors| == |baseColorTextures|
              && forall k :: 0 <= k < |baseColorTextures| ==>
                   r.value.textureDescriptors[k] == Descriptor(baseColorTextures, k)
  {
    var packed := PackSceneTextures(baseColorTextures, MAX_STORAGE_BUFFER_BINDING_SIZE);
    if packed.Failure? {
      return Failure(packed.error);
    }
    var renderer := new Renderer(renderParams, packed.value, timestampQueryInsidePasses);
    r := Success(renderer);
  }

  /** Under the 256 MiB limit no texture offset is truncated, and every
      descriptor locates its texture's pixels. */
  lemma RendererDescriptorsLocate(baseColorTextures: seq<Texture>, k: nat)
    requires 4 * PixelCount(baseColorTextures) <= MAX_STORAGE_BUFFER_BINDING_SIZE
    requires k < |baseColorTextures|
    ensures Descriptor(baseColorTextures, k).offset == PixelCount(baseColorTextures[..k])
    ensures Descriptor(baseColorTextures, k).offset + |baseColorTextures[k].pixels| <= |Packed(baseColorTextures)|
    ensures Packed(baseColorTextures)[Descriptor(baseColorTextures, k).offset..Descriptor(baseColorTextures, k).offset + |baseColorTextures[k].pixels|]
            == baseColorTextures[k].pixels
  {
    PackingWithinLimit(baseColorTextures, MAX_STORAGE_BUFFER_BINDING_SIZE, k);
  }
}
