/** `ReferencePathTracer` (src/pt/reference_path_tracer.cpp): the
    progressive path tracer's bookkeeping once the GPU calls are stripped
    out. It keeps the current render parameters, a frame counter, the
    number of samples accumulated so far (reset whenever the parameters
    change, saturating at the sample budget) and a window of the last 30
    render-pass durations; its constructor packs the scene's textures. */
module ReferencePathTracers {
  import opened Geometry
  import opened Results
  import opened GltfModels
  import opened RenderSettings
  import opened DurationWindows
  import opened TexturePacking

  class ReferencePathTracer {
    var currentRenderParams: RenderParameters
    var currentPostProcessingParams: PostProcessingParameters
    var frameCount: U32
    var accumulatedSampleCount: U32
    var renderPassDurationsNs: seq<U64>
    /** The contents of the texture descriptor and texture buffers. */
    var textureDescriptors: seq<TextureDescriptor>
    var textureData: seq<bv32>

    /** The accumulated count stays within the sample budget, and the
        duration window within 30 entries. */
    ghost predicate Valid()
      reads this
    {
      && accumulatedSampleCount <= currentRenderParams.samplingParams.numSamplesPerPixel
      && |renderPassDurationsNs| <= WINDOW_SIZE
    }

    /** The counters and the window of a new tracer, holding the packed
        textures. */
    constructor (renderParams: RenderParameters, packed: PackedTextures)
      ensures Valid()
      ensures currentRenderParams == renderParams
      ensures currentPostProcessingParams == PostProcessingParameters([])
      ensures frameCount == 0 && accumulatedSampleCount == 0 && renderPassDurationsNs == []
      ensures textureDescriptors == packed.descriptors && textureData == packed.data
    {
      currentRenderParams := renderParams;
      currentPostProcessingParams := PostProcessingParameters([]);
      frameCount := 0;
      accumulatedSampleCount := 0;
      renderPassDurationsNs := [];
      textureDescriptors := packed.descriptors;
      textureData := packed.data;
    }

    /** `setRenderParameters`: parameters that compare unequal to the
        current ones replace them and restart the accumulation; equal ones
        change nothing. */
    method SetRenderParameters(renderParams: RenderParameters)
      requires Valid()
      modifies this
      ensures Valid()
      ensures !ParamsEqual(old(currentRenderParams), renderParams) ==>
                currentRenderParams == renderParams && accumulatedSampleCount == 0
      ensures ParamsEqual(old(currentRenderParams), renderParams) ==>
                currentRenderParams == old(currentRenderParams) && accumulatedSampleCount == old(accumulatedSampleCount)
      ensures frameCount == old(frameCount) && renderPassDurationsNs == old(renderPassDurationsNs)
      ensures currentPostProcessingParams == old(currentPostProcessingParams)
      ensures textureDescriptors == old(textureDescriptors) && textureData == old(textureData)
    {
      if !ParamsEqual(currentRenderParams, renderParams) {
        currentRenderParams := renderParams;
        accumulatedSampleCount := 0;
      }
    }

    /** `setPostProcessingParameters`: overwrites the post-processing
        parameters and keeps the accumulation. */
    method SetPostProcessingParameters(postProcessingParameters: PostProcessingParameters)
      requires Valid()
      modifies this
      ensures Valid()
      ensures currentPostProcessingParams == postProcessingParameters
      ensures currentRenderParams == old(currentRenderParams)
      ensures accumulatedSampleCount == old(accumulatedSampleCount) && frameCount == old(frameCount)
      ensures renderPassDurationsNs == old(renderPassDurationsNs)
      ensures textureDescriptors == old(textureDescriptors) && textureData == old(textureData)
    {
      currentPostProcessingParams := postProcessingParameters;
    }

    /** The counter update of `render`: the uploaded layout carries the
        counters before the update; then the frame count advances and one
        more sample is accumulated, up to the budget. */
    method Render() returns (layout: RenderParamsLayout)
      requires Valid()
      modifies this
      ensures Valid()
      ensures layout == RenderParamsLayout(currentRenderParams.framebufferSize, old(frameCount),
                                           currentRenderParams, old(accumulatedSampleCount))
      ensures frameCount == NextFrameCount(old(frameCount))
      ensures accumulatedSampleCount == NextAccumulated(old(accumulatedSampleCount), currentRenderParams.samplingParams.numSamplesPerPixel)
      ensures currentRenderParams == old(currentRenderParams)
      ensures currentPostProcessingParams == old(currentPostProcessingParams)
      ensures renderPassDurationsNs == old(renderPassDurationsNs)
      ensures textureDescriptors == old(textureDescriptors) && textureData == old(textureData)
    {
      var numSamplesPerPixel := currentRenderParams.samplingParams.numSamplesPerPixel;
      layout := RenderParamsLayout(currentRenderParams.framebufferSize, frameCount, currentRenderParams, accumulatedSampleCount);
      frameCount := (frameCount + 1) % U32_LIMIT;
      var incremented := (accumulatedSampleCount + 1) % U32_LIMIT;
      accumulatedSampleCount := if numSamplesPerPixel < incremented then numSamplesPerPixel else incremented;
      AccumulationSaturates(old(accumulatedSampleCount), numSamplesPerPixel);
    }

    /** The timestamp-readback callback: on a successful map, the render
        pass's duration enters the window; on a failed one nothing
        changes. */
    method OnTimestampsMapped(mapSucceeded: bool, renderPassBegin: U64, renderPassEnd: U64)
      requires Valid()
      modifies this
      ensures Valid()
      ensures renderPassDurationsNs ==
                if mapSucceeded then Pushed(old(renderPassDurationsNs), Delta(renderPassBegin, renderPassEnd))
                else old(renderPassDurationsNs)
      ensures currentRenderParams == old(currentRenderParams)
      ensures currentPostProcessingParams == old(currentPostProcessingParams)
      ensures accumulatedSampleCount == old(accumulatedSampleCount) && frameCount == old(frameCount)
      ensures textureDescriptors == old(textureDescriptors) && textureData == old(textureData)
    {
      if mapSucceeded {
        var renderPassDelta := (renderPassEnd - renderPassBegin) % U64_LIMIT;
        renderPassDurationsNs := renderPassDurationsNs + [renderPassDelta];
        if |renderPassDurationsNs| > WINDOW_SIZE {
          renderPassDurationsNs := renderPassDurationsNs[1..];
        }
      }
    }

    /** `averageRenderpassDurationMs`: zero for an empty window, otherwise
        the mean of all the window's entries. */
    function AverageRenderpassDurationMs(): (a: Average)
      reads this
      ensures a.NoDurations? <==> |renderPassDurationsNs| == 0
      ensures a.Mean? ==> a.count == |renderPassDurationsNs|
    {
      AverageOf(renderPassDurationsNs)
    }
  }

  /** The constructor: packs the scene's textures and throws when they
      exceed `maxStorageBufferBindingSize`, whose value comes from a limits
      object that is not part of this model. */
  method Create(renderParams: RenderParameters, baseColorTextures: seq<Texture>, maxStorageBufferBindingSize: nat)
    returns (r: Result<ReferencePathTracer>)
    ensures r.Success? <==> 4 * PixelCount(baseColorTextures) <= maxStorageBufferBindingSize
    ensures r.Failure? ==> r.error == SizeError(4 * PixelCount(baseColorTextures), maxStorageBufferBindingSize)
    ensures r.Success? ==>
              && fresh(r.value) && r.value.Valid()
              && r.value.currentRenderParams == renderParams
              && r.value.frameCount == 0 && r.value.accumulatedSampleCount == 0
              && r.value.renderPassDurationsNs == []
              && r.value.textureData == Packed(baseColorTextures)
              && |r.value.textureDescriptors| == |baseColorTextures|
              && forall k :: 0 <= k < |baseColorTextures| ==>
                   r.value.textureDescriptors[k] == Descriptor(baseColorTextures, k)
  {
    var packed := PackSceneTextures(baseColorTextures, maxStorageBufferBindingSize);
    if packed.Failure? {
      return Failure(packed.error);
    }
    var tracer := new ReferencePathTracer(renderParams, packed.value);
    r := Success(tracer);
  }
}
