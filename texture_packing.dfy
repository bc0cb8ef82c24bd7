/** The texture packing that the three renderers (src/pt/reference_path_tracer.cpp,
    src/pt/renderer.cpp, src/pt/deferred_renderer.cpp) do identically in
    their constructors: the scene's base-colour textures, in scene order,
    are copied one after another into one pixel array, and each gets a
    descriptor holding its dimensions and the index of its first pixel.
    The array then goes into one storage buffer, which must not exceed the
    device's `maxStorageBufferBindingSize`. */
module TexturePacking {
  import opened Geometry
  import opened Results
  import opened GltfModels
  import opened Decimals

  /** `TextureDescriptor { width, height, offset }`, as the shaders read
      it. */
  datatype TextureDescriptor = TextureDescriptor(width: U32, height: U32, offset: U32)

  /** The descriptor array and the pixel array of a scene. */
  datatype PackedTextures = PackedTextures(descriptors: seq<TextureDescriptor>, data: seq<bv32>)

  /** The pixels of all textures, texture after texture. */
  function Packed(textures: seq<Texture>): seq<bv32> {
    if |textures| == 0 then [] else Packed(textures[..|textures| - 1]) + textures[|textures| - 1].pixels
  }

  /** The total number of pixels of the textures. */
  function PixelCount(textures: seq<Texture>): nat {
    if |textures| == 0 then 0 else PixelCount(textures[..|textures| - 1]) + |textures[|textures| - 1].pixels|
  }

  /** The descriptor of texture `k`: its dimensions and the number of
      pixels packed before it, cast to `std::uint32_t`. */
  function Descriptor(textures: seq<Texture>, k: nat): TextureDescriptor
    requires k < |textures|
  {
    TextureDescriptor(textures[k].dimensions.width, textures[k].dimensions.height,
                      PixelCount(textures[..k]) % U32_LIMIT)
  }

  /** The packed array holds exactly the textures' pixels. */
  lemma {:induction false} PackedLength(textures: seq<Texture>)
    ensures |Packed(textures)| == PixelCount(textures)
  {
    if |textures| > 0 {
      PackedLength(textures[..|textures| - 1]);
    }
  }

  /** Packing the textures before `j` gives a prefix of the whole array. */
  lemma {:induction false} PackedPrefix(textures: seq<Texture>, j: nat)
    requires j <= |textures|
    ensures |Packed(textures[..j])| <= |Packed(textures)|
    ensures Packed(textures)[..|Packed(textures[..j])|] == Packed(textures[..j])
  {
    if j < |textures| {
      var n := |textures| - 1;
      var front := textures[..n];
      assert front[..j] == textures[..j];
      PackedPrefix(front, j);
      assert Packed(textures) == Packed(front) + textures[n].pixels;
    } else {
      assert textures[..j] == textures;
    }
  }

  /** One more texture packed. */
  lemma PackedStep(textures: seq<Texture>, i: nat)
    requires i < |textures|
    ensures Packed(textures[..i + 1]) == Packed(textures[..i]) + textures[i].pixels
    ensures PixelCount(textures[..i + 1]) == PixelCount(textures[..i]) + |textures[i].pixels|
  {
    var prefix := textures[..i + 1];
    assert prefix[..i] == textures[..i];
  }

  /** When the packed pixel count fits 32 bits, no offset is truncated, and
      descriptor `k` locates texture `k`: its pixels are the
      `|pixels|` entries of the packed array starting at its offset. */
  lemma DescriptorLocatesTexture(textures: seq<Texture>, k: nat)
    requires k < |textures|
    requires PixelCount(textures) < U32_LIMIT
    ensures Descriptor(textures, k).offset == PixelCount(textures[..k])
    ensures Descriptor(textures, k).offset + |textures[k].pixels| <= |Packed(textures)|
    ensures Packed(textures)[Descriptor(textures, k).offset..Descriptor(textures, k).offset + |textures[k].pixels|]
            == textures[k].pixels
  {
    PackedStep(textures, k);
    PackedPrefix(textures, k + 1);
    PackedLength(textures);
    PackedLength(textures[..k]);
    var before := Packed(textures[..k]);
    var upTo := Packed(textures[..k + 1]);
    var all := Packed(textures);
    assert all[..|upTo|] == upTo;
    assert upTo[|before|..] == textures[k].pixels;
  }

  /** The constructor's loop: one descriptor per texture, in scene order,
      and the pixel array is all the textures' pixels. */
  method PackTextures(textures: seq<Texture>) returns (descriptors: seq<TextureDescriptor>, data: seq<bv32>)
    ensures data == Packed(textures)
    ensures |descriptors| == |textures|
    ensures forall k :: 0 <= k < |textures| ==> descriptors[k] == Descriptor(textures, k)
  {
    descriptors, data := [], [];
    for i := 0 to |textures|
      invariant data == Packed(textures[..i])
      invariant |data| == PixelCount(textures[..i])
      invariant |descriptors| == i
      invariant forall k :: 0 <= k < i ==> descriptors[k] == Descriptor(textures, k)
    {
      var texture := textures[i];
      var width, height := texture.dimensions.width, texture.dimensions.height;
      var offset := |data| % U32_LIMIT;
      PackedStep(textures, i);
      data := data + texture.pixels;
      descriptors := descriptors + [TextureDescriptor(width, height, offset)];
    }
    assert textures[..|textures|] == textures;
  }

  /** The error thrown when the pixel array is too large for one storage
      buffer binding. */
  function SizeError(numBytes: nat, maxStorageBufferBindingSize: nat): string {
    "Texture buffer size (" + Decimal(numBytes) + ") exceeds maxStorageBufferBindingSize ("
      + Decimal(maxStorageBufferBindingSize) + ")."
  }

  /** The constructor's texture block: packs the textures, then throws when
      the pixel array's `4 * count` bytes exceed the binding limit. */
  method PackSceneTextures(textures: seq<Texture>, maxStorageBufferBindingSize: nat)
    returns (r: Result<PackedTextures>)
    ensures r.Success? <==> 4 * PixelCount(textures) <= maxStorageBufferBindingSize
    ensures r.Success? ==> r.value.data == Packed(textures) && |r.value.descriptors| == |textures|
    ensures r.Success? ==> forall k :: 0 <= k < |textures| ==> r.value.descriptors[k] == Descriptor(textures, k)
    ensures r.Failure? ==> r.error == SizeError(4 * PixelCount(textures), maxStorageBufferBindingSize)
  {
    var descriptors, data := PackTextures(textures);
    PackedLength(textures);
    var textureDataNumBytes := |data| * 4;
    if textureDataNumBytes > maxStorageBufferBindingSize {
      return Failure(SizeError(textureDataNumBytes, maxStorageBufferBindingSize));
    }
    r := Success(PackedTextures(descriptors, data));
  }

  /** Under any limit below 2^34 bytes, a packing that passes the size
      check has untruncated offsets, and every descriptor locates its
      texture in the packed array. */
  lemma PackingWithinLimit(textures: seq<Texture>, maxStorageBufferBindingSize: nat, k: nat)
    requires maxStorageBufferBindingSize < 4 * U32_LIMIT
    requires 4 * PixelCount(textures) <= maxStorageBufferBindingSize
    requires k < |textures|
    ensures Descriptor(textures, k).offset == PixelCount(textures[..k])
    ensures Descriptor(textures, k).offset + |textures[k].pixels| <= |Packed(textures)|
    ensures Packed(textures)[Descriptor(textures, k).offset..Descriptor(textures, k).offset + |textures[k].pixels|]
            == textures[k].pixels
  {
    DescriptorLocatesTexture(textures, k);
  }
}
