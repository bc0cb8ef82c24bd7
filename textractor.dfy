/** The texture extractor (src/textractor/main.cpp): writes every base
    colour texture of a model to its own PNG file, converting each BGRA
    pixel word to RGBA. Loading the glTF file and encoding the PNG files are
    not modelled: the model's textures are a parameter and each file is the
    record handed to the PNG writer. */
module Textractor {
  import opened GltfModels
  import opened Decimals

  /** Byte `k` (0 = least significant) of a word. */
  function ByteOf(w: bv32, k: nat): bv32
    requires k < 4
  {
    if k == 0 then w & 0xff
    else if k == 1 then (w >> 8) & 0xff
    else if k == 2 then (w >> 16) & 0xff
    else (w >> 24) & 0xff
  }

  /** The swizzle lambda: with b, g, r, a bytes 0 to 3 of the BGRA word,
      the result is `r | g << 8 | b << 16 | a << 24`. */
  function Swizzle(bgra: bv32): (rgba: bv32)
    ensures ByteOf(rgba, 0) == ByteOf(bgra, 2) && ByteOf(rgba, 2) == ByteOf(bgra, 0)
    ensures ByteOf(rgba, 1) == ByteOf(bgra, 1) && ByteOf(rgba, 3) == ByteOf(bgra, 3)
  {
    var b := bgra & 0xff;
    var g := (bgra >> 8) & 0xff;
    var r := (bgra >> 16) & 0xff;
    var a := (bgra >> 24) & 0xff;
    r | (g << 8) | (b << 16) | (a << 24)
  }

  /** Two words with the same four bytes are equal. */
  lemma BytesDetermineWord(u: bv32, w: bv32)
    requires forall k :: 0 <= k < 4 ==> ByteOf(u, k) == ByteOf(w, k)
    ensures u == w
  {
    assert ByteOf(u, 0) == ByteOf(w, 0);
    assert ByteOf(u, 1) == ByteOf(w, 1);
    assert ByteOf(u, 2) == ByteOf(w, 2);
    assert ByteOf(u, 3) == ByteOf(w, 3);
  }

  /** Swizzling twice gives back the original word. */
  lemma SwizzleInvolution(w: bv32)
    ensures Swizzle(Swizzle(w)) == w
  {
    var s := Swizzle(Swizzle(w));
    assert forall k :: 0 <= k < 4 ==> ByteOf(s, k) == ByteOf(w, k) by {
      forall k | 0 <= k < 4 ensures ByteOf(s, k) == ByteOf(w, k) {
        if k == 0 {} else if k == 1 {} else if k == 2 {} else {}
      }
    }
    BytesDetermineWord(s, w);
  }

  /** The arguments handed to the PNG writer for one texture. */
  datatype PngFile = PngFile(
    filename: string, width: nat, height: nat, numChannels: nat,
    pixels: seq<bv32>, strideBytes: nat)

  const USAGE: string := "Usage: textractor <input_gltf_file>\n"

  /** The file name of texture `i`. */
  function TextureFileName(i: nat): string {
    "base_color_texture_" + Decimal(i) + ".png"
  }

  /** Different textures go to different files. */
  lemma FileNamesDistinct(i: nat, j: nat)
    requires i != j
    ensures TextureFileName(i) != TextureFileName(j)
  {
    if TextureFileName(i) == TextureFileName(j) {
      var prefix := "base_color_texture_";
      var di, dj := Decimal(i), Decimal(j);
      assert |di| == |dj|;
      assert di == TextureFileName(i)[|prefix|..|prefix| + |di|];
      assert dj == TextureFileName(j)[|prefix|..|prefix| + |dj|];
      DecimalInjective(i, j);
    }
  }

  /** The `std::transform` over a texture's pixels: one RGBA word per BGRA
      word, in the same order. */
  method SwizzlePixels(pixelsBgra: seq<bv32>) returns (pixelsRgba: seq<bv32>)
    ensures |pixelsRgba| == |pixelsBgra|
    ensures forall i :: 0 <= i < |pixelsBgra| ==> pixelsRgba[i] == Swizzle(pixelsBgra[i])
  {
    pixelsRgba := [];
    for i := 0 to |pixelsBgra|
      invariant |pixelsRgba| == i
      invariant forall k :: 0 <= k < i ==> pixelsRgba[k] == Swizzle(pixelsBgra[k])
    {
      pixelsRgba := pixelsRgba + [Swizzle(pixelsBgra[i])];
    }
  }

  /** `main`: with a wrong argument count it prints the usage and returns
      0; otherwise texture `i` of the model becomes file
      `base_color_texture_{i}.png`, four channels, a row stride of
      `width * 4` bytes, holding the texture's pixels swizzled to RGBA. */
  method Run(argc: nat, textures: seq<Texture>) returns (exitCode: int, output: string, files: seq<PngFile>)
    ensures exitCode == 0
    ensures argc != 2 ==> output == USAGE && files == []
    ensures argc == 2 ==> output == [] && |files| == |textures|
    ensures argc == 2 ==> forall i :: 0 <= i < |textures| ==>
              var tex, file := textures[i], files[i];
              && file.filename == TextureFileName(i)
              && file.width == tex.dimensions.width && file.height == tex.dimensions.height
              && file.numChannels == 4 && file.strideBytes == 4 * tex.dimensions.width
              && |file.pixels| == |tex.pixels|
              && forall k :: 0 <= k < |tex.pixels| ==> Swizzle(file.pixels[k]) == tex.pixels[k]
  {
    files := [];
    if argc != 2 {
      output := USAGE;
      return 0, output, files;
    }
    output := [];
    for textureIdx := 0 to |textures|
      invariant |files| == textureIdx
      invariant forall i :: 0 <= i < textureIdx ==>
                  var tex, file := textures[i], files[i];
                  && file.filename == TextureFileName(i)
                  && file.width == tex.dimensions.width && file.height == tex.dimensions.height
                  && file.numChannels == 4 && file.strideBytes == 4 * tex.dimensions.width
                  && |file.pixels| == |tex.pixels|
                  && forall k :: 0 <= k < |tex.pixels| ==> Swizzle(file.pixels[k]) == tex.pixels[k]
    {
      var texture := textures[textureIdx];
      var dimensions := texture.dimensions;
      var filename := TextureFileName(textureIdx);
      var numChannels := 4;
      var strideBytes := dimensions.width * numChannels;
      var pixelsRgba := SwizzlePixels(texture.pixels);
      forall k | 0 <= k < |texture.pixels| ensures Swizzle(pixelsRgba[k]) == texture.pixels[k] {
        SwizzleInvolution(texture.pixels[k]);
      }
      files := files + [PngFile(filename, dimensions.width, dimensions.height, numChannels, pixelsRgba, strideBytes)];
    }
    exitCode := 0;
  }
}
