/** The model loader's integer and sequence logic (src/common/gltf_model.cpp):
    the 32-bit FNV-1a hash, the `BaseColorTextureBuilder` that gives every
    mesh a texture and shares textures between meshes, and the `GltfModel`
    constructor's assembly of meshes, its index-count check and its sort by
    texture index. Parsing the glTF file, decoding images and transforming
    vertices are outside the model: the constructor receives each
    primitive's attributes as already read, and images and one-pixel colour
    textures come from a `TextureSource`. */
module GltfModels {
  import opened Results
  import opened Geometry
  import opened ByteCodecs

  /** `Texture::Dimensions`. */
  datatype Dimensions = Dimensions(width: U32, height: U32)

  /** `Texture`: 32-bit pixels and dimensions. */
  datatype Texture = Texture(pixels: seq<bv32>, dimensions: Dimensions)

  /** `GltfMesh`: one primitive's vertex attributes, its index buffer and the
      index of its base colour texture. */
  datatype GltfMesh = GltfMesh(
    positions: seq<Vec3>,
    normals: seq<Vec3>,
    texCoords: seq<Vec2>,
    indices: seq<U32>,
    baseColorTextureIndex: U64)

  /** `GltfModel`; the two-argument constructor is the datatype constructor. */
  datatype GltfModel = GltfModel(meshes: seq<GltfMesh>, baseColorTextures: seq<Texture>)

  // ---------------------------------------------------------------- FNV-1a

  const FNV_PRIME: bv32 := 16777619
  const FNV_OFFSET_BASIS: bv32 := 2166136261

  /** One round of FNV-1a: xor in the byte, then multiply modulo 2^32. */
  function Fnv1aStep(hash: bv32, b: Byte): bv32 {
    (hash ^ (b as bv32)) * FNV_PRIME
  }

  /** FNV-1a continued from `hash` over `data`, first byte first. */
  function Fnv1aFold(hash: bv32, data: seq<Byte>): bv32
    decreases |data|
  {
    if |data| == 0 then hash else Fnv1aFold(Fnv1aStep(hash, data[0]), data[1..])
  }

  /** The 32-bit FNV-1a hash of a byte string, as the FNV definition gives
      it. */
  function Fnv1aHash(data: seq<Byte>): bv32 {
    Fnv1aFold(FNV_OFFSET_BASIS, data)
  }

  /** Appending a byte costs one more round: the hash can be computed in a
      single pass from the front. */
  lemma {:induction false} Fnv1aFoldAppend(hash: bv32, data: seq<Byte>, b: Byte)
    ensures Fnv1aFold(hash, data + [b]) == Fnv1aStep(Fnv1aFold(hash, data), b)
    decreases |data|
  {
    if |data| > 0 {
      assert (data + [b])[1..] == data[1..] + [b];
      Fnv1aFoldAppend(Fnv1aStep(hash, data[0]), data[1..], b);
    }
  }

  /** `fnv1a(data, size)`. */
  method Fnv1a(data: seq<Byte>) returns (hash: bv32)
    ensures hash == Fnv1aHash(data)
    ensures |data| == 0 ==> hash == 2166136261
  {
    hash := FNV_OFFSET_BASIS;
    var i := 0;
    while i < |data|
      invariant 0 <= i <= |data|
      invariant hash == Fnv1aFold(FNV_OFFSET_BASIS, data[..i])
    {
      Fnv1aFoldAppend(FNV_OFFSET_BASIS, data[..i], data[i]);
      assert data[..i + 1] == data[..i] + [data[i]];
      hash := Fnv1aStep(hash, data[i]);
      i := i + 1;
    }
    assert data[..i] == data;
  }

  /** The bytes of a `float` array, in order. */
  function FloatArrayBytes(data: seq<Float>): (b: seq<Byte>)
    ensures |b| == 4 * |data|
  {
    if |data| == 0 then [] else WordBytes(data[0]) + FloatArrayBytes(data[1..])
  }

  /** `fnv1a(const float (&data)[N])`: the hash of the array's
      `N * sizeof(float)` bytes. */
  method Fnv1aFloats(data: seq<Float>) returns (hash: bv32)
    ensures hash == Fnv1aHash(FloatArrayBytes(data))
  {
    hash := Fnv1a(FloatArrayBytes(data));
  }

  // -------------------------------------------------- base colour textures

  /** `base_color_factor`: red, green, blue and alpha. */
  datatype ColorFactor = ColorFactor(r: Float, g: Float, b: Float, a: Float)

  function ColorFloats(c: ColorFactor): seq<Float> {
    [c.r, c.g, c.b, c.a]
  }

  /** The hash a colour factor is looked up by. */
  function ColorHash(c: ColorFactor): bv32 {
    Fnv1aHash(FloatArrayBytes(ColorFloats(c)))
  }

  /** A material's base colour: a texture that refers to one of the file's
      images, or a constant colour factor. */
  datatype BaseColor = ImageTexture(imageIndex: nat) | Color(factor: ColorFactor)

  /** Where new textures come from: the decoded glTF image
      (`textureFromGltfImage`) and the one-pixel texture of a colour
      (`Texture::fromPixel`). */
  datatype TextureSource = TextureSource(
    imageCount: nat,
    loadImage: nat -> Texture,
    fromPixel: ColorFactor -> Texture)

  datatype ImageLookup = ImageLookup(gltfImageIndex: nat, textureIndex: nat)

  datatype ColorLookup = ColorLookup(hash: bv32, textureIndex: nat)

  /** The builder's four vectors. */
  datatype BuilderState = BuilderState(
    textures: seq<Texture>,
    imageLookups: seq<ImageLookup>,
    colorLookups: seq<ColorLookup>,
    meshTextureIndices: seq<nat>)

  function EmptyBuilder(): BuilderState {
    BuilderState([], [], [], [])
  }

  /** `std::find_if` over the image lookups: the first position recording
      `imageIndex`, or the end. */
  function FindImage(lookups: seq<ImageLookup>, imageIndex: nat): (k: nat)
    ensures k <= |lookups|
    ensures k < |lookups| ==> lookups[k].gltfImageIndex == imageIndex
    ensures forall j :: 0 <= j < k ==> lookups[j].gltfImageIndex != imageIndex
  {
    if |lookups| == 0 then 0
    else if lookups[0].gltfImageIndex == imageIndex then 0
    else 1 + FindImage(lookups[1..], imageIndex)
  }

  /** `std::find_if` over the colour lookups: the first position recording
      `hash`, or the end. */
  function FindColor(lookups: seq<ColorLookup>, hash: bv32): (k: nat)
    ensures k <= |lookups|
    ensures k < |lookups| ==> lookups[k].hash == hash
    ensures forall j :: 0 <= j < k ==> lookups[j].hash != hash
  {
    if |lookups| == 0 then 0
    else if lookups[0].hash == hash then 0
    else 1 + FindColor(lookups[1..], hash)
  }

  /** `addBaseColor` for a material with a base colour texture: a new image
      gets the next texture index and its texture is appended; a known one
      gets the index recorded for it. */
  function AddImage(s: BuilderState, src: TextureSource, i: nat): (r: (BuilderState, nat))
    ensures r.0.meshTextureIndices == s.meshTextureIndices + [r.1]
    ensures |r.0.textures| <= |s.textures| + 1
    ensures r.0.colorLookups == s.colorLookups
  {
    var k := FindImage(s.imageLookups, i);
    if k == |s.imageLookups| then
      var idx := |s.textures|;
      (BuilderState(s.textures + [src.loadImage(i)], s.imageLookups + [ImageLookup(i, idx)],
                    s.colorLookups, s.meshTextureIndices + [idx]), idx)
    else
      var idx := s.imageLookups[k].textureIndex;
      (s.(meshTextureIndices := s.meshTextureIndices + [idx]), idx)
  }

  /** `addBaseColor` for a material with only a colour factor: a new hash
      gets the next texture index and a one-pixel texture is appended; a
      known hash gets the index recorded for it. */
  function AddColor(s: BuilderState, src: TextureSource, hash: ColorFactor -> bv32, c: ColorFactor): (r: (BuilderState, nat))
    ensures r.0.meshTextureIndices == s.meshTextureIndices + [r.1]
    ensures |r.0.textures| <= |s.textures| + 1
    ensures r.0.imageLookups == s.imageLookups
  {
    var h := hash(c);
    var k := FindColor(s.colorLookups, h);
    if k == |s.colorLookups| then
      var idx := |s.textures|;
      (BuilderState(s.textures + [src.fromPixel(c)], s.imageLookups,
                    s.colorLookups + [ColorLookup(h, idx)], s.meshTextureIndices + [idx]), idx)
    else
      var idx := s.colorLookups[k].textureIndex;
      (s.(meshTextureIndices := s.meshTextureIndices + [idx]), idx)
  }

  /** The texture index `addBaseColor` gives a material, and the state it
      leaves; exactly one mesh texture index is appended per call. */
  function AddBaseColor(s: BuilderState, src: TextureSource, hash: ColorFactor -> bv32, m: BaseColor): (r: (BuilderState, nat))
    ensures r.0.meshTextureIndices == s.meshTextureIndices + [r.1]
    ensures |r.0.textures| <= |s.textures| + 1
  {
    match m
    case ImageTexture(i) => AddImage(s, src, i)
    case Color(c) => AddColor(s, src, hash, c)
  }

  /** Every recorded image texture is the texture decoded from that image. */
  ghost predicate ImageLookupsValid(s: BuilderState, src: TextureSource) {
    forall k :: 0 <= k < |s.imageLookups| ==>
      && s.imageLookups[k].textureIndex < |s.textures|
      && s.textures[s.imageLookups[k].textureIndex] == src.loadImage(s.imageLookups[k].gltfImageIndex)
  }

  /** The texture recorded for a colour hash is the one-pixel texture of a
      colour with that hash. */
  ghost predicate ColorLookupOk(s: BuilderState, src: TextureSource, hash: ColorFactor -> bv32, l: ColorLookup) {
    && l.textureIndex < |s.textures|
    && exists c :: hash(c) == l.hash && s.textures[l.textureIndex] == src.fromPixel(c)
  }

  ghost predicate ColorLookupsValid(s: BuilderState, src: TextureSource, hash: ColorFactor -> bv32) {
    forall k :: 0 <= k < |s.colorLookups| ==> ColorLookupOk(s, src, hash, s.colorLookups[k])
  }

  /** What the builder keeps true: every recorded texture index points at a
      texture, an image's recorded texture is that image, and a colour
      hash's recorded texture is the one-pixel texture of a colour with that
      hash. */
  ghost predicate BuilderValid(s: BuilderState, src: TextureSource, hash: ColorFactor -> bv32) {
    && ImageLookupsValid(s, src)
    && ColorLookupsValid(s, src, hash)
    && (forall k :: 0 <= k < |s.meshTextureIndices| ==> s.meshTextureIndices[k] < |s.textures|)
  }

  /** The texture a material is meant to get: its image, or for a colour
      the one-pixel texture of some colour with the same hash (colours are
      told apart by their hash alone). */
  ghost predicate GetsTexture(t: Texture, src: TextureSource, hash: ColorFactor -> bv32, m: BaseColor) {
    match m
    case ImageTexture(i) => t == src.loadImage(i)
    case Color(c) => exists c' :: hash(c') == hash(c) && t == src.fromPixel(c')
  }

  /** A known image adds no texture and returns the recorded index; a new
      one returns the old texture count and appends exactly one texture.
      Either way the builder stays valid and the index names the image. */
  lemma AddImageCorrect(s: BuilderState, src: TextureSource, hash: ColorFactor -> bv32, i: nat, s': BuilderState, idx: nat)
    requires BuilderValid(s, src, hash)
    requires (s', idx) == AddImage(s, src, i)
    ensures BuilderValid(s', src, hash)
    ensures idx < |s'.textures| && s'.textures[idx] == src.loadImage(i)
    ensures FindImage(s.imageLookups, i) < |s.imageLookups| ==> s'.textures == s.textures
    ensures FindImage(s.imageLookups, i) == |s.imageLookups| ==>
              idx == |s.textures| && s'.textures == s.textures + [src.loadImage(i)]
  {
    var k := FindImage(s.imageLookups, i);
    if k == |s.imageLookups| {
      assert forall j :: 0 <= j < |s.textures| ==> s'.textures[j] == s.textures[j];
      assert ColorLookupsValid(s', src, hash) by {
        forall j | 0 <= j < |s'.colorLookups|
          ensures ColorLookupOk(s', src, hash, s'.colorLookups[j])
        {
          var l := s.colorLookups[j];
          assert ColorLookupOk(s, src, hash, l);
          var c :| hash(c) == l.hash && s.textures[l.textureIndex] == src.fromPixel(c);
          assert s'.textures[l.textureIndex] == src.fromPixel(c);
        }
      }
    }
  }

  /** A known colour hash adds no texture and returns the recorded index; a
      new one returns the old texture count and appends exactly one
      one-pixel texture. Either way the builder stays valid and the index
      names the texture of a colour with the same hash. */
  lemma AddColorCorrect(s: BuilderState, src: TextureSource, hash: ColorFactor -> bv32, c: ColorFactor, s': BuilderState, idx: nat)
    requires BuilderValid(s, src, hash)
    requires (s', idx) == AddColor(s, src, hash, c)
    ensures BuilderValid(s', src, hash)
    ensures idx < |s'.textures| && GetsTexture(s'.textures[idx], src, hash, Color(c))
    ensures FindColor(s.colorLookups, hash(c)) < |s.colorLookups| ==> s'.textures == s.textures
    ensures FindColor(s.colorLookups, hash(c)) == |s.colorLookups| ==>
              idx == |s.textures| && s'.textures == s.textures + [src.fromPixel(c)]
  {
    var h := hash(c);
    var k := FindColor(s.colorLookups, h);
    if k == |s.colorLookups| {
      assert forall j :: 0 <= j < |s.textures| ==> s'.textures[j] == s.textures[j];
      assert ColorLookupsValid(s', src, hash) by {
        forall j | 0 <= j < |s'.colorLookups|
          ensures ColorLookupOk(s', src, hash, s'.colorLookups[j])
        {
          if j == k {
            assert s'.colorLookups[j] == ColorLookup(h, |s.textures|);
            assert s'.textures[|s.textures|] == src.fromPixel(c);
          } else {
            var l := s.colorLookups[j];
            assert s'.colorLookups[j] == l;
            assert ColorLookupOk(s, src, hash, l);
            var c' :| hash(c') == l.hash && s.textures[l.textureIndex] == src.fromPixel(c');
            assert s'.textures[l.textureIndex] == src.fromPixel(c');
          }
        }
      }
    } else {
      assert ColorLookupOk(s, src, hash, s.colorLookups[k]);
    }
  }

  /** `addBaseColor` keeps the builder valid, keeps every texture it had,
      and the returned index is in range and names the texture the
      material is meant to get. */
  lemma AddBaseColorCorrect(s: BuilderState, src: TextureSource, hash: ColorFactor -> bv32, m: BaseColor, s': BuilderState, idx: nat)
    requires BuilderValid(s, src, hash)
    requires (s', idx) == AddBaseColor(s, src, hash, m)
    ensures BuilderValid(s', src, hash)
    ensures idx < |s'.textures| && GetsTexture(s'.textures[idx], src, hash, m)
    ensures |s.textures| <= |s'.textures| && s'.textures[..|s.textures|] == s.textures
  {
    match m
    case ImageTexture(i) => AddImageCorrect(s, src, hash, i, s', idx);
    case Color(c) => AddColorCorrect(s, src, hash, c, s', idx);
  }

  /** The builder after `addBaseColor` for each material in turn. */
  function BuildTextures(src: TextureSource, hash: ColorFactor -> bv32, materials: seq<BaseColor>): (b: BuilderState)
    ensures |b.meshTextureIndices| == |materials|
    ensures |b.textures| <= |materials|
  {
    if |materials| == 0 then EmptyBuilder()
    else AddBaseColor(BuildTextures(src, hash, materials[..|materials| - 1]), src, hash, materials[|materials| - 1]).0
  }

  /** One texture index per material, in order, each in range and naming
      the texture that material is meant to get. */
  ghost predicate TexturesAssigned(s: BuilderState, src: TextureSource, hash: ColorFactor -> bv32, materials: seq<BaseColor>) {
    && |s.meshTextureIndices| == |materials|
    && forall k :: 0 <= k < |materials| ==>
         && s.meshTextureIndices[k] < |s.textures|
         && GetsTexture(s.textures[s.meshTextureIndices[k]], src, hash, materials[k])
  }

  lemma AssignedStep(s: BuilderState, src: TextureSource, hash: ColorFactor -> bv32, materials: seq<BaseColor>, m: BaseColor,
                     s': BuilderState, idx: nat)
    requires BuilderValid(s, src, hash) && TexturesAssigned(s, src, hash, materials)
    requires (s', idx) == AddBaseColor(s, src, hash, m)
    ensures BuilderValid(s', src, hash) && TexturesAssigned(s', src, hash, materials + [m])
  {
    AddBaseColorCorrect(s, src, hash, m, s', idx);
    var ms := materials + [m];
    forall k | 0 <= k < |ms|
      ensures s'.meshTextureIndices[k] < |s'.textures|
      ensures GetsTexture(s'.textures[s'.meshTextureIndices[k]], src, hash, ms[k])
    {
      if k < |materials| {
        var t := s.meshTextureIndices[k];
        assert s'.meshTextureIndices[k] == t;
        assert s'.textures[t] == s.textures[t] by {
          assert s'.textures[..|s.textures|][t] == s.textures[t];
        }
      }
    }
  }

  /** After all materials every mesh has a texture index in range, naming
      the texture its material is meant to get (the tests'
      `baseColorTextureIndex() < baseColorTextures().size()`). */
  lemma {:induction false} BuildTexturesCorrect(src: TextureSource, hash: ColorFactor -> bv32, materials: seq<BaseColor>)
    ensures BuilderValid(BuildTextures(src, hash, materials), src, hash)
    ensures TexturesAssigned(BuildTextures(src, hash, materials), src, hash, materials)
  {
    if |materials| > 0 {
      var n := |materials| - 1;
      BuildTexturesCorrect(src, hash, materials[..n]);
      var r := AddBaseColor(BuildTextures(src, hash, materials[..n]), src, hash, materials[n]);
      assert materials[..n] + [materials[n]] == materials;
      AssignedStep(BuildTextures(src, hash, materials[..n]), src, hash, materials[..n], materials[n], r.0, r.1);
    }
  }

  // ------------------------------------------------ texture sharing

  /** A lookup appended after the first match does not change it. */
  lemma {:induction false} FindImageAppend(lookups: seq<ImageLookup>, x: ImageLookup, i: nat)
    requires FindImage(lookups, i) < |lookups|
    ensures FindImage(lookups + [x], i) == FindImage(lookups, i)
  {
    if lookups[0].gltfImageIndex != i {
      assert (lookups + [x])[1..] == lookups[1..] + [x];
      FindImageAppend(lookups[1..], x, i);
    }
  }

  /** An image that is not recorded is found at the lookup appended for it. */
  lemma {:induction false} FindImageNew(lookups: seq<ImageLookup>, i: nat, t: nat)
    requires FindImage(lookups, i) == |lookups|
    ensures FindImage(lookups + [ImageLookup(i, t)], i) == |lookups|
  {
    if |lookups| > 0 {
      assert (lookups + [ImageLookup(i, t)])[1..] == lookups[1..] + [ImageLookup(i, t)];
      FindImageNew(lookups[1..], i, t);
    }
  }

  lemma {:induction false} FindColorAppend(lookups: seq<ColorLookup>, x: ColorLookup, h: bv32)
    requires FindColor(lookups, h) < |lookups|
    ensures FindColor(lookups + [x], h) == FindColor(lookups, h)
  {
    if lookups[0].hash != h {
      assert (lookups + [x])[1..] == lookups[1..] + [x];
      FindColorAppend(lookups[1..], x, h);
    }
  }

  lemma {:induction false} FindColorNew(lookups: seq<ColorLookup>, h: bv32, t: nat)
    requires FindColor(lookups, h) == |lookups|
    ensures FindColor(lookups + [ColorLookup(h, t)], h) == |lookups|
  {
    if |lookups| > 0 {
      assert (lookups + [ColorLookup(h, t)])[1..] == lookups[1..] + [ColorLookup(h, t)];
      FindColorNew(lookups[1..], h, t);
    }
  }

  /** Every material handled so far is recorded: its image, or its colour's
      hash, is found among the lookups with the texture index its mesh
      got. */
  ghost predicate Recorded(s: BuilderState, hash: ColorFactor -> bv32, materials: seq<BaseColor>) {
    && |s.meshTextureIndices| == |materials|
    && (forall k :: 0 <= k < |materials| && materials[k].ImageTexture? ==>
          && FindImage(s.imageLookups, materials[k].imageIndex) < |s.imageLookups|
          && s.imageLookups[FindImage(s.imageLookups, materials[k].imageIndex)].textureIndex == s.meshTextureIndices[k])
    && (forall k :: 0 <= k < |materials| && materials[k].Color? ==>
          && FindColor(s.colorLookups, hash(materials[k].factor)) < |s.colorLookups|
          && s.colorLookups[FindColor(s.colorLookups, hash(materials[k].factor))].textureIndex == s.meshTextureIndices[k])
  }

  lemma RecordedImage(s: BuilderState, src: TextureSource, hash: ColorFactor -> bv32, materials: seq<BaseColor>, i: nat)
    requires Recorded(s, hash, materials)
    ensures Recorded(AddImage(s, src, i).0, hash, materials + [ImageTexture(i)])
  {
    var (s', idx) := AddImage(s, src, i);
    var ms := materials + [ImageTexture(i)];
    var f := FindImage(s.imageLookups, i);
    if f == |s.imageLookups| {
      FindImageNew(s.imageLookups, i, idx);
      forall k | 0 <= k < |materials| && materials[k].ImageTexture?
        ensures FindImage(s'.imageLookups, materials[k].imageIndex) == FindImage(s.imageLookups, materials[k].imageIndex)
      {
        FindImageAppend(s.imageLookups, ImageLookup(i, idx), materials[k].imageIndex);
      }
    }
    assert forall k :: 0 <= k < |materials| ==> ms[k] == materials[k] && s'.meshTextureIndices[k] == s.meshTextureIndices[k];
  }

  lemma RecordedColor(s: BuilderState, src: TextureSource, hash: ColorFactor -> bv32, materials: seq<BaseColor>, c: ColorFactor)
    requires Recorded(s, hash, materials)
    ensures Recorded(AddColor(s, src, hash, c).0, hash, materials + [Color(c)])
  {
    var (s', idx) := AddColor(s, src, hash, c);
    var ms := materials + [Color(c)];
    var f := FindColor(s.colorLookups, hash(c));
    if f == |s.colorLookups| {
      FindColorNew(s.colorLookups, hash(c), idx);
      forall k | 0 <= k < |materials| && materials[k].Color?
        ensures FindColor(s'.colorLookups, hash(materials[k].factor)) == FindColor(s.colorLookups, hash(materials[k].factor))
      {
        FindColorAppend(s.colorLookups, ColorLookup(hash(c), idx), hash(materials[k].factor));
      }
    }
    assert forall k :: 0 <= k < |materials| ==> ms[k] == materials[k] && s'.meshTextureIndices[k] == s.meshTextureIndices[k];
  }

  /** The builder records every material it has handled. */
  lemma {:induction false} BuildTexturesRecorded(src: TextureSource, hash: ColorFactor -> bv32, materials: seq<BaseColor>)
    ensures Recorded(BuildTextures(src, hash, materials), hash, materials)
  {
    if |materials| > 0 {
      var n := |materials| - 1;
      BuildTexturesRecorded(src, hash, materials[..n]);
      assert materials[..n] + [materials[n]] == materials;
      match materials[n]
      case ImageTexture(i) => RecordedImage(BuildTextures(src, hash, materials[..n]), src, hash, materials[..n], i);
      case Color(c) => RecordedColor(BuildTextures(src, hash, materials[..n]), src, hash, materials[..n], c);
    }
  }

  /** Textures are shared: two meshes whose materials name the same image,
      or whose colour factors have the same hash, get the same texture
      index. */
  lemma SharedTextures(src: TextureSource, hash: ColorFactor -> bv32, materials: seq<BaseColor>, k1: nat, k2: nat)
    requires k1 < |materials| && k2 < |materials|
    requires || (materials[k1].ImageTexture? && materials[k2].ImageTexture?
                 && materials[k1].imageIndex == materials[k2].imageIndex)
             || (materials[k1].Color? && materials[k2].Color?
                 && hash(materials[k1].factor) == hash(materials[k2].factor))
    ensures BuildTextures(src, hash, materials).meshTextureIndices[k1] ==
            BuildTextures(src, hash, materials).meshTextureIndices[k2]
  {
    BuildTexturesRecorded(src, hash, materials);
  }

  class BaseColorTextureBuilder {
    const source: TextureSource
    /** The hash colour factors are looked up by: `ColorHash`, the FNV-1a
        hash of the four floats. */
    const colorHash: ColorFactor -> bv32
    /** `mTextures`. */
    var textures: seq<Texture>
    /** `mImageLookups`. */
    var imageLookups: seq<ImageLookup>
    /** `mBaseColorFactorLookups`. */
    var colorLookups: seq<ColorLookup>
    /** `mMeshTextureIndices`. */
    var meshTextureIndices: seq<nat>

    function State(): BuilderState
      reads this
    {
      BuilderState(textures, imageLookups, colorLookups, meshTextureIndices)
    }

    constructor (source: TextureSource)
      ensures this.source == source && colorHash == ColorHash
      ensures State() == EmptyBuilder()
    {
      this.source, colorHash := source, ColorHash;
      textures, imageLookups, colorLookups, meshTextureIndices := [], [], [], [];
    }

    /** `addBaseColor`: the image index must name one of the file's
        images. */
    method AddBaseColorOf(m: BaseColor) returns (textureIdx: nat)
      requires m.ImageTexture? ==> m.imageIndex < source.imageCount
      requires colorHash == ColorHash
      modifies this
      ensures (State(), textureIdx) == AddBaseColor(old(State()), source, colorHash, m)
    {
      match m {
        case ImageTexture(i) =>
          var k := FindImage(imageLookups, i);
          if k == |imageLookups| {
            textureIdx := |textures|;
            imageLookups := imageLookups + [ImageLookup(i, textureIdx)];
            textures := textures + [source.loadImage(i)];
          } else {
            textureIdx := imageLookups[k].textureIndex;
          }
        case Color(c) =>
          var hash := Fnv1aFloats(ColorFloats(c));
          var k := FindColor(colorLookups, hash);
          if k == |colorLookups| {
            textureIdx := |textures|;
            colorLookups := colorLookups + [ColorLookup(hash, textureIdx)];
            textures := textures + [source.fromPixel(c)];
          } else {
            textureIdx := colorLookups[k].textureIndex;
          }
      }
      meshTextureIndices := meshTextureIndices + [textureIdx];
    }

    /** `build()`: clears the lookups and hands over the mesh texture
        indices and the textures, leaving the moved-from vectors empty. */
    method Build() returns (indices: seq<nat>, built: seq<Texture>)
      modifies this
      ensures indices == old(meshTextureIndices) && built == old(textures)
      ensures State() == EmptyBuilder()
    {
      imageLookups, colorLookups := [], [];
      indices, built := meshTextureIndices, textures;
      meshTextureIndices, textures := [], [];
    }
  }

  // ------------------------------------------------------------ the sort

  /** Meshes in non-decreasing order of texture index. */
  predicate SortedByTexture(ms: seq<GltfMesh>) {
    forall i, j :: 0 <= i < j < |ms| ==> ms[i].baseColorTextureIndex <= ms[j].baseColorTextureIndex
  }

  /** One step of an insertion sort: `m` placed before the first mesh of
      the sorted `ms` whose texture index is not smaller. */
  function InsertByTexture(m: GltfMesh, ms: seq<GltfMesh>): (r: seq<GltfMesh>)
    requires SortedByTexture(ms)
    ensures |r| == |ms| + 1
    ensures SortedByTexture(r)
    ensures multiset(r) == multiset(ms) + multiset{m}
    ensures r[0] == m || (|ms| > 0 && r[0] == ms[0])
  {
    if |ms| == 0 then [m]
    else if m.baseColorTextureIndex <= ms[0].baseColorTextureIndex then
      SortedCons(m, ms);
      [m] + ms
    else
      var rest := InsertByTexture(m, ms[1..]);
      assert ms == [ms[0]] + ms[1..];
      SortedCons(ms[0], rest);
      [ms[0]] + rest
  }

  /** A mesh whose index is no larger than the first of a sorted sequence
      can go in front of it. */
  lemma SortedCons(m: GltfMesh, ms: seq<GltfMesh>)
    requires SortedByTexture(ms)
    requires |ms| > 0 ==> m.baseColorTextureIndex <= ms[0].baseColorTextureIndex
    ensures SortedByTexture([m] + ms)
  {
    var r := [m] + ms;
    forall i, j | 0 <= i < j < |r|
      ensures r[i].baseColorTextureIndex <= r[j].baseColorTextureIndex
    {
      if i > 0 {
        assert r[i] == ms[i - 1] && r[j] == ms[j - 1];
      } else if j > 1 {
        assert ms[0].baseColorTextureIndex <= ms[j - 1].baseColorTextureIndex;
      }
    }
  }

  /** The result of `std::sort` by `baseColorTextureIndex`: the same meshes,
      ordered by texture index. */
  function SortByTexture(ms: seq<GltfMesh>): (r: seq<GltfMesh>)
    ensures SortedByTexture(r)
    ensures multiset(r) == multiset(ms)
  {
    if |ms| == 0 then []
    else
      assert ms == [ms[0]] + ms[1..];
      InsertByTexture(ms[0], SortByTexture(ms[1..]))
  }

  // ---------------------------------------------------- the constructor

  /** One glTF primitive as the constructor reads it: its material's base
      colour and its vertex attributes and indices. */
  datatype Primitive = Primitive(
    material: BaseColor,
    positions: seq<Vec3>,
    normals: seq<Vec3>,
    texCoords: seq<Vec2>,
    indices: seq<U32>)

  /** The primitives of all meshes, mesh by mesh. */
  function AllPrimitives(meshes: seq<seq<Primitive>>): seq<Primitive> {
    if |meshes| == 0 then [] else AllPrimitives(meshes[..|meshes| - 1]) + meshes[|meshes| - 1]
  }

  function Materials(ps: seq<Primitive>): (ms: seq<BaseColor>)
    ensures |ms| == |ps|
    ensures forall k :: 0 <= k < |ps| ==> ms[k] == ps[k].material
  {
    if |ps| == 0 then [] else Materials(ps[..|ps| - 1]) + [ps[|ps| - 1].material]
  }

  /** The checks the constructor makes of a primitive's data: whole
      triangles, and one normal and one texture coordinate per position. */
  predicate PrimitiveOk(p: Primitive) {
    && |p.indices| % 3 == 0
    && |p.positions| == |p.normals|
    && |p.positions| == |p.texCoords|
  }

  /** Every image a material names is one of the file's images (asserted
      by `addBaseColor`). */
  predicate ImagesInRange(meshes: seq<seq<Primitive>>, src: TextureSource) {
    forall i, j :: 0 <= i < |meshes| && 0 <= j < |meshes[i]| && meshes[i][j].material.ImageTexture? ==>
      meshes[i][j].material.imageIndex < src.imageCount
  }

  /** Every primitive of every mesh passes the constructor's checks. */
  predicate AllPrimitivesOk(meshes: seq<seq<Primitive>>) {
    forall i, j :: 0 <= i < |meshes| && 0 <= j < |meshes[i]| ==> PrimitiveOk(meshes[i][j])
  }

  /** A mesh carries exactly the attributes and indices of a primitive. */
  predicate MeshOf(m: GltfMesh, p: Primitive) {
    && m.positions == p.positions && m.normals == p.normals
    && m.texCoords == p.texCoords && m.indices == p.indices
  }

  /** The meshes before the sort: one per primitive, with the texture index
      the builder gave it. */
  function UnsortedMeshes(ps: seq<Primitive>, textureIndices: seq<nat>): (ms: seq<GltfMesh>)
    requires |textureIndices| == |ps|
    requires forall k :: 0 <= k < |ps| ==> textureIndices[k] < U64_LIMIT
    ensures |ms| == |ps|
    ensures forall k :: 0 <= k < |ps| ==> MeshOf(ms[k], ps[k]) && ms[k].baseColorTextureIndex == textureIndices[k]
  {
    seq(|ps|, k requires 0 <= k < |ps| =>
      GltfMesh(ps[k].positions, ps[k].normals, ps[k].texCoords, ps[k].indices, textureIndices[k]))
  }

  /** The model the constructor leaves for the primitives `ps`: the
      textures the builder made for their materials, and one mesh per
      primitive carrying the texture index the builder gave it, the meshes
      sorted by that index. `std::sort` is not stable, so the order among
      meshes with the same index is left open. */
  ghost predicate LoadedFrom(model: GltfModel, ps: seq<Primitive>, src: TextureSource, hash: ColorFactor -> bv32) {
    var built := BuildTextures(src, hash, Materials(ps));
    && model.baseColorTextures == built.textures
    && SortedByTexture(model.meshes)
    && (forall k :: 0 <= k < |ps| ==> built.meshTextureIndices[k] < U64_LIMIT)
    && multiset(model.meshes) == multiset(UnsortedMeshes(ps, built.meshTextureIndices))
  }

  /** In a loaded model every mesh is one of the primitives, and its texture
      index names the texture its material calls for: the image it refers
      to, or the one-pixel texture of a colour with the same hash. */
  lemma LoadedMeshesTextured(model: GltfModel, ps: seq<Primitive>, src: TextureSource, hash: ColorFactor -> bv32)
    requires LoadedFrom(model, ps, src, hash)
    ensures |model.meshes| == |ps|
    ensures |model.baseColorTextures| <= |ps|
    ensures forall k :: 0 <= k < |model.meshes| ==>
              exists j :: 0 <= j < |ps| && MeshOf(model.meshes[k], ps[j])
                && model.meshes[k].baseColorTextureIndex < |model.baseColorTextures|
                && GetsTexture(model.baseColorTextures[model.meshes[k].baseColorTextureIndex], src, hash, ps[j].material)
  {
    var built := BuildTextures(src, hash, Materials(ps));
    BuildTexturesCorrect(src, hash, Materials(ps));
    var unsorted := UnsortedMeshes(ps, built.meshTextureIndices);
    assert |model.meshes| == |multiset(model.meshes)| == |multiset(unsorted)| == |ps|;
    forall k | 0 <= k < |model.meshes|
      ensures exists j :: 0 <= j < |ps| && MeshOf(model.meshes[k], ps[j])
                && model.meshes[k].baseColorTextureIndex < |model.baseColorTextures|
                && GetsTexture(model.baseColorTextures[model.meshes[k].baseColorTextureIndex], src, hash, ps[j].material)
    {
      assert model.meshes[k] in multiset(unsorted);
      var j :| 0 <= j < |unsorted| && unsorted[j] == model.meshes[k];
      assert Materials(ps)[j] == ps[j].material;
    }
  }

  /** The four per-mesh vectors the constructor fills hold the attributes
      and indices of `ps`, in order. */
  predicate Collected(ps: seq<Primitive>, positions: seq<seq<Vec3>>, normals: seq<seq<Vec3>>,
                      texCoords: seq<seq<Vec2>>, indices: seq<seq<U32>>) {
    && |positions| == |ps| && |normals| == |ps| && |texCoords| == |ps| && |indices| == |ps|
    && forall k :: 0 <= k < |ps| ==>
         && positions[k] == ps[k].positions && normals[k] == ps[k].normals
         && texCoords[k] == ps[k].texCoords && indices[k] == ps[k].indices
  }

  lemma CollectedAppend(ps: seq<Primitive>, positions: seq<seq<Vec3>>, normals: seq<seq<Vec3>>,
                        texCoords: seq<seq<Vec2>>, indices: seq<seq<U32>>, p: Primitive)
    requires Collected(ps, positions, normals, texCoords, indices)
    ensures Collected(ps + [p], positions + [p.positions], normals + [p.normals],
                      texCoords + [p.texCoords], indices + [p.indices])
  {
  }

  /** One more primitive makes one more `addBaseColor` call. */
  lemma BuildTexturesAppend(src: TextureSource, hash: ColorFactor -> bv32, ps: seq<Primitive>, p: Primitive)
    ensures BuildTextures(src, hash, Materials(ps + [p])) ==
            AddBaseColor(BuildTextures(src, hash, Materials(ps)), src, hash, p.material).0
  {
    assert (ps + [p])[..|ps|] == ps;
    assert Materials(ps + [p])[..|ps|] == Materials(ps);
  }

  /** `GltfModel(gltfPath)` once the file is parsed: one mesh per primitive,
      the meshes sorted by texture index. A primitive whose index count is
      not a multiple of 3, or whose attribute counts differ, is rejected. */
  method LoadModel(meshes: seq<seq<Primitive>>, src: TextureSource) returns (r: Result<GltfModel>)
    requires ImagesInRange(meshes, src)
    requires |AllPrimitives(meshes)| < U64_LIMIT
    ensures r.Success? <==> AllPrimitivesOk(meshes)
    ensures r.Success? ==> LoadedFrom(r.value, AllPrimitives(meshes), src, ColorHash)
  {
    var builder := new BaseColorTextureBuilder(src);
    var meshPositions: seq<seq<Vec3>> := [];
    var meshNormals: seq<seq<Vec3>> := [];
    var meshTexCoords: seq<seq<Vec2>> := [];
    var meshIndices: seq<seq<U32>> := [];
    ghost var done: seq<Primitive> := [];
    var meshIdx := 0;
    while meshIdx < |meshes|
      invariant 0 <= meshIdx <= |meshes|
      invariant done == AllPrimitives(meshes[..meshIdx])
      invariant forall i, j :: 0 <= i < meshIdx && 0 <= j < |meshes[i]| ==> PrimitiveOk(meshes[i][j])
      invariant builder.source == src && builder.colorHash == ColorHash
      invariant builder.State() == BuildTextures(src, builder.colorHash, Materials(done))
      invariant Collected(done, meshPositions, meshNormals, meshTexCoords, meshIndices)
    {
      MeshImages(meshes, src, meshIdx);
      var error;
      error, meshPositions, meshNormals, meshTexCoords, meshIndices :=
        LoadPrimitives(builder, meshes[meshIdx], done, meshPositions, meshNormals, meshTexCoords, meshIndices);
      if error.Some? {
        MeshFails(meshes, meshIdx);
        return Failure(error.value);
      }
      MeshesStep(meshes, meshIdx);
      done := done + meshes[meshIdx];
      meshIdx := meshIdx + 1;
    }
    assert meshes[..meshIdx] == meshes;
    ghost var built := builder.State();
    TextureIndicesFit(src, builder.colorHash, done);
    var model := AssembleModel(builder, done, meshPositions, meshNormals, meshTexCoords, meshIndices);
    LoadedFromParts(model, done, src, ColorHash, built);
    r := Success(model);
  }

  /** The primitives of mesh `i` name only the file's images. */
  lemma MeshImages(meshes: seq<seq<Primitive>>, src: TextureSource, i: nat)
    requires ImagesInRange(meshes, src) && i < |meshes|
    ensures forall j :: 0 <= j < |meshes[i]| && meshes[i][j].material.ImageTexture? ==>
              meshes[i][j].material.imageIndex < src.imageCount
  {
  }

  /** A failing primitive in mesh `i` fails the whole file. */
  lemma MeshFails(meshes: seq<seq<Primitive>>, i: nat)
    requires i < |meshes|
    requires !forall j :: 0 <= j < |meshes[i]| ==> PrimitiveOk(meshes[i][j])
    ensures !AllPrimitivesOk(meshes)
  {
  }

  /** One more mesh whose primitives all pass: the checked meshes and their
      primitives grow by that mesh. */
  lemma MeshesStep(meshes: seq<seq<Primitive>>, i: nat)
    requires i < |meshes|
    requires forall i', j :: 0 <= i' < i && 0 <= j < |meshes[i']| ==> PrimitiveOk(meshes[i'][j])
    requires forall j :: 0 <= j < |meshes[i]| ==> PrimitiveOk(meshes[i][j])
    ensures forall i', j :: 0 <= i' < i + 1 && 0 <= j < |meshes[i']| ==> PrimitiveOk(meshes[i'][j])
    ensures AllPrimitives(meshes[..i + 1]) == AllPrimitives(meshes[..i]) + meshes[i]
  {
    PrimitivesPrefix(meshes, i);
  }

  /** There are no more textures than primitives, so every texture index
      fits a `std::size_t` when the primitive count does. */
  lemma TextureIndicesFit(src: TextureSource, hash: ColorFactor -> bv32, ps: seq<Primitive>)
    requires |ps| < U64_LIMIT
    ensures forall k :: 0 <= k < |ps| ==> BuildTextures(src, hash, Materials(ps)).meshTextureIndices[k] < U64_LIMIT
  {
    BuildTexturesCorrect(src, hash, Materials(ps));
  }

  lemma LoadedFromParts(model: GltfModel, ps: seq<Primitive>, src: TextureSource, hash: ColorFactor -> bv32,
                        built: BuilderState)
    requires built == BuildTextures(src, hash, Materials(ps))
    requires model.baseColorTextures == built.textures
    requires SortedByTexture(model.meshes)
    requires forall k :: 0 <= k < |ps| ==> built.meshTextureIndices[k] < U64_LIMIT
    requires multiset(model.meshes) == multiset(UnsortedMeshes(ps, built.meshTextureIndices))
    ensures LoadedFrom(model, ps, src, hash)
  {
  }

  /** The constructor's loop over the primitives of one mesh, stopping at
      the first primitive that fails a check. */
  method LoadPrimitives(builder: BaseColorTextureBuilder, mesh: seq<Primitive>, ghost before: seq<Primitive>,
                        positions: seq<seq<Vec3>>, normals: seq<seq<Vec3>>,
                        texCoords: seq<seq<Vec2>>, indices: seq<seq<U32>>)
    returns (error: Option<string>, positions': seq<seq<Vec3>>, normals': seq<seq<Vec3>>,
             texCoords': seq<seq<Vec2>>, indices': seq<seq<U32>>)
    requires builder.State() == BuildTextures(builder.source, builder.colorHash, Materials(before))
    requires Collected(before, positions, normals, texCoords, indices)
    requires forall j :: 0 <= j < |mesh| && mesh[j].material.ImageTexture? ==>
               mesh[j].material.imageIndex < builder.source.imageCount
    requires builder.colorHash == ColorHash
    modifies builder
    ensures error.None? <==> forall j :: 0 <= j < |mesh| ==> PrimitiveOk(mesh[j])
    ensures error.None? ==> builder.State() == BuildTextures(builder.source, builder.colorHash, Materials(before + mesh))
    ensures error.None? ==> Collected(before + mesh, positions', normals', texCoords', indices')
  {
    positions', normals', texCoords', indices' := positions, normals, texCoords, indices;
    ghost var done := before;
    var primitiveIdx := 0;
    while primitiveIdx < |mesh|
      invariant 0 <= primitiveIdx <= |mesh|
      invariant done == before + mesh[..primitiveIdx]
      invariant forall j :: 0 <= j < primitiveIdx ==> PrimitiveOk(mesh[j])
      invariant builder.State() == BuildTextures(builder.source, builder.colorHash, Materials(done))
      invariant Collected(done, positions', normals', texCoords', indices')
    {
      var primitive := mesh[primitiveIdx];
      error, positions', normals', texCoords', indices' :=
        LoadPrimitive(builder, primitive, done, positions', normals', texCoords', indices');
      if error.Some? {
        return;
      }
      MeshPrefixStep(before, mesh, primitiveIdx);
      done := done + [primitive];
      primitiveIdx := primitiveIdx + 1;
    }
    assert mesh[..primitiveIdx] == mesh;
    error := None;
  }

  lemma MeshPrefixStep(before: seq<Primitive>, mesh: seq<Primitive>, i: nat)
    requires i < |mesh|
    requires forall j :: 0 <= j < i ==> PrimitiveOk(mesh[j])
    requires PrimitiveOk(mesh[i])
    ensures before + mesh[..i + 1] == (before + mesh[..i]) + [mesh[i]]
    ensures forall j :: 0 <= j < i + 1 ==> PrimitiveOk(mesh[j])
  {
    assert mesh[..i + 1] == mesh[..i] + [mesh[i]];
  }

  /** The body of that loop for one primitive: its material goes to
      `addBaseColor`, then the primitive is checked and its indices and
      attributes are appended to the four per-mesh vectors. */
  method LoadPrimitive(builder: BaseColorTextureBuilder, primitive: Primitive, ghost done: seq<Primitive>,
                       positions: seq<seq<Vec3>>, normals: seq<seq<Vec3>>,
                       texCoords: seq<seq<Vec2>>, indices: seq<seq<U32>>)
    returns (error: Option<string>, positions': seq<seq<Vec3>>, normals': seq<seq<Vec3>>,
             texCoords': seq<seq<Vec2>>, indices': seq<seq<U32>>)
    requires builder.State() == BuildTextures(builder.source, builder.colorHash, Materials(done))
    requires Collected(done, positions, normals, texCoords, indices)
    requires primitive.material.ImageTexture? ==> primitive.material.imageIndex < builder.source.imageCount
    requires builder.colorHash == ColorHash
    modifies builder
    ensures builder.State() == BuildTextures(builder.source, builder.colorHash, Materials(done + [primitive]))
    ensures error.None? <==> PrimitiveOk(primitive)
    ensures error.None? ==> Collected(done + [primitive], positions', normals', texCoords', indices')
  {
    var _ := builder.AddBaseColorOf(primitive.material);
    BuildTexturesAppend(builder.source, builder.colorHash, done, primitive);
    positions', normals', texCoords', indices' := positions, normals, texCoords, indices;
    if |primitive.indices| % 3 != 0 {
      return Some("the index count is not a multiple of 3"), positions', normals', texCoords', indices';
    }
    if |primitive.positions| != |primitive.normals| || |primitive.positions| != |primitive.texCoords| {
      return Some("the attribute counts differ"), positions', normals', texCoords', indices';
    }
    CollectedAppend(done, positions, normals, texCoords, indices, primitive);
    indices' := indices + [primitive.indices];
    positions' := positions + [primitive.positions];
    normals' := normals + [primitive.normals];
    texCoords' := texCoords + [primitive.texCoords];
    error := None;
  }

  /** The end of the constructor: `build()`, one mesh per primitive, and the
      sort by texture index. */
  method AssembleModel(builder: BaseColorTextureBuilder, ghost ps: seq<Primitive>,
                       positions: seq<seq<Vec3>>, normals: seq<seq<Vec3>>,
                       texCoords: seq<seq<Vec2>>, indices: seq<seq<U32>>)
    returns (model: GltfModel)
    requires |builder.meshTextureIndices| == |ps|
    requires forall k :: 0 <= k < |ps| ==> builder.meshTextureIndices[k] < U64_LIMIT
    requires Collected(ps, positions, normals, texCoords, indices)
    modifies builder
    ensures builder.State() == EmptyBuilder()
    ensures model.baseColorTextures == old(builder.textures)
    ensures SortedByTexture(model.meshes)
    ensures multiset(model.meshes) == multiset(UnsortedMeshes(ps, old(builder.meshTextureIndices)))
  {
    var meshTextureIndices, textures := builder.Build();
    var meshes: seq<GltfMesh> := [];
    for i := 0 to |positions|
      invariant |meshes| == i
      invariant forall k :: 0 <= k < i ==>
                  MeshOf(meshes[k], ps[k]) && meshes[k].baseColorTextureIndex == meshTextureIndices[k]
    {
      meshes := meshes + [GltfMesh(positions[i], normals[i], texCoords[i], indices[i], meshTextureIndices[i])];
    }
    assert meshes == UnsortedMeshes(ps, meshTextureIndices);
    model := GltfModel(SortByTexture(meshes), textures);
  }

  /** The primitives of the first `i + 1` meshes are those of the first `i`
      followed by mesh `i`'s. */
  lemma PrimitivesPrefix(meshes: seq<seq<Primitive>>, i: nat)
    requires i < |meshes|
    ensures AllPrimitives(meshes[..i + 1]) == AllPrimitives(meshes[..i]) + meshes[i]
  {
    assert meshes[..i + 1][..i] == meshes[..i];
  }
}
