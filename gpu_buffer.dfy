/** The GPU buffer wrapper (src/pt/gpu_buffer.hpp, src/pt/gpu_buffer.cpp):
    the `GpuBufferUsage` flag algebra, its translation to WebGPU usage
    flags, the buffer binding type a usage implies, and a `GpuBuffer` that
    owns one buffer handle and hands it over on move. WebGPU's flags are
    abstract distinct flags, buffer handles abstract references, and the
    device calls that create or release a buffer are parameters or
    results. */
module GpuBuffers {
  import opened Results
  import opened Decimals

  /** `GpuBufferUsage`: a `uint32_t` enum class used as a bit set. */
  type Usage = bv32

  const NONE: Usage := 0
  const COPY_SRC: Usage := 1 << 0
  const COPY_DST: Usage := 1 << 1
  const MAP_READ: Usage := 1 << 2
  const MAP_WRITE: Usage := 1 << 3
  const INDEX: Usage := 1 << 4
  const VERTEX: Usage := 1 << 5
  const UNIFORM: Usage := 1 << 6
  const STORAGE: Usage := 1 << 7
  const READ_ONLY_STORAGE: Usage := 1 << 8
  const INDIRECT: Usage := 1 << 9
  const QUERY_RESOLVE: Usage := 1 << 10

  /** The enumerators other than `None`, in declaration order. */
  const USAGE_BITS: seq<Usage> :=
    [COPY_SRC, COPY_DST, MAP_READ, MAP_WRITE, INDEX, VERTEX, UNIFORM, STORAGE,
     READ_ONLY_STORAGE, INDIRECT, QUERY_RESOLVE]

  /** `(usage & flag) == flag`. */
  predicate Has(usage: Usage, flag: Usage) {
    usage & flag == flag
  }

  /** A flag made of one bit. */
  predicate SingleBit(flag: Usage) {
    flag != 0 && flag & (flag - 1) == 0
  }

  /** The enumerators are single bits, pairwise distinct, and `None` has
      none of them. */
  lemma UsageBitsDistinct(i: nat, j: nat)
    requires i < |USAGE_BITS| && j < |USAGE_BITS|
    ensures SingleBit(USAGE_BITS[i]) && !Has(NONE, USAGE_BITS[i])
    ensures i != j ==> USAGE_BITS[i] & USAGE_BITS[j] == 0
  {
  }

  /** `operator|`: both operands' flags are present in the union. */
  function UsageOr(lhs: Usage, rhs: Usage): (r: Usage)
    ensures Has(r, lhs) && Has(r, rhs)
  {
    var r := lhs | rhs;
    assert Has(r, lhs);
    assert Has(r, rhs);
    r
  }

  /** `operator&`: the intersection's flags are in both operands. */
  function UsageAnd(lhs: Usage, rhs: Usage): (r: Usage)
    ensures Has(lhs, r) && Has(rhs, r)
  {
    var r := lhs & rhs;
    assert Has(lhs, r);
    assert Has(rhs, r);
    r
  }

  /** A word holds a single-bit flag wholly or not at all. */
  lemma SingleBitMask(x: Usage, f: Usage)
    requires SingleBit(f)
    ensures x & f == 0 || x & f == f
  {
  }

  /** A single-bit flag is in a union iff it is in either operand. */
  lemma OrHas(lhs: Usage, rhs: Usage, f: Usage)
    requires SingleBit(f)
    ensures Has(UsageOr(lhs, rhs), f) <==> Has(lhs, f) || Has(rhs, f)
  {
    assert (lhs | rhs) & f == (lhs & f) | (rhs & f);
    SingleBitMask(lhs, f);
    SingleBitMask(rhs, f);
  }

  /** A single-bit flag is in an intersection iff it is in both
      operands. */
  lemma AndHas(lhs: Usage, rhs: Usage, f: Usage)
    requires SingleBit(f)
    ensures Has(UsageAnd(lhs, rhs), f) <==> Has(lhs, f) && Has(rhs, f)
  {
    assert (lhs & rhs) & f == (lhs & f) & (rhs & f);
    SingleBitMask(lhs, f);
    SingleBitMask(rhs, f);
  }

  /** `operator|=`: stores the union in `lhs` and returns it. */
  method OrAssign(lhs: Usage, rhs: Usage) returns (newLhs: Usage, r: Usage)
    ensures newLhs == UsageOr(lhs, rhs) && r == newLhs
  {
    newLhs := UsageOr(lhs, rhs);
    r := newLhs;
  }

  /** The WebGPU buffer usage flags. */
  datatype WgpuUsage =
    | WgpuCopySrc | WgpuCopyDst | WgpuMapRead | WgpuMapWrite | WgpuIndex | WgpuVertex
    | WgpuUniform | WgpuStorage | WgpuIndirect | WgpuQueryResolve

  /** `WGPUBufferUsageFlags`; `WGPUBufferUsage_None` is the empty set. */
  type WgpuUsageFlags = set<WgpuUsage>

  /** The WebGPU flag each enumerator of `USAGE_BITS` stands for: the
      read-only storage enumerator has no flag of its own and stands for
      plain storage. */
  const WGPU_FLAGS: seq<WgpuUsage> :=
    [WgpuCopySrc, WgpuCopyDst, WgpuMapRead, WgpuMapWrite, WgpuIndex, WgpuVertex, WgpuUniform, WgpuStorage,
     WgpuStorage, WgpuIndirect, WgpuQueryResolve]

  /** Whether one of the first `k` enumerators is present in `usage` and
      stands for `f`. */
  predicate RequestedBy(usage: Usage, f: WgpuUsage, k: nat)
    requires k <= |USAGE_BITS|
  {
    k > 0 && (RequestedBy(usage, f, k - 1) || (WGPU_FLAGS[k - 1] == f && Has(usage, USAGE_BITS[k - 1])))
  }

  /** Whether `usage` asks for WebGPU flag `f`: some enumerator present
      stands for it. Bits that name no enumerator ask for nothing. */
  predicate Requests(usage: Usage, f: WgpuUsage) {
    RequestedBy(usage, f, |USAGE_BITS|)
  }

  /** `flags` are the WebGPU flags `usage` asks for, and no others. */
  predicate Translates(usage: Usage, flags: WgpuUsageFlags) {
    forall f :: f in flags <==> Requests(usage, f)
  }

  /** `gpuBufferUsageToWGPUBufferUsage`: starting from no flag, one `|=`
      per enumerator present, each tested on its own. */
  method ToWgpuUsage(usage: Usage) returns (wgpuUsage: WgpuUsageFlags)
    ensures Translates(usage, wgpuUsage)
  {
    wgpuUsage := {};
    TranslateStep(usage, wgpuUsage, 0);
    if Has(usage, COPY_SRC) { wgpuUsage := wgpuUsage + {WgpuCopySrc}; }
    TranslateStep(usage, wgpuUsage, 1);
    if Has(usage, COPY_DST) { wgpuUsage := wgpuUsage + {WgpuCopyDst}; }
    TranslateStep(usage, wgpuUsage, 2);
    if Has(usage, MAP_READ) { wgpuUsage := wgpuUsage + {WgpuMapRead}; }
    TranslateStep(usage, wgpuUsage, 3);
    if Has(usage, MAP_WRITE) { wgpuUsage := wgpuUsage + {WgpuMapWrite}; }
    TranslateStep(usage, wgpuUsage, 4);
    if Has(usage, INDEX) { wgpuUsage := wgpuUsage + {WgpuIndex}; }
    TranslateStep(usage, wgpuUsage, 5);
    if Has(usage, VERTEX) { wgpuUsage := wgpuUsage + {WgpuVertex}; }
    TranslateStep(usage, wgpuUsage, 6);
    if Has(usage, UNIFORM) { wgpuUsage := wgpuUsage + {WgpuUniform}; }
    TranslateStep(usage, wgpuUsage, 7);
    if Has(usage, STORAGE) { wgpuUsage := wgpuUsage + {WgpuStorage}; }
    TranslateStep(usage, wgpuUsage, 8);
    if Has(usage, READ_ONLY_STORAGE) { wgpuUsage := wgpuUsage + {WgpuStorage}; }
    TranslateStep(usage, wgpuUsage, 9);
    if Has(usage, INDIRECT) { wgpuUsage := wgpuUsage + {WgpuIndirect}; }
    TranslateStep(usage, wgpuUsage, 10);
    if Has(usage, QUERY_RESOLVE) { wgpuUsage := wgpuUsage + {WgpuQueryResolve}; }
  }

  /** One `|=` step: adding enumerator `k`'s flag when it is present
      extends the flags of the first `k` enumerators to the first `k + 1`. */
  lemma TranslateStep(usage: Usage, flags: WgpuUsageFlags, k: nat)
    requires k < |USAGE_BITS|
    requires forall f :: f in flags <==> RequestedBy(usage, f, k)
    ensures Has(usage, USAGE_BITS[k]) ==> forall f :: f in flags + {WGPU_FLAGS[k]} <==> RequestedBy(usage, f, k + 1)
    ensures !Has(usage, USAGE_BITS[k]) ==> forall f :: f in flags <==> RequestedBy(usage, f, k + 1)
  {
  }

  /** One more enumerator of the table. */
  lemma RequestedByUnfold(usage: Usage, f: WgpuUsage, k: nat)
    requires k < |USAGE_BITS|
    ensures RequestedBy(usage, f, k + 1) <==> RequestedBy(usage, f, k) || (WGPU_FLAGS[k] == f && Has(usage, USAGE_BITS[k]))
    ensures !RequestedBy(usage, f, 0)
  {
  }

  /** The flags one usage asks for, flag by flag. */
  lemma RequestsFlag(usage: Usage, f: WgpuUsage)
    ensures Requests(usage, f) <==> match f
      case WgpuCopySrc => Has(usage, COPY_SRC)
      case WgpuCopyDst => Has(usage, COPY_DST)
      case WgpuMapRead => Has(usage, MAP_READ)
      case WgpuMapWrite => Has(usage, MAP_WRITE)
      case WgpuIndex => Has(usage, INDEX)
      case WgpuVertex => Has(usage, VERTEX)
      case WgpuUniform => Has(usage, UNIFORM)
      case WgpuStorage => Has(usage, STORAGE) || Has(usage, READ_ONLY_STORAGE)
      case WgpuIndirect => Has(usage, INDIRECT)
      case WgpuQueryResolve => Has(usage, QUERY_RESOLVE)
  {
    RequestedByUnfold(usage, f, 10);
    RequestedByUnfold(usage, f, 9);
    RequestedByUnfold(usage, f, 8);
    RequestedByUnfold(usage, f, 7);
    RequestedByUnfold(usage, f, 6);
    RequestedByUnfold(usage, f, 5);
    RequestedByUnfold(usage, f, 4);
    RequestedByUnfold(usage, f, 3);
    RequestedByUnfold(usage, f, 2);
    RequestedByUnfold(usage, f, 1);
    RequestedByUnfold(usage, f, 0);
  }

  /** A usage has exactly one translation. */
  lemma TranslationUnique(usage: Usage, a: WgpuUsageFlags, b: WgpuUsageFlags)
    requires Translates(usage, a) && Translates(usage, b)
    ensures a == b
  {
  }

  /** `None` translates to `WGPUBufferUsage_None`. */
  lemma TranslateNone(flags: WgpuUsageFlags)
    requires Translates(NONE, flags)
    ensures flags == {}
  {
    forall f ensures f !in flags {
      RequestsFlag(NONE, f);
      match f
      case WgpuCopySrc =>
      case WgpuCopyDst =>
      case WgpuMapRead =>
      case WgpuMapWrite =>
      case WgpuIndex =>
      case WgpuVertex =>
      case WgpuUniform =>
      case WgpuStorage =>
      case WgpuIndirect =>
      case WgpuQueryResolve =>
    }
  }

  /** An enumerator among the first `k` stands for `f` in a union iff one
      does in either operand. */
  lemma {:induction false} RequestedByOr(u: Usage, v: Usage, f: WgpuUsage, k: nat)
    requires k <= |USAGE_BITS|
    ensures RequestedBy(UsageOr(u, v), f, k) <==> RequestedBy(u, f, k) || RequestedBy(v, f, k)
  {
    if k > 0 {
      RequestedByOr(u, v, f, k - 1);
      UsageBitsDistinct(k - 1, k - 1);
      OrHas(u, v, USAGE_BITS[k - 1]);
    }
  }

  /** Translation distributes over `|`: each enumerator is translated
      independently of the others. */
  lemma TranslateOr(u: Usage, v: Usage, a: WgpuUsageFlags, b: WgpuUsageFlags)
    requires Translates(u, a) && Translates(v, b)
    ensures Translates(UsageOr(u, v), a + b)
  {
    forall f ensures f in a + b <==> Requests(UsageOr(u, v), f) {
      RequestedByOr(u, v, f, |USAGE_BITS|);
    }
  }

  /** `WGPUBufferBindingType`, the three values the binding rule yields. */
  datatype BufferBindingType = BindingUndefined | BindingUniform | BindingStorage

  /** `bufferUsageToBufferBindingType`: a uniform buffer binds as uniform,
      otherwise a storage buffer binds as storage, otherwise the type is
      undefined. The usage must not be empty. */
  function BindingTypeOf(usage: WgpuUsageFlags): (t: BufferBindingType)
    requires usage != {}
    ensures t == BindingUniform <==> WgpuUniform in usage
    ensures t == BindingStorage <==> WgpuUniform !in usage && WgpuStorage in usage
  {
    if WgpuUniform in usage then BindingUniform
    else if WgpuStorage in usage then BindingStorage
    else BindingUndefined
  }

  /** Through the translation: the uniform enumerator wins over both
      storage enumerators, and a read-only storage buffer binds as plain
      storage. */
  lemma UsageBindingType(usage: Usage, flags: WgpuUsageFlags)
    requires Translates(usage, flags) && flags != {}
    ensures BindingTypeOf(flags) == BindingUniform <==> Has(usage, UNIFORM)
    ensures BindingTypeOf(flags) == BindingStorage <==>
              !Has(usage, UNIFORM) && (Has(usage, STORAGE) || Has(usage, READ_ONLY_STORAGE))
  {
    RequestsFlag(usage, WgpuUniform);
    RequestsFlag(usage, WgpuStorage);
  }

  /** A `WGPUBuffer`: null, or a reference to a buffer the device made. */
  datatype Handle = Null | BufferHandle(id: nat)

  /** `WGPUBindGroupLayoutEntry` for a buffer; the visibility is kept
      as given. */
  datatype BufferLayoutEntry = BufferLayoutEntry(
    binding: nat, visibility: nat, bindingType: BufferBindingType, hasDynamicOffset: bool,
    minBindingSize: nat)

  /** `WGPUBindGroupEntry` for a buffer. */
  datatype BufferBindEntry = BufferBindEntry(binding: nat, buffer: Handle, offset: nat, size: nat)

  /** `GpuBuffer`: the sole owner of one buffer handle, with its size and
      its WebGPU usage flags. */
  class GpuBuffer {
    var buffer: Handle
    var byteSize: nat
    var usage: WgpuUsageFlags

    /** `GpuBuffer() = default`: owns nothing. */
    constructor ()
      ensures buffer == Null && byteSize == 0 && usage == {}
    {
      buffer, byteSize, usage := Null, 0, {};
    }

    /** The buffer a device call returned, with its size and usage. */
    constructor Owning(handle: Handle, size: nat, flags: WgpuUsageFlags)
      ensures buffer == handle && byteSize == size && usage == flags
    {
      buffer, byteSize, usage := handle, size, flags;
    }

    /** The move constructor: takes over `other`'s handle, size and usage
        and leaves `other` owning nothing. A new object is never its own
        source. */
    constructor Moved(other: GpuBuffer)
      modifies other
      ensures buffer == old(other.buffer) && byteSize == old(other.byteSize) && usage == old(other.usage)
      ensures other.buffer == Null && other.byteSize == 0 && other.usage == {}
    {
      buffer, byteSize, usage := other.buffer, other.byteSize, other.usage;
      new;
      other.buffer, other.byteSize, other.usage := Null, 0, {};
    }

    /** Move assignment: releases the buffer owned so far (`released`,
        null when there was none), then takes over `other`'s handle, size
        and usage and leaves `other` owning nothing. Assigning an object to
        itself changes nothing and releases nothing. */
    method MoveAssign(other: GpuBuffer) returns (released: Handle)
      modifies this, other
      ensures other == this ==> released == Null && buffer == old(buffer) && byteSize == old(byteSize) && usage == old(usage)
      ensures other != this ==> released == old(buffer)
      ensures other != this ==> buffer == old(other.buffer) && byteSize == old(other.byteSize) && usage == old(other.usage)
      ensures other != this ==> other.buffer == Null && other.byteSize == 0 && other.usage == {}
    {
      released := Null;
      if other != this {
        released := SafeRelease(buffer);
        buffer := other.buffer;
        byteSize := other.byteSize;
        usage := other.usage;
        other.buffer := Null;
        other.byteSize := 0;
        other.usage := {};
      }
    }

    /** The destructor: releases the owned buffer, if any, and owns
        nothing afterwards. */
    method Destroy() returns (released: Handle)
      modifies this
      ensures released == old(buffer) && buffer == Null
      ensures byteSize == old(byteSize) && usage == old(usage)
    {
      released := SafeRelease(buffer);
      buffer := Null;
    }

    /** `ptr()`: the handle, which must not be null. */
    function Ptr(): (h: Handle)
      reads this
      requires buffer != Null
      ensures h.BufferHandle? && h == buffer
    {
      buffer
    }

    /** `byteSize()`: the size, which must be positive. */
    function ByteSize(): (n: nat)
      reads this
      requires byteSize > 0
      ensures n > 0 && n == byteSize
    {
      byteSize
    }

    /** `bindGroupLayoutEntry`: the binding type the usage implies, no
        dynamic offset, and the buffer's whole size as the minimum binding
        size. */
    function LayoutEntry(bindingIdx: nat, visibility: nat): (e: BufferLayoutEntry)
      reads this
      requires buffer != Null && usage != {}
      ensures e.binding == bindingIdx && e.visibility == visibility
      ensures e.bindingType == BindingTypeOf(usage) && !e.hasDynamicOffset && e.minBindingSize == byteSize
    {
      BufferLayoutEntry(bindingIdx, visibility, BindingTypeOf(usage), false, byteSize)
    }

    /** `bindGroupEntry`: the whole buffer, from offset 0 for `byteSize`
        bytes. */
    function BindEntry(bindingIdx: nat): (e: BufferBindEntry)
      reads this
      requires buffer != Null
      ensures e.binding == bindingIdx && e.buffer == buffer && e.offset == 0 && e.size == byteSize
    {
      BufferBindEntry(bindingIdx, buffer, 0, byteSize)
    }
  }

  /** WebGPU's rule for a buffer binding: the bind-group entry names the
      layout entry's binding, binds a buffer, and binds at least the
      layout's minimum size. */
  predicate BindMatchesLayout(bind: BufferBindEntry, layout: BufferLayoutEntry) {
    && bind.binding == layout.binding
    && bind.buffer != Null
    && layout.minBindingSize <= bind.size
  }

  /** The two entries one buffer hands out for the same binding index agree
      with each other, and the bound range lies inside the buffer. */
  lemma BufferEntriesMatch(b: GpuBuffer, bindingIdx: nat, visibility: nat)
    requires b.buffer != Null && b.usage != {}
    ensures BindMatchesLayout(b.BindEntry(bindingIdx), b.LayoutEntry(bindingIdx, visibility))
    ensures b.BindEntry(bindingIdx).offset + b.BindEntry(bindingIdx).size <= b.byteSize
  {
  }

  /** `bufferSafeRelease`: destroys and releases a non-null buffer; the
      result is the handle released, null when there was none. */
  function SafeRelease(buffer: Handle): (released: Handle)
    ensures released == buffer
  {
    if buffer != Null then buffer else Null
  }

  /** The sized constructor: records the size and the usage, and fails
      when the device returns no buffer (`created` is what
      `wgpuDeviceCreateBuffer` returned). */
  method CreateSized(name: string, usage: WgpuUsageFlags, byteSize: nat, created: Handle)
    returns (r: Result<GpuBuffer>)
    ensures created == Null <==> r.Failure?
    ensures r.Failure? ==> r.error == "Failed to create buffer: " + name + "."
    ensures r.Success? ==> fresh(r.value)
    ensures r.Success? ==> r.value.buffer == created && r.value.byteSize == byteSize && r.value.usage == usage
  {
    if created == Null {
      return Failure("Failed to create buffer: " + name + ".");
    }
    var b := new GpuBuffer.Owning(created, byteSize, usage);
    r := Success(b);
  }

  /** The typed constructor over `count` elements of `elementSize` bytes:
      the size is `elementSize * count`, a uniform buffer's size must be a
      multiple of 16, and it fails when the device returns no buffer or the
      buffer cannot be mapped (`created` and `mapped` are the device's
      answers). The data copy into the mapped range is not modelled. */
  method CreateWithData(name: string, usage: Usage, elementSize: nat, count: nat, created: Handle, mapped: bool)
    returns (r: Result<GpuBuffer>)
    requires UsageAnd(usage, UNIFORM) == NONE || (elementSize * count) % 16 == 0
    ensures r.Success? <==> created != Null && mapped
    ensures created == Null ==> r == Failure("Failed to create buffer \"" + name + "\".")
    ensures created != Null && !mapped ==>
              r == Failure("Failed to map buffer \"" + name + "\", bytesize: " + Decimal(elementSize * count) + ".")
    ensures r.Success? ==> fresh(r.value)
    ensures r.Success? ==> r.value.buffer == created && r.value.byteSize == elementSize * count
    ensures r.Success? ==> Translates(usage, r.value.usage)
    ensures r.Success? && Has(usage, UNIFORM) ==> r.value.byteSize % 16 == 0
  {
    var byteSize := elementSize * count;
    var wgpuUsage := ToWgpuUsage(usage);
    if created == Null {
      return Failure("Failed to create buffer \"" + name + "\".");
    }
    if !mapped {
      return Failure("Failed to map buffer \"" + name + "\", bytesize: " + Decimal(byteSize) + ".");
    }
    var b := new GpuBuffer.Owning(created, byteSize, wgpuUsage);
    r := Success(b);
  }
}
