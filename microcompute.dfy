/** The selection rules, buffer bookkeeping and guards of the single-header
    GPU compute library. Each Vulkan query is replaced by the data it
    returns: the device types, the queue family flags, the memory types
    and heaps, and the outcome of each driver call. */
module Microcompute {
  import opened TextUtil

  /** `VkPhysicalDeviceType`. */
  datatype PhysicalDeviceType = Other | IntegratedGpu | DiscreteGpu | VirtualGpu | Cpu

  predicate IsDiscrete(t: PhysicalDeviceType) { t == DiscreteGpu }

  predicate IsIntegrated(t: PhysicalDeviceType) { t == IntegratedGpu }

  const QUEUE_GRAPHICS_BIT: bv32 := 0x1
  const QUEUE_COMPUTE_BIT: bv32 := 0x2
  const MEMORY_PROPERTY_HOST_VISIBLE_BIT: bv32 := 0x2
  const MEMORY_PROPERTY_HOST_COHERENT_BIT: bv32 := 0x4

  /** A queue family that computes and does not draw. */
  predicate IsDedicatedCompute(flags: bv32) {
    flags & QUEUE_GRAPHICS_BIT == 0 && flags & QUEUE_COMPUTE_BIT != 0
  }

  predicate IsCompute(flags: bv32) {
    flags & QUEUE_COMPUTE_BIT != 0
  }

  /** The last index whose element satisfies `p`, if any. */
  function LastWhere<T>(s: seq<T>, p: T -> bool): (r: Option<nat>)
    ensures r.Some? ==> r.value < |s| && p(s[r.value]) && forall k :: r.value < k < |s| ==> !p(s[k])
    ensures r.None? ==> forall k :: 0 <= k < |s| ==> !p(s[k])
  {
    if s == [] then None
    else if p(s[|s| - 1]) then Some(|s| - 1)
    else LastWhere(s[..|s| - 1], p)
  }

  /** One more element: it is the last match if it matches. */
  lemma LastWhereExtend<T>(s: seq<T>, i: nat, p: T -> bool)
    requires i < |s|
    ensures LastWhere(s[..i + 1], p) == if p(s[i]) then Some(i) else LastWhere(s[..i], p)
  {
    assert s[..i + 1][..i] == s[..i];
  }

  /** `LastWhere` with the count as the "none" sentinel, as the scans keep it. */
  function IndexOr(r: Option<nat>, count: nat): nat {
    match r
    case Some(k) => k
    case None => count
  }

  /** The device the library opens: the last discrete GPU, else the last
      integrated GPU, else the count. */
  function PreferredDevice(types: seq<PhysicalDeviceType>): nat {
    match LastWhere(types, IsDiscrete)
    case Some(k) => k
    case None => IndexOr(LastWhere(types, IsIntegrated), |types|)
  }

  /** The two passes over the devices of `mc_choose_physical_device_index`. */
  method ChoosePhysicalDeviceIndex(types: seq<PhysicalDeviceType>) returns (idx: nat)
    ensures idx == PreferredDevice(types)
  {
    var count := |types|;
    idx := count;
    for i := 0 to count
      invariant idx == IndexOr(LastWhere(types[..i], IsDiscrete), count)
    {
      LastWhereExtend(types, i, IsDiscrete);
      if types[i] == DiscreteGpu {
        idx := i;
      }
    }
    assert types[..count] == types;
    if idx != count {
      return;
    }
    for i := 0 to count
      invariant idx == IndexOr(LastWhere(types[..i], IsIntegrated), count)
    {
      LastWhereExtend(types, i, IsIntegrated);
      if types[i] == IntegratedGpu {
        idx := i;
      }
    }
    assert types[..count] == types;
  }

  /** A discrete GPU always wins, the last one listed; without one, the
      last integrated GPU; without either, nothing is chosen. */
  lemma PreferredDeviceChoice(types: seq<PhysicalDeviceType>)
    ensures var idx := PreferredDevice(types);
            && idx <= |types|
            && (idx < |types| ==> types[idx] == DiscreteGpu || types[idx] == IntegratedGpu)
            && ((exists k :: 0 <= k < |types| && types[k] == DiscreteGpu) ==>
                  idx < |types| && types[idx] == DiscreteGpu
                  && forall k :: idx < k < |types| ==> types[k] != DiscreteGpu)
            && ((forall k :: 0 <= k < |types| ==> types[k] != DiscreteGpu) ==>
                  (idx < |types| <==> exists k :: 0 <= k < |types| && types[k] == IntegratedGpu)
                  && forall k :: idx < k < |types| ==> types[k] != IntegratedGpu)
  {
    var d := LastWhere(types, IsDiscrete);
    var g := LastWhere(types, IsIntegrated);
    if d.None? {
      assert forall k :: 0 <= k < |types| ==> types[k] != DiscreteGpu;
      if g.None? {
        assert forall k :: 0 <= k < |types| ==> types[k] != IntegratedGpu;
      }
    }
  }

  /** The queue family the library uses: the last compute-only family,
      else the last compute family, else the count. */
  function PreferredQueueFamily(flags: seq<bv32>): nat {
    match LastWhere(flags, IsDedicatedCompute)
    case Some(k) => k
    case None => IndexOr(LastWhere(flags, IsCompute), |flags|)
  }

  /** The two passes over the queue families of `mc_choose_queue_family_index`. */
  method ChooseQueueFamilyIndex(flags: seq<bv32>) returns (idx: nat)
    ensures idx == PreferredQueueFamily(flags)
  {
    var count := |flags|;
    idx := count;
    for i := 0 to count
      invariant idx == IndexOr(LastWhere(flags[..i], IsDedicatedCompute), count)
    {
      LastWhereExtend(flags, i, IsDedicatedCompute);
      var g := QUEUE_GRAPHICS_BIT & flags[i] != 0;
      var c := QUEUE_COMPUTE_BIT & flags[i] != 0;
      assert IsDedicatedCompute(flags[i]) <==> !g && c;
      if !g && c {
        idx := i;
      }
    }
    assert flags[..count] == flags;
    if idx != count {
      return;
    }
    for i := 0 to count
      invariant idx == IndexOr(LastWhere(flags[..i], IsCompute), count)
    {
      LastWhereExtend(flags, i, IsCompute);
      var c := QUEUE_COMPUTE_BIT & flags[i];
      assert IsCompute(flags[i]) <==> c != 0;
      if c != 0 {
        idx := i;
      }
    }
    assert flags[..count] == flags;
  }

  /** The chosen family can always compute; none is chosen exactly when no
      family can; a compute-only family is preferred to a shared one. */
  lemma PreferredQueueFamilyComputes(flags: seq<bv32>)
    ensures var idx := PreferredQueueFamily(flags);
            && idx <= |flags|
            && (idx < |flags| ==> IsCompute(flags[idx]))
            && (idx == |flags| <==> forall k :: 0 <= k < |flags| ==> !IsCompute(flags[k]))
            && ((exists k :: 0 <= k < |flags| && IsDedicatedCompute(flags[k])) ==>
                  idx < |flags| && IsDedicatedCompute(flags[idx]))
  {
    var d := LastWhere(flags, IsDedicatedCompute);
    if d.Some? {
      assert IsCompute(flags[d.value]);
    } else {
      assert forall k :: 0 <= k < |flags| ==> !IsDedicatedCompute(flags[k]);
    }
  }

  /** `VkMemoryType`, and `VkMemoryHeap` reduced to its size. */
  datatype MemoryType = MemoryType(propertyFlags: bv32, heapIndex: nat)

  datatype MemoryHeap = MemoryHeap(size: nat)

  /** Every memory type names a heap that exists, as the driver guarantees. */
  predicate HeapsExist(types: seq<MemoryType>, heaps: seq<MemoryHeap>) {
    forall k :: 0 <= k < |types| ==> types[k].heapIndex < |heaps|
  }

  /** Memory the host can map without flushing, in a heap strictly larger
      than `size`. */
  predicate Suitable(t: MemoryType, heap: MemoryHeap, size: nat) {
    t.propertyFlags & MEMORY_PROPERTY_HOST_VISIBLE_BIT != 0
    && t.propertyFlags & MEMORY_PROPERTY_HOST_COHERENT_BIT != 0
    && size < heap.size
  }

  /** `mc_choose_memory_type`: the first suitable memory type, or the count. */
  method ChooseMemoryType(types: seq<MemoryType>, heaps: seq<MemoryHeap>, size: nat) returns (idx: nat)
    requires HeapsExist(types, heaps)
    ensures idx <= |types|
    ensures idx < |types| ==> Suitable(types[idx], heaps[types[idx].heapIndex], size)
    ensures forall k :: 0 <= k < idx && k < |types| ==> !Suitable(types[k], heaps[types[k].heapIndex], size)
  {
    for i := 0 to |types|
      invariant forall k :: 0 <= k < i ==> !Suitable(types[k], heaps[types[k].heapIndex], size)
    {
      var t := types[i];
      var heap := heaps[t.heapIndex];
      var v := MEMORY_PROPERTY_HOST_VISIBLE_BIT & t.propertyFlags != 0;
      var c := MEMORY_PROPERTY_HOST_COHERENT_BIT & t.propertyFlags != 0;
      if v && c && size < heap.size {
        return i;
      }
    }
    return |types|;
  }

  /** Some memory type is suitable for `size`. */
  predicate SomeSuitable(types: seq<MemoryType>, heaps: seq<MemoryHeap>, size: nat)
    requires HeapsExist(types, heaps)
  {
    exists k :: 0 <= k < |types| && Suitable(types[k], heaps[types[k].heapIndex], size)
  }

  /** What `mc_buffer_write` and `mc_buffer_read` return as written: their
      second guard repeats the first, so any request on an initialised
      buffer reports the full size, whatever the offset. */
  function TransferResultAsWritten(isInitialized: bool, bufferSize: nat, offset: nat, size: nat): (r: nat)
    ensures isInitialized ==> r == size
    ensures !isInitialized ==> r == 0
  {
    if !isInitialized || !isInitialized then 0 else size
  }

  /** What the guards evidently intend, per their message
      "offset + size > mc_Buffer.size": nothing moves past the end. */
  function TransferResult(isInitialized: bool, bufferSize: nat, offset: nat, size: nat): nat {
    if !isInitialized then 0
    else if offset + size > bufferSize then 0
    else size
  }

  /** As written, a four-byte transfer at offset 2 of a four-byte buffer is
      reported as done, running two bytes past its end. */
  lemma TransferAsWrittenOverruns()
    ensures TransferResultAsWritten(true, 4, 2, 4) == 4 && 2 + 4 > 4
    ensures TransferResult(true, 4, 2, 4) == 0
  {
  }

  /** The intended guard never reports a transfer past the end, and agrees
      with the written one on every request that stays in bounds. */
  lemma TransferStaysInBounds(isInitialized: bool, bufferSize: nat, offset: nat, size: nat)
    ensures TransferResult(isInitialized, bufferSize, offset, size) != 0 ==> offset + size <= bufferSize
    ensures offset + size <= bufferSize ==>
              TransferResult(isInitialized, bufferSize, offset, size)
              == TransferResultAsWritten(isInitialized, bufferSize, offset, size)
  {
  }

  /** `struct mc_Buffer`: the size in bytes and the host-mapped memory. */
  class Buffer {
    var isInitialized: bool
    var size: nat
    var mapped: array<bv8>

    /** An initialised buffer maps exactly `size` bytes. */
    predicate Valid()
      reads this
    {
      isInitialized ==> mapped.Length == size
    }

    /** `mc_buffer_init`. The driver's answers are parameters: whether the
        buffer object is created, the size it requires, the memory types and
        heaps on offer, and whether the allocation succeeds. The size grows
        to the requirement before memory is chosen for it. */
    constructor (createOk: bool, requestedSize: nat, requiredSize: nat,
                 types: seq<MemoryType>, heaps: seq<MemoryHeap>, allocOk: bool)
      requires HeapsExist(types, heaps)
      ensures Valid() && fresh(mapped)
      ensures size == if createOk && requiredSize > requestedSize then requiredSize else requestedSize
      ensures createOk ==> size >= requestedSize && size >= requiredSize
      ensures isInitialized <==> createOk && SomeSuitable(types, heaps, size) && allocOk
    {
      var newSize := requestedSize;
      var ready := false;
      if createOk {
        if requiredSize > newSize {
          newSize := requiredSize;
        }
        var memoryTypeIdx := ChooseMemoryType(types, heaps, newSize);
        ready := memoryTypeIdx != |types| && allocOk;
        if memoryTypeIdx == |types| {
          assert !SomeSuitable(types, heaps, newSize);
        } else {
          assert SomeSuitable(types, heaps, newSize) by {
            assert Suitable(types[memoryTypeIdx], heaps[types[memoryTypeIdx].heapIndex], newSize);
          }
        }
      }
      size := newSize;
      mapped := new bv8[if ready then newSize else 0];
      isInitialized := ready;
    }

    /** `mc_buffer_write` with the bounds guard its message describes:
        copies `data` to `offset` and returns its length, or copies nothing
        and returns 0. */
    method Write(offset: nat, data: seq<bv8>) returns (written: nat)
      requires Valid()
      modifies mapped
      ensures written == TransferResult(isInitialized, size, offset, |data|)
      ensures written != 0 ==>
                mapped[..] == old(mapped[..offset]) + data + old(mapped[offset + |data|..])
      ensures written == 0 ==> mapped[..] == old(mapped[..])
    {
      if !isInitialized {
        return 0;
      }
      if offset + |data| > size {
        return 0;
      }
      for i := 0 to |data|
        invariant mapped[..] == old(mapped[..offset]) + data[..i] + old(mapped[offset + i..])
      {
        mapped[offset + i] := data[i];
        assert data[..i + 1] == data[..i] + [data[i]];
      }
      assert data[..|data|] == data;
      written := |data|;
    }

    /** `mc_buffer_read` with the intended bounds guard: copies `count` bytes
        from `offset` into the caller's `dst`, or nothing, and returns how
        many it copied. */
    method Read(offset: nat, count: nat, dst: array<bv8>) returns (read: nat)
      requires Valid() && count <= dst.Length && dst != mapped
      modifies dst
      ensures read == TransferResult(isInitialized, size, offset, count)
      ensures read != 0 ==> dst[..count] == mapped[offset..offset + count] && dst[count..] == old(dst[count..])
      ensures read == 0 ==> dst[..] == old(dst[..])
    {
      if !isInitialized {
        return 0;
      }
      if offset + count > size {
        return 0;
      }
      for i := 0 to count
        invariant dst[..i] == mapped[offset..offset + i]
        invariant dst[i..] == old(dst[i..])
      {
        dst[i] := mapped[offset + i];
        assert dst[..i + 1] == dst[..i] + [dst[i]];
        assert dst[i + 1..] == old(dst[i..])[1..];
      }
      read := count;
    }
  }

  /** `struct mc_Program` as far as its buffers go. */
  class Program {
    const buffers: seq<Buffer>

    constructor (buffers: seq<Buffer>)
      ensures this.buffers == buffers
    {
      this.buffers := buffers;
    }

    predicate Valid()
      reads this, buffers
    {
      forall k :: 0 <= k < |buffers| ==> buffers[k].Valid()
    }

    /** `mc_program_nth_buffer_get_size`: 0 for a buffer that does not exist. */
    method NthBufferGetSize(n: nat) returns (size: nat)
      ensures size == if n < |buffers| then buffers[n].size else 0
    {
      if n >= |buffers| {
        return 0;
      }
      size := buffers[n].size;
    }

    /** `mc_program_nth_buffer_write`: 0, and no memory touched, for a buffer
        that does not exist. */
    method NthBufferWrite(n: nat, offset: nat, data: seq<bv8>) returns (written: nat)
      requires Valid()
      modifies if n < |buffers| then {buffers[n].mapped} else {}
      ensures n >= |buffers| ==> written == 0
      ensures n < |buffers| ==>
                var b := buffers[n];
                && written == TransferResult(b.isInitialized, b.size, offset, |data|)
                && (written != 0 ==> b.mapped[..] == old(b.mapped[..offset]) + data + old(b.mapped[offset + |data|..]))
                && (written == 0 ==> b.mapped[..] == old(b.mapped[..]))
    {
      if n >= |buffers| {
        return 0;
      }
      written := buffers[n].Write(offset, data);
    }

    /** `mc_program_nth_buffer_read`: 0, and nothing copied, for a buffer
        that does not exist. */
    method NthBufferRead(n: nat, offset: nat, count: nat, dst: array<bv8>) returns (read: nat)
      requires Valid()
      requires n < |buffers| ==> count <= dst.Length && dst != buffers[n].mapped
      modifies dst
      ensures n >= |buffers| ==> read == 0 && dst[..] == old(dst[..])
      ensures n < |buffers| ==>
                var b := buffers[n];
                && read == TransferResult(b.isInitialized, b.size, offset, count)
                && (read != 0 ==> dst[..count] == b.mapped[offset..offset + count] && dst[count..] == old(dst[count..]))
                && (read == 0 ==> dst[..] == old(dst[..]))
    {
      if n >= |buffers| {
        return 0;
      }
      read := buffers[n].Read(offset, count, dst);
    }
  }

  /** The result of a `uint32_t` multiplication. */
  const U32: nat := 0x1_0000_0000

  function MulU32(a: nat, b: nat): (r: nat)
    requires a < U32 && b < U32
    ensures r < U32
  {
    (a * b) % U32
  }

  /** `mc_program_dispatch` as written gives up when `x * y * z`, computed
      in 32 bits, is 0. */
  predicate DispatchRefusedAsWritten(x: nat, y: nat, z: nat)
    requires x < U32 && y < U32 && z < U32
    ensures DispatchRefusedAsWritten(x, y, z) <==> (x * y * z) % U32 == 0
  {
    MulModLeft(x * y, z);
    MulU32(MulU32(x, y), z) == 0
  }

  /** Reducing a factor modulo 2^32 first does not change the product
      modulo 2^32. */
  lemma MulModLeft(a: nat, b: nat)
    ensures ((a % U32) * b) % U32 == (a * b) % U32
  {
    var q, r := a / U32, a % U32;
    assert a * b == (q * b) * U32 + r * b;
    var q2, r2 := (r * b) / U32, (r * b) % U32;
    assert a * b == (q * b + q2) * U32 + r2;
  }

  /** What its message, "at least one dimension is 0", evidently intends. */
  predicate DispatchRefused(x: nat, y: nat, z: nat) {
    x == 0 || y == 0 || z == 0
  }

  /** The intended guard refuses exactly the empty grids, and the written
      one refuses all of those too. */
  lemma DispatchRefusesEmptyGrids(x: nat, y: nat, z: nat)
    requires x < U32 && y < U32 && z < U32
    ensures DispatchRefused(x, y, z) <==> x * y * z == 0
    ensures DispatchRefused(x, y, z) ==> DispatchRefusedAsWritten(x, y, z)
  {
    if x * y * z == 0 {
      if x != 0 && y != 0 {
        assert x * y != 0;
      }
    }
  }

  /** As written, a 65536 x 65536 x 1 grid is refused as if a dimension
      were 0: the product wraps to 0 in 32 bits. */
  lemma DispatchAsWrittenRefusesFullGrid()
    ensures DispatchRefusedAsWritten(65536, 65536, 1)
    ensures !DispatchRefused(65536, 65536, 1)
  {
    assert 65536 * 65536 == U32;
  }

  /** `mc_DebugLevel` is a C enum: any integer can arrive. */
  const MC_DEBUG_LEVEL_INFO: int := 0
  const MC_DEBUG_LEVEL_LOW: int := 1
  const MC_DEBUG_LEVEL_MEDIUM: int := 2
  const MC_DEBUG_LEVEL_HIGH: int := 3

  /** `mc_debug_level_to_str`: never null, always an `MC_DEBUG_LEVEL_`
      name, and the fallback exactly for values that name no level. */
  function DebugLevelToStr(level: int): (name: string)
    ensures |name| > 15 && name[..15] == "MC_DEBUG_LEVEL_"
    ensures name == "MC_DEBUG_LEVEL_UNKNOWN" <==> !(MC_DEBUG_LEVEL_INFO <= level <= MC_DEBUG_LEVEL_HIGH)
  {
    if level == MC_DEBUG_LEVEL_INFO then "MC_DEBUG_LEVEL_INFO"
    else if level == MC_DEBUG_LEVEL_LOW then "MC_DEBUG_LEVEL_LOW"
    else if level == MC_DEBUG_LEVEL_MEDIUM then "MC_DEBUG_LEVEL_MEDIUM"
    else if level == MC_DEBUG_LEVEL_HIGH then "MC_DEBUG_LEVEL_HIGH"
    else "MC_DEBUG_LEVEL_UNKNOWN"
  }

  /** Distinct levels have distinct names. */
  lemma DebugLevelNamesDistinct(a: int, b: int)
    requires MC_DEBUG_LEVEL_INFO <= a <= MC_DEBUG_LEVEL_HIGH && MC_DEBUG_LEVEL_INFO <= b <= MC_DEBUG_LEVEL_HIGH
    ensures DebugLevelToStr(a) == DebugLevelToStr(b) ==> a == b
  {
  }
}
