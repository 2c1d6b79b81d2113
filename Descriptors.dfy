/** The Direct3D 11 resource descriptors the pipeline fills in, the dispatch grid,
    and the rule for attaching initial data to a new buffer. */
module Descriptors {
  import opened Wrappers
  import opened LittleEndian

  // D3D11_USAGE
  const UsageDefault: nat := 0
  const UsageStaging: nat := 3
  // D3D11_BIND_FLAG
  const BindShaderResource: nat := 0x8
  const BindUnorderedAccess: nat := 0x80
  // D3D11_RESOURCE_MISC_FLAG
  const MiscBufferStructured: nat := 0x40
  // D3D11_CPU_ACCESS_FLAG
  const CpuAccessRead: nat := 0x2_0000
  // DXGI_FORMAT_UNKNOWN and the buffer view dimension of a UAV description
  const FormatUnknown: nat := 0
  const UavDimensionBuffer: nat := 1

  /** sizeof(float) == sizeof(int): every element of both structured buffers is four bytes. */
  const ElementStride: nat := 4
  /** Threads per group; the kernel declares the same number. */
  const ThreadsPerGroup: nat := 256

  /** D3D11_BUFFER_DESC (all fields are uint in the source). */
  datatype BufferDesc = BufferDesc(
    byteWidth: nat,
    usage: nat,
    bindFlags: nat,
    cpuAccessFlags: nat,
    miscFlags: nat,
    structureByteStride: nat)
  {
    predicate IsStructured() {
      miscFlags == MiscBufferStructured && structureByteStride > 0
    }

    /** How many elements of `structureByteStride` bytes the buffer holds. */
    function Capacity(): nat
      requires IsStructured()
    {
      byteWidth / structureByteStride
    }
  }

  /** D3D11_UNORDERED_ACCESS_VIEW_DESC over a buffer. */
  datatype UavDesc = UavDesc(
    format: nat,
    viewDimension: nat,
    firstElement: nat,
    numElements: nat,
    flags: nat)

  /** `bufferLen`: the byte width of a buffer that holds `elementCount` 32-bit values. */
  function ByteWidth(elementCount: nat): nat {
    elementCount * ElementStride
  }

  /** The input buffer: device-local, readable by the kernel, structured with stride 4. */
  function InputBufferDesc(elementCount: nat): (d: BufferDesc)
    ensures d.IsStructured() && d.Capacity() == elementCount
    ensures d.byteWidth == 4 * elementCount && d.usage == UsageDefault
    ensures d.bindFlags == BindShaderResource && d.cpuAccessFlags == 0
    ensures d.structureByteStride == ElementStride && d.miscFlags == MiscBufferStructured
  {
    BufferDesc(ByteWidth(elementCount), UsageDefault, BindShaderResource, 0, MiscBufferStructured, ElementStride)
  }

  /** The output buffer: device-local, writable by the kernel, structured with stride 4. */
  function OutputBufferDesc(elementCount: nat): (d: BufferDesc)
    ensures d.IsStructured() && d.Capacity() == elementCount
    ensures d.byteWidth == 4 * elementCount && d.usage == UsageDefault
    ensures d.bindFlags == BindUnorderedAccess && d.cpuAccessFlags == 0
    ensures d.structureByteStride == ElementStride && d.miscFlags == MiscBufferStructured
  {
    BufferDesc(ByteWidth(elementCount), UsageDefault, BindUnorderedAccess, 0, MiscBufferStructured, ElementStride)
  }

  /** The view through which the kernel writes the output buffer. */
  function OutputUavDesc(elementCount: nat): (v: UavDesc)
    ensures v.firstElement == 0 && v.numElements == elementCount
    ensures v.format == FormatUnknown && v.viewDimension == UavDimensionBuffer && v.flags == 0
  {
    UavDesc(FormatUnknown, UavDimensionBuffer, 0, elementCount, 0)
  }

  /** CreateStagingBuffer's descriptor: host-readable, bound to nothing, not structured. */
  function StagingBufferDesc(byteWidth: nat): (d: BufferDesc)
    ensures d.byteWidth == byteWidth && d.usage == UsageStaging
    ensures d.bindFlags == 0 && d.cpuAccessFlags == CpuAccessRead && !d.IsStructured()
    ensures d.miscFlags == 0 && d.structureByteStride == 0
  {
    BufferDesc(byteWidth, UsageStaging, 0, CpuAccessRead, 0, 0)
  }

  /** All three buffers of one run are `4 * elementCount` bytes wide; both structured
      buffers hold exactly `elementCount` four-byte elements; the output view spans the
      whole output buffer from element 0; the staging buffer is the only host-readable one. */
  lemma BuffersAgree(elementCount: nat)
    ensures var input, output := InputBufferDesc(elementCount), OutputBufferDesc(elementCount);
            var staging := StagingBufferDesc(ByteWidth(elementCount));
            var uav := OutputUavDesc(elementCount);
            && input.IsStructured() && output.IsStructured()
            && input.structureByteStride == output.structureByteStride == 4
            && input.byteWidth == output.byteWidth == staging.byteWidth == 4 * elementCount
            && input.Capacity() == output.Capacity() == elementCount
            && uav.firstElement == 0 && uav.numElements == output.Capacity()
            && uav.numElements * output.structureByteStride == output.byteWidth
            && input.bindFlags == BindShaderResource && output.bindFlags == BindUnorderedAccess
            && staging.bindFlags == 0 && !staging.IsStructured()
            && input.cpuAccessFlags == output.cpuAccessFlags == 0 && staging.cpuAccessFlags == CpuAccessRead
  {
  }

  /** The pInitData that CreateBuffer passes: the bytes when there are any, otherwise none. */
  function InitialData(data: Option<seq<uint8>>): (init: Option<seq<uint8>>)
    ensures init.Some? <==> data.Some? && |data.value| > 0
    ensures init.Some? ==> init == data
  {
    if data.Some? && |data.value| > 0 then data else None
  }

  /** The zero-filled array `new byte[n]`. */
  function Zeros(n: nat): (bytes: seq<uint8>)
    ensures |bytes| == n && forall i :: 0 <= i < n ==> bytes[i] == 0
  {
    seq(n, _ => 0)
  }

  /** Thread-group counts of a Dispatch call. */
  datatype Grid = Grid(x: nat, y: nat, z: nat)

  /** Dispatch(ceil(rowCount / 256), 1, 1): enough groups of 256 threads for every row,
      and no group that holds no row. */
  function DispatchGrid(rowCount: nat): (g: Grid)
    ensures g.y == 1 && g.z == 1
    ensures g.x * ThreadsPerGroup >= rowCount
    ensures g.x > 0 ==> (g.x - 1) * ThreadsPerGroup < rowCount
  {
    Grid((rowCount + ThreadsPerGroup - 1) / ThreadsPerGroup, 1, 1)
  }

  /** Every row has a thread: the group r / 256 that holds row r is inside the grid. */
  lemma DispatchCoversRows(rowCount: nat, r: nat)
    requires r < rowCount
    ensures r / ThreadsPerGroup < DispatchGrid(rowCount).x
  {
  }

  lemma DispatchGridExamples()
    ensures DispatchGrid(1).x == 1
    ensures DispatchGrid(256).x == 1
    ensures DispatchGrid(257).x == 2
    ensures DispatchGrid(10000).x == 40
  {
  }
}
