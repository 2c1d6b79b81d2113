# PSAccel host-side logic in Dafny

PSAccel filters PowerShell records on the GPU. `RunAccelFilterFromObjects` turns N records and
S property names into a row-major float matrix. `RunStructuredFilter` runs a user-supplied HLSL
compute kernel over that matrix through Direct3D 11 and reads back one 32-bit mask entry per row.
The host then keeps the records whose mask entry is 1.

This project models the logic around the GPU call and proves its properties:

- the records-to-matrix flattening, a nested loop over an array;
- the mask compaction, a loop with a running `count` over an array, then a resize;
- the size arithmetic and the buffer, view and staging descriptors;
- the dispatch grid;
- the little-endian int32 decode of the readback, a loop over an array;
- the error ordering of the whole pipeline;
- the init-once guard on the static `Device`/`Context` handles;
- the rule for attaching initial data to a buffer;
- the failure rule of `CompileShader`.

Every native call (device creation, shader compilation, buffer and view creation, `Map`) is an
outcome supplied by a `Native` value. The kernel's own computation is an uninterpreted function
`gpu` that gives each byte of the output buffer.

Modules:

- `Wrappers`: `Option` for the source's nullable references and `Result` for its exceptions.
- `Arithmetic`: the product fact the size computations share.
- `LittleEndian`: bytes, `int32`, `BitConverter.ToInt32` and its inverse, and the byte layout
  of a `float[]`/`int[]` (`Serialize`).
- `Descriptors`: the `D3D11_BUFFER_DESC` and `D3D11_UNORDERED_ACCESS_VIEW_DESC` values the
  pipeline builds, the D3D11 constants, `DispatchGrid`, and the `pInitData` rule.
- `Marshaling`: `Flatten` and `Kept`, the specification functions. `FlattenRecords` and
  `Compact` are the array loops of the source, proved against them.
- `ComputePipeline`: the error kinds, `CompileShader`, the pipeline after `Init` (`Pipeline`),
  and `DecodeMask`, the readback loop.
- `Accel`: class `Accel` holds the static `Device`, `Context` and `_pinnedBlob` fields. Its methods
  are `Init`, `RunStructuredFilter` and `RunAccelFilterFromObjects`, each specified by a
  function of the old state (`InitResult`, `StructuredFilter`, `FilterFromObjects`). The lemmas
  about the whole filter are in this module too.

The model follows the code in these places, where its behaviour is easy to misread:

- `CompileShader` also fails when `D3DCompile` reports success but returns no code.
- `CreateBuffer` does not check the length of the initial data against the byte width. It only
  drops a null or empty array.
- An empty property list with a non-empty input reaches `RunStructuredFilter`. There `Init` runs
  first and then `flatData.Length / stride` divides by zero.
- The output view spans the whole output buffer (`flatData.Length` elements). Only the first
  `rowCount` elements are decoded.
- `Init` stores both handles that `D3D11CreateDevice` writes out before it checks the HRESULT.
- Four failures throw without writing a log line first: a failing `Init`, a failing `Map`,
  the division by zero at `flatData.Length / stride`, and the null `propertyList`. The failures
  of `CreateBuffer`, `CreateShaderResourceView`, `CreateUnorderedAccessView` and
  `CreateComputeShader` are logged before the throw. `CompileShader` logs its result and message
  on every call.
- The compile error's text is not the compiler's diagnostic. `CompileShader` passes the
  error-blob interface pointer itself to `Marshal.PtrToStringAnsi`, without `GetBufferPointer()`.
  The model carries that text as an opaque `errorText`.

## Model

| member | source | states |
|---|---|---|
| `LittleEndian.DecodeInt32At` | PSAccel.cs:501 | the four bytes at an offset read as a little-endian two's-complement int32, always in int32 range, negative exactly when the top byte's high bit is set |
| `LittleEndian.DecodeEncode` | PSAccel.cs:501 | decoding the in-memory bytes of any int32 gives that int32 back |
| `LittleEndian.EncodeDecode` | PSAccel.cs:501 | the int32 decoded from any four bytes lays out as exactly those four bytes |
| `LittleEndian.Serialize` | PSAccel.cs:443-444 | the `Buffer.BlockCopy` image of an array. `SerializeLength` and `SerializeAt` specify it: 4n bytes, element k at bytes 4k..4k+3 |
| `LittleEndian.SerializeLength` | PSAccel.cs:443-444 | the byte image of n four-byte values is 4n bytes long |
| `LittleEndian.SerializeAt` | PSAccel.cs:443-444 | value k of the array occupies bytes 4k..4k+3 of the byte copy, in order |
| `LittleEndian.DecodeSerializedInt32s` | PSAccel.cs:499-501 | reading n int32s back from the byte image of n int32s returns exactly those int32s |
| `Descriptors.ByteWidth` | PSAccel.cs:434 | `bufferLen`, four bytes per element. `BuffersAgree` and the descriptor builders state the widths built on it |
| `Descriptors.InputBufferDesc` | PSAccel.cs:447-455 | the input buffer is structured (misc flag 0x40, stride 4) with capacity `flatData.Length` four-byte elements, `4 * flatData.Length` bytes wide, default usage, bound as a shader resource and not CPU-accessible |
| `Descriptors.OutputBufferDesc` | PSAccel.cs:459-467 | the output buffer is structured (misc flag 0x40, stride 4) with capacity `flatData.Length` four-byte elements, `4 * flatData.Length` bytes wide, default usage, bound for unordered access and not CPU-accessible |
| `Descriptors.OutputUavDesc` | PSAccel.cs:471-478 | the output view starts at element 0, spans `flatData.Length` elements, has format UNKNOWN, view dimension 1 and no flags |
| `Descriptors.StagingBufferDesc` | PSAccel.cs:329-340 | the staging buffer is `byteWidth` bytes wide, has staging usage, is bound to nothing, is CPU-readable and is not structured (misc flags 0, stride 0) |
| `Descriptors.BuffersAgree` | PSAccel.cs:447-492 | input, output and staging buffers are all `4 * flatData.Length` bytes; both structured buffers have stride 4 and capacity `flatData.Length`; the UAV starts at element 0 and spans the whole output buffer, so its element count times the stride is the byte width; the input binds as a shader resource and the output as an unordered-access view; only the staging buffer is CPU-readable, and it is unbound and unstructured |
| `Descriptors.InitialData` | PSAccel.cs:193-210 | initial data is passed exactly when `data` is non-null with at least one byte, and then it is `data` unchanged |
| `Descriptors.Zeros` | PSAccel.cs:468 | `new byte[n]` holds n zero bytes |
| `Descriptors.DispatchGrid` | PSAccel.cs:489 | the grid is (x, 1, 1), where x groups of 256 threads cover every row and the last group is not empty, i.e. x = ceil(rowCount / 256) |
| `Descriptors.DispatchCoversRows` | PSAccel.cs:489 | the group r / 256 that holds row r lies inside the grid |
| `Descriptors.DispatchGridExamples` | PSAccel.cs:489 | 1, 256, 257 and 10000 rows dispatch 1, 1, 2 and 40 groups |
| `Marshaling.CellValue` | PSAccel.cs:389-398 | one cell of the matrix. `FlattenAt` specifies it: the parsed property value, or 0 when the property is missing, its value is null or it does not parse |
| `Marshaling.Flatten` | PSAccel.cs:380-400 | the row-major matrix of the records. `FlattenLength` and `FlattenAt` specify it: rows * cols entries, entry i * cols + j being property j of record i, and `FlattenRecords` is proved equal to it |
| `Marshaling.FlattenLength` | PSAccel.cs:380-382 | the matrix has rows * cols entries |
| `Marshaling.FlattenAt` | PSAccel.cs:384-400 | entry `i * cols + ii` is in bounds and holds the parse of property `propertyList[ii]` of record i, or 0 when that property is missing, null or unparseable |
| `Marshaling.FlattenRecords` | PSAccel.cs:382-400 | the nested loop fills the zero-initialised array exactly with the row-major matrix of the records, one row per record in order |
| `Marshaling.Kept` | PSAccel.cs:404-413 | the records the mask keeps. `KeptSelectsOnes`, `KeptIsMaskedSubsequence`, `KeptIndicesExact`, `KeptAllOnes` and `KeptNoOnes` specify it, and `Compact` is proved equal to it |
| `Marshaling.KeptIndices` | PSAccel.cs:407-411 | the selected indices all lie within the mask |
| `Marshaling.KeptIndicesExact` | PSAccel.cs:407-411 | the selected indices are strictly increasing. An index is selected iff its mask entry is 1, so any other value drops the record. There are as many as there are 1s in the mask |
| `Marshaling.KeptIndicesAscending` | PSAccel.cs:407-411 | the selected indices are strictly increasing, so the kept records stay in input order |
| `Marshaling.KeptIndicesSelectOnes` | PSAccel.cs:407-411 | an index is selected iff its mask entry is exactly 1 |
| `Marshaling.KeptIndicesCount` | PSAccel.cs:407-411 | there are as many selected indices as 1s in the mask |
| `Marshaling.KeptIsMaskedSubsequence` | PSAccel.cs:404-413 | the compacted records are the records at the selected indices, in the same order |
| `Marshaling.KeptSelectsOnes` | PSAccel.cs:404-413 | the result has one record per 1 in the mask, and its k-th record is the record at the k-th selected index |
| `Marshaling.KeptPrefix` | PSAccel.cs:407 | only the first `mask.Length` records can be selected |
| `Marshaling.KeptAllOnes` | PSAccel.cs:407-413 | a mask of all 1s of the records' length returns the records unchanged |
| `Marshaling.KeptNoOnes` | PSAccel.cs:407-413 | a mask without a 1 returns no records |
| `Marshaling.KeptExample` | PSAccel.cs:404-413 | scores 10, 55, 99 with mask 0, 1, 1 keep the last two records in order |
| `Marshaling.Compact` | PSAccel.cs:404-413 | the `results[count++]` loop followed by `Array.Resize(ref results, count)` returns exactly the masked subsequence, and every write stays below `rows` |
| `ComputePipeline.CompileMessage` | PSAccel.cs:167 | `msg`: the text read at the error-blob pointer, or "No error string." when it is null. `CompileShader`'s error clause states it |
| `ComputePipeline.CompileShader` | PSAccel.cs:158-180 | compilation fails iff the HRESULT is non-zero or no code came back. The error carries the HRESULT and the text `PtrToStringAnsi` reads at the error-blob pointer, or "No error string." when that pointer is null. The bytecode size (a 0 or >64 KiB size is only logged) never decides the outcome |
| `ComputePipeline.CreateBuffer` | PSAccel.cs:182-229 | the device is called with the descriptor and the initial data `InitialData` picks; the call fails iff that HRESULT is non-zero, and the error carries it |
| `ComputePipeline.CreateShaderResourceView` | PSAccel.cs:231-248 | fails iff the device's HRESULT is non-zero, and the error carries it |
| `ComputePipeline.CreateUnorderedAccessView` | PSAccel.cs:250-275 | fails iff the device's HRESULT for the buffer and view description is non-zero, and the error carries it |
| `ComputePipeline.CreateComputeShader` | PSAccel.cs:277-293 | fails iff the device's HRESULT for the compiled kernel is non-zero, and the error carries it |
| `ComputePipeline.ReadStagingBuffer` | PSAccel.cs:352-373 | fails iff `Map` reports a non-zero HRESULT, carrying it; otherwise returns exactly the `byteCount` bytes the staging buffer holds |
| `ComputePipeline.RowCountFits` | PSAccel.cs:433-434 | with a positive stride, `rowCount <= flatData.Length`, so the `rowCount * 4` bytes decoded fit in the `bufferLen` bytes read back |
| `ComputePipeline.RowsRecovered` | PSAccel.cs:380-382 | a rows * cols matrix divided by stride cols gives back rows |
| `ComputePipeline.Pipeline` | PSAccel.cs:433-501 | RunStructuredFilter after Init, as the first failing step's error or the mask. `PipelineError` fixes the error, and `PipelineSucceeds`, `PipelineMask` and `PipelineReadsKernelOutput` fix the mask |
| `ComputePipeline.FirstFailure` | PSAccel.cs:433-494 | the reference for the exception: the division, compile, input buffer, output buffer, SRV, UAV, compute shader, staging buffer and Map steps in source order, each with its own error kind and HRESULT; the first failing one decides. `PipelineError` relates it to `Pipeline` |
| `ComputePipeline.PipelineError` | PSAccel.cs:433-494 | a run fails iff some step fails, and then it throws exactly the error of the first failing step with that step's HRESULT (lines 433, 172, 225, 225, 243, 271, 288, 225, 364) |
| `ComputePipeline.PipelineSucceeds` | PSAccel.cs:433-494 | after Init, the pipeline returns a mask exactly when the stride is non-zero, the shader compiles and every create/map call reports 0; any failure aborts with no partial mask |
| `ComputePipeline.PipelineMask` | PSAccel.cs:489-501 | a successful pipeline returns `flatData.Length / stride` entries, entry i being the int32 at bytes 4i..4i+3 of the output buffer, all inside its `bufferLen` bytes |
| `ComputePipeline.PipelineReadsKernelOutput` | PSAccel.cs:492-501 | if the kernel left the int32s `written` in the first rowCount elements of the output buffer, the mask is exactly `written` |
| `LittleEndian.DecodeInt32s` | PSAccel.cs:499-501 | the first `count` int32s of a byte buffer, one entry per row. `DecodeSerializedInt32s` and `PipelineMask` specify its contents, and `DecodeMask` is proved equal to it |
| `ComputePipeline.OutputBytes` | PSAccel.cs:489-494 | the `bufferLen` bytes the staging copy and Map hand back, byte k being what the kernel left at byte k of the output buffer; `PipelineReadsKernelOutput` relates them to the mask |
| `ComputePipeline.DecodeMask` | PSAccel.cs:499-501 | the loop `result[i] = BitConverter.ToInt32(rawMask, i * 4)` returns the rowCount int32s at offsets 0, 4, 8, ... |
| `Accel.InitResult` | PSAccel.cs:140-147 | Init fails iff the handles were not both set and device creation reported a non-zero HRESULT, and the error carries that HRESULT |
| `Accel.StructuredFilter` | PSAccel.cs:423-504 | Init, then the pipeline. `StructuredFilterMaskLength` specifies the mask it returns, and `Accel.Accel.RunStructuredFilter` is proved equal to it |
| `Accel.StructuredFilterMaskLength` | PSAccel.cs:433-501 | a successful RunStructuredFilter had a positive stride and returns `flatData.Length / stride` entries |
| `Accel.FilterFromObjects` | PSAccel.cs:375-415 | RunAccelFilterFromObjects as a value: the early return, the null property list, flatten, filter, compact. `EmptyInputYieldsEmpty`, `NoPropertiesDividesByZero`, `FilterIsKeptByMask`, `FilterKeepsMaskedRecords` and `FilterIdentityAndRejectAll` specify it |
| `Accel.EmptyInputYieldsEmpty` | PSAccel.cs:377-378 | a null or empty input returns an empty array whatever the property list and kernel |
| `Accel.NoPropertiesDividesByZero` | PSAccel.cs:423-433 | a non-empty input with an empty property list fails with division by zero, or with the device-creation error if Init fails first |
| `Accel.FilterIsKeptByMask` | PSAccel.cs:402-414 | a successful filter had at least one property and got one mask entry per record, and it returns the records that mask keeps |
| `Accel.FilterKeepsMaskedRecords` | PSAccel.cs:404-414 | a successful filter returns exactly the records at the indices where the mask is 1, in original order, one per 1 in the mask |
| `Accel.FilterIdentityAndRejectAll` | PSAccel.cs:407-413 | a kernel that writes 1 for every row returns all records in order, and one that never writes 1 returns none |
| `Accel.Accel.constructor` | PSAccel.cs:17-19 | the static handles start as zero/null |
| `Accel.Accel.Ready` | PSAccel.cs:140 | both handles are set, the condition under which Init returns at once; `Init`'s contract states what it decides |
| `Accel.Accel.Init` | PSAccel.cs:138-150 | with both handles set nothing changes and Init succeeds. Otherwise both handles become what device creation wrote out, and a non-zero HRESULT is an error |
| `Accel.Accel.RunStructuredFilter` | PSAccel.cs:423-504 | returns `StructuredFilter` of the old state (Init, then the pipeline). The handles change as Init specifies. `_pinnedBlob` becomes the compiled blob exactly when the call gets past compilation |
| `Accel.Accel.RunAccelFilterFromObjects` | PSAccel.cs:375-415 | returns `FilterFromObjects` of the old state. A null or empty input, or a null property list, leaves the static state untouched. Otherwise the state changes as in RunStructuredFilter with stride = number of properties |

## Left out

- Native calls: the P/Invoke and COM calls (`D3D11CreateDevice`, `D3DCompile`, `GetMethod`'s
  method-table lookup and the delegates) are not modelled. They are foreign ABI calls, so only
  their reported outcomes appear, as fields of `Native`.
- Void native calls: `SetComputeShader`, `SetSRV`, `SetUAV`, `Dispatch` and `CopyResource`
  report nothing. The model has no steps for them. The dispatch grid reaches the model only as
  an argument of `gpu`, and the bind slots and the UAV initial count are not modelled.
- Unmanaged memory: `Marshal.AllocHGlobal`, `FreeHGlobal`, `StructureToPtr` and the
  descriptor byte dumps are not modelled.
- Logging: `OutputDebugString` is a one-way sink, so nothing it prints is modelled. This covers the
  per-cell "invalid property" warning, the bytecode-size warning and the feature level.
- Floats: `float.TryParse` is the abstract `PropertySource.parse` and the IEEE bit layout is
  the abstract `Native.floatBits`. Only where each float goes is modelled.
- The kernel: its computation is the uninterpreted `Native.gpu`.
- Concurrency and lifetime: the static fields are unsynchronised, and the model is
  single-threaded. The lifetime `_pinnedBlob` guarantees is not modelled; only the assignment is.
  No resource is ever released, and the model has no release path either.
- ComputePipeline.CompileShader: the compiler's diagnostic text is not modelled. The source
  reads ANSI text at the error blob's own address (PSAccel.cs:167), so the model carries only
  that text, as an opaque value supplied with the compile outcome.
- Endianness: `BitConverter.ToInt32` is modelled for a little-endian host.
- Accel.Accel.RunStructuredFilter: it requires `flatData.Length * 4` to fit in an int. C#'s
  unchecked wrap-around at lines 434 and 443 is not modelled.
- Accel.Accel.RunStructuredFilter: `stride` is a natural number. A negative stride is not
  modelled, because the only caller passes `propertyList.Length`.
- Accel.Accel.RunStructuredFilter: a null `flatData` is not modelled. Passed straight to this
  public method, it throws a NullReferenceException at line 433, after Init.
- Accel.Accel.RunAccelFilterFromObjects: it requires `rows * cols * 4` to fit in an int, so the
  wrap-around of `rows * cols` at line 382 is not modelled.
- Accel.Accel.RunAccelFilterFromObjects: a null element of `inputObjects` and a null `hlsl`
  string are not modelled. Each throws a NullReferenceException when it is dereferenced. A null
  element is dereferenced at line 389, which is reached only with at least one property name;
  with none, the call ends in the division by zero at line 433 instead. A null `hlsl` is
  dereferenced at line 163, once Init and the division at line 433 have passed.
- Accel.Accel.RunAccelFilterFromObjects: a null or empty name in `propertyList` is not modelled.
  `obj.Properties[name]` at line 389 belongs to PowerShell, which is not part of this model, and
  it rejects such a name with an exception that aborts the call. The model's `lookup` is total,
  so it yields a cell (0 when it finds nothing) and the filter carries on.
- Accel.Accel.Init: a successful status with a zero handle is not treated specially, as in the
  source. The next call then simply runs Init again.
