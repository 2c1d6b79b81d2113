/** The compute pipeline of RunStructuredFilter after Init: compile the kernel, create
    and bind the buffers and views, dispatch, read the output back through a staging
    buffer, and decode it into the mask. Every native call is an outcome supplied by a
    `Native` value; the GPU's computation is one uninterpreted function. */
module ComputePipeline {
  import opened Wrappers
  import opened LittleEndian
  import opened Arithmetic
  import opened Descriptors

  /** The exceptions the pipeline throws; each native failure carries its HRESULT. */
  datatype Error =
    | DeviceCreationFailed(status: int32)
    | ShaderCompileFailed(status: int32, message: string)
    | CreateBufferFailed(status: int32)
    | CreateShaderResourceViewFailed(status: int32)
    | CreateUnorderedAccessViewFailed(status: int32)
    | CreateComputeShaderFailed(status: int32)
    | MapFailed(status: int32)
    | DivideByZero   // rowCount = flatData.Length / stride with stride 0
    | NullReference  // propertyList is null

  /** What D3D11CreateDevice reports: its HRESULT and the two handles it writes out
      (0 stands for IntPtr.Zero). */
  datatype DeviceCreation = DeviceCreation(status: int32, device: nat, context: nat)

  /** What D3DCompile reports: its HRESULT, the code blob (0 for none) and that blob's
      size. `errorText` is None when the error-blob pointer is null; otherwise it is the
      ANSI text Marshal.PtrToStringAnsi reads at that pointer. The pointer is the blob
      object's own address, not its buffer's (GetBufferPointer is never called on it),
      so that text is not the compiler's diagnostic. */
  datatype CompileOutcome = CompileOutcome(status: int32, code: nat, size: int32, errorText: Option<string>)

  /** A compiled kernel: the blob that must stay alive, and its bytecode size. */
  datatype Kernel = Kernel(blob: nat, size: int32)

  /** The native layer as seen by the pipeline. Each `create*` and `mapForRead` gives the HRESULT
      of that call for the arguments the pipeline passes; `floatBits` is the IEEE layout of
      a float; `gpu(hlsl, input, grid, k)` is byte k of the output buffer after the kernel
      compiled from `hlsl` ran over `input` with that grid. */
  datatype Native<!F> = Native(
    createDevice: DeviceCreation,
    compile: string -> CompileOutcome,
    createBuffer: (BufferDesc, Option<seq<uint8>>) -> int32,
    createShaderResourceView: BufferDesc -> int32,
    createUnorderedAccessView: (BufferDesc, UavDesc) -> int32,
    createComputeShader: Kernel -> int32,
    mapForRead: BufferDesc -> int32,
    floatBits: F -> Word,
    gpu: (string, seq<uint8>, Grid, nat) -> uint8)

  /** The `msg` of CompileShader: the text read at the error-blob pointer, or a fixed
      string when that pointer is null. */
  function CompileMessage(errorText: Option<string>): string {
    match errorText
    case Some(text) => text
    case None => "No error string."
  }

  /** CompileShader: fails exactly when D3DCompile reports a non-zero HRESULT or no code.
      A bytecode size of 0 or above 64 KiB is only logged, so it never decides the outcome. */
  function CompileShader(outcome: CompileOutcome): (r: Result<Kernel, Error>)
    ensures r.Success? <==> outcome.status == 0 && outcome.code != 0
    ensures r.Success? ==> r.value == Kernel(outcome.code, outcome.size)
    ensures r.Failure? ==> r.error == ShaderCompileFailed(outcome.status, CompileMessage(outcome.errorText))
  {
    if outcome.status != 0 || outcome.code == 0 then
      Failure(ShaderCompileFailed(outcome.status, CompileMessage(outcome.errorText)))
    else
      Success(Kernel(outcome.code, outcome.size))
  }

  /** CreateBuffer: the device sees the descriptor, and initial data only when `data` has
      bytes; a non-zero HRESULT throws, carrying that HRESULT. */
  function CreateBuffer<F>(env: Native<F>, desc: BufferDesc, data: Option<seq<uint8>>): (r: Result<(), Error>)
    ensures var status := env.createBuffer(desc, InitialData(data));
            && (r.Success? <==> status == 0)
            && (r.Failure? ==> r.error == CreateBufferFailed(status))
  {
    var status := env.createBuffer(desc, InitialData(data));
    if status != 0 then Failure(CreateBufferFailed(status)) else Success(())
  }

  /** CreateShaderResourceView: a view over the whole buffer (null descriptor); a non-zero HRESULT throws. */
  function CreateShaderResourceView<F>(env: Native<F>, buffer: BufferDesc): (r: Result<(), Error>)
    ensures r.Success? <==> env.createShaderResourceView(buffer) == 0
    ensures r.Failure? ==> r.error == CreateShaderResourceViewFailed(env.createShaderResourceView(buffer))
  {
    var status := env.createShaderResourceView(buffer);
    if status != 0 then Failure(CreateShaderResourceViewFailed(status)) else Success(())
  }

  /** CreateUnorderedAccessView: the view `desc` over the buffer; a non-zero HRESULT throws. */
  function CreateUnorderedAccessView<F>(env: Native<F>, buffer: BufferDesc, desc: UavDesc): (r: Result<(), Error>)
    ensures r.Success? <==> env.createUnorderedAccessView(buffer, desc) == 0
    ensures r.Failure? ==> r.error == CreateUnorderedAccessViewFailed(env.createUnorderedAccessView(buffer, desc))
  {
    var status := env.createUnorderedAccessView(buffer, desc);
    if status != 0 then Failure(CreateUnorderedAccessViewFailed(status)) else Success(())
  }

  /** CreateComputeShader: a shader from the compiled bytecode and its size; a non-zero HRESULT throws. */
  function CreateComputeShader<F>(env: Native<F>, kernel: Kernel): (r: Result<(), Error>)
    ensures r.Success? <==> env.createComputeShader(kernel) == 0
    ensures r.Failure? ==> r.error == CreateComputeShaderFailed(env.createComputeShader(kernel))
  {
    var status := env.createComputeShader(kernel);
    if status != 0 then Failure(CreateComputeShaderFailed(status)) else Success(())
  }

  /** The bytes left in the output buffer, as CopyResource puts them in the staging buffer. */
  function OutputBytes<F>(env: Native<F>, hlsl: string, input: seq<uint8>, grid: Grid, byteCount: nat): (bytes: seq<uint8>)
    ensures |bytes| == byteCount
  {
    seq(byteCount, (k: int) requires 0 <= k => env.gpu(hlsl, input, grid, k))
  }

  /** ReadStagingBuffer: map for reading, copy `byteCount` bytes out, unmap. */
  function ReadStagingBuffer<F>(env: Native<F>, staging: BufferDesc, bytes: seq<uint8>): (r: Result<seq<uint8>, Error>)
    ensures r.Success? <==> env.mapForRead(staging) == 0
    ensures r.Success? ==> r.value == bytes
    ensures r.Failure? ==> r.error == MapFailed(env.mapForRead(staging))
  {
    var status := env.mapForRead(staging);
    if status != 0 then Failure(MapFailed(status)) else Success(bytes)
  }

  /** The rows a stride divides the matrix into never need more bytes than the matrix has. */
  lemma RowCountFits(length: nat, stride: nat)
    requires stride > 0
    ensures length / stride <= length
    ensures 4 * (length / stride) <= ByteWidth(length)
  {
    var q := length / stride;
    assert length == q * stride + length % stride;
    TimesAtLeastOne(q, stride);
  }

  /** With `stride` columns per row, a matrix of rows * stride entries has `rows` rows. */
  lemma RowsRecovered(rows: nat, stride: nat)
    requires stride > 0
    ensures (rows * stride) / stride == rows
  {
    var q := (rows * stride) / stride;
    assert rows * stride == q * stride + (rows * stride) % stride;
    if q > rows {
      TimesAtLeastOne(stride, q - rows);
    } else if q < rows {
      TimesAtLeastOne(stride, rows - q);
    }
  }

  /** RunStructuredFilter from line 433 on, once Init has succeeded: the mask, or the
      first failing step's error. */
  function Pipeline<F>(env: Native<F>, flat: seq<F>, stride: nat, hlsl: string): Result<seq<int32>, Error> {
    if stride == 0 then Failure(DivideByZero)
    else
      var rowCount := |flat| / stride;
      var bufferLen := ByteWidth(|flat|);
      var kernel :- CompileShader(env.compile(hlsl));
      var input := Serialize(env.floatBits, flat);
      var _ :- CreateBuffer(env, InputBufferDesc(|flat|), Some(input));
      var _ :- CreateBuffer(env, OutputBufferDesc(|flat|), Some(Zeros(bufferLen)));
      var _ :- CreateShaderResourceView(env, InputBufferDesc(|flat|));
      var _ :- CreateUnorderedAccessView(env, OutputBufferDesc(|flat|), OutputUavDesc(|flat|));
      var _ :- CreateComputeShader(env, kernel);
      var grid := DispatchGrid(rowCount);
      var _ :- CreateBuffer(env, StagingBufferDesc(bufferLen), Some(Zeros(bufferLen)));
      var raw :- ReadStagingBuffer(env, StagingBufferDesc(bufferLen), OutputBytes(env, hlsl, input, grid, bufferLen));
      RowCountFits(|flat|, stride);
      Success(DecodeInt32s(raw, rowCount))
  }

  /** Every failure aborts the whole call: the pipeline returns a mask exactly when the
      stride is positive, the kernel compiles and every native call reports S_OK. */
  lemma PipelineSucceeds<F>(env: Native<F>, flat: seq<F>, stride: nat, hlsl: string)
    ensures Pipeline(env, flat, stride, hlsl).Success? <==>
      var n, bufferLen := |flat|, ByteWidth(|flat|);
      var c := env.compile(hlsl);
      && stride > 0
      && c.status == 0 && c.code != 0
      && env.createBuffer(InputBufferDesc(n), InitialData(Some(Serialize(env.floatBits, flat)))) == 0
      && env.createBuffer(OutputBufferDesc(n), InitialData(Some(Zeros(bufferLen)))) == 0
      && env.createShaderResourceView(InputBufferDesc(n)) == 0
      && env.createUnorderedAccessView(OutputBufferDesc(n), OutputUavDesc(n)) == 0
      && env.createComputeShader(Kernel(c.code, c.size)) == 0
      && env.createBuffer(StagingBufferDesc(bufferLen), InitialData(Some(Zeros(bufferLen)))) == 0
      && env.mapForRead(StagingBufferDesc(bufferLen)) == 0
  {
  }

  /** The exception RunStructuredFilter throws after Init, as a reference independent of
      `Pipeline`: the steps in source order, each with its own error and HRESULT, and the
      first one that fails decides (None when none fails). */
  function FirstFailure<F>(env: Native<F>, flat: seq<F>, stride: nat, hlsl: string): Option<Error> {
    var n, bufferLen := |flat|, ByteWidth(|flat|);
    var c := env.compile(hlsl);
    var inputStatus := env.createBuffer(InputBufferDesc(n), InitialData(Some(Serialize(env.floatBits, flat))));
    var outputStatus := env.createBuffer(OutputBufferDesc(n), InitialData(Some(Zeros(bufferLen))));
    var srvStatus := env.createShaderResourceView(InputBufferDesc(n));
    var uavStatus := env.createUnorderedAccessView(OutputBufferDesc(n), OutputUavDesc(n));
    var shaderStatus := env.createComputeShader(Kernel(c.code, c.size));
    var stagingStatus := env.createBuffer(StagingBufferDesc(bufferLen), InitialData(Some(Zeros(bufferLen))));
    var mapStatus := env.mapForRead(StagingBufferDesc(bufferLen));
    if stride == 0 then Some(DivideByZero)
    else if c.status != 0 || c.code == 0 then Some(ShaderCompileFailed(c.status, CompileMessage(c.errorText)))
    else if inputStatus != 0 then Some(CreateBufferFailed(inputStatus))
    else if outputStatus != 0 then Some(CreateBufferFailed(outputStatus))
    else if srvStatus != 0 then Some(CreateShaderResourceViewFailed(srvStatus))
    else if uavStatus != 0 then Some(CreateUnorderedAccessViewFailed(uavStatus))
    else if shaderStatus != 0 then Some(CreateComputeShaderFailed(shaderStatus))
    else if stagingStatus != 0 then Some(CreateBufferFailed(stagingStatus))
    else if mapStatus != 0 then Some(MapFailed(mapStatus))
    else None
  }

  /** A run fails exactly when some step fails, and then it throws the error of the
      first failing step, carrying that step's HRESULT: nothing after it is reached. */
  lemma PipelineError<F>(env: Native<F>, flat: seq<F>, stride: nat, hlsl: string)
    ensures Pipeline(env, flat, stride, hlsl).Failure? <==> FirstFailure(env, flat, stride, hlsl).Some?
    ensures Pipeline(env, flat, stride, hlsl).Failure? ==>
              Pipeline(env, flat, stride, hlsl).error == FirstFailure(env, flat, stride, hlsl).value
  {
  }

  /** A successful run returns one int32 per row, and mask[i] is the little-endian int32
      at bytes 4i .. 4i+3 of the output buffer; all of those bytes lie inside the buffer. */
  lemma PipelineMask<F>(env: Native<F>, flat: seq<F>, stride: nat, hlsl: string)
    requires Pipeline(env, flat, stride, hlsl).Success?
    ensures stride > 0
    ensures var rowCount, bufferLen := |flat| / stride, ByteWidth(|flat|);
            var out := OutputBytes(env, hlsl, Serialize(env.floatBits, flat), DispatchGrid(rowCount), bufferLen);
            var mask := Pipeline(env, flat, stride, hlsl).value;
            && 4 * rowCount <= |out|
            && |mask| == rowCount
            && forall i :: 0 <= i < rowCount ==> mask[i] == DecodeInt32At(out, 4 * i)
  {
    RowCountFits(|flat|, stride);
  }

  /** The host reads back exactly the int32s the kernel wrote: if the first rowCount
      elements of the output buffer hold `written`, the mask is `written`. */
  lemma {:induction false} PipelineReadsKernelOutput<F>(env: Native<F>, flat: seq<F>, stride: nat, hlsl: string, written: seq<int32>)
    requires Pipeline(env, flat, stride, hlsl).Success?
    requires stride > 0 && |written| == |flat| / stride
    requires var out := OutputBytes(env, hlsl, Serialize(env.floatBits, flat), DispatchGrid(|written|), ByteWidth(|flat|));
             4 * |written| <= |out| && out[..4 * |written|] == Serialize(EncodeInt32, written)
    ensures Pipeline(env, flat, stride, hlsl).value == written
  {
    var out := OutputBytes(env, hlsl, Serialize(env.floatBits, flat), DispatchGrid(|written|), ByteWidth(|flat|));
    var mask := Pipeline(env, flat, stride, hlsl).value;
    PipelineMask(env, flat, stride, hlsl);
    DecodeSerializedInt32s(written);
    forall i | 0 <= i < |written|
      ensures mask[i] == written[i]
    {
      var prefix := out[..4 * |written|];
      assert DecodeInt32At(out, 4 * i) == DecodeInt32At(prefix, 4 * i);
      assert DecodeInt32s(prefix, |written|)[i] == written[i];
    }
  }

  /** PSAccel.cs lines 499-501: `result[i] = BitConverter.ToInt32(rawMask, i * 4)` for every row. */
  method DecodeMask(raw: seq<uint8>, rowCount: nat) returns (mask: seq<int32>)
    requires 4 * rowCount <= |raw|
    ensures mask == DecodeInt32s(raw, rowCount)
  {
    var result := new int32[rowCount];
    for i := 0 to rowCount
      invariant forall k :: 0 <= k < i ==> result[k] == DecodeInt32At(raw, 4 * k)
    {
      result[i] := DecodeInt32At(raw, 4 * i);
    }
    mask := result[..];
  }
}
