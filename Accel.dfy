/** The PSAccel static class: the process-wide Device/Context handles with their
    init-once guard, RunStructuredFilter (Init, then the pipeline, then the decode loop)
    and RunAccelFilterFromObjects (flatten, filter on the GPU, compact). */
module Accel {
  import opened Wrappers
  import opened LittleEndian
  import opened Descriptors
  import opened Marshaling
  import opened ComputePipeline

  /** Init's result when the handles were (`ready`) or were not both set beforehand. */
  function InitResult(ready: bool, creation: DeviceCreation): (r: Result<(), Error>)
    ensures r.Failure? <==> !ready && creation.status != 0
    ensures r.Failure? ==> r.error == DeviceCreationFailed(creation.status)
  {
    if !ready && creation.status != 0 then Failure(DeviceCreationFailed(creation.status)) else Success(())
  }

  /** RunStructuredFilter: Init, then the pipeline. */
  function StructuredFilter<F>(ready: bool, env: Native<F>, flat: seq<F>, stride: nat, hlsl: string): Result<seq<int32>, Error> {
    var _ :- InitResult(ready, env.createDevice);
    Pipeline(env, flat, stride, hlsl)
  }

  /** Whether a RunStructuredFilter call gets as far as storing the compiled blob. */
  predicate KernelCompiled<F>(ready: bool, env: Native<F>, stride: nat, hlsl: string) {
    InitResult(ready, env.createDevice).Success? && stride > 0 && CompileShader(env.compile(hlsl)).Success?
  }

  /** A successful RunStructuredFilter returns one mask entry per row. */
  lemma StructuredFilterMaskLength<F>(ready: bool, env: Native<F>, flat: seq<F>, stride: nat, hlsl: string)
    requires StructuredFilter(ready, env, flat, stride, hlsl).Success?
    ensures stride > 0 && |StructuredFilter(ready, env, flat, stride, hlsl).value| == |flat| / stride
  {
    PipelineMask(env, flat, stride, hlsl);
  }

  /** RunAccelFilterFromObjects: the records whose mask entry is 1, or the first error. */
  function FilterFromObjects<R, V, F>(
    ready: bool, env: Native<F>, src: PropertySource<R, V, F>,
    inputObjects: Option<seq<R>>, propertyList: Option<seq<string>>, hlsl: string): Result<seq<R>, Error>
  {
    if inputObjects.None? || inputObjects.value == [] then Success([])
    else if propertyList.None? then Failure(NullReference)
    else
      var records, names := inputObjects.value, propertyList.value;
      var flat := Flatten(src, records, names);
      var mask :- StructuredFilter(ready, env, flat, |names|, hlsl);
      StructuredFilterMaskLength(ready, env, flat, |names|, hlsl);
      FlattenLength(src, records, names);
      RowsRecovered(|records|, |names|);
      Success(Kept(records, mask))
  }

  /** A null or empty input yields an empty result (and the method below leaves the
      device state untouched: the pipeline is never entered). */
  lemma EmptyInputYieldsEmpty<R, V, F>(
    ready: bool, env: Native<F>, src: PropertySource<R, V, F>,
    inputObjects: Option<seq<R>>, propertyList: Option<seq<string>>, hlsl: string)
    requires inputObjects.None? || inputObjects.value == []
    ensures FilterFromObjects(ready, env, src, inputObjects, propertyList, hlsl) == Success([])
  {
  }

  /** A non-empty input with an empty property list never reaches the kernel: the row
      count divides by zero, unless device creation failed first. */
  lemma NoPropertiesDividesByZero<R, V, F>(
    ready: bool, env: Native<F>, src: PropertySource<R, V, F>, records: seq<R>, hlsl: string)
    requires records != []
    ensures FilterFromObjects(ready, env, src, Some(records), Some([]), hlsl) ==
      if !ready && env.createDevice.status != 0 then Failure(DeviceCreationFailed(env.createDevice.status))
      else Failure(DivideByZero)
  {
  }

  /** A successful filter ran the kernel with one mask entry per record and kept
      the records that mask marks. */
  lemma FilterIsKeptByMask<R, V, F>(
    ready: bool, env: Native<F>, src: PropertySource<R, V, F>,
    records: seq<R>, names: seq<string>, hlsl: string)
    requires records != []
    requires FilterFromObjects(ready, env, src, Some(records), Some(names), hlsl).Success?
    ensures |names| >= 1
    ensures var s := StructuredFilter(ready, env, Flatten(src, records, names), |names|, hlsl);
            && s.Success? && |s.value| == |records|
            && FilterFromObjects(ready, env, src, Some(records), Some(names), hlsl).value == Kept(records, s.value)
  {
    var flat := Flatten(src, records, names);
    StructuredFilterMaskLength(ready, env, flat, |names|, hlsl);
    FlattenLength(src, records, names);
    RowsRecovered(|records|, |names|);
  }

  /** A successful filter returns exactly the records at the indices where the mask is 1,
      in their original order, as many as there are 1s in the mask. */
  lemma FilterKeepsMaskedRecords<R, V, F>(
    ready: bool, env: Native<F>, src: PropertySource<R, V, F>,
    records: seq<R>, names: seq<string>, hlsl: string, kept: seq<R>, mask: seq<int32>)
    requires records != []
    requires FilterFromObjects(ready, env, src, Some(records), Some(names), hlsl) == Success(kept)
    requires StructuredFilter(ready, env, Flatten(src, records, names), |names|, hlsl) == Success(mask)
    ensures |mask| == |records|
    ensures |kept| == |KeptIndices(mask)| == multiset(mask)[1]
    ensures forall k :: 0 <= k < |kept| ==> kept[k] == records[KeptIndices(mask)[k]]
  {
    FilterIsKeptByMask(ready, env, src, records, names, hlsl);
    assert kept == Kept(records, mask);
    KeptSelectsOnes(records, mask);
  }

  /** An identity kernel (every mask entry 1) returns the records unchanged; a kernel
      that never writes 1 returns nothing. */
  lemma FilterIdentityAndRejectAll<R, V, F>(
    ready: bool, env: Native<F>, src: PropertySource<R, V, F>,
    records: seq<R>, names: seq<string>, hlsl: string, mask: seq<int32>)
    requires records != []
    requires StructuredFilter(ready, env, Flatten(src, records, names), |names|, hlsl) == Success(mask)
    ensures (forall i :: 0 <= i < |mask| ==> mask[i] == 1) ==>
              FilterFromObjects(ready, env, src, Some(records), Some(names), hlsl) == Success(records)
    ensures (forall i :: 0 <= i < |mask| ==> mask[i] != 1) ==>
              FilterFromObjects(ready, env, src, Some(records), Some(names), hlsl) == Success([])
  {
    var flat := Flatten(src, records, names);
    StructuredFilterMaskLength(ready, env, flat, |names|, hlsl);
    FlattenLength(src, records, names);
    RowsRecovered(|records|, |names|);
    if forall i :: 0 <= i < |mask| ==> mask[i] == 1 {
      KeptAllOnes(records, mask);
    }
    if forall i :: 0 <= i < |mask| ==> mask[i] != 1 {
      KeptNoOnes(records, mask);
    }
  }

  /** PSAccel's static state. Handles are numbers; 0 stands for IntPtr.Zero / null. */
  class Accel {
    var device: nat
    var context: nat
    var pinnedBlob: nat

    /** The static fields before any call. */
    constructor ()
      ensures device == 0 && context == 0 && pinnedBlob == 0
    {
      device, context, pinnedBlob := 0, 0, 0;
    }

    predicate Ready()
      reads this
    {
      device != 0 && context != 0
    }

    /** Init: nothing happens when both handles are set. Otherwise D3D11CreateDevice
        writes both handles, and a non-zero HRESULT is thrown as an error. */
    method Init(creation: DeviceCreation) returns (r: Result<(), Error>)
      modifies this
      ensures r == InitResult(old(Ready()), creation)
      ensures old(Ready()) ==> unchanged(this)
      ensures !old(Ready()) ==> device == creation.device && context == creation.context
      ensures pinnedBlob == old(pinnedBlob)
    {
      if device != 0 && context != 0 {
        return Success(());
      }
      device, context := creation.device, creation.context;
      if creation.status != 0 {
        return Failure(DeviceCreationFailed(creation.status));
      }
      return Success(());
    }

    /** RunStructuredFilter: Init, row count and buffer size, compile (pinning the blob),
        create buffers and views, dispatch, read back and decode one int32 per row. */
    method RunStructuredFilter<F>(env: Native<F>, flatData: seq<F>, stride: nat, hlsl: string)
        returns (r: Result<seq<int32>, Error>)
      requires ByteWidth(|flatData|) <= Int32Max
      modifies this
      ensures r == StructuredFilter(old(Ready()), env, flatData, stride, hlsl)
      ensures old(Ready()) ==> device == old(device) && context == old(context)
      ensures !old(Ready()) ==> device == env.createDevice.device && context == env.createDevice.context
      ensures pinnedBlob == if KernelCompiled(old(Ready()), env, stride, hlsl) then env.compile(hlsl).code else old(pinnedBlob)
    {
      var _ :- Init(env.createDevice);
      if stride == 0 {
        return Failure(DivideByZero);
      }
      var rowCount := |flatData| / stride;
      var bufferLen := ByteWidth(|flatData|);

      var kernel :- CompileShader(env.compile(hlsl));
      pinnedBlob := kernel.blob;

      var inputBytes := Serialize(env.floatBits, flatData);
      var _ :- CreateBuffer(env, InputBufferDesc(|flatData|), Some(inputBytes));
      var _ :- CreateBuffer(env, OutputBufferDesc(|flatData|), Some(Zeros(bufferLen)));
      var _ :- CreateShaderResourceView(env, InputBufferDesc(|flatData|));
      var _ :- CreateUnorderedAccessView(env, OutputBufferDesc(|flatData|), OutputUavDesc(|flatData|));
      var _ :- CreateComputeShader(env, kernel);

      var grid := DispatchGrid(rowCount);

      var _ :- CreateBuffer(env, StagingBufferDesc(bufferLen), Some(Zeros(bufferLen)));
      var rawMask :- ReadStagingBuffer(env, StagingBufferDesc(bufferLen), OutputBytes(env, hlsl, inputBytes, grid, bufferLen));

      RowCountFits(|flatData|, stride);
      var mask := DecodeMask(rawMask, rowCount);
      return Success(mask);
    }

    /** RunAccelFilterFromObjects: an empty or null input returns at once; otherwise
        flatten, run the kernel with one row per record, and keep the records it marks. */
    method RunAccelFilterFromObjects<R(0), V, F>(
      env: Native<F>, src: PropertySource<R, V, F>,
      inputObjects: Option<seq<R>>, propertyList: Option<seq<string>>, hlsl: string)
        returns (r: Result<seq<R>, Error>)
      requires inputObjects.Some? && propertyList.Some? ==>
                 ByteWidth(|inputObjects.value| * |propertyList.value|) <= Int32Max
      modifies this
      ensures r == FilterFromObjects(old(Ready()), env, src, inputObjects, propertyList, hlsl)
      ensures inputObjects.None? || inputObjects.value == [] || propertyList.None? ==> unchanged(this)
      ensures inputObjects.Some? && inputObjects.value != [] && propertyList.Some? ==>
        && (old(Ready()) ==> device == old(device) && context == old(context))
        && (!old(Ready()) ==> device == env.createDevice.device && context == env.createDevice.context)
        && pinnedBlob == if KernelCompiled(old(Ready()), env, |propertyList.value|, hlsl) then env.compile(hlsl).code
                         else old(pinnedBlob)
    {
      if inputObjects.None? || |inputObjects.value| == 0 {
        return Success([]);
      }
      var records := inputObjects.value;
      if propertyList.None? {
        return Failure(NullReference);
      }
      var names := propertyList.value;

      var flatData := FlattenRecords(src, records, names);
      FlattenLength(src, records, names);

      ghost var ready := Ready();
      var mask :- RunStructuredFilter(env, flatData, |names|, hlsl);
      StructuredFilterMaskLength(ready, env, flatData, |names|, hlsl);
      RowsRecovered(|records|, |names|);

      var kept := Compact(records, mask);
      return Success(kept);
    }
  }
}
