/** The host side of RunAccelFilterFromObjects: records to a row-major float matrix,
    and the kernel's mask back to the records it keeps. */
module Marshaling {
  import opened Wrappers
  import opened LittleEndian
  import opened Arithmetic

  /** How a cell is read from a record. `lookup` stands for `obj.Properties[name]` and the
      property's Value (None when the property is missing or its value is null); `parse`
      for `float.TryParse(val.ToString())`; `zero` for `0f`. */
  datatype PropertySource<!R, !V, F> = PropertySource(
    lookup: (R, string) -> Option<V>,
    parse: V -> Option<F>,
    zero: F)

  /** The float at one cell: the parsed property value, or zero when the property is
      missing, null or does not parse (the source logs a warning and carries on). */
  function CellValue<R, V, F>(src: PropertySource<R, V, F>, record: R, name: string): F {
    match src.lookup(record, name)
    case None => src.zero
    case Some(v) =>
      match src.parse(v)
      case None => src.zero
      case Some(f) => f
  }

  /** One row: the record's cells in property-list order. */
  function Row<R, V, F>(src: PropertySource<R, V, F>, record: R, names: seq<string>): (row: seq<F>)
    ensures |row| == |names|
  {
    seq(|names|, j requires 0 <= j < |names| => CellValue(src, record, names[j]))
  }

  /** The matrix in row-major order: the rows of the records, in input order. */
  function Flatten<R, V, F>(src: PropertySource<R, V, F>, records: seq<R>, names: seq<string>): seq<F> {
    if records == [] then []
    else Flatten(src, records[..|records| - 1], names) + Row(src, records[|records| - 1], names)
  }

  lemma {:induction false} FlattenLength<R, V, F>(src: PropertySource<R, V, F>, records: seq<R>, names: seq<string>)
    ensures |Flatten(src, records, names)| == |records| * |names|
  {
    if records != [] {
      FlattenLength(src, records[..|records| - 1], names);
    }
  }

  /** The matrix has rows * cols entries, and entry i * cols + j is property j of record i:
      its parsed value, or zero when the property is missing, null or does not parse. */
  lemma {:induction false} FlattenAt<R, V, F>(src: PropertySource<R, V, F>, records: seq<R>, names: seq<string>, i: nat, j: nat)
    requires i < |records| && j < |names|
    ensures |Flatten(src, records, names)| == |records| * |names|
    ensures i * |names| + j < |records| * |names|
    ensures Flatten(src, records, names)[i * |names| + j] == CellValue(src, records[i], names[j])
    ensures var value := src.lookup(records[i], names[j]);
            Flatten(src, records, names)[i * |names| + j] ==
              if value.Some? && src.parse(value.value).Some? then src.parse(value.value).value else src.zero
  {
    var n, cols := |records| - 1, |names|;
    FlattenLength(src, records, names);
    FlattenLength(src, records[..n], names);
    if i < n {
      FlattenAt(src, records[..n], names, i, j);
    } else {
      assert i * cols + j == n * cols + j;
    }
  }

  /** Row i occupies [i * cols, (i + 1) * cols) inside a matrix of rows * cols entries. */
  lemma RowInBounds(i: nat, rows: nat, cols: nat)
    requires i < rows
    ensures i * cols + cols <= rows * cols
  {
    assert (rows - i) * cols >= cols by {
      TimesAtLeastOne(cols, rows - i);
    }
  }

  /** PSAccel.cs lines 382-400: allocate `new float[rows * cols]` and fill cell i * cols + ii
      with property ii of record i. */
  method FlattenRecords<R, V, F>(src: PropertySource<R, V, F>, records: seq<R>, names: seq<string>)
      returns (flat: seq<F>)
    ensures flat == Flatten(src, records, names)
  {
    var rows, cols := |records|, |names|;
    var data := new F[rows * cols](_ => src.zero);
    for i := 0 to rows
      invariant i * cols <= rows * cols
      invariant data[..i * cols] == Flatten(src, records[..i], names)
    {
      RowInBounds(i, rows, cols);
      var row := Row(src, records[i], names);
      for ii := 0 to cols
        invariant data[..i * cols] == Flatten(src, records[..i], names)
        invariant data[i * cols..i * cols + ii] == row[..ii]
      {
        data[i * cols + ii] := CellValue(src, records[i], names[ii]);
        assert data[i * cols..i * cols + ii + 1] == data[i * cols..i * cols + ii] + [data[i * cols + ii]];
      }
      assert records[..i + 1][..i] == records[..i];
      assert data[..i * cols + cols] == data[..i * cols] + data[i * cols..i * cols + cols];
      assert (i + 1) * cols == i * cols + cols;
    }
    assert records[..rows] == records;
    flat := data[..];
  }

  /** The records whose mask entry is exactly 1, in their original order. */
  function Kept<R>(records: seq<R>, mask: seq<int32>): seq<R>
    requires |mask| <= |records|
  {
    if mask == [] then []
    else
      var n := |mask| - 1;
      Kept(records, mask[..n]) + (if mask[n] == 1 then [records[n]] else [])
  }

  /** The indices at which the mask is exactly 1, in increasing order. */
  function KeptIndices(mask: seq<int32>): (indices: seq<nat>)
    ensures forall k :: 0 <= k < |indices| ==> indices[k] < |mask|
  {
    if mask == [] then []
    else
      var n := |mask| - 1;
      KeptIndices(mask[..n]) + (if mask[n] == 1 then [n] else [])
  }

  /** KeptIndices lists every index whose mask entry is 1, no other, each once, ascending,
      and there are as many of them as there are 1s in the mask. */
  lemma KeptIndicesExact(mask: seq<int32>)
    ensures forall k, l :: 0 <= k < l < |KeptIndices(mask)| ==> KeptIndices(mask)[k] < KeptIndices(mask)[l]
    ensures forall i :: 0 <= i < |mask| ==> (i in KeptIndices(mask) <==> mask[i] == 1)
    ensures |KeptIndices(mask)| == multiset(mask)[1]
  {
    KeptIndicesAscending(mask);
    KeptIndicesSelectOnes(mask);
    KeptIndicesCount(mask);
  }

  lemma {:induction false} KeptIndicesAscending(mask: seq<int32>)
    ensures forall k, l :: 0 <= k < l < |KeptIndices(mask)| ==> KeptIndices(mask)[k] < KeptIndices(mask)[l]
  {
    if mask != [] {
      KeptIndicesAscending(mask[..|mask| - 1]);
    }
  }

  lemma {:induction false} KeptIndicesSelectOnes(mask: seq<int32>)
    ensures forall i :: 0 <= i < |mask| ==> (i in KeptIndices(mask) <==> mask[i] == 1)
  {
    if mask != [] {
      var n := |mask| - 1;
      KeptIndicesSelectOnes(mask[..n]);
      forall i | 0 <= i < n
        ensures mask[..n][i] == mask[i]
      {
      }
    }
  }

  lemma {:induction false} KeptIndicesCount(mask: seq<int32>)
    ensures |KeptIndices(mask)| == multiset(mask)[1]
  {
    if mask != [] {
      var n := |mask| - 1;
      KeptIndicesCount(mask[..n]);
      assert mask == mask[..n] + [mask[n]];
      assert multiset(mask) == multiset(mask[..n]) + multiset{mask[n]};
    }
  }

  /** The kept records are the records at KeptIndices(mask): exactly the subsequence
      of records at the indices where the mask is 1. */
  lemma {:induction false} KeptIsMaskedSubsequence<R>(records: seq<R>, mask: seq<int32>)
    requires |mask| <= |records|
    ensures |Kept(records, mask)| == |KeptIndices(mask)|
    ensures forall k :: 0 <= k < |Kept(records, mask)| ==> Kept(records, mask)[k] == records[KeptIndices(mask)[k]]
  {
    if mask != [] {
      KeptIsMaskedSubsequence(records, mask[..|mask| - 1]);
    }
  }

  /** Compaction keeps one record per 1 in the mask: record KeptIndices(mask)[k] is the k-th kept. */
  lemma KeptSelectsOnes<R>(records: seq<R>, mask: seq<int32>)
    requires |mask| <= |records|
    ensures |Kept(records, mask)| == |KeptIndices(mask)| == multiset(mask)[1]
    ensures forall k :: 0 <= k < |Kept(records, mask)| ==> Kept(records, mask)[k] == records[KeptIndices(mask)[k]]
  {
    KeptIsMaskedSubsequence(records, mask);
    KeptIndicesExact(mask);
  }

  /** Three records scored 10, 55 and 99 under the kernel "keep if score > 50". */
  lemma KeptExample()
    ensures Kept([10, 55, 99], [0, 1, 1]) == [55, 99]
  {
    var records, mask: seq<int32> := [10, 55, 99], [0, 1, 1];
    assert mask[..2] == [0, 1] && mask[..2][..1] == [0] && mask[..2][..1][..0] == [];
    assert Kept(records, [0]) == [];
    assert Kept(records, [0, 1]) == [55];
  }

  /** A mask of all 1s keeps every record, in order. */
  lemma {:induction false} KeptAllOnes<R>(records: seq<R>, mask: seq<int32>)
    requires |mask| == |records|
    requires forall i :: 0 <= i < |mask| ==> mask[i] == 1
    ensures Kept(records, mask) == records
  {
    if mask != [] {
      var n := |mask| - 1;
      KeptAllOnes(records[..n], mask[..n]);
      KeptPrefix(records, mask[..n], n);
      assert records == records[..n] + [records[n]];
    }
  }

  /** Only the first |mask| records matter. */
  lemma {:induction false} KeptPrefix<R>(records: seq<R>, mask: seq<int32>, n: nat)
    requires |mask| <= n <= |records|
    ensures Kept(records, mask) == Kept(records[..n], mask)
  {
    if mask != [] {
      KeptPrefix(records, mask[..|mask| - 1], n);
    }
  }

  /** A mask without a single 1 keeps nothing: any value other than 1 drops its record. */
  lemma {:induction false} KeptNoOnes<R>(records: seq<R>, mask: seq<int32>)
    requires |mask| <= |records|
    requires forall i :: 0 <= i < |mask| ==> mask[i] != 1
    ensures Kept(records, mask) == []
  {
    if mask != [] {
      KeptNoOnes(records, mask[..|mask| - 1]);
    }
  }

  /** PSAccel.cs lines 404-413: `results[count++] = inputObjects[i]` for every i with mask[i] == 1,
      then `Array.Resize(ref results, count)`. */
  method Compact<R(0)>(records: seq<R>, mask: seq<int32>) returns (kept: seq<R>)
    requires |mask| <= |records|
    ensures kept == Kept(records, mask)
  {
    var results := new R[|records|];
    var count := 0;
    for i := 0 to |mask|
      invariant count <= i
      invariant results[..count] == Kept(records, mask[..i])
    {
      assert mask[..i + 1][..i] == mask[..i];
      if mask[i] == 1 {
        results[count] := records[i];
        count := count + 1;
      }
    }
    assert mask[..|mask|] == mask;
    kept := results[..count];
  }
}
