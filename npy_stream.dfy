/** The stream writer `NpyStream` of `npystream.hpp`. Construction reserves
    a header rendered for the largest 64-bit count, values are appended
    after it as raw bytes, and the destructor re-renders the header for the
    true count and patches it into the reserved slot. */
module Streams {
  import opened Common
  import Decimal
  import opened TypeMapper
  import opened TupleUtil
  import opened NpyFormat
  import opened NpyHeader
  import opened FileStream
  import opened HeaderPatch

  /** `values_written` is a `uint64_t`: it counts modulo 2^64. */
  const COUNTER_MODULUS: nat := 0x1_0000_0000_0000_0000

  // ---------------------------------------------------------------------
  // Labels and the reserved header

  /** The label `f{i}` that `std::format("f{}", i)` produces. */
  function DefaultLabel(i: nat): (l: seq<byte>)
    ensures |l| == 1 + Decimal.NumDigits(i)
    ensures l[0] == CharByte('f')
  {
    Decimal.DigitsLength(i);
    [CharByte('f')] + Decimal.Digits(i)
  }

  /** Labels the path-only constructor gives: none for one column,
      `f0`..`f{n-1}` for `n` columns. */
  function DefaultLabels(n: nat): (ls: seq<seq<byte>>)
    ensures n <= 1 ==> ls == []
    ensures n > 1 ==> |ls| == n && forall i :: 0 <= i < n ==> ls[i] == DefaultLabel(i)
  {
    if n > 1 then seq(n, i requires 0 <= i < n => DefaultLabel(i)) else []
  }

  /** The loop of the path-only constructor that names the columns
      `f0`, `f1`, ... when there is more than one. */
  method MakeDefaultLabels(size: nat) returns (labels: seq<seq<byte>>)
    ensures labels == DefaultLabels(size)
  {
    labels := [];
    if size > 1 {
      var i := 0;
      while i < size
        invariant 0 <= i <= size
        invariant labels == DefaultLabels(size)[..i]
      {
        labels := labels + [[CharByte('f')] + Decimal.Digits(i)];
        i := i + 1;
      }
      assert DefaultLabels(size)[..size] == DefaultLabels(size);
    }
  }

  /** The default labels name the columns apart. */
  lemma DefaultLabelsDistinct(n: nat, i: nat, j: nat)
    requires i < j < |DefaultLabels(n)|
    ensures DefaultLabels(n)[i] != DefaultLabels(n)[j]
  {
    var a, b := DefaultLabels(n)[i], DefaultLabels(n)[j];
    if a == b {
      assert a[1..] == Decimal.Digits(i) && b[1..] == Decimal.Digits(j);
      Decimal.DigitsInjective(i, j);
    }
  }

  /** The header a stream of `kinds` with `labels` renders for `count`, with
      the checks `init` makes first: no labels is only allowed for a single
      column, and otherwise there is one label per column. */
  function StreamHeader(count: nat, kinds: seq<ScalarKind>, labels: seq<seq<byte>>, host: Endian)
    : (r: Result<seq<byte>>)
    requires |kinds| >= 1
    ensures r.Ok? ==> (|labels| > 0 ==> |labels| == |kinds|) && 10 < |r.value| && |r.value| % 16 == 0
  {
    if |labels| == 0 && |kinds| != 1 then Err(LabelsMismatch)
    else if |labels| != 0 && |labels| != |kinds| then Err(LabelsMismatch)
    else FreshHeader(count, labels, DataTypes(kinds), ElementSizes(kinds), host)
  }

  /** The dictionary of `StreamHeader`. */
  function StreamDict(count: nat, kinds: seq<ScalarKind>, labels: seq<seq<byte>>, host: Endian): seq<byte>
    requires |kinds| >= 1
    requires |labels| > 0 ==> |labels| == |kinds|
  {
    FreshDict(count, labels, DataTypes(kinds), ElementSizes(kinds), host)
  }

  /** `init` fails with a labels mismatch exactly when the labels do not fit
      the arity; any other failure is an oversized dictionary. */
  lemma StreamHeaderErrors(count: nat, kinds: seq<ScalarKind>, labels: seq<seq<byte>>, host: Endian)
    requires |kinds| >= 1
    ensures StreamHeader(count, kinds, labels, host) == Err(LabelsMismatch)
        <==> (|labels| == 0 && |kinds| != 1) || (|labels| != 0 && |labels| != |kinds|)
    ensures StreamHeader(count, kinds, labels, host).Err? ==>
      StreamHeader(count, kinds, labels, host).error in {LabelsMismatch, DictionaryTooLarge}
  {
  }

  /** The key fact of the placeholder scheme: once the header for the
      largest count has been rendered, the header for any count that fits
      in 64 bits renders too and is no longer. The destructor's
      `assert(updated_header.size() == header_end_pos)` rests on it. */
  lemma ReservedFits(count: nat, kinds: seq<ScalarKind>, labels: seq<seq<byte>>, host: Endian)
    requires |kinds| >= 1
    requires StreamHeader(UINT64_MAX, kinds, labels, host).Ok?
    requires count <= UINT64_MAX
    ensures StreamHeader(count, kinds, labels, host).Ok?
    ensures |StreamHeader(count, kinds, labels, host).value| <= |StreamHeader(UINT64_MAX, kinds, labels, host).value|
  {
    Decimal.MaxCountDigits();
    var sym := EndianSymbol(host);
    if |labels| == 0 {
      RenderSingleMonotone(count, UINT64_MAX, sym, DataTypes(kinds)[0], ElementSizes(kinds)[0], C, host);
    } else {
      RenderStructuredMonotone(count, UINT64_MAX, labels, sym, DataTypes(kinds), ElementSizes(kinds), C, host);
    }
  }

  /** What the destructor relies on: from the header reserved for the
      largest count, the header for the true count renders and fits the
      slot. */
  lemma FinalFits(count: nat, kinds: seq<ScalarKind>, labels: seq<seq<byte>>, host: Endian, reserved: seq<byte>)
    requires |kinds| >= 1
    requires StreamHeader(UINT64_MAX, kinds, labels, host) == Ok(reserved)
    requires count <= UINT64_MAX
    ensures FreshHeader(count, labels, DataTypes(kinds), ElementSizes(kinds), host).Ok?
    ensures 10 <= |FreshHeader(count, labels, DataTypes(kinds), ElementSizes(kinds), host).value| <= |reserved|
  {
    ReservedFits(count, kinds, labels, host);
  }

  /** What the source's destructor achieves: patching the header for the
      true count into the slot as the source does yields a header carrying the final
      dictionary while the slot is under 256 bytes past the preamble, and a
      wrong minor version from 256 bytes on. */
  lemma FinalPatch(count: nat, kinds: seq<ScalarKind>, labels: seq<seq<byte>>, host: Endian, reserved: seq<byte>)
    requires |kinds| >= 1
    requires StreamHeader(UINT64_MAX, kinds, labels, host) == Ok(reserved)
    requires count <= UINT64_MAX
    ensures |labels| > 0 ==> |labels| == |kinds|
    ensures |reserved| % 16 == 0 && |reserved| - 10 <= 0xffff
    ensures FreshHeader(count, labels, DataTypes(kinds), ElementSizes(kinds), host).Ok?
    ensures 10 <= |FreshHeader(count, labels, DataTypes(kinds), ElementSizes(kinds), host).value| <= |reserved|
    ensures |reserved| - 10 < 256 ==>
      HeaderWith(Patched(FreshHeader(count, labels, DataTypes(kinds), ElementSizes(kinds), host).value, |reserved|),
                 StreamDict(count, kinds, labels, host))
    ensures |reserved| - 10 >= 256 ==>
      Patched(FreshHeader(count, labels, DataTypes(kinds), ElementSizes(kinds), host).value, |reserved|)[7] != 0
  {
    ReservedFits(count, kinds, labels, host);
    StreamHeaderCarries(count, kinds, labels, host);
    StreamHeaderCarries(UINT64_MAX, kinds, labels, host);
    var rendered := StreamHeader(count, kinds, labels, host).value;
    var dict := StreamDict(count, kinds, labels, host);
    if |reserved| - 10 < 256 {
      PatchedIsHeader(rendered, dict, |reserved|);
    } else {
      PatchedBreaksVersion(rendered, dict, |reserved|);
    }
  }

  /** What the destructor achieves with the corrected patch: the slot holds
      a header carrying the final dictionary whatever its length. */
  lemma FinalPatchCorrected(count: nat, kinds: seq<ScalarKind>, labels: seq<seq<byte>>, host: Endian,
                            reserved: seq<byte>)
    requires |kinds| >= 1
    requires StreamHeader(UINT64_MAX, kinds, labels, host) == Ok(reserved)
    requires count <= UINT64_MAX
    ensures |labels| > 0 ==> |labels| == |kinds|
    ensures FreshHeader(count, labels, DataTypes(kinds), ElementSizes(kinds), host).Ok?
    ensures 10 <= |FreshHeader(count, labels, DataTypes(kinds), ElementSizes(kinds), host).value| <= |reserved|
    ensures HeaderWith(PatchedCorrected(FreshHeader(count, labels, DataTypes(kinds), ElementSizes(kinds), host).value,
                                        |reserved|),
                       StreamDict(count, kinds, labels, host))
  {
    ReservedFits(count, kinds, labels, host);
    StreamHeaderCarries(count, kinds, labels, host);
    StreamHeaderCarries(UINT64_MAX, kinds, labels, host);
    PatchedCorrectedIsHeader(StreamHeader(count, kinds, labels, host).value, StreamDict(count, kinds, labels, host),
                             |reserved|);
  }

  /** A stream the byte 7/8 defect reaches: one column of four-byte
      integers labelled with 300 `a`s. Its reserved header is more than 256
      bytes past the preamble, so whatever the count, the source's patch
      (`Patched`) puts a nonzero byte in the minor version. */
  lemma LongLabelStream(count: nat)
    requires count <= UINT64_MAX
    ensures var labels := [seq(300, _ => CharByte('a'))];
      && StreamHeader(UINT64_MAX, [Int(4)], labels, Little).Ok?
      && |StreamHeader(UINT64_MAX, [Int(4)], labels, Little).value| - 10 >= 256
      && FreshHeader(count, labels, DataTypes([Int(4)]), ElementSizes([Int(4)]), Little).Ok?
      && 10 <= |FreshHeader(count, labels, DataTypes([Int(4)]), ElementSizes([Int(4)]), Little).value|
            <= |StreamHeader(UINT64_MAX, [Int(4)], labels, Little).value|
      && Patched(FreshHeader(count, labels, DataTypes([Int(4)]), ElementSizes([Int(4)]), Little).value,
                 |StreamHeader(UINT64_MAX, [Int(4)], labels, Little).value|)[7] != 0
  {
    var name := seq(300, _ => CharByte('a'));
    var labels := [name];
    assert DataTypes([Int(4)]) == ['i'] && ElementSizes([Int(4)]) == [4];
    var es := Entries(labels, 60, ['i'], [4]);
    assert es == [Entry(name, 60, 'i', 4)];
    assert |Entry(name, 60, 'i', 4)| == 311;
    Decimal.MaxCountDigits();
    Decimal.DigitsLength(UINT64_MAX);
    assert |ShapeText([UINT64_MAX])| == 21;
    var dict := StructuredDict([UINT64_MAX], labels, 60, ['i'], [4], C);
    StructuredDictFlat([UINT64_MAX], labels, 60, ['i'], [4], C);
    assert |dict| == 385;
    PaddedDictShape(dict);
    assert StreamHeader(UINT64_MAX, [Int(4)], labels, Little) == Finalized(dict, Little);
    FinalPatch(count, [Int(4)], labels, Little, Finalized(dict, Little).value);
  }

  /** Every header the stream renders is a header carrying its dictionary. */
  lemma StreamHeaderCarries(count: nat, kinds: seq<ScalarKind>, labels: seq<seq<byte>>, host: Endian)
    requires |kinds| >= 1
    requires StreamHeader(count, kinds, labels, host).Ok?
    ensures |labels| > 0 ==> |labels| == |kinds|
    ensures HeaderWith(StreamHeader(count, kinds, labels, host).value, StreamDict(count, kinds, labels, host))
  {
    FreshHeaderCarries(count, labels, DataTypes(kinds), ElementSizes(kinds), host);
  }

  /** The checks and the rendering of `init`, for the count `init`
      passes (the largest 64-bit value). */
  method RenderStreamHeader(count: nat, kinds: seq<ScalarKind>, labels: seq<seq<byte>>, host: Endian)
    returns (r: Result<seq<byte>>)
    requires |kinds| >= 1
    ensures r == StreamHeader(count, kinds, labels, host)
  {
    var dtypes := GetDataTypes(kinds);
    var sizes := GetElementSizes(kinds);
    assert dtypes == DataTypes(kinds) && sizes == ElementSizes(kinds);
    if |labels| == 0 {
      if |kinds| == 1 {
        r := CreateSingleHeader([count], MapType(kinds[0]), SizeOf(kinds[0]), C, host);
      } else {
        r := Err(LabelsMismatch);
      }
    } else {
      if |labels| != |kinds| {
        return Err(LabelsMismatch);
      }
      r := CreateStructuredHeader([count], labels, dtypes, sizes, C, host);
    }
  }

  // ---------------------------------------------------------------------
  // Rows

  lemma {:induction false} ConcatLength(vs: seq<seq<byte>>, ws: seq<nat>)
    requires |vs| == |ws|
    requires forall k :: 0 <= k < |vs| ==> |vs[k]| == ws[k]
    ensures |Concat(vs)| == Sum(ws)
  {
    if vs != [] {
      ConcatLength(vs[..|vs| - 1], ws[..|ws| - 1]);
    }
  }

  lemma {:induction false} ConcatAppend(vs: seq<seq<byte>>, ws: seq<seq<byte>>)
    ensures Concat(vs + ws) == Concat(vs) + Concat(ws)
    decreases |ws|
  {
    if ws != [] {
      assert (vs + ws)[..|vs + ws| - 1] == vs + ws[..|ws| - 1];
      ConcatAppend(vs, ws[..|ws| - 1]);
    } else {
      assert vs + ws == vs;
    }
  }

  /** The bytes of a sequence of rows, one row after another. */
  function ConcatRows(rows: seq<seq<seq<byte>>>): seq<byte>
  {
    if rows == [] then [] else ConcatRows(rows[..|rows| - 1]) + Concat(rows[|rows| - 1])
  }

  /** One more row appends that row's bytes. */
  lemma ConcatRowsStep(rows: seq<seq<seq<byte>>>, i: nat)
    requires i < |rows|
    ensures ConcatRows(rows[..i + 1]) == ConcatRows(rows[..i]) + Concat(rows[i])
  {
    assert rows[..i + 1][..i] == rows[..i];
  }

  /** `n` values of `w` bytes each take `n * w` bytes. */
  lemma {:induction false} ConcatUniform(vs: seq<seq<byte>>, w: nat)
    requires forall k :: 0 <= k < |vs| ==> |vs[k]| == w
    ensures |Concat(vs)| == w * |vs|
  {
    if vs != [] {
      ConcatUniform(vs[..|vs| - 1], w);
    }
  }

  /** Member `k` of a row sits at `offsets[k]`: byte `j` of the member is
      byte `offsets[k] + j` of the row. */
  lemma {:induction false} RowPlacement(vs: seq<seq<byte>>, ws: seq<nat>, k: nat, j: nat)
    requires |vs| == |ws|
    requires forall i :: 0 <= i < |vs| ==> |vs[i]| == ws[i]
    requires k < |vs| && j < ws[k]
    ensures Offsets(ws)[k] + j < |Concat(vs)|
    ensures Concat(vs)[Offsets(ws)[k] + j] == vs[k][j]
  {
    var n := |vs|;
    ColumnInRow(ws, k);
    ConcatLength(vs, ws);
    ConcatLength(vs[..n - 1], ws[..n - 1]);
    if k < n - 1 {
      RowPlacement(vs[..n - 1], ws[..n - 1], k, j);
      assert ws[..n - 1][..k] == ws[..k];
    } else {
      assert ws[..k] == ws[..n - 1];
    }
  }

  /** The member values `vals` have the widths of the member types `tup`. */
  predicate RowFits(tup: seq<QualType>, vals: seq<seq<byte>>)
  {
    |vals| == |tup| && forall k :: 0 <= k < |vals| ==> |vals[k]| == SizeOf(tup[k].base)
  }

  /** The `memcpy` of one member: `v` lands at `start`; the bytes before
      and after it stay as they were. */
  method CopyInto(buffer: array<byte>, start: nat, v: seq<byte>)
    requires start + |v| <= buffer.Length
    modifies buffer
    ensures buffer[..start + |v|] == old(buffer[..start]) + v
    ensures buffer[start + |v|..] == old(buffer[start + |v|..])
  {
    var j := 0;
    while j < |v|
      invariant 0 <= j <= |v|
      invariant buffer[..start + j] == old(buffer[..start]) + v[..j]
      invariant buffer[start + j..] == old(buffer[start + j..])
    {
      buffer[start + j] := v[j];
      assert v[..j + 1] == v[..j] + [v[j]];
      j := j + 1;
    }
    assert v[..j] == v;
  }

  /** One more member appends its bytes. */
  lemma ConcatStep(vs: seq<seq<byte>>, k: nat)
    requires k < |vs|
    ensures Concat(vs[..k + 1]) == Concat(vs[..k]) + vs[k]
  {
    assert vs[..k + 1][..k] == vs[..k];
  }

  /** `fill`: each member's bytes are copied to its offset in the row
      buffer. The widths are the precomputed `element_sizes`. */
  method Fill(vals: seq<seq<byte>>, sizes: seq<nat>, buffer: array<byte>)
    requires |sizes| >= 1 && |vals| == |sizes|
    requires forall k :: 0 <= k < |vals| ==> |vals[k]| == sizes[k]
    requires buffer.Length == Sum(sizes)
    modifies buffer
    ensures buffer[..] == Concat(vals)
  {
    var offsets := CalcOffsets(sizes);
    var k := 0;
    while k < |vals|
      invariant 0 <= k <= |vals|
      invariant Sum(sizes[..k]) <= buffer.Length
      invariant buffer[..Sum(sizes[..k])] == Concat(vals[..k])
    {
      ColumnInRow(sizes, k);
      var start := offsets[k];
      assert start == Sum(sizes[..k]);
      CopyInto(buffer, start, vals[k]);
      SumStep(sizes, k);
      ConcatStep(vals, k);
      k := k + 1;
    }
    assert vals[..k] == vals && sizes[..k] == sizes;
    assert buffer[..] == buffer[..Sum(sizes)];
  }

  /** Counting one more after `i` values, modulo 2^64. */
  lemma CounterStep(count: nat, start: nat, i: nat)
    requires count == (start + i) % COUNTER_MODULUS
    ensures (count + 1) % COUNTER_MODULUS == (start + (i + 1)) % COUNTER_MODULUS
  {
  }

  // ---------------------------------------------------------------------
  // The stream

  class NpyStream {
    /** `T, TArgs...`: the scalar kind of each column. */
    const kinds: seq<ScalarKind>
    /** The column labels; set by the constructors and never changed. */
    const labels: seq<seq<byte>>
    const host: Endian
    const file: OutFile
    var headerEndPos: nat
    var valuesWritten: nat
    /** The header written at construction. */
    ghost const reserved: seq<byte>
    /** The bytes written after the header. */
    ghost var data: seq<byte>
    /** The destructor has finished. */
    ghost var closed: bool

    /** The stream's state: the file holds the reserved header followed by
      the data, and the put position is at the end of the file. */
    ghost predicate Valid()
      reads this, file
    {
      && !closed
      && file.Valid()
      && |kinds| >= 1
      && headerEndPos == |reserved|
      && file.content == reserved + data
      && file.pos == |file.content|
      && valuesWritten < COUNTER_MODULUS
    }

    /** The reserved header is the one `init` renders for the largest count.
      It depends on constant fields only, so once a constructor has
      established it, it holds for the stream's whole life. */
    ghost predicate Reserves()
    {
      |kinds| >= 1 && StreamHeader(UINT64_MAX, kinds, labels, host) == Ok(reserved)
    }

    constructor Attach(kinds: seq<ScalarKind>, labels: seq<seq<byte>>, host: Endian, file: OutFile,
                       header: seq<byte>)
      ensures this.kinds == kinds && this.labels == labels && this.host == host && this.file == file
      ensures reserved == header && headerEndPos == |header| && data == [] && valuesWritten == 0 && !closed
    {
      reserved := header;
      data := [];
      this.kinds := kinds;
      this.labels := labels;
      this.host := host;
      this.file := file;
      headerEndPos := |header|;
      valuesWritten := 0;
      closed := false;
    }

    /** The constructor with labels followed by `init`: the checks and the
      header come first, so a failure leaves the file at `target` as it
      was; then the file is truncated and the reserved header written. */
    static method CreateLabelled(target: OutFile, kinds: seq<ScalarKind>, labels: seq<seq<byte>>, host: Endian)
      returns (r: Result<NpyStream>)
      requires |kinds| >= 1 && target.Valid()
      modifies target
      ensures r.Err? <==> StreamHeader(UINT64_MAX, kinds, labels, host).Err?
      ensures r.Err? ==> r.error == StreamHeader(UINT64_MAX, kinds, labels, host).error
      ensures r.Err? ==> target.content == old(target.content) && target.pos == old(target.pos)
      ensures r.Ok? ==>
        && fresh(r.value) && r.value.Valid() && r.value.Reserves()
        && r.value.file == target && r.value.kinds == kinds && r.value.labels == labels && r.value.host == host
        && target.content == StreamHeader(UINT64_MAX, kinds, labels, host).value
        && r.value.headerEndPos == |target.content| && r.value.headerEndPos % 16 == 0
        && r.value.valuesWritten == 0 && r.value.data == []
    {
      var header := RenderStreamHeader(UINT64_MAX, kinds, labels, host);
      if header.Err? {
        return Err(header.error);
      }
      StreamHeaderCarries(UINT64_MAX, kinds, labels, host);
      var stream := Start(target, kinds, labels, host, header.value);
      return Ok(stream);
    }

    /** The end of `init`: the file is truncated, the header written, and
      its length recorded as `header_end_pos`. */
    static method Start(target: OutFile, kinds: seq<ScalarKind>, labels: seq<seq<byte>>, host: Endian,
                        header: seq<byte>)
      returns (s: NpyStream)
      requires |kinds| >= 1 && target.Valid()
      modifies target
      ensures fresh(s) && s.Valid()
      ensures s.file == target && s.kinds == kinds && s.labels == labels && s.host == host
      ensures s.reserved == header && target.content == header
      ensures s.headerEndPos == |header| && s.valuesWritten == 0 && s.data == []
    {
      target.Open();
      OverwriteAtEnd([], header);
      target.Write(header);
      assert target.content == header;
      s := new NpyStream.Attach(kinds, labels, host, target, header);
      assert s.file.content == s.reserved + s.data;
    }

    /** The path-only constructor: default labels for more than one column. */
    static method Create(target: OutFile, kinds: seq<ScalarKind>, host: Endian) returns (r: Result<NpyStream>)
      requires |kinds| >= 1 && target.Valid()
      modifies target
      ensures r.Err? ==> r.error == DictionaryTooLarge
      ensures r.Err? <==> StreamHeader(UINT64_MAX, kinds, DefaultLabels(|kinds|), host).Err?
      ensures r.Err? ==> target.content == old(target.content) && target.pos == old(target.pos)
      ensures r.Ok? ==>
        && fresh(r.value) && r.value.Valid() && r.value.Reserves()
        && r.value.file == target && r.value.kinds == kinds && r.value.host == host
        && r.value.labels == DefaultLabels(|kinds|)
        && target.content == StreamHeader(UINT64_MAX, kinds, DefaultLabels(|kinds|), host).value
        && r.value.valuesWritten == 0 && r.value.data == []
    {
      var labels := MakeDefaultLabels(|kinds|);
      StreamHeaderErrors(UINT64_MAX, kinds, labels, host);
      r := CreateLabelled(target, kinds, labels, host);
    }

    /** Scalar `<<` (one column only): the value's `sizeof(T)` bytes are
      appended and the count goes up by one. */
    method PushScalar(val: seq<byte>)
      requires Valid() && |kinds| == 1 && |val| == SizeOf(kinds[0])
      modifies this, file
      ensures Valid()
      ensures headerEndPos == old(headerEndPos)
      ensures data == old(data) + val
      ensures valuesWritten == (old(valuesWritten) + 1) % COUNTER_MODULUS
    {
      Emit(val);
    }

    /** The common end of both `<<`: one value's bytes are written at the
      end of the file and the 64-bit count goes up by one. */
    method Emit(bytes: seq<byte>)
      requires Valid()
      modifies this, file
      ensures Valid()
      ensures headerEndPos == old(headerEndPos)
      ensures data == old(data) + bytes
      ensures valuesWritten == (old(valuesWritten) + 1) % COUNTER_MODULUS
    {
      OverwriteAtEnd(file.content, bytes);
      file.Write(bytes);
      data := data + bytes;
      valuesWritten := (valuesWritten + 1) % COUNTER_MODULUS;
    }

    /** Tuple `<<` for a tuple of member types `tup` convertible to the
      stream's tuple type: the members are packed into a zeroed buffer of
      `sum_sizes` bytes by `fill`, the buffer is appended and the count goes
      up by one. */
    method PushTuple(tup: seq<QualType>, vals: seq<seq<byte>>)
      requires Valid() && Convertible(TupleLike(tup), PlainTuple(kinds))
      requires RowFits(tup, vals)
      modifies this, file
      ensures Valid()
      ensures headerEndPos == old(headerEndPos)
      ensures data == old(data) + Concat(vals)
      ensures |Concat(vals)| == Sum(ElementSizes(kinds))
      ensures valuesWritten == (old(valuesWritten) + 1) % COUNTER_MODULUS
    {
      ConvertibleToStreamTuple(tup, kinds);
      assert Decayed(tup) == kinds;
      var sizes := GetElementSizes(Decayed(tup));
      assert sizes == ElementSizes(kinds);
      var rowSize := SumSizes(sizes);
      var buffer := new byte[rowSize](_ => 0);
      Fill(vals, sizes, buffer);
      Emit(buffer[..]);
    }

    /** `write(span)` and the contiguous-iterator `write` (one column only):
      the `sizeof(T) * n` bytes of the values are appended in one write and
      the count goes up by `n`. */
    method WriteSpan(values: seq<seq<byte>>)
      requires Valid() && |kinds| == 1
      requires forall i :: 0 <= i < |values| ==> |values[i]| == SizeOf(kinds[0])
      modifies this, file
      ensures Valid()
      ensures headerEndPos == old(headerEndPos)
      ensures data == old(data) + Concat(values)
      ensures |Concat(values)| == SizeOf(kinds[0]) * |values|
      ensures valuesWritten == (old(valuesWritten) + |values|) % COUNTER_MODULUS
    {
      ConcatUniform(values, SizeOf(kinds[0]));
      var bytes := Concat(values);
      OverwriteAtEnd(file.content, bytes);
      file.Write(bytes);
      data := data + bytes;
      valuesWritten := (valuesWritten + |values|) % COUNTER_MODULUS;
    }

    /** The iterator-range `write` over scalars: one `<<` per value, in
      order, with the same effect as `WriteSpan`. */
    method WriteScalars(values: seq<seq<byte>>)
      requires Valid() && |kinds| == 1
      requires forall i :: 0 <= i < |values| ==> |values[i]| == SizeOf(kinds[0])
      modifies this, file
      ensures Valid()
      ensures headerEndPos == old(headerEndPos)
      ensures data == old(data) + Concat(values)
      ensures valuesWritten == (old(valuesWritten) + |values|) % COUNTER_MODULUS
    {
      var i := 0;
      while i < |values|
        invariant 0 <= i <= |values|
        invariant Valid() && headerEndPos == old(headerEndPos)
        invariant data == old(data) + Concat(values[..i])
        invariant valuesWritten == (old(valuesWritten) + i) % COUNTER_MODULUS
      {
        assert values[..i + 1][..i] == values[..i];
        CounterStep(valuesWritten, old(valuesWritten), i);
        PushScalar(values[i]);
        i := i + 1;
      }
      assert values[..i] == values;
    }

    /** The iterator-range `write` over tuples: one `<<` per row, in order. */
    method WriteTuples(tup: seq<QualType>, rows: seq<seq<seq<byte>>>)
      requires Valid() && Convertible(TupleLike(tup), PlainTuple(kinds))
      requires forall r :: 0 <= r < |rows| ==> RowFits(tup, rows[r])
      modifies this, file
      ensures Valid()
      ensures headerEndPos == old(headerEndPos)
      ensures data == old(data) + ConcatRows(rows)
      ensures valuesWritten == (old(valuesWritten) + |rows|) % COUNTER_MODULUS
    {
      ghost var data0, count0, end0 := data, valuesWritten, headerEndPos;
      var i := 0;
      while i < |rows|
        invariant 0 <= i <= |rows|
        invariant Valid() && headerEndPos == end0
        invariant data == data0 + ConcatRows(rows[..i])
        invariant valuesWritten == (count0 + i) % COUNTER_MODULUS
      {
        ghost var done := ConcatRows(rows[..i]);
        ConcatRowsStep(rows, i);
        CounterStep(valuesWritten, count0, i);
        PushTuple(tup, rows[i]);
        assert data == data0 + (done + Concat(rows[i]));
        i := i + 1;
      }
      assert rows[..i] == rows;
    }

    /** The destructor: the header for the true count, padded to the
      reserved length and patched as the source patches it (`Patched`:
      high byte of the length to index 7, low byte to index 8), overwrites
      the reserved slot, and the data after it is untouched. While the slot
      is under 256 bytes past the preamble the file then starts with a
      header carrying the dictionary of the true count; from 256 bytes on
      the minor version byte is nonzero (see `FinalPatch`). */
    method Destroy()
      requires Valid() && Reserves()
      modifies this, file
      ensures closed
      ensures FreshHeader(old(valuesWritten), labels, DataTypes(kinds), ElementSizes(kinds), host).Ok?
      ensures 10 <= |FreshHeader(old(valuesWritten), labels, DataTypes(kinds), ElementSizes(kinds), host).value|
                 <= |reserved|
      ensures file.content
           == Patched(FreshHeader(old(valuesWritten), labels, DataTypes(kinds), ElementSizes(kinds), host).value,
                      |reserved|) + old(data)
      ensures |reserved| - 10 < 256 ==>
        HeaderWith(file.content[..|reserved|], StreamDict(old(valuesWritten), kinds, labels, host))
      ensures |reserved| - 10 >= 256 ==> file.content[7] != 0
    {
      FinalPatch(valuesWritten, kinds, labels, host, reserved);
      var updated := RenderFresh(valuesWritten, labels, DataTypes(kinds), ElementSizes(kinds), host);
      var h := PatchHeader(updated.value, headerEndPos);
      WriteOverSlot(file, h, reserved, data);
      closed := true;
      assert (h + data)[..|h|] == h && (h + data)[7] == h[7];
    }

    /** The destructor with the length bytes patched where the format puts
      them (`PatchedCorrected`, bytes 8 and 9): the file then starts with a
      header carrying the dictionary of the true count for every stream,
      followed by the unchanged data. */
    method DestroyCorrected()
      requires Valid() && Reserves()
      modifies this, file
      ensures closed
      ensures |file.content| == |reserved| + |old(data)|
      ensures HeaderWith(file.content[..|reserved|], StreamDict(old(valuesWritten), kinds, labels, host))
      ensures file.content[|reserved|..] == old(data)
    {
      FinalPatchCorrected(valuesWritten, kinds, labels, host, reserved);
      var updated := RenderFresh(valuesWritten, labels, DataTypes(kinds), ElementSizes(kinds), host);
      var h := PatchHeaderCorrected(updated.value, headerEndPos);
      WriteOverSlot(file, h, reserved, data);
      closed := true;
      assert (h + data)[..|h|] == h && (h + data)[|h|..] == data;
    }
  }
}
