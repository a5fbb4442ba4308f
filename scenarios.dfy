/** The scalar streams of the library's usage example, end to end: a
    one-column stream is constructed over an empty file, one block of values
    is written as a span and a second one through the iterator-range
    `write`, and the stream is destroyed. */
module Scenarios {
  import opened Common
  import Decimal
  import opened TypeMapper
  import opened TupleUtil
  import opened NpyFormat
  import opened HeaderPatch
  import opened FileStream
  import opened Streams

  /** The placeholder header of a one-column stream of four-byte floats
      renders: its dictionary is 76 bytes. */
  lemma FloatStreamReserves()
    ensures StreamHeader(UINT64_MAX, [Float(4)], [], Little).Ok?
  {
    Decimal.MaxCountDigits();
    Decimal.DigitsLength(UINT64_MAX);
    assert |ShapeText([UINT64_MAX])| == 21;
    var dict := SingleDict([UINT64_MAX], 60, 'f', 4, C);
    SingleDictFlat([UINT64_MAX], 60, 'f', 4, C);
    assert |dict| == 76;
    PaddedDictShape(dict);
    assert DataTypes([Float(4)]) == ['f'] && ElementSizes([Float(4)]) == [4];
  }

  /** The single-dtype dictionary for the largest count is 75 bytes plus
      the width's digits. */
  lemma MaxSingleDictLength(symbol: byte, code: char, size: nat)
    ensures |SingleDict([UINT64_MAX], symbol, code, size, C)| == 75 + Decimal.NumDigits(size)
  {
    Decimal.MaxCountDigits();
    Decimal.DigitsLength(UINT64_MAX);
    assert |ShapeText([UINT64_MAX])| == 21;
    SingleDictFlat([UINT64_MAX], symbol, code, size, C);
  }

  /** A dictionary of at most 95 bytes finalizes to at most 112 bytes. */
  lemma ShortFinalized(dict: seq<byte>, host: Endian)
    requires |dict| <= 95
    ensures Finalized(dict, host).Ok? && |Finalized(dict, host).value| <= 112
  {
    PaddedDictShape(dict);
    var p := PaddedDict(dict);
    assert 10 + |p| <= 112 by {
      assert 10 + |p| <= 121 && (10 + |p|) % 16 == 0;
    }
    FinalizedLayout(dict, host);
    assert |Finalized(dict, host).value| == 10 + |p|;
  }

  /** The placeholder header of a one-column stream without labels is at
      most 112 bytes for any element width of at most twenty digits. */
  lemma ScalarReservedShort(k: ScalarKind, host: Endian)
    requires Decimal.NumDigits(SizeOf(k)) <= 20
    ensures StreamHeader(UINT64_MAX, [k], [], host).Ok?
    ensures |StreamHeader(UINT64_MAX, [k], [], host).value| <= 112
  {
    var sym := EndianSymbol(host);
    MaxSingleDictLength(sym, MapType(k), SizeOf(k));
    ShortFinalized(SingleDict([UINT64_MAX], sym, MapType(k), SizeOf(k), C), host);
    assert DataTypes([k]) == [MapType(k)] && ElementSizes([k]) == [SizeOf(k)];
  }

  /** The dictionary a one-column stream records for `count` values. */
  lemma ScalarStreamDict(count: nat, k: ScalarKind, host: Endian)
    ensures StreamDict(count, [k], [], host) == SingleDict([count], EndianSymbol(host), MapType(k), SizeOf(k), C)
  {
    assert DataTypes([k]) == [MapType(k)] && ElementSizes([k]) == [SizeOf(k)];
  }

  /** A counter below 2^64 does not wrap. */
  lemma CountBelowModulus(n: nat)
    requires n < COUNTER_MODULUS
    ensures n % COUNTER_MODULUS == n
  {
  }

  /** The two blocks: a span, then the iterator-range `write`. */
  method WriteBlocks(s: NpyStream, w: nat, block: seq<seq<byte>>, more: seq<seq<byte>>)
    requires s.Valid() && |s.kinds| == 1 && SizeOf(s.kinds[0]) == w
    requires forall i :: 0 <= i < |block| ==> |block[i]| == w
    requires forall i :: 0 <= i < |more| ==> |more[i]| == w
    requires s.valuesWritten + |block| + |more| < COUNTER_MODULUS
    modifies s, s.file
    ensures s.Valid()
    ensures s.data == old(s.data) + Concat(block) + Concat(more)
    ensures s.valuesWritten == old(s.valuesWritten) + |block| + |more|
  {
    ghost var start := s.valuesWritten;
    s.WriteSpan(block);
    CountBelowModulus(start + |block|);
    s.WriteScalars(more);
    CountBelowModulus(start + |block| + |more|);
  }

  /** A file made of a header slot and the data after it, split back at the
      data's length. */
  lemma SplitAtData(content: seq<byte>, slot: nat, data: seq<byte>, dict: seq<byte>)
    requires slot <= |content| && |content| == slot + |data|
    requires HeaderWith(content[..slot], dict) && content[slot..] == data
    ensures |content| >= |data|
    ensures HeaderWith(content[..|content| - |data|], dict) && content[|content| - |data|..] == data
  {
  }

  /** The path-only constructor of a one-column stream over an empty file,
      when its placeholder header renders. */
  method OpenScalarStream(k: ScalarKind, host: Endian) returns (s: NpyStream)
    requires StreamHeader(UINT64_MAX, [k], [], host).Ok?
    ensures fresh(s) && fresh(s.file)
    ensures s.Valid() && s.Reserves()
    ensures s.kinds == [k] && s.labels == [] && s.host == host
    ensures s.valuesWritten == 0 && s.data == []
  {
    var file := new OutFile();
    assert DefaultLabels(1) == [];
    var r := NpyStream.Create(file, [k], host);
    s := r.value;
  }

  /** The file a one-column stream of kind `k` leaves behind: a version
      1.0 header carrying the dictionary for the total number of values
      (`ScalarStreamDict` spells it out), followed by the values of both
      blocks in order. The header is short enough (`ScalarReservedShort`)
      for the destructor's length patch to be correct. */
  method ScalarStream(k: ScalarKind, host: Endian, block: seq<seq<byte>>, more: seq<seq<byte>>)
    returns (content: seq<byte>)
    requires Decimal.NumDigits(SizeOf(k)) <= 20
    requires |block| + |more| <= UINT64_MAX
    requires forall i :: 0 <= i < |block| ==> |block[i]| == SizeOf(k)
    requires forall i :: 0 <= i < |more| ==> |more[i]| == SizeOf(k)
    ensures |Concat(block) + Concat(more)| <= |content|
    ensures var n := |content| - |Concat(block) + Concat(more)|;
      && HeaderWith(content[..n], StreamDict(|block| + |more|, [k], [], host))
      && content[n..] == Concat(block) + Concat(more)
  {
    ScalarReservedShort(k, host);
    var s := OpenScalarStream(k, host);
    WriteBlocks(s, SizeOf(k), block, more);
    ghost var data := s.data;
    ghost var reserved := s.reserved;
    ghost var dict := StreamDict(s.valuesWritten, s.kinds, s.labels, s.host);
    assert data == Concat(block) + Concat(more);
    assert dict == StreamDict(|block| + |more|, [k], [], host);
    s.Destroy();
    content := s.file.content;
    assert |content| == |reserved| + |data|;
    assert HeaderWith(content[..|reserved|], dict);
    assert content[|reserved|..] == data;
    SplitAtData(content, |reserved|, data, dict);
  }
}
