/** The header codec of `src/npystream.cpp` as it runs: the dictionary is
    built by appending to a byte vector, column by column and count by
    count, and `finalize_header` pads it and prepends the preamble. Each
    method is proved to produce the header `NpyFormat` describes. */
module NpyHeader {
  import opened Common
  import Decimal
  import opened NpyFormat

  /** `finalize_header`: pad with spaces so that the 10-byte preamble plus
      the dictionary is a multiple of 16, turn the last byte into a newline,
      reject a dictionary over 0xffff bytes, then emit magic, version,
      16-bit length and dictionary. */
  method FinalizeHeader(dict: seq<byte>, host: Endian) returns (r: Result<seq<byte>>)
    ensures r == Finalized(dict, host)
    ensures r.Ok? <==> |dict| + PadLength(|dict|) <= 0xffff
    ensures r.Err? ==> r.error == DictionaryTooLarge
    ensures r.Ok? ==> var n := |dict| + PadLength(|dict|);
      r.value == MAGIC + [1, 0, (n % 256) as byte, (n / 256) as byte] + PaddedDict(dict)
  {
    FinalizedLayout(dict, host);
    var remainder := 16 - (10 + |dict|) % 16;
    var padded := dict + Spaces(remainder);
    padded := padded[|padded| - 1 := NEWLINE];
    if |padded| > 0xffff {
      return Err(DictionaryTooLarge);
    }
    var header: seq<byte> := [0x93];
    header := header + Str("NUMPY");
    header := header + [1, 0];
    header := header + AppendedIntegral(|padded| % 0x1_0000, 2, host);
    header := header + padded;
    return Ok(header);
  }

  /** One turn of the loop below: the separator and the next part continue
      the joined list. */
  lemma JoinExtend(dict: seq<byte>, parts: seq<seq<byte>>, sep: seq<byte>, i: nat)
    requires 0 < i < |parts|
    ensures dict + Join(parts[..i], sep) + sep + parts[i] == dict + Join(parts[..i + 1], sep)
  {
    var before := Join(parts[..i], sep);
    JoinStep(parts, sep, i);
    assert dict + before + sep + parts[i] == dict + (before + sep + parts[i]);
  }

  /** The shape tuple's contents: `shape[0]`, then `", "` and each further
      count, and a trailing comma for a one-element shape. The source reads
      `shape[0]` unconditionally, so a shape is never empty. */
  method AppendShape(dict: seq<byte>, shape: seq<nat>) returns (d: seq<byte>)
    requires |shape| >= 1
    ensures d == dict + ShapeText(shape)
  {
    var parts := DecimalAll(shape);
    d := dict + Decimal.Digits(shape[0]);
    var i := 1;
    assert parts[..1] == [parts[0]];
    while i < |shape|
      invariant 1 <= i <= |shape|
      invariant d == dict + Join(parts[..i], Str(", "))
    {
      JoinExtend(dict, parts, Str(", "), i);
      d := d + Str(", ") + Decimal.Digits(shape[i]);
      i := i + 1;
    }
    assert parts[..i] == parts;
    if |shape| == 1 {
      d := d + Str(",");
    }
  }

  /** The single-dtype `create_npy_header`: `descr` is the one dtype string
      built from the host's endian symbol, the type code and the width. */
  method CreateSingleHeader(shape: seq<nat>, dtype: char, size: nat, order: MemoryOrder, host: Endian)
    returns (r: Result<seq<byte>>)
    requires |shape| >= 1
    ensures r == RenderSingle(shape, EndianSymbol(host), dtype, size, order, host)
    ensures r.Err? ==> r.error == DictionaryTooLarge
  {
    var dict := Str("{'descr': '");
    dict := dict + [EndianSymbol(host)];
    dict := dict + [CharByte(dtype)];
    dict := dict + Decimal.Digits(size);
    assert dict == Str("{'descr': '") + TypeString(EndianSymbol(host), dtype, size);
    dict := dict + Str("', 'fortran_order': ");
    dict := dict + (if order == C then Str("False") else Str("True"));
    dict := dict + Str(", 'shape': (");
    dict := AppendShape(dict, shape);
    dict := dict + Str("), }");
    SingleDictFlat(shape, EndianSymbol(host), dtype, size, order);
    r := FinalizeHeader(dict, host);
  }

  /** One column's `('label', 'E c s')` entry. */
  method AppendEntry(dict: seq<byte>, name: seq<byte>, symbol: byte, dtype: char, size: nat)
    returns (d: seq<byte>)
    ensures d == dict + Entry(name, symbol, dtype, size)
  {
    d := dict + Str("('");
    d := d + name;
    d := d + Str("', '");
    d := d + [symbol];
    d := d + [CharByte(dtype)];
    d := d + Decimal.Digits(size);
    assert d == dict + Str("('") + name + Str("', '") + TypeString(symbol, dtype, size);
    d := d + Str("')");
  }

  /** One turn of the loop below: the entry, then `sep` unless it is the
      last one, continue the joined list. */
  lemma EntriesStep(dict: seq<byte>, es: seq<seq<byte>>, sep: seq<byte>, i: nat)
    requires i < |es|
    ensures dict + Join(es[..i], sep) + (if 0 < i < |es| then sep else []) + es[i]
              + (if i + 1 != |es| then sep else [])
         == dict + Join(es[..i + 1], sep) + (if 0 < i + 1 < |es| then sep else [])
  {
    var before, lead := Join(es[..i], sep), if 0 < i then sep else [];
    JoinStep(es, sep, i);
    assert dict + before + lead + es[i] == dict + (before + lead + es[i]);
  }

  /** The loop over the columns of the structured `create_npy_header`:
      each column's entry, with `", "` after every entry but the last. */
  method AppendEntries(dict: seq<byte>, labels: seq<seq<byte>>, symbol: byte, dtypes: seq<char>, sizes: seq<nat>)
    returns (d: seq<byte>)
    requires |labels| == |dtypes| == |sizes|
    ensures d == dict + Join(Entries(labels, symbol, dtypes, sizes), Str(", "))
  {
    ghost var es := Entries(labels, symbol, dtypes, sizes);
    var n := |dtypes|;
    d := dict;
    var i := 0;
    while i < n
      invariant 0 <= i <= n
      invariant d == dict + Join(es[..i], Str(", ")) + (if 0 < i < n then Str(", ") else [])
    {
      d := AppendEntry(d, labels[i], symbol, dtypes[i], sizes[i]);
      if i + 1 != n {
        d := d + Str(", ");
      }
      EntriesStep(dict, es, Str(", "), i);
      i := i + 1;
    }
    assert es[..n] == es;
  }

  /** The structured `create_npy_header`: it throws unless labels, dtypes
      and sizes have one entry per column, then appends one
      `('label', 'E c s')` entry per column, `", "` between entries, and a
      comma after a lone entry. */
  method CreateStructuredHeader(shape: seq<nat>, labels: seq<seq<byte>>, dtypes: seq<char>, sizes: seq<nat>,
                                order: MemoryOrder, host: Endian)
    returns (r: Result<seq<byte>>)
    requires |shape| >= 1
    ensures r == RenderStructured(shape, labels, EndianSymbol(host), dtypes, sizes, order, host)
    ensures !(|labels| == |dtypes| == |sizes|) <==> r == Err(ArgumentSizesMismatch)
  {
    var dict := Str("{'descr': [");
    if |labels| != |dtypes| || |dtypes| != |sizes| || |sizes| != |labels| {
      return Err(ArgumentSizesMismatch);
    }
    var symbol := EndianSymbol(host);
    dict := AppendEntries(dict, labels, symbol, dtypes, sizes);
    var n := |dtypes|;
    if n == 1 {
      dict := dict + [CharByte(',')];
    }
    assert dict == Str("{'descr': [") + Join(Entries(labels, symbol, dtypes, sizes), Str(", "))
                   + (if n == 1 then Str(",") else []);
    dict := dict + Str("], 'fortran_order': ");
    dict := dict + (if order == C then Str("False") else Str("True"));
    dict := dict + Str(", 'shape': (");
    dict := AppendShape(dict, shape);
    dict := dict + Str("), }");
    StructuredDictFlat(shape, labels, symbol, dtypes, sizes, order);
    r := FinalizeHeader(dict, host);
    if r == Err(ArgumentSizesMismatch) {
      assert false;
    }
  }
}
