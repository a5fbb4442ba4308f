# npystream in Dafny

npystream is a C++ library that streams scalar or tuple values into a NumPy
`.npy` file, format version 1.0, without knowing the number of values in
advance. A stream works in four steps:

- On construction it writes a placeholder header rendered for the largest
  64-bit count. That fixes where the data starts.
- Each `<<` or `write` appends the raw bytes of a value or a row after the
  header.
- Each `<<` or `write` also bumps a 64-bit counter.
- On destruction it renders the header again for the true count. It pads
  that header with spaces to the reserved length, patches the length bytes
  and overwrites the start of the file with it.

This project models that core and proves its properties:

- **Type mapper** (`TypeMapper`). The kinds of scalars a stream accepts and
  the NumPy type code of each.
- **Tuple layout** (`TupleUtil`). For a row type this covers the per-column
  codes, the widths, the packed offsets and the row size, plus the
  `has_bool` and `convertible` predicates.
- **Header rendering and finalisation** (`NpyFormat`, `NpyHeader`).
  - The two dictionary forms: a single dtype, or a structured list of
    labelled columns.
  - Padding to a 16-byte boundary with a final newline.
  - The 10-byte preamble, whose 16-bit length field is written least
    significant byte first.
  - The 0xffff limit.
  - `NpyFormat` gives the header as functions. `NpyHeader` holds the
    append-by-append methods of the source, proved equal to those functions.
- **Decimal rendering** (`Decimal`). `std::to_string` for unsigned values,
  with its inverse.
- **Finalisation** (`HeaderPatch`). `wrap_up` and the destructor re-render
  the header, pad it to the reserved length, patch the length bytes, and
  write it at offset 0. The patch is modelled as written (bytes 7 and 8)
  and as the format intends it (bytes 8 and 9); see "## Findings".
- **The stream** (`Streams.NpyStream`). A class over an in-memory output
  file (`FileStream.OutFile`, its bytes plus a put position).
  - Its state is `headerEndPos` and `valuesWritten`, and the column kinds
    and labels, which never change.
  - Ghost state records the reserved header and the data bytes after it.
  - `Valid()` says the file is the reserved header followed by the data,
    with the put position at the end.
  - `Reserves()` says the reserved header is the one rendered for the
    largest count.

The central theorem is `Streams.ReservedFits`. After a header for the count
`UINT64_MAX` has rendered, the header for every 64-bit count renders too and
is no longer. It rests on two monotonicity lemmas:

- the rendered length is monotone in the number of digits of the count
  (`RenderSingleMonotone`, `RenderStructuredMonotone`);
- 16-byte alignment is monotone (`AlignedLengthMonotone`).

This is why the destructor's `assert(updated_header.size() == header_end_pos)`
holds (`include/npystream/npystream.hpp:104`, `src/npystream.cpp:41`).

Notes on the model:

- The header file and the source file are different revisions. The header
  declares `create_npy_header` returning `std::vector<char>` and does not
  declare `wrap_up`. The source returns `std::vector<unsigned char>`. Both
  are modelled as byte sequences.
- The destructor (`include/npystream/npystream.hpp:86-107`) repeats the steps
  of `wrap_up` (`src/npystream.cpp:21-44`).
  - `HeaderPatch.WrapUp` models `wrap_up` with its error path.
  - `Streams.NpyStream.Destroy` models the destructor with the same
    `RenderFresh`, `PatchHeader` and `seekp`/`write` steps.
  - `Streams.NpyStream.DestroyCorrected` is the same destructor with the
    corrected patch `PatchHeaderCorrected`.
  - `Destroy` has no error path: `FinalFits` proves the re-render cannot
    throw for a stream that was constructed.
- The source has no explicit or idempotent close; finalisation happens only
  in the destructor. `Destroy` sets a ghost `closed` flag after which
  `Valid()` no longer holds, so no further writes can be made.
- The length patch writes the high byte of the length to index 7 and the
  low byte to index 8. The format puts the 16-bit length, low byte first,
  at indices 8 and 9. `HeaderPatch.PatchHeader`, `HeaderPatch.WrapUp`,
  `Streams.FinalPatch` and `Streams.NpyStream.Destroy` follow the code.
  `Streams.NpyStream.DestroyCorrected` uses the corrected patch; see
  "## Findings".
- The host byte order is a parameter `Endian`. It decides both the `<`/`>`
  symbol in every dtype and the `memcpy` byte order inside the integral
  `append`.
- `values_written` is a `uint64_t`. The model counts modulo 2^64
  (`COUNTER_MODULUS`).
- Values are opaque byte strings of their declared width. The methods take
  them as `seq<byte>`.

## Model

| member | source | states |
|---|---|---|
| TypeMapper.MapType | include/npystream/map_type.hpp:14-29 | the code of every accepted kind is one of `b`, `i`, `u`, `f`, `c` |
| TypeMapper.MapTypeCategories | include/npystream/map_type.hpp:14-29 | each code is produced by exactly one category: `c` iff complex, `b` iff bool, `i` iff signed non-bool integral, `u` iff unsigned non-bool integral, `f` iff floating point |
| TypeMapper.BoolBeforeIntegral | include/npystream/map_type.hpp:22-25 | `bool` is integral and unsigned yet maps to `b`, so no kind mapping to `i` or `u` is `bool` |
| TypeMapper.KnownKinds | include/npystream/map_type.hpp:14-29 | code and width of `bool`, `int32_t`, `double` and `std::complex<double>`: `b1`, `i4`, `f8`, `c16` |
| TupleUtil.PlainTuple | include/npystream/npystream.hpp:61 | `std::tuple<T, TArgs...>` has one member per column kind, each unchanged by `remove_cvref`, and decaying its members gives back the column kinds |
| TupleUtil.DecayedIgnoresCvref | include/npystream/tuple_util.hpp:31 | `std::decay_t` does not see `const`, `volatile` or references: stripping them first leaves the decayed kinds unchanged |
| TupleUtil.HasBoolFromIff | include/npystream/tuple_util.hpp:28-35 | `has_bool_impl<T, N, i>` holds iff some member at index `i` or later is `bool` |
| TupleUtil.HasBoolIff | include/npystream/tuple_util.hpp:37-40 | `has_bool_element` holds iff some member is `bool` |
| TupleUtil.SameFromIff | include/npystream/tuple_util.hpp:44-50 | the fold over the members from `i` on holds iff every later member agrees after `remove_cvref` |
| TupleUtil.ConvertibleIff | include/npystream/tuple_util.hpp:42-72 | `convertible<A, B>` iff both are tuple-like, of equal arity, and each member of `A` minus cv/ref equals that of `B`; false otherwise |
| TupleUtil.ConvertibleToStreamTuple | include/npystream/npystream.hpp:119-124 | a tuple convertible to the stream's tuple type decays to the stream's kinds, so its `tuple_info` layout is the stream's |
| TupleUtil.GetDataTypes | include/npystream/tuple_util.hpp:85-89 | `data_types[k] == map_type(member k)` for every column, filled slot by slot |
| TupleUtil.GetElementSizes | include/npystream/tuple_util.hpp:91-95 | `element_sizes[k]` is the width of member `k`, filled slot by slot |
| TupleUtil.SumSizes | include/npystream/tuple_util.hpp:102-113 | the accumulating loop yields the sum of `element_sizes` |
| TupleUtil.CalcOffsets | include/npystream/tuple_util.hpp:116-124 | `offsets` is the exclusive prefix sum: `offsets[0] == 0`, `offsets[k] == offsets[k-1] + sizes[k-1]` |
| TupleUtil.Offsets | include/npystream/tuple_util.hpp:124 | one offset per column |
| TupleUtil.OffsetsRecurrence | include/npystream/tuple_util.hpp:143-149 | the prefix sums obey the recurrence of `calc_offsets_impl`, so there is no padding |
| TupleUtil.ColumnInRow | include/npystream/tuple_util.hpp:102-124 | every column's byte range ends within `sum_sizes` |
| TupleUtil.ColumnsDisjoint | include/npystream/tuple_util.hpp:116-149 | the byte ranges of two different columns do not overlap |
| TupleUtil.ColumnsCover | include/npystream/tuple_util.hpp:102-149 | every byte below `sum_sizes` lies in some column's range |
| TupleUtil.ThreeInt32Layout | include/npystream/tuple_util.hpp:98-124 | three `int` columns: widths 4,4,4, offsets 0,4,8, row size 12; widths 4,4,8 give offsets 0,4,8 and size 16 |
| Decimal.Digits | src/npystream.cpp:119-120 | `std::to_string` of an unsigned value is a nonempty string of digits without a leading zero |
| Decimal.ValueOfDigits | src/npystream.cpp:135 | reading the digits back gives the value |
| Decimal.DigitsInjective | src/npystream.cpp:135 | different counts render differently |
| Decimal.DigitsLength | src/npystream.cpp:135 | the rendering has `NumDigits(n)` bytes |
| Decimal.NumDigitsMonotone | src/npystream.cpp:135 | a larger count never has fewer digits |
| Decimal.NumDigitsBound | src/npystream.cpp:135 | `n` has at most `k` digits iff `n < 10^k` |
| Decimal.MaxCountDigits | include/npystream/npystream.hpp:165 | the placeholder count `UINT64_MAX` has 20 digits and no 64-bit count has more |
| NpyFormat.EndianSymbol | src/npystream.cpp:57-58 | `<` on a little-endian host, `>` on a big-endian one |
| NpyFormat.LittleEndian | src/npystream.cpp:60-71 | the bytes of a `w`-byte integer number `w` and, read back least significant first, give the value modulo 2^(8w) |
| NpyFormat.ReverseReverse | src/npystream.cpp:65-66 | reversing the `memcpy` buffer twice restores it |
| NpyFormat.AppendedIntegralIsLittleEndian | src/npystream.cpp:60-71 | the integral `append` emits the least significant byte first on either host |
| NpyFormat.LittleEndian16 | src/npystream.cpp:90 | the 16-bit length is two bytes, low then high, whose value is the length |
| NpyFormat.TypeString | src/npystream.cpp:117-120 | a dtype is the endian symbol, the type code and the width in decimal, and the width can be read back |
| NpyFormat.DecimalAll | src/npystream.cpp:135-139 | one decimal rendering per dimension of the shape |
| NpyFormat.SingleDictFlat | src/npystream.cpp:148-167 | the single-dtype dictionary is `{'descr': 'E c s', 'fortran_order': False/True, 'shape': (...), }` in that order |
| NpyFormat.Entries | src/npystream.cpp:109-122 | one `('label', 'E c s')` entry per column |
| NpyFormat.StructuredDictFlat | src/npystream.cpp:101-143 | the structured dictionary: entries joined by `", "`, a comma after a lone entry, then the order and the shape |
| NpyFormat.Finalized | src/npystream.cpp:73-94 | a returned header is longer than preamble plus dictionary and is 16-byte aligned |
| NpyFormat.PaddedDictShape | src/npystream.cpp:76-78 | padding aligns preamble plus dictionary to 16 with 1 to 16 added bytes (16 iff already aligned), keeps the dictionary, fills with spaces and ends in a newline |
| NpyFormat.MagicBytes | src/npystream.cpp:85-87 | the magic is `\x93NUMPY` |
| NpyFormat.FinalizedLayout | src/npystream.cpp:73-94 | a header is returned iff the padded dictionary is at most 0xffff bytes; it is magic, version 1.0, the length low byte first, and the padded dictionary |
| NpyFormat.FinalizedShape | src/npystream.cpp:80-91 | a returned header holds a correct length field of at most 0xffff, the padded dictionary from byte 10 on, and a final newline |
| NpyFormat.AlignedLengthMonotone | src/npystream.cpp:76-77 | the 16-alignment of the header length is monotone in the dictionary length |
| NpyFormat.FinalizedMonotone | src/npystream.cpp:73-94 | a shorter dictionary than one that fits also fits and gives a header that is no longer |
| NpyFormat.SingleDictLength | src/npystream.cpp:159 | the count changes the single-dtype dictionary's length only through its digit count |
| NpyFormat.StructuredDictLength | src/npystream.cpp:135 | the count changes the structured dictionary's length only through its digit count |
| NpyFormat.RenderSingleMonotone | src/npystream.cpp:148-170 | the rendered single-dtype header's length is monotone in the count's digit count, and it renders whenever a longer one does |
| NpyFormat.RenderStructuredMonotone | src/npystream.cpp:96-146 | the same for the structured header |
| NpyFormat.SingleDictCount | src/npystream.cpp:158-167 | the count can be read back: its digits follow the fixed front text and are followed by `,), }` |
| NpyFormat.KnownTypeStrings | src/npystream.cpp:117-120 | dtype strings `<i4`, `<f8`, `<c16`, `>u2` |
| NpyFormat.ExampleSingleDict | src/npystream.cpp:148-167 | dictionary of 1000 floats: `{'descr': '<f4', 'fortran_order': False, 'shape': (1000,), }` |
| NpyFormat.ExampleEntry | src/npystream.cpp:114-121 | one `('x', '<i4')` entry for a label |
| NpyFormat.ExampleEntries | src/npystream.cpp:109-126 | the `x, y, z` descr list: `('x', '<i4'), ('y', '<i4'), ('z', '<i4')` |
| NpyFormat.ExampleStructuredDict | src/npystream.cpp:101-143 | dictionary of the `x, y, z` stream of 1023 rows |
| NpyHeader.FinalizeHeader | src/npystream.cpp:73-94 | the in-place padding and the push/append steps produce exactly `Finalized`, failing iff the padded dictionary is over 0xffff bytes |
| NpyHeader.AppendShape | src/npystream.cpp:135-142 | the shape loop appends the shape text |
| NpyHeader.CreateSingleHeader | src/npystream.cpp:148-170 | the single-dtype overload produces the rendered single-dtype header; its only error is an oversized dictionary |
| NpyHeader.AppendEntry | src/npystream.cpp:114-121 | one column's appends produce its entry |
| NpyHeader.AppendEntries | src/npystream.cpp:109-126 | the column loop appends the entries joined by `", "` |
| NpyHeader.CreateStructuredHeader | src/npystream.cpp:96-146 | the structured overload produces the rendered structured header and throws the size mismatch iff labels, dtypes and sizes differ in length |
| FileStream.Overwrite | include/npystream/npystream.hpp:105-106 | `write` at a position replaces the bytes there, keeps those before and after, and extends the file past its end |
| FileStream.OverwriteAtEnd | include/npystream/npystream.hpp:113 | writing at the end of the file appends |
| FileStream.OverwritePrefix | include/npystream/npystream.hpp:105-106 | writing at 0 replaces a prefix and keeps every later byte |
| FileStream.OutFile.constructor | include/npystream/npystream.hpp:210 | a default-constructed stream over an empty file |
| FileStream.OutFile.Open | include/npystream/npystream.hpp:189 | `open` truncates the file |
| FileStream.OutFile.SeekP | include/npystream/npystream.hpp:105 | `seekp` moves the put position only |
| FileStream.OutFile.Write | include/npystream/npystream.hpp:190 | `write` overwrites at the put position and advances it by the length written |
| HeaderPatch.FinalizedIsHeader | src/npystream.cpp:73-94 | every header `finalize_header` returns is a version 1.0 header carrying its dictionary |
| HeaderPatch.PadTo | src/npystream.cpp:34-36 | inserting spaces in front of the last byte gives exactly the reserved length and keeps the rest |
| HeaderPatch.Patched | src/npystream.cpp:34-41 | the padded and patched header has exactly `header_end_pos` bytes, which is the assert at line 41 |
| HeaderPatch.PatchedCorrected | src/npystream.cpp:34-40 | the corrected patch also fills the reserved slot exactly |
| HeaderPatch.PatchedShape | src/npystream.cpp:34-40 | the patch keeps bytes 0..6, writes `(len-10)/256` to byte 7 and `(len-10)%256` to byte 8, keeps the dictionary and the final newline, and the inserted bytes are spaces |
| HeaderPatch.PadToHeader | src/npystream.cpp:35-36 | padding a header to a longer aligned length keeps magic, version, old length bytes, dictionary, spaces and newline |
| HeaderPatch.PatchedIsHeader | include/npystream/npystream.hpp:100-103 | under 256 bytes past the preamble the patch as written leaves byte 7 zero and bytes 8-9 a correct length, so it is a header carrying the new dictionary |
| HeaderPatch.PatchedBreaksVersion | include/npystream/npystream.hpp:100-103 | at 256 bytes past the preamble or more, the patch as written puts a nonzero byte in the minor version, so the result is no version 1.0 header |
| HeaderPatch.PatchedCorrectedIsHeader | src/npystream.cpp:37-40 | patching bytes 8 and 9 instead yields a header carrying the new dictionary for every length the field can hold |
| HeaderPatch.FreshHeader | src/npystream.cpp:25-32 | the re-rendered header, in the single form without labels and the structured C-order form with them, is longer than 10 bytes and aligned |
| HeaderPatch.FreshHeaderCarries | src/npystream.cpp:25-32 | the re-rendered header carries the dictionary of the true count |
| HeaderPatch.RenderFresh | src/npystream.cpp:24-32 | the branch on the labels calls the matching overload and produces `FreshHeader` |
| HeaderPatch.PatchHeader | src/npystream.cpp:34-40 | the insert and the two byte assignments produce `Patched` |
| HeaderPatch.PatchHeaderCorrected | src/npystream.cpp:34-40 | the insert and the two byte assignments, at indices 8 and 9, produce `PatchedCorrected` |
| HeaderPatch.WriteOverSlot | src/npystream.cpp:42-43 | `seekp(0)` and `write` replace the reserved slot and keep the data after it |
| HeaderPatch.WrapUp | src/npystream.cpp:21-44 | succeeds iff the header renders; on error the file is untouched; on success the file is the patched header followed by the unchanged bytes from `header_end_pos` on |
| Streams.DefaultLabel | include/npystream/npystream.hpp:72 | `f{i}` is `f` followed by the decimal digits of `i` |
| Streams.MakeDefaultLabels | include/npystream/npystream.hpp:69-74 | the labelling loop gives no labels for one column and `f0`..`f{n-1}` for `n > 1` columns (`DefaultLabels`) |
| Streams.DefaultLabelsDistinct | include/npystream/npystream.hpp:69-74 | the default labels are pairwise different |
| Streams.StreamHeader | include/npystream/npystream.hpp:164-187 | a header `init` renders fits the arity check and is aligned and longer than the preamble |
| Streams.StreamHeaderErrors | include/npystream/npystream.hpp:170-183 | `init` fails with a labels mismatch iff the labels are empty with arity above one or differ in count from the arity; any other failure is an oversized dictionary |
| Streams.RenderStreamHeader | include/npystream/npystream.hpp:164-187 | the checks and the overload calls of `init` produce `StreamHeader` |
| Streams.StreamHeaderCarries | include/npystream/npystream.hpp:164-187 | every header the stream renders is a version 1.0 header carrying its dictionary |
| Streams.ReservedFits | include/npystream/npystream.hpp:86-104 | if the header for `UINT64_MAX` renders, the header for every 64-bit count renders and is no longer |
| Streams.FinalFits | include/npystream/npystream.hpp:86-104 | the destructor's re-rendered header exists and fits the reserved slot |
| Streams.FinalPatch | include/npystream/npystream.hpp:86-106 | the final header is well formed when the slot is under 256 bytes past the preamble, and has a broken minor version from 256 on |
| Streams.FinalPatchCorrected | include/npystream/npystream.hpp:86-106 | with the corrected patch the final header, for every 64-bit count, fits the slot and is a header carrying the dictionary of that count |
| Streams.LongLabelStream | include/npystream/npystream.hpp:97-103 | a one-column stream labelled with 300 bytes reserves at least 272 bytes, so the destructor's patch as written puts a nonzero minor version in its header for every count |
| Streams.ConcatLength | include/npystream/npystream.hpp:123-125 | a row of member values has the sum of their widths as length |
| Streams.ConcatAppend | include/npystream/npystream.hpp:156-158 | appending in two pieces gives the concatenation of both |
| Streams.ConcatUniform | include/npystream/npystream.hpp:134 | `n` values of `sizeof(T)` bytes take `sizeof(T) * n` bytes |
| Streams.RowPlacement | include/npystream/npystream.hpp:205 | byte `j` of member `k` sits at row byte `offsets[k] + j` |
| Streams.CopyInto | include/npystream/npystream.hpp:203-205 | the copy of one member puts its bytes at the given offset and keeps the bytes before and after it |
| Streams.Fill | include/npystream/npystream.hpp:194-208 | after `fill` the buffer of `sum_sizes` bytes holds each member's bytes at its offset, i.e. the row |
| Streams.NpyStream.Attach | include/npystream/npystream.hpp:210-213 | the fields of a fresh stream: no data, count zero, `header_end_pos` the header's length |
| Streams.NpyStream.CreateLabelled | include/npystream/npystream.hpp:81-84 | the labelled constructor fails iff `init`'s header fails, with its error and the file untouched; otherwise the file is the header for `UINT64_MAX`, `header_end_pos` is its length (a multiple of 16) and the count is zero |
| Streams.NpyStream.Start | include/npystream/npystream.hpp:189-191 | opening truncates, the header is written and `header_end_pos` is its length |
| Streams.NpyStream.Create | include/npystream/npystream.hpp:68-76 | the path-only constructor uses the default labels and otherwise behaves as the labelled one; it can only fail with an oversized dictionary |
| Streams.NpyStream.PushScalar | include/npystream/npystream.hpp:110-116 | scalar `<<` appends exactly the value's `sizeof(T)` bytes and adds one to the count modulo 2^64 |
| Streams.NpyStream.Emit | include/npystream/npystream.hpp:113-114 | one value's bytes are appended after the data and the count goes up by one modulo 2^64 |
| Streams.NpyStream.PushTuple | include/npystream/npystream.hpp:119-128 | tuple `<<` appends the packed row of exactly `sum_sizes` bytes and adds one to the count |
| Streams.NpyStream.WriteSpan | include/npystream/npystream.hpp:131-144 | `write(span)` and the contiguous `write` append `sizeof(T) * n` bytes, the values in order, and add `n` to the count |
| Streams.NpyStream.WriteScalars | include/npystream/npystream.hpp:151-161 | the iterator `write` over scalars appends the values in order and adds their number, the same as `WriteSpan` |
| Streams.NpyStream.WriteTuples | include/npystream/npystream.hpp:151-161 | the iterator `write` over tuples appends the rows in order and adds their number |
| Streams.NpyStream.Destroy | include/npystream/npystream.hpp:86-107 | the re-rendered header exists and fits the slot; the file becomes that header padded and patched as the source patches it (bytes 7 and 8), followed by the unchanged data; it is a version 1.0 header carrying the dictionary of the true count when the slot is under 256 bytes past the preamble, and its minor version is nonzero from 256 on |
| Streams.NpyStream.DestroyCorrected | include/npystream/npystream.hpp:86-107 | with the length at bytes 8 and 9, the file keeps its length and becomes, for every stream, a version 1.0 header carrying the dictionary of the true count, followed by the unchanged data |
| Scenarios.FloatStreamReserves | examples/stream.cpp:24 | the placeholder header of a `NpyStream<float>` renders on a little-endian host |
| Scenarios.ScalarReservedShort | include/npystream/npystream.hpp:170-173 | the placeholder header of a one-column unlabelled stream renders and is at most 112 bytes, so the destructor's patch is correct for it |
| Scenarios.ScalarStreamDict | include/npystream/npystream.hpp:88-90 | a one-column stream's dictionary is the single-dtype one for its kind and count |
| Scenarios.OpenScalarStream | include/npystream/npystream.hpp:68-76 | the path-only constructor of a one-column stream gives a stream with no labels, no data and count zero |
| Scenarios.WriteBlocks | examples/stream.cpp:28-31 | a span and then an iterator range append both blocks in order and add their sizes to the count |
| Scenarios.ScalarStream | examples/stream.cpp:23-32 | the finished file, destroyed with the patch as written, is a header carrying the dictionary for the total count, followed by both blocks in order |

## Left out

- `std::ofstream` I/O. The file is an in-memory byte sequence with a put
  position. The path, open failures and write failures are not modelled;
  the source checks none of them.
- The bit patterns of values (`memcpy`, `reinterpret_cast`, floating-point
  and complex semantics). Each value is an opaque byte string of its
  declared width.
- Template and concept machinery (`npy_serializable`, `tuple_like`, SFINAE
  in `ConvertibleTester`, `static_assert`). It is a closed datatype of
  kinds plus predicates, and compile-time rejection becomes a
  precondition (`Convertible`, one column for scalar writes).
- Host endianness detection and the mixed-endian `static_assert`. The host
  byte order is a parameter.
- WrapUp: the unsigned wrap of `header_end_pos - updated_header.size()` and
  the inert `std::max` are not modelled. A precondition requires the fresh
  header to be no longer than the slot. For the destructor, `FinalFits`
  proves that this holds.
- `size_t` overflow in `sum_sizes` and in `sizeof(T) * n`. These are
  unbounded naturals.
- `std::terminate` when the destructor throws. `FinalFits` shows the
  re-render never throws for a constructed stream, so `Destroy` has no
  error path.
- Scenarios.ScalarStream: requires the element width to have at most
  twenty decimal digits, which every C++ `sizeof` of a scalar meets; it
  keeps the placeholder header under the 266 bytes from which the
  as-written patch breaks the version.
- `operator<<` and `write` return `*this` for chaining. The methods return
  nothing; chained calls are consecutive calls.
- The `Fortran` memory order is modelled in the dictionary text, but the
  stream always uses C order, as the source does.

## Findings

| source | as written | input that shows it | evidently intended | confidence | as-written member | corrected member |
|---|---|---|---|---|---|---|
| include/npystream/npystream.hpp:100-103 (and src/npystream.cpp:37-40) | the patched length goes high byte to index 7 and low byte to index 8 | a stream whose reserved header is 272 bytes or longer (the first multiple of 16 from 266 on), e.g. twelve default-labelled `int32_t` columns, or one `int32_t` column labelled with 300 bytes: index 7, the minor version, becomes nonzero and index 9 keeps the old high byte | the 16-bit dictionary length, least significant byte first, at indices 8 and 9 | not executed | HeaderPatch.PatchedBreaksVersion, Streams.LongLabelStream, Streams.NpyStream.Destroy | HeaderPatch.PatchedCorrectedIsHeader, Streams.FinalPatchCorrected, Streams.NpyStream.DestroyCorrected |

`HeaderPatch.PatchHeader`, `HeaderPatch.WrapUp` and
`Streams.NpyStream.Destroy` model the patch as written. `Streams.FinalPatch` proves two things about it:

- while the slot is under 256 bytes past the preamble, the result is a
  correct header;
- from 256 bytes on, the minor version is broken.

The corrected patch `HeaderPatch.PatchedCorrected` (computed by
`HeaderPatch.PatchHeaderCorrected`) writes a correct header for every slot
the length field can describe. `Streams.NpyStream.DestroyCorrected` uses
it, and `Streams.FinalPatchCorrected` proves its result correct for every
stream.
