/** What the header of a `.npy` file (format version 1.0) written by this
    library is: the dictionary text in its two forms, the padding to a
    16-byte boundary, the preamble with its little-endian length, and the
    facts about header length that the placeholder scheme relies on. */
module NpyFormat {
  import opened Common
  import Decimal
  import TypeMapper

  /** The host byte order; it decides the endian symbol of every dtype and
      the in-memory byte order of integers. */
  datatype Endian = Little | Big

  /** `MemoryOrder` (`RowMajor` is `C`, `ColumnMajor` is `Fortran`). */
  datatype MemoryOrder = Fortran | C

  /** `native_endian_symbol`: '<' on a little-endian host, '>' on a big-endian one. */
  function EndianSymbol(e: Endian): (b: byte)
    ensures b == CharByte(if e == Little then '<' else '>')
  {
    if e == Little then 60 else 62
  }

  // ---------------------------------------------------------------------
  // Integers as bytes: the `append` overload for integral types

  /** 256 to the power `w`: one more than the largest `w`-byte value. */
  function Pow256(w: nat): (p: nat)
    ensures p >= 1
  {
    if w == 0 then 1 else 256 * Pow256(w - 1)
  }

  /** The number whose bytes, least significant first, are `r`. */
  function LittleEndianValue(r: seq<byte>): nat
  {
    if r == [] then 0 else r[0] as nat + 256 * LittleEndianValue(r[1..])
  }

  /** Euclidean remainders are unique. */
  lemma ModUnique(v: nat, n: nat, a: nat, c: nat)
    requires n >= 1 && v == n * a + c && c < n
    ensures v % n == c
  {
    var q := v / n;
    if q < a {
      MulLess(n, q, a);
    } else if a < q {
      MulLess(n, a, q);
    }
  }

  /** Multiplying by `n` keeps a strict order at least `n` apart. */
  lemma MulLess(n: nat, x: nat, y: nat)
    requires x < y
    ensures n * x + n <= n * y
  {
    var d: nat := y - x - 1;
    assert y == x + 1 + d;
    assert n * y == n * x + n + n * d;
  }

  /** The remainder modulo `256 * m` splits into the low byte and the
      remainder of the rest modulo `m`. */
  lemma ModSplit(v: nat, m: nat)
    requires m >= 1
    ensures v % (256 * m) == v % 256 + 256 * ((v / 256) % m)
  {
    var q := v / 256;
    var a, b := q / m, q % m;
    assert q == m * a + b;
    assert v == (256 * m) * a + (256 * b + v % 256);
    ModUnique(v, 256 * m, a, 256 * b + v % 256);
  }

  /** The `w` low-order bytes of `v`, least significant first: read back,
      they give `v` modulo 2^(8w). */
  function LittleEndian(v: nat, w: nat): (r: seq<byte>)
    ensures |r| == w
    ensures LittleEndianValue(r) == v % Pow256(w)
  {
    if w == 0 then []
    else
      var r := [(v % 256) as byte] + LittleEndian(v / 256, w - 1);
      assert r[1..] == LittleEndian(v / 256, w - 1);
      ModSplit(v, Pow256(w - 1));
      r
  }

  function Reverse(s: seq<byte>): (r: seq<byte>)
    ensures |r| == |s|
  {
    if s == [] then [] else Reverse(s[1..]) + [s[0]]
  }

  /** The object representation `memcpy` copies out of a `w`-byte integer. */
  function ObjectBytes(v: nat, w: nat, host: Endian): seq<byte>
  {
    if host == Little then LittleEndian(v, w) else Reverse(LittleEndian(v, w))
  }

  /** What `append(vec, rhs)` adds for an integral `rhs` of `w` bytes: the
      object bytes, read backwards on a big-endian host. */
  function AppendedIntegral(v: nat, w: nat, host: Endian): seq<byte>
  {
    var buffer := ObjectBytes(v, w, host);
    if host == Big then Reverse(buffer) else buffer
  }

  lemma {:induction false} ReverseAt(s: seq<byte>, i: nat)
    requires i < |s|
    ensures Reverse(s)[i] == s[|s| - 1 - i]
  {
    if i < |s| - 1 {
      ReverseAt(s[1..], i);
    }
  }

  lemma ReverseReverse(s: seq<byte>)
    ensures Reverse(Reverse(s)) == s
  {
    forall i | 0 <= i < |s|
      ensures Reverse(Reverse(s))[i] == s[i]
    {
      ReverseAt(Reverse(s), i);
      ReverseAt(s, |s| - 1 - i);
    }
  }

  /** Integers are appended least significant byte first whatever the host. */
  lemma AppendedIntegralIsLittleEndian(v: nat, w: nat, host: Endian)
    ensures AppendedIntegral(v, w, host) == LittleEndian(v, w)
  {
    ReverseReverse(LittleEndian(v, w));
  }

  lemma LittleEndian16(v: nat)
    requires v <= 0xffff
    ensures LittleEndian(v, 2) == [(v % 256) as byte, (v / 256) as byte]
    ensures LittleEndian(v, 2)[0] as int + 256 * LittleEndian(v, 2)[1] as int == v
  {
  }

  // ---------------------------------------------------------------------
  // The dictionary text

  /** `parts` separated by `sep`. */
  function Join(parts: seq<seq<byte>>, sep: seq<byte>): seq<byte>
  {
    if |parts| == 0 then []
    else if |parts| == 1 then parts[0]
    else Join(parts[..|parts| - 1], sep) + sep + parts[|parts| - 1]
  }

  /** Joining one more part adds the separator (unless it is the first
      part) and the part. */
  lemma JoinStep(parts: seq<seq<byte>>, sep: seq<byte>, i: nat)
    requires i < |parts|
    ensures Join(parts[..i + 1], sep) == Join(parts[..i], sep) + (if i > 0 then sep else []) + parts[i]
  {
    assert parts[..i + 1][..i] == parts[..i];
  }

  /** A dtype `E c s`: endian symbol, type code and the width in decimal. */
  function TypeString(symbol: byte, code: char, size: nat): (r: seq<byte>)
    ensures |r| == 2 + Decimal.NumDigits(size)
    ensures r[0] == symbol && r[1] == CharByte(code)
    ensures forall i :: 2 <= i < |r| ==> Decimal.IsDigit(r[i])
    ensures Decimal.ValueOf(r[2..]) == size
  {
    Decimal.DigitsLength(size);
    Decimal.ValueOfDigits(size);
    [symbol, CharByte(code)] + Decimal.Digits(size)
  }

  function DecimalAll(ns: seq<nat>): (r: seq<seq<byte>>)
    ensures |r| == |ns|
  {
    seq(|ns|, i requires 0 <= i < |ns| => Decimal.Digits(ns[i]))
  }

  /** `True` or `False` for `fortran_order`. */
  function OrderText(order: MemoryOrder): seq<byte>
  {
    if order == C then Str("False") else Str("True")
  }

  /** The contents of the shape tuple: the counts in decimal separated by
      `", "`, with the trailing comma of a one-element tuple. */
  function ShapeText(shape: seq<nat>): seq<byte>
  {
    Join(DecimalAll(shape), Str(", ")) + (if |shape| == 1 then Str(",") else [])
  }

  /** The single-dtype dictionary: `descr` is one dtype string. */
  function SingleDict(shape: seq<nat>, symbol: byte, dtype: char, size: nat, order: MemoryOrder): seq<byte>
  {
    Concat([Str("{'descr': '"), TypeString(symbol, dtype, size), Str("', 'fortran_order': "),
            OrderText(order), Str(", 'shape': ("), ShapeText(shape), Str("), }")])
  }

  /** The single-dtype dictionary as one concatenation. */
  lemma SingleDictFlat(shape: seq<nat>, symbol: byte, dtype: char, size: nat, order: MemoryOrder)
    ensures SingleDict(shape, symbol, dtype, size, order)
         == Str("{'descr': '") + TypeString(symbol, dtype, size) + Str("', 'fortran_order': ")
            + OrderText(order) + Str(", 'shape': (") + ShapeText(shape) + Str("), }")
  {
    ConcatSeven(Str("{'descr': '"), TypeString(symbol, dtype, size), Str("', 'fortran_order': "),
                OrderText(order), Str(", 'shape': ("), ShapeText(shape), Str("), }"));
  }

  /** One `('label', 'E c s')` entry of a structured `descr`. */
  function Entry(name: seq<byte>, symbol: byte, dtype: char, size: nat): seq<byte>
  {
    Str("('") + name + Str("', '") + TypeString(symbol, dtype, size) + Str("')")
  }

  function Entries(labels: seq<seq<byte>>, symbol: byte, dtypes: seq<char>, sizes: seq<nat>): (r: seq<seq<byte>>)
    requires |labels| == |dtypes| == |sizes|
    ensures |r| == |labels|
  {
    seq(|labels|, i requires 0 <= i < |labels| => Entry(labels[i], symbol, dtypes[i], sizes[i]))
  }

  /** The structured dictionary: `descr` is the list of entries separated by
      `", "`, with a trailing comma when there is exactly one column. */
  function StructuredDict(shape: seq<nat>, labels: seq<seq<byte>>, symbol: byte, dtypes: seq<char>,
                          sizes: seq<nat>, order: MemoryOrder): seq<byte>
    requires |labels| == |dtypes| == |sizes|
  {
    Concat([Str("{'descr': ["), DescrList(labels, symbol, dtypes, sizes), Str("], 'fortran_order': "),
            OrderText(order), Str(", 'shape': ("), ShapeText(shape), Str("), }")])
  }

  /** The entries of a structured `descr`, with the trailing comma of a
      one-element list. */
  function DescrList(labels: seq<seq<byte>>, symbol: byte, dtypes: seq<char>, sizes: seq<nat>): seq<byte>
    requires |labels| == |dtypes| == |sizes|
  {
    Join(Entries(labels, symbol, dtypes, sizes), Str(", ")) + (if |dtypes| == 1 then Str(",") else [])
  }

  /** The structured dictionary as one concatenation. */
  lemma StructuredDictFlat(shape: seq<nat>, labels: seq<seq<byte>>, symbol: byte, dtypes: seq<char>,
                           sizes: seq<nat>, order: MemoryOrder)
    requires |labels| == |dtypes| == |sizes|
    ensures StructuredDict(shape, labels, symbol, dtypes, sizes, order)
         == Str("{'descr': [") + Join(Entries(labels, symbol, dtypes, sizes), Str(", "))
            + (if |dtypes| == 1 then Str(",") else []) + Str("], 'fortran_order': ")
            + OrderText(order) + Str(", 'shape': (") + ShapeText(shape) + Str("), }")
  {
    var head, list, tail := Str("{'descr': ["), Join(Entries(labels, symbol, dtypes, sizes), Str(", ")),
                            (if |dtypes| == 1 then Str(",") else []);
    ConcatSeven(head, DescrList(labels, symbol, dtypes, sizes), Str("], 'fortran_order': "),
                OrderText(order), Str(", 'shape': ("), ShapeText(shape), Str("), }"));
    assert head + (list + tail) == head + list + tail;
  }

  // ---------------------------------------------------------------------
  // Padding and preamble

  /** The number of spaces `finalize_header` adds: from 1 to 16. */
  function PadLength(n: nat): nat
  {
    16 - (10 + n) % 16
  }

  /** The dictionary padded with spaces, its last byte replaced by a newline. */
  function PaddedDict(dict: seq<byte>): seq<byte>
  {
    var p := dict + Spaces(PadLength(|dict|));
    p[|p| - 1 := NEWLINE]
  }

  const MAGIC: seq<byte> := [0x93] + Str("NUMPY")

  /** Magic, format name, version 1.0 and the dictionary length. */
  function Preamble(dictLength: nat, host: Endian): seq<byte>
  {
    MAGIC + [1, 0] + AppendedIntegral(dictLength % 0x1_0000, 2, host)
  }

  /** `finalize_header` on a dictionary. */
  function Finalized(dict: seq<byte>, host: Endian): (r: Result<seq<byte>>)
    ensures r.Ok? ==> 10 + |dict| < |r.value| && |r.value| % 16 == 0
  {
    PaddedDictShape(dict);
    var p := PaddedDict(dict);
    if |p| > 0xffff then Err(DictionaryTooLarge) else Ok(Preamble(|p|, host) + p)
  }

  /** The single-dtype `create_npy_header`. */
  function RenderSingle(shape: seq<nat>, symbol: byte, dtype: char, size: nat, order: MemoryOrder,
                        host: Endian): Result<seq<byte>>
  {
    Finalized(SingleDict(shape, symbol, dtype, size, order), host)
  }

  /** The structured `create_npy_header`. */
  function RenderStructured(shape: seq<nat>, labels: seq<seq<byte>>, symbol: byte, dtypes: seq<char>,
                            sizes: seq<nat>, order: MemoryOrder, host: Endian): Result<seq<byte>>
  {
    if |labels| != |dtypes| || |dtypes| != |sizes| || |sizes| != |labels| then Err(ArgumentSizesMismatch)
    else Finalized(StructuredDict(shape, labels, symbol, dtypes, sizes, order), host)
  }

  // ---------------------------------------------------------------------
  // Properties of the header

  /** Padding aligns preamble plus dictionary to 16 bytes with one to
      sixteen spaces (sixteen when already aligned), keeps the dictionary
      and ends it in a newline. */
  lemma PaddedDictShape(dict: seq<byte>)
    ensures var p := PaddedDict(dict);
      && (10 + |p|) % 16 == 0
      && 1 <= |p| - |dict| <= 16
      && (|p| - |dict| == 16 <==> (10 + |dict|) % 16 == 0)
      && p[..|dict|] == dict
      && (forall i :: |dict| <= i < |p| - 1 ==> p[i] == SPACE)
      && p[|p| - 1] == NEWLINE
  {
    var p := PaddedDict(dict);
    assert p[..|dict|] == dict;
  }

  lemma MagicBytes()
    ensures MAGIC == [0x93, 78, 85, 77, 80, 89]
  {
  }

  /** A header is returned exactly when the padded dictionary fits in the
      16-bit length field; it is the magic `\x93NUMPY`, version 1.0, the
      length low byte first, and the padded dictionary. */
  lemma FinalizedLayout(dict: seq<byte>, host: Endian)
    ensures var p := PaddedDict(dict);
      && (Finalized(dict, host).Ok? <==> |dict| + PadLength(|dict|) <= 0xffff)
      && (Finalized(dict, host).Ok? ==>
            Finalized(dict, host).value == MAGIC + [1, 0, (|p| % 256) as byte, (|p| / 256) as byte] + p)
  {
    var p := PaddedDict(dict);
    PaddedDictShape(dict);
    if |p| <= 0xffff {
      assert |p| % 0x1_0000 == |p|;
      AppendedIntegralIsLittleEndian(|p|, 2, host);
      LittleEndian16(|p|);
      var lo, hi := (|p| % 256) as byte, (|p| / 256) as byte;
      assert Preamble(|p|, host) == MAGIC + [1, 0] + [lo, hi];
      assert MAGIC + [1, 0] + [lo, hi] == MAGIC + [1, 0, lo, hi];
    }
  }

  /** A returned header has a correct length field, holds the padded
      dictionary from byte 10 on, is 16-byte aligned and ends in a newline. */
  lemma FinalizedShape(dict: seq<byte>, host: Endian)
    requires Finalized(dict, host).Ok?
    ensures var p := PaddedDict(dict);
      var h := Finalized(dict, host).value;
      && h[..6] == MAGIC && h[6] == 1 && h[7] == 0
      && h[8] as int + 256 * h[9] as int == |p| <= 0xffff
      && h[10..] == p
      && |h| % 16 == 0
      && h[|h| - 1] == NEWLINE
  {
    PaddedDictShape(dict);
    FinalizedLayout(dict, host);
    var p := PaddedDict(dict);
    var h := Finalized(dict, host).value;
    var pre := MAGIC + [1, 0, (|p| % 256) as byte, (|p| / 256) as byte];
    assert |pre| == 10 && h == pre + p;
    assert h[..6] == pre[..6] == MAGIC;
    assert h[10..] == p;
  }

  /** Header length as a function of dictionary length. */
  function AlignedLength(n: nat): nat
  {
    10 + n + PadLength(n)
  }

  /** The 16-alignment map is monotone. */
  lemma AlignedLengthMonotone(m: nat, n: nat)
    requires m <= n
    ensures AlignedLength(m) <= AlignedLength(n)
  {
    assert AlignedLength(m) == 16 * ((10 + m) / 16) + 16;
    assert AlignedLength(n) == 16 * ((10 + n) / 16) + 16;
    assert (10 + m) / 16 <= (10 + n) / 16;
  }

  /** A longer dictionary never gives a shorter header, and if the longer
      one fits the length field, so does the shorter. */
  lemma FinalizedMonotone(d1: seq<byte>, d2: seq<byte>, host: Endian)
    requires |d1| <= |d2|
    requires Finalized(d2, host).Ok?
    ensures Finalized(d1, host).Ok?
    ensures |Finalized(d1, host).value| <= |Finalized(d2, host).value|
    ensures |Finalized(d1, host).value| == AlignedLength(|d1|)
  {
    AlignedLengthMonotone(|d1|, |d2|);
  }

  /** The count enters the single-dtype dictionary only through its digits. */
  lemma SingleDictLength(c: nat, symbol: byte, dtype: char, size: nat, order: MemoryOrder)
    ensures |SingleDict([c], symbol, dtype, size, order)|
         == |SingleDict([0], symbol, dtype, size, order)| - 1 + Decimal.NumDigits(c)
  {
    SingleDictFlat([c], symbol, dtype, size, order);
    SingleDictFlat([0], symbol, dtype, size, order);
    Decimal.DigitsLength(c);
    Decimal.DigitsLength(0);
  }

  /** The count enters the structured dictionary only through its digits. */
  lemma StructuredDictLength(c: nat, labels: seq<seq<byte>>, symbol: byte, dtypes: seq<char>,
                             sizes: seq<nat>, order: MemoryOrder)
    requires |labels| == |dtypes| == |sizes|
    ensures |StructuredDict([c], labels, symbol, dtypes, sizes, order)|
         == |StructuredDict([0], labels, symbol, dtypes, sizes, order)| - 1 + Decimal.NumDigits(c)
  {
    StructuredDictFlat([c], labels, symbol, dtypes, sizes, order);
    StructuredDictFlat([0], labels, symbol, dtypes, sizes, order);
    Decimal.DigitsLength(c);
    Decimal.DigitsLength(0);
  }

  /** Rendered single-dtype header length is monotone in the number of
      digits of the count. */
  lemma RenderSingleMonotone(c1: nat, c2: nat, symbol: byte, dtype: char, size: nat, order: MemoryOrder,
                             host: Endian)
    requires Decimal.NumDigits(c1) <= Decimal.NumDigits(c2)
    requires RenderSingle([c2], symbol, dtype, size, order, host).Ok?
    ensures RenderSingle([c1], symbol, dtype, size, order, host).Ok?
    ensures |RenderSingle([c1], symbol, dtype, size, order, host).value|
         <= |RenderSingle([c2], symbol, dtype, size, order, host).value|
  {
    SingleDictLength(c1, symbol, dtype, size, order);
    SingleDictLength(c2, symbol, dtype, size, order);
    FinalizedMonotone(SingleDict([c1], symbol, dtype, size, order), SingleDict([c2], symbol, dtype, size, order), host);
  }

  /** Rendered structured header length is monotone in the number of digits
      of the count. */
  lemma RenderStructuredMonotone(c1: nat, c2: nat, labels: seq<seq<byte>>, symbol: byte, dtypes: seq<char>,
                                 sizes: seq<nat>, order: MemoryOrder, host: Endian)
    requires Decimal.NumDigits(c1) <= Decimal.NumDigits(c2)
    requires RenderStructured([c2], labels, symbol, dtypes, sizes, order, host).Ok?
    ensures RenderStructured([c1], labels, symbol, dtypes, sizes, order, host).Ok?
    ensures |RenderStructured([c1], labels, symbol, dtypes, sizes, order, host).value|
         <= |RenderStructured([c2], labels, symbol, dtypes, sizes, order, host).value|
  {
    StructuredDictLength(c1, labels, symbol, dtypes, sizes, order);
    StructuredDictLength(c2, labels, symbol, dtypes, sizes, order);
    FinalizedMonotone(StructuredDict([c1], labels, symbol, dtypes, sizes, order),
                      StructuredDict([c2], labels, symbol, dtypes, sizes, order), host);
  }

  /** The fixed text in front of the count in a single-dtype dictionary. */
  function SingleDictFront(symbol: byte, dtype: char, size: nat, order: MemoryOrder): seq<byte>
  {
    Str("{'descr': '") + TypeString(symbol, dtype, size) + Str("', 'fortran_order': ")
    + OrderText(order) + Str(", 'shape': (")
  }

  /** The count can be read back from a single-dtype dictionary: its digits
      follow the fixed front text and are followed by `,), }`. */
  lemma SingleDictCount(c: nat, symbol: byte, dtype: char, size: nat, order: MemoryOrder)
    ensures var d := SingleDict([c], symbol, dtype, size, order);
      var start := |SingleDictFront(symbol, dtype, size, order)|;
      && start + Decimal.NumDigits(c) + 5 == |d|
      && d[..start] == SingleDictFront(symbol, dtype, size, order)
      && (forall i :: start <= i < start + Decimal.NumDigits(c) ==> Decimal.IsDigit(d[i]))
      && Decimal.ValueOf(d[start..start + Decimal.NumDigits(c)]) == c
  {
    var front := SingleDictFront(symbol, dtype, size, order);
    var digits := Decimal.Digits(c);
    var d := SingleDict([c], symbol, dtype, size, order);
    SingleDictFlat([c], symbol, dtype, size, order);
    Decimal.DigitsLength(c);
    Decimal.ValueOfDigits(c);
    assert ShapeText([c]) == digits + Str(",");
    assert d == front + digits + (Str(",") + Str("), }"));
    ThreeSlices(front, digits, Str(",") + Str("), }"));
  }

  /** The pieces of a three-part concatenation can be sliced back out. */
  lemma ThreeSlices(x: seq<byte>, y: seq<byte>, z: seq<byte>)
    ensures (x + y + z)[..|x|] == x
    ensures (x + y + z)[|x|..|x| + |y|] == y
  {
  }

  /** Dtype strings of the common kinds. */
  lemma KnownTypeStrings()
    ensures TypeString(60, TypeMapper.MapType(TypeMapper.Int(4)), TypeMapper.SizeOf(TypeMapper.Int(4))) == Str("<i4")
    ensures TypeString(60, TypeMapper.MapType(TypeMapper.Float(8)), TypeMapper.SizeOf(TypeMapper.Float(8))) == Str("<f8")
    ensures TypeString(60, TypeMapper.MapType(TypeMapper.Complex(8)), TypeMapper.SizeOf(TypeMapper.Complex(8))) == Str("<c16")
    ensures TypeString(62, TypeMapper.MapType(TypeMapper.UInt(2)), TypeMapper.SizeOf(TypeMapper.UInt(2))) == Str(">u2")
  {
    OneDigitTypeString(60, TypeMapper.Int(4), "<i4");
    OneDigitTypeString(60, TypeMapper.Float(8), "<f8");
    OneDigitTypeString(62, TypeMapper.UInt(2), ">u2");
    assert Decimal.Digits(16) == [49, 54];
  }

  /** The dtype string of a kind whose width is a single digit. */
  lemma OneDigitTypeString(symbol: byte, k: TypeMapper.ScalarKind, text: string)
    requires TypeMapper.SizeOf(k) < 10 && |text| == 3
    requires CharByte(text[0]) == symbol && text[1] == TypeMapper.MapType(k)
    requires CharByte(text[2]) == 48 + TypeMapper.SizeOf(k) as byte
    ensures TypeString(symbol, TypeMapper.MapType(k), TypeMapper.SizeOf(k)) == Str(text)
  {
  }

  lemma StrConcat(a: string, b: string, ab: string)
    requires a + b == ab
    ensures Str(a) + Str(b) == Str(ab)
  {
    forall i | 0 <= i < |ab|
      ensures (Str(a) + Str(b))[i] == Str(ab)[i]
    {
      if i < |a| {
        assert (Str(a) + Str(b))[i] == Str(a)[i];
      } else {
        assert (Str(a) + Str(b))[i] == Str(b)[i - |a|];
      }
    }
  }

  /** The dictionary of a stream of 1000 four-byte floats. */
  lemma ExampleSingleDict()
    ensures SingleDict([1000], EndianSymbol(Little), 'f', 4, C)
         == Str("{'descr': '") + Str("<f4") + Str("', 'fortran_order': ") + Str("False")
            + Str(", 'shape': (") + Str("1000,") + Str("), }")
  {
    SingleDictFlat([1000], EndianSymbol(Little), 'f', 4, C);
    assert TypeString(60, 'f', 4) == Str("<f4") by {
      assert Decimal.Digits(4) == Str("4");
    }
    assert ShapeText([1000]) == Str("1000,") by {
      assert Decimal.Digits(1000) == Str("1000");
      StrConcat("1000", ",", "1000,");
    }
    assert OrderText(C) == Str("False");
  }

  lemma ExampleEntry(name: string, entry: string)
    requires "('" + name + "', '<i4')" == entry
    ensures Entry(Str(name), 60, 'i', 4) == Str(entry)
  {
    assert TypeString(60, 'i', 4) == Str("<i4") by {
      assert Decimal.Digits(4) == Str("4");
    }
    StrConcat("('", name, "('" + name);
    StrConcat("('" + name, "', '", "('" + name + "', '");
    StrConcat("('" + name + "', '", "<i4", "('" + name + "', '<i4");
    StrConcat("('" + name + "', '<i4", "')", entry);
  }

  lemma JoinThree(a: seq<byte>, b: seq<byte>, c: seq<byte>, sep: seq<byte>)
    ensures Join([a, b, c], sep) == a + sep + b + sep + c
  {
    assert Join([a, b], sep) == a + sep + b by { assert [a, b][..1] == [a]; }
    assert [a, b, c][..2] == [a, b];
  }

  /** The `descr` list of the three-column `x, y, z` stream of four-byte integers. */
  lemma ExampleEntries()
    ensures Join(Entries([Str("x"), Str("y"), Str("z")], 60, ['i', 'i', 'i'], [4, 4, 4]), Str(", "))
         == Str("('x', '<i4')") + Str(", ") + Str("('y', '<i4')") + Str(", ") + Str("('z', '<i4')")
  {
    var es := Entries([Str("x"), Str("y"), Str("z")], 60, ['i', 'i', 'i'], [4, 4, 4]);
    ExampleEntry("x", "('x', '<i4')");
    ExampleEntry("y", "('y', '<i4')");
    ExampleEntry("z", "('z', '<i4')");
    assert es == [Str("('x', '<i4')"), Str("('y', '<i4')"), Str("('z', '<i4')")];
    JoinThree(Str("('x', '<i4')"), Str("('y', '<i4')"), Str("('z', '<i4')"), Str(", "));
  }

  /** A structured dictionary of several columns, from its `descr` list and
      its shape text. */
  lemma StructuredDictPieces(shape: seq<nat>, labels: seq<seq<byte>>, symbol: byte, dtypes: seq<char>,
                             sizes: seq<nat>, order: MemoryOrder, list: seq<byte>, shapeText: seq<byte>)
    requires |labels| == |dtypes| == |sizes| && |dtypes| != 1
    requires Join(Entries(labels, symbol, dtypes, sizes), Str(", ")) == list
    requires ShapeText(shape) == shapeText
    ensures StructuredDict(shape, labels, symbol, dtypes, sizes, order)
         == Str("{'descr': [") + list + Str("], 'fortran_order': ") + OrderText(order)
            + Str(", 'shape': (") + shapeText + Str("), }")
  {
    StructuredDictFlat(shape, labels, symbol, dtypes, sizes, order);
    var empty: seq<byte> := if |dtypes| == 1 then Str(",") else [];
    assert empty == [];
    assert Str("{'descr': [") + list + empty == Str("{'descr': [") + list;
  }

  /** The dictionary of the three-column `x, y, z` stream of 1023 rows of
      four-byte integers. */
  lemma ExampleStructuredDict()
    ensures StructuredDict([1023], [Str("x"), Str("y"), Str("z")], EndianSymbol(Little), ['i', 'i', 'i'], [4, 4, 4], C)
         == Str("{'descr': [") + (Str("('x', '<i4')") + Str(", ") + Str("('y', '<i4')") + Str(", ") + Str("('z', '<i4')"))
            + Str("], 'fortran_order': ") + Str("False") + Str(", 'shape': (") + Str("1023,") + Str("), }")
  {
    ExampleEntries();
    assert ShapeText([1023]) == Str("1023,") by {
      assert Decimal.Digits(1023) == Str("1023");
      StrConcat("1023", ",", "1023,");
    }
    StructuredDictPieces([1023], [Str("x"), Str("y"), Str("z")], EndianSymbol(Little), ['i', 'i', 'i'], [4, 4, 4], C,
                         Str("('x', '<i4')") + Str(", ") + Str("('y', '<i4')") + Str(", ") + Str("('z', '<i4')"),
                         Str("1023,"));
    assert OrderText(C) == Str("False");
  }
}
