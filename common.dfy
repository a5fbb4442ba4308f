/** Bytes, text literals and the error results shared by the model. */
module Common {

  /** One byte of a header or of the output file (`unsigned char`). */
  newtype byte = b: int | 0 <= b < 256

  /** The largest value of a 64-bit unsigned counter (`std::numeric_limits<uint64_t>::max()`). */
  const UINT64_MAX: nat := 0xFFFF_FFFF_FFFF_FFFF

  /** Narrowing of one `char` to an `unsigned char`, as `push_back` into a byte vector does. */
  function CharByte(c: char): byte
  {
    (c as int % 256) as byte
  }

  /** The bytes of a text literal (a `string_view` appended to a byte vector). */
  function Str(s: string): (r: seq<byte>)
    ensures |r| == |s|
  {
    seq(|s|, i requires 0 <= i < |s| => CharByte(s[i]))
  }

  /** `n` copies of the space character. */
  function Spaces(n: nat): (r: seq<byte>)
    ensures |r| == n
    ensures forall i :: 0 <= i < n ==> r[i] == 32
  {
    seq(n, _ => 32 as byte)
  }

  /** Byte strings one after another. */
  function Concat(vs: seq<seq<byte>>): seq<byte>
  {
    if vs == [] then [] else Concat(vs[..|vs| - 1]) + vs[|vs| - 1]
  }

  /** Seven pieces one after another, as a flat concatenation. */
  lemma ConcatSeven(a: seq<byte>, b: seq<byte>, c: seq<byte>, d: seq<byte>, e: seq<byte>, f: seq<byte>,
                    g: seq<byte>)
    ensures Concat([a, b, c, d, e, f, g]) == a + b + c + d + e + f + g
  {
    assert Concat([a]) == a by { assert [a][..0] == []; }
    assert Concat([a, b]) == a + b by { assert [a, b][..1] == [a]; }
    assert Concat([a, b, c]) == a + b + c by { assert [a, b, c][..2] == [a, b]; }
    assert Concat([a, b, c, d]) == a + b + c + d by { assert [a, b, c, d][..3] == [a, b, c]; }
    assert Concat([a, b, c, d, e]) == a + b + c + d + e by { assert [a, b, c, d, e][..4] == [a, b, c, d]; }
    assert Concat([a, b, c, d, e, f]) == a + b + c + d + e + f by {
      assert [a, b, c, d, e, f][..5] == [a, b, c, d, e];
    }
    assert [a, b, c, d, e, f, g][..6] == [a, b, c, d, e, f];
  }

  const NEWLINE: byte := 10
  const SPACE: byte := 32

  /** Errors the source reports by throwing `std::runtime_error`. */
  datatype NpyError =
    | ArgumentSizesMismatch   // create_npy_header: label, dtype and size vectors differ in length
    | DictionaryTooLarge      // finalize_header: padded dictionary longer than 0xffff bytes
    | LabelsMismatch          // NpyStream::init: label count does not fit the arity

  datatype Result<+T> = Ok(value: T) | Err(error: NpyError)
}
