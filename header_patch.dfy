/** Finalisation of a stream (`wrap_up` in `src/npystream.cpp` and the
    `NpyStream` destructor, which do the same): the header is rendered again
    with the true count, padded with spaces in front of its final newline to
    the length of the reserved header, its length bytes are patched, and it
    overwrites the start of the file. */
module HeaderPatch {
  import opened Common
  import Decimal
  import opened NpyFormat
  import opened NpyHeader
  import opened FileStream

  // ---------------------------------------------------------------------
  // What a header is

  /** A `.npy` version 1.0 header carrying `dict`: magic, version 1.0, the
      length of the rest low byte first, `dict`, spaces, and a final
      newline, 16-byte aligned. */
  predicate HeaderWith(h: seq<byte>, dict: seq<byte>)
  {
    && 10 + |dict| < |h|
    && h[..6] == MAGIC && h[6] == 1 && h[7] == 0
    && h[8] as int + 256 * h[9] as int == |h| - 10
    && |h| % 16 == 0
    && h[10..10 + |dict|] == dict
    && (forall i :: 10 + |dict| <= i < |h| - 1 ==> h[i] == SPACE)
    && h[|h| - 1] == NEWLINE
  }

  /** Every header `finalize_header` returns is a header carrying its
      dictionary. */
  lemma FinalizedIsHeader(dict: seq<byte>, host: Endian)
    requires Finalized(dict, host).Ok?
    ensures HeaderWith(Finalized(dict, host).value, dict)
  {
    PaddedDictShape(dict);
    FinalizedShape(dict, host);
    var h := Finalized(dict, host).value;
    var p := PaddedDict(dict);
    assert h[10..10 + |dict|] == p[..|dict|];
  }

  // ---------------------------------------------------------------------
  // The patch as the source writes it

  /** `updated_header.insert(prev(end()), header_end_pos - size(), ' ')`:
      spaces in front of the last byte up to length `end`. */
  function PadTo(rendered: seq<byte>, end: nat): (r: seq<byte>)
    requires 1 <= |rendered| <= end
    ensures |r| == end
    ensures r[..|rendered| - 1] == rendered[..|rendered| - 1]
    ensures forall i :: |rendered| - 1 <= i < end - 1 ==> r[i] == SPACE
    ensures r[end - 1] == rendered[|rendered| - 1]
  {
    rendered[..|rendered| - 1] + Spaces(end - |rendered|) + [rendered[|rendered| - 1]]
  }

  /** The patched header as written: the high byte of the length goes to
      index 7 and the low byte to index 8, both truncated to `uint8_t`. */
  function Patched(rendered: seq<byte>, end: nat): (h: seq<byte>)
    requires 10 <= |rendered| <= end
    ensures |h| == end
  {
    var h := PadTo(rendered, end);
    h[7 := ((end - 10) / 0x100 % 0x100) as byte][8 := ((end - 10) % 0x100) as byte]
  }

  /** The patch the format calls for: low byte to index 8, high byte to 9. */
  function PatchedCorrected(rendered: seq<byte>, end: nat): (h: seq<byte>)
    requires 10 <= |rendered| <= end
    ensures |h| == end
  {
    var h := PadTo(rendered, end);
    h[8 := ((end - 10) % 0x100) as byte][9 := ((end - 10) / 0x100 % 0x100) as byte]
  }

  /** The patch fills the reserved slot exactly, keeps the magic, the
      dictionary and the final newline, and touches no byte but 7 and 8
      outside the inserted spaces. */
  lemma PatchedShape(rendered: seq<byte>, end: nat)
    requires 10 <= |rendered| <= end
    ensures var h := Patched(rendered, end);
      && |h| == end
      && h[..7] == rendered[..7]
      && h[7] as int == (end - 10) / 256 % 256
      && h[8] as int == (end - 10) % 256
      && h[9..|rendered| - 1] == rendered[9..|rendered| - 1]
      && (forall i :: |rendered| - 1 <= i < end - 1 ==> h[i] == SPACE)
      && h[end - 1] == rendered[|rendered| - 1]
  {
    var p := PadTo(rendered, end);
    var h := Patched(rendered, end);
    assert h[..7] == p[..7];
    assert h[9..|rendered| - 1] == p[9..|rendered| - 1];
  }

  /** Padding a header carrying `dict` to a longer 16-byte aligned length
      keeps everything but the length field right. */
  lemma PadToHeader(rendered: seq<byte>, dict: seq<byte>, end: nat)
    requires HeaderWith(rendered, dict)
    requires |rendered| <= end && end % 16 == 0
    ensures var h := PadTo(rendered, end);
      && 10 + |dict| < |h|
      && h[..6] == MAGIC && h[6] == 1 && h[7] == 0
      && h[8] == rendered[8] && h[9] == rendered[9]
      && h[10..10 + |dict|] == dict
      && (forall i :: 10 + |dict| <= i < |h| - 1 ==> h[i] == SPACE)
      && h[|h| - 1] == NEWLINE
  {
    var h := PadTo(rendered, end);
    var k := |rendered| - 1;
    assert h[..k][..6] == rendered[..k][..6];
    assert h[..k][10..10 + |dict|] == rendered[..k][10..10 + |dict|];
  }

  /** When the reserved slot is under 256 bytes past the preamble the patch
      as written still yields a header carrying the new dictionary: byte 7
      receives a zero high byte and byte 9 already holds zero. */
  lemma PatchedIsHeader(rendered: seq<byte>, dict: seq<byte>, end: nat)
    requires HeaderWith(rendered, dict)
    requires |rendered| <= end && end % 16 == 0
    requires end - 10 < 256
    ensures HeaderWith(Patched(rendered, end), dict)
  {
    PadToHeader(rendered, dict, end);
    var p := PadTo(rendered, end);
    var h := Patched(rendered, end);
    assert h[..6] == p[..6];
    assert h[10..10 + |dict|] == p[10..10 + |dict|];
  }

  /** Once the slot reaches 256 bytes past the preamble the patch as written
      overwrites the minor version with the high length byte, so the result
      is not a version 1.0 header whatever the dictionary. */
  lemma PatchedBreaksVersion(rendered: seq<byte>, dict: seq<byte>, end: nat)
    requires 10 <= |rendered| <= end
    requires 256 <= end - 10 <= 0xffff
    ensures Patched(rendered, end)[7] != 0
    ensures !HeaderWith(Patched(rendered, end), dict)
  {
    var h := Patched(rendered, end);
    assert h[7] as int == (end - 10) / 256;
  }

  /** The corrected patch yields a header carrying the new dictionary for
      every slot the 16-bit length field can describe. */
  lemma PatchedCorrectedIsHeader(rendered: seq<byte>, dict: seq<byte>, end: nat)
    requires HeaderWith(rendered, dict)
    requires |rendered| <= end && end % 16 == 0
    requires end - 10 <= 0xffff
    ensures HeaderWith(PatchedCorrected(rendered, end), dict)
  {
    PadToHeader(rendered, dict, end);
    var p := PadTo(rendered, end);
    var h := PatchedCorrected(rendered, end);
    assert h[..6] == p[..6];
    assert h[10..10 + |dict|] == p[10..10 + |dict|];
  }

  // ---------------------------------------------------------------------
  // The finalising operation

  /** The header `wrap_up` renders for `count`: the single-dtype form when
      the stream has no labels, the structured form in C order otherwise. */
  function FreshHeader(count: nat, labels: seq<seq<byte>>, dtypes: seq<char>, sizes: seq<nat>, host: Endian)
    : (r: Result<seq<byte>>)
    requires |dtypes| >= 1 && |sizes| >= 1
    ensures r.Ok? ==> 10 < |r.value| && |r.value| % 16 == 0
  {
    if |labels| == 0 then RenderSingle([count], EndianSymbol(host), dtypes[0], sizes[0], C, host)
    else RenderStructured([count], labels, EndianSymbol(host), dtypes, sizes, C, host)
  }

  /** The dictionary inside `FreshHeader`. */
  function FreshDict(count: nat, labels: seq<seq<byte>>, dtypes: seq<char>, sizes: seq<nat>, host: Endian)
    : seq<byte>
    requires |dtypes| >= 1 && |sizes| >= 1
    requires |labels| > 0 ==> |labels| == |dtypes| == |sizes|
  {
    if |labels| == 0 then SingleDict([count], EndianSymbol(host), dtypes[0], sizes[0], C)
    else StructuredDict([count], labels, EndianSymbol(host), dtypes, sizes, C)
  }

  /** A rendered header carries the dictionary of its count. */
  lemma FreshHeaderCarries(count: nat, labels: seq<seq<byte>>, dtypes: seq<char>, sizes: seq<nat>, host: Endian)
    requires |dtypes| >= 1 && |sizes| >= 1
    requires |labels| > 0 ==> |labels| == |dtypes| == |sizes|
    requires FreshHeader(count, labels, dtypes, sizes, host).Ok?
    ensures HeaderWith(FreshHeader(count, labels, dtypes, sizes, host).value, FreshDict(count, labels, dtypes, sizes, host))
  {
    FinalizedIsHeader(FreshDict(count, labels, dtypes, sizes, host), host);
  }

  /** The first step of `wrap_up`: the header for the count, in the form
      the labels call for. */
  method RenderFresh(count: nat, labels: seq<seq<byte>>, dtypes: seq<char>, sizes: seq<nat>, host: Endian)
    returns (r: Result<seq<byte>>)
    requires |dtypes| >= 1 && |sizes| >= 1
    ensures r == FreshHeader(count, labels, dtypes, sizes, host)
  {
    if |labels| == 0 {
      r := CreateSingleHeader([count], dtypes[0], sizes[0], C, host);
    } else {
      r := CreateStructuredHeader([count], labels, dtypes, sizes, C, host);
    }
  }

  /** `seekp(0)` and `write`: a header of the slot's length replaces the
      slot at the start of the file and the data after it is kept. */
  method WriteOverSlot(file: OutFile, h: seq<byte>, ghost slot: seq<byte>, ghost data: seq<byte>)
    requires file.Valid() && file.content == slot + data && |h| == |slot|
    modifies file
    ensures file.Valid() && file.content == h + data && file.pos == |h|
  {
    file.SeekP(0);
    file.Write(h);
    OverwritePrefix(slot + data, h);
    assert (slot + data)[|h|..] == data;
  }

  /** The in-place part of `wrap_up`: the spaces are inserted in front of
      the last byte, then bytes 7 and 8 are assigned. */
  method PatchHeader(rendered: seq<byte>, end: nat) returns (h: seq<byte>)
    requires 10 <= |rendered| <= end
    ensures h == Patched(rendered, end)
  {
    var missing := end - |rendered|;
    h := rendered[..|rendered| - 1] + Spaces(missing) + [rendered[|rendered| - 1]];
    h := h[7 := ((|h| - 10) / 0x100 % 0x100) as byte];
    h := h[8 := ((|h| - 10) % 0x100) as byte];
  }

  /** The patch with the length bytes where the format puts them: the
      spaces are inserted, then bytes 8 and 9 receive the low and the high
      byte of the new length. */
  method PatchHeaderCorrected(rendered: seq<byte>, end: nat) returns (h: seq<byte>)
    requires 10 <= |rendered| <= end
    ensures h == PatchedCorrected(rendered, end)
  {
    var missing := end - |rendered|;
    h := rendered[..|rendered| - 1] + Spaces(missing) + [rendered[|rendered| - 1]];
    h := h[8 := ((|h| - 10) % 0x100) as byte];
    h := h[9 := ((|h| - 10) / 0x100 % 0x100) as byte];
  }

  /** `wrap_up`: render the header for `valuesWritten`, pad it to
      `headerEndPos` bytes, patch bytes 7 and 8, seek to the start and write
      it. A failure to render propagates before the file is touched. The
      source's unsigned subtraction `header_end_pos - size()` is only
      meaningful when the new header is no longer than the reserved one;
      the stream's destructor establishes that. */
  method WrapUp(file: OutFile, valuesWritten: nat, headerEndPos: nat, labels: seq<seq<byte>>,
                dtypes: seq<char>, sizes: seq<nat>, host: Endian)
    returns (r: Result<()>)
    requires file.Valid()
    requires |dtypes| >= 1 && |sizes| >= 1
    requires FreshHeader(valuesWritten, labels, dtypes, sizes, host).Ok? ==>
      |FreshHeader(valuesWritten, labels, dtypes, sizes, host).value| <= headerEndPos <= |file.content|
    modifies file
    ensures r.Ok? <==> FreshHeader(valuesWritten, labels, dtypes, sizes, host).Ok?
    ensures r.Err? ==> r.error == FreshHeader(valuesWritten, labels, dtypes, sizes, host).error
    ensures r.Err? ==> file.content == old(file.content) && file.pos == old(file.pos)
    ensures r.Ok? ==>
      && file.Valid()
      && file.content == Patched(FreshHeader(valuesWritten, labels, dtypes, sizes, host).value, headerEndPos)
                         + old(file.content)[headerEndPos..]
      && file.pos == headerEndPos
  {
    var updated := RenderFresh(valuesWritten, labels, dtypes, sizes, host);
    if updated.Err? {
      return Err(updated.error);
    }
    var h := PatchHeader(updated.value, headerEndPos);
    file.SeekP(0);
    file.Write(h);
    OverwritePrefix(old(file.content), h);
    return Ok(());
  }
}
