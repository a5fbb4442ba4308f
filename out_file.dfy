/** The part of `std::ofstream` the stream uses: a file's bytes and a put
    position, `open` (which truncates), `seekp` and `write` (which
    overwrites from the put position and extends the file past its end). */
module FileStream {
  import opened Common

  /** The file after `data` is written at position `p`. */
  function Overwrite(content: seq<byte>, p: nat, data: seq<byte>): (r: seq<byte>)
    requires p <= |content|
    ensures |r| == if p + |data| > |content| then p + |data| else |content|
    ensures r[..p] == content[..p]
    ensures r[p..p + |data|] == data
    ensures p + |data| <= |content| ==> r[p + |data|..] == content[p + |data|..]
  {
    if p + |data| >= |content| then content[..p] + data
    else content[..p] + data + content[p + |data|..]
  }

  /** Writing at the end of the file appends. */
  lemma OverwriteAtEnd(content: seq<byte>, data: seq<byte>)
    ensures Overwrite(content, |content|, data) == content + data
  {
    assert content[..|content|] == content;
  }

  /** Writing at the start replaces a prefix and keeps every later byte. */
  lemma OverwritePrefix(content: seq<byte>, data: seq<byte>)
    requires |data| <= |content|
    ensures Overwrite(content, 0, data) == data + content[|data|..]
  {
    var r := Overwrite(content, 0, data);
    assert r == r[..|data|] + r[|data|..];
  }

  class OutFile {
    var content: seq<byte>
    var pos: nat

    ghost predicate Valid()
      reads this
    {
      pos <= |content|
    }

    /** A closed stream over an empty file. */
    constructor ()
      ensures Valid() && content == [] && pos == 0
    {
      content := [];
      pos := 0;
    }

    /** `open(path)` with the default mode: the file is truncated. */
    method Open()
      modifies this
      ensures Valid() && content == [] && pos == 0
    {
      content := [];
      pos := 0;
    }

    /** `seekp(p)`. */
    method SeekP(p: nat)
      requires Valid() && p <= |content|
      modifies this
      ensures Valid() && content == old(content) && pos == p
    {
      pos := p;
    }

    /** `write(data, n)`. */
    method Write(data: seq<byte>)
      requires Valid()
      modifies this
      ensures Valid()
      ensures content == Overwrite(old(content), old(pos), data)
      ensures pos == old(pos) + |data|
    {
      content := Overwrite(content, pos, data);
      pos := pos + |data|;
    }
  }
}
