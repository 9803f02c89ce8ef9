/** A random-access reader over one stream of the compound file: the bytes of
    the stream and a cursor. Seeking anywhere is allowed; a read that would go
    past the end of the stream fails. */
module Streams {
  import opened Common

  class StreamReader {
    const data: seq<byte>
    var pos: nat

    constructor (data: seq<byte>)
      ensures this.data == data && pos == 0
    {
      this.data := data;
      pos := 0;
    }

    /** `seek(offset)` from the start of the stream. */
    method Seek(offset: nat)
      modifies this
      ensures pos == offset
    {
      pos := offset;
    }

    /** `seek(n, SEEK_CUR)`. */
    method Skip(n: nat)
      modifies this
      ensures pos == old(pos) + n
    {
      pos := pos + n;
    }

    method ReadU8() returns (r: Option<byte>)
      modifies this
      ensures r.Some? <==> old(pos) < |data|
      ensures r.Some? ==> r.value == data[old(pos)] && pos == old(pos) + 1
    {
      if pos < |data| {
        r := Some(data[pos]);
        pos := pos + 1;
      } else {
        r := None;
      }
    }

    method ReadU16() returns (r: Option<u16>)
      modifies this
      ensures r == U16At(data, old(pos))
      ensures r.Some? ==> pos == old(pos) + 2
    {
      r := U16At(data, pos);
      if r.Some? {
        pos := pos + 2;
      }
    }

    method ReadS16() returns (r: Option<int>)
      modifies this
      ensures r == S16At(data, old(pos))
      ensures r.Some? ==> pos == old(pos) + 2
    {
      r := S16At(data, pos);
      if r.Some? {
        pos := pos + 2;
      }
    }

    method ReadU32() returns (r: Option<u32>)
      modifies this
      ensures r == U32At(data, old(pos))
      ensures r.Some? ==> pos == old(pos) + 4
    {
      r := U32At(data, pos);
      if r.Some? {
        pos := pos + 4;
      }
    }
  }
}
