/** A growing byte buffer that is written at the end and read from the front. */
module Buffers {
  import opened Bytes

  class Buffer {
    var data: seq<byte>

    constructor (data: seq<byte>)
      ensures this.data == data
    {
      this.data := data;
    }

    method Write(s: seq<byte>)
      modifies this
      ensures data == old(data) + s
    {
      data := data + s;
    }

    method Reset()
      modifies this
      ensures data == []
    {
      data := [];
    }

    /** Reads up to n bytes. Only a read of at least one byte from an empty buffer reports the
        end of the data; a short read does not. */
    method Read(n: nat) returns (s: seq<byte>, eof: bool)
      modifies this
      ensures eof == (n > 0 && old(data) == [])
      ensures s == old(data)[..Min(n, |old(data)|)] && data == old(data)[Min(n, |old(data)|)..]
    {
      var k := Min(n, |data|);
      eof := n > 0 && data == [];
      s := data[..k];
      data := data[k..];
    }
  }
}
