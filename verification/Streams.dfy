/** A stream that is consumed from the front, and a sink that grows at the end. */
module Streams {
  import opened ByteStrings
  import opened Options

  class Reader {
    const bytes: Bytes
    var position: nat

    constructor (bytes: Bytes)
      ensures Valid() && this.bytes == bytes && position == 0 && Rest() == bytes
    {
      this.bytes, position := bytes, 0;
    }

    ghost predicate Valid()
      reads this
    {
      position <= |bytes|
    }

    ghost function Rest(): Bytes
      requires Valid()
      reads this
    {
      bytes[position..]
    }

    /** `read_exact`: all of the bytes, or none and the stream is at its end. */
    method ReadExact(count: nat) returns (r: Option<Bytes>)
      requires Valid()
      modifies this`position
      ensures Valid()
      ensures count <= |old(Rest())| ==> r == Some(old(Rest())[..count]) && Rest() == old(Rest())[count..]
      ensures count > |old(Rest())| ==> r == None && Rest() == []
    {
      if |bytes| - position < count {
        position := |bytes|;
        return None;
      }
      assert Rest()[..count] == bytes[position..position + count] && Rest()[count..] == bytes[position + count..];
      r := Some(bytes[position..position + count]);
      position := position + count;
    }
  }

  class Writer {
    var written: Bytes

    constructor ()
      ensures written == []
    {
      written := [];
    }

    method WriteAll(bytes: Bytes)
      modifies this
      ensures written == old(written) + bytes
    {
      written := written + bytes;
    }
  }
}
