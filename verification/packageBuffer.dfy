// The reassembly buffer (utils/network/package.hpp), instantiated as both ends
// use it: a 32-bit length prefix in network order that counts itself.

module PackageBuffer {
  import opened Bytes
  import opened Errors

  const PREFIX := 4

  function FirstLength(buffer: seq<Byte>): nat {
    if |buffer| < PREFIX then 0 else FromBigEndian(buffer[..PREFIX])
  }

  predicate Readable(buffer: seq<Byte>) {
    |buffer| >= PREFIX && FirstLength(buffer) <= |buffer|
  }

  /** What `read` does to a buffer: the frame or the error, and what stays behind. */
  function ReadFrom(buffer: seq<Byte>): (r: (Result<seq<Byte>>, seq<Byte>))
    ensures r.0.Ok? ==> |r.1| < |buffer|
    ensures r.0.Err? ==> r.1 == buffer
  {
    if !Readable(buffer) then (Err(IncompletePackage), buffer)
    else if FirstLength(buffer) == 0 then (Err(EmptyLength), buffer)
    else (Ok(buffer[..FirstLength(buffer)]), buffer[FirstLength(buffer)..])
  }

  class Package {
    var buffer: seq<Byte>

    constructor ()
      ensures buffer == []
    {
      buffer := [];
    }

    method Write(data: seq<Byte>)
      modifies this
      ensures buffer == old(buffer) + data
    {
      buffer := buffer + data;
    }

    method FirstMsgLength() returns (length: nat)
      ensures length == FirstLength(buffer)
    {
      if |buffer| < PREFIX {
        return 0;
      }
      var prefix := buffer[..PREFIX];
      var swapped := SwapEndianness(UINT32, FromLittleEndian(prefix));
      SwappedPrefix(prefix);
      length := swapped;
    }

    method CanRead() returns (readable: bool)
      ensures readable == Readable(buffer)
    {
      if |buffer| < PREFIX {
        return false;
      }
      var length := FirstMsgLength();
      readable := length <= |buffer|;
    }

    method Read() returns (r: Result<seq<Byte>>)
      modifies this
      ensures (r, buffer) == ReadFrom(old(buffer))
      ensures r.Ok? ==> r.value + buffer == old(buffer)
    {
      var readable := CanRead();
      if !readable {
        return Err(IncompletePackage);
      }
      var length := FirstMsgLength();
      if length == 0 {
        return Err(EmptyLength);
      }
      r := Ok(buffer[..length]);
      buffer := buffer[length..];
    }
  }
}
