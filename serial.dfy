/**
 * The serial ports the sensor readers talk through. A port records the data
 * written to it; the bytes read back are inputs of the methods that read them.
 */
module Serial {
  /** One byte on the wire, as Python's `bytes`/`bytearray` elements hold it. */
  type byte = b: int | 0 <= b < 256

  /** `''.join(chr(byte) for byte in data)`. */
  function Text(data: seq<byte>): (s: string)
    ensures |s| == |data| && forall k :: 0 <= k < |data| ==> s[k] == data[k] as char
  {
    seq(|data|, k requires 0 <= k < |data| => data[k] as char)
  }

  lemma TextConcat(x: seq<byte>, y: seq<byte>)
    ensures Text(x + y) == Text(x) + Text(y)
  {
  }

  /** The text of a non-empty run of bytes is its first character, then the rest. */
  lemma TextCons(data: seq<byte>)
    requires data != []
    ensures Text(data) == [data[0] as char] + Text(data[1..])
  {
  }

  class SerialLine {
    /** Every `ser.write(...)` so far, in order. */
    var written: seq<seq<byte>>

    constructor ()
      ensures written == []
    {
      written := [];
    }

    method Write(data: seq<byte>)
      modifies this
      ensures written == old(written) + [data]
    {
      written := written + [data];
    }
  }
}
