/**
 * `sjh5aReader.py`: the second SJH-5 reader, which sends the measurement request,
 * reads up to nine bytes and decodes only a reply of exactly eight bytes that
 * starts with the ACK byte.
 */
module Sjh5a {
  import opened Serial
  import opened SjhProtocol

  const AckSuccess: byte := 0x16
  /** `read_response` asks for nine bytes. */
  const ReadSize := 9
  /** The only reply length `check_measurement` decodes. */
  const ReplyLength := 8

  /** What `check_measurement` reports for a reply. */
  datatype Check =
    | Measured(hundredths: int, st1: byte, st2: byte)   // "Gas Concentration", "Sensor Status"
    | NakOrUnknown                                     // "Error: NAK received or unknown response"
    | BadLength                                        // "Error: Invalid response length"

  /**
   * The reply decoded: the concentration in hundredths from bytes 3 and 4 and the
   * two status bytes 5 and 6, for an eight-byte ACK only.
   */
  function CheckReply(response: seq<byte>): (c: Check)
    ensures c.BadLength? <==> |response| != ReplyLength
    ensures c.Measured? <==> |response| == ReplyLength && response[0] == AckSuccess
    ensures c.Measured? ==>
      c.hundredths == Word(response[3], response[4]) && c.st1 == response[5] && c.st2 == response[6]
  {
    if |response| != ReplyLength then BadLength
    else if response[0] != AckSuccess then NakOrUnknown
    else Measured(Word(response[3], response[4]), response[5], response[6])
  }

  /** A full nine-byte read is never decoded, although the port was asked for nine bytes. */
  lemma FullReadRejected(response: seq<byte>)
    requires |response| == ReadSize
    ensures CheckReply(response) == BadLength
  {
  }

  /**
   * `check_measurement`: build `[0x11, 0x01, 0x01]`, append its checksum, write the
   * frame, then judge the bytes read back.
   */
  method CheckMeasurement(ser: SerialLine, response: seq<byte>) returns (c: Check)
    requires |response| <= ReadSize
    modifies ser
    ensures ser.written == old(ser.written) + [[0x11, 0x01, 0x01, 0xED]]
    ensures c == CheckReply(response)
  {
    var command: seq<byte> := [IP, LengthByte, CmdCheckMeasurement];
    var checksum := Checksum(command);
    command := command + [checksum];
    MeasurementRequest();
    ser.Write(command);
    if |response| == ReplyLength {
      if response[0] == AckSuccess {
        var df1, df2 := response[3], response[4];
        var st1, st2 := response[5], response[6];
        c := Measured(Word(df1, df2), st1, st2);
      } else {
        c := NakOrUnknown;
      }
    } else {
      c := BadLength;
    }
  }
}
