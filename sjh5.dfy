/**
 * `sjh5Reader.py`: the SJH-5 reader's command exchange (`send_command`) and the
 * decoders of its four replies: gas concentration with status flags, instrument
 * number, software version and measurement properties.
 */
module Sjh5 {
  import opened Wrappers
  import opened PyText
  import opened Records
  import opened Serial
  import opened SjhProtocol

  const AckSuccess: byte := 0x16
  const AckError: byte := 0x06
  const CmdSwVersion: byte := 0x1E
  const CmdInstrumentNumber: byte := 0x1F
  const CmdMeasurementProperty: byte := 0x0D
  /** `ser.read(20)` reads at most this many bytes. */
  const ReadSize := 20
  const SensorName := "SJH5"

  // ---------------------------------------------------------------------------
  // send_command

  /** `(validity, response)` as `send_command` returns it. */
  datatype Answer = Answer(valid: bool, response: seq<byte>)

  /**
   * What `send_command` makes of the bytes read back. An empty read, or a NAK too
   * short to hold its error code at byte 3, raises an IndexError there that its own
   * handler swallows, so it returns nothing (`None`).
   */
  function Classify(response: seq<byte>): (r: Option<Answer>)
    ensures r.Some? ==> r.value.response == response
    ensures r.Some? && r.value.valid <==> |response| > 0 && response[0] == AckSuccess
    ensures r.None? <==> response == [] || (response[0] == AckError && |response| < 4)
  {
    if response == [] then None
    else if response[0] == AckSuccess then Some(Answer(true, response))
    else if response[0] == AckError then
      if |response| < 4 then None else Some(Answer(false, response))
    else Some(Answer(false, response))
  }

  /** `send_command(cmd, ser)` with `response` the bytes `ser.read(20)` returns. */
  method SendCommand(ser: SerialLine, cmd: byte, response: seq<byte>) returns (r: Option<Answer>)
    requires |response| <= ReadSize
    modifies ser
    ensures ser.written == old(ser.written) + [RequestFrame(cmd)]
    ensures r == Classify(response)
  {
    var commandData: seq<byte> := [IP, LengthByte, cmd];
    var checksum := Checksum(commandData);
    ser.Write(commandData + [checksum]);
    if response == [] {
      return None;
    }
    var ack := response[0];
    if ack == AckSuccess {
      r := Some(Answer(true, response));
    } else if ack == AckError {
      if |response| < 4 {
        return None;
      }
      r := Some(Answer(false, response));
    } else {
      r := Some(Answer(false, response));
    }
  }

  /**
   * How a `read_*` function ends: an exception escapes it (unpacking the `None` of
   * `send_command`, or indexing past the reply), the reply is not an ACK, or the
   * value it decodes and prints or publishes.
   */
  datatype Outcome<T> = Raised | Rejected | Decoded(value: T)

  /** The reply shapes every reader shares: what happens unless the ACK is long enough. */
  predicate ShortAck(response: seq<byte>, need: nat) {
    response != [] && response[0] == AckSuccess && |response| < need
  }

  // ---------------------------------------------------------------------------
  // Status flags

  /** The masks of the seven status flags `read_gas_concentration` reports, in order. */
  const StatusMasks: seq<byte> := [0x01, 0x02, 0x04, 0x10, 0x20, 0x40, 0x80]

  /** `a & b` on non-negative integers, bit by bit from the least significant. */
  function And(a: nat, b: nat): nat
    decreases a
  {
    if a == 0 || b == 0 then 0
    else 2 * And(a / 2, b / 2) + if a % 2 == 1 && b % 2 == 1 then 1 else 0
  }

  /** `status1 & mask`. */
  function Flag(status: nat, mask: nat): nat {
    And(status, mask)
  }

  /** The seven reported flags of a status byte. */
  function Flags(status: nat): (fs: seq<nat>)
    ensures |fs| == 7
  {
    seq(7, i requires 0 <= i < 7 => Flag(status, StatusMasks[i]))
  }

  function Pow2(k: nat): (p: nat)
    ensures p >= 1
  {
    if k == 0 then 1 else 2 * Pow2(k - 1)
  }

  /** Bit `k` of `b`, counted from the least significant: the arithmetic reading of a mask. */
  predicate BitSet(b: nat, k: nat) {
    if k == 0 then b % 2 == 1 else BitSet(b / 2, k - 1)
  }

  /** The bit positions of the seven masks: bit 3 (0x08) is not among them. */
  const StatusBits: seq<nat> := [0, 1, 2, 4, 5, 6, 7]

  /** Masking with a one-bit mask keeps the mask exactly when its bit is set. */
  lemma {:induction false} MaskBit(a: nat, k: nat)
    ensures And(a, Pow2(k)) == if BitSet(a, k) then Pow2(k) else 0
  {
    if k > 0 {
      MaskBit(a / 2, k - 1);
      if a == 0 {
        assert a / 2 == 0;
      }
    }
  }

  /** Setting a clear bit `j` leaves every other bit as it was. */
  lemma {:induction false} SetBitKeepsOthers(s: nat, j: nat, k: nat)
    requires !BitSet(s, j)
    ensures BitSet(s + Pow2(j), j)
    ensures k != j ==> BitSet(s + Pow2(j), k) == BitSet(s, k)
  {
    if j == 0 {
      if k > 0 { assert (s + 1) / 2 == s / 2; }
    } else {
      assert (s + Pow2(j)) / 2 == s / 2 + Pow2(j - 1);
      if k > 0 {
        SetBitKeepsOthers(s / 2, j - 1, k - 1);
      } else {
        SetBitKeepsOthers(s / 2, j - 1, 0);
      }
    }
  }

  /**
   * Each reported flag is either 0 or its mask, and it is the mask exactly when the
   * mask's bit is set; bit 3 (0x08) is reported by no flag.
   */
  lemma FlagsAreBits(status: nat)
    ensures forall i :: 0 <= i < 7 ==> StatusMasks[i] == Pow2(StatusBits[i])
    ensures forall i :: 0 <= i < 7 ==>
      Flags(status)[i] == if BitSet(status, StatusBits[i]) then StatusMasks[i] else 0
    ensures 3 !in StatusBits
  {
    assert Pow2(0) == 1 && Pow2(1) == 2 && Pow2(2) == 4 && Pow2(3) == 8;
    assert Pow2(4) == 16 && Pow2(5) == 32 && Pow2(6) == 64 && Pow2(7) == 128;
    forall i | 0 <= i < 7
      ensures Flags(status)[i] == if BitSet(status, StatusBits[i]) then StatusMasks[i] else 0
    {
      MaskBit(status, StatusBits[i]);
    }
  }

  /** Setting bit 3 (0x08) of the status byte changes no reported flag. */
  lemma Bit3Unreported(status: nat)
    requires !BitSet(status, 3)
    ensures Flags(status + 8) == Flags(status)
  {
    FlagsAreBits(status);
    FlagsAreBits(status + 8);
    assert Pow2(3) == 8 by { assert Pow2(0) == 1 && Pow2(1) == 2 && Pow2(2) == 4; }
    forall i | 0 <= i < 7 ensures Flags(status + 8)[i] == Flags(status)[i] {
      SetBitKeepsOthers(status, 3, StatusBits[i]);
    }
  }

  /**
   * `decode_status`: for each flag in order, whether its alarm text ("Warming up",
   * "Malfunction", ...) is chosen rather than its normal text.
   */
  function StatusAlarms(status: byte): (alarms: seq<bool>)
    ensures |alarms| == 7
    ensures forall i :: 0 <= i < 7 ==> (alarms[i] <==> BitSet(status, StatusBits[i]))
  {
    FlagsAreBits(status);
    seq(7, i requires 0 <= i < 7 => Flags(status)[i] != 0)
  }

  // ---------------------------------------------------------------------------
  // read_gas_concentration

  const FlagKeys: seq<string> := [
    "warmUpStatus", "malFunctionStatus", "rangeStatus", "calibrationStatus",
    "highHumidityStatus", "RCDOverLimitStatus", "MCDOverLimitStatus"]

  /**
   * The dictionary published for an ACK: the host time, the methane concentration
   * `(df1 * 256 + df2) / 100.0` from bytes 3 and 4, and the seven flags of byte 5.
   */
  function ConcentrationFields(response: seq<byte>): (d: Fields)
    requires |response| >= 6
    ensures |d| == 9 && d[0] == ("dateTime", HostClock)
    ensures d[1] == ("methane", Ratio(Word(response[3], response[4]), 100))
    ensures forall i :: 0 <= i < 7 ==> d[2 + i] == (FlagKeys[i], Int(Flags(response[5])[i]))
  {
    var flags := Flags(response[5]);
    [("dateTime", HostClock), ("methane", Ratio(Word(response[3], response[4]), 100))]
      + seq(7, i requires 0 <= i < 7 => (FlagKeys[i], Int(flags[i])))
  }

  /**
   * `read_gas_concentration`: decoded exactly for an ACK of at least six bytes;
   * a shorter ACK raises when bytes 3 to 5 are read.
   */
  function GasConcentration(response: seq<byte>): (o: Outcome<Fields>)
    ensures o.Decoded? <==> |response| >= 6 && response[0] == AckSuccess
    ensures o.Decoded? ==> o.value == ConcentrationFields(response)
    ensures o.Rejected? <==> Classify(response).Some? && response[0] != AckSuccess
    ensures o.Raised? <==> Classify(response).None? || ShortAck(response, 6)
  {
    match Classify(response)
    case None => Raised
    case Some(a) =>
      if !a.valid then Rejected
      else if |response| < 6 then Raised
      else Decoded(ConcentrationFields(response))
  }

  method ReadGasConcentration(ser: SerialLine, pub: Publisher, response: seq<byte>) returns (o: Outcome<Fields>)
    requires |response| <= ReadSize
    modifies ser, pub
    ensures ser.written == old(ser.written) + [RequestFrame(CmdCheckMeasurement)]
    ensures o == GasConcentration(response)
    ensures pub.log == old(pub.log) + if o.Decoded? then [Publication(SensorName, o.value)] else []
  {
    var answer := SendCommand(ser, CmdCheckMeasurement, response);
    if answer.None? {
      return Raised;
    }
    var validity, reply := answer.value.valid, answer.value.response;
    if !validity {
      return Rejected;
    }
    if |reply| < 6 {
      return Raised;
    }
    var d := ConcentrationFields(reply);
    pub.Finish(SensorName, d);
    o := Decoded(d);
  }

  /** The publications of a run of the monitoring loop, one request per reply. */
  function Published(replies: seq<seq<byte>>): seq<Publication> {
    if replies == [] then []
    else
      var o := GasConcentration(replies[|replies| - 1]);
      Published(replies[..|replies| - 1]) + if o.Decoded? then [Publication(SensorName, o.value)] else []
  }

  /**
   * The `while True` loop of `main`: one concentration request per reply. Its
   * exception handler catches what a read raises, so the loop runs on.
   */
  method MonitorLoop(ser: SerialLine, pub: Publisher, replies: seq<seq<byte>>)
    requires forall k :: 0 <= k < |replies| ==> |replies[k]| <= ReadSize
    modifies ser, pub
    ensures ser.written == old(ser.written) + seq(|replies|, _ => RequestFrame(CmdCheckMeasurement))
    ensures pub.log == old(pub.log) + Published(replies)
  {
    var k := 0;
    while k < |replies|
      invariant k <= |replies|
      invariant ser.written == old(ser.written) + seq(k, _ => RequestFrame(CmdCheckMeasurement))
      invariant pub.log == old(pub.log) + Published(replies[..k])
    {
      var _ := ReadGasConcentration(ser, pub, replies[k]);
      assert replies[..k + 1][..k] == replies[..k];
      assert seq(k + 1, _ => RequestFrame(CmdCheckMeasurement))
        == seq(k, _ => RequestFrame(CmdCheckMeasurement)) + [RequestFrame(CmdCheckMeasurement)];
      k := k + 1;
    }
    assert replies[..k] == replies;
  }

  /** Only acknowledged replies of six or more bytes are published. */
  lemma {:induction false} PublishedOnlyAcks(replies: seq<seq<byte>>)
    ensures |Published(replies)| <= |replies|
    ensures |Published(replies)| == |replies| <==>
      forall k :: 0 <= k < |replies| ==> |replies[k]| >= 6 && replies[k][0] == AckSuccess
  {
    if replies != [] {
      var init := replies[..|replies| - 1];
      PublishedOnlyAcks(init);
      assert forall k :: 0 <= k < |init| ==> init[k] == replies[k];
    }
  }

  // ---------------------------------------------------------------------------
  // read_instrument_number

  /** `"".join(f"{sn:04}" for sn in parts)`. */
  function PaddedJoin(parts: seq<byte>): (s: string)
    ensures |s| == 4 * |parts|
  {
    if parts == [] then []
    else
      Pad4Byte(parts[0]);
      Pad4(parts[0]) + PaddedJoin(parts[1..])
  }

  /** Group `k` of four characters of the joined text is the rendering of part `k`. */
  lemma {:induction false} PaddedJoinGroup(parts: seq<byte>, k: nat)
    requires k < |parts|
    ensures PaddedJoin(parts)[4 * k..4 * k + 4] == Pad4(parts[k])
  {
    Pad4Byte(parts[0]);
    var head, rest := Pad4(parts[0]), PaddedJoin(parts[1..]);
    assert PaddedJoin(parts) == head + rest;
    if k > 0 {
      var j := 4 * (k - 1);
      PaddedJoinGroup(parts[1..], k - 1);
      SliceAfter(head, rest, j, j + 4);
    }
  }

  lemma SliceAfter(a: string, b: string, i: nat, j: nat)
    requires i <= j <= |b|
    ensures (a + b)[|a| + i..|a| + j] == b[i..j]
  {
  }

  lemma Pad4Byte(b: byte)
    ensures |Pad4(b)| == 4
  {
    Pad4Value(b);
  }

  /** `read_instrument_number`: bytes 3 to 7 of an ACK of at least eight bytes, rendered in turn. */
  function InstrumentNumber(response: seq<byte>): (o: Outcome<string>)
    ensures o.Decoded? <==> |response| >= 8 && response[0] == AckSuccess
    ensures o.Decoded? ==> |o.value| == 20
    ensures o.Rejected? <==> Classify(response).Some? && response[0] != AckSuccess
  {
    match Classify(response)
    case None => Raised
    case Some(a) =>
      if !a.valid then Rejected
      else if |response| < 8 then Raised
      else Decoded(PaddedJoin(response[3..8]))
  }

  /** The instrument number reads back as its five bytes, four decimal digits each. */
  lemma InstrumentNumberDigits(response: seq<byte>)
    requires InstrumentNumber(response).Decoded?
    ensures forall k :: 0 <= k < 5 ==>
      var group := InstrumentNumber(response).value[4 * k..4 * k + 4];
      (forall j :: 0 <= j < 4 ==> IsDecimalDigit(group[j])) && DigitsValue(group, 10) == response[3 + k]
  {
    forall k | 0 <= k < 5
      ensures var group := InstrumentNumber(response).value[4 * k..4 * k + 4];
        (forall j :: 0 <= j < 4 ==> IsDecimalDigit(group[j])) && DigitsValue(group, 10) == response[3 + k]
    {
      PaddedJoinGroup(response[3..8], k);
      Pad4Value(response[3 + k]);
    }
  }

  method ReadInstrumentNumber(ser: SerialLine, response: seq<byte>) returns (o: Outcome<string>)
    requires |response| <= ReadSize
    modifies ser
    ensures ser.written == old(ser.written) + [RequestFrame(CmdInstrumentNumber)]
    ensures o == InstrumentNumber(response)
  {
    var answer := SendCommand(ser, CmdInstrumentNumber, response);
    if answer.None? {
      return Raised;
    }
    var validity, reply := answer.value.valid, answer.value.response;
    if !validity {
      return Rejected;
    }
    if |reply| < 8 {
      return Raised;
    }
    o := Decoded(PaddedJoin(reply[3..8]));
  }

  // ---------------------------------------------------------------------------
  // read_software_number

  /**
   * `read_software_number`: the bytes `response[3:3 + response[1] - 1]`, clamped to
   * the reply as Python slices are, as characters. A length byte of 0 gives the
   * empty slice `[3:2]`; an ACK without a length byte raises.
   */
  function SoftwareVersion(response: seq<byte>): (o: Outcome<string>)
    ensures o.Decoded? <==> |response| >= 2 && response[0] == AckSuccess
    ensures o.Rejected? <==> Classify(response).Some? && response[0] != AckSuccess
    ensures o.Raised? <==> Classify(response).None? || ShortAck(response, 2)
    ensures o.Decoded? ==>
      var hi := if 2 + response[1] as int < |response| then 2 + response[1] as int else |response|;
      |o.value| == if hi > 3 then hi - 3 else 0
    ensures o.Decoded? ==> forall k :: 0 <= k < |o.value| ==> 3 + k < |response| && o.value[k] == response[3 + k] as char
    ensures o.Decoded? ==> |o.value| <= if response[1] == 0 then 0 else response[1] as int - 1
    ensures o.Decoded? && response[1] >= 1 && |response| >= 2 + response[1] as int ==> |o.value| == response[1] as int - 1
  {
    match Classify(response)
    case None => Raised
    case Some(a) =>
      if !a.valid then Rejected
      else if |response| < 2 then Raised
      else Decoded(Text(Slice(response, 3, 2 + response[1] as int)))
  }

  method ReadSoftwareNumber(ser: SerialLine, response: seq<byte>) returns (o: Outcome<string>)
    requires |response| <= ReadSize
    modifies ser
    ensures ser.written == old(ser.written) + [RequestFrame(CmdSwVersion)]
    ensures o == SoftwareVersion(response)
  {
    var answer := SendCommand(ser, CmdSwVersion, response);
    if answer.None? {
      return Raised;
    }
    var validity, reply := answer.value.valid, answer.value.response;
    if !validity {
      return Rejected;
    }
    if |reply| < 2 {
      return Raised;
    }
    var versionLength := reply[1] as int - 1;
    var versionData := Slice(reply, 3, 3 + versionLength);
    o := Decoded(Text(versionData));
  }

  // ---------------------------------------------------------------------------
  // read_measurment_properties

  const GasTypes: map<int, string> := map[0 := "CH4/C3H8/CBrH3", 1 := "CO2", 2 := "Reserved", 3 := "Reserved"]
  const Units: map<int, string> := map[0 := "ppm", 1 := "%", 2 := "%", 3 := "%"]
  const Unknown := "Unknown"

  /** `gas_types.get(code, "Unknown")`. */
  function GasType(code: int): (name: string)
    ensures name == Unknown <==> !(0 <= code <= 3)
    ensures code == 0 ==> name == "CH4/C3H8/CBrH3"
    ensures code == 1 ==> name == "CO2"
    ensures name == "Reserved" <==> code == 2 || code == 3
  {
    if code in GasTypes then GasTypes[code] else Unknown
  }

  /** `units.get(code, "Unknown")`. */
  function Unit(code: int): (name: string)
    ensures name == Unknown <==> !(0 <= code <= 3)
    ensures name == "ppm" <==> code == 0
    ensures name == "%" <==> 1 <= code <= 3
  {
    if code in Units then Units[code] else Unknown
  }

  /**
   * The measurement range `(df0 * 256 + df1) / 10 ** df2` (kept as that ratio), the
   * gas type and the unit.
   */
  datatype Properties = Properties(range: Value, gasType: string, unit: string)

  /**
   * `read_measurment_properties`: `df_values = response[3:10]`, of which the first
   * five are read, so an ACK shorter than eight bytes raises.
   */
  function MeasurementProperties(response: seq<byte>): (o: Outcome<Properties>)
    ensures o.Decoded? <==> |response| >= 8 && response[0] == AckSuccess
    ensures o.Rejected? <==> Classify(response).Some? && response[0] != AckSuccess
    ensures o.Raised? <==> Classify(response).None? || ShortAck(response, 8)
    ensures o.Decoded? ==> o.value == Properties(
      Ratio(Word(response[3], response[4]), Pow10(response[5])), GasType(response[6]), Unit(response[7]))
  {
    match Classify(response)
    case None => Raised
    case Some(a) =>
      if !a.valid then Rejected
      else
        var df := Slice(response, 3, 10);
        if |df| < 5 then Raised
        else Decoded(Properties(Ratio(Word(df[0], df[1]), Pow10(df[2])), GasType(df[3]), Unit(df[4])))
  }

  method ReadMeasurementProperties(ser: SerialLine, response: seq<byte>) returns (o: Outcome<Properties>)
    requires |response| <= ReadSize
    modifies ser
    ensures ser.written == old(ser.written) + [RequestFrame(CmdMeasurementProperty)]
    ensures o == MeasurementProperties(response)
  {
    var answer := SendCommand(ser, CmdMeasurementProperty, response);
    if answer.None? {
      return Raised;
    }
    var validity, reply := answer.value.valid, answer.value.response;
    if !validity {
      return Rejected;
    }
    var df := Slice(reply, 3, 10);
    if |df| < 5 {
      return Raised;
    }
    o := Decoded(Properties(Ratio(Word(df[0], df[1]), Pow10(df[2])), GasType(df[3]), Unit(df[4])));
  }
}
