/**
 * `inir2me5Reader.py`: the INIR2-ME5 methane sensor's bracketed one-letter
 * commands and their acknowledgement, the settings read-back, and the
 * engineering-mode loop that assembles a frame between the marker lines
 * `0000005b` and `0000005d` from the characters as they arrive.
 */
module Inir2me5 {
  import opened Wrappers
  import opened PyText
  import opened Records
  import opened Serial

  const StartMarker := "0000005b"
  const EndMarker := "0000005d"
  /** What an accepted command's reply ends with. */
  const AckSuffix := "5b414b5d"
  const LineBreak := "\n\r"
  const SensorName := "INIR2ME5"
  const SettingsSensorName := "INIR2ME5SET"
  /** A frame is published only once the loop has run for more than this many seconds. */
  const WarmUpSeconds := 60
  /** The number of non-blank lines of a settings reply. */
  const SettingsLineCount := 38

  // ---------------------------------------------------------------------------
  // send_command

  /** `command.isalpha() and len(command) == 1`, over ASCII letters. */
  predicate ValidCommand(command: string) {
    |command| == 1 && IsAlpha(command[0])
  }

  /** `f"[{command.upper()}]"`. */
  function BracketCommand(command: string): (r: string)
    requires ValidCommand(command)
    ensures |r| == 3 && r[0] == '[' && r[2] == ']'
    ensures 'A' <= r[1] <= 'Z' && Lower(r[1]) == Lower(command[0])
  {
    ['[', Upper(command[0]), ']']
  }

  /** `.encode()` of ASCII text: one byte per character. */
  function Encode(s: string): (b: seq<byte>)
    requires forall k :: 0 <= k < |s| ==> s[k] < 128 as char
    ensures Text(b) == s
  {
    seq(|s|, k requires 0 <= k < |s| => s[k] as int)
  }

  /** `(response.endswith("5b414b5d"), response)` for the stripped reply. */
  function Acknowledgement(reply: string): (r: (bool, string))
    ensures r.1 == Strip(reply, Blanks)
    ensures r.0 <==> |r.1| >= 8 && r.1[|r.1| - 8..] == AckSuffix
  {
    var response := Strip(reply, Blanks);
    (EndsWith(response, AckSuffix), response)
  }

  /** Lower-case hexadecimal digit of a value below 16. */
  function HexDigit(d: nat): char
    requires d < 16
  {
    if d < 10 then ('0' as int + d) as char else ('a' as int + d - 10) as char
  }

  /** Each character as two lower-case hexadecimal digits, the form the sensor echoes bytes in. */
  function HexText(s: string): (h: string)
    requires forall k :: 0 <= k < |s| ==> s[k] < 256 as char
    ensures |h| == 2 * |s|
  {
    if s == [] then []
    else [HexDigit(s[0] as int / 16), HexDigit(s[0] as int % 16)] + HexText(s[1..])
  }

  /** The acknowledgement suffix is the hexadecimal echo of the sensor's "[AK]". */
  lemma AckIsHexOfAk()
    ensures HexText("[AK]") == AckSuffix
  {
    assert HexText("]") == "5d";
    assert HexText("K]") == "4b5d";
    assert HexText("AK]") == "414b5d";
  }

  /**
   * `send_command(command, ser)` given the text of the second `ser.read(500)`; the
   * first read is overwritten before it is used. An invalid command writes nothing
   * and returns `None`.
   */
  method SendCommand(ser: SerialLine, command: string, reply: string) returns (r: Option<(bool, string)>)
    modifies ser
    ensures !ValidCommand(command) ==> r.None? && ser.written == old(ser.written)
    ensures ValidCommand(command) ==>
      && ser.written == old(ser.written) + [Encode(BracketCommand(command))]
      && r == Some(Acknowledgement(reply))
  {
    if !(|command| == 1 && IsAlpha(command[0])) {
      return None;
    }
    var fullCommand := ['[', Upper(command[0]), ']'];
    ser.Write(Encode(fullCommand));
    var response := Strip(reply, Blanks);
    if EndsWith(response, AckSuffix) {
      r := Some((true, response));
    } else {
      r := Some((false, response));
    }
  }

  // ---------------------------------------------------------------------------
  // Lines

  /** `not line.strip()`. */
  predicate Blank(line: string) {
    Strip(line, Blanks) == []
  }

  /** `[line for line in lines if line.strip()]`. */
  function NonBlank(lines: seq<string>): (r: seq<string>)
    ensures |r| <= |lines|
    ensures forall k :: 0 <= k < |r| ==> !Blank(r[k]) && r[k] in lines
  {
    if lines == [] then []
    else
      var init, last := lines[..|lines| - 1], lines[|lines| - 1];
      var r := NonBlank(init);
      assert forall k :: 0 <= k < |r| ==> r[k] in lines by {
        assert forall l :: l in init ==> l in lines;
      }
      r + if Blank(last) then [] else [last]
  }

  /**
   * The filter keeps every non-blank line: with `NonBlankConcat`, this pins `NonBlank`
   * down to exactly the non-blank lines of its input, in order.
   */
  lemma {:induction false} NonBlankKeeps(lines: seq<string>)
    ensures forall k :: 0 <= k < |lines| && !Blank(lines[k]) ==> lines[k] in NonBlank(lines)
    ensures (forall k :: 0 <= k < |lines| ==> !Blank(lines[k])) ==> NonBlank(lines) == lines
    ensures (forall k :: 0 <= k < |lines| ==> Blank(lines[k])) ==> NonBlank(lines) == []
  {
    if lines != [] {
      var init, last := lines[..|lines| - 1], lines[|lines| - 1];
      NonBlankKeeps(init);
      assert lines == init + [last];
      assert forall k :: 0 <= k < |init| ==> init[k] == lines[k];
    }
  }

  /** The non-blank pieces of `data.split("\n\r")`. */
  function Lines(data: string): seq<string> {
    NonBlank(SplitBy(data, LineBreak))
  }

  /** `lines and lines[-1] == "0000005d"`. */
  predicate Terminated(lines: seq<string>) {
    lines != [] && lines[|lines| - 1] == EndMarker
  }

  /** A terminated buffer whose first line is the start marker. */
  predicate Framed(lines: seq<string>) {
    Terminated(lines) && lines[0] == StartMarker
  }

  // ---------------------------------------------------------------------------
  // The frame dictionary

  const FrameKeys: seq<string> :=
    ["dateTime", "methane", "faultCode", "temperature", "ref1SecAverage", "act1SecAverage", "crc", "crc1sComp"]

  lemma FrameKeysDistinct()
    ensures Distinct(FrameKeys)
  {
  }

  /** `int(text, 16)` succeeds. */
  predicate IsHex(text: string) {
    ParseInt(text, 16).Some?
  }

  /** The value `int(text, 16)` gives, for a text known to parse. */
  function Hex(text: string): int
    requires IsHex(text)
  {
    ParseInt(text, 16).value
  }

  /** `int(text, 16)` as a dictionary value. */
  function HexValue(text: string): (v: Option<Value>)
    ensures v.Some? <==> IsHex(text)
    ensures v.Some? ==> v.value == Int(Hex(text))
  {
    match ParseInt(text, 16)
    case None => None
    case Some(n) => Some(Int(n))
  }

  /** `int(text, 16) / 10 - 273.15`: tenths of a kelvin to degrees Celsius, `(2n - 5463) / 20`. */
  function TemperatureValue(text: string): (v: Option<Value>)
    ensures v.Some? <==> IsHex(text)
    ensures v.Some? ==> v.value == Ratio(2 * Hex(text) - 5463, 20)
  {
    match ParseInt(text, 16)
    case None => None
    case Some(n) => Some(Ratio(2 * n - 5463, 20))
  }

  /**
   * The `sensorDictionary` of a frame, `None` where the display raises `IndexError` or
   * `ValueError`.
   */
  function FrameRecord(lines: seq<string>): Option<Fields> {
    if |lines| < 8 then None
    else
      Record(Display(FrameKeys, [Some(HostClock), HexValue(lines[1]), HexValue(lines[2]), TemperatureValue(lines[3]),
                                 HexValue(lines[4]), HexValue(lines[5]), HexValue(lines[6]), HexValue(lines[7])]))
  }

  /**
   * A frame decodes exactly when it has at least eight lines and lines 1 to 7 parse as
   * hexadecimal. It then holds the host time, then those seven values under their keys
   * in order, line 3 converted to degrees Celsius.
   */
  lemma FrameDecodes(lines: seq<string>)
    ensures FrameRecord(lines).Some? <==>
      && |lines| >= 8 && IsHex(lines[1]) && IsHex(lines[2]) && IsHex(lines[3])
      && IsHex(lines[4]) && IsHex(lines[5]) && IsHex(lines[6]) && IsHex(lines[7])
    ensures FrameRecord(lines).Some? ==> FrameRecord(lines).value == [
      ("dateTime", HostClock), ("methane", Int(Hex(lines[1]))), ("faultCode", Int(Hex(lines[2]))),
      ("temperature", Ratio(2 * Hex(lines[3]) - 5463, 20)), ("ref1SecAverage", Int(Hex(lines[4]))),
      ("act1SecAverage", Int(Hex(lines[5]))), ("crc", Int(Hex(lines[6]))), ("crc1sComp", Int(Hex(lines[7])))]
  {
    if |lines| >= 8 {
      var a, b, c, d := Some(HostClock), HexValue(lines[1]), HexValue(lines[2]), TemperatureValue(lines[3]);
      var e, f, g, h := HexValue(lines[4]), HexValue(lines[5]), HexValue(lines[6]), HexValue(lines[7]);
      assert FrameRecord(lines) == Record(Display(FrameKeys, [a, b, c, d, e, f, g, h]));
      FrameKeysDistinct();
      Display8(FrameKeys, a, b, c, d, e, f, g, h);
    }
  }

  // ---------------------------------------------------------------------------
  // The engineering-mode loop

  /** The loop's state: the character buffer `lineASCII`, what it published, whether it broke off. */
  datatype Assembler = Assembler(buffer: string, published: seq<Publication>, stopped: bool)

  /**
   * One byte of the loop, handled at host time `now` with the loop started at `start`:
   * append it, re-split the buffer and, for a frame, decode it. An exception in the
   * decoding ends the loop (`break`). A decoded frame is published only after the
   * warm-up time, and either way the buffer is cleared.
   */
  function Step(a: Assembler, b: byte, now: int, start: int): Assembler
    requires !a.stopped
  {
    var buffer := a.buffer + [b as char];
    var lines := Lines(buffer);
    if Framed(lines) then
      match FrameRecord(lines)
      case None => Assembler(buffer, a.published, true)
      case Some(d) =>
        Assembler([], a.published + if now - start > WarmUpSeconds then [Publication(SensorName, d)] else [], false)
    else Assembler(buffer, a.published, false)
  }

  /** The loop's state when engineering mode is entered: `lineASCII = []`. */
  const Idle := Assembler([], [], false)

  /**
   * The loop from state `a` over the bytes `received`, byte `k` handled at host time
   * `clock[k]`; once it has broken off, no further byte is handled.
   */
  function Run(a: Assembler, received: seq<byte>, clock: seq<int>, start: int): Assembler
    requires |clock| == |received|
    decreases |received|
  {
    if received == [] || a.stopped then a
    else Run(Step(a, received[0], clock[0], start), received[1..], clock[1..], start)
  }

  /** The loop over the bytes from position `i` on, one byte at a time. */
  lemma RunFrom(a: Assembler, received: seq<byte>, clock: seq<int>, start: int, i: nat)
    requires |clock| == |received| && i < |received| && !a.stopped
    ensures Run(a, received[i..], clock[i..], start) ==
      Run(Step(a, received[i], clock[i], start), received[i + 1..], clock[i + 1..], start)
  {
    assert received[i..][1..] == received[i + 1..] && clock[i..][1..] == clock[i + 1..];
  }

  /**
   * The buffer grows by the new character, and is cleared exactly when a frame was
   * recognised and decoded; a terminator without the start marker clears nothing.
   */
  lemma StepBuffer(a: Assembler, b: byte, now: int, start: int)
    requires !a.stopped
    ensures var r, lines := Step(a, b, now, start), Lines(a.buffer + [b as char]);
      && (r.buffer == [] <==> !r.stopped && Framed(lines))
      && (r.buffer != [] ==> r.buffer == a.buffer + [b as char])
      && (r.stopped <==> Framed(lines) && FrameRecord(lines).None?)
      && (Terminated(lines) && lines[0] != StartMarker ==> r == Assembler(a.buffer + [b as char], a.published, false))
  {
  }

  /**
   * A step publishes at most one dictionary: the decoded frame, and only after the
   * warm-up time.
   */
  lemma StepPublishes(a: Assembler, b: byte, now: int, start: int)
    requires !a.stopped
    ensures var r, lines := Step(a, b, now, start), Lines(a.buffer + [b as char]);
      && (r.published == a.published || r.published == a.published + [Publication(SensorName, FrameRecord(lines).value)])
      && (r.published != a.published <==> Framed(lines) && FrameRecord(lines).Some? && now - start > WarmUpSeconds)
  {
  }

  /** A frame whose display raises ends the loop with the buffer as it is. */
  lemma StepRaises(a: Assembler, b: byte, now: int, start: int)
    requires !a.stopped
    requires Framed(Lines(a.buffer + [b as char])) && FrameRecord(Lines(a.buffer + [b as char])).None?
    ensures Step(a, b, now, start) == Assembler(a.buffer + [b as char], a.published, true)
  {
  }

  /** Without a frame, the byte is appended and nothing else changes. */
  lemma StepAccumulates(a: Assembler, b: byte, now: int, start: int)
    requires !a.stopped && !Framed(Lines(a.buffer + [b as char]))
    ensures Step(a, b, now, start) == Assembler(a.buffer + [b as char], a.published, false)
  {
  }

  /** A decoded frame clears the buffer and is published once the warm-up time has passed. */
  lemma StepDecoded(a: Assembler, b: byte, now: int, start: int)
    requires !a.stopped
    requires Framed(Lines(a.buffer + [b as char])) && FrameRecord(Lines(a.buffer + [b as char])).Some?
    ensures var d := FrameRecord(Lines(a.buffer + [b as char])).value;
      Step(a, b, now, start) ==
        if now - start > WarmUpSeconds then Assembler([], a.published + [Publication(SensorName, d)], false)
        else Assembler([], a.published, false)
  {
  }

  /** Nothing is published while every byte arrives within the warm-up time. */
  lemma {:induction false} ColdRunPublishesNothing(a: Assembler, received: seq<byte>, clock: seq<int>, start: int)
    requires |clock| == |received|
    requires forall k :: 0 <= k < |clock| ==> clock[k] - start <= WarmUpSeconds
    ensures Run(a, received, clock, start).published == a.published
    decreases |received|
  {
    if received != [] && !a.stopped {
      StepPublishes(a, received[0], clock[0], start);
      ColdRunPublishesNothing(Step(a, received[0], clock[0], start), received[1..], clock[1..], start);
    }
  }

  /**
   * A frame cut short, as when a data line itself reads `0000005d` (a methane value of
   * 0x5d), raises in the display and ends the loop.
   */
  lemma ShortFrameStops(a: Assembler, b: byte, now: int, start: int)
    requires !a.stopped
    requires Framed(Lines(a.buffer + [b as char])) && |Lines(a.buffer + [b as char])| < 8
    ensures Step(a, b, now, start).stopped
  {
    FrameDecodes(Lines(a.buffer + [b as char]));
  }

  /** Filtering the blank lines distributes over concatenation. */
  lemma {:induction false} NonBlankConcat(p: seq<string>, q: seq<string>)
    ensures NonBlank(p + q) == NonBlank(p) + NonBlank(q)
    decreases |q|
  {
    if q == [] {
      assert p + q == p;
    } else {
      var n := |q| - 1;
      assert (p + q)[..|p + q| - 1] == p + q[..n];
      NonBlankConcat(p, q[..n]);
    }
  }

  /** The non-blank lines of `data` that a line break already ends. */
  function CompleteLines(data: string): seq<string> {
    Complete(SplitBy(data, LineBreak))
  }

  /** The non-blank pieces before the last. */
  function Complete(pieces: seq<string>): seq<string>
    requires |pieces| >= 1
  {
    NonBlank(pieces[..|pieces| - 1])
  }

  /** Pieces that keep the complete ones of `p` keep its first complete non-blank line. */
  lemma CompletePrefix(p: seq<string>, q: seq<string>)
    requires 1 <= |p| <= |q| && q[..|p| - 1] == p[..|p| - 1] && Complete(p) != []
    ensures Complete(q) != [] && Complete(q)[0] == Complete(p)[0]
  {
    var n, m := |p| - 1, |q| - 1;
    assert q[..m] == q[..n] + q[n..m];
    NonBlankConcat(q[..n], q[n..m]);
  }

  /** `Lines(data)` is the complete lines, then the unfinished piece if it is not blank. */
  lemma LinesSplit(data: string)
    ensures var pieces := SplitBy(data, LineBreak);
      Lines(data) == CompleteLines(data) + NonBlank([pieces[|pieces| - 1]])
  {
    var pieces := SplitBy(data, LineBreak);
    var n := |pieces| - 1;
    assert pieces == pieces[..n] + [pieces[n]];
    NonBlankConcat(pieces[..n], [pieces[n]]);
  }

  /**
   * A buffer is stuck when its first complete non-blank line is not the start
   * marker: no byte that follows can change that line, so no frame is recognised.
   */
  predicate Stuck(buffer: string) {
    var complete := CompleteLines(buffer);
    complete != [] && complete[0] != StartMarker
  }

  /** Appending keeps every complete line, so a stuck buffer stays stuck. */
  lemma {:induction false} StuckExtends(buffer: string, t: string)
    requires Stuck(buffer)
    ensures Stuck(buffer + t)
    ensures CompleteLines(buffer + t)[0] == CompleteLines(buffer)[0]
  {
    var p := SplitBy(buffer, LineBreak);
    SplitPrefixStable(buffer, t, LineBreak, |p| - 1);
    CompletePrefix(p, SplitBy(buffer + t, LineBreak));
  }

  /** A stuck buffer's first line is not the start marker, so it is never a frame. */
  lemma StuckUnframed(buffer: string)
    requires Stuck(buffer)
    ensures !Framed(Lines(buffer))
  {
    LinesSplit(buffer);
  }

  /**
   * A terminator under a first line other than the start marker, with a line between,
   * leaves the buffer stuck.
   */
  lemma StrayTerminatorSticks(buffer: string)
    requires var lines := Lines(buffer); Terminated(lines) && |lines| >= 2 && lines[0] != StartMarker
    ensures Stuck(buffer)
  {
    LinesSplit(buffer);
  }

  /**
   * From a stuck state on, the loop only accumulates: every further byte is appended,
   * the buffer is never cleared and nothing more is published.
   */
  lemma {:induction false} StuckRun(a: Assembler, received: seq<byte>, clock: seq<int>, start: int)
    requires |clock| == |received| && !a.stopped && Stuck(a.buffer)
    ensures Run(a, received, clock, start) == Assembler(a.buffer + Text(received), a.published, false)
    decreases |received|
  {
    if received == [] {
      assert Text(received) == [];
      assert a.buffer + [] == a.buffer;
    } else {
      var c := received[0] as char;
      var next := Assembler(a.buffer + [c], a.published, false);
      StuckStep(a, received[0], clock[0], start);
      StuckExtends(a.buffer, [c]);
      StuckRun(next, received[1..], clock[1..], start);
      TextCons(received);
      Associative(a.buffer, [c], Text(received[1..]));
    }
  }

  /** A stuck buffer takes the next byte and nothing else happens. */
  lemma StuckStep(a: Assembler, b: byte, now: int, start: int)
    requires !a.stopped && Stuck(a.buffer)
    ensures Step(a, b, now, start) == Assembler(a.buffer + [b as char], a.published, false)
  {
    StuckExtends(a.buffer, [b as char]);
    StuckUnframed(a.buffer + [b as char]);
  }

  /** The loop of `main` once engineering mode is entered, started at host time `start`. */
  method Engineering(received: seq<byte>, clock: seq<int>, start: int)
    returns (buffer: string, published: seq<Publication>, stopped: bool)
    requires |clock| == |received|
    ensures Assembler(buffer, published, stopped) == Run(Idle, received, clock, start)
  {
    var lineASCII: string := [];
    published := [];
    var i := 0;
    while i < |received|
      invariant i <= |received|
      invariant Run(Idle, received, clock, start) == Run(Assembler(lineASCII, published, false), received[i..], clock[i..], start)
    {
      ghost var before := Assembler(lineASCII, published, false);
      RunFrom(before, received, clock, start, i);
      var asciiChar := received[i] as char;
      lineASCII := lineASCII + [asciiChar];
      var lines := Lines(lineASCII);
      if lines != [] && lines[|lines| - 1] == EndMarker && lines[0] == StartMarker {
        var d := FrameRecord(lines);
        if d.None? {
          StepRaises(before, received[i], clock[i], start);
          return lineASCII, published, true;
        }
        StepDecoded(before, received[i], clock[i], start);
        if clock[i] - start > WarmUpSeconds {
          published := published + [Publication(SensorName, d.value)];
        }
        lineASCII := [];
      } else {
        StepAccumulates(before, received[i], clock[i], start);
      }
      i := i + 1;
    }
    assert received[i..] == [] && clock[i..] == [];
    return lineASCII, published, false;
  }

  // ---------------------------------------------------------------------------
  // printSettings

  /** The settings dictionary's keys: the host time, then one per line 1 to 35. */
  const SettingsKeys: seq<string> :=
    SettingsKeys0 + (SettingsKeys1 + (SettingsKeys2 + (SettingsKeys3 + (SettingsKeys4 + SettingsKeys5))))

  const SettingsKeys0: seq<string> :=
    ["dateTime", "sensor_type", "gas_type", "conc_range", "high_span_gas_conc", "low_span_gas_conc"]
  const SettingsKeys1: seq<string> :=
    ["a_coeff_low_range", "a_coeff_mid_range", "a_coeff_high_range", "n_coeff_low_conc", "n_coeff_mid_conc", "n_coeff_high_conc"]
  const SettingsKeys2: seq<string> :=
    ["betaneg_coeff_low_range", "betaneg_coeff_mid_range", "betaneg_coeff_high_range",
     "betapos_coeff_low_range", "betapos_coeff_mid_range", "betapos_coeff_high_range"]
  const SettingsKeys3: seq<string> :=
    ["alphaneg_coeff", "alphapos_coeff", "averaging", "baud_rate", "current_conc_range", "customer_calibration_time"]
  const SettingsKeys4: seq<string> :=
    ["customer_calibration_date", "serial_number", "time_delay_ms", "firmware_version",
     "Act_1s_Average_Calibrate", "Ref_1s_Average_Calibrate"]
  const SettingsKeys5: seq<string> :=
    ["zero", "span", "offset", "calibration_temperature", "val_crc", "inv_crc"]

  /** What line `i + 1` is divided by; 1 keeps the value an integer. */
  const SettingsDivisors: seq<nat> := [
    1, 1, 1, 10000, 10000,
    1000000, 1000000, 1000000, 1000000, 1000000, 1000000, 1000000,
    1000000, 1000000, 1000000, 1000000, 1000000, 1000000, 1000000,
    1, 1, 1, 1, 1, 1, 1, 1,
    1000000, 1000000, 1000000, 1000000, 10000, 10, 1, 1]

  lemma SettingsKeysDistinct()
    ensures |SettingsKeys| == 36 && |SettingsDivisors| == 35 && Distinct(SettingsKeys)
  {
    var t4 := SettingsKeys4 + SettingsKeys5;
    var t3 := SettingsKeys3 + t4;
    var t2 := SettingsKeys2 + t3;
    var t1 := SettingsKeys1 + t2;
    SettingsGroupsDistinct();
    SettingsGroupsDisjoint45();
    DistinctConcat(SettingsKeys4, SettingsKeys5);
    SettingsGroupsDisjoint3();
    DistinctConcat(SettingsKeys3, t4);
    SettingsGroupsDisjoint2();
    DistinctConcat(SettingsKeys2, t3);
    SettingsGroupsDisjoint1();
    DistinctConcat(SettingsKeys1, t2);
    SettingsGroupsDisjoint0();
    DistinctConcat(SettingsKeys0, t1);
  }

  lemma SettingsGroupsDistinct()
    ensures Distinct(SettingsKeys0) && Distinct(SettingsKeys1) && Distinct(SettingsKeys2)
    ensures Distinct(SettingsKeys3) && Distinct(SettingsKeys4) && Distinct(SettingsKeys5)
  {
  }

  lemma SettingsGroupsDisjoint45()
    ensures forall k :: k in SettingsKeys4 ==> k !in SettingsKeys5
  {
  }

  lemma SettingsGroupsDisjoint3()
    ensures forall k :: k in SettingsKeys3 ==> k !in SettingsKeys4 + SettingsKeys5
  {
  }

  lemma SettingsGroupsDisjoint2()
    ensures forall k :: k in SettingsKeys2 ==> k !in SettingsKeys3 + (SettingsKeys4 + SettingsKeys5)
  {
  }

  lemma SettingsGroupsDisjoint1()
    ensures forall k :: k in SettingsKeys1 ==> k !in SettingsKeys2 + (SettingsKeys3 + (SettingsKeys4 + SettingsKeys5))
  {
  }

  lemma SettingsGroupsDisjoint0()
    ensures forall k :: k in SettingsKeys0 ==>
      k !in SettingsKeys1 + (SettingsKeys2 + (SettingsKeys3 + (SettingsKeys4 + SettingsKeys5)))
  {
  }

  lemma DistinctConcat(a: seq<string>, b: seq<string>)
    requires Distinct(a) && Distinct(b) && forall k :: k in a ==> k !in b
    ensures Distinct(a + b)
  {
    forall i, j | 0 <= i < j < |a + b| ensures (a + b)[i] != (a + b)[j] {
      if i < |a| && |a| <= j {
        assert (a + b)[i] in a && (a + b)[j] == b[j - |a|];
      }
    }
  }

  /** `int(text, 16)`, or `int(text, 16) / divisor` for a divisor other than 1. */
  function SettingValue(text: string, divisor: nat): Option<Value> {
    match ParseInt(text, 16)
    case None => None
    case Some(n) => Some(if divisor == 1 then Int(n) else Ratio(n, divisor))
  }

  function SettingsValues(lines: seq<string>): (vs: seq<Option<Value>>)
    requires |lines| == SettingsLineCount
  {
    seq(35, i requires 0 <= i < 35 => SettingValue(lines[i + 1], SettingsDivisors[i]))
  }

  /** What `printSettings` does with a reply: nothing, raise, or publish a dictionary. */
  datatype Report = Skipped | ReportRaised | Reported(fields: Fields)

  /**
   * `printSettings(response, dateTime)`: a reply of exactly 38 non-blank lines is read
   * as the host time followed by lines 1 to 35, each hexadecimal and scaled by its divisor.
   */
  function SettingsReport(response: string): Report {
    var lines := Lines(response);
    if |lines| != SettingsLineCount then Skipped
    else
      match Record(Display(SettingsKeys, [Some(HostClock)] + SettingsValues(lines)))
      case None => ReportRaised
      case Some(d) => Reported(d)
  }

  /**
   * Only a reply of exactly 38 lines is read. It is published exactly when lines 1 to 35
   * are all hexadecimal, and then holds line `i` under `SettingsKeys[i]`, divided by its
   * divisor; lines 0, 36 and 37 are not read. Otherwise it raises.
   */
  lemma SettingsDecodes(response: string)
    ensures var r, lines := SettingsReport(response), Lines(response);
      && (r.Skipped? <==> |lines| != SettingsLineCount)
      && (r.Reported? <==> |lines| == SettingsLineCount && forall i :: 1 <= i <= 35 ==> IsHex(lines[i]))
      && (r.Reported? ==>
        && |r.fields| == 36 && r.fields[0] == ("dateTime", HostClock)
        && forall i :: 1 <= i <= 35 ==>
          r.fields[i] == (SettingsKeys[i],
            if SettingsDivisors[i - 1] == 1 then Int(Hex(lines[i])) else Ratio(Hex(lines[i]), SettingsDivisors[i - 1])))
  {
    var lines := Lines(response);
    if |lines| == SettingsLineCount {
      var vs := [Some(HostClock)] + SettingsValues(lines);
      forall i | 1 <= i <= 35
        ensures vs[i] == SettingValue(lines[i], SettingsDivisors[i - 1])
      {
      }
      assert AllSome(vs) <==> forall i :: 1 <= i <= 35 ==> IsHex(lines[i]) by {
        assert forall i :: 1 <= i <= 35 ==> (vs[i].Some? <==> IsHex(lines[i]));
      }
      SettingsKeysDistinct();
      DisplayRecord(SettingsKeys, vs);
    }
  }

  // ---------------------------------------------------------------------------
  // main

  /** The bytes `send_command(letter, ser)` writes. */
  function CommandBytes(letter: char): seq<byte>
    requires IsAlpha(letter)
  {
    Encode(BracketCommand([letter]))
  }

  /** The three requests of `main` are the bytes of "[C]", "[I]" and "[B]". */
  lemma SessionCommandBytes()
    ensures CommandBytes('C') == ['[' as byte, 'C' as byte, ']' as byte]
    ensures CommandBytes('I') == ['[' as byte, 'I' as byte, ']' as byte]
    ensures CommandBytes('B') == ['[' as byte, 'B' as byte, ']' as byte]
  {
  }

  /** `send_command(letter, ser)` for a letter, which is always a valid command. */
  method SendLetter(ser: SerialLine, letter: char, reply: string) returns (accepted: bool, response: string)
    requires IsAlpha(letter)
    modifies ser
    ensures ser.written == old(ser.written) + [CommandBytes(letter)]
    ensures (accepted, response) == Acknowledgement(reply)
  {
    var r := SendCommand(ser, [letter], reply);
    accepted, response := r.value.0, r.value.1;
  }

  /** What reading the settings publishes: the settings record, when it decoded. */
  function SettingsPublished(settings: Report): (r: seq<Publication>)
    ensures |r| <= 1
    ensures r != [] <==> settings.Reported?
    ensures settings.Reported? ==> r[0].sensor == SettingsSensorName && r[0].fields == settings.fields
  {
    if settings.Reported? then [Publication(SettingsSensorName, settings.fields)] else []
  }

  /**
   * The start of `main` after the port is open: configuration mode ("C"), then the
   * settings read-back ("I"), printed and published when the device accepts it.
   */
  method ReadSettings(ser: SerialLine, pub: Publisher, replyC: string, replyI: string)
    returns (settings: Report)
    modifies ser, pub
    ensures settings == if Acknowledgement(replyI).0 then SettingsReport(Acknowledgement(replyI).1) else Skipped
    ensures ser.written == old(ser.written) + [CommandBytes('C'), CommandBytes('I')]
    ensures pub.log == old(pub.log) + SettingsPublished(settings)
  {
    var configMode, response := SendLetter(ser, 'C', replyC);
    var readSettings;
    readSettings, response := SendLetter(ser, 'I', replyI);
    settings := Skipped;
    if readSettings {
      settings := SettingsReport(response);
      if settings.Reported? {
        pub.Finish(SettingsSensorName, settings.fields);
      }
    }
  }

  /**
   * `main` after the port is open: the settings read, then engineering mode ("B") and,
   * when the device accepts it, the loop over the bytes `received`. A settings reply
   * that raises ends the program before "B" is sent.
   */
  method Session(ser: SerialLine, pub: Publisher, replyC: string, replyI: string, replyB: string,
                 received: seq<byte>, clock: seq<int>, start: int)
    returns (settings: Report, engineering: bool, buffer: string, stopped: bool)
    requires |clock| == |received|
    modifies ser, pub
    ensures settings == if Acknowledgement(replyI).0 then SettingsReport(Acknowledgement(replyI).1) else Skipped
    ensures ser.written == old(ser.written) + [CommandBytes('C'), CommandBytes('I')]
      + if settings.ReportRaised? then [] else [CommandBytes('B')]
    ensures engineering <==> !settings.ReportRaised? && Acknowledgement(replyB).0
    ensures pub.log == old(pub.log) + SettingsPublished(settings)
      + (if engineering then Run(Idle, received, clock, start).published else [])
    ensures engineering ==> Assembler(buffer, [], stopped) == Run(Idle, received, clock, start).(published := [])
  {
    settings := ReadSettings(ser, pub, replyC, replyI);
    engineering, buffer, stopped := false, [], false;
    if settings.ReportRaised? {
      assert ser.written == old(ser.written) + [CommandBytes('C'), CommandBytes('I')] + [];
      assert pub.log == old(pub.log) + SettingsPublished(settings) + [];
      return;
    }
    var response;
    engineering, response := SendLetter(ser, 'B', replyB);
    ghost var logged := pub.log;
    if engineering {
      var published;
      buffer, published, stopped := Engineering(received, clock, start);
      Publish(pub, published);
    } else {
      assert pub.log == logged + [];
    }
  }

  /** `mSR.sensorFinisher` for each publication in turn. */
  method Publish(pub: Publisher, ps: seq<Publication>)
    modifies pub
    ensures pub.log == old(pub.log) + ps
  {
    var k := 0;
    while k < |ps|
      invariant k <= |ps| && pub.log == old(pub.log) + ps[..k]
    {
      pub.Finish(ps[k].sensor, ps[k].fields);
      k := k + 1;
    }
    assert ps[..k] == ps;
  }
}
