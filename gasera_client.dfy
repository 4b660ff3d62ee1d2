/**
 * The Gasera One clients as sessions: the newer `GaseraOneSensor` and the legacy
 * reader share one class, told apart by `legacy`. Each request method sends its
 * AK request, takes the device's reply as a parameter, sets the attributes the
 * source sets, appends what it publishes to `log`, and returns what the source
 * returns. Socket I/O, sleeps and printing are not modelled; the host clock is a
 * whole-second parameter.
 */
module GaseraClient {
  import opened Wrappers
  import opened PyText
  import opened Records
  import opened AkCodec
  import opened AkTables
  import opened AkDecode

  /** The request every method sends: channel "0" and the command's data. */
  function Request(command: string, data: string): string {
    FormatAkRequest(command, "0", data)
  }

  /** The sensor id a request publishes under: "GSR001" followed by the mnemonic. */
  function SensorId(command: string): string { "GSR001" + command }

  /** The sensor id ACON publishes under, written out. */
  const AconSensor := "GSR001ACON"

  lemma AconSensorId()
    ensures SensorId("ACON") == AconSensor
  {
  }

  /** The publication of a dictionary, or nothing when building it raised. */
  function PublishIf(command: string, r: Option<Fields>): (ps: seq<Publication>)
    ensures |ps| <= 1 && (ps != [] <==> r.Some?)
    ensures r.Some? ==> ps == [Publication(SensorId(command), r.value)]
  {
    if r.Some? then [Publication(SensorId(command), r.value)] else []
  }

  /** The method's result when the dictionary was built, `Raised` when building it raised. */
  function Finish(r: Option<Fields>, o: Outcome): (f: Outcome)
    ensures r.Some? ==> f == o
    ensures r.None? ==> f == Raised
  {
    if r.Some? then o else Raised
  }

  // ---------------------------------------------------------------------------
  // Connecting

  /** How `socket.connect` ended. */
  datatype Attempt = Connected | TimedOut | Failed

  /** `ConnectionStatus`: 0 connected, 1 timed out, 2 any other error. */
  function ConnectionStatus(a: Attempt): (code: int)
    ensures 0 <= code <= 2 && (code == 0 <==> a == Connected)
    ensures code == 1 <==> a == TimedOut
  {
    match a
    case Connected => 0
    case TimedOut => 1
    case Failed => 2
  }

  /** The GSR001CS dictionary `connect` publishes on every attempt. */
  function ConnectionRecord(host: string, a: Attempt): (d: Fields)
    ensures Keys(d) == ["dateTime", "hostIP", "ConnectionStatus"]
    ensures d[1] == ("hostIP", Str(host)) && d[2] == ("ConnectionStatus", Int(ConnectionStatus(a)))
  {
    [Stamp, ("hostIP", Str(host)), ("ConnectionStatus", Int(ConnectionStatus(a)))]
  }

  // ---------------------------------------------------------------------------
  // The freshness gate of the newer client

  /**
   * The timestamps a run of ACON readings publishes, starting from `prev`: each one
   * strictly newer than the last one published (or than `prev`).
   */
  function GateRun(prev: int, ts: seq<int>): seq<int>
    decreases |ts|
  {
    if ts == [] then []
    else if ts[0] > prev then [ts[0]] + GateRun(ts[0], ts[1..])
    else GateRun(prev, ts[1..])
  }

  /** `prevTimeStamp` after the run. */
  function GateLast(prev: int, ts: seq<int>): int
    decreases |ts|
  {
    if ts == [] then prev
    else if ts[0] > prev then GateLast(ts[0], ts[1..])
    else GateLast(prev, ts[1..])
  }

  predicate StrictlyIncreasing(s: seq<int>) {
    forall i, j :: 0 <= i < j < |s| ==> s[i] < s[j]
  }

  /**
   * Across any run of readings the published timestamps are strictly increasing and
   * newer than the starting `prevTimeStamp`, so no timestamp is published twice;
   * `prevTimeStamp` never decreases and ends at the newest timestamp seen, or where it
   * started when nothing newer came.
   */
  lemma {:induction false} GateRunIncreasing(prev: int, ts: seq<int>)
    ensures StrictlyIncreasing(GateRun(prev, ts))
    ensures forall i :: 0 <= i < |GateRun(prev, ts)| ==> prev < GateRun(prev, ts)[i] && GateRun(prev, ts)[i] in ts
    ensures prev <= GateLast(prev, ts)
    ensures forall i :: 0 <= i < |ts| ==> ts[i] <= GateLast(prev, ts)
    ensures GateLast(prev, ts) == prev || GateLast(prev, ts) in ts
    ensures GateRun(prev, ts) == [] <==> forall i :: 0 <= i < |ts| ==> ts[i] <= prev
  {
    GateRunNewer(prev, ts);
    GateRunOrdered(prev, ts);
    GateLastBounds(prev, ts);
    GateRunEmpty(prev, ts);
  }

  lemma {:induction false} GateRunNewer(prev: int, ts: seq<int>)
    ensures forall i :: 0 <= i < |GateRun(prev, ts)| ==> prev < GateRun(prev, ts)[i] && GateRun(prev, ts)[i] in ts
    decreases |ts|
  {
    if ts != [] {
      var next := if ts[0] > prev then ts[0] else prev;
      GateRunNewer(next, ts[1..]);
      assert forall x :: x in ts[1..] ==> x in ts;
    }
  }

  lemma {:induction false} GateRunOrdered(prev: int, ts: seq<int>)
    ensures StrictlyIncreasing(GateRun(prev, ts))
    decreases |ts|
  {
    if ts != [] {
      var next := if ts[0] > prev then ts[0] else prev;
      GateRunOrdered(next, ts[1..]);
      GateRunNewer(next, ts[1..]);
    }
  }

  lemma {:induction false} GateLastBounds(prev: int, ts: seq<int>)
    ensures prev <= GateLast(prev, ts)
    ensures forall i :: 0 <= i < |ts| ==> ts[i] <= GateLast(prev, ts)
    ensures GateLast(prev, ts) == prev || GateLast(prev, ts) in ts
    decreases |ts|
  {
    if ts != [] {
      var next := if ts[0] > prev then ts[0] else prev;
      GateLastBounds(next, ts[1..]);
      assert forall i :: 0 <= i < |ts| - 1 ==> ts[1..][i] == ts[i + 1];
      assert forall x :: x in ts[1..] ==> x in ts;
    }
  }

  lemma {:induction false} GateRunEmpty(prev: int, ts: seq<int>)
    ensures GateRun(prev, ts) == [] <==> forall i :: 0 <= i < |ts| ==> ts[i] <= prev
    decreases |ts|
  {
    if ts != [] {
      GateRunEmpty(prev, ts[1..]);
      assert forall i :: 0 <= i < |ts| - 1 ==> ts[1..][i] == ts[i + 1];
    }
  }

  /** The gate's one step: publish `t` exactly when it is newer than `prev`, then keep the newer. */
  function GateStep(prev: int, t: int): (next: int)
    ensures next >= prev && next >= t && (next == prev || next == t)
  {
    if t > prev then t else prev
  }

  /**
   * One more ACON reading extends the run by its timestamp exactly when it is newer than
   * everything seen so far, so a session of ACON calls each taking `GateStep` publishes
   * `GateRun` of the timestamps it read.
   */
  lemma {:induction false} GateRunSnoc(prev: int, ts: seq<int>, t: int)
    ensures GateRun(prev, ts + [t]) == GateRun(prev, ts) + (if t > GateLast(prev, ts) then [t] else [])
    ensures GateLast(prev, ts + [t]) == GateStep(GateLast(prev, ts), t)
    decreases |ts|
  {
    if ts == [] {
      assert [t][1..] == [];
    } else {
      assert (ts + [t])[1..] == ts[1..] + [t];
      GateRunSnoc(if ts[0] > prev then ts[0] else prev, ts[1..], t);
    }
  }

  // ---------------------------------------------------------------------------
  // Command orders

  /** The commands the running sequences send, by their four-letter mnemonics. */
  datatype Command =
    | STPM | ASTS | AERR | ATSK | AMST | ANAM | AITR | ANET
    | ACLK | AMPS | ASYP | ATSP | ADEV | STST | ASTR | STAM

  function Mnemonic(c: Command): (m: string)
    ensures |m| == 4
  {
    match c
    case STPM => "STPM" case ASTS => "ASTS" case AERR => "AERR" case ATSK => "ATSK"
    case AMST => "AMST" case ANAM => "ANAM" case AITR => "AITR" case ANET => "ANET"
    case ACLK => "ACLK" case AMPS => "AMPS" case ASYP => "ASYP" case ATSP => "ATSP"
    case ADEV => "ADEV" case STST => "STST" case ASTR => "ASTR" case STAM => "STAM"
  }

  /** ATSP and STAM send the client's default task id as data; the rest send nothing. */
  predicate SendsTask(c: Command) {
    c.ATSP? || c.STAM?
  }

  /** The request frame a sequence sends for a command. */
  function CommandRequest(c: Command, taskId: string): string {
    Request(Mnemonic(c), if SendsTask(c) then taskId else "")
  }

  /** The requests `startUpSequece` makes, in order. */
  const StartUpCommands: seq<Command> :=
    [STPM, ASTS, AERR, ATSK, AMST, ANAM, AITR, ANET, ACLK, AMPS, ASYP, ATSP, ADEV, STST, ASTR, STAM]

  /** The requests `periodicCheck` makes, in order. */
  const PeriodicCommands: seq<Command> := [AMST, ANET, ACLK]

  /** The requests `dailyCheck` makes, in order. */
  const DailyCommands: seq<Command> := [STPM, STST, ASTR, STAM]

  /** The request frames of a sequence. */
  function Requests(cs: seq<Command>, taskId: string): (rs: seq<string>)
    ensures |rs| == |cs| && forall k :: 0 <= k < |cs| ==> rs[k] == CommandRequest(cs[k], taskId)
  {
    seq(|cs|, k requires 0 <= k < |cs| => CommandRequest(cs[k], taskId))
  }

  /**
   * The start-up sequence sends no command twice; the running checks send
   * start-up commands, in start-up order.
   */
  lemma CommandOrders()
    ensures forall i, j :: 0 <= i < j < |StartUpCommands| ==> StartUpCommands[i] != StartUpCommands[j]
    ensures PeriodicCommands == [StartUpCommands[4], StartUpCommands[7], StartUpCommands[8]]
    ensures DailyCommands == [StartUpCommands[0], StartUpCommands[13], StartUpCommands[14], StartUpCommands[15]]
  {
  }

  /** Different commands have different mnemonics, so a request frame names its command. */
  lemma MnemonicInjective(c: Command, d: Command)
    requires Mnemonic(c) == Mnemonic(d)
    ensures c == d
  {
    assert Mnemonic(c)[..2] == Mnemonic(d)[..2] && Mnemonic(c)[2..] == Mnemonic(d)[2..];
  }

  /** Each request of a sequence is framed and names its mnemonic after the blank. */
  lemma RequestsFramed(cs: seq<Command>, taskId: string, k: nat)
    requires k < |cs|
    ensures var r := Requests(cs, taskId)[k];
      && r[0] == STX && r[1] == ' ' && r[2..6] == Mnemonic(cs[k]) && r[|r| - 1] == ETX
  {
  }

  // ---------------------------------------------------------------------------
  // Concentrations (ACON)

  /**
   * The cells the newer client stores after the readings: `int(self.iteration_number)`
   * (which raises when the attribute was never set or is not integer text) and the
   * whole seconds since start-up, the daily check and the periodic check.
   */
  function AconTail(iteration: Option<string>, now: int, startUp: int, daily: int, periodic: int): (tail: seq<Cell>)
    ensures |tail| == 4
    ensures tail[0].key == "iterationNumber" && (tail[0].value.Some? <==> iteration.Some? && IsIntText(iteration.value))
    ensures tail[1] == Cell("elapsedTime", Some(Int(now - startUp)))
    ensures tail[2] == Cell("elapsedTimeSinceDailyCheck", Some(Int(now - daily)))
    ensures tail[3] == Cell("elapsedTimePeriodicCheck", Some(Int(now - periodic)))
  {
    [Cell("iterationNumber", if iteration.Some? then IntValue(iteration.value) else None),
     Cell("elapsedTime", Some(Int(now - startUp))),
     Cell("elapsedTimeSinceDailyCheck", Some(Int(now - daily))),
     Cell("elapsedTimePeriodicCheck", Some(Int(now - periodic)))]
  }

  /** The part of a session an ACON exchange changes besides the request log. */
  datatype AconState = AconState(timeStamp: Option<int>, measurements: Option<seq<Reading>>, prevTimeStamp: int,
                                 log: seq<Publication>)

  /**
   * What one ACON exchange of the newer client does, from state `before` to `after`,
   * returning `o`: an unframed reply or a reply that is not
   * a 17-token ACON reply changes nothing; a device time `fromtimestamp` rejects raises
   * before anything is stored; `self.timeStamp` is stored before `int(error_status)`
   * can raise; `measurements` holds the triples appended before a conversion raised;
   * the dictionary is published, and `prevTimeStamp` advanced, only when the device
   * timestamp is newer than `prevTimeStamp`.
   */
  predicate AconEffect(reply: string, iteration: Option<string>, now: int, startUp: int, daily: int, periodic: int,
                       before: AconState, o: Outcome, after: AconState)
  {
    var s := ScreenConcentrations(reply);
    if s.Stop? then o == s.outcome && after == before
    else AconPartsEffect(s.parts, AconTail(iteration, now, startUp, daily, periodic), before, o, after)
  }

  /** `AconEffect` once the reply passed the screen as the 17 tokens `parts`. */
  predicate AconPartsEffect(parts: seq<string>, tail: seq<Cell>, before: AconState, o: Outcome, after: AconState)
    requires |parts| == 17
  {
    if !IsDeviceTime(parts[2]) then o == Raised && after == before
    else
      var ts := IntOf(parts[2]);
      if !IsIntText(parts[1]) then
        o == Raised && after == before.(timeStamp := Some(ts))
      else
        var all := Readings(parts, false);
        var r := Record(AconCells(parts, false, tail));
        && after.timeStamp == Some(ts)
        && after.measurements == Some(all[..ReadingsAppended(parts, false)])
        && (r.None? ==> o == Raised && after.log == before.log && after.prevTimeStamp == before.prevTimeStamp)
        && (r.Some? ==>
             && o == Returned(None, Some(Join(ReadingLines(all), "\n")))
             && after.log == before.log + (if ts > before.prevTimeStamp then [Publication(AconSensor, r.value)] else [])
             && after.prevTimeStamp == GateStep(before.prevTimeStamp, ts))
  }

  /**
   * Whatever an ACON exchange does, it publishes at most one dictionary, only one whose
   * device timestamp is newer than `prevTimeStamp` was, and leaves `prevTimeStamp` at
   * least where it was: the gate never lets the same reading out twice.
   */
  lemma AconPublishesOnlyFresh(reply: string, iteration: Option<string>, now: int, startUp: int, daily: int, periodic: int,
                               before: AconState, o: Outcome, after: AconState)
    requires AconEffect(reply, iteration, now, startUp, daily, periodic, before, o, after)
    ensures after.prevTimeStamp >= before.prevTimeStamp
    ensures after.log == before.log || after.log == before.log + [after.log[|after.log| - 1]]
    ensures after.log != before.log ==>
      && after.timeStamp.Some? && after.timeStamp.value > before.prevTimeStamp
      && after.prevTimeStamp == after.timeStamp.value && o.Returned?
      && after.log[|after.log| - 1].sensor == AconSensor
  {
    var s := ScreenConcentrations(reply);
    if s.Go? && IsDeviceTime(s.parts[2]) && IsIntText(s.parts[1]) {
      var parts := s.parts;
      var ts := IntOf(parts[2]);
      var r := Record(AconCells(parts, false, AconTail(iteration, now, startUp, daily, periodic)));
      if r.Some? && ts > before.prevTimeStamp {
        assert after.log == before.log + [Publication(AconSensor, r.value)];
      }
    }
  }

  // ---------------------------------------------------------------------------
  // The session

  class Client {
    const host: string
    const legacy: bool
    /** `defualtTaskID` (newer client): which task ATSP and STAM name. */
    const defaultTaskId: string

    var startUpTime: int
    var periodicCheckTime: int
    var dailyCheckTime: int
    var prevTimeStamp: int
    var timeStamp: Option<int>

    var deviceStatusCode: Option<string>
    var errors: Option<seq<string>>
    var taskIds: Option<seq<string>>
    var taskNames: Option<seq<string>>
    var measurementStatusCode: Option<string>
    var measurementStatus: Option<string>
    var deviceName: Option<string>
    var iterationNumber: Option<string>
    var useDhcp: Option<string>
    var ipAddress: Option<string>
    var netmask: Option<string>
    var gateway: Option<string>
    var deviceTime: Option<string>
    var samplerParameters: Option<seq<string>>
    var systemParameters: Option<seq<string>>
    var taskParameters: Option<seq<string>>
    var manufacturer: Option<string>
    var serialNumber: Option<string>
    var firmwareVersion: Option<string>
    var selfTestResult: Option<string>
    var measurements: Option<seq<Reading>>

    /** Every dictionary handed to the publisher, in order. */
    var log: seq<Publication>
    /** Every request frame written to the socket, in order. */
    var sent: seq<string>

    /**
     * `GaseraOneSensor(host, defaultTaskID)` at host time `now`: the three check times
     * and `prevTimeStamp` all start at `now` (whole seconds; see README).
     */
    constructor Sensor(host: string, defaultTaskId: string, now: int)
      ensures this.host == host && this.defaultTaskId == defaultTaskId && !legacy
      ensures startUpTime == now && periodicCheckTime == now && dailyCheckTime == now && prevTimeStamp == now
      ensures timeStamp == None && iterationNumber == None && measurements == None
      ensures log == [] && sent == []
    {
      this.host := host;
      this.defaultTaskId := defaultTaskId;
      legacy := false;
      startUpTime, periodicCheckTime, dailyCheckTime, prevTimeStamp := now, now, now, now;
      timeStamp := None;
      deviceStatusCode, errors, taskIds, taskNames := None, None, None, None;
      measurementStatusCode, measurementStatus, deviceName, iterationNumber := None, None, None, None;
      useDhcp, ipAddress, netmask, gateway, deviceTime := None, None, None, None, None;
      samplerParameters, systemParameters, taskParameters := None, None, None;
      manufacturer, serialNumber, firmwareVersion, selfTestResult, measurements := None, None, None, None, None;
      log, sent := [], [];
    }

    /** The legacy reader `GaseraOneSensor(host)`, which keeps no clocks. */
    constructor Legacy(host: string)
      ensures this.host == host && legacy
      ensures timeStamp == None && iterationNumber == None && measurements == None
      ensures log == [] && sent == []
    {
      this.host := host;
      defaultTaskId := "";
      legacy := true;
      startUpTime, periodicCheckTime, dailyCheckTime, prevTimeStamp := 0, 0, 0, 0;
      timeStamp := None;
      deviceStatusCode, errors, taskIds, taskNames := None, None, None, None;
      measurementStatusCode, measurementStatus, deviceName, iterationNumber := None, None, None, None;
      useDhcp, ipAddress, netmask, gateway, deviceTime := None, None, None, None, None;
      samplerParameters, systemParameters, taskParameters := None, None, None;
      manufacturer, serialNumber, firmwareVersion, selfTestResult, measurements := None, None, None, None, None;
      log, sent := [], [];
    }

    /** `connect`: publishes the attempt's status and tells whether it connected. */
    method Connect(a: Attempt) returns (ok: bool)
      modifies this`log
      ensures ok <==> a == Connected
      ensures log == old(log) + [Publication("GSR001CS", ConnectionRecord(host, a))]
    {
      log := log + [Publication("GSR001CS", ConnectionRecord(host, a))];
      ok := a == Connected;
    }

    /** Write the request, read `reply` and apply the screen of `command`. */
    method Exchange(command: string, data: string, reply: string) returns (s: Screened)
      modifies this`sent
      ensures sent == old(sent) + [Request(command, data)]
      ensures s == Screen(reply, command)
    {
      sent := sent + [Request(command, data)];
      s := Screen(reply, command);
    }

    /** Hand a built dictionary to the publisher. */
    method Publish(command: string, r: Option<Fields>)
      modifies this`log
      ensures log == old(log) + PublishIf(command, r)
    {
      if r.Some? {
        log := log + [Publication(SensorId(command), r.value)];
      }
    }

    /** ASTS: `device_status_code`, then the status dictionary; returns the looked-up label. */
    method RequestStatus(reply: string) returns (o: Outcome)
      modifies this`sent, this`log, this`deviceStatusCode
      ensures sent == old(sent) + [Request("ASTS", "")]
      ensures Screen(reply, "ASTS").Stop? ==>
        o == Screen(reply, "ASTS").outcome && log == old(log) && deviceStatusCode == old(deviceStatusCode)
      ensures Screen(reply, "ASTS").Go? ==>
        var parts := Screen(reply, "ASTS").parts;
        && deviceStatusCode == Some(StatusCode(parts))
        && log == old(log) + PublishIf("ASTS", StatusRecord(parts))
        && o == Finish(StatusRecord(parts), Returned(Some(true), Some(StatusLabel(StatusCode(parts)))))
    {
      var s := Exchange("ASTS", "", reply);
      if s.Stop? { return s.outcome; }
      deviceStatusCode := Some(StatusCode(s.parts));
      var r := StatusRecord(s.parts);
      Publish("ASTS", r);
      o := Finish(r, Returned(Some(true), Some(StatusLabel(StatusCode(s.parts)))));
    }

    /** AERR: `errors = parts[2:]`, then the five error slots. */
    method RequestActiveErrors(reply: string) returns (o: Outcome)
      modifies this`sent, this`log, this`errors
      ensures sent == old(sent) + [Request("AERR", "")]
      ensures Screen(reply, "AERR").Stop? ==>
        o == Screen(reply, "AERR").outcome && log == old(log) && errors == old(errors)
      ensures Screen(reply, "AERR").Go? ==>
        var parts := Screen(reply, "AERR").parts;
        && errors == Some(From(parts, 2))
        && log == old(log) + PublishIf("AERR", ActiveErrorsRecord(parts))
        && o == Finish(ActiveErrorsRecord(parts), Returned(Some(true), None))
    {
      var s := Exchange("AERR", "", reply);
      if s.Stop? { return s.outcome; }
      errors := Some(From(s.parts, 2));
      var r := ActiveErrorsRecord(s.parts);
      Publish("AERR", r);
      o := Finish(r, Returned(Some(true), None));
    }

    /**
     * ATSK: `errors = parts[2:]`, then the id/name pairs; an odd token count raises in
     * the pairing loop, after the whole pairs were stored.
     */
    method RequestTaskList(reply: string) returns (o: Outcome)
      modifies this`sent, this`log, this`errors, this`taskIds, this`taskNames
      ensures sent == old(sent) + [Request("ATSK", "")]
      ensures Screen(reply, "ATSK").Stop? ==>
        && o == Screen(reply, "ATSK").outcome && log == old(log)
        && errors == old(errors) && taskIds == old(taskIds) && taskNames == old(taskNames)
      ensures Screen(reply, "ATSK").Go? ==>
        var parts := Screen(reply, "ATSK").parts;
        var r := TaskListRecord(parts[1], TaskIds(parts), TaskNames(parts));
        && errors == Some(From(parts, 2))
        && taskIds == Some(TaskIds(parts)) && taskNames == Some(TaskNames(parts))
        && (|parts| % 2 == 1 ==> o == Raised && log == old(log))
        && (|parts| % 2 == 0 ==> log == old(log) + PublishIf("ATSK", r) && o == Finish(r, Returned(Some(true), None)))
    {
      var s := Exchange("ATSK", "", reply);
      if s.Stop? { return s.outcome; }
      errors := Some(From(s.parts, 2));
      var ids, names, complete := PairTasks(s.parts);
      taskIds, taskNames := Some(ids), Some(names);
      if !complete { return Raised; }
      var r := TaskListRecord(s.parts[1], ids, names);
      Publish("ATSK", r);
      o := Finish(r, Returned(Some(true), None));
    }

    /** AMST: the measurement status code and its label. */
    method RequestMeasurementStatus(reply: string) returns (o: Outcome)
      modifies this`sent, this`log, this`measurementStatusCode, this`measurementStatus
      ensures sent == old(sent) + [Request("AMST", "")]
      ensures Screen(reply, "AMST").Stop? ==>
        && o == Screen(reply, "AMST").outcome && log == old(log)
        && measurementStatusCode == old(measurementStatusCode) && measurementStatus == old(measurementStatus)
      ensures Screen(reply, "AMST").Go? ==>
        var parts := Screen(reply, "AMST").parts;
        var text := MeasurementStatusLabel(MeasurementStatusCode(parts));
        && measurementStatusCode == Some(MeasurementStatusCode(parts)) && measurementStatus == Some(text)
        && log == old(log) + PublishIf("AMST", MeasurementStatusRecord(parts))
        && o == Finish(MeasurementStatusRecord(parts), Returned(Some(true), Some(text)))
    {
      var s := Exchange("AMST", "", reply);
      if s.Stop? { return s.outcome; }
      var code := MeasurementStatusCode(s.parts);
      measurementStatusCode := Some(code);
      measurementStatus := Some(MeasurementStatusLabel(code));
      var r := MeasurementStatusRecord(s.parts);
      Publish("AMST", r);
      o := Finish(r, Returned(Some(true), measurementStatus));
    }

    /** ANAM: the device name. */
    method RequestName(reply: string) returns (o: Outcome)
      modifies this`sent, this`log, this`deviceName
      ensures sent == old(sent) + [Request("ANAM", "")]
      ensures Screen(reply, "ANAM").Stop? ==>
        o == Screen(reply, "ANAM").outcome && log == old(log) && deviceName == old(deviceName)
      ensures Screen(reply, "ANAM").Go? ==>
        var parts := Screen(reply, "ANAM").parts;
        && deviceName == Some(DeviceName(parts))
        && log == old(log) + PublishIf("ANAM", NameRecord(parts))
        && o == Finish(NameRecord(parts), Returned(None, None))
    {
      var s := Exchange("ANAM", "", reply);
      if s.Stop? { return s.outcome; }
      deviceName := Some(DeviceName(s.parts));
      var r := NameRecord(s.parts);
      Publish("ANAM", r);
      o := Finish(r, Returned(None, None));
    }

    /** AITR: the iteration number, kept as text for ACON. */
    method RequestIterationNumber(reply: string) returns (o: Outcome)
      modifies this`sent, this`log, this`iterationNumber
      ensures sent == old(sent) + [Request("AITR", "")]
      ensures Screen(reply, "AITR").Stop? ==>
        o == Screen(reply, "AITR").outcome && log == old(log) && iterationNumber == old(iterationNumber)
      ensures Screen(reply, "AITR").Go? ==>
        var parts := Screen(reply, "AITR").parts;
        && iterationNumber == Some(IterationText(parts))
        && log == old(log) + PublishIf("AITR", IterationRecord(parts))
        && o == Finish(IterationRecord(parts), Returned(None, None))
    {
      var s := Exchange("AITR", "", reply);
      if s.Stop? { return s.outcome; }
      iterationNumber := Some(IterationText(s.parts));
      var r := IterationRecord(s.parts);
      Publish("AITR", r);
      o := Finish(r, Returned(None, None));
    }

    /**
     * ANET: the four settings are assigned one after the other from tokens 2..5, so a
     * short reply raises after storing the ones it has.
     */
    method RequestNetworkSettings(reply: string) returns (o: Outcome)
      modifies this`sent, this`log, this`useDhcp, this`ipAddress, this`netmask, this`gateway
      ensures sent == old(sent) + [Request("ANET", "")]
      ensures Screen(reply, "ANET").Stop? ==>
        && o == Screen(reply, "ANET").outcome && log == old(log)
        && useDhcp == old(useDhcp) && ipAddress == old(ipAddress) && netmask == old(netmask) && gateway == old(gateway)
      ensures Screen(reply, "ANET").Go? ==>
        var parts := Screen(reply, "ANET").parts;
        && useDhcp == (if |parts| > 2 then Some(parts[2]) else old(useDhcp))
        && ipAddress == (if |parts| > 3 then Some(parts[3]) else old(ipAddress))
        && netmask == (if |parts| > 4 then Some(parts[4]) else old(netmask))
        && gateway == (if |parts| > 5 then Some(parts[5]) else old(gateway))
        && log == old(log) + PublishIf("ANET", NetworkRecord(parts, legacy))
        && o == Finish(NetworkRecord(parts, legacy), Returned(None, None))
    {
      var s := Exchange("ANET", "", reply);
      if s.Stop? { return s.outcome; }
      var parts := s.parts;
      if |parts| <= 2 { return Raised; }
      useDhcp := Some(parts[2]);
      if |parts| <= 3 { return Raised; }
      ipAddress := Some(parts[3]);
      if |parts| <= 4 { return Raised; }
      netmask := Some(parts[4]);
      if |parts| <= 5 { return Raised; }
      gateway := Some(parts[5]);
      var r := NetworkRecord(parts, legacy);
      Publish("ANET", r);
      o := Finish(r, Returned(None, None));
    }

    /** ACLK: the device clock text. */
    method RequestDateTime(reply: string) returns (o: Outcome)
      modifies this`sent, this`log, this`deviceTime
      ensures sent == old(sent) + [Request("ACLK", "")]
      ensures Screen(reply, "ACLK").Stop? ==>
        o == Screen(reply, "ACLK").outcome && log == old(log) && deviceTime == old(deviceTime)
      ensures Screen(reply, "ACLK").Go? ==>
        var parts := Screen(reply, "ACLK").parts;
        && deviceTime == Some(DeviceTimeText(parts))
        && log == old(log) + PublishIf("ACLK", DateTimeRecord(parts))
        && o == Finish(DateTimeRecord(parts), Returned(None, None))
    {
      var s := Exchange("ACLK", "", reply);
      if s.Stop? { return s.outcome; }
      deviceTime := Some(DeviceTimeText(s.parts));
      var r := DateTimeRecord(s.parts);
      Publish("ACLK", r);
      o := Finish(r, Returned(None, None));
    }

    /** AMPS: `parameters = parts[2:]`, then the five sampler slots. */
    method RequestSamplerParameters(reply: string) returns (o: Outcome)
      modifies this`sent, this`log, this`samplerParameters
      ensures sent == old(sent) + [Request("AMPS", "")]
      ensures Screen(reply, "AMPS").Stop? ==>
        o == Screen(reply, "AMPS").outcome && log == old(log) && samplerParameters == old(samplerParameters)
      ensures Screen(reply, "AMPS").Go? ==>
        var parts := Screen(reply, "AMPS").parts;
        && samplerParameters == Some(From(parts, 2))
        && log == old(log) + PublishIf("AMPS", SamplerRecord(parts))
        && o == Finish(SamplerRecord(parts), Returned(None, None))
    {
      var s := Exchange("AMPS", "", reply);
      if s.Stop? { return s.outcome; }
      samplerParameters := Some(From(s.parts, 2));
      var r := SamplerRecord(s.parts);
      Publish("AMPS", r);
      o := Finish(r, Returned(None, None));
    }

    /**
     * ASYP: the tokens after the error status (the `b'NULL'` filter keeps them all), each
     * cleaned of its "NULL" items, then one `key = value` store per cleaned string.
     */
    method RequestSystemParameters(reply: string) returns (o: Outcome)
      modifies this`sent, this`log, this`systemParameters
      ensures sent == old(sent) + [Request("ASYP", "")]
      ensures Screen(reply, "ASYP").Stop? ==>
        o == Screen(reply, "ASYP").outcome && log == old(log) && systemParameters == old(systemParameters)
      ensures Screen(reply, "ASYP").Go? ==>
        var parts := Screen(reply, "ASYP").parts;
        var cleaned := CleanParameters(From(parts, 2));
        var r := Record(SystemParameterCells(parts[1], cleaned));
        && systemParameters == Some(cleaned)
        && log == old(log) + PublishIf("ASYP", r)
        && o == Finish(r, Returned(None, None))
    {
      var s := Exchange("ASYP", "", reply);
      if s.Stop? { return s.outcome; }
      BytesNullFilterKeepsAll(From(s.parts, 2));
      var cleaned := CleanParameters(From(s.parts, 2));
      systemParameters := Some(cleaned);
      var r := SystemParameterFields(s.parts[1], cleaned);
      Publish("ASYP", r);
      o := Finish(r, Returned(None, None));
    }

    /**
     * ATSP for `taskId` (the newer client passes `defaultTaskId`): `task_parameters =
     * parts[2:]`, then the dictionary of task parameters.
     */
    method RequestTaskParameters(taskId: string, reply: string) returns (o: Outcome)
      modifies this`sent, this`log, this`taskParameters
      ensures sent == old(sent) + [Request("ATSP", taskId)]
      ensures Screen(reply, "ATSP").Stop? ==>
        o == Screen(reply, "ATSP").outcome && log == old(log) && taskParameters == old(taskParameters)
      ensures Screen(reply, "ATSP").Go? ==>
        var parts := Screen(reply, "ATSP").parts;
        && taskParameters == Some(From(parts, 2))
        && log == old(log) + PublishIf("ATSP", TaskParametersRecord(parts, taskId, legacy))
        && o == Finish(TaskParametersRecord(parts, taskId, legacy), Returned(None, None))
    {
      var s := Exchange("ATSP", taskId, reply);
      if s.Stop? { return s.outcome; }
      taskParameters := Some(From(s.parts, 2));
      var r := TaskParametersRecord(s.parts, taskId, legacy);
      Publish("ATSP", r);
      o := Finish(r, Returned(None, None));
    }

    /**
     * ADEV: manufacturer, serial number, name and firmware version are assigned one after
     * the other from tokens 2..5 with their quotes stripped; a short reply raises after
     * storing the ones it has.
     */
    method RequestDeviceInfo(reply: string) returns (o: Outcome)
      modifies this`sent, this`log, this`manufacturer, this`serialNumber, this`deviceName, this`firmwareVersion
      ensures sent == old(sent) + [Request("ADEV", "")]
      ensures Screen(reply, "ADEV").Stop? ==>
        && o == Screen(reply, "ADEV").outcome && log == old(log)
        && manufacturer == old(manufacturer) && serialNumber == old(serialNumber)
        && deviceName == old(deviceName) && firmwareVersion == old(firmwareVersion)
      ensures Screen(reply, "ADEV").Go? ==>
        var parts := Screen(reply, "ADEV").parts;
        && manufacturer == (if |parts| > 2 then Some(Strip(parts[2], Quotes)) else old(manufacturer))
        && serialNumber == (if |parts| > 3 then Some(Strip(parts[3], Quotes)) else old(serialNumber))
        && deviceName == (if |parts| > 4 then Some(Strip(parts[4], Quotes)) else old(deviceName))
        && firmwareVersion == (if |parts| > 5 then Some(Strip(parts[5], Quotes)) else old(firmwareVersion))
        && log == old(log) + PublishIf("ADEV", DeviceInfoRecord(parts))
        && o == Finish(DeviceInfoRecord(parts), Returned(None, None))
    {
      var s := Exchange("ADEV", "", reply);
      if s.Stop? { return s.outcome; }
      var parts := s.parts;
      if |parts| <= 2 { return Raised; }
      manufacturer := Some(Strip(parts[2], Quotes));
      if |parts| <= 3 { return Raised; }
      serialNumber := Some(Strip(parts[3], Quotes));
      if |parts| <= 4 { return Raised; }
      deviceName := Some(Strip(parts[4], Quotes));
      if |parts| <= 5 { return Raised; }
      firmwareVersion := Some(Strip(parts[5], Quotes));
      var r := DeviceInfoRecord(parts);
      Publish("ADEV", r);
      o := Finish(r, Returned(None, None));
    }

    /** STST: publishes the error status; the message says "Success" exactly for status "0". */
    method StartSelfTest(reply: string) returns (o: Outcome)
      modifies this`sent, this`log
      ensures sent == old(sent) + [Request("STST", "")]
      ensures Screen(reply, "STST").Stop? ==> o == Screen(reply, "STST").outcome && log == old(log)
      ensures Screen(reply, "STST").Go? ==>
        var parts := Screen(reply, "STST").parts;
        && log == old(log) + PublishIf("STST", ErrorStatusRecord(parts[1]))
        && o == Finish(ErrorStatusRecord(parts[1]), Returned(None, Some(if parts[1] == "0" then "Success" else "Error")))
    {
      var s := Exchange("STST", "", reply);
      if s.Stop? { return s.outcome; }
      var r := ErrorStatusRecord(s.parts[1]);
      Publish("STST", r);
      o := Finish(r, Returned(None, Some(if s.parts[1] == "0" then "Success" else "Error")));
    }

    /**
     * ASTR: `self_test_result = parts[2]` (raising when there is none), the dictionary,
     * then the verdict, which falls off the end for a status other than "0" or an
     * unlisted result.
     */
    method RequestSelfTestResult(reply: string) returns (o: Outcome)
      modifies this`sent, this`log, this`selfTestResult
      ensures sent == old(sent) + [Request("ASTR", "")]
      ensures Screen(reply, "ASTR").Stop? ==>
        o == Screen(reply, "ASTR").outcome && log == old(log) && selfTestResult == old(selfTestResult)
      ensures Screen(reply, "ASTR").Go? ==>
        var parts := Screen(reply, "ASTR").parts;
        && (|parts| == 2 ==> o == Raised && log == old(log) && selfTestResult == old(selfTestResult))
        && (|parts| > 2 ==>
             var v := SelfTestVerdict(parts[1], parts[2]);
             && selfTestResult == Some(parts[2])
             && log == old(log) + PublishIf("ASTR", SelfTestRecord(parts))
             && o == Finish(SelfTestRecord(parts), if v.Some? then Returned(v, None) else NoResult))
    {
      var s := Exchange("ASTR", "", reply);
      if s.Stop? { return s.outcome; }
      if |s.parts| <= 2 { return Raised; }
      selfTestResult := Some(s.parts[2]);
      var r := SelfTestRecord(s.parts);
      Publish("ASTR", r);
      var v := SelfTestVerdict(s.parts[1], s.parts[2]);
      o := Finish(r, if v.Some? then Returned(v, None) else NoResult);
    }

    /** STPM: publishes the error status. */
    method StopMeasurement(reply: string) returns (o: Outcome)
      modifies this`sent, this`log
      ensures sent == old(sent) + [Request("STPM", "")]
      ensures Screen(reply, "STPM").Stop? ==> o == Screen(reply, "STPM").outcome && log == old(log)
      ensures Screen(reply, "STPM").Go? ==>
        var parts := Screen(reply, "STPM").parts;
        && log == old(log) + PublishIf("STPM", ErrorStatusRecord(parts[1]))
        && o == Finish(ErrorStatusRecord(parts[1]), Returned(None, None))
    {
      var s := Exchange("STPM", "", reply);
      if s.Stop? { return s.outcome; }
      var r := ErrorStatusRecord(s.parts[1]);
      Publish("STPM", r);
      o := Finish(r, Returned(None, None));
    }

    /** STAM for `taskId` (the newer client passes `defaultTaskId`): publishes the error status. */
    method StartMeasurement(taskId: string, reply: string) returns (o: Outcome)
      modifies this`sent, this`log
      ensures sent == old(sent) + [Request("STAM", taskId)]
      ensures Screen(reply, "STAM").Stop? ==> o == Screen(reply, "STAM").outcome && log == old(log)
      ensures Screen(reply, "STAM").Go? ==>
        var parts := Screen(reply, "STAM").parts;
        && log == old(log) + PublishIf("STAM", ErrorStatusRecord(parts[1]))
        && o == Finish(ErrorStatusRecord(parts[1]), Returned(None, None))
    {
      var s := Exchange("STAM", taskId, reply);
      if s.Stop? { return s.outcome; }
      var r := ErrorStatusRecord(s.parts[1]);
      Publish("STAM", r);
      o := Finish(r, Returned(None, None));
    }

    /**
     * The ACON exchange of the newer client once `request_iteration_number` has run: the
     * effect `AconEffect` describes, with the iteration number and clocks as they stand.
     */
    method ReadConcentrations(reply: string, now: int) returns (o: Outcome)
      requires !legacy
      modifies this`sent, this`log, this`timeStamp, this`measurements, this`prevTimeStamp
      ensures sent == old(sent) + [Request("ACON", "")]
      ensures AconEffect(reply, iterationNumber, now, startUpTime, dailyCheckTime, periodicCheckTime,
        AconState(old(timeStamp), old(measurements), old(prevTimeStamp), old(log)), o,
        AconState(timeStamp, measurements, prevTimeStamp, log))
    {
      sent := sent + [Request("ACON", "")];
      var s := ScreenConcentrations(reply);
      if s.Stop? { return s.outcome; }
      o := StoreConcentrations(s.parts, AconTail(iterationNumber, now, startUpTime, dailyCheckTime, periodicCheckTime));
    }

    /**
     * The ACON steps of the newer client once the reply passed the screen: the device time
     * and error status conversions, the readings loop, the `tail` cells, then the
     * freshness gate.
     */
    method StoreConcentrations(parts: seq<string>, tail: seq<Cell>) returns (o: Outcome)
      requires !legacy && |parts| == 17
      modifies this`log, this`timeStamp, this`measurements, this`prevTimeStamp
      ensures AconPartsEffect(parts, tail, AconState(old(timeStamp), old(measurements), old(prevTimeStamp), old(log)), o,
        AconState(timeStamp, measurements, prevTimeStamp, log))
    {
      if !IsDeviceTime(parts[2]) { return Raised; }
      var ts := IntOf(parts[2]);
      timeStamp := Some(ts);
      if !IsIntText(parts[1]) { return Raised; }
      var r, ms := ConcentrationFields(parts, false, tail);
      measurements := Some(ms);
      if r.None? { return Raised; }
      if ts > prevTimeStamp {
        log := log + [Publication(AconSensor, r.value)];
        prevTimeStamp := ts;
      }
      o := Returned(None, Some(Join(ReadingLines(ms), "\n")));
    }

    /**
     * `request_last_measurement_results` of the newer client: AITR first, whose
     * exception ends the method before ACON is sent, then the ACON exchange.
     */
    method RequestLastMeasurementResults(aitrReply: string, aconReply: string, now: int) returns (o: Outcome)
      requires !legacy
      modifies this`sent, this`log, this`iterationNumber, this`timeStamp, this`measurements, this`prevTimeStamp
      ensures
        var a := Screen(aitrReply, "AITR");
        var published := if a.Go? then PublishIf("AITR", IterationRecord(a.parts)) else [];
        var raised := a == Stop(Raised) || (a.Go? && IterationRecord(a.parts).None?);
        && iterationNumber == (if a.Go? then Some(IterationText(a.parts)) else old(iterationNumber))
        && (raised ==>
             && o == Raised && sent == old(sent) + [Request("AITR", "")] && log == old(log) + published
             && timeStamp == old(timeStamp) && measurements == old(measurements) && prevTimeStamp == old(prevTimeStamp))
        && (!raised ==>
             && sent == old(sent) + [Request("AITR", ""), Request("ACON", "")]
             && AconEffect(aconReply, iterationNumber, now, startUpTime, dailyCheckTime, periodicCheckTime,
                  AconState(old(timeStamp), old(measurements), old(prevTimeStamp), old(log) + published), o,
                  AconState(timeStamp, measurements, prevTimeStamp, log)))
    {
      var first := RequestIterationNumber(aitrReply);
      if first == Raised { return Raised; }
      ghost var a := Screen(aitrReply, "AITR");
      ghost var before := AconState(timeStamp, measurements, prevTimeStamp, log);
      assert before == AconState(old(timeStamp), old(measurements), old(prevTimeStamp),
        old(log) + if a.Go? then PublishIf("AITR", IterationRecord(a.parts)) else []);
      o := ReadConcentrations(aconReply, now);
    }

    /**
     * The legacy ACON exchange: the same screen, conversions and loop, with the legacy
     * CAS table; it neither keeps the device timestamp nor publishes.
     */
    method RequestLegacyConcentrations(reply: string) returns (o: Outcome)
      requires legacy
      modifies this`sent, this`measurements
      ensures sent == old(sent) + [Request("ACON", "")]
      ensures ScreenConcentrations(reply).Stop? ==>
        o == ScreenConcentrations(reply).outcome && measurements == old(measurements)
      ensures ScreenConcentrations(reply).Go? ==>
        var parts := ScreenConcentrations(reply).parts;
        var all := Readings(parts, true);
        && (!IsDeviceTime(parts[2]) || !IsIntText(parts[1]) ==> o == Raised && measurements == old(measurements))
        && (IsDeviceTime(parts[2]) && IsIntText(parts[1]) ==>
             && measurements == Some(all[..ReadingsAppended(parts, true)])
             && o == Finish(Record(AconCells(parts, true, [])), Returned(None, Some(Join(ReadingLines(all), "\n")))))
    {
      sent := sent + [Request("ACON", "")];
      var s := ScreenConcentrations(reply);
      if s.Stop? { return s.outcome; }
      var parts := s.parts;
      if !IsDeviceTime(parts[2]) || !IsIntText(parts[1]) { return Raised; }
      var d, ms := ConcentrationFields(parts, true, []);
      measurements := Some(ms);
      o := Finish(d, Returned(None, Some(Join(ReadingLines(ms), "\n"))));
    }

    /**
     * Send command `c` of the newer client, as a running sequence does, and take
     * its reply. The dispatch is split in four groups of four commands only to keep
     * each proof small.
     */
    method Perform(c: Command, reply: string) returns (o: Outcome)
      requires !legacy
      modifies this`sent, this`log, this`deviceStatusCode, this`errors, this`taskIds, this`taskNames
      modifies this`measurementStatusCode, this`measurementStatus, this`deviceName, this`iterationNumber
      modifies this`useDhcp, this`ipAddress, this`netmask, this`gateway, this`deviceTime
      modifies this`samplerParameters, this`systemParameters, this`taskParameters
      modifies this`manufacturer, this`serialNumber, this`firmwareVersion, this`selfTestResult
      ensures sent == old(sent) + [CommandRequest(c, defaultTaskId)]
    {
      match c
      case STPM | ASTS | AERR | ATSK => o := PerformA(c, reply);
      case AMST | ANAM | AITR | ANET => o := PerformB(c, reply);
      case ACLK | AMPS | ASYP | ATSP => o := PerformC(c, reply);
      case ADEV | STST | ASTR | STAM => o := PerformD(c, reply);
    }

    method PerformA(c: Command, reply: string) returns (o: Outcome)
      requires !legacy && (c.STPM? || c.ASTS? || c.AERR? || c.ATSK?)
      modifies this`sent, this`log, this`deviceStatusCode, this`errors, this`taskIds, this`taskNames
      modifies this`measurementStatusCode, this`measurementStatus, this`deviceName, this`iterationNumber
      modifies this`useDhcp, this`ipAddress, this`netmask, this`gateway, this`deviceTime
      modifies this`samplerParameters, this`systemParameters, this`taskParameters
      modifies this`manufacturer, this`serialNumber, this`firmwareVersion, this`selfTestResult
      ensures sent == old(sent) + [CommandRequest(c, defaultTaskId)]
    {
      if c.STPM? { o := StopMeasurement(reply); }
      else if c.ASTS? { o := RequestStatus(reply); }
      else if c.AERR? { o := RequestActiveErrors(reply); }
      else { o := RequestTaskList(reply); }
    }

    method PerformB(c: Command, reply: string) returns (o: Outcome)
      requires !legacy && (c.AMST? || c.ANAM? || c.AITR? || c.ANET?)
      modifies this`sent, this`log, this`deviceStatusCode, this`errors, this`taskIds, this`taskNames
      modifies this`measurementStatusCode, this`measurementStatus, this`deviceName, this`iterationNumber
      modifies this`useDhcp, this`ipAddress, this`netmask, this`gateway, this`deviceTime
      modifies this`samplerParameters, this`systemParameters, this`taskParameters
      modifies this`manufacturer, this`serialNumber, this`firmwareVersion, this`selfTestResult
      ensures sent == old(sent) + [CommandRequest(c, defaultTaskId)]
    {
      if c.AMST? { o := RequestMeasurementStatus(reply); }
      else if c.ANAM? { o := RequestName(reply); }
      else if c.AITR? { o := RequestIterationNumber(reply); }
      else { o := RequestNetworkSettings(reply); }
    }

    method PerformC(c: Command, reply: string) returns (o: Outcome)
      requires !legacy && (c.ACLK? || c.AMPS? || c.ASYP? || c.ATSP?)
      modifies this`sent, this`log, this`deviceStatusCode, this`errors, this`taskIds, this`taskNames
      modifies this`measurementStatusCode, this`measurementStatus, this`deviceName, this`iterationNumber
      modifies this`useDhcp, this`ipAddress, this`netmask, this`gateway, this`deviceTime
      modifies this`samplerParameters, this`systemParameters, this`taskParameters
      modifies this`manufacturer, this`serialNumber, this`firmwareVersion, this`selfTestResult
      ensures sent == old(sent) + [CommandRequest(c, defaultTaskId)]
    {
      if c.ACLK? { o := RequestDateTime(reply); }
      else if c.AMPS? { o := RequestSamplerParameters(reply); }
      else if c.ASYP? { o := RequestSystemParameters(reply); }
      else { o := RequestTaskParameters(defaultTaskId, reply); }
    }

    method PerformD(c: Command, reply: string) returns (o: Outcome)
      requires !legacy && (c.ADEV? || c.STST? || c.ASTR? || c.STAM?)
      modifies this`sent, this`log, this`deviceStatusCode, this`errors, this`taskIds, this`taskNames
      modifies this`measurementStatusCode, this`measurementStatus, this`deviceName, this`iterationNumber
      modifies this`useDhcp, this`ipAddress, this`netmask, this`gateway, this`deviceTime
      modifies this`samplerParameters, this`systemParameters, this`taskParameters
      modifies this`manufacturer, this`serialNumber, this`firmwareVersion, this`selfTestResult
      ensures sent == old(sent) + [CommandRequest(c, defaultTaskId)]
    {
      if c.ADEV? { o := RequestDeviceInfo(reply); }
      else if c.STST? { o := StartSelfTest(reply); }
      else if c.ASTR? { o := RequestSelfTestResult(reply); }
      else { o := StartMeasurement(defaultTaskId, reply); }
    }

    /**
     * Send the commands `cs` one after another, each with its reply. An exception in
     * one of them ends the run, so the requests sent are a prefix of `cs` that ends
     * at the first `Raised`, or all of them.
     */
    method RunCommands(cs: seq<Command>, replies: seq<string>) returns (outcomes: seq<Outcome>)
      requires !legacy && 0 < |cs| == |replies|
      modifies this`sent, this`log, this`deviceStatusCode, this`errors, this`taskIds, this`taskNames
      modifies this`measurementStatusCode, this`measurementStatus, this`deviceName, this`iterationNumber
      modifies this`useDhcp, this`ipAddress, this`netmask, this`gateway, this`deviceTime
      modifies this`samplerParameters, this`systemParameters, this`taskParameters
      modifies this`manufacturer, this`serialNumber, this`firmwareVersion, this`selfTestResult
      ensures 1 <= |outcomes| <= |cs|
      ensures sent == old(sent) + Requests(cs, defaultTaskId)[..|outcomes|]
      ensures forall k :: 0 <= k < |outcomes| - 1 ==> outcomes[k] != Raised
      ensures |outcomes| < |cs| ==> outcomes[|outcomes| - 1] == Raised
    {
      ghost var rs := Requests(cs, defaultTaskId);
      outcomes := [];
      var i := 0;
      while i < |cs|
        invariant i <= |cs| && |outcomes| == i
        invariant sent == old(sent) + rs[..i]
        invariant forall k :: 0 <= k < i ==> outcomes[k] != Raised
      {
        var o := Perform(cs[i], replies[i]);
        TakeNext(rs, i);
        outcomes := outcomes + [o];
        if o == Raised { return; }
        i := i + 1;
      }
    }

    /** `startUpSequece`: the sixteen start-up requests, until one raises. */
    method StartUpSequence(replies: seq<string>) returns (outcomes: seq<Outcome>)
      requires !legacy && |replies| == |StartUpCommands|
      modifies this`sent, this`log, this`deviceStatusCode, this`errors, this`taskIds, this`taskNames
      modifies this`measurementStatusCode, this`measurementStatus, this`deviceName, this`iterationNumber
      modifies this`useDhcp, this`ipAddress, this`netmask, this`gateway, this`deviceTime
      modifies this`samplerParameters, this`systemParameters, this`taskParameters
      modifies this`manufacturer, this`serialNumber, this`firmwareVersion, this`selfTestResult
      ensures 1 <= |outcomes| <= |StartUpCommands|
      ensures sent == old(sent) + Requests(StartUpCommands, defaultTaskId)[..|outcomes|]
      ensures forall k :: 0 <= k < |outcomes| - 1 ==> outcomes[k] != Raised
      ensures |outcomes| < |StartUpCommands| ==> outcomes[|outcomes| - 1] == Raised
    {
      outcomes := RunCommands(StartUpCommands, replies);
    }

    /**
     * `periodicCheck` at host time `now`: `periodicCheckTime` first, then AMST, ANET
     * and ACLK until one raises.
     */
    method PeriodicCheck(now: int, replies: seq<string>) returns (outcomes: seq<Outcome>)
      requires !legacy && |replies| == |PeriodicCommands|
      modifies this`sent, this`log, this`deviceStatusCode, this`errors, this`taskIds, this`taskNames
      modifies this`measurementStatusCode, this`measurementStatus, this`deviceName, this`iterationNumber
      modifies this`useDhcp, this`ipAddress, this`netmask, this`gateway, this`deviceTime
      modifies this`samplerParameters, this`systemParameters, this`taskParameters
      modifies this`manufacturer, this`serialNumber, this`firmwareVersion, this`selfTestResult
      modifies this`periodicCheckTime
      ensures 1 <= |outcomes| <= |PeriodicCommands|
      ensures sent == old(sent) + Requests(PeriodicCommands, defaultTaskId)[..|outcomes|]
      ensures forall k :: 0 <= k < |outcomes| - 1 ==> outcomes[k] != Raised
      ensures |outcomes| < |PeriodicCommands| ==> outcomes[|outcomes| - 1] == Raised
      ensures periodicCheckTime == now
    {
      periodicCheckTime := now;
      outcomes := RunCommands(PeriodicCommands, replies);
    }

    /**
     * `dailyCheck` at host time `now`: `dailyCheckTime` first, then STPM, STST, ASTR
     * and STAM until one raises.
     */
    method DailyCheck(now: int, replies: seq<string>) returns (outcomes: seq<Outcome>)
      requires !legacy && |replies| == |DailyCommands|
      modifies this`sent, this`log, this`deviceStatusCode, this`errors, this`taskIds, this`taskNames
      modifies this`measurementStatusCode, this`measurementStatus, this`deviceName, this`iterationNumber
      modifies this`useDhcp, this`ipAddress, this`netmask, this`gateway, this`deviceTime
      modifies this`samplerParameters, this`systemParameters, this`taskParameters
      modifies this`manufacturer, this`serialNumber, this`firmwareVersion, this`selfTestResult
      modifies this`dailyCheckTime
      ensures 1 <= |outcomes| <= |DailyCommands|
      ensures sent == old(sent) + Requests(DailyCommands, defaultTaskId)[..|outcomes|]
      ensures forall k :: 0 <= k < |outcomes| - 1 ==> outcomes[k] != Raised
      ensures |outcomes| < |DailyCommands| ==> outcomes[|outcomes| - 1] == Raised
      ensures dailyCheckTime == now
    {
      dailyCheckTime := now;
      outcomes := RunCommands(DailyCommands, replies);
    }
  }
}
