/**
 * The reply handling both Gasera One clients share: the screen each request
 * method applies to a reply, the positional fields with their defaults, the
 * sensor dictionaries built from them, and the three decode loops (task list,
 * system parameters, concentrations).
 */
module AkDecode {
  import opened Wrappers
  import opened PyText
  import opened Records
  import opened AkCodec
  import opened AkTables

  /** What a request method hands back to its caller. */
  datatype Outcome =
    | NoResult                                          // the method ends without `return`: Python's None
    | WrongEcho                                         // (False, "Invalid Command Output")
    | Raised                                            // an exception escapes the method
    | Returned(verdict: Option<bool>, detail: Option<string>)
      // a `(flag, message)` pair when `verdict` is present, a bare message otherwise;
      // `detail` is the looked-up label or decision the message carries

  /** The screen a request method applies before decoding. */
  datatype Screened = Stop(outcome: Outcome) | Go(parts: seq<string>)

  /**
   * `valid, parts = clean_ak_response(reply)`, then `parts[0] == command`, then
   * `error_status = parts[1]`: an unframed reply ends the method without a result,
   * an empty token list or a lone mnemonic raises `IndexError`, another mnemonic
   * is reported as invalid output.
   */
  function Screen(reply: string, command: string): (s: Screened)
    ensures s.Go? ==> |s.parts| >= 2 && s.parts[0] == command
  {
    match CleanAkResponse(reply)
    case None => Stop(NoResult)
    case Some(parts) =>
      if parts == [] then Stop(Raised)
      else if parts[0] != command then Stop(WrongEcho)
      else if |parts| < 2 then Stop(Raised)
      else Go(parts)
  }

  /** The ACON screen: `parts[0] == command and len(parts) == 17`. */
  function ScreenConcentrations(reply: string): (s: Screened)
    ensures s.Go? ==> |s.parts| == 17 && s.parts[0] == "ACON"
  {
    match CleanAkResponse(reply)
    case None => Stop(NoResult)
    case Some(parts) =>
      if parts == [] then Stop(Raised)
      else if parts[0] == "ACON" && |parts| == 17 then Go(parts)
      else Stop(WrongEcho)
  }

  /**
   * The screen passes exactly a framed reply whose tokens are the mnemonic and at least one
   * more; an unframed reply gives no result; a framed reply that starts with another
   * mnemonic is invalid output; anything else raises.
   */
  lemma ScreenCases(reply: string, command: string)
    ensures var s := Screen(reply, command);
      && (s == Stop(NoResult) <==> !IsFramed(reply))
      && (s == Stop(WrongEcho) <==>
            IsFramed(reply) && |CleanAkResponse(reply).value| >= 1 && CleanAkResponse(reply).value[0] != command)
      && (s.Go? <==>
            IsFramed(reply) && |CleanAkResponse(reply).value| >= 2 && CleanAkResponse(reply).value[0] == command)
      && (s.Go? ==> s.parts == CleanAkResponse(reply).value)
      && (s.Stop? ==> s.outcome in {NoResult, WrongEcho, Raised})
  {
  }

  /**
   * The ACON screen passes exactly a framed 17-token reply led by "ACON"; an unframed
   * reply gives no result, an empty one raises, and any other is invalid output.
   */
  lemma ScreenConcentrationsCases(reply: string)
    ensures var s := ScreenConcentrations(reply);
      && (s == Stop(NoResult) <==> !IsFramed(reply))
      && (s == Stop(Raised) <==> IsFramed(reply) && CleanAkResponse(reply).value == [])
      && (s.Go? <==>
            IsFramed(reply) && |CleanAkResponse(reply).value| == 17 && CleanAkResponse(reply).value[0] == "ACON")
      && (s.Go? ==> s.parts == CleanAkResponse(reply).value)
      && (s.Stop? ==> s.outcome in {NoResult, WrongEcho, Raised})
  {
  }

  /** `parts[k] if len(parts) > k else default`. */
  function Slot(parts: seq<string>, k: nat, default: string): (t: string)
    ensures k < |parts| ==> t == parts[k]
    ensures |parts| <= k ==> t == default
  {
    if k < |parts| then parts[k] else default
  }

  /** `parts[k:]`, which is empty past the end. */
  function From(parts: seq<string>, k: nat): (r: seq<string>)
    ensures |r| == if k < |parts| then |parts| - k else 0
    ensures forall i :: 0 <= i < |r| ==> r[i] == parts[k + i]
  {
    if k < |parts| then parts[k..] else []
  }

  // ---------------------------------------------------------------------------
  // Sensor dictionaries

  /** The entry every dictionary starts with: the host time, formatted. */
  const Stamp: Entry := ("dateTime", HostClock)

  const ErrorStatusKeys: seq<string> := ["dateTime", "errorStatus"]

  /** STST, STPM and STAM publish only the host time and `int(error_status)`. */
  function ErrorStatusRecord(errorStatus: string): (r: Option<Fields>)
    ensures r.Some? <==> IsIntText(errorStatus)
    ensures r.Some? ==> r.value == [Stamp, ("errorStatus", Int(IntOf(errorStatus)))]
  {
    Display2(ErrorStatusKeys, Some(HostClock), IntValue(errorStatus));
    Record(Display(ErrorStatusKeys, [Some(HostClock), IntValue(errorStatus)]))
  }

  /** `device_status_code` (ASTS): the third token, "-1" when the reply has none. */
  function StatusCode(parts: seq<string>): string { Slot(parts, 2, "-1") }

  const StatusKeys: seq<string> := ["dateTime", "errorStatus", "deviceStatus"]

  /** ASTS: the error status and the device status code, both as integers. */
  function StatusRecord(parts: seq<string>): (r: Option<Fields>)
    requires |parts| >= 2
    ensures r.Some? <==> IsIntText(parts[1]) && IsIntText(StatusCode(parts))
    ensures r.Some? ==> r.value == [
      Stamp, ("errorStatus", Int(IntOf(parts[1]))), ("deviceStatus", Int(IntOf(StatusCode(parts))))]
  {
    var a, b, c := Some(HostClock), IntValue(parts[1]), IntValue(StatusCode(parts));
    Display3(StatusKeys, a, b, c);
    Record(Display(StatusKeys, [a, b, c]))
  }

  /** A reply without a status code is published as status -1, which has the fallback label. */
  lemma MissingStatusIsMinusOne(errorStatus: string)
    requires IsIntText(errorStatus)
    ensures StatusRecord(["ASTS", errorStatus]).Some?
    ensures StatusRecord(["ASTS", errorStatus]).value[2] == ("deviceStatus", Int(-1))
    ensures StatusLabel(StatusCode(["ASTS", errorStatus])) == UnknownStatus
  {
    assert StatusCode(["ASTS", errorStatus]) == "-1";
    assert IntText(-1) == "-1";
    IntTextRoundTrip(-1);
    MissingCodesAreUnknown();
  }

  /** `errors0` .. `errors4` (AERR): the error-code slots, "0" when the reply has fewer. */
  function ErrorText(parts: seq<string>, i: nat): string { Slot(parts, 2 + i, "0") }

  const ActiveErrorKeys: seq<string> :=
    ["dateTime", "errorStatus", "activeError0", "activeError1", "activeError2", "activeError3", "activeError4"]

  lemma ActiveErrorKeysDistinct()
    ensures Distinct(ActiveErrorKeys)
  {
  }

  /** AERR: the error status and five active-error codes, all as integers. */
  function ActiveErrorsRecord(parts: seq<string>): (r: Option<Fields>)
    requires |parts| >= 2
    ensures r.Some? <==>
      && IsIntText(parts[1]) && IsIntText(ErrorText(parts, 0)) && IsIntText(ErrorText(parts, 1))
      && IsIntText(ErrorText(parts, 2)) && IsIntText(ErrorText(parts, 3)) && IsIntText(ErrorText(parts, 4))
    ensures r.Some? ==> r.value == [
      Stamp, ("errorStatus", Int(IntOf(parts[1]))),
      ("activeError0", Int(IntOf(ErrorText(parts, 0)))), ("activeError1", Int(IntOf(ErrorText(parts, 1)))),
      ("activeError2", Int(IntOf(ErrorText(parts, 2)))), ("activeError3", Int(IntOf(ErrorText(parts, 3)))),
      ("activeError4", Int(IntOf(ErrorText(parts, 4))))]
  {
    var a, b := Some(HostClock), IntValue(parts[1]);
    var c, d, e := IntValue(ErrorText(parts, 0)), IntValue(ErrorText(parts, 1)), IntValue(ErrorText(parts, 2));
    var f, g := IntValue(ErrorText(parts, 3)), IntValue(ErrorText(parts, 4));
    ActiveErrorKeysDistinct();
    Display7(ActiveErrorKeys, a, b, c, d, e, f, g);
    Record(Display(ActiveErrorKeys, [a, b, c, d, e, f, g]))
  }

  /** Error slots the reply does not fill read "0", which parses. */
  lemma MissingErrorSlotsAreZero(parts: seq<string>, i: nat)
    requires |parts| <= 2 + i
    ensures ErrorText(parts, i) == "0" && IsIntText(ErrorText(parts, i)) && IntOf(ErrorText(parts, i)) == 0
  {
    assert IntText(0) == "0";
    IntTextRoundTrip(0);
  }

  /** `measurement_status_code` (AMST): the third token, "-1" when the reply has none. */
  function MeasurementStatusCode(parts: seq<string>): string { Slot(parts, 2, "-1") }

  const MeasurementStatusKeys: seq<string> := ["dateTime", "errorStatus", "measurementStatusCode"]

  /** AMST: the error status and the measurement status code, both as integers. */
  function MeasurementStatusRecord(parts: seq<string>): (r: Option<Fields>)
    requires |parts| >= 2
    ensures r.Some? <==> IsIntText(parts[1]) && IsIntText(MeasurementStatusCode(parts))
    ensures r.Some? ==> r.value == [
      Stamp, ("errorStatus", Int(IntOf(parts[1]))),
      ("measurementStatusCode", Int(IntOf(MeasurementStatusCode(parts))))]
  {
    var a, b, c := Some(HostClock), IntValue(parts[1]), IntValue(MeasurementStatusCode(parts));
    Display3(MeasurementStatusKeys, a, b, c);
    Record(Display(MeasurementStatusKeys, [a, b, c]))
  }

  /** `device_name` (ANAM): the third token, empty when the reply has none. */
  function DeviceName(parts: seq<string>): string { Slot(parts, 2, "") }

  const NameKeys: seq<string> := ["dateTime", "errorStatus", "gaseraName"]

  /** ANAM: the error status as an integer and the device name as text. */
  function NameRecord(parts: seq<string>): (r: Option<Fields>)
    requires |parts| >= 2
    ensures r.Some? <==> IsIntText(parts[1])
    ensures r.Some? ==> r.value == [Stamp, ("errorStatus", Int(IntOf(parts[1]))), ("gaseraName", Str(DeviceName(parts)))]
  {
    var a, b, c := Some(HostClock), IntValue(parts[1]), Some(Str(DeviceName(parts)));
    Display3(NameKeys, a, b, c);
    Record(Display(NameKeys, [a, b, c]))
  }

  /** `iteration_number` (AITR): the third token, "-1" when the reply has none. */
  function IterationText(parts: seq<string>): string { Slot(parts, 2, "-1") }

  const IterationKeys: seq<string> := ["dateTime", "errorStatus", "iterationNumber"]

  /** AITR: the error status and the iteration number, both as integers. */
  function IterationRecord(parts: seq<string>): (r: Option<Fields>)
    requires |parts| >= 2
    ensures r.Some? <==> IsIntText(parts[1]) && IsIntText(IterationText(parts))
    ensures r.Some? ==> r.value == [
      Stamp, ("errorStatus", Int(IntOf(parts[1]))), ("iterationNumber", Int(IntOf(IterationText(parts))))]
  {
    var a, b, c := Some(HostClock), IntValue(parts[1]), IntValue(IterationText(parts));
    Display3(IterationKeys, a, b, c);
    Record(Display(IterationKeys, [a, b, c]))
  }

  const NetworkKeys: seq<string> := ["dateTime", "errorStatus", "useDHCP", "ip", "netmask", "gateway"]

  lemma NetworkKeysDistinct()
    ensures Distinct(NetworkKeys)
  {
  }

  /**
   * ANET: tokens 2..5 are DHCP flag, address, netmask and gateway; a shorter reply raises
   * `IndexError`. The newer client publishes the flag as an integer, the legacy one as text.
   */
  function NetworkRecord(parts: seq<string>, legacy: bool): (r: Option<Fields>)
    requires |parts| >= 2
    ensures r.Some? <==> |parts| >= 6 && IsIntText(parts[1]) && (legacy || IsIntText(parts[2]))
    ensures r.Some? ==> r.value == [
      Stamp, ("errorStatus", Int(IntOf(parts[1]))),
      ("useDHCP", if legacy then Str(parts[2]) else Int(IntOf(parts[2]))),
      ("ip", Str(parts[3])), ("netmask", Str(parts[4])), ("gateway", Str(parts[5]))]
  {
    if |parts| < 6 then None
    else
      var a, b, c := Some(HostClock), IntValue(parts[1]), if legacy then Some(Str(parts[2])) else IntValue(parts[2]);
      var d, e, f := Some(Str(parts[3])), Some(Str(parts[4])), Some(Str(parts[5]));
      NetworkKeysDistinct();
      Display6(NetworkKeys, a, b, c, d, e, f);
      Record(Display(NetworkKeys, [a, b, c, d, e, f]))
  }

  /** The device clock text (ACLK): the third token, "Unknown" when the reply has none. */
  function DeviceTimeText(parts: seq<string>): string { Slot(parts, 2, "Unknown") }

  const DateTimeKeys: seq<string> := ["dateTime", "errorStatus", "gaseraDateTime"]

  /** ACLK: the error status as an integer and the device clock as text. */
  function DateTimeRecord(parts: seq<string>): (r: Option<Fields>)
    requires |parts| >= 2
    ensures r.Some? <==> IsIntText(parts[1])
    ensures r.Some? ==> r.value == [
      Stamp, ("errorStatus", Int(IntOf(parts[1]))), ("gaseraDateTime", Str(DeviceTimeText(parts)))]
  {
    var a, b, c := Some(HostClock), IntValue(parts[1]), Some(Str(DeviceTimeText(parts)));
    Display3(DateTimeKeys, a, b, c);
    Record(Display(DateTimeKeys, [a, b, c]))
  }

  /** `parameters0` .. `parameters4` (AMPS): the sampler slots, "NP" when the reply has fewer. */
  function SamplerText(parts: seq<string>, i: nat): string { Slot(parts, 2 + i, "NP") }

  const SamplerKeys: seq<string> :=
    ["dateTime", "errorStatus", "parameter0", "parameter1", "parameter2", "parameter3", "parameter4"]

  lemma SamplerKeysDistinct()
    ensures Distinct(SamplerKeys)
  {
  }

  /** AMPS: the error status as an integer and five sampler parameters as text. */
  function SamplerRecord(parts: seq<string>): (r: Option<Fields>)
    requires |parts| >= 2
    ensures r.Some? <==> IsIntText(parts[1])
    ensures r.Some? ==> r.value == [
      Stamp, ("errorStatus", Int(IntOf(parts[1]))),
      ("parameter0", Str(SamplerText(parts, 0))), ("parameter1", Str(SamplerText(parts, 1))),
      ("parameter2", Str(SamplerText(parts, 2))), ("parameter3", Str(SamplerText(parts, 3))),
      ("parameter4", Str(SamplerText(parts, 4)))]
  {
    var a, b := Some(HostClock), IntValue(parts[1]);
    var c, d, e := Some(Str(SamplerText(parts, 0))), Some(Str(SamplerText(parts, 1))), Some(Str(SamplerText(parts, 2)));
    var f, g := Some(Str(SamplerText(parts, 3))), Some(Str(SamplerText(parts, 4)));
    SamplerKeysDistinct();
    Display7(SamplerKeys, a, b, c, d, e, f, g);
    Record(Display(SamplerKeys, [a, b, c, d, e, f, g]))
  }

  /** A sampler slot the reply does not fill reads "NP". */
  lemma MissingSamplerSlotsAreNP(parts: seq<string>, i: nat)
    requires |parts| <= 2 + i
    ensures SamplerText(parts, i) == "NP"
  {
  }

  const TaskParameterKeys: seq<string> :=
    ["dateTime", "errorStatus", "taskID", "casNumbers", "targetPressure", "flushTimeBypass", "flushTimeCell", "cellFlushCycles"]

  lemma TaskParameterKeysDistinct()
    ensures Distinct(TaskParameterKeys)
  {
  }

  /**
   * ATSP for task `taskId`: the CAS list with each ',' replaced by '_', then four integer
   * settings from tokens 3..6; a reply shorter than seven tokens raises `IndexError`. The
   * newer client publishes its task id as `int(taskId)`, the legacy one as the text itself.
   */
  function TaskParametersRecord(parts: seq<string>, taskId: string, legacy: bool): (r: Option<Fields>)
    requires |parts| >= 2
    ensures r.Some? <==>
      && |parts| >= 7 && IsIntText(parts[1]) && (legacy || IsIntText(taskId))
      && IsIntText(parts[3]) && IsIntText(parts[4]) && IsIntText(parts[5]) && IsIntText(parts[6])
    ensures r.Some? ==> r.value == [
      Stamp, ("errorStatus", Int(IntOf(parts[1]))),
      ("taskID", if legacy then Str(taskId) else Int(IntOf(taskId))),
      ("casNumbers", Str(Replace(parts[2], ",", "_"))),
      ("targetPressure", Int(IntOf(parts[3]))), ("flushTimeBypass", Int(IntOf(parts[4]))),
      ("flushTimeCell", Int(IntOf(parts[5]))), ("cellFlushCycles", Int(IntOf(parts[6])))]
  {
    if |parts| < 7 then None
    else
      var a, b, c := Some(HostClock), IntValue(parts[1]), if legacy then Some(Str(taskId)) else IntValue(taskId);
      var d := Some(Str(Replace(parts[2], ",", "_")));
      var e, f, g, h := IntValue(parts[3]), IntValue(parts[4]), IntValue(parts[5]), IntValue(parts[6]);
      TaskParameterKeysDistinct();
      Display8(TaskParameterKeys, a, b, c, d, e, f, g, h);
      Record(Display(TaskParameterKeys, [a, b, c, d, e, f, g, h]))
  }

  const DeviceInfoKeys: seq<string> :=
    ["dateTime", "errorStatus", "manufacturer", "serialNumber", "deviceName", "firmwareVersion"]

  lemma DeviceInfoKeysDistinct()
    ensures Distinct(DeviceInfoKeys)
  {
  }

  /**
   * ADEV: tokens 2..5, each with its quotes stripped, are manufacturer, serial number,
   * name and firmware version; the serial number and the firmware version are integers.
   */
  function DeviceInfoRecord(parts: seq<string>): (r: Option<Fields>)
    requires |parts| >= 2
    ensures r.Some? <==>
      |parts| >= 6 && IsIntText(parts[1]) && IsIntText(Strip(parts[3], Quotes)) && IsIntText(Strip(parts[5], Quotes))
    ensures r.Some? ==> r.value == [
      Stamp, ("errorStatus", Int(IntOf(parts[1]))),
      ("manufacturer", Str(Strip(parts[2], Quotes))), ("serialNumber", Int(IntOf(Strip(parts[3], Quotes)))),
      ("deviceName", Str(Strip(parts[4], Quotes))), ("firmwareVersion", Int(IntOf(Strip(parts[5], Quotes))))]
  {
    if |parts| < 6 then None
    else
      var a, b, c := Some(HostClock), IntValue(parts[1]), Some(Str(Strip(parts[2], Quotes)));
      var d, e, f := IntValue(Strip(parts[3], Quotes)), Some(Str(Strip(parts[4], Quotes))), IntValue(Strip(parts[5], Quotes));
      DeviceInfoKeysDistinct();
      Display6(DeviceInfoKeys, a, b, c, d, e, f);
      Record(Display(DeviceInfoKeys, [a, b, c, d, e, f]))
  }

  const SelfTestKeys: seq<string> := ["dateTime", "errorStatus", "selfTestResult"]

  /** ASTR: the error status and the self-test result, both integers; no result token raises. */
  function SelfTestRecord(parts: seq<string>): (r: Option<Fields>)
    requires |parts| >= 2
    ensures r.Some? <==> |parts| >= 3 && IsIntText(parts[1]) && IsIntText(parts[2])
    ensures r.Some? ==> r.value == [
      Stamp, ("errorStatus", Int(IntOf(parts[1]))), ("selfTestResult", Int(IntOf(parts[2])))]
  {
    if |parts| < 3 then None
    else
      var a, b, c := Some(HostClock), IntValue(parts[1]), IntValue(parts[2]);
      Display3(SelfTestKeys, a, b, c);
      Record(Display(SelfTestKeys, [a, b, c]))
  }

  // ---------------------------------------------------------------------------
  // Task list (ATSK)

  /** The number of whole `(id, name)` pairs after the two leading tokens. */
  function PairCount(parts: seq<string>): nat
    requires |parts| >= 2
  {
    (|parts| - 2) / 2
  }

  function TaskIds(parts: seq<string>): (ids: seq<string>)
    requires |parts| >= 2
  {
    seq(PairCount(parts), j requires 0 <= j < PairCount(parts) => parts[2 + 2 * j])
  }

  function TaskNames(parts: seq<string>): (names: seq<string>)
    requires |parts| >= 2
  {
    seq(PairCount(parts), j requires 0 <= j < PairCount(parts) => Strip(parts[3 + 2 * j], Quotes))
  }

  /**
   * The ATSK loop `for i in range(2, len(parts), 2)`: token `i` is a task id and token
   * `i + 1`, its quotes stripped, that task's name. With an odd token count the last id
   * has no name and `parts[i + 1]` raises `IndexError` (`complete` is false); the pairs
   * appended before that stay.
   */
  method PairTasks(parts: seq<string>) returns (ids: seq<string>, names: seq<string>, complete: bool)
    requires |parts| >= 2
    ensures complete <==> |parts| % 2 == 0
    ensures ids == TaskIds(parts) && names == TaskNames(parts)
  {
    ids, names := [], [];
    var i := 2;
    while i < |parts|
      invariant 2 <= i <= |parts| && i % 2 == 0
      invariant |ids| == (i - 2) / 2 && |names| == |ids|
      invariant forall j :: 0 <= j < |ids| ==> ids[j] == parts[2 + 2 * j] && names[j] == Strip(parts[3 + 2 * j], Quotes)
    {
      var taskId := parts[i];
      if i + 1 == |parts| {
        return ids, names, false;
      }
      var taskName := Strip(parts[i + 1], Quotes);
      ids := ids + [taskId];
      names := names + [taskName];
      i := i + 2;
    }
    complete := true;
  }

  /** Tokens carrying each task as its id followed by its quoted name. */
  function TaskTokens(ids: seq<string>, names: seq<string>): (ts: seq<string>)
    requires |ids| == |names|
    ensures |ts| == 2 * |ids|
    ensures forall j :: 0 <= j < |ids| ==> ts[2 * j] == ids[j] && ts[2 * j + 1] == "\"" + names[j] + "\""
  {
    if ids == [] then []
    else [ids[0], "\"" + names[0] + "\""] + TaskTokens(ids[1..], names[1..])
  }

  /** A task list written as id, quoted-name pairs reads back as the same ids and names. */
  lemma TaskListRoundTrip(errorStatus: string, ids: seq<string>, names: seq<string>)
    requires |ids| == |names|
    requires forall j :: 0 <= j < |names| ==> names[j] != [] ==> names[j][0] != '"' && names[j][|names[j]| - 1] != '"'
    ensures TaskIds(["ATSK", errorStatus] + TaskTokens(ids, names)) == ids
    ensures TaskNames(["ATSK", errorStatus] + TaskTokens(ids, names)) == names
  {
    var parts := ["ATSK", errorStatus] + TaskTokens(ids, names);
    assert PairCount(parts) == |ids|;
    forall j | 0 <= j < |ids| ensures parts[2 + 2 * j] == ids[j] && Strip(parts[3 + 2 * j], Quotes) == names[j] {
      TaskPartsAt(errorStatus, ids, names, j);
      StripQuotesOfQuoted(names[j]);
    }
    TaskNamesAre(parts, names);
  }

  lemma TaskNamesAre(parts: seq<string>, names: seq<string>)
    requires |parts| >= 2 && PairCount(parts) == |names|
    requires forall j :: 0 <= j < |names| ==> Strip(parts[3 + 2 * j], Quotes) == names[j]
    ensures TaskNames(parts) == names
  {
  }

  lemma TaskPartsAt(errorStatus: string, ids: seq<string>, names: seq<string>, j: nat)
    requires |ids| == |names| && j < |ids|
    ensures var parts := ["ATSK", errorStatus] + TaskTokens(ids, names);
      parts[2 + 2 * j] == ids[j] && parts[3 + 2 * j] == "\"" + names[j] + "\""
  {
    var ts := TaskTokens(ids, names);
    IndexAfter(["ATSK", errorStatus], ts, 2 + 2 * j);
    IndexAfter(["ATSK", errorStatus], ts, 3 + 2 * j);
  }

  /** `taskIDj`: the j-th id as text, or the integer -1 when the list has fewer tasks. */
  function TaskIdValue(ids: seq<string>, j: nat): Value {
    if j < |ids| then Str(ids[j]) else Int(-1)
  }

  /** `taskNamej`: the j-th name, or "NT" when the list has fewer tasks. */
  function TaskNameText(names: seq<string>, j: nat): string {
    if j < |names| then names[j] else "NT"
  }

  const TaskListKeys: seq<string> := [
    "dateTime", "errorStatus", "taskID0", "taskName0", "taskID1", "taskName1",
    "taskID2", "taskName2", "taskID3", "taskName3", "taskID4", "taskName4"]

  lemma TaskListKeysDistinct()
    ensures Distinct(TaskListKeys)
  {
  }

  /** The value of slot `k` after the two leading keys: ids at even, names at odd slots. */
  function TaskSlotValue(ids: seq<string>, names: seq<string>, k: nat): Value {
    if k % 2 == 0 then TaskIdValue(ids, k / 2) else Str(TaskNameText(names, k / 2))
  }

  /**
   * ATSK: the dictionary display lists `("taskID0", ..)` and `("taskName0", ..)` twice
   * before the other four tasks; the repeated pair stores the same values again, so the
   * dictionary has twelve keys, the first five tasks' ids and names in order.
   */
  function TaskListRecord(errorStatus: string, ids: seq<string>, names: seq<string>): Option<Fields> {
    var cells := Display(TaskListKeys, TaskListValues(errorStatus, ids, names));
    Record(cells[..4] + cells[2..4] + cells[4..])
  }

  /** The values of the twelve keys: the host time, `int(error_status)`, then the slots of each task. */
  function TaskListValues(errorStatus: string, ids: seq<string>, names: seq<string>): (values: seq<Option<Value>>)
    ensures |values| == 12 && values[0] == Some(HostClock) && values[1] == IntValue(errorStatus)
    ensures forall k :: 0 <= k < 10 ==> values[2 + k] == Some(TaskSlotValue(ids, names, k))
  {
    [Some(HostClock), IntValue(errorStatus)] + seq(10, k requires 0 <= k < 10 => Some(TaskSlotValue(ids, names, k)))
  }

  /**
   * The ATSK dictionary exists exactly when the error status is integer text; it has the
   * twelve keys in order, the host time, the error status and then the five tasks' slots.
   */
  lemma TaskListDecodes(errorStatus: string, ids: seq<string>, names: seq<string>)
    ensures var r := TaskListRecord(errorStatus, ids, names);
      && (r.Some? <==> IsIntText(errorStatus))
      && (r.Some? ==> Keys(r.value) == TaskListKeys)
      && (r.Some? ==> r.value[0] == Stamp && r.value[1] == ("errorStatus", Int(IntOf(errorStatus))))
      && (r.Some? ==> forall k :: 0 <= k < 10 ==> r.value[2 + k] == (TaskListKeys[2 + k], TaskSlotValue(ids, names, k)))
  {
    var values := TaskListValues(errorStatus, ids, names);
    var cells := Display(TaskListKeys, values);
    TaskListKeysDistinct();
    DisplayRecord(TaskListKeys, values);
    assert TaskListKeys[0] == "dateTime" && TaskListKeys[1] == "errorStatus";
    assert IsIntText(errorStatus) ==> values[1] == Some(Int(IntOf(errorStatus)));
    DisplayRepeatRun(cells, 2, 4);
  }

  /**
   * What ASTR returns after publishing: with error status "0", result "-2", "-1" and "0" give
   * `False` and "1" gives `True`; any other result or error status falls off the end (`None`).
   */
  function SelfTestVerdict(errorStatus: string, result: string): (v: Option<bool>)
    ensures v.Some? <==> errorStatus == "0" && result in {"-2", "-1", "0", "1"}
    ensures v == Some(true) <==> errorStatus == "0" && result == "1"
  {
    if errorStatus != "0" then None
    else if result == "-2" || result == "-1" || result == "0" then Some(false)
    else if result == "1" then Some(true)
    else None
  }

  // ---------------------------------------------------------------------------
  // System parameters (ASYP)

  /** A token as Python holds it: text, or a bytes literal such as the one the source compares with. */
  datatype PyToken = PyStr(text: string) | PyBytes(bytes: string)

  /** `[param for param in tokens if param != b'NULL']`. */
  function DropBytesNull(tokens: seq<PyToken>): (r: seq<PyToken>)
    ensures |r| <= |tokens|
  {
    if tokens == [] then []
    else
      var rest := DropBytesNull(tokens[1..]);
      if tokens[0] != PyBytes("NULL") then [tokens[0]] + rest else rest
  }

  function AsTokens(parts: seq<string>): (r: seq<PyToken>)
    ensures |r| == |parts| && forall i :: 0 <= i < |parts| ==> r[i] == PyStr(parts[i])
  {
    seq(|parts|, i requires 0 <= i < |parts| => PyStr(parts[i]))
  }

  /** The tokens are text, never bytes, so the `b'NULL'` filter removes nothing, not even "NULL". */
  lemma {:induction false} BytesNullFilterKeepsAll(parts: seq<string>)
    ensures DropBytesNull(AsTokens(parts)) == AsTokens(parts)
  {
    if parts != [] {
      BytesNullFilterKeepsAll(parts[1..]);
      assert AsTokens(parts)[1..] == AsTokens(parts[1..]);
    }
  }

  /** `[item for item in items if item != 'NULL']`. */
  function DropNull(items: seq<string>): (r: seq<string>)
    ensures forall i :: 0 <= i < |r| ==> r[i] != "NULL" && r[i] in items
    ensures forall x :: x in items && x != "NULL" ==> x in r
  {
    if items == [] then []
    else
      var rest := DropNull(items[1..]);
      assert forall x :: x in items ==> x == items[0] || x in items[1..];
      if items[0] != "NULL" then [items[0]] + rest else rest
  }

  /** The filter works item by item: filtering a concatenation filters each part, in order. */
  lemma {:induction false} DropNullConcat(a: seq<string>, b: seq<string>)
    ensures DropNull(a + b) == DropNull(a) + DropNull(b)
  {
    if a != [] {
      assert (a + b)[0] == a[0];
      assert (a + b)[1..] == a[1..] + b;
      DropNullConcat(a[1..], b);
    } else {
      assert a + b == b;
    }
  }

  /**
   * One item is kept exactly when it is not "NULL". With `DropNullConcat` this fixes the
   * filter: the items other than "NULL", each as often as it occurs, in their order.
   */
  lemma DropNullSingle(x: string)
    ensures DropNull([x]) == if x == "NULL" then [] else [x]
  {
    assert [x][1..] == [];
  }

  /** `','.join([item for item in text.split(',') if item != 'NULL'])`. */
  function CleanParameter(text: string): string {
    Join(DropNull(SplitBy(text, ",")), ",")
  }

  /** `self.system_parameters`: every parameter string cleaned, in order. */
  function CleanParameters(parameters: seq<string>): (r: seq<string>)
    ensures |r| == |parameters| && forall i :: 0 <= i < |parameters| ==> r[i] == CleanParameter(parameters[i])
  {
    seq(|parameters|, i requires 0 <= i < |parameters| => CleanParameter(parameters[i]))
  }

  /**
   * A cleaned parameter splits back into exactly the items that were not "NULL", in their
   * order; when every item was "NULL" it is empty.
   */
  lemma CleanParameterDropsNull(text: string)
    ensures DropNull(SplitBy(text, ",")) != [] ==> SplitBy(CleanParameter(text), ",") == DropNull(SplitBy(text, ","))
    ensures DropNull(SplitBy(text, ",")) == [] ==> CleanParameter(text) == ""
  {
    var pieces := SplitBy(text, ",");
    var items := DropNull(pieces);
    if items != [] {
      SplitPiecesFree(text, ",");
      forall k, j | 0 <= k < |items| ensures !OccursAt(items[k], ",", j) {
        var m :| 0 <= m < |pieces| && pieces[m] == items[k];
        assert !OccursAt(pieces[m], ",", j);
      }
      SplitJoin(items, ",");
    }
  }

  /** `int(value)`, falling back to `float(value)` on `ValueError`; `None` when both raise. */
  function ParameterValue(text: string): (v: Option<Value>)
    ensures v.Some? <==> IsIntText(text) || IsFloatText(text)
    ensures IsIntText(text) ==> v == Some(Int(IntOf(text)))
    ensures !IsIntText(text) && IsFloatText(text) ==> v == Some(Float(text))
  {
    if IsIntText(text) then Some(Int(IntOf(text)))
    else if IsFloatText(text) then Some(Float(text))
    else None
  }

  /**
   * `key, value = item.split(",")` and the converted value as a display cell; the
   * unpacking raises `ValueError` unless the item has exactly one comma.
   */
  function ParameterCell(item: string): (c: Cell)
    ensures c.value.Some? <==> |SplitBy(item, ",")| == 2 && ParameterValue(SplitBy(item, ",")[1]).Some?
    ensures |SplitBy(item, ",")| == 2 ==> c.key == SplitBy(item, ",")[0]
  {
    var pieces := SplitBy(item, ",");
    if |pieces| == 2 then Cell(pieces[0], ParameterValue(pieces[1])) else Cell("", None)
  }

  /** An item written `key + "," + value` with no other comma becomes the cell of that key and value. */
  lemma ParameterItemRoundTrip(key: string, value: string)
    requires ',' !in key && ',' !in value
    ensures ParameterCell(key + "," + value) == Cell(key, ParameterValue(value))
  {
    var pieces := [key, value];
    AbsentCharNeverOccurs(key, ',');
    AbsentCharNeverOccurs(value, ',');
    assert Join(pieces, ",") == key + "," + value by {
      assert Join(pieces[1..], ",") == value;
    }
    SplitJoin(pieces, ",");
  }

  /** "850" is integer text worth 850. */
  lemma SampleIntParameter()
    ensures IsIntText("850") && IntOf("850") == 850
  {
    assert NatText(8) == "8";
    assert NatText(85) == "85";
    assert NatText(850) == "850";
    IntTextRoundTrip(850);
  }

  /** "6.5" is not integer text, but it is float text: a mantissa with a dot and no exponent. */
  lemma SampleFloatParameter()
    ensures !IsIntText("6.5") && IsFloatText("6.5")
  {
    var t := "6.5";
    StripUnpadded(t, NumberBlanks);
    assert !IsDigitOf(t[1], 10);
    assert IndexOf(t, IsExpMark) == 3 by {
      assert !IsExpMark(t[0]) && !IsExpMark(t[1]) && !IsExpMark(t[2]);
    }
    assert IsMantissa(t) by {
      assert IndexOf(t, IsDot) == 1 by { assert !IsDot(t[0]) && IsDot(t[1]); }
      assert t[..1] == "6" && t[2..] == "5";
    }
    assert WithoutSign(t) == t;
    assert t[..3] == t;
  }

  /**
   * The two values of the published sample: "850" takes the integer path and "6.5" the
   * float fallback.
   */
  lemma SampleParameterValues()
    ensures ParameterValue("850") == Some(Int(850))
    ensures ParameterValue("6.5") == Some(Float("6.5"))
  {
    SampleIntParameter();
    SampleFloatParameter();
  }

  /**
   * The ASYP dictionary as the display of the assignments the source makes: the host
   * time, `int(error_status)`, then each cleaned parameter's key and value.
   */
  function SystemParameterCells(errorStatus: string, parameters: seq<string>): (cells: seq<Cell>)
    ensures |cells| == |parameters| + 2
    ensures cells[0] == Cell("dateTime", Some(HostClock)) && cells[1] == Cell("errorStatus", IntValue(errorStatus))
    ensures forall i :: 0 <= i < |parameters| ==> cells[2 + i] == ParameterCell(parameters[i])
  {
    seq(|parameters| + 2, i requires 0 <= i < |parameters| + 2 =>
      if i == 0 then Cell("dateTime", Some(HostClock))
      else if i == 1 then Cell("errorStatus", IntValue(errorStatus))
      else ParameterCell(parameters[i - 2]))
  }

  /**
   * The ASYP loop over `system_parameters`: `sensorDictionary[key] = value` for each item in
   * turn, stopping with `None` at the first item that raises.
   */
  method SystemParameterFields(errorStatus: string, parameters: seq<string>) returns (d: Option<Fields>)
    ensures d == Record(SystemParameterCells(errorStatus, parameters))
  {
    ghost var cells := SystemParameterCells(errorStatus, parameters);
    if !IsIntText(errorStatus) {
      assert !AllEvaluate(cells) by { assert cells[1].value.None?; }
      return None;
    }
    var fields := Put(Put([], "dateTime", HostClock), "errorStatus", Int(IntOf(errorStatus)));
    assert cells[..0] == [];
    RecordStep(cells, 0, []);
    RecordStep(cells, 1, Put([], "dateTime", HostClock));
    var i := 0;
    while i < |parameters|
      invariant 0 <= i <= |parameters|
      invariant Record(cells[..2 + i]) == Some(fields)
    {
      var cell := ParameterCell(parameters[i]);
      if cell.value.None? {
        RecordRaises(cells, 2 + i);
        return None;
      }
      RecordStep(cells, 2 + i, fields);
      fields := Put(fields, cell.key, cell.value.value);
      i := i + 1;
    }
    assert cells[..2 + i] == cells;
    d := Some(fields);
  }

  // ---------------------------------------------------------------------------
  // Concentrations (ACON)

  /** The seconds `datetime.fromtimestamp(t, tz=timezone.utc)` accepts: years 1 to 9999. */
  const MinDeviceTime := -62135596800
  const MaxDeviceTime := 253402300799

  /** `datetime.fromtimestamp(int(text), tz=timezone.utc)` does not raise. */
  predicate IsDeviceTime(text: string) {
    IsIntText(text) && MinDeviceTime <= IntOf(text) <= MaxDeviceTime
  }

  /** One entry of `measurements`: the triple's tokens and the gas its CAS number names. */
  datatype Reading = Reading(timestamp: string, cas: string, gas: string, concentration: string)

  /** The text of a `measurements` entry. */
  function ReadingLine(m: Reading): string {
    "Timestamp: " + m.timestamp + ", CAS: " + m.cas + ", gas: " + m.gas
      + ", Concentration: " + m.concentration + " ppm"
  }

  function ReadingLines(ms: seq<Reading>): (ls: seq<string>)
    ensures |ls| == |ms| && forall j :: 0 <= j < |ms| ==> ls[j] == ReadingLine(ms[j])
  {
    seq(|ms|, j requires 0 <= j < |ms| => ReadingLine(ms[j]))
  }

  /** The number of triples in a 17-token reply, and where triple `j` starts. */
  const ReadingCount := 5

  function ReadingOffset(j: nat): nat { 2 + 3 * j }

  /** The triple at `parts[i]`, `parts[i + 1]`, `parts[i + 2]` for `i = 2 + 3 * j`. */
  function ReadingAt(parts: seq<string>, j: nat, legacy: bool): Reading
    requires ReadingOffset(j) + 2 < |parts|
  {
    var i := ReadingOffset(j);
    Reading(parts[i], parts[i + 1], GasName(parts[i + 1], legacy), parts[i + 2])
  }

  /** The triples `range(2, len(parts), 3)` visits in a 17-token reply. */
  function Readings(parts: seq<string>, legacy: bool): (ms: seq<Reading>)
    requires |parts| == 17
    ensures |ms| == ReadingCount
  {
    seq(ReadingCount, j requires 0 <= j < ReadingCount => ReadingAt(parts, j, legacy))
  }

  /** The tokens the readings were taken from, triple after triple. */
  function TripleTokens(ms: seq<Reading>): (ts: seq<string>)
    ensures |ts| == 3 * |ms|
  {
    if ms == [] then [] else [ms[0].timestamp, ms[0].cas, ms[0].concentration] + TripleTokens(ms[1..])
  }

  /**
   * The five triples start at tokens 2, 5, 8, 11 and 14 and together cover every token
   * after the error status, each exactly once and in order.
   */
  lemma ReadingsTileReply(parts: seq<string>, legacy: bool)
    requires |parts| == 17
    ensures [ReadingOffset(0), ReadingOffset(1), ReadingOffset(2), ReadingOffset(3), ReadingOffset(4)] == [2, 5, 8, 11, 14]
    ensures TripleTokens(Readings(parts, legacy)) == parts[2..]
    ensures forall j :: 0 <= j < ReadingCount ==> Readings(parts, legacy)[j].gas == GasName(parts[ReadingOffset(j) + 1], legacy)
  {
    var ms := Readings(parts, legacy);
    TripleTokensSuffix(parts, legacy, 0);
    assert ms[0..] == ms;
  }

  lemma {:induction false} TripleTokensSuffix(parts: seq<string>, legacy: bool, j: nat)
    requires |parts| == 17 && j <= ReadingCount
    ensures TripleTokens(Readings(parts, legacy)[j..]) == parts[ReadingOffset(j)..]
    decreases ReadingCount - j
  {
    var ms := Readings(parts, legacy);
    if j < ReadingCount {
      TripleTokensSuffix(parts, legacy, j + 1);
      assert ms[j..][1..] == ms[j + 1..];
      var i := ReadingOffset(j);
      assert parts[i..] == [parts[i], parts[i + 1], parts[i + 2]] + parts[i + 3..];
    }
  }

  /** `float(conc_ppm)` as a dictionary value; `None` when it raises. */
  function FloatValue(text: string): (v: Option<Value>)
    ensures v.Some? <==> IsFloatText(text)
    ensures v.Some? ==> v.value == Float(text)
  {
    if IsFloatText(text) then Some(Float(text)) else None
  }

  /** `sensorDictionary[casGas] = float(conc_ppm)` as a display cell. */
  function ReadingCell(m: Reading): Cell {
    Cell(m.gas, FloatValue(m.concentration))
  }

  function ReadingCells(ms: seq<Reading>): (cells: seq<Cell>)
    ensures |cells| == |ms| && forall j :: 0 <= j < |ms| ==> cells[j] == ReadingCell(ms[j])
  {
    seq(|ms|, j requires 0 <= j < |ms| => ReadingCell(ms[j]))
  }

  lemma ReadingsAt(parts: seq<string>, legacy: bool, j: nat)
    requires |parts| == 17 && j < ReadingCount
    ensures Readings(parts, legacy)[j] == ReadingAt(parts, j, legacy)
    ensures ReadingCells(Readings(parts, legacy))[j] == ReadingCell(ReadingAt(parts, j, legacy))
  {
  }

  /** Storing one more converted reading extends the dictionary by its gas and concentration. */
  lemma RecordNextReading(head: seq<Cell>, ms: seq<Reading>, m: Reading)
    requires Record(head + ReadingCells(ms)).Some? && ReadingCell(m).value.Some?
    ensures Record(head + ReadingCells(ms + [m]))
      == Some(Put(Record(head + ReadingCells(ms)).value, m.gas, ReadingCell(m).value.value))
  {
    var v := ReadingCell(m).value.value;
    assert head + ReadingCells(ms + [m]) == (head + ReadingCells(ms)) + [Cell(m.gas, Some(v))];
    RecordSnoc(head + ReadingCells(ms), m.gas, v);
  }

  /**
   * How many entries the loop appends to `measurements`: each triple is appended
   * before its concentration is converted, so a failing conversion is the last one in.
   */
  function ReadingsAppended(parts: seq<string>, legacy: bool): (n: nat)
    requires |parts| == 17
    ensures n <= ReadingCount
    ensures n == ReadingCount <==> Evaluated(ReadingCells(Readings(parts, legacy))) >= ReadingCount - 1
  {
    var e := Evaluated(ReadingCells(Readings(parts, legacy)));
    if e < ReadingCount then e + 1 else ReadingCount
  }

  /**
   * The ACON loop: for each triple, append it to `measurements`, then store its
   * concentration under its gas name, which raises at the first concentration that is
   * not float text. The dictionary is the display of `head` followed by the reading
   * cells; the list holds the triples appended before the loop stopped.
   */
  method CollectReadings(parts: seq<string>, legacy: bool, head: seq<Cell>) returns (d: Option<Fields>, ms: seq<Reading>)
    requires |parts| == 17 && Record(head).Some?
    ensures d == Record(head + ReadingCells(Readings(parts, legacy)))
    ensures ms == Readings(parts, legacy)[..ReadingsAppended(parts, legacy)]
    ensures d.Some? ==> ms == Readings(parts, legacy)
  {
    ghost var all := Readings(parts, legacy);
    var fields := Record(head).value;
    ms := [];
    assert head + ReadingCells(ms) == head;
    var j := 0;
    while j < ReadingCount
      invariant 0 <= j <= ReadingCount
      invariant ms == all[..j]
      invariant Record(head + ReadingCells(ms)) == Some(fields)
      invariant Evaluated(ReadingCells(all)) >= j
    {
      var m := ReadingAt(parts, j, legacy);
      ReadingsAt(parts, legacy, j);
      TakeNext(all, j);
      ghost var prev := ms;
      ms := ms + [m];
      var cell := ReadingCell(m);
      if cell.value.None? {
        RecordRaises(head + ReadingCells(all), |head| + j);
        assert Evaluated(ReadingCells(all)) == j;
        return None, ms;
      }
      RecordNextReading(head, prev, m);
      assert Evaluated(ReadingCells(all)) != j;
      fields := Put(fields, cell.key, cell.value.value);
      j := j + 1;
    }
    assert all[..ReadingCount] == all;
    d := Some(fields);
  }

  /** The cells the ACON dictionary is built from before `tail`: the device time and `int(error_status)`. */
  function AconHead(parts: seq<string>): (head: seq<Cell>)
    requires |parts| == 17
    ensures |head| == 2 && head[0].key == "dateTime" && head[1].key == "errorStatus"
  {
    [Cell("dateTime", if IsDeviceTime(parts[2]) then Some(DeviceClock(IntOf(parts[2]))) else None),
     Cell("errorStatus", IntValue(parts[1]))]
  }

  /** The whole ACON display: the head, one cell per triple, then the cells a client adds after the loop. */
  function AconCells(parts: seq<string>, legacy: bool, tail: seq<Cell>): (cells: seq<Cell>)
    requires |parts| == 17
    ensures |cells| == 2 + ReadingCount + |tail|
  {
    AconHead(parts) + ReadingCells(Readings(parts, legacy)) + tail
  }

  /**
   * The ACON dictionary once the device time and error status converted: the head, the
   * loop over the triples, then the client's `tail` cells stored one after the other.
   * `ms` is what `measurements` holds when the method stops.
   */
  method ConcentrationFields(parts: seq<string>, legacy: bool, tail: seq<Cell>) returns (r: Option<Fields>, ms: seq<Reading>)
    requires |parts| == 17 && IsDeviceTime(parts[2]) && IsIntText(parts[1])
    ensures r == Record(AconCells(parts, legacy, tail))
    ensures ms == Readings(parts, legacy)[..ReadingsAppended(parts, legacy)]
    ensures r.Some? ==> ms == Readings(parts, legacy)
  {
    var head := AconHead(parts);
    assert AllEvaluate(head);
    var d;
    d, ms := CollectReadings(parts, legacy, head);
    RecordThen(head + ReadingCells(Readings(parts, legacy)), tail);
    r := PutCells(d, tail);
  }

  /**
   * A gas that no later triple and no later cell names holds the concentration of its
   * own triple: when two CAS numbers name the same gas (two unknown numbers, say), the
   * later triple's value is the one published.
   */
  lemma AconLastReadingWins(parts: seq<string>, legacy: bool, tail: seq<Cell>, j: nat)
    requires |parts| == 17 && j < ReadingCount
    requires AllEvaluate(AconCells(parts, legacy, tail))
    requires forall k :: j < k < ReadingCount ==> Readings(parts, legacy)[k].gas != Readings(parts, legacy)[j].gas
    requires forall k :: 0 <= k < |tail| ==> tail[k].key != Readings(parts, legacy)[j].gas
    ensures Lookup(Record(AconCells(parts, legacy, tail)).value, Readings(parts, legacy)[j].gas)
      == Some(Float(parts[ReadingOffset(j) + 2]))
  {
    ReadingsAt(parts, legacy, j);
    LastReadingWins(AconHead(parts), Readings(parts, legacy), tail, j);
  }

  /** `AconLastReadingWins` for any readings between any head and tail cells. */
  lemma LastReadingWins(head: seq<Cell>, ms: seq<Reading>, tail: seq<Cell>, j: nat)
    requires j < |ms| && AllEvaluate(head + ReadingCells(ms) + tail)
    requires forall k :: j < k < |ms| ==> ms[k].gas != ms[j].gas
    requires forall k :: 0 <= k < |tail| ==> tail[k].key != ms[j].gas
    ensures Lookup(Record(head + ReadingCells(ms) + tail).value, ms[j].gas) == Some(Float(ms[j].concentration))
  {
    var b := ReadingCells(ms) + tail;
    Associative(head, ReadingCells(ms), tail);
    ReadingBlockKeys(ms, tail, j);
    BlockValueHeld(head, b, j);
  }

  /** Reading `j` sits at `j` of the block it starts, and its gas recurs nowhere later in it. */
  lemma ReadingBlockKeys(ms: seq<Reading>, tail: seq<Cell>, j: nat)
    requires j < |ms|
    requires forall k :: j < k < |ms| ==> ms[k].gas != ms[j].gas
    requires forall k :: 0 <= k < |tail| ==> tail[k].key != ms[j].gas
    ensures var b := ReadingCells(ms) + tail;
      b[j] == ReadingCell(ms[j]) && forall k :: j < k < |b| ==> b[k].key != b[j].key
  {
    var rc := ReadingCells(ms);
    var b := rc + tail;
    assert b[j] == rc[j];
    forall k | j < k < |b| ensures b[k].key != ms[j].gas {
      if k < |rc| { assert b[k] == rc[k]; } else { IndexAfter(rc, tail, k); }
    }
  }

  lemma IndexAfter<T>(x: seq<T>, y: seq<T>, k: nat)
    requires |x| <= k < |x| + |y|
    ensures (x + y)[k] == y[k - |x|]
  {
  }

  lemma AconCellAt(parts: seq<string>, legacy: bool, tail: seq<Cell>, j: nat)
    requires |parts| == 17 && j < ReadingCount
    ensures AconCells(parts, legacy, tail)[2 + j].key == Readings(parts, legacy)[j].gas
  {
    ReadingsAt(parts, legacy, j);
  }

  /** Two triples naming the same gas leave the dictionary with fewer keys than the display has cells. */
  lemma AconRepeatedGasMerges(parts: seq<string>, legacy: bool, tail: seq<Cell>, i: nat, j: nat)
    requires |parts| == 17 && i < j < ReadingCount
    requires AllEvaluate(AconCells(parts, legacy, tail))
    requires Readings(parts, legacy)[i].gas == Readings(parts, legacy)[j].gas
    ensures |Record(AconCells(parts, legacy, tail)).value| < |AconCells(parts, legacy, tail)|
  {
    AconCellAt(parts, legacy, tail, i);
    AconCellAt(parts, legacy, tail, j);
    RecordMerges(AconCells(parts, legacy, tail), 2 + i, 2 + j);
  }

  /** Two unknown CAS numbers in one reply both name the fallback gas, so they merge. */
  lemma UnknownCasNumbersMerge(parts: seq<string>, legacy: bool, tail: seq<Cell>, i: nat, j: nat)
    requires |parts| == 17 && i < j < ReadingCount
    requires AllEvaluate(AconCells(parts, legacy, tail))
    requires parts[ReadingOffset(i) + 1] !in (if legacy then LegacyCasToGas else CasToGas)
    requires parts[ReadingOffset(j) + 1] !in (if legacy then LegacyCasToGas else CasToGas)
    ensures Readings(parts, legacy)[i].gas == UnknownCas == Readings(parts, legacy)[j].gas
    ensures |Record(AconCells(parts, legacy, tail)).value| < |AconCells(parts, legacy, tail)|
  {
    ReadingsAt(parts, legacy, i);
    ReadingsAt(parts, legacy, j);
    GasNameFallback(parts[ReadingOffset(i) + 1], legacy);
    GasNameFallback(parts[ReadingOffset(j) + 1], legacy);
    AconRepeatedGasMerges(parts, legacy, tail, i, j);
  }
}
