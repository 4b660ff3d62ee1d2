# Gas-sensor protocol layer of the MINTS XU4 firmware, in Dafny

This project models the request/response protocol code of the gas-sensor readers in
`firmware/xu4Mqtt` and proves properties of it:

- **Gasera One laser analyzer (AK text protocol):**
  - the newer client `GaseraOneSensor` in `gaseraOne/gaseraOne.py`;
  - the legacy client in `legacy/gaseraOneReaderLegacy.py`.

  A request is `STX ' ' CMD ' K' channel ' ' data ETX`. A reply is a framed list of tokens. Each request method screens the reply and builds an ordered sensor dictionary from positional tokens with defaults. It hands the dictionary to the publisher and sets its attributes.

  The newer client also does two things:
  - publishes a concentration reading only when its device timestamp is newer than `prevTimeStamp`;
  - runs three fixed command sequences: start-up, periodic and daily.
- **SJH-5 infrared methane sensor (binary checksum protocol):** `sjh5Reader.py`, `sjh5aReader.py` and `mReader.py`.
  - A request is `[0x11, 0x01, cmd, cs]`, where `cs` brings the byte sum to 0 modulo 256.
  - A reply is classified by its first byte: ACK 0x16 or NAK 0x06.
  - Payloads are decoded into the concentration word, seven status flags, the instrument number, the software version, and the measurement properties.
  - `mReader.py` assembles newline-terminated lines from the bytes it receives and never clears its buffer.
- **INIR2-ME5 methane sensor:** `inir2me5Reader.py`.
  - bracketed one-letter commands `[C]`, `[I]` and `[B]`, accepted when the reply ends with the hex echo `5b414b5d`;
  - the 38-line settings read-back;
  - the engineering-mode loop. It appends each received character to a buffer and re-splits the buffer on `"\n\r"`. It decodes a frame between the marker lines `0000005b` and `0000005d`, publishes it once the sensor has warmed up (more than 60 s), and clears the buffer.

## Modules and how they correspond to the source

| file | module | what it models |
|---|---|---|
| `pytext.dfy` | `Wrappers`, `PyText` | The Python string built-ins the readers rely on: `strip`, `split`, `join`, `replace`, `int()` in bases 10 and 16, the texts `float()` accepts, and `f"{n:04}"`. The semantics are restricted to ASCII. |
| `records.dfy` | `Records` | `OrderedDict` displays and `d[k] = v` stores as ordered entry lists. A display whose value raises gives `None`. The `Publisher` class is a log of what `sensorFinisher` receives. |
| `serial.dfy` | `Serial` | The byte-to-character text of a read. The `SerialLine` class logs what `ser.write` was given. |
| `ak_codec.dfy` | `AkCodec` | `format_ak_request` and `clean_ak_response`. The tokeniser is an explicit scanner for the regular expression `[^\s"]+|"[^"]*"`. |
| `ak_tables.dfy` | `AkTables` | `status_map`, `measurement_status_map` and both `cas_to_gas` tables, with their `get` fallbacks. |
| `ak_decode.dfy` | `AkDecode` | The reply screen of the request methods, and each request's dictionary. It also has the three loops: task pairing, system parameters, and the ACON readings. |
| `gasera_client.dfy` | `GaseraClient` | One `Client` class for both Gasera clients (`legacy` tells them apart). Its request methods take the device's reply as a parameter and log the request and the publications. It also models the ACON freshness gate and the command sequences. |
| `sjh_protocol.dfy` | `SjhProtocol` | `calculate_checksum`, the request frame and the 16-bit data word shared by the three SJH-5 readers. |
| `sjh5.dfy` | `Sjh5` | `sjh5Reader.py`: `send_command`, the four readers, `decode_status` and the monitoring loop. |
| `sjh5a.dfy` | `Sjh5a` | `sjh5aReader.py`: `check_measurement`. |
| `m_reader.dfy` | `MReader` | `mReader.py`: the request and the line-assembly loop. |
| `inir2me5.dfy` | `Inir2me5` | `inir2me5Reader.py`: `send_command`, `printSettings` and the loop of `main`. |

Modelling conventions:

- **Wire data and text.**
  - On the wire, text is `seq<char>` with one character per byte.
  - Binary replies are `seq<byte>`, where `byte` is `0..255`.
- **Exceptions.** A Python exception that escapes a method becomes one outcome, `Raised`. A dictionary whose value conversion raises is `None`.
- **Dictionary values** are `Int`, `Str`, or one of these stand-ins:
  - `Float(text)`: the text that `float()` accepted. Its value is not computed.
  - `Ratio(num, den)`: a quotient the source computes in floating point.
  - `HostClock`: the host's current time.
  - `DeviceClock(seconds)`: a device timestamp, formatted as UTC text.
- **Clock and timestamps.**
  - The host clock is a whole-second integer parameter.
  - Device timestamps are integers.
  - `datetime.fromtimestamp(t, tz=utc)` is accepted exactly for years 1 to 9999.
- **I/O as parameters.**
  - Each device reply is a method parameter: a reply string, the bytes read, or the per-byte clock readings of the INIR2-ME5 loop.
  - What would be written to the port or socket is appended to a `written`/`sent` log.
  - What would be published is appended to a `log` of `Publication(sensor, fields)`.

Where the code and its comments disagree, the model follows the code:

- The legacy system-parameter filter compares `str` tokens with `b'NULL'`, so it removes nothing.
- The newer client's task-list display lists `taskID0`/`taskName0` twice.
- The legacy ACON publish call is commented out.
- `sjh5aReader.py` asks for nine bytes but decodes only eight-byte replies.
- `mReader.py` clears its line buffer only in commented-out code.

## Model

| member | source | states |
|---|---|---|
| AkCodec.FormatAkRequest | firmware/xu4Mqtt/gaseraOne/gaseraOne.py:100-106 | The request is `|command|+|channel|+|data|+6` characters long. It starts with STX, ends with ETX, and has a blank at index 1 and the command text unchecked at 2.. |
| AkCodec.Tokenize | firmware/xu4Mqtt/gaseraOne/gaseraOne.py:113 | Every token the scanner returns is a bare token (`[^\s"]+`) or a quoted token with its quotes kept. |
| AkCodec.TokenizeSkipSpace | firmware/xu4Mqtt/gaseraOne/gaseraOne.py:113 | Leading whitespace matches no token and is skipped. |
| AkCodec.TokenizeCons | firmware/xu4Mqtt/gaseraOne/gaseraOne.py:113 | A token followed by whitespace or the end scans as exactly that token, in input order. |
| AkCodec.TokenizeJoin | firmware/xu4Mqtt/gaseraOne/gaseraOne.py:113 | Tokens joined by single blanks scan back to the same tokens. This is the scanner's round trip. |
| AkCodec.TokenizeJoinStep | firmware/xu4Mqtt/gaseraOne/gaseraOne.py:113 | The inductive step of the round trip: the first token, then the rest. |
| AkCodec.CleanAkResponse | firmware/xu4Mqtt/gaseraOne/gaseraOne.py:108-116 | A reply yields tokens iff it starts with STX and ends with ETX. The tokens are those of the text between the frame bytes, and each is a valid token. |
| AkCodec.AkRequestRoundTrip | firmware/xu4Mqtt/legacy/gaseraOneReaderLegacy.py:88-104 | A request built from a token command, a plain channel and token-or-empty data is framed, and cleaning it gives back `[command, "K"+channel]` plus the data. |
| AkCodec.RequestBody | firmware/xu4Mqtt/gaseraOne/gaseraOne.py:105-106 | The request's body is a blank, then the tokens joined by blanks, then a trailing blank when there is no data. |
| AkCodec.BlankReplyHasNoTokens | firmware/xu4Mqtt/gaseraOne/gaseraOne.py:110-114 | A framed reply of blanks only is valid and carries no tokens. |
| AkCodec.BlanksHaveNoTokens | firmware/xu4Mqtt/gaseraOne/gaseraOne.py:113 | A run of blanks scans to no tokens. |
| AkTables.StatusLabelFallback | firmware/xu4Mqtt/gaseraOne/gaseraOne.py:24-34 | The device status label is "Unknown status" exactly for codes outside "0".."8". |
| AkTables.MeasurementStatusLabelFallback | firmware/xu4Mqtt/gaseraOne/gaseraOne.py:36-42 | The measurement status label is "Unknown measurement status" exactly for codes outside "0".."4". |
| AkTables.MissingCodesAreUnknown | firmware/xu4Mqtt/gaseraOne/gaseraOne.py:132-133 | The default code "-1" of a missing status token has the fallback label in both tables. |
| AkTables.CasTableDifferences | firmware/xu4Mqtt/legacy/gaseraOneReaderLegacy.py:34-47 | "74-82-8" is methane in both tables. Water "7732-18-5" is "water" in the newer table and "unknownCASNumber" in the legacy table. The tables agree on every other number. |
| AkTables.GasNameFallback | firmware/xu4Mqtt/gaseraOne/gaseraOne.py:44-58 | The gas name is "unknownCASNumber" exactly for CAS numbers outside the table. |
| AkDecode.Screen | firmware/xu4Mqtt/gaseraOne/gaseraOne.py:128-131 | A reply that passes the screen has the requested mnemonic first and at least two tokens. |
| AkDecode.ScreenCases | firmware/xu4Mqtt/gaseraOne/gaseraOne.py:128-146 | The screen's cases:<br>- an unframed reply gives no result (`None`);<br>- another mnemonic gives "Invalid Command Output";<br>- it passes exactly the framed replies with the mnemonic and at least one more token, and their tokens are passed unchanged;<br>- anything else raises. |
| AkDecode.ScreenConcentrations | firmware/xu4Mqtt/gaseraOne/gaseraOne.py:683 | An ACON reply that passes has exactly 17 tokens, led by "ACON". |
| AkDecode.ScreenConcentrationsCases | firmware/xu4Mqtt/gaseraOne/gaseraOne.py:681-720 | The ACON screen passes exactly framed 17-token replies led by "ACON". An unframed reply gives no result, an empty one raises, and the rest are "Invalid Command Output". |
| AkDecode.ErrorStatusRecord | firmware/xu4Mqtt/gaseraOne/gaseraOne.py:562-566 | The STST, STPM and STAM dictionary exists iff the error status is integer text. It is then the host time plus `errorStatus`. |
| AkDecode.StatusRecord | firmware/xu4Mqtt/gaseraOne/gaseraOne.py:131-139 | The ASTS dictionary exists iff the error status and the status code (default "-1") parse. It is then their three entries. |
| AkDecode.MissingStatusIsMinusOne | firmware/xu4Mqtt/gaseraOne/gaseraOne.py:132-138 | An ASTS reply without a code publishes deviceStatus -1, whose label is the fallback. |
| AkDecode.ActiveErrorKeysDistinct | firmware/xu4Mqtt/gaseraOne/gaseraOne.py:169-177 | The seven AERR keys are distinct. |
| AkDecode.ActiveErrorsRecord | firmware/xu4Mqtt/gaseraOne/gaseraOne.py:161-177 | The AERR dictionary exists iff the status and the five error slots (default "0") parse as integers. It is then those seven entries, in order. |
| AkDecode.MissingErrorSlotsAreZero | firmware/xu4Mqtt/gaseraOne/gaseraOne.py:163-167 | An error slot the reply does not fill reads "0", which parses as 0. |
| AkDecode.MeasurementStatusRecord | firmware/xu4Mqtt/gaseraOne/gaseraOne.py:260-271 | The AMST dictionary exists iff the status and the measurement code (default "-1") parse. It then holds both. |
| AkDecode.NameRecord | firmware/xu4Mqtt/gaseraOne/gaseraOne.py:292-298 | The ANAM dictionary exists iff the error status parses. It holds the name, "" when missing. |
| AkDecode.IterationRecord | firmware/xu4Mqtt/gaseraOne/gaseraOne.py:318-324 | The AITR dictionary exists iff the status and the iteration number (default "-1") parse. |
| AkDecode.NetworkKeysDistinct | firmware/xu4Mqtt/gaseraOne/gaseraOne.py:349-356 | The ANET keys are distinct. |
| AkDecode.NetworkRecord | firmware/xu4Mqtt/gaseraOne/gaseraOne.py:344-356 | The ANET dictionary exists iff the reply has six tokens, the status parses and, in the newer client only, `useDHCP` parses. `useDHCP` is text in the legacy client. |
| AkDecode.DateTimeRecord | firmware/xu4Mqtt/gaseraOne/gaseraOne.py:384-390 | The ACLK dictionary exists iff the status parses. The device clock text defaults to "Unknown". |
| AkDecode.SamplerKeysDistinct | firmware/xu4Mqtt/gaseraOne/gaseraOne.py:419-427 | The AMPS keys are distinct. |
| AkDecode.SamplerRecord | firmware/xu4Mqtt/gaseraOne/gaseraOne.py:411-427 | The AMPS dictionary exists iff the status parses. It holds the five sampler slots as text. |
| AkDecode.MissingSamplerSlotsAreNP | firmware/xu4Mqtt/legacy/gaseraOneReaderLegacy.py:382-386 | A sampler slot the reply does not fill reads "NP". |
| AkDecode.TaskParameterKeysDistinct | firmware/xu4Mqtt/gaseraOne/gaseraOne.py:494-503 | The ATSP keys are distinct. |
| AkDecode.TaskParametersRecord | firmware/xu4Mqtt/legacy/gaseraOneReaderLegacy.py:456-468 | The ATSP dictionary exists iff there are five task parameters and the status and tokens 3..6 parse (and, for the newer client, its task id). `casNumbers` has every ',' replaced by '_'. |
| AkDecode.DeviceInfoKeysDistinct | firmware/xu4Mqtt/gaseraOne/gaseraOne.py:530-537 | The ADEV keys are distinct. |
| AkDecode.DeviceInfoRecord | firmware/xu4Mqtt/legacy/gaseraOneReaderLegacy.py:487-500 | The ADEV dictionary exists iff tokens 2..5 exist and the status, serial number and firmware version parse once their quotes are stripped. Manufacturer and name are kept as stripped text. |
| AkDecode.SelfTestRecord | firmware/xu4Mqtt/gaseraOne/gaseraOne.py:588-596 | The ASTR dictionary exists iff there is a result token and the status and result parse. |
| AkDecode.PairTasks | firmware/xu4Mqtt/gaseraOne/gaseraOne.py:206-211 | The pairing loop collects the ids and the quote-stripped names of the whole pairs from index 2, in order. It completes iff the token count is even; otherwise `parts[i + 1]` raises. |
| AkDecode.TaskTokens | firmware/xu4Mqtt/gaseraOne/gaseraOne.py:206-208 | Task-list tokens: each id, then its quoted name. |
| AkDecode.TaskListRoundTrip | firmware/xu4Mqtt/gaseraOne/gaseraOne.py:206-211 | A task list written as id/quoted-name pairs reads back as the same ids and names. |
| AkDecode.TaskNamesAre | firmware/xu4Mqtt/gaseraOne/gaseraOne.py:208-210 | The names are the quote-stripped odd tokens. |
| AkDecode.TaskPartsAt | firmware/xu4Mqtt/gaseraOne/gaseraOne.py:207-208 | Where the id and name of task j sit among the tokens. |
| AkDecode.TaskListKeysDistinct | firmware/xu4Mqtt/gaseraOne/gaseraOne.py:225-240 | The twelve distinct task-list keys. |
| AkDecode.TaskListDecodes | firmware/xu4Mqtt/gaseraOne/gaseraOne.py:213-240 | The ATSK display, which repeats `taskID0`/`taskName0`, evaluates iff the status parses. Its dictionary is then the twelve distinct keys with the first five ids and names, missing ones defaulted. |
| AkDecode.SelfTestVerdict | firmware/xu4Mqtt/gaseraOne/gaseraOne.py:599-607 | There is a verdict iff the status is "0" and the result is "-2", "-1", "0" or "1". It is True exactly for "1". |
| AkDecode.DropBytesNull | firmware/xu4Mqtt/legacy/gaseraOneReaderLegacy.py:418 | The `b'NULL'` filter never lengthens the list. |
| AkDecode.BytesNullFilterKeepsAll | firmware/xu4Mqtt/legacy/gaseraOneReaderLegacy.py:418 | Comparing `str` tokens with `b'NULL'` removes none of them, not even "NULL". |
| AkDecode.DropNull | firmware/xu4Mqtt/legacy/gaseraOneReaderLegacy.py:419 | Every kept item is a non-"NULL" item of the input, and every non-"NULL" input item is kept. Order and multiplicity come from `DropNullConcat` and `DropNullSingle`. |
| AkDecode.DropNullConcat | firmware/xu4Mqtt/legacy/gaseraOneReaderLegacy.py:419 | Filtering a concatenation gives the filtered parts, concatenated in order. |
| AkDecode.DropNullSingle | firmware/xu4Mqtt/legacy/gaseraOneReaderLegacy.py:419 | One item is kept exactly when it is not "NULL". With `DropNullConcat`, the filter is exactly the non-"NULL" items, in order and with their multiplicity. |
| AkDecode.CleanParameterDropsNull | firmware/xu4Mqtt/legacy/gaseraOneReaderLegacy.py:419 | A cleaned parameter splits into exactly the non-"NULL" items, or is "" when none remain. |
| AkDecode.ParameterValue | firmware/xu4Mqtt/legacy/gaseraOneReaderLegacy.py:430-433 | The value is `int(value)` for integer text, `float(value)` for other float text, and raises otherwise. |
| AkDecode.ParameterCell | firmware/xu4Mqtt/legacy/gaseraOneReaderLegacy.py:429-434 | `key, value = item.split(",")` succeeds iff the item has exactly one comma and the value converts. The cell is then keyed by the first piece. |
| AkDecode.ParameterItemRoundTrip | firmware/xu4Mqtt/legacy/gaseraOneReaderLegacy.py:429-434 | An item `key + "," + value` becomes the cell of that key and converted value. |
| AkDecode.SampleIntParameter | firmware/xu4Mqtt/legacy/gaseraOneReaderLegacy.py:739 | "850" (TargetPressure) is integer text worth 850. |
| AkDecode.SampleFloatParameter | firmware/xu4Mqtt/legacy/gaseraOneReaderLegacy.py:739 | "6.5" (PumpRate) is not integer text but is float text. |
| AkDecode.SampleParameterValues | firmware/xu4Mqtt/legacy/gaseraOneReaderLegacy.py:739 | "850" converts to the integer 850. "6.5" takes the float fallback. |
| AkDecode.SystemParameterFields | firmware/xu4Mqtt/gaseraOne/gaseraOne.py:455-467 | The store loop builds the dictionary of those cells, or raises at the first that does not convert. |
| AkDecode.Readings | firmware/xu4Mqtt/gaseraOne/gaseraOne.py:695-698 | A 17-token reply holds five readings. |
| AkDecode.TripleTokens | firmware/xu4Mqtt/gaseraOne/gaseraOne.py:695-699 | The tokens of the readings, three per reading. |
| AkDecode.ReadingsTileReply | firmware/xu4Mqtt/gaseraOne/gaseraOne.py:683-701 | The triples start at offsets 2, 5, 8, 11 and 14 and tile `parts[2:]` exactly. Each gas is the table's name for its CAS token (newer or legacy table). |
| AkDecode.TripleTokensSuffix | firmware/xu4Mqtt/gaseraOne/gaseraOne.py:695 | The readings from triple j on tile `parts` from offset `2 + 3j`. |
| AkDecode.ReadingsAt | firmware/xu4Mqtt/gaseraOne/gaseraOne.py:696-699 | Reading j is the triple at `2 + 3j`. |
| AkDecode.RecordNextReading | firmware/xu4Mqtt/gaseraOne/gaseraOne.py:700-701 | Storing one more converted reading extends the dictionary by its gas and concentration. |
| AkDecode.ReadingsAppended | firmware/xu4Mqtt/gaseraOne/gaseraOne.py:694-701 | The number of `measurements` appended before a conversion raised. It is all five iff at most the last conversion fails. |
| AkDecode.CollectReadings | firmware/xu4Mqtt/gaseraOne/gaseraOne.py:694-701 | The readings loop yields the dictionary of head plus reading cells, and the `measurements` appended before any raise. It yields all of them when nothing raised. |
| AkDecode.AconHead | firmware/xu4Mqtt/gaseraOne/gaseraOne.py:691-692 | The ACON dictionary starts with `dateTime` and `errorStatus`. |
| AkDecode.AconCells | firmware/xu4Mqtt/gaseraOne/gaseraOne.py:688-706 | The ACON display is the head, the five readings, then the client's tail. |
| AkDecode.ConcentrationFields | firmware/xu4Mqtt/gaseraOne/gaseraOne.py:688-706 | The ACON stores give the dictionary of the whole display and the `measurements` kept. |
| AkDecode.AconLastReadingWins | firmware/xu4Mqtt/gaseraOne/gaseraOne.py:698-701 | A gas that no later triple or tail key repeats holds its own concentration in the published dictionary. |
| AkDecode.LastReadingWins | firmware/xu4Mqtt/legacy/gaseraOneReaderLegacy.py:651-657 | The same, for any readings between any head and tail. |
| AkDecode.ReadingBlockKeys | firmware/xu4Mqtt/gaseraOne/gaseraOne.py:701 | Reading j's cell opens a block in which its gas key recurs nowhere later. |
| AkDecode.AconCellAt | firmware/xu4Mqtt/gaseraOne/gaseraOne.py:701 | Display cell `2 + j` is keyed by reading j's gas. |
| AkDecode.AconRepeatedGasMerges | firmware/xu4Mqtt/gaseraOne/gaseraOne.py:698-701 | Two triples naming the same gas leave fewer keys than cells: the later value overwrites the earlier. |
| AkDecode.UnknownCasNumbersMerge | firmware/xu4Mqtt/legacy/gaseraOneReaderLegacy.py:654-657 | Two unknown CAS numbers both become "unknownCASNumber" and merge into one key. |
| GaseraClient.AconSensorId | firmware/xu4Mqtt/gaseraOne/gaseraOne.py:711 | ACON publishes under "GSR001ACON". |
| GaseraClient.ConnectionStatus | firmware/xu4Mqtt/gaseraOne/gaseraOne.py:72-97 | The status is 0, 1 or 2: 0 exactly when connected, 1 exactly on a timeout, and 2 on any other error. |
| GaseraClient.GateRunIncreasing | firmware/xu4Mqtt/gaseraOne/gaseraOne.py:709-714 | Over any run of ACON timestamps:<br>- the published ones are strictly increasing, each newer than the initial `prevTimeStamp` and taken from the run;<br>- the final `prevTimeStamp` is at least the initial one, bounds every timestamp seen, and is one of them or the initial value;<br>- nothing is published iff no timestamp is newer. |
| GaseraClient.GateRunNewer | firmware/xu4Mqtt/gaseraOne/gaseraOne.py:709 | Each published timestamp is newer than the starting `prevTimeStamp` and comes from the run. |
| GaseraClient.GateRunOrdered | firmware/xu4Mqtt/gaseraOne/gaseraOne.py:709-712 | The published timestamps are strictly increasing. |
| GaseraClient.GateLastBounds | firmware/xu4Mqtt/gaseraOne/gaseraOne.py:712 | `prevTimeStamp` never decreases and ends at the largest timestamp seen (or where it started). |
| GaseraClient.GateRunEmpty | firmware/xu4Mqtt/gaseraOne/gaseraOne.py:713-714 | Nothing is published iff no timestamp is newer than `prevTimeStamp`. |
| GaseraClient.GateStep | firmware/xu4Mqtt/gaseraOne/gaseraOne.py:709-712 | One gate step keeps the larger of the stored and the new timestamp. |
| GaseraClient.GateRunSnoc | firmware/xu4Mqtt/gaseraOne/gaseraOne.py:709-712 | One more reading is published iff it is newer than the current `prevTimeStamp`, which then advances by one step. |
| GaseraClient.Mnemonic | firmware/xu4Mqtt/gaseraOne/gaseraOne.py:729-780 | Every command mnemonic has four letters. |
| GaseraClient.CommandOrders | firmware/xu4Mqtt/gaseraOne/gaseraOne.py:729-780 | The sixteen start-up commands are distinct. The periodic check sends AMST, ANET, ACLK and the daily check STPM, STST, ASTR, STAM, as start-up entries 4, 7, 8 and 0, 13, 14, 15. |
| GaseraClient.MnemonicInjective | firmware/xu4Mqtt/gaseraOne/gaseraOne.py:729-780 | Different commands have different mnemonics. |
| GaseraClient.RequestsFramed | firmware/xu4Mqtt/gaseraOne/gaseraOne.py:100-106 | Each sequence request is framed and carries its mnemonic after the first blank. |
| GaseraClient.AconPublishesOnlyFresh | firmware/xu4Mqtt/gaseraOne/gaseraOne.py:709-714 | An ACON exchange publishes at most one dictionary, and only one whose device time is newer than `prevTimeStamp`, to which it then advances. `prevTimeStamp` never decreases. |
| GaseraClient.Client.Sensor | firmware/xu4Mqtt/gaseraOne/gaseraOne.py:16-23 | The newer client starts with host, task id and the three check times, and `prevTimeStamp` at the construction time. |
| GaseraClient.Client.Legacy | firmware/xu4Mqtt/legacy/gaseraOneReaderLegacy.py:11-13 | The legacy client starts with its host and empty logs. |
| GaseraClient.Client.Connect | firmware/xu4Mqtt/gaseraOne/gaseraOne.py:60-98 | Publishes the attempt's GSR001CS record and returns true exactly when connected. |
| GaseraClient.Client.Exchange | firmware/xu4Mqtt/gaseraOne/gaseraOne.py:125-128 | Sends `format_ak_request(command, data=…)` and screens the reply. |
| GaseraClient.Client.Publish | firmware/xu4Mqtt/gaseraOne/gaseraOne.py:140 | Appends the dictionary's publication when it was built. |
| GaseraClient.Client.RequestStatus | firmware/xu4Mqtt/gaseraOne/gaseraOne.py:119-146 | Sends ASTS. A stopped screen changes nothing else. Otherwise it stores the status code, publishes the ASTS record when built, and returns `(True, label)` or raises. |
| GaseraClient.Client.RequestActiveErrors | firmware/xu4Mqtt/gaseraOne/gaseraOne.py:149-184 | Sends AERR, stores `parts[2:]` and publishes the error record. |
| GaseraClient.Client.RequestTaskList | firmware/xu4Mqtt/gaseraOne/gaseraOne.py:187-246 | Sends ATSK and stores the pairs. An odd token count raises before publishing; otherwise it publishes its task-list record. |
| GaseraClient.Client.RequestMeasurementStatus | firmware/xu4Mqtt/gaseraOne/gaseraOne.py:248-278 | Sends AMST, stores code and label, publishes and returns the label. |
| GaseraClient.Client.RequestName | firmware/xu4Mqtt/gaseraOne/gaseraOne.py:280-304 | Sends ANAM, stores the name and publishes. |
| GaseraClient.Client.RequestIterationNumber | firmware/xu4Mqtt/gaseraOne/gaseraOne.py:306-330 | Sends AITR, stores the iteration text and publishes. |
| GaseraClient.Client.RequestNetworkSettings | firmware/xu4Mqtt/gaseraOne/gaseraOne.py:332-370 | Sends ANET and stores the four settings one by one. A short reply raises after the ones present are stored. |
| GaseraClient.Client.RequestDateTime | firmware/xu4Mqtt/gaseraOne/gaseraOne.py:372-396 | Sends ACLK, stores the device clock text and publishes. |
| GaseraClient.Client.RequestSamplerParameters | firmware/xu4Mqtt/gaseraOne/gaseraOne.py:399-434 | Sends AMPS, stores `parts[2:]` and publishes the sampler record. |
| GaseraClient.Client.RequestSystemParameters | firmware/xu4Mqtt/legacy/gaseraOneReaderLegacy.py:406-442 | Sends ASYP, stores the cleaned parameters, publishes their dictionary or raises. |
| GaseraClient.Client.RequestTaskParameters | firmware/xu4Mqtt/gaseraOne/gaseraOne.py:479-510 | Sends ATSP with its task id, stores `parts[2:]` and publishes its task record. |
| GaseraClient.Client.RequestDeviceInfo | firmware/xu4Mqtt/gaseraOne/gaseraOne.py:512-545 | Sends ADEV and stores the four quote-stripped fields one by one before publishing. |
| GaseraClient.Client.StartSelfTest | firmware/xu4Mqtt/gaseraOne/gaseraOne.py:550-574 | Sends STST and publishes the status. The message says Success exactly for "0". |
| GaseraClient.Client.RequestSelfTestResult | firmware/xu4Mqtt/gaseraOne/gaseraOne.py:576-611 | Sends ASTR. A missing result raises. Otherwise it stores the result, publishes, and returns the verdict, or nothing for other codes. |
| GaseraClient.Client.StopMeasurement | firmware/xu4Mqtt/gaseraOne/gaseraOne.py:614-640 | Sends STPM and publishes the status. |
| GaseraClient.Client.StartMeasurement | firmware/xu4Mqtt/gaseraOne/gaseraOne.py:642-669 | Sends STAM with its task id and publishes the status. |
| GaseraClient.Client.ReadConcentrations | firmware/xu4Mqtt/gaseraOne/gaseraOne.py:676-720 | Sends ACON, then has the effect `AconEffect` describes:<br>- the screen;<br>- `timeStamp` stored before `int(error_status)` can raise;<br>- the readings kept;<br>- the freshness-gated publish. |
| GaseraClient.Client.StoreConcentrations | firmware/xu4Mqtt/gaseraOne/gaseraOne.py:684-716 | The same steps once the 17 tokens passed the screen. |
| GaseraClient.Client.RequestLastMeasurementResults | firmware/xu4Mqtt/gaseraOne/gaseraOne.py:671-720 | AITR first. If it raises, ACON is never sent. Otherwise the ACON exchange follows, with the iteration number just stored. |
| GaseraClient.Client.RequestLegacyConcentrations | firmware/xu4Mqtt/legacy/gaseraOneReaderLegacy.py:626-666 | The legacy ACON: same screen, conversions and loop, with the legacy table. It publishes nothing and keeps no timestamp. |
| GaseraClient.Client.RunCommands | firmware/xu4Mqtt/gaseraOne/gaseraOne.py:729-759 | The requests sent are the sequence's prefix up to and including the first request that raises, or the whole sequence. |
| GaseraClient.Client.StartUpSequence | firmware/xu4Mqtt/gaseraOne/gaseraOne.py:729-759 | The sixteen start-up requests in order, stopping at the first that raises. |
| GaseraClient.Client.PeriodicCheck | firmware/xu4Mqtt/gaseraOne/gaseraOne.py:761-766 | Sets `periodicCheckTime`, then AMST, ANET, ACLK until one raises. |
| GaseraClient.Client.DailyCheck | firmware/xu4Mqtt/gaseraOne/gaseraOne.py:769-780 | Sets `dailyCheckTime`, then STPM, STST, ASTR, STAM until one raises. |
| GaseraClient.Client.Perform | firmware/xu4Mqtt/gaseraOne/gaseraOne.py:729-780 | Sending one sequence command appends exactly its request. |
| Records.KeyIndex | firmware/xu4Mqtt/gaseraOne/gaseraOne.py:467 | A key's first position in the dictionary, or the length when absent. |
| Records.KeyIndexUnique | firmware/xu4Mqtt/gaseraOne/gaseraOne.py:467 | The first position is the only one with those properties. |
| Records.Lookup | firmware/xu4Mqtt/gaseraOne/gaseraOne.py:467 | `d.get(k)` is present iff k is a key. |
| Records.Put | firmware/xu4Mqtt/gaseraOne/gaseraOne.py:467 | `d[k] = v` keeps an existing key's position and appends a new key last. |
| Records.PutLookup | firmware/xu4Mqtt/gaseraOne/gaseraOne.py:467 | After `d[k] = v`, k holds v, other keys are unchanged, and distinct keys stay distinct. |
| Records.PutExisting | firmware/xu4Mqtt/gaseraOne/gaseraOne.py:230-231 | Storing the value a key already holds changes nothing. |
| Records.FirstKeys | firmware/xu4Mqtt/gaseraOne/gaseraOne.py:225-240 | Keys in order of first appearance: the same set, no longer. |
| Records.FirstKeysMerge | firmware/xu4Mqtt/gaseraOne/gaseraOne.py:225-240 | A key listed twice is kept once. |
| Records.CellKeys | firmware/xu4Mqtt/gaseraOne/gaseraOne.py:135-139 | The keys of a display's cells, in order. |
| Records.Record | firmware/xu4Mqtt/gaseraOne/gaseraOne.py:135-139 | A display yields a dictionary iff none of its values raises. |
| Records.RecordLookup | firmware/xu4Mqtt/gaseraOne/gaseraOne.py:225-240 | Each key holds the value of its last cell. |
| Records.RecordKeys | firmware/xu4Mqtt/gaseraOne/gaseraOne.py:225-240 | A dictionary's keys are distinct and in order of first appearance. |
| Records.RecordOfDistinct | firmware/xu4Mqtt/gaseraOne/gaseraOne.py:135-139 | With distinct keys, the dictionary holds exactly the cells, in order. |
| Records.AllSomeConcat | firmware/xu4Mqtt/gaseraOne/gaseraOne.py:135-139 | No value raises in a concatenation iff none raises in either part. |
| Records.Entries | firmware/xu4Mqtt/gaseraOne/gaseraOne.py:135-139 | The entries of a non-raising display have its keys. |
| Records.DisplayRecord | firmware/xu4Mqtt/gaseraOne/gaseraOne.py:135-139 | A display with distinct keys evaluates iff all its values do, and then holds exactly those entries. |
| Records.Display2 | firmware/xu4Mqtt/gaseraOne/gaseraOne.py:563-566 | The two-entry case. |
| Records.Display3 | firmware/xu4Mqtt/gaseraOne/gaseraOne.py:135-139 | The three-entry case. |
| Records.Display6 | firmware/xu4Mqtt/gaseraOne/gaseraOne.py:349-356 | The six-entry case. |
| Records.Display7 | firmware/xu4Mqtt/gaseraOne/gaseraOne.py:169-177 | The seven-entry case. |
| Records.Display8 | firmware/xu4Mqtt/gaseraOne/gaseraOne.py:494-503 | The eight-entry case. |
| Records.LastValueInBlock | firmware/xu4Mqtt/gaseraOne/gaseraOne.py:701 | The last cell with a key decides its value. |
| Records.RecordExtend | firmware/xu4Mqtt/gaseraOne/gaseraOne.py:225-240 | Equal dictionaries stay equal when the same stores follow. |
| Records.RecordLast | firmware/xu4Mqtt/gaseraOne/gaseraOne.py:467 | One more cell: the shorter display's dictionary, then that store. |
| Records.RecordSnoc | firmware/xu4Mqtt/gaseraOne/gaseraOne.py:467 | One more evaluating cell stores its value under its key. |
| Records.Evaluated | firmware/xu4Mqtt/gaseraOne/gaseraOne.py:461-467 | How many stores happen before the first that raises. |
| Records.RecordStep | firmware/xu4Mqtt/gaseraOne/gaseraOne.py:461-467 | One more store of the loop extends the dictionary by `Put`. |
| Records.RecordMerges | firmware/xu4Mqtt/gaseraOne/gaseraOne.py:225-240 | A display listing a key twice has fewer entries than cells. |
| Records.PutCells | firmware/xu4Mqtt/gaseraOne/gaseraOne.py:461-467 | Stores in turn, `None` once one raises. |
| Records.RecordThen | firmware/xu4Mqtt/gaseraOne/gaseraOne.py:688-706 | A display built by a literal and then stores equals the longer display. |
| Records.RecordRaises | firmware/xu4Mqtt/gaseraOne/gaseraOne.py:135-139 | A display raises once any value does. |
| Records.RecordRepeat | firmware/xu4Mqtt/gaseraOne/gaseraOne.py:228-231 | Repeating a prefix of a block with distinct keys changes nothing. |
| Records.RepeatOneMore | firmware/xu4Mqtt/gaseraOne/gaseraOne.py:230-231 | The step: repeating one more cell stores the value its key already holds. |
| Records.BlockValueHeld | firmware/xu4Mqtt/gaseraOne/gaseraOne.py:701 | A cell whose key recurs no later in its block: its key holds its value. |
| Records.DisplayRepeatRun | firmware/xu4Mqtt/gaseraOne/gaseraOne.py:228-231 | Repeating a run of distinct-keyed cells right after it changes nothing. |
| Records.RepeatRunRaising | firmware/xu4Mqtt/gaseraOne/gaseraOne.py:228-231 | A raising display still raises with a repeated run. |
| Records.RepeatRunEvaluating | firmware/xu4Mqtt/gaseraOne/gaseraOne.py:228-231 | A repeated run of an evaluating display gives the same dictionary. |
| Records.LookupDistinct | firmware/xu4Mqtt/gaseraOne/gaseraOne.py:135-139 | With distinct keys, each key holds its entry's value. |
| Records.Publisher.Finish | firmware/xu4Mqtt/sjh5Reader.py:120 | `sensorFinisher` appends one publication to the log. |
| PyText.StripUnpadded | firmware/xu4Mqtt/gaseraOne/gaseraOne.py:208 | Stripping text with no strippable ends changes nothing. |
| PyText.StripQuotesOfQuoted | firmware/xu4Mqtt/gaseraOne/gaseraOne.py:208 | `strip('"')` of a quoted token gives the text between the quotes. |
| PyText.AbsentCharNeverOccurs | firmware/xu4Mqtt/legacy/gaseraOneReaderLegacy.py:429 | A character missing from the text never occurs in it as a separator. |
| PyText.Find | firmware/xu4Mqtt/legacy/gaseraOneReaderLegacy.py:419 | The leftmost occurrence of the separator, or none at all. |
| PyText.FindLeftmost | firmware/xu4Mqtt/legacy/gaseraOneReaderLegacy.py:419 | An occurrence with none before it is the one found. |
| PyText.SplitBy | firmware/xu4Mqtt/inir2me5Reader.py:64 | `split(sep)` gives at least one piece. |
| PyText.JoinSplit | firmware/xu4Mqtt/legacy/gaseraOneReaderLegacy.py:419 | `sep.join(s.split(sep)) == s`. |
| PyText.SplitPiecesFree | firmware/xu4Mqtt/legacy/gaseraOneReaderLegacy.py:419 | No piece of a split contains the separator. |
| PyText.SplitJoin | firmware/xu4Mqtt/legacy/gaseraOneReaderLegacy.py:419 | Pieces without a one-character separator, joined by it, split back into themselves. |
| PyText.SplitPrefixStable | firmware/xu4Mqtt/inir2me5Reader.py:63-64 | Appending text keeps the pieces of a split before the last. |
| PyText.SplitFound | firmware/xu4Mqtt/inir2me5Reader.py:64 | A split cuts at the leftmost occurrence. |
| PyText.FindExtends | firmware/xu4Mqtt/inir2me5Reader.py:63-64 | An occurrence found stays leftmost when text is appended. |
| PyText.NoStraddleDrop | firmware/xu4Mqtt/mReader.py:63 | Dropping a prefix keeps the no-straddle condition. |
| PyText.ReplaceConcat | firmware/xu4Mqtt/mReader.py:63 | Replacing works piecewise when no occurrence straddles the seam. |
| PyText.ReplaceCharPointwise | firmware/xu4Mqtt/gaseraOne/gaseraOne.py:498 | `replace(",", "_")` rewrites exactly the commas. |
| PyText.DigitValue | firmware/xu4Mqtt/inir2me5Reader.py:77 | A digit's value is below its base. |
| PyText.LowerText | firmware/xu4Mqtt/gaseraOne/gaseraOne.py:466 | Character-wise ASCII lower-casing. |
| PyText.IndexOf | firmware/xu4Mqtt/gaseraOne/gaseraOne.py:466 | The first position satisfying a predicate. |
| PyText.DecimalDigit | firmware/xu4Mqtt/sjh5Reader.py:146 | The digit character of a value below 10. |
| PyText.NatText | firmware/xu4Mqtt/sjh5Reader.py:146 | `str(n)` is non-empty decimal digits. |
| PyText.NatTextValue | firmware/xu4Mqtt/sjh5Reader.py:146 | `str(n)` reads back as n. |
| PyText.IntTextRoundTrip | firmware/xu4Mqtt/gaseraOne/gaseraOne.py:137 | `int(str(i)) == i`. |
| PyText.StripNumberText | firmware/xu4Mqtt/gaseraOne/gaseraOne.py:137 | Number text starting with a sign or digit and ending with a digit has nothing to strip. |
| PyText.NatTextIsDigitPart | firmware/xu4Mqtt/gaseraOne/gaseraOne.py:137 | `str(n)` is a valid digit run. |
| PyText.Pad4 | firmware/xu4Mqtt/sjh5Reader.py:146 | `f"{n:04}"` has at least four characters. |
| PyText.NatTextLength | firmware/xu4Mqtt/sjh5Reader.py:146 | A number below `10^k` has at most k digits. |
| PyText.LeadingZeros | firmware/xu4Mqtt/sjh5Reader.py:146 | Leading zeros do not change a digit run's value. |
| PyText.Pad4Value | firmware/xu4Mqtt/sjh5Reader.py:146 | Below 10000, `f"{n:04}"` is exactly four digits that read back as n. |
| PyText.Upper | firmware/xu4Mqtt/inir2me5Reader.py:159 | `upper()` maps a letter to its capital and leaves other characters alone. |
| PyText.Slice | firmware/xu4Mqtt/sjh5Reader.py:154 | `s[lo:hi]` clamped to the length, element by element. |
| Serial.TextConcat | firmware/xu4Mqtt/mReader.py:61 | The text of concatenated reads is the concatenated text. |
| Serial.TextCons | firmware/xu4Mqtt/mReader.py:59-61 | The text of a read is its first character, then the rest. |
| Serial.SerialLine.Write | firmware/xu4Mqtt/sjh5Reader.py:68 | `ser.write` appends exactly its bytes. |
| SjhProtocol.Checksum | firmware/xu4Mqtt/sjh5Reader.py:92-96 | The checksum is a byte, and the data sum plus it is 0 modulo 256. |
| SjhProtocol.ChecksumUnique | firmware/xu4Mqtt/sjh5Reader.py:92-96 | The checksum is the only byte with that property. |
| SjhProtocol.Framed | firmware/xu4Mqtt/sjh5Reader.py:65-67 | `data + [cs]` keeps the data and sums to 0 modulo 256. |
| SjhProtocol.RequestFrame | firmware/xu4Mqtt/sjh5Reader.py:63-68 | The request is the four bytes `[0x11, 0x01, cmd, cs]` and sums to 0. |
| SjhProtocol.MeasurementRequest | firmware/xu4Mqtt/sjh5aReader.py:34-37 | The measurement request is `11 01 01 ED`. |
| SjhProtocol.SumUpdate | firmware/xu4Mqtt/mReader.py:12-16 | Changing one byte changes the sum by the difference. |
| SjhProtocol.SingleByteErrorDetected | firmware/xu4Mqtt/mReader.py:12-16 | Any single-byte corruption of a checksummed frame breaks the zero sum. |
| SjhProtocol.Word | firmware/xu4Mqtt/sjh5Reader.py:102-103 | `df1 * 256 + df2` lies in 0..65535, with `df1` as its high byte and `df2` as its low byte. |
| Sjh5.Classify | firmware/xu4Mqtt/sjh5Reader.py:70-87 | ACK gives `(True, response)`. Another first byte gives `(False, response)`. An empty read, or a NAK too short for byte 3, makes `send_command` catch the IndexError and return None. |
| Sjh5.SendCommand | firmware/xu4Mqtt/sjh5Reader.py:63-87 | Writes exactly the request frame and classifies the read. |
| Sjh5.Flags | firmware/xu4Mqtt/sjh5Reader.py:111-117 | Seven flags. |
| Sjh5.Pow2 | firmware/xu4Mqtt/sjh5Reader.py:111-117 | `2^k`, which is at least 1. The mask values themselves come from `FlagsAreBits`. |
| Sjh5.MaskBit | firmware/xu4Mqtt/sjh5Reader.py:111-117 | `status & 2^k` is `2^k` when bit k is set and 0 otherwise. |
| Sjh5.SetBitKeepsOthers | firmware/xu4Mqtt/sjh5Reader.py:111-117 | Setting one clear bit changes no other bit. |
| Sjh5.FlagsAreBits | firmware/xu4Mqtt/sjh5Reader.py:111-117 | The masks are bits 0, 1, 2, 4, 5, 6 and 7. Each flag is 0 or its mask, according to its bit. Bit 3 is not among them. |
| Sjh5.Bit3Unreported | firmware/xu4Mqtt/sjh5Reader.py:111-117 | Setting bit 3 (0x08) changes no reported flag. |
| Sjh5.StatusAlarms | firmware/xu4Mqtt/sjh5Reader.py:124-137 | `decode_status`: alarm i is raised exactly when its bit is set. |
| Sjh5.GasConcentration | firmware/xu4Mqtt/sjh5Reader.py:98-120 | It decodes iff it is an ACK of at least six bytes. A NAK or another first byte is rejected. An empty read, a short NAK or a short ACK raises. |
| Sjh5.ReadGasConcentration | firmware/xu4Mqtt/sjh5Reader.py:98-120 | Writes the request and publishes "SJH5" exactly when decoded. |
| Sjh5.MonitorLoop | firmware/xu4Mqtt/sjh5Reader.py:50-58 | One request per reply, and the publications of the decoded ones, in order. |
| Sjh5.PublishedOnlyAcks | firmware/xu4Mqtt/sjh5Reader.py:50-58 | At most one publication per reply. There is one for every reply iff every reply is an ACK of six or more bytes. |
| Sjh5.PaddedJoin | firmware/xu4Mqtt/sjh5Reader.py:146 | The joined text of byte parts has four characters per part. |
| Sjh5.PaddedJoinGroup | firmware/xu4Mqtt/sjh5Reader.py:146 | Group k of four characters is part k rendered. |
| Sjh5.InstrumentNumber | firmware/xu4Mqtt/sjh5Reader.py:141-147 | It decodes iff it is an ACK of at least eight bytes, giving 20 characters. A NAK is rejected. |
| Sjh5.InstrumentNumberDigits | firmware/xu4Mqtt/sjh5Reader.py:145-146 | Group k is four decimal digits worth byte `3 + k`. |
| Sjh5.ReadInstrumentNumber | firmware/xu4Mqtt/sjh5Reader.py:141-147 | Writes the request and decodes the reply. |
| Sjh5.SoftwareVersion | firmware/xu4Mqtt/sjh5Reader.py:149-156 | It decodes iff it is an ACK of at least two bytes. It is rejected iff `send_command` returned a non-ACK, and raises iff that returned None or the ACK is shorter than two bytes. The version is the characters of bytes 3.. up to `2 + response[1]`, that end clamped to the read as Python clamps a slice, so its length is `max(0, min(len, 2 + response[1]) - 3)`. |
| Sjh5.ReadSoftwareNumber | firmware/xu4Mqtt/sjh5Reader.py:149-156 | Writes the request and decodes the reply. |
| Sjh5.GasType | firmware/xu4Mqtt/sjh5Reader.py:169-175 | 0 is "CH4/C3H8/CBrH3", 1 is "CO2", 2 and 3 (exactly) are "Reserved", and every other code is "Unknown". |
| Sjh5.Unit | firmware/xu4Mqtt/sjh5Reader.py:178-184 | 0 (exactly) is "ppm", 1..3 (exactly) are "%", and every other code is "Unknown". |
| Sjh5.MeasurementProperties | firmware/xu4Mqtt/sjh5Reader.py:159-187 | It decodes iff it is an ACK of at least eight bytes. It is rejected iff `send_command` returned a non-ACK, and raises iff that returned None or the ACK is shorter than eight bytes. The result is the range mantissa and exponent, followed by the gas type and unit looked up. |
| Sjh5.ReadMeasurementProperties | firmware/xu4Mqtt/sjh5Reader.py:159-187 | Writes the request and decodes the reply. |
| Sjh5a.CheckReply | firmware/xu4Mqtt/sjh5aReader.py:43-62 | A length other than 8 is "Invalid response length". An 8-byte ACK is decoded into the concentration word and ST1, ST2. Any other 8-byte reply is NAK/unknown. |
| Sjh5a.FullReadRejected | firmware/xu4Mqtt/sjh5aReader.py:28-45 | A full nine-byte read is never decoded. |
| Sjh5a.CheckMeasurement | firmware/xu4Mqtt/sjh5aReader.py:33-62 | Writes `11 01 01 ED` and checks the reply. |
| MReader.Newlines | firmware/xu4Mqtt/mReader.py:62 | Exactly the newline positions, increasing. |
| MReader.AssembleLines | firmware/xu4Mqtt/mReader.py:56-69 | The buffer is the text of every byte received. The strings emitted are those `Emitted` describes. |
| MReader.Monitor | firmware/xu4Mqtt/mReader.py:34-69 | Writes the measurement request, then assembles. |
| MReader.EmissionOfPrefix | firmware/xu4Mqtt/mReader.py:59-63 | What is emitted at a byte depends only on the bytes up to it. |
| MReader.EmittedAtNewlines | firmware/xu4Mqtt/mReader.py:62-63 | One string per '\n', each the whole buffer up to that byte with "\r\n" removed. |
| MReader.EmittedExtends | firmware/xu4Mqtt/mReader.py:56-69 | Each emitted string is a prefix of the next, because the buffer is never cleared. |
| MReader.EmissionGrows | firmware/xu4Mqtt/mReader.py:61-63 | The cleaned buffer at a newline is a prefix of the cleaned buffer at any later byte. |
| MReader.NewlineEndsNoStraddle | firmware/xu4Mqtt/mReader.py:63 | No "\r\n" straddles a seam that follows a newline. |
| Inir2me5.BracketCommand | firmware/xu4Mqtt/inir2me5Reader.py:159 | `"[" + upper(cmd) + "]"`: three characters with the capital letter in the middle. |
| Inir2me5.Encode | firmware/xu4Mqtt/inir2me5Reader.py:160 | `encode()` of ASCII text: its bytes read back as the text. |
| Inir2me5.Acknowledgement | firmware/xu4Mqtt/inir2me5Reader.py:166-173 | The reply is stripped, and the command is accepted iff the stripped reply ends with "5b414b5d". |
| Inir2me5.HexText | firmware/xu4Mqtt/inir2me5Reader.py:169 | The hex-echo text is two characters per character. |
| Inir2me5.AckIsHexOfAk | firmware/xu4Mqtt/inir2me5Reader.py:169 | "5b414b5d" is the hex echo of "[AK]". |
| Inir2me5.SendCommand | firmware/xu4Mqtt/inir2me5Reader.py:154-173 | A command that is not one letter writes nothing and returns None. A valid one writes exactly the bracketed command and returns the acknowledgement. |
| Inir2me5.NonBlank | firmware/xu4Mqtt/inir2me5Reader.py:65 | Every kept line is a non-blank line of the input, and there are at most as many kept lines as input lines. |
| Inir2me5.NonBlankKeeps | firmware/xu4Mqtt/inir2me5Reader.py:65 | Every non-blank input line is kept. An input with no blank line is kept whole, and one of only blank lines gives `[]`. With `NonBlankConcat`, the filter is exactly the non-blank lines, in order. |
| Inir2me5.NonBlankConcat | firmware/xu4Mqtt/inir2me5Reader.py:65 | Dropping blank lines distributes over concatenation. |
| Inir2me5.FrameKeysDistinct | firmware/xu4Mqtt/inir2me5Reader.py:75-84 | The eight frame keys are distinct. |
| Inir2me5.FrameDecodes | firmware/xu4Mqtt/inir2me5Reader.py:75-84 | A frame's dictionary exists iff lines 1..7 are hex. It is then the host time, then methane, faultCode, temperature, ref, act, crc and crc1sComp, in order. |
| Inir2me5.RunFrom | firmware/xu4Mqtt/inir2me5Reader.py:59-96 | The loop is one step per byte. |
| Inir2me5.StepBuffer | firmware/xu4Mqtt/inir2me5Reader.py:61-94 | The buffer is cleared iff a frame (start and end marker) was decoded. Otherwise the byte is appended. |
| Inir2me5.StepPublishes | firmware/xu4Mqtt/inir2me5Reader.py:87-89 | A step publishes iff it decodes a frame after more than 60 s. |
| Inir2me5.StepRaises | firmware/xu4Mqtt/inir2me5Reader.py:98-100 | A frame whose fields do not convert ends the loop with the buffer kept. |
| Inir2me5.StepAccumulates | firmware/xu4Mqtt/inir2me5Reader.py:61-68 | Without a frame, the byte is appended and nothing else changes. |
| Inir2me5.StepDecoded | firmware/xu4Mqtt/inir2me5Reader.py:69-94 | A decoded frame clears the buffer, and is published once warmed up. |
| Inir2me5.ColdRunPublishesNothing | firmware/xu4Mqtt/inir2me5Reader.py:87 | Nothing is published while every byte arrives within 60 s of the start. |
| Inir2me5.ShortFrameStops | firmware/xu4Mqtt/inir2me5Reader.py:75-100 | A frame of fewer than eight lines raises and ends the loop. |
| Inir2me5.CompletePrefix | firmware/xu4Mqtt/inir2me5Reader.py:63-65 | Appending keeps the first complete line. |
| Inir2me5.LinesSplit | firmware/xu4Mqtt/inir2me5Reader.py:63-65 | The lines are the complete non-blank lines, then the unfinished piece if it is not blank. |
| Inir2me5.StuckExtends | firmware/xu4Mqtt/inir2me5Reader.py:63-69 | A buffer whose first complete line is not the start marker stays so as bytes arrive. |
| Inir2me5.StuckUnframed | firmware/xu4Mqtt/inir2me5Reader.py:69 | Such a buffer is never a frame. |
| Inir2me5.StrayTerminatorSticks | firmware/xu4Mqtt/inir2me5Reader.py:68-94 | A terminator line without the start marker first leaves the buffer uncleared, and it never clears again. |
| Inir2me5.StuckRun | firmware/xu4Mqtt/inir2me5Reader.py:59-96 | From a stuck buffer the loop only appends: it never publishes or clears again. |
| Inir2me5.StuckStep | firmware/xu4Mqtt/inir2me5Reader.py:59-69 | One step from a stuck buffer appends the byte. |
| Inir2me5.Engineering | firmware/xu4Mqtt/inir2me5Reader.py:53-100 | The loop's buffer, publications and stop flag are those of `Run` over the received bytes and clock readings. |
| Inir2me5.SettingsKeysDistinct | firmware/xu4Mqtt/inir2me5Reader.py:112-149 | The 36 settings keys are distinct, with 35 divisors. |
| Inir2me5.SettingsGroupsDistinct | firmware/xu4Mqtt/inir2me5Reader.py:112-149 | Each group of settings keys is distinct. |
| Inir2me5.SettingsGroupsDisjoint45 | firmware/xu4Mqtt/inir2me5Reader.py:141-148 | The last two groups share no key. |
| Inir2me5.SettingsGroupsDisjoint3 | firmware/xu4Mqtt/inir2me5Reader.py:131-148 | Group 3 shares no key with the later groups. |
| Inir2me5.SettingsGroupsDisjoint2 | firmware/xu4Mqtt/inir2me5Reader.py:125-148 | Group 2 shares no key with the later groups. |
| Inir2me5.SettingsGroupsDisjoint1 | firmware/xu4Mqtt/inir2me5Reader.py:119-148 | Group 1 shares no key with the later groups. |
| Inir2me5.SettingsGroupsDisjoint0 | firmware/xu4Mqtt/inir2me5Reader.py:113-148 | Group 0 shares no key with the later groups. |
| Inir2me5.SettingsDecodes | firmware/xu4Mqtt/inir2me5Reader.py:106-151 | A settings reply is decoded only with exactly 38 non-blank lines. It publishes iff lines 1..35 are hex, and the dictionary is then the host time plus the 35 settings, each divided as the source divides it. |
| Inir2me5.SessionCommandBytes | firmware/xu4Mqtt/inir2me5Reader.py:35-52 | `main` writes "[C]", "[I]" and "[B]". |
| Inir2me5.SendLetter | firmware/xu4Mqtt/inir2me5Reader.py:154-173 | A letter always writes its bracketed command and returns the acknowledgement. |
| Inir2me5.ReadSettings | firmware/xu4Mqtt/inir2me5Reader.py:34-46 | Writes [C] then [I]. The settings are decoded only when [I] was accepted, and published when decoded. |
| Inir2me5.Session | firmware/xu4Mqtt/inir2me5Reader.py:34-100 | The settings read, then [B] unless printing the settings raised. Engineering mode is entered iff [B] was accepted, and the loop then runs from an empty buffer. |
| Inir2me5.Publish | firmware/xu4Mqtt/inir2me5Reader.py:89 | Each publication is appended in turn. |

## Definitions

These members model source code, but their contracts only spell out their own definitions. Each is listed with the lines it models and the lemmas or methods whose contracts state its properties.

- `AkTables.Get`, `AkTables.StatusLabel`, `AkTables.MeasurementStatusLabel`, `AkTables.GasName` (gaseraOne/gaseraOne.py:133, 261-265, 698): `dict.get` with a default, over the three tables. Their properties are in `StatusLabelFallback`, `MeasurementStatusLabelFallback`, `MissingCodesAreUnknown`, `GasNameFallback` and `CasTableDifferences`.
- `AkDecode.Slot`, `AkDecode.From` (gaseraOne/gaseraOne.py:132, 162): `parts[k] if len(parts) > k else default`, and `parts[k:]`. They are used by every record lemma; see `MissingStatusIsMinusOne`, `MissingErrorSlotsAreZero` and `MissingSamplerSlotsAreNP`.
- `AkDecode.TaskListValues`, `AkDecode.TaskListRecord` (gaseraOne/gaseraOne.py:213-241): the twelve task-list slots and the display. These are stated by `TaskListDecodes`, `TaskListKeysDistinct` and `TaskListRoundTrip`.
- `AkDecode.AsTokens`, `AkDecode.CleanParameter`, `AkDecode.CleanParameters` (legacy/gaseraOneReaderLegacy.py:418-419): the two NULL filters. These are stated by `BytesNullFilterKeepsAll`, `DropNull` and `CleanParameterDropsNull`.
- `AkDecode.SystemParameterCells` (gaseraOne/gaseraOne.py:458-467): the ASYP stores. The loop `SystemParameterFields` is proved against them, and `ParameterItemRoundTrip` states each cell.
- `AkDecode.ReadingLine`, `AkDecode.ReadingLines`, `AkDecode.FloatValue`, `AkDecode.ReadingCell`, `AkDecode.ReadingCells` (gaseraOne/gaseraOne.py:695-701): one reading's `measurements` line and dictionary store. The loop `CollectReadings` is proved against them. Their properties are in `ReadingsTileReply`, `RecordNextReading`, `ReadingsAppended`, `AconLastReadingWins` and `AconRepeatedGasMerges`.
- `GaseraClient.PublishIf`, `GaseraClient.Finish` (gaseraOne/gaseraOne.py:135-144): publish when built, and the method's result. These are used by every request method's contract.
- `GaseraClient.ConnectionRecord` (gaseraOne/gaseraOne.py:72-97): the GSR001CS dictionary. `ConnectionStatus` and `Client.Connect` state it.
- `GaseraClient.Request`, `GaseraClient.CommandRequest`, `GaseraClient.Requests` (gaseraOne/gaseraOne.py:729-780): the request each sequence command sends. These are stated by `RequestsFramed`, `MnemonicInjective`, `CommandOrders` and `Client.RunCommands`.
- `GaseraClient.AconTail`, `GaseraClient.AconEffect`, `GaseraClient.AconPartsEffect` (gaseraOne/gaseraOne.py:676-720): the ACON tail cells and the whole ACON effect. `Client.ReadConcentrations` is proved against them; `AconPublishesOnlyFresh` states the gate.
- `GaseraClient.GateRun`, `GaseraClient.GateLast` (gaseraOne/gaseraOne.py:709-714): the freshness gate over a run of readings. These are stated by `GateRunIncreasing`, `GateRunNewer`, `GateRunOrdered`, `GateLastBounds`, `GateRunEmpty` and `GateRunSnoc`.
- `GaseraClient.Client.PerformA` to `PerformD` (gaseraOne/gaseraOne.py:729-780): the dispatch of one sequence command. See "## Left out".
- `Records.Display`, `Records.FixedCell` (gaseraOne/gaseraOne.py:135-139): `OrderedDict([...])` and a value that cannot raise. These are stated by `DisplayRecord`, `Display2` to `Display8` and `RecordOfDistinct`.
- `Serial.Text` (sjh5Reader.py:155): one character per byte. See `TextConcat`, `TextCons` and `Encode`.
- `PyText.ParseInt` (inir2me5Reader.py:77, gaseraOne/gaseraOne.py:137): `int(s, base)`. See `IntTextRoundTrip`, `NatTextValue`, `Pad4Value` and `HexValue`.
- `PyText.Strip`, `PyText.Replace`, `PyText.Join` (gaseraOne/gaseraOne.py:208, 498; mReader.py:63; legacy/gaseraOneReaderLegacy.py:419): Python's `strip`, `replace` and `join`. See `StripQuotesOfQuoted`, `StripUnpadded`, `ReplaceCharPointwise`, `ReplaceConcat`, `JoinSplit` and `SplitJoin`.
- `Sjh5.ConcentrationFields`, `Sjh5.And`, `Sjh5.Flag` (sjh5Reader.py:102-118): the concentration dictionary and the `status1 & mask` flags. These are stated by `FlagsAreBits`, `MaskBit`, `Bit3Unreported`, `GasConcentration` and `Word`.
- `Sjh5.Published` (sjh5Reader.py:50-58): the publications of the monitor loop. See `MonitorLoop` and `PublishedOnlyAcks`.
- `MReader.Clean`, `MReader.Emitted` (mReader.py:56-69): `replace("\r\n", "")` and the strings the loop prints. `AssembleLines` is proved against them. The properties are in `EmittedAtNewlines` and `EmittedExtends`.
- `Inir2me5.Lines`, `Inir2me5.FrameRecord`, `Inir2me5.HexValue`, `Inir2me5.TemperatureValue` (inir2me5Reader.py:63-84): the blank-free split and a frame's dictionary. See `LinesSplit`, `FrameDecodes` and `FrameKeysDistinct`.
- `Inir2me5.Step`, `Inir2me5.Run` (inir2me5Reader.py:56-100): one byte's pass of the engineering loop, and the loop. `Engineering` is proved against them. Their properties are in `StepBuffer`, `StepPublishes`, `StepRaises`, `StepDecoded`, `ColdRunPublishesNothing`, `StuckRun` and `StrayTerminatorSticks`.
- `Inir2me5.SettingsReport`, `Inir2me5.SettingsPublished` (inir2me5Reader.py:106-151): `printSettings`. See `SettingsDecodes` and `ReadSettings`.
- `Inir2me5.CommandBytes` (inir2me5Reader.py:159-160): the bytes written for a command. See `SessionCommandBytes` and `SendCommand`.

## Left out

- **I/O.** Sockets, serial ports, their read sizes, timeouts and chunking, and every `time.sleep` are not modelled. Replies and received bytes are method parameters. Writes and publications are logs.
- `mSR.sensorFinisher` and `mSR.delayMints` belong to `mintsXU4/mintsSensorReader.py`, which is not part of this model. Publishing appends a `Publication`, and `delayMints` is dropped.
- **Clocks.** `datetime.now`, `time.time` and `strftime` are not modelled. The host time in a dictionary is the stand-in `HostClock`. Elapsed times and the warm-up test use integer host seconds given as parameters. Device timestamps are integers.
- **Floating point.** Decimal values are not computed:
  - `float()` results are kept as the accepted text;
  - divisions (`/100.0`, `/10 - 273.15`, `/10000`, `/1000000`, `/ 10**d2`) are kept as exact ratios or numerator/exponent pairs.
- **Text encoding.** UTF-8 encoding and decoding (including `decode(errors="ignore")`) and non-ASCII `isalpha`/`upper` behaviour are not modelled. One character stands for one byte.
- The human-readable messages of the request methods, `print` and `pprint` are not modelled. A method's result records only whether it returned a pair or a bare message, plus the label or decision the message carries.
- `self.tasks` (its task-list message lines) and the message `"\n".join(self.tasks)` are not modelled.
- `disconnect` only closes the socket, so it is not modelled.
- The CLI driver `gaseraOneReader.py`, `mintsDefinitions.py`, and the INA219/GPIO readers are not modelled.
- The first `ser.read(500)` in the INIR2-ME5 `send_command` is discarded by the source. The model takes only the second read as the reply.
- `serial.SerialException` while opening the port in `main` is not modelled.
- The extra `print(response)` after [B] is not modelled.
- The SJH-5 `main` does four reads before its loop. These are the separate reader methods; their fixed order is not one method.
- The error code at byte 3 of a NAK is only printed.
- The reply checksum is never checked by the source, and not by the model either.
- Inside `sjh5Reader.py`'s loop, an exception is caught and the loop continues. `MonitorLoop` models this as a reply that publishes nothing.
- GaseraClient.Client.Perform: states only the request it sends. PerformA to PerformD (the four groups it dispatches to, split only to keep each proof small) are the same. Each command's effect is stated by the request method it calls.
- GaseraClient.Client.RunCommands: states the requests sent and that the run stops at the first raise. It does not restate each command's publications and attributes. The same holds for StartUpSequence, PeriodicCheck and DailyCheck. The source's three straight-line sequences are modelled by this one loop over the command list, with the same stop-at-first-exception behaviour.
- GaseraClient.Client.Sensor: the newer client's `prevTimeStamp` starts at the construction time, as a whole number of seconds. That is exact for the integer device timestamps it is compared with.
- GaseraClient.Client.ReadConcentrations: when the AITR attribute was never set, the model's `iterationNumber` cell is a raising value. In the source, reading an attribute that was never set also raises.
- GaseraClient.Client.RequestTaskParameters: the legacy method takes its task id as an argument. The newer client's `defualtTaskID` is passed by the start-up sequence.
- Inir2me5.Session: the settings `dateTime` is the host-clock stand-in. The loop's exception handler is modelled only for conversion errors of a frame's fields.
- The outer `while True: check_measurement()` loop of `sjh5aReader.py`, with its ten-second sleep, its exception handler and `ser.close()` in `finally`, is not modelled. `CheckMeasurement` models one pass.
