# BLE central client: advertisement parser and connection handler

This project is a Dafny model of `servidor.py`, a MicroPython BLE central. The client scans for a peripheral that advertises the service `6e400001-b5a3-f393-e0a9-e50e24dcca9e` and connects to it. It then discovers that service and its characteristic `6e400003-…`. Next it enables notifications on the characteristic and writes a greeting. On every disconnect it starts scanning again.

The model has three modules:

- `BleTypes` (`ble_types.dfy`) holds the shared values.
  - Bytes are integers 0..255.
  - UUIDs are raw byte sequences. The two target UUIDs are stored in little-endian order, which is how MicroPython keeps them and how they travel over the air.
  - Radio events form one datatype with one variant per event code of `ble_irq`: 5, 7, 8, 9, 11 and 18. A seventh variant, `Other(code)`, covers every other code: its code has the type `UnhandledCode`, which excludes those six.
  - Radio commands form a second datatype: scan with a duration, scan-stop, connect, discover services, discover characteristics, and write.
- `Advertising` (`advertising.dfy`) models `decode_services`.
  - `Decode(adv, i)` is a recursive function giving what the parser returns when its cursor is at `i`.
  - `DecodeServices` is the parser's own `while` loop, with the inner `for` over UUIDs. It is proved equal to `Decode(adv, 0)`.
  - The parser has no bounds checks, so it can raise. Each way it raises is an explicit `Failed` outcome:
    - `MissingType`: a non-zero length byte is the last byte, so reading the type byte fails (line 84).
    - `InvalidUuid`: a UUID slice cut short by the end of the buffer has a length the UUID constructor refuses (line 87).
  - A short slice of exactly 2 or 4 bytes becomes a 16- or 32-bit UUID, as MicroPython's `bluetooth.UUID` does with such a buffer. No such UUID can equal the 128-bit target.
  - `ServiceList` builds an AD structure of type 0x06 / 0x07. The lemmas prove that parsing it gives back exactly the listed UUIDs, including when it sits inside a larger payload.
- `Central` (`central.dfy`) models `ble_irq`, `try_reconnect` and one pass of the main loop.
  - `Session` holds the two globals `conn_handle` and `char_handle`, the LED, and the log of radio commands issued so far.
  - `Step` says what handling one event does, `LoopStep` what one pass of the main loop does, and `Run` what handling a sequence of events does.
  - The class `Client` has these as fields. Its methods `HandleEvent`, `TryReconnect` and `MainLoopStep` update the fields in place, and each is proved to produce exactly the `Step` / `Reconnect` / `LoopStep` state.
  - The scan-result branch calls the parser method.

Radio calls are not performed. Each call is appended to `log` with the arguments the source passes. Discovery and writes use the global `conn_handle`, so those commands carry an `Option<int>`.

What the code does and does not do:

- The code has no phase variable. It keeps no "discovery complete" or "connect failed" handling, and it does not compare the current phase before acting on an event.
- A scan result is acted on whenever it lists the target, and a service or characteristic result whenever its UUID matches.
- `decode_services` returns a list (order and repeats kept), not a set.
- The parser raises in exactly two cases: a non-zero length byte is the last byte of the payload (`MissingType`), or a 0x06/0x07 structure runs past the end so that one of its UUID slices is neither 2, 4 nor 16 bytes long (`InvalidUuid`). Any other truncation returns normally, with the UUIDs decoded so far: a structure of another AD type, a UUID list whose missing bytes are only trailing partial-UUID bytes, and a short slice of exactly 2 or 4 bytes. When the parser raises, the model leaves the state untouched, so a scan result whose payload makes the parser raise issues no command.
- `char_handle` is overwritten by every characteristic result, matching or not.
- A characteristic result arriving while `conn_handle` is None still sets `char_handle`. So "a characteristic handle only while connected" is not an invariant of the code.

## Model

| member | source | states |
|---|---|---|
| Advertising.DecodeServices | servidor.py:77-90 | the parser loop terminates (the cursor moves by 1 + L with L ≥ 1) and returns exactly `Decode(adv, 0)`, including the two ways it raises |
| Advertising.RecordContribution | servidor.py:84-89 | a complete structure of type 0x06/0x07 and length L contributes exactly (L-1) div 16 UUIDs of 16 bytes; UUID j is bytes [i+2+16j, i+18+16j); they come in position order, ahead of the rest of the payload; any other type contributes nothing |
| Advertising.WellFormedDecodes | servidor.py:80-89 | a payload made of complete, non-zero-length structures never makes the parser raise, and every UUID it yields is 16 bytes |
| Advertising.DecodeShift | servidor.py:80-89 | the parser reads the structures that follow any prefix exactly as if they started the buffer |
| Advertising.DecodeConcat | servidor.py:80-89 | after a complete run of structures, the rest is decoded on its own and its UUIDs come after the run's: UUIDs come out in record order |
| Advertising.ZeroLengthStops | servidor.py:80-83 | after a complete run of structures, a zero length byte ends the parse: no byte after it changes the result |
| Advertising.DecodedUuidsOccur | servidor.py:85-88 | every UUID the parser yields is a run of bytes of the payload |
| Advertising.ServiceListRoundTrip | servidor.py:85-88 | a 128-bit UUID list structure of up to 15 UUIDs is well formed and parses back to exactly its UUIDs, in order |
| Advertising.AdvertisedUuidsFound | servidor.py:80-89 | a UUID list after a complete run of structures yields the run's UUIDs, then the list, then what follows; each listed UUID is found unless the bytes after it make the parser raise |
| Advertising.LengthAtEndRaises | servidor.py:81-84 | a non-zero length byte as the last byte makes the parser raise (the type byte is read past the end) |
| Advertising.ShortUuidRaises | servidor.py:86-87 | after a well-formed run, a 0x06/0x07 structure whose UUID slices before slice j are 2, 4 or 16 bytes long and whose slice j is not makes the parser raise on slice j |
| Advertising.OverrunWithoutShortUuidEnds | servidor.py:80-89 | after a well-formed run, a last structure that claims more bytes than remain, with every UUID slice 2, 4 or 16 bytes long, raises nothing and ends the parse; it contributes exactly those slices, in order, if it is 0x06/0x07, and nothing otherwise |
| Central.Client.constructor | servidor.py:12-15 | at start-up both handles are None and no command has been issued |
| Central.Client.TryReconnect | servidor.py:17-23 | clears both handles, lights the LED and appends one scan of 30000 ms |
| Central.Client.HandleEvent | servidor.py:25-74 | sets exactly the state `Step` gives for the event, calling the parser method on a scan result |
| Central.Client.MainLoopStep | servidor.py:95-99 | sets exactly the state `LoopStep` gives |
| Central.DisconnectRecovers | servidor.py:41-43 | from any state, a disconnect sets both handles to None, lights the LED and issues exactly one scan of 30000 ms |
| Central.ScanResultConnectsIffAdvertised | servidor.py:28-33 | a scan result issues scan-stop then connect(addr_type, addr) if the decoded services include the target, and no command otherwise; handles and LED unchanged |
| Central.ScanResultWithoutTargetIsIgnored | servidor.py:28-33 | a payload in which the target's 16 bytes never appear changes nothing |
| Central.ConnectDiscoversServices | servidor.py:35-39 | connect records the event's handle, turns the LED off and issues exactly one service discovery on that handle; `char_handle` untouched |
| Central.ServiceResultDiscoversIffTarget | servidor.py:45-52 | a service result issues characteristic discovery on the current connection over its own start/end handles iff its UUID is the target's; handles and LED unchanged |
| Central.CharacteristicResultSubscribesIffTarget | servidor.py:54-65 | `char_handle` becomes the value handle for every result; on the target UUID exactly two writes follow, in order: `01 00` at value handle + 1 and then the greeting at the value handle, both mode 1; otherwise none |
| Central.NotifyAndOtherChangeNothing | servidor.py:67-74 | a notification or an unhandled event code changes no handle, no LED and issues no command |
| Central.LoopStepScansIffDisconnected | servidor.py:95-99 | a main-loop pass lights the LED and issues one scan of 30000 ms iff there is no connection, and otherwise changes nothing |
| Central.ServiceResultsDiscover | servidor.py:45-52 | a run of service results changes neither handle nor the LED and issues one characteristic discovery per matching result, in order |
| Central.ServiceDiscoveryConverges | servidor.py:45-52 | among service results of which exactly one matches, at any position, the only command issued is discovery over that result's handle range |
| Central.StepKeepsIndicating | servidor.py:17-43 | every event keeps "LED on iff no connection" |
| Central.RunKeepsIndicating | servidor.py:25-74 | any sequence of events keeps "LED on iff no connection" |
| Central.IndicatingHolds | servidor.py:95-99 | the first main-loop pass (no connection yet) establishes "LED on iff no connection" whatever the LED's initial state, and later events keep it |
| Central.RunOnlyAppends | servidor.py:25-74 | handling events never removes or alters a command already issued |
| Central.FullSession | servidor.py:25-74 | from any state, disconnect, a target advertisement, connect, a non-matching then a matching service result, the target characteristic and a notification issue exactly scan, scan-stop, connect, service discovery, characteristic discovery over the matching range, the `01 00` write at H+1 and the greeting write at H; the client is left connected with the LED off |

## Left out

- The radio itself (`BLE()`, `active`, `irq` registration, lines 9-10 and 93). Every call into it is a command appended to `log`; what the radio does with a command is not modelled. This includes rejecting a None connection handle, which discovery and write commands can carry when a result arrives after a disconnect.
- What MicroPython's runtime does with an exception that escapes `ble_irq` (the parser's IndexError or ValueError) is not part of this model. The model treats such an event as leaving the state untouched and goes on handling later events. The runtime prints the exception, and it may also unregister the interrupt handler, after which no further event would be handled.
- Console output (`print`) and the UTF-8 decode in the notify branch (lines 69-74). With or without a decode error, a notification changes no state, and that is all the model states about it.
- The LED's GPIO pin (line 15) is a boolean field. Its initial level is a constructor parameter, because `Pin(..., Pin.OUT)` does not fix it.
- `time.sleep` and the endless `while True` (lines 95-100): the model covers one pass of the loop body.
- Concurrency between the interrupt handler and the main loop. Events and loop passes are handled one at a time, each to completion.
- `bluetooth.UUID` objects: UUIDs are their raw bytes, compared by equality. The model assumes that a buffer becomes a UUID exactly when it is 2, 4 or 16 bytes long, which is MicroPython's rule.
- Handles are unbounded integers. The 16-bit range of real attribute handles (and `value_handle + 1` overflowing it) is not modelled.
- The characteristic-result branch guards with `len(data) >= 4` and then reads `data[4]` (lines 55-57). MicroPython always passes a 5-tuple here, so the model takes a typed record of five fields and does not reproduce the IndexError a 4-tuple would raise.
- Event codes the source never handles (6 scan done, 10 and 12 discovery done, connect failures) fall under `Other` and change nothing. The model adds no behaviour for them.
