# LiTime BMS session engine, modelled in Dafny

This project models the session engine of the LiTime BMS Bluetooth integration
(`custom_components/litime_bms_ble/coordinator.py`). The engine does four things:

- It builds 8-byte command frames with an additive checksum.
- It reassembles status responses from BLE notification packets.
- It decodes the fixed-layout, little-endian status frame into a reading.
- It runs the polling cycle: connect, negotiate the characteristics, send the
  query, await the response and decode it, keeping a missed-update counter and
  the link handle up to date.

The modules follow that structure:

- `Bytes`: bytes and the `struct` layouts `<H`, `<h`, `<I`, `<i`.
- `Flags`: protection and failure status strings.
- `Frames`: the command frame and the raw status-frame layout.
- `Status`: the decoded reading, the cell-voltage loop, the parser and the offline reading.
- `Reassembly`: the notification handler as a pure transition function.
- `Gatt`: the characteristic-selection rule.
- `Link`: the connect-and-negotiate step.
- `Coordinator`: the class `LitimeBmsCoordinator`.

All quantities are raw integers in the units the BMS sends: mV, mA, 0.01 Ah and
mAh. The transport is an oracle passed as arguments:

- a `LinkOracle` says whether a held client is still connected, whether the
  address resolves, how connecting ends, and whether subscribing and a teardown
  disconnect succeed;
- a flag says whether a GATT write succeeds;
- a sequence holds the notification packets that arrive while a response is
  awaited. If they do not complete a response, the wait has timed out.

The device constants are parameters, carried in `Coordinator.Config`: the UUIDs,
the protection table, the battery-state codes and the opcodes. Only
`MIN_RESPONSE_LENGTH` (104) and `MAX_CELLS` (16) are fixed, because the frame
layout needs them.

Some behaviour of the code that the model keeps as written:

- `_build_command(0x01)` has checksum 0x04 + 0x01 + 0x01 = 0x06 (`Frames.QueryChecksum`).
- The timeout path itself (coordinator.py:386-393) does not clear the partial
  buffer.
- A parse failure and an absent response do not count as a missed update.
- A live reading with no present cell has min, max and delta absent, although it
  is online.

## Model

| member | source | states |
|---|---|---|
| Bytes.U16 | custom_components/litime_bms_ble/coordinator.py:99 | the little-endian "<H" read lies in 0..65535 |
| Bytes.U32 | custom_components/litime_bms_ble/coordinator.py:89 | the little-endian "<I" read lies in 0..2^32-1 |
| Bytes.I16 | custom_components/litime_bms_ble/coordinator.py:129-132 | the "<h" read lies in the signed 16-bit range and is negative exactly when the top byte has its high bit set |
| Bytes.I32 | custom_components/litime_bms_ble/coordinator.py:122 | the "<i" read lies in the signed 32-bit range and is negative exactly when the top byte has its high bit set |
| Bytes.U32Of | custom_components/litime_bms_ble/coordinator.py:89 | four little-endian bytes of x read back as x |
| Frames.BuildCommand | custom_components/litime_bms_ble/coordinator.py:46-53 | the frame is 8 bytes: header 00 00 04 01, the opcode, trailer 55 AA, and a checksum that is the low byte of bytes 2+3+4 |
| Frames.CommandRoundTrip | custom_components/litime_bms_ble/coordinator.py:46-53 | the opcode can be read back from every built frame, and a frame that passes the format check is exactly the frame built for its opcode |
| Frames.QueryChecksum | custom_components/litime_bms_ble/coordinator.py:52-53 | the status query 0x01 gets checksum 0x06 |
| Frames.ReadRaw | custom_components/litime_bms_ble/coordinator.py:88-174 | each field read at its offset is within the range of its width |
| Frames.ReadRawWindow | custom_components/litime_bms_ble/coordinator.py:81-176 | the decoder reads only bytes 12..103: two frames that agree there decode alike |
| Frames.ReadEncodeRoundTrip | custom_components/litime_bms_ble/coordinator.py:88-174 | encoding well-formed raw fields at their offsets and decoding them gives the same fields back |
| Flags.ProtectionStatus | custom_components/litime_bms_ble/coordinator.py:56-64 | a zero word gives "OK", and any other status comes from a nonzero word with at least one matching label |
| Flags.MatchingLabels | custom_components/litime_bms_ble/coordinator.py:60-63 | the collected labels number at most the table entries |
| Flags.ZeroMatchesNothing | custom_components/litime_bms_ble/coordinator.py:58-63 | a zero word matches no table entry |
| Flags.MatchingLabelSound | custom_components/litime_bms_ble/coordinator.py:61-63 | every reported label belongs to an entry whose mask shares a bit with the flags |
| Flags.MatchingLabelComplete | custom_components/litime_bms_ble/coordinator.py:61-63 | every entry whose mask shares a bit with the flags is reported |
| Flags.SplitJoin | custom_components/litime_bms_ble/coordinator.py:64 | the ", " join of comma-free labels splits back into those labels |
| Flags.ProtectionStatusMeaning | custom_components/litime_bms_ble/coordinator.py:56-64 | the status is "OK" exactly when no table bit matches, and otherwise the matching labels can be read back from it in table order |
| Flags.DecodeProtectionFlags | custom_components/litime_bms_ble/coordinator.py:56-64 | the loop gives "OK" for a zero word or when nothing matches, and otherwise the ", " join of the matching labels in table order |
| Flags.Hex | custom_components/litime_bms_ble/coordinator.py:71 | the rendering has exactly n characters, each an upper-case hex digit |
| Flags.HexRoundTrip | custom_components/litime_bms_ble/coordinator.py:71 | n hex digits of a value below 16^n read back as that value |
| Flags.FailureStatus | custom_components/litime_bms_ble/coordinator.py:67-71 | the status is "OK" exactly when the word is 0; otherwise it is "Error: 0x" and 8 upper-case hex digits that read back as the word |
| Status.OfflineData | custom_components/litime_bms_ble/coordinator.py:407-433 | the reading is offline, every field is absent, and there are MAX_CELLS absent cell slots |
| Status.Describes | custom_components/litime_bms_ble/coordinator.py:88-176 | a described reading is online with MAX_CELLS cell slots; discharging implies a negative current; charging and discharging exclude each other when their state codes differ |
| Status.ScanCells | custom_components/litime_bms_ble/coordinator.py:93-119 | zero cells are absent and present cells keep their value; min and max are the least and greatest present cells and delta is their difference; all three are absent when no cell is present |
| Status.CellSpread | custom_components/litime_bms_ble/coordinator.py:112-115 | with a present cell, min <= every present cell <= max and delta = max - min |
| Status.CellsDescribedUnique | custom_components/litime_bms_ble/coordinator.py:93-119 | the raw cells determine the cell list, min, max and delta |
| Status.ParseStatusResponse | custom_components/litime_bms_ble/coordinator.py:74-178 | a buffer shorter than 104 bytes, and only such a buffer, is refused with its length; otherwise the reading is online and every field, boolean and status string is the one its offset dictates |
| Status.DescribesUnique | custom_components/litime_bms_ble/coordinator.py:86-178 | a frame determines its reading |
| Status.LiveReadingShape | custom_components/litime_bms_ble/coordinator.py:110-176 | a live reading is online with MAX_CELLS slots and every field other than the cell statistics present; min is absent exactly when no cell is present |
| Reassembly.Receive | custom_components/litime_bms_ble/coordinator.py:229-253 | the event and the response slot change only by handing over a response of at least 104 bytes, which empties the buffer and sets the event; a buffer left non-empty is shorter than 104 bytes |
| Reassembly.Deliver | custom_components/litime_bms_ble/coordinator.py:383-393 | a wait that starts with the event set changes nothing; while the event stays as it was, the response slot is untouched; a wait on at least one packet that starts without the event leaves any partial buffer shorter than 104 bytes |
| Reassembly.ClearedValid | custom_components/litime_bms_ble/coordinator.py:367-370 | the cleared state satisfies the reassembler invariant |
| Reassembly.ReceiveValid | custom_components/litime_bms_ble/coordinator.py:229-253 | handling a packet keeps the invariant: a partial buffer is shorter than 104 bytes and starts with the marker, and the event is set exactly when a response of at least 104 marked bytes is held |
| Reassembly.DeliverValid | custom_components/litime_bms_ble/coordinator.py:229-253 | any packet sequence keeps the invariant |
| Reassembly.StartDiscardsBuffer | custom_components/litime_bms_ble/coordinator.py:230-232 | a marked packet replaces whatever was buffered |
| Reassembly.ContinuationHandling | custom_components/litime_bms_ble/coordinator.py:233-239 | an unmarked packet leaves the state unchanged when nothing is buffered, and is appended otherwise |
| Reassembly.CompletionHandsOver | custom_components/litime_bms_ble/coordinator.py:241-247 | once the bytes reach 104, exactly those bytes become the response, the buffer is emptied and the event is set |
| Reassembly.FragmentsConcatenate | custom_components/litime_bms_ble/coordinator.py:229-247 | continuation fragments after a started response are handed over as one concatenated response once their total reaches 104 bytes |
| Reassembly.TwoFragments | custom_components/litime_bms_ble/coordinator.py:229-247 | a marked packet and one continuation give their concatenation, and a later unmarked packet leaves it untouched |
| Reassembly.ResponseNeedsEnoughBytes | custom_components/litime_bms_ble/coordinator.py:241-247 | a response is handed over only after at least 104 bytes have arrived |
| Gatt.LastFit | custom_components/litime_bms_ble/coordinator.py:286-290 | a choice fits its role |
| Gatt.FirstFit | custom_components/litime_bms_ble/coordinator.py:291-292 | a choice fits its role |
| Gatt.NotifyChoice | custom_components/litime_bms_ble/coordinator.py:285-287 | the notify source can notify and has the notify UUID |
| Gatt.WriteChoice | custom_components/litime_bms_ble/coordinator.py:285-292 | the write target is writable and has the write UUID or the notify UUID |
| Gatt.LastFitMeaning | custom_components/litime_bms_ble/coordinator.py:285-290 | the choice is the last fitting candidate, and there is none exactly when nothing fits |
| Gatt.FirstFitMeaning | custom_components/litime_bms_ble/coordinator.py:291-292 | the choice is the first fitting candidate, and there is none exactly when nothing fits |
| Gatt.ChoicesStep | custom_components/litime_bms_ble/coordinator.py:285-292 | one more characteristic updates the two choices as the loop body does |
| Gatt.WritePreference | custom_components/litime_bms_ble/coordinator.py:288-292 | a writable characteristic with the write UUID always wins; the notify UUID is used for writing only when there is no such characteristic; no write target exists exactly when no writable characteristic has either UUID |
| Gatt.ChoicesFit | custom_components/litime_bms_ble/coordinator.py:279-292 | both choices come from the inspected characteristics, and the notify source can notify |
| Gatt.SelectCharacteristics | custom_components/litime_bms_ble/coordinator.py:276-292 | the nested loop picks exactly the notify and write choices over the BMS service's characteristics |
| Link.Connect | custom_components/litime_bms_ble/coordinator.py:255-328 | success always leaves a client held; the counter is reset only on a success that marks the link connected; a disconnect is asked only on a failure that leaves no client |
| Link.ConnectSucceeds | custom_components/litime_bms_ble/coordinator.py:255-320 | connecting succeeds exactly when a live client is reused or a fresh client offers both characteristics and subscribes; the counter is reset only in the second case |
| Link.ConnectKeepsNegotiated | custom_components/litime_bms_ble/coordinator.py:255-328 | every outcome keeps the invariant that a held client comes with the characteristics negotiated on it |
| Link.NegotiationFailureTearsDown | custom_components/litime_bms_ble/coordinator.py:301-315 | a fresh client lacking either characteristic fails and is not kept; it is asked to disconnect unless subscribing to the notify characteristic failed first |
| Link.LiveClientReused | custom_components/litime_bms_ble/coordinator.py:257-258 | a client that is still connected is reused with nothing changed |
| Coordinator.LitimeBmsCoordinator.constructor | custom_components/litime_bms_ble/coordinator.py:184-207 | no link, a cleared reassembler, counter 0, connection enabled |
| Coordinator.LitimeBmsCoordinator.NotificationHandler | custom_components/litime_bms_ble/coordinator.py:219-253 | the fields change exactly as the reassembler's transition, keeping the invariant |
| Coordinator.LitimeBmsCoordinator.DropLink | custom_components/litime_bms_ble/coordinator.py:322-328 | client, write and notify handles are cleared and the link is marked down |
| Coordinator.LitimeBmsCoordinator.EnsureConnected | custom_components/litime_bms_ble/coordinator.py:255-328 | the result, the link handle, the counter and the disconnect requests are those of the connect outcome |
| Coordinator.LitimeBmsCoordinator.ConnectForCycle | custom_components/litime_bms_ble/coordinator.py:357-365 | the link handle and disconnect requests are those of the connect outcome; a failure counts one missed update, and a success leaves a client and a write characteristic held |
| Coordinator.LitimeBmsCoordinator.SendCommand | custom_components/litime_bms_ble/coordinator.py:330-350 | without a client or write characteristic nothing is sent and nothing fails; otherwise the built frame is written, or the failure is raised |
| Coordinator.LitimeBmsCoordinator.AwaitResponse | custom_components/litime_bms_ble/coordinator.py:383-393 | the packets are handled in order until the event is set, keeping the invariant |
| Coordinator.LitimeBmsCoordinator.SendQuery | custom_components/litime_bms_ble/coordinator.py:367-381 | event, response and buffer are cleared before the query is sent; a failed send counts one miss and drops the link |
| Coordinator.LitimeBmsCoordinator.ConcludeCycle | custom_components/litime_bms_ble/coordinator.py:383-405 | a timeout counts one miss and gives the offline reading; a response resets the counter and gives its decoded reading |
| Coordinator.LitimeBmsCoordinator.QueryCycle | custom_components/litime_bms_ble/coordinator.py:367-405 | a send failure is offline with one more miss and no link; otherwise the query is written, the packets are reassembled from a cleared state, and a timeout or a response ends the cycle as above with the link kept |
| Coordinator.LitimeBmsCoordinator.UpdateData | custom_components/litime_bms_ble/coordinator.py:352-405 | disabled: offline and nothing changes; connect failure: offline and one more miss; send failure: one more miss and no link; timeout: one more miss and the link kept; response: counter 0 and the decoded reading |
| Coordinator.LitimeBmsCoordinator.Disconnect | custom_components/litime_bms_ble/coordinator.py:467-477 | the link handle always ends empty; a close is asked only of a client that is still connected |
| Coordinator.LitimeBmsCoordinator.SetConnectionEnabled | custom_components/litime_bms_ble/coordinator.py:455-465 | enabling resets the counter and asks for a refresh; disabling drops the link and publishes the offline reading |
| Coordinator.LitimeBmsCoordinator.RelayCommand | custom_components/litime_bms_ble/coordinator.py:435-453 | without a link nothing is sent; otherwise the opcode's frame is written and a refresh is asked for, unless the write fails |
| Coordinator.LitimeBmsCoordinator.SetCharging | custom_components/litime_bms_ble/coordinator.py:435-443 | the link handle, the counter and the disconnect requests are those of the connect outcome; the charge-on or charge-off frame is written and a refresh asked for when the link is up and the write succeeds; a failed write is raised |
| Coordinator.LitimeBmsCoordinator.SetDischarging | custom_components/litime_bms_ble/coordinator.py:445-453 | the link handle, the counter and the disconnect requests are those of the connect outcome; the discharge-on or discharge-off frame is written and a refresh asked for when the link is up and the write succeeds; a failed write is raised |

The parse-failure and no-data branches of `_async_update_data`
(coordinator.py:395-397, 403-405) are kept in `ConcludeCycle`. They cannot be
reached: the reassembler invariant guarantees that a set event comes with a
response of at least 104 bytes, and such a response always parses.

## Left out

- Floating point: volts, amperes and ampere-hours stay raw integers. Power is mV × mA, with no rounding to 0.1 W. Delta is in mV, with no rounding to 1 mV.
- Real BLE I/O (`async_ble_device_from_address`, `establish_connection` and its three attempts, `start_notify`, `write_gatt_char`, `disconnect`): each outcome is an argument.
- `asyncio.Event` and the 10-second `wait_for`: the wait is the sequence of packets delivered before it ends. Packets that arrive outside a wait are modelled only through `NotificationHandler`.
- Concurrency between the notification callback and the polling cycle: the model delivers packets only while the cycle awaits the response; packets arriving during the connect step or the query write are not modelled.
- The Home Assistant framework: `async_request_refresh` is counted in `refreshRequests`, and `async_set_updated_data` is recorded in `published`. The update interval and entity wiring are left out.
- Logging, and `MAX_MISSED_UPDATES`, which only appears in a log message.
- The values in `const.py`, which is not part of this model: UUIDs, opcodes, battery-state codes and the protection table are parameters. Table masks are 32-bit words.
- Other exceptions raised by the transport (anything but `BleakError`, `TimeoutError` and `OSError`): the engine does not catch them, and they are not modelled. The `ValueError` of a short frame is modelled as `FrameTooShort`.
- `Gatt.Lower`: lower-cases ASCII letters only. Python's `str.lower` also folds non-ASCII letters, which do not occur in UUIDs.
- `Flags.ProtectionStatusMeaning`: reading labels back from the status string holds only for tables whose labels contain no comma and are not "OK".
- The `device_name` and `connection_enabled` properties: they only read a field.
- `sensor.py`, `switch.py`, `binary_sensor.py`, `config_flow.py` and `__init__.py`, which are entity wrappers, pairing flow and entry lifecycle.
