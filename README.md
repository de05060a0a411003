# Mi Band 3 command-line client — a Dafny model

This project models the protocol core of a small Python 2 client for the
Xiaomi Mi Band 3. The client talks to the band over Bluetooth LE: it runs the
three-step authentication handshake, routes asynchronous GATT notifications,
decodes the band's fixed-layout payloads, streams realtime sensor data into a
queue, and uploads firmware or resource files with a CRC-16 checksum. A
stand-alone script computes the same CRC over a file.

The model is split into modules that follow that structure:

| module | file | models |
|---|---|---|
| `Wire` | `wire.dfy` | bytes, Python 2 `struct` little-endian integers, clamped slices, zero padding |
| `Codec` | `codec.dfy` | the payload decoders: date, battery, steps, raw accelerometer and heart frames, serial |
| `Crc16` | `crc16.dfy` | the byte-wise checksum of the firmware update, as a function and as the loop |
| `CheckCrc` | `checkcrc.dfy` | the stand-alone checksum script |
| `Frames` | `frames.dfy` | the fixed command frames: encoding, heart sleep support, alerts, realtime start and stop, change of date, activity trigger |
| `Delegate` | `delegate.dfy` | the notification delegate: the authentication reactions and the routing of sensor and heart notifications |
| `Dfu` | `dfu.dfy` | the firmware/resource upload: file kind, meta frame, 20-byte chunks, checksum frame, the whole write sequence |
| `Band` | `band.dfy` | the `MiBand3` object: its fields, the notification wait, the authentication loops, the queue, realtime, every command |

How the surroundings are represented:

- The Bluetooth link becomes two logs in the device state. `writes` is the
  sequence of `(target, frame)` writes issued so far. `incoming` is the
  sequence of notifications the band will deliver, one per poll; `None` is a
  poll that times out.
- A poll calls the delegate only after the delegate is installed
  (`initialize`/`authenticate`); before that the notification is dropped.
- The re-entrant `waitForNotifications` is flattened. A reaction that itself
  writes and waits (`_req_rdn`, `_send_enc_rdn`, `_send_key`) consumes the
  following notification in the same wait. `Band.Wait` therefore keeps
  polling while `Receive` says `again`.
- An exception raised while handling a notification, or while decoding a
  queued entry for its callback, ends the operation. Every operation that
  can raise returns `raised`, and the state at that point is kept. The
  callbacks themselves are not run: each call is recorded, with the value
  it receives, in the `delivered` log.
- AES-128 in ECB mode with the fixed key is a parameter (`Env.cipher`, one
  16-byte block to one 16-byte block). `Delegate.Ecb` models the block-wise
  use of it, including the error on a length that is not a multiple of 16.
- Console input (`raw_input`) and file contents become method parameters.
  Printing and logging are left out; only the `logged` flag of an unhandled
  notification is kept.
- Byte order is the machine's native order in the source (`struct` without a
  prefix). The model fixes it to little-endian.
- `datetime(...)` raises on a missing or out-of-range field. `_parse_date`
  therefore returns a `Result` with `MissingDateField` or `DateOutOfRange`.

## Where the descriptions of this client and its code disagree

The model follows the code in each case:

- A battery record with all-zero date bytes does not decode to "absent"
  dates. Year 0 is out of range for `datetime`, so `_parse_battery_response`
  raises (`Codec.ParseBattery` fails with `DateOutOfRange`). The dates are
  also read from bytes 11..17 and 3..9 (slices of seven bytes), not nine bytes
  each.
- The checksum is described as a non-standard CRC-16. The update rule is
  CRC-16/CCITT-FALSE (polynomial 0x1021, initial value 0xFFFF), and
  `Crc16.CheckValue` proves its standard check value 0x29B1.
- On `10 03 04` the delegate assigns `status`, not `state`, and then re-sends
  the key (auth.py:38-39). The authentication loops therefore keep waiting.
- The upload writes `03` after the meta frame for every file, and sends no
  meta frame at all for an extension other than `res`/`fw` (auth.py:371-376).

## Model

| member | source | states |
|---|---|---|
| `Wire.Int8` | auth.py:143-149 | a `'b'` unpack is the signed byte value, in -128..127, congruent to the byte mod 256 |
| `Wire.UInt16` | auth.py:138 | an `'H'` unpack is in 0..65535, with low byte `lo` and high byte `hi` |
| `Wire.Int16` | auth.py:142 | an `'h'` unpack is in -32768..32767 and agrees with the unsigned reading mod 65536 |
| `Wire.EncodeUInt16` | auth.py:461 | `pack('<H')` gives two bytes that read back as the value |
| `Wire.PadTo` | auth.py:57-59 | `pack('<Ns')` gives exactly N bytes: the input, cut or padded with zeros; a string of length N is unchanged |
| `Wire.Slice` | auth.py:25 | a Python slice clamps its bounds to the sequence and keeps the elements in order |
| `Codec.ByteAt` | auth.py:143-149 | a byte field is present exactly when the buffer reaches it, and then is its signed value |
| `Codec.WordAt` | auth.py:142 | a 16-bit field is present exactly when both bytes are there, and then is the signed value |
| `Codec.DateFieldsOf` | auth.py:142-149 | each of the nine date fields is read at its offset and is absent when the buffer is too short |
| `Codec.DateFieldsOfPrefix` | auth.py:239 | reading from the first `k` bytes gives the same fields as reading the whole buffer, for the fields below `k` |
| `Codec.DaysInMonth` | auth.py:151 | a month has 28 to 31 days, and 29 exactly for February of a leap year |
| `Codec.ParseDate` | auth.py:141-151 | fails with a missing field exactly when fewer than 7 bytes arrive; otherwise fails only on an out-of-range date; a success holds the decoded date and the optional day of week and fraction |
| `Codec.ParseEncodeDate` | auth.py:141-151 | decoding the encoding of any encodable date record gives that record back |
| `Codec.CurrentTime` | auth.py:237-239 | the current-time read decodes the first nine bytes, which is the same as decoding the whole read |
| `Codec.ParseBattery` | auth.py:153-168 | fails below 3 bytes; succeeds exactly when both dates decode; the status is charging exactly when byte 2 is nonzero; level and last level are the bytes 1 and 19 when present; the dates are the decodings of bytes 11..17 and 3..9 |
| `Codec.BatteryDates` | auth.py:157-158 | in a decoded battery record, the level is present, both dates re-encode to exactly the seven bytes they came from, and they carry no day of week or fraction |
| `Codec.ParseSteps` | auth.py:279-292 | steps, meters and fat grams are the 16-bit words at offsets 1, 5, 2 and calories the byte at 9, each absent when the read is too short |
| `Codec.SampleAt` | auth.py:133 | a decoded accelerometer sample re-encodes to the six bytes it came from |
| `Codec.ParseRawAccel` | auth.py:130-135 | succeeds exactly on 20 bytes or more and then gives three samples, each decoded from bytes 2+6i..7+6i |
| `Codec.ParseRawHeart` | auth.py:137-139 | succeeds exactly on 16 bytes and then gives seven unsigned words read from bytes 2..15 |
| `Codec.ParseHeartMeasure` | auth.py:188 | succeeds exactly on 2 bytes and then is the second byte as a signed value |
| `Codec.ParseSerial` | auth.py:272-277 | the serial is present exactly when the read is 12 bytes, and then is the read |
| `Crc16.Swap` | auth.py:363 | swapping the checksum bytes moves the high byte low and the low byte high, within 16 bits |
| `Crc16.SwapInvolution` | auth.py:363 | swapping twice gives back the checksum |
| `Crc16.XorIn` | auth.py:364 | xoring the input byte in changes only the low byte |
| `Crc16.Fold4` | auth.py:365 | the first fix-up changes only the low four bits |
| `Crc16.Fold12` | auth.py:366 | the second fix-up changes only the top four bits |
| `Crc16.Fold5` | auth.py:367 | the third fix-up leaves the low five bits alone and stays within 16 bits, as the final mask at line 368 requires |
| `Crc16.Step` | auth.py:363-367 | one byte update keeps the checksum within 16 bits |
| `Crc16.Crc` | auth.py:355-368 | the checksum of any file is a 16-bit value |
| `Crc16.Compute` | auth.py:355-368 | the byte loop returns the checksum of the whole file |
| `Crc16.CrcSnoc` | auth.py:357-367 | the checksum of the first i+1 bytes is one update step applied to the checksum of the first i |
| `Crc16.LowHighReconstruct` | auth.py:389-390 | the low and high checksum bytes sent to the band determine the checksum |
| `Crc16.EmptyCrc` | auth.py:355 | an empty file has checksum 0xFFFF |
| `Crc16.CrcExtend` | auth.py:357-367 | appending a byte to the file applies one update step to its checksum |
| `Crc16.CheckValue` | auth.py:355-368 | the checksum of "123456789" is 0x29B1, the CRC-16/CCITT-FALSE check value |
| `Crc16.OrderMatters` | auth.py:355-368 | the checksum depends on the order of the bytes |
| `CheckCrc.Fold5Narrow` | checkcrc.py:19 | the script's third fix-up, masked to 16 bits, equals the firmware updater's fix-up masked to 24 bits |
| `CheckCrc.ScriptStep` | checkcrc.py:15-19 | the script's byte update is the firmware updater's byte update |
| `CheckCrc.Run` | checkcrc.py:3-24 | the script prints the same checksum the firmware update sends, and the two printed bytes are its low and high byte |
| `CheckCrc.EmptyFile` | checkcrc.py:3-24 | on an empty file the script prints 0xFFFF, 0xff and 0xff |
| `Frames.EncodingPacket` | auth.py:253-257 | the encoding packet is 8 bytes: `06 17 00` and the encoding cut or zero-padded to 5 bytes |
| `Frames.DefaultEncoding` | auth.py:253-256 | the default `en_US` gives `06 17 00 65 6E 5F 55 53` |
| `Frames.Digits` | auth.py:269 | the decimal text of a natural number is ASCII digits without a leading zero |
| `Frames.DigitsRoundTrip` | auth.py:269 | reading back the decimal text gives the number |
| `Frames.Decimal` | auth.py:269 | `str(n)` is ASCII digits that read back as `n`; for a negative `n` it is `-` followed by digits that read back as `-n` |
| `Frames.HeartSleepWrites` | auth.py:259-270 | 6 writes when enabled and 4 otherwise, between notifications on and off, with the exact control frames |
| `Frames.HeartSleepInterval` | auth.py:269 | the interval frame carries the interval in decimal, which reads back as the interval |
| `Frames.CustomAlertFrame` | auth.py:313-323 | an alert frame exists exactly for types 3, 4 and 5 and is the type, `01` and the caller text |
| `Frames.RealtimeStartWrites` | auth.py:411-423 | six writes; heart notifications are on before the continuous measurement is started, and nothing before starts it |
| `Frames.RealtimeStopWrites` | auth.py:443-451 | five writes that switch heart notifications and the HZ characteristic's notifications off and never start measurement |
| `Frames.YearSplit` | auth.py:335-336 | the year is `fraction * 256 + rem` with `rem` a byte, and `fraction` a byte for a 16-bit year |
| `Frames.YearSplitMatchesRecord` | auth.py:335-336 | the two year bytes are the little-endian year the band's date record holds |
| `Frames.ChangeDateValues` | auth.py:332-342 | the ten values formatted start with the year's remainder and quotient by 256, which give the year back, then month, day, hour, minute, seconds; for byte-range fields every value is a byte and they are the first ten bytes of the intended frame |
| `Frames.HexDigits` | auth.py:342 | hexadecimal digits never contain `x`, and a byte takes at most two |
| `Frames.Format04x` | auth.py:342 | `format(n, '#04x')` starts with `0x`, is at least 4 characters, and for a byte is `0x` and two hex digits |
| `Frames.Literals` | auth.py:342 | the concatenated literals are empty only for no values and start with `0` |
| `Frames.Escapes` | auth.py:343 | the escape text of k bytes is 4k characters with a backslash and `x` at every fourth position |
| `Frames.ReplaceAfterLiteral` | auth.py:343 | the replace of `0x` by a backslash and `x` rewrites one literal and continues after it |
| `Frames.ReplaceAtPrefix` | auth.py:343 | an occurrence of `0x` at the front is replaced and the replacing goes on after it |
| `Frames.ReplaceKeeps` | auth.py:343 | a character that does not begin `0x` is kept as it is |
| `Frames.ReplaceLiterals` | auth.py:342-343 | the replaced text is the escape text of the values followed by the escape of 0x16 |
| `Frames.ChangeDateWritesText` | auth.py:342-345 | the change-of-date write is 44 characters of escape text, a backslash and `x` at every fourth position, not the 11 bytes |
| `Frames.ChangeDateFrame` | auth.py:335-342 | the intended change-of-date frame is 11 bytes: the year little-endian, month, day, hour, minute, seconds, then `05 00 00 16` |
| `Frames.ChangeDateRoundTrip` | auth.py:237-239 | the intended frame reads back through the current-time decoder as the date set, day of week 5, fraction 0 |
| `Frames.TriggerFrame` | auth.py:461-467 | the activity trigger is `01 01`, the 16-bit year, month, day, hour, minute and `00 08` |
| `Frames.TriggerCarriesDate` | auth.py:461-466 | the date bytes of the trigger decode back to the year, month, day, hour and minute |
| `Delegate.KeyFrameLayout` | auth.py:56-57 | the key frame is 18 bytes: `01 08` and the 16-byte key |
| `Delegate.Ecb` | auth.py:107-109 | ECB encryption fails exactly when the length is not a multiple of 16, keeps the length, and enciphers each 16-byte block on its own |
| `Delegate.EncResponse` | auth.py:121-126 | the answer exists when the random number is whole blocks; it is 18 bytes: `03 08` and the first encrypted block, zero-padded |
| `Delegate.Code` | auth.py:25 | the reply code is the first three bytes, or fewer when the data is shorter |
| `Delegate.AuthReaction` | auth.py:24-41 | each reply code gives its reaction: key acknowledged asks for the random number; the random number is answered encrypted; `10 03 01` sets the state to success; `10 03 04` sets status and re-sends the key; the failure codes set their state; any other code sets failed; the only error is encrypting a random number that is not whole blocks |
| `Delegate.Dispatch` | auth.py:23-52 | notifications on the auth handle get the auth reaction; the heart handle enqueues a heart entry; handle 0x38 enqueues a raw accelerometer or raw heart entry by length and first byte; anything else is only logged |
| `Dfu.LastIndex` | auth.py:351 | finds the last occurrence of a character, or -1 |
| `Dfu.Extension` | auth.py:351 | when the last dot lies in the last path component and something other than a dot comes before it there, the extension is the text after that dot; in every other case it is empty; it never holds a dot or slash |
| `Dfu.ExtensionExamples` | checkcrc.py:5 | `Mili_wuhan.res` has extension `res` and `.fw` has none |
| `Dfu.LowerAscii` | auth.py:371 | lower-casing changes only `A`..`Z`, each to its lower-case letter |
| `Dfu.LowerAsciiIdempotent` | auth.py:371 | lower-casing twice is lower-casing once |
| `Dfu.Kind` | auth.py:371-375 | a file is a resource exactly when its extension lower-cases to `res`, and firmware exactly for `fw` |
| `Dfu.KindIgnoresCase` | auth.py:371-375 | the kind does not depend on the case of the extension |
| `Dfu.Le3` | auth.py:373 | the first three bytes of `pack('<i')` are the size mod 2^24, little-endian |
| `Dfu.MetaFrame` | auth.py:371-375 | fails exactly for a resource or firmware of 2^31 bytes or more; there is a frame exactly for those two kinds: `01`, the size and `02` for a resource, no `02` for firmware |
| `Dfu.ChecksumFrame` | auth.py:390 | the checksum frame is three bytes starting with `04` |
| `Dfu.ChecksumFrameCarriesCrc` | auth.py:389-390 | its last two bytes are the checksum, low byte first |
| `Dfu.Chunks` | auth.py:378-385 | the file is read in ceil(n/20) pieces of 1 to 20 bytes |
| `Dfu.ChunksConcat` | auth.py:378-385 | the pieces put together are the file |
| `Dfu.ChunkAt` | auth.py:380 | piece k is bytes 20k up to 20k+20, or to the end of the file |
| `Dfu.DataWrites` | auth.py:385 | every piece is written, in order, to the data characteristic |
| `Dfu.Body` | auth.py:376-391 | after the meta frame: `03`, the data writes, `00`, then the checksum frame |
| `Dfu.Prelude` | auth.py:371-387 | the writes before the first wait: the meta frame when there is one, `03`, the pieces, `00` |
| `Dfu.AssembleSplit` | auth.py:371-394 | the upload is the prelude, the checksum frame, then `05` for firmware only |
| `Dfu.DfuWritesShape` | auth.py:371-394 | the upload's length and the position of `03`, `00`, the checksum and, for firmware only, the final `05` |
| `Dfu.DfuWritesData` | auth.py:376-387 | the data writes sit between `03` and `00` and are exactly the pieces of the file |
| `Dfu.DataWriteAt` | auth.py:378-385 | data write k carries bytes 20k up to 20k+20 of the file, or to its end |
| `Dfu.WholeChunkWrites` | auth.py:378-385 | for a file whose length is a multiple of 20, data write k carries exactly bytes 20k..20k+20 |
| `Dfu.DataWritesCarryFile` | auth.py:378-385 | the bytes written to the data characteristic, concatenated, are the file |
| `Dfu.UpdateFwIsFirmware` | auth.py:351-375 | `update.fw` is a firmware file |
| `Dfu.ThousandByteMeta` | auth.py:373-375 | the meta frame of a 1000-byte firmware file is `01 E8 03 00` |
| `Dfu.ThousandByteFirmware` | auth.py:347-394 | a 1000-byte `update.fw` is sent as 55 writes: meta `01 E8 03 00`, `03`, write 2+i carrying bytes 20i..20i+20 for each of the 50 pieces, `00`, the checksum frame of the file and `05` |
| `Band.Apply` | auth.py:23-52 | applying a delegate reaction never touches the pending notifications, the delegate, the callbacks or the delivered values |
| `Band.Receive` | auth.py:23-52 | one poll consumes one notification; a raise changes nothing else; without a delegate nothing but the poll happens |
| `Band.Wait` | auth.py:114 | a wait consumes at least one pending notification and never adds any |
| `Band.WaitQuiet` | auth.py:93 | with no delegate or no traffic, a wait does not raise and changes only the pending notifications |
| `Band.AuthLoopOutcome` | auth.py:202-212 | the loop returns success or failure exactly once the state is set, success exactly for state success, and waits only while the state is unset and the band is silent |
| `Band.NoTrafficWaits` | auth.py:202-209 | with no state and no traffic the loop keeps waiting and changes nothing |
| `Band.AuthenticateAfterSuccess` | auth.py:214-222 | once the state is success, authenticating again returns true at once |
| `Band.KeyAcknowledged` | auth.py:25-26 | key acknowledgement writes the random-number request and keeps waiting |
| `Band.RandomAnswered` | auth.py:28-31 | a random number is answered with `03 08` and its encryption, and the wait continues |
| `Band.AnswerAccepted` | auth.py:35-36 | `10 03 01` sets the state to success |
| `Band.Handshake` | auth.py:198-212 | the three-reply handshake ends in success, with the key, the request, the encrypted answer and notifications off written in that order |
| `Band.Deliver` | auth.py:187-192 | with the callback of the entry's kind set: it raises exactly when the payload has the wrong length (heart: not 2 bytes; raw heart: not 16; raw accelerometer: under 20) and otherwise calls the callback with the decoded payload; with that callback unset nothing happens |
| `Band.DrainOutcome` | auth.py:182-194 | draining raises exactly when some entry fails to decode; otherwise the queue ends empty and the callbacks get every entry's value in queue order (`Outputs`); after a raise exactly the entries behind the failing one stay |
| `Band.DrainStopsAtFirstFailure` | auth.py:182-194 | after a raise, the entry taken last is the first that fails to decode, every entry before it decodes, and the callbacks got exactly those entries' values in queue order |
| `Band.DrainHeartInOrder` | auth.py:187-188 | a queue of heart measures is delivered completely and in order |
| `Band.EnqueuedRawEntriesDecode` | auth.py:44-49 | every raw entry the delegate enqueues decodes without error in its callback |
| `Band.LongHeartPayloadRaises` | auth.py:188 | with the heart callback set, a heart payload of any length other than two makes the drain raise, with nothing delivered |
| `Band.DrainWithoutCallbacks` | auth.py:187-194 | with no callback registered the queue is discarded and nothing is delivered |
| `Band.RealtimeQuietTick` | auth.py:425-431 | one realtime tick without traffic, when every entry decodes, delivers the whole queue and writes the ping `16` exactly when it is due |
| `Band.TransferQuiet` | auth.py:387-394 | the rest of an upload without traffic writes the checksum and, for firmware, `05` |
| `Band.QuietTransferWrites` | auth.py:371-394 | an upload without traffic writes exactly the prelude, the checksum and, for firmware, `05` |
| `Band.DfuQuiet` | auth.py:347-394 | an upload without traffic does not raise and appends exactly the planned upload writes |
| `Band.MiBand3.constructor` | auth.py:61-93 | a new client has no state, an empty queue, no callbacks, has written auth notifications on and has polled once |
| `Band.MiBand3.ReceiveOne` | auth.py:23-52 | one poll of the object does what `Receive` says |
| `Band.MiBand3.WaitForNotifications` | auth.py:114 | the polling loop does what `Wait` says |
| `Band.MiBand3.RunAuthLoop` | auth.py:202-212 | the loop does what `AuthLoop` says |
| `Band.MiBand3.Initialize` | auth.py:198-212 | installs the delegate, sends the key, runs the loop and switches notifications off on success |
| `Band.MiBand3.Authenticate` | auth.py:214-227 | installs the delegate, requests the random number and runs the loop |
| `Band.MiBand3.GetFromQueue` | auth.py:172-180 | an empty queue gives nothing; a head of the asked kind is removed and returned; any other head is moved to the back; nothing is lost |
| `Band.MiBand3.ParseQueue` | auth.py:182-194 | the loop does what `Drain` says: the queue left and the values delivered |
| `Band.MiBand3.RealtimeStep` | auth.py:425-431 | one realtime iteration does what `RealtimeTick` says |
| `Band.MiBand3.StartRawDataRealtime` | auth.py:397-423 | installs the given callbacks and appends the start writes |
| `Band.MiBand3.StopRealtime` | auth.py:433-455 | appends the stop writes and clears every callback |
| `Band.MiBand3.SetEncoding` | auth.py:253-257 | writes the encoding packet to the configuration characteristic |
| `Band.MiBand3.SetHeartMonitorSleepSupport` | auth.py:259-270 | appends the heart sleep writes |
| `Band.MiBand3.SendAlert` | auth.py:294-297 | writes the alert to the alert characteristic |
| `Band.MiBand3.LeftTurn` | auth.py:299-304 | writes `05 01` and `Left Turn!` |
| `Band.MiBand3.RightTurn` | auth.py:306-311 | writes `05 01` and `Right Turn!` |
| `Band.MiBand3.ChangeDate` | auth.py:325-345 | for fields in byte range (year in 16 bits), writes the intended 11-byte date frame to the current-time characteristic and nothing else; like the source it does not check that the fields form a date |
| `Band.MiBand3.SendCustomAlert` | auth.py:313-323 | raises exactly for a type other than 3, 4, 5 and then writes nothing; otherwise writes type, `01` and the caller text |
| `Band.MiBand3.DfuUpdate` | auth.py:347-396 | the upload does what `DfuSpec` says: it raises on an oversized file, otherwise writes the prelude and finishes the transfer |
| `Band.MiBand3.WritePrelude` | auth.py:371-387 | appends exactly the prelude writes |
| `Band.MiBand3.WriteChunks` | auth.py:378-385 | the read-and-write loop appends one data write per 20-byte piece |
| `Band.MiBand3.FinishTransfer` | auth.py:388-394 | the wait, the checksum and the firmware-only `05` do what `Transfer` says |

## Left out

- Bluetooth LE transport: services, characteristics, descriptors and handles become the `Frames.Target` tags and `Env` handles; `withResponse` flags and write failures are not modelled (a write always succeeds).
- AES-128 itself: `Env.cipher` is an uninterpreted block function; only its ECB use and the fixed key bytes are modelled.
- The realtime loop runs forever and reads the clock: only one iteration is modelled (`Band.RealtimeTick`), with "12 seconds elapsed" as the `pingDue` parameter.
- Timeouts of `waitForNotifications`: a timeout is a `None` poll; the 0.1 s and 0.5 s values are not modelled.
- Printing, logging, `raw_input` pauses and reading files from disk: console values and file contents are parameters; `os.path.getsize` is the length of the file contents.
- `get_sensor_info`, `get_battery_info`, `get_serial` and `get_steps` are one read passed to `Codec.ParseRawAccel`, `Codec.ParseBattery`, `Codec.ParseSerial` and `Codec.ParseSteps`; the read itself is not modelled.
- `get_revision` and `get_hrdw_revision` return a characteristic read unchanged; there is nothing to model beyond the read.
- `start_get_previews_data` calls `_auth_previews_data_notif` and `_char_fetch`, which `MiBand3` does not define, so it raises before writing; only its trigger frame is modelled (`Frames.TriggerFrame`).
- constants.py is not part of this model: UUIDs, auth states and queue types are abstract datatypes.
- Thread safety of `Queue` and concurrent delivery: the queue is a sequence, and notifications arrive one per poll.
- The re-entrant stack of nested waits is flattened into one loop (`Band.Wait`); the order of writes and state changes is the same.
- `Crc16.Crc`: it is not proved equal to a bitwise polynomial-division reference; the standard check value and the byte-update identities are proved instead.
- `Band.MiBand3.ChangeDate`: the console text and its parsing by `int()` are left out, so the fields are parameters; it requires each field to fit one byte (the year two), because for a negative value or one of 256 and more `format(..., '#04x')` gives a longer or signed literal and the written text changes shape; it writes the intended frame rather than the escape text (see Findings).
- `Band.MiBand3.StartRawDataRealtime`: a callback is modelled as set or unset (`Callbacks` holds booleans), so a later registration replacing an earlier callback function by another cannot be observed.
- `Codec.ParseRawHeart`: the 'H' words are read little-endian only; a big-endian host is not modelled.

## Findings

| source | as written | input that shows it | evidently intended | confidence | as-written member | corrected member |
|---|---|---|---|---|---|---|
| auth.py:342-345 | builds `'0x..'` literals, replaces `0x` by a backslash and `x`, and writes that text: 44 ASCII characters of escape notation | any date, e.g. 15-10-2026 12:30:00: the write is the 44 characters `\xea\x07\x0a\x0f\x0c\x1e\x00\x05\x00\x00\x16`, whose first byte is 0x5C | the 11 bytes `EA 07 0A 0F 0C 1E 00 05 00 00 16`, which the band's current-time decoder reads back as the date set | not executed; high | `Frames.ChangeDateWritesText` | `Frames.ChangeDateRoundTrip` |
