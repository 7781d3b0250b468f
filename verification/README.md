# SpaceMouse report decoding and rate-limited publishing, in Dafny

This project models the core of a small Python program. The program reads raw
HID reports from a SpaceMouse (a six-axis input device). It merges them into one device
state: six axes (x, y, z, roll, pitch, yaw), a button list and a time stamp.
It then sends that state over a websocket at most once per second.

The modelled parts:

- `to_int16`: two report bytes joined little-endian and read as a signed
  16-bit integer (`Int16.ToInt16`).
- `ButtonState.__int__`: the button list read as a bitmask, with the first
  button as the most significant bit (`Buttons.ToInt`).
- `DeviceSpec`: its construction, `process` and `read`, and the reference
  table `spacemouse_wireless_spec` (module `Device`).
- The state as a left fold over reports (module `Merge`).
- The `last_send_time` decision of `sendSpacemouseData` (module `RateLimit`),
  and one pass of its loop (module `Publisher`).

In module `Bits`, Python's `|` and `&` on non-negative integers are written
out digit by digit. `<<` is multiplication by a power of two. Lemmas there
connect `|` and `&` to addition and to division/remainder by powers of two.

Axis values and clock readings are Dafny `real`s, so
`flip * to_int16(..) / 350.0` is computed exactly. The message's `timeStamp`
is the pass's `datetime.now()` reading, already given in epoch seconds.

Clock readings (`time.time()`, `datetime.now()`) and the bytes the HID handle
returns are parameters. The program's mutable dict and named-tuple state
becomes one immutable `State` value. The snapshot that `read` returns is that
value. The program rebuilds its tuple from the dict after every change, so
the two always agree.

Behaviour of the code worth noting:

- `process` sets `t` to the clock reading even when the report's tag byte
  matches no mapping (spaceMousePython.py:74).
- `process` does not check the report's length. A report too short for a
  matching entry makes `data[b1]`, `data[b2]` or `data[byte]` raise
  (spaceMousePython.py:67, 72). The model states the length requirement as
  the precondition `Device.Fits`.
- `last_send_time` starts at `0` (spaceMousePython.py:126). With an
  epoch-seconds clock, the first snapshot is always sent.
- The message reads `buttons[0]` and `buttons[1]` (spaceMousePython.py:141-142),
  so a device with fewer than two buttons makes the loop raise.

## Model

| member | source | states |
|---|---|---|
| `Bits.OrDisjointIsAdd` | spaceMousePython.py:23 | `y1 or (y2 << 8)` (bitwise or) equals `y1 + 256*y2` when `y1` fits in 8 bits: or-ing values with no set bits in common adds them |
| `Bits.AndMask` | spaceMousePython.py:71-72 | `a & (1 << k)` is the mask itself when bit k of `a` is set and 0 otherwise |
| `Bits.MaskTest` | spaceMousePython.py:71-72 | the button test `(a & (1 << k)) != 0` holds iff bit k of `a` is 1 |
| `Bits.BitIsDivMod` | spaceMousePython.py:71-72 | bit k of `a` equals `(a / 2^k) % 2` |
| `Bits.OrDigits` | spaceMousePython.py:23 | the modelled bitwise or sets a bit iff either operand has that bit set |
| `Bits.AndDigits` | spaceMousePython.py:72 | the modelled `&` sets a bit iff both operands have that bit set |
| `Int16.ToInt16` | spaceMousePython.py:21-26 | result lies in [-32768, 32767], is negative iff the high byte is at least 128, and equals low + 256*high, less 65536 when the sign bit is set |
| `Int16.DecodeEncode` | spaceMousePython.py:21-26 | every signed 16-bit value, split into `(v mod 65536) % 256` and `(v mod 65536) / 256`, decodes back to itself |
| `Int16.EncodeDecode` | spaceMousePython.py:21-26 | every byte pair decodes to a value that re-encodes to the same pair |
| `Int16.Examples` | spaceMousePython.py:21-26 | (0,0)=0, (0xFF,0x7F)=32767, (0,0x80)=-32768, (0xFF,0xFF)=-1, (0x64,0)=100 |
| `Buttons.ToIntIsMsbFirst` | spaceMousePython.py:16-19 | the sum of `b << i` over the reversed list equals the sum of `b[i] * 2^(n-1-i)` for a list of n buttons, so the first button is the most significant bit |
| `Buttons.ToInt` | spaceMousePython.py:16-19 | the sum of `b << i` over the reversed list is that reversed list read as binary digits, least significant first, and lies below `2^n` for n buttons |
| `Buttons.ToIntZero` | spaceMousePython.py:16-19 | the bitmask is 0 iff every button is 0 |
| `Buttons.ToIntDigits` | spaceMousePython.py:16-19 | button i is bit `n-1-i` (n buttons) of the bitmask |
| `Buttons.ToIntRoundTrip` | spaceMousePython.py:16-19 | reading n bits of the bitmask back, most significant first, gives the button list |
| `Buttons.FromIntRoundTrip` | spaceMousePython.py:16-19 | every integer below `2^len` is the bitmask of its own `len` bits |
| `Buttons.Examples` | spaceMousePython.py:16-19 | [1,0] gives 2, [0,1] gives 1, [1,1] gives 3, [0,0] gives 0 |
| `Device.InitialState` | spaceMousePython.py:38-42 | the constructed state has t = -1, every axis 0, and one released button per button mapping (bitmask 0) |
| `Device.NewDevice` | spaceMousePython.py:29-42 | a constructed device keeps the given tables, has no HID handle (`self.device = None`), and holds the initial state: t = -1, all axes 0, one released button per button mapping |
| `Device.DecodeButton` | spaceMousePython.py:69-72 | the mask test yields `(data[byte] / 2^bit) % 2` |
| `Device.Process` | spaceMousePython.py:63-75 | an axis whose channel is `data[0]` becomes `flip * to_int16(data[b1], data[b2]) / axis_scale`; a matching button becomes `(data[byte] / 2^bit) % 2`; every other field keeps its value; the button list keeps its length; t becomes the clock reading even when nothing matched |
| `Device.Read` | spaceMousePython.py:54-61 | without a device: None, state untouched; on an empty read: the current snapshot, state untouched; otherwise: the state is processed and the new snapshot, stamped with the clock reading, is returned |
| `Device.WellFormedFits` | spaceMousePython.py:58-72 | with ±1 signs, payload offsets below 13 and bits below 8, every 13-byte report can be processed without an index error |
| `Device.ReferenceTable` | spaceMousePython.py:78-97 | the reference table is well formed, maps all six axes, puts translation on channel 1, rotation on channel 2 and both buttons on channel 3, and gives a two-button state |
| `Device.ReferenceFits` | spaceMousePython.py:78-97 | every 13-byte report fits the reference table |
| `Device.ReferenceTranslation` | spaceMousePython.py:84-87 | a channel-1 report sets x from bytes 1-2, y and z (sign flipped) from bytes 3-4 and 5-6, each divided by 350; rotation and buttons are kept |
| `Device.ReferenceRotation` | spaceMousePython.py:88-90 | a channel-2 report sets pitch and roll (sign flipped) from bytes 1-2 and 3-4 and yaw from bytes 5-6, each divided by 350; translation and buttons are kept |
| `Device.ReferenceButtons` | spaceMousePython.py:92-95 | a channel-3 report sets the two buttons from bits 0 and 1 of byte 1 and keeps every axis |
| `Device.ReferenceExample` | spaceMousePython.py:85-86 | raw value 100 reads 100/350 on x and -100/350 on y (sign -1) |
| `Merge.Run` | spaceMousePython.py:63-75 | folding `process` over reports keeps the button count; the time is the last report's clock reading, or unchanged for no reports |
| `Merge.UnmatchedTagOnlyStamps` | spaceMousePython.py:63-75 | a report matching no mapping changes only the time |
| `Merge.ProcessIdempotent` | spaceMousePython.py:63-75 | processing the same report twice equals processing it once at the later time |
| `Merge.DifferentTagsCommute` | spaceMousePython.py:63-75 | two reports with different tags give the same state in either order |
| `Merge.AxisLastWriteWins` | spaceMousePython.py:65-67 | after a run, an axis holds the value decoded from the last report that carried its channel |
| `Merge.AxisUntouched` | spaceMousePython.py:65-67 | an axis whose channel no report carried keeps its starting value |
| `Merge.ButtonLastWriteWins` | spaceMousePython.py:69-72 | after a run, a button holds the bit decoded from the last report that carried its channel |
| `Merge.ButtonUntouched` | spaceMousePython.py:69-72 | a button whose channel no report carried keeps its starting value |
| `Merge.ReferenceAxisThenButtons` | spaceMousePython.py:84-95 | on the reference device, a translation report and a button report in either order give the same state: translation from the first, buttons from the second |
| `RateLimit.Offer` | spaceMousePython.py:147-149 | a snapshot is sent iff `current_time - last_send_time >= 1.0`; a send records `current_time`; a drop leaves the limiter unchanged |
| `RateLimit.Trace` | spaceMousePython.py:126-149 | starting from any `last_send_time`, consecutive sends over any sequence of clock readings are at least 1.0 apart, the first at least 1.0 after the start, with no ordering of readings assumed; there are no more sends than readings; the limiter ends at the last send |
| `RateLimit.SentAreOffered` | spaceMousePython.py:147-149 | every send time is one of the offered readings (nothing is queued or invented) |
| `RateLimit.BurstSendsAtMostOnce` | spaceMousePython.py:147-149 | readings all within less than 1.0 of each other give at most one send |
| `RateLimit.BurstSendsFirst` | spaceMousePython.py:147-149 | such a burst whose first reading is 1.0 past the last send sends exactly that first reading |
| `RateLimit.AllSentIffSpaced` | spaceMousePython.py:147-149 | every reading is sent iff each reading is at least 1.0 after the one before it, the first 1.0 after the last send |
| `RateLimit.TenInABurst` | spaceMousePython.py:126-149 | ten snapshots within 0.1 s from the initial `last_send_time = 0` give exactly one send |
| `RateLimit.SpacedOutAllSent` | spaceMousePython.py:126-149 | snapshots 1.1 s apart from the initial `last_send_time = 0` are each sent |
| `Publisher.ToPayload` | spaceMousePython.py:130-144 | the message carries the snapshot's six axes, its first two buttons, and the pass's own `datetime.now()` reading as `timeStamp` |
| `Publisher.Step` | spaceMousePython.py:127-149 | one pass reads the device; with a device attached it sends iff the limiter admits `current_time`, and the message holds the snapshot just read; `last_send_time` changes only on a send; without a device nothing is sent |
| `Publisher.StepFollowsOffer` | spaceMousePython.py:128-149 | with a device attached, a pass's send decision and new `last_send_time` are exactly those of the limiter |
| `Publisher.RunLoop` | spaceMousePython.py:127-149 | the loop keeps the device tables, attachment and button count, sends at most once per pass, and sends nothing without a device |
| `Publisher.LoopFollowsLimiter` | spaceMousePython.py:126-149 | with a device attached, the loop's send times are exactly the limiter's sends over the `current_time` readings, so messages leave at least 1.0 apart |
| `Publisher.ReferenceLoop` | spaceMousePython.py:78-149 | from the program's start (the reference device freshly constructed, its handle attached by `open_device`, `last_send_time = 0`), every pass whose read returns nothing or 13 bytes runs without raising, and the loop's send times are exactly the limiter's sends over the `current_time` readings, each at least 1.0 after the one before and the first at least 1.0 after 0 |

## Left out

- `open_device`, `DeviceSpec.open`/`close` (spaceMousePython.py:44-52, 99-112): HID enumeration and the handle's lifecycle go through the foreign `easyhid` library. The model has only an `attached` flag and takes the bytes read as a parameter.
- `print_state` (spaceMousePython.py:114-118): console output.
- The websocket connection, `asyncio`, and the `KeyboardInterrupt`/exception handlers (spaceMousePython.py:120-161): transport and process control. A raising pass is excluded by preconditions instead of ending the loop.
- saveDataDetails.py: an append-only file logger, pure I/O.
- JSON serialisation (spaceMousePython.py:134-144) is not modelled beyond the abstract `Payload`.
- Publisher.ToPayload: does not round the axes with `"%.2f"`. This is decimal formatting of floating point.
- Device.Process: axis values are exact reals, not IEEE doubles. Division by 350.0 is not rounded.
- Device.Process: a report too short for a matching entry, and a zero `axis_scale` for a matching axis, are excluded by precondition. The program raises there, possibly after some fields were already written.
- Device.Read: the 13-byte request size is a constant (`Device.ReportLength`). The model does not bound the length of the bytes returned.
- `mappings` keys are limited to the six axis names. A key other than these is written into the dict when a report carries its channel; `SpaceNavigator(**dict_state)` (spaceMousePython.py:75) then raises unless the key is `t` (overwritten at line 74) or `buttons`.
- Byte offsets and bit positions are natural numbers. Python's negative indexing from the end and the `ValueError` of a negative shift are not modelled.
- Button slots hold 0 or 1, the only values `process` writes. Button mappings are read from a list, so there is no check for duplicate entries.
- The snapshot tuple shares its button list object with the dict state. A held snapshot's buttons would change with later reports. State here is a value, so that aliasing is not modelled. The loop uses each snapshot before the next read.
