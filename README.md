# DualShock 4 emulation core: report codec and authentication relay

A Dafny model of the protocol core of a Teensy 3 firmware that presents itself
to a PS4 as a DualShock 4 controller. It covers two things:

- **The report codec.** This is the 64-byte input report with its d-pad nibble and button bitmap. The top six bits of the third button byte hold a frame counter, which advances once per successful send. Touch frames hold two 32-bit packed points each, in the format `yyyyyyyyyyyyxxxxxxxxxxxxtiiiiiii`, where bit 7 is an inverted active flag. The sensor timestamp is derived from uptime. The application-side controller object (`usb_ds4_class`) reassigns the report. It also keeps the last feedback report and the touch point counter.
- **The authentication relay.** This is a sequence byte, four flags and one 64-byte feature buffer. The buffer is shared by the last challenge page the host wrote and the response page the application left for it. The host drives the relay through HID Feature GET_REPORT/SET_REPORT requests. Their `wValue` selectors 0x03f0-0x03f3 and 0x0303 carry report type 3 in the high byte and the report id in the low byte, as section 7.2.1 of the USB HID Device Class Definition 1.11 lays them out. The application drives the relay through the `auth*` calls.

Layout:

- `report_codec.dfy` (module `ReportCodec`): the header's macros as functions on bit-vectors of the C widths. It also has the `Report` record and `ReportInit`, which keeps the source's loop over the three touch frames.
- `auth_relay.dfy` (module `AuthRelay`): the relay state as a value (`AuthState`), with one function per step. Lemmas cover single steps and arbitrary interleavings of host and application steps (`Run`). Class `Relay` holds the state as the firmware does: fields, plus an `array<bv8>` buffer. Its handlers and `auth*` methods are proved to perform those steps.
- `endpoints.dfy` (module `Endpoints`): how `usb_ds4_send_report` and `usb_ds4_recv_feedback` map the transport's results.
- `gamepad.dfy` (module `Gamepad`): class `DS4`, the controller object, and a lemma about the frame counter over runs of sends.

Every host handler and application call is treated as one atomic step. The firmware runs the handlers in the USB interrupt and asks the application to call its side in a critical section.

Behaviour of the code that its comments and flag names do not make obvious:

- **Unsynced response read.** A response read (0x03f1) with nothing buffered is answered with zero filler. The comment at teensy3/usb_ds4.cpp:150 ties production to the page index of the page sent. The filler's page index is 0, so the read sets `responseAvailable`, even after the final page of a transaction (teensy3/usb_ds4.cpp:144-153). `AuthRelay.UnsyncedReadReopens` states this.
- **Response read with a final page.** On a response read with page index ≥ 0x12, the code leaves `responseAvailable` unchanged. It does not clear it. In a consistent state, nothing can be both buffered and available, so the flag is false either way (`AuthRelay.DeliveryDecidesAvailability`).
- **Unconfigured feedback receive.** A feedback receive that returns -1 (device not configured) falls through to return code 0 and copies nothing (`Endpoints.UnconfiguredReadsAsSuccess`).

## Model

| member | source | states |
|---|---|---|
| `ReportCodec.DpadSet` | teensy3/usb_ds4.h:136-138 | the low nibble of buttons[0] becomes `dir & 0x0f`; the high nibble and buttons[1..2] are unchanged |
| `ReportCodec.DpadSetIdempotent` | teensy3/usb_ds4.h:136-138 | setting the same direction twice equals setting it once |
| `ReportCodec.BtnSet` | teensy3/usb_ds4.h:142-143 | bit `id & 7` of byte `(id >> 3) & 3` becomes set; every other bit of the three bytes is unchanged; the byte index must be below 3 |
| `ReportCodec.BtnClr` | teensy3/usb_ds4.h:145-146 | that bit becomes clear; every other bit is unchanged |
| `ReportCodec.BtnReset` | teensy3/usb_ds4.h:148-151 | clears the high nibble of buttons[0], all of buttons[1] and the low two bits of buttons[2]; keeps the d-pad nibble and the six counter bits |
| `ReportCodec.NamedButtonsSpareDpadAndCounter` | teensy3/usb_ds4.h:55-68 | for the named ids 4-17, set and clear stay inside the bitmap and leave the d-pad nibble and the counter bits alone |
| `ReportCodec.CtrInc` | teensy3/usb_ds4.h:153 | the frame counter (top six bits of buttons[2]) advances by one modulo 64; the low two bits and the other bytes are unchanged |
| `ReportCodec.CtrReset` | teensy3/usb_ds4.h:154 | the frame counter becomes 0; the low two bits and the other bytes are unchanged |
| `ReportCodec.TouchState` | teensy3/usb_ds4.h:157 | the state is 0 or 1, and it is 1 (touching) exactly when bit 7 is clear |
| `ReportCodec.TouchId` | teensy3/usb_ds4.h:158 | the track id is below 128 |
| `ReportCodec.TouchX` | teensy3/usb_ds4.h:159 | x is below 4096 |
| `ReportCodec.TouchY` | teensy3/usb_ds4.h:160 | y is below 4096 |
| `ReportCodec.TouchPack` | teensy3/usb_ds4.h:165-166 | unpacking a packed word gives back `touch & 1`, `id & 0x7f`, `x & 0xfff` and `y & 0xfff` |
| `ReportCodec.TouchUnpack` | teensy3/usb_ds4.h:163-164 | the unpacked fields are in range and pack back into the same word, so packing is a bijection on in-range fields |
| `ReportCodec.TouchRoundTrip` | teensy3/usb_ds4.h:156-166 | for touch < 2, id < 128 and x, y < 4096, unpack after pack returns the inputs |
| `ReportCodec.TouchRelease` | teensy3/usb_ds4.h:161 | the release macro as written leaves the point reading as touching, with its id, x and y unchanged |
| `ReportCodec.TouchReleaseIntended` | teensy3/usb_ds4.h:161 | the corrected release leaves the point reading as released, with its id, x and y unchanged |
| `ReportCodec.TouchSet` | teensy3/usb_ds4.h:252-262 | the slot reads as touching afterwards; its id is kept if it was touching, else it is `pointCtr & 0x7f`; x and y are the inputs masked to 12 bits |
| `ReportCodec.CounterAfterRelease` | teensy3/usb_ds4.h:276-280 | the point counter advances by one exactly when the slot read as touching, with uint8_t wrap-around |
| `ReportCodec.TouchIdStableWhileTouching` | teensy3/usb_ds4.h:252-262 | over any run of position updates on a touching slot, the slot keeps touching and keeps its track id |
| `ReportCodec.ReleasedSlotStillTouching` | teensy3/usb_ds4.h:157-161 | as written, a released touching slot still reads as touching; the counter advanced by one; the next update keeps the old id |
| `ReportCodec.ReleasedSlotKeepsIdExample` | teensy3/usb_ds4.h:276-280 | concrete case: id 5 with the counter at 6 survives release and the next update, while the counter becomes 7 |
| `ReportCodec.IntendedReleaseReassignsId` | teensy3/usb_ds4.h:161 | with the corrected release, a slot touched at counter c is released, the counter becomes c + 1, and the next touch gets the different id `(c + 1) & 0x7f` |
| `ReportCodec.SensorTimestamp` | teensy3/usb_ds4.h:140 | the timestamp is `(uptime * 150) mod 65536`; the uint32_t wrap of the product makes no difference |
| `ReportCodec.NeutralSlotsReleased` | teensy3/usb_ds4.cpp:104-107 | in the neutral report, no touch slot reads as touching |
| `ReportCodec.ReportInit` | teensy3/usb_ds4.cpp:91-113 | gives the neutral image: report id 1, d-pad centred with no button, sticks at 0x80, extension 0x08, all six points `PACK(0,0,0,0)` with frame counters 0, battery 0xff, gyro 0xffe7/0x206e/0x09d9, every other field zero |
| `AuthRelay.Initial` | teensy3/usb_ds4.cpp:83-89 | the zeroed static state: sequence 0, all four flags false and a zero buffer, hence consistent |
| `AuthRelay.Reset` | teensy3/usb_ds4.cpp:115-121 | sequence 0 and all four flags false; the buffer is unchanged |
| `AuthRelay.StatusBlock` | teensy3/usb_ds4.cpp:160-169 | 16 bytes: tag 0xf2, the sequence, the status, then zeros |
| `AuthRelay.GetReport` | teensy3/usb_ds4.cpp:136-190 | handled exactly for 0x03f1/0x03f2/0x0303/0x03f3, else no reply and no change. 0x03f1: the buffer if buffered, else 64 zeros; buffered and sent become false; available becomes true if the replied page index is below 0x12, else is unchanged. 0x03f2: the status block (0x00 if buffered, else 0x10); sent becomes `!buffered` and nothing else changes. 0x0303/0x03f3: the fixed tables and no state change |
| `AuthRelay.SetReport` | teensy3/usb_ds4.cpp:192-231 | returns 0 exactly for a 64-byte 0x03f0 write tagged 0xf0; otherwise returns 1 with no change. When accepted, the buffer becomes the page and the challenge flag is set. A new sequence or page 0 also clears the other flags and adopts the sequence; otherwise nothing else changes |
| `AuthRelay.ConsumeChallenge` | teensy3/usb_ds4.cpp:344-347 | returns the buffer and clears only the challenge flag |
| `AuthRelay.ConsumePoll` | teensy3/usb_ds4.cpp:350-357 | returns the poll flag and clears only it |
| `AuthRelay.WriteResponse` | teensy3/usb_ds4.cpp:359-361 | the application's write through the response pointer replaces the shared buffer and nothing else |
| `AuthRelay.MarkBuffered` | teensy3/usb_ds4.cpp:363-367 | buffered becomes true and available becomes false; nothing else changes |
| `AuthRelay.StepsKeepConsistent` | teensy3/usb_ds4.cpp:136-231 | every host and application step keeps "buffered and available are never both true" |
| `AuthRelay.DeliveryDecidesAvailability` | teensy3/usb_ds4.cpp:141-156 | in a consistent state, after a 0x03f1 read, available holds exactly when the replied page index is below 0x12 |
| `AuthRelay.UnsyncedReadReopens` | teensy3/usb_ds4.cpp:144-153 | a 0x03f1 read with nothing buffered returns 64 zeros and sets available |
| `AuthRelay.ChallengeOverwritesBufferedResponse` | teensy3/usb_ds4.cpp:211-220 | a same-transaction challenge accepted while a response is buffered replaces it, and the next 0x03f1 read returns the challenge page |
| `AuthRelay.PollSeenOnce` | teensy3/usb_ds4.cpp:350-357 | after a 0x03f2 poll, the first authChallengeSent returns `!buffered` and the second returns false |
| `AuthRelay.RunKeepsConsistent` | teensy3/usb_ds4.cpp:136-231 | any interleaving of host and application steps from a consistent state stays consistent |
| `AuthRelay.PollsSeenBounded` | teensy3/usb_ds4.cpp:157-171 | over any run, authChallengeSent returns true at most once per 0x03f2 poll, counting one poll pending at the start |
| `AuthRelay.PollsSeenFromStart` | teensy3/usb_ds4.cpp:349-357 | from the initial state, true answers never outnumber the host's polls |
| `AuthRelay.ChallengeHandedOnce` | teensy3/usb_ds4.cpp:340-347 | the initial state has no challenge; a seq 5 / page 1 write announces one; taking it returns the page and clears the announcement |
| `AuthRelay.ResponseDelivered` | teensy3/usb_ds4.cpp:141-156 | a written and buffered page closes production, is returned to the host, is unbuffered, and reopens production exactly when its page index is below 0x12 |
| `AuthRelay.PageZeroResets` | teensy3/usb_ds4.cpp:211-215 | a write with the tracked sequence but page 0 still clears the other flags |
| `AuthRelay.Relay.constructor` | teensy3/usb_ds4.cpp:83-89 | zeroed static state, which is valid |
| `AuthRelay.Relay.StateInit` | teensy3/usb_ds4.cpp:115-121 | performs `Reset` on the fields |
| `AuthRelay.Relay.OnGetReport` | teensy3/usb_ds4.cpp:136-190 | performs `GetReport`: writes the reply into the 64-byte reply buffer and leaves the bytes after it unchanged. When handled, returns 0 and the reply length; otherwise returns 1 and the caller's length unchanged |
| `AuthRelay.Relay.OnSetReport` | teensy3/usb_ds4.cpp:192-231 | performs `SetReport` on the fields and the feature buffer, with the same return code |
| `AuthRelay.Relay.AuthChallengeAvailable` | teensy3/usb_ds4.cpp:340-342 | returns the challenge flag and changes nothing |
| `AuthRelay.Relay.AuthGetChallenge` | teensy3/usb_ds4.cpp:344-347 | returns the feature buffer itself, not a copy, and performs `ConsumeChallenge` |
| `AuthRelay.Relay.AuthChallengeSent` | teensy3/usb_ds4.cpp:350-357 | performs `ConsumePoll` |
| `AuthRelay.Relay.AuthGetResponseBuffer` | teensy3/usb_ds4.cpp:359-361 | returns the same 64-byte feature buffer and changes nothing |
| `AuthRelay.Relay.AuthSetBufferedFlag` | teensy3/usb_ds4.cpp:363-367 | performs `MarkBuffered` |
| `AuthRelay.Relay.AuthResponseAvailable` | teensy3/usb_ds4.cpp:369-371 | returns the available flag and changes nothing |
| `Endpoints.SendReportResult` | teensy3/usb_ds4.cpp:286-295 | 0 exactly when 64 bytes were queued, -1 exactly when the transport says "not configured", 1 otherwise |
| `Endpoints.RecvFeedback` | teensy3/usb_ds4.cpp:297-338 | replaces the block with the first 31 received bytes (`sizeof(ds4_feedback_t)`) exactly when at least 31 bytes were waiting, the receive delivered, and byte 0 is 0x05; otherwise the block is unchanged. Returns 1 exactly for a wrong id, a receive timeout, or a partial report waiting; otherwise 0 |
| `Endpoints.FeedbackKeepsTag` | teensy3/usb_ds4.cpp:304-310 | a poll either keeps the block or installs one tagged 0x05 |
| `Endpoints.UnconfiguredReadsAsSuccess` | teensy3/usb_ds4.cpp:304-337 | a receive failing with -1 leaves the block unchanged, and returns 0 exactly when 31 or more bytes were waiting (the receive was tried) or none were |
| `Endpoints.WholeReportAtThirtyOne` | teensy3/usb_ds4.cpp:304-309 | with exactly 31 bytes waiting a packet tagged 0x05 is taken and its first 31 bytes become the block; with 30 waiting the poll reports an underflow (1) and keeps the block |
| `Gamepad.DS4.constructor` | teensy3/usb_ds4.h:198 | zeroed report, feedback and counter |
| `Gamepad.DS4.Begin` | teensy3/usb_ds4.h:199-203 | the neutral report, a zero feedback block, and point counter 0 |
| `Gamepad.DS4.Send` | teensy3/usb_ds4.h:204-211 | always stamps `SensorTimestamp(uptime)`; advances the frame counter and returns true only when the send result maps to 0; nothing else changes |
| `Gamepad.DS4.Update` | teensy3/usb_ds4.h:218-220 | the feedback block becomes what `RecvFeedback` leaves; the report and counter are unchanged |
| `Gamepad.DS4.PressButton` | teensy3/usb_ds4.h:221-223 | the buttons become `BtnSet` of them; nothing else changes |
| `Gamepad.DS4.ReleaseButton` | teensy3/usb_ds4.h:224-226 | the buttons become `BtnClr` of them; nothing else changes |
| `Gamepad.DS4.ReleaseAllButton` | teensy3/usb_ds4.h:227-229 | the buttons become `BtnReset` of them; nothing else changes |
| `Gamepad.DS4.PressDpad` | teensy3/usb_ds4.h:230-237 | the buttons become `DpadSet` of them; nothing else changes |
| `Gamepad.DS4.ReleaseDpad` | teensy3/usb_ds4.h:238-240 | the d-pad nibble becomes centre (8); nothing else changes |
| `Gamepad.DS4.SetLeftAnalog` | teensy3/usb_ds4.h:242-245 | only the left stick bytes change |
| `Gamepad.DS4.SetRightAnalog` | teensy3/usb_ds4.h:247-250 | only the right stick bytes change |
| `Gamepad.DS4.SetTouchPos1` | teensy3/usb_ds4.h:252-262 | only frame 0 changes: its first point becomes `TouchSet` of it and its revision counter advances by one |
| `Gamepad.DS4.SetTouchPos2` | teensy3/usb_ds4.h:264-274 | the same for the second point |
| `Gamepad.DS4.ReleaseTouchPos1` | teensy3/usb_ds4.h:276-280 | the counter advances by the slot's state bit; the first point of frame 0 gets the release macro; the revision counter advances; nothing else changes |
| `Gamepad.DS4.ReleaseTouchPos2` | teensy3/usb_ds4.h:282-286 | the same for the second point |
| `Gamepad.DS4.ReleaseTouchAll` | teensy3/usb_ds4.h:288-295 | both points of frame 0 are released; the counter advances by both state bits plus one; the revision counter advances once |
| `Gamepad.FrameCounterCountsSuccesses` | teensy3/usb_ds4.h:204-211 | after any run of sends, the frame counter has advanced by the number of successes modulo 64, and the button bits are unchanged |
| `Gamepad.TouchAfterRelease` | teensy3/usb_ds4.h:252-280 | after begin, then touch, release and touch, the slot reads as touching with id 0 while the counter is 1 |

## Findings

| source | as written | input that shows it | evidently intended | confidence | as-written member | corrected member |
|---|---|---|---|---|---|---|
| teensy3/usb_ds4.h:161 | `DS4_TOUCH_RELEASE` clears bit 7. Bit 7 is the inverted active flag, so the released point reads as touching (`DS4_TOUCH_GET_STATE` gives 1) | a point packed with touch 1, id 5 at (100, 200), counter 6. After `releaseTouchPos1`, the counter is 7 and the point still reads as touching. The next `setTouchPos1` keeps id 5 | set bit 7 (or in 0x80). The point then reads as released, as `PACK(0, …)` in the neutral report does, and the next touch takes a fresh id from the counter | high; not executed | `ReportCodec.ReleasedSlotKeepsIdExample` | `ReportCodec.IntendedReleaseReassignsId` |

Class `Gamepad.DS4` keeps the macro as written, because it models what the firmware does. The corrected `TouchReleaseIntended` and its lemma state the behaviour the touch format and the neutral report call for.

## Left out

- `usb_ds4_send`, `usb_ds4_recv` and `usb_ds4_available` poll the USB stack with `millis()` timeouts and `yield()`. They are transport I/O, so their results are parameters of `Gamepad.DS4.Send`, `Endpoints.RecvFeedback` and `Gamepad.DS4.Update`.
- `send(void)` and `sendAsync()` only choose the transport's blocking mode. That mode matters only inside the transport, so `Send` takes the transport's result instead.
- `millis()` is the parameter `uptimeMs`, a value below 2^32.
- Interleaving of the USB interrupt with the application loop is not modelled. Each handler and each `auth*` call is one atomic step, as the header's critical-section note asks.
- The `setup_struct` union and its byte order are not modelled. `wValue` and `wLength` are inputs.
- Packed-struct memory layout is not modelled. The report is a record with its documented fields. The auth blocks are byte sequences at their documented offsets.
- `Gamepad.DS4.PressButton` and `Gamepad.DS4.ReleaseButton` require the byte index `(id >> 3) & 3` to be below 3. With index 3 (ids 24-31, 56-63, …), the macros write past the 3-byte bitmap into the next field of the packed struct, and that layout is not modelled.
- `ReportCodec.TouchPack` computes in unsigned 32-bit arithmetic. In the source, `(y & 0xfff) << 20` is a shift of a promoted signed `int` that overflows for y ≥ 2048. The model takes the bit pattern the compiler produces.
- `Endpoints.RecvFeedback` does not check the receive's byte count: like the source, it copies `sizeof(ds4_feedback_t)` = 31 bytes whenever the count is positive. `DS4_RX_SIZE` comes from `usb_desc.h`, which is not part of this model. The received packet is required to hold at least 31 bytes.
- `AuthRelay.Relay.OnGetReport` requires the reply buffer to be exactly 64 bytes, the size of `usb_ds4_reply_buffer`.
- `AuthRelay.ConsumeChallenge` returns the buffer's contents at the time of the call. The firmware's pointer, which `Relay.AuthGetChallenge` does return, also shows later writes.
- The `debug_print` logging is not modelled.
- The meaning of the replay tables, the challenge and response payloads and the feedback bytes is not modelled. They are opaque constants and bytes. No cryptography is computed.
