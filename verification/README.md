# NEC infrared decoder — a Dafny model

This project models the decoder of the `nec` Arduino library. The library
decodes the NEC infrared remote-control protocol from a receiver pin.

Two interrupt handlers share one record of global variables with the `nec`
class:

- `nec_read` runs on every pin change. It measures the interval since the
  previous edge against fixed timing windows. It steps a four-phase machine
  (START, LEAD_PULSE_START, LEAD_SPACE_START, GET_PULSE). It either discards
  the frame, flags a repeat code, or ORs one classified bit into the 32-bit
  accumulator `nec_code`.
- `overflow` runs when the timer expires with no edge (a silence timeout).
  It returns the machine to START.

The class's accessors poll the record. `update` checks the complement bytes
of a completed frame and caches `address` and `command`, using 0xFF as the
"invalid" value.

The model is functional:

- `Decoder.State` is the shared record: `nec_state`, `j`, `nec_code`,
  `nec_ok`, `repeated`, the cached `address`/`command`, and whether the timer
  runs.
- `Decoder.Edge(s, ticks, pinLow)` and `Decoder.Overflow(s)` are the two
  handlers. Each is one atomic step. The interval read from the timer and the
  pin level are parameters.
- The `Facade` functions (`Update`, `RawCode`, `Command`, `Address`,
  `SkipThisCode`, `CodeReceived`, `NewKeyPressed`) return the record they
  leave behind together with their result.
- `Frames.Run` folds the handlers over a sequence of interrupts. The
  frame-level properties are stated over it: round trip, discard on a bad
  interval or a timeout, repeat detection, and a pending code frozen until
  read.

Integer widths are explicit. `nec_code` is a `u32`. `j`, `address` and
`command` are `u8`. `rawCode` returns a `u16`. OR-ing a bit into the
accumulator is `Bits.OrBit`, stated bit by bit.

Source quirks the model reproduces on purpose:

- **`high_max` is not an upper bound.** The macro subtracts in the wrong
  order: `(560-2250)+100` is the signed int -1590, not 1790, the value
  `(2250-560)+100` would give to match `low_max`. The missing outer
  parentheses do not matter at nec.cpp:163, because `>` binds looser than
  `+`. Compared with the `uint32_t` interval, -1590 becomes 2^32 - 1590. So only the lower bound of 460 ticks ever rejects a
  data space (`Timing.HighMaxEffective`).
- **The lead-pulse lower bound is `repeated_min` (2200), not
  `lead_pulse_min`.** `lead_pulse_min` is never used.
- **A completed frame does not return to START.** The machine stays in
  GET_PULSE with `j == 32` until `update` or `overflow` moves it. If
  `skipThisCode` discards such a frame before it is read, the next accepted
  data space would shift by 32. C++ leaves that shift undefined. `Edge`
  excludes it by the precondition `ShiftDefined`. The invariant `Inv` holds
  of every reachable state. The stronger `Live` adds "GET_PULSE with no code
  pending implies j < 32"; it holds of every reachable state except after
  such a skip (`Facade.SkipStall`). The plain "GET_PULSE implies j < 32" is
  not an invariant: it fails whenever a completed frame is pending in
  GET_PULSE (nec.cpp:173-175), as well as after a skip.
- **Only `rawCode` and `Command` consume the pending code.** `Address` does
  not; `skipThisCode` always does.
- **`rawCode` returns only the low 16 bits of `nec_code`.** It is declared
  `uint16_t` (nec.h:38), so the 32-bit accumulator is truncated
  (`Facade.RawCodeIsLow16`).
- **A second `rawCode` returns the same value.** The façade never clears
  `nec_code`; only a full lead space does (nec.cpp:158). So a second `rawCode`
  with no interrupt in between returns the same value again
  (`Facade.RawCodeTwice`).
- **`update` recomputes the address and command on every call while a code
  is pending.** The result does not change (`Facade.UpdateIdempotent`).

## Model

| member | source | states |
|---|---|---|
| Bits.OrBit | nec.cpp:169-170 | OR-ing the classified bit at position j (j < 32) sets bit j when the bit is 1. Every other bit of the accumulator keeps its value. The result still fits in 32 bits. |
| Bits.Pack | nec.cpp:223-226 | The four byte extractions of `update` read back exactly the four bytes a word was built from. |
| Bits.PackBytes | nec.cpp:223-226 | The four bytes `update` extracts determine the 32-bit code completely. |
| Bits.ComplementLow8 | nec.cpp:224 | `~x & 0xFF` on a 32-bit value is 0xFF minus x's low byte. |
| Bits.ValueOfLowBits | nec.cpp:170 | Splitting a 32-bit word into 32 bits and summing bit·2^i gives the word back. |
| Bits.BitsOfValue | nec.cpp:170 | Bit i of the sum of b_k·2^k is b_i, so an accumulator built bit by bit holds each bit where it was put. |
| Timing.ToUnsigned32 | nec.cpp:163 | A negative int compared with a `uint32_t` is read as its value plus 2^32. |
| Timing.ConstantsOrdered | nec.h:20-27 | `low_min` is 460 and `low_max` is 660. The windows are strictly ordered: low_min < low_max < repeated_min < lead_space_min < lead_space_max < lead_pulse_max. |
| Timing.HighMaxEffective | nec.h:24 | `high_max` evaluates to -1590. Against a `uint32_t` it is 2^32 - 1590. A data space passes exactly when it lies in [460, 2^32 - 1590]. |
| Timing.DataWindowHasNoRealUpperBound | nec.cpp:163 | For any interval the 10000-tick timer can report, the data-space test only checks the 460-tick lower bound. |
| Timing.Windows | nec.cpp:128-169 | As closed ranges: a lead pulse passes on [2200, 9200]. A repeat space is [2200, 4400). A full lead space is [4400, 4600]. A 0 bit is [460, 660). A 1 bit is [660, 2^32 - 1590]. |
| Timing.LeadSpacePartition | nec.cpp:140-153 | An accepted lead space is a repeat space or a full lead space, and never both. |
| Timing.LeadPulseLowerBoundIsRepeatedMin | nec.cpp:128 | Lead pulses of 2200 to 8799 ticks are accepted although they are shorter than `lead_pulse_min`. |
| Timing.NominalTimingsAccepted | nec.h:20-27 | Nominal NEC timings pass their windows within a tolerance of 100 ticks (the repeat space only from 50 short). A 660-tick space reads as 1. |
| Decoder.Edge | nec.cpp:112-180 | While a code is pending, the edge changes nothing. The edge never touches the cached address or command. A timing violation returns to START with the timer paused and no code ready. A code becomes ready only on a repeat space (repeat flag set, accumulator untouched) or on the 32nd data bit. An accepted data space sets bit j to its classification, keeps every other bit, and advances j. |
| Decoder.Overflow | nec.cpp:182-186 | Overflow forces START and pauses the timer. Every other field keeps its value, so a pending code stays readable. |
| Decoder.StartEdge | nec.cpp:121-125 | From START, any edge, whatever its interval or pin level, moves to LEAD_PULSE_START and starts the timer. |
| Decoder.LeadPulseEdge | nec.cpp:126-137 | At the end of the lead pulse, [2200, 9200] moves to LEAD_SPACE_START and clears the repeat flag. Any other interval returns to START with the timer paused and no code ready. |
| Decoder.LeadSpaceEdge | nec.cpp:138-159 | At the end of the lead space, [2200, 4400) gives START with a ready repeat code and the accumulator untouched. [4400, 4600] gives GET_PULSE with j = 0 and the accumulator cleared. Any other interval returns to START with the timer paused. |
| Decoder.DataEdge | nec.cpp:160-177 | In GET_PULSE, a pin-high edge changes nothing. A pin-low edge under 460 ticks returns to START without a ready code. Otherwise the edge ORs in `ticks >= 660` at bit j and increments j. The code becomes ready exactly when j reaches 32. |
| Decoder.InitLive | nec.cpp:84-91 | The zero-initialised record satisfies the invariant. |
| Decoder.LiveEdgeDefined | nec.cpp:170-172 | In a live state, every edge has a defined shift and `j` does not wrap. |
| Decoder.EdgeKeepsInv | nec.cpp:112-180 | Every edge keeps the invariant: j <= 32, no stale bits at or above j during a frame, and a pending full frame has 32 bits. An edge also keeps liveness. |
| Decoder.OverflowKeepsInv | nec.cpp:182-186 | Overflow keeps both the invariant and liveness. |
| Facade.Update | nec.cpp:217-230 | With no code pending, `update` changes nothing. With one pending, it ends the receive cycle (START, timer paused). It caches the low byte as the address if the next byte complements it, else 0xFF, and the same for the command from the top two bytes. Nothing else changes. |
| Facade.FrameAddress | nec.cpp:223-227 | The validated address, defined as "low byte if the two low bytes sum to 0xFF, else 0xFF", agrees with the source's test `(code & 0xFF) == (~(code >> 8) & 0xFF)`. |
| Facade.FrameCommand | nec.cpp:225-228 | The validated command, defined as "third byte if the two high bytes sum to 0xFF, else 0xFF", agrees with the source's test `((code >> 16) & 0xFF) == (~(code >> 24) & 0xFF)`. |
| Facade.CodeReceived | nec.cpp:188-190 | `codeReceived` is true exactly when reading the code, by `rawCode` or by `Command`, would change the record, i.e. when there is a pending code to consume. |
| Facade.NewKeyPressed | nec.cpp:198-200 | On a reachable record, a pending code reported as a new key has all 32 bits. Once a lead pulse is accepted (LEAD_SPACE_START or GET_PULSE), `newKeyPressed` reports a new key. The contract alone does not separate a pending repeat code from a pending frame when j is already 32; that distinction is proved through the body by `Frames.RepeatReceived` and `Frames.FrameReceived`. |
| Facade.RawCode | nec.cpp:192-196 | `rawCode` returns the two low bytes of the accumulator, because of the `uint16_t` result. It leaves the record `update` leaves, with the ready flag cleared: on a pending code that is START, timer paused, address and command cached, all else unchanged; with none pending the record is unchanged. |
| Facade.Command | nec.cpp:202-206 | `Command` returns the validated command of a pending frame, and the cached command when none is pending. It leaves the record `update` leaves, with the ready flag cleared, so the code is consumed; with none pending the record is unchanged. |
| Facade.Address | nec.cpp:208-211 | `Address` returns the validated address of a pending frame, and the cached address when none is pending. It leaves exactly the record `update` leaves, so a pending code stays pending. |
| Facade.SkipThisCode | nec.cpp:213-215 | `skipThisCode` clears the ready flag whatever the state, and changes nothing else. |
| Facade.FrameCode | nec.cpp:223-228 | A transmitted frame's bytes are address, inverted address, command and inverted command, from the low byte up. |
| Facade.ValidateFrame | nec.cpp:223-228 | A well-formed frame validates to the address and command it was built from. |
| Facade.ValidationSound | nec.cpp:227-228 | A byte pair that is not complementary yields the 0xFF sentinel. If both fields validate to values other than 0xFF, the code is exactly the well-formed frame for them. |
| Facade.UpdateIdempotent | nec.cpp:217-230 | Validating twice gives the same record as validating once. |
| Facade.AccessorOrderIrrelevant | nec.cpp:202-211 | On a pending frame, `Address` then `Command`, or `Command` then `Address`, return that frame's fields and leave the same record. |
| Facade.RawCodeTwice | nec.cpp:192-196 | A second `rawCode` with no new frame returns the same value and leaves the same record. |
| Facade.RawCodeIsLow16 | nec.h:38 | `rawCode` returns the accumulator modulo 2^16. |
| Facade.FacadeKeepsInv | nec.cpp:188-230 | Every accessor keeps the invariant. |
| Facade.FacadeKeepsLive | nec.cpp:213-215 | Every accessor except `skipThisCode` keeps liveness. `skipThisCode` breaks it exactly when a completed frame is still unvalidated in GET_PULSE. |
| Facade.SkipStall | nec.cpp:170-175 | After skipping an unvalidated completed frame, j is 32 and an accepted data space would shift out of range. An overflow, or a too-short data space, makes the machine live again. |
| Frames.Step | nec.cpp:112-186 | Each interrupt keeps a live machine live. |
| Frames.Run | nec.cpp:112-186 | Any sequence of edges and overflows from a live state keeps it live. |
| Frames.PendingCodeFrozen | nec.cpp:113 | While a code is pending, no sequence of interrupts changes the ready flag, the accumulator, j, the repeat flag or the cached fields. What `update` will produce stays the same. |
| Frames.ReceiveData | nec.cpp:155-175 | From the entry to GET_PULSE, n <= 32 accepted data bits leave j = n. The accumulator then equals the sum of b_i·2^i over the classified bits. The code is ready exactly when n = 32. |
| Frames.LeadIn | nec.cpp:121-159 | From START, a start edge, an accepted lead pulse and a full lead space enter GET_PULSE with j = 0, the accumulator cleared, the repeat flag clear and the timer running. |
| Frames.FrameReceived | nec.cpp:121-175 | A complete frame with accepted timings leaves a code that is received and new (not a repeat). Bit i of the code is the classification of the i-th data space. |
| Frames.TransmitRoundTrip | nec.cpp:121-175 | Decoding the edges a transmitter emits for any 32-bit word, with nominal timings, gives that word back as a new key. |
| Frames.AddressCommandRoundTrip | nec.cpp:202-228 | For the frame a remote sends for an address and a command, `Address` returns the address, then `Command` returns the command and consumes the code. |
| Frames.ExampleFrame | nec.cpp:202-228 | The frame for address 0x00 and command 0x10, sent to the initial decoder, reads back as 0x00 and 0x10. |
| Frames.TruncatedFrameDiscarded | nec.cpp:162-168 | A frame whose data space falls under 460 ticks before the 32nd bit returns to START with the timer paused. It is never exposed as received. |
| Frames.InterruptedFrameDiscarded | nec.cpp:182-186 | A timeout before the 32nd bit returns to START with the timer paused. The partial frame is never exposed as received. |
| Frames.RepeatReceived | nec.cpp:146-153 | A start edge, an accepted lead pulse and a repeat-length lead space make a code received at once. `newKeyPressed` is then false, and the accumulator is unchanged. |
| Frames.RepeatReportsPreviousKey | nec.cpp:146-153 | After a frame has been read, a repeat code makes `Address` and `Command` report the same address and command again. |

## Left out

- Hardware timer calls (construction, prescale, overflow period, `resume`, `pause`, `setCount`, `getCount`): these are calls into a hardware library. The interval since the previous handled edge is the `ticks` parameter of `Edge`. Resume and pause become the `timerRunning` field. The count is reset on every handled edge, including pin-high edges in GET_PULSE, so `ticks` always measures from the previous handled edge.
- `attachInterrupt`, `digitalRead`, the constructor and `begin` (nec.cpp:92-110): pin and interrupt registration. The pin level is the `pinLow` parameter. `Decoder.Init` is the record as `begin` leaves it. It assumes a zero-initialised global `nec` object, so the cached address and command start at 0.
- The `DEBUG` trace ring buffer, `pushtrace`, `poptrace` and Serial printing: compiled out by default, and with no effect on decoding.
- Concurrency between the interrupt handlers and the polling code: each handler and accessor is one atomic step on the shared record. Preemption in the middle of an accessor is not modelled.
- Decoder.Edge: requires `ShiftDefined`, which excludes accepting a data space while `j >= 32`. That can only happen after `skipThisCode` discards an unvalidated frame. C++ leaves the shift `state<<j` undefined there, and further such edges would wrap the `uint8_t` counter `j`.
