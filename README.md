# CH1115 OLED driver, modelled in Dafny

This project models the `ch1115` driver for the CH1115 monochrome OLED controller and proves
properties of the model. The driver is a Rust crate; the model covers its three core files:

- `src/instructions.rs`, the opcode table. Module `Instructions`: the `Instruction` datatype,
  `Opcode` (the conversion into a bus byte) and its inverse `Decode`.
- `src/lib.rs`, the command sequencer. It is split into four modules:
  - `Geometry`: the two panel variants and their constants.
  - `Trace`: the bus, the reset pin and the delay source, seen as an append-only trace of events
    (`Cmd`, `Data`, `PinHigh`, `PinLow`, `DelayMs`, `DelayUs`). An oracle `Env` decides which bus
    or pin step fails.
  - `Protocol`: each operation's step list and the pure argument encodings.
  - `Driver`: class `Ch1115`, with the framebuffer as an `array<byte>` and the trace as a field.
    Its methods mirror the driver's `&mut self` methods. Each method that sequences several
    steps is proved to perform exactly its step list: `Outcome(trace, r) == Run(env, old(trace),
    Steps)`. `Run` attempts the steps in order and stops at the first failure, as the driver's
    `?` does. The single-step methods (`WriteCommand`, `SendData`, `SetResetPin`) are stated
    against `Step`; the delays (`WaitMs`, `WaitUs`) append their event and cannot fail; and
    `DrawIter`, which touches only the framebuffer, is stated against `Graphics.DrawAll` and
    leaves the trace as it was.
- `src/graphics.rs`, the drawing surface. Module `Graphics` has the pixel-to-bit mapping, one
  drawing step (`DrawPixel`), and the whole drawing loop (`DrawAll`). `Driver.Ch1115.DrawIter`
  is the in-place loop, proved equal to `DrawAll`.

Bytes are `bv8`, so the source's `|`, `&`, `<<` and `>>` are exact. Coordinates are `int`.

Three details of the code that the model keeps exactly:
- The reset ends with a 1 ms delay after the line goes high again (src/lib.rs:218-221).
- The breathing-light brightness selector is a two-bit value shifted left by 3, so it lands in bits 4..3 and bits 6..5 stay clear (src/lib.rs:286-290).
- Drawing writes one bit and keeps no history, so switching a pixel on and then off gives the buffer back only if the pixel was off before (src/graphics.rs:54-59).

## Model

| member | source | states |
|---|---|---|
| `Instructions.Opcode` | src/instructions.rs:3-41 | the encoding: each instruction's discriminant, which `From<Instruction> for u8` returns; it has no contract of its own, and its inverse `Decode` is connected to it by `DecodeOpcode` and `OpcodeDecode` |
| `Instructions.DecodeOpcode` | src/instructions.rs:3-41 | every instruction's byte decodes back to that instruction |
| `Instructions.OpcodeDecode` | src/instructions.rs:3-36 | every byte that decodes at all is the opcode of the instruction it decodes to |
| `Instructions.OpcodeInjective` | src/instructions.rs:3-36 | no two instructions share a discriminant |
| `Instructions.ColumnOpcodeRanges` | src/instructions.rs:28-29 | OR-ing a nibble into 0x00 gives 0x00..0x0F and into 0x10 gives 0x10..0x1F; the nibble reads back and the two ranges never meet |
| `Instructions.PageOpcodeRange` | src/instructions.rs:32 | OR-ing a page 0..7 into 0xB0 gives 0xB0..0xB7, and the page reads back from the low bits |
| `Instructions.InitCombinedOpcodes` | src/instructions.rs:30-34 | the four OR-combined init commands are 0x40, 0x32, 0xA1 and 0xC8 |
| `Geometry.DisplaySize.Width` | src/lib.rs:59-79 | `WIDTH` of each variant, 128 and 88; a constant with no contract of its own |
| `Geometry.DisplaySize.Height` | src/lib.rs:59-79 | `HEIGHT` of each variant, 64 and 48; a constant with no contract of its own |
| `Geometry.DisplaySize.OffsetX` | src/lib.rs:59-79 | `OFFSET_X` of each variant, 0 and 20; the panel's columns then end at or before column 128, where the column address is sent in full |
| `Geometry.DisplaySize.Pages` | src/lib.rs:246 | `HEIGHT / 8` pages, between 1 and 8, covering the height exactly |
| `Geometry.DisplaySize.BufferSize` | src/lib.rs:59-79 | the `Buffer` array length of each variant, 1024 and 528; its relation to the area is `BufferSizeIsArea` |
| `Geometry.BufferSizeIsArea` | src/lib.rs:59-79 | each variant's buffer length (1024, 528) is width times height over 8, i.e. pages times width |
| `Geometry.CreateBuffer` | src/lib.rs:66-78 | the created buffer has one bit per pixel and every byte zero |
| `Trace.NoResetPin` | src/lib.rs:26-38 | the pin oracle of `NoResetPin`, whose `set_low` and `set_high` always return `Ok`: it never reports an error; no contract of its own, used by `HardResetWithoutPin` |
| `Trace.Fault` | src/lib.rs:209-318 | a failing bus step fails with DisplayError, a failing pin step fails with Pin(e) where e is the error the pin itself returned, and delays never fail |
| `Trace.Step` | src/lib.rs:313-318 | a step succeeds exactly when it does not fault; on success it is appended to the trace, and on failure nothing is |
| `Trace.Run` | src/lib.rs:119-161 | a `?`-chain: the steps in order, stopping at the first that fails; its own contract says only that the trace grows, and `RunEmitsPrefix` characterises it completely |
| `Trace.RunEmitsPrefix` | src/lib.rs:119-161 | a `?`-chain emits a prefix of its steps, each of which passed; it succeeds exactly when it emits them all, and otherwise it returns the error of the first step that failed, which is the first one omitted |
| `Trace.BusOnlyErrors` | src/lib.rs:313-318 | a chain of bus writes and delays can only fail with DisplayError |
| `Protocol.ColumnAddressCommands` | src/lib.rs:264-276 | no bytes are sent for a column above 127, and two for any other column |
| `Protocol.ColumnAddressRoundTrip` | src/lib.rs:269-273 | the bytes are a lower-column command (high nibble 0x00) and a higher-column command (high nibble 0x10) from which the controller rebuilds exactly c; together these fix both bytes |
| `Protocol.PageCommands` | src/lib.rs:297-304 | no byte is sent for a page above 7, and one for any other page |
| `Protocol.PageCommandRoundTrip` | src/lib.rs:302 | the byte is a page-address command whose low three bits are the page |
| `Protocol.MaxBrightness.Code` | src/lib.rs:88-93 | the selector's `repr(u8)` discriminant, 0b00 to 0b11, so at most 3 |
| `Protocol.BreathingParameter` | src/lib.rs:285-290 | bit 7 is the enable flag, bits 6..3 hold the brightness selector and bits 2..0 hold frames less one |
| `Protocol.BreathingRoundTrip` | src/lib.rs:285-290 | the parameter byte decodes back to (enable, brightness, frames) |
| `Protocol.BreathingExample` | src/lib.rs:285-290 | enabled, 64-step range, 4 frames gives 0x93 |
| `Protocol.BreathingCommands` | src/lib.rs:278-295 | nothing is sent for 0 or more than 8 frames; otherwise 0x23 then a byte that decodes to the arguments |
| `Protocol.HardResetSteps` | src/lib.rs:208-224 | the reset's step list: high, 1 ms, low, 50 us, high, 1 ms; no contract of its own, its properties are `HardResetPulse`, `HardResetErrors` and `HardResetWithoutPin` |
| `Protocol.HardResetPulse` | src/lib.rs:208-224 | the pulse is high, low, high, with a delay after each; low is held at least 10 us and the line ends high after at least 1 ms |
| `Protocol.HardResetErrors` | src/lib.rs:208-224 | the reset fails only at a pin step, with Pin(e) where e is that pin's own error |
| `Protocol.HardResetWithoutPin` | src/lib.rs:208-224 | with a pin that never fails the reset always emits the whole pulse and succeeds |
| `Protocol.PageStart` | src/lib.rs:253-254 | every page's slice lies inside the buffer |
| `Protocol.PageGroup` | src/lib.rs:250-258 | one iteration of flush's page loop: the page command, the column address at the panel's offset and the page's burst; no contract of its own, its shape is `PageGroupShape` |
| `Protocol.FlushFrom` | src/lib.rs:249-259 | the page loop from a given page to the last; no contract of its own, its shape is `FlushShape` |
| `Protocol.FlushSteps` | src/lib.rs:245-262 | flush's step list, the page loop from page 0; no contract of its own, its properties are `FlushShape`, `FlushBurst` and `FlushDataIsBuffer` |
| `Protocol.PageGroupShape` | src/lib.rs:250-258 | a page's group is the page command, the two column commands and the page's burst |
| `Protocol.FlushBurst` | src/lib.rs:253-258 | the fourth step of page p's group is the burst `buffer[p*W .. p*W+W]` |
| `Protocol.FlushShape` | src/lib.rs:245-262 | flush has exactly four steps per page, in increasing page order from 0, each as the direct description states |
| `Protocol.FlushDataIsBuffer` | src/lib.rs:249-259 | the data bursts of a flush, concatenated, are the whole buffer |
| `Protocol.ClearSteps` | src/lib.rs:306-311 | clear's step list, the flush of the all-zero buffer; no contract of its own |
| `Protocol.MultiplexArgument` | src/lib.rs:127 | the multiplex argument is the panel height less one |
| `Protocol.InitConfig` | src/lib.rs:122-152 | init's twenty configuration bytes, from the instruction table; no contract of its own, its bytes are `InitConfigBytes` |
| `Protocol.InitPrelude` | src/lib.rs:119-152 | init's steps before the clear: the reset, then the configuration bytes; no contract of its own |
| `Protocol.DisplayOnCommands` | src/lib.rs:156-158 | the three closing commands of init; no contract of its own, its bytes are in `InitStepsBytes` |
| `Protocol.InitSteps` | src/lib.rs:119-161 | init's step list: prelude, clear, closing commands; no contract of its own, its properties are `InitStepsBytes`, `DisplayOnLast` and `DisplayOnOnlyAfterSuccess` |
| `Protocol.InitConfigBytes` | src/lib.rs:122-152 | the twenty configuration bytes, in order |
| `Protocol.InitStepsBytes` | src/lib.rs:119-161 | init is the reset pulse, the twenty configuration bytes, the blank flush, then 0xA4, 0xA6, 0xAF |
| `Protocol.DisplayOnLast` | src/lib.rs:154-158 | display-on is init's last step and occurs nowhere before it, so it comes after every data burst |
| `Protocol.DisplayOnOnlyAfterSuccess` | src/lib.rs:119-161 | whatever fails, display-on is emitted only by an init that succeeded |
| `Graphics.InBounds` | src/graphics.rs:47-49 | the panel test of the drawing loop's guard, in its intended reading (see Findings); no contract of its own |
| `Graphics.ByteIndex` | src/graphics.rs:54-56 | the byte of an on-panel pixel lies inside the buffer, at column x of page y / 8 |
| `Graphics.BitIndex` | src/graphics.rs:55 | the bit offset is below 8 |
| `Graphics.AddressInjective` | src/graphics.rs:54-56 | two on-panel points with the same byte and bit are the same point |
| `Graphics.WriteBit` | src/graphics.rs:58-61 | after the write, the bit is set exactly when the colour is On |
| `Graphics.WriteBitOthers` | src/graphics.rs:59-60 | the other seven bits are kept |
| `Graphics.DrawPixel` | src/graphics.rs:47-61 | an off-panel pixel leaves the buffer unchanged; an on-panel pixel takes its colour and no other byte changes |
| `Graphics.DrawPixelOthers` | src/graphics.rs:56-60 | every other pixel keeps its state |
| `Graphics.DrawPixelBits` | src/graphics.rs:56-60 | inside the pixel's byte no other bit changes |
| `Graphics.DrawPixelIdempotent` | src/graphics.rs:58-60 | drawing a pixel twice is drawing it once |
| `Graphics.DrawPixelOverwrite` | src/graphics.rs:58-60 | of two writes to the same point the later one decides |
| `Graphics.OnThenOffRestores` | src/graphics.rs:59-60 | switching an unlit pixel on and then off gives the buffer back byte for byte |
| `Graphics.BlankBufferUnlit` | src/lib.rs:307 | in the zeroed buffer every pixel is dark |
| `Graphics.DrawAll` | src/graphics.rs:46-62 | the drawing loop over the pixels in order; its own contract fixes the length, and `DrawAllLastWins` and `DrawAllOffPanel` say what it draws |
| `Graphics.DrawAllLastWins` | src/graphics.rs:46-62 | after drawing, each on-panel pixel has the colour of the last pixel drawn at it, or its old state if none was |
| `Graphics.DrawAllOffPanel` | src/graphics.rs:47-50 | off-panel pixels leave the buffer byte for byte unchanged |
| `Graphics.AsUsize` | src/graphics.rs:51-52 | an i32 cast to a 64-bit usize keeps non-negative values and wraps negative ones to the top of the range |
| `Graphics.DrawPixelAsWritten` | src/graphics.rs:47-60 | with the guard as written, on-panel pixels are skipped, and with overflow checks on a 64-bit target a negative coordinate panics |
| `Graphics.GuardAsWrittenSkipsPanel` | src/graphics.rs:47-49 | as written, the top-left pixel stays dark and point (-1, 0) panics |
| `Graphics.GuardAsWrittenMisplaces` | src/graphics.rs:47-56 | as written, point (W, 0) lights pixel (0, 8) |
| `Driver.Ch1115.constructor` | src/lib.rs:110-117 | the new driver holds a fresh zeroed buffer of the variant's size and has emitted nothing |
| `Driver.Ch1115.Size` | src/graphics.rs:24-26 | the reported dimensions bound exactly the on-panel points |
| `Driver.Ch1115.WriteCommand` | src/lib.rs:313-318 | one command byte is one step, and a bus failure is DisplayError |
| `Driver.Ch1115.SendData` | src/lib.rs:256-258 | one data burst is one step, and a bus failure is DisplayError |
| `Driver.Ch1115.SetResetPin` | src/lib.rs:209-219 | one pin level is one step, and a pin failure is wrapped in Pin |
| `Driver.Ch1115.WaitMs` | src/lib.rs:211 | a delay is appended and cannot fail |
| `Driver.Ch1115.WaitUs` | src/lib.rs:216 | a delay is appended and cannot fail |
| `Driver.Ch1115.SetColumnAddress` | src/lib.rs:264-276 | performs exactly the column-address bytes and stops at the first failing write |
| `Driver.Ch1115.SetBreathingEffect` | src/lib.rs:278-295 | performs exactly the breathing-light bytes and stops at the first failing write |
| `Driver.Ch1115.SetPage` | src/lib.rs:297-304 | performs exactly the page byte |
| `Driver.Ch1115.HardReset` | src/lib.rs:208-224 | performs exactly the reset pulse and stops at the first failing pin step |
| `Driver.Ch1115.Flush` | src/lib.rs:245-262 | performs exactly the flush steps of the current buffer and leaves the buffer unchanged |
| `Driver.Ch1115.Clear` | src/lib.rs:306-311 | zeroes every byte, then performs exactly the flush of the all-zero buffer |
| `Driver.Ch1115.WriteCommands` | src/lib.rs:122-152 | a run of `write_command(..)?` calls performs exactly those commands in order |
| `Driver.Ch1115.Init` | src/lib.rs:119-161 | performs exactly init's steps; the buffer is zeroed exactly when everything before the clear succeeded |
| `Driver.Ch1115.DrawIter` | src/graphics.rs:38-65 | the buffer becomes DrawAll of the old buffer and the pixels, in iteration order |
| `Driver.TopLeftPixelDrawn` | src/graphics.rs:54-59 | drawing (0, 0) On on the blank buffer sets byte 0 to 0x01 and changes nothing else |
| `Driver.TopLeftPixelFlush` | src/lib.rs:245-259 | flushing that buffer sends a first burst that starts with 0x01; every other byte it sends is 0x00 |

## Left out

- The async variants `init_async` and `hard_reset_async` (src/lib.rs:163-206, 226-243) are not modelled. They produce the same step lists as `init` and `hard_reset`, and the model has no scheduling.
- The failure oracle (`Trace.Env`) sees only the trace emitted so far and the step being attempted, and a failed step is not appended. So retrying a failed step at once, from the same trace, fails again. A fault that clears on retry, such as re-running `init` after its first `PinHigh` failed, cannot be expressed. No proved property depends on this.
- Timing is not modelled: delays are trace events with their durations, and there is no clock.
- The trait plumbing of `display_interface`, `embedded_hal` and `embedded_graphics_core` is left out. The bus, the pin and the delay source are replaced by the trace and the failure oracle (`Trace.Env`).
- `NoResetPin` is modelled only as a pin-failure oracle that never fails (`Trace.NoResetPin`).
- The unused `size` field and `OFFSET_Y` are left out.
- The commented-out `write_data` is left out.
- What the commands do to the physical panel is left out; the controller's own state is not in the source.
- The parts of src/graphics.rs that do not compile and do not affect behaviour are left out: the unused `WriteDataCommand` import, and the u8/u32 mismatch in `Size::new`.
- Driver.Ch1115.DrawIter: the modelled guard is the intended one, which skips off-panel points. The guard as written is modelled separately, in `Graphics.DrawPixelAsWritten` (see Findings).
- Driver.Ch1115.DrawIter has no result. The source's error type is `Infallible`, so `Ok(())` is its only outcome.
- Driver.Ch1115.WriteCommands is not a function in the source. It stands for the twenty consecutive `write_command(..)?` lines of `init`, and for the final three.
- Graphics.DrawPixelAsWritten: assumes a 64-bit `usize` and a build with overflow checks, where the index arithmetic on a wrapped negative coordinate panics. In a release build that arithmetic wraps instead and can land inside the buffer: on 128x64, (130, -1) writes byte 2, bit 7, and (-1, 8) writes byte 127, bit 0. On a 32-bit target the cast's bound differs. The inputs of the finding below, (0, 0), (-1, 0) and (W, 0), do not depend on either assumption.
- Graphics.AsUsize: models the cast to a 64-bit `usize` only.
- Coordinates stay mathematical integers in the drawing model. With the intended guard only on-panel points reach the `as usize` casts, so no wrap-around can occur there.

## Findings

| source | as written | input that shows it | evidently intended | confidence | as-written member | corrected member |
|---|---|---|---|---|---|---|
| src/graphics.rs:47-49 | the loop `continue`s when the point is on the panel (and names `coord` for `point`) | drawing (0, 0) On on a blank panel leaves it dark; (-1, 0) panics on indexing; (W, 0) lights (0, 8) | skip points off the panel, draw those on it | high, not executed | `Graphics.GuardAsWrittenSkipsPanel` | `Graphics.DrawAllLastWins` |
