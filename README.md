# ecc1/radio register layer in Dafny

This project models the hardware-access core of the `radio` Go package: the
`Hardware` type of `hardware.go`, which drives a radio chip over SPI and keeps
a sticky error latch, and the `MegaHertz` formatter and record types of
`radio.go`.

- `Hardware` (module `Hardware`) is a class whose one mutable field is the
  latch `err: Option<Fault>`. Its flavor and its bus are `const`, so no
  operation can change the flavor. Reads are guarded: once `err` is set they
  return `0` or an empty sequence and make no bus call. Writes are
  unconditional: they always make their bus call, and its outcome replaces
  `err`. `WriteEach` is a loop that issues one single write per
  (address, value) pair. `Open` is the three-step set-up (open the device, set
  its speed, configure the interrupt line), with early returns.
- `HardwareFlavor` (hardware.go:12-23) is a datatype. It holds the device
  path, speed, chip-select and interrupt pin, and four total `byte -> byte`
  address encoders, one per method of the Go interface.
- The SPI and GPIO packages are replaced by `Peripherals.Bus`, an object with
  a log of calls (`BusOp`) and an `Oracle`. For a log ending in a call, the
  oracle gives that call's outcome (ok or a `Fault`), the bytes a transfer
  shifts in and the level of the interrupt line. `Bus.Transfer` overwrites
  the caller's `array` in place, as `spi.Device.Transfer` does with its
  slice. The oracle may be any function of the log, so every device
  behaviour is covered.
- `Format` holds the `fmt` verbs the core uses. These are `%d`, `%X`
  (upper case), a width flag that pads with spaces (`%3d`) and one that pads
  with zeros (`%03d`, `%04X`). It also holds the parser that reads such digits
  back.
- `Radio` holds `Counters` and `Statistics` (radio.go:8-18) as plain records,
  with the same fields, and
  `MegaHertz`, which prints `freq / 1000000` with `%3d`, a `.`, and
  `(freq % 1000000) / 1000` with `%03d`.

Two behaviours of the code are easy to miss, and the model states both:

- From 1 GHz on, `MegaHertz` prints four integer characters, not three
  (`MegaHertzLayout`, `MegaHertzOf1000`).
- When `Open`'s speed or interrupt step fails, the `Close` that follows
  replaces that step's error with its own outcome (see Findings).

## Model

| member | source | states |
|---|---|---|
| `Hardware.Hardware.constructor` | hardware.go:62 | a new Hardware holds the given flavor and no latched error |
| `Hardware.Hardware.Error` | hardware.go:38-41 | returns the latched error |
| `Hardware.Hardware.SetError` | hardware.go:43-46 | the latch becomes exactly the given value; `None` is how a fault is cleared |
| `Hardware.Hardware.AwaitInterrupt` | hardware.go:48-51 | one wait call on the interrupt line; the latch becomes its outcome |
| `Hardware.Hardware.ReadInterrupt` | hardware.go:53-58 | one read of the interrupt line; returns its level and latches its outcome |
| `Hardware.Hardware.Close` | hardware.go:80-83 | one close call; the latch becomes its outcome, whatever was latched before |
| `Hardware.Hardware.ReadRegister` | hardware.go:85-93 | when faulted: returns 0, no bus call, latch unchanged. Otherwise: exactly one transfer of `[ReadSingleAddress(addr), 0]`, latch = its outcome, result = byte 1 of the buffer after the transfer, even when the transfer failed |
| `Hardware.Hardware.ReadBurst` | hardware.go:95-104 | `n >= 0` is needed only when not faulted. When faulted: returns empty, no bus call, latch unchanged. Otherwise: one transfer of `[ReadBurstAddress(addr)]` + n zeros, latch = its outcome, result = exactly n bytes, the response without its first byte |
| `Hardware.Hardware.WriteRegister` | hardware.go:106-109 | whatever is latched, exactly one write of `[WriteSingleAddress(addr), value]`; the latch becomes its outcome |
| `Hardware.Hardware.WriteBurst` | hardware.go:111-114 | whatever is latched, exactly one write of `[WriteBurstAddress(addr)]` + data, with the data unchanged and in order; the latch becomes its outcome |
| `Hardware.Hardware.WriteEach` | hardware.go:116-125 | needs an even length (odd length panics). The log grows by `PairWrites(flavor, data)`. The latch is unchanged for empty data, otherwise it is the last write's outcome, which can hide an earlier failure |
| `Hardware.PairWritesAt` | hardware.go:122-124 | WriteEach makes exactly len(data)/2 writes, and the j-th is `[WriteSingleAddress(data[2j]), data[2j+1]]` |
| `Hardware.PairWritesSnoc` | hardware.go:122-124 | the writes for the first i+2 bytes are the writes for the first i bytes followed by the write of pair i/2 (the loop step) |
| `Hardware.Succeeding` | hardware.go:63-76 | the number of set-up steps that succeed before the first one fails: every earlier step returned ok, and the step at that index (if any) failed |
| `Hardware.Open` | hardware.go:60-78 | flavor kept. If the device open fails: only that call, and that error latched. If speed or interrupt set-up fails: the calls up to the failing one, then Close, and Close's outcome latched. On success: open, set speed, configure the interrupt, in that order, with no error |
| `Hardware.SpeedFaultThenCleanClose` | hardware.go:67-70 | on a bus where only the speed call fails, the speed step is the first failure and the Close after it succeeds |
| `Hardware.OpenHidesSpeedFault` | hardware.go:67-70 | on that bus, Open as written leaves no error latched, although the speed step failed and the device was closed |
| `Hardware.OpenKeepingFault` | hardware.go:60-78 | the same calls as Open. An error is latched exactly when some step failed, and it is that step's error |
| `Hardware.OpenKeepingFaultReportsSpeedFault` | hardware.go:67-70 | on the same bus, the corrected Open latches the speed step's error |
| `Hardware.LatchScenario` | hardware.go:85-109 | when faulted, a read makes no bus call, a write still does, and after `SetError(None)` the next read makes its transfer |
| `Hardware.HardwareVersionError.Error` | hardware.go:138-140 | the message is always 49 characters long; `VersionErrorRoundTrip` gives where the two `%04X` fields sit and that it parses back |
| `Hardware.VersionErrorRoundTrip` | hardware.go:138-140 | the message has 49 characters. Actual follows the prefix and Expected follows " (should be ", each as `%04X`. ParseVersionError reads the message back as the same HardwareVersionError |
| `Hardware.Hex4RoundTrip` | hardware.go:139 | `%04X` of a uint16 is exactly 4 upper-case hex digits that parse back to the value |
| `Radio.MegaHertz` | radio.go:43-47 | `%3d` of freq/10⁶, a `.`, and `%03d` of (freq%10⁶)/10³, by unsigned division: 7 characters below 1 GHz and 8 from 1 GHz on, with the `.` fourth from the end; `MegaHertzParts`, `MegaHertzLayout` and `MegaHertzRoundTrip` state the rest |
| `Radio.PaddedWidths` | radio.go:46 | the `%3d` part is 3 characters below 1 GHz and 4 from 1 GHz on; the `%03d` part is always 3 |
| `Radio.Truncation` | radio.go:44-45 | k <= 999, m <= 4294 for a uint32, and m·10⁶ + k·10³ <= freq < m·10⁶ + k·10³ + 1000 |
| `Radio.WholePartWidth` | radio.go:44-46 | the whole megahertz has at most 3 decimal digits below 1 GHz and exactly 4 from 1 GHz on |
| `Radio.FractionDigits` | radio.go:45-46 | `%03d` of the kilohertz is always exactly 3 digits, which parse back to k |
| `Radio.MegaHertzParts` | radio.go:43-47 | MegaHertz is the `%3d` whole part, a `.`, and the 3-digit fraction, with the widths above |
| `Radio.JoinedLayout` | radio.go:46 | layout of a `%3d` part, a `.`, and 3 digits: length 7 for up to 3 digits and 8 for 4 digits, with spaces or digits before the `.` |
| `Radio.JoinedParse` | radio.go:46 | stripping the spaces and splitting at the `.` reads both numbers of such a string back |
| `Radio.MegaHertzLayout` | radio.go:43-47 | below 1 GHz: 7 characters, spaces or digits, `.` at index 3, then 3 digits. From 1 GHz on: 8 characters, 4 digits, `.` at index 4 |
| `Radio.MegaHertzRoundTrip` | radio.go:43-47 | parsing MegaHertz(freq) gives back (m, k), and the frequency they denote is at most 999 Hz below freq |
| `Radio.MegaHertzOf915` | radio.go:43-47 | MegaHertz(915000000) == "915.000" |
| `Radio.MegaHertzOf433` | radio.go:43-47 | MegaHertz(433920000) == "433.920" |
| `Radio.MegaHertzOfZero` | radio.go:43-47 | MegaHertz(0) == "  0.000" |
| `Radio.MegaHertzOf1000` | radio.go:43-47 | MegaHertz(1000000000) == "1000.000", with four integer digits |
| `Format.PadLeft` | radio.go:46 | a width flag keeps the printed digits as the suffix, fills the rest with the pad character, and gives length max(width, len(digits)) |
| `Format.ParseDigits` | radio.go:46 | `%d` / `%X` print only digits of the base, and these parse back to the number |
| `Format.DigitsLength` | radio.go:46 | the unpadded number fits in k characters exactly when it is below base^k |
| `Format.ZeroPaddedRoundTrip` | radio.go:46 | a zero-padded verb prints exactly `width` digits for a number below base^width, and they parse back to it |
| `Format.TrimSpacePadding` | radio.go:46 | removing the leading spaces of a space-padded number gives back its digits |

## Left out

- The `spi` and `gpio` packages (hardware.go:8-9) are not part of this model. `Peripherals.Bus` stands in for them, and an oracle gives each call's outcome. A transfer's response is the oracle's bytes, cut or zero-extended to the buffer's length.
- Calls through a handle that a failed `spi.Open` or `gpio.Interrupt` left unset are not modelled. In Go such a call would use a nil device or pin. Here every call reaches the bus stand-in.
- `AwaitInterrupt` and `ReadInterrupt` only latch the oracle's outcome (and return its level). Blocking, and what a timeout means, are not modelled. A timeout is an `int`, not a `time.Duration`.
- Concurrency and the single-owner assumption are not modelled. Nothing in the code enforces them.
- The `Interface` type (radio.go:20-39) is not modelled. It only lists method signatures and has no implementation here.
- The `SPIDevice()` and `Device()` accessors (hardware.go:33-36, hardware.go:127-130) are not modelled. They only pass a value through.
- The flavor's `SPIDevice`, `Speed`, `CustomCS` and `InterruptPin` methods are fields of `HardwareFlavor`.
- The text of the `log.Panicf` message is not modelled. The odd-length panic of `WriteEach` is its `requires`.
- Go's `nil` slice and an empty slice are the same value here, the empty sequence.

## Findings

| source | as written | input that shows it | evidently intended | confidence | as-written member | corrected member |
|---|---|---|---|---|---|---|
| hardware.go:67-75 | after a failed `SetMaxSpeed` or `gpio.Interrupt`, `h.Close()` (hardware.go:82) overwrites `h.err` with Close's own outcome | `SetMaxSpeed` fails and the following `Close` succeeds: Open returns a closed device with `Error() == nil` | `Error()` stays set whenever a set-up step failed, and holds that step's error | medium, not executed | `Hardware.OpenHidesSpeedFault` | `Hardware.OpenKeepingFault` |
