# RX8900 timer-interrupt configuration, modelled in Dafny

This project models the timer-interrupt test program for the Epson RX8900 real-time clock
(`rtc-rx8900-irqtest.c`). The program reaches the chip through an ioctl control channel. Each
request reads one register or replaces one register's whole byte. On top of the two
single-register primitives (`rx8900_read`, `rx8900_write`), the program decides from its
arguments whether to arm or disarm the periodic countdown timer. To arm, it reads the extension
register, selects the timer mode with TE cleared, writes the 16-bit counter (low byte, then
high byte), overwrites the control register with TIE, and finally sets TE. To disarm, it reads
the extension register and writes it back with TE cleared.

Modules, leaf first:

- `Registers` (`registers.dfy`): bytes (`bv8`), register numbers 0x00..0x1F, and the program's
  32-bit `u16` (a typedef of `unsigned int`). It holds the four basic-bank addresses the program
  uses (0x0B, 0x0C, 0x0D, 0x0F), the extension- and control-register flags, and the pure byte
  computations: `(v & 0xEC) | (mode & 0x03)`, `v | TE`, `v & ~TE`, and the counter split.
- `Trace` (`trace.dfy`): the channel as a log of requests. Each request is a read or a
  whole-byte write, marked with whether the ioctl succeeded. `Replay` gives the register file
  after a log. The lemmas are the frame and last-write facts that everything else rests on.
- `Timer` (`timer.dfy`): the request sequences of `rx8900_set_time_value`, the arm branch and
  the disarm branch. It states what each sequence does to the registers, both on a channel
  that fails nothing and on one where any request may fail.
- `Device` (`device.dfy`): class `Rx8900`, the chip behind the open handle. It owns a 32-cell
  `array<bv8>` and the request log. Its methods are `Read`, `Write`, `SetTimeValue`,
  `ArmTimer` and `DisarmTimer`, and each is proved against the `Timer` sequences.
- `IrqTest` (`irqtest.dfy`): the argument decision of `main` as a pure function (`Decide`) and
  the whole of `main` as a method (`RunIrqTest`).

Channel failures are part of the model. A chip object is made with a map `faults`. Request
number `k` fails exactly when `k` is a key of `faults`. A failed read leaves the byte
`faults[k]` in the program's variable; this stands for the uninitialised `reg.value`. A failed
write changes nothing. No return code is ever looked at, as in the program. So every branch
issues all of its requests, whatever the channel answers, and `main` still returns 0.

On these points the model follows the code as written:

- The mask `0xEC` has bit 4 clear, so the first write of the arm branch clears TE. It does not
  preserve TE.
- A count is the program's 32-bit value. A count above 65535 is not rejected: its high byte is
  truncated by the `(u8)` cast, so the two counter bytes encode `count % 65536`.
- An arm sequence does not stop at a failed request.
- The control register is overwritten with exactly TIE. It is not merged.
- The registers are 32 independent cells. The model does not assume that the basic-bank
  addresses 0x0B..0x0F alias the extension-bank addresses 0x1B..0x1F.

## Model

| member | source | states |
|---|---|---|
| `Registers.SelectTimerMode` | rtc-rx8900-irqtest.c:218 | the first extension-register value has TSEL0/1 equal to the mode's low two bits, TE clear, and FSEL0/1, USEL, WADA, TEST as read |
| `Registers.WithTimerEnabled` | rtc-rx8900-irqtest.c:225 | the final extension-register value has TE set and every other bit as before |
| `Registers.WithTimerDisabled` | rtc-rx8900-irqtest.c:229 | the disarm value has TE clear and every other bit as before |
| `Registers.SplitCount` | rtc-rx8900-irqtest.c:158-166 | the low counter byte is count mod 256, and the two bytes together encode count mod 65536 (the u8 cast truncates the high byte) |
| `Registers.SplitCountJoin` | rtc-rx8900-irqtest.c:162-163 | a count below 65536 is recovered exactly from its low and high bytes |
| `Registers.SplitCountExamples` | rtc-rx8900-irqtest.c:162-163 | 300 splits to (44, 1), 0 to (0, 0), 65535 to (255, 255), and 65536 wraps to (0, 0) |
| `Registers.ModeBits` | rtc-rx8900-irqtest.c:218 | with the mode chosen at lines 194 and 197, selecting on a zero byte gives TSEL1 alone for mode 2 ("sec") and TSEL0 and TSEL1 for mode 3 ("min") |
| `Trace.ApplyEffect` | rtc-rx8900-irqtest.c:148-151 | an acknowledged write replaces the whole byte of its register; a read or a failed write changes nothing; no other register is touched |
| `Trace.ReplayUnchanged` | rtc-rx8900-irqtest.c:125-156 | a log with no acknowledged write (only reads and failed requests) leaves every register as it was |
| `Trace.ReplayAppend` | rtc-rx8900-irqtest.c:143-156 | a sequence of single-register writes acts as its pieces in order: there is no batching |
| `Trace.ReplayFrame` | rtc-rx8900-irqtest.c:143-156 | a register that no acknowledged request of a log writes keeps its byte |
| `Trace.ReplayLanded` | rtc-rx8900-irqtest.c:143-156 | after any log, a register holds its old byte or a byte some acknowledged write of the log gave it |
| `Trace.ReadAfterWrite` | rtc-rx8900-irqtest.c:125-156 | after an acknowledged write of x to a register, with no later acknowledged write to it, the register holds x |
| `Timer.ReadBack` | rtc-rx8900-irqtest.c:125-135 | after an acknowledged write of x to a register, with no acknowledged write to it since (failed ones may occur), a successful read returns x, and a failed read returns the indeterminate byte left in `reg.value` |
| `Timer.SetTimeRequests` | rtc-rx8900-irqtest.c:162-163 | two writes, to 0x0B then 0x0C; the first byte is count mod 256 and the two bytes together encode count mod 65536 |
| `Timer.SetTimeEffect` | rtc-rx8900-irqtest.c:158-166 | for any fault pattern, 0x0B holds the low count byte if its write was acknowledged and its old byte otherwise, likewise 0x0C with the high byte; with no failures both hold the split count; no other register changes |
| `Timer.ArmRequests` | rtc-rx8900-irqtest.c:217-225 | six requests: one read of 0x0D, first, then only writes; the first 0x0D write has TSEL from the mode, TE clear and FSEL0/1, USEL, WADA, TEST as read; then the counter writes of `rx8900_set_time_value`; the control register gets exactly TIE (0x10); the last request sets TE in 0x0D and differs from the first 0x0D write only in TE |
| `Timer.DisarmRequests` | rtc-rx8900-irqtest.c:228-229 | a read of 0x0D, then one write of 0x0D with TE clear and every other bit as read |
| `Timer.ArmEffect` | rtc-rx8900-irqtest.c:216-226 | with no failures, arming leaves the split count in 0x0B/0x0C, exactly TIE in 0x0F, the selected mode plus TE in 0x0D with its other bits kept, and every other register unchanged |
| `Timer.ArmPartial` | rtc-rx8900-irqtest.c:216-226 | with any failures, only 0x0B, 0x0C, 0x0D and 0x0F can change, and 0x0B, 0x0C and 0x0F each keep their byte or hold the byte the branch writes to it |
| `Timer.ArmPartialTimerEnable` | rtc-rx8900-irqtest.c:216-226 | with any failures, 0x0D keeps its byte or holds the selected mode with TE clear or with TE set, and TE ends up set only if it was set before or the last write landed |
| `Timer.DisarmEffect` | rtc-rx8900-irqtest.c:227-230 | disarming changes no register but 0x0D; with no failures it clears TE there and keeps every other bit |
| `Device.Rx8900.Read` | rtc-rx8900-irqtest.c:125-135 | one read request for the address, logged; returns the register's byte (or the indeterminate byte) and the ioctl result; registers unchanged |
| `Device.Rx8900.Write` | rtc-rx8900-irqtest.c:143-156 | one write request carrying address and value unchanged, logged; on success that one register holds the value, and no other register changes |
| `Device.Rx8900.SetTimeValue` | rtc-rx8900-irqtest.c:158-166 | issues the low-byte then high-byte counter writes and always returns 0 |
| `Device.Rx8900.ArmTimer` | rtc-rx8900-irqtest.c:216-226 | issues exactly the six arm requests, whatever fails; the registers are the log's replay; with no failures 0x0B, 0x0C, 0x0F and 0x0D hold the intended bytes |
| `Device.Rx8900.DisarmTimer` | rtc-rx8900-irqtest.c:227-230 | issues the read and the TE-clearing write of 0x0D; nothing but 0x0D changes; with no failures 0x0D becomes its old byte with TE cleared |
| `IrqTest.Decide` | rtc-rx8900-irqtest.c:177-207 | usage iff argc < 2; disarm iff the first argument is 0; arm iff it is non-zero, argc is 4 and the unit is "sec" (mode 2) or "min" (mode 3); a parameter error otherwise |
| `IrqTest.HourIsRefused` | rtc-rx8900-irqtest.c:193-201 | with a non-zero first argument and four arguments, the unit "hour" is a parameter error |
| `IrqTest.RunIrqTest` | rtc-rx8900-irqtest.c:168-235 | usage and parameter errors return 0 with no request; a failed open returns 1 with no request; otherwise the arm or disarm branch issues all its requests and main returns 0 |

## Left out

- The temperature program (`rtc-rx8900-getTemperature.c`): its conversion is floating-point arithmetic, and what remains of it is a single read of register 0x17.
- Opening and closing `/dev/rtc0`: the result of `open` is the parameter `deviceOpen` of `RunIrqTest`. The ioctl request codes are left out too: the ioctl is an operation on the in-memory registers and the log.
- `sscanf` parsing: the integers of the first and third arguments are inputs. The case where `sscanf` fails and leaves `isWrite` or `tim` uninitialised is not modelled.
- The usage and error messages and the debug-print macro: console output only.
- The calendar, alarm, flag and battery registers and the battery-setting ioctl: declared in the program but never used by its logic.
- Bank aliasing of 0x0B..0x0F with 0x1B..0x1F: the program only uses the basic-bank addresses, and the model keeps all 32 cells independent.
- The byte left by a failed read is fixed per request number in `faults`. The model does not say where that byte comes from.
- A failed write is assumed to leave the chip's registers unchanged; what a failed ioctl does to the chip is up to the driver, which is not part of this model. The exact outcomes of `DisarmEffect` when its write fails and the TE clause of `ArmPartialTimerEnable` rest on this assumption.
