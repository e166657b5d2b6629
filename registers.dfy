/**
 * The RX8900 register file as the interrupt test program sees it: one-byte
 * registers addressed 0x00..0x1F, the four registers the timer logic touches,
 * the bit flags of the extension and control registers, and the pure byte
 * computations the program performs on them.
 */
module Registers {

  /** One register's contents (the program's `u8`). */
  type Byte = bv8

  /** A register number of the chip: 0x00..0x0F basic bank, 0x10..0x1F extension bank. */
  type RegAddr = a: nat | a < 0x20

  /** The program's `u16`, which is typedef'd to `unsigned int`: 32 bits wide, unsigned. */
  type U32 = bv32

  // Basic-bank addresses used by the timer logic.
  const TIMER_CNT_0: RegAddr := 0x0B
  const TIMER_CNT_1: RegAddr := 0x0C
  const EXT: RegAddr := 0x0D
  const CTRL: RegAddr := 0x0F

  // Extension register bits.
  const TSEL0: Byte := 0x01
  const TSEL1: Byte := 0x02
  const FSEL0: Byte := 0x04
  const FSEL1: Byte := 0x08
  const TE: Byte := 0x10
  const USEL: Byte := 0x20
  const WADA: Byte := 0x40
  const TEST: Byte := 0x80

  // Control register bits.
  const RESET: Byte := 0x01
  const AIE: Byte := 0x08
  const TIE: Byte := 0x10
  const UIE: Byte := 0x20
  const CSEL0: Byte := 0x40
  const CSEL1: Byte := 0x80

  /** The two timer-source select bits of the extension register. */
  const TSEL: Byte := TSEL0 | TSEL1

  /** x and y agree on every bit of mask. */
  predicate Agree(x: Byte, y: Byte, mask: Byte) {
    x & mask == y & mask
  }

  /** Every bit of flag is set in x. */
  predicate Has(x: Byte, flag: Byte) {
    x & flag == flag
  }

  /**
   * The first value written back to the extension register when arming:
   * `(ext & 0xEC) | (mode & 0x03)`.  The mask 0xEC keeps FSEL0/1, USEL, WADA
   * and TEST, replaces TSEL0/1 by the mode's two low bits, and clears TE.
   */
  function SelectTimerMode(ext: Byte, mode: Byte): (r: Byte)
    ensures Agree(r, mode, TSEL)
    ensures r & TE == 0
    ensures Agree(r, ext, FSEL0) && Agree(r, ext, FSEL1)
    ensures Agree(r, ext, USEL) && Agree(r, ext, WADA) && Agree(r, ext, TEST)
  {
    (ext & 0xEC) | (mode & 0x03)
  }

  /** `x | TE`: starts the countdown timer, leaving every other bit alone. */
  function WithTimerEnabled(x: Byte): (r: Byte)
    ensures Has(r, TE)
    ensures Agree(r, x, !TE)
  {
    x | TE
  }

  /** `x & ~TE`: stops the countdown timer, leaving every other bit alone. */
  function WithTimerDisabled(x: Byte): (r: Byte)
    ensures r & TE == 0
    ensures Agree(r, x, !TE)
  {
    x & !TE
  }

  /** The two counter bytes `(u8)(value % 256)` and `(u8)(value / 256)`. */
  datatype CountBytes = CountBytes(lo: Byte, hi: Byte)

  /**
   * The split of a timer count into its two counter registers.  The `(u8)`
   * cast of `value / 256` truncates, so a count above 65535 loses its upper
   * bits: the pair encodes `value % 65536`.
   */
  function SplitCount(value: U32): (r: CountBytes)
    ensures r.lo as U32 == value % 256
    ensures (r.hi as U32) * 256 + r.lo as U32 == value % 0x1_0000
  {
    CountBytes((value % 256) as Byte, ((value / 256) % 256) as Byte)
  }

  /** A count that fits in 16 bits is recovered exactly from its two bytes. */
  lemma SplitCountJoin(value: U32)
    requires value < 0x1_0000
    ensures (SplitCount(value).hi as U32) * 256 + SplitCount(value).lo as U32 == value
  {
  }

  /** The counts 300, 0, 65535 and 65536 split into their two counter bytes; 65536 wraps to zero. */
  lemma SplitCountExamples()
    ensures SplitCount(300) == CountBytes(44, 1)
    ensures SplitCount(0) == CountBytes(0, 0)
    ensures SplitCount(65535) == CountBytes(255, 255)
    ensures SplitCount(65536) == CountBytes(0, 0)
  {
  }

  /** The mode bits the program selects: 2 for seconds, 3 for minutes. */
  lemma ModeBits()
    ensures SelectTimerMode(0, 2) == TSEL1
    ensures SelectTimerMode(0, 3) == TSEL0 | TSEL1
  {
  }
}
