/**
 * The main program of the interrupt test: which command line arms the timer,
 * which disarms it and which returns before the device is opened, and the
 * whole run against a chip.  The arguments arrive already parsed: argc, the
 * integer of the first argument, the unit word and the integer of the count.
 */
module IrqTest {
  import opened Registers
  import opened Trace
  import opened Timer
  import opened Device

  /** What a command line asks for. */
  datatype Command =
    | Usage                           // fewer than two arguments: print usage
    | BadParameter                    // arming request with a wrong argument count or unit
    | Arm(mode: Byte, count: U32)     // arm the timer with mode bits and count
    | Disarm                          // first argument 0: disarm the timer

  /** Whether the command reaches the device at all. */
  predicate OpensDevice(c: Command) {
    c.Arm? || c.Disarm?
  }

  /**
   * The argument checks of main.  With fewer than two arguments, usage; with a
   * first argument of 0, disarm whatever the rest; otherwise exactly four
   * arguments with unit "sec" (mode 2) or "min" (mode 3) arm, and anything else
   * is a parameter error.
   */
  function Decide(argc: int, isWrite: U32, unit: string, count: U32): (c: Command)
    ensures c.Usage? <==> argc < 2
    ensures c.Disarm? <==> argc >= 2 && isWrite == 0
    ensures c.Arm? <==> isWrite != 0 && argc == 4 && (unit == "sec" || unit == "min")
    ensures c.Arm? ==> c.count == count && c.mode == (if unit == "sec" then 2 else 3)
    ensures c.BadParameter? <==> argc >= 2 && isWrite != 0 && !(argc == 4 && (unit == "sec" || unit == "min"))
  {
    if argc < 2 then Usage
    else if isWrite == 0 then Disarm
    else if argc != 4 then BadParameter
    else if unit == "sec" then Arm(2, count)
    else if unit == "min" then Arm(3, count)
    else BadParameter
  }

  /**
   * main against a chip; deviceOpen says whether opening the device succeeds.
   * Usage and parameter errors return 0 and touch no register; a failed open
   * returns 1 and touches no register; otherwise the arm or disarm branch runs
   * to the end, whatever the channel answers, and main returns 0.
   */
  method RunIrqTest(chip: Rx8900, argc: int, isWrite: U32, unit: string, count: U32, deviceOpen: bool)
    returns (exitCode: int)
    requires chip.Valid()
    modifies chip`log, chip.regs
    ensures chip.Valid()
    ensures var c := Decide(argc, isWrite, unit, count);
      exitCode == (if OpensDevice(c) && !deviceOpen then 1 else 0)
    ensures var c := Decide(argc, isWrite, unit, count);
      !(OpensDevice(c) && deviceOpen) ==> chip.log == old(chip.log) && chip.regs[..] == old(chip.regs[..])
    ensures var c := Decide(argc, isWrite, unit, count);
      var n := |old(chip.log)|;
      var ext := ReadResult(old(chip.regs[..]), EXT, n, chip.faults);
      c.Arm? && deviceOpen ==>
        var e := Stamp(ArmRequests(ext, c.mode, c.count), n, chip.faults);
        chip.log == old(chip.log) + e && chip.regs[..] == Replay(old(chip.regs[..]), e)
    ensures var c := Decide(argc, isWrite, unit, count);
      var n := |old(chip.log)|;
      var ext := ReadResult(old(chip.regs[..]), EXT, n, chip.faults);
      var e := Stamp(DisarmRequests(ext), n, chip.faults);
      c.Disarm? && deviceOpen ==> chip.log == old(chip.log) + e && chip.regs[..] == Replay(old(chip.regs[..]), e)
  {
    if argc < 2 {
      return 0;
    }
    var mode: Byte := 0;
    var tim: U32 := 0;
    if isWrite != 0 {
      if argc == 4 {
        if unit == "sec" {
          mode := 2;
        } else if unit == "min" {
          mode := 3;
        } else {
          return 0;
        }
        tim := count;
      } else {
        return 0;
      }
    }
    if !deviceOpen {
      return 1;
    }
    if isWrite != 0 {
      chip.ArmTimer(mode, tim);
    } else {
      chip.DisarmTimer();
    }
    return 0;
  }

  /** An arming request with the unit "hour" is refused before the device is opened. */
  lemma HourIsRefused(isWrite: U32, count: U32)
    requires isWrite != 0
    ensures Decide(4, isWrite, "hour", count) == BadParameter
  {
  }
}
