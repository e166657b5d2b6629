/**
 * The chip as the interrupt test program drives it through its open device
 * handle: 32 one-byte registers and the log of single-register requests
 * issued so far.  A request may fail on the channel (the ioctl returns -1);
 * which ones do is fixed when the object is made, in faults, which also gives
 * the byte a failed read leaves behind.  As in the program, no method looks at
 * a return code, so every sequence issues all of its requests.
 */
module Device {
  import opened Registers
  import opened Trace
  import opened Timer

  class Rx8900 {
    /** The register file of the chip. */
    const regs: array<Byte>
    /** Every request issued so far, in order, with its outcome. */
    var log: seq<Event>
    /** Request number k fails iff k in faults; a failed read yields faults[k]. */
    const faults: map<nat, Byte>

    /** The register file has the chip's 32 registers. */
    ghost predicate Valid()
      reads this
    {
      regs.Length == 32
    }

    constructor (contents: RegFile, faults: map<nat, Byte>)
      ensures Valid() && fresh(regs)
      ensures regs[..] == contents && log == [] && this.faults == faults
    {
      regs := new Byte[32](i requires 0 <= i < 32 => contents[i]);
      log := [];
      this.faults := faults;
    }

    /** rx8900_read: one read request for addr; the byte returned and the ioctl's result. */
    method Read(addr: RegAddr) returns (ret: int, value: Byte)
      requires Valid()
      modifies this`log
      ensures Valid()
      ensures log == old(log) + Stamp([ReadReg(addr)], |old(log)|, faults)
      ensures value == ReadResult(regs[..], addr, |old(log)|, faults)
      ensures ret == if |old(log)| in faults then -1 else 0
    {
      var ok := |log| !in faults;
      value := if ok then regs[addr] else faults[|log|];
      ret := if ok then 0 else -1;
      log := log + [Event(ReadReg(addr), ok)];
    }

    /** rx8900_write: one write request carrying addr and value unchanged; on success the
        register holds value, and no other register changes either way. */
    method Write(addr: RegAddr, value: Byte) returns (ret: int)
      requires Valid()
      modifies this`log, regs
      ensures Valid()
      ensures log == old(log) + Stamp([WriteReg(addr, value)], |old(log)|, faults)
      ensures regs[..] == Replay(old(regs[..]), Stamp([WriteReg(addr, value)], |old(log)|, faults))
      ensures ret == if |old(log)| in faults then -1 else 0
      ensures ret == 0 ==> regs[addr] == value
      ensures forall a: RegAddr | a != addr :: regs[a] == old(regs[a])
    {
      var ok := |log| !in faults;
      ghost var before := regs[..];
      var e := Event(WriteReg(addr, value), ok);
      if ok {
        regs[addr] := value;
        assert regs[..] == before[addr := value];
      }
      ret := if ok then 0 else -1;
      log := log + [e];
      StampOne(WriteReg(addr, value), |old(log)|, faults);
      ReplaySnoc(before, [], e);
    }

    /** rx8900_set_time_value: the low counter byte, then the high one; always returns 0. */
    method SetTimeValue(value: U32) returns (ret: int)
      requires Valid()
      modifies this`log, regs
      ensures Valid()
      ensures log == old(log) + Stamp(SetTimeRequests(value), |old(log)|, faults)
      ensures regs[..] == Replay(old(regs[..]), Stamp(SetTimeRequests(value), |old(log)|, faults))
      ensures ret == 0
    {
      ghost var n, r0 := |log|, regs[..];
      ghost var c := SplitCount(value);
      var _ := Write(TIMER_CNT_0, (value % 256) as Byte);
      ghost var p0 := Stamp([WriteReg(TIMER_CNT_0, c.lo)], n, faults);
      assert log == old(log) + p0 && regs[..] == Replay(r0, p0);
      ghost var r1 := regs[..];
      var _ := Write(TIMER_CNT_1, ((value / 256) % 256) as Byte);
      ghost var p1 := Stamp([WriteReg(TIMER_CNT_1, c.hi)], n + 1, faults);
      assert log == old(log) + p0 + p1 && regs[..] == Replay(r1, p1);
      StampAppend([WriteReg(TIMER_CNT_0, c.lo)], [WriteReg(TIMER_CNT_1, c.hi)], n, faults);
      assert p0 + p1 == Stamp(SetTimeRequests(value), n, faults);
      ReplayAppend(r0, p0, p1);
      ret := 0;
    }

    /** The arm branch of main: read the extension register, select the mode with TE
        cleared, write the counter, write TIE over the control register, set TE. */
    method ArmTimer(mode: Byte, count: U32)
      requires Valid()
      modifies this`log, regs
      ensures Valid()
      ensures log == old(log) + Stamp(ArmRequests(ReadResult(old(regs[..]), EXT, |old(log)|, faults), mode, count), |old(log)|, faults)
      ensures regs[..] == Replay(old(regs[..]), Stamp(ArmRequests(ReadResult(old(regs[..]), EXT, |old(log)|, faults), mode, count), |old(log)|, faults))
      ensures NoFaults(|old(log)|, 6, faults) ==>
        && regs[TIMER_CNT_0] == SplitCount(count).lo && regs[TIMER_CNT_1] == SplitCount(count).hi
        && regs[CTRL] == TIE && regs[EXT] == WithTimerEnabled(SelectTimerMode(old(regs[EXT]), mode))
    {
      ghost var n, r0, l0 := |log|, regs[..], log;
      var _, tmp := Read(EXT);
      ghost var ext, p0 := tmp, Stamp([ReadReg(EXT)], n, faults);
      assert ext == ReadResult(r0, EXT, n, faults);
      assert log == l0 + p0 && regs[..] == Replay(r0, p0) by {
        StampOne(ReadReg(EXT), n, faults);
        ReplaySnoc(r0, [], Event(ReadReg(EXT), n !in faults));
      }
      tmp := SelectTimerMode(tmp, mode);
      var _ := Write(EXT, tmp);
      ghost var p1 := Stamp([WriteReg(EXT, tmp)], n + 1, faults);
      assert log == l0 + (p0 + p1) && regs[..] == Replay(r0, p0 + p1) by {
        ReplayAppend(r0, p0, p1);
      }
      var _ := SetTimeValue(count);
      ghost var p2 := Stamp(SetTimeRequests(count), n + 2, faults);
      assert log == l0 + (p0 + p1 + p2) && regs[..] == Replay(r0, p0 + p1 + p2) by {
        ReplayAppend(r0, p0 + p1, p2);
      }
      var _ := Write(CTRL, TIE);
      ghost var p3 := Stamp([WriteReg(CTRL, TIE)], n + 4, faults);
      assert log == l0 + (p0 + p1 + p2 + p3) && regs[..] == Replay(r0, p0 + p1 + p2 + p3) by {
        ReplayAppend(r0, p0 + p1 + p2, p3);
      }
      var _ := Write(EXT, WithTimerEnabled(tmp));
      ghost var p4 := Stamp([WriteReg(EXT, WithTimerEnabled(tmp))], n + 5, faults);
      assert log == l0 + (p0 + p1 + p2 + p3 + p4) && regs[..] == Replay(r0, p0 + p1 + p2 + p3 + p4) by {
        ReplayAppend(r0, p0 + p1 + p2 + p3, p4);
      }
      ghost var arm := Stamp(ArmRequests(ext, mode, count), n, faults);
      assert log == l0 + arm && regs[..] == Replay(r0, arm) by {
        ArmStamp(ext, mode, count, n, faults);
      }
      if NoFaults(n, 6, faults) {
        ArmEffect(r0, mode, count, n, faults);
      }
    }

    /** The disarm branch of main: read the extension register, write it back with TE cleared. */
    method DisarmTimer()
      requires Valid()
      modifies this`log, regs
      ensures Valid()
      ensures log == old(log) + Stamp(DisarmRequests(ReadResult(old(regs[..]), EXT, |old(log)|, faults)), |old(log)|, faults)
      ensures regs[..] == Replay(old(regs[..]), Stamp(DisarmRequests(ReadResult(old(regs[..]), EXT, |old(log)|, faults)), |old(log)|, faults))
      ensures forall a: RegAddr | a != EXT :: regs[a] == old(regs[a])
      ensures NoFaults(|old(log)|, 2, faults) ==> regs[EXT] == WithTimerDisabled(old(regs[EXT]))
    {
      ghost var n, r0 := |log|, regs[..];
      var _, tmp := Read(EXT);
      ghost var p0 := Stamp([ReadReg(EXT)], n, faults);
      var _ := Write(EXT, WithTimerDisabled(tmp));
      ghost var p1 := Stamp([WriteReg(EXT, WithTimerDisabled(tmp))], n + 1, faults);
      StampAppend([ReadReg(EXT)], [WriteReg(EXT, WithTimerDisabled(tmp))], n, faults);
      ReplayAppend(r0, p0, p1);
      DisarmEffect(r0, n, faults);
    }
  }
}
