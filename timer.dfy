/**
 * The timer configuration of the interrupt test program as request
 * sequences: the counter split sent by rx8900_set_time_value, the arm branch
 * and the disarm branch of main, and what each does to the register file,
 * both when every request succeeds and when some of them fail.
 */
module Timer {
  import opened Registers
  import opened Trace

  /**
   * The byte `rx8900_read` stores for request number k on register a: the
   * register's contents, or, when the ioctl fails, whatever `reg.value` held,
   * which faults[k] stands for.
   */
  function ReadResult(regs: RegFile, a: RegAddr, k: nat, faults: map<nat, Byte>): Byte {
    if k in faults then faults[k] else regs[a]
  }

  /**
   * A successful read of a register after an acknowledged write of x to it,
   * with no acknowledged write to it in between (failed ones may occur), returns x; a failed read returns the
   * indeterminate byte whatever the log.
   */
  lemma ReadBack(regs: RegFile, before: seq<Event>, a: RegAddr, x: Byte, after: seq<Event>, k: nat, faults: map<nat, Byte>)
    requires NoLandedWriteTo(after, a)
    ensures var now := Replay(regs, before + [Event(WriteReg(a, x), true)] + after);
      ReadResult(now, a, k, faults) == if k in faults then faults[k] else x
  {
    ReadAfterWrite(regs, before, a, x, after);
  }

  /** No request numbered start .. start + n - 1 fails. */
  predicate NoFaults(start: nat, n: nat, faults: map<nat, Byte>) {
    forall k | start <= k < start + n :: k !in faults
  }

  /**
   * The writes of rx8900_set_time_value: the low counter byte to 0x0B, then
   * the high one to 0x0C; together they encode the count modulo 65536.
   */
  function SetTimeRequests(count: U32): (r: seq<Request>)
    ensures |r| == 2
    ensures r[0].WriteReg? && r[0].addr == TIMER_CNT_0 && r[1].WriteReg? && r[1].addr == TIMER_CNT_1
    ensures r[0].value as U32 == count % 256
    ensures (r[1].value as U32) * 256 + r[0].value as U32 == count % 0x1_0000
  {
    var c := SplitCount(count);
    [WriteReg(TIMER_CNT_0, c.lo), WriteReg(TIMER_CNT_1, c.hi)]
  }

  /**
   * The requests of the arm branch of main, given the byte ext its read
   * returns.  One read of the extension register, first; then only writes;
   * the first write of the extension register selects the mode and clears TE,
   * and TE is set only by the last request, which differs from that first
   * write only in TE; between them come the low counter byte, the high
   * counter byte and the control register, which gets exactly TIE.
   */
  function ArmRequests(ext: Byte, mode: Byte, count: U32): (r: seq<Request>)
    ensures |r| == 6
    ensures forall i | 0 <= i < |r| :: r[i].ReadReg? <==> i == 0
    ensures r[0] == ReadReg(EXT)
    ensures r[1].WriteReg? && r[1].addr == EXT && r[1].value & TE == 0
    ensures Agree(r[1].value, mode, TSEL) && Agree(r[1].value, ext, FSEL0 | FSEL1 | USEL | WADA | TEST)
    ensures r[2..4] == SetTimeRequests(count)
    ensures r[4] == WriteReg(CTRL, TIE)
    ensures r[5].WriteReg? && r[5].addr == EXT && Has(r[5].value, TE) && Agree(r[5].value, r[1].value, !TE)
  {
    var armed := SelectTimerMode(ext, mode);
    [ReadReg(EXT), WriteReg(EXT, armed)] + SetTimeRequests(count)
      + [WriteReg(CTRL, TIE), WriteReg(EXT, WithTimerEnabled(armed))]
  }

  /**
   * The requests of the disarm branch of main, given the byte ext its read
   * returns: that read, then one write of the extension register with TE
   * clear and every other bit as read.
   */
  function DisarmRequests(ext: Byte): (r: seq<Request>)
    ensures |r| == 2 && r[0] == ReadReg(EXT)
    ensures r[1].WriteReg? && r[1].addr == EXT && r[1].value & TE == 0 && Agree(r[1].value, ext, !TE)
  {
    [ReadReg(EXT), WriteReg(EXT, WithTimerDisabled(ext))]
  }

  /**
   * The effect of rx8900_set_time_value's two writes issued from request
   * number start on: each counter register holds its byte of the count when
   * its write is acknowledged and keeps its old byte otherwise, and no other
   * register changes.
   */
  lemma SetTimeEffect(regs: RegFile, count: U32, start: nat, faults: map<nat, Byte>)
    ensures var after := Replay(regs, Stamp(SetTimeRequests(count), start, faults));
      && after[TIMER_CNT_0] == (if start in faults then regs[TIMER_CNT_0] else SplitCount(count).lo)
      && after[TIMER_CNT_1] == (if start + 1 in faults then regs[TIMER_CNT_1] else SplitCount(count).hi)
      && (NoFaults(start, 2, faults) ==>
            after[TIMER_CNT_0] == SplitCount(count).lo && after[TIMER_CNT_1] == SplitCount(count).hi)
      && (forall a: RegAddr | a != TIMER_CNT_0 && a != TIMER_CNT_1 :: after[a] == regs[a])
  {
    var e := Stamp(SetTimeRequests(count), start, faults);
    assert e == [] + [e[0]] + [e[1]];
    ReplaySnoc(regs, [], e[0]);
    ReplaySnoc(regs, [] + [e[0]], e[1]);
    var mid := Replay(regs, [e[0]]);
    ApplyEffect(regs, e[0]);
    ApplyEffect(mid, e[1]);
    if NoFaults(start, 2, faults) {
      assert start + 0 !in faults && start + 1 !in faults;
    }
  }

  /** The arm requests stamped as the five steps of the branch issue them. */
  lemma ArmStamp(ext: Byte, mode: Byte, count: U32, start: nat, faults: map<nat, Byte>)
    ensures var armed := SelectTimerMode(ext, mode);
      Stamp(ArmRequests(ext, mode, count), start, faults)
      == Stamp([ReadReg(EXT)], start, faults) + Stamp([WriteReg(EXT, armed)], start + 1, faults)
         + Stamp(SetTimeRequests(count), start + 2, faults) + Stamp([WriteReg(CTRL, TIE)], start + 4, faults)
         + Stamp([WriteReg(EXT, WithTimerEnabled(armed))], start + 5, faults)
  {
    var armed := SelectTimerMode(ext, mode);
    var r := ArmRequests(ext, mode, count);
    assert r == [ReadReg(EXT)] + [WriteReg(EXT, armed)] + SetTimeRequests(count)
      + [WriteReg(CTRL, TIE)] + [WriteReg(EXT, WithTimerEnabled(armed))];
    StampAppend([ReadReg(EXT)] + [WriteReg(EXT, armed)] + SetTimeRequests(count) + [WriteReg(CTRL, TIE)],
      [WriteReg(EXT, WithTimerEnabled(armed))], start, faults);
    StampAppend([ReadReg(EXT)] + [WriteReg(EXT, armed)] + SetTimeRequests(count), [WriteReg(CTRL, TIE)], start, faults);
    StampAppend([ReadReg(EXT)] + [WriteReg(EXT, armed)], SetTimeRequests(count), start, faults);
    StampAppend([ReadReg(EXT)], [WriteReg(EXT, armed)], start, faults);
  }

  /** The register file after the six arm requests issued from number start on,
      one acknowledged write at a time. */
  lemma ArmReplay(regs: RegFile, ext: Byte, mode: Byte, count: U32, start: nat, faults: map<nat, Byte>)
    ensures var e := Stamp(ArmRequests(ext, mode, count), start, faults);
      Replay(regs, e) == Apply(Apply(Apply(Apply(Apply(Apply(regs, e[0]), e[1]), e[2]), e[3]), e[4]), e[5])
  {
    var e := Stamp(ArmRequests(ext, mode, count), start, faults);
    assert e == [] + [e[0]] + [e[1]] + [e[2]] + [e[3]] + [e[4]] + [e[5]];
    ReplaySnoc(regs, [], e[0]);
    ReplaySnoc(regs, [] + [e[0]], e[1]);
    ReplaySnoc(regs, [] + [e[0]] + [e[1]], e[2]);
    ReplaySnoc(regs, [] + [e[0]] + [e[1]] + [e[2]], e[3]);
    ReplaySnoc(regs, [] + [e[0]] + [e[1]] + [e[2]] + [e[3]], e[4]);
    ReplaySnoc(regs, [] + [e[0]] + [e[1]] + [e[2]] + [e[3]] + [e[4]], e[5]);
  }

  /**
   * Arming on a channel that fails nothing: the counter registers hold the
   * split count, the control register holds exactly TIE, the extension
   * register holds the selected mode with TE set and every other bit it had,
   * and no other register changes.
   */
  lemma ArmEffect(regs: RegFile, mode: Byte, count: U32, start: nat, faults: map<nat, Byte>)
    requires NoFaults(start, 6, faults)
    ensures var after := Replay(regs, Stamp(ArmRequests(regs[EXT], mode, count), start, faults));
      && (forall a: RegAddr | a != TIMER_CNT_0 && a != TIMER_CNT_1 && a != EXT && a != CTRL :: after[a] == regs[a])
      && after[TIMER_CNT_0] == SplitCount(count).lo
      && after[TIMER_CNT_1] == SplitCount(count).hi
      && after[CTRL] == TIE
      && after[EXT] == WithTimerEnabled(SelectTimerMode(regs[EXT], mode))
      && Has(after[EXT], TE) && Agree(after[EXT], mode, TSEL)
      && Agree(after[EXT], regs[EXT], FSEL0 | FSEL1 | USEL | WADA | TEST)
  {
    ArmReplay(regs, regs[EXT], mode, count, start, faults);
    var e := Stamp(ArmRequests(regs[EXT], mode, count), start, faults);
    assert start + 0 !in faults && start + 1 !in faults && start + 2 !in faults;
    assert start + 3 !in faults && start + 4 !in faults && start + 5 !in faults;
    var v := SelectTimerMode(regs[EXT], mode);
    assert Agree(v, regs[EXT], FSEL0 | FSEL1 | USEL | WADA | TEST);
  }

  /** The arm requests as one list of six. */
  lemma ArmRequestsFlat(ext: Byte, mode: Byte, count: U32)
    ensures var armed := SelectTimerMode(ext, mode);
      ArmRequests(ext, mode, count)
      == [ReadReg(EXT), WriteReg(EXT, armed), WriteReg(TIMER_CNT_0, SplitCount(count).lo),
          WriteReg(TIMER_CNT_1, SplitCount(count).hi), WriteReg(CTRL, TIE), WriteReg(EXT, WithTimerEnabled(armed))]
  {
  }

  /**
   * Arming when any of the six requests may fail: the sequence still issues
   * all six, only the four timer registers can change, and the counter and
   * control registers each end up unchanged or holding the byte the branch
   * wrote to it.
   */
  lemma ArmPartial(regs: RegFile, ext: Byte, mode: Byte, count: U32, start: nat, faults: map<nat, Byte>)
    ensures var after := Replay(regs, Stamp(ArmRequests(ext, mode, count), start, faults));
      && (forall a: RegAddr | a != TIMER_CNT_0 && a != TIMER_CNT_1 && a != EXT && a != CTRL :: after[a] == regs[a])
      && (after[TIMER_CNT_0] == regs[TIMER_CNT_0] || after[TIMER_CNT_0] == SplitCount(count).lo)
      && (after[TIMER_CNT_1] == regs[TIMER_CNT_1] || after[TIMER_CNT_1] == SplitCount(count).hi)
      && (after[CTRL] == regs[CTRL] || after[CTRL] == TIE)
  {
    ArmRequestsFlat(ext, mode, count);
    var e := Stamp(ArmRequests(ext, mode, count), start, faults);
    StampAt(ArmRequests(ext, mode, count), start, faults);
    forall a: RegAddr | a != TIMER_CNT_0 && a != TIMER_CNT_1 && a != EXT && a != CTRL
      ensures Replay(regs, e)[a] == regs[a]
    {
      ReplayFrame(regs, e, a);
    }
    ReplayLanded(regs, e, TIMER_CNT_0);
    ReplayLanded(regs, e, TIMER_CNT_1);
    ReplayLanded(regs, e, CTRL);
  }

  /**
   * Arming when any request may fail, for the extension register: it ends up
   * unchanged, with the selected mode and TE clear, or with the selected mode
   * and TE set; and TE ends up set only if it was set before or the final
   * write was acknowledged.
   */
  lemma ArmPartialTimerEnable(regs: RegFile, ext: Byte, mode: Byte, count: U32, start: nat, faults: map<nat, Byte>)
    ensures var after := Replay(regs, Stamp(ArmRequests(ext, mode, count), start, faults));
      var armed := SelectTimerMode(ext, mode);
      && (after[EXT] == regs[EXT] || after[EXT] == armed || after[EXT] == WithTimerEnabled(armed))
      && (Has(after[EXT], TE) ==> Has(regs[EXT], TE) || start + 5 !in faults)
  {
    ArmRequestsFlat(ext, mode, count);
    var e := Stamp(ArmRequests(ext, mode, count), start, faults);
    StampAt(ArmRequests(ext, mode, count), start, faults);
    var after := Replay(regs, e);
    ReplayLanded(regs, e, EXT);
    if after[EXT] != regs[EXT] {
      var k :| 0 <= k < 6 && e[k].ok && e[k].req == WriteReg(EXT, after[EXT]);
      assert k == 1 || k == 5;
    }
  }

  /**
   * Disarming: only the extension register can change, and only to the byte
   * read with TE cleared; when both requests succeed, TE is cleared and every
   * other bit of the extension register is kept.
   */
  lemma DisarmEffect(regs: RegFile, start: nat, faults: map<nat, Byte>)
    ensures var v := ReadResult(regs, EXT, start, faults);
      var after := Replay(regs, Stamp(DisarmRequests(v), start, faults));
      && (forall a: RegAddr | a != EXT :: after[a] == regs[a])
      && after[EXT] == (if start + 1 in faults then regs[EXT] else WithTimerDisabled(v))
      && (NoFaults(start, 2, faults) ==> after[EXT] & TE == 0 && Agree(after[EXT], regs[EXT], !TE))
  {
    var v := ReadResult(regs, EXT, start, faults);
    var e := Stamp(DisarmRequests(v), start, faults);
    assert e == [] + [e[0]] + [e[1]];
    ReplaySnoc(regs, [], e[0]);
    ReplaySnoc(regs, [] + [e[0]], e[1]);
    if NoFaults(start, 2, faults) {
      assert start + 0 !in faults && start + 1 !in faults;
    }
  }
}
