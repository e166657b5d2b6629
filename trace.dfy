/**
 * The control channel to the chip as a log of single-register requests.  Each
 * request is one ioctl: a read of one register, or a whole-byte write of one
 * register.  The register file after a log is the log replayed from the file
 * before it: a write that the channel acknowledged replaces its register's
 * byte, and nothing else changes a register.
 */
module Trace {
  import opened Registers

  /** The 32 registers of the chip. */
  type RegFile = s: seq<Byte> | |s| == 32 witness seq(32, _ => 0)

  /** One request on the channel: the `reg_data` pair sent with the ioctl. */
  datatype Request = ReadReg(addr: RegAddr) | WriteReg(addr: RegAddr, value: Byte)

  /** A request as the channel handled it: ok is false when the ioctl failed. */
  datatype Event = Event(req: Request, ok: bool)

  /** The effect of one event on the register file. */
  function Apply(regs: RegFile, e: Event): RegFile {
    if e.ok && e.req.WriteReg? then regs[e.req.addr := e.req.value] else regs
  }

  /**
   * One event: an acknowledged write replaces the whole byte of its register;
   * a read or a failed write changes nothing; no other register is touched.
   */
  lemma ApplyEffect(regs: RegFile, e: Event)
    ensures e.ok && e.req.WriteReg? ==> Apply(regs, e)[e.req.addr] == e.req.value
    ensures !(e.ok && e.req.WriteReg?) ==> Apply(regs, e) == regs
    ensures forall a: RegAddr | a != e.req.addr :: Apply(regs, e)[a] == regs[a]
  {
  }

  /** No event of log is an acknowledged write. */
  predicate NoLandedWrite(log: seq<Event>) {
    forall k | 0 <= k < |log| :: !(log[k].ok && log[k].req.WriteReg?)
  }

  /** The register file after the events of log, in order. */
  function Replay(regs: RegFile, log: seq<Event>): RegFile
    decreases |log|
  {
    if log == [] then regs else Apply(Replay(regs, log[..|log| - 1]), log[|log| - 1])
  }

  /** The requests of a list issued from request number start on, each marked with
      whether the channel failed it; faults holds the numbers of the failing requests. */
  function Stamp(reqs: seq<Request>, start: nat, faults: map<nat, Byte>): (log: seq<Event>)
    ensures |log| == |reqs|
  {
    seq(|reqs|, i requires 0 <= i < |reqs| => Event(reqs[i], start + i !in faults))
  }

  /** A single request is stamped with its own number's outcome. */
  lemma StampOne(r: Request, start: nat, faults: map<nat, Byte>)
    ensures Stamp([r], start, faults) == [Event(r, start !in faults)]
  {
  }

  /** The i-th stamped event carries the i-th request and the outcome of request start + i. */
  lemma StampAt(reqs: seq<Request>, start: nat, faults: map<nat, Byte>)
    ensures forall i | 0 <= i < |reqs| ::
      Stamp(reqs, start, faults)[i] == Event(reqs[i], start + i !in faults)
  {
  }

  /** Stamping two request lists one after the other numbers the second from where the first ends. */
  lemma StampAppend(a: seq<Request>, b: seq<Request>, start: nat, faults: map<nat, Byte>)
    ensures Stamp(a + b, start, faults) == Stamp(a, start, faults) + Stamp(b, start + |a|, faults)
  {
  }

  /** No acknowledged request of log writes register a (failed writes to it may occur). */
  predicate NoLandedWriteTo(log: seq<Event>, a: RegAddr) {
    forall k | 0 <= k < |log| :: !(log[k].ok && log[k].req.WriteReg? && log[k].req.addr == a)
  }

  /** Replaying one more event applies it to the replayed file. */
  lemma ReplaySnoc(regs: RegFile, log: seq<Event>, e: Event)
    ensures Replay(regs, log + [e]) == Apply(Replay(regs, log), e)
  {
    assert (log + [e])[..|log|] == log;
  }

  /** A log in which no write was acknowledged (only reads and failed
      requests) leaves every register as it was. */
  lemma {:induction false} ReplayUnchanged(regs: RegFile, log: seq<Event>)
    requires NoLandedWrite(log)
    ensures Replay(regs, log) == regs
    decreases |log|
  {
    if log != [] {
      var n := |log| - 1;
      assert NoLandedWrite(log[..n]) by {
        forall k | 0 <= k < n ensures !(log[..n][k].ok && log[..n][k].req.WriteReg?) {
          assert log[..n][k] == log[k];
        }
      }
      ReplayUnchanged(regs, log[..n]);
    }
  }

  /** Replaying a log in two pieces is replaying it whole. */
  lemma {:induction false} ReplayAppend(regs: RegFile, a: seq<Event>, b: seq<Event>)
    ensures Replay(regs, a + b) == Replay(Replay(regs, a), b)
    decreases |b|
  {
    if b == [] {
      assert a + b == a;
    } else {
      var n := |b| - 1;
      assert (a + b)[..|a + b| - 1] == a + b[..n];
      assert (a + b)[|a + b| - 1] == b[n];
      ReplayAppend(regs, a, b[..n]);
    }
  }

  /** A register that no acknowledged request of the log writes keeps its byte. */
  lemma {:induction false} ReplayFrame(regs: RegFile, log: seq<Event>, a: RegAddr)
    requires NoLandedWriteTo(log, a)
    ensures Replay(regs, log)[a] == regs[a]
    decreases |log|
  {
    if log != [] {
      var n := |log| - 1;
      assert NoLandedWriteTo(log[..n], a) by {
        forall k | 0 <= k < n ensures !(log[..n][k].ok && log[..n][k].req.WriteReg? && log[..n][k].req.addr == a) {
          assert log[..n][k] == log[k];
        }
      }
      ReplayFrame(regs, log[..n], a);
    }
  }

  /** Some acknowledged request of log wrote x to register a. */
  predicate Wrote(log: seq<Event>, a: RegAddr, x: Byte) {
    exists k | 0 <= k < |log| :: log[k].ok && log[k].req == WriteReg(a, x)
  }

  /** Every byte a register holds after a log is its byte before, or a byte an
      acknowledged write of the log put there. */
  lemma {:induction false} ReplayLanded(regs: RegFile, log: seq<Event>, a: RegAddr)
    ensures Replay(regs, log)[a] == regs[a] || Wrote(log, a, Replay(regs, log)[a])
    decreases |log|
  {
    if log != [] {
      var n := |log| - 1;
      var x := Replay(regs, log)[a];
      ReplayLanded(regs, log[..n], a);
      if x != regs[a] {
        if log[n].ok && log[n].req == WriteReg(a, x) {
          assert Wrote(log, a, x);
        } else {
          assert Replay(regs, log[..n])[a] == x;
          var k :| 0 <= k < n && log[..n][k].ok && log[..n][k].req == WriteReg(a, x);
          assert log[k] == log[..n][k];
        }
      }
    }
  }

  /** Reading a register after an acknowledged write of x, with no acknowledged
      write to it in between, returns x. */
  lemma ReadAfterWrite(regs: RegFile, before: seq<Event>, a: RegAddr, x: Byte, after: seq<Event>)
    requires NoLandedWriteTo(after, a)
    ensures Replay(regs, before + [Event(WriteReg(a, x), true)] + after)[a] == x
  {
    var written := before + [Event(WriteReg(a, x), true)];
    ReplayAppend(regs, written, after);
    ReplayFrame(Replay(regs, written), after, a);
    assert written[..|written| - 1] == before;
  }
}
