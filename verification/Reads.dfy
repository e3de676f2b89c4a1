/** What a client is told by a read after any run of packets. */
module Reads {
  import opened Bytes
  import opened Operation
  import opened ApplicationDataUnit
  import opened DataTable
  import opened Machine
  import opened Replies
  import opened Composition
  import opened Client
  import opened Runs

  /** The registers in the reply to 0x03 are what the writes and masks of the run, in order,
      make of the initial ones; those in the reply to 0x04 are the initial ones. */
  lemma RegistersReported(s: Store, ps: seq<Packet>, now: Store, p: Packet, q: Request)
    requires (forall o :: o in ps ==> LongEnough(o)) && LongEnough(p) && now == Run(s, ps).0
    requires Executes(now, p) && Parse(p) == Good(q) && q.ReadRegisters?
    ensures Window(RegistersOf(s, q.code), q.address, q.count)
    ensures var a := Answer(now, p);
      && |a| == 9 + 2 * q.count
      && UnpackWords(a, 9, q.count) ==
           if q.code == READ_HOLDING_REGISTERS then FoldWindow(s, ps, q.address, q.count)
           else Read(s.inputRegs, q.address, q.count)
  {
    RunKeeps(s, ps);
    AcceptsByGeometry(s, now, q);
    ClientRegisters(now, p, q);
    if q.code == READ_HOLDING_REGISTERS { WindowIsFold(s, ps, q.address, q.count); }
  }

  /** The registers in the reply to 0x17 are what the writes of the run and its own make of
      the initial ones. */
  lemma ReadWriteReported(s: Store, ps: seq<Packet>, now: Store, p: Packet, q: Request)
    requires (forall o :: o in ps ==> LongEnough(o)) && LongEnough(p) && now == Run(s, ps).0
    requires Executes(now, p) && Parse(p) == Good(q) && q.ReadWrite?
    ensures Window(s.holding, q.readAddress, q.readCount)
    ensures var a := Answer(now, p);
      && |a| == 9 + 2 * q.readCount
      && UnpackWords(a, 9, q.readCount) == FoldWindow(s, ps + [p], q.readAddress, q.readCount)
  {
    RunKeeps(s, ps);
    AcceptsByGeometry(s, now, q);
    ReadWriteReply(now, p, q);
    WindowIsFold(s, ps + [p], q.readAddress, q.readCount);
    assert (ps + [p])[..|ps|] == ps;
  }

  /** A coil after a run: what the last request that covers it wrote, or else its initial
      value. A discrete input keeps its initial value. */
  ghost function BitAfter(s: Store, ps: seq<Packet>, code: byte, a: int): bool
    requires (forall o :: o in ps ==> LongEnough(o)) && a in BitsOf(s, code)
  {
    if code == READ_COILS then LastCoil(s, ps, a) else s.inputs[a]
  }

  lemma BitAfterRun(s: Store, ps: seq<Packet>, now: Store, code: byte, a: int)
    requires (forall o :: o in ps ==> LongEnough(o)) && now == Run(s, ps).0
    ensures a in BitsOf(s, code) <==> a in BitsOf(now, code)
    ensures a in BitsOf(s, code) ==> BitsOf(now, code)[a] == BitAfter(s, ps, code, a)
  {
    RunKeeps(s, ps);
    assert a in BitsOf(now, code).Keys <==> a in BitsOf(s, code).Keys;
    if code == READ_COILS && a in s.coils { CoilIsLast(s, ps, a); }
  }

  /** The coils or discrete inputs at a, .., a+n-1 after a run. */
  ghost function BitsAfter(s: Store, ps: seq<Packet>, code: byte, a: int, n: nat): seq<bool>
    requires (forall o :: o in ps ==> LongEnough(o)) && Window(BitsOf(s, code), a, n)
  {
    seq(n, i requires 0 <= i < n => BitAfter(s, ps, code, a + i))
  }

  lemma WindowAfterRun(s: Store, ps: seq<Packet>, now: Store, code: byte, a: int, n: nat)
    requires (forall o :: o in ps ==> LongEnough(o)) && now == Run(s, ps).0 && Window(BitsOf(now, code), a, n)
    ensures Window(BitsOf(s, code), a, n) && Read(BitsOf(now, code), a, n) == BitsAfter(s, ps, code, a, n)
  {
    forall k | a <= k < a + n
      ensures k in BitsOf(s, code) && BitsOf(now, code)[k] == BitAfter(s, ps, code, k)
    {
      BitAfterRun(s, ps, now, code, k);
    }
  }

  /** The data octets of the reply to 0x01 or 0x02, unpacked, are what the run made of the
      window, followed by zeros. */
  lemma BitsReported(s: Store, ps: seq<Packet>, now: Store, p: Packet, q: Request)
    requires (forall o :: o in ps ==> LongEnough(o)) && LongEnough(p) && now == Run(s, ps).0
    requires Executes(now, p) && Parse(p) == Good(q) && q.ReadBits?
    ensures Window(BitsOf(s, q.code), q.address, q.count) && |Answer(now, p)| == 9 + Ceiling8(q.count)
    ensures UnpackBits(Answer(now, p)[9..]) ==
      Resize(BitsAfter(s, ps, q.code, q.address, q.count), 8 * Ceiling8(q.count), false)
  {
    ReadBitsPayload(now, p, q);
    WindowAfterRun(s, ps, now, q.code, q.address, q.count);
  }
}
