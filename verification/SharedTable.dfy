/** Requests of many sessions on one table: which of them act as one step of the reference
    machine whatever the interleaving, and exactly when the others do. */
module SharedTable {
  import opened Bytes
  import opened Operation
  import opened ApplicationDataUnit
  import opened DataTable
  import opened Machine
  import opened Composition
  import opened Runs
  import opened Sessions
  import opened Concurrency
  import opened Progress

  /** What a request on holding or input registers does to its block. */
  function RegisterCalls(r: Request): seq<Op<word>> {
    match r
    case ReadRegisters(_, a, n) => [Get(a, n)]
    case WriteRegister(a, v) => [Set(a, [v])]
    case WriteRegisters(a, _, words) => [Set(a, words)]
    case MaskWrite(a, m, o) => [Update(a, c => Masked(c, m, o))]
    case ReadWrite(ra, rn, wa, _, words) => [Set(wa, words), Get(ra, rn)]
    case _ => []
  }

  /** What a request on coils or discrete inputs does to its block. */
  function CoilCalls(r: Request): seq<Op<bool>> {
    match r
    case ReadBits(_, a, n) => [Get(a, n)]
    case WriteCoil(a, on) => [Update(a, _ => on)]
    case WriteCoils(a, _, bits) => [Set(a, bits)]
    case _ => []
  }

  /** The block of a system is this map, with the limits of its kind. */
  ghost predicate Shares<T(!new)>(s: System<T>, m: map<int, T>, maxRead: nat) {
    |s.cells| == s.geometry.capacity && View(s).Keys == m.Keys && s.geometry.maxRead == maxRead
  }

  lemma ValidWindow<T(!new)>(s: System<T>, m: map<int, T>, a: word, n: nat, maxRead: nat)
    requires Shares(s, m, maxRead) && Window(m, a, n) && n > 0
    ensures ValidSize(s.geometry, a, n)
  {
    assert a in View(s).Keys && a + (n - 1) in View(s).Keys;
  }

  /** The registers a request works on. */
  ghost function RegisterBlock(t: Store, r: Request): map<int, word> {
    if r.ReadRegisters? then RegistersOf(t, r.code) else t.holding
  }

  /** The coils or discrete inputs a request works on. */
  ghost function CoilBlock(t: Store, r: Request): map<int, bool> {
    if r.ReadBits? then BitsOf(t, r.code) else t.coils
  }

  /** What `execute` accepts, `get` and `set` accept, so `Begin` lets the session go on. */
  lemma RegisterCallsValid(t: Store, r: Request, s: System<word>)
    requires Accepts(t, r) && Shares(s, RegisterBlock(t, r), MAX_REGS_READ)
    ensures AllValid(s.geometry, RegisterCalls(r))
  {
    match r {
      case ReadRegisters(f, a, n) => ValidWindow(s, RegistersOf(t, f), a, n, MAX_REGS_READ);
      case WriteRegister(a, _) => ValidWindow(s, t.holding, a, 1, MAX_REGS_READ);
      case WriteRegisters(a, n, _) => ValidWindow(s, t.holding, a, n, MAX_REGS_READ);
      case MaskWrite(a, _, _) => ValidWindow(s, t.holding, a, 1, MAX_REGS_READ);
      case ReadWrite(ra, rn, wa, wn, _) =>
        ValidWindow(s, t.holding, ra, rn, MAX_REGS_READ);
        ValidWindow(s, t.holding, wa, wn, MAX_REGS_READ);
      case _ =>
    }
  }

  lemma CoilCallsValid(t: Store, r: Request, s: System<bool>)
    requires Accepts(t, r) && Shares(s, CoilBlock(t, r), MAX_BITS_READ)
    ensures AllValid(s.geometry, CoilCalls(r))
  {
    match r {
      case ReadBits(f, a, n) => ValidWindow(s, BitsOf(t, f), a, n, MAX_BITS_READ);
      case WriteCoil(a, _) => ValidWindow(s, t.coils, a, 1, MAX_BITS_READ);
      case WriteCoils(a, n, _) => ValidWindow(s, t.coils, a, n, MAX_BITS_READ);
      case _ =>
    }
  }

  /** Every accepted request on registers can be served to its end: the session makes the
      calls of the request, all of them and in their order. */
  lemma RegisterRequestCompletes(t: Store, r: Request, s: System<word>, i: nat, now: System<word>)
    returns (more: seq<Step<word>>)
    requires Initial(s) && i in s.sessions && now == Exec(s, [Begin(i, RegisterCalls(r))])
    requires Accepts(t, r) && Shares(s, RegisterBlock(t, r), MAX_REGS_READ)
    requires !r.ReadBits? && !r.WriteCoil? && !r.WriteCoils?
    ensures var end := Exec(s, [Begin(i, RegisterCalls(r))] + more);
      && i in end.sessions && end.sessions[i].Idle? && end.holder.Nobody?
      && DoneBy(end.log, i) == RegisterCalls(r)
  {
    RegisterCallsValid(t, r, s);
    more := RequestCompletes(s, i, RegisterCalls(r), now);
  }

  lemma CoilRequestCompletes(t: Store, r: Request, s: System<bool>, i: nat, now: System<bool>)
    returns (more: seq<Step<bool>>)
    requires Initial(s) && i in s.sessions && now == Exec(s, [Begin(i, CoilCalls(r))])
    requires Accepts(t, r) && Shares(s, CoilBlock(t, r), MAX_BITS_READ)
    requires r.ReadBits? || r.WriteCoil? || r.WriteCoils?
    ensures var end := Exec(s, [Begin(i, CoilCalls(r))] + more);
      && i in end.sessions && end.sessions[i].Idle? && end.holder.Nobody?
      && DoneBy(end.log, i) == CoilCalls(r)
  {
    CoilCallsValid(t, r, s);
    more := RequestCompletes(s, i, CoilCalls(r), now);
  }

  /** The requests whose stores are in the log, in lock order. */
  function InLockOrder<T>(log: seq<Event<T>>, rs: seq<Request>): seq<Request>
    requires |rs| == |log|
  {
    if |log| == 0 then []
    else
      var init := InLockOrder(log[..|log| - 1], rs[..|log| - 1]);
      if log[|log| - 1].Stored? then init + [rs[|log| - 1]] else init
  }

  /** Every store in the log belongs to the request at its place. */
  ghost predicate ServesRegisters(t: Store, log: seq<Event<word>>, rs: seq<Request>) {
    && |rs| == |log|
    && forall k :: 0 <= k < |log| && log[k].Stored? ==>
         Accepts(t, rs[k]) && log[k].op in RegisterCalls(rs[k]) && !log[k].op.Get?
  }

  ghost predicate ServesCoils(t: Store, log: seq<Event<bool>>, rs: seq<Request>) {
    && |rs| == |log|
    && forall k :: 0 <= k < |log| && log[k].Stored? ==>
         Accepts(t, rs[k]) && log[k].op in CoilCalls(rs[k]) && !log[k].op.Get?
  }

  lemma OutcomeKeys<T(!new)>(m: map<int, T>, op: Op<T>)
    ensures Outcome(m, op).Keys == m.Keys
  {
  }

  lemma {:induction false} OutcomesKeys<T(!new)>(m: map<int, T>, log: seq<Event<T>>)
    ensures Outcomes(m, log).Keys == m.Keys
  {
    if |log| > 0 {
      OutcomesKeys(m, log[..|log| - 1]);
      OutcomeKeys(Outcomes(m, log[..|log| - 1]), log[|log| - 1].op);
    }
  }

  lemma RegisterCallIsRequest(t: Store, r: Request, op: Op<word>)
    requires Accepts(t, r) && op in RegisterCalls(r) && !op.Get?
    ensures Apply(t, r) == t.(holding := Outcome(t.holding, op))
  {
    if r.WriteRegister? {
      assert Write(t.holding, r.address, [r.value]) == t.holding[r.address as int := r.value];
    }
  }

  lemma CoilCallIsRequest(t: Store, r: Request, op: Op<bool>)
    requires Accepts(t, r) && op in CoilCalls(r) && !op.Get?
    ensures Apply(t, r) == t.(coils := Outcome(t.coils, op))
  {
  }

  lemma ApplyAllNext(t: Store, rs: seq<Request>, r: Request)
    requires Accepts(ApplyAll(t, rs), r)
    ensures ApplyAll(t, rs + [r]) == Apply(ApplyAll(t, rs), r)
  {
    assert (rs + [r])[..|rs|] == rs;
  }

  lemma {:induction false} RegistersOneByOne(t: Store, log: seq<Event<word>>, rs: seq<Request>)
    requires ServesRegisters(t, log, rs)
    ensures ApplyAll(t, InLockOrder(log, rs)) == t.(holding := Outcomes(t.holding, log))
  {
    if |log| > 0 {
      var init, e, r := log[..|log| - 1], log[|log| - 1], rs[|log| - 1];
      RegistersOneByOne(t, init, rs[..|log| - 1]);
      if e.Stored? {
        var t1 := t.(holding := Outcomes(t.holding, init));
        OutcomesKeys(t.holding, init);
        AcceptsByGeometry(t, t1, r);
        ApplyAllNext(t, InLockOrder(init, rs[..|log| - 1]), r);
        RegisterCallIsRequest(t1, r, e.op);
      }
    }
  }

  lemma {:induction false} CoilsOneByOne(t: Store, log: seq<Event<bool>>, rs: seq<Request>)
    requires ServesCoils(t, log, rs)
    ensures ApplyAll(t, InLockOrder(log, rs)) == t.(coils := Outcomes(t.coils, log))
  {
    if |log| > 0 {
      var init, e, r := log[..|log| - 1], log[|log| - 1], rs[|log| - 1];
      CoilsOneByOne(t, init, rs[..|log| - 1]);
      if e.Stored? {
        var t1 := t.(coils := Outcomes(t.coils, init));
        OutcomesKeys(t.coils, init);
        AcceptsByGeometry(t, t1, r);
        ApplyAllNext(t, InLockOrder(init, rs[..|log| - 1]), r);
        CoilCallIsRequest(t1, r, e.op);
      }
    }
  }

  lemma SetIsOne<T(!new)>(m: map<int, T>, log: seq<Event<T>>, k: nat)
    requires k < |log| && log[k].Stored? && log[k].op.Set? && BufferOk(log[k].op, log[k].buffer, log[k].seen)
    ensures AsOne(m, log, k)
  {
    assert log[..k + 1][..k] == log[..k];
  }

  /** No store hits the cell of an update between its get and its set. */
  ghost predicate UpdateUndisturbed<T(!new)>(s: System<T>, k: nat)
    requires k < |s.log|
  {
    s.log[k].Stored? && s.log[k].op.Update? ==>
      |s.log[k].seen| == 1 && Quiet(s.stores, s.log[k].op.address, s.log[k].seen[0].at, Moment(s.log, k))
  }

  /** Whatever the interleaving, requests 0x06, 0x10 and the write of 0x17 act on the holding
      registers as whole steps of the reference machine in lock order; so do mask writes
      between whose get and set no store hits their register. */
  lemma RegisterRequestsSerialize(s: System<word>, steps: seq<Step<word>>, now: System<word>, t: Store, rs: seq<Request>)
    requires Initial(s) && now == Exec(s, steps) && t.holding == View(s)
    requires ServesRegisters(t, now.log, rs)
    requires forall k: nat :: k < |now.log| ==> UpdateUndisturbed(now, k)
    ensures ApplyAll(t, InLockOrder(now.log, rs)) == t.(holding := Replay(View(s), now.log))
    ensures now.holder.Nobody? ==> ApplyAll(t, InLockOrder(now.log, rs)) == t.(holding := View(now))
  {
    var m := View(s);
    Linearizable(s, steps);
    forall k: nat | k < |now.log| && now.log[k].Stored? ensures AsOne(m, now.log, k) {
      if now.log[k].op.Set? {
        SetIsOne(m, now.log, k);
      } else {
        assert UpdateUndisturbed(now, k);
        UpdateExactly(s, steps, now, k);
      }
    }
    OutcomesReplay(m, now.log);
    RegistersOneByOne(t, now.log, rs);
  }

  /** What a single coil becomes does not depend on what it was. */
  lemma SwitchForgets(r: Request, op: Op<bool>, v: bool, w: bool)
    requires op in CoilCalls(r) && op.Update?
    ensures op.change(v) == op.change(w)
  {
  }

  /** Whatever the interleaving, requests 0x05 and 0x0F act on the coils as whole steps of
      the reference machine in lock order: what 0x05 stores does not depend on what it saw. */
  lemma CoilRequestsSerialize(s: System<bool>, steps: seq<Step<bool>>, now: System<bool>, t: Store, rs: seq<Request>)
    requires Initial(s) && now == Exec(s, steps) && t.coils == View(s)
    requires ServesCoils(t, now.log, rs)
    ensures ApplyAll(t, InLockOrder(now.log, rs)) == t.(coils := Replay(View(s), now.log))
    ensures now.holder.Nobody? ==> ApplyAll(t, InLockOrder(now.log, rs)) == t.(coils := View(now))
  {
    var m := View(s);
    Linearizable(s, steps);
    forall k: nat | k < |now.log| && now.log[k].Stored? ensures AsOne(m, now.log, k) {
      if now.log[k].op.Set? {
        SetIsOne(m, now.log, k);
      } else {
        UpdateExactly(s, steps, now, k);
        SwitchForgets(rs[k], now.log[k].op, now.log[k].seen[0].value, Replay(m, now.log[..k])[now.log[k].op.address]);
      }
    }
    OutcomesReplay(m, now.log);
    CoilsOneByOne(t, now.log, rs);
  }

  /** The reply to 0x05 is that of one step exactly when the coil still has the value seen. */
  lemma CoilReplyExactly(t: Store, r: Request, v: bool)
    requires r.WriteCoil? && Accepts(t, r)
    ensures PackH(r.address) + PackH(CoilWord(v)) == Reply(t, r) <==> v == t.coils[r.address]
  {
    assert (PackH(r.address) + PackH(CoilWord(v)))[2..] == PackH(CoilWord(v));
    assert Reply(t, r)[2..] == PackH(CoilWord(t.coils[r.address]));
  }

  /** The reply to 0x17 is that of one step exactly when the registers read are those the
      write left. */
  lemma ReadWriteReplyExactly(t: Store, r: Request, values: seq<word>)
    requires r.ReadWrite? && Accepts(t, r) && |values| == r.readCount
    ensures Window(Apply(t, r).holding, r.readAddress, r.readCount)
    ensures [(2 * r.readCount) as byte] + PackWords(values) == Reply(t, r) <==>
      values == Read(Apply(t, r).holding, r.readAddress, r.readCount)
  {
    var stored := Read(Apply(t, r).holding, r.readAddress, r.readCount);
    assert ([(2 * r.readCount) as byte] + PackWords(values))[1..] == PackWords(values);
    assert Reply(t, r)[1..] == PackWords(stored);
    PackWordsInjective(values, stored);
  }

  /** The octets 0x05 answers with when it saw `v`. */
  function CoilReply(r: Request, v: bool): Packet
    requires r.WriteCoil?
  {
    PackH(r.address) + PackH(CoilWord(v))
  }

  /** The octets 0x17 answers with when it read `values`. */
  function ReadWriteReply(r: Request, values: seq<word>): Packet
    requires r.ReadWrite? && r.readCount <= 0x7F
  {
    [(2 * r.readCount) as byte] + PackWords(values)
  }

  /** 0x05 always changes the table as one step at the moment it holds the lock. Its reply is
      that step's if and only if the coil has the value it saw, which it has if no store
      hits it in between; when stores can be told apart, only then. */
  lemma WriteCoilActsAsOne(s: System<bool>, steps: seq<Step<bool>>, now: System<bool>, t: Store, r: Request, k: nat)
    requires Initial(s) && now == Exec(s, steps) && t.coils == View(s)
    requires k < |now.log| && now.log[k].Stored? && r.WriteCoil? && now.log[k].op == CoilCalls(r)[0]
    ensures var m, e, at := View(s), now.log[k], t.(coils := Replay(View(s), now.log[..k]));
      && |e.seen| == 1 && r.address as int in m
      && Accepts(at, r) && Apply(at, r).coils == Replay(m, now.log[..k + 1])
      && (CoilReply(r, e.seen[0].value) == Reply(at, r) <==> e.seen[0].value == at.coils[r.address])
      && (Quiet(now.stores, r.address, e.seen[0].at, Moment(now.log, k)) ==>
            CoilReply(r, e.seen[0].value) == Reply(at, r))
      && (Telling(m, now.stores, r.address) ==>
            (CoilReply(r, e.seen[0].value) == Reply(at, r) <==>
             Quiet(now.stores, r.address, e.seen[0].at, Moment(now.log, k))))
  {
    UpdateExactly(s, steps, now, k);
    var at := t.(coils := Replay(View(s), now.log[..k]));
    CoilReplyExactly(at, r, now.log[k].seen[0].value);
  }

  /** 0x16 changes the table as one step at the moment it holds the lock if and only if its
      masks make the same of the register it saw as of the register then; so it does if
      no store hits the register in between. */
  lemma MaskWriteActsAsOne(s: System<word>, steps: seq<Step<word>>, now: System<word>, t: Store, r: Request, k: nat)
    requires Initial(s) && now == Exec(s, steps) && t.holding == View(s)
    requires k < |now.log| && now.log[k].Stored? && r.MaskWrite? && now.log[k].op == RegisterCalls(r)[0]
    ensures var m, e, at := View(s), now.log[k], t.(holding := Replay(View(s), now.log[..k]));
      && |e.seen| == 1 && r.address as int in m && Accepts(at, r)
      && (Apply(at, r).holding == Replay(m, now.log[..k + 1]) <==>
          Masked(e.seen[0].value, r.andMask, r.orMask) == Masked(at.holding[r.address], r.andMask, r.orMask))
      && (Quiet(now.stores, r.address, e.seen[0].at, Moment(now.log, k)) ==>
            Apply(at, r).holding == Replay(m, now.log[..k + 1]))
  {
    UpdateExactly(s, steps, now, k);
    RegisterCallIsRequest(t.(holding := Replay(View(s), now.log[..k])), r, now.log[k].op);
  }

  /** 0x17 always changes the table as one step at the moment its write holds the lock. Its
      reply is that step's if and only if what it read is the window right after its write,
      which it is if no store hits a cell of the window before it was read; when stores can
      be told apart, only then. */
  lemma ReadWriteActsAsOne(s: System<word>, steps: seq<Step<word>>, now: System<word>, t: Store, r: Request, k: nat, j: nat)
    requires Initial(s) && now == Exec(s, steps) && t.holding == View(s)
    requires k < |now.log| && j < |now.log| && now.log[k].Stored? && now.log[j].Fetched?
    requires r.ReadWrite? && now.log[k].op == RegisterCalls(r)[0] && now.log[j].op == RegisterCalls(r)[1]
    requires Accepts(t, r)
    ensures var m, e, at := View(s), now.log[j], t.(holding := Replay(View(s), now.log[..k]));
      var after := Moment(now.log, k + 1);
      && |e.seen| == r.readCount <= 0x7F
      && Accepts(at, r) && Apply(at, r).holding == Replay(m, now.log[..k + 1])
      && (ReadWriteReply(r, Values(e.seen)) == Reply(at, r) <==> Snapshot(m, now.log, r.readAddress, e.seen, k + 1))
      && (Undisturbed(now.stores, r.readAddress, e.seen, after) ==> ReadWriteReply(r, Values(e.seen)) == Reply(at, r))
      && (WindowTelling(m, now.stores, r.readAddress, |e.seen|) ==>
            (ReadWriteReply(r, Values(e.seen)) == Reply(at, r) <==>
             Undisturbed(now.stores, r.readAddress, e.seen, after)))
  {
    var m, at := View(s), t.(holding := Replay(View(s), now.log[..k]));
    AcceptsByGeometry(t, at, r);
    FetchedAll(s, steps, now, j);
    Linearizable(s, steps);
    SetIsOne(m, now.log, k);
    SnapshotExactly(s, steps, now, j, k + 1);
    ReadWriteReplyExactly(at, r, Values(now.log[j].seen));
  }

  /** The octets 0x03 answers with when it read `values`. */
  function RegistersReply(r: Request, values: seq<word>): Packet
    requires r.ReadRegisters? && r.count <= 0x7F
  {
    [(2 * r.count) as byte] + PackWords(values)
  }

  lemma RegistersReplyExactly(t: Store, r: Request, values: seq<word>)
    requires r.ReadRegisters? && Accepts(t, r) && |values| == r.count
    ensures Window(RegistersOf(t, r.code), r.address, r.count)
    ensures RegistersReply(r, values) == Reply(t, r) <==> values == Read(RegistersOf(t, r.code), r.address, r.count)
  {
    var stored := Read(RegistersOf(t, r.code), r.address, r.count);
    assert RegistersReply(r, values)[1..] == PackWords(values) && Reply(t, r)[1..] == PackWords(stored);
    PackWordsInjective(values, stored);
  }

  lemma PackWordsInjective(a: seq<word>, b: seq<word>)
    requires |a| == |b|
    ensures PackWords(a) == PackWords(b) <==> a == b
  {
    var p := PackWords(a);
    if p == PackWords(b) {
      assert p[0..0 + 2 * |a|] == p;
      UnpackPackWords(p, 0, a);
      UnpackPackWords(p, 0, b);
    }
  }

  /** The reply to 0x03 is that of a read of the registers as the first `l` completed
      operations leave them if and only if what it read is that window, which it is if no
      store hits a cell of it in between; when stores can be told apart, only then. */
  lemma ReadRegistersActsAsOne(s: System<word>, steps: seq<Step<word>>, now: System<word>, t: Store, at: Store,
                               r: Request, j: nat, l: nat)
    requires Initial(s) && now == Exec(s, steps) && t.holding == View(s) && Accepts(t, r)
    requires r.ReadRegisters? && r.code == READ_HOLDING_REGISTERS
    requires j < |now.log| && now.log[j].Fetched? && now.log[j].op == RegisterCalls(r)[0]
    requires l <= |now.log| && at == t.(holding := Replay(View(s), now.log[..l]))
    ensures var m, e := View(s), now.log[j];
      && |e.seen| == r.count <= 0x7F && Accepts(at, r)
      && (RegistersReply(r, Values(e.seen)) == Reply(at, r) <==> Snapshot(m, now.log, r.address, e.seen, l))
      && (Undisturbed(now.stores, r.address, e.seen, Moment(now.log, l)) ==> RegistersReply(r, Values(e.seen)) == Reply(at, r))
      && (WindowTelling(m, now.stores, r.address, |e.seen|) ==>
            (RegistersReply(r, Values(e.seen)) == Reply(at, r) <==>
             Undisturbed(now.stores, r.address, e.seen, Moment(now.log, l))))
  {
    AcceptsByGeometry(t, at, r);
    FetchedAll(s, steps, now, j);
    SnapshotExactly(s, steps, now, j, l);
    RegistersReplyExactly(at, r, Values(now.log[j].seen));
  }

  /** The octets 0x01 answers with when it read `values`. */
  function BitsReply(r: Request, values: seq<bool>): Packet
    requires r.ReadBits? && r.count <= 2000
  {
    [Ceiling8(r.count) as byte] + PackBits(values)
  }

  lemma PackBitsInjective(a: seq<bool>, b: seq<bool>)
    requires |a| == |b|
    ensures PackBits(a) == PackBits(b) <==> a == b
  {
    UnpackPack(a);
    UnpackPack(b);
    assert Resize(a, 8 * Ceiling8(|a|), false)[..|a|] == a;
    assert Resize(b, 8 * Ceiling8(|b|), false)[..|b|] == b;
  }

  lemma BitsReplyExactly(t: Store, r: Request, values: seq<bool>)
    requires r.ReadBits? && Accepts(t, r) && |values| == r.count
    ensures Window(BitsOf(t, r.code), r.address, r.count)
    ensures BitsReply(r, values) == Reply(t, r) <==> values == Read(BitsOf(t, r.code), r.address, r.count)
  {
    var stored := Read(BitsOf(t, r.code), r.address, r.count);
    assert BitsReply(r, values)[1..] == PackBits(values) && Reply(t, r)[1..] == PackBits(stored);
    PackBitsInjective(values, stored);
  }

  /** The same for 0x01. */
  lemma ReadBitsActsAsOne(s: System<bool>, steps: seq<Step<bool>>, now: System<bool>, t: Store, at: Store,
                          r: Request, j: nat, l: nat)
    requires Initial(s) && now == Exec(s, steps) && t.coils == View(s) && Accepts(t, r)
    requires r.ReadBits? && r.code == READ_COILS
    requires j < |now.log| && now.log[j].Fetched? && now.log[j].op == CoilCalls(r)[0]
    requires l <= |now.log| && at == t.(coils := Replay(View(s), now.log[..l]))
    ensures var m, e := View(s), now.log[j];
      && |e.seen| == r.count <= 2000 && Accepts(at, r)
      && (BitsReply(r, Values(e.seen)) == Reply(at, r) <==> Snapshot(m, now.log, r.address, e.seen, l))
      && (Undisturbed(now.stores, r.address, e.seen, Moment(now.log, l)) ==> BitsReply(r, Values(e.seen)) == Reply(at, r))
      && (WindowTelling(m, now.stores, r.address, |e.seen|) ==>
            (BitsReply(r, Values(e.seen)) == Reply(at, r) <==>
             Undisturbed(now.stores, r.address, e.seen, Moment(now.log, l))))
  {
    AcceptsByGeometry(t, at, r);
    FetchedAll(s, steps, now, j);
    SnapshotExactly(s, steps, now, j, l);
    BitsReplyExactly(at, r, Values(now.log[j].seen));
  }

  /** A completed `get` has read its whole window. */
  lemma FetchedAll<T(!new)>(s: System<T>, steps: seq<Step<T>>, now: System<T>, k: nat)
    requires Initial(s) && now == Exec(s, steps) && k < |now.log| && now.log[k].Fetched?
    ensures now.log[k].op.Get? && |now.log[k].seen| == now.log[k].op.count
  {
    ExecKeeps(s, steps);
    assert EventOk(View(s), now, k);
  }
}
