/** Whole runs of the server: what a sequence of packets does to a table and is answered. */
module Runs {
  import opened Bytes
  import opened ApplicationDataUnit
  import opened DataTable
  import opened Machine
  import opened RequestHandler

  /** The reference machine over a run; empty replies are not sent. */
  ghost function Run(s: Store, ps: seq<Packet>): (Store, seq<Packet>)
    requires forall p :: p in ps ==> LongEnough(p)
  {
    if ps == [] then (s, [])
    else
      var (s1, sent) := Run(s, ps[..|ps| - 1]);
      var p := ps[|ps| - 1];
      (Next(s1, p), if Answer(s1, p) == [] then sent else sent + [Answer(s1, p)])
  }

  /** How many of the packets have a function code; these are answered, the others are not. */
  function WithFunction(ps: seq<Packet>): nat {
    if ps == [] then 0
    else WithFunction(ps[..|ps| - 1]) + if |ps[|ps| - 1]| > 7 then 1 else 0
  }

  lemma {:induction false} AllWithFunction(ps: seq<Packet>)
    requires forall p :: p in ps ==> |p| > 7
    ensures WithFunction(ps) == |ps|
  {
    if ps != [] { AllWithFunction(ps[..|ps| - 1]); }
  }

  lemma AnsweredWhen(s: Store, p: Packet)
    requires LongEnough(p)
    ensures Answer(s, p) != [] <==> |p| > 7
  {
  }

  /** One reply for each packet with a function code, and no other. */
  lemma {:induction false} ReplyForEach(s: Store, ps: seq<Packet>)
    requires forall p :: p in ps ==> LongEnough(p)
    ensures |Run(s, ps).1| == WithFunction(ps)
  {
    if ps != [] {
      var init, last := ps[..|ps| - 1], ps[|ps| - 1];
      ReplyForEach(s, init);
      AnsweredWhen(Run(s, init).0, last);
    }
  }

  /** Replies leave in the order of their packets, each made of the table as the packets
      before it have left it. */
  lemma {:induction false} RepliesInOrder(s: Store, ps: seq<Packet>, i: nat)
    requires forall p :: p in ps ==> LongEnough(p)
    requires i < |ps| && |ps[i]| > 7
    ensures WithFunction(ps[..i]) < |Run(s, ps).1|
    ensures Run(s, ps).1[WithFunction(ps[..i])] == Answer(Run(s, ps[..i]).0, ps[i])
  {
    var init, last := ps[..|ps| - 1], ps[|ps| - 1];
    ReplyForEach(s, init);
    AnsweredWhen(Run(s, init).0, last);
    if i < |ps| - 1 {
      assert init[..i] == ps[..i];
      RepliesInOrder(s, init, i);
    }
  }

  /** When every packet has a function code, reply i answers packet i. */
  lemma EveryPacketAnswered(s: Store, ps: seq<Packet>)
    requires forall p :: p in ps ==> LongEnough(p) && |p| > 7
    ensures |Run(s, ps).1| == |ps|
    ensures forall i :: 0 <= i < |ps| ==> Run(s, ps).1[i] == Answer(Run(s, ps[..i]).0, ps[i])
  {
    ReplyForEach(s, ps);
    AllWithFunction(ps);
    forall i | 0 <= i < |ps| ensures Run(s, ps).1[i] == Answer(Run(s, ps[..i]).0, ps[i]) {
      AllWithFunction(ps[..i]);
      RepliesInOrder(s, ps, i);
    }
  }

  /** server::on_receive for packet after packet: for every table and every sequence of
      long-enough packets, the replies sent and the final table are those of the
      reference machine; when every packet has a function code, reply i answers packet i. */
  method Serve(t: Table, packets: seq<Packet>) returns (sent: seq<Packet>)
    requires t.Valid() && forall p :: p in packets ==> LongEnough(p)
    modifies t.coils.container, t.holding.container
    ensures (t.View(), sent) == Run(old(t.View()), packets)
    ensures (forall p :: p in packets ==> |p| > 7) ==>
      && |sent| == |packets|
      && forall i :: 0 <= i < |packets| ==> sent[i] == Answer(Run(old(t.View()), packets[..i]).0, packets[i])
  {
    sent := [];
    for i := 0 to |packets|
      invariant (t.View(), sent) == Run(old(t.View()), packets[..i])
    {
      assert packets[..i + 1][..i] == packets[..i];
      var reply := Handle(t, packets[i]);
      if reply != [] {
        sent := sent + [reply];
      }
    }
    assert packets[..|packets|] == packets;
    if forall p :: p in packets ==> |p| > 7 {
      EveryPacketAnswered(old(t.View()), packets);
    }
  }

  /** The same addresses exist. */
  ghost predicate SameGeometry(s: Store, s': Store) {
    && s.coils.Keys == s'.coils.Keys && s.inputs.Keys == s'.inputs.Keys
    && s.holding.Keys == s'.holding.Keys && s.inputRegs.Keys == s'.inputRegs.Keys
  }

  /** What is carried out depends on which addresses exist, never on what they hold. */
  lemma AcceptsByGeometry(s: Store, s': Store, r: Request)
    requires SameGeometry(s, s')
    ensures Accepts(s, r) <==> Accepts(s', r)
  {
    assert forall k :: k in s.coils <==> k in s'.coils;
    assert forall k :: k in s.inputs <==> k in s'.inputs;
    assert forall k :: k in s.holding <==> k in s'.holding;
    assert forall k :: k in s.inputRegs <==> k in s'.inputRegs;
  }

  lemma ApplyKeeps(s: Store, r: Request)
    requires Accepts(s, r)
    ensures SameGeometry(s, Apply(s, r))
    ensures Apply(s, r).inputs == s.inputs && Apply(s, r).inputRegs == s.inputRegs
  {
  }

  lemma NextKeeps(s: Store, p: Packet)
    requires LongEnough(p)
    ensures SameGeometry(s, Next(s, p))
    ensures Next(s, p).inputs == s.inputs && Next(s, p).inputRegs == s.inputRegs
  {
    if Executes(s, p) { ApplyKeeps(s, Parse(p).request); }
  }

  /** No run changes which addresses exist, nor any discrete input or input register. */
  lemma {:induction false} RunKeeps(s: Store, ps: seq<Packet>)
    requires forall p :: p in ps ==> LongEnough(p)
    ensures SameGeometry(s, Run(s, ps).0)
    ensures Run(s, ps).0.inputs == s.inputs && Run(s, ps).0.inputRegs == s.inputRegs
  {
    if ps != [] {
      RunKeeps(s, ps[..|ps| - 1]);
      NextKeeps(Run(s, ps[..|ps| - 1]).0, ps[|ps| - 1]);
    }
  }

  lemma ExecutesByGeometry(s: Store, s': Store, p: Packet)
    requires LongEnough(p) && SameGeometry(s, s')
    ensures Executes(s, p) <==> Executes(s', p)
  {
    if |p| > HEADER_LENGTH && Supported(p[7]) && Parse(p).Good? {
      AcceptsByGeometry(s, s', Parse(p).request);
    }
  }

  /** What a packet does to one cell. */
  datatype Effect<T> = Keep | Put(value: T) | Mask(andMask: word, orMask: word)

  /** What an accepted request does to coil `a`. */
  function CoilEffectOf(r: Request, a: int): (e: Effect<bool>)
    ensures !e.Mask?
  {
    match r
    case WriteCoil(b, on) => if a == b then Put(on) else Keep
    case WriteCoils(b, _, bits) => if b <= a < b + |bits| then Put(bits[a - b]) else Keep
    case _ => Keep
  }

  /** What an accepted request does to holding register `a`. */
  function HoldingEffectOf(r: Request, a: int): Effect<word> {
    match r
    case WriteRegister(b, v) => if a == b then Put(v) else Keep
    case WriteRegisters(b, _, words) => if b <= a < b + |words| then Put(words[a - b]) else Keep
    case MaskWrite(b, m, o) => if a == b then Mask(m, o) else Keep
    case ReadWrite(_, _, b, _, words) => if b <= a < b + |words| then Put(words[a - b]) else Keep
    case _ => Keep
  }

  ghost function CoilEffect(s: Store, p: Packet, a: int): (e: Effect<bool>)
    requires LongEnough(p)
    ensures !e.Mask?
  {
    if Executes(s, p) then CoilEffectOf(Parse(p).request, a) else Keep
  }

  ghost function HoldingEffect(s: Store, p: Packet, a: int): Effect<word>
    requires LongEnough(p)
  {
    if Executes(s, p) then HoldingEffectOf(Parse(p).request, a) else Keep
  }

  /** Nothing in this run writes coil `a`. */
  ghost predicate CoilUntouched(s: Store, ps: seq<Packet>, a: int)
    requires forall p :: p in ps ==> LongEnough(p)
  {
    forall j :: 0 <= j < |ps| ==> CoilEffect(s, ps[j], a).Keep?
  }

  function After(v: word, e: Effect<word>): word {
    match e
    case Keep => v
    case Put(x) => x
    case Mask(m, o) => Masked(v, m, o)
  }

  /** The register value that the writes of a run make of `v`, masks folded in order. */
  ghost function FoldHolding(s: Store, v: word, ps: seq<Packet>, a: int): word
    requires forall p :: p in ps ==> LongEnough(p)
  {
    if ps == [] then v
    else
      After(FoldHolding(s, v, ps[..|ps| - 1], a), HoldingEffect(s, ps[|ps| - 1], a))
  }

  lemma CoilApplied(s: Store, r: Request, a: int)
    requires Accepts(s, r) && a in s.coils
    ensures a in Apply(s, r).coils
    ensures Apply(s, r).coils[a] == match CoilEffectOf(r, a) case Put(v) => v case _ => s.coils[a]
  {
  }

  lemma CoilStep(s0: Store, s: Store, p: Packet, a: int)
    requires LongEnough(p) && SameGeometry(s0, s) && a in s.coils
    ensures a in Next(s, p).coils
    ensures Next(s, p).coils[a] == match CoilEffect(s0, p, a) case Put(v) => v case _ => s.coils[a]
  {
    ExecutesByGeometry(s0, s, p);
    if Executes(s, p) { CoilApplied(s, Parse(p).request, a); }
  }

  lemma HoldingApplied(s: Store, r: Request, a: int)
    requires Accepts(s, r) && a in s.holding
    ensures a in Apply(s, r).holding
    ensures Apply(s, r).holding[a] == After(s.holding[a], HoldingEffectOf(r, a))
  {
  }

  lemma HoldingStep(s0: Store, s: Store, p: Packet, a: int)
    requires LongEnough(p) && SameGeometry(s0, s) && a in s.holding
    ensures a in Next(s, p).holding
    ensures Next(s, p).holding[a] == After(s.holding[a], HoldingEffect(s0, p, a))
  {
    ExecutesByGeometry(s0, s, p);
    if Executes(s, p) { HoldingApplied(s, Parse(p).request, a); }
  }

  /** A coil that no accepted request of the run covers keeps its initial value. */
  lemma {:induction false} UntouchedCoil(s: Store, ps: seq<Packet>, a: int)
    requires forall p :: p in ps ==> LongEnough(p)
    requires a in s.coils && CoilUntouched(s, ps, a)
    ensures a in Run(s, ps).0.coils && Run(s, ps).0.coils[a] == s.coils[a]
  {
    if ps != [] {
      var init := ps[..|ps| - 1];
      assert forall j :: 0 <= j < |init| ==> init[j] == ps[j];
      UntouchedCoil(s, init, a);
      RunKeeps(s, init);
      CoilStep(s, Run(s, init).0, ps[|ps| - 1], a);
    }
  }

  /** The last accepted request that covers a coil decides its value. */
  lemma {:induction false} LastCoilWriteWins(s: Store, ps: seq<Packet>, a: int, k: nat)
    requires forall p :: p in ps ==> LongEnough(p)
    requires a in s.coils && k < |ps| && CoilEffect(s, ps[k], a).Put?
    requires CoilUntouched(s, ps[k + 1..], a)
    ensures a in Run(s, ps).0.coils && Run(s, ps).0.coils[a] == CoilEffect(s, ps[k], a).value
  {
    var init, last := ps[..|ps| - 1], ps[|ps| - 1];
    RunKeeps(s, init);
    if k < |ps| - 1 {
      assert init[k + 1..] == ps[k + 1..][..|ps| - k - 2];
      assert last == ps[k + 1..][|ps| - k - 2];
      LastCoilWriteWins(s, init, a, k);
    }
    CoilStep(s, Run(s, init).0, last, a);
  }

  /** Every register is what its writes and masks, folded in order, make of its initial value. */
  lemma {:induction false} HoldingIsFold(s: Store, ps: seq<Packet>, a: int)
    requires forall p :: p in ps ==> LongEnough(p)
    requires a in s.holding
    ensures a in Run(s, ps).0.holding && Run(s, ps).0.holding[a] == FoldHolding(s, s.holding[a], ps, a)
  {
    if ps != [] {
      var init := ps[..|ps| - 1];
      HoldingIsFold(s, init, a);
      RunKeeps(s, init);
      HoldingStep(s, Run(s, init).0, ps[|ps| - 1], a);
    }
  }

  lemma {:induction false} FoldForgets(s: Store, v: word, ps: seq<Packet>, a: int, k: nat)
    requires forall p :: p in ps ==> LongEnough(p)
    requires k < |ps| && HoldingEffect(s, ps[k], a).Put?
    ensures FoldHolding(s, v, ps, a) == FoldHolding(s, HoldingEffect(s, ps[k], a).value, ps[k + 1..], a)
  {
    if k < |ps| - 1 {
      assert ps[..|ps| - 1][k + 1..] == ps[k + 1..][..|ps| - k - 2];
      FoldForgets(s, v, ps[..|ps| - 1], a, k);
    }
  }

  /** A register holds the last value written to it with the masks that came after,
      whatever happened before that write. */
  lemma LastHoldingWriteWins(s: Store, ps: seq<Packet>, a: int, k: nat)
    requires forall p :: p in ps ==> LongEnough(p)
    requires a in s.holding && k < |ps| && HoldingEffect(s, ps[k], a).Put?
    ensures a in Run(s, ps).0.holding
    ensures Run(s, ps).0.holding[a] == FoldHolding(s, HoldingEffect(s, ps[k], a).value, ps[k + 1..], a)
  {
    HoldingIsFold(s, ps, a);
    FoldForgets(s, s.holding[a], ps, a, k);
  }

  /** The registers at a, .., a+n-1 that the writes of a run make of the initial ones. */
  ghost function FoldWindow(s: Store, ps: seq<Packet>, a: int, n: nat): seq<word>
    requires forall p :: p in ps ==> LongEnough(p)
    requires Window(s.holding, a, n)
  {
    seq<word>(n, i requires 0 <= i < n => FoldHolding(s, s.holding[a + i], ps, a + i))
  }

  /** After a run, a window of registers is what the writes of the run make of it. */
  lemma WindowIsFold(s: Store, ps: seq<Packet>, a: int, n: nat)
    requires forall p :: p in ps ==> LongEnough(p)
    requires Window(s.holding, a, n)
    ensures Window(Run(s, ps).0.holding, a, n)
    ensures Read(Run(s, ps).0.holding, a, n) == FoldWindow(s, ps, a, n)
  {
    forall k | a <= k < a + n
      ensures k in Run(s, ps).0.holding && Run(s, ps).0.holding[k] == FoldHolding(s, s.holding[k], ps, k)
    {
      HoldingIsFold(s, ps, k);
    }
  }

  /** What the last accepted request of a run that covers a coil wrote to it, or else its
      initial value. */
  ghost function LastCoil(s: Store, ps: seq<Packet>, a: int): bool
    requires forall p :: p in ps ==> LongEnough(p)
    requires a in s.coils
  {
    if ps == [] then s.coils[a]
    else
      var e := CoilEffect(s, ps[|ps| - 1], a);
      if e.Put? then e.value else LastCoil(s, ps[..|ps| - 1], a)
  }

  /** After a run, every coil is what the last request that covers it wrote. */
  lemma {:induction false} CoilIsLast(s: Store, ps: seq<Packet>, a: int)
    requires forall p :: p in ps ==> LongEnough(p)
    requires a in s.coils
    ensures a in Run(s, ps).0.coils && Run(s, ps).0.coils[a] == LastCoil(s, ps, a)
  {
    if ps != [] {
      var init := ps[..|ps| - 1];
      CoilIsLast(s, init, a);
      RunKeeps(s, init);
      CoilStep(s, Run(s, init).0, ps[|ps| - 1], a);
    }
  }

  /** Which requests the server accepts is the same after any run as before it: packets
      change values, never which addresses exist. */
  lemma AcceptanceIsStable(s: Store, ps: seq<Packet>, r: Request)
    requires forall p :: p in ps ==> LongEnough(p)
    ensures Accepts(s, r) <==> Accepts(Run(s, ps).0, r)
  {
    RunKeeps(s, ps);
    AcceptsByGeometry(s, Run(s, ps).0, r);
  }
}
