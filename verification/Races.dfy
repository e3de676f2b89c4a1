/** Two runs of two sessions that a lock around each call does not prevent: a torn read and
    a lost update. */
module Races {
  import opened Bytes
  import opened ApplicationDataUnit
  import opened BitOps
  import opened DataTable
  import opened Machine
  import opened Composition
  import opened Sessions
  import opened Concurrency
  import opened SharedTable

  type Begun = map<nat, seq<Op<word>>>

  /** Two sessions on a block of registers that starts at address 0. */
  function Pair(cells: seq<word>, holder: Holder, one: Session<word>, two: Session<word>,
                stores: seq<CellStore<word>>, log: seq<Event<word>>, b: Begun): System<word> {
    System(Geometry(0, |cells|, MAX_REGS_READ, MAX_REGS_WRITE), cells, holder, map[1 := one, 2 := two], stores, log, b)
  }

  function TwoIdle(cells: seq<word>): System<word> {
    Pair(cells, Nobody, Idle, Idle, [], [], map[1 := [], 2 := []])
  }

  function BothReady(cells: seq<word>, f: Op<word>, g: Op<word>, b: Begun): System<word> {
    Pair(cells, Nobody, Ready([f]), Ready([g]), [], [], b)
  }

  lemma ExecNext<T(!new)>(s: System<T>, steps: seq<Step<T>>, step: Step<T>)
    ensures Exec(s, steps + [step]) == Do(Exec(s, steps), step)
  {
    assert (steps + [step])[..|steps|] == steps;
  }

  /** Two more steps of a run. */
  lemma Onward<T(!new)>(s: System<T>, p: seq<Step<T>>, x: Step<T>, y: Step<T>, from: System<T>, to: System<T>)
    requires Exec(s, p) == from && Do(Do(from, x), y) == to
    ensures Exec(s, p + [x, y]) == to
  {
    assert p + [x, y] == p + [x] + [y];
    ExecNext(s, p, x);
    ExecNext(s, p + [x], y);
  }

  /** Both sessions begin one operation. */
  lemma BothBegin(cells: seq<word>, f: Op<word>, g: Op<word>, b: Begun)
    requires ValidOp(TwoIdle(cells).geometry, f) && ValidOp(TwoIdle(cells).geometry, g) && b == map[1 := [f], 2 := [g]]
    ensures Exec(TwoIdle(cells), [Begin(1, [f]), Begin(2, [g])]) == BothReady(cells, f, g, b)
  {
    var s1 := Do(TwoIdle(cells), Begin(1, [f]));
    assert s1.begun[1] == [f];
    assert s1 == Pair(cells, Nobody, Ready([f]), Idle, [], [], map[1 := [f], 2 := []]);
    var s2 := Do(s1, Begin(2, [g]));
    assert s2.begun[2] == [g];
    Onward(TwoIdle(cells), [], Begin(1, [f]), Begin(2, [g]), TwoIdle(cells), s2);
    assert [] + [Begin(1, [f]), Begin(2, [g])] == [Begin(1, [f]), Begin(2, [g])];
  }

  /** Session 1 stores two ones, session 2 reads the two registers. */
  predicate TornOps(f: Op<word>, g: Op<word>) {
    f == Set(0, [1, 1]) && g == Get(0, 2)
  }

  /** Session 2 looks at the registers and reads the first, session 1 stores, session 2
      reads the second. */
  function TornSteps(f: Op<word>, g: Op<word>): seq<Step<word>> {
    [Begin(1, [f]), Begin(2, [g])] + [Look(2), Peek(2)]
    + [Enter(1), StoreCell(1)] + [StoreCell(1), Leave(1)] + [Peek(2), Finish(2)]
  }

  /** Session 2 has read the first register. */
  function HalfRead(f: Op<word>, g: Op<word>, b: Begun): System<word> {
    Pair([0, 0], Nobody, Ready([f]), Looking(g, 0, [Sight(0, 0)], []), [], [], b)
  }

  /** Session 1 has stored one register. */
  function HalfStored(f: Op<word>, g: Op<word>, b: Begun): System<word> {
    Pair([1, 0], By(1), Writing(f, [1, 1], [], 1, []), Looking(g, 0, [Sight(0, 0)], []), [CellStore(0, 1)], [], b)
  }

  /** Session 1 has stored both and given the lock back. */
  function BothStored(f: Op<word>, g: Op<word>, b: Begun): System<word> {
    Pair([1, 1], Nobody, Idle, Looking(g, 0, [Sight(0, 0)], []),
         [CellStore(0, 1), CellStore(1, 1)], [Stored(1, f, [1, 1], [])], b)
  }

  /** Session 2 has read both. */
  function BothRead(f: Op<word>, g: Op<word>, b: Begun): System<word> {
    Pair([1, 1], Nobody, Idle, Idle, [CellStore(0, 1), CellStore(1, 1)],
         [Stored(1, f, [1, 1], []), Fetched(2, g, 0, [Sight(0, 0), Sight(1, 2)])], b)
  }

  lemma ToHalfRead(f: Op<word>, g: Op<word>, b: Begun)
    requires TornOps(f, g)
    ensures Do(Do(BothReady([0, 0], f, g, b), Look(2)), Peek(2)) == HalfRead(f, g, b)
  {
    var s1 := Do(BothReady([0, 0], f, g, b), Look(2));
    assert s1.sessions[2] == Looking(g, 0, [], []);
    assert s1 == Pair([0, 0], Nobody, Ready([f]), Looking(g, 0, [], []), [], [], b);
    assert Do(s1, Peek(2)).sessions[2] == Looking(g, 0, [Sight(0, 0)], []);
  }

  lemma ToHalfStored(f: Op<word>, g: Op<word>, b: Begun)
    requires TornOps(f, g)
    ensures Do(Do(HalfRead(f, g, b), Enter(1)), StoreCell(1)) == HalfStored(f, g, b)
  {
    var s1 := Do(HalfRead(f, g, b), Enter(1));
    assert s1.sessions[1] == Writing(f, [1, 1], [], 0, []);
    assert s1 == Pair([0, 0], By(1), Writing(f, [1, 1], [], 0, []), Looking(g, 0, [Sight(0, 0)], []), [], [], b);
    var s2 := Do(s1, StoreCell(1));
    assert s2.cells == [1, 0] && s2.stores == [CellStore(0, 1)];
  }

  lemma ToBothStored(f: Op<word>, g: Op<word>, b: Begun)
    requires TornOps(f, g)
    ensures Do(Do(HalfStored(f, g, b), StoreCell(1)), Leave(1)) == BothStored(f, g, b)
  {
    var s1 := Do(HalfStored(f, g, b), StoreCell(1));
    var stores := [CellStore(0, 1), CellStore(1, 1)];
    assert s1.cells == [1, 1] && s1.stores == stores;
    assert s1 == Pair([1, 1], By(1), Writing(f, [1, 1], [], 2, []), Looking(g, 0, [Sight(0, 0)], []), stores, [], b);
  }

  lemma ToBothRead(f: Op<word>, g: Op<word>, b: Begun)
    requires TornOps(f, g)
    ensures Do(Do(BothStored(f, g, b), Peek(2)), Finish(2)) == BothRead(f, g, b)
  {
    var stores, e := [CellStore(0, 1), CellStore(1, 1)], Stored(1, f, [1, 1], []);
    var seen := [Sight(0, 0), Sight(1, 2)];
    var s1 := Do(BothStored(f, g, b), Peek(2));
    assert s1.sessions[2] == Looking(g, 0, seen, []);
    assert s1 == Pair([1, 1], Nobody, Idle, Looking(g, 0, seen, []), stores, [e], b);
    assert Do(s1, Finish(2)).log == [e, Fetched(2, g, 0, seen)];
  }

  lemma TornHalf(f: Op<word>, g: Op<word>, b: Begun) returns (p: seq<Step<word>>)
    requires TornOps(f, g) && b == map[1 := [f], 2 := [g]]
    ensures p == [Begin(1, [f]), Begin(2, [g])] + [Look(2), Peek(2)] + [Enter(1), StoreCell(1)]
    ensures Exec(TwoIdle([0, 0]), p) == HalfStored(f, g, b)
  {
    p := [Begin(1, [f]), Begin(2, [g])];
    BothBegin([0, 0], f, g, b);
    ToHalfRead(f, g, b);
    Onward(TwoIdle([0, 0]), p, Look(2), Peek(2), BothReady([0, 0], f, g, b), HalfRead(f, g, b));
    p := p + [Look(2), Peek(2)];
    ToHalfStored(f, g, b);
    Onward(TwoIdle([0, 0]), p, Enter(1), StoreCell(1), HalfRead(f, g, b), HalfStored(f, g, b));
    p := p + [Enter(1), StoreCell(1)];
  }

  lemma TornRun(f: Op<word>, g: Op<word>, b: Begun)
    requires TornOps(f, g) && b == map[1 := [f], 2 := [g]]
    ensures Exec(TwoIdle([0, 0]), TornSteps(f, g)) == BothRead(f, g, b)
  {
    var p := TornHalf(f, g, b);
    ToBothStored(f, g, b);
    Onward(TwoIdle([0, 0]), p, StoreCell(1), Leave(1), HalfStored(f, g, b), BothStored(f, g, b));
    ToBothRead(f, g, b);
    Onward(TwoIdle([0, 0]), p + [StoreCell(1), Leave(1)], Peek(2), Finish(2), BothStored(f, g, b), BothRead(f, g, b));
  }

  /** At every moment at which the lock was free the two registers were the same. */
  lemma TornMoments(m: map<int, word>, log: seq<Event<word>>, l: nat)
    requires m == Cells(0, [0, 0]) && |log| == 2 && l <= 2
    requires log[0].Stored? && log[0].op.address == 0 && log[0].buffer == [1, 1] && log[1].Fetched?
    ensures Window(Replay(m, log[..l]), 0, 2) && Replay(m, log[..l])[0] == Replay(m, log[..l])[1]
  {
    if l > 0 {
      assert log[..1][..0] == [] && log[..2][..1] == log[..1];
      assert Replay(m, log[..l]) == Write(m, 0, [1, 1]);
    } else {
      assert log[..l] == [];
    }
  }

  lemma NoSnapshot(m: map<int, word>, log: seq<Event<word>>, seen: seq<Sight<word>>, l: nat)
    requires l <= |log| && |seen| == 2 && seen[0].value != seen[1].value
    requires Window(Replay(m, log[..l]), 0, 2) && Replay(m, log[..l])[0] == Replay(m, log[..l])[1]
    ensures !Snapshot(m, log, 0, seen, l)
  {
    SnapshotByCell(m, log, 0, seen, l);
    assert seen[0].value == Replay(m, log[..l])[0] ==> seen[1].value != Replay(m, log[..l])[0 + 1];
  }

  /** A torn read: 0 and 1 are answered, which the registers were together at no moment at
      which the lock was free. */
  lemma TornRead(f: Op<word>, g: Op<word>)
    requires TornOps(f, g)
    ensures var s := TwoIdle([0, 0]); var now := Exec(s, TornSteps(f, g));
      && Initial(s) && |now.log| == 2 && now.log[1].Fetched? && now.log[1].op == g
      && Values(now.log[1].seen) == [0, 1]
      && WindowTelling(View(s), now.stores, 0, 2)
      && forall l: nat :: l <= 2 ==> !Snapshot(View(s), now.log, 0, now.log[1].seen, l)
  {
    var b := map[1 := [f], 2 := [g]];
    TornRun(f, g, b);
    var m, log := View(TwoIdle([0, 0])), BothRead(f, g, b).log;
    forall l: nat | l <= 2 ensures !Snapshot(m, log, 0, log[1].seen, l) {
      TornMoments(m, log, l);
      NoSnapshot(m, log, log[1].seen, l);
    }
  }

  /** Two updates of the same register, which make 1 and 2 of 0. */
  predicate LostOps(f: Op<word>, g: Op<word>) {
    f.Update? && g.Update? && f.address == g.address == 0 && f.change(0) == 1 && g.change(0) == 2
  }

  /** Both sessions see the register before either stores it. */
  function LostSteps(f: Op<word>, g: Op<word>): seq<Step<word>> {
    [Begin(1, [f]), Begin(2, [g])] + [Look(1), Look(2)] + [Peek(1), Peek(2)]
    + [Enter(1), StoreCell(1)] + [Leave(1), Enter(2)] + [StoreCell(2), Leave(2)]
  }

  function BothLooking(f: Op<word>, g: Op<word>, seen: seq<Sight<word>>, b: Begun): System<word> {
    Pair([0], Nobody, Looking(f, 0, seen, []), Looking(g, 0, seen, []), [], [], b)
  }

  function OneStored(f: Op<word>, g: Op<word>, seen: seq<Sight<word>>, b: Begun): System<word> {
    Pair([1], By(1), Writing(f, [1], seen, 1, []), Looking(g, 0, seen, []), [CellStore(0, 1)], [], b)
  }

  function TwoEntered(f: Op<word>, g: Op<word>, seen: seq<Sight<word>>, b: Begun): System<word> {
    Pair([1], By(2), Idle, Writing(g, [2], seen, 0, []), [CellStore(0, 1)], [Stored(1, f, [1], seen)], b)
  }

  function TwoStored(f: Op<word>, g: Op<word>, seen: seq<Sight<word>>, b: Begun): System<word> {
    Pair([2], Nobody, Idle, Idle, [CellStore(0, 1), CellStore(0, 2)],
         [Stored(1, f, [1], seen), Stored(2, g, [2], seen)], b)
  }

  lemma ToLooking(f: Op<word>, g: Op<word>, b: Begun)
    requires LostOps(f, g)
    ensures Do(Do(BothReady([0], f, g, b), Look(1)), Look(2)) == BothLooking(f, g, [], b)
  {
    var s1 := Do(BothReady([0], f, g, b), Look(1));
    assert s1.sessions[1] == Looking(f, 0, [], []);
    assert s1 == Pair([0], Nobody, Looking(f, 0, [], []), Ready([g]), [], [], b);
    assert Do(s1, Look(2)).sessions[2] == Looking(g, 0, [], []);
  }

  lemma ToSeen(f: Op<word>, g: Op<word>, b: Begun)
    requires LostOps(f, g)
    ensures Do(Do(BothLooking(f, g, [], b), Peek(1)), Peek(2)) == BothLooking(f, g, [Sight(0, 0)], b)
  {
    var s1 := Do(BothLooking(f, g, [], b), Peek(1));
    assert s1.sessions[1] == Looking(f, 0, [Sight(0, 0)], []);
    assert s1 == Pair([0], Nobody, Looking(f, 0, [Sight(0, 0)], []), Looking(g, 0, [], []), [], [], b);
    assert Do(s1, Peek(2)).sessions[2] == Looking(g, 0, [Sight(0, 0)], []);
  }

  lemma ToOneStored(f: Op<word>, g: Op<word>, seen: seq<Sight<word>>, b: Begun)
    requires LostOps(f, g) && seen == [Sight(0, 0)]
    ensures Do(Do(BothLooking(f, g, seen, b), Enter(1)), StoreCell(1)) == OneStored(f, g, seen, b)
  {
    var s1 := Do(BothLooking(f, g, seen, b), Enter(1));
    assert s1.sessions[1] == Writing(f, [1], seen, 0, []);
    assert s1 == Pair([0], By(1), Writing(f, [1], seen, 0, []), Looking(g, 0, seen, []), [], [], b);
    var s2 := Do(s1, StoreCell(1));
    assert s2.cells == [1] && s2.stores == [CellStore(0, 1)];
  }

  lemma ToTwoEntered(f: Op<word>, g: Op<word>, seen: seq<Sight<word>>, b: Begun)
    requires LostOps(f, g) && seen == [Sight(0, 0)]
    ensures Do(Do(OneStored(f, g, seen, b), Leave(1)), Enter(2)) == TwoEntered(f, g, seen, b)
  {
    var s1 := Do(OneStored(f, g, seen, b), Leave(1));
    assert s1.log == [Stored(1, f, [1], seen)];
    assert s1 == Pair([1], Nobody, Idle, Looking(g, 0, seen, []), [CellStore(0, 1)], [Stored(1, f, [1], seen)], b);
    assert Do(s1, Enter(2)).sessions[2] == Writing(g, [2], seen, 0, []);
  }

  lemma ToTwoStored(f: Op<word>, g: Op<word>, seen: seq<Sight<word>>, b: Begun)
    requires LostOps(f, g)
    ensures Do(Do(TwoEntered(f, g, seen, b), StoreCell(2)), Leave(2)) == TwoStored(f, g, seen, b)
  {
    var stores, e := [CellStore(0, 1), CellStore(0, 2)], Stored(1, f, [1], seen);
    var s1 := Do(TwoEntered(f, g, seen, b), StoreCell(2));
    assert s1.cells == [2] && s1.stores == stores;
    assert s1 == Pair([2], By(2), Idle, Writing(g, [2], seen, 1, []), stores, [e], b);
    assert Do(s1, Leave(2)).log == [e, Stored(2, g, [2], seen)];
  }

  lemma LostHalf(f: Op<word>, g: Op<word>, seen: seq<Sight<word>>, b: Begun) returns (p: seq<Step<word>>)
    requires LostOps(f, g) && seen == [Sight(0, 0)] && b == map[1 := [f], 2 := [g]]
    ensures p == [Begin(1, [f]), Begin(2, [g])] + [Look(1), Look(2)] + [Peek(1), Peek(2)]
    ensures Exec(TwoIdle([0]), p) == BothLooking(f, g, seen, b)
  {
    p := [Begin(1, [f]), Begin(2, [g])];
    BothBegin([0], f, g, b);
    ToLooking(f, g, b);
    Onward(TwoIdle([0]), p, Look(1), Look(2), BothReady([0], f, g, b), BothLooking(f, g, [], b));
    p := p + [Look(1), Look(2)];
    ToSeen(f, g, b);
    Onward(TwoIdle([0]), p, Peek(1), Peek(2), BothLooking(f, g, [], b), BothLooking(f, g, seen, b));
    p := p + [Peek(1), Peek(2)];
  }

  lemma LostRun(f: Op<word>, g: Op<word>, seen: seq<Sight<word>>, b: Begun)
    requires LostOps(f, g) && seen == [Sight(0, 0)] && b == map[1 := [f], 2 := [g]]
    ensures Exec(TwoIdle([0]), LostSteps(f, g)) == TwoStored(f, g, seen, b)
  {
    var p := LostHalf(f, g, seen, b);
    ToOneStored(f, g, seen, b);
    Onward(TwoIdle([0]), p, Enter(1), StoreCell(1), BothLooking(f, g, seen, b), OneStored(f, g, seen, b));
    p := p + [Enter(1), StoreCell(1)];
    ToTwoEntered(f, g, seen, b);
    Onward(TwoIdle([0]), p, Leave(1), Enter(2), OneStored(f, g, seen, b), TwoEntered(f, g, seen, b));
    p := p + [Leave(1), Enter(2)];
    ToTwoStored(f, g, seen, b);
    Onward(TwoIdle([0]), p, StoreCell(2), Leave(2), TwoEntered(f, g, seen, b), TwoStored(f, g, seen, b));
  }

  lemma MasksOfOneAndTwo()
    ensures Masked(0, 3, 1) == 1 && Masked(0, 3, 2) == 2 && Masked(1, 3, 2) == 3 && Masked(2, 3, 1) == 3
  {
    assert And(0, 3) == 0 && And(1, 3) == 1 && And(2, 3) == 2;
    assert Or(0, 1) == 1 && Or(0, 2) == 2 && Or(1, 2) == 3 && Or(2, 1) == 3;
  }

  lemma OneAfterTheOther(t: Store, c: word, m: word, o: word, o': word)
    requires t.holding == Cells(0, [c])
    ensures var q, r := MaskWrite(0, m, o), MaskWrite(0, m, o');
      ApplyAll(t, [q, r]).holding == Cells(0, [Masked(Masked(c, m, o), m, o')])
  {
    var q, r := MaskWrite(0, m, o), MaskWrite(0, m, o');
    assert 0 in t.holding;
    ApplyAllNext(t, [], q);
    assert [] + [q] == [q];
    var t1 := ApplyAll(t, [q]);
    assert t1.holding == Cells(0, [Masked(c, m, o)]) && 0 in t1.holding;
    ApplyAllNext(t, [q], r);
    assert [q] + [r] == [q, r];
  }

  lemma LostBlock(f: Op<word>, g: Op<word>)
    requires LostOps(f, g)
    ensures var s := TwoIdle([0]); var now := Exec(s, LostSteps(f, g));
      && Initial(s) && View(s) == Cells(0, [0])
      && |now.log| == 2 && now.log[0].op == f && now.log[1].op == g && now.holder == Nobody
      && View(now) == Cells(0, [2])
  {
    LostRun(f, g, [Sight(0, 0)], map[1 := [f], 2 := [g]]);
  }

  /** A lost update: two mask writes set bit 0 and bit 1 of a zero register; one after the
      other, in either order, they leave 3, and this run leaves 2. */
  lemma LostUpdate(t: Store, q: Request, r: Request)
    requires t.holding == Cells(0, [0])
    requires q == MaskWrite(0, 3, 1) && r == MaskWrite(0, 3, 2)
    ensures var s, f, g := TwoIdle([0]), RegisterCalls(q)[0], RegisterCalls(r)[0];
      var now := Exec(s, LostSteps(f, g));
      && Initial(s) && View(s) == t.holding
      && |now.log| == 2 && now.log[0].op == f && now.log[1].op == g && now.holder == Nobody
      && View(now) == Cells(0, [2])
      && ApplyAll(t, [q, r]).holding == Cells(0, [3]) == ApplyAll(t, [r, q]).holding
  {
    MasksOfOneAndTwo();
    LostBlock(RegisterCalls(q)[0], RegisterCalls(r)[0]);
    OneAfterTheOther(t, 0, 3, 1, 2);
    OneAfterTheOther(t, 0, 3, 2, 1);
  }
}
