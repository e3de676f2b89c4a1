/** No session is ever stuck: from every reachable state it can complete everything it began. */
module Progress {
  import opened Sessions

  /** How many steps an operation takes at most. */
  function OpCost<T>(op: Op<T>): nat {
    match op
    case Set(_, b) => |b| + 2
    case Get(_, n) => n + 2
    case Update(_, _) => 5
  }

  function Total<T>(ops: seq<Op<T>>): nat {
    if |ops| == 0 then 0 else OpCost(ops[0]) + Total(ops[1..])
  }

  /** How many cells a session that writes has not stored yet. */
  function Unstored<T>(me: Session<T>): nat
    requires me.Writing?
  {
    if me.done <= |me.buffer| then |me.buffer| - me.done else 0
  }

  /** How many steps of its own a session has to go at most. */
  function Cost<T>(me: Session<T>): nat {
    match me
    case Ready(ops) => Total(ops)
    case Looking(op, _, seen, rest) =>
      (if |seen| <= Width(op) then Width(op) - |seen| else 0) + (if op.Get? then 1 else 3) + Total(rest)
    case Writing(_, _, _, _, rest) => Unstored(me) + 1 + Total(rest)
    case _ => 0
  }

  /** The same for session `i`, the session that holds the lock included. */
  function Distance<T>(s: System<T>, i: nat): nat
    requires i in s.sessions
  {
    Cost(s.sessions[i])
    + match s.holder
      case By(j) => if j != i && j in s.sessions && s.sessions[j].Writing? then Unstored(s.sessions[j]) + 1 else 0
      case Nobody => 0
  }

  /** The step that brings session `i` nearer to the end of its operations: one of the
      session that holds the lock, or else one of its own. */
  function Helpful<T>(s: System<T>, i: nat): Step<T>
    requires i in s.sessions && (s.holder.By? ==> s.holder.session in s.sessions && s.sessions[s.holder.session].Writing?)
  {
    match s.holder
    case By(j) => if s.sessions[j].done < |s.sessions[j].buffer| then StoreCell(j) else Leave(j)
    case Nobody =>
      match s.sessions[i]
      case Ready(ops) => if |ops| > 0 && ops[0].Set? then Enter(i) else Look(i)
      case Looking(op, _, seen, _) => if |seen| < Width(op) then Peek(i) else if op.Get? then Finish(i) else Enter(i)
      case _ => Look(i)
  }

  lemma TotalHead<T>(ops: seq<Op<T>>)
    requires |ops| > 0
    ensures Total(ops) == OpCost(ops[0]) + Total(ops[1..])
  {
  }

  lemma ResumeCost<T>(rest: seq<Op<T>>)
    ensures Cost(Resume(rest)) == Total(rest)
  {
  }

  lemma StoreNearer<T(!new)>(m: map<int, T>, s: System<T>, i: nat, j: nat)
    requires Inv(m, s) && i in s.sessions && s.holder == By(j) && s.sessions[j].done < |s.sessions[j].buffer|
    ensures Distance(DoStoreCell(s, j), i) < Distance(s, i)
  {
    StoreCellHits(m, s, j);
  }

  lemma LeaveNearer<T(!new)>(m: map<int, T>, s: System<T>, i: nat, j: nat)
    requires Inv(m, s) && i in s.sessions && s.holder == By(j) && s.sessions[j].done >= |s.sessions[j].buffer|
    ensures Distance(DoLeave(s, j), i) < Distance(s, i)
  {
    ResumeCost(s.sessions[j].rest);
  }

  /** The session that holds the lock stores a cell or leaves. */
  lemma HolderNearer<T(!new)>(m: map<int, T>, s: System<T>, i: nat)
    requires Inv(m, s) && i in s.sessions && s.holder.By?
    ensures Distance(Do(s, Helpful(s, i)), i) < Distance(s, i)
  {
    var j := s.holder.session;
    if s.sessions[j].done < |s.sessions[j].buffer| { StoreNearer(m, s, i, j); } else { LeaveNearer(m, s, i, j); }
  }

  lemma ReadyNearer<T(!new)>(m: map<int, T>, s: System<T>, i: nat)
    requires Inv(m, s) && i in s.sessions && s.holder.Nobody? && s.sessions[i].Ready?
    ensures Distance(Do(s, Helpful(s, i)), i) < Distance(s, i)
  {
    assert SessionOk(m, s, i, s.sessions[i]);
    TotalHead(s.sessions[i].ops);
  }

  lemma PeekNearer<T(!new)>(m: map<int, T>, s: System<T>, i: nat)
    requires Inv(m, s) && i in s.sessions && s.holder.Nobody?
    requires s.sessions[i].Looking? && |s.sessions[i].seen| < Width(s.sessions[i].op)
    ensures Distance(DoPeek(s, i), i) < Distance(s, i)
  {
  }

  lemma SeenNearer<T(!new)>(m: map<int, T>, s: System<T>, i: nat)
    requires Inv(m, s) && i in s.sessions && s.holder.Nobody?
    requires s.sessions[i].Looking? && |s.sessions[i].seen| >= Width(s.sessions[i].op)
    ensures s.sessions[i].op.Get? ==> Distance(DoFinish(s, i), i) < Distance(s, i)
    ensures !s.sessions[i].op.Get? ==> Distance(DoEnter(s, i), i) < Distance(s, i)
  {
    assert SessionOk(m, s, i, s.sessions[i]);
    ResumeCost(s.sessions[i].rest);
  }

  /** Session `i` itself moves on while the lock is free. */
  lemma SelfNearer<T(!new)>(m: map<int, T>, s: System<T>, i: nat)
    requires Inv(m, s) && i in s.sessions && s.holder.Nobody? && !s.sessions[i].Idle?
    ensures Distance(Do(s, Helpful(s, i)), i) < Distance(s, i)
  {
    assert SessionOk(m, s, i, s.sessions[i]);
    if s.sessions[i].Ready? {
      ReadyNearer(m, s, i);
    } else if |s.sessions[i].seen| < Width(s.sessions[i].op) {
      PeekNearer(m, s, i);
    } else {
      SeenNearer(m, s, i);
    }
  }

  /** The first step of a run, then the others. */
  lemma {:induction false} ExecFront<T(!new)>(s: System<T>, step: Step<T>, rest: seq<Step<T>>)
    ensures Exec(s, [step] + rest) == Exec(Do(s, step), rest)
  {
    var steps := [step] + rest;
    if |rest| == 0 {
      assert steps[..0] == [];
    } else {
      assert steps[..|steps| - 1] == [step] + rest[..|rest| - 1];
      ExecFront(s, step, rest[..|rest| - 1]);
    }
  }

  lemma {:induction false} ExecConcat<T(!new)>(s: System<T>, p: seq<Step<T>>, q: seq<Step<T>>)
    ensures Exec(s, p + q) == Exec(Exec(s, p), q)
  {
    if |q| == 0 {
      assert p + q == p;
    } else {
      assert (p + q)[..|p + q| - 1] == p + q[..|q| - 1];
      ExecConcat(s, p, q[..|q| - 1]);
    }
  }

  /** No session comes or goes, and only `Begin` begins anything. */
  lemma StepFrame<T(!new)>(s: System<T>, step: Step<T>)
    ensures Do(s, step).sessions.Keys == s.sessions.Keys
    ensures !step.Begin? ==> Do(s, step).begun == s.begun
  {
  }

  lemma StepKeepsOrder<T(!new)>(m: map<int, T>, s: System<T>, step: Step<T>)
    requires Inv(m, s) && ProgramOrder(s)
    ensures Inv(m, Do(s, step)) && ProgramOrder(Do(s, step))
  {
    DoKeeps(m, s, step);
    StepFrame(s, step);
    if step.i in s.sessions {
      assert step.i in Do(s, step).sessions.Keys;
      assert SessionOk(m, Do(s, step), step.i, Do(s, step).sessions[step.i]);
    }
    DoKeepsOrder(s, step);
  }

  /** Session `i` can complete all it has pending. */
  lemma {:induction false} Completes<T(!new)>(m: map<int, T>, s: System<T>, i: nat) returns (more: seq<Step<T>>)
    requires Inv(m, s) && ProgramOrder(s) && i in s.sessions
    ensures var end := Exec(s, more);
      && i in end.sessions && end.sessions[i].Idle? && end.holder.Nobody?
      && end.begun == s.begun && s.log <= end.log
      && DoneBy(end.log, i) == s.begun[i]
    decreases Distance(s, i)
  {
    if s.holder.Nobody? && s.sessions[i].Idle? {
      more := [];
      assert OrderAt(s, i);
    } else {
      var step := Helpful(s, i);
      if s.holder.By? { HolderNearer(m, s, i); } else { SelfNearer(m, s, i); }
      StepKeepsOrder(m, s, step);
      StepFrame(s, step);
      DoGrows(s, step);
      assert i in Do(s, step).sessions.Keys;
      var rest := Completes(m, Do(s, step), i);
      ExecFront(s, step, rest);
      more := [step] + rest;
    }
  }

  /** From every state that any sessions can reach, session `i` can go on so that all the
      operations it ever began are completed, in the order it began them, and it is idle and
      the lock free. No step before is undone. */
  lemma OperationsComplete<T(!new)>(s: System<T>, steps: seq<Step<T>>, now: System<T>, i: nat) returns (more: seq<Step<T>>)
    requires Initial(s) && now == Exec(s, steps) && i in now.sessions
    ensures i in now.begun
    ensures var end := Exec(s, steps + more);
      && i in end.sessions && end.sessions[i].Idle? && end.holder.Nobody? && now.log <= end.log
      && DoneBy(end.log, i) == now.begun[i]
  {
    ExecKeeps(s, steps);
    ExecKeepsOrder(s, steps);
    more := Completes(View(s), now, i);
    ExecConcat(s, steps, more);
  }

  /** A session that begins operations has begun them, all of them and no others. */
  lemma BegunInFull<T(!new)>(s: System<T>, steps: seq<Step<T>>, now: System<T>, i: nat, ops: seq<Op<T>>)
    requires Initial(s) && now == Exec(s, steps) && i in now.sessions && now.sessions[i].Idle?
    requires |ops| > 0 && AllValid(now.geometry, ops)
    ensures i in now.begun
    ensures var then' := Exec(s, steps + [Begin(i, ops)]);
      i in then'.begun && then'.begun[i] == now.begun[i] + ops
  {
    ExecKeepsOrder(s, steps);
    ExecConcat(s, steps, [Begin(i, ops)]);
    ExecOne(now, Begin(i, ops));
  }

  lemma ExecOne<T(!new)>(s: System<T>, step: Step<T>)
    ensures Exec(s, [step]) == Do(s, step)
  {
    assert [step][..0] == [];
  }

  /** What an idle session begins on a fresh block can be done to the end: exactly these
      operations, in this order. */
  lemma RequestCompletes<T(!new)>(s: System<T>, i: nat, ops: seq<Op<T>>, now: System<T>) returns (more: seq<Step<T>>)
    requires Initial(s) && i in s.sessions && |ops| > 0 && AllValid(s.geometry, ops)
    requires now == Exec(s, [Begin(i, ops)])
    ensures var end := Exec(s, [Begin(i, ops)] + more);
      && i in end.sessions && end.sessions[i].Idle? && end.holder.Nobody?
      && DoneBy(end.log, i) == ops
  {
    BegunFresh(s, i, ops);
    more := OperationsComplete(s, [Begin(i, ops)], now, i);
  }

  lemma BegunFresh<T(!new)>(s: System<T>, i: nat, ops: seq<Op<T>>)
    requires Initial(s) && i in s.sessions && |ops| > 0 && AllValid(s.geometry, ops)
    ensures var now := Exec(s, [Begin(i, ops)]);
      i in now.sessions && i in now.begun && now.begun[i] == ops
  {
    ExecOne(s, Begin(i, ops));
    assert i in s.begun.Keys;
    assert s.begun[i] + ops == ops;
  }
}
