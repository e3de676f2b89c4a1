/** Many sessions on one block, one step at a time. `set` takes the lock, stores cell after
    cell, and gives the lock back. `get` holds the lock only while it checks the window; its
    caller reads the cells afterwards, one by one, whoever holds the lock by then. One cell
    is stored or read in one step. Every interleaving is a sequence of `Step`s. */
module Sessions {
  import opened Bytes
  import opened DataTable

  /** What a session does to the block once `execute` has accepted a request. */
  datatype Op<!T> =
    | Set(address: word, buffer: seq<T>)
    | Get(address: word, count: word)
    | Update(address: word, change: T -> T) // get one cell, then set what `change` makes of it

  /** A cell as it was read, and how many one-cell stores the block had seen by then. */
  datatype Sight<T> = Sight(value: T, at: nat)

  datatype Session<!T> =
    | Idle
    | Ready(ops: seq<Op<T>>)
    | Looking(op: Op<T>, after: nat, seen: seq<Sight<T>>, rest: seq<Op<T>>) // get has returned
    | Writing(op: Op<T>, buffer: seq<T>, seen: seq<Sight<T>>, done: nat, rest: seq<Op<T>>)
    | Faulted // out_of_range, or a cell outside the vector

  /** A completed operation. `after` counts the operations completed when `get` had the lock. */
  datatype Event<!T> =
    | Stored(session: nat, op: Op<T>, buffer: seq<T>, seen: seq<Sight<T>>)
    | Fetched(session: nat, op: Op<T>, after: nat, seen: seq<Sight<T>>)

  datatype Holder = Nobody | By(session: nat)

  datatype CellStore<T> = CellStore(address: int, value: T)

  datatype System<!T> = System(
    geometry: Geometry,
    cells: seq<T>,
    holder: Holder,
    sessions: map<nat, Session<T>>,
    stores: seq<CellStore<T>>,     // every store of a cell, in the order they happened
    log: seq<Event<T>>,            // completed operations; those that store, in lock order
    begun: map<nat, seq<Op<T>>>)   // all operations a session ever set out to do

  datatype Step<!T> =
    | Begin(i: nat, ops: seq<Op<T>>) // execute: validates without the lock
    | Look(i: nat)                   // get: validates with the lock, and gives it back
    | Peek(i: nat)                   // the caller of get reads one cell
    | Finish(i: nat)                 // the caller of get has read them all
    | Enter(i: nat)                  // set: takes the lock and validates
    | StoreCell(i: nat)              // set: one cell
    | Leave(i: nat)                  // set: gives the lock back

  /** What `get` and `set` check, with the lock. */
  predicate ValidOp<T>(g: Geometry, op: Op<T>) {
    match op
    case Set(a, b) => ValidSize(g, a, |b|)
    case Get(a, n) => g.ValidateRead(a, n)
    case Update(a, _) => g.ValidateOne(a)
  }

  /** validate_sz neither throws nor says no. */
  predicate ValidSize(g: Geometry, a: word, n: nat) {
    n > 0 && g.ValidateSz(a, n).value
  }

  predicate AllValid<T>(g: Geometry, ops: seq<Op<T>>) {
    forall k :: 0 <= k < |ops| ==> ValidOp(g, ops[k])
  }

  /** The number of cells an operation looks at or stores. */
  function Width<T>(op: Op<T>): nat {
    match op
    case Set(_, b) => |b|
    case Get(_, n) => n
    case Update(_, _) => 1
  }

  function Resume<T>(rest: seq<Op<T>>): Session<T> {
    if |rest| == 0 then Idle else Ready(rest)
  }

  function DoBegin<T>(s: System<T>, i: nat, ops: seq<Op<T>>): System<T>
    requires i in s.sessions
  {
    if s.sessions[i].Idle? && |ops| > 0 && AllValid(s.geometry, ops) && i in s.begun then
      s.(sessions := s.sessions[i := Ready(ops)], begun := s.begun[i := s.begun[i] + ops])
    else s
  }

  function DoLook<T>(s: System<T>, i: nat): System<T>
    requires i in s.sessions
  {
    var me := s.sessions[i];
    if !(me.Ready? && |me.ops| > 0 && !me.ops[0].Set? && s.holder.Nobody?) then s
    else if !ValidOp(s.geometry, me.ops[0]) then s.(sessions := s.sessions[i := Faulted])
    else s.(sessions := s.sessions[i := Looking(me.ops[0], |s.log|, [], me.ops[1..])])
  }

  function DoPeek<T>(s: System<T>, i: nat): System<T>
    requires i in s.sessions
  {
    var me := s.sessions[i];
    if !(me.Looking? && |me.seen| < Width(me.op)) then s
    else
      var k := s.geometry.Offset(me.op.address) + |me.seen|;
      if k >= |s.cells| then s.(sessions := s.sessions[i := Faulted])
      else s.(sessions := s.sessions[i := Looking(me.op, me.after, me.seen + [Sight(s.cells[k], |s.stores|)], me.rest)])
  }

  function DoFinish<T>(s: System<T>, i: nat): System<T>
    requires i in s.sessions
  {
    var me := s.sessions[i];
    if !(me.Looking? && me.op.Get? && |me.seen| >= Width(me.op)) then s
    else s.(log := s.log + [Fetched(i, me.op, me.after, me.seen)], sessions := s.sessions[i := Resume(me.rest)])
  }

  /** The session about to call `set`: with its buffer, or with what it makes of the cell it saw. */
  function Armed<T>(me: Session<T>): Session<T> {
    match me
    case Ready(ops) =>
      if |ops| > 0 && ops[0].Set? then Writing(ops[0], ops[0].buffer, [], 0, ops[1..]) else Idle
    case Looking(op, _, seen, rest) =>
      if op.Update? && |seen| == 1 then Writing(op, [op.change(seen[0].value)], seen, 0, rest) else Idle
    case _ => Idle
  }

  function DoEnter<T>(s: System<T>, i: nat): System<T>
    requires i in s.sessions
  {
    var me := Armed(s.sessions[i]);
    if !(me.Writing? && s.holder.Nobody?) then s
    else if !ValidSize(s.geometry, me.op.address, |me.buffer|) then s.(sessions := s.sessions[i := Faulted])
    else s.(holder := By(i), sessions := s.sessions[i := me])
  }

  function DoStoreCell<T>(s: System<T>, i: nat): System<T>
    requires i in s.sessions
  {
    var me := s.sessions[i];
    if !(me.Writing? && me.done < |me.buffer|) then s
    else
      var k := s.geometry.Offset(me.op.address) + me.done;
      if k >= |s.cells| then s.(sessions := s.sessions[i := Faulted])
      else s.(cells := s.cells[k := me.buffer[me.done]],
              stores := s.stores + [CellStore(me.op.address + me.done, me.buffer[me.done])],
              sessions := s.sessions[i := me.(done := me.done + 1)])
  }

  function DoLeave<T>(s: System<T>, i: nat): System<T>
    requires i in s.sessions
  {
    var me := s.sessions[i];
    if !(me.Writing? && me.done >= |me.buffer|) then s
    else s.(holder := Nobody, log := s.log + [Stored(i, me.op, me.buffer, me.seen)],
            sessions := s.sessions[i := Resume(me.rest)])
  }

  /** One step of one session; a step that is not enabled does nothing. */
  function Do<T>(s: System<T>, step: Step<T>): System<T> {
    if step.i !in s.sessions then s
    else
      match step
      case Begin(i, ops) => DoBegin(s, i, ops)
      case Look(i) => DoLook(s, i)
      case Peek(i) => DoPeek(s, i)
      case Finish(i) => DoFinish(s, i)
      case Enter(i) => DoEnter(s, i)
      case StoreCell(i) => DoStoreCell(s, i)
      case Leave(i) => DoLeave(s, i)
  }

  function Exec<T>(s: System<T>, steps: seq<Step<T>>): System<T> {
    if |steps| == 0 then s else Do(Exec(s, steps[..|steps| - 1]), steps[|steps| - 1])
  }

  /** All sessions idle, nobody holds the lock, nothing has happened. */
  ghost predicate Initial<T(!new)>(s: System<T>) {
    && |s.cells| == s.geometry.capacity && s.holder == Nobody && s.log == [] && s.stores == []
    && s.begun.Keys == s.sessions.Keys
    && forall i :: i in s.sessions ==> s.sessions[i].Idle? && |s.begun[i]| == 0
  }

  ghost function View<T(!new)>(s: System<T>): map<int, T> {
    Cells(s.geometry.start, s.cells)
  }

  /** The map that one-cell stores make of `m`. */
  ghost function Patched<T(!new)>(m: map<int, T>, h: seq<CellStore<T>>): (r: map<int, T>)
    ensures r.Keys == m.Keys
  {
    if |h| == 0 then m
    else Write(Patched(m, h[..|h| - 1]), h[|h| - 1].address, [h[|h| - 1].value])
  }

  /** The map that completed `set`s make of `m`, one whole buffer after another. */
  ghost function Replay<T(!new)>(m: map<int, T>, log: seq<Event<T>>): (r: map<int, T>)
    ensures r.Keys == m.Keys
  {
    if |log| == 0 then m
    else
      var r, e := Replay(m, log[..|log| - 1]), log[|log| - 1];
      if e.Stored? then Write(r, e.op.address, e.buffer) else r
  }

  /** The one-cell stores of a buffer. */
  function StoresOf<T>(a: int, buffer: seq<T>): seq<CellStore<T>> {
    seq(|buffer|, d requires 0 <= d < |buffer| => CellStore(a + d, buffer[d]))
  }

  /** The one-cell stores of completed `set`s, in lock order. */
  function LoggedStores<T>(log: seq<Event<T>>): seq<CellStore<T>> {
    if |log| == 0 then []
    else
      var e := log[|log| - 1];
      LoggedStores(log[..|log| - 1]) + (if e.Stored? then StoresOf(e.op.address, e.buffer) else [])
  }

  /** When the first `k` completed operations were all the block had seen: a number of stores. */
  function Moment<T>(log: seq<Event<T>>, k: nat): nat
    requires k <= |log|
  {
    |LoggedStores(log[..k])|
  }

  /** Cell d of a window was read at its own moment, not before `since`, in order, and had
      the value the block had at that moment. */
  ghost predicate SightsOk<T(!new)>(m: map<int, T>, h: seq<CellStore<T>>, a: int, since: nat, seen: seq<Sight<T>>) {
    && (forall d :: 0 <= d < |seen| ==> SightOk(m, h, a + d, since, seen[d]))
    && forall c, d :: 0 <= c < d < |seen| ==> seen[c].at <= seen[d].at
  }

  ghost predicate SightOk<T(!new)>(m: map<int, T>, h: seq<CellStore<T>>, x: int, since: nat, sight: Sight<T>) {
    since <= sight.at <= |h| && x in m && sight.value == Patched(m, h[..sight.at])[x]
  }

  /** What is stored is the caller's buffer, or what the update makes of the cell it saw. */
  predicate BufferOk<T(==)>(op: Op<T>, buffer: seq<T>, seen: seq<Sight<T>>) {
    match op
    case Set(_, b) => buffer == b && seen == []
    case Get(_, _) => false
    case Update(_, f) => |seen| == 1 && buffer == [f(seen[0].value)]
  }

  ghost predicate SessionOk<T(!new)>(m: map<int, T>, s: System<T>, i: nat, me: Session<T>) {
    match me
    case Idle => true
    case Ready(ops) => |ops| > 0 && AllValid(s.geometry, ops)
    case Looking(op, after, seen, rest) =>
      && !op.Set? && ValidOp(s.geometry, op) && AllValid(s.geometry, rest)
      && |seen| <= Width(op) && after <= |s.log|
      && SightsOk(m, s.stores, op.address, Moment(s.log, after), seen)
    case Writing(op, buffer, seen, done, rest) =>
      && s.holder == By(i) && ValidSize(s.geometry, op.address, |buffer|) && done <= |buffer|
      && AllValid(s.geometry, rest) && BufferOk(op, buffer, seen)
      && SightsOk(m, LoggedStores(s.log), op.address, 0, seen)
    case Faulted => false
  }

  ghost predicate SessionsOk<T(!new)>(m: map<int, T>, s: System<T>) {
    forall i :: i in s.sessions ==> SessionOk(m, s, i, s.sessions[i])
  }

  ghost predicate EventOk<T(!new)>(m: map<int, T>, s: System<T>, k: nat)
    requires k < |s.log|
  {
    match s.log[k]
    case Stored(_, op, buffer, seen) =>
      BufferOk(op, buffer, seen) && SightsOk(m, LoggedStores(s.log[..k]), op.address, 0, seen)
    case Fetched(_, op, after, seen) =>
      && op.Get? && |seen| == op.count && after <= k
      && SightsOk(m, s.stores, op.address, Moment(s.log, after), seen)
  }

  ghost predicate LogOk<T(!new)>(m: map<int, T>, s: System<T>) {
    forall k: nat :: k < |s.log| ==> EventOk(m, s, k)
  }

  /** The stores so far are those of the completed `set`s in lock order and, while a session
      holds the lock, as much of its buffer as it has stored. */
  ghost predicate StoresOk<T(!new)>(s: System<T>) {
    match s.holder
    case Nobody => s.stores == LoggedStores(s.log)
    case By(i) =>
      && i in s.sessions && s.sessions[i].Writing? && s.sessions[i].done <= |s.sessions[i].buffer|
      && s.stores == LoggedStores(s.log) + StoresOf(s.sessions[i].op.address, s.sessions[i].buffer[..s.sessions[i].done])
  }

  /** The invariant; `m` is the block before the first step. */
  ghost predicate Inv<T(!new)>(m: map<int, T>, s: System<T>) {
    && |s.cells| == s.geometry.capacity
    && View(s) == Patched(m, s.stores)
    && StoresOk(s) && SessionsOk(m, s) && LogOk(m, s)
  }

  /** A valid window lies in the vector at its 16-bit offset. */
  lemma OffsetExact<T(!new)>(s: System<T>, a: word, n: nat)
    requires |s.cells| == s.geometry.capacity && ValidSize(s.geometry, a, n)
    ensures s.geometry.Offset(a) == a - s.geometry.start && s.geometry.Offset(a) + n <= |s.cells|
    ensures Window(View(s), a, n)
  {
  }

  lemma PatchedAppend<T(!new)>(m: map<int, T>, h: seq<CellStore<T>>, c: CellStore<T>)
    ensures Patched(m, h + [c]) == Write(Patched(m, h), c.address, [c.value])
  {
    assert (h + [c])[..|h|] == h;
  }

  lemma LoggedAppend<T(!new)>(log: seq<Event<T>>, e: Event<T>)
    ensures LoggedStores(log + [e]) ==
      LoggedStores(log) + (if e.Stored? then StoresOf(e.op.address, e.buffer) else [])
  {
    assert (log + [e])[..|log|] == log;
  }

  /** What was logged first was stored first. */
  lemma {:induction false} LoggedPrefix<T(!new)>(log: seq<Event<T>>, k: nat)
    requires k <= |log|
    ensures LoggedStores(log[..k]) <= LoggedStores(log)
  {
    if k < |log| {
      LoggedPrefix(log[..|log| - 1], k);
      assert log[..|log| - 1][..k] == log[..k];
    } else {
      assert log[..k] == log;
    }
  }

  lemma PatchedPrefix<T(!new)>(m: map<int, T>, h: seq<CellStore<T>>, g: seq<CellStore<T>>, n: nat)
    requires h <= g && n <= |h|
    ensures h[..n] == g[..n]
  {
  }

  /** Sights stay right while the history of stores grows. */
  lemma SightsGrow<T(!new)>(m: map<int, T>, h: seq<CellStore<T>>, g: seq<CellStore<T>>, a: int,
                            since: nat, seen: seq<Sight<T>>)
    requires SightsOk(m, h, a, since, seen) && h <= g
    ensures SightsOk(m, g, a, since, seen)
  {
    forall d | 0 <= d < |seen| ensures SightOk(m, g, a + d, since, seen[d]) {
      assert SightOk(m, h, a + d, since, seen[d]);
      PatchedPrefix(m, h, g, seen[d].at);
    }
  }

  /** One step changes session `i` and lets the histories grow; what another session knows
      stays right, since a session that writes keeps the others from storing. */
  ghost predicate Grows<T(!new)>(s: System<T>, s': System<T>, i: nat) {
    && i in s.sessions && i in s'.sessions && s'.sessions == s.sessions[i := s'.sessions[i]]
    && s'.geometry == s.geometry && |s'.cells| == |s.cells|
    && s.stores <= s'.stores && s.log <= s'.log
    && (forall j :: s.holder == By(j) && j != i ==> s'.holder == s.holder && LoggedStores(s'.log) == LoggedStores(s.log))
  }

  lemma OtherKeeps<T(!new)>(m: map<int, T>, s: System<T>, s': System<T>, i: nat, j: nat)
    requires Grows(s, s', i) && j in s.sessions && j != i && SessionOk(m, s, j, s.sessions[j])
    ensures SessionOk(m, s', j, s.sessions[j])
  {
    var me := s.sessions[j];
    if me.Looking? {
      assert s'.log[..me.after] == s.log[..me.after];
      SightsGrow(m, s.stores, s'.stores, me.op.address, Moment(s.log, me.after), me.seen);
    }
  }

  lemma SessionsUpdated<T(!new)>(m: map<int, T>, s: System<T>, s': System<T>, i: nat)
    requires SessionsOk(m, s) && Grows(s, s', i) && SessionOk(m, s', i, s'.sessions[i])
    ensures SessionsOk(m, s')
  {
    forall j | j in s'.sessions ensures SessionOk(m, s', j, s'.sessions[j]) {
      if j != i { OtherKeeps(m, s, s', i, j); }
    }
  }

  lemma EventGrows<T(!new)>(m: map<int, T>, s: System<T>, s': System<T>, k: nat)
    requires s.stores <= s'.stores && s.log <= s'.log && k < |s.log| && EventOk(m, s, k)
    ensures EventOk(m, s', k)
  {
    var e := s.log[k];
    assert s'.log[..k] == s.log[..k];
    if e.Fetched? {
      assert s'.log[..e.after] == s.log[..e.after];
      SightsGrow(m, s.stores, s'.stores, e.op.address, Moment(s.log, e.after), e.seen);
    }
  }

  /** The log stays right when it gains at most one right event. */
  lemma LogUpdated<T(!new)>(m: map<int, T>, s: System<T>, s': System<T>)
    requires LogOk(m, s) && s.stores <= s'.stores && s.log <= s'.log && |s'.log| <= |s.log| + 1
    requires |s'.log| > |s.log| ==> EventOk(m, s', |s.log|)
    ensures LogOk(m, s')
  {
    forall k: nat | k < |s'.log| ensures EventOk(m, s', k) {
      if k < |s.log| { EventGrows(m, s, s', k); }
    }
  }

  lemma StepKeeps<T(!new)>(m: map<int, T>, s: System<T>, s': System<T>, i: nat)
    requires Inv(m, s) && Grows(s, s', i)
    requires View(s') == Patched(m, s'.stores) && StoresOk(s') && SessionOk(m, s', i, s'.sessions[i])
    requires |s'.log| <= |s.log| + 1 && (|s'.log| > |s.log| ==> EventOk(m, s', |s.log|))
    ensures Inv(m, s')
  {
    SessionsUpdated(m, s, s', i);
    LogUpdated(m, s, s');
  }

  /** A step that only moves session `i` on, without the lock. */
  lemma MoveKeeps<T(!new)>(m: map<int, T>, s: System<T>, s': System<T>, i: nat)
    requires Inv(m, s) && i in s.sessions && i in s'.sessions && !s.sessions[i].Writing?
    requires s' == s.(sessions := s.sessions[i := s'.sessions[i]], begun := s'.begun)
    requires SessionOk(m, s', i, s'.sessions[i])
    ensures Inv(m, s')
  {
    assert s.holder != By(i);
    assert StoresOk(s');
    assert Grows(s, s', i);
    SessionsUpdated(m, s, s', i);
    LogUpdated(m, s, s');
  }

  lemma BeginKeeps<T(!new)>(m: map<int, T>, s: System<T>, i: nat, ops: seq<Op<T>>)
    requires Inv(m, s) && i in s.sessions
    ensures Inv(m, DoBegin(s, i, ops))
  {
    if s.sessions[i].Idle? && |ops| > 0 && AllValid(s.geometry, ops) && i in s.begun {
      MoveKeeps(m, s, DoBegin(s, i, ops), i);
    }
  }

  lemma LookKeeps<T(!new)>(m: map<int, T>, s: System<T>, i: nat)
    requires Inv(m, s) && i in s.sessions
    ensures Inv(m, DoLook(s, i))
  {
    var me := s.sessions[i];
    assert SessionOk(m, s, i, me);
    if me.Ready? && |me.ops| > 0 && !me.ops[0].Set? && s.holder.Nobody? {
      assert ValidOp(s.geometry, me.ops[0]);
      MoveKeeps(m, s, DoLook(s, i), i);
    }
  }

  /** The next cell of the window lies in the vector and is read as the block has it. */
  lemma PeekSees<T(!new)>(m: map<int, T>, s: System<T>, i: nat)
    requires Inv(m, s) && i in s.sessions && s.sessions[i].Looking? && |s.sessions[i].seen| < Width(s.sessions[i].op)
    ensures var me := s.sessions[i];
      var k := s.geometry.Offset(me.op.address) + |me.seen|;
      && k < |s.cells|
      && SightsOk(m, s.stores, me.op.address, Moment(s.log, me.after), me.seen + [Sight(s.cells[k], |s.stores|)])
  {
    var me := s.sessions[i];
    assert SessionOk(m, s, i, me);
    OffsetExact(s, me.op.address, Width(me.op));
    LoggedPrefix(s.log, me.after);
    CellSeen(m, s, me.op.address + |me.seen|);
    var sight := Sight(Patched(m, s.stores)[me.op.address + |me.seen|], |s.stores|);
    SightsAppend(m, s.stores, me.op.address, Moment(s.log, me.after), me.seen, sight);
  }

  lemma PeekMoves<T(!new)>(m: map<int, T>, s: System<T>, i: nat)
    requires Inv(m, s) && i in s.sessions && s.sessions[i].Looking? && |s.sessions[i].seen| < Width(s.sessions[i].op)
    ensures var s' := DoPeek(s, i);
      s' == s.(sessions := s.sessions[i := s'.sessions[i]]) && SessionOk(m, s', i, s'.sessions[i])
  {
    PeekSees(m, s, i);
    var me, s' := s.sessions[i], DoPeek(s, i);
    var k := s.geometry.Offset(me.op.address) + |me.seen|;
    assert s'.sessions[i] == Looking(me.op, me.after, me.seen + [Sight(s.cells[k], |s.stores|)], me.rest);
    assert SessionOk(m, s, i, me);
  }

  lemma PeekKeeps<T(!new)>(m: map<int, T>, s: System<T>, i: nat)
    requires Inv(m, s) && i in s.sessions
    ensures Inv(m, DoPeek(s, i))
  {
    if s.sessions[i].Looking? && |s.sessions[i].seen| < Width(s.sessions[i].op) {
      PeekMoves(m, s, i);
      MoveKeeps(m, s, DoPeek(s, i), i);
    }
  }

  /** A cell of the vector is what the stores so far have left at its address. */
  lemma CellSeen<T(!new)>(m: map<int, T>, s: System<T>, x: int)
    requires View(s) == Patched(m, s.stores) && s.geometry.start <= x < s.geometry.start + |s.cells|
    ensures x in m && s.cells[x - s.geometry.start] == Patched(m, s.stores)[x]
  {
    assert x in View(s);
  }

  /** Reading the next cell of a window now. */
  lemma SightsAppend<T(!new)>(m: map<int, T>, h: seq<CellStore<T>>, a: int, since: nat, seen: seq<Sight<T>>, sight: Sight<T>)
    requires SightsOk(m, h, a, since, seen) && since <= |h| && sight.at == |h|
    requires a + |seen| in m && sight.value == Patched(m, h)[a + |seen|]
    ensures SightsOk(m, h, a, since, seen + [sight])
  {
    assert h[..|h|] == h;
    forall d | 0 <= d < |seen| + 1 ensures SightOk(m, h, a + d, since, (seen + [sight])[d]) {
      if d < |seen| { assert SightOk(m, h, a + d, since, seen[d]); }
    }
    forall c, d | 0 <= c < d < |seen| + 1 ensures (seen + [sight])[c].at <= (seen + [sight])[d].at {
      assert SightOk(m, h, a + c, since, seen[c]);
    }
  }

  lemma FinishKeeps<T(!new)>(m: map<int, T>, s: System<T>, i: nat)
    requires Inv(m, s) && i in s.sessions
    ensures Inv(m, DoFinish(s, i))
  {
    var s', me := DoFinish(s, i), s.sessions[i];
    assert SessionOk(m, s, i, me);
    if me.Looking? && me.op.Get? && |me.seen| >= Width(me.op) {
      LoggedAppend(s.log, Fetched(i, me.op, me.after, me.seen));
      assert s'.log[..me.after] == s.log[..me.after];
      StepKeeps(m, s, s', i);
    }
  }

  lemma EnterKeeps<T(!new)>(m: map<int, T>, s: System<T>, i: nat)
    requires Inv(m, s) && i in s.sessions
    ensures Inv(m, DoEnter(s, i))
  {
    var s', me := DoEnter(s, i), Armed(s.sessions[i]);
    if me.Writing? && s.holder.Nobody? {
      ArmedOk(m, s, i);
      assert StoresOf(me.op.address, me.buffer[..0]) == [];
      assert StoresOk(s');
      StepKeeps(m, s, s', i);
    }
  }

  /** The session that takes the lock passes the check, and saw what the log had left. */
  lemma ArmedOk<T(!new)>(m: map<int, T>, s: System<T>, i: nat)
    requires StoresOk(s) && i in s.sessions && SessionOk(m, s, i, s.sessions[i])
    requires s.holder.Nobody? && Armed(s.sessions[i]).Writing?
    ensures SessionOk(m, s.(holder := By(i)), i, Armed(s.sessions[i]))
    ensures Armed(s.sessions[i]).done == 0
  {
    var me := s.sessions[i];
    if me.Ready? {
      assert ValidOp(s.geometry, me.ops[0]);
    } else {
      forall d | 0 <= d < |me.seen| ensures SightOk(m, s.stores, me.op.address + d, 0, me.seen[d]) {
        assert SightOk(m, s.stores, me.op.address + d, Moment(s.log, me.after), me.seen[d]);
      }
    }
  }

  lemma StoreOne<T(!new)>(start: int, cells: seq<T>, x: int, v: T)
    requires start <= x < start + |cells|
    ensures Cells(start, cells[x - start := v]) == Write(Cells(start, cells), x, [v])
  {
  }

  lemma StoresOfNext<T>(a: int, buffer: seq<T>, done: nat)
    requires done < |buffer|
    ensures StoresOf(a, buffer[..done + 1]) == StoresOf(a, buffer[..done]) + [CellStore(a + done, buffer[done])]
  {
  }

  /** The cell and the history of stores change alike. */
  lemma CellStored<T(!new)>(m: map<int, T>, s: System<T>, s': System<T>, x: int, v: T)
    requires View(s) == Patched(m, s.stores) && s.geometry.start <= x < s.geometry.start + |s.cells|
    requires s'.geometry == s.geometry && s'.cells == s.cells[x - s.geometry.start := v]
    requires s'.stores == s.stores + [CellStore(x, v)]
    ensures View(s') == Patched(m, s'.stores)
  {
    StoreOne(s.geometry.start, s.cells, x, v);
    PatchedAppend(m, s.stores, CellStore(x, v));
  }

  /** The writing session and the history of stores move on together. */
  lemma PrefixStored<T(!new)>(m: map<int, T>, s: System<T>, s': System<T>, i: nat)
    requires StoresOk(s) && i in s.sessions && SessionOk(m, s, i, s.sessions[i])
    requires s.sessions[i].Writing? && s.sessions[i].done < |s.sessions[i].buffer|
    requires var me := s.sessions[i];
      && i in s'.sessions && s'.sessions[i] == me.(done := me.done + 1)
      && s'.geometry == s.geometry && s'.holder == s.holder && s'.log == s.log
      && s'.stores == s.stores + [CellStore(me.op.address + me.done, me.buffer[me.done])]
    ensures StoresOk(s') && SessionOk(m, s', i, s'.sessions[i])
  {
    var me := s.sessions[i];
    StoresOfNext(me.op.address, me.buffer, me.done);
  }

  /** The cell lies in the vector, at the address the session means. */
  lemma StoreCellHits<T(!new)>(m: map<int, T>, s: System<T>, i: nat)
    requires Inv(m, s) && i in s.sessions && s.sessions[i].Writing? && s.sessions[i].done < |s.sessions[i].buffer|
    ensures var me, s' := s.sessions[i], DoStoreCell(s, i);
      && me.op.address + me.done - s.geometry.start == s.geometry.Offset(me.op.address) + me.done < |s.cells|
      && s'.sessions[i] == me.(done := me.done + 1)
      && View(s') == Patched(m, s'.stores)
  {
    var me := s.sessions[i];
    assert SessionOk(m, s, i, me);
    OffsetExact(s, me.op.address, |me.buffer|);
    CellStored(m, s, DoStoreCell(s, i), me.op.address + me.done, me.buffer[me.done]);
  }

  lemma StoreCellKeeps<T(!new)>(m: map<int, T>, s: System<T>, i: nat)
    requires Inv(m, s) && i in s.sessions
    ensures Inv(m, DoStoreCell(s, i))
  {
    var s', me := DoStoreCell(s, i), s.sessions[i];
    assert SessionOk(m, s, i, me);
    if me.Writing? && me.done < |me.buffer| {
      StoreCellHits(m, s, i);
      PrefixStored(m, s, s', i);
      assert Grows(s, s', i);
      SessionsUpdated(m, s, s', i);
      LogUpdated(m, s, s');
    }
  }

  lemma LeaveKeeps<T(!new)>(m: map<int, T>, s: System<T>, i: nat)
    requires Inv(m, s) && i in s.sessions
    ensures Inv(m, DoLeave(s, i))
  {
    var s', me := DoLeave(s, i), s.sessions[i];
    assert SessionOk(m, s, i, me);
    if me.Writing? && me.done >= |me.buffer| {
      assert me.buffer[..me.done] == me.buffer;
      LoggedAppend(s.log, Stored(i, me.op, me.buffer, me.seen));
      assert s'.log[..|s.log|] == s.log;
      StepKeeps(m, s, s', i);
    }
  }

  lemma DoKeeps<T(!new)>(m: map<int, T>, s: System<T>, step: Step<T>)
    requires Inv(m, s)
    ensures Inv(m, Do(s, step))
  {
    if step.i in s.sessions {
      match step {
        case Begin(i, ops) => BeginKeeps(m, s, i, ops);
        case Look(i) => LookKeeps(m, s, i);
        case Peek(i) => PeekKeeps(m, s, i);
        case Finish(i) => FinishKeeps(m, s, i);
        case Enter(i) => EnterKeeps(m, s, i);
        case StoreCell(i) => StoreCellKeeps(m, s, i);
        case Leave(i) => LeaveKeeps(m, s, i);
      }
    }
  }

  /** No step changes the geometry, forgets a store or forgets an event. */
  lemma DoGrows<T(!new)>(s: System<T>, step: Step<T>)
    ensures Do(s, step).geometry == s.geometry && s.stores <= Do(s, step).stores && s.log <= Do(s, step).log
  {
  }

  lemma {:induction false} ExecKeeps<T(!new)>(s: System<T>, steps: seq<Step<T>>)
    requires Initial(s)
    ensures Inv(View(s), Exec(s, steps)) && Exec(s, steps).geometry == s.geometry
  {
    if |steps| > 0 {
      ExecKeeps(s, steps[..|steps| - 1]);
      DoKeeps(View(s), Exec(s, steps[..|steps| - 1]), steps[|steps| - 1]);
      DoGrows(Exec(s, steps[..|steps| - 1]), steps[|steps| - 1]);
    }
  }

  lemma NobodyFaults<T(!new)>(s: System<T>, steps: seq<Step<T>>, i: nat)
    requires Initial(s)
    ensures i in Exec(s, steps).sessions ==> !Exec(s, steps).sessions[i].Faulted?
  {
    ExecKeeps(s, steps);
    var now := Exec(s, steps);
    if i in now.sessions { assert SessionOk(View(s), now, i, now.sessions[i]); }
  }

  /** The operations of session `i` in the log, in order. */
  function DoneBy<T>(log: seq<Event<T>>, i: nat): seq<Op<T>> {
    if |log| == 0 then []
    else
      var e := log[|log| - 1];
      DoneBy(log[..|log| - 1], i) + (if e.session == i then [e.op] else [])
  }

  /** The operations a session still has to complete. */
  function Pending<T>(me: Session<T>): seq<Op<T>> {
    match me
    case Ready(ops) => ops
    case Looking(op, _, _, rest) => [op] + rest
    case Writing(op, _, _, _, rest) => [op] + rest
    case _ => []
  }

  /** Completed and pending operations of session `i` together are all it began, in order. */
  ghost predicate OrderAt<T(!new)>(s: System<T>, i: nat)
    requires i in s.sessions && i in s.begun
  {
    s.begun[i] == DoneBy(s.log, i) + Pending(s.sessions[i])
  }

  ghost predicate ProgramOrder<T(!new)>(s: System<T>) {
    && s.sessions.Keys == s.begun.Keys
    && forall i :: i in s.sessions ==> OrderAt(s, i)
  }

  lemma DoneAppend<T(!new)>(log: seq<Event<T>>, e: Event<T>, i: nat)
    ensures DoneBy(log + [e], i) == DoneBy(log, i) + if e.session == i then [e.op] else []
  {
    assert (log + [e])[..|log|] == log;
  }

  lemma HeadTail<X>(xs: seq<X>)
    requires |xs| > 0
    ensures [xs[0]] + xs[1..] == xs
  {
  }

  lemma PendingResumed<T>(rest: seq<Op<T>>)
    ensures Pending(Resume(rest)) == rest
  {
  }

  lemma BeginKeepsOrder<T(!new)>(s: System<T>, i: nat, ops: seq<Op<T>>)
    requires ProgramOrder(s) && i in s.sessions
    ensures ProgramOrder(DoBegin(s, i, ops))
  {
    var s' := DoBegin(s, i, ops);
    forall j | j in s'.sessions ensures OrderAt(s', j) {
      assert OrderAt(s, j);
    }
  }

  /** A session moves on within an operation. */
  lemma MoveKeepsOrder<T(!new)>(s: System<T>, s': System<T>, i: nat)
    requires ProgramOrder(s) && i in s.sessions && i in s'.sessions
    requires s'.log == s.log && s'.begun == s.begun && s'.sessions == s.sessions[i := s'.sessions[i]]
    requires Pending(s'.sessions[i]) == Pending(s.sessions[i])
    ensures ProgramOrder(s')
  {
    forall j | j in s'.sessions ensures OrderAt(s', j) {
      assert OrderAt(s, j);
    }
  }

  lemma Regroup<X>(a: seq<X>, b: seq<X>, c: seq<X>)
    ensures a + b + c == a + (b + c) && (b == [] ==> b + c == c)
  {
  }

  /** A session completes its first pending operation. */
  lemma CompleteKeepsOrder<T(!new)>(s: System<T>, s': System<T>, i: nat, e: Event<T>)
    requires ProgramOrder(s) && i in s.sessions && i in s'.sessions
    requires s'.log == s.log + [e] && s'.begun == s.begun && s'.sessions == s.sessions[i := s'.sessions[i]]
    requires e.session == i && Pending(s.sessions[i]) == [e.op] + Pending(s'.sessions[i])
    ensures ProgramOrder(s')
  {
    forall j | j in s'.sessions ensures OrderAt(s', j) {
      assert OrderAt(s, j);
      DoneAppend(s.log, e, j);
      Regroup(DoneBy(s.log, j), if e.session == j then [e.op] else [], Pending(s'.sessions[j]));
    }
  }

  /** Looking, peeking, entering and storing complete nothing. */
  lemma MovesKeepOrder<T(!new)>(s: System<T>, step: Step<T>)
    requires ProgramOrder(s) && step.i in s.sessions && !Do(s, step).sessions[step.i].Faulted?
    requires step.Look? || step.Peek? || step.Enter? || step.StoreCell?
    ensures ProgramOrder(Do(s, step))
  {
    var i, s' := step.i, Do(s, step);
    if s.sessions[i].Ready? && |s.sessions[i].ops| > 0 { HeadTail(s.sessions[i].ops); }
    assert s'.sessions == s.sessions[i := s'.sessions[i]];
    MoveKeepsOrder(s, s', i);
  }

  lemma FinishKeepsOrder<T(!new)>(s: System<T>, i: nat)
    requires ProgramOrder(s) && i in s.sessions
    ensures ProgramOrder(DoFinish(s, i))
  {
    var s', me := DoFinish(s, i), s.sessions[i];
    if me.Looking? && me.op.Get? && |me.seen| >= Width(me.op) {
      PendingResumed(me.rest);
      CompleteKeepsOrder(s, s', i, Fetched(i, me.op, me.after, me.seen));
    }
  }

  lemma LeaveKeepsOrder<T(!new)>(s: System<T>, i: nat)
    requires ProgramOrder(s) && i in s.sessions
    ensures ProgramOrder(DoLeave(s, i))
  {
    var s', me := DoLeave(s, i), s.sessions[i];
    if me.Writing? && me.done >= |me.buffer| {
      PendingResumed(me.rest);
      CompleteKeepsOrder(s, s', i, Stored(i, me.op, me.buffer, me.seen));
    }
  }

  lemma DoKeepsOrder<T(!new)>(s: System<T>, step: Step<T>)
    requires ProgramOrder(s)
    requires step.i in s.sessions ==> !Do(s, step).sessions[step.i].Faulted?
    ensures ProgramOrder(Do(s, step))
  {
    if step.i in s.sessions {
      match step {
        case Begin(i, ops) => BeginKeepsOrder(s, i, ops);
        case Finish(i) => FinishKeepsOrder(s, i);
        case Leave(i) => LeaveKeepsOrder(s, i);
        case _ => MovesKeepOrder(s, step);
      }
    }
  }

  lemma {:induction false} ExecKeepsOrder<T(!new)>(s: System<T>, steps: seq<Step<T>>)
    requires Initial(s)
    ensures ProgramOrder(Exec(s, steps))
  {
    if |steps| > 0 {
      var s1, step := Exec(s, steps[..|steps| - 1]), steps[|steps| - 1];
      ExecKeepsOrder(s, steps[..|steps| - 1]);
      NobodyFaults(s, steps, step.i);
      DoKeepsOrder(s1, step);
    }
  }
}
