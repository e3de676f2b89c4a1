/** What sessions that share one block can rely on, and exactly when they cannot. */
module Concurrency {
  import opened DataTable
  import opened Sessions

  lemma WriteNext<T(!new)>(m: map<int, T>, a: int, buffer: seq<T>, v: T)
    ensures Write(Write(m, a, buffer), a + |buffer|, [v]) == Write(m, a, buffer + [v])
  {
  }

  lemma LastStore<T>(h: seq<CellStore<T>>, a: int, buffer: seq<T>, v: T)
    ensures h + StoresOf(a, buffer + [v]) == (h + StoresOf(a, buffer)) + [CellStore(a + |buffer|, v)]
  {
  }

  /** Storing cell after cell is storing the buffer. */
  lemma {:induction false} PatchedWrites<T(!new)>(m: map<int, T>, h: seq<CellStore<T>>, a: int, buffer: seq<T>)
    ensures Patched(m, h + StoresOf(a, buffer)) == Write(Patched(m, h), a, buffer)
  {
    if buffer == [] {
      assert h + StoresOf(a, buffer) == h;
      assert Write(Patched(m, h), a, buffer) == Patched(m, h);
    } else {
      var init, v := buffer[..|buffer| - 1], buffer[|buffer| - 1];
      PatchedWrites(m, h, a, init);
      LastStore(h, a, init, v);
      PatchedAppend(m, h + StoresOf(a, init), CellStore(a + |init|, v));
      WriteNext(Patched(m, h), a, init, v);
      assert init + [v] == buffer;
    }
  }

  lemma {:induction false} ReplayIsPatched<T(!new)>(m: map<int, T>, log: seq<Event<T>>)
    ensures Replay(m, log) == Patched(m, LoggedStores(log))
  {
    if |log| > 0 {
      var init, e := log[..|log| - 1], log[|log| - 1];
      ReplayIsPatched(m, init);
      if e.Stored? {
        PatchedWrites(m, LoggedStores(init), e.op.address, e.buffer);
      } else {
        assert LoggedStores(init) + [] == LoggedStores(init);
      }
    }
  }

  /** Locked writes are linearizable. After any steps of any number of sessions, whenever
      the lock is free the block is what the completed `set`s leave in lock order, and while
      a session holds the lock, that plus a prefix of the buffer it is storing. What was
      stored is what the session wanted to store, and each session's operations stand in
      the log in the order it began them, none lost and none twice. */
  lemma Linearizable<T(!new)>(s: System<T>, steps: seq<Step<T>>)
    requires Initial(s)
    ensures var m, now := View(s), Exec(s, steps);
      && (now.holder.Nobody? ==> View(now) == Replay(m, now.log))
      && (now.holder.By? ==>
            && now.holder.session in now.sessions && now.sessions[now.holder.session].Writing?
            && var w := now.sessions[now.holder.session];
               w.done <= |w.buffer| && View(now) == Write(Replay(m, now.log), w.op.address, w.buffer[..w.done]))
      && (forall k: nat :: k < |now.log| && now.log[k].Stored? ==>
            BufferOk(now.log[k].op, now.log[k].buffer, now.log[k].seen))
      && (forall i :: i in now.sessions ==> i in now.begun && OrderAt(now, i))
  {
    var m, now := View(s), Exec(s, steps);
    ExecKeeps(s, steps);
    ExecKeepsOrder(s, steps);
    ReplayIsPatched(m, now.log);
    if now.holder.By? {
      var w := now.sessions[now.holder.session];
      PatchedWrites(m, LoggedStores(now.log), w.op.address, w.buffer[..w.done]);
    }
    forall k: nat | k < |now.log| && now.log[k].Stored?
      ensures BufferOk(now.log[k].op, now.log[k].buffer, now.log[k].seen)
    {
      assert EventOk(m, now, k);
    }
  }

  /** Check-then-act: start, capacity and length of the vector never change, so nothing that
      `execute` accepted throws or leaves the vector in `encode`, whatever the others do. */
  lemma NoSessionFaults<T(!new)>(s: System<T>, steps: seq<Step<T>>, i: nat)
    requires Initial(s)
    ensures var now := Exec(s, steps);
      && |now.cells| == |s.cells| && now.geometry == s.geometry
      && (i in now.sessions ==> !now.sessions[i].Faulted?)
  {
    ExecKeeps(s, steps);
    NobodyFaults(s, steps, i);
  }

  /** Mutual exclusion: at most one session writes, and it holds the lock. */
  lemma OneWriter<T(!new)>(s: System<T>, steps: seq<Step<T>>, now: System<T>, i: nat, j: nat)
    requires Initial(s) && now == Exec(s, steps) && i in now.sessions && j in now.sessions
    requires now.sessions[i].Writing? && now.sessions[j].Writing?
    ensures i == j && now.holder == By(i)
  {
    ExecKeeps(s, steps);
    assert SessionOk(View(s), now, i, now.sessions[i]) && SessionOk(View(s), now, j, now.sessions[j]);
  }

  /** `get` checks its window at a moment at which the block is whole: what the completed
      `set`s have left, and nothing of any other. */
  lemma LooksAtWhole<T(!new)>(s: System<T>, steps: seq<Step<T>>, now: System<T>, i: nat)
    requires Initial(s) && now == Exec(s, steps) && i in now.sessions
    requires !now.sessions[i].Looking? && Do(now, Look(i)).sessions[i].Looking?
    ensures View(now) == Replay(View(s), now.log) && Do(now, Look(i)).sessions[i].after == |now.log|
  {
    Linearizable(s, steps);
  }

  /** The history only grows, and its prefixes are the block as it was. */
  lemma {:induction false} BlockThen<T(!new)>(s: System<T>, steps: seq<Step<T>>, n: nat)
    requires Initial(s) && n <= |steps|
    ensures var past, now := Exec(s, steps[..n]), Exec(s, steps);
      && past.stores <= now.stores && past.log <= now.log
      && View(past) == Patched(View(s), now.stores[..|past.stores|])
  {
    var past, now := Exec(s, steps[..n]), Exec(s, steps);
    if n == |steps| {
      assert steps[..n] == steps;
      assert now.stores[..|now.stores|] == now.stores;
    } else {
      var init := steps[..|steps| - 1];
      assert init[..n] == steps[..n];
      BlockThen(s, init, n);
      DoGrows(Exec(s, init), steps[|steps| - 1]);
      assert now.stores[..|past.stores|] == past.stores;
    }
    ExecKeeps(s, steps[..n]);
  }

  /** Nothing is stored at `x` from the i-th store up to the j-th. */
  ghost predicate Quiet<T(!new)>(h: seq<CellStore<T>>, x: int, i: int, j: int) {
    forall t :: 0 <= t < |h| && i <= t < j ==> h[t].address != x
  }

  /** Every value stored at `x` is new there, so that no two stores look the same. */
  ghost predicate Telling<T(!new)>(m: map<int, T>, h: seq<CellStore<T>>, x: int)
    requires x in m
  {
    && (forall j :: 0 <= j < |h| && h[j].address == x ==> h[j].value != m[x])
    && (forall i, j :: 0 <= i < j < |h| && h[i].address == x && h[j].address == x ==> h[i].value != h[j].value)
  }

  ghost predicate WindowTelling<T(!new)>(m: map<int, T>, h: seq<CellStore<T>>, a: int, n: nat) {
    forall x :: a <= x < a + n ==> x in m && Telling(m, h, x)
  }

  /** The store a cell's value comes from; none, if it is still the initial value. */
  lemma {:induction false} Origin<T(!new)>(m: map<int, T>, h: seq<CellStore<T>>, x: int, j: nat) returns (t: int)
    requires x in m && j <= |h|
    ensures -1 <= t < j && Quiet(h, x, t + 1, j) && (t >= 0 ==> h[t].address == x)
    ensures Patched(m, h[..j])[x] == if t >= 0 then h[t].value else m[x]
  {
    if j == 0 {
      t := -1;
    } else {
      assert h[..j][..j - 1] == h[..j - 1];
      if h[j - 1].address == x {
        t := j - 1;
      } else {
        t := Origin(m, h, x, j - 1);
      }
    }
  }

  /** Between two moments a cell keeps its value if nothing is stored in it; when stores
      can be told apart, only then. */
  lemma CellExactly<T(!new)>(m: map<int, T>, h: seq<CellStore<T>>, x: int, i: nat, j: nat)
    requires x in m && i <= j <= |h|
    ensures Quiet(h, x, i, j) ==> Patched(m, h[..i])[x] == Patched(m, h[..j])[x]
    ensures Telling(m, h, x) && !Quiet(h, x, i, j) ==> Patched(m, h[..i])[x] != Patched(m, h[..j])[x]
  {
    var u := Origin(m, h, x, i);
    var t := Origin(m, h, x, j);
    if Quiet(h, x, i, j) {
      assert t == u;
    } else {
      assert t >= i;
    }
  }

  /** The values of a window as they were read. */
  function Values<T>(seen: seq<Sight<T>>): seq<T> {
    seq(|seen|, d requires 0 <= d < |seen| => seen[d].value)
  }

  /** No store hits a cell of the window between its reading and moment `at`. */
  ghost predicate Undisturbed<T(!new)>(h: seq<CellStore<T>>, a: int, seen: seq<Sight<T>>, at: nat) {
    forall d :: 0 <= d < |seen| ==> Untouched(h, a + d, seen[d].at, at)
  }

  ghost predicate Untouched<T(!new)>(h: seq<CellStore<T>>, x: int, i: nat, j: nat) {
    Quiet(h, x, if i < j then i else j, if i < j then j else i)
  }

  lemma UntouchedExactly<T(!new)>(m: map<int, T>, h: seq<CellStore<T>>, x: int, i: nat, j: nat)
    requires x in m && i <= |h| && j <= |h|
    ensures Untouched(h, x, i, j) ==> Patched(m, h[..i])[x] == Patched(m, h[..j])[x]
    ensures Telling(m, h, x) ==> (Patched(m, h[..i])[x] == Patched(m, h[..j])[x] <==> Untouched(h, x, i, j))
  {
    CellExactly(m, h, x, if i < j then i else j, if i < j then j else i);
  }

  /** What was read is the window as the first `l` completed operations leave it. */
  ghost predicate Snapshot<T(!new)>(m: map<int, T>, log: seq<Event<T>>, a: int, seen: seq<Sight<T>>, l: nat)
    requires l <= |log|
  {
    Window(Replay(m, log[..l]), a, |seen|) && Values(seen) == Read(Replay(m, log[..l]), a, |seen|)
  }

  /** The block after the first `l` completed operations is a moment of the history. */
  lemma ReplayMoment<T(!new)>(m: map<int, T>, s: System<T>, l: nat)
    requires StoresOk(s) && l <= |s.log|
    ensures Moment(s.log, l) <= |s.stores|
    ensures Replay(m, s.log[..l]) == Patched(m, s.stores[..Moment(s.log, l)])
  {
    ReplayIsPatched(m, s.log[..l]);
    LoggedPrefix(s.log, l);
    assert s.stores[..Moment(s.log, l)] == LoggedStores(s.log[..l]);
  }

  /** Cell by cell: what was seen against what a moment left. */
  lemma SightAgainst<T(!new)>(m: map<int, T>, s: System<T>, x: int, since: nat, sight: Sight<T>, l: nat)
    requires StoresOk(s) && l <= |s.log| && SightOk(m, s.stores, x, since, sight)
    ensures x in Replay(m, s.log[..l])
    ensures Untouched(s.stores, x, sight.at, Moment(s.log, l)) ==> sight.value == Replay(m, s.log[..l])[x]
    ensures Telling(m, s.stores, x) ==>
      (sight.value == Replay(m, s.log[..l])[x] <==> Untouched(s.stores, x, sight.at, Moment(s.log, l)))
  {
    ReplayMoment(m, s, l);
    UntouchedExactly(m, s.stores, x, sight.at, Moment(s.log, l));
  }

  lemma SnapshotByCell<T(!new)>(m: map<int, T>, log: seq<Event<T>>, a: int, seen: seq<Sight<T>>, l: nat)
    requires l <= |log| && Window(Replay(m, log[..l]), a, |seen|)
    ensures Snapshot(m, log, a, seen, l) <==>
      forall d :: 0 <= d < |seen| ==> seen[d].value == Replay(m, log[..l])[a + d]
  {
    var r := Replay(m, log[..l]);
    if Values(seen) == Read(r, a, |seen|) {
      forall d | 0 <= d < |seen| ensures seen[d].value == r[a + d] {
        assert Values(seen)[d] == Read(r, a, |seen|)[d];
      }
    }
  }

  lemma SnapshotOfSights<T(!new)>(m: map<int, T>, s: System<T>, a: int, since: nat, seen: seq<Sight<T>>, l: nat)
    requires StoresOk(s) && l <= |s.log| && SightsOk(m, s.stores, a, since, seen)
    ensures Undisturbed(s.stores, a, seen, Moment(s.log, l)) ==> Snapshot(m, s.log, a, seen, l)
    ensures WindowTelling(m, s.stores, a, |seen|) ==>
      (Snapshot(m, s.log, a, seen, l) <==> Undisturbed(s.stores, a, seen, Moment(s.log, l)))
  {
    var r, at := Replay(m, s.log[..l]), Moment(s.log, l);
    forall x | a <= x < a + |seen| ensures x in r {
      assert SightOk(m, s.stores, a + (x - a), since, seen[x - a]);
    }
    forall d | 0 <= d < |seen|
      ensures Untouched(s.stores, a + d, seen[d].at, at) ==> seen[d].value == r[a + d]
      ensures WindowTelling(m, s.stores, a, |seen|) && seen[d].value == r[a + d] ==>
        Untouched(s.stores, a + d, seen[d].at, at)
    {
      assert SightOk(m, s.stores, a + d, since, seen[d]);
      SightAgainst(m, s, a + d, since, seen[d], l);
    }
    SnapshotByCell(m, s.log, a, seen, l);
  }

  /** Every cell of a completed `get` was read after the lock was given back, cells in
      order, each as the block had it at that moment. */
  lemma CellsRead<T(!new)>(s: System<T>, steps: seq<Step<T>>, now: System<T>, k: nat, d: nat)
    requires Initial(s) && now == Exec(s, steps)
    requires k < |now.log| && now.log[k].Fetched? && d < |now.log[k].seen|
    ensures var e := now.log[k];
      && e.op.Get? && |e.seen| == e.op.count && e.after <= k
      && Moment(now.log, e.after) <= e.seen[d].at <= |now.stores|
      && (d > 0 ==> e.seen[d - 1].at <= e.seen[d].at)
      && e.op.address + d in View(s)
      && e.seen[d].value == Patched(View(s), now.stores[..e.seen[d].at])[e.op.address + d]
  {
    ExecKeeps(s, steps);
    CellsReadAt(View(s), now, k, d);
  }

  lemma CellsReadAt<T(!new)>(m: map<int, T>, s: System<T>, k: nat, d: nat)
    requires LogOk(m, s) && k < |s.log| && s.log[k].Fetched? && d < |s.log[k].seen|
    ensures var e := s.log[k];
      && e.op.Get? && |e.seen| == e.op.count && e.after <= k
      && Moment(s.log, e.after) <= e.seen[d].at <= |s.stores|
      && (d > 0 ==> e.seen[d - 1].at <= e.seen[d].at)
      && e.op.address + d in m
      && e.seen[d].value == Patched(m, s.stores[..e.seen[d].at])[e.op.address + d]
  {
    var e := s.log[k];
    assert EventOk(m, s, k);
    assert SightOk(m, s.stores, e.op.address + d, Moment(s.log, e.after), e.seen[d]);
  }

  /** A completed `get` is the window as the first `l` operations in lock order leave it if
      no store hits a cell of it between that moment and the reading of the cell; and when
      stores can be told apart by their values, only then. With `l` = `after`, the moment
      is the one at which `get` held the lock. */
  lemma SnapshotExactly<T(!new)>(s: System<T>, steps: seq<Step<T>>, now: System<T>, k: nat, l: nat)
    requires Initial(s) && now == Exec(s, steps)
    requires k < |now.log| && now.log[k].Fetched? && l <= |now.log|
    ensures var m, e := View(s), now.log[k];
      && (Undisturbed(now.stores, e.op.address, e.seen, Moment(now.log, l)) ==>
            Snapshot(m, now.log, e.op.address, e.seen, l))
      && (WindowTelling(m, now.stores, e.op.address, |e.seen|) ==>
            (Snapshot(m, now.log, e.op.address, e.seen, l) <==>
             Undisturbed(now.stores, e.op.address, e.seen, Moment(now.log, l))))
  {
    ExecKeeps(s, steps);
    assert EventOk(View(s), now, k);
    SnapshotOfSights(View(s), now, now.log[k].op.address, Moment(now.log, now.log[k].after), now.log[k].seen, l);
  }

  /** The same cells stored in the same order, whatever the values. */
  ghost predicate SameShape<T(!new)>(h: seq<CellStore<T>>, g: seq<CellStore<T>>) {
    |h| == |g| && forall t :: 0 <= t < |h| ==> h[t].address == g[t].address
  }

  /** Read at the moments of these sights, the window is what it is at moment `at`. */
  ghost predicate ReadsAlike<T(!new)>(m: map<int, T>, h: seq<CellStore<T>>, a: int, seen: seq<Sight<T>>, at: nat)
    requires at <= |h| && Window(m, a, |seen|) && forall d :: 0 <= d < |seen| ==> seen[d].at <= |h|
  {
    forall d :: 0 <= d < |seen| ==>
      a + d in m && Patched(m, h[..seen[d].at])[a + d] == Patched(m, h[..at])[a + d]
  }

  /** The values `u` before moment `mid` and `v` from then on. */
  function Relabelled<T>(h: seq<CellStore<T>>, mid: nat, u: T, v: T): seq<CellStore<T>> {
    seq(|h|, t requires 0 <= t < |h| => CellStore(h[t].address, if t < mid then u else v))
  }

  lemma RelabelledTells<T(!new)>(m: map<int, T>, h: seq<CellStore<T>>, x: int, i: nat, j: nat, u: T, v: T)
    requires x in m && m[x] == u && i <= j <= |h| && u != v && !Quiet(h, x, i, j)
    ensures var g := Relabelled(h, i, u, v); Patched(m, g[..i])[x] != Patched(m, g[..j])[x]
  {
    var g := Relabelled(h, i, u, v);
    var p := Origin(m, g, x, i);
    var q := Origin(m, g, x, j);
    var t :| 0 <= t < |h| && i <= t < j && h[t].address == x;
    assert g[t].address == x && q >= t;
  }

  lemma UndisturbedReadsAlike<T(!new)>(m: map<int, T>, h: seq<CellStore<T>>, g: seq<CellStore<T>>,
                                       a: int, seen: seq<Sight<T>>, at: nat)
    requires at <= |h| && forall d :: 0 <= d < |seen| ==> seen[d].at <= |h|
    requires Undisturbed(h, a, seen, at) && SameShape(h, g) && Window(m, a, |seen|)
    ensures ReadsAlike(m, g, a, seen, at)
  {
    forall d | 0 <= d < |seen|
      ensures a + d in m && Patched(m, g[..seen[d].at])[a + d] == Patched(m, g[..at])[a + d]
    {
      assert Untouched(h, a + d, seen[d].at, at);
      UntouchedExactly(m, g, a + d, seen[d].at, at);
    }
  }

  lemma DisturbedReadsOtherwise<T(!new)>(h: seq<CellStore<T>>, a: int, seen: seq<Sight<T>>, at: nat, d: nat, u: T, v: T)
    returns (m: map<int, T>, g: seq<CellStore<T>>)
    requires u != v && at <= |h| && forall c :: 0 <= c < |seen| ==> seen[c].at <= |h|
    requires d < |seen| && !Untouched(h, a + d, seen[d].at, at)
    ensures SameShape(h, g) && Window(m, a, |seen|) && !ReadsAlike(m, g, a, seen, at)
  {
    var cells := seq(|seen|, _ => u);
    m := Cells(a, cells);
    WindowOfCells(a, cells);
    assert m[a + d] == cells[d];
    g := DisturbedCell(m, h, a + d, seen[d].at, at, u, v);
  }

  lemma DisturbedCell<T(!new)>(m: map<int, T>, h: seq<CellStore<T>>, x: int, i: nat, j: nat, u: T, v: T)
    returns (g: seq<CellStore<T>>)
    requires x in m && m[x] == u && u != v && i <= |h| && j <= |h| && !Untouched(h, x, i, j)
    ensures SameShape(h, g) && Patched(m, g[..i])[x] != Patched(m, g[..j])[x]
  {
    if i < j {
      g := Relabelled(h, i, u, v);
      RelabelledTells(m, h, x, i, j, u, v);
    } else {
      g := Relabelled(h, j, u, v);
      RelabelledTells(m, h, x, j, i, u, v);
    }
  }

  lemma WindowOfCells<T(!new)>(a: int, cells: seq<T>)
    ensures Window(Cells(a, cells), a, |cells|)
  {
  }

  /** A schedule of stores and looks reads the window of one moment whatever values are
      stored, if and only if no store hits a cell between that moment and its reading. */
  lemma UndisturbedForAllValues<T(!new)>(h: seq<CellStore<T>>, a: int, seen: seq<Sight<T>>, at: nat, u: T, v: T)
    requires u != v && at <= |h| && forall d :: 0 <= d < |seen| ==> seen[d].at <= |h|
    ensures (forall m: map<int, T>, g: seq<CellStore<T>> ::
               SameShape(h, g) && Window(m, a, |seen|) ==> ReadsAlike(m, g, a, seen, at))
      <==> Undisturbed(h, a, seen, at)
  {
    if Undisturbed(h, a, seen, at) {
      forall m: map<int, T>, g: seq<CellStore<T>> | SameShape(h, g) && Window(m, a, |seen|)
        ensures ReadsAlike(m, g, a, seen, at)
      {
        UndisturbedReadsAlike(m, h, g, a, seen, at);
      }
    } else {
      var d :| 0 <= d < |seen| && !Untouched(h, a + d, seen[d].at, at);
      var m, g := DisturbedReadsOtherwise(h, a, seen, at, d, u, v);
    }
  }

  /** What an operation does to the block when nothing comes in between. */
  ghost function Outcome<T(!new)>(m: map<int, T>, op: Op<T>): map<int, T> {
    match op
    case Set(a, b) => Write(m, a, b)
    case Get(_, _) => m
    case Update(a, f) => if a as int in m then m[a as int := f(m[a])] else m
  }

  /** The k-th completed operation did what it does when nothing comes in between its get
      and its set. */
  ghost predicate AsOne<T(!new)>(m: map<int, T>, log: seq<Event<T>>, k: nat)
    requires k < |log|
  {
    Replay(m, log[..k + 1]) == Outcome(Replay(m, log[..k]), log[k].op)
  }

  /** An update acts as one step at the moment it holds the lock if and only if what it
      makes of the cell it saw is what it makes of the cell then. So it does if no store
      hits the cell in between, and when stores can be told apart only then has the cell the
      value it saw. */
  lemma UpdateExactly<T(!new)>(s: System<T>, steps: seq<Step<T>>, now: System<T>, k: nat)
    requires Initial(s) && now == Exec(s, steps)
    requires k < |now.log| && now.log[k].Stored? && now.log[k].op.Update?
    ensures var m, e, before := View(s), now.log[k], Replay(View(s), now.log[..k]);
      var a, f := e.op.address, e.op.change;
      && |e.seen| == 1 && a in m && e.seen[0].at <= Moment(now.log, k)
      && Replay(m, now.log[..k + 1]) == before[a as int := f(e.seen[0].value)]
      && (AsOne(m, now.log, k) <==> f(e.seen[0].value) == f(before[a]))
      && (Quiet(now.stores, a, e.seen[0].at, Moment(now.log, k)) ==> e.seen[0].value == before[a])
      && (Telling(m, now.stores, a) ==>
            (e.seen[0].value == before[a] <==> Quiet(now.stores, a, e.seen[0].at, Moment(now.log, k))))
  {
    ExecKeeps(s, steps);
    assert EventOk(View(s), now, k);
    UpdateSaw(View(s), now, k);
    ReplayUpdate(View(s), now.log, k);
  }

  /** The cell an update saw against the cell when it holds the lock. */
  lemma UpdateSaw<T(!new)>(m: map<int, T>, s: System<T>, k: nat)
    requires StoresOk(s) && k < |s.log| && EventOk(m, s, k) && s.log[k].Stored? && s.log[k].op.Update?
    ensures var e, before := s.log[k], Replay(m, s.log[..k]);
      && e.op.address as int in m && e.seen[0].at <= Moment(s.log, k)
      && (Quiet(s.stores, e.op.address, e.seen[0].at, Moment(s.log, k)) ==> e.seen[0].value == before[e.op.address])
      && (Telling(m, s.stores, e.op.address) ==>
            (e.seen[0].value == before[e.op.address] <==> Quiet(s.stores, e.op.address, e.seen[0].at, Moment(s.log, k))))
  {
    var e := s.log[k];
    assert SightOk(m, LoggedStores(s.log[..k]), e.op.address + 0, 0, e.seen[0]);
    ReplayMoment(m, s, k);
    ReplayIsPatched(m, s.log[..k]);
    LoggedPrefix(s.log, k);
    PatchedPrefix(m, LoggedStores(s.log[..k]), s.stores, e.seen[0].at);
    CellExactly(m, s.stores, e.op.address, e.seen[0].at, Moment(s.log, k));
  }

  lemma MapUpdatedAlike<T(!new)>(m: map<int, T>, a: int, v: T, w: T)
    requires a in m
    ensures m[a := v] == m[a := w] <==> v == w
  {
    assert m[a := v][a] == v && m[a := w][a] == w;
  }

  lemma ReplayUpdate<T(!new)>(m: map<int, T>, log: seq<Event<T>>, k: nat)
    requires k < |log| && log[k].Stored? && log[k].op.Update? && log[k].op.address as int in m
    requires BufferOk(log[k].op, log[k].buffer, log[k].seen)
    ensures var a, f, before := log[k].op.address, log[k].op.change, Replay(m, log[..k]);
      && Replay(m, log[..k + 1]) == before[a as int := f(log[k].seen[0].value)]
      && (AsOne(m, log, k) <==> f(log[k].seen[0].value) == f(before[a]))
  {
    var a, f, before := log[k].op.address, log[k].op.change, Replay(m, log[..k]);
    var v := f(log[k].seen[0].value);
    assert log[..k + 1][..k] == log[..k];
    assert Write(before, a, [v]) == before[a as int := v];
    MapUpdatedAlike(before, a, v, f(before[a]));
  }

  /** The block that whole operations make of `m`, in lock order. */
  ghost function Outcomes<T(!new)>(m: map<int, T>, log: seq<Event<T>>): map<int, T> {
    if |log| == 0 then m
    else
      var r, e := Outcomes(m, log[..|log| - 1]), log[|log| - 1];
      if e.Stored? then Outcome(r, e.op) else r
  }

  /** If every update acted as one step, the whole operations in lock order make the block. */
  lemma {:induction false} OutcomesReplay<T(!new)>(m: map<int, T>, log: seq<Event<T>>)
    requires forall k: nat :: k < |log| && log[k].Stored? ==> AsOne(m, log, k)
    ensures Outcomes(m, log) == Replay(m, log)
  {
    if |log| > 0 {
      var init, n := log[..|log| - 1], |log| - 1;
      forall k: nat | k < n && init[k].Stored? ensures AsOne(m, init, k) {
        assert AsOne(m, log, k) && init[..k] == log[..k] && init[..k + 1] == log[..k + 1];
      }
      OutcomesReplay(m, init);
      if log[n].Stored? {
        assert AsOne(m, log, n) && log[..n + 1] == log;
      }
    }
  }
}
