/** Incr, Decr and GetPut: lock the key, read, write, unlock. */
module Atomic {
  import opened Bytes
  import L = Locker

  type Thread = L.Thread
  type Name = L.Name

  /** A stored value: an integer, or anything else. */
  datatype Val = Int(n: int64) | Opaque(raw: seq<byte>)

  datatype Op = Incr(delta: int64) | Decr(delta: int64) | GetPut(value: Val)

  datatype Result = NewInt(n: int64) | Old(old_: Option<Val>) | Mismatch

  type Store = map<Name, Val>

  function Lookup(m: Store, n: Name): Option<Val> {
    if n in m then Some(m[n]) else None
  }

  /** 64-bit wrap-around. */
  function Wrap(x: int): (r: int64) {
    Signed(x % TWO_64)
  }

  /** `x` is `y` as 64 bits hold it: `y` itself if it is in range, and else the same modulo 2^64. */
  ghost predicate Holds(x: int, y: int) {
    && (x - y) % TWO_64 == 0
    && (-0x8000_0000_0000_0000 <= y < 0x8000_0000_0000_0000 ==> x == y)
  }

  lemma WrapHolds(y: int)
    ensures Holds(Wrap(y), y)
  {
  }

  /** A sum of sums: what is exact or wrapped stays so. */
  lemma HoldsAdd(x: int64, a: int, b: int, d: int)
    requires (a - b) % TWO_64 == 0 && (x - (a + d)) % TWO_64 == 0
    ensures Holds(x, b + d)
  {
    assert (x - (b + d)) == (x - (a + d)) + (a - b);
    AddMultiples(x - (a + d), a - b);
    InRange(x, b + d);
  }

  lemma AddMultiples(x: int, y: int)
    requires x % TWO_64 == 0 && y % TWO_64 == 0
    ensures (x + y) % TWO_64 == 0
  {
  }

  lemma InRange(x: int64, y: int)
    requires (x - y) % TWO_64 == 0
    ensures Holds(x, y)
  {
  }

  // ---------- the operations one after the other ----------

  /** New value and result of `op` on the value `cur`. */
  function Exec(op: Op, cur: Option<Val>): (r: (Option<Val>, Result)) {
    if op.GetPut? then (Some(op.value), Old(cur))
    else if cur.Some? && cur.value.Opaque? then (cur, Mismatch)
    else
      var n := if cur.None? then 0 else cur.value.n;
      var n' := if op.Incr? then Wrap(n + op.delta) else Wrap(n - op.delta);
      (Some(Int(n')), NewInt(n'))
  }

  datatype Commit = Commit(name: Name, op: Op, result: Result)

  function Written(m: Store, n: Name, v: Option<Val>): Store {
    if v == None then m else m[n := v.value]
  }

  /** The store after executing the operations of `log` in order, each on what the one before it left. */
  function Replay(init: Store, log: seq<Commit>): (m: Store) {
    if log == [] then init else
      var m := Replay(init, log[..|log| - 1]);
      var c := log[|log| - 1];
      Written(m, c.name, Exec(c.op, Lookup(m, c.name)).0)
  }

  /** Every result in `log` is what that sequential execution returns. */
  predicate Legal(init: Store, log: seq<Commit>) {
    log == [] ||
    var m := Replay(init, log[..|log| - 1]);
    var c := log[|log| - 1];
    Legal(init, log[..|log| - 1]) && c.result == Exec(c.op, Lookup(m, c.name)).1
  }

  /** What an operation is for, said without executing it: `c` takes the store from `before` to `after`. */
  ghost predicate Effect(before: Store, c: Commit, after: Store) {
    match c.op
    case GetPut(v) => after == before[c.name := v] && c.result == Old(Lookup(before, c.name))
    case Incr(d) => Adds(before, c, d, after)
    case Decr(d) => var delta: int := d; Adds(before, c, -delta, after)
  }

  /** A value that is no integer stays and the operation fails; otherwise the sum is stored and returned. */
  ghost predicate Adds(before: Store, c: Commit, d: int, after: Store) {
    if c.name in before && before[c.name].Opaque? then after == before && c.result == Mismatch
    else
      && c.result.NewInt?
      && after == before[c.name := Int(c.result.n)]
      && Holds(c.result.n, (if c.name in before then before[c.name].n else 0) + d)
  }

  lemma ExecEffect(m: Store, c: Commit)
    requires c.result == Exec(c.op, Lookup(m, c.name)).1
    ensures Effect(m, c, Written(m, c.name, Exec(c.op, Lookup(m, c.name)).0))
  {
    hide Wrap, Holds;
    if !c.op.GetPut? && !(c.name in m && m[c.name].Opaque?) {
      var d: int := c.op.delta;
      WrapHolds((if c.name in m then m[c.name].n else 0) + if c.op.Incr? then d else -d);
    } else if !c.op.GetPut? {
      assert m[c.name := m[c.name]] == m;
    }
  }

  /** Every entry of a legal log has its effect on what the entries before it left. */
  lemma {:induction false} LegalEffects(init: Store, log: seq<Commit>, i: nat)
    requires Legal(init, log) && i < |log|
    ensures Effect(Replay(init, log[..i]), log[i], Replay(init, log[..i + 1]))
  {
    hide Effect, Exec;
    var rest := log[..|log| - 1];
    if i < |log| - 1 {
      LegalEffects(init, rest, i);
      assert rest[..i] == log[..i] && rest[..i + 1] == log[..i + 1];
    } else {
      assert log[..i] == rest && log[..i + 1] == log;
      ExecEffect(Replay(init, rest), log[i]);
    }
  }

  // ---------- the concurrent system ----------

  datatype Stage = Start | Read(cur: Option<Val>) | Done

  datatype Call = Call(name: Name, op: Op, stage: Stage)

  datatype State = State(lk: L.State, store: Store, calls: map<Thread, Call>, log: seq<Commit>,
                         begun: multiset<(Name, Op)>)

  datatype Step =
    | Begin(t: Thread, name: Name, op: Op)
    | LockerStep(step: L.Step)
    | Get(t: Thread)
    | Put(t: Thread)
    | Unlock(t: Thread)

  function Initial(init: Store): State {
    State(L.INITIAL, init, map[], [], multiset{})
  }

  predicate Enabled(s: State, step: Step) {
    match step
    case Begin(t, name, _) => t !in s.calls && L.Enabled(s.lk, L.LockEnter(t, name))
    case LockerStep(l) => !l.LockEnter? && !l.UnlockEnter? && l.t in s.calls && L.Enabled(s.lk, l)
    case Get(t) => t in s.calls && s.calls[t].stage.Start? && t in s.lk.threads && s.lk.threads[t].Holding?
    case Put(t) => t in s.calls && s.calls[t].stage.Read?
    case Unlock(t) => t in s.calls && s.calls[t].stage.Done? && L.Enabled(s.lk, L.UnlockEnter(t))
  }

  function Do(s: State, step: Step): (r: State)
    requires Enabled(s, step)
  {
    match step
    case Begin(t, name, op) =>
      s.(lk := L.Do(s.lk, L.LockEnter(t, name)), calls := s.calls[t := Call(name, op, Start)],
         begun := s.begun + multiset{(name, op)})
    case LockerStep(l) =>
      var lk := L.Do(s.lk, l);
      s.(lk := lk, calls := if l.t in lk.threads then s.calls else s.calls - {l.t})
    case Get(t) =>
      s.(calls := s.calls[t := s.calls[t].(stage := Read(Lookup(s.store, s.calls[t].name)))])
    case Put(t) =>
      // The new value comes from what the thread has read, not from the store.
      var c := s.calls[t];
      var (v, result) := Exec(c.op, c.stage.cur);
      s.(store := if result == Mismatch then s.store else Written(s.store, c.name, v),
         calls := s.calls[t := c.(stage := Done)],
         log := s.log + [Commit(c.name, c.op, result)])
    case Unlock(t) =>
      s.(lk := L.Do(s.lk, L.UnlockEnter(t)))
  }

  predicate IsRun(s: State, steps: seq<Step>)
    decreases |steps|
  {
    steps == [] || (Enabled(s, steps[0]) && IsRun(Do(s, steps[0]), steps[1..]))
  }

  function After(s: State, steps: seq<Step>): (r: State)
    requires IsRun(s, steps)
    decreases |steps|
  {
    if steps == [] then s else After(Do(s, steps[0]), steps[1..])
  }

  // ---------- invariant ----------

  ghost predicate CallOk(s: State, t: Thread) {
    t in s.calls && t in s.lk.threads &&
    var c, p := s.calls[t], s.lk.threads[t];
    && p.name == c.name
    && (c.stage.Start? ==> Locking(p))
    && (c.stage.Read? ==> p.Holding? && c.stage.cur == Lookup(s.store, c.name))
    && (c.stage.Done? ==> Unlocking(p))
  }

  ghost function Pending(s: State): map<Thread, (Name, Op)> {
    map t | t in s.calls && !s.calls[t].stage.Done? :: (s.calls[t].name, s.calls[t].op)
  }

  ghost function Ops(m: map<Thread, (Name, Op)>): multiset<(Name, Op)> {
    if m == map[] then multiset{} else
      var t :| t in m;
      multiset{m[t]} + Ops(m - {t})
  }

  function Committed(log: seq<Commit>): multiset<(Name, Op)> {
    if log == [] then multiset{} else
      Committed(log[..|log| - 1]) + multiset{(log[|log| - 1].name, log[|log| - 1].op)}
  }

  ghost predicate Inv(s: State, init: Store) {
    && L.Inv(s.lk)
    && s.calls.Keys == s.lk.threads.Keys
    && (forall t <- s.calls :: CallOk(s, t))
    && Legal(init, s.log) && s.store == Replay(init, s.log)
    && s.begun == Committed(s.log) + Ops(Pending(s))
  }

  lemma {:induction false} OpsRemove(m: map<Thread, (Name, Op)>, t: Thread)
    requires t in m
    ensures Ops(m) == multiset{m[t]} + Ops(m - {t})
    decreases |m|
  {
    hide Ops;
    var c := OpsPick(m);
    if c != t {
      OpsRemove(m - {c}, t);
      OpsRemove(m - {t}, c);
      assert m - {c} - {t} == m - {t} - {c};
      SwapFirst(m[c], m[t], Ops(m - {c} - {t}));
    }
  }

  lemma OpsPick(m: map<Thread, (Name, Op)>) returns (c: Thread)
    requires m != map[]
    ensures c in m && Ops(m) == multiset{m[c]} + Ops(m - {c})
  {
    c :| c in m && Ops(m) == multiset{m[c]} + Ops(m - {c});
  }

  lemma SwapFirst(a: (Name, Op), b: (Name, Op), x: multiset<(Name, Op)>)
    ensures multiset{a} + (multiset{b} + x) == multiset{b} + (multiset{a} + x)
  {
  }

  lemma LogOne(init: Store, log: seq<Commit>, c: Commit)
    ensures Replay(init, log + [c]) ==
            Written(Replay(init, log), c.name, Exec(c.op, Lookup(Replay(init, log), c.name)).0)
    ensures Legal(init, log + [c]) <==>
            Legal(init, log) && c.result == Exec(c.op, Lookup(Replay(init, log), c.name)).1
    ensures Committed(log + [c]) == Committed(log) + multiset{(c.name, c.op)}
  {
    assert (log + [c])[..|log|] == log;
  }

  // ---------- every step keeps the invariant ----------

  lemma BeginInv(s: State, init: Store, t: Thread, name: Name, op: Op)
    requires Inv(s, init) && Enabled(s, Begin(t, name, op))
    ensures Inv(Do(s, Begin(t, name, op)), init)
  {
    hide L.Inv, Legal, Replay, Committed, Ops;
    var s' := Do(s, Begin(t, name, op));
    L.StepInv(s.lk, L.LockEnter(t, name));
    OpsRemove(Pending(s'), t);
    assert Pending(s') - {t} == Pending(s);
    forall u | u in s'.calls ensures CallOk(s', u) {
      assert u != t ==> CallOk(s, u);
    }
  }

  /** Places inside `lock` or right after it; places after the write. */
  ghost predicate Locking(p: L.Place) {
    p.LockEntered? || p.Waiting? || p.Acquired? || p.Holding?
  }

  ghost predicate Unlocking(p: L.Place) {
    (L.Owns(p) && !p.Acquired?) || p.UnlockReleased?
  }

  /** A locker step moves one thread, forward and within its name. */
  lemma LockerMoves(lk: L.State, l: L.Step)
    requires L.Enabled(lk, l) && !l.LockEnter? && !l.UnlockEnter? && l.t in lk.threads
    ensures var lk' := L.Do(lk, l);
            && (forall u <- lk.threads :: u != l.t ==> u in lk'.threads && lk'.threads[u] == lk.threads[u])
            && (forall u <- lk'.threads :: u in lk.threads)
            && !lk.threads[l.t].Holding?
            && (l.t in lk'.threads ==>
                  var p, p' := lk.threads[l.t], lk'.threads[l.t];
                  p'.name == p.name && (Locking(p) ==> Locking(p')) && (Unlocking(p) ==> Unlocking(p')))
            && (l.t !in lk'.threads ==> !Locking(lk.threads[l.t]))
  {
  }

  lemma LockerStepInv(s: State, init: Store, l: L.Step)
    requires Inv(s, init) && Enabled(s, LockerStep(l))
    ensures Inv(Do(s, LockerStep(l)), init)
  {
    hide L.Inv, Legal, Replay, Committed, Ops, L.Do, L.Enabled, Locking, Unlocking;
    var s' := Do(s, LockerStep(l));
    L.StepInv(s.lk, l);
    assert CallOk(s, l.t);
    LockerMoves(s.lk, l);
    assert Pending(s') == Pending(s);
    forall u | u in s'.calls ensures CallOk(s', u) {
      assert CallOk(s, u);
    }
  }

  lemma GetInv(s: State, init: Store, t: Thread)
    requires Inv(s, init) && Enabled(s, Get(t))
    ensures Inv(Do(s, Get(t)), init)
  {
    hide L.Inv, Legal, Replay, Committed, Ops;
    var s' := Do(s, Get(t));
    assert Pending(s') == Pending(s);
    assert CallOk(s, t);
    forall u | u in s'.calls ensures CallOk(s', u) {
      assert CallOk(s, u);
    }
  }

  /** Two threads never hold one name. */
  lemma Exclusive(lk: L.State, t: Thread, u: Thread)
    requires L.Inv(lk) && t in lk.threads && u in lk.threads && lk.threads[t].Holding? && lk.threads[u].Holding?
    requires lk.threads[t].name == lk.threads[u].name
    ensures t == u
  {
    assert L.ThreadOk(lk, t, lk.threads[t]) && L.ThreadOk(lk, u, lk.threads[u]);
  }

  lemma PutInv(s: State, init: Store, t: Thread)
    requires Inv(s, init) && Enabled(s, Put(t))
    ensures Inv(Do(s, Put(t)), init)
  {
    hide L.Inv, Legal, Replay, Committed, Ops;
    var s', c := Do(s, Put(t)), s.calls[t];
    assert CallOk(s, t);
    LogOne(init, s.log, s'.log[|s.log|]);
    OpsRemove(Pending(s), t);
    assert Pending(s) - {t} == Pending(s');
    forall u | u in s'.calls ensures CallOk(s', u) {
      assert CallOk(s, u);
      if u != t && s.calls[u].stage.Read? && s.calls[u].name == c.name {
        Exclusive(s.lk, t, u);
      }
    }
  }

  lemma UnlockInv(s: State, init: Store, t: Thread)
    requires Inv(s, init) && Enabled(s, Unlock(t))
    ensures Inv(Do(s, Unlock(t)), init)
  {
    hide L.Inv, Legal, Replay, Committed, Ops;
    var s' := Do(s, Unlock(t));
    L.StepInv(s.lk, L.UnlockEnter(t));
    assert Pending(s') == Pending(s);
    forall u | u in s'.calls ensures CallOk(s', u) {
      assert CallOk(s, u);
    }
  }

  lemma StepInv(s: State, init: Store, step: Step)
    requires Inv(s, init) && Enabled(s, step)
    ensures Inv(Do(s, step), init)
  {
    hide Inv, Enabled, Do;
    match step
    case Begin(t, name, op) => BeginInv(s, init, t, name, op);
    case LockerStep(l) => LockerStepInv(s, init, l);
    case Get(t) => GetInv(s, init, t);
    case Put(t) => PutInv(s, init, t);
    case Unlock(t) => UnlockInv(s, init, t);
  }

  lemma {:induction false} RunInv(s: State, init: Store, steps: seq<Step>)
    requires Inv(s, init) && IsRun(s, steps)
    ensures Inv(After(s, steps), init)
    decreases |steps|
  {
    hide Inv, Enabled, Do;
    if steps != [] {
      StepInv(s, init, steps[0]);
      RunInv(Do(s, steps[0]), init, steps[1..]);
    }
  }

  /** A write has its effect on the store of that moment, whatever other threads have done since the read. */
  lemma WriteExact(s: State, init: Store, t: Thread)
    requires Inv(s, init) && Enabled(s, Put(t))
    ensures var s', c := Do(s, Put(t)), s.calls[t];
            && |s'.log| == |s.log| + 1 && s'.log[..|s.log|] == s.log
            && var done := s'.log[|s.log|];
            done.name == c.name && done.op == c.op && Effect(s.store, done, s'.store)
  {
    hide L.Inv, Legal, Replay, Committed, Ops, Wrap, Holds;
    assert CallOk(s, t);
    var s' := Do(s, Put(t));
    ExecEffect(s.store, s'.log[|s.log|]);
  }

  /** Every run is equivalent to executing its operations one after the other in the order of their writes: each has its
      effect on what the one before left, the last store is the one there is, and once all threads are idle the
      history holds exactly the operations begun. */
  lemma Linearizable(init: Store, steps: seq<Step>)
    requires IsRun(Initial(init), steps)
    ensures var s := After(Initial(init), steps);
            && Legal(init, s.log) && s.store == Replay(init, s.log)
            && (forall i | 0 <= i < |s.log| :: Effect(Replay(init, s.log[..i]), s.log[i], Replay(init, s.log[..i + 1])))
            && (s.calls == map[] ==> s.begun == Committed(s.log))
  {
    hide Effect;
    var s0 := Initial(init);
    L.InitialInv();
    assert Pending(s0) == map[];
    assert Inv(s0, init);
    RunInv(s0, init, steps);
    var s := After(s0, steps);
    forall i | 0 <= i < |s.log| ensures Effect(Replay(init, s.log[..i]), s.log[i], Replay(init, s.log[..i + 1])) {
      LegalEffects(init, s.log, i);
    }
    if s.calls == map[] {
      assert Pending(s) == map[];
    }
  }

  // ---------- conservation ----------

  /** The number an absent or integer value counts as. */
  function Number(v: Option<Val>): int {
    if v.Some? && v.value.Int? then v.value.n else 0
  }

  /** All increments of `n` minus all its decrements. */
  function Sum(log: seq<Commit>, n: Name): int {
    if log == [] then 0 else
      var c := log[|log| - 1];
      Sum(log[..|log| - 1], n) + if c.name == n then Delta(c.op) else 0
  }

  function Delta(op: Op): int {
    if op.GetPut? then 0 else
      var d: int := op.delta;
      if op.Incr? then d else -d
  }

  /** What the last operation of a log did to key `n`. */
  lemma LastOn(init: Store, log: seq<Commit>, n: Name)
    requires Legal(init, log) && log != []
    ensures var rest, c := log[..|log| - 1], log[|log| - 1];
            var before := Lookup(Replay(init, rest), n);
            && Legal(init, rest)
            && Lookup(Replay(init, log), n) == (if c.name == n then Exec(c.op, before).0 else before)
            && (c.name == n ==> c.result == Exec(c.op, before).1)
            && forall d <- rest :: d in log
  {
    hide Wrap;
  }

  /** The running total is what the key holds. */
  lemma {:induction false} CounterSoFar(init: Store, log: seq<Commit>, n: Name)
    requires Legal(init, log)
    requires forall c <- log :: c.name == n ==> !c.op.GetPut?
    requires !(n in init && init[n].Opaque?)
    ensures var v := Lookup(Replay(init, log), n);
            && !(v.Some? && v.value.Opaque?)
            && Holds(Number(v), Number(Lookup(init, n)) + Sum(log, n))
  {
    hide Exec, Effect;
    if log != [] {
      hide Legal, Replay, Sum, Holds;
      LastOn(init, log, n);
      CounterSoFar(init, log[..|log| - 1], n);
      CounterLast(init, log, n);
    }
  }

  lemma {:induction false} LegalPrefix(init: Store, log: seq<Commit>, i: nat)
    requires Legal(init, log) && i <= |log|
    ensures Legal(init, log[..i])
  {
    if i < |log| {
      LegalPrefix(init, log[..|log| - 1], i);
      assert log[..|log| - 1][..i] == log[..i];
    } else {
      assert log[..i] == log;
    }
  }

  /** On a key only incremented and decremented the operations never fail, each returns the running total,
      and the last total is what the key holds. */
  lemma CounterTotal(init: Store, log: seq<Commit>, n: Name)
    requires Legal(init, log)
    requires forall c <- log :: c.name == n ==> !c.op.GetPut?
    requires !(n in init && init[n].Opaque?)
    ensures var v := Lookup(Replay(init, log), n);
            && !(v.Some? && v.value.Opaque?)
            && Holds(Number(v), Number(Lookup(init, n)) + Sum(log, n))
    ensures forall i | 0 <= i < |log| && log[i].name == n ::
              log[i].result.NewInt? && Holds(log[i].result.n, Number(Lookup(init, n)) + Sum(log[..i + 1], n))
  {
    hide Legal, Replay, Sum, Holds;
    CounterSoFar(init, log, n);
    forall i | 0 <= i < |log| && log[i].name == n
      ensures log[i].result.NewInt? && Holds(log[i].result.n, Number(Lookup(init, n)) + Sum(log[..i + 1], n))
    {
      CounterResult(init, log, n, i);
    }
  }

  lemma CounterResult(init: Store, log: seq<Commit>, n: Name, i: nat)
    requires Legal(init, log) && i < |log| && log[i].name == n
    requires forall c <- log :: c.name == n ==> !c.op.GetPut?
    requires !(n in init && init[n].Opaque?)
    ensures log[i].result.NewInt? && Holds(log[i].result.n, Number(Lookup(init, n)) + Sum(log[..i + 1], n))
  {
    hide Legal, Replay, Sum, Holds, Lookup, Number;
    var some := log[..i + 1];
    LegalPrefix(init, log, i);
    LegalPrefix(init, log, i + 1);
    assert some[..i] == log[..i] && some[i] == log[i];
    assert forall c <- log[..i] :: c in log;
    CounterSoFar(init, log[..i], n);
    CounterLast(init, some, n);
  }

  /** The last operation of the log carries the total on. */
  lemma CounterLast(init: Store, log: seq<Commit>, n: Name)
    requires Legal(init, log) && log != []
    requires var rest := log[..|log| - 1];
             var before := Lookup(Replay(init, rest), n);
             !(before.Some? && before.value.Opaque?) && Holds(Number(before), Number(Lookup(init, n)) + Sum(rest, n))
    requires log[|log| - 1].name == n ==> !log[|log| - 1].op.GetPut?
    ensures var v, total := Lookup(Replay(init, log), n), Number(Lookup(init, n)) + Sum(log, n);
            && !(v.Some? && v.value.Opaque?)
            && Holds(Number(v), total)
            && (log[|log| - 1].name == n ==>
                  log[|log| - 1].result.NewInt? && Holds(log[|log| - 1].result.n, total))
  {
    hide Legal, Replay, Exec;
    var rest, c := log[..|log| - 1], log[|log| - 1];
    var before := Lookup(Replay(init, rest), n);
    LastOn(init, log, n);
    if c.name == n {
      LegalEffects(init, log, |log| - 1);
      assert log[..|log|] == log;
      HoldsAdd(c.result.n, Number(before), Number(Lookup(init, n)) + Sum(rest, n), Delta(c.op));
    }
  }

  function Returned(log: seq<Commit>, n: Name): multiset<Option<Val>> {
    if log == [] then multiset{} else
      var c := log[|log| - 1];
      var r := Returned(log[..|log| - 1], n);
      if c.name == n && c.result.Old? then r + multiset{c.result.old_} else r
  }

  function Stored(log: seq<Commit>, n: Name): multiset<Option<Val>> {
    if log == [] then multiset{} else
      var c := log[|log| - 1];
      var w := Stored(log[..|log| - 1], n);
      if c.name == n && c.op.GetPut? then w + multiset{Some(c.op.value)} else w
  }

  /** On a key only exchanged, no value is lost or duplicated: what was returned and what is left is what was there
      and what was written. */
  lemma {:induction false} ExchangeConserves(init: Store, log: seq<Commit>, n: Name)
    requires Legal(init, log) && forall c <- log :: c.name == n ==> c.op.GetPut?
    ensures Returned(log, n) + multiset{Lookup(Replay(init, log), n)} == multiset{Lookup(init, n)} + Stored(log, n)
  {
    hide Legal;
    if log != [] {
      var rest, c := log[..|log| - 1], log[|log| - 1];
      LastOn(init, log, n);
      ExchangeConserves(init, rest, n);
      hide Replay;
      if c.name == n {
        PassOn(Returned(rest, n), Stored(rest, n), Lookup(init, n), Lookup(Replay(init, rest), n), Some(c.op.value));
      }
    }
  }

  lemma PassOn(r: multiset<Option<Val>>, w: multiset<Option<Val>>, first: Option<Val>, a: Option<Val>, b: Option<Val>)
    requires r + multiset{a} == multiset{first} + w
    ensures r + multiset{a} + multiset{b} == multiset{first} + (w + multiset{b})
  {
  }

  /** The entries of `log` on one key, in order. */
  function On(log: seq<Commit>, n: Name): (r: seq<Commit>)
    ensures forall c <- r :: c in log && c.name == n
    ensures forall c: Commit | c.name == n :: multiset(r)[c] == multiset(log)[c]
  {
    if log == [] then [] else
      assert log == log[..|log| - 1] + [log[|log| - 1]];
      On(log[..|log| - 1], n) + if log[|log| - 1].name == n then [log[|log| - 1]] else []
  }

  /** Calls of GetPut that lead from `first` to `last`: each returns what the one before it wrote, the first one `first`,
      and what the last one wrote is `last`. */
  ghost predicate IsChain(first: Option<Val>, h: seq<Commit>, last: Option<Val>) {
    if h == [] then last == first
    else
      var c := h[|h| - 1];
      c.op.GetPut? && last == Some(c.op.value) && c.result.Old? && IsChain(first, h[..|h| - 1], c.result.old_)
  }

  lemma ChainMore(first: Option<Val>, h: seq<Commit>, last: Option<Val>, c: Commit)
    requires IsChain(first, h, last) && c.op.GetPut? && c.result == Old(last)
    ensures IsChain(first, h + [c], Some(c.op.value))
  {
    assert (h + [c])[..|h|] == h;
  }

  lemma ExchangeLast(init: Store, log: seq<Commit>)
    requires Legal(init, log) && log != [] && log[|log| - 1].op.GetPut?
    ensures var c := log[|log| - 1];
            && Lookup(Replay(init, log), c.name) == Some(c.op.value)
            && c.result == Old(Lookup(Replay(init, log[..|log| - 1]), c.name))
  {
    hide Legal, Replay;
    LegalEffects(init, log, |log| - 1);
    assert log[..|log|] == log;
  }

  /** On a key only exchanged the calls form a chain. */
  lemma {:induction false} ExchangeChain(init: Store, log: seq<Commit>, n: Name)
    requires Legal(init, log) && forall c <- log :: c.name == n ==> c.op.GetPut?
    ensures IsChain(Lookup(init, n), On(log, n), Lookup(Replay(init, log), n))
  {
    if log != [] {
      hide Legal, Exec, Replay, IsChain;
      var rest, c := log[..|log| - 1], log[|log| - 1];
      LastOn(init, log, n);
      ExchangeChain(init, rest, n);
      if c.name == n {
        ExchangeLast(init, log);
        ChainMore(Lookup(init, n), On(rest, n), Lookup(Replay(init, rest), n), c);
      } else {
        assert On(log, n) == On(rest, n);
      }
    }
  }

  lemma {:induction false} InCommitted(log: seq<Commit>, c: Commit)
    requires c in log
    ensures (c.name, c.op) in Committed(log)
  {
    if c != log[|log| - 1] {
      InCommitted(log[..|log| - 1], c);
    }
  }

  /** Any number of threads, any interleaving: once all are idle the counter is its initial number plus all increments
      begun minus all decrements begun, in 64 bits, and every call has returned the total so far. */
  lemma CounterConserved(init: Store, steps: seq<Step>, n: Name)
    requires IsRun(Initial(init), steps)
    requires After(Initial(init), steps).calls == map[]
    requires forall p <- After(Initial(init), steps).begun :: p.0 == n ==> !p.1.GetPut?
    requires !(n in init && init[n].Opaque?)
    ensures var s := After(Initial(init), steps);
            && s.begun == Committed(s.log)
            && Holds(Number(Lookup(s.store, n)), Number(Lookup(init, n)) + Sum(s.log, n))
            && (forall i | 0 <= i < |s.log| && s.log[i].name == n ::
                  s.log[i].result.NewInt? && Holds(s.log[i].result.n, Number(Lookup(init, n)) + Sum(s.log[..i + 1], n)))
  {
    hide Do, Enabled, Replay, Legal, Committed, Holds, Sum, Exec, Effect;
    Linearizable(init, steps);
    var log := After(Initial(init), steps).log;
    forall c | c in log && c.name == n ensures !c.op.GetPut? {
      InCommitted(log, c);
    }
    CounterTotal(init, log, n);
  }

  /** The same for GetPut: over all calls, returned values and the final one are the initial and the written ones. */
  lemma ExchangeConserved(init: Store, steps: seq<Step>, n: Name)
    requires IsRun(Initial(init), steps)
    requires After(Initial(init), steps).calls == map[]
    requires forall p <- After(Initial(init), steps).begun :: p.0 == n ==> p.1.GetPut?
    ensures var s := After(Initial(init), steps);
            && s.begun == Committed(s.log)
            && Returned(s.log, n) + multiset{Lookup(s.store, n)} == multiset{Lookup(init, n)} + Stored(s.log, n)
            && IsChain(Lookup(init, n), On(s.log, n), Lookup(s.store, n))
  {
    hide Do, Enabled, Replay, Legal, Committed, Returned, Stored, Exec, Effect, On, IsChain;
    Linearizable(init, steps);
    var log := After(Initial(init), steps).log;
    forall c | c in log && c.name == n ensures c.op.GetPut? {
      InCommitted(log, c);
    }
    ExchangeConserves(init, log, n);
    ExchangeChain(init, log, n);
  }

  // ---------- progress ----------

  ghost function Unread(s: State): set<Thread> {
    set t | t in s.calls && s.calls[t].stage.Start?
  }

  ghost function Unwritten(s: State): set<Thread> {
    set t | t in s.calls && !s.calls[t].stage.Done?
  }

  /** As long as a call is under way, some thread can take a step that is not a new call. */
  lemma NoDeadlock(s: State, init: Store) returns (step: Step)
    requires Inv(s, init) && s.calls != map[]
    ensures Enabled(s, step) && !step.Begin?
  {
    hide L.Inv, Legal, Replay, Committed, Ops;
    var l := L.NoDeadlock(s.lk);
    assert CallOk(s, l.t);
    if l.UnlockEnter? {
      step := match s.calls[l.t].stage
        case Start => Get(l.t)
        case Read(_) => Put(l.t)
        case Done => Unlock(l.t);
    } else {
      step := LockerStep(l);
    }
  }

  /** Such a step brings the locker nearer to rest, or a call nearer to its end. */
  lemma StepLowers(s: State, step: Step)
    requires Enabled(s, step) && !step.Begin?
    ensures var s' := Do(s, step);
            || L.Left(s'.lk.threads) < L.Left(s.lk.threads)
            || (s'.lk == s.lk && |Unread(s')| + |Unwritten(s')| < |Unread(s)| + |Unwritten(s)|)
  {
    hide L.Do, L.Enabled, L.Left, Exec;
    var s' := Do(s, step);
    match step
    case LockerStep(l) => L.StepLowers(s.lk, l);
    case Unlock(t) => L.StepLowers(s.lk, L.UnlockEnter(t));
    case Get(t) =>
      assert Unread(s') == Unread(s) - {t} && Unwritten(s') == Unwritten(s);
    case Put(t) =>
      assert Unread(s') == Unread(s) && Unwritten(s') == Unwritten(s) - {t};
  }

  /** Every run can be continued without new calls until all calls have returned. */
  lemma {:induction false} CanFinish(s: State, init: Store) returns (steps: seq<Step>)
    requires Inv(s, init)
    ensures IsRun(s, steps) && (forall step <- steps :: !step.Begin?) && After(s, steps).calls == map[]
    decreases L.Left(s.lk.threads), |Unread(s)| + |Unwritten(s)|
  {
    hide Inv, Enabled, Do, L.Left;
    if s.calls == map[] {
      steps := [];
    } else {
      var step := NoDeadlock(s, init);
      StepInv(s, init, step);
      StepLowers(s, step);
      var rest := CanFinish(Do(s, step), init);
      steps := [step] + rest;
      assert steps[1..] == rest;
    }
  }

  lemma {:induction false} BegunKept(s: State, steps: seq<Step>)
    requires IsRun(s, steps) && forall step <- steps :: !step.Begin?
    ensures After(s, steps).begun == s.begun
    decreases |steps|
  {
    if steps != [] {
      assert steps[0] in steps && forall step <- steps[1..] :: step in steps;
      BegunKept(Do(s, steps[0]), steps[1..]);
    }
  }

  /** And so a new call completes: the history then has it besides all that was begun before. */
  lemma CallCompletes(s: State, init: Store, t: Thread, name: Name, op: Op) returns (steps: seq<Step>)
    requires Inv(s, init) && t !in s.calls && s.lk.mu == None
    ensures var all := [Begin(t, name, op)] + steps;
            && IsRun(s, all) && (forall step <- steps :: !step.Begin?)
            && After(s, all).calls == map[]
            && Committed(After(s, all).log) == s.begun + multiset{(name, op)}
  {
    hide L.Inv, Legal, Replay, Committed, Ops, CallOk;
    var begin := Begin(t, name, op);
    assert Enabled(s, begin);
    StepInv(s, init, begin);
    var s1 := Do(s, begin);
    assert s1.begun == s.begun + multiset{(name, op)};
    steps := Finished(s1, init);
    assert ([begin] + steps)[1..] == steps;
  }

  lemma Finished(s: State, init: Store) returns (steps: seq<Step>)
    requires Inv(s, init)
    ensures IsRun(s, steps) && (forall step <- steps :: !step.Begin?) && After(s, steps).calls == map[]
    ensures Committed(After(s, steps).log) == s.begun
  {
    hide Enabled, Do, L.Inv, Legal, Replay, Committed, CallOk;
    steps := CanFinish(s, init);
    BegunKept(s, steps);
    RunInv(s, init, steps);
    assert Pending(After(s, steps)) == map[];
  }
}
