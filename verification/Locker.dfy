/** The named locker as an interleaving of threads, one shared access at a time. */
module Locker {
  import opened Bytes

  type Thread = nat
  type Name = string
  type Id = nat // identity of a lock counter object

  /** A lock counter. `owner` records which thread last locked its mutex; the mutex is free when there is none. */
  datatype Ctr = Ctr(name: Name, waiters: int, owner: Option<Thread>)

  /** Where a thread is inside `lock` or `unlock`; a thread in neither, and holding nothing, is not listed. */
  datatype Place =
    | LockEntered(name: Name)                           // has the main mutex
    | Waiting(name: Name, ctr: Id)                      // counted as waiter, at the name's mutex
    | Acquired(name: Name, ctr: Id)                     // has the name's mutex, still counted
    | Holding(name: Name, ctr: Id)                      // `lock` has returned
    | UnlockEntered(name: Name, ctr: Id)                // has the main mutex
    | UnlockFound(name: Name, ctr: Id)                  // has looked the name up
    | UnlockCounted(name: Name, ctr: Id, zero: bool)    // has read the number of waiters
    | UnlockDropped(name: Name, ctr: Id, zero: bool)    // has deleted the entry if there were none
    | UnlockReleased(name: Name)                        // has unlocked the name's mutex

  datatype State = State(mu: Option<Thread>, locks: map<Name, Id>, ctrs: map<Id, Ctr>, next: Id,
                         threads: map<Thread, Place>,
                         noSuchLock: bool, // some `unlock` returned ErrNoSuchLock
                         fault: bool)      // some `unlock` hit a free mutex, which is fatal

  datatype Step =
    | LockEnter(t: Thread, name: Name) | LockRegister(t: Thread) | Acquire(t: Thread) | Decrement(t: Thread)
    | UnlockEnter(t: Thread) | UnlockFind(t: Thread) | UnlockCount(t: Thread) | UnlockDrop(t: Thread)
    | UnlockRelease(t: Thread) | UnlockLeave(t: Thread)

  const INITIAL := State(None, map[], map[], 0, map[], false, false)

  predicate HasCtr(p: Place) {
    !p.LockEntered? && !p.UnlockReleased?
  }

  /** Places from which the thread holds the main mutex. */
  predicate InMain(p: Place) {
    !p.Waiting? && !p.Acquired? && !p.Holding?
  }

  /** Places between counting oneself as a waiter and taking that back. */
  predicate IsCounted(p: Place) {
    p.Waiting? || p.Acquired?
  }

  /** Places from which the thread has the mutex of its name. */
  predicate Owns(p: Place) {
    HasCtr(p) && !p.Waiting?
  }

  predicate Enabled(s: State, step: Step) {
    match step
    case LockEnter(t, _) => t !in s.threads && s.mu == None
    case LockRegister(t) => t in s.threads && s.threads[t].LockEntered?
    case Acquire(t) =>
      t in s.threads && s.threads[t].Waiting? && s.threads[t].ctr in s.ctrs && s.ctrs[s.threads[t].ctr].owner == None
    case Decrement(t) => t in s.threads && s.threads[t].Acquired? && s.threads[t].ctr in s.ctrs
    case UnlockEnter(t) => t in s.threads && s.threads[t].Holding? && s.mu == None
    case UnlockFind(t) => t in s.threads && s.threads[t].UnlockEntered?
    case UnlockCount(t) => t in s.threads && s.threads[t].UnlockFound? && s.threads[t].ctr in s.ctrs
    case UnlockDrop(t) => t in s.threads && s.threads[t].UnlockCounted?
    case UnlockRelease(t) => t in s.threads && s.threads[t].UnlockDropped? && s.threads[t].ctr in s.ctrs
    case UnlockLeave(t) => t in s.threads && s.threads[t].UnlockReleased?
  }

  function At(s: State, t: Thread, p: Place): State {
    s.(threads := s.threads[t := p])
  }

  function WithCtr(s: State, c: Id, ctr: Ctr): State {
    s.(ctrs := s.ctrs[c := ctr])
  }

  function Do(s: State, step: Step): (r: State)
    requires Enabled(s, step)
  {
    var t := step.t;
    match step
    case LockEnter(_, name) => At(s, t, LockEntered(name)).(mu := Some(t))
    case LockRegister(_) => Register(s, t)
    case Acquire(_) =>
      var p := s.threads[t];
      At(WithCtr(s, p.ctr, s.ctrs[p.ctr].(owner := Some(t))), t, Acquired(p.name, p.ctr))
    case Decrement(_) =>
      var p := s.threads[t];
      At(WithCtr(s, p.ctr, s.ctrs[p.ctr].(waiters := s.ctrs[p.ctr].waiters - 1)), t, Holding(p.name, p.ctr))
    case UnlockEnter(_) =>
      var p := s.threads[t];
      At(s, t, UnlockEntered(p.name, p.ctr)).(mu := Some(t))
    case UnlockFind(_) =>
      var name := s.threads[t].name;
      if name in s.locks then At(s, t, UnlockFound(name, s.locks[name]))
      else s.(threads := s.threads - {t}, mu := None, noSuchLock := true)
    case UnlockCount(_) =>
      var p := s.threads[t];
      At(s, t, UnlockCounted(p.name, p.ctr, s.ctrs[p.ctr].waiters == 0))
    case UnlockDrop(_) =>
      var p := s.threads[t];
      At(s, t, UnlockDropped(p.name, p.ctr, p.zero)).(locks := if p.zero then s.locks - {p.name} else s.locks)
    case UnlockRelease(_) =>
      var p := s.threads[t];
      var ctr := s.ctrs[p.ctr];
      At(WithCtr(s, p.ctr, ctr.(owner := None)), t, UnlockReleased(p.name)).(fault := s.fault || ctr.owner == None)
    case UnlockLeave(_) => s.(threads := s.threads - {t}, mu := None)
  }

  /** The section of `lock` under the main mutex: find or create the counter, count oneself, leave. */
  function Register(s: State, t: Thread): (r: State)
    requires t in s.threads && s.threads[t].LockEntered?
  {
    var name := s.threads[t].name;
    var c := if name in s.locks then s.locks[name] else s.next;
    var ctr := if c in s.ctrs then s.ctrs[c] else Ctr(name, 0, None);
    At(WithCtr(s, c, ctr.(waiters := ctr.waiters + 1)), t, Waiting(name, c))
      .(mu := None, locks := s.locks[name := c], next := if name in s.locks then s.next else s.next + 1)
  }

  /** A run: every step is enabled where it is taken. */
  predicate IsRun(s: State, steps: seq<Step>)
    decreases |steps|
  {
    steps == [] || (Enabled(s, steps[0]) && IsRun(Do(s, steps[0]), steps[1..]))
  }

  function After(s: State, steps: seq<Step>): (r: State)
    requires IsRun(s, steps)
    decreases |steps|
  {
    if steps == [] then s else After(Do(s, steps[0]), steps[1..])
  }

  // ---------- invariant ----------

  ghost function CountedOn(s: State, c: Id): set<Thread> {
    set t | t in s.threads && IsCounted(s.threads[t]) && s.threads[t].ctr == c
  }

  /** The entry of `p`'s name is `p`'s counter. */
  ghost predicate Registered(s: State, p: Place)
    requires HasCtr(p)
  {
    p.name in s.locks && s.locks[p.name] == p.ctr
  }

  /** What holds of a thread at `p`. */
  ghost predicate ThreadOk(s: State, t: Thread, p: Place) {
    && (InMain(p) <==> s.mu == Some(t))
    && (HasCtr(p) ==>
          && p.ctr in s.ctrs
          && s.ctrs[p.ctr].name == p.name
          && (Owns(p) <==> s.ctrs[p.ctr].owner == Some(t))
          && (p.UnlockCounted? || p.UnlockDropped? ==> (p.zero <==> s.ctrs[p.ctr].waiters == 0))
          && (if p.UnlockDropped? && p.zero then p.name !in s.locks else Registered(s, p)))
  }

  /** What holds of a counter. */
  ghost predicate CtrOk(s: State, c: Id, ctr: Ctr) {
    && c < s.next
    && ctr.waiters == |CountedOn(s, c)|
    && (ctr.owner != None ==>
          var t := ctr.owner.value;
          t in s.threads && Owns(s.threads[t]) && s.threads[t].ctr == c)
  }

  /** An entry is there because someone waits or has the mutex. */
  ghost predicate EntryOk(s: State, n: Name) {
    n in s.locks && s.locks[n] in s.ctrs &&
    var ctr := s.ctrs[s.locks[n]];
    ctr.name == n && (ctr.waiters > 0 || ctr.owner != None)
  }

  ghost predicate Inv(s: State) {
    && (forall t <- s.threads :: ThreadOk(s, t, s.threads[t]))
    && (s.mu != None ==> s.mu.value in s.threads)
    && (forall c <- s.ctrs :: CtrOk(s, c, s.ctrs[c]))
    && (forall n <- s.locks :: EntryOk(s, n))
    && !s.noSuchLock && !s.fault
  }

  // ---------- counting ----------

  /** `s'` differs from `s` in the place of `t` only, as far as threads go. */
  ghost predicate OnlyMoves(s: State, s': State, t: Thread) {
    && s'.threads.Keys - {t} == s.threads.Keys - {t}
    && forall u <- s.threads :: u != t ==> u in s'.threads && s'.threads[u] == s.threads[u]
  }

  /** Moving one thread changes the waiters of a counter by that thread alone. */
  lemma CountMove(s: State, s': State, t: Thread, c: Id)
    requires OnlyMoves(s, s', t)
    ensures |CountedOn(s', c)| ==
            |CountedOn(s, c)| - (if t in CountedOn(s, c) then 1 else 0) + (if t in CountedOn(s', c) then 1 else 0)
  {
    var a, b := CountedOn(s, c), CountedOn(s', c);
    forall u ensures u in b - {t} <==> u in a - {t} {
      assert u in s'.threads.Keys - {t} <==> u in s.threads.Keys - {t};
    }
    assert b - {t} == a - {t};
    assert |a - {t}| == |a| - (if t in a then 1 else 0);
    assert |b - {t}| == |b| - (if t in b then 1 else 0);
  }

  lemma InitialInv()
    ensures Inv(INITIAL)
  {
  }

  // ---------- every step keeps the invariant ----------

  lemma LockEnterInv(s: State, t: Thread, name: Name)
    requires Inv(s) && Enabled(s, LockEnter(t, name))
    ensures Inv(Do(s, LockEnter(t, name)))
  {
    var s' := Do(s, LockEnter(t, name));
    forall c | c in s'.ctrs ensures CtrOk(s', c, s'.ctrs[c]) {
      assert CtrOk(s, c, s.ctrs[c]);
      CountMove(s, s', t, c);
    }
    forall n | n in s'.locks ensures EntryOk(s', n) {
      assert EntryOk(s, n);
    }
    forall u | u in s'.threads ensures ThreadOk(s', u, s'.threads[u]) {
      assert u != t ==> ThreadOk(s, u, s.threads[u]);
    }
  }

  lemma NobodyOn(s: State, c: Id)
    requires Inv(s) && c !in s.ctrs
    ensures CountedOn(s, c) == {}
  {
    forall u | u in s.threads ensures u !in CountedOn(s, c) {
      assert ThreadOk(s, u, s.threads[u]);
    }
  }

  lemma RegisterCtrs(s: State, t: Thread)
    requires Inv(s) && Enabled(s, LockRegister(t))
    ensures var s' := Register(s, t); forall c <- s'.ctrs :: CtrOk(s', c, s'.ctrs[c])
  {
    var s' := Register(s, t);
    assert ThreadOk(s, t, s.threads[t]);
    assert forall n <- s.locks :: EntryOk(s, n);
    forall c | c in s'.ctrs ensures CtrOk(s', c, s'.ctrs[c]) {
      CountMove(s, s', t, c);
      if c in s.ctrs {
        assert CtrOk(s, c, s.ctrs[c]);
      } else {
        NobodyOn(s, c);
      }
    }
  }

  lemma RegisterInv(s: State, t: Thread)
    requires Inv(s) && Enabled(s, LockRegister(t))
    ensures Inv(Do(s, LockRegister(t)))
  {
    hide CtrOk;
    RegisterCtrs(s, t);
    var s' := Do(s, LockRegister(t));
    var c0 := s'.threads[t].ctr;
    assert ThreadOk(s, t, s.threads[t]);
    assert forall n <- s.locks :: EntryOk(s, n);
    assert forall c <- s.ctrs :: CtrOk(s, c, s.ctrs[c]);
    assert s.next !in s.ctrs by { FreshId(s); }
    CountPositive(s', c0, t);
    if c0 in s.ctrs {
      NotOwner(s, t, c0);
    }
    forall n | n in s'.locks ensures EntryOk(s', n) {
      if n != s.threads[t].name {
        assert EntryOk(s, n);
      }
    }
    forall u | u in s'.threads ensures ThreadOk(s', u, s'.threads[u]) {
      assert u != t ==> ThreadOk(s, u, s.threads[u]);
    }
  }

  lemma NotOwner(s: State, t: Thread, c: Id)
    requires Inv(s) && t in s.threads && !HasCtr(s.threads[t]) && c in s.ctrs
    ensures s.ctrs[c].owner != Some(t)
  {
    assert CtrOk(s, c, s.ctrs[c]);
  }

  lemma FreshId(s: State)
    requires Inv(s)
    ensures s.next !in s.ctrs
  {
    assert s.next in s.ctrs ==> CtrOk(s, s.next, s.ctrs[s.next]);
  }

  lemma CountPositive(s: State, c: Id, t: Thread)
    requires c in s.ctrs && CtrOk(s, c, s.ctrs[c]) && t in s.threads && IsCounted(s.threads[t]) && s.threads[t].ctr == c
    ensures s.ctrs[c].waiters > 0
  {
    assert t in CountedOn(s, c);
  }

  /** Steps that leave the entries as they are and set no mutex of a name free. */
  predicate KeepsEntries(step: Step) {
    step.Acquire? || step.Decrement? || step.UnlockEnter? || step.UnlockFind? || step.UnlockCount? || step.UnlockLeave?
  }

  lemma KeptCtr(s: State, step: Step, c: Id)
    requires Enabled(s, step) && KeepsEntries(step) && ThreadOk(s, step.t, s.threads[step.t])
    requires c in s.ctrs && CtrOk(s, c, s.ctrs[c])
    ensures CtrOk(Do(s, step), c, Do(s, step).ctrs[c])
  {
    CountMove(s, Do(s, step), step.t, c);
  }

  lemma KeptThread(s: State, step: Step, u: Thread)
    requires Enabled(s, step) && KeepsEntries(step) && ThreadOk(s, step.t, s.threads[step.t])
    requires u in Do(s, step).threads && ThreadOk(s, u, s.threads[u])
    requires forall c <- s.ctrs :: CtrOk(s, c, s.ctrs[c])
    ensures ThreadOk(Do(s, step), u, Do(s, step).threads[u])
  {
    hide CountedOn;
  }

  lemma KeepsEntriesInv(s: State, step: Step)
    requires Inv(s) && Enabled(s, step) && KeepsEntries(step)
    ensures Inv(Do(s, step))
  {
    hide CtrOk;
    var s', t := Do(s, step), step.t;
    assert ThreadOk(s, t, s.threads[t]);
    forall c | c in s'.ctrs ensures CtrOk(s', c, s'.ctrs[c]) {
      KeptCtr(s, step, c);
    }
    forall u | u in s'.threads ensures ThreadOk(s', u, s'.threads[u]) {
      KeptThread(s, step, u);
    }
    forall n | n in s'.locks ensures EntryOk(s', n) {
      assert EntryOk(s, n);
      if step.Decrement? && s.locks[n] == s.threads[t].ctr {
        assert s.ctrs[s.locks[n]].owner == Some(t);
      }
    }
  }

  /** A thread that counted no waiters, while holding both mutexes, is alone on its counter. */
  lemma AloneOn(s: State, t: Thread, u: Thread)
    requires Inv(s) && t in s.threads && s.threads[t].UnlockCounted? && s.threads[t].zero
    requires u in s.threads && u != t
    ensures HasCtr(s.threads[u]) ==> s.threads[u].ctr != s.threads[t].ctr && s.threads[u].name != s.threads[t].name
  {
    var c := s.threads[t].ctr;
    assert ThreadOk(s, t, s.threads[t]) && ThreadOk(s, u, s.threads[u]);
    assert CtrOk(s, c, s.ctrs[c]);
    assert u !in CountedOn(s, c);
  }

  lemma DropInv(s: State, t: Thread)
    requires Inv(s) && Enabled(s, UnlockDrop(t))
    ensures Inv(Do(s, UnlockDrop(t)))
  {
    var s' := Do(s, UnlockDrop(t));
    assert ThreadOk(s, t, s.threads[t]);
    forall c | c in s'.ctrs ensures CtrOk(s', c, s'.ctrs[c]) {
      assert CtrOk(s, c, s.ctrs[c]);
      CountMove(s, s', t, c);
    }
    forall n | n in s'.locks ensures EntryOk(s', n) {
      assert EntryOk(s, n);
    }
    forall u | u in s'.threads ensures ThreadOk(s', u, s'.threads[u]) {
      if u != t {
        assert ThreadOk(s, u, s.threads[u]);
        if s.threads[t].zero {
          AloneOn(s, t, u);
        }
      }
    }
  }

  lemma ReleaseInv(s: State, t: Thread)
    requires Inv(s) && Enabled(s, UnlockRelease(t))
    ensures Inv(Do(s, UnlockRelease(t)))
  {
    var s' := Do(s, UnlockRelease(t));
    assert ThreadOk(s, t, s.threads[t]);
    forall c | c in s'.ctrs ensures CtrOk(s', c, s'.ctrs[c]) {
      assert CtrOk(s, c, s.ctrs[c]);
      CountMove(s, s', t, c);
    }
    forall n | n in s'.locks ensures EntryOk(s', n) {
      assert EntryOk(s, n);
      assert CtrOk(s, s.locks[n], s.ctrs[s.locks[n]]);
    }
    forall u | u in s'.threads ensures ThreadOk(s', u, s'.threads[u]) {
      assert u != t ==> ThreadOk(s, u, s.threads[u]);
    }
  }

  lemma StepInv(s: State, step: Step)
    requires Inv(s) && Enabled(s, step)
    ensures Inv(Do(s, step))
  {
    hide Inv, Enabled, Do;
    match step
    case LockEnter(t, name) => LockEnterInv(s, t, name);
    case LockRegister(t) => RegisterInv(s, t);
    case UnlockDrop(t) => DropInv(s, t);
    case UnlockRelease(t) => ReleaseInv(s, t);
    case _ => KeepsEntriesInv(s, step);
  }

  lemma {:induction false} RunInv(s: State, steps: seq<Step>)
    requires Inv(s) && IsRun(s, steps)
    ensures Inv(After(s, steps))
    decreases |steps|
  {
    hide Inv, Enabled, Do;
    if steps != [] {
      StepInv(s, steps[0]);
      RunInv(Do(s, steps[0]), steps[1..]);
    }
  }

  // ---------- what the invariant means ----------

  /** Over every run in which only holders unlock: two threads never hold one name, the waiters of a counter are
      the threads between counting themselves and taking that back, no unlock fails or hits a free mutex,
      and with every thread idle no entry is left. */
  lemma LockerSafety(steps: seq<Step>)
    requires IsRun(INITIAL, steps)
    ensures var s := After(INITIAL, steps);
            && (forall t <- s.threads, u <- s.threads ::
                  s.threads[t].Holding? && s.threads[u].Holding? && s.threads[t].name == s.threads[u].name ==> t == u)
            && (forall c <- s.ctrs :: s.ctrs[c].waiters == |CountedOn(s, c)|)
            && !s.noSuchLock && !s.fault
            && (forall n <- s.locks :: exists t <- s.threads :: HasCtr(s.threads[t]) && s.threads[t].ctr == s.locks[n])
            && (s.threads == map[] ==> s.locks == map[])
  {
    InitialInv();
    RunInv(INITIAL, steps);
    var s := After(INITIAL, steps);
    forall t, u | t in s.threads && u in s.threads && s.threads[t].Holding? && s.threads[u].Holding?
                  && s.threads[t].name == s.threads[u].name
      ensures t == u
    {
      assert ThreadOk(s, t, s.threads[t]) && ThreadOk(s, u, s.threads[u]);
    }
    forall c | c in s.ctrs ensures s.ctrs[c].waiters == |CountedOn(s, c)| {
      assert CtrOk(s, c, s.ctrs[c]);
    }
    forall n | n in s.locks ensures exists t <- s.threads :: HasCtr(s.threads[t]) && s.threads[t].ctr == s.locks[n] {
      var t := EntryHasThread(s, n);
    }
  }

  /** Every entry is there for a thread that waits for it or has it. */
  lemma EntryHasThread(s: State, n: Name) returns (t: Thread)
    requires Inv(s) && n in s.locks
    ensures t in s.threads && HasCtr(s.threads[t]) && s.threads[t].ctr == s.locks[n] && s.threads[t].name == n
  {
    var c := s.locks[n];
    assert EntryOk(s, n) && CtrOk(s, c, s.ctrs[c]);
    if s.ctrs[c].waiters > 0 {
      t :| t in CountedOn(s, c);
    } else {
      t := s.ctrs[c].owner.value;
    }
    assert ThreadOk(s, t, s.threads[t]);
  }

  /** An entry that disappears leaves nobody behind: no other thread waits for, has or knows its counter. */
  lemma RemovedUnused(s: State, step: Step, n: Name, u: Thread)
    requires Inv(s) && Enabled(s, step) && n in s.locks && n !in Do(s, step).locks
    requires u in s.threads && u != step.t && HasCtr(s.threads[u])
    ensures s.threads[u].ctr != s.locks[n] && s.threads[u].name != n
  {
    assert step.UnlockDrop?;
    assert ThreadOk(s, step.t, s.threads[step.t]);
    AloneOn(s, step.t, u);
  }

  /** As long as some thread is not idle, some thread can take a step: the locker never deadlocks by itself. */
  lemma NoDeadlock(s: State) returns (step: Step)
    requires Inv(s) && s.threads != map[]
    ensures step.t in s.threads && Enabled(s, step)
  {
    var t :| t in s.threads;
    if s.mu != None {
      t := s.mu.value;
    }
    assert ThreadOk(s, t, s.threads[t]);
    if s.threads[t].Waiting? && s.ctrs[s.threads[t].ctr].owner != None {
      assert CtrOk(s, s.threads[t].ctr, s.ctrs[s.threads[t].ctr]);
      t := s.ctrs[s.threads[t].ctr].owner.value;
      assert ThreadOk(s, t, s.threads[t]);
    }
    step := match s.threads[t]
      case LockEntered(_) => LockRegister(t)
      case Waiting(_, _) => Acquire(t)
      case Acquired(_, _) => Decrement(t)
      case Holding(_, _) => UnlockEnter(t)
      case UnlockEntered(_, _) => UnlockFind(t)
      case UnlockFound(_, _) => UnlockCount(t)
      case UnlockCounted(_, _, _) => UnlockDrop(t)
      case UnlockDropped(_, _, _) => UnlockRelease(t)
      case UnlockReleased(_) => UnlockLeave(t);
  }

  // ---------- progress ----------

  /** How many steps a thread at `p` has still to take until it is idle. */
  function Rank(p: Place): (n: nat)
    ensures n > 0
  {
    match p
    case LockEntered(_) => 9
    case Waiting(_, _) => 8
    case Acquired(_, _) => 7
    case Holding(_, _) => 6
    case UnlockEntered(_, _) => 5
    case UnlockFound(_, _) => 4
    case UnlockCounted(_, _, _) => 3
    case UnlockDropped(_, _, _) => 2
    case UnlockReleased(_) => 1
  }

  /** The sum over all threads. */
  ghost function Left(threads: map<Thread, Place>): (n: nat)
    ensures threads == map[] <==> n == 0
  {
    if threads == map[] then 0 else
      var t :| t in threads;
      Rank(threads[t]) + Left(threads - {t})
  }

  lemma {:induction false} LeftRemove(threads: map<Thread, Place>, t: Thread)
    requires t in threads
    ensures Left(threads) == Rank(threads[t]) + Left(threads - {t})
    decreases |threads|
  {
    hide Left;
    var c := LeftPick(threads);
    if c != t {
      LeftRemove(threads - {c}, t);
      LeftRemove(threads - {t}, c);
      assert threads - {c} - {t} == threads - {t} - {c};
    }
  }

  lemma LeftPick(threads: map<Thread, Place>) returns (c: Thread)
    requires threads != map[]
    ensures c in threads && Left(threads) == Rank(threads[c]) + Left(threads - {c})
  {
    c :| c in threads && Left(threads) == Rank(threads[c]) + Left(threads - {c});
  }

  /** Every step but a new `lock` brings its own thread nearer to being idle and leaves the others where they are. */
  lemma StepAdvances(s: State, step: Step)
    requires Enabled(s, step) && !step.LockEnter?
    ensures var s' := Do(s, step);
            && s'.threads - {step.t} == s.threads - {step.t}
            && step.t in s.threads
            && (step.t in s'.threads ==> Rank(s'.threads[step.t]) < Rank(s.threads[step.t]))
  {
  }

  lemma StepLowers(s: State, step: Step)
    requires Enabled(s, step) && !step.LockEnter?
    ensures Left(Do(s, step).threads) < Left(s.threads)
  {
    hide Do, Enabled, Left, Rank;
    var s' := Do(s, step);
    StepAdvances(s, step);
    LeftRemove(s.threads, step.t);
    if step.t in s'.threads {
      LeftRemove(s'.threads, step.t);
    } else {
      assert s'.threads - {step.t} == s'.threads;
    }
  }

  /** Without new calls of `lock` no run is longer than what its threads have left. */
  lemma {:induction false} RunBounded(s: State, steps: seq<Step>)
    requires IsRun(s, steps) && forall step <- steps :: !step.LockEnter?
    ensures |steps| <= Left(s.threads)
    decreases |steps|
  {
    hide Do, Enabled, Left;
    if steps != [] {
      assert steps[0] in steps && forall step <- steps[1..] :: step in steps;
      StepLowers(s, steps[0]);
      RunBounded(Do(s, steps[0]), steps[1..]);
    }
  }

  /** And it can be continued until all threads are idle: with holders unlocking, every `lock` and `unlock` returns. */
  lemma {:induction false} CanFinish(s: State) returns (steps: seq<Step>)
    requires Inv(s)
    ensures IsRun(s, steps) && (forall step <- steps :: !step.LockEnter?) && After(s, steps).threads == map[]
    decreases Left(s.threads)
  {
    hide Inv, Do, Enabled, Left;
    if s.threads == map[] {
      steps := [];
    } else {
      var step := NoDeadlock(s);
      assert !step.LockEnter? by { EnterNeedsIdle(s, step); }
      StepInv(s, step);
      StepLowers(s, step);
      var rest := CanFinish(Do(s, step));
      steps := [step] + rest;
      assert steps[1..] == rest;
    }
  }

  lemma EnterNeedsIdle(s: State, step: Step)
    requires Enabled(s, step) && step.t in s.threads
    ensures !step.LockEnter?
  {
  }

  /** A thread alone on a free name gets it: the four steps of `lock` end with the name held. */
  lemma LockRun(s: State, t: Thread, name: Name)
    requires Inv(s) && t !in s.threads && s.mu == None && forall u <- s.threads :: s.threads[u].name != name
    ensures var steps := [LockEnter(t, name), LockRegister(t), Acquire(t), Decrement(t)];
            && IsRun(s, steps)
            && var s' := After(s, steps);
            && t in s'.threads && s'.threads[t].Holding? && s'.threads[t].name == name
            && s'.mu == None && s'.threads - {t} == s.threads && name in s'.locks && s'.locks[name] == s'.threads[t].ctr
  {
    hide IsRun, After, Do;
    if name in s.locks {
      var u := EntryHasThread(s, name);
      assert false;
    }
    FreshId(s);
    LockSteps(s, t, name);
  }

  lemma LockSteps(s: State, t: Thread, name: Name)
    requires t !in s.threads && s.mu == None && name !in s.locks && s.next !in s.ctrs
    ensures var steps := [LockEnter(t, name), LockRegister(t), Acquire(t), Decrement(t)];
            && IsRun(s, steps)
            && var s' := After(s, steps);
            && t in s'.threads && s'.threads[t].Holding? && s'.threads[t].name == name
            && s'.mu == None && s'.threads - {t} == s.threads && name in s'.locks && s'.locks[name] == s'.threads[t].ctr
  {
    hide IsRun, After;
    var s1 := Do(s, LockEnter(t, name));
    var s2 := Do(s1, LockRegister(t));
    assert s2.threads[t] == Waiting(name, s.next) && s2.ctrs[s.next] == Ctr(name, 1, None);
    var s3 := Do(s2, Acquire(t));
    var s4 := Do(s3, Decrement(t));
    FourSteps(s, LockEnter(t, name), LockRegister(t), Acquire(t), Decrement(t));
    assert s4.threads - {t} == s.threads;
  }

  lemma FourSteps(s: State, a: Step, b: Step, c: Step, d: Step)
    requires Enabled(s, a) && Enabled(Do(s, a), b) && Enabled(Do(Do(s, a), b), c) && Enabled(Do(Do(Do(s, a), b), c), d)
    ensures IsRun(s, [a, b, c, d]) && After(s, [a, b, c, d]) == Do(Do(Do(Do(s, a), b), c), d)
  {
    hide Do, Enabled;
    var s3 := Do(Do(Do(s, a), b), c);
    assert [a, b, c, d][1..] == [b, c, d] && [b, c, d][1..] == [c, d] && [c, d][1..] == [d] && [d][1..] == [];
    assert IsRun(s3, [d]) && After(s3, [d]) == Do(s3, d);
    assert IsRun(Do(Do(s, a), b), [c, d]) && After(Do(Do(s, a), b), [c, d]) == Do(s3, d);
    assert IsRun(Do(s, a), [b, c, d]) && After(Do(s, a), [b, c, d]) == Do(s3, d);
  }
}
