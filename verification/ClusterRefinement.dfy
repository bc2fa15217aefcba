/** The partitioned store answers like one unpartitioned map, and its locks like one lock table. */
module ClusterRefinement {
  import opened Bytes
  import opened Entry
  import opened Routing
  import opened Cluster

  /** The unpartitioned store: one map, one lock table. */
  datatype Spec = Spec(data: map<(Name, uint64), VData>, locks: map<(Name, LockName), nat>)

  function SpecValue(a: Spec, n: Name, k: uint64): Option<VData> {
    if (n, k) in a.data then Some(a.data[(n, k)]) else None
  }

  function SpecCount(a: Spec, n: Name, key: LockName): nat {
    if (n, key) in a.locks then a.locks[(n, key)] else 0
  }

  function SpecDo(a: Spec, step: Step): (r: Spec) {
    match step
    case PutStep(n, k, v) => a.(data := a.data[(n, k) := v])
    case DeleteStep(n, k) => a.(data := a.data - {(n, k)})
    case LockStep(n, key) => a.(locks := a.locks[(n, key) := SpecCount(a, n, key) + 1])
    case UnlockStep(n, key) =>
      var c := SpecCount(a, n, key);
      a.(locks := if c == 0 then a.locks else a.locks[(n, key) := c - 1])
    case DestroyStep(n) =>
      Spec(map p | p in a.data && p.0 != n :: a.data[p], map p | p in a.locks && p.0 != n :: a.locks[p])
    case _ => a
  }

  function SpecAfter(a: Spec, steps: seq<Step>): (r: Spec)
    decreases |steps|
  {
    if steps == [] then a else SpecAfter(SpecDo(a, steps[0]), steps[1..])
  }

  const EMPTY := Spec(map[], map[])
  const START := State([], map[])

  // ---------- invariants ----------

  /** The owner list has no duplicates and no host outside it holds anything. */
  ghost predicate Placed(s: State) {
    NoDup(s.owners) && forall h, n :: h !in s.owners ==> MapOf(s, h, n) == NOTHING
  }

  /** A key is on one host at most, with the value of the unpartitioned map, and on some host if it is in that map. */
  ghost predicate DataOk(s: State, a: Spec) {
    && (forall g, h, n, k :: Value(s, g, n, k) != None && Value(s, h, n, k) != None ==> g == h)
    && (forall h, n, k :: Value(s, h, n, k) != None ==> Value(s, h, n, k) == SpecValue(a, n, k))
    && (forall n, k :: SpecValue(a, n, k) != None ==> exists h :: Value(s, h, n, k) != None)
  }

  /** The same for lock entries and their counts; a stored entry counts somebody. */
  ghost predicate LocksOk(s: State, a: Spec) {
    && (forall g, h, n, key :: LockCount(s, g, n, key) > 0 && LockCount(s, h, n, key) > 0 ==> g == h)
    && (forall h, n, key :: LockCount(s, h, n, key) > 0 ==> LockCount(s, h, n, key) == SpecCount(a, n, key))
    && (forall n, key :: SpecCount(a, n, key) > 0 ==> exists h :: LockCount(s, h, n, key) > 0)
    && (forall h, n, key :: key in MapOf(s, h, n).locks ==> LockCount(s, h, n, key) > 0)
  }

  // ---------- how steps change what hosts hold ----------

  ghost predicate SameMaps(s: State, s': State) {
    forall h, n :: MapOf(s', h, n) == MapOf(s, h, n)
  }

  lemma PutMaps(s: State, n: Name, k: uint64, v: VData, h: Host, n': Name)
    requires s.owners != [] && Placed(s)
    ensures MapOf(Put(s, n, k, v), h, n') ==
            if n' != n || h !in s.owners then MapOf(s, h, n')
            else if h == Primary(s) then PutValue(MapOf(s, h, n), k, v)
            else WithoutKey(MapOf(s, h, n), k)
  {
    hide MapOf, Filter;
    var p := Primary(s);
    var hosts := Filter(Previous(s), NoneOf([p]));
    var s1 := Store(s, p, n, PutValue(MapOf(s, p, n), k, v));
    DeleteOnAllMaps(s1, hosts, n, k, h, n');
    FilterMembers(Previous(s), NoneOf([p]));
    assert h in s.owners <==> h in Previous(s) || h == p;
  }

  lemma DeleteMaps(s: State, n: Name, k: uint64, h: Host, n': Name)
    requires s.owners != []
    ensures MapOf(Delete(s, n, k), h, n') ==
            if n' == n && h in s.owners then WithoutKey(MapOf(s, h, n), k) else MapOf(s, h, n')
  {
    hide MapOf;
    DeleteOnAllMaps(Touch(s, Primary(s), n), Previous(s), n, k, h, n');
    assert h in s.owners <==> h in Previous(s) || h == Primary(s);
  }

  lemma MoveMaps(s: State, from: Host, n: Name, h: Host, n': Name)
    requires Placed(s) && Enabled(s, MoveStep(from, n))
    ensures from in s.owners && from != Primary(s)
    ensures var p := Primary(s);
            MapOf(Move(s, from, n), h, n') ==
            if n' != n then MapOf(s, h, n')
            else if h == from then NOTHING
            else if h == p then DMap(MapOf(s, from, n).data + MapOf(s, p, n).data, MapOf(s, p, n).locks)
            else MapOf(s, h, n')
    ensures Move(s, from, n).owners == s.owners
  {
    var i :| 0 <= i < |s.owners| - 1 && Previous(s)[i] == from;
    assert s.owners[i] == from;
    var d := MapOf(s, from, n).data;
    assert d + map[] == d;
  }

  // ---------- data ----------

  lemma SameData(s: State, s': State, a: Spec)
    requires DataOk(s, a) && forall h, n, k :: Value(s', h, n, k) == Value(s, h, n, k)
    ensures DataOk(s', a)
  {
    forall n, k | SpecValue(a, n, k) != None ensures exists h :: Value(s', h, n, k) != None {
      var h :| Value(s, h, n, k) != None;
      assert Value(s', h, n, k) != None;
    }
  }

  lemma PutValueAt(s: State, n: Name, k: uint64, v: VData, h: Host, n': Name, k': uint64)
    requires s.owners != [] && Placed(s)
    ensures Value(Put(s, n, k, v), h, n', k') ==
            if n' != n || k' != k then Value(s, h, n', k') else if h == Primary(s) then Some(v) else None
  {
    hide Put;
    PutMaps(s, n, k, v, h, n');
  }

  lemma PutData(s: State, a: Spec, n: Name, k: uint64, v: VData)
    requires s.owners != [] && Placed(s) && DataOk(s, a)
    ensures DataOk(Put(s, n, k, v), SpecDo(a, PutStep(n, k, v)))
  {
    hide Put, Value, MapOf, Placed;
    var s', a' := Put(s, n, k, v), SpecDo(a, PutStep(n, k, v));
    forall h, n', k'
      ensures Value(s', h, n', k') ==
              if n' != n || k' != k then Value(s, h, n', k') else if h == Primary(s) then Some(v) else None
    {
      PutValueAt(s, n, k, v, h, n', k');
    }
    forall n', k' | SpecValue(a', n', k') != None ensures exists h :: Value(s', h, n', k') != None {
      if n' != n || k' != k {
        assert SpecValue(a, n', k') != None;
        var h :| Value(s, h, n', k') != None;
        assert Value(s', h, n', k') != None;
      } else {
        assert Value(s', Primary(s), n', k') != None;
      }
    }
  }

  lemma DeleteValueAt(s: State, n: Name, k: uint64, h: Host, n': Name, k': uint64)
    requires s.owners != [] && Placed(s)
    ensures Value(Delete(s, n, k), h, n', k') == if n' != n || k' != k then Value(s, h, n', k') else None
  {
    hide Delete;
    DeleteMaps(s, n, k, h, n');
  }

  lemma DeleteData(s: State, a: Spec, n: Name, k: uint64)
    requires s.owners != [] && Placed(s) && DataOk(s, a)
    ensures DataOk(Delete(s, n, k), SpecDo(a, DeleteStep(n, k)))
  {
    hide Delete, Value, MapOf, Placed;
    var s', a' := Delete(s, n, k), SpecDo(a, DeleteStep(n, k));
    forall h, n', k'
      ensures Value(s', h, n', k') == if n' != n || k' != k then Value(s, h, n', k') else None
    {
      DeleteValueAt(s, n, k, h, n', k');
    }
    forall n', k' | SpecValue(a', n', k') != None ensures exists h :: Value(s', h, n', k') != None {
      assert SpecValue(a, n', k') != None;
      var h :| Value(s, h, n', k') != None;
      assert Value(s', h, n', k') != None;
    }
  }

  lemma MoveValueAt(s: State, from: Host, n: Name, h: Host, n': Name, k': uint64)
    requires Placed(s) && Enabled(s, MoveStep(from, n))
    ensures var p := Primary(s);
            && from != p
            && Value(Move(s, from, n), h, n', k') ==
               if n' != n then Value(s, h, n', k')
               else if h == from then None
               else if h == p && Value(s, p, n', k') == None then Value(s, from, n', k')
               else Value(s, h, n', k')
  {
    hide Move, Placed;
    MoveMaps(s, from, n, h, n');
  }

  lemma MoveData(s: State, a: Spec, from: Host, n: Name)
    requires Placed(s) && DataOk(s, a) && Enabled(s, MoveStep(from, n))
    ensures DataOk(Move(s, from, n), a)
  {
    hide Move, Value, MapOf, Placed;
    var s', p := Move(s, from, n), Primary(s);
    MoveValueAt(s, from, n, p, n, 0);
    forall h, n', k'
      ensures Value(s', h, n', k') ==
              if n' != n then Value(s, h, n', k')
              else if h == from then None
              else if h == p && Value(s, p, n', k') == None then Value(s, from, n', k')
              else Value(s, h, n', k')
    {
      MoveValueAt(s, from, n, h, n', k');
    }
    forall n', k' | SpecValue(a, n', k') != None ensures exists h :: Value(s', h, n', k') != None {
      var h :| Value(s, h, n', k') != None;
      assert if n' == n && h == from then Value(s', p, n', k') != None else Value(s', h, n', k') != None;
    }
  }

  lemma DestroyData(s: State, a: Spec, n: Name)
    requires DataOk(s, a)
    ensures DataOk(DestroyOn(s, s.parts.Keys, n), SpecDo(a, DestroyStep(n)))
  {
    hide MapOf;
    var s', a' := DestroyOn(s, s.parts.Keys, n), SpecDo(a, DestroyStep(n));
    forall h, n', k' ensures Value(s', h, n', k') == if n' != n then Value(s, h, n', k') else None {
      AbsentHost(s, h, n);
    }
    hide Value, DestroyOn;
    forall n', k' | SpecValue(a', n', k') != None ensures exists h :: Value(s', h, n', k') != None {
      assert SpecValue(a, n', k') != None;
      var h :| Value(s, h, n', k') != None;
      assert Value(s', h, n', k') != None;
    }
  }

  lemma AbsentHost(s: State, h: Host, n: Name)
    ensures h !in s.parts ==> MapOf(s, h, n) == NOTHING
  {
  }

  // ---------- locks ----------

  lemma TouchMaps(s: State, h: Host, n: Name)
    ensures SameMaps(s, Touch(s, h, n)) && Touch(s, h, n).owners == s.owners
  {
    hide MapOf;
  }

  /** The search changes no contents and returns an owner with the entry, or `this_` if no other owner has it. */
  lemma {:induction false} FindLockResult(s: State, owners: seq<Host>, this_: Host, n: Name, key: LockName)
    ensures var (s1, o) := FindLock(s, owners, this_, n, key);
            && SameMaps(s, s1) && s1.owners == s.owners
            && (o != this_ ==> o in owners && key in MapOf(s, o, n).locks)
            && (o == this_ ==> forall h <- owners :: h != this_ ==> key !in MapOf(s, h, n).locks)
    decreases |owners|
  {
    hide MapOf, Touch;
    if owners != [] {
      var last, init := owners[|owners| - 1], owners[..|owners| - 1];
      assert forall h :: h in owners <==> h == last || h in init;
      TouchMaps(s, last, n);
      if last == this_ {
        FindLockResult(s, init, this_, n, key);
      } else if key !in MapOf(s, last, n).locks {
        FindLockResult(Touch(s, last, n), init, this_, n, key);
      }
    }
  }

  /** Where no owner other than `p` has the entry, `p` has all there is of it. */
  lemma CountAt(s: State, a: Spec, n: Name, key: LockName, o: Host)
    requires Placed(s) && LocksOk(s, a)
    requires key in MapOf(s, o, n).locks || forall h <- s.owners :: h != o ==> key !in MapOf(s, h, n).locks
    ensures LockCount(s, o, n, key) == SpecCount(a, n, key)
  {
    if key in MapOf(s, o, n).locks {
      assert LockCount(s, o, n, key) > 0;
    } else if SpecCount(a, n, key) > 0 {
      assert false;
    }
  }

  function LockedOnce(d: DMap, key: LockName, c: nat): DMap {
    d.(locks := d.locks[key := c + 1])
  }

  /** `lockKey` adds one to the one entry there is, or makes the first one at the primary. */
  lemma LockTarget(s: State, a: Spec, n: Name, key: LockName) returns (o: Host)
    requires s.owners != [] && Placed(s) && LocksOk(s, a)
    ensures o in s.owners && LockCount(s, o, n, key) == SpecCount(a, n, key)
    ensures Lock(s, n, key).owners == s.owners
    ensures forall h, n' :: MapOf(Lock(s, n, key), h, n') ==
              if h == o && n' == n then LockedOnce(MapOf(s, o, n), key, LockCount(s, o, n, key)) else MapOf(s, h, n')
  {
    hide MapOf, Touch, Placed, LocksOk, FindLock;
    var p := Primary(s);
    var s1 := Touch(s, p, n);
    TouchMaps(s, p, n);
    if key in MapOf(s1, p, n).locks {
      o := p;
    } else {
      FindLockResult(s1, s1.owners, p, n, key);
      o := FindLock(s1, s1.owners, p, n, key).1;
    }
    CountAt(s, a, n, key, o);
  }

  lemma LockLocks(s: State, a: Spec, n: Name, key: LockName)
    requires s.owners != [] && Placed(s) && LocksOk(s, a)
    ensures LocksOk(Lock(s, n, key), SpecDo(a, LockStep(n, key)))
  {
    var o := LockTarget(s, a, n, key);
    hide MapOf, Lock, Placed;
    var s', a' := Lock(s, n, key), SpecDo(a, LockStep(n, key));
    forall h, n', key'
      ensures LockCount(s', h, n', key') == LockCount(s, h, n', key') + if h == o && n' == n && key' == key then 1 else 0
    {
    }
    hide LockCount;
    CountTransfer(s, s', a, a', n, key, o);
  }

  /** Changing the count of one entry at its only holder to that of the lock table keeps the agreement. */
  lemma CountTransfer(s: State, s': State, a: Spec, a': Spec, n: Name, key: LockName, o: Host)
    requires LocksOk(s, a) && LockCount(s, o, n, key) == SpecCount(a, n, key)
    requires LockCount(s', o, n, key) == SpecCount(a', n, key)
    requires forall h, n', key' :: !(h == o && n' == n && key' == key) ==>
               LockCount(s', h, n', key') == LockCount(s, h, n', key')
    requires forall n', key' :: !(n' == n && key' == key) ==> SpecCount(a', n', key') == SpecCount(a, n', key')
    requires forall h, n', key' :: key' in MapOf(s', h, n').locks ==> LockCount(s', h, n', key') > 0
    ensures LocksOk(s', a')
  {
    hide LockCount, MapOf, SpecCount;
    forall h | LockCount(s, h, n, key) > 0 ensures h == o {
    }
    forall n', key' | SpecCount(a', n', key') > 0 ensures exists h :: LockCount(s', h, n', key') > 0 {
      if n' == n && key' == key {
        assert LockCount(s', o, n', key') > 0;
      } else {
        assert SpecCount(a, n', key') > 0;
        var h :| LockCount(s, h, n', key') > 0;
        assert LockCount(s', h, n', key') > 0;
      }
    }
  }

  /** `unlockKey` reaches the entry if there is one, and reports a missing lock exactly when there is none. */
  lemma UnlockTarget(s: State, a: Spec, n: Name, key: LockName) returns (o: Host)
    requires s.owners != [] && Placed(s) && LocksOk(s, a)
    ensures o in s.owners && LockCount(s, o, n, key) == SpecCount(a, n, key)
    ensures Unlock(s, n, key).0.owners == s.owners
    ensures Unlock(s, n, key).1 <==> SpecCount(a, n, key) > 0
    ensures forall h, n' :: h != o || n' != n ==> MapOf(Unlock(s, n, key).0, h, n') == MapOf(s, h, n')
    ensures var d, c := MapOf(s, o, n), LockCount(s, o, n, key);
            MapOf(Unlock(s, n, key).0, o, n) ==
            if c == 0 then d else if c == 1 then d.(locks := d.locks - {key}) else d.(locks := d.locks[key := c - 1])
  {
    hide MapOf, Placed, FindLock;
    var p := Primary(s);
    FindLockResult(s, s.owners, p, n, key);
    o := FindLock(s, s.owners, p, n, key).1;
    CountAt(s, a, n, key, o);
  }

  lemma UnlockLocks(s: State, a: Spec, n: Name, key: LockName)
    requires s.owners != [] && Placed(s) && LocksOk(s, a)
    ensures LocksOk(Unlock(s, n, key).0, SpecDo(a, UnlockStep(n, key)))
  {
    var o := UnlockTarget(s, a, n, key);
    hide MapOf, Unlock, Placed;
    var s', a' := Unlock(s, n, key).0, SpecDo(a, UnlockStep(n, key));
    CountTransfer(s, s', a, a', n, key, o);
  }

  lemma SameLocks(s: State, s': State, a: Spec)
    requires LocksOk(s, a) && forall h, n :: MapOf(s', h, n).locks == MapOf(s, h, n).locks
    ensures LocksOk(s', a)
  {
    hide MapOf;
    forall h, n, key ensures LockCount(s', h, n, key) == LockCount(s, h, n, key) {
      assert MapOf(s', h, n).locks == MapOf(s, h, n).locks;
    }
    forall n, key | SpecCount(a, n, key) > 0 ensures exists h :: LockCount(s', h, n, key) > 0 {
      var h :| LockCount(s, h, n, key) > 0;
      assert LockCount(s', h, n, key) > 0;
    }
  }

  lemma MoveLocks(s: State, a: Spec, from: Host, n: Name)
    requires Placed(s) && LocksOk(s, a) && Enabled(s, MoveStep(from, n))
    ensures LocksOk(Move(s, from, n), a)
  {
    hide Move, LocksOk, MapOf, Placed;
    var s' := Move(s, from, n);
    forall h, n' ensures MapOf(s', h, n').locks == MapOf(s, h, n').locks {
      MoveMaps(s, from, n, h, n');
    }
    SameLocks(s, s', a);
  }

  lemma DestroyLocks(s: State, a: Spec, n: Name)
    requires LocksOk(s, a)
    ensures LocksOk(DestroyOn(s, s.parts.Keys, n), SpecDo(a, DestroyStep(n)))
  {
    hide MapOf;
    var s', a' := DestroyOn(s, s.parts.Keys, n), SpecDo(a, DestroyStep(n));
    forall h, n' ensures MapOf(s', h, n') == if n' != n then MapOf(s, h, n') else NOTHING {
      AbsentHost(s, h, n);
    }
    hide DestroyOn;
    forall n', key | SpecCount(a', n', key) > 0 ensures exists h :: LockCount(s', h, n', key) > 0 {
      assert SpecCount(a, n', key) > 0;
      var h :| LockCount(s, h, n', key) > 0;
      assert LockCount(s', h, n', key) > 0;
    }
  }

  // ---------- every step keeps the invariants ----------

  /** Locking and unlocking change no stored key and nothing outside the owner list. */
  lemma LockKeeps(s: State, n: Name, key: LockName, h: Host, n': Name)
    requires s.owners != []
    ensures var s1, s2 := Lock(s, n, key), Unlock(s, n, key).0;
            && s1.owners == s.owners && s2.owners == s.owners
            && MapOf(s1, h, n').data == MapOf(s, h, n').data && MapOf(s2, h, n').data == MapOf(s, h, n').data
            && (h !in s.owners ==> MapOf(s1, h, n') == MapOf(s, h, n') && MapOf(s2, h, n') == MapOf(s, h, n'))
  {
    hide MapOf, FindLock;
    var p := Primary(s);
    TouchMaps(s, p, n);
    var t := Touch(s, p, n);
    hide Touch;
    FindLockResult(t, t.owners, p, n, key);
    FindLockResult(s, s.owners, p, n, key);
    TouchMaps(FindLock(s, s.owners, p, n, key).0, FindLock(s, s.owners, p, n, key).1, n);
  }

  lemma RerouteOwners(s: State, step: Step)
    requires NoDup(s.owners) && step.RerouteStep? && Enabled(s, step)
    ensures var r := NewOwners(s, step.owner, step.members);
            r != [] && NoDup(r) && r[|r| - 1] == step.owner
  {
    hide Primaries, EmptyHosts, NoDup, IsLive;
    PrimariesSound(s.owners, step.owner, step.members, EmptyHosts(s));
  }

  lemma StepPlaced(s: State, step: Step)
    requires Placed(s) && Enabled(s, step) && Honest(s, step)
    ensures Placed(Do(s, step))
  {
    hide MapOf, Put, Delete, Lock, Unlock, Move, NoDup, NewOwners;
    var s' := Do(s, step);
    if step.RerouteStep? {
      RerouteOwners(s, step);
      forall h, n | h !in s'.owners ensures MapOf(s', h, n) == NOTHING {
        SameParts(s, s', h, n);
      }
    } else {
      StepOutside(s, step);
    }
  }

  lemma SameParts(s: State, s': State, h: Host, n: Name)
    requires s'.parts == s.parts
    ensures MapOf(s', h, n) == MapOf(s, h, n)
  {
  }

  /** Steps other than a rebuild keep the owner list and touch no host outside it, save to take maps away. */
  lemma StepOutside(s: State, step: Step)
    requires Placed(s) && Enabled(s, step) && !step.RerouteStep?
    ensures Do(s, step).owners == s.owners
    ensures forall h, n :: h !in s.owners ==> MapOf(Do(s, step), h, n) == NOTHING
  {
    hide MapOf, Put, Delete, Lock, Unlock, Move;
    var s' := Do(s, step);
    if step.PutStep? {
      PutOwners(s, step.n, step.k, step.v);
    } else if step.DeleteStep? {
      DeleteOwners(s, step.n, step.k);
    }
    forall h, n | h !in s.owners ensures MapOf(s', h, n) == NOTHING {
      OneStepOutside(s, step, h, n);
    }
    if step.LockStep? || step.UnlockStep? {
      LockKeeps(s, step.n, step.key, Primary(s), step.n);
    } else if step.MoveStep? {
      MoveMaps(s, step.h, step.n, step.h, step.n);
    }
  }

  lemma PutOwners(s: State, n: Name, k: uint64, v: VData)
    requires s.owners != []
    ensures Put(s, n, k, v).owners == s.owners
  {
  }

  lemma DeleteOwners(s: State, n: Name, k: uint64)
    requires s.owners != []
    ensures Delete(s, n, k).owners == s.owners
  {
  }

  lemma OneStepOutside(s: State, step: Step, h: Host, n: Name)
    requires Placed(s) && Enabled(s, step) && !step.RerouteStep? && h !in s.owners
    ensures MapOf(Do(s, step), h, n) == NOTHING
  {
    hide MapOf, Put, Delete, Lock, Unlock, Move, NoDup;
    match step
    case PutStep(n', k, v) => PutMaps(s, n', k, v, h, n);
    case DeleteStep(n', k) => DeleteMaps(s, n', k, h, n);
    case LockStep(n', key) => LockKeeps(s, n', key, h, n);
    case UnlockStep(n', key) => LockKeeps(s, n', key, h, n);
    case MoveStep(from, n') => MoveMaps(s, from, n', h, n);
    case GetStep(n') =>
    case StaleStep(h', n') =>
    case DestroyStep(n') =>
    case RerouteStep(_, _) =>
  }

  lemma StepData(s: State, a: Spec, step: Step)
    requires Placed(s) && DataOk(s, a) && Enabled(s, step)
    ensures DataOk(Do(s, step), SpecDo(a, step))
  {
    hide DataOk, MapOf, Put, Delete, Lock, Unlock, Move, NewOwners, Placed;
    match step
    case PutStep(n, k, v) => PutData(s, a, n, k, v);
    case DeleteStep(n, k) => DeleteData(s, a, n, k);
    case MoveStep(h, n) => MoveData(s, a, h, n);
    case DestroyStep(n) => DestroyData(s, a, n);
    case _ =>
      var s' := Do(s, step);
      forall h, n, k ensures Value(s', h, n, k) == Value(s, h, n, k) {
        QuietStep(s, step, h, n);
      }
      SameData(s, s', a);
      SpecDataOnly(s', a, SpecDo(a, step));
  }

  lemma SpecDataOnly(s: State, a: Spec, b: Spec)
    requires DataOk(s, a) && a.data == b.data
    ensures DataOk(s, b)
  {
    hide MapOf, Value;
    assert forall n, k :: SpecValue(a, n, k) == SpecValue(b, n, k);
  }

  /** Steps that store and delete no key. */
  lemma QuietStep(s: State, step: Step, h: Host, n: Name)
    requires Enabled(s, step)
    requires step.GetStep? || step.LockStep? || step.UnlockStep? || step.RerouteStep? || step.StaleStep?
    ensures MapOf(Do(s, step), h, n).data == MapOf(s, h, n).data
  {
    hide MapOf, Lock, Unlock, NewOwners;
    match step
    case LockStep(n', key) => LockKeeps(s, n', key, h, n);
    case UnlockStep(n', key) => LockKeeps(s, n', key, h, n);
    case RerouteStep(_, _) => SameParts(s, Do(s, step), h, n);
    case GetStep(_) =>
    case StaleStep(_, _) =>
  }

  lemma StepLocks(s: State, a: Spec, step: Step)
    requires Placed(s) && LocksOk(s, a) && Enabled(s, step) && KeepsLocks(s, step)
    ensures LocksOk(Do(s, step), SpecDo(a, step))
  {
    hide LocksOk, MapOf, Put, Delete, Lock, Unlock, Move, NewOwners, Placed;
    match step
    case LockStep(n, key) => LockLocks(s, a, n, key);
    case UnlockStep(n, key) => UnlockLocks(s, a, n, key);
    case MoveStep(h, n) => MoveLocks(s, a, h, n);
    case DestroyStep(n) => DestroyLocks(s, a, n);
    case _ =>
      var s' := Do(s, step);
      forall h, n ensures MapOf(s', h, n).locks == MapOf(s, h, n).locks {
        LockQuietStep(s, step, h, n);
      }
      SameLocks(s, s', a);
      assert SpecDo(a, step).locks == a.locks;
      SpecLocksOnly(s', a, SpecDo(a, step));
  }

  lemma SpecLocksOnly(s: State, a: Spec, b: Spec)
    requires LocksOk(s, a) && a.locks == b.locks
    ensures LocksOk(s, b)
  {
    hide MapOf, LockCount;
    assert forall n, key :: SpecCount(a, n, key) == SpecCount(b, n, key);
  }

  lemma LockQuietStep(s: State, step: Step, h: Host, n: Name)
    requires Placed(s) && Enabled(s, step) && KeepsLocks(s, step)
    requires step.PutStep? || step.DeleteStep? || step.GetStep? || step.RerouteStep? || step.StaleStep?
    ensures MapOf(Do(s, step), h, n).locks == MapOf(s, h, n).locks
  {
    hide MapOf, Put, Delete, NewOwners, Placed;
    match step
    case PutStep(n', k, v) => PutMaps(s, n', k, v, h, n);
    case DeleteStep(n', k) => DeleteMaps(s, n', k, h, n);
    case RerouteStep(_, _) => SameParts(s, Do(s, step), h, n);
    case GetStep(_) =>
    case StaleStep(_, _) =>
  }

  // ---------- runs ----------

  lemma {:induction false} RunRefines(s: State, a: Spec, steps: seq<Step>)
    requires Placed(s) && DataOk(s, a) && IsRun(s, steps)
    ensures Placed(After(s, steps)) && DataOk(After(s, steps), SpecAfter(a, steps))
    decreases |steps|
  {
    hide Placed, DataOk, Enabled, Do, Honest, SpecDo;
    if steps != [] {
      StepPlaced(s, steps[0]);
      StepData(s, a, steps[0]);
      RunRefines(Do(s, steps[0]), SpecDo(a, steps[0]), steps[1..]);
    }
  }

  ghost predicate AllKeepLocks(s: State, steps: seq<Step>)
    requires IsRun(s, steps)
    decreases |steps|
  {
    steps != [] ==> KeepsLocks(s, steps[0]) && AllKeepLocks(Do(s, steps[0]), steps[1..])
  }

  lemma {:induction false} RunLocks(s: State, a: Spec, steps: seq<Step>)
    requires Placed(s) && LocksOk(s, a) && IsRun(s, steps) && AllKeepLocks(s, steps)
    ensures LocksOk(After(s, steps), SpecAfter(a, steps))
    decreases |steps|
  {
    hide Placed, LocksOk, Enabled, Do, Honest, SpecDo, KeepsLocks;
    if steps != [] {
      StepPlaced(s, steps[0]);
      StepLocks(s, a, steps[0]);
      RunLocks(Do(s, steps[0]), SpecDo(a, steps[0]), steps[1..]);
    }
  }

  lemma StartOk()
    ensures Placed(START) && DataOk(START, EMPTY) && LocksOk(START, EMPTY)
  {
  }

  lemma {:induction false} GetPrevFinds(s: State, hosts: seq<Host>, n: Name, k: uint64, now: nat, v: Option<VData>)
    requires forall h <- hosts :: Value(s, h, n, k) == None || Value(s, h, n, k) == v
    ensures GetPrev(s, hosts, n, k, now) == if exists h <- hosts :: Value(s, h, n, k) != None then Unexpired(v, now) else None
  {
    hide Value;
    if hosts != [] {
      var last, init := hosts[|hosts| - 1], hosts[..|hosts| - 1];
      assert forall h <- init :: h in hosts;
      assert last in hosts;
      assert hosts == init + [last];
      GetPrevFinds(s, init, n, k, now, v);
    }
  }

  /** A copy a reader would be given. */
  ghost predicate Readable(v: Option<VData>, now: nat) {
    v.Some? && (v.value.ttl == 0 || now < v.value.ttl * 1_000_000)
  }

  /** Whoever holds copies: of the previous owners the last one with a readable copy answers. */
  lemma {:induction false} GetPrevLast(s: State, hosts: seq<Host>, n: Name, k: uint64, now: nat, i: nat)
    requires i <= |hosts| && forall j | i <= j < |hosts| :: !Readable(Value(s, hosts[j], n, k), now)
    requires i > 0 ==> Readable(Value(s, hosts[i - 1], n, k), now)
    ensures GetPrev(s, hosts, n, k, now) == if i > 0 then Some(Value(s, hosts[i - 1], n, k).value.value) else None
    decreases |hosts|
  {
    hide Value;
    if hosts != [] {
      var last, init := hosts[|hosts| - 1], hosts[..|hosts| - 1];
      if Value(s, last, n, k) != None {
        ExpiredExact(Value(s, last, n, k).value.ttl, now);
      }
      if i < |hosts| {
        assert forall j | 0 <= j < |init| :: init[j] == hosts[j];
        GetPrevLast(s, init, n, k, now, i);
      }
    }
  }

  /** The primary's own copy decides, readable or not; without one the last previous owner with a readable copy does. */
  lemma AnswerFirst(s: State, n: Name, k: uint64, now: nat, i: nat)
    requires s.owners != [] && i < |s.owners| && forall j | i <= j < |s.owners| - 1 :: !Readable(Value(s, s.owners[j], n, k), now)
    requires i > 0 ==> Readable(Value(s, s.owners[i - 1], n, k), now)
    ensures var own := Value(s, Primary(s), n, k);
            Answer(s, n, k, now) ==
            if own.Some? then if Readable(own, now) then Some(own.value.value) else None
            else if i > 0 then Some(Value(s, s.owners[i - 1], n, k).value.value) else None
  {
    hide Value, GetPrev;
    var own := Value(s, Primary(s), n, k);
    if own.Some? {
      ExpiredExact(own.value.ttl, now);
    } else {
      assert forall j | 0 <= j < |Previous(s)| :: Previous(s)[j] == s.owners[j];
      GetPrevLast(s, Previous(s), n, k, now, i);
    }
  }

  lemma AnswerExact(s: State, a: Spec, n: Name, k: uint64, now: nat)
    requires s.owners != [] && Placed(s) && DataOk(s, a)
    ensures var v := SpecValue(a, n, k);
            Answer(s, n, k, now) ==
            if v.Some? && (v.value.ttl == 0 || now < v.value.ttl * 1_000_000) then Some(v.value.value) else None
  {
    hide Value, GetPrev;
    if SpecValue(a, n, k) != None {
      ExpiredExact(SpecValue(a, n, k).value.ttl, now);
    }
    var p, hosts := Primary(s), Previous(s);
    GetPrevFinds(s, hosts, n, k, now, SpecValue(a, n, k));
    if SpecValue(a, n, k) != None && Value(s, p, n, k) == None {
      var h :| Value(s, h, n, k) != None;
      HolderListed(s, h, n, k);
      assert s.owners == hosts + [p];
    }
  }

  lemma HolderListed(s: State, h: Host, n: Name, k: uint64)
    requires Placed(s) && Value(s, h, n, k) != None
    ensures h in s.owners
  {
  }

  /** Over every run of client operations, owner list rebuilds, moves and clean-ups in which rebuilds drop only hosts
      that hold nothing, a read at the primary returns exactly what one unpartitioned map would, and every key is
      on at most one host, a listed owner. */
  lemma ReadsLikeOneMap(steps: seq<Step>, n: Name, k: uint64, now: nat)
    requires IsRun(START, steps)
    ensures var s, a := After(START, steps), SpecAfter(EMPTY, steps);
            && (var v := SpecValue(a, n, k);
                s.owners != [] ==>
                  Answer(s, n, k, now) ==
                  if v.Some? && (v.value.ttl == 0 || now < v.value.ttl * 1_000_000) then Some(v.value.value) else None)
            && (forall g, h :: Value(s, g, n, k) != None && Value(s, h, n, k) != None ==> g == h && g in s.owners)
  {
    hide Answer, Do, Enabled, Honest;
    StartOk();
    RunRefines(START, EMPTY, steps);
    var s := After(START, steps);
    if s.owners != [] {
      AnswerExact(s, SpecAfter(EMPTY, steps), n, k, now);
    }
    forall g, h | Value(s, g, n, k) != None && Value(s, h, n, k) != None ensures g == h && g in s.owners {
      HolderListed(s, g, n, k);
    }
  }

  /** Over every such run that cleans no locked map away, at most one host has a lock entry for a key, its count is
      the number of lock calls not yet undone, and unlocking reports a missing lock exactly when there are none. */
  lemma LocksLikeOneTable(steps: seq<Step>, n: Name, key: LockName)
    requires IsRun(START, steps) && AllKeepLocks(START, steps)
    ensures var s, a := After(START, steps), SpecAfter(EMPTY, steps);
            && (forall g, h :: LockCount(s, g, n, key) > 0 && LockCount(s, h, n, key) > 0 ==> g == h)
            && (forall h :: LockCount(s, h, n, key) > 0 ==> LockCount(s, h, n, key) == SpecCount(a, n, key))
            && (s.owners != [] ==> (Unlock(s, n, key).1 <==> SpecCount(a, n, key) > 0))
  {
    hide Do, Enabled, Honest, KeepsLocks, Unlock;
    StartOk();
    RunRefines(START, EMPTY, steps);
    RunLocks(START, EMPTY, steps);
    var s, a := After(START, steps), SpecAfter(EMPTY, steps);
    if s.owners != [] {
      var o := UnlockTarget(s, a, n, key);
    }
  }

  // ---------- when the hypotheses fail ----------

  /** Cleaning away a map with a locked key makes the lock vanish: an unlock by its holder reports it missing. */
  lemma StaleLosesLock(s: State, a: Spec, h: Host, n: Name, key: LockName)
    requires s.owners != [] && Placed(s) && LocksOk(s, a)
    requires Enabled(s, StaleStep(h, n)) && LockCount(s, h, n, key) > 0
    ensures SpecCount(a, n, key) > 0 && !Unlock(Do(s, StaleStep(h, n)), n, key).1
  {
    hide Unlock, Placed;
    var s' := Do(s, StaleStep(h, n));
    forall g ensures key !in MapOf(s', g, n).locks {
      assert g == h || LockCount(s, g, n, key) == 0;
    }
    NobodyHas(s', n, key);
  }

  lemma NobodyHas(s: State, n: Name, key: LockName)
    requires s.owners != [] && forall g :: key !in MapOf(s, g, n).locks
    ensures !Unlock(s, n, key).1
  {
    hide MapOf, FindLock;
    FindLockResult(s, s.owners, Primary(s), n, key);
  }

  /** Cleaning a map away keeps the lock table right exactly if nothing in the map is locked. */
  lemma StaleExact(s: State, a: Spec, h: Host, n: Name)
    requires s.owners != [] && Placed(s) && LocksOk(s, a) && Enabled(s, StaleStep(h, n))
    ensures LocksOk(Do(s, StaleStep(h, n)), a) <==> MapOf(s, h, n).locks == map[]
  {
    hide Placed, Unlock;
    var s' := Do(s, StaleStep(h, n));
    if MapOf(s, h, n).locks == map[] {
      StepLocks(s, a, StaleStep(h, n));
    } else {
      var key :| key in MapOf(s, h, n).locks;
      StaleLosesLock(s, a, h, n, key);
      StepPlaced(s, StaleStep(h, n));
      if LocksOk(s', a) {
        var o := UnlockTarget(s', a, n, key);
      }
    }
  }

  /** And it happens: a key of a map without entries is locked, the map is cleaned away, and the holder's unlock fails. */
  lemma StaleLosesLockReachable(h: Host, n: Name, key: LockName)
    ensures var steps := [RerouteStep(h, [h]), LockStep(n, key), StaleStep(h, n)];
            && IsRun(START, steps)
            && var s := After(START, steps);
            s.owners == [h] && SpecCount(SpecAfter(EMPTY, steps), n, key) == 1 && !Unlock(s, n, key).1
  {
    hide Do, Enabled, Honest, Unlock;
    var a, b, c := RerouteStep(h, [h]), LockStep(n, key), StaleStep(h, n);
    FirstReroute(h);
    FirstLock(h, n, key);
    LockedStale(h, n, key);
    ThreeSteps(START, a, b, c);
    ThreeSpecSteps(EMPTY, a, b, c);
  }

  lemma ThreeSpecSteps(s: Spec, a: Step, b: Step, c: Step)
    ensures SpecAfter(s, [a, b, c]) == SpecDo(SpecDo(SpecDo(s, a), b), c)
  {
    hide SpecDo;
    var s1 := SpecDo(s, a);
    var s2 := SpecDo(s1, b);
    assert [a, b, c][1..] == [b, c] && [b, c][1..] == [c] && [c][1..] == [];
    assert SpecAfter(s2, [c]) == SpecDo(s2, c);
    assert SpecAfter(s1, [b, c]) == SpecAfter(s2, [c]);
  }

  lemma FirstLock(h: Host, n: Name, key: LockName)
    ensures var s, b := State([h], map[]), LockStep(n, key);
            && Enabled(s, b) && Honest(s, b)
            && Do(s, b) == State([h], map[h := Part(map[n := DMap(map[], map[key := 1])], 1)])
  {
    var s := State([h], map[]);
    var s1 := Touch(s, h, n);
    assert s1 == State([h], map[h := Part(map[n := NOTHING], 1)]);
    assert [h][..0] == [];
    assert FindLock(s1, [h], h, n, key) == FindLock(s1, [], h, n, key) == (s1, h);
    assert Lock(s, n, key) == LockAt(s1, h, n, key);
    var d := DMap(map[], map[key := 1]);
    assert NOTHING.locks[key := 1] == map[key := 1];
    assert map[n := NOTHING][n := d] == map[n := d];
    assert s1.parts[h := Part(map[n := d], 1)] == map[h := Part(map[n := d], 1)];
  }

  lemma LockedStale(h: Host, n: Name, key: LockName)
    ensures var s, c := State([h], map[h := Part(map[n := DMap(map[], map[key := 1])], 1)]), StaleStep(h, n);
            Enabled(s, c) && Honest(s, c) && Do(s, c).owners == [h] && !Unlock(Do(s, c), n, key).1
  {
    hide Unlock;
    var s := State([h], map[h := Part(map[n := DMap(map[], map[key := 1])], 1)]);
    NobodyHas(Do(s, StaleStep(h, n)), n, key);
  }

  lemma ThreeSteps(s: State, a: Step, b: Step, c: Step)
    requires Enabled(s, a) && Honest(s, a) && Enabled(Do(s, a), b) && Honest(Do(s, a), b)
    requires Enabled(Do(Do(s, a), b), c) && Honest(Do(Do(s, a), b), c)
    ensures IsRun(s, [a, b, c]) && After(s, [a, b, c]) == Do(Do(Do(s, a), b), c)
  {
    hide Do, Enabled, Honest, IsRun, After;
    var s1 := Do(s, a);
    var s2 := Do(s1, b);
    assert [c] == [c] + [] && [b, c] == [b] + [c] && [a, b, c] == [a] + [b, c];
    NoSteps(Do(s2, c));
    StepFirst(s2, c, []);
    StepFirst(s1, b, [c]);
    StepFirst(s, a, [b, c]);
  }

  lemma NoSteps(s: State)
    ensures IsRun(s, []) && After(s, []) == s
  {
  }

  lemma StepFirst(s: State, step: Step, rest: seq<Step>)
    requires Enabled(s, step) && Honest(s, step) && IsRun(Do(s, step), rest)
    ensures IsRun(s, [step] + rest) && After(s, [step] + rest) == After(Do(s, step), rest)
  {
    hide Do, Enabled, Honest;
    assert ([step] + rest)[1..] == rest;
  }

  lemma FirstReroute(h: Host)
    ensures var a := RerouteStep(h, [h]);
            Enabled(START, a) && Honest(START, a) && Do(START, a) == State([h], map[])
  {
  }
}
