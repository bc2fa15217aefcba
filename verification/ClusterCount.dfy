/** The counter a host's emptiness is judged by, and how it drifts from the number of maps the host holds. */
module ClusterCount {
  import opened Bytes
  import opened Entry
  import opened Routing
  import opened Cluster
  import opened ClusterRefinement

  /** Maps held but not counted; negative if maps are counted that are gone. */
  function Drift(s: State, h: Host): int {
    |PartOf(s, h).m| - PartOf(s, h).count
  }

  lemma StoreDrift(s: State, h: Host, n: Name, d: DMap, g: Host)
    ensures Drift(Store(s, h, n, d), g) == Drift(s, g)
  {
    var m := PartOf(s, h).m;
    assert m[n := d].Keys == m.Keys + {n};
  }

  lemma {:induction false} DeleteOnAllDrift(s: State, hosts: seq<Host>, n: Name, k: uint64, g: Host)
    ensures Drift(DeleteOnAll(s, hosts, n, k), g) == Drift(s, g)
    decreases |hosts|
  {
    hide Drift, Store;
    if hosts != [] {
      var h := hosts[|hosts| - 1];
      StoreDrift(s, h, n, WithoutKey(MapOf(s, h, n), k), g);
      DeleteOnAllDrift(DeleteOn(s, h, n, k), hosts[..|hosts| - 1], n, k, g);
    }
  }

  lemma {:induction false} FindLockDrift(s: State, owners: seq<Host>, this_: Host, n: Name, key: LockName, g: Host)
    ensures Drift(FindLock(s, owners, this_, n, key).0, g) == Drift(s, g)
    decreases |owners|
  {
    hide Drift, Store;
    if owners != [] {
      var last, init := owners[|owners| - 1], owners[..|owners| - 1];
      StoreDrift(s, last, n, MapOf(s, last, n), g);
      FindLockDrift(s, init, this_, n, key, g);
      FindLockDrift(Touch(s, last, n), init, this_, n, key, g);
    }
  }

  /** A move into a primary that does not have the map yet. */
  predicate CreatesUncounted(s: State, step: Step, h: Host) {
    step.MoveStep? && s.owners != [] && h == Primary(s) && step.n !in PartOf(s, h).m
  }

  predicate DestroysHeld(s: State, step: Step, h: Host) {
    step.DestroyStep? && step.n in PartOf(s, h).m
  }

  lemma RemoveDrift(s: State, h: Host, n: Name, g: Host)
    requires n in PartOf(s, h).m
    ensures Drift(Remove(s, h, n, PartOf(s, h).count - 1), g) == Drift(s, g)
  {
    var m := PartOf(s, h).m;
    assert (m - {n}).Keys == m.Keys - {n};
  }

  lemma MoveDrift(s: State, from: Host, n: Name, g: Host)
    requires NoDup(s.owners) && Enabled(s, MoveStep(from, n))
    ensures Drift(Move(s, from, n), g) == Drift(s, g) + if CreatesUncounted(s, MoveStep(from, n), g) then 1 else 0
  {
    var p, d := Primary(s), MapOf(s, from, n);
    var i :| 0 <= i < |s.owners| - 1 && Previous(s)[i] == from;
    assert s.owners[i] == from && from != p;
    var part := PartOf(s, p);
    hide Drift;
    if n in part.m {
      var d' := DMap(d.data + part.m[n].data, part.m[n].locks);
      StoreDrift(s, p, n, d', g);
      RemoveDrift(Store(s, p, n, d'), from, n, g);
    } else {
      var s1 := s.(parts := s.parts[p := part.(m := part.m[n := DMap(d.data, map[])])]);
      AddUncounted(s, p, n, DMap(d.data, map[]), g);
      RemoveDrift(s1, from, n, g);
    }
  }

  lemma AddUncounted(s: State, p: Host, n: Name, d: DMap, g: Host)
    requires n !in PartOf(s, p).m
    ensures var part := PartOf(s, p);
            Drift(s.(parts := s.parts[p := part.(m := part.m[n := d])]), g) == Drift(s, g) + if g == p then 1 else 0
  {
    assert PartOf(s, p).m[n := d].Keys == PartOf(s, p).m.Keys + {n};
  }

  lemma DestroyDrift(s: State, n: Name, g: Host)
    ensures Drift(DestroyOn(s, s.parts.Keys, n), g) == Drift(s, g) - if n in PartOf(s, g).m then 1 else 0
  {
    var m := PartOf(s, g).m;
    assert (m - {n}).Keys == m.Keys - {n};
  }

  lemma LockDrift(s: State, n: Name, key: LockName, g: Host)
    requires s.owners != []
    ensures Drift(Lock(s, n, key), g) == Drift(s, g) && Drift(Unlock(s, n, key).0, g) == Drift(s, g)
  {
    hide Drift, Store, FindLock;
    var p := Primary(s);
    var t := Touch(s, p, n);
    StoreDrift(s, p, n, MapOf(s, p, n), g);
    FindLockDrift(t, t.owners, p, n, key, g);
    FindLockDrift(s, s.owners, p, n, key, g);
    LockAtDrift(t, p, n, key, g);
    LockAtDrift(FindLock(t, t.owners, p, n, key).0, FindLock(t, t.owners, p, n, key).1, n, key, g);
    LockAtDrift(FindLock(s, s.owners, p, n, key).0, FindLock(s, s.owners, p, n, key).1, n, key, g);
  }

  lemma LockAtDrift(s: State, h: Host, n: Name, key: LockName, g: Host)
    ensures Drift(LockAt(s, h, n, key), g) == Drift(s, g) && Drift(UnlockAt(s, h, n, key).0, g) == Drift(s, g)
  {
    hide Drift, Store;
    var d := MapOf(s, h, n);
    StoreDrift(s, h, n, d, g);
    StoreDrift(s, h, n, d.(locks := d.locks[key := LockCount(s, h, n, key) + 1]), g);
    StoreDrift(s, h, n, d.(locks := d.locks - {key}), g);
    if key in d.locks && d.locks[key] > 1 {
      StoreDrift(s, h, n, d.(locks := d.locks[key := d.locks[key] - 1]), g);
    }
  }

  lemma PutDrift(s: State, n: Name, k: uint64, v: VData, g: Host)
    requires s.owners != []
    ensures Drift(Put(s, n, k, v), g) == Drift(s, g)
  {
    hide Drift, Store, DeleteOnAll;
    var p := Primary(s);
    var d := PutValue(MapOf(s, p, n), k, v);
    StoreDrift(s, p, n, d, g);
    DeleteOnAllDrift(Store(s, p, n, d), Filter(Previous(s), NoneOf([p])), n, k, g);
  }

  lemma DeleteDrift(s: State, n: Name, k: uint64, g: Host)
    requires s.owners != []
    ensures Drift(Delete(s, n, k), g) == Drift(s, g)
  {
    hide Drift, Store, DeleteOnAll;
    var p := Primary(s);
    var t := Touch(s, p, n);
    StoreDrift(s, p, n, MapOf(s, p, n), g);
    DeleteOnAllDrift(t, Previous(s), n, k, g);
    var u := DeleteOnAll(t, Previous(s), n, k);
    StoreDrift(u, p, n, WithoutKey(MapOf(u, p, n), k), g);
  }

  lemma OwnersDrift(s: State, owners: seq<Host>, g: Host)
    ensures Drift(s.(owners := owners), g) == Drift(s, g)
  {
  }

  /** Only a move into a host without the map and a destroy change the drift. */
  lemma StepDrift(s: State, step: Step, g: Host)
    requires NoDup(s.owners) && Enabled(s, step)
    ensures Drift(Do(s, step), g) ==
            Drift(s, g) + (if CreatesUncounted(s, step, g) then 1 else 0) - (if DestroysHeld(s, step, g) then 1 else 0)
  {
    hide Drift, Put, Delete, Lock, Unlock, Move, NewOwners, DestroyOn, Remove, Store, NoDup;
    match step
    case PutStep(n, k, v) => PutDrift(s, n, k, v, g);
    case DeleteStep(n, k) => DeleteDrift(s, n, k, g);
    case GetStep(n) => StoreDrift(s, Primary(s), n, MapOf(s, Primary(s), n), g);
    case LockStep(n, key) => LockDrift(s, n, key, g);
    case UnlockStep(n, key) => LockDrift(s, n, key, g);
    case RerouteStep(owner, members) => OwnersDrift(s, NewOwners(s, owner, members), g);
    case MoveStep(h, n) => MoveDrift(s, h, n, g);
    case StaleStep(h, n) => RemoveDrift(s, h, n, g);
    case DestroyStep(n) => DestroyDrift(s, n, g);
  }

  // ---------- who holds a map after it was asked for ----------

  predicate HasMap(s: State, h: Host, n: Name) {
    n in PartOf(s, h).m
  }

  /** Looking a map up on a host creates it there and counts it, exactly if it was not there; nothing else changes. */
  lemma TouchExact(s: State, h: Host, n: Name, g: Host, n': Name)
    ensures var r := Touch(s, h, n);
            && MapOf(r, g, n') == MapOf(s, g, n')
            && (HasMap(r, g, n') <==> HasMap(s, g, n') || (g == h && n' == n))
            && PartOf(r, g).count == PartOf(s, g).count + if g == h && !HasMap(s, h, n) then 1 else 0
  {
  }

  lemma {:induction false} DeleteOnAllHas(s: State, hosts: seq<Host>, n: Name, k: uint64, g: Host, n': Name)
    ensures HasMap(DeleteOnAll(s, hosts, n, k), g, n') <==> HasMap(s, g, n') || (n' == n && g in hosts)
    decreases |hosts|
  {
    if hosts != [] {
      var last, init := hosts[|hosts| - 1], hosts[..|hosts| - 1];
      DeleteOnAllHas(DeleteOn(s, last, n, k), init, n, k, g, n');
      assert g in hosts <==> g == last || g in init;
    }
  }

  /** A search for a lock creates the map on every other owner it asks, which are those from the end of the list up to
      the one that has the lock, and nowhere else. */
  lemma {:induction false} FindLockHas(s: State, owners: seq<Host>, this_: Host, n: Name, key: LockName, i: nat, g: Host)
    requires i <= |owners| && NoDup(owners)
    requires forall j | i <= j < |owners| && owners[j] != this_ :: key !in MapOf(s, owners[j], n).locks
    requires i > 0 ==> owners[i - 1] != this_ && key in MapOf(s, owners[i - 1], n).locks
    ensures HasMap(FindLock(s, owners, this_, n, key).0, g, n) <==>
            HasMap(s, g, n) || exists j :: i - 1 <= j < |owners| && 0 <= j && owners[j] == g && g != this_
    ensures FindLock(s, owners, this_, n, key).1 == if i > 0 then owners[i - 1] else this_
    decreases |owners|
  {
    hide Store;
    if owners != [] {
      var last, init := owners[|owners| - 1], owners[..|owners| - 1];
      TouchExact(s, last, n, g, n);
      if i == |owners| {
        assert owners[|owners| - 1] == last;
      } else {
        var t := if last == this_ then s else Touch(s, last, n);
        forall h ensures MapOf(t, h, n) == MapOf(s, h, n) {
          TouchExact(s, last, n, h, n);
        }
        FindLockHas(t, init, this_, n, key, i, g);
        assert forall j | 0 <= j < |init| :: init[j] == owners[j];
        assert last == owners[|owners| - 1];
      }
    }
  }

  /** After a put, delete, get or lock the primary has the map; after a delete every owner has. */
  lemma StepHas(s: State, step: Step)
    requires NoDup(s.owners) && Enabled(s, step)
    ensures step.PutStep? || step.DeleteStep? || step.GetStep? || step.LockStep? ==>
              HasMap(Do(s, step), Primary(s), step.n)
    ensures step.DeleteStep? ==> forall h <- s.owners :: HasMap(Do(s, step), h, step.n)
  {
    match step
    case PutStep(n, k, v) =>
      var p := Primary(s);
      DeleteOnAllHas(Store(s, p, n, PutValue(MapOf(s, p, n), k, v)), Filter(Previous(s), NoneOf([p])), n, k, p, n);
    case DeleteStep(n, k) =>
      var p := Primary(s);
      forall h | h in s.owners ensures HasMap(Do(s, step), h, n) {
        DeleteOnAllHas(Touch(s, p, n), Previous(s), n, k, h, n);
        assert s.owners == Previous(s) + [p];
      }
    case LockStep(n, key) => LockHas(s, n, key);
    case _ =>
  }

  lemma {:induction false} FindLockKeeps(s: State, owners: seq<Host>, this_: Host, n: Name, key: LockName, g: Host)
    requires HasMap(s, g, n)
    ensures HasMap(FindLock(s, owners, this_, n, key).0, g, n)
    decreases |owners|
  {
    if owners != [] {
      var init := owners[..|owners| - 1];
      FindLockKeeps(s, init, this_, n, key, g);
      FindLockKeeps(Touch(s, owners[|owners| - 1], n), init, this_, n, key, g);
    }
  }

  lemma LockHas(s: State, n: Name, key: LockName)
    requires s.owners != []
    ensures HasMap(Lock(s, n, key), Primary(s), n)
  {
    hide FindLock;
    var p := Primary(s);
    var t := Touch(s, p, n);
    FindLockKeeps(t, t.owners, p, n, key, p);
  }

  // ---------- the law over runs ----------

  /** What happens to the partition: a step of the protocol, or `restoreDMap` storing a map from a snapshot. */
  datatype Event = Stepped(step: Step) | Restored(h: Host, n: Name, data: map<uint64, VData>)

  /** Stores the map over whatever is there, and counts it. */
  function Restore(s: State, h: Host, n: Name, data: map<uint64, VData>): (r: State) {
    s.(parts := s.parts[h := Part(PartOf(s, h).m[n := DMap(data, map[])], PartOf(s, h).count + 1)])
  }

  predicate CanHappen(s: State, ev: Event) {
    ev.Stepped? ==> Enabled(s, ev.step)
  }

  function Happen(s: State, ev: Event): (r: State)
    requires CanHappen(s, ev)
  {
    match ev
    case Stepped(step) => Do(s, step)
    case Restored(h, n, data) => Restore(s, h, n, data)
  }

  /** How the event changes the drift of `h`: up by a map moved in without counting it, down by a map destroyed
      without uncounting it or restored over one that was counted before. */
  function DriftBy(s: State, ev: Event, h: Host): (d: int) {
    match ev
    case Stepped(step) =>
      (if CreatesUncounted(s, step, h) then 1 else 0) - (if DestroysHeld(s, step, h) then 1 else 0)
    case Restored(g, n, _) => if g == h && n in PartOf(s, h).m then -1 else 0
  }

  lemma RestoreDrift(s: State, h: Host, n: Name, data: map<uint64, VData>, g: Host)
    ensures Drift(Restore(s, h, n, data), g) == Drift(s, g) - if g == h && n in PartOf(s, h).m then 1 else 0
  {
    var m := PartOf(s, h).m;
    assert m[n := DMap(data, map[])].Keys == m.Keys + {n};
  }

  /** The restored map holds exactly what the snapshot had, and nothing else changes. */
  lemma RestoreMaps(s: State, h: Host, n: Name, data: map<uint64, VData>, g: Host, n': Name)
    ensures var r := Restore(s, h, n, data);
            && r.owners == s.owners
            && (n' in PartOf(r, g).m <==> n' in PartOf(s, g).m || (g == h && n' == n))
            && MapOf(r, g, n') == if g == h && n' == n then DMap(data, map[]) else MapOf(s, g, n')
  {
  }

  lemma EventDrift(s: State, ev: Event, h: Host)
    requires NoDup(s.owners) && CanHappen(s, ev)
    ensures Drift(Happen(s, ev), h) == Drift(s, h) + DriftBy(s, ev, h)
  {
    hide Drift, CreatesUncounted, DestroysHeld, Do, Enabled, Restore;
    match ev
    case Stepped(step) => StepDrift(s, step, h);
    case Restored(g, n, data) => RestoreDrift(s, g, n, data, h);
  }

  predicate IsHistory(s: State, events: seq<Event>)
    decreases |events|
  {
    events == [] || (CanHappen(s, events[0]) && IsHistory(Happen(s, events[0]), events[1..]))
  }

  function Reached(s: State, events: seq<Event>): State
    requires IsHistory(s, events)
    decreases |events|
  {
    if events == [] then s else Reached(Happen(s, events[0]), events[1..])
  }

  /** The drift of `h` gathered along the way. */
  function Gathered(s: State, events: seq<Event>, h: Host): int
    requires IsHistory(s, events)
    decreases |events|
  {
    if events == [] then 0 else DriftBy(s, events[0], h) + Gathered(Happen(s, events[0]), events[1..], h)
  }

  lemma StepNoDup(s: State, step: Step)
    requires NoDup(s.owners) && Enabled(s, step)
    ensures NoDup(Do(s, step).owners)
  {
    hide NoDup, NewOwners, Put, Delete, Lock, Unlock;
    match step
    case RerouteStep(_, _) => RerouteOwners(s, step);
    case PutStep(n, k, v) => PutOwners(s, n, k, v);
    case DeleteStep(n, k) => DeleteOwners(s, n, k);
    case LockStep(n, key) => LockKeeps(s, n, key, Primary(s), n);
    case UnlockStep(n, key) => LockKeeps(s, n, key, Primary(s), n);
    case _ =>
  }

  lemma EventNoDup(s: State, ev: Event)
    requires NoDup(s.owners) && CanHappen(s, ev)
    ensures NoDup(Happen(s, ev).owners)
  {
    hide NoDup, Do, Enabled;
    match ev
    case Stepped(step) => StepNoDup(s, step);
    case Restored(_, _, _) =>
  }

  /** Over every history, honest or not, maps held minus maps counted moves by what the single events add up to. */
  lemma {:induction false} RunDrift(s: State, events: seq<Event>, h: Host)
    requires NoDup(s.owners) && IsHistory(s, events)
    ensures Drift(Reached(s, events), h) == Drift(s, h) + Gathered(s, events, h)
    decreases |events|
  {
    hide NoDup, Happen, CanHappen, Drift, DriftBy;
    if events != [] {
      EventDrift(s, events[0], h);
      EventNoDup(s, events[0]);
      RunDrift(Happen(s, events[0]), events[1..], h);
    }
  }

  /** From any state, the emptiness test of a host is exact precisely if the initial and the gathered drift cancel out
      where it holds nothing, and do not make up for all it holds where it holds something. */
  lemma EmptinessExact(s: State, events: seq<Event>, h: Host)
    requires NoDup(s.owners) && IsHistory(s, events)
    ensures var part := PartOf(Reached(s, events), h);
            var drift := Drift(s, h) + Gathered(s, events, h);
            && ((part.count == 0 <==> part.m == map[]) <==> if part.m == map[] then drift == 0 else drift != |part.m|)
            && (drift == 0 ==> (part.count == 0 <==> part.m == map[]))
  {
    hide Happen, CanHappen, DriftBy, NoDup;
    RunDrift(s, events, h);
  }

  // ---------- what a rebuild drops ----------

  /** A rebuild is honest exactly if every owner but the chosen one that it finds uncounted or not live holds nothing. */
  lemma HonestExact(s: State, owner: Host, members: seq<Host>)
    requires NoDup(s.owners) && IsLive(members, owner)
    ensures Honest(s, RerouteStep(owner, members)) <==>
            forall h <- s.owners :: h != owner && (PartOf(s, h).count == 0 || !IsLive(members, h)) ==> HoldsNothing(s, h)
  {
    hide NoDup, Primaries, IsLive, HoldsNothing;
    PrimariesSound(s.owners, owner, members, EmptyHosts(s));
    forall h | h in s.owners
      ensures h !in NewOwners(s, owner, members) <==> h != owner && (PartOf(s, h).count == 0 || !IsLive(members, h))
    {
      assert h in EmptyHosts(s) <==> PartOf(s, h).count == 0;
    }
  }

  /** With no drift at the owners, only dead ones are dropped with anything. */
  lemma HonestWhenCounted(s: State, owner: Host, members: seq<Host>)
    requires NoDup(s.owners) && IsLive(members, owner) && forall h <- s.owners :: Drift(s, h) == 0
    ensures Honest(s, RerouteStep(owner, members)) <==>
            forall h <- s.owners :: h != owner && !IsLive(members, h) ==> HoldsNothing(s, h)
  {
    hide NoDup, IsLive, Honest;
    HonestExact(s, owner, members);
    forall h | h in s.owners && PartOf(s, h).count == 0 ensures HoldsNothing(s, h) {
      assert |PartOf(s, h).m| == 0;
    }
  }

  lemma MovedTo(s: State, from: Host, n: Name, k: uint64)
    requires Placed(s) && Enabled(s, MoveStep(from, n)) && Value(s, from, n, k) != None
    ensures var s1 := Do(s, MoveStep(from, n));
            && s1.owners == s.owners && PartOf(s1, Primary(s)).count == PartOf(s, Primary(s)).count
            && Value(s1, Primary(s), n, k) != None
  {
    MoveMaps(s, from, n, Primary(s), n);
  }

  /** A move followed by a rebuild leaves a moved key on no listed owner exactly if the rebuild chooses another
      primary and the one moved to is uncounted or not live. */
  lemma MoveThenRebuildExact(s: State, a: Spec, from: Host, n: Name, k: uint64, owner: Host, members: seq<Host>)
    requires Placed(s) && DataOk(s, a) && Enabled(s, MoveStep(from, n)) && Value(s, from, n, k) != None
    requires IsLive(members, owner)
    ensures var p := Primary(s);
            var s2 := Do(Do(s, MoveStep(from, n)), RerouteStep(owner, members));
            && SpecValue(a, n, k) != None
            && ((forall h <- s2.owners :: Value(s2, h, n, k) == None) <==>
                owner != p && (PartOf(s, p).count == 0 || !IsLive(members, p)))
  {
    hide Move, NoDup, IsLive, Primaries, DataOk, Value;
    var p := Primary(s);
    var s1 := Do(s, MoveStep(from, n));
    MovedTo(s, from, n, k);
    MoveData(s, a, from, n);
    PrimariesSound(s1.owners, owner, members, EmptyHosts(s1));
    var s2 := Do(s1, RerouteStep(owner, members));
    assert p in s1.owners;
    assert p in s2.owners <==> p == owner || (PartOf(s, p).count != 0 && IsLive(members, p));
    SameValue(s1, s2, p, n, k);
    forall h | h in s2.owners && h != p ensures Value(s2, h, n, k) == None {
      SameValue(s1, s2, h, n, k);
      OnlyHolder(s1, a, n, k, p, h);
    }
    AgreesAt(s, a, n, k, from);
  }

  lemma SameValue(s: State, s': State, h: Host, n: Name, k: uint64)
    requires s'.parts == s.parts
    ensures Value(s', h, n, k) == Value(s, h, n, k)
  {
  }

  /** Such a state is reached by an honest run: one put, then a second host becomes primary. */
  lemma UncountedMoveReachable(first: Host, second: Host, n: Name, k: uint64, v: VData)
    requires first.name != second.name
    ensures var steps := [RerouteStep(first, [first]), PutStep(n, k, v), RerouteStep(second, [first, second])];
            && IsRun(START, steps)
            && var s := After(START, steps);
            && s.owners == [first, second] && Enabled(s, MoveStep(first, n)) && Value(s, first, n, k) == Some(v)
            && n !in PartOf(s, second).m && PartOf(s, second).count == 0
  {
    hide Do, Enabled, Honest, Put, NewOwners;
    var a, b, c := RerouteStep(first, [first]), PutStep(n, k, v), RerouteStep(second, [first, second]);
    FirstReroute(first);
    var s1 := State([first], map[]);
    SecondPut(first, n, k, v);
    var s2 := State([first], map[first := Part(map[n := DMap(map[k := v], map[])], 1)]);
    ThirdReroute(s2, first, second);
    ThreeSteps(START, a, b, c);
    var s3 := s2.(owners := [first, second]);
    MoveEnabled(s3, first, n);
  }

  /** And so the keys do get lost: the map is moved to the second host, and a third one becomes primary. */
  lemma UncountedMoveLosesKeys(first: Host, second: Host, third: Host, n: Name, k: uint64, v: VData)
    requires first.name != second.name && third.name != first.name && third.name != second.name
    ensures var steps := [RerouteStep(first, [first]), PutStep(n, k, v), RerouteStep(second, [first, second])];
            && IsRun(START, steps)
            && var s, a := After(START, steps), SpecAfter(EMPTY, steps);
            && Enabled(s, MoveStep(first, n)) && IsLive([first, second, third], third)
            && var s2 := Do(Do(s, MoveStep(first, n)), RerouteStep(third, [first, second, third]));
            SpecValue(a, n, k) != None && forall h <- s2.owners :: Value(s2, h, n, k) == None
  {
    hide Do, Enabled, IsLive, Honest, DataOk, Placed, Value;
    var steps := [RerouteStep(first, [first]), PutStep(n, k, v), RerouteStep(second, [first, second])];
    UncountedMoveReachable(first, second, n, k, v);
    StartOk();
    RunRefines(START, EMPTY, steps);
    ThirdLive(first, second, third);
    MoveThenRebuildExact(After(START, steps), SpecAfter(EMPTY, steps), first, n, k, third, [first, second, third]);
  }

  lemma ThirdLive(first: Host, second: Host, third: Host)
    requires third.name != first.name && third.name != second.name
    ensures IsLive([first, second, third], third)
  {
    assert [first, second, third][1..] == [second, third] && [second, third][1..] == [third];
  }

  lemma MoveEnabled(s: State, first: Host, n: Name)
    requires |s.owners| == 2 && s.owners[0] == first && PartOf(s, first).count != 0
    requires n in PartOf(s, first).m && PartOf(s, first).m[n].locks == map[]
    ensures Enabled(s, MoveStep(first, n))
  {
    assert Previous(s)[0] == first;
  }

  lemma SecondPut(h: Host, n: Name, k: uint64, v: VData)
    ensures var s, b := State([h], map[]), PutStep(n, k, v);
            && Enabled(s, b) && Honest(s, b)
            && Do(s, b) == State([h], map[h := Part(map[n := DMap(map[k := v], map[])], 1)])
  {
    hide Put;
    OnePut(h, n, k, v);
  }

  lemma ThirdReroute(s: State, first: Host, second: Host)
    requires s.owners == [first] && PartOf(s, first).count != 0 && first.name != second.name
    ensures var c := RerouteStep(second, [first, second]);
            && Enabled(s, c) && Honest(s, c) && Do(s, c) == s.(owners := [first, second])
  {
    hide NewOwners, IsLive;
    TwoOwners(s, first, second);
  }

  lemma OnePut(h: Host, n: Name, k: uint64, v: VData)
    ensures Put(State([h], map[]), n, k, v) == State([h], map[h := Part(map[n := DMap(map[k := v], map[])], 1)])
  {
    var s := State([h], map[]);
    assert Previous(s) == [];
    FilterNone(NoneOf([h]));
  }

  lemma TwoOwners(s: State, first: Host, second: Host)
    requires s.owners == [first] && PartOf(s, first).count != 0 && first.name != second.name
    ensures IsLive([first, second], first) && IsLive([first, second], second)
    ensures NewOwners(s, second, [first, second]) == [first, second]
  {
    hide Filter, Primaries, IsLive;
    TwoLive(first, second);
    var members, empty := [first, second], EmptyHosts(s);
    PrimariesExact([first], second, members, empty);
    FilterAll([first], Stays([second], members, empty));
  }

  lemma TwoLive(first: Host, second: Host)
    requires first.name != second.name
    ensures IsLive([first, second], first) && IsLive([first, second], second)
  {
    assert [first, second][1..] == [second];
  }

  lemma OnlyHolder(s: State, a: Spec, n: Name, k: uint64, p: Host, h: Host)
    requires DataOk(s, a) && Value(s, p, n, k) != None && h != p
    ensures Value(s, h, n, k) == None
  {
  }

  lemma AgreesAt(s: State, a: Spec, n: Name, k: uint64, h: Host)
    requires DataOk(s, a) && Value(s, h, n, k) != None
    ensures SpecValue(a, n, k) != None
  {
  }
}
