/** One partition of the cluster: its owner list and what every host keeps for it. */
module Cluster {
  import opened Bytes
  import opened Entry
  import opened Routing

  type Name = string
  type LockName = string

  /** A distributed map on one host: its stored keys, and per locked key the number of holders and waiters. */
  datatype DMap = DMap(data: map<uint64, VData>, locks: map<LockName, nat>)

  const NOTHING := DMap(map[], map[])

  /** A host's share of the partition, with the counter its emptiness is judged by. */
  datatype Part = Part(m: map<Name, DMap>, count: int)

  datatype State = State(owners: seq<Host>, parts: map<Host, Part>)

  function PartOf(s: State, h: Host): (p: Part) {
    if h in s.parts then s.parts[h] else Part(map[], 0)
  }

  function MapOf(s: State, h: Host, n: Name): (d: DMap) {
    if n in PartOf(s, h).m then PartOf(s, h).m[n] else NOTHING
  }

  function Value(s: State, h: Host, n: Name, k: uint64): (v: Option<VData>) {
    var data := MapOf(s, h, n).data;
    if k in data then Some(data[k]) else None
  }

  function LockCount(s: State, h: Host, n: Name, key: LockName): (c: nat) {
    var locks := MapOf(s, h, n).locks;
    if key in locks then locks[key] else 0
  }

  function Primary(s: State): (h: Host)
    requires s.owners != []
  {
    s.owners[|s.owners| - 1]
  }

  function Previous(s: State): (hs: seq<Host>)
    requires s.owners != []
  {
    s.owners[..|s.owners| - 1]
  }

  /** Looks the map up on the host, creating it if it is not there, and replaces its contents. */
  function Store(s: State, h: Host, n: Name, d: DMap): (r: State)
    ensures r.owners == s.owners
    ensures forall h', n' :: MapOf(r, h', n') == if h' == h && n' == n then d else MapOf(s, h', n')
  {
    var p := PartOf(s, h);
    s.(parts := s.parts[h := Part(p.m[n := d], if n in p.m then p.count else p.count + 1)])
  }

  /** `getDMap` alone. */
  function Touch(s: State, h: Host, n: Name): (r: State) {
    Store(s, h, n, MapOf(s, h, n))
  }

  /** Takes the map off the host without looking at the counter. */
  function Remove(s: State, h: Host, n: Name, count: int): (r: State)
    ensures r.owners == s.owners
    ensures forall h', n' :: MapOf(r, h', n') == if h' == h && n' == n then NOTHING else MapOf(s, h', n')
  {
    s.(parts := s.parts[h := Part(PartOf(s, h).m - {n}, count)])
  }

  // ---------- put, delete, get ----------

  function WithoutKey(d: DMap, k: uint64): DMap {
    d.(data := d.data - {k})
  }

  /** `deletePrevOperation` on one host. */
  function DeleteOn(s: State, h: Host, n: Name, k: uint64): (r: State) {
    Store(s, h, n, WithoutKey(MapOf(s, h, n), k))
  }

  /** The same on a list of hosts, from its end. */
  function DeleteOnAll(s: State, hosts: seq<Host>, n: Name, k: uint64): (r: State)
    ensures r.owners == s.owners
    decreases |hosts|
  {
    if hosts == [] then s
    else DeleteOnAll(DeleteOn(s, hosts[|hosts| - 1], n, k), hosts[..|hosts| - 1], n, k)
  }

  lemma DeleteOnAllLast(s: State, hosts: seq<Host>, h: Host, n: Name, k: uint64)
    ensures DeleteOnAll(s, hosts + [h], n, k) == DeleteOnAll(DeleteOn(s, h, n, k), hosts, n, k)
  {
    assert (hosts + [h])[..|hosts|] == hosts;
  }

  lemma {:induction false} DeleteOnAllMaps(s: State, hosts: seq<Host>, n: Name, k: uint64, h: Host, n': Name)
    ensures MapOf(DeleteOnAll(s, hosts, n, k), h, n') ==
            if n' == n && h in hosts then WithoutKey(MapOf(s, h, n), k) else MapOf(s, h, n')
    decreases |hosts|
  {
    hide MapOf;
    if hosts != [] {
      var last, init := hosts[|hosts| - 1], hosts[..|hosts| - 1];
      DeleteOnAllMaps(DeleteOn(s, last, n, k), init, n, k, h, n');
      assert h in hosts <==> h == last || h in init;
    }
  }

  function PutValue(d: DMap, k: uint64, v: VData): DMap {
    d.(data := d.data[k := v])
  }

  /** `putKeyVal` at the primary: write, then purge the key on the previous owners. */
  function Put(s: State, n: Name, k: uint64, v: VData): (r: State)
    requires s.owners != []
  {
    var p := Primary(s);
    DeleteOnAll(Store(s, p, n, PutValue(MapOf(s, p, n), k, v)), Filter(Previous(s), NoneOf([p])), n, k)
  }

  method PutKeyVal(s: State, n: Name, k: uint64, v: VData) returns (r: State)
    requires s.owners != []
    ensures r == Put(s, n, k, v)
  {
    hide Store, MapOf, DeleteOn, Filter;
    var this_ := s.owners[|s.owners| - 1];
    r := Store(s, this_, n, PutValue(MapOf(s, this_, n), k, v));
    var owners := s.owners[..|s.owners| - 1];
    var i := |owners|;
    assert owners[..|owners|] == owners;
    while i > 0
      invariant 0 <= i <= |owners|
      invariant Put(s, n, k, v) == DeleteOnAll(r, Filter(owners[..i], NoneOf([this_])), n, k)
    {
      i := i - 1;
      FilterStep(owners, i, NoneOf([this_]));
      var owner := owners[i];
      if owner == this_ {
        continue;
      }
      DeleteOnAllLast(r, Filter(owners[..i], NoneOf([this_])), owner, n, k);
      r := DeleteOn(r, owner, n, k);
    }
    FilterNone(NoneOf([this_]));
    assert owners[..0] == [];
  }

  lemma FilterNone(p: Host -> bool)
    ensures Filter([], p) == []
  {
  }

  /** `delKeyVal` at the primary: previous owners first, then its own copy. */
  function Delete(s: State, n: Name, k: uint64): (r: State)
    requires s.owners != []
  {
    DeleteOn(DeleteOnAll(Touch(s, Primary(s), n), Previous(s), n, k), Primary(s), n, k)
  }

  method DelKeyVal(s: State, n: Name, k: uint64) returns (r: State)
    requires s.owners != []
    ensures r == Delete(s, n, k)
  {
    var this_ := s.owners[|s.owners| - 1];
    r := Touch(s, this_, n);
    var owners := s.owners[..|s.owners| - 1];
    var i := |owners|;
    assert owners[..|owners|] == owners;
    while i > 0
      invariant 0 <= i <= |owners|
      invariant DeleteOnAll(Touch(s, this_, n), owners, n, k) == DeleteOnAll(r, owners[..i], n, k)
    {
      i := i - 1;
      assert owners[..i + 1][..i] == owners[..i];
      r := DeleteOn(r, owners[i], n, k);
    }
    r := DeleteOn(r, this_, n, k);
  }

  /** What a reader of an unpartitioned map would get. */
  function Unexpired(v: Option<VData>, now: nat): (r: Option<seq<byte>>) {
    if v == None || IsKeyExpired(v.value.ttl, now) then None else Some(v.value.value)
  }

  /** `getPrevOperation` on the hosts, from the end of the list. */
  function GetPrev(s: State, hosts: seq<Host>, n: Name, k: uint64, now: nat): (r: Option<seq<byte>>) {
    if hosts == [] then None else
      var v := Unexpired(Value(s, hosts[|hosts| - 1], n, k), now);
      if v != None then v else GetPrev(s, hosts[..|hosts| - 1], n, k, now)
  }

  /** What a read at the primary returns: an expired copy of its own ends the search. */
  function Answer(s: State, n: Name, k: uint64, now: nat): (r: Option<seq<byte>>)
    requires s.owners != []
  {
    if Value(s, Primary(s), n, k) != None then Unexpired(Value(s, Primary(s), n, k), now)
    else GetPrev(s, Previous(s), n, k, now)
  }

  /** `getKeyVal` at the primary. */
  method GetKeyVal(s: State, n: Name, k: uint64, now: nat) returns (r: Option<seq<byte>>, s': State)
    requires s.owners != []
    ensures s' == Touch(s, Primary(s), n)
    ensures r == Answer(s, n, k, now)
  {
    var this_ := s.owners[|s.owners| - 1];
    s' := Touch(s, this_, n);
    var v := Value(s', this_, n, k);
    if v != None {
      if IsKeyExpired(v.value.ttl, now) {
        return None, s';
      }
      return Some(v.value.value), s';
    }
    var owners := s.owners[..|s.owners| - 1];
    var i := |owners|;
    assert owners[..|owners|] == owners;
    while i > 0
      invariant 0 <= i <= |owners|
      invariant GetPrev(s, owners, n, k, now) == GetPrev(s, owners[..i], n, k, now)
    {
      i := i - 1;
      assert owners[..i + 1][..i] == owners[..i];
      var w := Value(s', owners[i], n, k);
      if w == None || IsKeyExpired(w.value.ttl, now) {
        continue;
      }
      return Some(w.value.value), s';
    }
    return None, s';
  }

  // ---------- locks ----------

  function LockAt(s: State, h: Host, n: Name, key: LockName): (r: State) {
    var d := MapOf(s, h, n);
    Store(s, h, n, d.(locks := d.locks[key := LockCount(s, h, n, key) + 1]))
  }

  /** False stands for ErrNoSuchLock. The entry goes when nobody holds or waits any more. */
  function UnlockAt(s: State, h: Host, n: Name, key: LockName): (r: (State, bool)) {
    var d := MapOf(s, h, n);
    if key !in d.locks then (Touch(s, h, n), false)
    else if d.locks[key] <= 1 then (Store(s, h, n, d.(locks := d.locks - {key})), true)
    else (Store(s, h, n, d.(locks := d.locks[key := d.locks[key] - 1])), true)
  }

  /** `findLockKey` at `this_`: asks the other owners from the end of the list; asking creates the map there. */
  function FindLock(s: State, owners: seq<Host>, this_: Host, n: Name, key: LockName): (r: (State, Host))
    decreases |owners|
  {
    if owners == [] then (s, this_) else
      var last, init := owners[|owners| - 1], owners[..|owners| - 1];
      if last == this_ then FindLock(s, init, this_, n, key)
      else if key in MapOf(s, last, n).locks then (Touch(s, last, n), last)
      else FindLock(Touch(s, last, n), init, this_, n, key)
  }

  method FindLockKey(s: State, this_: Host, n: Name, key: LockName) returns (r: (State, Host))
    requires s.owners != []
    ensures r == FindLock(s, s.owners, this_, n, key)
  {
    hide Store, MapOf;
    if |s.owners| == 1 && s.owners[0] == this_ {
      assert s.owners[..0] == [];
      return (s, this_);
    }
    var cur := s;
    var i := |s.owners|;
    assert s.owners[..i] == s.owners;
    while i > 0
      invariant 0 <= i <= |s.owners|
      invariant FindLock(s, s.owners, this_, n, key) == FindLock(cur, s.owners[..i], this_, n, key)
    {
      i := i - 1;
      assert s.owners[..i + 1][..i] == s.owners[..i];
      var owner := s.owners[i];
      if owner == this_ {
        continue;
      }
      var found := key in MapOf(cur, owner, n).locks;
      cur := Touch(cur, owner, n);
      if found {
        return (cur, owner);
      }
    }
    return (cur, this_);
  }

  /** `lockKey` at the primary as one step; a caller that must wait is counted at once. */
  function Lock(s: State, n: Name, key: LockName): (r: State)
    requires s.owners != []
  {
    var p := Primary(s);
    var s1 := Touch(s, p, n);
    if key in MapOf(s1, p, n).locks then LockAt(s1, p, n, key)
    else
      var (s2, owner) := FindLock(s1, s1.owners, p, n, key);
      LockAt(s2, owner, n, key)
  }

  /** `unlockKey` at the primary. */
  function Unlock(s: State, n: Name, key: LockName): (r: (State, bool))
    requires s.owners != []
  {
    var (s1, owner) := FindLock(s, s.owners, Primary(s), n, key);
    UnlockAt(s1, owner, n, key)
  }

  // ---------- moving, pruning ----------

  /** `moveDMap` on a previous owner and `mergeDMaps` on the primary: what the primary has wins.
      A map that did not exist there is stored without counting it. */
  function Move(s: State, h: Host, n: Name): (r: State)
    requires s.owners != []
  {
    var p, d := Primary(s), MapOf(s, h, n);
    var part := PartOf(s, p);
    var s1 := if n in part.m then Store(s, p, n, DMap(d.data + part.m[n].data, part.m[n].locks))
              else s.(parts := s.parts[p := part.(m := part.m[n := DMap(d.data, map[])])]);
    Remove(s1, h, n, PartOf(s1, h).count - 1)
  }

  /** Hosts of the owner list whose counter says they hold nothing. */
  function EmptyHosts(s: State): (e: set<Host>) {
    set h | h in s.owners && PartOf(s, h).count == 0
  }

  function DestroyOn(s: State, hosts: set<Host>, n: Name): (r: State)
    ensures r.owners == s.owners
    ensures forall h', n' :: MapOf(r, h', n') == if n' == n && h' in hosts then NOTHING else MapOf(s, h', n')
  {
    s.(parts := map h | h in s.parts :: if h in hosts then s.parts[h].(m := s.parts[h].m - {n}) else s.parts[h])
  }

  // ---------- runs ----------

  datatype Step =
    | PutStep(n: Name, k: uint64, v: VData)
    | DeleteStep(n: Name, k: uint64)
    | GetStep(n: Name)
    | LockStep(n: Name, key: LockName)
    | UnlockStep(n: Name, key: LockName)
    | RerouteStep(owner: Host, members: seq<Host>)
    | MoveStep(h: Host, n: Name)
    | StaleStep(h: Host, n: Name)
    | DestroyStep(n: Name)

  predicate Enabled(s: State, step: Step) {
    match step
    case RerouteStep(owner, members) => IsLive(members, owner)
    case MoveStep(h, n) =>
      && s.owners != [] && h in Previous(s) && PartOf(s, h).count != 0
      && n in PartOf(s, h).m && MapOf(s, h, n).locks == map[]
    case StaleStep(h, n) => n in PartOf(s, h).m && MapOf(s, h, n).data == map[]
    case DestroyStep(_) => true
    case _ => s.owners != []
  }

  function NewOwners(s: State, owner: Host, members: seq<Host>): (r: seq<Host>) {
    var r := Primaries(s.owners, owner, members, EmptyHosts(s));
    if r == None then s.owners else r.value
  }

  function Do(s: State, step: Step): (r: State)
    requires Enabled(s, step)
  {
    match step
    case PutStep(n, k, v) => Put(s, n, k, v)
    case DeleteStep(n, k) => Delete(s, n, k)
    case GetStep(n) => Touch(s, Primary(s), n)
    case LockStep(n, key) => Lock(s, n, key)
    case UnlockStep(n, key) => Unlock(s, n, key).0
    case RerouteStep(owner, members) => s.(owners := NewOwners(s, owner, members))
    case MoveStep(h, n) => Move(s, h, n)
    case StaleStep(h, n) => Remove(s, h, n, PartOf(s, h).count - 1)
    case DestroyStep(n) => DestroyOn(s, s.parts.Keys, n)
  }

  ghost predicate HoldsNothing(s: State, h: Host) {
    forall n :: MapOf(s, h, n) == NOTHING
  }

  /** A rebuilt owner list drops only hosts that hold no key and no lock. */
  ghost predicate Honest(s: State, step: Step) {
    step.RerouteStep? ==>
      forall h <- s.owners :: h !in NewOwners(s, step.owner, step.members) ==> HoldsNothing(s, h)
  }

  /** A map is not cleaned away as stale while one of its keys is locked. */
  ghost predicate KeepsLocks(s: State, step: Step) {
    step.StaleStep? ==> MapOf(s, step.h, step.n).locks == map[]
  }

  ghost predicate IsRun(s: State, steps: seq<Step>)
    decreases |steps|
  {
    steps == [] || (Enabled(s, steps[0]) && Honest(s, steps[0]) && IsRun(Do(s, steps[0]), steps[1..]))
  }

  ghost function After(s: State, steps: seq<Step>): (r: State)
    requires IsRun(s, steps)
    decreases |steps|
  {
    if steps == [] then s else After(Do(s, steps[0]), steps[1..])
  }
}
