/** How the coordinator rebuilds the owner lists of a partition. */
module Routing {
  import opened Bytes

  /** Hosts are compared by name and birthdate, which is all there is to them. */
  datatype Host = Host(name: string, birthdate: int)

  const MAX_BACKUP_COUNT: int := 3

  function CalcMaxBackupCount(backupCount: int, memCount: int): (n: int)
    ensures n <= 3 && n <= backupCount && n <= memCount - 1
    ensures n == 3 || n == backupCount || n == memCount - 1
  {
    var b := if backupCount > MAX_BACKUP_COUNT then MAX_BACKUP_COUNT else backupCount;
    if memCount - 1 < b then memCount - 1 else b
  }

  // ---------- lists ----------

  predicate NoDup(s: seq<Host>) {
    forall i, j | 0 <= i < j < |s| :: s[i] != s[j]
  }

  lemma NoDupConcat(s: seq<Host>, t: seq<Host>)
    requires NoDup(s) && NoDup(t) && forall h <- s :: h !in t
    ensures NoDup(s + t)
  {
    forall i, j | 0 <= i < j < |s + t| ensures (s + t)[i] != (s + t)[j] {
      if i < |s| <= j {
        assert s[i] in s && t[j - |s|] in t;
      }
    }
  }

  lemma NoDupOne(h: Host)
    ensures NoDup([h])
  {
  }

  lemma NoDupInit(s: seq<Host>)
    requires NoDup(s) && s != []
    ensures NoDup(s[..|s| - 1]) && s[|s| - 1] !in s[..|s| - 1]
  {
  }

  /** The elements satisfying `p`, in order. */
  function Filter(s: seq<Host>, p: Host -> bool): (r: seq<Host>) {
    if s == [] then [] else
      Filter(s[..|s| - 1], p) + if p(s[|s| - 1]) then [s[|s| - 1]] else []
  }

  lemma FilterStep(s: seq<Host>, i: nat, p: Host -> bool)
    requires i < |s|
    ensures Filter(s[..i + 1], p) == if p(s[i]) then Filter(s[..i], p) + [s[i]] else Filter(s[..i], p)
  {
    assert s[..i + 1][..i] == s[..i];
  }

  lemma {:induction false} FilterConcat(s: seq<Host>, t: seq<Host>, p: Host -> bool)
    ensures Filter(s + t, p) == Filter(s, p) + Filter(t, p)
  {
    if t == [] {
      assert s + t == s;
    } else {
      FilterConcat(s, t[..|t| - 1], p);
      assert (s + t)[..|s + t| - 1] == s + t[..|t| - 1];
    }
  }

  lemma {:induction false} FilterMembers(s: seq<Host>, p: Host -> bool)
    ensures forall h :: h in Filter(s, p) <==> h in s && p(h)
  {
    if s != [] {
      FilterMembers(s[..|s| - 1], p);
      assert s == s[..|s| - 1] + [s[|s| - 1]];
    }
  }

  lemma {:induction false} FilterNoDup(s: seq<Host>, p: Host -> bool)
    requires NoDup(s)
    ensures NoDup(Filter(s, p))
  {
    if s != [] {
      var init, last := s[..|s| - 1], s[|s| - 1];
      FilterNoDup(init, p);
      FilterMembers(init, p);
      assert last !in init;
    }
  }

  lemma {:induction false} FilterAll(s: seq<Host>, p: Host -> bool)
    requires forall h <- s :: p(h)
    ensures Filter(s, p) == s
  {
    if s != [] {
      FilterAll(s[..|s| - 1], p);
    }
  }

  lemma {:induction false} FilterFilter(s: seq<Host>, p: Host -> bool, q: Host -> bool, r: Host -> bool)
    requires forall h :: r(h) <==> p(h) && q(h)
    ensures Filter(Filter(s, p), q) == Filter(s, r)
  {
    if s != [] {
      var init, last := s[..|s| - 1], s[|s| - 1];
      FilterFilter(init, p, q, r);
      FilterConcat(Filter(init, p), if p(last) then [last] else [], q);
      assert Filter([last], q) == (if q(last) then [last] else []) by { assert [last][..0] == []; }
    }
  }

  // ---------- members ----------

  /** `findMember`: the first live member of that name. */
  method FindMember(members: seq<Host>, name: string) returns (r: Option<Host>)
    ensures r == Find(members, name)
  {
    for i := 0 to |members|
      invariant Find(members, name) == Find(members[i..], name)
    {
      if members[i].name == name {
        return Some(members[i]);
      }
      assert members[i..][1..] == members[i + 1..];
    }
    return None;
  }

  function Find(members: seq<Host>, name: string): (r: Option<Host>)
    ensures r != None ==> r.value in members && r.value.name == name
    ensures r == None <==> forall h <- members :: h.name != name
  {
    if members == [] then None
    else if members[0].name == name then Some(members[0])
    else Find(members[1..], name)
  }

  /** The host is in the cluster, and not a later incarnation under its name. */
  predicate IsLive(members: seq<Host>, h: Host) {
    Find(members, h.name) == Some(h)
  }

  /** `h` is at `i`, and nobody of its name is before it. */
  ghost predicate FirstAt(members: seq<Host>, h: Host, i: nat) {
    i < |members| && members[i] == h && forall j | 0 <= j < i :: members[j].name != h.name
  }

  /** A host is live exactly if it is itself, name and birth date, the first member of its name. */
  lemma {:induction false} LiveExact(members: seq<Host>, h: Host)
    ensures IsLive(members, h) <==> exists i :: FirstAt(members, h, i)
    ensures IsLive(members, h) ==> h in members
  {
    if members != [] {
      LiveExact(members[1..], h);
      assert members[0] == h ==> FirstAt(members, h, 0);
      assert forall i: nat :: FirstAt(members[1..], h, i) && members[0].name != h.name ==> FirstAt(members, h, i + 1);
      assert forall i: nat | i > 0 :: FirstAt(members, h, i) ==> FirstAt(members[1..], h, i - 1) by {
        forall i: nat | i > 0 && FirstAt(members, h, i) ensures FirstAt(members[1..], h, i - 1) {
          assert forall j | 0 <= j < i - 1 :: members[1..][j] == members[j + 1];
        }
      }
    }
  }

  // ---------- what is asked of a host ----------

  function Living(members: seq<Host>): (p: Host -> bool) {
    h => IsLive(members, h)
  }

  function NotEmpty(empty: set<Host>): (p: Host -> bool) {
    h => h !in empty
  }

  function NoneOf(chosen: seq<Host>): (p: Host -> bool) {
    h => h !in chosen
  }

  function Others(chosen: seq<Host>, members: seq<Host>): (p: Host -> bool) {
    h => h !in chosen && IsLive(members, h)
  }

  /** Live, not said to be empty, and not chosen again. */
  function Stays(chosen: seq<Host>, members: seq<Host>, empty: set<Host>): (p: Host -> bool) {
    h => h !in chosen && IsLive(members, h) && h !in empty
  }

  // ---------- steps shared by both lists ----------

  /** `h` taken out of the list, if it is there, and appended. */
  function ToEnd(owners: seq<Host>, h: Host): (r: seq<Host>) {
    Without(owners, h) + [h]
  }

  function Without(owners: seq<Host>, h: Host): (r: seq<Host>) {
    if owners == [] then []
    else if owners[0] == h then owners[1..]
    else [owners[0]] + Without(owners[1..], h)
  }

  method MoveToEnd(owners: seq<Host>, h: Host) returns (r: seq<Host>)
    ensures r == ToEnd(owners, h)
  {
    r := owners;
    for i := 0 to |owners|
      invariant r == owners
      invariant Without(owners, h) == owners[..i] + Without(owners[i..], h)
    {
      if owners[i] == h {
        r := r[..i] + r[i + 1..];
        r := r + [h];
        assert owners[i..][1..] == owners[i + 1..];
        return;
      }
      assert owners[..i] + [owners[i]] == owners[..i + 1] && owners[i..][1..] == owners[i + 1..];
    }
    assert owners[..|owners|] == owners && owners[|owners|..] == [];
    r := r + [h];
  }

  method PruneDead(owners: seq<Host>, members: seq<Host>) returns (tmp: seq<Host>)
    ensures tmp == Filter(owners, Living(members))
  {
    tmp := [];
    for i := 0 to |owners|
      invariant tmp == Filter(owners[..i], Living(members))
    {
      var own := owners[i];
      var cur := FindMember(members, own.name);
      assert owners[..i + 1][..i] == owners[..i];
      if cur == None {
        continue;
      }
      if cur.value != own {
        continue;
      }
      tmp := tmp + [cur.value];
    }
    assert owners[..|owners|] == owners;
  }

  /** Hosts that say they hold nothing are dropped; one that cannot be asked counts as holding something. */
  method PruneEmpty(owners: seq<Host>, empty: set<Host>) returns (kept: seq<Host>)
    ensures kept == Filter(owners, NotEmpty(empty))
  {
    kept := [];
    for i := 0 to |owners|
      invariant kept == Filter(owners[..i], NotEmpty(empty))
    {
      assert owners[..i + 1][..i] == owners[..i];
      if owners[i] !in empty {
        kept := kept + [owners[i]];
      }
    }
    assert owners[..|owners|] == owners;
  }

  /** Without a host that occurs at most once. */
  lemma {:induction false} WithoutFilter(owners: seq<Host>, h: Host)
    requires NoDup(owners)
    ensures Without(owners, h) == Filter(owners, NoneOf([h]))
  {
    if owners != [] {
      var p := NoneOf([h]);
      assert owners == [owners[0]] + owners[1..];
      FilterConcat([owners[0]], owners[1..], p);
      assert Filter([owners[0]], p) == (if p(owners[0]) then [owners[0]] else []) by { assert [owners[0]][..0] == []; }
      if owners[0] == h {
        FilterAll(owners[1..], p);
      } else {
        WithoutFilter(owners[1..], h);
      }
    }
  }

  // ---------- primary owners ----------

  /** None stands for the slice-bounds panic on an empty list of live owners. */
  function Primaries(owners: seq<Host>, owner: Host, members: seq<Host>, empty: set<Host>): (r: Option<seq<Host>>) {
    if owners == [] then Some([owner]) else
      var tmp := Filter(ToEnd(owners, owner), Living(members));
      if tmp == [] then None
      else Some(Filter(tmp[..|tmp| - 1], NotEmpty(empty)) + [tmp[|tmp| - 1]])
  }

  method DistributePrimaryCopies(owners: seq<Host>, owner: Host, members: seq<Host>, empty: set<Host>)
    returns (r: Option<seq<Host>>)
    ensures r == Primaries(owners, owner, members, empty)
  {
    if |owners| == 0 {
      return Some([owner]);
    }
    var list := MoveToEnd(owners, owner);
    var tmp := PruneDead(list, members);
    if |tmp| == 0 {
      return None;
    }
    var kept := PruneEmpty(tmp[..|tmp| - 1], empty);
    return Some(kept + [tmp[|tmp| - 1]]);
  }

  /** The old owners that stay, in their order. */
  function Staying(owners: seq<Host>, chosen: seq<Host>, members: seq<Host>, empty: set<Host>): (r: seq<Host>) {
    Filter(owners, Stays(chosen, members, empty))
  }

  /** The three filters one after the other are one. */
  lemma StayingSteps(owners: seq<Host>, chosen: seq<Host>, members: seq<Host>, empty: set<Host>)
    ensures Filter(Filter(owners, NoneOf(chosen)), Living(members)) == Filter(owners, Others(chosen, members))
    ensures Filter(Filter(owners, Others(chosen, members)), NotEmpty(empty)) == Staying(owners, chosen, members, empty)
  {
    FilterFilter(owners, NoneOf(chosen), Living(members), Others(chosen, members));
    FilterFilter(owners, Others(chosen, members), NotEmpty(empty), Stays(chosen, members, empty));
  }

  /** From a duplicate-free list and a live chosen owner: exactly the staying owners in their order, then the chosen one. */
  lemma PrimariesExact(owners: seq<Host>, owner: Host, members: seq<Host>, empty: set<Host>)
    requires NoDup(owners) && IsLive(members, owner)
    ensures Primaries(owners, owner, members, empty) == Some(Staying(owners, [owner], members, empty) + [owner])
  {
    if owners == [] {
      assert Staying(owners, [owner], members, empty) + [owner] == [owner];
    } else {
      hide Filter, NoneOf, Others, Stays, NotEmpty, Without;
      WithoutFilter(owners, owner);
      StayingSteps(owners, [owner], members, empty);
      FilterConcat(Without(owners, owner), [owner], Living(members));
      FilterAll([owner], Living(members));
      var tmp := Filter(ToEnd(owners, owner), Living(members));
      assert tmp == Filter(owners, Others([owner], members)) + [owner];
      assert tmp[..|tmp| - 1] == Filter(owners, Others([owner], members));
    }
  }

  /** The list rebuild fails exactly when a previously owned partition has no live owner left, chosen one included. */
  lemma PrimariesPanic(owners: seq<Host>, owner: Host, members: seq<Host>, empty: set<Host>)
    ensures Primaries(owners, owner, members, empty) == None <==>
            owners != [] && !IsLive(members, owner) && forall h <- owners :: !IsLive(members, h)
  {
    var list := ToEnd(owners, owner);
    FilterMembers(list, Living(members));
    WithoutMembers(owners, owner);
    if Filter(list, Living(members)) != [] {
      assert Filter(list, Living(members))[0] in Filter(list, Living(members));
    } else {
      forall h | h in list ensures !IsLive(members, h) {
        assert h in Filter(list, Living(members)) <==> h in list && Living(members)(h);
      }
      assert owner in list;
    }
  }

  lemma {:induction false} WithoutMembers(owners: seq<Host>, h: Host)
    ensures forall x :: x in owners ==> x == h || x in Without(owners, h)
    ensures forall x :: x in Without(owners, h) ==> x in owners
  {
    if owners != [] {
      WithoutMembers(owners[1..], h);
      assert owners == [owners[0]] + owners[1..];
    }
  }

  /** Consequences the other parts rely on. */
  lemma PrimariesSound(owners: seq<Host>, owner: Host, members: seq<Host>, empty: set<Host>)
    requires NoDup(owners) && IsLive(members, owner)
    ensures Primaries(owners, owner, members, empty) != None
    ensures var r := Primaries(owners, owner, members, empty).value;
            && r != [] && NoDup(r) && r[|r| - 1] == owner
            && (forall h <- r :: IsLive(members, h) && h in members)
            && (forall h :: h in r <==> h == owner || (h in owners && IsLive(members, h) && h !in empty))
  {
    hide Filter, Primaries, NoDup, IsLive;
    PrimariesExact(owners, owner, members, empty);
    FilterMembers(owners, Stays([owner], members, empty));
    FilterNoDup(owners, Stays([owner], members, empty));
    NoDupOne(owner);
    forall h | IsLive(members, h) ensures h in members {
      LiveExact(members, h);
    }
    NoDupConcat(Staying(owners, [owner], members, empty), [owner]);
  }

  // ---------- backup owners ----------

  function AllToEnd(owners: seq<Host>, chosen: seq<Host>): (r: seq<Host>) {
    if chosen == [] then owners else ToEnd(AllToEnd(owners, chosen[..|chosen| - 1]), chosen[|chosen| - 1])
  }

  /** None stands for the slice-bounds panic when fewer live backups are left than wanted. */
  function Backups(owners: seq<Host>, chosen: seq<Host>, members: seq<Host>, empty: set<Host>): (r: Option<seq<Host>>) {
    if owners == [] then Some(chosen) else
      var tmp := Filter(AllToEnd(owners, chosen), Living(members));
      if |tmp| < |chosen| then None
      else Some(Filter(tmp[..|tmp| - |chosen|], NotEmpty(empty)) + tmp[|tmp| - |chosen|..])
  }

  method DistributeBackups(owners: seq<Host>, chosen: seq<Host>, members: seq<Host>, empty: set<Host>)
    returns (r: Option<seq<Host>>)
    ensures r == Backups(owners, chosen, members, empty)
  {
    if |owners| == 0 {
      return Some(chosen);
    }
    var list := owners;
    for i := 0 to |chosen|
      invariant list == AllToEnd(owners, chosen[..i])
    {
      list := MoveToEnd(list, chosen[i]);
      assert chosen[..i + 1][..i] == chosen[..i];
    }
    assert chosen[..|chosen|] == chosen;
    var tmp := PruneDead(list, members);
    if |tmp| < |chosen| {
      return None;
    }
    var kept := PruneEmpty(tmp[..|tmp| - |chosen|], empty);
    return Some(kept + tmp[|tmp| - |chosen|..]);
  }

  lemma {:induction false} AllToEndExact(owners: seq<Host>, chosen: seq<Host>)
    requires NoDup(owners) && NoDup(chosen)
    ensures AllToEnd(owners, chosen) == Filter(owners, NoneOf(chosen)) + chosen
    ensures NoDup(AllToEnd(owners, chosen))
  {
    hide Filter, Without, NoDup;
    if chosen == [] {
      FilterAll(owners, NoneOf(chosen));
    } else {
      var init, last := chosen[..|chosen| - 1], chosen[|chosen| - 1];
      NoDupInit(chosen);
      AllToEndExact(owners, init);
      var list := AllToEnd(owners, init);
      WithoutFilter(list, last);
      FilterConcat(Filter(owners, NoneOf(init)), init, NoneOf([last]));
      FilterAll(init, NoneOf([last]));
      assert chosen == init + [last];
      FilterFilter(owners, NoneOf(init), NoneOf([last]), NoneOf(chosen));
      FilterMembers(owners, NoneOf(chosen));
      FilterNoDup(owners, NoneOf(chosen));
      NoDupConcat(Filter(owners, NoneOf(chosen)), chosen);
    }
  }

  ghost function Members(s: seq<Host>): set<Host> {
    set h | h in s
  }

  lemma {:induction false} NoDupCount(s: seq<Host>)
    requires NoDup(s)
    ensures |Members(s)| == |s|
  {
    if s != [] {
      NoDupInit(s);
      NoDupCount(s[..|s| - 1]);
      assert s == s[..|s| - 1] + [s[|s| - 1]];
      assert Members(s) == Members(s[..|s| - 1]) + {s[|s| - 1]};
    }
  }

  ghost function LiveIn(s: seq<Host>, members: seq<Host>): set<Host> {
    set h | h in s && IsLive(members, h)
  }

  /** The rebuild panics exactly if there were backups and fewer of them and the chosen ones are live than were chosen. */
  lemma BackupsPanic(owners: seq<Host>, chosen: seq<Host>, members: seq<Host>, empty: set<Host>)
    requires NoDup(owners) && NoDup(chosen)
    ensures Backups(owners, chosen, members, empty) == None <==>
            owners != [] && |LiveIn(owners, members) + LiveIn(chosen, members)| < |chosen|
  {
    hide NoDup, IsLive, Filter, NoneOf;
    if owners != [] {
      var list := AllToEnd(owners, chosen);
      var tmp := Filter(list, Living(members));
      AllToEndExact(owners, chosen);
      FilterMembers(owners, NoneOf(chosen));
      FilterMembers(list, Living(members));
      FilterNoDup(list, Living(members));
      NoDupCount(tmp);
      SameMembers(owners, chosen, list);
      assert Members(tmp) == LiveIn(owners, members) + LiveIn(chosen, members);
    }
  }

  lemma SameMembers(owners: seq<Host>, chosen: seq<Host>, list: seq<Host>)
    requires list == Filter(owners, NoneOf(chosen)) + chosen
    ensures forall h :: h in list <==> h in owners || h in chosen
  {
    hide Filter;
    FilterMembers(owners, NoneOf(chosen));
  }

  /** With distinct live chosen backups: the staying ones in their order, then exactly the chosen ones in theirs. */
  lemma BackupsExact(owners: seq<Host>, chosen: seq<Host>, members: seq<Host>, empty: set<Host>)
    requires NoDup(owners) && NoDup(chosen) && forall h <- chosen :: IsLive(members, h)
    ensures Backups(owners, chosen, members, empty) == Some(Staying(owners, chosen, members, empty) + chosen)
  {
    if owners == [] {
      assert Staying(owners, chosen, members, empty) + chosen == chosen;
    } else {
      hide Filter, NoneOf, Others, Stays, NotEmpty;
      AllToEndExact(owners, chosen);
      StayingSteps(owners, chosen, members, empty);
      FilterConcat(Filter(owners, NoneOf(chosen)), chosen, Living(members));
      FilterAll(chosen, Living(members));
      var tmp := Filter(AllToEnd(owners, chosen), Living(members));
      assert tmp == Filter(owners, Others(chosen, members)) + chosen;
      assert tmp[..|tmp| - |chosen|] == Filter(owners, Others(chosen, members));
      assert tmp[|tmp| - |chosen|..] == chosen;
    }
  }

  /** The list has no duplicates, and the split the integrity check makes with the same count is right:
      the chosen backups at the end, stale ones before. */
  lemma BackupsSound(owners: seq<Host>, chosen: seq<Host>, members: seq<Host>, empty: set<Host>)
    requires NoDup(owners) && NoDup(chosen) && forall h <- chosen :: IsLive(members, h)
    ensures Backups(owners, chosen, members, empty) != None
    ensures var r := Backups(owners, chosen, members, empty).value;
            && NoDup(r) && |r| >= |chosen|
            && r[|r| - |chosen|..] == chosen
            && r[..|r| - |chosen|] == Staying(owners, chosen, members, empty)
            && (forall h <- r[..|r| - |chosen|] :: h !in chosen && h in owners && IsLive(members, h))
            && forall h <- r :: h in members
  {
    hide Filter, Backups, NoDup, IsLive;
    BackupsExact(owners, chosen, members, empty);
    FilterMembers(owners, Stays(chosen, members, empty));
    FilterNoDup(owners, Stays(chosen, members, empty));
    forall h | IsLive(members, h) ensures h in members {
      LiveExact(members, h);
    }
    NoDupConcat(Staying(owners, chosen, members, empty), chosen);
    var r := Backups(owners, chosen, members, empty).value;
    assert r[..|r| - |chosen|] == Staying(owners, chosen, members, empty);
  }
}
