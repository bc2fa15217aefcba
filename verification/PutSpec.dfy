/** The retry loop of the put operations: when it ends and what it leaves behind. */
module PutSpec {
  import opened Bytes
  import opened Entry
  import opened TableSpec
  import opened StorageSpec

  /** Appends tables twice the size of what the last one has in use until `n` bytes fit
      or `budget` allocations have been made. */
  function Retried(ts: Stack, n: nat, budget: nat): (us: Stack)
    requires ts != []
    ensures |ts| <= |us| <= |ts| + budget
    decreases budget
  {
    if HasRoom(Last(ts), n) || budget == 0 then ts
    else Retried(ts + [Fresh(Last(ts).inuse * 2)], n, budget - 1)
  }

  /** `n` bytes fit into the last table or into the one that would follow it. */
  predicate Placeable(ts: Stack, n: nat)
    requires ts != []
  {
    HasRoom(Last(ts), n) || n < AtLeastMinimum(Last(ts).inuse * 2)
  }

  /** Once an empty table was too small, every further one is of minimum size and too small as well. */
  lemma {:induction false} NeverFits(ts: Stack, n: nat, budget: nat)
    requires ts != [] && Last(ts).inuse == 0 && !HasRoom(Last(ts), n) && n >= MINIMUM_SIZE
    ensures var us := Retried(ts, n, budget);
            && !HasRoom(Last(us), n)
            && |us| == |ts| + budget
            && us[..|ts|] == ts
            && forall i | |ts| <= i < |us| :: us[i] == Fresh(0)
    decreases budget
  {
    if budget > 0 {
      var next := ts + [Fresh(Last(ts).inuse * 2)];
      NeverFits(next, n, budget - 1);
      var us := Retried(ts, n, budget);
      assert us[..|ts|] == us[..|next|][..|ts|] == ts;
      assert us[|ts|] == us[..|next|][|ts|];
    }
  }

  /** With enough allocations the loop ends exactly for placeable sizes, and then after at most one of them. */
  lemma RetryExact(ts: Stack, n: nat, budget: nat)
    requires ts != []
    ensures var us := Retried(ts, n, budget);
            && (HasRoom(Last(us), n) <==> Placeable(ts, n) && (HasRoom(Last(ts), n) || budget > 0))
            && (HasRoom(Last(us), n) ==>
                  us == if HasRoom(Last(ts), n) then ts else ts + [Fresh(Last(ts).inuse * 2)])
            && (!HasRoom(Last(us), n) ==> |us| == |ts| + budget)
  {
    if !HasRoom(Last(ts), n) && budget > 0 {
      var next := ts + [Fresh(Last(ts).inuse * 2)];
      if n >= Last(next).capacity {
        NeverFits(next, n, budget - 1);
      }
    }
  }

  /** Appended tables are empty, so a retry does not change the map. */
  lemma {:induction false} RetriedContents(ts: Stack, n: nat, budget: nat)
    requires ts != []
    ensures var us := Retried(ts, n, budget);
            && Contents(us) == Contents(ts) && Len(us) == Len(ts)
            && (Disjoint(us) <==> Disjoint(ts))
            && us[..|ts|] == ts
            && forall i | |ts| <= i < |us| :: us[i].live == map[]
    decreases budget
  {
    hide Contents, Len, Disjoint, HasRoom;
    if !HasRoom(Last(ts), n) && budget > 0 {
      var next := ts + [Fresh(Last(ts).inuse * 2)];
      PushEmpty(ts, Last(next));
      RetriedContents(next, n, budget - 1);
      var us := Retried(ts, n, budget);
      assert us[..|ts|] == us[..|next|][..|ts|] == ts;
      assert us[|ts|] == us[..|next|][|ts|];
    }
  }

  /** Result and new stack of `Storage.Put` when `budget` further allocations would succeed. */
  function PutOutcome(ts: Stack, k: uint64, v: VData, budget: nat): (r: (Option<PutError>, Stack))
    requires ts != []
  {
    if |v.key| >= MAX_KEY_LEN then (Some(KeyTooLarge), ts) else
      var n := |v.key| + |v.value| + 13;
      var us := Retried(ts, n, budget);
      if HasRoom(Last(us), n) then (None, WithLast(us, Put(Last(us), k, v))) else (Some(AllocationFailed), us)
  }

  /** Result and new stack of `Storage.PutRaw`. */
  function PutRawOutcome(ts: Stack, k: uint64, raw: seq<byte>, budget: nat): (r: (Option<PutError>, Stack))
    requires ts != [] && WellFormed(raw)
  {
    var us := Retried(ts, |raw|, budget);
    if HasRoom(Last(us), |raw|) then (None, WithLast(us, Appended(Last(us), k, raw))) else (Some(AllocationFailed), us)
  }

  /** A pass of the loop in `Put` that finds no room goes on as if the pushed table had been there. */
  lemma PutAgain(ts: Stack, k: uint64, v: VData, budget: nat)
    requires ts != []
    ensures PutOutcome(ts, k, v, budget) ==
            if |v.key| < MAX_KEY_LEN && !HasRoom(Last(ts), |v.key| + |v.value| + 13) && budget > 0
            then PutOutcome(ts + [Fresh(Last(ts).inuse * 2)], k, v, budget - 1)
            else PutOutcome(ts, k, v, 0)
  {
    hide Put;
  }

  lemma PutRawAgain(ts: Stack, k: uint64, raw: seq<byte>, budget: nat)
    requires ts != [] && WellFormed(raw)
    ensures PutRawOutcome(ts, k, raw, budget) ==
            if !HasRoom(Last(ts), |raw|) && budget > 0
            then PutRawOutcome(ts + [Fresh(Last(ts).inuse * 2)], k, raw, budget - 1)
            else PutRawOutcome(ts, k, raw, 0)
  {
    hide Appended;
  }

  /** A write that found room sets `k`, changes no other key, and leaves disjoint tables disjoint exactly when
      no table but the one finally written holds `k`. */
  lemma PlacedRefines(ts: Stack, n: nat, budget: nat, t: TableView, k: uint64, e: seq<byte>)
    requires ts != []
    requires t.live == Last(Retried(ts, n, budget)).live[k := e]
    ensures var us := WithLast(Retried(ts, n, budget), t);
            && Contents(us) == Contents(ts)[k := e]
            && (Disjoint(ts) ==> (Disjoint(us) <==> forall i | 0 <= i < |us| - 1 :: k !in us[i].live))
  {
    hide Contents, Len, Disjoint, Retried;
    var rs := Retried(ts, n, budget);
    RetriedContents(ts, n, budget);
    WriteLast(rs, t, k, e);
    if Disjoint(ts) {
      WriteDisjoint(rs, t, k, e);
      assert forall i | 0 <= i < |rs| - 1 :: WithLast(rs, t)[i] == rs[i];
    }
  }

  /** `Put` succeeds exactly for short keys and placeable sizes, and then pushes at most one table. */
  lemma PutSucceeds(ts: Stack, k: uint64, v: VData, budget: nat)
    requires ts != []
    ensures var (r, us) := PutOutcome(ts, k, v, budget);
            var n := |v.key| + |v.value| + 13;
            && (r == Some(KeyTooLarge) <==> |v.key| >= MAX_KEY_LEN)
            && (r == None <==>
                  |v.key| < MAX_KEY_LEN && Placeable(ts, n) && (HasRoom(Last(ts), n) || budget > 0))
            && (r == None ==> |us| == |ts| + (if HasRoom(Last(ts), n) then 0 else 1))
            && (r == Some(AllocationFailed) ==> |us| == |ts| + budget)
  {
    hide Retried, Put, HasRoom, Placeable;
    RetryExact(ts, |v.key| + |v.value| + 13, budget);
  }

  /** A successful `Put` is map update, whatever the overlap of the tables. */
  lemma PutRefines(ts: Stack, k: uint64, v: VData, budget: nat)
    requires ts != [] && PutOutcome(ts, k, v, budget).0 == None
    ensures var us := PutOutcome(ts, k, v, budget).1;
            && WellFormed(Encode(v)) && IsEntry(Trim(Encode(v))) && Decode(Trim(Encode(v))) == Stored(v)
            && Contents(us) == Contents(ts)[k := Trim(Encode(v))]
            && (Disjoint(ts) ==> (Disjoint(us) <==> forall i | 0 <= i < |us| - 1 :: k !in us[i].live))
  {
    hide Contents, Disjoint, Retried, Encode, WellFormed, Trim, Put, HasRoom, Decode, Stored, IsEntry;
    var n := |v.key| + |v.value| + 13;
    DecodeEncode(v);
    TrimIsEntry(Encode(v));
    var t := Last(Retried(ts, n, budget));
    PutLive(t, k, v);
    PlacedRefines(ts, n, budget, Put(t, k, v), k, Trim(Encode(v)));
  }

  /** Putting a key that no table holds keeps tables disjoint. */
  lemma PutAbsent(ts: Stack, k: uint64, v: VData, budget: nat)
    requires ts != [] && Disjoint(ts) && k !in Contents(ts)
    ensures Disjoint(PutOutcome(ts, k, v, budget).1)
  {
    hide Contents, Disjoint, Retried, Put, HasRoom, Len;
    var (r, us) := PutOutcome(ts, k, v, budget);
    if r == None {
      PutRefines(ts, k, v, budget);
      var rs := Retried(ts, |v.key| + |v.value| + 13, budget);
      RetriedContents(ts, |v.key| + |v.value| + 13, budget);
      forall i | 0 <= i < |us| - 1 ensures k !in us[i].live {
        assert us[i] == rs[i];
        if k in rs[i].live {
          InContents(rs, i, k);
          assert false;
        }
      }
    } else {
      PutFails(ts, k, v, budget);
    }
  }

  /** A failed `Put` leaves the map as it was. */
  lemma PutFails(ts: Stack, k: uint64, v: VData, budget: nat)
    requires ts != [] && PutOutcome(ts, k, v, budget).0 != None
    ensures var us := PutOutcome(ts, k, v, budget).1;
            Contents(us) == Contents(ts) && Len(us) == Len(ts) && (Disjoint(us) <==> Disjoint(ts))
  {
    hide Contents, Len, Disjoint, Retried, Put, HasRoom;
    RetriedContents(ts, |v.key| + |v.value| + 13, budget);
  }

  lemma PutLive(t: TableView, k: uint64, v: VData)
    requires |v.key| < MAX_KEY_LEN && WellFormed(Encode(v))
    ensures Put(t, k, v).live == t.live[k := Trim(Encode(v))]
  {
  }

  lemma PutRawRefines(ts: Stack, k: uint64, raw: seq<byte>, budget: nat)
    requires ts != [] && WellFormed(raw)
    ensures var (r, us) := PutRawOutcome(ts, k, raw, budget);
            && (r == None <==> Placeable(ts, |raw|) && (HasRoom(Last(ts), |raw|) || budget > 0))
            && Contents(us) == (if r == None then Contents(ts)[k := Trim(raw)] else Contents(ts))
            && (r == None && Disjoint(ts) ==> (Disjoint(us) <==> forall i | 0 <= i < |us| - 1 :: k !in us[i].live))
  {
    hide Contents, Len, Disjoint, Retried, WellFormed, Trim, HasRoom, Placeable;
    RetryExact(ts, |raw|, budget);
    RetriedContents(ts, |raw|, budget);
    var t := Last(Retried(ts, |raw|, budget));
    PlacedRefines(ts, |raw|, budget, Appended(t, k, raw), k, Trim(raw));
  }
}
