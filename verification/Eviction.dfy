/** Background eviction of expired keys from one storage. */
module Eviction {
  import opened Bytes
  import opened Entry
  import opened TableSpec
  import opened StorageSpec
  import opened MergeSpec
  import opened Tables
  import opened Storages

  const MAX_KEY_COUNT: nat := 20

  /** `now` is in nanoseconds, a TTL in milliseconds. */
  ghost predicate Expired(c: Entries, k: uint64, now: nat) {
    k in c && IsEntry(c[k]) && Decode(c[k]).ttl != 0 && now >= Decode(c[k]).ttl * 1_000_000
  }

  ghost function ExpiredAmong(c: Entries, seen: set<uint64>, now: nat): set<uint64> {
    set k | k in seen && Expired(c, k, now)
  }

  /** Of the keys of `c` exactly the expired ones among `seen` are gone. `counted` of them were reported:
      all of them unless a deletion could not get memory for a successor table. */
  ghost predicate Swept(c: Entries, after: Entries, seen: set<uint64>, counted: nat, now: nat, canAllocate: bool) {
    && seen <= c.Keys
    && after == c - ExpiredAmong(c, seen, now)
    && counted <= |ExpiredAmong(c, seen, now)|
    && (canAllocate ==> counted == |ExpiredAmong(c, seen, now)|)
  }

  lemma SweepOne(c: Entries, after: Entries, seen: set<uint64>, counted: nat, now: nat, canAllocate: bool, k: uint64,
                 after': Entries, counted': nat)
    requires Swept(c, after, seen, counted, now, canAllocate) && k in c && k !in seen
    requires after' == if Expired(c, k, now) then after - {k} else after
    requires counted' <= counted + (if Expired(c, k, now) then 1 else 0)
    requires canAllocate ==> counted' == counted + (if Expired(c, k, now) then 1 else 0)
    ensures Swept(c, after', seen + {k}, counted', now, canAllocate)
  {
    hide Expired;
    var e, e' := ExpiredAmong(c, seen, now), ExpiredAmong(c, seen + {k}, now);
    if Expired(c, k, now) {
      assert e' == e + {k};
    } else {
      assert e' == e;
    }
  }

  /** Two sweeps in a row remove the union. */
  lemma SweepAgain(c: Entries, mid: Entries, after: Entries, gone: set<uint64>, seen: set<uint64>, now: nat)
    requires mid == c - gone && gone <= c.Keys
    requires after == mid - ExpiredAmong(mid, seen, now) && seen <= mid.Keys
    ensures after == c - (gone + ExpiredAmong(mid, seen, now))
    ensures ExpiredAmong(mid, seen, now) <= c.Keys && ExpiredAmong(mid, seen, now) !! gone
    ensures forall k <- ExpiredAmong(mid, seen, now) :: Expired(c, k, now)
  {
  }

  /** Every table but the one that held `k` is as it was, and that one lost at most `k`. */
  ghost predicate Keeps(ts: Stack, us: Stack, k: uint64) {
    |ts| <= |us| && forall j | 0 <= j < |ts| ::
      if k in ts[j].live then ts[j].live.Keys - {k} <= us[j].live.Keys <= ts[j].live.Keys else us[j].live == ts[j].live
  }

  lemma DeleteTables(ts: Stack, merging: bool, k: uint64, canAllocate: bool)
    ensures var us := DeleteOutcome(ts, merging, k, canAllocate).1;
            |us| >= |ts| && Keeps(ts, us, k)
  {
    hide Contents, DeleteVisible;
    if k in Contents(ts) {
      var i := ContentsSource(ts, k);
      DeleteVisibleAt(ts, i, k);
    } else {
      DeleteVisibleNone(ts, k);
    }
  }

  /** Tests one key of table `i` and deletes it if it has expired. */
  method TestKey(s: Storage, i: nat, hkey: uint64, now: nat, canAllocate: bool) returns (counted: nat)
    requires s.Valid() && Disjoint(s.View()) && i < |s.View()| && hkey in s.View()[i].live
    modifies s.Repr
    ensures s.Valid() && fresh(s.Repr - old(s.Repr)) && Disjoint(s.View())
    ensures var c, ts := Contents(old(s.View())), old(s.View());
            && Contents(s.View()) == (if Expired(c, hkey, now) then c - {hkey} else c)
            && Keeps(ts, s.View(), hkey)
            && counted <= (if Expired(c, hkey, now) then 1 else 0)
            && (canAllocate ==> counted == if Expired(c, hkey, now) then 1 else 0)
  {
    hide Table.Valid, Contents, Disjoint, DeleteVisible, Decode, IsEntry, DeleteOutcome;
    DisjointVisible(s.View(), i, hkey);
    var v, _ := s.tables[i].Get(hkey);
    ExpiredExact(v.ttl, now);
    if IsKeyExpired(v.ttl, now) {
      DeleteOutcomeRefines(s.View(), s.merging, hkey, canAllocate);
      DeleteTables(s.View(), s.merging, hkey, canAllocate);
      DeleteFailure(s.View(), s.merging, hkey);
      var ok := s.Delete(hkey, canAllocate);
      return if ok then 1 else 0;
    }
    return 0;
  }

  lemma DeleteFailure(ts: Stack, merging: bool, k: uint64)
    ensures DeleteOutcome(ts, merging, k, true).0
  {
  }

  // ---------- one round ----------

  ghost function KeysFrom(ts: Stack, i: nat): set<uint64>
    requires i <= |ts|
    decreases |ts| - i
  {
    if i == |ts| then {} else ts[i].live.Keys + KeysFrom(ts, i + 1)
  }

  lemma {:induction false} KeysFromAll(ts: Stack, i: nat, k: uint64)
    requires i <= |ts|
    ensures k in KeysFrom(ts, i) <==> exists j | i <= j < |ts| :: k in ts[j].live
    decreases |ts| - i
  {
    if i < |ts| {
      KeysFromAll(ts, i + 1, k);
    }
  }

  lemma KeysFromContents(ts: Stack)
    ensures KeysFrom(ts, 0) == Contents(ts).Keys
  {
    hide KeysFrom;
    forall k: uint64 ensures k in KeysFrom(ts, 0) <==> k in Contents(ts) {
      KeysFromAll(ts, 0, k);
      if k in Contents(ts) {
        var i := ContentsSource(ts, k);
      } else if k in KeysFrom(ts, 0) {
        var j :| 0 <= j < |ts| && k in ts[j].live;
        InContents(ts, j, k);
        assert false;
      }
    }
  }

  lemma DisjointFrom(ts: Stack, i: nat, k: uint64)
    requires Disjoint(ts) && i < |ts| && k in ts[i].live
    ensures k !in KeysFrom(ts, i + 1)
  {
    KeysFromAll(ts, i + 1, k);
  }

  /** Every key reached has been tested, until the count says to stop; then 19 were, and more were there. */
  ghost predicate Counted(reached: set<uint64>, seen: set<uint64>, kcount: nat) {
    if kcount < MAX_KEY_COUNT then seen == reached && |seen| == kcount
    else seen < reached && |seen| == MAX_KEY_COUNT - 1
  }

  lemma CountOne(reached: set<uint64>, more: set<uint64>, seen: set<uint64>, kcount: nat, k: uint64)
    requires Counted(reached, seen, kcount) && k !in reached && more == reached + {k} && kcount + 1 < MAX_KEY_COUNT
    ensures k !in seen && Counted(more, seen + {k}, kcount + 1)
  {
  }

  lemma CountStop(reached: set<uint64>, more: set<uint64>, seen: set<uint64>, kcount: nat, k: uint64)
    requires Counted(reached, seen, kcount) && k !in reached && k in more && reached <= more
    requires kcount + 1 >= MAX_KEY_COUNT
    ensures Counted(more, seen, kcount + 1)
  {
  }

  /** Tests keys of table `i` in any order until the count reaches its bound. */
  method JanitorTable(s: Storage, i: nat, kcount: nat, dcount: nat, now: nat, canAllocate: bool,
                      ghost ts: Stack, ghost seen: set<uint64>)
    returns (kcount': nat, dcount': nat, ghost seen': set<uint64>)
    requires s.Valid() && Disjoint(s.View()) && Disjoint(ts) && i < |ts| <= |s.View()|
    requires forall j | 0 <= j <= i :: s.View()[j].live == ts[j].live
    requires Counted(KeysFrom(ts, i + 1), seen, kcount)
    requires Swept(Contents(ts), Contents(s.View()), seen, dcount, now, canAllocate)
    modifies s.Repr
    ensures s.Valid() && fresh(s.Repr - old(s.Repr)) && Disjoint(s.View()) && |ts| <= |s.View()|
    ensures forall j | 0 <= j < i :: s.View()[j].live == ts[j].live
    ensures Counted(KeysFrom(ts, i), seen', kcount')
    ensures Swept(Contents(ts), Contents(s.View()), seen', dcount', now, canAllocate)
  {
    hide Storage.Valid, Storage.View, Contents, Disjoint, Swept, Counted, KeysFrom, Within;
    kcount', dcount', seen' := kcount, dcount, seen;
    var left := s.KeysAt(i);
    WithinStart(ts, s.View(), i);
    ghost var all, above := ts[i].live.Keys, KeysFrom(ts, i + 1);
    assert KeysFrom(ts, i) == all + above by { KeysFromStep(ts, i); }
    ghost var reached := above;
    while left != {}
      invariant s.Valid() && fresh(s.Repr - old(s.Repr)) && Within(ts, s.View(), i, left) && left <= all
      invariant reached == above + (all - left) && Counted(reached, seen', kcount')
      invariant Swept(Contents(ts), Contents(s.View()), seen', dcount', now, canAllocate)
      decreases left
    {
      var hkey :| hkey in left;
      DisjointFrom(ts, i, hkey);
      if kcount' + 1 >= MAX_KEY_COUNT {
        CountStop(reached, all + above, seen', kcount', hkey);
        kcount' := kcount' + 1;
        break;
      }
      CountOne(reached, reached + {hkey}, seen', kcount', hkey);
      var n := TestNext(s, i, hkey, now, canAllocate, ts, left, seen', dcount');
      kcount', dcount', seen', reached := kcount' + 1, dcount' + n, seen' + {hkey}, reached + {hkey};
      left := left - {hkey};
    }
    assert left == {} ==> reached == all + above;
    WithinEnd(ts, s.View(), i, left);
  }

  /** While table `i` is scanned, the tables below it are as at the start of the round and `left` is still there. */
  ghost predicate Within(ts: Stack, us: Stack, i: nat, left: set<uint64>) {
    && i < |ts| <= |us| && Disjoint(us)
    && (forall j | 0 <= j < i :: us[j].live == ts[j].live)
    && left <= us[i].live.Keys <= ts[i].live.Keys
  }

  lemma WithinStart(ts: Stack, us: Stack, i: nat)
    requires i < |ts| <= |us| && Disjoint(us) && forall j | 0 <= j <= i :: us[j].live == ts[j].live
    ensures Within(ts, us, i, us[i].live.Keys)
  {
  }

  lemma WithinNext(ts: Stack, us: Stack, us': Stack, i: nat, left: set<uint64>, k: uint64)
    requires Within(ts, us, i, left) && Disjoint(ts) && k in left && Keeps(us, us', k) && Disjoint(us')
    ensures Within(ts, us', i, left - {k})
  {
    OthersMissing(ts, i, k);
  }

  lemma WithinEnd(ts: Stack, us: Stack, i: nat, left: set<uint64>)
    requires Within(ts, us, i, left)
    ensures Disjoint(us) && |ts| <= |us| && forall j | 0 <= j < i :: us[j].live == ts[j].live
  {
  }

  lemma KeysFromStep(ts: Stack, i: nat)
    requires i < |ts|
    ensures KeysFrom(ts, i) == ts[i].live.Keys + KeysFrom(ts, i + 1)
  {
  }

  /** Tests a key that was not tested before in this round. */
  method TestNext(s: Storage, i: nat, hkey: uint64, now: nat, canAllocate: bool,
                  ghost ts: Stack, ghost left: set<uint64>, ghost seen: set<uint64>, ghost dcount: nat)
    returns (n: nat)
    requires s.Valid() && Disjoint(ts) && Within(ts, s.View(), i, left)
    requires hkey in left && hkey !in seen
    requires Swept(Contents(ts), Contents(s.View()), seen, dcount, now, canAllocate)
    modifies s.Repr
    ensures s.Valid() && fresh(s.Repr - old(s.Repr)) && Within(ts, s.View(), i, left - {hkey})
    ensures Swept(Contents(ts), Contents(s.View()), seen + {hkey}, dcount + n, now, canAllocate)
  {
    hide Storage.Valid, Storage.View, Contents, Disjoint, Expired, Swept, Keeps;
    ghost var c, us := Contents(ts), s.View();
    InContents(ts, i, hkey);
    SameExpiry(c, Contents(us), seen, dcount, now, canAllocate, hkey);
    n := TestKey(s, i, hkey, now, canAllocate);
    SweepOne(c, Contents(us), seen, dcount, now, canAllocate, hkey, Contents(s.View()), dcount + n);
    WithinNext(ts, us, s.View(), i, left, hkey);
  }

  lemma OthersMissing(ts: Stack, i: nat, k: uint64)
    requires Disjoint(ts) && i < |ts| && k in ts[i].live
    ensures forall j | 0 <= j < |ts| && j != i :: k !in ts[j].live
  {
  }

  /** A key not yet tested is as it was at the start of the round. */
  lemma SameExpiry(c: Entries, now_: Entries, seen: set<uint64>, counted: nat, now: nat, canAllocate: bool, k: uint64)
    requires Swept(c, now_, seen, counted, now, canAllocate) && k in c && k !in seen
    ensures k in now_ && now_[k] == c[k] && (Expired(now_, k, now) <==> Expired(c, k, now))
  {
  }

  /** One round of the janitor. It tests 19 keys, or all if there are fewer, and says whether to go again. */
  method Janitor(s: Storage, now: nat, canAllocate: bool) returns (again: bool, dcount: nat, ghost seen: set<uint64>)
    requires s.Valid() && Disjoint(s.View())
    modifies s.Repr
    ensures s.Valid() && fresh(s.Repr - old(s.Repr)) && Disjoint(s.View())
    ensures Swept(Contents(old(s.View())), Contents(s.View()), seen, dcount, now, canAllocate)
    ensures var n := |Contents(old(s.View()))|; |seen| == if n < 20 then n else 19
    ensures again <==> dcount >= 5
  {
    hide Storage.Valid, Storage.View, Contents, Disjoint, Swept;
    var kcount := 0;
    dcount, seen := 0, {};
    ghost var ts := s.View();
    var i := |s.tables|;
    assert Swept(Contents(ts), Contents(ts), {}, 0, now, canAllocate) by { SweptNothing(Contents(ts), now, canAllocate); }
    while i > 0
      invariant s.Valid() && fresh(s.Repr - old(s.Repr)) && Disjoint(s.View()) && 0 <= i <= |ts| <= |s.View()|
      invariant forall j | 0 <= j < i :: s.View()[j].live == ts[j].live
      invariant Counted(KeysFrom(ts, i), seen, kcount)
      invariant Swept(Contents(ts), Contents(s.View()), seen, dcount, now, canAllocate)
    {
      i := i - 1;
      kcount, dcount, seen := JanitorTable(s, i, kcount, dcount, now, canAllocate, ts, seen);
    }
    KeysFromContents(ts);
    SubsetSize(seen, Contents(ts).Keys);
    again := dcount >= MAX_KEY_COUNT / 4;
  }

  lemma SweptNothing(c: Entries, now: nat, canAllocate: bool)
    ensures Swept(c, c, {}, 0, now, canAllocate)
  {
    assert ExpiredAmong(c, {}, now) == {};
  }

  lemma SubsetSize(a: set<uint64>, b: set<uint64>)
    requires a <= b
    ensures |a| <= |b| && (a < b ==> |a| < |b|)
  {
    assert |b - a| == |b| - |a|;
  }

  /** Repeats rounds as long as each removes at least 5 keys. Only expired keys go, each is counted once,
      and a map of at most 19 keys is left without expired keys. The last round, from `mid`, counted fewer than 5. */
  method ScanDMapForEviction(s: Storage, now: nat, canAllocate: bool)
    returns (total: nat, ghost gone: set<uint64>, ghost rounds: nat, ghost mid: Entries, ghost seen: set<uint64>,
             ghost last: nat)
    requires s.Valid() && Disjoint(s.View())
    modifies s.Repr
    ensures s.Valid() && fresh(s.Repr - old(s.Repr)) && Disjoint(s.View())
    ensures var c := Contents(old(s.View()));
            && Contents(s.View()) == c - gone && gone <= c.Keys
            && (forall k <- gone :: Expired(c, k, now))
            && (|c| < 20 ==> forall k | Expired(c, k, now) :: k in gone)
    ensures total <= |gone| && (canAllocate ==> total == |gone|)
    ensures rounds >= 1 && total >= 5 * (rounds - 1)
    ensures Swept(mid, Contents(s.View()), seen, last, now, canAllocate) && last < 5
    ensures |seen| == if |mid| < 20 then |mid| else 19
  {
    hide Storage.Valid, Storage.View, Contents, Disjoint, Expired, Swept;
    total, gone, rounds, mid, seen, last := 0, {}, 0, map[], {}, 0;
    ghost var c := Contents(s.View());
    var again := true;
    while again
      invariant s.Valid() && fresh(s.Repr - old(s.Repr)) && Disjoint(s.View())
      invariant Contents(s.View()) == c - gone && gone <= c.Keys && forall k <- gone :: Expired(c, k, now)
      invariant rounds > 0 && |c| < MAX_KEY_COUNT ==> forall k | Expired(c, k, now) :: k in gone
      invariant total <= |gone| && (canAllocate ==> total == |gone|)
      invariant total >= MAX_KEY_COUNT / 4 * (if again then rounds else rounds - 1) && (again || rounds >= 1)
      invariant again || (Swept(mid, Contents(s.View()), seen, last, now, canAllocate) && last < MAX_KEY_COUNT / 4)
      invariant again || |seen| == if |mid| < MAX_KEY_COUNT then |mid| else MAX_KEY_COUNT - 1
      decreases again, |Contents(s.View())|
    {
      mid := Contents(s.View());
      var dcount;
      again, dcount, seen := Janitor(s, now, canAllocate);
      last := dcount;
      Round(c, mid, Contents(s.View()), gone, seen, dcount, now, canAllocate);
      total, gone, rounds := total + dcount, gone + ExpiredAmong(mid, seen, now), rounds + 1;
    }
  }

  /** What a round adds to the rounds before it. */
  lemma Round(c: Entries, mid: Entries, after: Entries, gone: set<uint64>, seen: set<uint64>, dcount: nat, now: nat,
              canAllocate: bool)
    requires mid == c - gone && gone <= c.Keys
    requires Swept(mid, after, seen, dcount, now, canAllocate)
    requires |seen| == if |mid| < MAX_KEY_COUNT then |mid| else MAX_KEY_COUNT - 1
    ensures var e := ExpiredAmong(mid, seen, now);
            && after == c - (gone + e) && e <= c.Keys && e !! gone && |gone + e| == |gone| + |e|
            && (forall k <- e :: Expired(c, k, now))
            && dcount <= |e| && (canAllocate ==> dcount == |e|)
            && |after| == |mid| - |e|
            && (|c| < MAX_KEY_COUNT ==> forall k | Expired(c, k, now) :: k in gone + e)
  {
    SweepAgain(c, mid, after, gone, seen, now);
    var e := ExpiredAmong(mid, seen, now);
    assert after.Keys == mid.Keys - e;
    assert mid.Keys == c.Keys - gone;
    SubsetSize(mid.Keys, c.Keys);
    SubsetSize(seen, mid.Keys);
  }
}
