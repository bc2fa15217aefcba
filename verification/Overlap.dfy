/** Why disjoint tables are a real hypothesis: what goes wrong when two tables hold a key. */
module Overlap {
  import opened Bytes
  import opened Entry
  import opened TableSpec
  import opened StorageSpec
  import opened PutSpec
  import opened MergeSpec

  function Size(v: VData): nat {
    |v.key| + |v.value| + 13
  }

  /** A value that half fills a table of minimum size, and a smaller one that no longer fits beside it. */
  predicate Crowded(a: VData, b: VData) {
    && |a.key| < MAX_KEY_LEN && |b.key| < MAX_KEY_LEN
    && MINIMUM_SIZE <= 2 * Size(a) && Size(a) < MINIMUM_SIZE
    && Size(b) + 1 < Size(a) && MINIMUM_SIZE <= Size(a) + Size(b)
  }

  /** A new storage after `a` and then `b` were put under `k`. */
  function PutTwice(k: uint64, a: VData, b: VData, budget: nat): (ts: Stack) {
    PutOutcome(PutOutcome([Fresh(0)], k, a, budget).1, k, b, budget).1
  }

  lemma FirstPut(k: uint64, a: VData, budget: nat)
    requires |a.key| < MAX_KEY_LEN && Size(a) < MINIMUM_SIZE
    ensures PutOutcome([Fresh(0)], k, a, budget) == (None, [Put(Fresh(0), k, a)])
  {
    hide Put;
    RetryExact([Fresh(0)], Size(a), budget);
    assert WithLast([Fresh(0)], Put(Fresh(0), k, a)) == [Put(Fresh(0), k, a)];
  }

  lemma SecondPut(t: TableView, k: uint64, b: VData, budget: nat)
    requires |b.key| < MAX_KEY_LEN && !HasRoom(t, Size(b)) && Size(b) < 2 * t.inuse && budget > 0
    ensures PutOutcome([t], k, b, budget) == (None, [t, Put(Fresh(2 * t.inuse), k, b)])
  {
    hide Put, Retried;
    RetryExact([t], Size(b), budget);
    var next := Fresh(2 * t.inuse);
    assert [t] + [next] == [t, next] && WithLast([t, next], Put(next, k, b)) == [t, Put(next, k, b)];
  }

  lemma OnePut(size: int, k: uint64, v: VData)
    requires |v.key| < MAX_KEY_LEN && Size(v) < MINIMUM_SIZE
    ensures IsEntry(Encode(v)) && |Encode(v)| == Size(v)
    ensures Put(Fresh(size), k, v) == Fresh(size).(live := map[k := Encode(v)], offset := Size(v), inuse := Size(v))
  {
    DecodeEncode(v);
    hide Encode;
    assert Trim(Encode(v)) == Encode(v);
    assert Deleted(Fresh(size), k) == Fresh(size);
  }

  /** Both puts succeed, and the key ends up in two tables. */
  lemma PutTwiceTables(k: uint64, a: VData, b: VData, budget: nat)
    requires Crowded(a, b) && budget > 0
    ensures PutOutcome([Fresh(0)], k, a, budget).0 == None
    ensures PutOutcome(PutOutcome([Fresh(0)], k, a, budget).1, k, b, budget).0 == None
    ensures PutTwice(k, a, b, budget) == [Put(Fresh(0), k, a), Put(Fresh(2 * Size(a)), k, b)]
  {
    hide Put, PutOutcome;
    FirstPut(k, a, budget);
    OnePut(0, k, a);
    SecondPut(Put(Fresh(0), k, a), k, b, budget);
  }

  lemma TwoTables(k: uint64, older: TableView, newer: TableView)
    requires older.live.Keys == {k} && newer.live.Keys == {k}
    ensures Contents([older, newer]) == newer.live && Contents([newer]) == newer.live
    ensures Len([older, newer]) == 2 && |newer.live| == 1
  {
    var ts := [older, newer];
    assert ts[..1] == [older] && [older][..0] == [] && [newer][..0] == [];
    assert Contents([older]) == older.live && Len([older]) == |older.live|;
    assert |older.live| == |older.live.Keys| && |newer.live| == |newer.live.Keys|;
  }

  /** A chunk that moves the one key of the older table and is done. */
  lemma OneMove(ts: Stack, k: uint64, e: seq<byte>)
    requires |ts| == 2 && ts[0].live == map[k := e] && IsEntry(e) && HasRoom(ts[1], |e| + 1)
    requires ts[1].live.Keys == {k}
    ensures var m := Move(0, k);
            && Fitting(ts, m)
            && Outcome(ts, [m], true, true, [Last(Moved(ts, m))])
            && Last(Moved(ts, m)).live == map[k := e]
  {
    hide Moved, IsEntry, HasRoom;
    var m := Move(0, k);
    assert Fitting(ts, m);
    MovedTables(ts, m);
    assert Apply(ts, []) == ts;
    ApplyOne(ts, [], m);
    assert [] + [m] == [m];
    assert Last(Moved(ts, m)).live == map[k := e];
    assert Moved(ts, m)[0].live == map[];
  }

  /** Two puts into a new storage, then one chunk of merging: the older value is back. */
  lemma MergeRevivesOlder(k: uint64, a: VData, b: VData, budget: nat)
    requires Crowded(a, b) && budget > 0
    ensures var ts := PutTwice(k, a, b, budget);
            && Contents(ts) == map[k := Encode(b)]
            && Fitting(ts, Move(0, k))
            && var us := [Last(Moved(ts, Move(0, k)))];
            && Outcome(ts, [Move(0, k)], true, true, us)
            && Contents(us) == map[k := Encode(a)] && Encode(a) != Encode(b)
  {
    hide Contents, PutTwice, Encode, Put, Moved, Outcome, Fitting, IsEntry;
    var ts := PutTwice(k, a, b, budget);
    PutTwiceTables(k, a, b, budget);
    OnePut(0, k, a);
    OnePut(2 * Size(a), k, b);
    TwoTables(k, ts[0], ts[1]);
    OneMove(ts, k, Encode(a));
    var us := Moved(ts, Move(0, k));
    TwoTables(k, Last(us), Last(us));
  }

  /** Two puts into a new storage, then a delete: the older value is back, and the length counted the key twice. */
  lemma DeleteUncoversOlder(k: uint64, a: VData, b: VData, budget: nat, merging: bool, canAllocate: bool)
    requires Crowded(a, b) && budget > 0
    ensures var ts := PutTwice(k, a, b, budget);
            var us := DeleteOutcome(ts, merging, k, canAllocate).1;
            && Contents(ts) == map[k := Encode(b)] && Len(ts) == 2
            && k in Contents(us) && Contents(us)[k] == Encode(a) && Encode(a) != Encode(b)
  {
    hide Contents, PutTwice, Encode, Put;
    var ts := PutTwice(k, a, b, budget);
    PutTwiceTables(k, a, b, budget);
    OnePut(0, k, a);
    OnePut(2 * Size(a), k, b);
    TwoTables(k, ts[0], ts[1]);
    DeleteVisibleAt(ts, 1, k);
    ContentsVisible(DeleteVisible(ts, k), 0, k);
  }

  /** An overwriting `Put` that overflows into a new table creates the overlap. */
  lemma OverflowingPutOverlaps(t: TableView, k: uint64, v: VData, budget: nat)
    requires k in t.live && |v.key| < MAX_KEY_LEN
    requires !HasRoom(t, |v.key| + |v.value| + 13) && Placeable([t], |v.key| + |v.value| + 13) && budget > 0
    ensures Disjoint([t]) && !Disjoint(PutOutcome([t], k, v, budget).1)
  {
    hide Contents, Put, Retried, HasRoom, Placeable, AtLeastMinimum;
    PutSucceeds([t], k, v, budget);
    PutRefines([t], k, v, budget);
    RetriedContents([t], |v.key| + |v.value| + 13, budget);
    var us := PutOutcome([t], k, v, budget).1;
    assert Retried([t], |v.key| + |v.value| + 13, budget)[..1] == [t];
    assert us[0] == t;
  }
}
