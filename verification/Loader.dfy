/** Rebuilding a storage from what the snapshot engine wrote to disk. */
module Loader {
  import opened Bytes
  import opened Entry
  import opened TableSpec
  import opened StorageSpec
  import opened PutSpec
  import opened MergeSpec
  import opened Storages

  datatype LoadError = KeyMissing | PutFailed(error: PutError)

  /** What the sync worker writes for a storage: the raw form of every key, one zero byte after its entry. */
  ghost predicate Saves(c: Entries, disk: map<uint64, seq<byte>>) {
    disk.Keys == c.Keys && forall k <- c :: IsEntry(c[k]) && disk[k] == RawForm(c[k])
  }

  ghost predicate AllWellFormed(disk: map<uint64, seq<byte>>) {
    forall k <- disk :: WellFormed(disk[k])
  }

  /** The entries of `disk` under the keys in `done`. */
  ghost function Loaded(disk: map<uint64, seq<byte>>, done: set<uint64>): (m: Entries)
    requires AllWellFormed(disk) && done <= disk.Keys
  {
    map k | k in done :: Trim(disk[k])
  }

  lemma LoadOne(disk: map<uint64, seq<byte>>, done: set<uint64>, k: uint64)
    requires AllWellFormed(disk) && done <= disk.Keys && k in disk
    ensures Loaded(disk, done + {k}) == Loaded(disk, done)[k := Trim(disk[k])]
  {
  }

  /** Putting a key that no table holds keeps tables disjoint. */
  lemma PutRawAbsent(ts: Stack, k: uint64, raw: seq<byte>, budget: nat)
    requires ts != [] && Disjoint(ts) && WellFormed(raw) && k !in Contents(ts)
    requires PutRawOutcome(ts, k, raw, budget).0 == None
    ensures Disjoint(PutRawOutcome(ts, k, raw, budget).1)
  {
    hide Contents, Disjoint, Retried, HasRoom, Len, Placeable, WellFormed;
    PutRawRefines(ts, k, raw, budget);
    var rs := Retried(ts, |raw|, budget);
    RetriedContents(ts, |raw|, budget);
    var us := PutRawOutcome(ts, k, raw, budget).1;
    forall i | 0 <= i < |us| - 1 ensures k !in us[i].live {
      assert us[i] == rs[i];
      if k in rs[i].live {
        InContents(rs, i, k);
        assert false;
      }
    }
  }

  // ---------- loading in a given key order ----------

  predicate Distinct(order: seq<uint64>) {
    forall i, j | 0 <= i < j < |order| :: order[i] != order[j]
  }

  function KeysIn(order: seq<uint64>): set<uint64> {
    set k <- order
  }

  /** `order` is one of the ways to walk the key set. */
  predicate Enumerates(order: seq<uint64>, hkeys: set<uint64>) {
    Distinct(order) && KeysIn(order) == hkeys
  }

  /** What the background merge makes of the tables after the given number of keys. */
  type Pause = (nat, Stack) -> Stack

  /** It runs any number of chunks. A raw put that pushed a table has started it; the put itself holds the lock. */
  ghost predicate Merges(pause: Pause) {
    forall i, ts | ts != [] :: MergedTo(ts, pause(i, ts))
  }

  /** No merge gets to run. */
  function Undisturbed(i: nat, ts: Stack): Stack {
    ts
  }

  lemma UndisturbedMerges()
    ensures Merges(Undisturbed)
  {
    forall ts: Stack ensures MergedTo(ts, ts) {
      assert Chunks(ts, ts, 0);
    }
  }

  lemma PausePreserves(pause: Pause, i: nat, ts: Stack)
    requires Merges(pause) && ts != [] && Disjoint(ts)
    ensures pause(i, ts) != [] && Disjoint(pause(i, ts)) && Contents(pause(i, ts)) == Contents(ts)
  {
    hide Chunks, Contents, Disjoint;
    assert MergedTo(ts, pause(i, ts));
    var n :| Chunks(ts, pause(i, ts), n);
    ChunksPreserve(ts, pause(i, ts), n);
  }

  lemma PauseSome(pause: Pause, i: nat, ts: Stack)
    requires Merges(pause) && ts != []
    ensures pause(i, ts) != []
  {
    assert MergedTo(ts, pause(i, ts));
    var n :| Chunks(ts, pause(i, ts), n);
    ChunksSome(ts, pause(i, ts), n);
  }

  /** Raw puts into a new storage, one per key of `order`, up to the first error, with merging in between; `budget`
      allocations would succeed for each. */
  ghost function Load(order: seq<uint64>, disk: map<uint64, seq<byte>>, budget: nat, pause: Pause)
    : (r: (Option<LoadError>, Stack))
    requires AllWellFormed(disk) && Merges(pause)
    ensures r.1 != []
  {
    if order == [] then (None, [Fresh(0)]) else
      var before := Load(order[..|order| - 1], disk, budget, pause);
      if before.0 != None then before else
        var (e, ts) := LoadKey(before.1, order[|order| - 1], disk, budget);
        if e != None then (e, ts) else
          PauseSome(pause, |order|, ts);
          (None, pause(|order|, ts))
  }

  function LoadKey(ts: Stack, k: uint64, disk: map<uint64, seq<byte>>, budget: nat): (r: (Option<LoadError>, Stack))
    requires AllWellFormed(disk) && ts != []
    ensures r.1 != []
  {
    if k !in disk then (Some(KeyMissing), ts) else
      var (e, us) := PutRawOutcome(ts, k, disk[k], budget);
      (if e == None then None else Some(PutFailed(e.value)), us)
  }

  lemma LoadNext(order: seq<uint64>, k: uint64, disk: map<uint64, seq<byte>>, budget: nat, pause: Pause)
    requires AllWellFormed(disk) && Merges(pause) && Load(order, disk, budget, pause).0 == None
    ensures var (e, ts) := LoadKey(Load(order, disk, budget, pause).1, k, disk, budget);
            Load(order + [k], disk, budget, pause) == (e, if e == None then pause(|order| + 1, ts) else ts)
  {
    assert (order + [k])[..|order|] == order;
  }

  /** The first error ends the load. */
  lemma {:induction false} ErrorStays(order: seq<uint64>, rest: seq<uint64>, disk: map<uint64, seq<byte>>, budget: nat,
                                      pause: Pause)
    requires AllWellFormed(disk) && Merges(pause) && Load(order, disk, budget, pause).0 != None
    ensures Load(order + rest, disk, budget, pause) == Load(order, disk, budget, pause)
    decreases |rest|
  {
    if rest == [] {
      assert order + rest == order;
    } else {
      ErrorStays(order, rest[..|rest| - 1], disk, budget, pause);
      assert (order + rest)[..|order + rest| - 1] == order + rest[..|rest| - 1];
    }
  }

  lemma DistinctInit(order: seq<uint64>)
    requires Distinct(order) && order != []
    ensures var init, k := order[..|order| - 1], order[|order| - 1];
            Distinct(init) && k !in KeysIn(init) && KeysIn(order) == KeysIn(init) + {k}
  {
    assert order == order[..|order| - 1] + [order[|order| - 1]];
  }

  lemma DistinctMore(order: seq<uint64>, k: uint64)
    requires Distinct(order) && k !in order
    ensures Distinct(order + [k]) && KeysIn(order + [k]) == KeysIn(order) + {k}
  {
  }

  lemma DistinctConcat(a: seq<uint64>, b: seq<uint64>)
    requires Distinct(a) && Distinct(b) && KeysIn(a) !! KeysIn(b)
    ensures Distinct(a + b) && KeysIn(a + b) == KeysIn(a) + KeysIn(b)
  {
    forall i, j | 0 <= i < j < |a + b| ensures (a + b)[i] != (a + b)[j] {
      if i < |a| <= j {
        assert a[i] in KeysIn(a) && b[j - |a|] in KeysIn(b);
      }
    }
  }

  /** Every key set can be walked. */
  lemma Walk(hkeys: set<uint64>) returns (order: seq<uint64>)
    ensures Enumerates(order, hkeys)
  {
    order := [];
    var left := hkeys;
    while left != {}
      invariant left <= hkeys && Enumerates(order, hkeys - left)
    {
      var k :| k in left;
      DistinctMore(order, k);
      order, left := order + [k], left - {k};
    }
  }

  /** One key of the load. */
  lemma LoadKeyRefines(ts: Stack, done: set<uint64>, k: uint64, disk: map<uint64, seq<byte>>, budget: nat)
    requires AllWellFormed(disk) && ts != [] && Disjoint(ts)
    requires done <= disk.Keys && k !in done && Contents(ts) == Loaded(disk, done)
    ensures var (e, us) := LoadKey(ts, k, disk, budget);
            && Disjoint(us)
            && (e == None ==> k in disk && Contents(us) == Loaded(disk, done + {k}))
            && (e == Some(KeyMissing) <==> k !in disk)
            && (k in disk && budget > 0 && |disk[k]| < MINIMUM_SIZE ==> e == None)
  {
    hide Contents, Disjoint, Loaded, PutRawOutcome, WellFormed, HasRoom;
    if k in disk {
      LoadOne(disk, done, k);
      NotYet(disk, done, k);
      PutRawRefines(ts, k, disk[k], budget);
      if PutRawOutcome(ts, k, disk[k], budget).0 == None {
        PutRawAbsent(ts, k, disk[k], budget);
      } else {
        PutRawFails(ts, k, disk[k], budget);
      }
    }
  }

  /** A load that ends without error holds exactly the entries read, in disjoint tables; it can only fail for a missing
      key, for want of memory or for bytes that fill a minimum-size table. */
  lemma {:induction false} LoadRefines(order: seq<uint64>, disk: map<uint64, seq<byte>>, budget: nat, pause: Pause)
    requires AllWellFormed(disk) && Merges(pause) && Distinct(order)
    ensures var (e, ts) := Load(order, disk, budget, pause);
            && Disjoint(ts)
            && (e == None ==> KeysIn(order) <= disk.Keys && Contents(ts) == Loaded(disk, KeysIn(order)))
            && (e == Some(KeyMissing) ==> !(KeysIn(order) <= disk.Keys))
            && (e != None && e.value.PutFailed? ==>
                  budget == 0 || exists k <- disk :: k in order && |disk[k]| >= MINIMUM_SIZE)
  {
    hide Contents, Disjoint, Loaded, LoadKey, WellFormed, Merges;
    if order == [] {
      StartEmpty(disk);
      assert KeysIn(order) == {};
    } else {
      var init, k := order[..|order| - 1], order[|order| - 1];
      DistinctInit(order);
      LoadRefines(init, disk, budget, pause);
      var before := Load(init, disk, budget, pause);
      if before.0 == None {
        LoadKeyRefines(before.1, KeysIn(init), k, disk, budget);
        PausePreserves(pause, |order|, LoadKey(before.1, k, disk, budget).1);
      }
    }
  }

  /** The first key loads exactly if its bytes leave room in a minimum-size table. */
  lemma FirstKeyExact(k: uint64, disk: map<uint64, seq<byte>>, budget: nat, pause: Pause)
    requires AllWellFormed(disk) && Merges(pause) && k in disk
    ensures Load([k], disk, budget, pause).0 == None <==> |disk[k]| < MINIMUM_SIZE
  {
    hide Contents, Disjoint, WellFormed;
    LoadNext([], k, disk, budget, pause);
    assert [] + [k] == [k];
    PutRawRefines([Fresh(0)], k, disk[k], budget);
  }

  /** With memory at hand, a key set loads in whatever order it is walked exactly if every key is there and leaves
      room in a minimum-size table. */
  lemma LoadExact(hkeys: set<uint64>, disk: map<uint64, seq<byte>>, budget: nat, pause: Pause)
    requires AllWellFormed(disk) && Merges(pause) && budget > 0
    ensures (forall order | Enumerates(order, hkeys) :: Load(order, disk, budget, pause).0 == None) <==>
            forall k <- hkeys :: k in disk && |disk[k]| < MINIMUM_SIZE
  {
    hide Load, Contents, Disjoint, Loaded, WellFormed;
    if forall k <- hkeys :: k in disk && |disk[k]| < MINIMUM_SIZE {
      forall order | Enumerates(order, hkeys) ensures Load(order, disk, budget, pause).0 == None {
        LoadRefines(order, disk, budget, pause);
        assert forall k <- order :: k in KeysIn(order);
      }
    } else {
      var k :| k in hkeys && (k !in disk || |disk[k]| >= MINIMUM_SIZE);
      var order := BadFirst(hkeys, k, disk, budget, pause);
    }
  }

  /** Walking a key that cannot be loaded first fails at once. */
  lemma BadFirst(hkeys: set<uint64>, k: uint64, disk: map<uint64, seq<byte>>, budget: nat, pause: Pause)
    returns (order: seq<uint64>)
    requires AllWellFormed(disk) && Merges(pause) && k in hkeys && (k !in disk || |disk[k]| >= MINIMUM_SIZE)
    ensures Enumerates(order, hkeys) && Load(order, disk, budget, pause).0 != None
  {
    var rest := Walk(hkeys - {k});
    order := [k] + rest;
    assert KeysIn([k]) == {k};
    DistinctConcat([k], rest);
    if k in disk {
      FirstKeyExact(k, disk, budget, pause);
    } else {
      LoadNext([], k, disk, budget, pause);
      assert [] + [k] == [k];
    }
    ErrorStays([k], rest, disk, budget, pause);
  }

  /** A load during which no merge gets to run. */
  ghost function LoadAlone(order: seq<uint64>, disk: map<uint64, seq<byte>>, budget: nat)
    : (r: (Option<LoadError>, Stack))
    requires AllWellFormed(disk)
    ensures r.1 != []
  {
    UndisturbedMerges();
    Load(order, disk, budget, Undisturbed)
  }

  lemma AloneEmpty(disk: map<uint64, seq<byte>>, budget: nat)
    requires AllWellFormed(disk)
    ensures LoadAlone([], disk, budget) == (None, [Fresh(0)])
  {
  }

  lemma AloneNext(order: seq<uint64>, k: uint64, disk: map<uint64, seq<byte>>, budget: nat)
    requires AllWellFormed(disk) && LoadAlone(order, disk, budget).0 == None
    ensures LoadAlone(order + [k], disk, budget) == LoadKey(LoadAlone(order, disk, budget).1, k, disk, budget)
  {
    hide Load, LoadKey, Merges;
    UndisturbedMerges();
    LoadNext(order, k, disk, budget, Undisturbed);
  }

  lemma AloneError(order: seq<uint64>, rest: seq<uint64>, disk: map<uint64, seq<byte>>, budget: nat)
    requires AllWellFormed(disk) && LoadAlone(order, disk, budget).0 != None
    ensures LoadAlone(order + rest, disk, budget) == LoadAlone(order, disk, budget)
  {
    hide Load, Merges;
    UndisturbedMerges();
    ErrorStays(order, rest, disk, budget, Undisturbed);
  }

  /** Fills a new storage with the keys of the key set, in any order; `budget` allocations would succeed per key.
      No merge runs meanwhile. */
  method LoadFromBadger(hkeys: set<uint64>, disk: map<uint64, seq<byte>>, budget: nat)
    returns (o: Storage, r: Option<LoadError>, ghost order: seq<uint64>)
    requires AllWellFormed(disk)
    ensures o.Valid() && fresh(o.Repr)
    ensures Enumerates(order, hkeys) && (r, o.View()) == LoadAlone(order, disk, budget)
  {
    hide Storage.Valid, Storage.View, PutRawOutcome, WellFormed, LoadAlone;
    AloneEmpty(disk, budget);
    o := new Storage(0);
    order := [];
    var left := hkeys;
    while left != {}
      invariant o.Valid() && fresh(o.Repr)
      invariant left <= hkeys && Enumerates(order, hkeys - left) && LoadAlone(order, disk, budget) == (None, o.View())
    {
      var hkey :| hkey in left;
      ghost var done := order;
      ghost var rest := Walk(left - {hkey});
      DistinctMore(done, hkey);
      DistinctConcat(done + [hkey], rest);
      AloneNext(done, hkey, disk, budget);
      order := done + [hkey];
      if hkey !in disk {
        r := Some(KeyMissing);
      } else {
        var e := o.PutRaw(hkey, disk[hkey], budget);
        r := if e == None then None else Some(PutFailed(e.value));
      }
      if r != None {
        AloneError(order, rest, disk, budget);
        order := order + rest;
        return;
      }
      left := left - {hkey};
    }
    r := None;
  }

  lemma StartEmpty(disk: map<uint64, seq<byte>>)
    requires AllWellFormed(disk)
    ensures Disjoint([Fresh(0)]) && Contents([Fresh(0)]) == Loaded(disk, {})
  {
    assert [Fresh(0)][..0] == [];
  }

  lemma NotYet(disk: map<uint64, seq<byte>>, done: set<uint64>, k: uint64)
    requires AllWellFormed(disk) && done <= disk.Keys && k !in done
    ensures k !in Loaded(disk, done)
  {
  }

  lemma PutRawFails(ts: Stack, k: uint64, raw: seq<byte>, budget: nat)
    requires ts != [] && WellFormed(raw) && PutRawOutcome(ts, k, raw, budget).0 != None
    ensures Disjoint(PutRawOutcome(ts, k, raw, budget).1) <==> Disjoint(ts)
  {
    hide Contents, Disjoint, Retried, HasRoom, Len, WellFormed;
    RetriedContents(ts, |raw|, budget);
  }

  /** Loading what was saved gives the saved contents back, byte for byte. */
  lemma LoadSaved(c: Entries, disk: map<uint64, seq<byte>>)
    requires Saves(c, disk)
    ensures AllWellFormed(disk) && Loaded(disk, disk.Keys) == c
  {
    forall k | k in c ensures WellFormed(disk[k]) && Trim(disk[k]) == c[k] {
      RawFormTrims(c[k]);
    }
  }
}
