/** A node that starts again: what the loader makes of the disk the sync worker left. */
module Restart {
  import opened Bytes
  import opened Entry
  import opened TableSpec
  import opened StorageSpec
  import opened PutSpec
  import opened Loader
  import opened Snapshot

  /** The map after a restart that walks the key set in the given order. It fails if the key set was never written,
      or if the loader fails. */
  ghost function Reloaded(s: State, order: seq<uint64>, budget: nat, pause: Pause): (r: Option<Entries>)
    requires AllWellFormed(s.disk) && Merges(pause)
  {
    if s.diskKeys == None then None else
      var (e, ts) := Load(order, s.disk, budget, pause);
      if e == None then Some(Contents(ts)) else None
  }

  ghost predicate IsWalk(s: State, order: seq<uint64>) {
    Enumerates(order, KeySet(s.diskKeys))
  }

  lemma SavedWellFormed(s: State)
    requires Saved(s)
    ensures AllWellFormed(s.disk)
  {
    hide IsEntry, IsRaw, WellFormed;
    forall k | k in s.disk ensures WellFormed(s.disk[k]) {
      RawIsWellFormed(s.disk[k]);
    }
  }

  // ---------- a stop at any point ----------

  /** At any point of any run, with memory at hand: a restart loads in whatever order keys are walked exactly if the map
      was ever synced, every key of the key set is on disk, and its raw form is smaller than a minimum-size table. What it
      loads are the entries saved under the key set. As long as no flush succeeds without the key set, that set is
      exactly the keys on disk. */
  lemma ReloadExact(steps: seq<Step>, budget: nat, pause: Pause)
    requires IsRun(INITIAL, steps) && budget > 0 && Merges(pause)
    ensures var s := After(INITIAL, steps);
            var keys := KeySet(s.diskKeys);
            && AllWellFormed(s.disk)
            && ((forall order | IsWalk(s, order) :: Reloaded(s, order, budget, pause) != None) <==>
                s.diskKeys != None && forall k <- keys :: k in s.disk && |s.disk[k]| < MINIMUM_SIZE)
            && (forall order | IsWalk(s, order) && Reloaded(s, order, budget, pause) != None ::
                  keys <= s.disk.Keys && Reloaded(s, order, budget, pause) == Some(Loaded(s.disk, keys)))
            && ((forall step <- steps :: step != Flush(false, true)) ==> keys == s.disk.Keys)
  {
    hide IsRun, After, Merges, Load, Contents, IsEntry, IsRaw, WellFormed, Distinct, Loaded;
    SavedRun(INITIAL, steps);
    var s := After(INITIAL, steps);
    SavedWellFormed(s);
    AnyStateExact(s, budget, pause);
    if forall step <- steps :: step != Flush(false, true) {
      KeysMatchRun(INITIAL, steps);
    }
  }

  lemma AnyStateExact(s: State, budget: nat, pause: Pause)
    requires AllWellFormed(s.disk) && budget > 0 && Merges(pause)
    ensures var keys := KeySet(s.diskKeys);
            && ((forall order | IsWalk(s, order) :: Reloaded(s, order, budget, pause) != None) <==>
                s.diskKeys != None && forall k <- keys :: k in s.disk && |s.disk[k]| < MINIMUM_SIZE)
            && (forall order | IsWalk(s, order) && Reloaded(s, order, budget, pause) != None ::
                  keys <= s.disk.Keys && Reloaded(s, order, budget, pause) == Some(Loaded(s.disk, keys)))
  {
    hide Merges, Load, Contents, Disjoint, IsEntry, WellFormed, Distinct, Loaded, KeysIn;
    var keys := KeySet(s.diskKeys);
    LoadExact(keys, s.disk, budget, pause);
    forall order | IsWalk(s, order) && Reloaded(s, order, budget, pause) != None
      ensures keys <= s.disk.Keys && Reloaded(s, order, budget, pause) == Some(Loaded(s.disk, keys))
    {
      LoadRefines(order, s.disk, budget, pause);
    }
    if s.diskKeys == None {
      var walk := Walk(keys);
      assert IsWalk(s, walk) && Reloaded(s, walk, budget, pause) == None;
    } else {
      assert forall order | IsWalk(s, order) ::
          Reloaded(s, order, budget, pause) != None <==> Load(order, s.disk, budget, pause).0 == None;
      assert (forall order | IsWalk(s, order) :: Reloaded(s, order, budget, pause) != None) <==>
             forall order | Enumerates(order, keys) :: Load(order, s.disk, budget, pause).0 == None;
    }
  }

  // ---------- a stop at rest ----------

  /** From a quiescent state without lost keys, what loads is the map as it was, so with memory at hand a restart yields
      it in whatever order keys are walked exactly if it was ever synced and the raw form of every entry, one byte longer
      than the entry, is smaller than a minimum-size table. A map never synced is empty. */
  lemma RestartExact(steps: seq<Step>, budget: nat, pause: Pause)
    requires IsRun(INITIAL, steps) && Quiescent(After(INITIAL, steps)) && LostAfter(INITIAL, {}, steps) == {}
    requires budget > 0 && Merges(pause)
    ensures var s := After(INITIAL, steps);
            && AllWellFormed(s.disk)
            && (forall order | IsWalk(s, order) ::
                  Reloaded(s, order, budget, pause) == None || Reloaded(s, order, budget, pause) == Some(s.mem))
            && ((forall order | IsWalk(s, order) :: Reloaded(s, order, budget, pause) == Some(s.mem)) <==>
                s.diskKeys != None && forall k <- s.mem :: |s.mem[k]| + 1 < MINIMUM_SIZE)
            && (s.diskKeys == None ==> s.mem == map[])
  {
    hide IsRun, After, LostAfter, Reloaded, IsEntry, WellFormed, IsWalk, Merges, Loaded;
    QuiescentMirrored(steps);
    var s := After(INITIAL, steps);
    ReloadExact(steps, budget, pause);
    LoadSaved(s.mem, s.disk);
    assert forall k <- s.mem :: |s.disk[k]| == |s.mem[k]| + 1;
    assert s.diskKeys == None ==> s.mem.Keys == {};
  }

  // ---------- restarts that fail ----------

  /** The smallest entry that may not come back: a byte short of a minimum-size table. It is put and synced, and then the
      loader never finds room for its raw form, however many tables it allocates. */
  lemma FullTableNeverReloads(k: uint64, v: VData, budget: nat, pause: Pause)
    requires |v.key| < MAX_KEY_LEN && |v.key| + |v.value| + 13 == MINIMUM_SIZE - 1 && Merges(pause)
    ensures PutOutcome([Fresh(0)], k, v, budget).0 == None
    ensures IsEntry(Encode(v)) && IsRun(INITIAL, SyncedRun(k, Encode(v)))
    ensures var s := After(INITIAL, SyncedRun(k, Encode(v)));
            && Quiescent(s) && s.mem == map[k := Encode(v)] && AllWellFormed(s.disk)
            && Load([k], s.disk, budget, pause).0 == Some(PutFailed(AllocationFailed))
            && |Load([k], s.disk, budget, pause).1| == 1 + budget
            && Reloaded(s, [k], budget, pause) == None
  {
    var e := Encode(v);
    DecodeEncode(v);
    assert |e| == MINIMUM_SIZE - 1;
    hide Encode, IsEntry, WellFormed, SyncedRun, IsRun, After, Contents, PutOutcome, Placeable, Merges, Load;
    FitsFresh(k, v, budget);
    OneSynced(k, e);
    var s := After(INITIAL, SyncedRun(k, e));
    assert Saves(s.mem, s.disk);
    LoadSaved(s.mem, s.disk);
    NeverLoads(k, s.disk, budget, pause);
  }

  lemma FitsFresh(k: uint64, v: VData, budget: nat)
    requires |v.key| < MAX_KEY_LEN && |v.key| + |v.value| + 13 < MINIMUM_SIZE
    ensures PutOutcome([Fresh(0)], k, v, budget).0 == None
  {
    hide PutOutcome;
    PutSucceeds([Fresh(0)], k, v, budget);
  }

  lemma NeverLoads(k: uint64, disk: map<uint64, seq<byte>>, budget: nat, pause: Pause)
    requires AllWellFormed(disk) && k in disk && |disk[k]| >= MINIMUM_SIZE && Merges(pause)
    ensures Load([k], disk, budget, pause).0 == Some(PutFailed(AllocationFailed))
    ensures |Load([k], disk, budget, pause).1| == 1 + budget
  {
    hide WellFormed, Contents, Appended, Merges;
    LoadNext([], k, disk, budget, pause);
    assert [] + [k] == [k];
    NeverFits([Fresh(0)], |disk[k]|, budget);
  }

  /** A key of any size that the key set names and the disk no longer has, because its deletion was flushed without the
      key set: the restart fails, both right after that flush and once everything has settled. */
  lemma MissingKeyNeverReloads(k: uint64, e: seq<byte>, budget: nat, pause: Pause)
    requires IsEntry(e) && Merges(pause)
    ensures var steps := KeylessRun(k, e);
            && IsRun(INITIAL, steps) && AllWellFormed(After(INITIAL, steps).disk)
            && Reloaded(After(INITIAL, steps), [k], budget, pause) == None
    ensures var steps := KeylessRun(k, e) + [Requeue] + [Drain] + [View(false)];
            && IsRun(INITIAL, steps)
            && var s := After(INITIAL, steps);
            && Quiescent(s) && s.mem == map[] && s.disk == map[] && s.diskKeys == Some({k}) && IsWalk(s, [k])
            && Load([k], s.disk, budget, pause).0 == Some(KeyMissing)
            && Reloaded(s, [k], budget, pause) == None
  {
    hide IsEntry, IsRun, After, KeylessRun, Load, Merges, Contents;
    OneKeyless(k, e);
    KeylessQuiescent(k, e);
    NothingLoads(k, budget, pause);
  }

  lemma NothingLoads(k: uint64, budget: nat, pause: Pause)
    requires Merges(pause)
    ensures Load([k], map[], budget, pause).0 == Some(KeyMissing)
  {
    hide Merges;
    LoadNext([], k, map[], budget, pause);
    assert [] + [k] == [k];
  }
}
