/** The storage: a stack of tables, written at the top and searched from the top down. */
module Storages {
  import opened Bytes
  import opened Entry
  import opened TableSpec
  import opened StorageSpec
  import opened PutSpec
  import opened MergeSpec
  import opened RangeSpec
  import opened Tables

  datatype Drain = Drained | LimitPassed | NoRoom

  class Storage {
    var tables: seq<Table>
    var merging: bool
    ghost var Repr: set<object>

    ghost predicate Valid()
      reads this, Repr
      ensures Valid() ==> this in Repr && tables != []
    {
      && this in Repr
      && tables != []
      && (forall i | 0 <= i < |tables| :: tables[i] in Repr && tables[i].memory in Repr && tables[i].Valid())
      && Distinct(tables)
    }

    static ghost predicate Distinct(tables: seq<Table>) {
      forall i, j | 0 <= i < j < |tables| :: tables[i] != tables[j] && tables[i].memory != tables[j].memory
    }

    ghost function View(): (ts: Stack)
      reads this`tables, tables
      ensures |ts| == |tables| && forall i | 0 <= i < |ts| :: ts[i] == tables[i].View()
    {
      Views(tables)
    }

    static ghost function Views(tables: seq<Table>): (ts: Stack)
      reads tables
      ensures |ts| == |tables| && forall i | 0 <= i < |ts| :: ts[i] == tables[i].View()
    {
      seq(|tables|, i requires 0 <= i < |tables| reads tables => tables[i].View())
    }

    lemma IndexKeys(i: nat)
      requires Valid() && i < |tables|
      ensures tables[i].hkeys.Keys == tables[i].live.Keys
    {
    }

    lemma ViewSound()
      requires Valid()
      ensures AllSound(View())
    {
    }

    /** `New`: one table of at least the minimum size. */
    constructor (size: int)
      ensures Valid() && fresh(Repr)
      ensures View() == [Fresh(size)] && !merging
    {
      hide Layout, Sound, Slack;
      var t := new Table(size);
      tables := [t];
      merging := false;
      Repr := {this, t, t.memory};
      new;
      assert View() == [t.View()];
    }

    /** Pushes a new empty table. */
    method Grow(size: int)
      requires Valid()
      modifies this
      ensures Valid() && fresh(Repr - old(Repr))
      ensures tables[..|tables| - 1] == old(tables) && merging == old(merging)
      ensures View() == old(View()) + [Fresh(size)]
    {
      hide Table.Valid;
      var nt := new Table(size);
      tables := tables + [nt];
      Repr := Repr + {nt, nt.memory};
    }

    /** Pushes a new empty table and starts a merge unless one is running. */
    method GrowAndMerge(size: int)
      requires Valid()
      modifies this
      ensures Valid() && fresh(Repr - old(Repr))
      ensures tables[..|tables| - 1] == old(tables) && merging
      ensures View() == old(View()) + [Fresh(size)]
    {
      hide Table.Valid, Fresh;
      Grow(size);
      if !merging {
        merging := true;
      }
    }

    // ---------- writing ----------

    /** One attempt at writing into the newest table. */
    method TryPut(hkey: uint64, value: VData) returns (r: Option<PutError>)
      requires Valid()
      modifies Repr
      ensures Valid() && Repr == old(Repr) && tables == old(tables) && merging == old(merging)
      ensures r == if |value.key| >= MAX_KEY_LEN then Some(KeyTooLarge)
                   else if HasRoom(Last(old(View())), |value.key| + |value.value| + 13) then None
                   else Some(NotEnoughSpace)
      ensures View() == if r == None then WithLast(old(View()), TableSpec.Put(Last(old(View())), hkey, value))
                        else old(View())
    {
      hide Table.Valid, TableSpec.Put;
      var t := tables[|tables| - 1];
      assert t in tables;
      r := t.Put(hkey, value);
    }

    method TryPutRaw(hkey: uint64, raw: seq<byte>) returns (r: Option<PutError>)
      requires Valid() && WellFormed(raw)
      modifies Repr
      ensures Valid() && Repr == old(Repr) && tables == old(tables) && merging == old(merging)
      ensures r == if HasRoom(Last(old(View())), |raw|) then None else Some(NotEnoughSpace)
      ensures View() == if r == None then WithLast(old(View()), Appended(Last(old(View())), hkey, raw))
                        else old(View())
    {
      hide Table.Valid, Appended, WellFormed;
      var t := tables[|tables| - 1];
      assert t in tables;
      r := t.PutRaw(hkey, raw);
    }

    /** One pass of the retry loop: writes, fails for good, or pushes a larger table to try again. */
    method PutOnce(hkey: uint64, value: VData, canAllocate: bool) returns (r: Option<PutError>, again: bool)
      requires Valid()
      modifies Repr
      ensures Valid() && fresh(Repr - old(Repr)) && |tables| == old(|tables|) + if again then 1 else 0
      ensures again ==> View() == old(View()) + [Fresh(Last(old(View())).inuse * 2)]
      ensures merging == (again || old(merging))
      ensures var n, ts := |value.key| + |value.value| + 13, old(View());
              && (again <==> |value.key| < MAX_KEY_LEN && !HasRoom(Last(ts), n) && canAllocate)
              && (!again ==> (r, View()) == PutOutcome(ts, hkey, value, 0))
    {
      hide Valid, View, TableSpec.Put, Fresh, HasRoom;
      r := TryPut(hkey, value);
      again := false;
      if r == Some(NotEnoughSpace) {
        if !canAllocate {
          return Some(AllocationFailed), false;
        }
        GrowAndMerge(tables[|tables| - 1].inuse * 2);
        again := true;
      }
    }

    /** Overwrites any previous value: new tables are pushed while the newest one has no room,
        as long as memory for them can be had. */
    method Put(hkey: uint64, value: VData, budget: nat) returns (r: Option<PutError>)
      requires Valid()
      modifies Repr
      ensures Valid() && fresh(Repr - old(Repr))
      ensures (r, View()) == PutOutcome(old(View()), hkey, value, budget)
      ensures merging == (old(merging) || |tables| > old(|tables|))
    {
      hide Valid, View, TableSpec.Put, Fresh, PutOutcome, HasRoom;
      var left: nat := budget;
      ghost var ts := View();
      while true
        invariant Valid() && fresh(Repr - old(Repr))
        invariant PutOutcome(View(), hkey, value, left) == PutOutcome(ts, hkey, value, budget)
        invariant merging == (old(merging) || |tables| > old(|tables|)) && |tables| >= |old(tables)|
        decreases left
      {
        PutAgain(View(), hkey, value, left);
        var again;
        r, again := PutOnce(hkey, value, left > 0);
        if !again {
          return;
        }
        left := left - 1;
      }
    }

    method PutRawOnce(hkey: uint64, raw: seq<byte>, canAllocate: bool) returns (r: Option<PutError>, again: bool)
      requires Valid() && WellFormed(raw)
      modifies Repr
      ensures Valid() && fresh(Repr - old(Repr)) && |tables| == old(|tables|) + if again then 1 else 0
      ensures again ==> View() == old(View()) + [Fresh(Last(old(View())).inuse * 2)]
      ensures merging == (again || old(merging))
      ensures (again <==> !HasRoom(Last(old(View())), |raw|) && canAllocate)
      ensures !again ==> (r, View()) == PutRawOutcome(old(View()), hkey, raw, 0)
    {
      hide Valid, View, Appended, Fresh, HasRoom, WellFormed;
      r := TryPutRaw(hkey, raw);
      again := false;
      if r == Some(NotEnoughSpace) {
        if !canAllocate {
          return Some(AllocationFailed), false;
        }
        GrowAndMerge(tables[|tables| - 1].inuse * 2);
        again := true;
      }
    }

    method PutRaw(hkey: uint64, raw: seq<byte>, budget: nat) returns (r: Option<PutError>)
      requires Valid() && WellFormed(raw)
      modifies Repr
      ensures Valid() && fresh(Repr - old(Repr))
      ensures (r, View()) == PutRawOutcome(old(View()), hkey, raw, budget)
      ensures merging == (old(merging) || |tables| > old(|tables|))
    {
      hide Valid, View, Appended, Fresh, PutRawOutcome, HasRoom, WellFormed;
      var left: nat := budget;
      ghost var ts := View();
      while true
        invariant Valid() && fresh(Repr - old(Repr))
        invariant PutRawOutcome(View(), hkey, raw, left) == PutRawOutcome(ts, hkey, raw, budget)
        invariant merging == (old(merging) || |tables| > old(|tables|)) && |tables| >= |old(tables)|
        decreases left
      {
        PutRawAgain(View(), hkey, raw, left);
        var again;
        r, again := PutRawOnce(hkey, raw, left > 0);
        if !again {
          return;
        }
        left := left - 1;
      }
    }

    // ---------- reading ----------

    method GetRaw(hkey: uint64) returns (r: Option<seq<byte>>)
      requires Valid()
      ensures r == if hkey in Contents(View()) then Some(RawForm(Contents(View())[hkey])) else None
    {
      hide Table.Valid, Contents;
      var i := |tables|;
      while i > 0
        invariant 0 <= i <= |tables|
        invariant forall j | i <= j < |tables| :: hkey !in tables[j].live
      {
        i := i - 1;
        var raw, prev := tables[i].GetRaw(hkey);
        if !prev {
          assert Visible(View(), i, hkey);
          ContentsVisible(View(), i, hkey);
          return Some(raw);
        }
      }
      ContentsAbsent(View(), hkey);
      return None;
    }

    method Get(hkey: uint64) returns (r: Option<VData>)
      requires Valid()
      ensures r == None <==> hkey !in Contents(View())
      ensures r != None ==> IsEntry(Contents(View())[hkey]) && r == Some(Decode(Contents(View())[hkey]))
    {
      hide Table.Valid, Contents, Decode, IsEntry;
      var i := |tables|;
      while i > 0
        invariant 0 <= i <= |tables|
        invariant forall j | i <= j < |tables| :: hkey !in tables[j].live
      {
        i := i - 1;
        var v, prev := tables[i].Get(hkey);
        if !prev {
          assert Visible(View(), i, hkey);
          ContentsVisible(View(), i, hkey);
          return Some(v);
        }
      }
      ContentsAbsent(View(), hkey);
      return None;
    }

    method Check(hkey: uint64) returns (found: bool)
      requires Valid()
      ensures found <==> hkey in Contents(View())
    {
      hide Contents, Table.Valid;
      var i := |tables|;
      while i > 0
        invariant 0 <= i <= |tables|
        invariant forall j | i <= j < |tables| :: hkey !in tables[j].live
      {
        i := i - 1;
        IndexKeys(i);
        if hkey in tables[i].hkeys {
          InContents(View(), i, hkey);
          return true;
        }
      }
      ContentsAbsent(View(), hkey);
      return false;
    }

    method Length() returns (total: nat)
      requires Valid()
      ensures total == Len(View())
    {
      hide Sound, Layout;
      total := 0;
      for i := 0 to |tables|
        invariant total == Len(View()[..i])
      {
        total := total + |tables[i].hkeys|;
        assert View()[..i + 1][..i] == View()[..i];
        assert |tables[i].hkeys| == |tables[i].hkeys.Keys| == |tables[i].live|;
      }
      assert View()[..|tables|] == View();
    }

    // ---------- ranging ----------

    /** Calls `f` on the keys of table `i` in any order until it returns false. */
    method RangeTable(i: nat, f: (uint64, VData) -> bool) returns (visited: seq<(uint64, VData)>)
      requires Valid() && i < |tables|
      ensures Scan(View()[i], visited, f)
    {
      hide Table.Valid, Decode, IsEntry;
      visited := [];
      var keys := KeysAt(i);
      while keys != {}
        invariant keys <= View()[i].live.Keys && ScanSoFar(View()[i], visited, keys)
        invariant forall p <- visited :: f(p.0, p.1)
      {
        var hkey :| hkey in keys;
        var v, _ := tables[i].Get(hkey);
        ScanOne(View()[i], visited, keys, hkey, v);
        visited, keys := visited + [(hkey, v)], keys - {hkey};
        if !f(hkey, v) {
          break;
        }
      }
    }

    /** Calls `f` on the entries table by table, newest table first; false only ends the current table. */
    method Range(f: (uint64, VData) -> bool) returns (visited: seq<(uint64, VData)>)
      requires Valid()
      ensures ScanAll(View(), visited, f)
    {
      hide Table.Valid, Scan;
      visited := [];
      var i := |tables|;
      while i > 0
        invariant 0 <= i <= |tables|
        invariant ScanAll(View()[i..], visited, f)
      {
        i := i - 1;
        var part := RangeTable(i, f);
        assert View()[i..][0] == View()[i] && View()[i..][1..] == View()[i + 1..];
        visited := visited + part;
        assert visited[..|visited| - |part|] + part == visited;
      }
      assert View()[0..] == View();
    }

    // ---------- deleting ----------

    method DeleteAt(i: nat, hkey: uint64) returns (prev: bool)
      requires Valid() && i < |tables|
      modifies Repr
      ensures Valid() && Repr == old(Repr) && tables == old(tables) && merging == old(merging)
      ensures prev == (hkey !in old(View())[i].live)
      ensures View() == old(View())[i := Deleted(old(View())[i], hkey)]
    {
      hide Table.Valid, Deleted;
      assert tables[i] in tables;
      prev := tables[i].Delete(hkey);
    }

    /** Deletes the newest copy only. */
    method DeleteNewest(hkey: uint64)
      requires Valid()
      modifies Repr
      ensures Valid() && Repr == old(Repr) && tables == old(tables) && merging == old(merging)
      ensures View() == DeleteVisible(old(View()), hkey)
    {
      hide Valid, View, DeleteVisible;
      ghost var ts := View();
      var i := |tables|;
      while i > 0
        invariant 0 <= i <= |tables| && Valid() && Repr == old(Repr) && tables == old(tables) && merging == old(merging)
        invariant View() == ts && forall j | i <= j < |ts| :: hkey !in ts[j].live
      {
        i := i - 1;
        var prev := DeleteAt(i, hkey);
        if !prev {
          DeleteVisibleAt(ts, i, hkey);
          return;
        }
        assert ts[i := ts[i]] == ts;
      }
      ContentsAbsent(ts, hkey);
      DeleteVisibleNone(ts, hkey);
    }

    /** Deletes the newest copy of the key; a single table with too much garbage gets a successor to merge into.
        Returns false when that successor cannot be allocated. */
    method Delete(hkey: uint64, canAllocate: bool) returns (ok: bool)
      requires Valid()
      modifies Repr
      ensures Valid() && fresh(Repr - old(Repr))
      ensures (ok, View(), merging) == DeleteOutcome(old(View()), old(merging), hkey, canAllocate)
    {
      hide Valid, View, DeleteVisible, Fresh;
      DeleteNewest(hkey);
      if |tables| != 1 {
        return true;
      }
      var t := tables[0];
      if t.capacity as real * MAX_GARBAGE_RATIO <= t.garbage as real {
        if merging {
          return true;
        }
        var newSize := t.inuse * 2;
        if newSize > t.capacity {
          newSize := t.capacity;
        }
        if !canAllocate {
          return false;
        }
        GrowAndMerge(newSize);
      }
      return true;
    }

    // ---------- merging ----------

    lemma MoveReady(i: nat, hkey: uint64)
      requires Valid() && i < |tables| - 1 && hkey in View()[i].live
      ensures IsMove(View(), Move(i, hkey))
    {
      assert Sound(tables[i].View());
    }

    /** Copies one key from table `i` to the newest table and deletes it in `i`, if it fits. */
    method MoveKey(i: nat, hkey: uint64) returns (ok: bool)
      requires Valid() && i < |tables| - 1 && hkey in View()[i].live
      modifies Repr
      ensures Valid() && Repr == old(Repr) && tables == old(tables) && merging == old(merging)
      ensures IsMove(old(View()), Move(i, hkey)) && ok == Fitting(old(View()), Move(i, hkey))
      ensures View() == if ok then Moved(old(View()), Move(i, hkey)) else old(View())
    {
      hide Valid, View, IsEntry, WellFormed, Trim, Appended, Deleted;
      ghost var ts, m := View(), Move(i, hkey);
      MoveReady(i, hkey);
      var raw, _ := ReadAt(i, hkey);
      assert raw == RawForm(MovedEntry(ts, m));
      var r := TryPutRaw(hkey, raw);
      if r != None {
        return false;
      }
      var _ := DeleteAt(i, hkey);
      assert View() == WithLast(ts, Appended(Last(ts), hkey, raw))[i := Deleted(ts[i], hkey)] == Moved(ts, m);
      return true;
    }

    method ReadAt(i: nat, hkey: uint64) returns (raw: seq<byte>, prev: bool)
      requires Valid() && i < |tables|
      ensures prev == (hkey !in View()[i].live)
      ensures !prev ==> raw == RawForm(View()[i].live[hkey])
    {
      raw, prev := tables[i].GetRaw(hkey);
    }

    method KeysAt(i: nat) returns (keys: set<uint64>)
      requires Valid() && i < |tables|
      ensures keys == View()[i].live.Keys
    {
      keys := tables[i].hkeys.Keys;
    }

    /** Moves the keys of table `i` in any order until it is empty, the limit is passed, or one does not fit. */
    method DrainTable(i: nat, total: nat, ghost ts: Stack, ghost moves: seq<Move>)
      returns (how: Drain, total': nat, ghost moves': seq<Move>)
      requires Valid() && i < |tables| - 1
      requires Applicable(ts, moves) && View() == Apply(ts, moves) && |moves| == total <= MOVE_LIMIT
      requires forall j | 0 <= j < i :: View()[j].live == map[]
      modifies Repr
      ensures Valid() && Repr == old(Repr) && tables == old(tables) && merging == old(merging)
      ensures Applicable(ts, moves') && View() == Apply(ts, moves') && |moves'| == total'
      ensures how.LimitPassed? <==> total' == MOVE_LIMIT + 1
      ensures how.Drained? || how.NoRoom? ==> total' <= MOVE_LIMIT
      ensures how.Drained? ==> forall j | 0 <= j <= i :: View()[j].live == map[]
      ensures how.NoRoom? ==> exists m :: IsMove(View(), m) && Oldest(View(), m) && !Fitting(View(), m)
    {
      hide Valid, View, Moved, Fitting, IsMove, RawForm, Applicable, Apply;
      total', moves' := total, moves;
      var keys := KeysAt(i);
      while keys != {}
        invariant Valid() && Repr == old(Repr) && tables == old(tables) && merging == old(merging)
        invariant Applicable(ts, moves') && View() == Apply(ts, moves') && |moves'| == total' <= MOVE_LIMIT
        invariant keys == View()[i].live.Keys && forall j | 0 <= j < i :: View()[j].live == map[]
        decreases keys
      {
        var hkey :| hkey in keys;
        ghost var us, m := View(), Move(i, hkey);
        var ok := MoveKey(i, hkey);
        if !ok {
          return NoRoom, total', moves';
        }
        MovedTables(us, m);
        ApplyOne(ts, moves', m);
        moves' := moves' + [m];
        keys := keys - {hkey};
        total' := total' + 1;
        if total' > MOVE_LIMIT {
          return LimitPassed, total', moves';
        }
      }
      how := Drained;
    }

    /** One chunk of merging: keys move out of the old tables, oldest table first. */
    method ChunkedMergeTables(canAllocate: bool) returns (done: bool, ghost moves: seq<Move>)
      requires Valid()
      modifies Repr
      ensures Valid() && fresh(Repr - old(Repr)) && merging == old(merging)
      ensures Outcome(old(View()), moves, canAllocate, done, View())
    {
      hide Valid, View, Moved, Fitting, IsMove, Fresh;
      ghost var ts := View();
      moves := [];
      if |tables| == 1 {
        assert ts == [Last(ts)];
        return true, moves;
      }
      var total, n := 0, |tables| - 1;
      for i := 0 to n
        invariant Valid() && Repr == old(Repr) && tables == old(tables) && merging == old(merging)
        invariant Applicable(ts, moves) && View() == Apply(ts, moves) && |moves| == total <= MOVE_LIMIT
        invariant forall j | 0 <= j < i :: View()[j].live == map[]
      {
        var how;
        how, total, moves := DrainTable(i, total, ts, moves);
        if how == LimitPassed {
          return false, moves;
        }
        if how == NoRoom {
          if canAllocate {
            var size := tables[n].capacity * 2;
            Grow(size);
          }
          return false, moves;
        }
      }
      NothingLeft(View());
      PruneEmpty();
      done := true;
    }

    /** The last table followed by those of the first `n` that hold keys. */
    static ghost function Kept(tables: seq<Table>, n: nat): (kept: seq<Table>)
      requires n < |tables|
      reads tables
    {
      if n == 0 then [tables[|tables| - 1]]
      else Kept(tables, n - 1) + if |tables[n - 1].live| == 0 then [] else [tables[n - 1]]
    }

    static lemma {:induction false} KeptDistinct(tables: seq<Table>, n: nat)
      requires Distinct(tables) && n < |tables|
      ensures Kept(tables, n) != [] && Distinct(Kept(tables, n))
      ensures forall t <- Kept(tables, n) :: t == tables[|tables| - 1] || t in tables[..n]
    {
      if n > 0 {
        KeptDistinct(tables, n - 1);
        var kept, t := Kept(tables, n - 1), tables[n - 1];
        forall a | 0 <= a < |kept| ensures kept[a] != t && kept[a].memory != t.memory && kept[a] in kept {
          assert kept[a] in kept;
          if kept[a] != tables[|tables| - 1] {
            var x :| 0 <= x < n - 1 && tables[..n - 1][x] == kept[a];
            assert tables[x] == kept[a];
          }
        }
        assert tables[..n] == tables[..n - 1] + [t];
      }
    }

    static lemma {:induction false} KeptViews(tables: seq<Table>, n: nat)
      requires n < |tables|
      ensures Views(Kept(tables, n)) == [Last(Views(tables))] + NonEmpty(Views(tables)[..n])
    {
      if n > 0 {
        KeptViews(tables, n - 1);
        assert Views(tables)[..n][..n - 1] == Views(tables)[..n - 1];
      }
    }

    /** The newest table followed by the old tables that still hold keys. */
    method WithoutEmpty() returns (tmp: seq<Table>)
      requires Valid()
      ensures tmp == Kept(tables, |tables| - 1)
    {
      hide Table.Valid, Distinct;
      var n := |tables| - 1;
      tmp := [tables[n]];
      for i := 0 to n
        invariant tmp == Kept(tables, i)
      {
        var keys := KeysAt(i);
        if |keys| == 0 {
          continue;
        }
        tmp := tmp + [tables[i]];
      }
    }

    method PruneEmpty()
      requires Valid()
      modifies this
      ensures Valid() && Repr == old(Repr) && merging == old(merging)
      ensures View() == Pruned(old(View()))
    {
      hide Table.Valid, Distinct, Kept, Views, NonEmpty;
      KeptDistinct(tables, |tables| - 1);
      KeptViews(tables, |tables| - 1);
      var kept := WithoutEmpty();
      forall i | 0 <= i < |kept| ensures kept[i] in tables {
        assert kept[i] in kept;
      }
      ghost var want := Pruned(View());
      assert Views(kept) == want;
      tables := kept;
      assert Views(kept) == want;
    }

    /** Repeats chunks until the tables are merged; ends because memory for larger tables can be had. */
    method MergeTables()
      requires Valid()
      modifies Repr
      ensures Valid() && fresh(Repr - old(Repr))
      ensures |tables| == 1 && !merging
      ensures Contents(View()).Keys == Contents(old(View())).Keys
      ensures Disjoint(old(View())) ==>
                && Disjoint(View())
                && Contents(View()) == Contents(old(View()))
                && Len(View()) == Len(old(View()))
    {
      hide Valid, View, Contents, Disjoint, Len, Outcome, Shortage, OldKeys;
      ghost var ts := View();
      var done := false;
      while !done
        invariant Valid() && fresh(Repr - old(Repr))
        invariant done ==> |tables| == 1
        invariant Contents(View()).Keys == Contents(ts).Keys
        invariant Disjoint(ts) ==> Disjoint(View()) && Contents(View()) == Contents(ts) && Len(View()) == Len(ts)
        decreases !done, Shortage(View()), OldKeys(View())
      {
        ghost var before, moves := View(), [];
        ViewSound();
        done, moves := ChunkedMergeTables(true);
        MergeProgress(before, moves, true, done, View());
        MergeKeepsKeys(before, moves, true, done, View());
        if Disjoint(before) {
          MergePreserves(before, moves, true, done, View());
        }
      }
      StopMerging();
    }

    method StopMerging()
      requires Valid()
      modifies this
      ensures Valid() && Repr == old(Repr) && View() == old(View()) && tables == old(tables) && !merging
    {
      merging := false;
    }
  }
}
