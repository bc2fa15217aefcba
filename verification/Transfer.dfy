/** Shipping a storage to another node, and merging what arrives there. */
module Transfer {
  import opened Bytes
  import opened Entry
  import opened TableSpec
  import opened StorageSpec
  import opened PutSpec
  import opened Tables
  import opened Storages

  /** The record that travels; serialization is taken as the identity on it. */
  datatype Transport = Transport(hkeys: map<uint64, nat>, memory: seq<byte>, offset: nat, capacity: nat,
                                 inuse: int, garbage: int)

  /** `tr` describes a table that means `t`. */
  ghost predicate Carries(tr: Transport, t: TableView) {
    Describes(tr.hkeys, tr.memory, tr.offset, tr.capacity, tr.inuse, tr.garbage, t)
  }

  /** Refuses a fragmented storage; otherwise copies the used bytes and one zero after them. */
  method Export(s: Storage) returns (r: Option<Transport>)
    requires s.Valid()
    ensures r == None <==> |s.View()| != 1
    ensures r != None ==> Carries(r.value, s.View()[0]) && |r.value.memory| == r.value.offset + 1
  {
    hide Layout, Sound, Slack;
    if |s.tables| != 1 {
      return None;
    }
    var t := s.tables[0];
    var memory := t.memory[..t.offset] + [0];
    LayoutPrefix(t.hkeys, t.live, t.memory[..], memory, t.offset);
    return Some(Transport(t.hkeys, memory, t.offset, t.capacity, t.inuse, t.garbage));
  }

  /** Builds a storage from a record. `t` names what the record stands for, if it stands for anything. */
  method Import(tr: Transport, ghost t: TableView) returns (s: Storage)
    ensures Carries(tr, t) ==> s.Valid() && fresh(s.Repr) && s.View() == [t]
    ensures !s.merging && |s.tables| == 1
    ensures s.tables[0].hkeys == tr.hkeys && s.tables[0].offset == tr.offset
    ensures s.tables[0].inuse == tr.inuse && s.tables[0].garbage == tr.garbage
  {
    hide Table.Valid, Layout, Sound, Slack;
    s := new Storage(tr.capacity);
    var o := s.tables[0];
    o.Restore(tr.hkeys, tr.memory, tr.offset, tr.inuse, tr.garbage, t);
    if Carries(tr, t) {
      assert tr.capacity == AtLeastMinimum(tr.capacity) by { CapacityKept(t); }
    }
  }

  lemma CapacityKept(t: TableView)
    requires Sound(t)
    ensures t.capacity == AtLeastMinimum(t.capacity)
  {
  }

  /** Export followed by import: an unfragmented storage arrives with the same view, so every lookup, length
      and raw read answers as before. */
  method Ship(s: Storage) returns (r: Option<Storage>)
    requires s.Valid()
    ensures r == None <==> |s.View()| != 1
    ensures r != None ==> r.value.Valid() && fresh(r.value.Repr) && r.value.View() == s.View()
  {
    hide Layout, Sound, Slack, Carries;
    var tr := Export(s);
    if tr == None {
      return None;
    }
    ghost var ts := s.View();
    s.ViewSound();
    var o := Import(tr.value, ts[0]);
    assert ts == [ts[0]];
    return Some(o);
  }

  // ---------- merging an arrived storage ----------

  /** Keys of `m` outside `left` added to `d` where `d` has none. */
  ghost function Filled(m: Entries, left: set<uint64>, d: Entries): Entries {
    (m - left) + d
  }

  lemma FillStep(m: Entries, left: set<uint64>, d: Entries, k: uint64)
    requires k in left && k in m
    ensures Filled(m, left - {k}, d) == if k in Filled(m, left, d) then Filled(m, left, d) else Filled(m, left, d)[k := m[k]]
  {
  }

  /** Re-encoding what was decoded gives the stored bytes back, so a key absent from `ts` arrives unchanged. */
  lemma FillPut(ts: Stack, k: uint64, e: seq<byte>, budget: nat)
    requires ts != [] && IsEntry(e) && k !in Contents(ts)
    ensures var (r, us) := PutOutcome(ts, k, Decode(e), budget);
            && Contents(us) == (if r == None then Contents(ts)[k := e] else Contents(ts))
            && (r == None <==> Placeable(ts, |e|) && (HasRoom(Last(ts), |e|) || budget > 0))
            && (Disjoint(ts) ==> Disjoint(us))
  {
    hide PutOutcome, Contents, Disjoint, Len, Encode, Decode, Placeable, HasRoom;
    PutSucceeds(ts, k, Decode(e), budget);
    DecodedSize(e);
    if PutOutcome(ts, k, Decode(e), budget).0 == None {
      PutRefines(ts, k, Decode(e), budget);
      EncodeDecode(e);
      assert Trim(e) == e;
    } else {
      PutFails(ts, k, Decode(e), budget);
    }
    if Disjoint(ts) {
      PutAbsent(ts, k, Decode(e), budget);
    }
  }

  /** A stored entry decodes to a key short enough to be put, and takes as much room as before. */
  lemma DecodedSize(e: seq<byte>)
    requires IsEntry(e)
    ensures |Decode(e).key| < MAX_KEY_LEN && |Decode(e).key| + |Decode(e).value| + 13 == |e|
  {
  }

  /** Puts the key whose stored bytes are `e` unless it is already there. */
  method FillOne(dst: Storage, hkey: uint64, v: VData, ghost e: seq<byte>, budget: nat) returns (r: Option<PutError>)
    requires dst.Valid() && IsEntry(e) && v == Decode(e)
    modifies dst.Repr
    ensures dst.Valid() && fresh(dst.Repr - old(dst.Repr))
    ensures var c := Contents(old(dst.View()));
            Contents(dst.View()) == if hkey in c || r != None then c else c[hkey := e]
    ensures r != None ==> budget == 0 || |e| >= MINIMUM_SIZE
    ensures Disjoint(old(dst.View())) ==> Disjoint(dst.View())
  {
    hide Storage.Valid, Storage.View, Contents, Disjoint, Decode, IsEntry, PutOutcome;
    var found := dst.Check(hkey);
    if found {
      return None;
    }
    FillPut(dst.View(), hkey, e, budget);
    r := dst.Put(hkey, v, budget);
  }

  /** Adds to `dst` every key of the arrived `src` that `dst` does not hold: on success `dst` stands for the
      arrived map overridden by its own. */
  method MergeInto(dst: Storage, src: Storage, budget: nat) returns (r: Option<PutError>)
    requires dst.Valid() && src.Valid() && |src.tables| == 1 && dst.Repr !! src.Repr
    modifies dst.Repr
    ensures dst.Valid() && fresh(dst.Repr - old(dst.Repr))
    ensures exists left ::
              && Contents(dst.View()) == Filled(Contents(old(src.View())), left, Contents(old(dst.View())))
              && (r == None <==> left == {}) && left <= Contents(old(src.View())).Keys
    ensures r != None ==> budget == 0 || exists k <- Contents(old(src.View())) :: |Contents(old(src.View()))[k]| >= MINIMUM_SIZE
    ensures Disjoint(old(dst.View())) ==> Disjoint(dst.View())
  {
    hide Table.Valid, Storage.Distinct, Contents, Disjoint, Filled, Decode, IsEntry;
    ghost var m, d, ds := Contents(src.View()), Contents(dst.View()), dst.View();
    ghost var table := src.View()[0];
    OneTable(src.View());
    var left := src.KeysAt(0);
    FillNothing(m, d);
    while left != {}
      invariant dst.Valid() && fresh(dst.Repr - old(dst.Repr)) && dst.Repr !! src.Repr
      invariant src.Valid() && src.View() == [table] && left <= m.Keys
      invariant Contents(dst.View()) == Filled(m, left, d)
      invariant Disjoint(ds) ==> Disjoint(dst.View())
    {
      var hkey :| hkey in left;
      FillStep(m, left, d, hkey);
      var v, _ := src.tables[0].Get(hkey);
      r := FillOne(dst, hkey, v, m[hkey], budget);
      if r != None {
        return;
      }
      left := left - {hkey};
    }
    r := None;
  }

  lemma FillNothing(m: Entries, d: Entries)
    ensures Filled(m, m.Keys, d) == d
  {
  }

  lemma OneTable(ts: Stack)
    requires |ts| == 1
    ensures Contents(ts) == ts[0].live
  {
    assert ts[..0] == [];
  }
}
