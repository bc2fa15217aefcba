/** What a stack of tables means: a map in which newer tables shadow older ones. */
module StorageSpec {
  import opened Bytes
  import opened TableSpec

  type Stack = seq<TableView>

  /** The map a storage stands for. */
  function Contents(ts: Stack): (m: Entries) {
    if ts == [] then map[] else Contents(ts[..|ts| - 1]) + ts[|ts| - 1].live
  }

  /** No hkey is live in two tables. */
  ghost predicate Disjoint(ts: Stack) {
    forall i, j | 0 <= i < j < |ts| :: ts[i].live.Keys !! ts[j].live.Keys
  }

  function Len(ts: Stack): (n: nat) {
    if ts == [] then 0 else Len(ts[..|ts| - 1]) + |ts[|ts| - 1].live|
  }

  /** Table `i` holds the visible copy of `k`: no newer table holds one. */
  ghost predicate Visible(ts: Stack, i: nat, k: uint64) {
    i < |ts| && k in ts[i].live && forall j | i < j < |ts| :: k !in ts[j].live
  }

  function Last(ts: Stack): (t: TableView)
    requires ts != []
  {
    ts[|ts| - 1]
  }

  function WithLast(ts: Stack, t: TableView): (r: Stack)
    requires ts != []
    ensures |r| == |ts|
  {
    ts[|ts| - 1 := t]
  }

  // ---------- Contents in terms of tables ----------

  lemma {:induction false} ContentsVisible(ts: Stack, i: nat, k: uint64)
    requires Visible(ts, i, k)
    ensures k in Contents(ts) && Contents(ts)[k] == ts[i].live[k]
  {
    if i < |ts| - 1 {
      ContentsVisible(ts[..|ts| - 1], i, k);
    }
  }

  lemma {:induction false} ContentsAbsent(ts: Stack, k: uint64)
    requires forall i | 0 <= i < |ts| :: k !in ts[i].live
    ensures k !in Contents(ts)
  {
    if ts != [] {
      ContentsAbsent(ts[..|ts| - 1], k);
    }
  }

  lemma {:induction false} ContentsSource(ts: Stack, k: uint64) returns (i: nat)
    requires k in Contents(ts)
    ensures Visible(ts, i, k)
  {
    if k in Last(ts).live {
      i := |ts| - 1;
    } else {
      i := ContentsSource(ts[..|ts| - 1], k);
    }
  }

  /** Two stacks whose tables agree about `k` agree about its contents. */
  lemma {:induction false} ContentsPointwise(ts: Stack, us: Stack, k: uint64)
    requires |ts| == |us|
    requires forall i | 0 <= i < |ts| :: k in ts[i].live <==> k in us[i].live
    requires forall i | 0 <= i < |ts| && k in ts[i].live :: ts[i].live[k] == us[i].live[k]
    ensures k in Contents(ts) <==> k in Contents(us)
    ensures k in Contents(ts) ==> Contents(ts)[k] == Contents(us)[k]
  {
    if ts != [] {
      ContentsPointwise(ts[..|ts| - 1], us[..|us| - 1], k);
    }
  }

  // ---------- Len ----------

  lemma DisjointInit(ts: Stack)
    requires ts != []
    ensures Disjoint(ts) <==> Disjoint(ts[..|ts| - 1]) && Contents(ts[..|ts| - 1]).Keys !! Last(ts).live.Keys
  {
    var init := ts[..|ts| - 1];
    if Disjoint(ts) {
      forall k | k in Contents(init) ensures k !in Last(ts).live {
        var i := ContentsSource(init, k);
      }
    }
    if Disjoint(init) && Contents(init).Keys !! Last(ts).live.Keys {
      forall i, j | 0 <= i < j < |ts| ensures ts[i].live.Keys !! ts[j].live.Keys {
        if j == |ts| - 1 {
          forall k | k in ts[i].live ensures k !in ts[j].live {
            InContents(init, i, k);
          }
        } else {
          assert init[i].live.Keys !! init[j].live.Keys;
        }
      }
    }
  }

  lemma {:induction false} InContents(ts: Stack, i: nat, k: uint64)
    requires i < |ts| && k in ts[i].live
    ensures k in Contents(ts)
  {
    if i < |ts| - 1 {
      InContents(ts[..|ts| - 1], i, k);
    }
  }

  lemma UnionSize(a: set<uint64>, b: set<uint64>)
    ensures |a + b| == |a| + |b| - |a * b|
    ensures a * b == {} <==> |a * b| == 0
    ensures a !! b <==> a * b == {}
  {
    if a * b == {} {
      forall x | x in a ensures x !in b {
        assert x !in a * b;
      }
    }
  }

  lemma MapUnionSize(a: Entries, b: Entries)
    ensures |a + b| <= |a| + |b|
    ensures |a + b| == |a| + |b| <==> a.Keys !! b.Keys
  {
    assert (a + b).Keys == a.Keys + b.Keys;
    UnionSize(a.Keys, b.Keys);
    assert |a + b| == |a.Keys + b.Keys| && |a| == |a.Keys| && |b| == |b.Keys|;
  }

  /** `Len` counts every key once exactly when the tables are disjoint; it never counts too few. */
  lemma {:induction false} LenExact(ts: Stack)
    ensures |Contents(ts)| <= Len(ts)
    ensures Len(ts) == |Contents(ts)| <==> Disjoint(ts)
  {
    if ts != [] {
      var init := ts[..|ts| - 1];
      LenExact(init);
      DisjointInit(ts);
      MapUnionSize(Contents(init), Last(ts).live);
    }
  }

  // ---------- Put ----------

  /** Replacing the last table changes nothing outside the keys it changes. */
  lemma ContentsWithLast(ts: Stack, t: TableView)
    requires ts != []
    ensures Contents(WithLast(ts, t)) == Contents(ts[..|ts| - 1]) + t.live
  {
    assert WithLast(ts, t)[..|ts| - 1] == ts[..|ts| - 1];
  }

  lemma ContentsPush(ts: Stack, t: TableView)
    ensures Contents(ts + [t]) == Contents(ts) + t.live
    ensures Len(ts + [t]) == Len(ts) + |t.live|
  {
    assert (ts + [t])[..|ts|] == ts;
  }

  /** Writing `k` in the last table makes it visible and leaves every other key alone,
      whether or not older tables still hold copies of `k`. */
  lemma WriteLast(ts: Stack, t: TableView, k: uint64, e: seq<byte>)
    requires ts != [] && t.live == Last(ts).live[k := e]
    ensures Contents(WithLast(ts, t)) == Contents(ts)[k := e]
  {
    ContentsWithLast(ts, t);
  }

  /** Disjointness survives a write of `k` to the last table exactly when no other table holds `k`. */
  lemma WriteDisjoint(ts: Stack, t: TableView, k: uint64, e: seq<byte>)
    requires ts != [] && t.live == Last(ts).live[k := e]
    requires Disjoint(ts)
    ensures Disjoint(WithLast(ts, t)) <==> forall i | 0 <= i < |ts| - 1 :: k !in ts[i].live
  {
    var us := WithLast(ts, t);
    assert us[..|ts| - 1] == ts[..|ts| - 1];
    DisjointInit(ts);
    DisjointInit(us);
    if k in Contents(ts[..|ts| - 1]) {
      var i := ContentsSource(ts[..|ts| - 1], k);
      assert k in ts[i].live;
    } else {
      forall i | 0 <= i < |ts| - 1 ensures k !in ts[i].live {
        if k in ts[i].live {
          InContents(ts[..|ts| - 1], i, k);
        }
      }
    }
  }

  lemma PushEmpty(ts: Stack, t: TableView)
    requires t.live == map[]
    ensures Contents(ts + [t]) == Contents(ts) && Len(ts + [t]) == Len(ts)
    ensures Disjoint(ts + [t]) <==> Disjoint(ts)
  {
    ContentsPush(ts, t);
    assert forall i | 0 <= i < |ts| :: (ts + [t])[i] == ts[i];
  }

  // ---------- Delete ----------

  /** Deleting the visible copy of `k` uncovers whatever older copy there is. */
  function DeleteVisible(ts: Stack, k: uint64): (us: Stack)
    ensures |us| == |ts|
  {
    if ts == [] then [] else
    if k in Last(ts).live then WithLast(ts, Deleted(Last(ts), k))
    else DeleteVisible(ts[..|ts| - 1], k) + [Last(ts)]
  }

  lemma {:induction false} DeleteVisibleAt(ts: Stack, i: nat, k: uint64)
    requires Visible(ts, i, k)
    ensures DeleteVisible(ts, k) == ts[i := Deleted(ts[i], k)]
  {
    if k !in Last(ts).live {
      DeleteVisibleAt(ts[..|ts| - 1], i, k);
    }
  }

  lemma {:induction false} DeleteVisibleNone(ts: Stack, k: uint64)
    requires k !in Contents(ts)
    ensures DeleteVisible(ts, k) == ts
  {
    if ts != [] {
      assert ts == ts[..|ts| - 1] + [Last(ts)];
      DeleteVisibleNone(ts[..|ts| - 1], k);
    }
  }

  /** Every key but `k` is untouched, however the tables overlap. */
  lemma DeleteOthers(ts: Stack, k: uint64, other: uint64)
    requires other != k
    ensures other in Contents(DeleteVisible(ts, k)) <==> other in Contents(ts)
    ensures other in Contents(ts) ==> Contents(DeleteVisible(ts, k))[other] == Contents(ts)[other]
  {
    if k in Contents(ts) {
      var i := ContentsSource(ts, k);
      DeleteVisibleAt(ts, i, k);
      ContentsPointwise(ts, DeleteVisible(ts, k), other);
    } else {
      DeleteVisibleNone(ts, k);
    }
  }

  /** Some table other than the newest one holding `k` also holds it. */
  ghost predicate Duplicated(ts: Stack, k: uint64) {
    exists i, j :: 0 <= i < j < |ts| && k in ts[i].live && k in ts[j].live
  }

  /** `Delete` removes `k` exactly when at most one table holds it. */
  lemma DeleteExact(ts: Stack, k: uint64)
    ensures k !in Contents(DeleteVisible(ts, k)) <==> !Duplicated(ts, k)
  {
    var us := DeleteVisible(ts, k);
    if k in Contents(ts) {
      var i := ContentsSource(ts, k);
      DeleteVisibleAt(ts, i, k);
      if k in Contents(us) {
        var j := ContentsSource(us, k);
        assert k in ts[j].live && j < i;
      } else if Duplicated(ts, k) {
        var a, b :| 0 <= a < b < |ts| && k in ts[a].live && k in ts[b].live;
        assert us[a] == ts[a];
        InContents(us, a, k);
        assert false;
      }
    } else {
      DeleteVisibleNone(ts, k);
      if Duplicated(ts, k) {
        var a, b :| 0 <= a < b < |ts| && k in ts[a].live && k in ts[b].live;
        InContents(ts, a, k);
        assert false;
      }
    }
  }

  lemma DeleteKeepsDisjoint(ts: Stack, k: uint64)
    requires Disjoint(ts)
    ensures Disjoint(DeleteVisible(ts, k))
  {
    if k in Contents(ts) {
      var i := ContentsSource(ts, k);
      DeleteVisibleAt(ts, i, k);
    } else {
      DeleteVisibleNone(ts, k);
    }
  }

  /** From disjoint tables `Delete` is map removal and keeps them disjoint. */
  lemma DeleteRefines(ts: Stack, k: uint64)
    requires Disjoint(ts)
    ensures Disjoint(DeleteVisible(ts, k))
    ensures Contents(DeleteVisible(ts, k)) == Contents(ts) - {k}
    ensures Len(DeleteVisible(ts, k)) == Len(ts) - if k in Contents(ts) then 1 else 0
  {
    hide Disjoint, DeleteVisible, Contents, Len;
    DeleteKeepsDisjoint(ts, k);
    assert !Duplicated(ts, k) by { DisjointUnduplicated(ts, k); }
    DeleteExact(ts, k);
    var m, n := Contents(ts), Contents(DeleteVisible(ts, k));
    forall j: uint64 | j != k ensures j in n <==> j in m ensures j in m ==> n[j] == m[j] {
      DeleteOthers(ts, k, j);
    }
    assert n == m - {k};
    assert (m - {k}).Keys == m.Keys - {k};
    LenExact(ts);
    LenExact(DeleteVisible(ts, k));
  }

  const MAX_GARBAGE_RATIO: real := 0.40

  /** A single table whose garbage reaches 40% of its memory is due for a rewrite. */
  predicate TooMuchGarbage(ts: Stack) {
    |ts| == 1 && ts[0].capacity as real * MAX_GARBAGE_RATIO <= ts[0].garbage as real
  }

  /** Result, new stack and new merging flag of `Storage.Delete`. */
  function DeleteOutcome(ts: Stack, merging: bool, k: uint64, canAllocate: bool): (r: (bool, Stack, bool)) {
    var us := DeleteVisible(ts, k);
    if !TooMuchGarbage(us) || merging then (true, us, merging)
    else if !canAllocate then (false, us, false)
    else
      var t := us[0];
      (true, us + [Fresh(if t.inuse * 2 > t.capacity then t.capacity else t.inuse * 2)], true)
  }

  /** A successor table is pushed exactly when a single table has reached two fifths of garbage, no merge runs and
      memory can be had; it is never larger than the table it replaces. Then, and only then, a merge is started; and
      the delete fails exactly when it is due and memory cannot be had. */
  lemma DeletePushes(ts: Stack, merging: bool, k: uint64, canAllocate: bool)
    ensures var us, vs := DeleteVisible(ts, k), DeleteOutcome(ts, merging, k, canAllocate).1;
            && vs[..|ts|] == us
            && (|vs| == |ts| + 1 <==>
                  |ts| == 1 && 2 * us[0].capacity <= 5 * us[0].garbage && !merging && canAllocate)
            && (|vs| == |ts| + 1 ==>
                  var wanted := if us[0].inuse * 2 > us[0].capacity then us[0].capacity else us[0].inuse * 2;
                  vs[1] == TableView(map[], 0, if wanted < MINIMUM_SIZE then MINIMUM_SIZE else wanted, 0, 0))
            && (|vs| == |ts| + 1 && us[0].capacity >= MINIMUM_SIZE ==> vs[1].capacity <= us[0].capacity)
            && (DeleteOutcome(ts, merging, k, canAllocate).2 <==> merging || |vs| == |ts| + 1)
            && (!DeleteOutcome(ts, merging, k, canAllocate).0 <==>
                  |ts| == 1 && 2 * us[0].capacity <= 5 * us[0].garbage && !merging && !canAllocate)
  {
    hide DeleteVisible;
    var us := DeleteVisible(ts, k);
    assert us[..|ts|] == us;
  }

  /** From disjoint tables `Delete` is map removal in every outcome. */
  lemma DeleteOutcomeRefines(ts: Stack, merging: bool, k: uint64, canAllocate: bool)
    requires Disjoint(ts)
    ensures var (_, us, _) := DeleteOutcome(ts, merging, k, canAllocate);
            Disjoint(us) && Contents(us) == Contents(ts) - {k} && |ts| <= |us| <= |ts| + 1
  {
    hide Disjoint, Contents, Len, DeleteVisible;
    DeleteRefines(ts, k);
    var us := DeleteVisible(ts, k);
    if TooMuchGarbage(us) {
      var t := us[0];
      PushEmpty(us, Fresh(if t.inuse * 2 > t.capacity then t.capacity else t.inuse * 2));
    }
  }

  lemma DisjointUnduplicated(ts: Stack, k: uint64)
    requires Disjoint(ts)
    ensures !Duplicated(ts, k)
  {
  }
}
