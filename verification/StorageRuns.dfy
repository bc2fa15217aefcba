/** A storage over whole runs of its operations and of the background merge. */
module StorageRuns {
  import opened Bytes
  import opened Entry
  import opened TableSpec
  import opened StorageSpec
  import opened PutSpec
  import opened MergeSpec

  /** Testable before a put: the table it will be written to is the only one that may hold the key. */
  predicate Clear(ts: Stack, k: uint64, v: VData)
    requires ts != []
  {
    if HasRoom(Last(ts), |v.key| + |v.value| + 13) then k !in Contents(ts[..|ts| - 1]) else k !in Contents(ts)
  }

  lemma HeldIn(ts: Stack, k: uint64)
    ensures k in Contents(ts) <==> exists i | 0 <= i < |ts| :: k in ts[i].live
  {
    hide Contents;
    if k in Contents(ts) {
      var i := ContentsSource(ts, k);
    }
    forall i | 0 <= i < |ts| && k in ts[i].live ensures k in Contents(ts) {
      InContents(ts, i, k);
    }
  }

  /** A successful `Put` leaves its key in one table exactly when it was clear, however it was spread before, and then
      disjoint tables disjoint. */
  lemma ClearExact(ts: Stack, k: uint64, v: VData, budget: nat)
    requires ts != [] && PutOutcome(ts, k, v, budget).0 == None
    ensures !Duplicated(PutOutcome(ts, k, v, budget).1, k) <==> Clear(ts, k, v)
    ensures Disjoint(ts) ==> (Disjoint(PutOutcome(ts, k, v, budget).1) <==> Clear(ts, k, v))
  {
    hide Contents, Disjoint, Retried, Put, HasRoom, Placeable, Decode, IsEntry, WellFormed, Trim, Encode;
    var n, us := |v.key| + |v.value| + 13, PutOutcome(ts, k, v, budget).1;
    PutSucceeds(ts, k, v, budget);
    PutRefines(ts, k, v, budget);
    RetriedContents(ts, n, budget);
    var older := if HasRoom(Last(ts), n) then ts[..|ts| - 1] else ts;
    assert |us| - 1 == |older|;
    assert forall i | 0 <= i < |older| :: us[i] == Retried(ts, n, budget)[..|ts|][i] == older[i];
    assert k in Last(us).live by { WrittenLast(ts, k, v, budget); }
    HeldIn(older, k);
    if i :| 0 <= i < |older| && k in older[i].live {
      assert k in us[i].live && k in us[|us| - 1].live;
    }
  }

  lemma WrittenLast(ts: Stack, k: uint64, v: VData, budget: nat)
    requires ts != [] && PutOutcome(ts, k, v, budget).0 == None
    ensures k in Last(PutOutcome(ts, k, v, budget).1).live
  {
    hide Retried, HasRoom, Encode;
  }

  datatype Op =
    | PutOp(k: uint64, v: VData, budget: nat)
    | DeleteOp(k: uint64, merging: bool, canAllocate: bool)
    | MergeOp(moves: seq<Move>, canAllocate: bool, done: bool, after: Stack)

  ghost predicate Enabled(ts: Stack, op: Op) {
    ts != [] && (op.MergeOp? ==> Outcome(ts, op.moves, op.canAllocate, op.done, op.after))
  }

  ghost function Do(ts: Stack, op: Op): (r: Stack)
    requires Enabled(ts, op)
    ensures r != []
  {
    match op
    case PutOp(k, v, budget) => PutOutcome(ts, k, v, budget).1
    case DeleteOp(k, merging, canAllocate) => DeleteOutcome(ts, merging, k, canAllocate).1
    case MergeOp(_, _, _, after) => after
  }

  ghost predicate IsRun(ts: Stack, ops: seq<Op>)
    decreases |ops|
  {
    ops == [] || (Enabled(ts, ops[0]) && IsRun(Do(ts, ops[0]), ops[1..]))
  }

  ghost function After(ts: Stack, ops: seq<Op>): (r: Stack)
    requires IsRun(ts, ops)
    decreases |ops|
  {
    if ops == [] then ts else After(Do(ts, ops[0]), ops[1..])
  }

  /** A put of `k` is clear where it is made; puts of other keys need not be. */
  ghost predicate ClearOp(ts: Stack, op: Op, k: uint64)
    requires ts != []
  {
    op.PutOp? && op.k == k ==> Clear(ts, k, op.v)
  }

  ghost predicate ClearRun(ts: Stack, ops: seq<Op>, k: uint64)
    requires IsRun(ts, ops)
    decreases |ops|
  {
    ops == [] || (ClearOp(ts, ops[0], k) && ClearRun(Do(ts, ops[0]), ops[1..], k))
  }

  /** The operation on a plain map of decoded values; a put that fails changes nothing. */
  ghost function MapDo(ts: Stack, m: map<uint64, VData>, op: Op): (r: map<uint64, VData>)
    requires Enabled(ts, op)
  {
    match op
    case PutOp(k, v, budget) => if PutOutcome(ts, k, v, budget).0 == None then m[k := Stored(v)] else m
    case DeleteOp(k, _, _) => m - {k}
    case MergeOp(_, _, _, _) => m
  }

  /** The same run on that map. */
  ghost function MapAfter(ts: Stack, m: map<uint64, VData>, ops: seq<Op>): (r: map<uint64, VData>)
    requires IsRun(ts, ops)
    decreases |ops|
  {
    if ops == [] then m else MapAfter(Do(ts, ops[0]), MapDo(ts, m, ops[0]), ops[1..])
  }

  /** At most one table holds `k`, and `m` has its decoded value, or neither has it. */
  ghost predicate MeansAt(ts: Stack, m: map<uint64, VData>, k: uint64) {
    && !Duplicated(ts, k)
    && (k in Contents(ts) <==> k in m)
    && (k in m ==> IsEntry(Contents(ts)[k]) && Decode(Contents(ts)[k]) == m[k])
  }

  lemma SameHeld(ts: Stack, us: Stack, k: uint64)
    requires |us| >= |ts| && forall i | 0 <= i < |ts| :: k in us[i].live ==> k in ts[i].live
    requires forall i | |ts| <= i < |us| :: k !in us[i].live
    requires !Duplicated(ts, k)
    ensures !Duplicated(us, k)
  {
  }

  /** A put of another key, or one that fails, leaves `k` where it is. */
  lemma PutElsewhere(ts: Stack, j: uint64, v: VData, budget: nat, k: uint64)
    requires ts != [] && !Duplicated(ts, k) && (j != k || PutOutcome(ts, j, v, budget).0 != None)
    ensures var us := PutOutcome(ts, j, v, budget).1;
            !Duplicated(us, k) && SameAt(ts, us, k)
  {
    hide Contents, Disjoint, Len, Retried, HasRoom, Encode, Decode, IsEntry, WellFormed, Trim, Duplicated;
    var n, us := |v.key| + |v.value| + 13, PutOutcome(ts, j, v, budget).1;
    RetriedContents(ts, n, budget);
    var rs := Retried(ts, n, budget);
    if PutOutcome(ts, j, v, budget).0 == None {
      PutRefines(ts, j, v, budget);
    }
    forall i | 0 <= i < |us| ensures k in us[i].live <==> k in rs[i].live {
    }
    assert forall i | 0 <= i < |ts| :: rs[..|ts|][i] == rs[i];
    SameHeld(ts, us, k);
  }

  lemma PutSingle(ts: Stack, m: map<uint64, VData>, op: Op, k: uint64)
    requires op.PutOp? && Enabled(ts, op) && MeansAt(ts, m, k) && ClearOp(ts, op, k)
    ensures MeansAt(Do(ts, op), MapDo(ts, m, op), k)
  {
    hide Contents, Duplicated, Clear, PutOutcome, Decode, IsEntry, WellFormed, Trim;
    if op.k == k && PutOutcome(ts, k, op.v, op.budget).0 == None {
      ClearExact(ts, k, op.v, op.budget);
      PutRefines(ts, k, op.v, op.budget);
    } else {
      PutElsewhere(ts, op.k, op.v, op.budget, k);
    }
  }

  lemma DeleteSingle(ts: Stack, m: map<uint64, VData>, op: Op, k: uint64)
    requires op.DeleteOp? && Enabled(ts, op) && MeansAt(ts, m, k)
    ensures MeansAt(Do(ts, op), MapDo(ts, m, op), k)
  {
    hide Contents, Len, Disjoint, DeleteVisible, Decode, IsEntry;
    var us := DeleteVisible(ts, op.k);
    if op.k == k {
      DeleteExact(ts, k);
    } else {
      DeleteOthers(ts, op.k, k);
    }
    DeleteHolders(ts, op.k, k);
    SameHeld(ts, us, k);
    var vs := Do(ts, op);
    if |vs| > |us| {
      PushEmpty(us, vs[|us|]);
      SameHeld(us, vs, k);
    }
  }

  lemma DeleteHolders(ts: Stack, j: uint64, k: uint64)
    ensures forall i | 0 <= i < |ts| :: k in DeleteVisible(ts, j)[i].live ==> k in ts[i].live
  {
    hide Contents, DeleteVisible;
    if j in Contents(ts) {
      var i := ContentsSource(ts, j);
      DeleteVisibleAt(ts, i, j);
    } else {
      DeleteVisibleNone(ts, j);
    }
  }

  lemma OpRefines(ts: Stack, m: map<uint64, VData>, op: Op, k: uint64)
    requires Enabled(ts, op) && MeansAt(ts, m, k) && ClearOp(ts, op, k)
    ensures MeansAt(Do(ts, op), MapDo(ts, m, op), k)
  {
    hide Contents, Duplicated, Clear, Outcome, Decode, IsEntry;
    match op
    case PutOp(_, _, _) => PutSingle(ts, m, op, k);
    case DeleteOp(_, _, _) => DeleteSingle(ts, m, op, k);
    case MergeOp(moves, canAllocate, done, after) => MergeSingle(ts, moves, canAllocate, done, after, k);
  }

  /** Over every run of puts, deletes and merge chunks: a key whose own puts are clear stays in one table at most and
      means what a plain map would have for it, however other keys are spread. */
  lemma {:induction false} KeyRefines(ts: Stack, m: map<uint64, VData>, ops: seq<Op>, k: uint64)
    requires IsRun(ts, ops) && ClearRun(ts, ops, k) && MeansAt(ts, m, k)
    ensures MeansAt(After(ts, ops), MapAfter(ts, m, ops), k)
    decreases |ops|
  {
    hide MeansAt, Enabled, Do, ClearOp, MapDo;
    if ops != [] {
      OpRefines(ts, m, ops[0], k);
      KeyRefines(Do(ts, ops[0]), MapDo(ts, m, ops[0]), ops[1..], k);
    }
  }

  /** If that holds of all keys, tables stay disjoint and the storage means that plain map. */
  lemma RunRefines(ts: Stack, m: map<uint64, VData>, ops: seq<Op>)
    requires IsRun(ts, ops) && forall k: uint64 :: ClearRun(ts, ops, k) && MeansAt(ts, m, k)
    ensures var us, m' := After(ts, ops), MapAfter(ts, m, ops);
            && Disjoint(us) && Contents(us).Keys == m'.Keys
            && forall k <- m' :: IsEntry(Contents(us)[k]) && Decode(Contents(us)[k]) == m'[k]
  {
    hide Enabled, Do, ClearRun, MapDo, Contents, Decode, After, MapAfter, IsRun;
    var us, m' := After(ts, ops), MapAfter(ts, m, ops);
    forall k: uint64 ensures MeansAt(us, m', k) {
      assert ClearRun(ts, ops, k) && MeansAt(ts, m, k);
      KeyRefines(ts, m, ops, k);
    }
    forall k: uint64
      ensures k in Contents(us) <==> k in m'
      ensures k in m' ==> IsEntry(Contents(us)[k]) && Decode(Contents(us)[k]) == m'[k]
    {
      assert MeansAt(us, m', k);
    }
    assert forall k :: k in Contents(us).Keys <==> k in m'.Keys;
    forall i, j | 0 <= i < j < |us| ensures us[i].live.Keys !! us[j].live.Keys {
      forall k | k in us[i].live ensures k !in us[j].live {
        assert MeansAt(us, m', k);
      }
    }
  }
}
