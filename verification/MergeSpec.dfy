/** Folding old tables into the newest one, one key at a time. */
module MergeSpec {
  import opened Bytes
  import opened Entry
  import opened TableSpec
  import opened StorageSpec

  const MOVE_LIMIT: nat := 1000

  datatype Move = Move(from: nat, hkey: uint64)

  ghost predicate AllSound(ts: Stack) {
    forall i | 0 <= i < |ts| :: Sound(ts[i])
  }

  ghost predicate IsMove(ts: Stack, m: Move) {
    ts != [] && m.from < |ts| - 1 && m.hkey in ts[m.from].live && IsEntry(ts[m.from].live[m.hkey])
  }

  ghost function MovedEntry(ts: Stack, m: Move): (e: seq<byte>)
    requires IsMove(ts, m)
    ensures IsEntry(e) && WellFormed(RawForm(e)) && Trim(RawForm(e)) == e
  {
    var e := ts[m.from].live[m.hkey];
    RawFormTrims(e);
    e
  }

  /** Old tables are drained one after the other, the oldest first. */
  ghost predicate Oldest(ts: Stack, m: Move) {
    forall i | 0 <= i < m.from && i < |ts| :: ts[i].live == map[]
  }

  /** The raw form read from a table carries one extra zero byte. */
  ghost predicate Fitting(ts: Stack, m: Move) {
    IsMove(ts, m) && HasRoom(Last(ts), |MovedEntry(ts, m)| + 1)
  }

  /** One key copied to the newest table and deleted from the table it was in. */
  ghost function Moved(ts: Stack, m: Move): (us: Stack)
    requires IsMove(ts, m)
    ensures |us| == |ts|
  {
    WithLast(ts[m.from := Deleted(ts[m.from], m.hkey)], Appended(Last(ts), m.hkey, RawForm(MovedEntry(ts, m))))
  }

  ghost predicate Applicable(ts: Stack, moves: seq<Move>)
    decreases |moves|, 0
  {
    moves == [] ||
    var init := moves[..|moves| - 1];
    Applicable(ts, init) && Fitting(Apply(ts, init), moves[|moves| - 1]) && Oldest(Apply(ts, init), moves[|moves| - 1])
  }

  ghost function Apply(ts: Stack, moves: seq<Move>): (us: Stack)
    requires Applicable(ts, moves)
    ensures |us| == |ts|
    decreases |moves|, 1
  {
    if moves == [] then ts else Moved(Apply(ts, moves[..|moves| - 1]), moves[|moves| - 1])
  }

  lemma ApplyOne(ts: Stack, moves: seq<Move>, m: Move)
    requires Applicable(ts, moves) && Fitting(Apply(ts, moves), m) && Oldest(Apply(ts, moves), m)
    ensures Applicable(ts, moves + [m]) && Apply(ts, moves + [m]) == Moved(Apply(ts, moves), m)
  {
    assert (moves + [m])[..|moves|] == moves;
  }

  function NonEmpty(ts: Stack): (us: Stack) {
    if ts == [] then [] else
      NonEmpty(ts[..|ts| - 1]) + if |ts[|ts| - 1].live| == 0 then [] else [ts[|ts| - 1]]
  }

  function Pruned(ts: Stack): (us: Stack)
    requires ts != []
  {
    [Last(ts)] + NonEmpty(ts[..|ts| - 1])
  }

  lemma {:induction false} NonEmptyExact(ts: Stack, t: TableView)
    ensures t in NonEmpty(ts) <==> t in ts && t.live != map[]
  {
    if ts != [] {
      NonEmptyExact(ts[..|ts| - 1], t);
      assert ts == ts[..|ts| - 1] + [ts[|ts| - 1]];
    }
  }

  /** The newest table comes first, and exactly the old ones that hold keys follow. */
  lemma PrunedExact(ts: Stack, t: TableView)
    requires ts != []
    ensures var us := Pruned(ts);
            us != [] && us[0] == Last(ts) && (t in us[1..] <==> t in ts[..|ts| - 1] && t.live != map[])
  {
    NonEmptyExact(ts[..|ts| - 1], t);
  }

  lemma {:induction false} NonEmptyNone(ts: Stack)
    requires forall i | 0 <= i < |ts| :: ts[i].live == map[]
    ensures NonEmpty(ts) == []
  {
    if ts != [] {
      NonEmptyNone(ts[..|ts| - 1]);
    }
  }

  lemma NothingLeft(ts: Stack)
    requires ts != [] && forall i | 0 <= i < |ts| - 1 :: ts[i].live == map[]
    ensures Pruned(ts) == [Last(ts)]
  {
    NonEmptyNone(ts[..|ts| - 1]);
  }

  /** What one call of the chunked merge may do: fitting moves, table by table in any key order, ended by the key limit,
      by an entry that does not fit, or by running out of keys in old tables. */
  ghost predicate Outcome(ts: Stack, moves: seq<Move>, canAllocate: bool, done: bool, after: Stack) {
    && ts != []
    && Applicable(ts, moves)
    && var us := Apply(ts, moves);
    if done then
      |moves| <= 1000 && after == [Last(us)] && forall i | 0 <= i < |us| - 1 :: us[i].live == map[]
    else if |moves| == 1001 then
      after == us
    else
      && |moves| <= 1000
      && (exists m :: IsMove(us, m) && Oldest(us, m) && !Fitting(us, m))
      && after == if canAllocate then us + [Fresh(Last(us).capacity * 2)] else us
  }

  // ---------- one move ----------

  lemma MovedTables(ts: Stack, m: Move)
    requires IsMove(ts, m)
    ensures var us, e := Moved(ts, m), MovedEntry(ts, m);
            && (forall i | 0 <= i < |ts| - 1 && i != m.from :: us[i] == ts[i])
            && us[m.from] == Deleted(ts[m.from], m.hkey)
            && Last(us) == Appended(Last(ts), m.hkey, RawForm(e))
            && Last(us).live == Last(ts).live[m.hkey := e]
            && us[..|ts| - 1] == ts[..|ts| - 1][m.from := Deleted(ts[m.from], m.hkey)]
  {
  }

  lemma MovedOthers(ts: Stack, m: Move, k: uint64)
    requires IsMove(ts, m) && k != m.hkey
    ensures k in Contents(Moved(ts, m)) <==> k in Contents(ts)
    ensures k in Contents(ts) ==> Contents(Moved(ts, m))[k] == Contents(ts)[k]
  {
    MovedTables(ts, m);
    hide Moved;
    var us := Moved(ts, m);
    forall i | 0 <= i < |ts|
      ensures k in ts[i].live <==> k in us[i].live
      ensures k in ts[i].live ==> ts[i].live[k] == us[i].live[k]
    {
      if i == |ts| - 1 {
        assert ts[i] == Last(ts) && us[i] == Last(us);
      }
    }
    ContentsPointwise(ts, us, k);
  }

  lemma MovedKey(ts: Stack, m: Move)
    requires IsMove(ts, m)
    ensures m.hkey in Contents(ts) && m.hkey in Contents(Moved(ts, m))
    ensures Contents(Moved(ts, m))[m.hkey] == MovedEntry(ts, m)
  {
    MovedTables(ts, m);
    hide Moved, Contents;
    InContents(ts, m.from, m.hkey);
    ContentsVisible(Moved(ts, m), |ts| - 1, m.hkey);
  }

  /** A move never adds or drops a key, and it changes the map exactly when the copy it moves was shadowed
      by a different newer one. */
  lemma MovedExact(ts: Stack, m: Move)
    requires IsMove(ts, m)
    ensures Contents(Moved(ts, m)).Keys == Contents(ts).Keys
    ensures m.hkey in Contents(ts)
    ensures Contents(Moved(ts, m)) == Contents(ts) <==> Contents(ts)[m.hkey] == MovedEntry(ts, m)
  {
    hide Contents, Moved, MovedEntry;
    var c, d := Contents(ts), Contents(Moved(ts, m));
    forall k: uint64 | k != m.hkey ensures k in d <==> k in c ensures k in c ==> d[k] == c[k] {
      MovedOthers(ts, m, k);
    }
    MovedKey(ts, m);
  }

  lemma MovedDisjoint(ts: Stack, m: Move)
    requires IsMove(ts, m) && Disjoint(ts)
    ensures Disjoint(Moved(ts, m))
    ensures Contents(Moved(ts, m)) == Contents(ts)
    ensures Len(Moved(ts, m)) == Len(ts)
  {
    MovedTables(ts, m);
    var us := Moved(ts, m);
    assert Disjoint(us) by {
      hide Moved, Contents;
      forall a, b | 0 <= a < b < |us| ensures us[a].live.Keys !! us[b].live.Keys {
        assert ts[a].live.Keys !! ts[b].live.Keys;
        assert a != m.from ==> ts[a].live.Keys !! ts[m.from].live.Keys;
        if b == |us| - 1 {
          assert us[b] == Last(us);
        }
      }
    }
    hide Moved, Disjoint, Contents, Len, MovedEntry;
    assert Contents(ts)[m.hkey] == ts[m.from].live[m.hkey] by { DisjointVisible(ts, m.from, m.hkey); }
    MovedExact(ts, m);
    LenExact(ts);
    LenExact(us);
  }

  lemma DisjointVisible(ts: Stack, i: nat, k: uint64)
    requires Disjoint(ts) && i < |ts| && k in ts[i].live
    ensures k in Contents(ts) && Contents(ts)[k] == ts[i].live[k]
  {
    ContentsVisible(ts, i, k);
  }

  lemma MovedSound(ts: Stack, m: Move)
    requires Fitting(ts, m) && AllSound(ts)
    ensures AllSound(Moved(ts, m))
    ensures Last(Moved(ts, m)).capacity == Last(ts).capacity
  {
    MovedTables(ts, m);
    hide Moved, Sound;
    DeletedSound(ts[m.from], m.hkey);
    AppendedSound(Last(ts), m.hkey, RawForm(MovedEntry(ts, m)));
    var us := Moved(ts, m);
    forall i | 0 <= i < |us| ensures Sound(us[i]) {
      if i == |us| - 1 {
        assert us[i] == Last(us);
      }
    }
  }

  // ---------- any number of moves ----------

  lemma {:induction false} ApplySound(ts: Stack, moves: seq<Move>)
    requires Applicable(ts, moves) && AllSound(ts) && ts != []
    ensures AllSound(Apply(ts, moves))
    ensures Last(Apply(ts, moves)).capacity == Last(ts).capacity
    ensures Contents(Apply(ts, moves)).Keys == Contents(ts).Keys
    decreases |moves|
  {
    hide Sound, Contents, Moved;
    if moves != [] {
      var init := moves[..|moves| - 1];
      ApplySound(ts, init);
      MovedSound(Apply(ts, init), moves[|moves| - 1]);
      MovedExact(Apply(ts, init), moves[|moves| - 1]);
    }
  }

  /** From disjoint tables, no list of moves changes the map or the length. */
  lemma {:induction false} ApplyPreserves(ts: Stack, moves: seq<Move>)
    requires Applicable(ts, moves) && Disjoint(ts)
    ensures Disjoint(Apply(ts, moves))
    ensures Contents(Apply(ts, moves)) == Contents(ts)
    ensures Len(Apply(ts, moves)) == Len(ts)
    decreases |moves|
  {
    hide Disjoint, Contents, Len, Moved;
    if moves != [] {
      var init := moves[..|moves| - 1];
      ApplyPreserves(ts, init);
      MovedDisjoint(Apply(ts, init), moves[|moves| - 1]);
    }
  }

  /** Dropping empty old tables changes nothing. */
  lemma {:induction false} EmptyTables(ts: Stack)
    requires forall i | 0 <= i < |ts| :: ts[i].live == map[]
    ensures Contents(ts) == map[] && Len(ts) == 0
  {
    if ts != [] {
      EmptyTables(ts[..|ts| - 1]);
    }
  }

  lemma KeepLast(ts: Stack)
    requires ts != [] && forall i | 0 <= i < |ts| - 1 :: ts[i].live == map[]
    ensures Contents([Last(ts)]) == Contents(ts) && Len([Last(ts)]) == Len(ts) && Disjoint([Last(ts)])
  {
    EmptyTables(ts[..|ts| - 1]);
    ContentsPush([], Last(ts));
    assert [] + [Last(ts)] == [Last(ts)];
  }

  /** A chunk of merging keeps disjointness and leaves the map and its length as they were. */
  lemma MergePreserves(ts: Stack, moves: seq<Move>, canAllocate: bool, done: bool, after: Stack)
    requires Outcome(ts, moves, canAllocate, done, after) && Disjoint(ts)
    ensures Disjoint(after) && Contents(after) == Contents(ts) && Len(after) == Len(ts)
  {
    hide Disjoint, Contents, Len, Apply;
    ApplyPreserves(ts, moves);
    var us := Apply(ts, moves);
    if done {
      KeepLast(us);
    } else {
      PushEmpty(us, Fresh(Last(us).capacity * 2));
    }
  }

  /** Whatever the overlap, merging keeps the same keys. */
  lemma MergeKeepsKeys(ts: Stack, moves: seq<Move>, canAllocate: bool, done: bool, after: Stack)
    requires Outcome(ts, moves, canAllocate, done, after) && AllSound(ts)
    ensures Contents(after).Keys == Contents(ts).Keys
  {
    hide Disjoint, Contents, Len, Apply, Sound;
    ApplySound(ts, moves);
    var us := Apply(ts, moves);
    if done {
      KeepLast(us);
    } else {
      PushEmpty(us, Fresh(Last(us).capacity * 2));
    }
  }

  // ---------- one key at a time ----------

  /** The two stacks tell the same about `k`. */
  ghost predicate SameAt(ts: Stack, us: Stack, k: uint64) {
    && (k in Contents(us) <==> k in Contents(ts))
    && (k in Contents(ts) ==> Contents(us)[k] == Contents(ts)[k])
  }

  /** A key that one table at most holds survives every move, whatever other keys do. */
  lemma MovedSingle(ts: Stack, m: Move, k: uint64)
    requires IsMove(ts, m) && !Duplicated(ts, k)
    ensures !Duplicated(Moved(ts, m), k) && SameAt(ts, Moved(ts, m), k)
  {
    MovedTables(ts, m);
    hide Moved, Contents, MovedEntry, RawForm;
    var us := Moved(ts, m);
    if k != m.hkey {
      MovedOthers(ts, m, k);
      assert forall i | 0 <= i < |ts| :: k in us[i].live <==> k in ts[i].live by { SameHolders(ts, m, k); }
    } else {
      MovedKey(ts, m);
      assert forall i | m.from < i < |ts| :: !(k in ts[m.from].live && k in ts[i].live);
      ContentsVisible(ts, m.from, k);
      MovedIs(ts, m);
      assert forall i | 0 <= i < |ts| - 1 :: k !in us[i].live;
    }
  }

  lemma SameHolders(ts: Stack, m: Move, k: uint64)
    requires IsMove(ts, m) && k != m.hkey
    ensures forall i | 0 <= i < |ts| :: k in Moved(ts, m)[i].live <==> k in ts[i].live
  {
    MovedTables(ts, m);
    hide Moved;
    assert Moved(ts, m)[|ts| - 1] == Last(Moved(ts, m)) && ts[|ts| - 1] == Last(ts);
  }

  lemma {:induction false} ApplySingle(ts: Stack, moves: seq<Move>, k: uint64)
    requires Applicable(ts, moves) && !Duplicated(ts, k)
    ensures !Duplicated(Apply(ts, moves), k) && SameAt(ts, Apply(ts, moves), k)
    decreases |moves|
  {
    hide Duplicated, Contents, Moved;
    if moves != [] {
      var init := moves[..|moves| - 1];
      ApplySingle(ts, init, k);
      MovedSingle(Apply(ts, init), moves[|moves| - 1], k);
    }
  }

  /** So it does every chunk. */
  lemma MergeSingle(ts: Stack, moves: seq<Move>, canAllocate: bool, done: bool, after: Stack, k: uint64)
    requires Outcome(ts, moves, canAllocate, done, after) && !Duplicated(ts, k)
    ensures !Duplicated(after, k) && SameAt(ts, after, k)
  {
    hide Contents, Len, Disjoint, Apply;
    ApplySingle(ts, moves, k);
    var us := Apply(ts, moves);
    if done {
      KeepLast(us);
    } else {
      PushEmpty(us, Fresh(Last(us).capacity * 2));
    }
  }

  // ---------- what a finished chunk leaves ----------

  /** The contents with the newest table shadowed by the old ones instead of shadowing them. */
  ghost function Folded(ts: Stack): (m: Entries)
    requires ts != []
  {
    Last(ts).live + Contents(ts[..|ts| - 1])
  }

  /** With everything before table `i` empty, deleting in it uncovers nothing. */
  lemma DeleteOldest(ts: Stack, i: nat, k: uint64)
    requires i < |ts| && k in ts[i].live && forall j | 0 <= j < i :: ts[j].live == map[]
    ensures var c, d := Contents(ts), Contents(ts[i := Deleted(ts[i], k)]);
            && k in c
            && (k in d <==> exists j | i < j < |ts| :: k in ts[j].live)
            && (k in d ==> d[k] == c[k])
            && (k !in d ==> c[k] == ts[i].live[k])
  {
    hide Contents;
    var us := ts[i := Deleted(ts[i], k)];
    InContents(ts, i, k);
    var v := ContentsSource(ts, k);
    ContentsVisible(ts, v, k);
    assert v >= i && k !in us[i].live;
    if v > i {
      assert Visible(us, v, k) by { assert forall j | i < j < |ts| :: us[j] == ts[j]; }
      ContentsVisible(us, v, k);
    } else {
      assert forall j | 0 <= j < |ts| :: k !in us[j].live;
      ContentsAbsent(us, k);
    }
  }

  lemma DeleteOneOnly(ts: Stack, i: nat, k: uint64)
    requires i < |ts|
    ensures var c, d := Contents(ts), Contents(ts[i := Deleted(ts[i], k)]);
            && (forall j: uint64 | j != k :: j in d <==> j in c)
            && (forall j <- c | j != k :: d[j] == c[j])
  {
    hide Contents;
    var us := ts[i := Deleted(ts[i], k)];
    forall j: uint64 | j != k
      ensures j in Contents(us) <==> j in Contents(ts)
      ensures j in Contents(ts) ==> Contents(us)[j] == Contents(ts)[j]
    {
      ContentsPointwise(ts, us, j);
    }
  }

  lemma MovedIs(ts: Stack, m: Move)
    requires IsMove(ts, m)
    ensures MovedEntry(ts, m) == ts[..|ts| - 1][m.from].live[m.hkey]
  {
  }

  /** `left` is `older` without its last copy of `k`, if that was the one that moved. */
  lemma FoldMaps(newest: Entries, older: Entries, left: Entries, k: uint64, e: seq<byte>)
    requires k in older && (if k in left then left[k] == older[k] else older[k] == e)
    requires forall j: uint64 | j != k :: j in left <==> j in older
    requires forall j <- older | j != k :: left[j] == older[j]
    ensures newest[k := e] + left == newest + older
  {
  }

  lemma MovedFolded(ts: Stack, m: Move)
    requires IsMove(ts, m) && Oldest(ts, m)
    ensures Folded(Moved(ts, m)) == Folded(ts)
  {
    MovedTables(ts, m);
    MovedIs(ts, m);
    hide Moved, Contents, MovedEntry, IsEntry, Deleted, WellFormed, Trim;
    FoldOne(Last(ts).live, ts[..|ts| - 1], m.from, m.hkey);
  }

  lemma FoldOne(newest: Entries, older: Stack, i: nat, k: uint64)
    requires i < |older| && k in older[i].live && forall j | 0 <= j < i :: older[j].live == map[]
    ensures newest[k := older[i].live[k]] + Contents(older[i := Deleted(older[i], k)]) == newest + Contents(older)
  {
    hide Contents, Deleted;
    DeleteOldest(older, i, k);
    DeleteOneOnly(older, i, k);
    FoldMaps(newest, Contents(older), Contents(older[i := Deleted(older[i], k)]), k, older[i].live[k]);
  }

  lemma {:induction false} ApplyFolded(ts: Stack, moves: seq<Move>)
    requires Applicable(ts, moves) && ts != []
    ensures Folded(Apply(ts, moves)) == Folded(ts)
    decreases |moves|
  {
    hide Folded, Moved;
    if moves != [] {
      var init := moves[..|moves| - 1];
      ApplyFolded(ts, init);
      MovedFolded(Apply(ts, init), moves[|moves| - 1]);
    }
  }

  /** Whatever the overlap, a finished chunk leaves for every key the copy of the newest old table that had one, and the
      newest table's own where none had. It leaves the map as it was exactly if the newest table and the old ones
      agree on the keys they share. */
  lemma MergeExact(ts: Stack, moves: seq<Move>, canAllocate: bool, after: Stack)
    requires Outcome(ts, moves, canAllocate, true, after)
    ensures Contents(after) == Folded(ts)
    ensures var older, newest := Contents(ts[..|ts| - 1]), Last(ts).live;
            Contents(after) == Contents(ts) <==> forall k <- older :: k in newest ==> older[k] == newest[k]
  {
    hide Contents, Applicable, Apply, Folded, Len, Disjoint;
    ApplyFolded(ts, moves);
    FoldedLast(Apply(ts, moves));
    FoldedSwaps(ts);
  }

  lemma FoldedLast(ts: Stack)
    requires ts != [] && forall i | 0 <= i < |ts| - 1 :: ts[i].live == map[]
    ensures Contents([Last(ts)]) == Folded(ts)
  {
    hide Contents;
    EmptyTables(ts[..|ts| - 1]);
    ContentsPush([], Last(ts));
    assert [] + [Last(ts)] == [Last(ts)];
    EmptyTables([]);
  }

  lemma FoldedSwaps(ts: Stack)
    requires ts != []
    ensures var older, newest := Contents(ts[..|ts| - 1]), Last(ts).live;
            Folded(ts) == Contents(ts) <==> forall k <- older :: k in newest ==> older[k] == newest[k]
  {
    hide Contents;
    ContentsPush(ts[..|ts| - 1], Last(ts));
    assert ts == ts[..|ts| - 1] + [Last(ts)];
    SameUnion(Contents(ts[..|ts| - 1]), Last(ts).live);
  }

  lemma SameUnion(a: Entries, b: Entries)
    ensures a + b == b + a <==> forall k <- a :: k in b ==> a[k] == b[k]
  {
    if a + b == b + a {
      forall k | k in a && k in b ensures a[k] == b[k] {
        assert (a + b)[k] == (b + a)[k];
      }
    }
  }

  // ---------- chunks by the background merge ----------

  /** `us` is what `n` chunks make of `ts`. */
  ghost predicate Chunks(ts: Stack, us: Stack, n: nat)
    decreases n
  {
    if n == 0 then us == ts
    else exists vs, moves, canAllocate, done :: Chunks(ts, vs, n - 1) && Outcome(vs, moves, canAllocate, done, us)
  }

  ghost predicate MergedTo(ts: Stack, us: Stack) {
    exists n :: Chunks(ts, us, n)
  }

  lemma {:induction false} ChunksPreserve(ts: Stack, us: Stack, n: nat)
    requires Chunks(ts, us, n) && ts != [] && Disjoint(ts)
    ensures us != [] && Disjoint(us) && Contents(us) == Contents(ts)
    decreases n
  {
    hide Outcome, Disjoint, Contents, Len;
    if n > 0 {
      var vs, moves, canAllocate, done :| Chunks(ts, vs, n - 1) && Outcome(vs, moves, canAllocate, done, us);
      ChunksPreserve(ts, vs, n - 1);
      MergePreserves(vs, moves, canAllocate, done, us);
      OutcomeSome(vs, moves, canAllocate, done, us);
    }
  }

  lemma {:induction false} ChunksSome(ts: Stack, us: Stack, n: nat)
    requires Chunks(ts, us, n) && ts != []
    ensures us != []
    decreases n
  {
    hide Outcome;
    if n > 0 {
      var vs, moves, canAllocate, done :| Chunks(ts, vs, n - 1) && Outcome(vs, moves, canAllocate, done, us);
      OutcomeSome(vs, moves, canAllocate, done, us);
    }
  }

  lemma OutcomeSome(ts: Stack, moves: seq<Move>, canAllocate: bool, done: bool, after: Stack)
    requires Outcome(ts, moves, canAllocate, done, after)
    ensures after != []
  {
  }

  // ---------- termination ----------

  /** Bytes that copying every entry of a table takes. */
  ghost function Cost(t: TableView): nat {
    Total(t.live) + |t.live|
  }

  ghost function Need(ts: Stack): nat {
    if ts == [] then 0 else Need(ts[..|ts| - 1]) + Cost(ts[|ts| - 1])
  }

  ghost function OldKeys(ts: Stack): nat
    requires ts != []
  {
    Len(ts[..|ts| - 1])
  }

  /** All that is left in old tables fits into the newest one. */
  ghost predicate Fits(ts: Stack)
    requires ts != []
  {
    Last(ts).offset + Need(ts[..|ts| - 1]) < Last(ts).capacity
  }

  /** How many bytes of room are still missing; zero once everything fits. */
  ghost function Shortage(ts: Stack): nat
    requires ts != []
  {
    if Fits(ts) then 0 else 1 + if Need(ts) > Last(ts).capacity then Need(ts) - Last(ts).capacity else 0
  }

  lemma {:induction false} NeedUpdate(ts: Stack, i: nat, t: TableView)
    requires i < |ts|
    ensures Need(ts[i := t]) == Need(ts) - Cost(ts[i]) + Cost(t)
    ensures Len(ts[i := t]) == Len(ts) - |ts[i].live| + |t.live|
  {
    if i < |ts| - 1 {
      NeedUpdate(ts[..|ts| - 1], i, t);
      assert ts[i := t][..|ts| - 1] == ts[..|ts| - 1][i := t];
    } else {
      assert ts[i := t][..|ts| - 1] == ts[..|ts| - 1];
    }
  }

  lemma {:induction false} NeedCovers(ts: Stack, i: nat)
    requires i < |ts|
    ensures Cost(ts[i]) <= Need(ts)
  {
    if i < |ts| - 1 {
      NeedCovers(ts[..|ts| - 1], i);
    }
  }

  lemma CostDeleted(t: TableView, k: uint64)
    requires k in t.live
    ensures Cost(Deleted(t, k)) == Cost(t) - |t.live[k]| - 1
    ensures |Deleted(t, k).live| == |t.live| - 1
  {
    TotalRemove(t.live, k);
    assert (t.live - {k}).Keys == t.live.Keys - {k};
  }

  lemma CostAppended(t: TableView, k: uint64, e: seq<byte>)
    ensures Cost(t.(live := t.live[k := e])) <= Cost(t) + |e| + 1
  {
    var rest := t.live - {k};
    TotalUpdate(rest, k, e);
    assert rest[k := e] == t.live[k := e];
    if k in t.live {
      TotalRemove(t.live, k);
      assert rest[k := e].Keys == t.live.Keys;
    } else {
      assert rest == t.live;
      assert rest[k := e].Keys == t.live.Keys + {k};
    }
  }

  /** A move empties old tables by one key and leaves the room still needed unchanged. */
  lemma MovedProgress(ts: Stack, m: Move)
    requires IsMove(ts, m)
    ensures OldKeys(Moved(ts, m)) == OldKeys(ts) - 1
    ensures Fits(Moved(ts, m)) <==> Fits(ts)
    ensures Need(Moved(ts, m)) <= Need(ts)
  {
    MovedTables(ts, m);
    hide Moved, Cost, Len, RawForm, Appended;
    var us, e, n := Moved(ts, m), MovedEntry(ts, m), |ts| - 1;
    CostDeleted(ts[m.from], m.hkey);
    NeedUpdate(ts[..n], m.from, Deleted(ts[m.from], m.hkey));
    CostAppended(Last(ts), m.hkey, e);
    SameLiveCost(Last(us), Last(ts).(live := Last(ts).live[m.hkey := e]));
  }

  lemma SameLiveCost(t: TableView, u: TableView)
    requires t.live == u.live
    ensures Cost(t) == Cost(u)
  {
  }

  lemma {:induction false} ApplyProgress(ts: Stack, moves: seq<Move>)
    requires Applicable(ts, moves) && ts != []
    ensures OldKeys(Apply(ts, moves)) + |moves| == OldKeys(ts)
    ensures Fits(Apply(ts, moves)) <==> Fits(ts)
    ensures Need(Apply(ts, moves)) <= Need(ts)
    decreases |moves|
  {
    hide OldKeys, Fits, Need, Moved;
    if moves != [] {
      var init := moves[..|moves| - 1];
      ApplyProgress(ts, init);
      MovedProgress(Apply(ts, init), moves[|moves| - 1]);
    }
  }

  /** An entry that does not fit proves that not everything fits; a table twice as large narrows the shortage. */
  lemma OverflowProgress(ts: Stack, m: Move)
    requires IsMove(ts, m) && !Fitting(ts, m) && AllSound(ts)
    ensures !Fits(ts)
    ensures Shortage(ts + [Fresh(Last(ts).capacity * 2)]) < Shortage(ts)
  {
    var us := ts + [Fresh(Last(ts).capacity * 2)];
    NeedCovers(ts[..|ts| - 1], m.from);
    TotalRemove(ts[m.from].live, m.hkey);
    assert |ts[m.from].live| >= 1;
    assert Last(ts).capacity >= MINIMUM_SIZE by { assert Sound(ts[|ts| - 1]); }
    assert us[..|ts|] == ts;
    assert Last(us).live == map[];
    assert Total(map[]) == 0;
  }

  /** A call that does not finish the merge shrinks the shortage, or keeps it and empties old tables further;
      a call that finishes leaves one table, and a call that leaves one table has finished. */
  lemma MergeProgress(ts: Stack, moves: seq<Move>, canAllocate: bool, done: bool, after: Stack)
    requires Outcome(ts, moves, canAllocate, done, after) && AllSound(ts)
    ensures done <==> |after| == 1
    ensures !done && canAllocate ==>
              Shortage(after) < Shortage(ts) || (Shortage(after) <= Shortage(ts) && OldKeys(after) < OldKeys(ts))
  {
    hide Need, Fits, Sound, OldKeys, Applicable, Apply, Fresh;
    ApplySound(ts, moves);
    ApplyProgress(ts, moves);
    var us := Apply(ts, moves);
    assert Shortage(us) <= Shortage(ts);
    if !done && |moves| <= MOVE_LIMIT {
      var m :| IsMove(us, m) && Oldest(us, m) && !Fitting(us, m);
      OverflowProgress(us, m);
    } else if !done {
      OldKeysMeansTwo(ts, moves);
    }
  }

  lemma OldKeysMeansTwo(ts: Stack, moves: seq<Move>)
    requires Applicable(ts, moves) && ts != [] && moves != []
    ensures |ts| >= 2
  {
    assert Fitting(Apply(ts, moves[..|moves| - 1]), moves[|moves| - 1]);
  }
}
