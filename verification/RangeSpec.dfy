/** Iteration over the entries of a stack of tables. */
module RangeSpec {
  import opened Bytes
  import opened Entry
  import opened TableSpec
  import opened StorageSpec

  type Pair = (uint64, VData)

  ghost predicate KeysDiffer(visited: seq<Pair>) {
    forall a, b | 0 <= a < b < |visited| :: visited[a].0 != visited[b].0
  }

  /** `p` is a key of `m` with its decoded value. */
  ghost predicate Current(m: Entries, p: Pair) {
    p.0 in m && IsEntry(m[p.0]) && p.1 == Decode(m[p.0])
  }

  ghost predicate Reads(t: TableView, p: Pair) {
    Current(t.live, p)
  }

  ghost function KeysOf(visited: seq<Pair>): set<uint64> {
    set p <- visited :: p.0
  }

  /** Each key of `t` outside `left` has been read once. */
  ghost predicate ScanSoFar(t: TableView, visited: seq<Pair>, left: set<uint64>) {
    && KeysDiffer(visited)
    && (forall p <- visited :: Reads(t, p))
    && KeysOf(visited) == t.live.Keys - left
  }

  /** Keys are left over only because `f` refused the last one seen, and it refused none before. */
  ghost predicate Cut(t: TableView, visited: seq<Pair>, left: set<uint64>, f: (uint64, VData) -> bool) {
    && (forall i | 0 <= i < |visited| - 1 :: f(visited[i].0, visited[i].1))
    && (left * t.live.Keys != {} ==> visited != [] && !f(visited[|visited| - 1].0, visited[|visited| - 1].1))
  }

  /** A scan of one table: some order of its keys, cut after the first one `f` refuses. */
  ghost predicate Scan(t: TableView, visited: seq<Pair>, f: (uint64, VData) -> bool) {
    exists left :: ScanSoFar(t, visited, left) && Cut(t, visited, left, f)
  }

  /** Scans of all tables, newest first. */
  ghost predicate ScanAll(ts: Stack, visited: seq<Pair>, f: (uint64, VData) -> bool) {
    if ts == [] then visited == []
    else exists n :: 0 <= n <= |visited| && ScanAll(ts[1..], visited[..n], f) && Scan(ts[0], visited[n..], f)
  }

  lemma ScanOne(t: TableView, visited: seq<Pair>, left: set<uint64>, k: uint64, v: VData)
    requires ScanSoFar(t, visited, left) && k in left && Reads(t, (k, v))
    ensures ScanSoFar(t, visited + [(k, v)], left - {k})
  {
    assert KeysOf(visited + [(k, v)]) == KeysOf(visited) + {k} by {
      assert (visited + [(k, v)])[|visited|] == (k, v);
    }
    forall a | 0 <= a < |visited| ensures visited[a].0 != k {
      assert visited[a].0 in KeysOf(visited);
    }
  }

  /** The cut of `visited` between the scan of the first table and the scans of the others. */
  lemma ScanSplit(ts: Stack, visited: seq<Pair>, f: (uint64, VData) -> bool) returns (n: nat, left: set<uint64>)
    requires ScanAll(ts, visited, f) && ts != []
    ensures n <= |visited| && visited == visited[..n] + visited[n..]
    ensures ScanAll(ts[1..], visited[..n], f)
    ensures ScanSoFar(ts[0], visited[n..], left)
    ensures left * ts[0].live.Keys != {} ==> exists p <- visited :: !f(p.0, p.1)
  {
    n :| 0 <= n <= |visited| && ScanAll(ts[1..], visited[..n], f) && Scan(ts[0], visited[n..], f);
    hide ScanAll, ScanSoFar;
    left :| ScanSoFar(ts[0], visited[n..], left) && Cut(ts[0], visited[n..], left, f);
    if left * ts[0].live.Keys != {} {
      assert visited[n..][|visited[n..]| - 1] in visited;
    }
  }

  lemma {:induction false} ScanSources(ts: Stack, visited: seq<Pair>, f: (uint64, VData) -> bool, p: Pair)
    returns (i: nat)
    requires ScanAll(ts, visited, f) && p in visited
    ensures i < |ts| && Reads(ts[i], p)
  {
    var n, left := ScanSplit(ts, visited, f);
    if p in visited[n..] {
      i := 0;
    } else {
      i := ScanSources(ts[1..], visited[..n], f, p);
      i := i + 1;
    }
  }

  lemma {:induction false} ScanDistinct(ts: Stack, visited: seq<Pair>, f: (uint64, VData) -> bool)
    requires ScanAll(ts, visited, f) && Disjoint(ts)
    ensures KeysDiffer(visited)
  {
    if ts != [] {
      var n, left := ScanSplit(ts, visited, f);
      hide ScanAll, Disjoint, Reads, KeysOf;
      assert Disjoint(ts[1..]) by { DisjointTail(ts); }
      ScanDistinct(ts[1..], visited[..n], f);
      forall p, q | p in visited[..n] && q in visited[n..] ensures p.0 != q.0 {
        ScanCross(ts, visited[..n], f, p, q);
      }
      DifferAppend(visited[..n], visited[n..]);
    }
  }

  lemma DisjointTail(ts: Stack)
    requires Disjoint(ts) && ts != []
    ensures Disjoint(ts[1..])
  {
  }

  lemma ScanCross(ts: Stack, visited: seq<Pair>, f: (uint64, VData) -> bool, p: Pair, q: Pair)
    requires ts != [] && ScanAll(ts[1..], visited, f) && Disjoint(ts)
    requires p in visited && Reads(ts[0], q)
    ensures p.0 != q.0
  {
    var i := ScanSources(ts[1..], visited, f, p);
    assert ts[0].live.Keys !! ts[i + 1].live.Keys;
  }

  lemma DifferAppend(s: seq<Pair>, t: seq<Pair>)
    requires KeysDiffer(s) && KeysDiffer(t) && forall p, q | p in s && q in t :: p.0 != q.0
    ensures KeysDiffer(s + t)
  {
  }

  lemma {:induction false} ScanComplete(ts: Stack, visited: seq<Pair>, f: (uint64, VData) -> bool, i: nat, k: uint64)
    returns (p: Pair)
    requires ScanAll(ts, visited, f) && i < |ts| && k in ts[i].live
    requires forall q <- visited :: f(q.0, q.1)
    ensures p in visited && p.0 == k
  {
    hide ScanAll, Reads, KeysDiffer;
    var n, left := ScanSplit(ts, visited, f);
    if i == 0 {
      var keys := ts[0].live.Keys;
      assert k in left ==> k in left * keys;
      assert k in KeysOf(visited[n..]);
      p :| p in visited[n..] && p.0 == k;
    } else {
      assert forall q <- visited[..n] :: q in visited;
      p := ScanComplete(ts[1..], visited[..n], f, i - 1, k);
    }
  }

  /** A refusal ends the scan of its table only: something of every table is seen. */
  lemma {:induction false} ScanEach(ts: Stack, visited: seq<Pair>, f: (uint64, VData) -> bool, i: nat)
    requires ScanAll(ts, visited, f) && i < |ts| && ts[i].live != map[]
    ensures exists p <- visited :: p.0 in ts[i].live
  {
    var n :| 0 <= n <= |visited| && ScanAll(ts[1..], visited[..n], f) && Scan(ts[0], visited[n..], f);
    hide ScanAll;
    if i == 0 {
      var seen, keys := visited[n..], ts[0].live.Keys;
      var left :| ScanSoFar(ts[0], seen, left) && Cut(ts[0], seen, left, f);
      var k :| k in keys;
      assert k in left ==> k in left * keys;
      assert k !in left ==> k in KeysOf(seen);
      assert Reads(ts[0], seen[0]) && seen[0] in visited;
    } else {
      ScanEach(ts[1..], visited[..n], f, i - 1);
      var p :| p in visited[..n] && p.0 in ts[1..][i - 1].live;
      assert p in visited;
    }
  }

  /** Newer tables are scanned before older ones. */
  lemma {:induction false} ScanOrder(ts: Stack, visited: seq<Pair>, f: (uint64, VData) -> bool, a: nat, b: nat, i: nat,
                                     j: nat)
    requires ScanAll(ts, visited, f) && Disjoint(ts) && a < b < |visited| && i < |ts| && j < |ts|
    requires visited[a].0 in ts[i].live && visited[b].0 in ts[j].live
    ensures i >= j
  {
    var n, left := ScanSplit(ts, visited, f);
    if b < n {
      hide ScanAll;
      FromOlder(ts, visited[..n], f, visited[a], i);
      FromOlder(ts, visited[..n], f, visited[b], j);
      DisjointTail(ts);
      ScanOrder(ts[1..], visited[..n], f, a, b, i - 1, j - 1);
    } else {
      assert visited[n..][b - n] == visited[b];
      assert Reads(ts[0], visited[b]);
      assert j == 0;
    }
  }

  lemma FromOlder(ts: Stack, visited: seq<Pair>, f: (uint64, VData) -> bool, p: Pair, i: nat)
    requires ts != [] && ScanAll(ts[1..], visited, f) && Disjoint(ts) && p in visited && i < |ts| && p.0 in ts[i].live
    ensures i > 0
  {
    var h := ScanSources(ts[1..], visited, f, p);
    assert ts[0].live.Keys !! ts[h + 1].live.Keys;
  }

  /** Over disjoint tables a callback sees no key twice and only current values; one that never refuses sees
      the whole map. */
  lemma RangeRefines(ts: Stack, visited: seq<Pair>, f: (uint64, VData) -> bool)
    requires ScanAll(ts, visited, f) && Disjoint(ts)
    ensures KeysDiffer(visited)
    ensures forall p <- visited :: Current(Contents(ts), p)
    ensures (forall p <- visited :: f(p.0, p.1)) ==> forall k <- Contents(ts) :: exists p <- visited :: p.0 == k
  {
    hide ScanAll, Contents, IsEntry, Decode;
    ScanDistinct(ts, visited, f);
    forall p | p in visited ensures Current(Contents(ts), p) {
      var i := ScanSources(ts, visited, f, p);
      ContentsVisible(ts, i, p.0);
    }
    if forall p <- visited :: f(p.0, p.1) {
      forall k | k in Contents(ts) ensures exists p <- visited :: p.0 == k {
        var i := ContentsSource(ts, k);
        var p := ScanComplete(ts, visited, f, i, k);
      }
    }
  }
}
