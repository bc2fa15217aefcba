/** What a table means: the entries its index reaches, and its byte accounts. */
module TableSpec {
  import opened Bytes
  import opened Entry

  const MINIMUM_SIZE: nat := 0x10_0000

  type Entries = map<uint64, seq<byte>>

  /** A table with its memory read off: `live` holds, for every indexed hkey, the exact bytes of its entry. */
  datatype TableView = TableView(live: Entries, offset: nat, capacity: nat, inuse: int, garbage: int)

  datatype PutError = NotEnoughSpace | KeyTooLarge | AllocationFailed

  // ---------- layout of a byte array indexed by hkeys ----------

  /** Every index points at the whole entry `live` gives it, inside [0, offset), and no two entries overlap. */
  ghost predicate Layout(hkeys: map<uint64, nat>, live: Entries, memory: seq<byte>, offset: nat) {
    && live.Keys == hkeys.Keys
    && offset <= |memory|
    && (forall k <- hkeys :: Holds(memory, hkeys[k], live[k], offset))
    && (forall j <- hkeys, k <- hkeys | j != k :: hkeys[j] + |live[j]| <= hkeys[k] || hkeys[k] + |live[k]| <= hkeys[j])
  }

  ghost predicate Holds(memory: seq<byte>, at: nat, e: seq<byte>, offset: nat)
    requires offset <= |memory|
  {
    at + |e| <= offset && memory[at..at + |e|] == e
  }

  lemma EmptyLayout(memory: seq<byte>)
    ensures Layout(map[], map[], memory, 0)
  {
  }

  lemma DeleteKeepsLayout(hkeys: map<uint64, nat>, live: Entries, memory: seq<byte>, offset: nat, hkey: uint64)
    requires Layout(hkeys, live, memory, offset)
    ensures Layout(hkeys - {hkey}, live - {hkey}, memory, offset)
  {
  }

  /** The header and payload of entry `e`, read field by field from `memory` at `at`. */
  ghost predicate FieldsOf(memory: seq<byte>, at: nat, e: seq<byte>)
    requires at + |e| <= |memory| && IsEntry(e)
  {
    var k := KeyLen(e);
    && memory[at] == k
    && memory[at + 1..at + 1 + k] == e[1..1 + k]
    && memory[at + 1 + k..at + 9 + k] == e[1 + k..9 + k]
    && memory[at + 9 + k..at + 13 + k] == e[9 + k..13 + k]
    && memory[at + 13 + k..at + |e|] == e[13 + k..]
    && memory[at..at + |e|] == e
  }

  lemma EntryFields(memory: seq<byte>, at: nat, e: seq<byte>)
    requires at + |e| <= |memory| && IsEntry(e) && memory[at..at + |e|] == e
    ensures FieldsOf(memory, at, e)
  {
    var k := KeyLen(e);
    assert |e| >= 13 + k;
    hide EntryLen;
    assert memory[at..at + |e|][0] == e[0];
    SubSlice(memory, at, e, 1, 1 + k);
    SubSlice(memory, at, e, 1 + k, 9 + k);
    SubSlice(memory, at, e, 9 + k, 13 + k);
    SubSlice(memory, at, e, 13 + k, |e|);
  }

  lemma SubSlice(memory: seq<byte>, at: nat, e: seq<byte>, i: nat, j: nat)
    requires at + |e| <= |memory| && memory[at..at + |e|] == e && i <= j <= |e|
    ensures memory[at + i..at + j] == e[i..j]
  {
    forall x | 0 <= x < j - i ensures memory[at + i..at + j][x] == e[i..j][x] {
      assert memory[at..at + |e|][i + x] == e[i + x];
    }
  }

  /** Bytes appended at `offset` do not disturb an entry below it. */
  lemma AppendKeepsEntry(memory: seq<byte>, written: seq<byte>, at: nat, e: seq<byte>, offset: nat)
    requires offset <= |memory| == |written| && written[..offset] == memory[..offset]
    requires Holds(memory, at, e, offset)
    ensures Holds(written, at, e, offset)
  {
    assert written[at..at + |e|] == written[..offset][at..at + |e|];
    assert memory[at..at + |e|] == memory[..offset][at..at + |e|];
  }

  lemma LayoutPrefix(hkeys: map<uint64, nat>, live: Entries, m: seq<byte>, m': seq<byte>, offset: nat)
    requires Layout(hkeys, live, m, offset) && offset <= |m'| && m[..offset] == m'[..offset]
    ensures Layout(hkeys, live, m', offset)
  {
    forall k | k in hkeys ensures Holds(m', hkeys[k], live[k], offset) {
      assert Holds(m, hkeys[k], live[k], offset);
      assert m'[hkeys[k]..hkeys[k] + |live[k]|] == m'[..offset][hkeys[k]..hkeys[k] + |live[k]|];
      assert m[hkeys[k]..hkeys[k] + |live[k]|] == m[..offset][hkeys[k]..hkeys[k] + |live[k]|];
    }
  }

  /** Appending `raw` and pointing `hkey` at the entry `e` it starts with keeps the layout and changes only `hkey`. */
  lemma AppendKeepsLayout(hkeys: map<uint64, nat>, live: Entries, memory: seq<byte>, written: seq<byte>, offset: nat,
                          hkey: uint64, raw: seq<byte>, e: seq<byte>)
    requires Layout(hkeys, live, memory, offset) && e <= raw
    requires offset + |raw| <= |memory| == |written|
    requires written[..offset] == memory[..offset] && written[offset..offset + |raw|] == raw
    ensures Layout(hkeys[hkey := offset], live[hkey := e], written, offset + |raw|)
  {
    var end := offset + |raw|;
    assert Holds(written, offset, e, end) by {
      assert written[offset..offset + |e|] == raw[..|e|];
    }
    forall k | k in hkeys ensures Holds(written, hkeys[k], live[k], end) {
      assert Holds(memory, hkeys[k], live[k], offset);
      AppendKeepsEntry(memory, written, hkeys[k], live[k], offset);
    }
  }

  // ---------- total size of the live entries ----------

  ghost function Total(live: Entries): (n: nat) {
    if live == map[] then 0 else
      var k :| k in live;
      |live[k]| + Total(live - {k})
  }

  lemma {:induction false} TotalRemove(live: Entries, k: uint64)
    requires k in live
    ensures Total(live) == |live[k]| + Total(live - {k})
    decreases |live|
  {
    var c :| c in live && Total(live) == |live[c]| + Total(live - {c});
    if c != k {
      TotalRemove(live - {c}, k);
      TotalRemove(live - {k}, c);
      assert live - {c} - {k} == live - {k} - {c};
    }
  }

  lemma TotalUpdate(live: Entries, k: uint64, e: seq<byte>)
    requires k !in live
    ensures Total(live[k := e]) == |e| + Total(live)
  {
    TotalRemove(live[k := e], k);
    assert live[k := e] - {k} == live;
  }

  // ---------- operations on views ----------

  /** No table is smaller than 1 MiB. */
  function AtLeastMinimum(size: int): (n: nat)
    ensures n >= size && n >= 1_048_576 && (n == size || n == 1_048_576)
  {
    if size < MINIMUM_SIZE then MINIMUM_SIZE else size
  }

  function Fresh(size: int): (t: TableView) {
    TableView(map[], 0, AtLeastMinimum(size), 0, 0)
  }

  /** The strict test both put operations make before writing `n` bytes. */
  predicate HasRoom(t: TableView, n: nat) {
    n + t.offset < t.capacity
  }

  function Appended(t: TableView, hkey: uint64, raw: seq<byte>): (r: TableView)
    requires WellFormed(raw)
  {
    t.(live := t.live[hkey := Trim(raw)], offset := t.offset + |raw|, inuse := t.inuse + |raw|)
  }

  function Deleted(t: TableView, hkey: uint64): (r: TableView) {
    if hkey !in t.live then t else
      var n := |t.live[hkey]|;
      t.(live := t.live - {hkey}, inuse := t.inuse - n, garbage := t.garbage + n)
  }

  function Put(t: TableView, hkey: uint64, v: VData): (r: TableView)
    requires |v.key| < MAX_KEY_LEN
  {
    DecodeEncode(v);
    Appended(Deleted(t, hkey), hkey, Encode(v))
  }

  // ---------- byte accounts ----------

  /** Bytes counted as in use that belong to no live entry. */
  ghost function Slack(t: TableView): int {
    t.inuse - Total(t.live)
  }

  ghost predicate Sound(t: TableView) {
    && t.offset < t.capacity
    && MINIMUM_SIZE <= t.capacity
    && t.inuse + t.garbage == t.offset
    && t.garbage >= 0
    && Slack(t) >= 0
    && forall k <- t.live :: IsEntry(t.live[k])
  }

  lemma FreshSound(size: int)
    ensures Sound(Fresh(size)) && Slack(Fresh(size)) == 0
  {
  }

  lemma DeletedSound(t: TableView, hkey: uint64)
    requires Sound(t)
    ensures Sound(Deleted(t, hkey)) && Slack(Deleted(t, hkey)) == Slack(t)
  {
    if hkey in t.live {
      TotalRemove(t.live, hkey);
    }
  }

  /** Appending over a live key leaks the old entry's bytes into the slack; a longer raw leaks its tail. */
  lemma AppendedSound(t: TableView, hkey: uint64, raw: seq<byte>)
    requires Sound(t) && WellFormed(raw) && HasRoom(t, |raw|)
    ensures Sound(Appended(t, hkey, raw))
    ensures Slack(Appended(t, hkey, raw)) ==
            Slack(t) + (|raw| - EntryLen(raw)) + (if hkey in t.live then |t.live[hkey]| else 0)
  {
    hide IsEntry, WellFormed, Trim, EntryLen, Total;
    TrimIsEntry(raw);
    var rest := t.live - {hkey};
    if hkey in t.live {
      TotalRemove(t.live, hkey);
    } else {
      assert rest == t.live;
    }
    TotalUpdate(rest, hkey, Trim(raw));
    assert rest[hkey := Trim(raw)] == t.live[hkey := Trim(raw)];
  }

  /** `put` leaks nothing, except the part of a value its 32-bit length cannot announce. */
  lemma PutSound(t: TableView, hkey: uint64, v: VData)
    requires Sound(t) && |v.key| < MAX_KEY_LEN && HasRoom(t, |Encode(v)|)
    ensures Sound(Put(t, hkey, v))
    ensures Slack(Put(t, hkey, v)) == Slack(t) + (|v.value| - |v.value| % TWO_32)
    ensures WellFormed(Encode(v)) && Put(t, hkey, v).live[hkey] == Trim(Encode(v))
    ensures Decode(Put(t, hkey, v).live[hkey]) == Stored(v)
  {
    DeletedSound(t, hkey);
    DecodeEncode(v);
    TrimIsEntry(Encode(v));
    AppendedSound(Deleted(t, hkey), hkey, Encode(v));
  }

  /** An index, the bytes behind it and the counters stand for `t`. */
  ghost predicate Describes(hkeys: map<uint64, nat>, memory: seq<byte>, offset: nat, capacity: nat, inuse: int,
                            garbage: int, t: TableView) {
    && Layout(hkeys, t.live, memory, offset)
    && t == TableView(t.live, offset, capacity, inuse, garbage)
    && Sound(t)
  }

  lemma LayoutSizes(hkeys: map<uint64, nat>, memory: seq<byte>, t: TableView)
    requires Layout(hkeys, t.live, memory, t.offset) && Sound(t)
    ensures t.offset <= |memory| && t.offset < t.capacity && hkeys.Keys == t.live.Keys
  {
  }
}
