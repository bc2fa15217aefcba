/** The byte layout of one stored entry:
    KEY-LENGTH(uint8) | KEY | TTL(uint64) | VALUE-LENGTH(uint32) | VALUE */
module Entry {
  import opened Bytes

  const MAX_KEY_LEN: nat := 256

  datatype VData = VData(key: seq<byte>, ttl: int64, value: seq<byte>)

  /** `now` in nanoseconds against a TTL in milliseconds; a zero TTL never expires. */
  predicate IsKeyExpired(ttl: int64, now: nat) {
    ttl != 0 && now / 1_000_000 >= ttl
  }

  lemma ExpiredExact(ttl: int64, now: nat)
    ensures IsKeyExpired(ttl, now) <==> ttl != 0 && now >= ttl * 1_000_000
  {
  }

  /** The bytes `put` lays down for `v`. */
  function Encode(v: VData): (raw: seq<byte>)
    requires |v.key| < MAX_KEY_LEN
    ensures |raw| == |v.key| + |v.value| + 13
  {
    [|v.key|] + v.key + ToBE(Unsigned(v.ttl), 8) + ToBE(|v.value|, 4) + v.value
  }

  function KeyLen(raw: seq<byte>): (k: nat)
    requires |raw| > 0
  {
    raw[0]
  }

  /** `raw` is long enough to hold the header and the value the header announces. */
  predicate WellFormed(raw: seq<byte>) {
    && |raw| >= 13
    && |raw| >= KeyLen(raw) + 13
    && |raw| >= EntryLen(raw)
  }

  /** The size of the entry `raw` starts with, as the header announces it. */
  function EntryLen(raw: seq<byte>): (n: nat)
    requires |raw| >= 13 && |raw| >= KeyLen(raw) + 13
    ensures n >= KeyLen(raw) + 13
  {
    var k := KeyLen(raw);
    13 + k + FromBE(raw[9 + k..13 + k])
  }

  function Trim(raw: seq<byte>): (entry: seq<byte>)
    requires WellFormed(raw)
    ensures entry <= raw && |entry| == EntryLen(raw)
  {
    raw[..EntryLen(raw)]
  }

  /** A byte string that is one whole entry and nothing more. */
  predicate IsEntry(raw: seq<byte>) {
    WellFormed(raw) && |raw| == EntryLen(raw)
  }

  function Decode(raw: seq<byte>): (v: VData)
    requires WellFormed(raw)
    ensures |v.key| < MAX_KEY_LEN
  {
    Pow256Values();
    var k := KeyLen(raw);
    VData(raw[1..1 + k], Signed(FromBE(raw[1 + k..9 + k])), raw[13 + k..EntryLen(raw)])
  }

  /** What survives of `v` once stored: the value length is kept in 32 bits. */
  function Stored(v: VData): (s: VData) {
    v.(value := v.value[..|v.value| % TWO_32])
  }

  /** Bytes after an entry never matter. */
  lemma Extend(raw: seq<byte>, rest: seq<byte>)
    requires WellFormed(raw)
    ensures WellFormed(raw + rest)
    ensures Trim(raw + rest) == Trim(raw) && Decode(raw + rest) == Decode(raw)
  {
    hide FromBE;
    var k, n, both := KeyLen(raw), EntryLen(raw), raw + rest;
    assert both[9 + k..13 + k] == raw[9 + k..13 + k];
    assert both[1..1 + k] == raw[1..1 + k];
    assert both[1 + k..9 + k] == raw[1 + k..9 + k];
    assert both[13 + k..n] == raw[13 + k..n];
  }

  /** What `GetRaw` returns for an entry: its bytes and one zero byte. */
  function RawForm(e: seq<byte>): (r: seq<byte>) {
    e + [0]
  }

  lemma RawFormTrims(e: seq<byte>)
    requires IsEntry(e)
    ensures WellFormed(RawForm(e)) && Trim(RawForm(e)) == e && Decode(RawForm(e)) == Decode(e)
  {
    Extend(e, [0]);
    assert Trim(e) == e;
  }

  /** `r` is the raw form of an entry. */
  predicate IsRaw(r: seq<byte>) {
    |r| > 0 && IsEntry(r[..|r| - 1]) && r == RawForm(r[..|r| - 1])
  }

  lemma RawIsWellFormed(r: seq<byte>)
    requires IsRaw(r)
    ensures WellFormed(r)
  {
    RawFormTrims(r[..|r| - 1]);
  }

  lemma RawFormIsRaw(e: seq<byte>)
    requires IsEntry(e)
    ensures IsRaw(RawForm(e))
  {
    assert RawForm(e)[..|e|] == e;
  }

  lemma TrimIsEntry(raw: seq<byte>)
    requires WellFormed(raw)
    ensures IsEntry(Trim(raw)) && Decode(Trim(raw)) == Decode(raw)
  {
    hide FromBE;
    var k, n := KeyLen(raw), EntryLen(raw);
    var cut := raw[..n];
    assert cut[9 + k..13 + k] == raw[9 + k..13 + k];
    Extend(cut, raw[n..]);
    assert cut + raw[n..] == raw;
  }

  /** `raw` has the fields of `v` where decoding looks for them, and nothing else. */
  ghost predicate HasFields(raw: seq<byte>, v: VData) {
    var k := |v.key|;
    && |raw| == 13 + k + |v.value|
    && KeyLen(raw) == k
    && raw[1..1 + k] == v.key
    && raw[1 + k..9 + k] == ToBE(Unsigned(v.ttl), 8)
    && raw[9 + k..13 + k] == ToBE(|v.value|, 4)
    && raw[13 + k..] == v.value
  }

  lemma DecodeFields(raw: seq<byte>, v: VData)
    requires HasFields(raw, v)
    ensures WellFormed(raw) && Decode(raw) == Stored(v)
    ensures EntryLen(raw) == |v.key| + |v.value| % TWO_32 + 13
  {
    hide FromBE, ToBE, Pow256;
    Pow256Values();
    FromToBE(Unsigned(v.ttl), 8);
    FromToBE(|v.value|, 4);
    var k := |v.key|;
    assert EntryLen(raw) == 13 + k + |v.value| % TWO_32;
    assert raw[13 + k..EntryLen(raw)] == raw[13 + k..][..|v.value| % TWO_32];
  }

  /** Where every field of an entry is. */
  lemma EncodeLayout(v: VData)
    requires |v.key| < MAX_KEY_LEN
    ensures var raw, k := Encode(v), |v.key|;
            && raw[0] == k && raw[1..1 + k] == v.key
            && FromBE(raw[1 + k..9 + k]) == v.ttl % TWO_64
            && FromBE(raw[9 + k..13 + k]) == |v.value| % TWO_32
            && raw[13 + k..] == v.value
  {
    hide FromBE, ToBE, Pow256;
    Pow256Values();
    var raw, k := Encode(v), |v.key|;
    FromToBE(Unsigned(v.ttl), 8);
    FromToBE(|v.value|, 4);
    assert raw[1 + k..9 + k] == ToBE(Unsigned(v.ttl), 8);
    assert raw[9 + k..13 + k] == ToBE(|v.value|, 4);
  }

  /** Encoding then decoding gives back what the 32-bit length field can keep. */
  lemma DecodeEncode(v: VData)
    requires |v.key| < MAX_KEY_LEN
    ensures WellFormed(Encode(v)) && Decode(Encode(v)) == Stored(v)
    ensures EntryLen(Encode(v)) == |v.key| + |v.value| % TWO_32 + 13
    ensures IsEntry(Encode(v)) <==> |v.value| < TWO_32
    ensures Decode(Encode(v)) == v <==> |v.value| < TWO_32
  {
    hide FromBE, ToBE, Pow256;
    assert HasFields(Encode(v), v);
    DecodeFields(Encode(v), v);
  }

  /** Decoding loses nothing: an entry is determined by its decoded data. */
  lemma EncodeDecode(raw: seq<byte>)
    requires IsEntry(raw)
    ensures Encode(Decode(raw)) == raw
  {
    hide FromBE, ToBE, Pow256;
    Pow256Values();
    var k := KeyLen(raw);
    var v := Decode(raw);
    ToFromBE(raw[1 + k..9 + k]);
    ToFromBE(raw[9 + k..13 + k]);
    assert |v.value| == FromBE(raw[9 + k..13 + k]);
    assert raw == [raw[0]] + raw[1..1 + k] + raw[1 + k..9 + k] + raw[9 + k..13 + k] + raw[13 + k..];
  }
}
