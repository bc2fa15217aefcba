/** The binary protocol: a 12-byte header, then extra, map name, key and value. */
module Wire {
  import opened Bytes

  const HEADER_SIZE: nat := 12
  const MAGIC_REQ: byte := 0xE2
  const MAGIC_RES: byte := 0xE3

  const OP_EX_PUT_EX: byte := 1
  const OP_EX_LOCK_WITH_TIMEOUT: byte := 5
  const OP_LOCK_PREV: byte := 16
  const OP_IS_PART_EMPTY: byte := 22
  const OP_IS_BACKUP_EMPTY: byte := 23

  /** Command-specific extras, all of them 8 bytes long. */
  datatype Extra = PutExExtra(ttl: int64) | LockWithTimeoutExtra(ttl: int64) | IsPartEmptyExtra(partID: uint64)

  const EXTRA_SIZE: byte := 8

  /** A message; of the header's lengths only the extra length matters before writing. */
  datatype Message = Message(magic: byte, op: byte, status: byte, extraLen: byte, extra: Option<Extra>,
                             dmap: seq<byte>, key: seq<byte>, value: seq<byte>)

  datatype Header = Header(magic: byte, op: byte, dmapLen: nat, keyLen: nat, extraLen: byte, status: byte, bodyLen: nat)

  // ---------- writing ----------

  function ExtraBytes(e: Extra): (s: seq<byte>)
    ensures |s| == EXTRA_SIZE
  {
    match e
    case PutExExtra(ttl) => ToBE(Unsigned(ttl), 8)
    case LockWithTimeoutExtra(ttl) => ToBE(Unsigned(ttl), 8)
    case IsPartEmptyExtra(p) => ToBE(p, 8)
  }

  function ExtraPart(m: Message): (s: seq<byte>) {
    if m.extra == None then [] else ExtraBytes(m.extra.value)
  }

  /** The message after `Write` has set its header: without an extra the old extra length stays. */
  function Sent(m: Message): (r: Message) {
    if m.extra == None then m else m.(extraLen := EXTRA_SIZE)
  }

  function BodySize(m: Message): nat {
    |m.dmap| + |m.key| + |m.value| + Sent(m).extraLen
  }

  function HeaderBytes(m: Message): (s: seq<byte>)
    ensures |s| == HEADER_SIZE
  {
    [m.magic, m.op] + ToBE(|m.dmap|, 2) + ToBE(|m.key|, 2) + [Sent(m).extraLen, m.status] + ToBE(BodySize(m), 4)
  }

  function Body(m: Message): (s: seq<byte>) {
    ExtraPart(m) + m.dmap + m.key + m.value
  }

  function Encode(m: Message): (s: seq<byte>)
    ensures |s| == HEADER_SIZE + |Body(m)|
  {
    HeaderBytes(m) + Body(m)
  }

  // ---------- reading ----------

  datatype ReadResult =
    | Ok(m: Message)
    | ShortRead      // the connection ended too early
    | InvalidMessage // wrong magic
    | ValueTooBig
    | BadExtra       // fewer extra bytes than the command needs
    | Panic          // the lengths leave a negative value length

  function ParseHeader(s: seq<byte>): (h: Header)
    requires |s| >= HEADER_SIZE
  {
    Header(s[0], s[1], FromBE(s[2..4]), FromBE(s[4..6]), s[6], s[7], FromBE(s[8..12]))
  }

  function ValueLen(h: Header): int {
    h.bodyLen - h.extraLen - h.keyLen - h.dmapLen
  }

  /** Which extra, if any, a request of this operation carries. */
  datatype Kind = NoExtra | PutExKind | LockKind | PartKind

  function KindOf(op: byte): (k: Kind) {
    if op == OP_EX_PUT_EX then PutExKind
    else if op == OP_EX_LOCK_WITH_TIMEOUT || op == OP_LOCK_PREV then LockKind
    else if op == OP_IS_PART_EMPTY || op == OP_IS_BACKUP_EMPTY then PartKind
    else NoExtra
  }

  function ParseExtra(op: byte, raw: seq<byte>): (e: Option<Extra>)
    requires |raw| >= 8
  {
    Pow256Values();
    var n := FromBE(raw[..8]);
    match KindOf(op)
    case NoExtra => None
    case PutExKind => Some(PutExExtra(Signed(n)))
    case LockKind => Some(LockWithTimeoutExtra(Signed(n)))
    case PartKind => Some(IsPartEmptyExtra(n))
  }

  /** At most the first `n` bytes, as reading from a buffer yields them. */
  function Next(s: seq<byte>, n: nat): (r: seq<byte>) {
    if n <= |s| then s[..n] else s
  }

  /** The body, once it has arrived in full. */
  function ParseBody(h: Header, body: seq<byte>): (r: ReadResult)
    requires |body| == h.bodyLen
  {
    var hasExtra := h.magic == MAGIC_REQ && h.extraLen > 0;
    var raw := if hasExtra then Next(body, h.extraLen) else [];
    if hasExtra && KindOf(h.op) != NoExtra && |raw| < 8 then BadExtra
    else
      var extra := if hasExtra && KindOf(h.op) != NoExtra then ParseExtra(h.op, raw) else None;
      var rest := body[|raw|..];
      var dmap := Next(rest, h.dmapLen);
      var rest' := rest[|dmap|..];
      var key := Next(rest', h.keyLen);
      if ValueLen(h) < 0 then Panic
      else Ok(Message(h.magic, h.op, h.status, h.extraLen, extra, dmap, key, Next(rest'[|key|..], ValueLen(h))))
  }

  /** `Read`: the result and what is left on the connection. */
  function Decode(s: seq<byte>, maxValueSize: int): (r: (ReadResult, seq<byte>)) {
    if |s| < HEADER_SIZE then (ShortRead, [])
    else
      var h := ParseHeader(s);
      var rest := s[HEADER_SIZE..];
      if h.magic != MAGIC_REQ && h.magic != MAGIC_RES then (InvalidMessage, rest)
      else if ValueLen(h) > maxValueSize then (ValueTooBig, rest)
      else if |rest| < h.bodyLen then (ShortRead, [])
      else (ParseBody(h, rest[..h.bodyLen]), rest[h.bodyLen..])
  }

  // ---------- the layout ----------

  /** The number an extra carries: a TTL in two's complement, or a partition. */
  function ExtraNumber(e: Extra): int {
    match e
    case PutExExtra(ttl) => ttl
    case LockWithTimeoutExtra(ttl) => ttl
    case IsPartEmptyExtra(p) => p
  }

  /** Where every field of a message is on the wire: magic, operation, name length, key length, extra length, status and
      body length, then extra, name, key and value. */
  lemma EncodeLayout(m: Message)
    ensures var s := Encode(m);
            var e := if m.extra == None then 0 else 8;
            && s[0] == m.magic && s[1] == m.op
            && FromBE(s[2..4]) == |m.dmap| % 0x1_0000 && FromBE(s[4..6]) == |m.key| % 0x1_0000
            && s[6] == (if m.extra == None then m.extraLen else 8) && s[7] == m.status
            && FromBE(s[8..12]) == (|m.dmap| + |m.key| + |m.value| + s[6]) % TWO_32
            && |s| == 12 + e + |m.dmap| + |m.key| + |m.value|
            && (m.extra != None ==> FromBE(s[12..20]) == ExtraNumber(m.extra.value) % TWO_64)
            && s[12 + e..] == m.dmap + m.key + m.value
  {
    hide FromBE, ToBE, Pow256;
    var s := Encode(m);
    Pow256Values();
    FromToBE(|m.dmap|, 2);
    FromToBE(|m.key|, 2);
    FromToBE(BodySize(m), 4);
    assert s[2..4] == ToBE(|m.dmap|, 2);
    assert s[4..6] == ToBE(|m.key|, 2);
    assert s[8..12] == ToBE(BodySize(m), 4);
    if m.extra != None {
      assert s[12..20] == ExtraBytes(m.extra.value);
      ExtraLayout(m.extra.value);
      assert s[20..] == m.dmap + m.key + m.value;
    } else {
      assert s[12..] == m.dmap + m.key + m.value;
    }
  }

  lemma ExtraLayout(e: Extra)
    ensures FromBE(ExtraBytes(e)) == ExtraNumber(e) % TWO_64
  {
    hide FromBE, ToBE, Pow256;
    Pow256Values();
    match e
    case PutExExtra(ttl) => FromToBE(Unsigned(ttl), 8);
    case LockWithTimeoutExtra(ttl) => FromToBE(Unsigned(ttl), 8);
    case IsPartEmptyExtra(p) => FromToBE(p, 8);
  }

  // ---------- the header survives modulo its widths ----------

  lemma HeaderRoundTrip(m: Message, rest: seq<byte>)
    ensures ParseHeader(HeaderBytes(m) + rest) ==
            Header(m.magic, m.op, |m.dmap| % 0x1_0000, |m.key| % 0x1_0000, Sent(m).extraLen, m.status, BodySize(m) % TWO_32)
  {
    hide FromBE, ToBE, Pow256;
    var s := HeaderBytes(m) + rest;
    Pow256Values();
    FromToBE(|m.dmap|, 2);
    FromToBE(|m.key|, 2);
    FromToBE(BodySize(m), 4);
    assert s[2..4] == ToBE(|m.dmap|, 2);
    assert s[4..6] == ToBE(|m.key|, 2);
    assert s[8..12] == ToBE(BodySize(m), 4);
  }

  /** The extra belongs to the operation: OpExPutEx; OpExLockWithTimeout and OpLockPrev; OpIsPartEmpty and
      OpIsBackupEmpty. */
  predicate KindMatches(op: byte, e: Extra) {
    match e
    case PutExExtra(_) => op == 1
    case LockWithTimeoutExtra(_) => op == 5 || op == 16
    case IsPartEmptyExtra(_) => op == 22 || op == 23
  }

  lemma ExtraRoundTrip(op: byte, e: Extra)
    ensures KindOf(op) != NoExtra ==> (ParseExtra(op, ExtraBytes(e)) == Some(e) <==> KindMatches(op, e))
  {
    hide FromBE, Pow256, ExtraBytes;
    ExtraLayout(e);
    var raw := ExtraBytes(e);
    assert raw[..8] == raw;
    assert Signed(FromBE(raw)) == ExtraNumber(e) || e.IsPartEmptyExtra?;
  }

  // ---------- when a message arrives as it was sent ----------

  /** Lengths within the header's fields and the value within the bound. */
  predicate Fits(m: Message, maxValueSize: int) {
    && |m.dmap| < 0x1_0000 && |m.key| < 0x1_0000
    && BodySize(m) < TWO_32 && |m.value| <= maxValueSize
  }

  /** No extra and no leftover extra length, or an extra of the kind the request's operation decodes. */
  predicate ExtraArrives(m: Message) {
    if m.extra == None then m.extraLen == 0 else m.magic == MAGIC_REQ && KindMatches(m.op, m.extra.value)
  }

  predicate Transmittable(m: Message, maxValueSize: int) {
    (m.magic == MAGIC_REQ || m.magic == MAGIC_RES) && Fits(m, maxValueSize) && ExtraArrives(m)
  }

  /** An extra the operation does not decode, as on OpPutBackup. */
  predicate ExtraDropped(m: Message) {
    m.magic == MAGIC_REQ && m.extra != None && m.op != 1 && m.op != 5 && m.op != 16 && m.op != 22 && m.op != 23
  }

  function Received(m: Message): (r: Message) {
    if ExtraDropped(m) then Sent(m).(extra := None) else Sent(m)
  }

  lemma BodyParts(m: Message)
    ensures var b, e, d, k := Body(m), |ExtraPart(m)|, |m.dmap|, |m.key|;
            && |b| == e + d + k + |m.value|
            && b[..e] == ExtraPart(m)
            && b[e..][..d] == m.dmap
            && b[e..][d..][..k] == m.key
            && b[e..][d..][k..] == m.value
  {
  }

  /** The body of a fitting message is taken apart as it was put together. */
  lemma BodyRoundTrip(m: Message, h: Header)
    requires m.magic == MAGIC_REQ || m.extra == None
    requires m.extra == None ==> m.extraLen == 0
    requires m.extra != None ==> KindOf(m.op) == NoExtra || KindMatches(m.op, m.extra.value)
    requires h == Header(m.magic, m.op, |m.dmap|, |m.key|, Sent(m).extraLen, m.status, BodySize(m))
    ensures |Body(m)| == h.bodyLen && ParseBody(h, Body(m)) == Ok(Received(m))
  {
    BodyParts(m);
    if m.extra != None {
      ExtraRoundTrip(m.op, m.extra.value);
    }
    hide Body, ExtraBytes, ParseExtra;
    var b, e := Body(m), |ExtraPart(m)|;
    assert Next(b[e..], |m.dmap|) == m.dmap;
    assert Next(b[e..][|m.dmap|..], |m.key|) == m.key;
    assert Next(b[e..][|m.dmap|..][|m.key|..], |m.value|) == m.value;
  }

  lemma EncodeParts(m: Message, rest: seq<byte>)
    ensures var s := Encode(m) + rest;
            && |s| == HEADER_SIZE + |Body(m)| + |rest|
            && s == HeaderBytes(m) + (Body(m) + rest)
            && s[HEADER_SIZE..] == Body(m) + rest
  {
    assert Encode(m) + rest == HeaderBytes(m) + (Body(m) + rest);
  }

  lemma SplitBody(m: Message, rest: seq<byte>)
    ensures (Body(m) + rest)[..|Body(m)|] == Body(m) && (Body(m) + rest)[|Body(m)|..] == rest
  {
  }

  /** A transmittable message arrives as sent and the reader stops right after it. A request whose extra is not decoded
      arrives without it, and its name, key and value arrive all the same. */
  lemma RoundTrip(m: Message, rest: seq<byte>, maxValueSize: int)
    requires Transmittable(m, maxValueSize) || (ExtraDropped(m) && Fits(m, maxValueSize))
    ensures Decode(Encode(m) + rest, maxValueSize) == (Ok(Received(m)), rest)
  {
    hide Body, HeaderBytes, ParseHeader, ParseBody, Encode;
    EncodeParts(m, rest);
    HeaderRoundTrip(m, Body(m) + rest);
    var h := ParseHeader(Encode(m) + rest);
    BodyRoundTrip(m, h);
    SplitBody(m, rest);
  }

  /** What a successful read reveals about the lengths in the header. */
  lemma ReadLengths(h: Header, body: seq<byte>)
    requires |body| == h.bodyLen && ParseBody(h, body).Ok?
    ensures var m := ParseBody(h, body).m; |m.dmap| <= h.dmapLen && |m.key| <= h.keyLen
  {
  }

  lemma ReadExtra(h: Header, body: seq<byte>, e: Extra)
    requires |body| == h.bodyLen && ParseBody(h, body).Ok? && ParseBody(h, body).m.extra == Some(e)
    ensures h.magic == MAGIC_REQ && KindOf(h.op) != NoExtra
    ensures |Next(body, h.extraLen)| >= 8 && ParseExtra(h.op, Next(body, h.extraLen)) == Some(e)
  {
  }

  /** A read that ends right after the message must have taken a body of the size that was written. */
  lemma ConsumedSize(m: Message)
    requires BodySize(m) % TWO_32 == |Body(m)|
    ensures BodySize(m) < TWO_32 && BodySize(m) == |Body(m)| && (m.extra == None ==> m.extraLen == 0)
  {
    BodyParts(m);
    var q := BodySize(m) / TWO_32;
    assert BodySize(m) == TWO_32 * q + |Body(m)|;
  }

  lemma NecessaryLengths(m: Message, rest: seq<byte>, maxValueSize: int)
    requires Decode(Encode(m) + rest, maxValueSize) == (Ok(Sent(m)), rest)
    ensures (m.magic == MAGIC_REQ || m.magic == MAGIC_RES) && Fits(m, maxValueSize) && (m.extra == None ==> m.extraLen == 0)
    ensures ParseHeader(Encode(m) + rest).bodyLen == |Body(m)|
    ensures ParseBody(ParseHeader(Encode(m) + rest), Body(m)) == Ok(Sent(m))
  {
    hide Body, HeaderBytes, ParseHeader, ParseBody, Encode, KindOf;
    EncodeParts(m, rest);
    HeaderRoundTrip(m, Body(m) + rest);
    var h := ParseHeader(Encode(m) + rest);
    assert |rest| == |(Body(m) + rest)[h.bodyLen..]|;
    ConsumedSize(m);
    SplitBody(m, rest);
    ReadLengths(h, Body(m));
  }

  /** A message arrives as sent, with the reader right after it, exactly when it is transmittable. */
  lemma RoundTripExact(m: Message, rest: seq<byte>, maxValueSize: int)
    ensures Decode(Encode(m) + rest, maxValueSize) == (Ok(Sent(m)), rest) <==> Transmittable(m, maxValueSize)
  {
    hide Body, HeaderBytes, ParseHeader, ParseBody, Encode, KindOf, Decode, Fits;
    if Transmittable(m, maxValueSize) {
      RoundTrip(m, rest, maxValueSize);
      MatchedNotDropped(m);
    }
    if Decode(Encode(m) + rest, maxValueSize) == (Ok(Sent(m)), rest) {
      NecessaryLengths(m, rest, maxValueSize);
      if m.extra != None {
        var h := ParseHeader(Encode(m) + rest);
        EncodeParts(m, rest);
        HeaderRoundTrip(m, Body(m) + rest);
        ReadExtra(h, Body(m), m.extra.value);
        BodyParts(m);
        assert Next(Body(m), h.extraLen) == ExtraBytes(m.extra.value);
        ExtraRoundTrip(m.op, m.extra.value);
      }
    }
  }

  lemma MatchedNotDropped(m: Message)
    ensures ExtraArrives(m) ==> !ExtraDropped(m)
  {
  }

  // ---------- when a read fails ----------

  /** Each error by the bytes that cause it. */
  lemma ReadErrors(s: seq<byte>, maxValueSize: int)
    ensures var r := Decode(s, maxValueSize).0;
            if |s| < 12 then r == ShortRead
            else
              var body, extra := FromBE(s[8..12]), s[6];
              var value := body - extra - FromBE(s[4..6]) - FromBE(s[2..4]);
              var decoded := s[0] == 0xE2 && extra > 0 && (s[1] == 1 || s[1] == 5 || s[1] == 16 || s[1] == 22 || s[1] == 23);
              && (r == InvalidMessage <==> s[0] != 0xE2 && s[0] != 0xE3)
              && (r == ValueTooBig <==> (s[0] == 0xE2 || s[0] == 0xE3) && value > maxValueSize)
              && (r == ShortRead <==> (s[0] == 0xE2 || s[0] == 0xE3) && value <= maxValueSize && |s| < 12 + body)
              && (r == BadExtra <==> (s[0] == 0xE2 || s[0] == 0xE3) && value <= maxValueSize && |s| >= 12 + body
                                     && decoded && (extra < 8 || body < 8))
              && (r == Panic <==> (s[0] == 0xE2 || s[0] == 0xE3) && value <= maxValueSize && |s| >= 12 + body
                                  && !(decoded && (extra < 8 || body < 8)) && value < 0)
  {
    hide FromBE, ParseExtra;
  }

  /** And what it leaves on the connection: nothing if it ended too early, else all after the header or the message. */
  lemma ReadLeaves(s: seq<byte>, maxValueSize: int)
    ensures var (r, rest) := Decode(s, maxValueSize);
            rest == if r == ShortRead then []
                    else if r == InvalidMessage || r == ValueTooBig then s[12..]
                    else s[12 + FromBE(s[8..12])..]
  {
    hide FromBE, ParseBody;
    if |s| >= 12 {
      ParsedIsNot(s, maxValueSize);
    }
  }

  lemma ParsedIsNot(s: seq<byte>, maxValueSize: int)
    requires |s| >= 12
    ensures var h := ParseHeader(s);
            |s| >= 12 + h.bodyLen ==>
              var r := ParseBody(h, s[12..][..h.bodyLen]);
              r != ShortRead && r != InvalidMessage && r != ValueTooBig
  {
    hide FromBE, ParseExtra, KindOf;
  }

  // ---------- streams ----------

  function EncodeAll(ms: seq<Message>): (s: seq<byte>) {
    if ms == [] then [] else Encode(ms[0]) + EncodeAll(ms[1..])
  }

  /** The first `n` messages of a stream, if all of them can be read. */
  function DecodeAll(s: seq<byte>, n: nat, maxValueSize: int): (r: Option<(seq<Message>, seq<byte>)>) {
    if n == 0 then Some(([], s)) else
      var (first, rest) := Decode(s, maxValueSize);
      if !first.Ok? then None else
        var more := DecodeAll(rest, n - 1, maxValueSize);
        if more == None then None else Some(([first.m] + more.value.0, more.value.1))
  }

  function SentAll(ms: seq<Message>): (r: seq<Message>)
    ensures |r| == |ms|
  {
    if ms == [] then [] else [Sent(ms[0])] + SentAll(ms[1..])
  }

  /** A stream of transmittable messages is read back message by message, nothing left over and nothing cut off. */
  lemma {:induction false} StreamRoundTrip(ms: seq<Message>, rest: seq<byte>, maxValueSize: int)
    requires forall m <- ms :: Transmittable(m, maxValueSize)
    ensures DecodeAll(EncodeAll(ms) + rest, |ms|, maxValueSize) == Some((SentAll(ms), rest))
  {
    hide Encode, Decode, Transmittable, Sent;
    if ms == [] {
      assert EncodeAll(ms) + rest == rest;
    } else {
      var tail := EncodeAll(ms[1..]) + rest;
      assert EncodeAll(ms) + rest == Encode(ms[0]) + tail;
      RoundTripExact(ms[0], tail, maxValueSize);
      StreamRoundTrip(ms[1..], rest, maxValueSize);
    }
  }

  // ---------- the connection ----------

  /** A connection seen as the bytes in transit on it. */
  class Conn {
    var data: seq<byte>

    /** Fills a buffer field by field and sends it. */
    method Write(m: Message) returns (sent: Message)
      modifies this
      ensures data == old(data) + Encode(m)
      ensures sent == Sent(m)
    {
      hide ToBE;
      sent := m;
      if m.extra != None {
        sent := sent.(extraLen := EXTRA_SIZE);
      }
      var bodyLen := |m.dmap| + |m.key| + |m.value| + sent.extraLen;
      var buf := [m.magic, m.op] + ToBE(|m.dmap|, 2) + ToBE(|m.key|, 2) + [sent.extraLen, m.status] + ToBE(bodyLen, 4);
      ghost var header := buf;
      if m.extra != None {
        buf := buf + ExtraBytes(m.extra.value);
      }
      assert buf == header + ExtraPart(m);
      buf := buf + m.dmap;
      buf := buf + m.key;
      buf := buf + m.value;
      assert buf == header + (ExtraPart(m) + m.dmap + m.key + m.value);
      data := data + buf;
    }

    /** Takes one message off the connection. */
    method Read(maxValueSize: int) returns (r: ReadResult)
      modifies this
      ensures (r, data) == Decode(old(data), maxValueSize)
    {
      hide FromBE, ParseExtra, KindOf;
      if |data| < HEADER_SIZE {
        data := [];
        return ShortRead;
      }
      var h := ParseHeader(data);
      data := data[HEADER_SIZE..];
      if h.magic != MAGIC_REQ && h.magic != MAGIC_RES {
        return InvalidMessage;
      }
      var vlen := h.bodyLen - h.extraLen - h.keyLen - h.dmapLen;
      if vlen > maxValueSize {
        return ValueTooBig;
      }
      if |data| < h.bodyLen {
        data := [];
        return ShortRead;
      }
      var buf := data[..h.bodyLen];
      data := data[h.bodyLen..];
      var extra: Option<Extra> := None;
      if h.magic == MAGIC_REQ && h.extraLen > 0 {
        var raw := Next(buf, h.extraLen);
        buf := buf[|raw|..];
        if KindOf(h.op) != NoExtra {
          if |raw| < 8 {
            return BadExtra;
          }
          extra := ParseExtra(h.op, raw);
        }
      }
      var dmap := Next(buf, h.dmapLen);
      buf := buf[|dmap|..];
      var key := Next(buf, h.keyLen);
      buf := buf[|key|..];
      var value := [];
      if vlen != 0 {
        if vlen < 0 {
          return Panic;
        }
        value := Next(buf, vlen);
      }
      return Ok(Message(h.magic, h.op, h.status, h.extraLen, extra, dmap, key, value));
    }
  }
}
