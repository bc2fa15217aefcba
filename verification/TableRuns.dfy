/** What holds of a table after any sequence of operations. */
module TableRuns {
  import opened Bytes
  import opened Entry
  import opened TableSpec

  datatype Op =
    | PutOp(hkey: uint64, value: VData)
    | PutRawOp(hkey: uint64, raw: seq<byte>)
    | DeleteOp(hkey: uint64)

  ghost predicate Acceptable(op: Op) {
    op.PutRawOp? ==> WellFormed(op.raw)
  }

  /** An operation that is refused leaves the table alone. */
  ghost function Step(t: TableView, op: Op): (r: TableView)
    requires Acceptable(op)
  {
    match op
    case PutOp(k, v) => if |v.key| < MAX_KEY_LEN && HasRoom(t, |Encode(v)|) then Put(t, k, v) else t
    case PutRawOp(k, raw) => if HasRoom(t, |raw|) then Appended(t, k, raw) else t
    case DeleteOp(k) => Deleted(t, k)
  }

  ghost function Run(t: TableView, ops: seq<Op>): (r: TableView)
    requires forall op <- ops :: Acceptable(op)
  {
    if ops == [] then t else Step(Run(t, ops[..|ops| - 1]), ops[|ops| - 1])
  }

  /** Operations that leave no unaccounted bytes behind. */
  ghost predicate Lossless(op: Op) {
    !op.PutRawOp? && (op.PutOp? ==> |op.value.value| < TWO_32)
  }

  lemma StepSound(t: TableView, op: Op)
    requires Sound(t) && Acceptable(op)
    ensures Sound(Step(t, op)) && Slack(Step(t, op)) >= Slack(t)
    ensures Lossless(op) ==> Slack(Step(t, op)) == Slack(t)
    ensures forall k <- t.live :: k != op.hkey ==> k in Step(t, op).live && Step(t, op).live[k] == t.live[k]
  {
    hide Sound, Slack, WellFormed, Encode, Trim;
    match op
    case PutOp(k, v) =>
      if |v.key| < MAX_KEY_LEN && HasRoom(t, |Encode(v)|) {
        PutSound(t, k, v);
      }
    case PutRawOp(k, raw) =>
      if HasRoom(t, |raw|) {
        AppendedSound(t, k, raw);
      }
    case DeleteOp(k) =>
      DeletedSound(t, k);
  }

  /** After any run from an empty table the accounts balance: used bytes are in use or garbage, the bytes in use
      cover the live entries, and they are exactly the live entries unless raw entries or oversized values came in. */
  lemma {:induction false} RunSound(size: int, ops: seq<Op>)
    requires forall op <- ops :: Acceptable(op)
    ensures Sound(Run(Fresh(size), ops))
    ensures (forall op <- ops :: Lossless(op)) ==> Slack(Run(Fresh(size), ops)) == 0
  {
    hide Sound, Slack, Step;
    if ops == [] {
      FreshSound(size);
    } else {
      var init := ops[..|ops| - 1];
      RunSound(size, init);
      StepSound(Run(Fresh(size), init), ops[|ops| - 1]);
    }
  }
}
