/** The snapshot engine for one registered map: clients and the sync worker interleave step by step. */
module Snapshot {
  import opened Bytes
  import opened Entry
  import opened TableSpec

  type Raw = seq<byte>

  datatype Op = OpPut | OpDel

  /** A client operation in progress; the map's mutex lets one run at a time. */
  datatype Client =
    | Idle
    | PutStored(k: uint64)   // stored, not yet logged
    | DelLogged(k: uint64)   // logged, not yet deleted (`delKeyVal`)
    | PrevDeleted(k: uint64) // deleted, not yet logged (`deletePrevOperation`)

  /** The worker. `wcopy` is the drained log, `todo` what is left of it, `keys` the key set being edited,
      `batch` the writes not yet flushed, `failed` what is to be logged again. */
  datatype Worker =
    | Resting
    | Drained(wcopy: map<uint64, Op>)
    | Syncing(wcopy: map<uint64, Op>, todo: map<uint64, Op>, keys: set<uint64>, batch: map<uint64, Option<Raw>>,
              failed: map<uint64, Op>)
    | Requeuing(failed: map<uint64, Op>)

  datatype State = State(mem: Entries, oplog: map<uint64, Op>,
                         disk: map<uint64, Raw>, diskKeys: Option<set<uint64>>,
                         client: Client, worker: Worker)

  const INITIAL := State(map[], map[], map[], None, Idle, Resting)

  datatype Step =
    | PutStore(k: uint64, e: seq<byte>) | PutLog
    | DelLog(k: uint64) | DelStore
    | PrevDelete(k: uint64) | PrevLog
    | PrevDeleteError(k: uint64)      // deleted, but for want of memory reported as failed and never logged
    | MergeIn(k: uint64, e: seq<byte>) // a key of an arrived map, put by `mergeDMaps` without logging it
    | Drain
    | View(ok: bool)
    | Process(k: uint64, ok: bool)
    | Flush(keysOk: bool, ok: bool)
    | Requeue

  predicate Enabled(s: State, step: Step) {
    match step
    case PutStore(_, e) => s.client.Idle? && IsEntry(e)
    case PutLog => s.client.PutStored?
    case DelLog(_) => s.client.Idle?
    case DelStore => s.client.DelLogged?
    case PrevDelete(_) => s.client.Idle?
    case PrevLog => s.client.PrevDeleted?
    case PrevDeleteError(_) => s.client.Idle?
    case MergeIn(k, e) => s.client.Idle? && k !in s.mem && IsEntry(e)
    case Drain => s.worker.Resting? && s.oplog != map[]
    case View(_) => s.worker.Drained?
    case Process(k, _) => s.worker.Syncing? && k in s.worker.todo
    case Flush(_, _) => s.worker.Syncing? && s.worker.todo == map[]
    case Requeue => s.worker.Requeuing?
  }

  function KeySet(ks: Option<set<uint64>>): set<uint64> {
    if ks == None then {} else ks.value
  }

  /** The disk after a write batch. */
  function Applied(disk: map<uint64, Raw>, batch: map<uint64, Option<Raw>>): (r: map<uint64, Raw>)
    ensures forall k :: k in r <==> if k in batch then batch[k] != None else k in disk
    ensures forall k <- r :: r[k] == if k in batch then batch[k].value else disk[k]
  {
    map k | k in disk.Keys + batch.Keys && (if k in batch then batch[k] != None else k in disk) ::
      if k in batch then batch[k].value else disk[k]
  }

  /** One key of the drained log: read from memory now, put into the batch, key set edited.
      A put of a key that is gone is skipped. */
  function ProcessKey(w: Worker, mem: Entries, k: uint64, ok: bool): (r: Worker)
    requires w.Syncing? && k in w.todo
  {
    var w1 := w.(todo := w.todo - {k});
    match w.todo[k]
    case OpPut =>
      if k !in mem then w1
      else if !ok then w1.(failed := w.failed[k := OpPut])
      else w1.(batch := w.batch[k := Some(RawForm(mem[k]))], keys := w.keys + {k})
    case OpDel =>
      if !ok then w1.(failed := w.failed[k := OpDel])
      else w1.(batch := w.batch[k := None], keys := w.keys - {k})
  }

  function Do(s: State, step: Step): (r: State)
    requires Enabled(s, step)
  {
    match step
    case PutStore(k, e) => s.(mem := s.mem[k := e], client := PutStored(k))
    case PutLog => s.(oplog := s.oplog[s.client.k := OpPut], client := Idle)
    case DelLog(k) => s.(oplog := s.oplog[k := OpDel], client := DelLogged(k))
    case DelStore => s.(mem := s.mem - {s.client.k}, client := Idle)
    case PrevDelete(k) => s.(mem := s.mem - {k}, client := PrevDeleted(k))
    case PrevLog => s.(oplog := s.oplog[s.client.k := OpDel], client := Idle)
    case PrevDeleteError(k) => s.(mem := s.mem - {k})
    case MergeIn(k, e) => s.(mem := s.mem[k := e])
    case Drain => s.(oplog := map[], worker := Drained(s.oplog))
    case View(ok) =>
      if ok then s.(worker := Syncing(s.worker.wcopy, s.worker.wcopy, KeySet(s.diskKeys), map[], map[]))
      else s.(worker := Resting) // the drained operations are gone
    case Process(k, ok) => s.(worker := ProcessKey(s.worker, s.mem, k, ok))
    case Flush(keysOk, ok) =>
      var w := s.worker;
      s.(disk := if ok then Applied(s.disk, w.batch) else s.disk,
         diskKeys := if ok && keysOk then Some(w.keys) else s.diskKeys,
         worker := Requeuing(if keysOk then w.failed else w.wcopy))
    case Requeue =>
      // an operation logged meanwhile is the later one
      s.(oplog := s.worker.failed + s.oplog, worker := Resting)
  }

  predicate IsRun(s: State, steps: seq<Step>)
    decreases |steps|
  {
    steps == [] || (Enabled(s, steps[0]) && IsRun(Do(s, steps[0]), steps[1..]))
  }

  function After(s: State, steps: seq<Step>): (r: State)
    requires IsRun(s, steps)
    decreases |steps|
  {
    if steps == [] then s else After(Do(s, steps[0]), steps[1..])
  }

  // ---------- keys that are lost ----------

  /** The keys whose last change may never reach the disk: `step` adds those whose taken operations it throws away or
      whose change it does not log; logging a key anew takes it back. */
  function LostBy(s: State, lost: set<uint64>, step: Step): (r: set<uint64>)
    requires Enabled(s, step)
  {
    match step
    case PutLog => lost - {s.client.k}
    case DelLog(k) => lost - {k}
    case PrevLog => lost - {s.client.k}
    case PrevDeleteError(k) => if k in s.mem then lost + {k} else lost
    case MergeIn(k, _) => lost + {k}
    case View(ok) => if ok then lost else lost + s.worker.wcopy.Keys
    case Flush(keysOk, ok) => if ok || !keysOk then lost else lost + s.worker.batch.Keys
    case _ => lost
  }

  function LostAfter(s: State, lost: set<uint64>, steps: seq<Step>): (r: set<uint64>)
    requires IsRun(s, steps)
    decreases |steps|
  {
    if steps == [] then lost else LostAfter(Do(s, steps[0]), LostBy(s, lost, steps[0]), steps[1..])
  }

  /** Steps that lose nothing: single keys and the key set write may still fail, and so may a flush without the key
      set, after which everything is logged again. */
  predicate Fortunate(step: Step) {
    && (step.View? ==> step.ok)
    && (step.Flush? ==> step.ok || !step.keysOk)
    && !step.PrevDeleteError?
    && !step.MergeIn?
  }

  lemma FortunateStep(s: State, step: Step)
    requires Enabled(s, step) && Fortunate(step)
    ensures LostBy(s, {}, step) == {}
  {
  }

  lemma {:induction false} NothingLost(s: State, steps: seq<Step>)
    requires IsRun(s, steps) && forall step <- steps :: Fortunate(step)
    ensures LostAfter(s, {}, steps) == {}
    decreases |steps|
  {
    hide Do, Enabled;
    if steps != [] {
      assert steps[0] in steps && forall step <- steps[1..] :: step in steps;
      FortunateStep(s, steps[0]);
      NothingLost(Do(s, steps[0]), steps[1..]);
    }
  }

  // ---------- invariant ----------

  /** Memory as it will be once a logged deletion is carried out. */
  function Logical(s: State): Entries {
    if s.client.DelLogged? then s.mem - {s.client.k} else s.mem
  }

  /** A key a client has changed and not yet logged. */
  predicate Unlogged(s: State, k: uint64) {
    (s.client.PutStored? || s.client.PrevDeleted?) && s.client.k == k
  }

  /** The operations the worker may still put back into the log. */
  function Taken(s: State): map<uint64, Op> {
    match s.worker
    case Resting => map[]
    case Drained(wcopy) => wcopy
    case Syncing(wcopy, _, _, _, _) => wcopy
    case Requeuing(failed) => failed
  }

  /** The keys the worker has not yet written into its batch. */
  function Unwritten(s: State): set<uint64> {
    match s.worker
    case Resting => {}
    case Drained(wcopy) => wcopy.Keys
    case Syncing(_, todo, _, _, failed) => todo.Keys + failed.Keys
    case Requeuing(failed) => failed.Keys
  }

  function DiskSoon(s: State): map<uint64, Raw> {
    if s.worker.Syncing? then Applied(s.disk, s.worker.batch) else s.disk
  }

  function KeysSoon(s: State): set<uint64> {
    if s.worker.Syncing? then s.worker.keys else KeySet(s.diskKeys)
  }

  predicate Pending(s: State, k: uint64) {
    k in s.oplog || k in Unwritten(s) || Unlogged(s, k)
  }

  /** Memory and disk tell the same about `k`. */
  ghost predicate Agree(mem: Entries, disk: map<uint64, Raw>, keys: set<uint64>, k: uint64) {
    && (k in mem <==> k in disk)
    && (k in mem <==> k in keys)
    && (k in mem ==> disk[k] == RawForm(mem[k]))
  }

  /** The last logged operation on a key says whether it is in memory. */
  ghost predicate LogOk(s: State, k: uint64) {
    !Unlogged(s, k) ==>
      && (k in s.oplog ==> (s.oplog[k] == OpPut <==> k in Logical(s)))
      && (k !in s.oplog && k in Taken(s) ==> (Taken(s)[k] == OpPut <==> k in Logical(s)))
  }

  ghost predicate WorkerOk(w: Worker, diskKeys: Option<set<uint64>>) {
    w.Syncing? ==>
      && (forall k <- w.todo :: k in w.wcopy && w.todo[k] == w.wcopy[k])
      && (forall k <- w.failed :: k in w.wcopy && w.failed[k] == w.wcopy[k])
      && (forall k <- w.batch :: k in w.wcopy)
      && (forall k :: k !in w.batch ==> (k in w.keys <==> k in KeySet(diskKeys)))
  }

  ghost predicate ClientOk(s: State) {
    (s.client.PutStored? ==> s.client.k in s.mem) && (s.client.PrevDeleted? ==> s.client.k !in s.mem)
  }

  ghost predicate KeyOk(s: State, k: uint64) {
    LogOk(s, k) && (!Pending(s, k) ==> Agree(Logical(s), DiskSoon(s), KeysSoon(s), k))
  }

  /** Every key is in order except the lost ones. */
  ghost predicate Inv(s: State, lost: set<uint64>) {
    && ClientOk(s) && WorkerOk(s.worker, s.diskKeys)
    && (forall k <- s.mem :: IsEntry(s.mem[k]))
    && (forall k: uint64 :: k !in lost ==> KeyOk(s, k))
  }

  // ---------- every step keeps it ----------

  ghost predicate Sane(s: State) {
    ClientOk(s) && WorkerOk(s.worker, s.diskKeys)
  }

  lemma ClientStep(s: State, step: Step, k: uint64)
    requires Sane(s) && Enabled(s, step) && KeyOk(s, k)
    requires step.PutStore? || step.DelStore? || step.PrevDelete?
    ensures KeyOk(Do(s, step), k)
  {
  }

  /** Logging a key puts it in order, whatever was wrong with it. */
  lemma LogStep(s: State, step: Step, k: uint64)
    requires Sane(s) && Enabled(s, step)
    requires step.PutLog? || step.DelLog? || step.PrevLog?
    requires KeyOk(s, k) || k == (if step.DelLog? then step.k else s.client.k)
    ensures KeyOk(Do(s, step), k)
  {
  }

  lemma UnloggedStep(s: State, step: Step, k: uint64)
    requires Sane(s) && Enabled(s, step) && KeyOk(s, k)
    requires step.PrevDeleteError? || step.MergeIn?
    requires k != step.k || (step.PrevDeleteError? && k !in s.mem)
    ensures KeyOk(Do(s, step), k)
  {
  }

  lemma DrainStep(s: State, k: uint64)
    requires Sane(s) && Enabled(s, Drain) && KeyOk(s, k)
    ensures KeyOk(Do(s, Drain), k)
  {
  }

  lemma ViewStep(s: State, ok: bool, k: uint64)
    requires Sane(s) && Enabled(s, View(ok)) && KeyOk(s, k) && (ok || k !in s.worker.wcopy)
    ensures KeyOk(Do(s, View(ok)), k)
  {
    assert forall j: uint64 :: j in Applied(s.disk, map[]) <==> j in s.disk;
  }

  lemma ProcessPut(s: State, j: uint64, ok: bool, k: uint64)
    requires Sane(s) && Enabled(s, Process(j, ok)) && KeyOk(s, k) && s.worker.todo[j] == OpPut
    ensures KeyOk(Do(s, Process(j, ok)), k)
  {
    hide Applied;
  }

  lemma ProcessDel(s: State, j: uint64, ok: bool, k: uint64)
    requires Sane(s) && Enabled(s, Process(j, ok)) && KeyOk(s, k) && s.worker.todo[j] == OpDel
    ensures KeyOk(Do(s, Process(j, ok)), k)
  {
    hide Applied;
  }

  lemma ProcessStep(s: State, j: uint64, ok: bool, k: uint64)
    requires Sane(s) && Enabled(s, Process(j, ok)) && KeyOk(s, k)
    ensures KeyOk(Do(s, Process(j, ok)), k)
  {
    hide KeyOk, Sane, Do;
    match s.worker.todo[j]
    case OpPut => ProcessPut(s, j, ok, k);
    case OpDel => ProcessDel(s, j, ok, k);
  }

  lemma FlushStep(s: State, keysOk: bool, ok: bool, k: uint64)
    requires Sane(s) && Enabled(s, Flush(keysOk, ok)) && KeyOk(s, k)
    requires ok || !keysOk || k !in s.worker.batch
    ensures KeyOk(Do(s, Flush(keysOk, ok)), k)
  {
    hide Applied;
  }

  lemma RequeueStep(s: State, k: uint64)
    requires Sane(s) && Enabled(s, Requeue) && KeyOk(s, k)
    ensures KeyOk(Do(s, Requeue), k)
  {
  }

  lemma KeyStep(s: State, lost: set<uint64>, step: Step, k: uint64)
    requires Sane(s) && Enabled(s, step) && (k in lost || KeyOk(s, k)) && k !in LostBy(s, lost, step)
    ensures KeyOk(Do(s, step), k)
  {
    hide KeyOk, Sane, Do;
    match step
    case Drain => DrainStep(s, k);
    case View(ok) => ViewStep(s, ok, k);
    case Process(j, ok) => ProcessStep(s, j, ok, k);
    case Flush(keysOk, ok) => FlushStep(s, keysOk, ok, k);
    case Requeue => RequeueStep(s, k);
    case PutLog => LogStep(s, step, k);
    case DelLog(_) => LogStep(s, step, k);
    case PrevLog => LogStep(s, step, k);
    case PrevDeleteError(_) => UnloggedStep(s, step, k);
    case MergeIn(_, _) => UnloggedStep(s, step, k);
    case _ => ClientStep(s, step, k);
  }

  lemma StepInv(s: State, lost: set<uint64>, step: Step)
    requires Inv(s, lost) && Enabled(s, step)
    ensures Inv(Do(s, step), LostBy(s, lost, step))
  {
    forall k: uint64 | k !in LostBy(s, lost, step) ensures KeyOk(Do(s, step), k) {
      hide KeyOk, Do, Enabled, LostBy;
      KeyStep(s, lost, step, k);
    }
    hide KeyOk, LostBy;
    WorkerStep(s, step);
  }

  lemma WorkerStep(s: State, step: Step)
    requires Sane(s) && Enabled(s, step) && forall k <- s.mem :: IsEntry(s.mem[k])
    ensures Sane(Do(s, step)) && forall k <- Do(s, step).mem :: IsEntry(Do(s, step).mem[k])
  {
    hide IsEntry;
  }

  lemma {:induction false} RunInv(s: State, lost: set<uint64>, steps: seq<Step>)
    requires Inv(s, lost) && IsRun(s, steps)
    ensures Inv(After(s, steps), LostAfter(s, lost, steps))
    decreases |steps|
  {
    hide Inv, Do, Enabled, LostBy;
    if steps != [] {
      StepInv(s, lost, steps[0]);
      RunInv(Do(s, steps[0]), LostBy(s, lost, steps[0]), steps[1..]);
    }
  }

  lemma InitialInv()
    ensures Inv(INITIAL, {})
  {
  }

  // ---------- what it means ----------

  predicate InFlight(s: State, k: uint64) {
    !s.client.Idle? && s.client.k == k
  }

  /** Not logged, not taken by the worker, and not in a running operation. */
  predicate Settled(s: State, k: uint64) {
    k !in s.oplog && k !in Taken(s) && !InFlight(s, k)
  }

  ghost predicate OnDisk(s: State, k: uint64) {
    Agree(s.mem, s.disk, KeySet(s.diskKeys), k)
  }

  /** Over every interleaving, whatever fails in it: a settled key that is not lost has on disk the raw form of its bytes in
      memory, or is in neither. */
  lemma DiskAgrees(steps: seq<Step>, k: uint64)
    requires IsRun(INITIAL, steps)
    ensures var s := After(INITIAL, steps);
            Settled(s, k) && k !in LostAfter(INITIAL, {}, steps) ==> OnDisk(s, k)
  {
    hide Do, Enabled, LostBy, IsEntry;
    InitialInv();
    RunInv(INITIAL, {}, steps);
    var s := After(INITIAL, steps);
    if k !in LostAfter(INITIAL, {}, steps) {
      assert KeyOk(s, k);
    }
  }

  /** Nothing is logged, in progress or being written. */
  predicate Quiescent(s: State) {
    s.client.Idle? && s.worker.Resting? && s.oplog == map[]
  }

  /** Disk and key set hold exactly the raw forms of what is in memory. */
  ghost predicate Mirrored(s: State) {
    && s.disk.Keys == s.mem.Keys == KeySet(s.diskKeys)
    && forall k <- s.mem :: IsEntry(s.mem[k]) && s.disk[k] == RawForm(s.mem[k])
  }

  /** A quiescent state without lost keys is mirrored on disk. */
  lemma QuiescentMirrored(steps: seq<Step>)
    requires IsRun(INITIAL, steps) && Quiescent(After(INITIAL, steps)) && LostAfter(INITIAL, {}, steps) == {}
    ensures Mirrored(After(INITIAL, steps))
  {
    hide Do, Enabled, LostBy, IsEntry;
    var s := After(INITIAL, steps);
    InitialInv();
    RunInv(INITIAL, {}, steps);
    forall k: uint64 ensures OnDisk(s, k) {
      DiskAgrees(steps, k);
    }
    AgreeAll(s);
  }

  lemma AgreeAll(s: State)
    requires (forall k: uint64 :: OnDisk(s, k)) && forall k <- s.mem :: IsEntry(s.mem[k])
    ensures Mirrored(s)
  {
    hide IsEntry;
    forall k: uint64
      ensures (k in s.mem <==> k in s.disk) && (k in s.mem <==> k in KeySet(s.diskKeys))
      ensures k in s.mem ==> s.disk[k] == RawForm(s.mem[k])
    {
      assert OnDisk(s, k);
    }
  }

  // ---------- what is on disk, whatever happens ----------

  /** Memory holds entries; disk and batch hold raw forms. */
  ghost predicate Saved(s: State) {
    && (forall k <- s.mem :: IsEntry(s.mem[k]))
    && (forall k <- s.disk :: IsRaw(s.disk[k]))
    && (s.worker.Syncing? ==> forall k <- s.worker.batch :: s.worker.batch[k] != None ==> IsRaw(s.worker.batch[k].value))
  }

  lemma SavedStep(s: State, step: Step)
    requires Saved(s) && Enabled(s, step)
    ensures Saved(Do(s, step))
  {
    hide IsEntry, IsRaw;
    if step.Process? && step.k in s.mem {
      RawFormIsRaw(s.mem[step.k]);
    }
  }

  lemma {:induction false} SavedRun(s: State, steps: seq<Step>)
    requires Saved(s) && IsRun(s, steps)
    ensures Saved(After(s, steps))
    decreases |steps|
  {
    hide Saved, Do, Enabled;
    if steps != [] {
      SavedStep(s, steps[0]);
      SavedRun(Do(s, steps[0]), steps[1..]);
    }
  }

  /** The key set names exactly the keys on disk, and will after the next flush. */
  ghost predicate KeysMatch(s: State) {
    && KeySet(s.diskKeys) == s.disk.Keys
    && (s.worker.Syncing? ==>
          && (forall k <- s.worker.batch :: k in s.worker.keys <==> s.worker.batch[k] != None)
          && (forall k: uint64 | k !in s.worker.batch :: k in s.worker.keys <==> k in KeySet(s.diskKeys)))
  }

  /** Only a flush that succeeds without the key set can part the two. */
  lemma KeysMatchStep(s: State, step: Step)
    requires KeysMatch(s) && Enabled(s, step) && step != Flush(false, true)
    ensures KeysMatch(Do(s, step))
  {
    if step == Flush(true, true) {
      var s' := Do(s, step);
      forall k: uint64 ensures k in KeySet(s'.diskKeys) <==> k in s'.disk {
      }
    }
  }

  lemma {:induction false} KeysMatchRun(s: State, steps: seq<Step>)
    requires KeysMatch(s) && IsRun(s, steps) && forall step <- steps :: step != Flush(false, true)
    ensures KeysMatch(After(s, steps))
    decreases |steps|
  {
    hide KeysMatch, Do, Enabled;
    if steps != [] {
      assert steps[0] in steps && forall step <- steps[1..] :: step in steps;
      KeysMatchStep(s, steps[0]);
      KeysMatchRun(Do(s, steps[0]), steps[1..]);
    }
  }

  /** And it leaves a key in the key set that is not on disk exactly if it deletes one. */
  lemma KeylessFlushExact(s: State)
    requires KeysMatch(s) && Enabled(s, Flush(false, true))
    ensures var s' := Do(s, Flush(false, true));
            KeySet(s'.diskKeys) <= s'.disk.Keys <==>
            forall k <- s.worker.batch :: s.worker.batch[k] == None ==> k !in s.disk
  {
    var s', w := Do(s, Flush(false, true)), s.worker;
    if k :| k in w.batch && w.batch[k] == None && k in s.disk {
      assert k in KeySet(s'.diskKeys) && k !in s'.disk;
    }
  }

  // ---------- exactly what a failure loses ----------

  /** The disk already shows what the operation would have written. */
  ghost predicate Shows(s: State, k: uint64, op: Op) {
    match op
    case OpPut => k in s.mem && k in s.disk && k in KeySet(s.diskKeys) && s.disk[k] == RawForm(s.mem[k])
    case OpDel => k !in s.disk && k !in KeySet(s.diskKeys)
  }

  /** A failed read of the key set settles every taken key that has not been logged meanwhile, and leaves exactly
      those behind whose operation the disk did not already show. */
  lemma FailedViewExact(s: State, lost: set<uint64>, k: uint64)
    requires Inv(s, lost) && k !in lost && Enabled(s, View(false)) && k !in s.oplog && !InFlight(s, k)
    ensures var s' := Do(s, View(false));
            Settled(s', k) && (OnDisk(s', k) <==> k !in s.worker.wcopy || Shows(s, k, s.worker.wcopy[k]))
  {
    hide IsEntry;
    assert KeyOk(s, k);
  }

  /** The batch entry for `k` says what disk and key set say already. */
  ghost predicate Repeats(s: State, k: uint64, write: Option<Raw>) {
    && write == (if k in s.disk then Some(s.disk[k]) else None)
    && (k in KeySet(s.diskKeys) <==> write != None)
  }

  /** A failed flush settles every written key that has not been logged meanwhile, and leaves exactly those behind
      whose write would have changed the disk. */
  lemma FailedFlushExact(s: State, lost: set<uint64>, k: uint64)
    requires Inv(s, lost) && k !in lost && Enabled(s, Flush(true, false)) && k !in s.oplog && !InFlight(s, k)
    requires k !in s.worker.failed
    ensures var s' := Do(s, Flush(true, false));
            Settled(s', k) && (OnDisk(s', k) <==> k !in s.worker.batch || Repeats(s, k, s.worker.batch[k]))
  {
    hide IsEntry;
    assert KeyOk(s, k);
  }

  /** A change that is not logged leaves a settled key wrong on disk exactly if it is a change: a merged-in key always,
      a deleted one if it was there. */
  lemma UnloggedExact(s: State, lost: set<uint64>, step: Step)
    requires Inv(s, lost) && Enabled(s, step) && (step.MergeIn? || step.PrevDeleteError?)
    requires step.k !in lost && Settled(s, step.k)
    ensures Settled(Do(s, step), step.k)
    ensures OnDisk(Do(s, step), step.k) <==> step.PrevDeleteError? && step.k !in s.mem
  {
    hide IsEntry;
    assert KeyOk(s, step.k);
  }

  // ---------- what operations and a sync pass are for ----------

  /** Both halves of a client operation together: memory changes as asked, the change is logged, and the key is not lost
      any more. */
  lemma ClientExact(s: State, lost: set<uint64>, k: uint64, e: seq<byte>)
    requires s.client.Idle? && IsEntry(e)
    ensures Enabled(s, PutStore(k, e)) && Enabled(Do(s, PutStore(k, e)), PutLog)
    ensures Do(Do(s, PutStore(k, e)), PutLog) == s.(mem := s.mem[k := e], oplog := s.oplog[k := OpPut])
    ensures Enabled(s, DelLog(k)) && Enabled(Do(s, DelLog(k)), DelStore)
    ensures Do(Do(s, DelLog(k)), DelStore) == s.(mem := s.mem - {k}, oplog := s.oplog[k := OpDel])
    ensures Enabled(s, PrevDelete(k)) && Enabled(Do(s, PrevDelete(k)), PrevLog)
    ensures Do(Do(s, PrevDelete(k)), PrevLog) == s.(mem := s.mem - {k}, oplog := s.oplog[k := OpDel])
    ensures LostBy(Do(s, PutStore(k, e)), LostBy(s, lost, PutStore(k, e)), PutLog) == lost - {k}
    ensures LostBy(Do(s, DelLog(k)), LostBy(s, lost, DelLog(k)), DelStore) == lost - {k}
    ensures LostBy(Do(s, PrevDelete(k)), LostBy(s, lost, PrevDelete(k)), PrevLog) == lost - {k}
  {
    hide IsEntry;
  }

  /** What a processed key changes besides batch and key set. */
  lemma ProcessEffect(s: State, k: uint64)
    requires s.worker.Syncing? && k in s.worker.todo
    ensures var s' := Do(s, Process(k, true));
            && s'.worker.Syncing? && s'.worker.todo == s.worker.todo - {k} && s'.worker.failed == s.worker.failed
            && s' == s.(worker := s'.worker)
  {
    hide RawForm;
  }

  /** A taken put whose key is gone is passed over: whoever deleted it has logged that. */
  lemma GoneSkipped(s: State, k: uint64, ok: bool)
    requires Enabled(s, Process(k, ok)) && s.worker.todo[k] == OpPut && k !in s.mem
    ensures Do(s, Process(k, ok)) == s.(worker := s.worker.(todo := s.worker.todo - {k}))
  {
  }

  lemma {:induction false} ProcessAll(s: State, lost: set<uint64>) returns (steps: seq<Step>)
    requires Inv(s, lost) && s.worker.Syncing? && s.worker.failed == map[]
    ensures IsRun(s, steps) && Inv(After(s, steps), lost)
    ensures var s' := After(s, steps);
            && s'.worker.Syncing? && s'.worker.todo == map[] && s'.worker.failed == map[]
            && s' == s.(worker := s'.worker)
    decreases |s.worker.todo|
  {
    hide Inv, Do;
    if s.worker.todo == map[] {
      steps := [];
    } else {
      var k :| k in s.worker.todo;
      StepInv(s, lost, Process(k, true));
      ProcessEffect(s, k);
      var s1 := Do(s, Process(k, true));
      assert s1.worker.todo.Keys == s.worker.todo.Keys - {k};
      var rest := ProcessAll(s1, lost);
      steps := [Process(k, true)] + rest;
      assert steps[1..] == rest;
    }
  }

  lemma RunFirst(s: State, step: Step, steps: seq<Step>)
    requires Enabled(s, step) && IsRun(Do(s, step), steps)
    ensures IsRun(s, [step] + steps) && After(s, [step] + steps) == After(Do(s, step), steps)
  {
    hide Do, Enabled;
    assert ([step] + steps)[1..] == steps;
  }

  lemma FlushEffect(s: State)
    requires s.worker.Syncing? && s.worker.todo == map[] && s.worker.failed == map[]
    ensures var s1 := Do(s, Flush(true, true));
            && Enabled(s1, Requeue)
            && var s2 := Do(s1, Requeue);
            && s2.worker.Resting? && s2.mem == s.mem && s2.oplog == s.oplog && s2.client == s.client && s2.diskKeys != None
  {
  }

  lemma QuietOnDisk(s: State, lost: set<uint64>)
    requires Inv(s, lost) && Quiescent(s)
    ensures forall k: uint64 | k !in lost :: OnDisk(s, k)
  {
    hide IsEntry;
    forall k: uint64 | k !in lost ensures OnDisk(s, k) {
      assert KeyOk(s, k);
    }
  }

  /** A pass of the worker that meets no error, while no client is under way, brings the disk up to date: nothing is
      pending, and every key that is not lost is on disk as in memory. */
  lemma SyncCatchesUp(s: State, lost: set<uint64>) returns (steps: seq<Step>)
    requires Inv(s, lost) && s.client.Idle? && s.worker.Resting? && s.oplog != map[]
    ensures IsRun(s, steps)
    ensures var s' := After(s, steps);
            Quiescent(s') && s'.mem == s.mem && s'.diskKeys != None && forall k: uint64 | k !in lost :: OnDisk(s', k)
  {
    hide Inv, IsRun, After, OnDisk;
    StepInv(s, lost, Drain);
    var s1 := Do(s, Drain);
    StepInv(s1, lost, View(true));
    var s2 := Do(s1, View(true));
    var processed := ProcessAll(s2, lost);
    var s3 := After(s2, processed);
    FlushEffect(s3);
    StepInv(s3, lost, Flush(true, true));
    var s4 := Do(s3, Flush(true, true));
    StepInv(s4, lost, Requeue);
    QuietOnDisk(Do(s4, Requeue), lost);
    hide Do;
    RunMore(s2, processed, Flush(true, true));
    RunMore(s2, processed + [Flush(true, true)], Requeue);
    var rest := processed + [Flush(true, true)] + [Requeue];
    RunFirst(s1, View(true), rest);
    RunFirst(s, Drain, [View(true)] + rest);
    steps := [Drain] + ([View(true)] + rest);
  }

  // ---------- and that it happens ----------

  lemma RunMore(s: State, steps: seq<Step>, step: Step)
    requires IsRun(s, steps) && Enabled(After(s, steps), step)
    ensures IsRun(s, steps + [step]) && After(s, steps + [step]) == Do(After(s, steps), step)
    decreases |steps|
  {
    hide Do, Enabled;
    if steps == [] {
      assert steps + [step] == [step] && [step][1..] == [];
    } else {
      RunMore(Do(s, steps[0]), steps[1..], step);
      assert (steps + [step])[1..] == steps[1..] + [step];
    }
  }

  /** One put, logged and taken by the worker. */
  function TakenRun(k: uint64, e: seq<byte>): (steps: seq<Step>) {
    [PutStore(k, e)] + [PutLog] + [Drain]
  }

  lemma OneTaken(k: uint64, e: seq<byte>)
    requires IsEntry(e)
    ensures IsRun(INITIAL, TakenRun(k, e))
    ensures After(INITIAL, TakenRun(k, e)) == State(map[k := e], map[], map[], None, Idle, Drained(map[k := OpPut]))
  {
    hide IsEntry;
    assert [] + [PutStore(k, e)] == [PutStore(k, e)];
    RunMore(INITIAL, [], PutStore(k, e));
    RunMore(INITIAL, [PutStore(k, e)], PutLog);
    var s := After(INITIAL, [PutStore(k, e)] + [PutLog]);
    assert k in s.oplog;
    RunMore(INITIAL, [PutStore(k, e)] + [PutLog], Drain);
  }

  /** The same, written into the batch. */
  function WrittenRun(k: uint64, e: seq<byte>): (steps: seq<Step>) {
    TakenRun(k, e) + [View(true)] + [Process(k, true)]
  }

  lemma OneWritten(k: uint64, e: seq<byte>)
    requires IsEntry(e)
    ensures IsRun(INITIAL, WrittenRun(k, e))
    ensures After(INITIAL, WrittenRun(k, e)) ==
            State(map[k := e], map[], map[], None, Idle,
                  Syncing(map[k := OpPut], map[], {k}, map[k := Some(RawForm(e))], map[]))
  {
    hide IsEntry, TakenRun;
    OneTaken(k, e);
    RunMore(INITIAL, TakenRun(k, e), View(true));
    RunMore(INITIAL, TakenRun(k, e) + [View(true)], Process(k, true));
    assert map[k := OpPut] - {k} == map[] && {} + {k} == {k};
  }

  /** From the start: a failed read of the key set leaves nothing pending and the key off the disk. */
  lemma FailedViewLosesPut(k: uint64, e: seq<byte>)
    requires IsEntry(e)
    ensures var steps := TakenRun(k, e) + [View(false)];
            && IsRun(INITIAL, steps)
            && var s := After(INITIAL, steps);
            Quiescent(s) && k in s.mem && k !in s.disk
  {
    hide IsEntry, TakenRun;
    OneTaken(k, e);
    RunMore(INITIAL, TakenRun(k, e), View(false));
  }

  /** So does a failed flush. */
  lemma FailedFlushLosesPut(k: uint64, e: seq<byte>)
    requires IsEntry(e)
    ensures var steps := WrittenRun(k, e) + [Flush(true, false)] + [Requeue];
            && IsRun(INITIAL, steps)
            && var s := After(INITIAL, steps);
            Quiescent(s) && k in s.mem && k !in s.disk
  {
    hide IsEntry, WrittenRun;
    OneWritten(k, e);
    RunMore(INITIAL, WrittenRun(k, e), Flush(true, false));
    RunMore(INITIAL, WrittenRun(k, e) + [Flush(true, false)], Requeue);
  }

  /** A key merged in stays off the disk with nothing pending. */
  lemma MergeInLosesKey(k: uint64, e: seq<byte>)
    requires IsEntry(e)
    ensures IsRun(INITIAL, [MergeIn(k, e)])
    ensures var s := After(INITIAL, [MergeIn(k, e)]);
            Quiescent(s) && k in s.mem && k !in s.disk
  {
    assert [] + [MergeIn(k, e)] == [MergeIn(k, e)];
    RunMore(INITIAL, [], MergeIn(k, e));
  }

  /** One put, synced to disk. */
  function SyncedRun(k: uint64, e: seq<byte>): (steps: seq<Step>) {
    WrittenRun(k, e) + [Flush(true, true)] + [Requeue]
  }

  lemma OneSynced(k: uint64, e: seq<byte>)
    requires IsEntry(e)
    ensures IsRun(INITIAL, SyncedRun(k, e))
    ensures After(INITIAL, SyncedRun(k, e)) ==
            State(map[k := e], map[], map[k := RawForm(e)], Some({k}), Idle, Resting)
  {
    hide IsEntry, WrittenRun;
    OneWritten(k, e);
    RunMore(INITIAL, WrittenRun(k, e), Flush(true, true));
    RunMore(INITIAL, WrittenRun(k, e) + [Flush(true, true)], Requeue);
  }

  /** The key is then deleted and the deletion flushed without the key set, after which a failed read of the key set
      throws it away. */
  function KeylessRun(k: uint64, e: seq<byte>): (steps: seq<Step>) {
    SyncedRun(k, e) + [DelLog(k)] + [DelStore] + [Drain] + [View(true)] + [Process(k, true)] + [Flush(false, true)]
  }

  lemma OneKeyless(k: uint64, e: seq<byte>)
    requires IsEntry(e)
    ensures IsRun(INITIAL, KeylessRun(k, e))
    ensures After(INITIAL, KeylessRun(k, e)) == State(map[], map[], map[], Some({k}), Idle, Requeuing(map[k := OpDel]))
  {
    hide IsEntry, SyncedRun;
    OneSynced(k, e);
    var synced := SyncedRun(k, e);
    RunMore(INITIAL, synced, DelLog(k));
    RunMore(INITIAL, synced + [DelLog(k)], DelStore);
    assert map[k := e] - {k} == map[];
    var deleted := synced + [DelLog(k)] + [DelStore];
    assert k in After(INITIAL, deleted).oplog;
    RunMore(INITIAL, deleted, Drain);
    OneDeleted(deleted + [Drain], k, e);
  }

  lemma OneDeleted(steps: seq<Step>, k: uint64, e: seq<byte>)
    requires IsRun(INITIAL, steps)
    requires After(INITIAL, steps) == State(map[], map[], map[k := RawForm(e)], Some({k}), Idle, Drained(map[k := OpDel]))
    ensures var more := steps + [View(true)] + [Process(k, true)] + [Flush(false, true)];
            && IsRun(INITIAL, more)
            && After(INITIAL, more) == State(map[], map[], map[], Some({k}), Idle, Requeuing(map[k := OpDel]))
  {
    hide IsRun, After, RawForm, Applied;
    RunMore(INITIAL, steps, View(true));
    assert map[k := OpDel] - {k} == map[] && {k} - {k} == {};
    RunMore(INITIAL, steps + [View(true)], Process(k, true));
    RunMore(INITIAL, steps + [View(true)] + [Process(k, true)], Flush(false, true));
    assert Applied(map[k := RawForm(e)], map[k := None]) == map[];
  }

  /** From there everything settles with the key still in the key set. */
  lemma KeylessQuiescent(k: uint64, e: seq<byte>)
    requires IsEntry(e)
    ensures var steps := KeylessRun(k, e) + [Requeue] + [Drain] + [View(false)];
            && IsRun(INITIAL, steps)
            && After(INITIAL, steps) == State(map[], map[], map[], Some({k}), Idle, Resting)
  {
    hide IsEntry, KeylessRun;
    OneKeyless(k, e);
    var steps := KeylessRun(k, e);
    RunMore(INITIAL, steps, Requeue);
    assert k in After(INITIAL, steps + [Requeue]).oplog;
    RunMore(INITIAL, steps + [Requeue], Drain);
    RunMore(INITIAL, steps + [Requeue] + [Drain], View(false));
  }
}
