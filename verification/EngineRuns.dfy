/** Runs of the memory engine: every operation as a step on the whole state, what every step keeps,
    and what a restart finds (src/core/memory_engine.cpp). */
module EngineRuns {
  import opened Bytes
  import opened Collections
  import opened Compaction
  import opened EngineModel
  import opened Eviction
  import opened Keys
  import opened Postings
  import opened Records
  import opened Recovery
  import opened Replay
  import opened Restarts
  import opened WritePlans
  import Ranking
  import G = Graves
  import P = PartialCommits

  /** The store and the memory; the last sequence number used; a time no clock reading so far is
      later than; when this run began; and when the last operation that writes began. */
  datatype State = State(store: Store, mem: Memory, seqNo: nat, clockMs: nat, runStart: nat, opMs: nat)

  datatype Config = Config(options: Options, charge: Record -> nat, log1p: real -> real)

  /** `clock` gives the readings of one operation in order; `stored` is whether the store took the
      batch; a compaction and a restart also choose the order in which they see unordered data. */
  datatype Op =
    | DoWrite(input: WriteInput, clock: nat -> nat, stored: bool)
    | DoPin(k: RecKey, pin: bool, clock: nat -> nat, stored: bool)
    | DoCompact(ws: Str, active: seq<Record>, tombs: seq<Record>, clock: nat -> nat, stored: bool)
    | DoQuery(hits: seq<RecKey>, nowMs: nat)
    | DoRestart(scans: Scans, docs: seq<RecKey>, events: seq<EventKey>, clock: nat -> nat)

  predicate Batches(op: Op) {
    op.DoWrite? || op.DoPin? || op.DoCompact?
  }

  function Current(s: State, k: RecKey): (r: Record)
    requires k in s.mem.records || k in s.store.docs
  {
    if k in s.mem.records then s.mem.records[k] else s.store.docs[k]
  }

  /** A Pin goes through for a record that is found and whose pinning is allowed. */
  predicate Pins(c: Config, s: State, op: Op)
    requires op.DoPin?
  {
    (op.k in s.mem.records || op.k in s.store.docs) && PinAllowed(s.mem, op.k.0, Current(s, op.k), op.pin, c.options)
  }

  /** What an operation asks the store to do, the last number and the count of readings it uses. */
  function BatchOf(c: Config, s: State, op: Op): (b: (seq<Action>, nat, nat))
    requires Batches(op)
  {
    match op
    case DoWrite(input, clock, _) =>
      if input.workspaceId == [] then ([], s.seqNo, 0)
      else var p := PlanWrite(s.mem, s.seqNo, input, |input.records|, c.options, clock); (p.actions, p.seqNo, p.tick)
    case DoPin(k, pin, clock, _) =>
      if Pins(c, s, op) then ([PinAction(Current(s, k), pin, s.seqNo, clock, c.options)], s.seqNo + 1, 2) else ([], s.seqNo, 0)
    case DoCompact(_, active, tombs, clock, _) =>
      var p := PlanCompact(active, tombs, s.seqNo, c.options, clock); (p.actions, p.seqNo, p.tick)
    case _ => ([], s.seqNo, 0)
  }

  function Limit(c: Config): (n: nat) {
    ResidentLimitBytes(c.options)
  }

  /** A batch that the store refuses, or an empty one, changes neither store nor memory. A committed
      Write or Pin is followed by eviction. */
  ghost predicate Committed(c: Config, store: Store, m: Memory, actions: seq<Action>, stored: bool, evicts: bool, clock: nat -> nat,
                            store': Store, m': Memory)
  {
    if actions == [] || !stored then store' == store && m' == m
    else
      && store' == ActAll(store, m.records, actions)
      && if evicts then exists t :: Enforced(ActMemAll(m, actions, c.charge), m', Limit(c), {}, clock, t, c.log1p)
         else m' == ActMemAll(m, actions, c.charge)
  }

  ghost predicate BatchStep(c: Config, s: State, op: Op, s': State)
    requires Batches(op)
  {
    var (actions, seqNo, tick) := BatchOf(c, s, op);
    && Monotone(op.clock) && op.clock(0) >= s.clockMs && op.clock(tick) <= s'.clockMs
    && (op.DoCompact? ==> TakenInOrder(op.active, op.tombs, s.mem.records, op.ws, op.clock(0), c.log1p))
    && s'.seqNo == seqNo && s'.runStart == s.runStart && s'.opMs == op.clock(0)
    && Committed(c, s.store, s.mem, actions, op.stored, !op.DoCompact?, op.clock, s'.store, s'.mem)
  }

  /** A restart, after a crash or not, keeps only the store; its clock is later than before. Its scans
      find enough of the store to load every document. */
  ghost predicate RestartStep(c: Config, s: State, op: Op, s': State)
    requires op.DoRestart?
  {
    && Monotone(op.clock) && op.clock(0) > s.clockMs && op.clock(0) <= s'.clockMs
    && NoneFailed(op.scans) && Returned(s.store, op.scans, op.docs, op.events) && Suffices(s.store, op.scans, op.events)
    && s'.store == s.store && s'.seqNo == 0 && s'.runStart == op.clock(0) && s'.opMs == s.opMs
    && exists t :: Enforced(Reload(s.store, op.scans, op.docs, op.events, c.charge), s'.mem, Limit(c), {}, op.clock, t, c.log1p)
  }

  ghost predicate Step(c: Config, s: State, op: Op, s': State) {
    && s'.clockMs < UINT64_LIMIT && s'.seqNo < UINT64_LIMIT
    && if Batches(op) then BatchStep(c, s, op, s')
       else if op.DoQuery? then
         op.nowMs > 0 && op.nowMs >= s.clockMs && s'.clockMs >= op.nowMs
         && s' == s.(mem := TouchedAll(s.mem, op.hits, op.nowMs), clockMs := s'.clockMs)
       else RestartStep(c, s, op, s')
  }

  predicate Init(s: State) {
    s.store == EMPTY_STORE && s.mem == EMPTY_MEMORY && s.seqNo == 0 && s.runStart <= s.clockMs < UINT64_LIMIT && s.opMs == 0
  }

  // ---- What every step keeps ----

  ghost predicate StoreInv(s: State) {
    && DocsInv(s.store.docs, s.opMs)
    && LogInv(s.store.events, s.store.ckpts, s.seqNo, s.clockMs, s.runStart)
    && PayloadsKeyed(s.store.events)
    && FitsLog(s.store.events)
    && Covers(s.store) && VectorsMatch(s.store)
  }

  ghost predicate AccessInv(records: map<RecKey, Record>) {
    forall k :: k in records ==> records[k].lastAccessMs > 0
  }

  ghost predicate MemoryInv(c: Config, s: State) {
    && Coherent(s.mem, c.charge)
    && ResidentInv(s.mem.records, s.store.docs) && PinnedResident(s.mem.records, s.store.docs)
    && AccessInv(s.mem.records)
    && WithinQuota(s.mem.records, c.options.pinQuotaPerWorkspace)
  }

  ghost predicate Inv(c: Config, s: State) {
    && s.opMs <= s.clockMs < UINT64_LIMIT && s.runStart <= s.clockMs && s.seqNo < UINT64_LIMIT
    && StoreInv(s) && MemoryInv(c, s)
  }

  lemma InitHasInv(c: Config, s: State)
    requires Init(s)
    ensures Inv(c, s)
  {
    TotalZero(EMPTY_MEMORY.charges);
    forall ws: Str ensures PinnedKeys(s.mem.records, ws) == {} {}
  }

  lemma SettledCopy(k: RecKey, d: Record, r: Record)
    requires Settled(k, d) && SameButAccess(r, d) && r.lastAccessMs > 0
    ensures Settled(k, r)
  {
  }

  /** The record a Pin loads is as the engine writes it. */
  lemma CurrentIsSettled(c: Config, s: State, k: RecKey)
    requires Inv(c, s) && (k in s.mem.records || k in s.store.docs)
    ensures Settled(k, Current(s, k)) && Current(s, k).lastAccessMs > 0
    ensures IsCurrent(Current(s, k), k, s.mem.records, s.store.docs)
  {
    CurrentOfMaps(s.mem.records, s.store.docs, s.opMs, k);
  }

  lemma CurrentOfMaps(records: map<RecKey, Record>, docs: map<RecKey, Record>, opMs: nat, k: RecKey)
    requires ResidentInv(records, docs) && AccessInv(records) && DocsInv(docs, opMs)
    ensures k in records ==> Settled(k, records[k]) && records[k].lastAccessMs > 0
    ensures k in docs ==> Settled(k, docs[k]) && docs[k].lastAccessMs > 0
  {
    if k in records { SettledCopy(k, docs[k], records[k]); }
  }

  lemma ResidentAreSettled(c: Config, s: State)
    requires Inv(c, s)
    ensures forall k :: k in s.mem.records ==>
              HasKey(s.mem.records[k]) && KeyOf(s.mem.records[k]) == k && s.mem.records[k].updatedAtMs <= s.opMs
    ensures WellKeyed(s.mem.records)
  {
    forall k | k in s.mem.records
      ensures HasKey(s.mem.records[k]) && KeyOf(s.mem.records[k]) == k && s.mem.records[k].updatedAtMs <= s.opMs
    {
      assert Settled(k, s.store.docs[k]);
    }
  }

  ghost predicate WellStamped(s: State, b: (seq<Action>, nat, nat), clock: nat -> nat) {
    s.seqNo <= b.1 && Stamped(b.0, s.mem.records, clock(0), s.seqNo, b.1, clock(b.2))
  }

  lemma WriteIsWell(c: Config, s: State, op: Op)
    requires op.DoWrite? && Monotone(op.clock)
    ensures WellStamped(s, BatchOf(c, s, op), op.clock)
  {
    var input := op.input;
    if input.workspaceId != [] {
      var p := PlanWrite(s.mem, s.seqNo, input, |input.records|, c.options, op.clock);
      PlanWriteOk(s.mem, s.seqNo, input, |input.records|, c.options, op.clock);
      PlanIsStamped(p, s.mem.records, input.workspaceId, s.seqNo, c.options, op.clock);
    }
  }

  lemma PinIsWell(c: Config, s: State, op: Op)
    requires Inv(c, s) && op.DoPin? && Monotone(op.clock)
    ensures WellStamped(s, BatchOf(c, s, op), op.clock)
  {
    if Pins(c, s, op) {
      CurrentIsSettled(c, s, op.k);
      PinIsStamped(Current(s, op.k), op.pin, s.mem.records, s.seqNo, op.clock, c.options);
    }
  }

  /** Every operation's batch is well stamped. */
  lemma BatchIsStamped(c: Config, s: State, op: Op, s': State)
    requires Inv(c, s) && Batches(op) && BatchStep(c, s, op, s')
    ensures Stamped(BatchOf(c, s, op).0, s.mem.records, op.clock(0), s.seqNo, s'.seqNo, s'.clockMs) && s.seqNo <= s'.seqNo
  {
    var b := BatchOf(c, s, op);
    assert WellStamped(s, b, op.clock) by {
      if op.DoWrite? { WriteIsWell(c, s, op); } else if op.DoPin? { PinIsWell(c, s, op); } else { CompactIsWell(c, s, op); }
    }
    StampedLater(b.0, s.mem.records, op.clock(0), s.seqNo, s'.seqNo, op.clock(b.2), s'.clockMs);
  }

  lemma StampedLater(actions: seq<Action>, resident: map<RecKey, Record>, opMs: nat, firstSeq: nat, lastSeq: nat, lastMs: nat, later: nat)
    requires Stamped(actions, resident, opMs, firstSeq, lastSeq, lastMs) && lastMs <= later
    ensures Stamped(actions, resident, opMs, firstSeq, lastSeq, later)
  {
  }

  lemma CompactIsWell(c: Config, s: State, op: Op)
    requires Inv(c, s) && op.DoCompact? && Monotone(op.clock) && op.clock(0) >= s.clockMs
    requires TakenInOrder(op.active, op.tombs, s.mem.records, op.ws, op.clock(0), c.log1p)
    ensures WellStamped(s, BatchOf(c, s, op), op.clock)
  {
    var p := PlanCompact(op.active, op.tombs, s.seqNo, c.options, op.clock);
    var taken := Taken(op.active, op.tombs, s.seqNo, c.options, op.clock);
    ResidentAreSettled(c, s);
    PlanTakes(op.active, op.tombs, s.mem.records, op.ws, s.seqNo, c.options, op.clock);
    CompactIsStamped(p, taken, s.mem.records, op.ws, s.seqNo, c.options, op.clock);
  }

  // ---- A batch keeps the invariant ----

  lemma {:induction false} NewEventsAreLater(s: Store, resident: map<RecKey, Record>, actions: seq<Action>, runStart: nat, k: EventKey)
    requires forall i :: 0 <= i < |actions| ==> actions[i].ts >= runStart
    requires k in ActAll(s, resident, actions).events
    ensures k in s.events || k.ts >= runStart
  {
    if actions != [] {
      var n := |actions| - 1;
      ActParts(ActAll(s, resident, actions[..n]), resident, actions[n]);
      if k != EventKeyOf(actions[n]) { NewEventsAreLater(s, resident, actions[..n], runStart, k); }
    }
  }

  lemma FitsAfter(s: Store, resident: map<RecKey, Record>, actions: seq<Action>, seqNo: nat, clockMs: nat, runStart: nat)
    requires FitsLog(s.events) && forall i :: 0 <= i < |actions| ==> actions[i].ts >= runStart
    requires LogInv(ActAll(s, resident, actions).events, ActAll(s, resident, actions).ckpts, seqNo, clockMs, runStart)
    requires seqNo < UINT64_LIMIT && clockMs < UINT64_LIMIT
    ensures FitsLog(ActAll(s, resident, actions).events)
  {
    forall k | k in ActAll(s, resident, actions).events ensures k.ts < UINT64_LIMIT && k.seqNo < UINT64_LIMIT {
      NewEventsAreLater(s, resident, actions, runStart, k);
    }
  }

  lemma {:induction false} BatchKeepsAccess(m: Memory, actions: seq<Action>, resident: map<RecKey, Record>, opMs: nat, charge: Record -> nat)
    requires AccessInv(m.records) && forall i :: 0 <= i < |actions| ==> WellFormed(actions[i], resident, opMs)
    ensures AccessInv(ActMemAll(m, actions, charge).records)
  {
    if actions != [] {
      var n := |actions| - 1;
      BatchKeepsAccess(m, actions[..n], resident, opMs, charge);
      assert WellFormed(actions[n], resident, opMs);
      ActMemRecords(ActMemAll(m, actions[..n], charge), actions[n], charge);
    }
  }

  /** A batch that saves only tombstones adds no pinned active record. */
  lemma {:induction false} TombstonesKeepQuota(m: Memory, actions: seq<Action>, charge: Record -> nat, quota: nat)
    requires WithinQuota(m.records, quota) && OnlyTombstones(actions)
    ensures WithinQuota(ActMemAll(m, actions, charge).records, quota)
  {
    if actions != [] {
      var n := |actions| - 1;
      TombstonesKeepQuota(m, actions[..n], charge, quota);
      var before := ActMemAll(m, actions[..n], charge);
      ActMemRecords(before, actions[n], charge);
      forall ws: Str ensures |PinnedKeys(ActMem(before, actions[n], charge).records, ws)| <= quota {
        if actions[n].Save? { PinnedAfterSave(before.records, actions[n].record, ws); }
        else { PinnedAfterDrop(before.records, before.records - {KeyOf(actions[n].record)}, ws); }
      }
    }
  }

  lemma BatchKeepsQuota(c: Config, s: State, op: Op, s': State)
    requires Inv(c, s) && Batches(op) && BatchStep(c, s, op, s')
    ensures WithinQuota(ActMemAll(s.mem, BatchOf(c, s, op).0, c.charge).records, c.options.pinQuotaPerWorkspace)
  {
    if op.DoWrite? {
      if op.input.workspaceId != [] { WriteKeepsQuota(s.mem, s.seqNo, op.input, c.options, op.clock, c.charge); }
    } else if op.DoPin? {
      if Pins(c, s, op) { OnePinKeepsQuota(c, s, op); }
    } else {
      CompactSavesTombstones(c, s, op.active, op.tombs, op.ws, op.clock);
      TombstonesKeepQuota(s.mem, BatchOf(c, s, op).0, c.charge, c.options.pinQuotaPerWorkspace);
    }
  }

  lemma OnePinKeepsQuota(c: Config, s: State, op: Op)
    requires Inv(c, s) && op.DoPin? && Pins(c, s, op)
    ensures WithinQuota(ActMemAll(s.mem, BatchOf(c, s, op).0, c.charge).records, c.options.pinQuotaPerWorkspace)
  {
    var r := Current(s, op.k);
    var a := PinAction(r, op.pin, s.seqNo, op.clock, c.options);
    CurrentIsSettled(c, s, op.k);
    PinKeepsQuota(s.mem, s.store.docs, r, op.pin, op.clock(0), c.options);
    assert [a][..0] == [];
    assert ActMemAll(s.mem, [a], c.charge) == ActMem(s.mem, a, c.charge);
    ActMemRecords(s.mem, a, c.charge);
  }

  lemma CompactSavesTombstones(c: Config, s: State, active: seq<Record>, tombs: seq<Record>, ws: Str, clock: nat -> nat)
    requires Inv(c, s) && Monotone(clock) && clock(0) >= s.clockMs
    requires TakenInOrder(active, tombs, s.mem.records, ws, clock(0), c.log1p)
    ensures OnlyTombstones(PlanCompact(active, tombs, s.seqNo, c.options, clock).actions)
  {
    ResidentAreSettled(c, s);
    CompactTouchesTombstones(active, tombs, s.mem.records, ws, s.seqNo, c.options, clock);
  }

  lemma BatchKeepsStore(c: Config, s: State, op: Op, s': State)
    requires Inv(c, s) && Batches(op) && BatchStep(c, s, op, s') && s'.clockMs < UINT64_LIMIT && s'.seqNo < UINT64_LIMIT
    requires s'.store == ActAll(s.store, s.mem.records, BatchOf(c, s, op).0)
    ensures StoreInv(s')
  {
    var actions := BatchOf(c, s, op).0;
    BatchIsStamped(c, s, op, s');
    StoreKept(s.store, s.mem, s.mem.records, actions, s, op.clock(0), s'.seqNo, s'.clockMs, c);
  }

  lemma StoreKept(store: Store, m: Memory, resident: map<RecKey, Record>, actions: seq<Action>, s: State, opMs: nat,
                  seqNo: nat, clockMs: nat, c: Config)
    requires Inv(c, s) && store == s.store && m == s.mem && resident == s.mem.records
    requires Stamped(actions, resident, opMs, s.seqNo, seqNo, clockMs)
    requires s.clockMs <= opMs <= clockMs < UINT64_LIMIT && s.seqNo <= seqNo < UINT64_LIMIT
    ensures StoreInv(State(ActAll(store, resident, actions), m, seqNo, clockMs, s.runStart, opMs))
  {
    ResidentAreSettled(c, s);
    BatchKeepsLog(store, resident, actions, opMs, s.seqNo, s.clockMs, s.runStart, seqNo, clockMs);
    FitsAfter(store, resident, actions, seqNo, clockMs, s.runStart);
    BatchKeepsDocs(store, m, resident, actions, opMs, s.opMs, s.seqNo, seqNo, clockMs, c.charge);
    BatchCovers(store, resident, actions);
  }

  lemma BatchKeepsMemory(c: Config, s: State, op: Op, s': State, m: Memory)
    requires Inv(c, s) && Batches(op) && BatchStep(c, s, op, s')
    requires s'.store == ActAll(s.store, s.mem.records, BatchOf(c, s, op).0) && m == ActMemAll(s.mem, BatchOf(c, s, op).0, c.charge)
    ensures MemoryInv(c, s'.(mem := m))
  {
    var actions := BatchOf(c, s, op).0;
    BatchIsStamped(c, s, op, s');
    ActMemAllCoherent(s.mem, actions, c.charge);
    BatchKeepsDocs(s.store, s.mem, s.mem.records, actions, op.clock(0), s.opMs, s.seqNo, s'.seqNo, s'.clockMs, c.charge);
    BatchKeepsAccess(s.mem, actions, s.mem.records, op.clock(0), c.charge);
    BatchKeepsQuota(c, s, op, s');
  }

  lemma ShedKeepsMemory(c: Config, s: State, m: Memory)
    requires MemoryInv(c, s) && Sheds(s.mem, m) && Coherent(m, c.charge)
    ensures MemoryInv(c, s.(mem := m))
  {
    forall ws: Str ensures |PinnedKeys(m.records, ws)| <= c.options.pinQuotaPerWorkspace {
      PinnedAfterDrop(s.mem.records, m.records, ws);
    }
  }

  lemma IdleBatchKeepsInv(c: Config, s: State, op: Op, s': State)
    requires Inv(c, s) && Batches(op) && BatchStep(c, s, op, s') && s'.clockMs < UINT64_LIMIT && s'.seqNo < UINT64_LIMIT
    requires s'.store == s.store && s'.mem == s.mem
    ensures Inv(c, s')
  {
    BatchIsStamped(c, s, op, s');
    LogWeakens(s.store.events, s.store.ckpts, s.seqNo, s.clockMs, s.runStart, s'.seqNo, s'.clockMs);
  }

  lemma BatchKeepsInv(c: Config, s: State, op: Op, s': State)
    requires Inv(c, s) && Batches(op) && BatchStep(c, s, op, s') && s'.clockMs < UINT64_LIMIT && s'.seqNo < UINT64_LIMIT
    ensures Inv(c, s')
  {
    var actions := BatchOf(c, s, op).0;
    if actions == [] || !op.stored {
      IdleBatchKeepsInv(c, s, op, s');
    } else {
      var m := ActMemAll(s.mem, actions, c.charge);
      BatchKeepsStore(c, s, op, s');
      BatchKeepsMemory(c, s, op, s', m);
      if !op.DoCompact? {
        var t: nat :| Enforced(m, s'.mem, Limit(c), {}, op.clock, t, c.log1p);
        EnforcedSheds(m, s'.mem, Limit(c), {}, op.clock, t, c.log1p, c.charge);
        ShedKeepsMemory(c, s'.(mem := m), s'.mem);
        assert s'.(mem := m).(mem := s'.mem) == s';
      } else {
        assert s'.(mem := m) == s';
      }
    }
  }

  // ---- A query changes access statistics only ----

  lemma {:induction false} TouchedAllKeeps(m: Memory, docs: map<RecKey, Record>, ks: seq<RecKey>, nowMs: nat)
    requires ResidentInv(m.records, docs) && AccessInv(m.records) && nowMs > 0
    ensures var m' := TouchedAll(m, ks, nowMs);
      && ResidentInv(m'.records, docs) && AccessInv(m'.records) && m'.records.Keys == m.records.Keys
      && forall k :: k in m.records ==> SameButAccess(m'.records[k], m.records[k])
  {
    if ks != [] {
      var n := |ks| - 1;
      TouchedAllKeeps(m, docs, ks[..n], nowMs);
      TouchedKeeps(TouchedAll(m, ks[..n], nowMs), docs, ks[n], nowMs);
    }
  }

  lemma TouchedKeeps(m: Memory, docs: map<RecKey, Record>, k: RecKey, nowMs: nat)
    requires ResidentInv(m.records, docs) && AccessInv(m.records) && nowMs > 0
    ensures var m' := Touched(m, k, nowMs);
      && ResidentInv(m'.records, docs) && AccessInv(m'.records) && m'.records.Keys == m.records.Keys
      && forall x :: x in m.records ==> SameButAccess(m'.records[x], m.records[x])
  {
    if k in m.records && !m.records[k].tombstone {
      TouchedRecords(m.records, docs, k, nowMs, m.records[k].hitCount + 1);
    }
  }

  lemma TouchedRecords(records: map<RecKey, Record>, docs: map<RecKey, Record>, k: RecKey, nowMs: nat, hitCount: nat)
    requires ResidentInv(records, docs) && AccessInv(records) && nowMs > 0 && k in records
    ensures var records' := records[k := WithAccess(records[k], nowMs, hitCount)];
      && ResidentInv(records', docs) && AccessInv(records') && records'.Keys == records.Keys
      && forall x :: x in records ==> SameButAccess(records'[x], records[x])
  {
    var r := WithAccess(records[k], nowMs, hitCount);
    var records' := records[k := r];
    SameAccessTransitive(r, records[k], docs[k]);
    forall x | x in records ensures SameButAccess(records'[x], records[x]) && x in docs && SameButAccess(records'[x], docs[x]) {}
  }

  lemma SameAccessTransitive(a: Record, b: Record, d: Record)
    requires SameButAccess(a, b) && SameButAccess(b, d)
    ensures SameButAccess(a, d)
  {
  }

  lemma PinnedKeysSame(records: map<RecKey, Record>, records': map<RecKey, Record>, ws: Str)
    requires forall k :: k in records' && records'[k].pinned && !records'[k].tombstone ==>
               k in records && SameButAccess(records'[k], records[k])
    ensures |PinnedKeys(records', ws)| <= |PinnedKeys(records, ws)|
  {
    assert PinnedKeys(records', ws) <= PinnedKeys(records, ws);
    Ranking.SubsetSize(PinnedKeys(records', ws), PinnedKeys(records, ws));
  }

  lemma QueryKeepsInv(c: Config, s: State, op: Op, s': State)
    requires Inv(c, s) && op.DoQuery? && Step(c, s, op, s') && IgnoresAccess(c.charge)
    ensures Inv(c, s')
  {
    TouchedAllCoherent(s.mem, op.hits, op.nowMs, c.charge);
    TouchedAllKeeps(s.mem, s.store.docs, op.hits, op.nowMs);
    LogWeakens(s.store.events, s.store.ckpts, s.seqNo, s.clockMs, s.runStart, s'.seqNo, s'.clockMs);
    forall ws: Str ensures |PinnedKeys(s'.mem.records, ws)| <= c.options.pinQuotaPerWorkspace {
      PinnedKeysSame(s.mem.records, s'.mem.records, ws);
    }
  }

  // ---- A restart ----

  lemma StoreIsSound(s: State)
    requires StoreInv(s)
    ensures Sound(s.store, s.seqNo, s.clockMs, s.runStart, s.opMs)
  {
  }

  /** A restart that finds everything loads exactly the stored documents, and replays no event at all. */
  lemma RestartIsExact(c: Config, s: State, docs: seq<RecKey>, events: seq<EventKey>)
    requires Inv(c, s) && Returned(s.store, ALL_FOUND, docs, events)
    ensures Reload(s.store, ALL_FOUND, docs, events, c.charge).records == s.store.docs
    ensures Reload(s.store, ALL_FOUND, docs, events, c.charge) == ReloadedMemory(s.store, docs, c.charge)
    ensures Coherent(ReloadedMemory(s.store, docs, c.charge), c.charge)
  {
    StoreIsSound(s);
    ReloadRecords(s.store, ALL_FOUND, docs, events, c.charge, s.seqNo, s.clockMs, s.runStart, s.opMs);
    ReloadIsCoherent(s.store, ALL_FOUND, docs, events, c.charge);
  }

  lemma RestartKeepsInv(c: Config, s: State, op: Op, s': State)
    requires Inv(c, s) && op.DoRestart? && Step(c, s, op, s')
    ensures Inv(c, s')
  {
    StoreIsSound(s);
    ReloadIsIntact(s.store, op.scans, op.docs, op.events, c.charge, s.seqNo, s.clockMs, s.runStart, s.opMs);
    ReloadIsCoherent(s.store, op.scans, op.docs, op.events, c.charge);
    var m := Reload(s.store, op.scans, op.docs, op.events, c.charge);
    var t: nat :| Enforced(m, s'.mem, Limit(c), {}, op.clock, t, c.log1p);
    EnforcedSheds(m, s'.mem, Limit(c), {}, op.clock, t, c.log1p, c.charge);
    ReloadedHasInv(c, s, m);
    ShedKeepsMemory(c, s.(mem := m), s'.mem);
    RestartedLog(s.store, s, s');
  }

  lemma RestartedLog(store: Store, s: State, s': State)
    requires LogInv(store.events, store.ckpts, s.seqNo, s.clockMs, s.runStart) && s.clockMs < s'.runStart && s.clockMs <= s'.clockMs
    ensures LogInv(store.events, store.ckpts, s'.seqNo, s'.clockMs, s'.runStart)
  {
  }

  lemma ReloadedHasInv(c: Config, s: State, m: Memory)
    requires Inv(c, s) && m.records == s.store.docs && Coherent(m, c.charge)
    ensures MemoryInv(c, s.(mem := m))
  {
    forall ws: Str ensures |PinnedKeys(m.records, ws)| <= c.options.pinQuotaPerWorkspace {
      PinnedKeysSame(s.mem.records, m.records, ws);
    }
  }

  /** Every step of the engine keeps the invariant. */
  lemma StepKeepsInv(c: Config, s: State, op: Op, s': State)
    requires Inv(c, s) && Step(c, s, op, s') && IgnoresAccess(c.charge)
    ensures Inv(c, s')
  {
    if Batches(op) { BatchKeepsInv(c, s, op, s'); }
    else if op.DoQuery? { QueryKeepsInv(c, s, op, s'); }
    else { RestartKeepsInv(c, s, op, s'); }
  }

  // ---- The same as verdicts, which carry the two big predicates whole ----

  ghost function InvHolds(c: Config, s: State): Verdict {
    if Inv(c, s) then Yes else No
  }

  /** A committed batch that was followed by eviction. */
  lemma CommittedAndEvicted(c: Config, store: Store, m: Memory, actions: seq<Action>, clock: nat -> nat, tick: nat, m': Memory)
    requires actions != [] && IsEnforced(ActMemAll(m, actions, c.charge), m', Limit(c), {}, clock, tick, c.log1p) == Yes
    ensures IsCommitted(c, store, m, actions, true, true, clock, ActAll(store, m.records, actions), m') == Yes
  {
    assert Enforced(ActMemAll(m, actions, c.charge), m', Limit(c), {}, clock, tick, c.log1p);
  }

  /** One that was not, and one that the store refused or that was empty. */
  lemma CommittedOnly(c: Config, store: Store, m: Memory, actions: seq<Action>, stored: bool, clock: nat -> nat)
    ensures actions != [] ==>
              IsCommitted(c, store, m, actions, true, false, clock, ActAll(store, m.records, actions), ActMemAll(m, actions, c.charge)) == Yes
    ensures actions == [] || !stored ==> IsCommitted(c, store, m, actions, stored, false, clock, store, m) == Yes
  {
  }

  ghost function IsCommitted(c: Config, store: Store, m: Memory, actions: seq<Action>, stored: bool, evicts: bool, clock: nat -> nat,
                             store': Store, m': Memory): Verdict
  {
    if Committed(c, store, m, actions, stored, evicts, clock, store', m') then Yes else No
  }

  ghost function StepTaken(c: Config, s: State, op: Op, s': State): Verdict {
    if Step(c, s, op, s') then Yes else No
  }

  lemma StepKeepsInvHolds(c: Config, s: State, op: Op, s': State)
    requires InvHolds(c, s) == Yes && StepTaken(c, s, op, s') == Yes && IgnoresAccess(c.charge)
    ensures InvHolds(c, s') == Yes
  {
    StepKeepsInv(c, s, op, s');
  }

  lemma InvGives(c: Config, s: State)
    requires InvHolds(c, s) == Yes
    ensures WellKeyed(s.mem.records) && WellKeyed(s.store.docs) && s.mem.used < UINT64_LIMIT && s.opMs <= s.clockMs < UINT64_LIMIT && s.seqNo < UINT64_LIMIT
    ensures forall k :: k in s.mem.records ==> s.mem.records[k].updatedAtMs <= s.clockMs
  {
    ResidentAreSettled(c, s);
    forall k | k in s.store.docs ensures KeyOf(s.store.docs[k]) == k { assert Settled(k, s.store.docs[k]); }
  }

  // ---- Runs ----

  ghost predicate IsRun(c: Config, states: seq<State>, ops: seq<Op>) {
    && |states| == |ops| + 1 && Init(states[0])
    && forall i :: 0 <= i < |ops| ==> Step(c, states[i], ops[i], states[i + 1])
  }

  lemma {:induction false} RunHasInv(c: Config, states: seq<State>, ops: seq<Op>, n: nat)
    requires IsRun(c, states, ops) && IgnoresAccess(c.charge) && n < |states|
    ensures Inv(c, states[n])
  {
    if n == 0 { InitHasInv(c, states[0]); }
    else {
      RunHasInv(c, states, ops, n - 1);
      assert Step(c, states[n - 1], ops[n - 1], states[n - 1 + 1]);
      StepKeepsInv(c, states[n - 1], ops[n - 1], states[n]);
    }
  }

  /** Wherever a run is cut off, every event is at or below its workspace's checkpoint, and a restart
      loads exactly the stored documents: no event is applied and no deleted record comes back. */
  lemma RunsRecover(c: Config, states: seq<State>, ops: seq<Op>, n: nat, docs: seq<RecKey>, events: seq<EventKey>)
    requires IsRun(c, states, ops) && IgnoresAccess(c.charge) && n < |states|
    requires Returned(states[n].store, ALL_FOUND, docs, events)
    ensures var s := states[n].store;
      && (forall e :: e in s.events ==> AtOrBelow(e, s.events, s.ckpts))
      && Reload(s, ALL_FOUND, docs, events, c.charge) == ReloadedMemory(s, docs, c.charge)
      && ReloadedMemory(s, docs, c.charge).records == s.docs
  {
    RunHasInv(c, states, ops, n);
    RestartIsExact(c, states[n], docs, events);
  }

  /** Wherever a run is cut off and whatever the scans of the next warmup hide, it loads exactly the
      stored documents if and only if what they find suffices. */
  lemma RunsRecoverExactly(c: Config, states: seq<State>, ops: seq<Op>, n: nat, scans: Scans, docs: seq<RecKey>, events: seq<EventKey>)
    requires IsRun(c, states, ops) && IgnoresAccess(c.charge) && n < |states|
    requires Returned(states[n].store, scans, docs, events)
    ensures Reload(states[n].store, scans, docs, events, c.charge).records == states[n].store.docs <==> Suffices(states[n].store, scans, events)
  {
    var s := states[n];
    RunHasInv(c, states, ops, n);
    StoreIsSound(s);
    ReloadIsIntact(s.store, scans, docs, events, c.charge, s.seqNo, s.clockMs, s.runStart, s.opMs);
  }

  /** In no workspace do stored or resident pinned active records ever exceed the quota. */
  lemma RunsKeepQuota(c: Config, states: seq<State>, ops: seq<Op>, n: nat, ws: Str)
    requires IsRun(c, states, ops) && IgnoresAccess(c.charge) && n < |states|
    ensures |PinnedKeys(states[n].mem.records, ws)| <= c.options.pinQuotaPerWorkspace
    ensures |PinnedKeys(states[n].store.docs, ws)| <= c.options.pinQuotaPerWorkspace
  {
    RunHasInv(c, states, ops, n);
    PinnedKeysSame(states[n].mem.records, states[n].store.docs, ws);
  }

  /** A compaction step that the store does not refuse is a compaction of the resident records. */
  lemma CompactStepCompacts(c: Config, s: State, op: Op, s': State)
    requires Inv(c, s) && op.DoCompact? && op.stored && Step(c, s, op, s')
    ensures CompactsBy(s.mem.records, s'.mem.records, op.ws, op.active, op.tombs, s.seqNo, c.options, op.clock, c.log1p)
  {
    var p := PlanCompact(op.active, op.tombs, s.seqNo, c.options, op.clock);
    ResidentAreSettled(c, s);
    ActedIs(s.mem, p.actions, c.charge);
  }

  // ---- A batch of one save, of which only some rows are stored ----

  lemma StepLogsCkpts(c: Config, s: State, op: Op, s': State)
    requires Inv(c, s) && Step(c, s, op, s') && P.CkptsLogged(s.store)
    ensures P.CkptsLogged(s'.store)
  {
    if Batches(op) && s'.store != s.store {
      BatchIsStamped(c, s, op, s');
      ResidentAreSettled(c, s);
      var actions := BatchOf(c, s, op).0;
      forall i | 0 <= i < |actions| ensures actions[i].record.workspaceId != [] {
        assert WellFormed(actions[i], s.mem.records, op.clock(0));
      }
      P.BatchLogsCkpts(s.store, s.mem.records, actions);
    }
  }

  lemma {:induction false} RunLogsCkpts(c: Config, states: seq<State>, ops: seq<Op>, n: nat)
    requires IsRun(c, states, ops) && IgnoresAccess(c.charge) && n < |states|
    ensures P.CkptsLogged(states[n].store)
  {
    if n > 0 {
      RunLogsCkpts(c, states, ops, n - 1);
      RunHasInv(c, states, ops, n - 1);
      assert Step(c, states[n - 1], ops[n - 1], states[n - 1 + 1]);
      StepLogsCkpts(c, states[n - 1], ops[n - 1], states[n]);
    }
  }

  /** If a run stops while the store takes only some rows of its last operation, a save of one
      record, then the next warmup finds the save if and only if its document was stored, or its
      event was stored without its checkpoint and is newer than the old document. */
  lemma RunsSurvivePartialSave(c: Config, states: seq<State>, ops: seq<Op>, n: nat, op: Op, s': State, kept: P.Kept,
                               docs: seq<RecKey>, events: seq<EventKey>)
    requires IsRun(c, states, ops) && IgnoresAccess(c.charge) && n < |states|
    requires Batches(op) && BatchStep(c, states[n], op, s') && s'.clockMs < UINT64_LIMIT && s'.seqNo < UINT64_LIMIT
    requires |BatchOf(c, states[n], op).0| == 1 && BatchOf(c, states[n], op).0[0].Save?
    requires Returned(P.PartlySaved(states[n].store, BatchOf(c, states[n], op).0[0], kept), ALL_FOUND, docs, events)
    ensures var s, a := states[n].store, BatchOf(c, states[n], op).0[0];
      Reload(P.PartlySaved(s, a, kept), ALL_FOUND, docs, events, c.charge).records
      == if kept.doc || (kept.event && !kept.ckpt && Applies(s.docs, a.record)) then s.docs[KeyOf(a.record) := a.record] else s.docs
  {
    var s, a := states[n], BatchOf(c, states[n], op).0[0];
    RunHasInv(c, states, ops, n);
    RunLogsCkpts(c, states, ops, n);
    StoreIsSound(s);
    BatchIsStamped(c, s, op, s');
    assert WellFormed(a, s.mem.records, op.clock(0));
    P.PartialSaveSurvives(s.store, a, kept, docs, events, c.charge, s.seqNo, s.clockMs, s.runStart, s.opMs);
  }

  // ---- Runs whose operations start at different times ----

  ghost predicate Later(s: State, op: Op) {
    Batches(op) ==> op.clock(0) > s.opMs
  }

  ghost predicate Buried(s: State) {
    G.GravesInv(s.store.docs, s.store.events) && G.LoggedBy(s.store.events, s.opMs)
  }

  lemma StepKeepsBuried(c: Config, s: State, op: Op, s': State)
    requires Inv(c, s) && Step(c, s, op, s') && Later(s, op) && Buried(s)
    ensures Buried(s')
  {
    if Batches(op) && s'.store != s.store {
      var actions := BatchOf(c, s, op).0;
      BatchIsStamped(c, s, op, s');
      ResidentAreSettled(c, s);
      G.BatchKeepsGraves(s.store, s.mem.records, actions, s.opMs, op.clock(0), s.seqNo, s.clockMs, s.runStart, s'.seqNo, s'.clockMs);
    }
  }

  lemma {:induction false} RunIsBuried(c: Config, states: seq<State>, ops: seq<Op>, n: nat)
    requires IsRun(c, states, ops) && IgnoresAccess(c.charge) && n < |states|
    requires forall i :: 0 <= i < |ops| ==> Later(states[i], ops[i])
    ensures Buried(states[n])
  {
    if n > 0 {
      RunIsBuried(c, states, ops, n - 1);
      RunHasInv(c, states, ops, n - 1);
      assert Step(c, states[n - 1], ops[n - 1], states[n - 1 + 1]);
      StepKeepsBuried(c, states[n - 1], ops[n - 1], states[n]);
    }
  }

  /** If every operation starts later than the one before, then even a restart that does not find its
      checkpoints leaves every document as stored, and brings back deleted records only as tombstones. */
  lemma StrictRunsRaiseNoDead(c: Config, states: seq<State>, ops: seq<Op>, n: nat, scans: Scans, docs: seq<RecKey>, events: seq<EventKey>)
    requires IsRun(c, states, ops) && IgnoresAccess(c.charge) && n < |states|
    requires forall i :: 0 <= i < |ops| ==> Later(states[i], ops[i])
    requires Returned(states[n].store, scans, docs, events) && scans.docs.Found?
    ensures G.LaidToRest(states[n].store.docs, states[n].store.events)
    ensures G.RaisesNoDead(states[n].store.docs, Reload(states[n].store, scans, docs, events, c.charge).records)
  {
    var s := states[n];
    RunHasInv(c, states, ops, n);
    RunIsBuried(c, states, ops, n);
    StoreIsSound(s);
    G.GravesRest(s.store.docs, s.store.events);
    ReloadRaisesNoDead(s.store, scans, docs, events, c.charge, s.seqNo, s.clockMs, s.runStart, s.opMs);
  }

  /** In any run, replaying the log in every order over the documents raises no dead if and only if
      the log is laid to rest. */
  lemma RunsRaiseNoDeadExactly(c: Config, states: seq<State>, ops: seq<Op>, n: nat)
    requires IsRun(c, states, ops) && IgnoresAccess(c.charge) && n < |states|
    ensures var s := states[n].store;
      G.LaidToRest(s.docs, s.events) <==> forall ks :: G.IsOrder(ks, s.events) ==> G.OrderIsHarmless(s.docs, s, ks)
  {
    RunHasInv(c, states, ops, n);
    G.ReplayRaisesNoDead(states[n].store.docs, states[n].store);
  }

  // ---- Runs that leave no stray posting rows ----

  /** The batch saves and erases different records, and none over an active document that has been evicted. */
  ghost predicate Tidy(c: Config, s: State, op: Op) {
    Batches(op) ==>
      var actions := BatchOf(c, s, op).0;
      && DistinctKeys(actions)
      && forall a :: a in actions && ActiveDoc(s.store.docs, KeyOf(a.record)) ==> KeyOf(a.record) in s.mem.records
  }

  lemma StepKeepsRowsExact(c: Config, s: State, op: Op, s': State)
    requires Inv(c, s) && Step(c, s, op, s') && Tidy(c, s, op) && NoStray(s.store)
    ensures NoStray(s'.store)
  {
    if Batches(op) && s'.store != s.store {
      var actions := BatchOf(c, s, op).0;
      BatchIsStamped(c, s, op, s');
      ResidentAreSettled(c, s);
      TidyLeavesNothingStale(s.store, s.mem.records, actions, op.clock(0), s.opMs);
      BatchIsExact(s.store, s.mem.records, actions);
    }
  }

  lemma TidyLeavesNothingStale(store: Store, records: map<RecKey, Record>, actions: seq<Action>, opMs: nat, before: nat)
    requires ResidentInv(records, store.docs) && DocsInv(store.docs, before) && WellKeyed(records)
    requires forall i :: 0 <= i < |actions| ==> WellFormed(actions[i], records, opMs)
    requires forall a :: a in actions && ActiveDoc(store.docs, KeyOf(a.record)) ==> KeyOf(a.record) in records
    ensures WellKeyed(store.docs) && forall a :: a in actions ==> NothingStale(store, records, a)
  {
    assert WellKeyed(store.docs) by {
      forall k | k in store.docs ensures KeyOf(store.docs[k]) == k { assert Settled(k, store.docs[k]); }
    }
    forall a | a in actions ensures NothingStale(store, records, a) {
      var i :| 0 <= i < |actions| && actions[i] == a;
      assert WellFormed(actions[i], records, opMs);
      if a.Save? {
        WhenNothingIsStale(store, records, a);
      }
    }
  }

  /** As long as nothing active is overwritten while evicted and no batch repeats a record, the
      posting rows are exactly those of the active documents. */
  lemma {:induction false} TidyRunsKeepRowsExact(c: Config, states: seq<State>, ops: seq<Op>, n: nat)
    requires IsRun(c, states, ops) && IgnoresAccess(c.charge) && n < |states|
    requires forall i :: 0 <= i < |ops| ==> Tidy(c, states[i], ops[i])
    ensures NoStray(states[n].store) && Covers(states[n].store) && VectorsMatch(states[n].store)
  {
    RunHasInv(c, states, ops, n);
    if n > 0 {
      TidyRunsKeepRowsExact(c, states, ops, n - 1);
      RunHasInv(c, states, ops, n - 1);
      assert Step(c, states[n - 1], ops[n - 1], states[n - 1 + 1]);
      StepKeepsRowsExact(c, states[n - 1], ops[n - 1], states[n]);
    }
  }
}
