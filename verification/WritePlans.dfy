/** What Write and Pin decide to store (src/core/memory_engine.cpp:362-482, 596-641), and why no
    workspace ever holds more pinned records than its quota. */
module WritePlans {
  import opened Bytes
  import opened Collections
  import opened EngineModel
  import opened Keys
  import opened Ranking
  import opened Records
  import opened Recovery
  import opened Replay

  datatype WriteRecordInput = WriteRecordInput(
    recordId: Str, source: Str, content: Str, tags: seq<Str>, importance: real, ttlS: nat, pin: bool,
    dedupKey: Str, metadata: seq<(Str, Str)>)

  datatype WriteInput = WriteInput(workspaceId: Str, sessionId: Str, records: seq<WriteRecordInput>, writeMode: Str)

  datatype Warning =
    | WorkspaceRequired
    | RecordsEmpty
    | EmptyContent
    | QuotaExceeded(id: Str)
    | RatioExceeded(id: Str)
    | Oversized(id: Str)
    | StoreFailed

  const APPEND: Str := Lit("append")

  ghost predicate Monotone(clock: nat -> nat) {
    clock(0) > 0 && forall i, j :: i <= j ==> clock(i) <= clock(j)
  }

  // ---- One record of a Write ----

  /** What is decided so far: the actions, the report, the projected counts, and the numbers and
      clock readings used. */
  datatype WritePlan = WritePlan(actions: seq<Action>, storedIds: seq<Str>, dedupedIds: seq<Str>, warnings: seq<Warning>,
                                 active: nat, pinned: nat, seqNo: nat, tick: nat)

  datatype PinDecision = Granted | NotAsked | OverQuota | OverRatio

  function DecidePin(ask: bool, pinned: nat, active: nat, o: Options): (d: PinDecision)
    ensures d.Granted? ==> pinned + 1 <= o.pinQuotaPerWorkspace
  {
    if !ask then NotAsked
    else if pinned + 1 > o.pinQuotaPerWorkspace then OverQuota
    else if IsPinBlockedByRatio(pinned + 1, active + 1, o.maxPinnedRatio) then OverRatio
    else Granted
  }

  function NewRecord(input: WriteInput, rec: WriteRecordInput, id: Str, pinned: bool, nowMs: nat, o: Options): (r: Record)
    ensures KeyOf(r) == (input.workspaceId, id) && r.pinned == pinned && !r.tombstone
    ensures r.updatedAtMs == nowMs && r.lastAccessMs == nowMs && r.version == 1 && r.nodeId == o.nodeId
    ensures r.sizeBytes == ComputeRecordSizeBytes(r) && r.tier == HOT && r.content == rec.content
  {
    var r := Record(
      id, input.workspaceId, if input.sessionId == [] then DEFAULT else input.sessionId, if rec.source == [] then TURN else rec.source,
      rec.content, rec.tags, rec.metadata, rec.dedupKey, pinned, false, nowMs, nowMs, 1, 0, nowMs, 0,
      if rec.importance > 0.0 then rec.importance else 0.0, HOT, o.nodeId,
      if pinned && o.pinTtlOverrideS > 0 then o.pinTtlOverrideS else rec.ttlS,
      Lookup(rec.metadata, Lit("shard_id")), Lookup(rec.metadata, Lit("replica_role")), 0, Lookup(rec.metadata, Lit("shard_hint")));
    r.(sizeBytes := ComputeRecordSizeBytes(r))
  }

  function PinWarnings(d: PinDecision, id: Str): (ws: seq<Warning>) {
    if d.OverQuota? then [QuotaExceeded(id)] else if d.OverRatio? then [RatioExceeded(id)] else []
  }

  function IsDuplicate(dedup: map<(Str, Str), Str>, input: WriteInput, rec: WriteRecordInput): (b: bool) {
    rec.dedupKey != [] && input.writeMode != APPEND && (input.workspaceId, rec.dedupKey) in dedup
  }

  /** A record without an id is given one. */
  function GivenId(p: WritePlan, rec: WriteRecordInput, clock: nat -> nat): (id: Str)
    ensures id != []
  {
    if rec.recordId == [] then NextMemoryId(clock(p.tick), p.seqNo) else rec.recordId
  }

  function Numbered(p: WritePlan, rec: WriteRecordInput): (p': WritePlan) {
    if rec.recordId == [] then p.(seqNo := p.seqNo + 1, tick := p.tick + 1) else p
  }

  /** A record of the input that is neither empty nor a duplicate. */
  function PlanNew(p: WritePlan, input: WriteInput, rec: WriteRecordInput, o: Options, nowMs: nat, clock: nat -> nat): (p': WritePlan) {
    PlanNamed(Numbered(p, rec), input, rec, o, nowMs, clock, GivenId(p, rec, clock))
  }

  function PlanNamed(p: WritePlan, input: WriteInput, rec: WriteRecordInput, o: Options, nowMs: nat, clock: nat -> nat, id: Str)
    : (p': WritePlan)
  {
    var d := DecidePin(rec.pin, p.pinned, p.active, o);
    PlanKept(p.(warnings := p.warnings + PinWarnings(d, id)), NewRecord(input, rec, id, d.Granted?, nowMs, o), o, clock)
  }

  /** A record that is not too large is saved. */
  function PlanKept(p: WritePlan, r: Record, o: Options, clock: nat -> nat): (p': WritePlan) {
    if r.sizeBytes > o.maxRecordBytes then p.(warnings := p.warnings + [Oversized(r.id)])
    else
      p.(actions := p.actions + [Save(r, UpsertOp, Max(r.updatedAtMs, clock(p.tick)), p.seqNo + 1)], storedIds := p.storedIds + [r.id],
         active := p.active + 1, pinned := p.pinned + if r.pinned then 1 else 0, seqNo := p.seqNo + 1, tick := p.tick + 1)
  }

  function PlanStep(p: WritePlan, dedup: map<(Str, Str), Str>, input: WriteInput, rec: WriteRecordInput, o: Options, nowMs: nat,
                    clock: nat -> nat)
    : (p': WritePlan)
  {
    if rec.content == [] then p.(warnings := p.warnings + [EmptyContent])
    else if IsDuplicate(dedup, input, rec) then p.(dedupedIds := p.dedupedIds + [dedup[(input.workspaceId, rec.dedupKey)]])
    else PlanNew(p, input, rec, o, nowMs, clock)
  }

  /** The plan after the first n records; the first clock reading is the time of the operation. */
  function PlanWrite(m: Memory, seqNo: nat, input: WriteInput, n: nat, o: Options, clock: nat -> nat): (p: WritePlan)
    requires n <= |input.records|
  {
    if n == 0 then WritePlan([], [], [], [], |ActiveKeys(m.records, input.workspaceId)|, |PinnedKeys(m.records, input.workspaceId)|, seqNo, 1)
    else PlanStep(PlanWrite(m, seqNo, input, n - 1, o, clock), m.dedup, input, input.records[n - 1], o, clock(0), clock)
  }

  lemma PlanWriteOneMore(m: Memory, seqNo: nat, input: WriteInput, n: nat, o: Options, clock: nat -> nat, p: WritePlan)
    requires n < |input.records| && p == PlanWrite(m, seqNo, input, n, o, clock)
    ensures PlanWrite(m, seqNo, input, n + 1, o, clock) == PlanStep(p, m.dedup, input, input.records[n], o, clock(0), clock)
  {
  }

  // ---- Its actions are a well-stamped batch ----

  predicate IsNew(r: Record, ws: Str, nowMs: nat, o: Options) {
    && r.workspaceId == ws && HasKey(r) && !r.tombstone
    && r.updatedAtMs == nowMs && r.lastAccessMs == nowMs && r.version == 1 && r.nodeId == o.nodeId
    && r.sizeBytes != 0 && r.tier != []
  }

  ghost predicate PlanOk(p: WritePlan, ws: Str, seqNo: nat, o: Options, clock: nat -> nat) {
    && p.tick >= 1 && p.seqNo >= seqNo
    && (forall i :: 0 <= i < |p.actions| ==>
          && p.actions[i].Save? && IsNew(p.actions[i].record, ws, clock(0), o)
          && clock(0) <= p.actions[i].ts <= clock(p.tick) && seqNo < p.actions[i].seqNo <= p.seqNo)
    && (forall i, j :: 0 <= i < j < |p.actions| ==> p.actions[i].ts <= p.actions[j].ts && p.actions[i].seqNo < p.actions[j].seqNo)
  }

  lemma PlanNewOk(p: WritePlan, input: WriteInput, rec: WriteRecordInput, o: Options, seqNo: nat, clock: nat -> nat)
    requires Monotone(clock) && PlanOk(p, input.workspaceId, seqNo, o, clock) && input.workspaceId != []
    ensures PlanOk(PlanNew(p, input, rec, o, clock(0), clock), input.workspaceId, seqNo, o, clock)
  {
    assert clock(p.tick) <= clock(p.tick + 1);
    assert PlanOk(Numbered(p, rec), input.workspaceId, seqNo, o, clock);
    PlanNamedOk(Numbered(p, rec), input, rec, o, seqNo, clock, GivenId(p, rec, clock));
  }

  lemma PlanNamedOk(p: WritePlan, input: WriteInput, rec: WriteRecordInput, o: Options, seqNo: nat, clock: nat -> nat, id: Str)
    requires Monotone(clock) && PlanOk(p, input.workspaceId, seqNo, o, clock) && input.workspaceId != [] && id != []
    ensures PlanOk(PlanNamed(p, input, rec, o, clock(0), clock, id), input.workspaceId, seqNo, o, clock)
  {
    var p' := PlanNamed(p, input, rec, o, clock(0), clock, id);
    assert clock(0) <= clock(p.tick) <= clock(p.tick + 1);
    if |p'.actions| > |p.actions| {
      var a := p'.actions[|p.actions|];
      assert IsNew(a.record, input.workspaceId, clock(0), o);
      assert a.ts == clock(p.tick) && a.seqNo == p.seqNo + 1;
    }
  }

  lemma {:induction false} PlanWriteOk(m: Memory, seqNo: nat, input: WriteInput, n: nat, o: Options, clock: nat -> nat)
    requires n <= |input.records| && Monotone(clock) && input.workspaceId != []
    ensures PlanOk(PlanWrite(m, seqNo, input, n, o, clock), input.workspaceId, seqNo, o, clock)
  {
    if n > 0 {
      PlanWriteOk(m, seqNo, input, n - 1, o, clock);
      var p, rec := PlanWrite(m, seqNo, input, n - 1, o, clock), input.records[n - 1];
      if rec.content != [] && !IsDuplicate(m.dedup, input, rec) { PlanNewOk(p, input, rec, o, seqNo, clock); }
    }
  }

  /** Each record uses at most two numbers, and is stored, reported as a duplicate, or warned about. */
  lemma {:induction false} PlanReports(m: Memory, seqNo: nat, input: WriteInput, n: nat, o: Options, clock: nat -> nat)
    requires n <= |input.records|
    ensures var p := PlanWrite(m, seqNo, input, n, o, clock);
      && seqNo <= p.seqNo <= seqNo + 2 * n
      && |p.storedIds| == |p.actions| && |p.storedIds| + |p.dedupedIds| + |p.warnings| >= n
  {
    if n > 0 {
      PlanReports(m, seqNo, input, n - 1, o, clock);
      StepReports(PlanWrite(m, seqNo, input, n - 1, o, clock), m.dedup, input, input.records[n - 1], o, clock(0), clock);
    }
  }

  lemma StepReports(p: WritePlan, dedup: map<(Str, Str), Str>, input: WriteInput, rec: WriteRecordInput, o: Options, nowMs: nat, clock: nat -> nat)
    ensures var p' := PlanStep(p, dedup, input, rec, o, nowMs, clock);
      && p.seqNo <= p'.seqNo <= p.seqNo + 2 && |p'.storedIds| - |p.storedIds| == |p'.actions| - |p.actions|
      && |p'.storedIds| + |p'.dedupedIds| + |p'.warnings| > |p.storedIds| + |p.dedupedIds| + |p.warnings|
  {
  }

  function Empties(rs: seq<WriteRecordInput>): (n: nat) {
    if rs == [] then 0 else Empties(rs[..|rs| - 1]) + if rs[|rs| - 1].content == [] then 1 else 0
  }

  function Duplicates(dedup: map<(Str, Str), Str>, input: WriteInput, rs: seq<WriteRecordInput>): (n: nat) {
    if rs == [] then 0
    else Duplicates(dedup, input, rs[..|rs| - 1]) + if rs[|rs| - 1].content != [] && IsDuplicate(dedup, input, rs[|rs| - 1]) then 1 else 0
  }

  function CountEmpty(ws: seq<Warning>): (n: nat) {
    if ws == [] then 0 else CountEmpty(ws[..|ws| - 1]) + if ws[|ws| - 1].EmptyContent? then 1 else 0
  }

  function CountOversized(ws: seq<Warning>): (n: nat) {
    if ws == [] then 0 else CountOversized(ws[..|ws| - 1]) + if ws[|ws| - 1].Oversized? then 1 else 0
  }

  lemma CountsAppend(ws: seq<Warning>, w: Warning)
    ensures CountEmpty(ws + [w]) == CountEmpty(ws) + if w.EmptyContent? then 1 else 0
    ensures CountOversized(ws + [w]) == CountOversized(ws) + if w.Oversized? then 1 else 0
  {
    assert (ws + [w])[..|ws|] == ws;
  }

  /** What a step adds to the report. */
  lemma StepReportsOnce(p: WritePlan, dedup: map<(Str, Str), Str>, input: WriteInput, rec: WriteRecordInput, o: Options, nowMs: nat, clock: nat -> nat)
    ensures var p' := PlanStep(p, dedup, input, rec, o, nowMs, clock);
      && CountEmpty(p'.warnings) == CountEmpty(p.warnings) + (if rec.content == [] then 1 else 0)
      && |p'.dedupedIds| == |p.dedupedIds| + (if rec.content != [] && IsDuplicate(dedup, input, rec) then 1 else 0)
      && |p'.storedIds| + CountOversized(p'.warnings)
         == |p.storedIds| + CountOversized(p.warnings) + if rec.content != [] && !IsDuplicate(dedup, input, rec) then 1 else 0
  {
    if rec.content == [] {
      CountsAppend(p.warnings, EmptyContent);
    } else if !IsDuplicate(dedup, input, rec) {
      var id, d := GivenId(p, rec, clock), DecidePin(rec.pin, p.pinned, p.active, o);
      PinWarningsCount(p.warnings, d, id);
      var q := Numbered(p, rec);
      KeptReportsOnce(q.(warnings := q.warnings + PinWarnings(d, id)), NewRecord(input, rec, id, d.Granted?, nowMs, o), o, clock);
    }
  }

  lemma PinWarningsCount(ws: seq<Warning>, d: PinDecision, id: Str)
    ensures CountEmpty(ws + PinWarnings(d, id)) == CountEmpty(ws) && CountOversized(ws + PinWarnings(d, id)) == CountOversized(ws)
  {
    if d.OverQuota? { CountsAppend(ws, QuotaExceeded(id)); }
    else if d.OverRatio? { CountsAppend(ws, RatioExceeded(id)); }
    else { assert ws + [] == ws; }
  }

  lemma KeptReportsOnce(p: WritePlan, r: Record, o: Options, clock: nat -> nat)
    ensures var p' := PlanKept(p, r, o, clock);
      && CountEmpty(p'.warnings) == CountEmpty(p.warnings) && p'.dedupedIds == p.dedupedIds
      && |p'.storedIds| + CountOversized(p'.warnings) == |p.storedIds| + CountOversized(p.warnings) + 1
  {
    CountsAppend(p.warnings, Oversized(r.id));
  }

  /** Each of the first n records is accounted for exactly once: stored, reported as a duplicate, or
      rejected as empty or too large. */
  ghost predicate AccountsFor(p: WritePlan, dedup: map<(Str, Str), Str>, input: WriteInput, n: nat)
    requires n <= |input.records|
  {
    && CountEmpty(p.warnings) == Empties(input.records[..n])
    && |p.dedupedIds| == Duplicates(dedup, input, input.records[..n])
    && |p.storedIds| + |p.dedupedIds| + CountEmpty(p.warnings) + CountOversized(p.warnings) == n
  }

  lemma AccountsForNext(p: WritePlan, dedup: map<(Str, Str), Str>, input: WriteInput, n: nat, o: Options, nowMs: nat, clock: nat -> nat)
    requires 0 < n <= |input.records| && AccountsFor(p, dedup, input, n - 1)
    ensures AccountsFor(PlanStep(p, dedup, input, input.records[n - 1], o, nowMs, clock), dedup, input, n)
  {
    var rec := input.records[n - 1];
    StepReportsOnce(p, dedup, input, rec, o, nowMs, clock);
    CountsNext(dedup, input, n);
  }

  /** A Write accounts for every record of its input. */
  lemma {:induction false} WriteAccountsForAll(m: Memory, seqNo: nat, input: WriteInput, n: nat, o: Options, clock: nat -> nat)
    requires n <= |input.records|
    ensures AccountsFor(PlanWrite(m, seqNo, input, n, o, clock), m.dedup, input, n)
  {
    if n > 0 {
      WriteAccountsForAll(m, seqNo, input, n - 1, o, clock);
      AccountsForNext(PlanWrite(m, seqNo, input, n - 1, o, clock), m.dedup, input, n, o, clock(0), clock);
    }
  }

  lemma CountsNext(dedup: map<(Str, Str), Str>, input: WriteInput, n: nat)
    requires 0 < n <= |input.records|
    ensures var rec, before := input.records[n - 1], input.records[..n - 1];
      && Empties(input.records[..n]) == Empties(before) + (if rec.content == [] then 1 else 0)
      && Duplicates(dedup, input, input.records[..n])
         == Duplicates(dedup, input, before) + if rec.content != [] && IsDuplicate(dedup, input, rec) then 1 else 0
  {
    assert input.records[..n][..n - 1] == input.records[..n - 1];
  }

  /** The stored record is what the input asks for; it is pinned only on request. */
  predicate IsAsAsked(r: Record, rec: WriteRecordInput, input: WriteInput, o: Options) {
    && r.workspaceId == input.workspaceId && (rec.recordId != [] ==> r.id == rec.recordId)
    && r.sessionId == (if input.sessionId == [] then DEFAULT else input.sessionId)
    && r.source == (if rec.source == [] then TURN else rec.source)
    && r.importanceScore == (if rec.importance > 0.0 then rec.importance else 0.0)
    && r.ttlS == (if r.pinned && o.pinTtlOverrideS > 0 then o.pinTtlOverrideS else rec.ttlS)
    && r.content == rec.content != [] && r.tags == rec.tags && r.metadata == rec.metadata && r.dedupKey == rec.dedupKey
    && (r.pinned ==> rec.pin) && r.sizeBytes == ComputeRecordSizeBytes(r) <= o.maxRecordBytes
  }

  /** Everything stored was asked for, in the order of the input, and is not a known duplicate: the
      i-th action is what the j-th record adds to the i actions of the records before it. */
  lemma {:induction false} StoredAsAsked(m: Memory, seqNo: nat, input: WriteInput, n: nat, o: Options, clock: nat -> nat, i: nat)
    returns (j: nat)
    requires n <= |input.records| && i < |PlanWrite(m, seqNo, input, n, o, clock).actions|
    ensures j < n && !IsDuplicate(m.dedup, input, input.records[j])
    ensures |PlanWrite(m, seqNo, input, j, o, clock).actions| == i < |PlanWrite(m, seqNo, input, j + 1, o, clock).actions|
    ensures IsAsAsked(PlanWrite(m, seqNo, input, n, o, clock).actions[i].record, input.records[j], input, o)
  {
    var p, rec := PlanWrite(m, seqNo, input, n - 1, o, clock), input.records[n - 1];
    var q := PlanStep(p, m.dedup, input, rec, o, clock(0), clock);
    assert PlanWrite(m, seqNo, input, n, o, clock) == q;
    ActionsGrow(p, m.dedup, input, rec, o, clock(0), clock);
    if i < |p.actions| {
      j := StoredAsAsked(m, seqNo, input, n - 1, o, clock, i);
      assert q.actions[i] == p.actions[i];
    } else {
      j := n - 1;
      LastIsAsAsked(p, m.dedup, input, rec, o, clock(0), clock);
    }
  }

  lemma ActionsGrow(p: WritePlan, dedup: map<(Str, Str), Str>, input: WriteInput, rec: WriteRecordInput, o: Options, nowMs: nat, clock: nat -> nat)
    ensures |PlanStep(p, dedup, input, rec, o, nowMs, clock).actions| <= |p.actions| + 1
    ensures p.actions <= PlanStep(p, dedup, input, rec, o, nowMs, clock).actions
  {
  }

  lemma LastIsAsAsked(p: WritePlan, dedup: map<(Str, Str), Str>, input: WriteInput, rec: WriteRecordInput, o: Options, nowMs: nat, clock: nat -> nat)
    ensures var p' := PlanStep(p, dedup, input, rec, o, nowMs, clock);
      |p'.actions| > |p.actions| ==>
        && |p'.actions| == |p.actions| + 1 && !IsDuplicate(dedup, input, rec)
        && IsAsAsked(p'.actions[|p.actions|].record, rec, input, o)
  {
  }

  /** The actions of a Write are a well-stamped batch, whatever ids its records repeat. */
  lemma PlanIsStamped(p: WritePlan, resident: map<RecKey, Record>, ws: Str, seqNo: nat, o: Options, clock: nat -> nat)
    requires PlanOk(p, ws, seqNo, o, clock) && Monotone(clock)
    ensures Stamped(p.actions, resident, clock(0), seqNo, p.seqNo, clock(p.tick))
  {
    forall i | 0 <= i < |p.actions| ensures WellFormed(p.actions[i], resident, clock(0)) {
      assert IsNew(p.actions[i].record, ws, clock(0), o);
    }
    forall i, j | 0 <= i < j < |p.actions| ensures MayRepeat(p.actions[i], p.actions[j]) {
      assert IsNew(p.actions[i].record, ws, clock(0), o) && IsNew(p.actions[j].record, ws, clock(0), o);
    }
  }

  // ---- The pin quota ----

  ghost predicate WithinQuota(records: map<RecKey, Record>, quota: nat) {
    forall ws: Str :: |PinnedKeys(records, ws)| <= quota
  }

  /** Saving a record adds at most one pinned record, to its own workspace, and only if it is pinned. */
  lemma PinnedAfterSave(records: map<RecKey, Record>, r: Record, ws: Str)
    ensures |PinnedKeys(records[KeyOf(r) := r], ws)|
         <= |PinnedKeys(records, ws)| + if r.workspaceId == ws && r.pinned && !r.tombstone then 1 else 0
  {
    var added := if r.workspaceId == ws && r.pinned && !r.tombstone then {KeyOf(r)} else {};
    assert PinnedKeys(records[KeyOf(r) := r], ws) <= PinnedKeys(records, ws) + added;
    SubsetSize(PinnedKeys(records[KeyOf(r) := r], ws), PinnedKeys(records, ws) + added);
  }

  /** Saving over a record that is pinned and active already adds none. */
  lemma PinnedAfterResave(records: map<RecKey, Record>, r: Record, ws: Str)
    requires KeyOf(r) in records && records[KeyOf(r)].workspaceId == r.workspaceId && records[KeyOf(r)].pinned
    requires !r.tombstone ==> !records[KeyOf(r)].tombstone
    ensures |PinnedKeys(records[KeyOf(r) := r], ws)| <= |PinnedKeys(records, ws)|
  {
    assert PinnedKeys(records[KeyOf(r) := r], ws) <= PinnedKeys(records, ws);
    SubsetSize(PinnedKeys(records[KeyOf(r) := r], ws), PinnedKeys(records, ws));
  }

  lemma PinnedAfterDrop(records: map<RecKey, Record>, records': map<RecKey, Record>, ws: Str)
    requires forall k :: k in records' ==> k in records && records'[k] == records[k]
    ensures |PinnedKeys(records', ws)| <= |PinnedKeys(records, ws)|
  {
    assert PinnedKeys(records', ws) <= PinnedKeys(records, ws);
    SubsetSize(PinnedKeys(records', ws), PinnedKeys(records, ws));
  }

  /** The projected count bounds the pinned records of the input's workspace, and the quota those of the others. */
  ghost predicate PinsFit(p: WritePlan, m: Memory, target: Str, quota: nat, charge: Record -> nat, ws: Str) {
    && |PinnedKeys(ActMemAll(m, p.actions, charge).records, ws)| <= (if ws == target then p.pinned else quota)
    && p.pinned <= quota
  }

  lemma PlanNamedPins(p: WritePlan, input: WriteInput, rec: WriteRecordInput, o: Options, nowMs: nat, clock: nat -> nat, id: Str,
                      m: Memory, charge: Record -> nat, ws: Str)
    requires PinsFit(p, m, input.workspaceId, o.pinQuotaPerWorkspace, charge, ws)
    ensures PinsFit(PlanNamed(p, input, rec, o, nowMs, clock, id), m, input.workspaceId, o.pinQuotaPerWorkspace, charge, ws)
  {
    var p' := PlanNamed(p, input, rec, o, nowMs, clock, id);
    if |p'.actions| > |p.actions| {
      var n := |p.actions|;
      assert p'.actions[..n] == p.actions;
      ActMemRecords(ActMemAll(m, p.actions, charge), p'.actions[n], charge);
      PinnedAfterSave(ActMemAll(m, p.actions, charge).records, p'.actions[n].record, ws);
    }
  }

  /** A record that is not stored leaves the actions and the projected count alone. */
  lemma PlanStepPins(p: WritePlan, dedup: map<(Str, Str), Str>, input: WriteInput, rec: WriteRecordInput, o: Options, clock: nat -> nat,
                     m: Memory, charge: Record -> nat, ws: Str)
    requires PinsFit(p, m, input.workspaceId, o.pinQuotaPerWorkspace, charge, ws)
    ensures PinsFit(PlanStep(p, dedup, input, rec, o, clock(0), clock), m, input.workspaceId, o.pinQuotaPerWorkspace, charge, ws)
  {
    if rec.content != [] && !IsDuplicate(dedup, input, rec) {
      PlanNamedPins(Numbered(p, rec), input, rec, o, clock(0), clock, GivenId(p, rec, clock), m, charge, ws);
    }
  }

  lemma {:induction false} PlanWritePins(m: Memory, seqNo: nat, input: WriteInput, n: nat, o: Options, clock: nat -> nat,
                                         charge: Record -> nat, ws: Str)
    requires n <= |input.records| && WithinQuota(m.records, o.pinQuotaPerWorkspace)
    ensures PinsFit(PlanWrite(m, seqNo, input, n, o, clock), m, input.workspaceId, o.pinQuotaPerWorkspace, charge, ws)
  {
    if n > 0 {
      PlanWritePins(m, seqNo, input, n - 1, o, clock, charge, ws);
      PlanStepPins(PlanWrite(m, seqNo, input, n - 1, o, clock), m.dedup, input, input.records[n - 1], o, clock, m, charge, ws);
    }
  }

  /** A Write keeps every workspace within its quota, even when it overwrites or repeats records. */
  lemma WriteKeepsQuota(m: Memory, seqNo: nat, input: WriteInput, o: Options, clock: nat -> nat, charge: Record -> nat)
    requires WithinQuota(m.records, o.pinQuotaPerWorkspace)
    ensures WithinQuota(ActMemAll(m, PlanWrite(m, seqNo, input, |input.records|, o, clock).actions, charge).records, o.pinQuotaPerWorkspace)
  {
    forall ws: Str
      ensures |PinnedKeys(ActMemAll(m, PlanWrite(m, seqNo, input, |input.records|, o, clock).actions, charge).records, ws)|
           <= o.pinQuotaPerWorkspace
    {
      PlanWritePins(m, seqNo, input, |input.records|, o, clock, charge, ws);
    }
  }

  // ---- Pin ----

  /** Pinning a record that is not pinned must fit the quota and the ratio. */
  predicate PinAllowed(m: Memory, ws: Str, r: Record, pin: bool, o: Options) {
    pin && !r.pinned ==> DecidePin(true, |PinnedKeys(m.records, ws)|, |ActiveKeys(m.records, ws)|, o).Granted?
  }

  function Repinned(r: Record, pin: bool, nowMs: nat, o: Options): (r': Record)
    ensures KeyOf(r') == KeyOf(r) && r'.pinned == pin && r'.tombstone == r.tombstone && r'.content == r.content
    ensures r'.updatedAtMs == nowMs && r'.version == r.version + 1 && r'.nodeId == o.nodeId
    ensures r'.sizeBytes > 0 && r'.lastAccessMs == r.lastAccessMs && r'.tier == r.tier
  {
    var r' := r.(pinned := pin, updatedAtMs := nowMs, version := r.version + 1, nodeId := o.nodeId,
                 importanceScore := if pin then 100.0 else if r.importanceScore < 5.0 then r.importanceScore else 5.0,
                 ttlS := if pin && o.pinTtlOverrideS > 0 then o.pinTtlOverrideS else r.ttlS);
    var sized := r.(pinned := pin, updatedAtMs := nowMs, version := r.version + 1,
                    importanceScore := r'.importanceScore, ttlS := r'.ttlS);
    r'.(sizeBytes := ComputeRecordSizeBytes(sized))
  }

  /** The size is taken before the node id is replaced, so it is right exactly if that keeps its length. */
  lemma RepinnedSize(r: Record, pin: bool, nowMs: nat, o: Options)
    ensures Repinned(r, pin, nowMs, o).sizeBytes == ComputeRecordSizeBytes(Repinned(r, pin, nowMs, o)) <==> |r.nodeId| == |o.nodeId|
  {
  }

  function PinAction(r: Record, pin: bool, seqNo: nat, clock: nat -> nat, o: Options): (a: Action) {
    Save(Repinned(r, pin, clock(0), o), PinOp, Max(clock(0), clock(1)), seqNo + 1)
  }

  /** The record under a key: the resident one, or else the stored one. */
  ghost predicate IsCurrent(r: Record, k: RecKey, records: map<RecKey, Record>, docs: map<RecKey, Record>) {
    if k in records then r == records[k] else k in docs && r == docs[k]
  }

  lemma PinIsStamped(r: Record, pin: bool, resident: map<RecKey, Record>, seqNo: nat, clock: nat -> nat, o: Options)
    requires Monotone(clock) && Settled(KeyOf(r), r) && r.lastAccessMs > 0
    ensures Stamped([PinAction(r, pin, seqNo, clock, o)], resident, clock(0), seqNo, seqNo + 1, clock(2))
  {
    assert clock(0) <= clock(1) <= clock(2);
    assert Settled(KeyOf(r), Repinned(r, pin, clock(0), o));
  }

  /** A Pin keeps every workspace within its quota. A record that is already pinned passes unchecked;
      it is resident, so it is counted already. */
  lemma PinKeepsQuota(m: Memory, docs: map<RecKey, Record>, r: Record, pin: bool, nowMs: nat, o: Options)
    requires WithinQuota(m.records, o.pinQuotaPerWorkspace) && PinnedResident(m.records, docs)
    requires IsCurrent(r, KeyOf(r), m.records, docs) && PinAllowed(m, r.workspaceId, r, pin, o)
    ensures WithinQuota(m.records[KeyOf(r) := Repinned(r, pin, nowMs, o)], o.pinQuotaPerWorkspace)
  {
    var r' := Repinned(r, pin, nowMs, o);
    var records' := m.records[KeyOf(r) := r'];
    forall ws: Str ensures |PinnedKeys(records', ws)| <= o.pinQuotaPerWorkspace {
      if r.pinned { PinnedAfterResave(m.records, r', ws); } else { PinnedAfterSave(m.records, r', ws); }
    }
  }
}
