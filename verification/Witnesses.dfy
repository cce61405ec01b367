/** Runs of the engine that show where the conditions of other modules are needed: a deleted record
    that comes back, and a posting row that is left behind (src/core/memory_engine.cpp). */
module Witnesses {
  import opened Bytes
  import opened Collections
  import opened Compaction
  import opened EngineModel
  import opened EngineRuns
  import opened Eviction
  import opened Keys
  import opened Postings
  import opened Records
  import opened Recovery
  import opened Replay
  import opened Restarts
  import opened StoreScans
  import opened Tokenizer
  import opened WritePlans

  // ---- Operations that do one thing ----

  /** Every reading of the clock is the same. */
  function Still(t: nat): (clock: nat -> nat) {
    (i: nat) => t
  }

  lemma StillReads(t: nat)
    requires t > 0
    ensures Monotone(Still(t)) && forall i :: Still(t)(i) == t
  {
  }

  function Rec(id: Str, content: Str): (rec: WriteRecordInput) {
    WriteRecordInput(id, [], content, [], 0.0, 0, false, [], [])
  }

  function Input(ws: Str, id: Str, content: Str): (input: WriteInput) {
    WriteInput(ws, [], [Rec(id, content)], [])
  }

  /** The record that writing this content makes. */
  function Written(c: Config, ws: Str, id: Str, content: Str, t: nat): (r: Record) {
    NewRecord(Input(ws, id, content), Rec(id, content), id, false, t, c.options)
  }

  function After(s: State, a: Action, t: nat, m: Memory): (s': State) {
    State(Act(s.store, s.mem.records, a), m, a.seqNo, t, s.runStart, t)
  }

  ghost predicate Fits(s: State, t: nat) {
    0 < t && s.clockMs <= t < UINT64_LIMIT && s.seqNo + 1 < UINT64_LIMIT
  }

  /** The operation asks the store for this one action. */
  ghost function Asks(c: Config, s: State, op: Op, a: Action): Verdict
    requires Batches(op)
  {
    Judge(BatchOf(c, s, op).0 == [a] && BatchOf(c, s, op).1 == s.seqNo + 1 == a.seqNo)
  }

  lemma OneAction(c: Config, s: State, a: Action)
    ensures ActAll(s.store, s.mem.records, [a]) == Act(s.store, s.mem.records, a)
    ensures ActMemAll(s.mem, [a], c.charge) == ActMem(s.mem, a, c.charge)
  {
    assert [a][..0] == [];
  }

  lemma OneActionStep(c: Config, s: State, op: Op, a: Action, t: nat, m: Memory)
    requires Batches(op) && op.stored && op.clock == Still(t) && Fits(s, t)
    requires Asks(c, s, op, a) == Yes
    requires op.DoCompact? ==> TakenInOrder(op.active, op.tombs, s.mem.records, op.ws, t, c.log1p) && m == ActMem(s.mem, a, c.charge)
    requires !op.DoCompact? ==> Enforced(ActMem(s.mem, a, c.charge), m, Limit(c), {}, op.clock, 0, c.log1p)
    ensures Step(c, s, op, After(s, a, t, m))
  {
    OneAction(c, s, a);
    assert Committed(c, s.store, s.mem, [a], true, !op.DoCompact?, op.clock, Act(s.store, s.mem.records, a), m);
    StillReads(t);
    assert BatchStep(c, s, op, After(s, a, t, m));
  }

  lemma WriteDoesOneThing(c: Config, s: State, ws: Str, id: Str, content: Str, t: nat)
    requires ws != [] && id != [] && content != [] && Written(c, ws, id, content, t).sizeBytes <= c.options.maxRecordBytes
    ensures Asks(c, s, DoWrite(Input(ws, id, content), Still(t), true), Save(Written(c, ws, id, content, t), UpsertOp, t, s.seqNo + 1)) == Yes
  {
    var p := PlanWrite(s.mem, s.seqNo, Input(ws, id, content), 0, c.options, Still(t));
    assert PlanWrite(s.mem, s.seqNo, Input(ws, id, content), 1, c.options, Still(t))
        == PlanNamed(p, Input(ws, id, content), Rec(id, content), c.options, t, Still(t), id);
  }

  // ---- A deleted record that comes back ----

  /** Nothing is evicted or kept back, and one record may be pinned. */
  predicate Permits(o: Options, age: nat) {
    o.memBudgetMb == 0 && o.enableTombstoneGc && o.tombstoneRetentionMs <= age && o.pinQuotaPerWorkspace >= 1 && o.maxPinnedRatio >= 1.0
  }

  /** Only one record is resident; it is stored as well. */
  ghost predicate HoldsOnly(s: State, k: RecKey, r: Record) {
    s.mem.records == map[k := r] && s.store.docs == map[k := r] && KeyOf(r) == k
  }

  lemma SaveOne(c: Config, s: State, op: Op, r: Record, kind: OpType, t: nat) returns (s': State)
    requires Batches(op) && op.stored && op.clock == Still(t) && Fits(s, t) && Limit(c) == 0 && HasKey(r)
    requires Asks(c, s, op, Save(r, kind, t, s.seqNo + 1)) == Yes
    requires op.DoCompact? ==> TakenInOrder(op.active, op.tombs, s.mem.records, op.ws, t, c.log1p)
    requires s.mem.records.Keys <= {KeyOf(r)} && s.store.docs.Keys <= {KeyOf(r)}
    ensures StepTaken(c, s, op, s') == Yes && HoldsOnly(s', KeyOf(r), r) && s'.seqNo == s.seqNo + 1 && s'.clockMs == t
    ensures s'.store.events == s.store.events[EventKey(r.workspaceId, t, s.seqNo + 1) := EventOf(Save(r, kind, t, s.seqNo + 1))]
  {
    var a := Save(r, kind, t, s.seqNo + 1);
    var m := ActMem(s.mem, a, c.charge);
    s' := After(s, a, t, m);
    OneActionStep(c, s, op, a, t, m);
    SavedOne(c, s, a);
  }

  lemma SavedOne(c: Config, s: State, a: Action)
    requires a.Save? && s.mem.records.Keys <= {KeyOf(a.record)} && s.store.docs.Keys <= {KeyOf(a.record)}
    ensures ActMem(s.mem, a, c.charge).records == map[KeyOf(a.record) := a.record]
    ensures Act(s.store, s.mem.records, a).docs == map[KeyOf(a.record) := a.record]
    ensures Act(s.store, s.mem.records, a).events == s.store.events[EventKeyOf(a) := EventOf(a)]
  {
    ActParts(s.store, s.mem.records, a);
    ActMemRecords(s.mem, a, c.charge);
    PutOnly(s.mem.records, KeyOf(a.record), a.record);
    PutOnly(s.store.docs, KeyOf(a.record), a.record);
  }

  lemma PutOnly<K, V>(m: map<K, V>, k: K, v: V)
    requires m.Keys <= {k}
    ensures m[k := v] == map[k := v]
  {
  }

  lemma PinDoesOneThing(c: Config, s: State, k: RecKey, r: Record, t: nat)
    requires HoldsOnly(s, k, r) && !r.pinned && c.options.pinQuotaPerWorkspace >= 1 && c.options.maxPinnedRatio >= 1.0
    ensures Asks(c, s, DoPin(k, true, Still(t), true), Save(Repinned(r, true, t, c.options), PinOp, t, s.seqNo + 1)) == Yes
  {
    assert PinnedKeys(s.mem.records, k.0) == {};
  }

  lemma CompactDoesOneThing(c: Config, s: State, k: RecKey, r: Record, t: nat)
    requires HoldsOnly(s, k, r) && !r.pinned && !r.tombstone
    ensures TakenInOrder([r], [], s.mem.records, [], t, c.log1p)
    ensures Asks(c, s, DoCompact([], [r], [], Still(t), true), Save(TombOf(r, t, c.options), DeleteOp, t, s.seqNo + 1)) == Yes
  {
    assert [r][..0] == [];
    var start := CompactPlan([], 0, 0, s.seqNo, 1);
    assert PlanTombs(start, [r], c.options, t, Still(t)) == PlanTomb(start, r, c.options, t, Still(t));
  }

  lemma EraseDoesOneThing(c: Config, s: State, k: RecKey, r: Record, t: nat)
    requires HoldsOnly(s, k, r) && r.tombstone && r.updatedAtMs <= t && Permits(c.options, t - r.updatedAtMs)
    ensures TakenInOrder([], [r], s.mem.records, [], t, c.log1p)
    ensures Asks(c, s, DoCompact([], [], [r], Still(t), true), Erase(r, t, s.seqNo + 1)) == Yes
  {
    assert [r][..0] == [];
    var start := CompactPlan([], 0, 0, s.seqNo, 1);
    assert PlanErases(start, [r], c.options, t, Still(t)) == PlanErase(start, r, c.options, t, Still(t));
  }

  /** Write, pin, write again and turn into a tombstone, all in one millisecond, and delete as soon as
      the retention allows. */
  function ScriptOps(c: Config, input: WriteInput, w: Record, t: nat, later: nat): (ops: seq<Op>) {
    [DoWrite(input, Still(t), true), DoPin(KeyOf(w), true, Still(t), true), DoWrite(input, Still(t), true),
     DoCompact([], [w], [], Still(t), true), DoCompact([], [], [TombOf(w, t, c.options)], Still(later), true)]
  }

  function ScriptRecords(c: Config, w: Record, t: nat): (rs: seq<Record>) {
    var tomb := TombOf(w, t, c.options);
    [w, Repinned(w, true, t, c.options), w, tomb, tomb]
  }

  function ScriptKeys(w: Record, t: nat, later: nat): (ks: seq<EventKey>) {
    var ws := w.workspaceId;
    [EventKey(ws, t, 1), EventKey(ws, t, 2), EventKey(ws, t, 3), EventKey(ws, t, 4), EventKey(ws, later, 5)]
  }

  function ScriptLog(c: Config, w: Record, t: nat, later: nat): (es: seq<Event>) {
    var rs := ScriptRecords(c, w, t);
    [EventOf(Save(rs[0], UpsertOp, t, 1)), EventOf(Save(rs[1], PinOp, t, 2)), EventOf(Save(rs[2], UpsertOp, t, 3)),
     EventOf(Save(rs[3], DeleteOp, t, 4)), EventOf(Erase(rs[4], later, 5))]
  }

  /** The first n events, each under the key with its number. */
  function LogOf(ks: seq<EventKey>, es: seq<Event>, n: nat): (events: map<EventKey, Event>)
    requires n <= |ks|
  {
    map k | k in ks[..n] && 1 <= k.seqNo <= |es| :: es[k.seqNo - 1]
  }

  lemma LogGrows(ks: seq<EventKey>, es: seq<Event>, n: nat)
    requires n < |ks| == |es| && forall i :: 0 <= i < |ks| ==> ks[i].seqNo == i + 1
    ensures LogOf(ks, es, n)[ks[n] := es[n]] == LogOf(ks, es, n + 1)
  {
    assert ks[..n + 1] == ks[..n] + [ks[n]];
  }

  lemma EraseOne(c: Config, s: State, r: Record, t: nat) returns (s': State)
    requires Fits(s, t) && HoldsOnly(s, KeyOf(r), r) && HasKey(r)
    requires r.tombstone && r.updatedAtMs <= t && Permits(c.options, t - r.updatedAtMs)
    ensures StepTaken(c, s, DoCompact([], [], [r], Still(t), true), s') == Yes && s'.store.docs == map[] && s'.seqNo == s.seqNo + 1
    ensures s'.store.events == s.store.events[EventKey(r.workspaceId, t, s.seqNo + 1) := EventOf(Erase(r, t, s.seqNo + 1))]
  {
    var a := Erase(r, t, s.seqNo + 1);
    var m := ActMem(s.mem, a, c.charge);
    s' := After(s, a, t, m);
    EraseDoesOneThing(c, s, KeyOf(r), r, t);
    OneActionStep(c, s, DoCompact([], [], [r], Still(t), true), a, t, m);
    ActParts(s.store, s.mem.records, a);
  }

  /** So far the log holds the first n of these events. */
  ghost function Played(s: State, ks: seq<EventKey>, es: seq<Event>, n: nat): Verdict
    requires n <= |ks|
  {
    Judge(s.seqNo == n && s.store.events == LogOf(ks, es, n))
  }

  lemma PlayNext(s: State, s': State, ks: seq<EventKey>, es: seq<Event>, n: nat)
    requires n < |ks| == |es| && forall i :: 0 <= i < |ks| ==> ks[i].seqNo == i + 1
    requires Played(s, ks, es, n) == Yes && s'.seqNo == n + 1 && s'.store.events == s.store.events[ks[n] := es[n]]
    ensures Played(s', ks, es, n + 1) == Yes
  {
    LogGrows(ks, es, n);
  }

  function Start(t: nat): (s: State) {
    State(EMPTY_STORE, EMPTY_MEMORY, 0, t, t, 0)
  }

  lemma StartsPlayed(t: nat, ks: seq<EventKey>, es: seq<Event>)
    requires t < UINT64_LIMIT
    ensures Init(Start(t)) && Played(Start(t), ks, es, 0) == Yes
  {
  }

  /** What writing this content does, in any state. */
  ghost predicate Writes(c: Config, input: WriteInput, w: Record, t: nat) {
    && HasKey(w) && !w.pinned && !w.tombstone && w.updatedAtMs == t
    && forall s: State :: Asks(c, s, DoWrite(input, Still(t), true), Save(w, UpsertOp, t, s.seqNo + 1)) == Yes
  }

  lemma WritesWritten(c: Config, ws: Str, id: Str, content: Str, t: nat)
    requires ws != [] && id != [] && content != [] && Written(c, ws, id, content, t).sizeBytes <= c.options.maxRecordBytes
    ensures Writes(c, Input(ws, id, content), Written(c, ws, id, content, t), t)
  {
    forall s: State
      ensures Asks(c, s, DoWrite(Input(ws, id, content), Still(t), true), Save(Written(c, ws, id, content, t), UpsertOp, t, s.seqNo + 1)) == Yes
    {
      WriteDoesOneThing(c, s, ws, id, content, t);
    }
  }

  /** An operation that saves one record plays the next event. */
  lemma PlaySave(c: Config, s: State, op: Op, r: Record, kind: OpType, t: nat, ks: seq<EventKey>, es: seq<Event>) returns (s': State)
    requires Batches(op) && op.stored && op.clock == Still(t) && Fits(s, t) && Limit(c) == 0 && HasKey(r)
    requires Asks(c, s, op, Save(r, kind, t, s.seqNo + 1)) == Yes
    requires op.DoCompact? ==> TakenInOrder(op.active, op.tombs, s.mem.records, op.ws, t, c.log1p)
    requires s.mem.records.Keys <= {KeyOf(r)} && s.store.docs.Keys <= {KeyOf(r)}
    requires s.seqNo < |ks| == |es| && forall i :: 0 <= i < |ks| ==> ks[i].seqNo == i + 1
    requires ks[s.seqNo] == EventKey(r.workspaceId, t, s.seqNo + 1) && es[s.seqNo] == EventOf(Save(r, kind, t, s.seqNo + 1))
    requires Played(s, ks, es, s.seqNo) == Yes
    ensures StepTaken(c, s, op, s') == Yes && HoldsOnly(s', KeyOf(r), r) && s'.clockMs == t
    ensures s'.seqNo == s.seqNo + 1 && Played(s', ks, es, s.seqNo + 1) == Yes
  {
    s' := SaveOne(c, s, op, r, kind, t);
    PlayNext(s, s', ks, es, s.seqNo);
  }

  /** The keys and events of the script. */
  ghost function Scripted(c: Config, w: Record, t: nat, later: nat, ks: seq<EventKey>, es: seq<Event>): Verdict {
    Judge(ks == ScriptKeys(w, t, later) && es == ScriptLog(c, w, t, later))
  }

  lemma ScriptIsNumbered(c: Config, w: Record, t: nat, later: nat, ks: seq<EventKey>, es: seq<Event>)
    requires Scripted(c, w, t, later, ks, es) == Yes
    ensures |ks| == |es| == 5 && forall i :: 0 <= i < |ks| ==> ks[i].seqNo == i + 1
  {
  }

  lemma FirstScripted(c: Config, w: Record, t: nat, later: nat, ks: seq<EventKey>, es: seq<Event>)
    requires Scripted(c, w, t, later, ks, es) == Yes
    ensures |ks| == |es| == 5
    ensures ks[0] == EventKey(w.workspaceId, t, 1) && es[0] == EventOf(Save(w, UpsertOp, t, 1))
    ensures ks[1] == EventKey(w.workspaceId, t, 2) && es[1] == EventOf(Save(Repinned(w, true, t, c.options), PinOp, t, 2))
  {
  }

  lemma NextScripted(c: Config, w: Record, t: nat, later: nat, ks: seq<EventKey>, es: seq<Event>)
    requires Scripted(c, w, t, later, ks, es) == Yes
    ensures |ks| == |es| == 5
    ensures ks[2] == EventKey(w.workspaceId, t, 3) && es[2] == EventOf(Save(w, UpsertOp, t, 3))
    ensures ks[3] == EventKey(w.workspaceId, t, 4) && es[3] == EventOf(Save(TombOf(w, t, c.options), DeleteOp, t, 4))
  {
  }

  lemma LastScripted(c: Config, w: Record, t: nat, later: nat, ks: seq<EventKey>, es: seq<Event>)
    requires Scripted(c, w, t, later, ks, es) == Yes
    ensures |ks| == |es| == 5
    ensures ks[4] == EventKey(w.workspaceId, later, 5) && es[4] == EventOf(Erase(TombOf(w, t, c.options), later, 5))
  {
  }

  /** Write, then pin. */
  lemma PlayWritten(c: Config, input: WriteInput, w: Record, t: nat, later: nat, ks: seq<EventKey>, es: seq<Event>) returns (s1: State)
    requires Writes(c, input, w, t) && 0 < t < UINT64_LIMIT && t <= later && Permits(c.options, later - t)
    requires Scripted(c, w, t, later, ks, es) == Yes && |ks| == |es| == 5
    ensures StepTaken(c, Start(t), DoWrite(input, Still(t), true), s1) == Yes
    ensures HoldsOnly(s1, KeyOf(w), w) && Played(s1, ks, es, 1) == Yes && s1.seqNo == 1 && s1.clockMs == t
  {
    StartsPlayed(t, ks, es);
    ScriptIsNumbered(c, w, t, later, ks, es);
    FirstScripted(c, w, t, later, ks, es);
    s1 := PlaySave(c, Start(t), DoWrite(input, Still(t), true), w, UpsertOp, t, ks, es);
  }

  lemma PlayPinned(c: Config, s1: State, w: Record, t: nat, later: nat, ks: seq<EventKey>, es: seq<Event>) returns (s2: State)
    requires HasKey(w) && !w.pinned && 0 < t < UINT64_LIMIT && t <= later && Permits(c.options, later - t)
    requires Scripted(c, w, t, later, ks, es) == Yes && |ks| == |es| == 5
    requires HoldsOnly(s1, KeyOf(w), w) && Played(s1, ks, es, 1) == Yes && s1.seqNo == 1 && s1.clockMs == t
    ensures StepTaken(c, s1, DoPin(KeyOf(w), true, Still(t), true), s2) == Yes
    ensures Played(s2, ks, es, 2) == Yes && s2.seqNo == 2 && s2.clockMs == t
    ensures HoldsOnly(s2, KeyOf(w), Repinned(w, true, t, c.options))
  {
    ScriptIsNumbered(c, w, t, later, ks, es);
    FirstScripted(c, w, t, later, ks, es);
    PinDoesOneThing(c, s1, KeyOf(w), w, t);
    s2 := PlaySave(c, s1, DoPin(KeyOf(w), true, Still(t), true), Repinned(w, true, t, c.options), PinOp, t, ks, es);
  }

  /** Write again, then turn into a tombstone. */
  lemma PlayBuried(c: Config, s: State, input: WriteInput, w: Record, t: nat, later: nat, ks: seq<EventKey>, es: seq<Event>)
    returns (s3: State, s4: State)
    requires Writes(c, input, w, t) && 0 < t < UINT64_LIMIT && t <= later && Permits(c.options, later - t)
    requires Scripted(c, w, t, later, ks, es) == Yes && |ks| == |es| == 5 && Played(s, ks, es, 2) == Yes && s.seqNo == 2 && s.clockMs == t
    requires HoldsOnly(s, KeyOf(w), Repinned(w, true, t, c.options))
    ensures StepTaken(c, s, DoWrite(input, Still(t), true), s3) == Yes
    ensures StepTaken(c, s3, DoCompact([], [w], [], Still(t), true), s4) == Yes
    ensures Played(s4, ks, es, 4) == Yes && s4.seqNo == 4 && s4.clockMs == t && HoldsOnly(s4, KeyOf(w), TombOf(w, t, c.options))
  {
    ScriptIsNumbered(c, w, t, later, ks, es);
    NextScripted(c, w, t, later, ks, es);
    s3 := PlaySave(c, s, DoWrite(input, Still(t), true), w, UpsertOp, t, ks, es);
    CompactDoesOneThing(c, s3, KeyOf(w), w, t);
    s4 := PlaySave(c, s3, DoCompact([], [w], [], Still(t), true), TombOf(w, t, c.options), DeleteOp, t, ks, es);
  }

  lemma PlayErased(c: Config, s: State, w: Record, t: nat, later: nat, ks: seq<EventKey>, es: seq<Event>) returns (s5: State)
    requires 0 < t <= later < UINT64_LIMIT && Permits(c.options, later - t) && HasKey(w)
    requires Scripted(c, w, t, later, ks, es) == Yes && |ks| == |es| == 5 && Played(s, ks, es, 4) == Yes && s.seqNo == 4 && s.clockMs == t
    requires HoldsOnly(s, KeyOf(w), TombOf(w, t, c.options))
    ensures StepTaken(c, s, DoCompact([], [], [TombOf(w, t, c.options)], Still(later), true), s5) == Yes
    ensures s5.store.docs == map[] && s5.store.events == LogOf(ks, es, 5)
  {
    ScriptIsNumbered(c, w, t, later, ks, es);
    LastScripted(c, w, t, later, ks, es);
    s5 := EraseOne(c, s, TombOf(w, t, c.options), later);
    PlayNext(s, s5, ks, es, 4);
  }

  lemma PlayScript(c: Config, input: WriteInput, w: Record, t: nat, later: nat) returns (states: seq<State>, ops: seq<Op>)
    requires Writes(c, input, w, t) && 0 < t <= later < UINT64_LIMIT && Permits(c.options, later - t)
    ensures ops == ScriptOps(c, input, w, t, later) && |states| == 6 && IsRun(c, states, ops)
    ensures states[5].store.docs == map[] && states[5].store.events == LogOf(ScriptKeys(w, t, later), ScriptLog(c, w, t, later), 5)
  {
    var ks, es := ScriptKeys(w, t, later), ScriptLog(c, w, t, later);
    var s1 := PlayWritten(c, input, w, t, later, ks, es);
    var s2 := PlayPinned(c, s1, w, t, later, ks, es);
    var s3, s4 := PlayBuried(c, s2, input, w, t, later, ks, es);
    var s5 := PlayErased(c, s4, w, t, later, ks, es);
    states, ops := [Start(t), s1, s2, s3, s4, s5], ScriptOps(c, input, w, t, later);
    StartsPlayed(t, ks, es);
    FiveSteps(c, Start(t), s1, s2, s3, s4, s5, ops);
  }

  lemma FiveSteps(c: Config, s0: State, s1: State, s2: State, s3: State, s4: State, s5: State, ops: seq<Op>)
    requires |ops| == 5 && Init(s0)
    requires StepTaken(c, s0, ops[0], s1) == Yes && StepTaken(c, s1, ops[1], s2) == Yes && StepTaken(c, s2, ops[2], s3) == Yes
    requires StepTaken(c, s3, ops[3], s4) == Yes && StepTaken(c, s4, ops[4], s5) == Yes
    ensures IsRun(c, [s0, s1, s2, s3, s4, s5], ops)
  {
  }

  lemma ScriptIsListed(c: Config, w: Record, t: nat, later: nat)
    ensures IsListing(ScriptKeys(w, t, later), LogOf(ScriptKeys(w, t, later), ScriptLog(c, w, t, later), 5).Keys)
  {
    var ks := ScriptKeys(w, t, later);
    assert ks[..5] == ks;
  }

  lemma ScriptIsReturned(c: Config, s: Store, w: Record, t: nat, later: nat)
    requires 0 < t <= later < UINT64_LIMIT && s.docs == map[]
    requires s.events == LogOf(ScriptKeys(w, t, later), ScriptLog(c, w, t, later), 5)
    ensures Returned(s, Scans(Found, Missing, Found), [], ScriptKeys(w, t, later))
    ensures IncomingAll(s, ScriptKeys(w, t, later)) == ScriptRecords(c, w, t)
    ensures forall i, j :: 0 <= i < j < 5 ==> KeyAtMost(ScriptKeys(w, t, later)[i], ScriptKeys(w, t, later)[j])
  {
    ScriptIsListed(c, w, t, later);
    ScriptIncoming(c, s, w, t, later);
    ScriptAscends(w, t, later);
  }

  lemma ScriptAscends(w: Record, t: nat, later: nat)
    requires 0 < t <= later < UINT64_LIMIT
    ensures forall i, j :: 0 <= i < j < 5 ==> KeyAtMost(ScriptKeys(w, t, later)[i], ScriptKeys(w, t, later)[j])
  {
    var ks := ScriptKeys(w, t, later);
    forall i, j | 0 <= i < j < 5 ensures KeyAtMost(ks[i], ks[j]) {
      EventKeyOrder(w.workspaceId, ks[i].ts, ks[i].seqNo, ks[j].ts, ks[j].seqNo);
    }
  }

  lemma ScriptIncoming(c: Config, s: Store, w: Record, t: nat, later: nat)
    requires s.events == LogOf(ScriptKeys(w, t, later), ScriptLog(c, w, t, later), 5)
    ensures forall k :: k in ScriptKeys(w, t, later) ==> k in s.events
    ensures IncomingAll(s, ScriptKeys(w, t, later)) == ScriptRecords(c, w, t)
  {
    var ks, es := ScriptKeys(w, t, later), ScriptLog(c, w, t, later);
    ScriptBrings(c, w, t, later);
    LogIncoming(s, ks, es, ScriptRecords(c, w, t));
  }

  /** An event under a key of its record's workspace brings that record. */
  lemma EventBrings(k: EventKey, a: Action)
    requires k.workspaceId == a.record.workspaceId
    ensures Incoming(k, EventOf(a)) == a.record
  {
  }

  lemma ScriptBrings(c: Config, w: Record, t: nat, later: nat)
    ensures forall i :: 0 <= i < 5 ==> Incoming(ScriptKeys(w, t, later)[i], ScriptLog(c, w, t, later)[i]) == ScriptRecords(c, w, t)[i]
  {
    var ks, rs := ScriptKeys(w, t, later), ScriptRecords(c, w, t);
    EventBrings(ks[0], Save(rs[0], UpsertOp, t, 1));
    EventBrings(ks[1], Save(rs[1], PinOp, t, 2));
    EventBrings(ks[2], Save(rs[2], UpsertOp, t, 3));
    EventBrings(ks[3], Save(rs[3], DeleteOp, t, 4));
    EventBrings(ks[4], Erase(rs[4], later, 5));
  }

  lemma LogIncoming(s: Store, ks: seq<EventKey>, es: seq<Event>, rs: seq<Record>)
    requires |ks| == |es| == |rs| && s.events == LogOf(ks, es, |ks|)
    requires forall i :: 0 <= i < |ks| ==> ks[i].seqNo == i + 1 && Incoming(ks[i], es[i]) == rs[i]
    ensures (forall k :: k in ks ==> k in s.events) && IncomingAll(s, ks) == rs
  {
    assert ks[..|ks|] == ks;
    forall i | 0 <= i < |ks| ensures ks[i] in s.events && Incoming(ks[i], s.events[ks[i]]) == rs[i] {
      assert ks[i] in ks;
    }
  }

  /** Within one millisecond a deleted record can come back alive: after that run nothing is stored,
      and a warmup that does not find the checkpoints replays the log, in the order of its keys, to
      the pinned record. */
  lemma ResurrectedWithinOneMillisecond(c: Config, ws: Str, id: Str, content: Str, t: nat, later: nat)
    returns (states: seq<State>, ops: seq<Op>, events: seq<EventKey>)
    requires ws != [] && id != [] && content != [] && Written(c, ws, id, content, t).sizeBytes <= c.options.maxRecordBytes
    requires 0 < t <= later < UINT64_LIMIT && Permits(c.options, later - t)
    ensures ops == ScriptOps(c, Input(ws, id, content), Written(c, ws, id, content, t), t, later) && |states| == 6 && IsRun(c, states, ops)
    ensures states[5].store.docs == map[]
    ensures var s, scans := states[5].store, Scans(Found, Missing, Found);
      && Returned(s, scans, [], events) && (forall i, j :: 0 <= i < j < |events| ==> KeyAtMost(events[i], events[j]))
      && (ws, id) in Reload(s, scans, [], events, c.charge).records
      && !Reload(s, scans, [], events, c.charge).records[(ws, id)].tombstone
      && Reload(s, scans, [], events, c.charge).records[(ws, id)]
         == Normalised(Repinned(Written(c, ws, id, content, t), true, t, c.options))
  {
    var w := Written(c, ws, id, content, t);
    WritesWritten(c, ws, id, content, t);
    states, ops := PlayScript(c, Input(ws, id, content), w, t, later);
    events := ScriptKeys(w, t, later);
    var s := states[5].store;
    ScriptIsReturned(c, s, w, t, later);
    ReplayIsJoin(ReloadedMemory(s, [], c.charge), s, events, c.charge);
    PinnedWins(c, w, t);
  }

  lemma PinnedWins(c: Config, w: Record, t: nat)
    requires w.updatedAtMs == t && w.version == 1 && w.nodeId == c.options.nodeId && w.id != []
    ensures KeyOf(w) in JoinedAll(map[], ScriptRecords(c, w, t))
    ensures JoinedAll(map[], ScriptRecords(c, w, t))[KeyOf(w)] == Normalised(Repinned(w, true, t, c.options))
  {
    var rs := ScriptRecords(c, w, t);
    JoinIsLastWriterWins(map[], rs, KeyOf(w));
    assert Names(rs[0], KeyOf(w)) && Names(rs[1], KeyOf(w));
    var i := WinnerStays(map[], rs, KeyOf(w));
    assert i == 1;
  }

  // ---- A posting row that is left behind ----

  /** The record alone is over the resident limit. */
  predicate TooBig(c: Config, r: Record) {
    0 < Limit(c) < c.charge(r) < UINT64_LIMIT
  }

  lemma OnlyVictim(c: Config, m: Memory, k: RecKey, t: nat)
    requires m.records.Keys == {k} && !m.records[k].pinned
    ensures k in ChoiceOf({}, c.log1p)(m.records, t)
  {
    var records := m.records;
    assert IsVictim(k, records, {}, t, c.log1p);
  }

  lemma OneRound(m: Memory, k: RecKey, limit: nat, may: Choice, t: nat)
    requires t > 0 && m.used > limit && k in may(m.records, t)
    ensures EvictionPath(m, [k], limit, may, Still(t), 0) && EvictedAll(m, [k]) == Dropped(m, k)
  {
    StillReads(t);
    assert [k][..0] == [] && [] + [k] == [k];
    PathGoesOn(m, [], k, limit, may, Still(t), 0, m, t);
  }

  lemma EvictedAtOnce(c: Config, r: Record, t: nat)
    requires t > 0 && TooBig(c, r) && !r.pinned && !r.tombstone && r.dedupKey == []
    ensures Enforced(Upserted(EMPTY_MEMORY, r, c.charge), EMPTY_MEMORY, Limit(c), {}, Still(t), 0, c.log1p)
  {
    var m, k := Upserted(EMPTY_MEMORY, r, c.charge), KeyOf(r);
    assert Dropped(m, k) == EMPTY_MEMORY;
    OnlyVictim(c, m, k, t);
    OneRound(m, k, Limit(c), ChoiceOf({}, c.log1p), t);
    assert EvictionRun(m, EMPTY_MEMORY, [k], Limit(c), ChoiceOf({}, c.log1p), Still(t), 0);
  }

  lemma WriteTooBig(c: Config, s: State, input: WriteInput, w: Record, t: nat) returns (s': State)
    requires Writes(c, input, w, t) && TooBig(c, w) && w.dedupKey == [] && Fits(s, t) && s.mem == EMPTY_MEMORY
    ensures StepTaken(c, s, DoWrite(input, Still(t), true), s') == Yes && s'.mem == EMPTY_MEMORY && s'.seqNo == s.seqNo + 1 && s'.clockMs == t
    ensures s'.store == Act(s.store, map[], Save(w, UpsertOp, t, s.seqNo + 1))
  {
    var a := Save(w, UpsertOp, t, s.seqNo + 1);
    s' := After(s, a, t, EMPTY_MEMORY);
    EvictedAtOnce(c, w, t);
    OneActionStep(c, s, DoWrite(input, Still(t), true), a, t, EMPTY_MEMORY);
  }

  /** A record that is evicted and then written again with other content: each token that only the
      old content has keeps its row, although the document no longer holds it. */
  lemma StaleRowInARun(c: Config, ws: Str, id: Str, before: Str, after: Str, t: nat, token: Str)
    returns (states: seq<State>, ops: seq<Op>)
    requires ws != [] && id != [] && before != [] && after != [] && 0 < t < UINT64_LIMIT
    requires forall content :: content == before || content == after ==>
               TooBig(c, Written(c, ws, id, content, t)) && Written(c, ws, id, content, t).sizeBytes <= c.options.maxRecordBytes
    requires token in TokensOf(before) && token !in TokensOf(after)
    ensures IsRun(c, states, ops)
    ensures ops == [DoWrite(Input(ws, id, before), Still(t), true), DoWrite(Input(ws, id, after), Still(t), true)] && |states| == 3
    ensures var s := states[2].store; (ws, id) in s.docs && s.docs[(ws, id)].content == after && (ws, token, id) in s.postings
    ensures !NoStray(states[2].store)
  {
    WritesWritten(c, ws, id, before, t);
    WritesWritten(c, ws, id, after, t);
    var s1 := WriteTooBig(c, Start(t), Input(ws, id, before), Written(c, ws, id, before, t), t);
    var s2 := WriteTooBig(c, s1, Input(ws, id, after), Written(c, ws, id, after, t), t);
    states := [Start(t), s1, s2];
    ops := [DoWrite(Input(ws, id, before), Still(t), true), DoWrite(Input(ws, id, after), Still(t), true)];
    StartsPlayed(t, [], []);
    TwoSteps(c, Start(t), s1, s2, ops);
    RowStays(EMPTY_STORE, Written(c, ws, id, before, t), Written(c, ws, id, after, t), t, 1, 2, token);
  }

  lemma TwoSteps(c: Config, s0: State, s1: State, s2: State, ops: seq<Op>)
    requires |ops| == 2 && Init(s0) && StepTaken(c, s0, ops[0], s1) == Yes && StepTaken(c, s1, ops[1], s2) == Yes
    ensures IsRun(c, [s0, s1, s2], ops)
  {
  }

  lemma RowStays(s: Store, old': Record, new': Record, t: nat, m: nat, n: nat, token: Str)
    requires KeyOf(old') == KeyOf(new') && !old'.tombstone && !new'.tombstone
    requires token in TokensOf(old'.content) && token !in TokensOf(new'.content)
    ensures var s' := Act(Act(s, map[], Save(old', UpsertOp, t, m)), map[], Save(new', UpsertOp, t, n));
      && KeyOf(new') in s'.docs && s'.docs[KeyOf(new')] == new'
      && (new'.workspaceId, token, new'.id) in s'.postings && !NoStray(s')
  {
    var row := (new'.workspaceId, token, new'.id);
    var s1 := Act(s, map[], Save(old', UpsertOp, t, m));
    assert row in PostingRows(old') && row in s1.postings;
    var s' := Act(s1, map[], Save(new', UpsertOp, t, n));
    assert row in s'.postings && DocOf(row) == KeyOf(new');
  }
}
