/** Two-phase compaction (src/core/memory_engine.cpp:1324-1450): active records become tombstones,
    and tombstones past their retention are deleted, at most one batch of either per call. */
module Compaction {
  import opened Bytes
  import opened Collections
  import opened EngineModel
  import opened Eviction
  import opened Keys
  import opened Ranking
  import opened Records
  import opened Recovery
  import opened Replay
  import opened WritePlans

  function MaxBatch(o: Options): (n: nat)
    ensures n > 0
  {
    if o.gcBatchSize == 0 then 256 else o.gcBatchSize
  }

  predicate InScope(r: Record, ws: Str) {
    ws == [] || r.workspaceId == ws
  }

  function TombOf(r: Record, nowMs: nat, o: Options): (tomb: Record)
    ensures KeyOf(tomb) == KeyOf(r) && tomb.tombstone && tomb.pinned == r.pinned && tomb.content == r.content
    ensures tomb.updatedAtMs == nowMs && tomb.lastAccessMs == nowMs && tomb.version == Max(r.version, 1) + 1 && tomb.nodeId == o.nodeId
    ensures tomb.sizeBytes == ComputeRecordSizeBytes(tomb) && tomb.tier == COLD
  {
    var tomb := r.(tombstone := true, tier := COLD, updatedAtMs := nowMs, lastAccessMs := nowMs,
                   version := Max(r.version, 1) + 1, nodeId := o.nodeId);
    tomb.(sizeBytes := ComputeRecordSizeBytes(tomb))
  }

  datatype CompactPlan = CompactPlan(actions: seq<Action>, tombstoned: nat, deleted: nat, seqNo: nat, tick: nat)

  function PlanTomb(p: CompactPlan, r: Record, o: Options, nowMs: nat, clock: nat -> nat): (p': CompactPlan) {
    if p.tombstoned + p.deleted >= MaxBatch(o) || r.pinned || r.tombstone then p
    else PlanSaved(p, TombOf(r, nowMs, o), clock)
  }

  function PlanSaved(p: CompactPlan, tomb: Record, clock: nat -> nat): (p': CompactPlan) {
    CompactPlan(p.actions + [Save(tomb, DeleteOp, Max(tomb.updatedAtMs, clock(p.tick)), p.seqNo + 1)],
                p.tombstoned + 1, p.deleted, p.seqNo + 1, p.tick + 1)
  }

  function AgeMs(r: Record, nowMs: nat): (age: nat) {
    if nowMs > r.updatedAtMs then nowMs - r.updatedAtMs else 0
  }

  function PlanErase(p: CompactPlan, r: Record, o: Options, nowMs: nat, clock: nat -> nat): (p': CompactPlan) {
    if p.tombstoned + p.deleted >= MaxBatch(o) || AgeMs(r, nowMs) < o.tombstoneRetentionMs then p
    else CompactPlan(p.actions + [Erase(r, Max(r.updatedAtMs, clock(p.tick)), p.seqNo + 1)],
                     p.tombstoned, p.deleted + 1, p.seqNo + 1, p.tick + 1)
  }

  function PlanTombs(p: CompactPlan, active: seq<Record>, o: Options, nowMs: nat, clock: nat -> nat): (p': CompactPlan) {
    if active == [] then p
    else PlanTomb(PlanTombs(p, active[..|active| - 1], o, nowMs, clock), active[|active| - 1], o, nowMs, clock)
  }

  function PlanErases(p: CompactPlan, tombs: seq<Record>, o: Options, nowMs: nat, clock: nat -> nat): (p': CompactPlan) {
    if tombs == [] then p
    else PlanErase(PlanErases(p, tombs[..|tombs| - 1], o, nowMs, clock), tombs[|tombs| - 1], o, nowMs, clock)
  }

  /** The plan over the active records in the order they are taken and the tombstones in some order. */
  function PlanCompact(active: seq<Record>, tombs: seq<Record>, seqNo: nat, o: Options, clock: nat -> nat): (p: CompactPlan) {
    var start := PlanTombs(CompactPlan([], 0, 0, seqNo, 1), active, o, clock(0), clock);
    if o.enableTombstoneGc then PlanErases(start, tombs, o, clock(0), clock) else start
  }

  ghost predicate KeysDiffer(rs: seq<Record>) {
    forall i, j :: 0 <= i < j < |rs| ==> KeyOf(rs[i]) != KeyOf(rs[j])
  }

  /** The resident records in scope, active or tombstones, each once. */
  ghost predicate Lists(rs: seq<Record>, records: map<RecKey, Record>, ws: Str, tombstone: bool) {
    && (forall i :: 0 <= i < |rs| ==>
          KeyOf(rs[i]) in records && records[KeyOf(rs[i])] == rs[i] && InScope(rs[i], ws) && rs[i].tombstone == tombstone)
    && KeysDiffer(rs)
    && (forall k :: k in records && InScope(records[k], ws) && records[k].tombstone == tombstone ==> records[k] in rs)
  }

  /** The order in which a compaction takes its records: active ones by eviction order. */
  ghost predicate TakenInOrder(active: seq<Record>, tombs: seq<Record>, records: map<RecKey, Record>, ws: Str, nowMs: nat,
                               log1p: real -> real)
  {
    && Lists(active, records, ws, false) && Lists(tombs, records, ws, true)
    && forall i, j :: 0 <= i < j < |active| ==> GoesBefore(active[i], active[j], nowMs, log1p)
  }

  // ---- The plan is a well-stamped batch of what it says ----

  /** Each action takes one of the listed records, in order, and counts it. */
  ghost predicate CompactOk(p: CompactPlan, taken: seq<Record>, seqNo: nat, o: Options, clock: nat -> nat) {
    && p.tick >= 1 && p.seqNo >= seqNo && |p.actions| == p.tombstoned + p.deleted == |taken| <= MaxBatch(o)
    && (forall i :: 0 <= i < |p.actions| ==>
          && KeyOf(p.actions[i].record) == KeyOf(taken[i])
          && (if p.actions[i].Save? then !taken[i].pinned && !taken[i].tombstone && p.actions[i].record == TombOf(taken[i], clock(0), o)
              else taken[i].tombstone && p.actions[i].record == taken[i] && AgeMs(taken[i], clock(0)) >= o.tombstoneRetentionMs)
          && clock(0) <= p.actions[i].ts <= clock(p.tick) && seqNo < p.actions[i].seqNo <= p.seqNo)
    && (forall i, j :: 0 <= i < j < |p.actions| ==> p.actions[i].ts <= p.actions[j].ts && p.actions[i].seqNo < p.actions[j].seqNo)
  }

  function TakenTombs(p: CompactPlan, active: seq<Record>, o: Options, nowMs: nat, clock: nat -> nat): (taken: seq<Record>) {
    if active == [] then []
    else
      var n := |active| - 1;
      var p', before := PlanTombs(p, active[..n], o, nowMs, clock), TakenTombs(p, active[..n], o, nowMs, clock);
      if PlanTomb(p', active[n], o, nowMs, clock) == p' then before else before + [active[n]]
  }

  function TakenErases(p: CompactPlan, tombs: seq<Record>, o: Options, nowMs: nat, clock: nat -> nat): (taken: seq<Record>) {
    if tombs == [] then []
    else
      var n := |tombs| - 1;
      var p', before := PlanErases(p, tombs[..n], o, nowMs, clock), TakenErases(p, tombs[..n], o, nowMs, clock);
      if PlanErase(p', tombs[n], o, nowMs, clock) == p' then before else before + [tombs[n]]
  }

  lemma TakeOne(p: CompactPlan, taken: seq<Record>, p': CompactPlan, r: Record, seqNo: nat, o: Options, clock: nat -> nat)
    requires Monotone(clock) && CompactOk(p, taken, seqNo, o, clock)
    requires p' == PlanTomb(p, r, o, clock(0), clock)
          || (p' == PlanErase(p, r, o, clock(0), clock) && r.tombstone && r.updatedAtMs <= clock(0))
    requires p' != p
    ensures CompactOk(p', taken + [r], seqNo, o, clock)
  {
    assert clock(0) <= clock(p.tick) <= clock(p.tick + 1);
  }

  lemma {:induction false} TombsOk(p: CompactPlan, active: seq<Record>, seqNo: nat, o: Options, clock: nat -> nat)
    requires Monotone(clock) && CompactOk(p, [], seqNo, o, clock)
    ensures CompactOk(PlanTombs(p, active, o, clock(0), clock), TakenTombs(p, active, o, clock(0), clock), seqNo, o, clock)
  {
    if active != [] {
      var n := |active| - 1;
      TombsOk(p, active[..n], seqNo, o, clock);
      var p', taken := PlanTombs(p, active[..n], o, clock(0), clock), TakenTombs(p, active[..n], o, clock(0), clock);
      if PlanTomb(p', active[n], o, clock(0), clock) != p' {
        TakeOne(p', taken, PlanTomb(p', active[n], o, clock(0), clock), active[n], seqNo, o, clock);
      }
    }
  }

  lemma {:induction false} ErasesOk(p: CompactPlan, before: seq<Record>, tombs: seq<Record>, seqNo: nat, o: Options, clock: nat -> nat)
    requires Monotone(clock) && CompactOk(p, before, seqNo, o, clock)
    requires forall i :: 0 <= i < |tombs| ==> tombs[i].tombstone && tombs[i].updatedAtMs <= clock(0)
    ensures CompactOk(PlanErases(p, tombs, o, clock(0), clock), before + TakenErases(p, tombs, o, clock(0), clock), seqNo, o, clock)
  {
    if tombs == [] {
      assert before + [] == before;
    } else {
      var n := |tombs| - 1;
      ErasesOk(p, before, tombs[..n], seqNo, o, clock);
      EraseOk(PlanErases(p, tombs[..n], o, clock(0), clock), before, TakenErases(p, tombs[..n], o, clock(0), clock), tombs[n], seqNo, o, clock);
    }
  }

  lemma EraseOk(p: CompactPlan, before: seq<Record>, taken: seq<Record>, tomb: Record, seqNo: nat, o: Options, clock: nat -> nat)
    requires Monotone(clock) && CompactOk(p, before + taken, seqNo, o, clock) && tomb.tombstone && tomb.updatedAtMs <= clock(0)
    ensures var p' := PlanErase(p, tomb, o, clock(0), clock);
      CompactOk(p', before + (if p' == p then taken else taken + [tomb]), seqNo, o, clock)
  {
    var p' := PlanErase(p, tomb, o, clock(0), clock);
    if p' != p {
      TakeOne(p, before + taken, p', tomb, seqNo, o, clock);
      AppendLast(before, taken, tomb);
    }
  }

  lemma AppendLast(a: seq<Record>, b: seq<Record>, r: Record)
    ensures a + b + [r] == a + (b + [r])
  {
  }

  lemma {:induction false} TombsUseNumbers(p: CompactPlan, active: seq<Record>, o: Options, nowMs: nat, clock: nat -> nat)
    requires p.tombstoned + p.deleted <= MaxBatch(o)
    ensures var p' := PlanTombs(p, active, o, nowMs, clock);
      p'.seqNo - p'.tombstoned - p'.deleted == p.seqNo - p.tombstoned - p.deleted && p'.tombstoned + p'.deleted <= MaxBatch(o)
  {
    if active != [] { TombsUseNumbers(p, active[..|active| - 1], o, nowMs, clock); }
  }

  lemma {:induction false} ErasesUseNumbers(p: CompactPlan, tombs: seq<Record>, o: Options, nowMs: nat, clock: nat -> nat)
    requires p.tombstoned + p.deleted <= MaxBatch(o)
    ensures var p' := PlanErases(p, tombs, o, nowMs, clock);
      p'.seqNo - p'.tombstoned - p'.deleted == p.seqNo - p.tombstoned - p.deleted && p'.tombstoned + p'.deleted <= MaxBatch(o)
  {
    if tombs != [] { ErasesUseNumbers(p, tombs[..|tombs| - 1], o, nowMs, clock); }
  }

  /** A compaction uses one number per action. */
  lemma CompactUsesNumbers(active: seq<Record>, tombs: seq<Record>, seqNo: nat, o: Options, clock: nat -> nat)
    ensures var p := PlanCompact(active, tombs, seqNo, o, clock);
      p.seqNo == seqNo + p.tombstoned + p.deleted <= seqNo + MaxBatch(o)
  {
    TombsUseNumbers(CompactPlan([], 0, 0, seqNo, 1), active, o, clock(0), clock);
    ErasesUseNumbers(PlanTombs(CompactPlan([], 0, 0, seqNo, 1), active, o, clock(0), clock), tombs, o, clock(0), clock);
  }

  // ---- What is taken ----

  /** Different records of a list. */
  ghost predicate TakenFrom(taken: seq<Record>, rs: seq<Record>) {
    KeysDiffer(taken) && forall i :: 0 <= i < |taken| ==> taken[i] in rs
  }

  lemma TakenFromMore(taken: seq<Record>, rs: seq<Record>)
    requires rs != [] && KeysDiffer(rs) && TakenFrom(taken, rs[..|rs| - 1])
    ensures TakenFrom(taken, rs) && TakenFrom(taken + [rs[|rs| - 1]], rs) && rs[|rs| - 1] !in taken
  {
    var n := |rs| - 1;
    forall i | 0 <= i < |taken| ensures taken[i] in rs && KeyOf(taken[i]) != KeyOf(rs[n]) {
      assert taken[i] in rs[..n];
      var j :| 0 <= j < n && rs[..n][j] == taken[i];
      assert rs[j] == taken[i];
    }
  }

  lemma {:induction false} TakenTombsAre(p: CompactPlan, active: seq<Record>, o: Options, nowMs: nat, clock: nat -> nat)
    requires KeysDiffer(active)
    ensures TakenFrom(TakenTombs(p, active, o, nowMs, clock), active)
  {
    if active != [] {
      var n := |active| - 1;
      assert KeysDiffer(active[..n]);
      TakenTombsAre(p, active[..n], o, nowMs, clock);
      TakenFromMore(TakenTombs(p, active[..n], o, nowMs, clock), active);
    }
  }

  lemma {:induction false} TakenErasesAre(p: CompactPlan, tombs: seq<Record>, o: Options, nowMs: nat, clock: nat -> nat)
    requires KeysDiffer(tombs)
    ensures TakenFrom(TakenErases(p, tombs, o, nowMs, clock), tombs)
  {
    if tombs != [] {
      var n := |tombs| - 1;
      assert KeysDiffer(tombs[..n]);
      TakenErasesAre(p, tombs[..n], o, nowMs, clock);
      TakenFromMore(TakenErases(p, tombs[..n], o, nowMs, clock), tombs);
    }
  }

  function Taken(active: seq<Record>, tombs: seq<Record>, seqNo: nat, o: Options, clock: nat -> nat): (taken: seq<Record>) {
    var p0 := CompactPlan([], 0, 0, seqNo, 1);
    TakenTombs(p0, active, o, clock(0), clock)
    + if o.enableTombstoneGc then TakenErases(PlanTombs(p0, active, o, clock(0), clock), tombs, o, clock(0), clock) else []
  }

  /** The records taken are different resident records in scope. */
  ghost predicate AreResident(taken: seq<Record>, records: map<RecKey, Record>, ws: Str) {
    && KeysDiffer(taken)
    && forall i :: 0 <= i < |taken| ==> KeyOf(taken[i]) in records && records[KeyOf(taken[i])] == taken[i] && InScope(taken[i], ws)
  }

  /** The plan acts once on each record taken, and takes different resident records in scope. */
  lemma PlanTakes(active: seq<Record>, tombs: seq<Record>, records: map<RecKey, Record>, ws: Str, seqNo: nat, o: Options, clock: nat -> nat)
    requires Monotone(clock) && Lists(active, records, ws, false) && Lists(tombs, records, ws, true)
    requires forall k :: k in records ==> records[k].updatedAtMs <= clock(0)
    ensures CompactOk(PlanCompact(active, tombs, seqNo, o, clock), Taken(active, tombs, seqNo, o, clock), seqNo, o, clock)
    ensures AreResident(Taken(active, tombs, seqNo, o, clock), records, ws)
  {
    var p0 := CompactPlan([], 0, 0, seqNo, 1);
    var p1 := PlanTombs(p0, active, o, clock(0), clock);
    var a := TakenTombs(p0, active, o, clock(0), clock);
    TombsOk(p0, active, seqNo, o, clock);
    TakenTombsAre(p0, active, o, clock(0), clock);
    if o.enableTombstoneGc {
      ErasesOk(p1, a, tombs, seqNo, o, clock);
      TakenErasesAre(p1, tombs, o, clock(0), clock);
      JoinTaken(a, TakenErases(p1, tombs, o, clock(0), clock), records, ws, active, tombs);
    } else {
      assert a + [] == a;
      JoinTaken(a, [], records, ws, active, tombs);
    }
  }

  lemma JoinTaken(a: seq<Record>, b: seq<Record>, records: map<RecKey, Record>, ws: Str, active: seq<Record>, tombs: seq<Record>)
    requires Lists(active, records, ws, false) && Lists(tombs, records, ws, true)
    requires TakenFrom(a, active) && TakenFrom(b, tombs)
    ensures AreResident(a + b, records, ws)
  {
    var taken := a + b;
    forall i | 0 <= i < |taken|
      ensures KeyOf(taken[i]) in records && records[KeyOf(taken[i])] == taken[i] && InScope(taken[i], ws)
      ensures taken[i].tombstone == (i >= |a|)
    {
      if i < |a| { assert taken[i] == a[i] && a[i] in active; } else { assert taken[i] == b[i - |a|] && b[i - |a|] in tombs; }
    }
    forall i, j | 0 <= i < j < |taken| ensures KeyOf(taken[i]) != KeyOf(taken[j]) {
      if j < |a| { assert KeyOf(a[i]) != KeyOf(a[j]); }
      else if i >= |a| { assert KeyOf(b[i - |a|]) != KeyOf(b[j - |a|]); }
    }
  }

  ghost predicate OnlyTombstones(actions: seq<Action>) {
    forall i :: 0 <= i < |actions| ==> actions[i].record.tombstone
  }

  lemma CompactOkTouchesTombstones(p: CompactPlan, taken: seq<Record>, seqNo: nat, o: Options, clock: nat -> nat)
    requires CompactOk(p, taken, seqNo, o, clock)
    ensures OnlyTombstones(p.actions)
  {
  }

  /** A compaction saves tombstones and erases tombstones. */
  lemma CompactTouchesTombstones(active: seq<Record>, tombs: seq<Record>, records: map<RecKey, Record>, ws: Str, seqNo: nat, o: Options,
                                 clock: nat -> nat)
    requires Monotone(clock) && Lists(active, records, ws, false) && Lists(tombs, records, ws, true)
    requires forall k :: k in records ==> records[k].updatedAtMs <= clock(0)
    ensures OnlyTombstones(PlanCompact(active, tombs, seqNo, o, clock).actions)
  {
    PlanTakes(active, tombs, records, ws, seqNo, o, clock);
    CompactOkTouchesTombstones(PlanCompact(active, tombs, seqNo, o, clock), Taken(active, tombs, seqNo, o, clock), seqNo, o, clock);
  }

  /** The actions of a compaction are a well-stamped batch. */
  lemma CompactIsStamped(p: CompactPlan, taken: seq<Record>, records: map<RecKey, Record>, ws: Str, seqNo: nat, o: Options, clock: nat -> nat)
    requires Monotone(clock) && CompactOk(p, taken, seqNo, o, clock)
    requires AreResident(taken, records, ws) && forall i :: 0 <= i < |taken| ==> HasKey(taken[i])
    ensures Stamped(p.actions, records, clock(0), seqNo, p.seqNo, clock(p.tick))
  {
    forall i | 0 <= i < |p.actions| ensures WellFormed(p.actions[i], records, clock(0)) {
      assert KeyOf(p.actions[i].record) == KeyOf(taken[i]);
      if p.actions[i].Save? { TombIsSettled(taken[i], clock(0), o); }
    }
    forall i, j | 0 <= i < j < |p.actions| ensures MayRepeat(p.actions[i], p.actions[j]) {
      assert KeyOf(p.actions[i].record) == KeyOf(taken[i]) && KeyOf(p.actions[j].record) == KeyOf(taken[j]);
    }
  }

  lemma TombIsSettled(r: Record, nowMs: nat, o: Options)
    requires HasKey(r) && nowMs > 0
    ensures Settled(KeyOf(r), TombOf(r, nowMs, o))
  {
  }

  // ---- Progress ----

  function UnpinnedActive(records: map<RecKey, Record>): (ks: set<RecKey>) {
    set k | k in records && !records[k].pinned && !records[k].tombstone
  }

  function Tombstones(records: map<RecKey, Record>): (ks: set<RecKey>) {
    set k | k in records && records[k].tombstone
  }

  /** Two steps are left for an active record that may go, one for a tombstone. */
  function StepsLeft(records: map<RecKey, Record>): (n: nat) {
    2 * |UnpinnedActive(records)| + |Tombstones(records)|
  }

  /** Records after the first n actions, when each acts on another of the records at the start. */
  function Acted(records: map<RecKey, Record>, actions: seq<Action>): (records': map<RecKey, Record>) {
    if actions == [] then records
    else
      var n := |actions| - 1;
      var before := Acted(records, actions[..n]);
      if actions[n].Save? then before[KeyOf(actions[n].record) := actions[n].record] else before - {KeyOf(actions[n].record)}
  }

  lemma {:induction false} ActedIs(m: Memory, actions: seq<Action>, charge: Record -> nat)
    ensures ActMemAll(m, actions, charge).records == Acted(m.records, actions)
  {
    if actions != [] {
      var n := |actions| - 1;
      ActedIs(m, actions[..n], charge);
      ActMemRecords(ActMemAll(m, actions[..n], charge), actions[n], charge);
    }
  }

  lemma {:induction false} ActedElsewhere(records: map<RecKey, Record>, actions: seq<Action>, k: RecKey)
    requires forall i :: 0 <= i < |actions| ==> KeyOf(actions[i].record) != k
    ensures k in Acted(records, actions) <==> k in records
    ensures k in records ==> Acted(records, actions)[k] == records[k]
  {
    if actions != [] { ActedElsewhere(records, actions[..|actions| - 1], k); }
  }

  lemma TombCounts(records: map<RecKey, Record>, k: RecKey, tomb: Record)
    requires k in UnpinnedActive(records) && tomb.tombstone
    ensures StepsLeft(records[k := tomb]) == StepsLeft(records) - 1
  {
    var after := records[k := tomb];
    assert UnpinnedActive(after) == UnpinnedActive(records) - {k};
    assert Tombstones(after) == Tombstones(records) + {k};
  }

  lemma EraseCounts(records: map<RecKey, Record>, k: RecKey)
    requires k in Tombstones(records)
    ensures StepsLeft(records - {k}) == StepsLeft(records) - 1
  {
    assert UnpinnedActive(records - {k}) == UnpinnedActive(records);
    assert Tombstones(records - {k}) == Tombstones(records) - {k};
  }

  ghost predicate ActsOn(actions: seq<Action>, records: map<RecKey, Record>) {
    && (forall i :: 0 <= i < |actions| ==>
          var k := KeyOf(actions[i].record);
          if actions[i].Save? then k in UnpinnedActive(records) && actions[i].record.tombstone else k in Tombstones(records))
    && (forall i, j :: 0 <= i < j < |actions| ==> KeyOf(actions[i].record) != KeyOf(actions[j].record))
  }

  /** Every action brings the end one step closer. */
  lemma {:induction false} EveryActionCounts(records: map<RecKey, Record>, actions: seq<Action>)
    requires ActsOn(actions, records)
    ensures StepsLeft(Acted(records, actions)) == StepsLeft(records) - |actions|
  {
    if actions != [] {
      var n := |actions| - 1;
      var k := KeyOf(actions[n].record);
      EveryActionCounts(records, actions[..n]);
      ActedElsewhere(records, actions[..n], k);
      var before := Acted(records, actions[..n]);
      if actions[n].Save? { TombCounts(before, k, actions[n].record); } else { EraseCounts(before, k); }
    }
  }

  /** Everything the compaction may take is taken, unless the batch is full. */
  lemma {:induction false} TombsExhaust(p: CompactPlan, active: seq<Record>, o: Options, nowMs: nat, clock: nat -> nat)
    ensures var p' := PlanTombs(p, active, o, nowMs, clock);
      && p'.deleted == p.deleted && p'.tombstoned >= p.tombstoned
      && (p'.tombstoned + p'.deleted < MaxBatch(o) ==>
            forall i :: 0 <= i < |active| && !active[i].pinned && !active[i].tombstone ==> active[i] in TakenTombs(p, active, o, nowMs, clock))
  {
    if active != [] {
      TombsExhaust(p, active[..|active| - 1], o, nowMs, clock);
    }
  }

  lemma {:induction false} ErasesExhaust(p: CompactPlan, tombs: seq<Record>, o: Options, nowMs: nat, clock: nat -> nat)
    ensures var p' := PlanErases(p, tombs, o, nowMs, clock);
      && p'.tombstoned == p.tombstoned && p'.deleted >= p.deleted
      && (p'.tombstoned + p'.deleted < MaxBatch(o) ==>
            forall i :: 0 <= i < |tombs| && AgeMs(tombs[i], nowMs) >= o.tombstoneRetentionMs ==> tombs[i] in TakenErases(p, tombs, o, nowMs, clock))
  {
    if tombs != [] {
      ErasesExhaust(p, tombs[..|tombs| - 1], o, nowMs, clock);
    }
  }

  /** Active records go in eviction order: none is left behind while a later one is taken. */
  lemma {:induction false} TakenAreFirst(p: CompactPlan, active: seq<Record>, o: Options, nowMs: nat, clock: nat -> nat, i: nat, j: nat)
    requires i < j < |active| && active[j] in TakenTombs(p, active, o, nowMs, clock) && !active[i].pinned && !active[i].tombstone
    requires KeysDiffer(active)
    ensures active[i] in TakenTombs(p, active, o, nowMs, clock)
  {
    var n := |active| - 1;
    var before := TakenTombs(p, active[..n], o, nowMs, clock);
    assert KeysDiffer(active[..n]);
    TakenTombsAre(p, active[..n], o, nowMs, clock);
    TakenFromMore(before, active);
    assert active[..n][i] == active[i];
    if j < n {
      TakenEarlier(p, active, o, nowMs, clock, j);
      TakenAreFirst(p, active[..n], o, nowMs, clock, i, j);
    } else {
      TombsExhaust(p, active[..n], o, nowMs, clock);
    }
  }

  lemma TakenEarlier(p: CompactPlan, active: seq<Record>, o: Options, nowMs: nat, clock: nat -> nat, j: nat)
    requires j < |active| - 1 && active[j] in TakenTombs(p, active, o, nowMs, clock) && KeysDiffer(active)
    ensures active[..|active| - 1][j] == active[j] && active[j] in TakenTombs(p, active[..|active| - 1], o, nowMs, clock)
  {
    assert KeyOf(active[j]) != KeyOf(active[|active| - 1]);
  }

  /** Records before and after a committed compaction, taken in these orders. */
  ghost predicate CompactsBy(records: map<RecKey, Record>, records': map<RecKey, Record>, ws: Str, active: seq<Record>, tombs: seq<Record>,
                             seqNo: nat, o: Options, clock: nat -> nat, log1p: real -> real)
  {
    && Monotone(clock) && (forall k :: k in records ==> records[k].updatedAtMs <= clock(0))
    && TakenInOrder(active, tombs, records, ws, clock(0), log1p)
    && records' == Acted(records, PlanCompact(active, tombs, seqNo, o, clock).actions)
  }

  lemma CompactActsOn(p: CompactPlan, taken: seq<Record>, records: map<RecKey, Record>, ws: Str, seqNo: nat, o: Options, clock: nat -> nat)
    requires CompactOk(p, taken, seqNo, o, clock) && AreResident(taken, records, ws)
    ensures ActsOn(p.actions, records)
  {
    forall i | 0 <= i < |p.actions|
      ensures var k := KeyOf(p.actions[i].record);
        if p.actions[i].Save? then k in UnpinnedActive(records) && p.actions[i].record.tombstone else k in Tombstones(records)
    {
      assert KeyOf(p.actions[i].record) == KeyOf(taken[i]);
    }
  }

  lemma {:induction false} ActedOnKey(records: map<RecKey, Record>, actions: seq<Action>, k: RecKey)
    requires ActsOn(actions, records)
    ensures k in records && !records[k].tombstone ==> k in Acted(records, actions)
    ensures k in records && !records[k].tombstone && records[k].pinned ==> Acted(records, actions)[k] == records[k]
    ensures k in Acted(records, actions) ==> k in records
  {
    if actions != [] { ActedOnKey(records, actions[..|actions| - 1], k); }
  }

  /** A committed compaction comes closer to the end by exactly what it reports, which is at most a
      batch; it deletes no record that was active, and leaves pinned active ones alone. */
  lemma CompactionProgress(records: map<RecKey, Record>, records': map<RecKey, Record>, ws: Str, active: seq<Record>, tombs: seq<Record>,
                           seqNo: nat, o: Options, clock: nat -> nat, log1p: real -> real)
    requires CompactsBy(records, records', ws, active, tombs, seqNo, o, clock, log1p)
    ensures var p := PlanCompact(active, tombs, seqNo, o, clock);
      && StepsLeft(records') == StepsLeft(records) - p.tombstoned - p.deleted
      && p.tombstoned + p.deleted <= MaxBatch(o)
    ensures forall k :: k in records && !records[k].tombstone ==>
              k in records' && (records[k].pinned ==> records'[k] == records[k])
    ensures forall k :: k in records' ==> k in records
  {
    var p, taken := PlanCompact(active, tombs, seqNo, o, clock), Taken(active, tombs, seqNo, o, clock);
    PlanTakes(active, tombs, records, ws, seqNo, o, clock);
    CompactActsOn(p, taken, records, ws, seqNo, o, clock);
    EveryActionCounts(records, p.actions);
    forall k { ActedOnKey(records, p.actions, k); }
  }

  /** Every tombstone of the workspace is past its retention. */
  ghost predicate Ripe(records: map<RecKey, Record>, o: Options, nowMs: nat) {
    o.enableTombstoneGc && forall k :: k in Tombstones(records) ==> AgeMs(records[k], nowMs) >= o.tombstoneRetentionMs
  }

  /** With garbage collection on and every tombstone ripe, a compaction of everything does
      something as long as there is something left to do. */
  lemma CompactionMoves(records: map<RecKey, Record>, active: seq<Record>, tombs: seq<Record>, seqNo: nat, o: Options, clock: nat -> nat,
                        log1p: real -> real)
    requires TakenInOrder(active, tombs, records, [], clock(0), log1p) && Ripe(records, o, clock(0)) && StepsLeft(records) > 0
    ensures var p := PlanCompact(active, tombs, seqNo, o, clock); p.tombstoned + p.deleted >= 1
  {
    var p0 := CompactPlan([], 0, 0, seqNo, 1);
    var p1 := PlanTombs(p0, active, o, clock(0), clock);
    TombsExhaust(p0, active, o, clock(0), clock);
    ErasesExhaust(p1, tombs, o, clock(0), clock);
    if k :| k in UnpinnedActive(records) {
      assert InScope(records[k], []) && records[k] in active;
      UnpinnedIsTaken(p0, active, o, clock(0), clock, records[k]);
    } else {
      assert UnpinnedActive(records) == {};
      var k :| k in Tombstones(records);
      assert InScope(records[k], []) && records[k] in tombs;
      RipeIsErased(p1, tombs, o, clock(0), clock, records[k]);
    }
  }

  lemma {:induction false} UnpinnedIsTaken(p: CompactPlan, active: seq<Record>, o: Options, nowMs: nat, clock: nat -> nat, r: Record)
    requires r in active && !r.pinned && !r.tombstone && p.tombstoned + p.deleted == 0
    ensures PlanTombs(p, active, o, nowMs, clock).tombstoned >= 1
  {
    var n := |active| - 1;
    TombsExhaust(p, active[..n], o, nowMs, clock);
    if r in active[..n] { UnpinnedIsTaken(p, active[..n], o, nowMs, clock, r); }
  }

  lemma {:induction false} RipeIsErased(p: CompactPlan, tombs: seq<Record>, o: Options, nowMs: nat, clock: nat -> nat, r: Record)
    requires r in tombs && AgeMs(r, nowMs) >= o.tombstoneRetentionMs
    ensures var p' := PlanErases(p, tombs, o, nowMs, clock); p'.tombstoned + p'.deleted >= 1
  {
    var n := |tombs| - 1;
    ErasesExhaust(p, tombs[..n], o, nowMs, clock);
    if r in tombs[..n] { RipeIsErased(p, tombs[..n], o, nowMs, clock, r); }
  }

  ghost predicate OnlyPinnedActive(records: map<RecKey, Record>) {
    forall k :: k in records ==> records[k].pinned && !records[k].tombstone
  }

  ghost predicate KeepsPinnedActive(records: map<RecKey, Record>, records': map<RecKey, Record>) {
    forall k :: k in records && records[k].pinned && !records[k].tombstone ==> k in records' && records'[k] == records[k]
  }

  ghost predicate RipeCompaction(records: map<RecKey, Record>, records': map<RecKey, Record>, o: Options, log1p: real -> real) {
    exists active: seq<Record>, tombs: seq<Record>, seqNo: nat, clock: nat -> nat ::
      CompactsBy(records, records', [], active, tombs, seqNo, o, clock, log1p) && Ripe(records, o, clock(0))
  }

  lemma RipeCompactionMoves(records: map<RecKey, Record>, records': map<RecKey, Record>, o: Options, log1p: real -> real)
    requires RipeCompaction(records, records', o, log1p)
    ensures StepsLeft(records') < StepsLeft(records) || StepsLeft(records') == StepsLeft(records) == 0
    ensures KeepsPinnedActive(records, records')
  {
    var active: seq<Record>, tombs: seq<Record>, seqNo: nat, clock: nat -> nat :|
      CompactsBy(records, records', [], active, tombs, seqNo, o, clock, log1p) && Ripe(records, o, clock(0));
    CompactionProgress(records, records', [], active, tombs, seqNo, o, clock, log1p);
    if StepsLeft(records) > 0 { CompactionMoves(records, active, tombs, seqNo, o, clock, log1p); }
  }

  /** Compacting everything often enough leaves exactly the pinned active records, untouched. */
  lemma {:induction false} CompactionsFinish(run: seq<map<RecKey, Record>>, o: Options, log1p: real -> real)
    requires run != [] && |run| > StepsLeft(run[0])
    requires forall i :: 0 <= i < |run| - 1 ==> RipeCompaction(run[i], run[i + 1], o, log1p)
    ensures OnlyPinnedActive(run[|run| - 1]) && KeepsPinnedActive(run[0], run[|run| - 1])
    decreases |run|
  {
    if |run| == 1 {
      NothingLeft(run[0]);
    } else {
      RipeCompactionMoves(run[0], run[1], o, log1p);
      var rest := run[1..];
      forall i | 0 <= i < |rest| - 1 ensures RipeCompaction(rest[i], rest[i + 1], o, log1p) {
        assert RipeCompaction(run[i + 1], run[i + 1 + 1], o, log1p);
      }
      CompactionsFinish(rest, o, log1p);
    }
  }

  lemma NothingLeft(records: map<RecKey, Record>)
    requires StepsLeft(records) == 0
    ensures OnlyPinnedActive(records)
  {
    forall k | k in records ensures records[k].pinned && !records[k].tombstone {
      assert k !in UnpinnedActive(records) && k !in Tombstones(records);
    }
  }

  // ---- Listing the records ----

  /** As Lists, for the keys seen so far. */
  ghost predicate ListsAmong(rs: seq<Record>, records: map<RecKey, Record>, ws: Str, tombstone: bool, seen: set<RecKey>) {
    && (forall i :: 0 <= i < |rs| ==>
          && KeyOf(rs[i]) in seen && KeyOf(rs[i]) in records && records[KeyOf(rs[i])] == rs[i]
          && InScope(rs[i], ws) && rs[i].tombstone == tombstone)
    && KeysDiffer(rs)
    && (forall k :: k in seen && k in records && InScope(records[k], ws) && records[k].tombstone == tombstone ==> records[k] in rs)
  }

  function Listed(rs: seq<Record>, r: Record, ws: Str, tombstone: bool): (rs': seq<Record>) {
    if InScope(r, ws) && r.tombstone == tombstone then rs + [r] else rs
  }

  ghost function IsListed(rs: seq<Record>, records: map<RecKey, Record>, ws: Str, tombstone: bool, seen: set<RecKey>): Verdict {
    Judge(ListsAmong(rs, records, ws, tombstone, seen))
  }

  lemma ListNext(rs: seq<Record>, records: map<RecKey, Record>, ws: Str, tombstone: bool, seen: set<RecKey>, k: RecKey)
    requires IsListed(rs, records, ws, tombstone, seen) == Yes && k in records && k !in seen && KeyOf(records[k]) == k
    ensures IsListed(Listed(rs, records[k], ws, tombstone), records, ws, tombstone, seen + {k}) == Yes
  {
    if InScope(records[k], ws) && records[k].tombstone == tombstone {
      KeysStillDiffer(rs, records[k], seen);
      ListIsComplete(rs, records, ws, tombstone, seen, k);
    }
  }

  lemma ListEnds(rs: seq<Record>, records: map<RecKey, Record>, ws: Str, tombstone: bool)
    ensures IsListed([], records, ws, tombstone, {}) == Yes
    ensures IsListed(rs, records, ws, tombstone, records.Keys) == Yes ==> Lists(rs, records, ws, tombstone)
  {
  }

  lemma KeysStillDiffer(rs: seq<Record>, r: Record, seen: set<RecKey>)
    requires KeysDiffer(rs) && KeyOf(r) !in seen && forall i :: 0 <= i < |rs| ==> KeyOf(rs[i]) in seen
    ensures KeysDiffer(rs + [r])
  {
  }

  lemma ListIsComplete(rs: seq<Record>, records: map<RecKey, Record>, ws: Str, tombstone: bool, seen: set<RecKey>, k: RecKey)
    requires ListsAmong(rs, records, ws, tombstone, seen) && k in records
    ensures forall x :: x in seen + {k} && x in records && InScope(records[x], ws) && records[x].tombstone == tombstone ==>
              records[x] in rs + [records[k]]
  {
    assert (rs + [records[k]])[|rs|] == records[k];
  }

  method ListRecords(records: map<RecKey, Record>, ws: Str) returns (active: seq<Record>, tombs: seq<Record>)
    requires forall k :: k in records ==> KeyOf(records[k]) == k
    ensures IsListed(active, records, ws, false, records.Keys) == Yes && IsListed(tombs, records, ws, true, records.Keys) == Yes
  {
    active, tombs := [], [];
    var keys := Enumerate(records.Keys);
    AllElements(keys);
    ListEnds(active, records, ws, false);
    ListEnds(tombs, records, ws, true);
    for i := 0 to |keys|
      invariant IsListed(active, records, ws, false, Elements(keys[..i])) == Yes
      invariant IsListed(tombs, records, ws, true, Elements(keys[..i])) == Yes
    {
      NextElement(keys, i);
      var r := records[keys[i]];
      ListNext(active, records, ws, false, Elements(keys[..i]), keys[i]);
      ListNext(tombs, records, ws, true, Elements(keys[..i]), keys[i]);
      active, tombs := Listed(active, r, ws, false), Listed(tombs, r, ws, true);
    }
  }

  /** Another order lists the same records. */
  lemma ListsRearranged(a: seq<Record>, b: seq<Record>, records: map<RecKey, Record>, ws: Str, tombstone: bool)
    requires Lists(a, records, ws, tombstone) && multiset(a) == multiset(b)
    ensures Lists(b, records, ws, tombstone)
  {
    SameMultisetSameElements(a, b);
    forall i | 0 <= i < |b|
      ensures KeyOf(b[i]) in records && records[KeyOf(b[i])] == b[i] && InScope(b[i], ws) && b[i].tombstone == tombstone
    {
      assert b[i] in Elements(a);
      var j :| 0 <= j < |a| && a[j] == b[i];
    }
    forall i, j | 0 <= i < j < |a| ensures a[i] != a[j] {
      assert KeyOf(a[i]) != KeyOf(a[j]);
    }
    forall i, j | 0 <= i < j < |b| ensures KeyOf(b[i]) != KeyOf(b[j]) {
      assert NoDuplicates(b);
      assert b[i] != b[j];
    }
    forall k | k in records && InScope(records[k], ws) && records[k].tombstone == tombstone ensures records[k] in b {
      assert records[k] in Elements(a);
    }
  }

  /** Active records in eviction order. */
  method SortByEviction(records: map<RecKey, Record>, active0: seq<Record>, ws: Str, nowMs: nat, log1p: real -> real)
    returns (active: seq<Record>)
    requires Lists(active0, records, ws, false)
    ensures Lists(active, records, ws, false)
    ensures forall i, j :: 0 <= i < j < |active| ==> GoesBefore(active[i], active[j], nowMs, log1p)
  {
    var le := (a: Record, b: Record) => GoesBefore(a, b, nowMs, log1p);
    assert TotalPreorder(le) by {
      forall a, b, c ensures (le(a, b) || le(b, a)) && (le(a, b) && le(b, c) ==> le(a, c)) {
        GoesBeforeIsTotal(a, b, c, nowMs, log1p);
      }
    }
    active := Sort(active0, le);
    ListsRearranged(active0, active, records, ws, false);
    assert forall i, j :: 0 <= i < j < |active| ==> le(active[i], active[j]);
  }
}
