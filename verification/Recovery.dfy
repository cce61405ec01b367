/** What the event log, the checkpoints and the documents keep from batch to batch, so that a
    restart finds exactly what was stored (src/core/memory_engine.cpp:310-360, 1032-1207). */
module Recovery {
  import opened Bytes
  import opened Collections
  import opened EngineModel
  import opened Keys
  import opened Records
  import opened Replay

  /** A batch of one operation that began at time `opMs`: numbers rise, times never fall, saved
      records carry the time of the operation, erased ones are resident tombstones, and a record is
      repeated only by saves that agree on its stamp. */
  ghost predicate Stamped(actions: seq<Action>, resident: map<RecKey, Record>, opMs: nat, firstSeq: nat, lastSeq: nat, lastMs: nat) {
    && (forall i :: 0 <= i < |actions| ==> opMs <= actions[i].ts <= lastMs && firstSeq < actions[i].seqNo <= lastSeq)
    && (forall i, j :: 0 <= i < j < |actions| ==> actions[i].ts <= actions[j].ts && actions[i].seqNo < actions[j].seqNo)
    && (forall i :: 0 <= i < |actions| ==> WellFormed(actions[i], resident, opMs))
    && (forall i, j :: 0 <= i < j < |actions| ==> MayRepeat(actions[i], actions[j]))
  }

  ghost predicate WellFormed(a: Action, resident: map<RecKey, Record>, opMs: nat) {
    if a.Save? then a.record.updatedAtMs == opMs && Settled(KeyOf(a.record), a.record) && a.record.lastAccessMs > 0
    else a.record.tombstone && KeyOf(a.record) in resident && resident[KeyOf(a.record)] == a.record
  }

  predicate MayRepeat(a: Action, b: Action) {
    KeyOf(a.record) == KeyOf(b.record) ==>
      a.Save? && b.Save? && SameStamp(a.record, b.record) && a.record.tombstone == b.record.tombstone
  }

  // ---- Checkpoints ----

  predicate KeyLe(a: EventKey, b: EventKey) {
    a.ts < b.ts || (a.ts == b.ts && a.seqNo <= b.seqNo)
  }

  /** Each event is at or below its workspace's checkpoint; times are past, and the numbers of the
      current run are used up. */
  ghost predicate LogInv(events: map<EventKey, Event>, ckpts: map<Str, EventKey>, seqNo: nat, clockMs: nat, runStart: nat) {
    forall k :: k in events ==>
      && k.ts <= clockMs
      && (k.ts >= runStart ==> k.seqNo <= seqNo)
      && AtOrBelow(k, events, ckpts)
  }

  ghost predicate AtOrBelow(k: EventKey, events: map<EventKey, Event>, ckpts: map<Str, EventKey>) {
    && k.workspaceId in ckpts
    && ckpts[k.workspaceId] in events
    && ckpts[k.workspaceId].workspaceId == k.workspaceId
    && KeyLe(k, ckpts[k.workspaceId])
  }

  ghost predicate PayloadsKeyed(events: map<EventKey, Event>) {
    forall k :: k in events ==> events[k].payload.workspaceId == k.workspaceId && HasKey(events[k].payload)
  }

  lemma LogAfter(events: map<EventKey, Event>, ckpts: map<Str, EventKey>, mine: EventKey, e: Event, seqNo: nat, clockMs: nat, runStart: nat)
    requires LogInv(events, ckpts, seqNo, clockMs, runStart)
    requires runStart <= mine.ts && clockMs <= mine.ts && (clockMs < runStart || seqNo < mine.seqNo)
    ensures LogInv(events[mine := e], ckpts[mine.workspaceId := mine], mine.seqNo, mine.ts, runStart)
    ensures mine !in events
  {
    var events', ckpts' := events[mine := e], ckpts[mine.workspaceId := mine];
    forall k | k in events'
      ensures k.ts <= mine.ts && (k.ts >= runStart ==> k.seqNo <= mine.seqNo) && AtOrBelow(k, events', ckpts')
    {
      assert k in events ==> AtOrBelow(k, events, ckpts);
    }
  }

  lemma LogWeakens(events: map<EventKey, Event>, ckpts: map<Str, EventKey>, seqNo: nat, clockMs: nat, runStart: nat, seqNo': nat, clockMs': nat)
    requires LogInv(events, ckpts, seqNo, clockMs, runStart) && seqNo <= seqNo' && clockMs <= clockMs'
    ensures LogInv(events, ckpts, seqNo', clockMs', runStart)
  {
  }

  lemma ActKeepsLog(s: Store, resident: map<RecKey, Record>, a: Action, seqNo: nat, clockMs: nat, runStart: nat)
    requires LogInv(s.events, s.ckpts, seqNo, clockMs, runStart) && PayloadsKeyed(s.events) && HasKey(a.record)
    requires runStart <= a.ts && clockMs <= a.ts && (clockMs < runStart || seqNo < a.seqNo)
    ensures LogInv(Act(s, resident, a).events, Act(s, resident, a).ckpts, a.seqNo, a.ts, runStart)
    ensures PayloadsKeyed(Act(s, resident, a).events) && EventKeyOf(a) !in s.events
  {
    ActParts(s, resident, a);
    LogAfter(s.events, s.ckpts, EventKeyOf(a), EventOf(a), seqNo, clockMs, runStart);
  }

  /** A committed batch leaves every event at or below its checkpoint. */
  lemma {:induction false} BatchKeepsLog(s: Store, resident: map<RecKey, Record>, actions: seq<Action>, opMs: nat,
                                         seqNo: nat, clockMs: nat, runStart: nat, seqNo': nat, clockMs': nat)
    requires LogInv(s.events, s.ckpts, seqNo, clockMs, runStart) && PayloadsKeyed(s.events)
    requires runStart <= opMs && clockMs <= opMs <= clockMs' && seqNo <= seqNo'
    requires Stamped(actions, resident, opMs, seqNo, seqNo', clockMs')
    requires forall k :: k in resident ==> HasKey(resident[k])
    ensures var s' := ActAll(s, resident, actions);
      LogInv(s'.events, s'.ckpts, seqNo', clockMs', runStart) && PayloadsKeyed(s'.events)
  {
    if actions == [] {
      LogWeakens(s.events, s.ckpts, seqNo, clockMs, runStart, seqNo', clockMs');
    } else {
      var n := |actions| - 1;
      var q, c := if n == 0 then seqNo else actions[n - 1].seqNo, if n == 0 then opMs else actions[n - 1].ts;
      StampedPrefix(actions, resident, opMs, seqNo, seqNo', clockMs');
      BatchKeepsLog(s, resident, actions[..n], opMs, seqNo, clockMs, runStart, q, c);
      NextStamp(actions, resident, opMs, seqNo, seqNo', clockMs');
      var s' := ActAll(s, resident, actions[..n]);
      ActKeepsLog(s', resident, actions[n], q, c, runStart);
      LogWeakens(Act(s', resident, actions[n]).events, Act(s', resident, actions[n]).ckpts, actions[n].seqNo, actions[n].ts, runStart,
                 seqNo', clockMs');
    }
  }

  lemma NextStamp(actions: seq<Action>, resident: map<RecKey, Record>, opMs: nat, seqNo: nat, seqNo': nat, clockMs': nat)
    requires Stamped(actions, resident, opMs, seqNo, seqNo', clockMs') && actions != []
    requires forall k :: k in resident ==> HasKey(resident[k])
    ensures var n := |actions| - 1;
      && HasKey(actions[n].record)
      && opMs <= actions[n].ts <= clockMs' && seqNo < actions[n].seqNo <= seqNo'
      && (n > 0 ==> actions[n - 1].ts <= actions[n].ts && actions[n - 1].seqNo < actions[n].seqNo)
  {
    assert WellFormed(actions[|actions| - 1], resident, opMs);
  }

  lemma StampedPrefix(actions: seq<Action>, resident: map<RecKey, Record>, opMs: nat, firstSeq: nat, lastSeq: nat, lastMs: nat)
    requires Stamped(actions, resident, opMs, firstSeq, lastSeq, lastMs) && actions != []
    ensures var n := |actions| - 1;
      && Stamped(actions[..n], resident, opMs, firstSeq, lastSeq, lastMs)
      && Stamped(actions[..n], resident, opMs, firstSeq, if n == 0 then firstSeq else actions[n - 1].seqNo,
                 if n == 0 then opMs else actions[n - 1].ts)
  {
    var n := |actions| - 1;
    forall i | 0 <= i < n ensures actions[i].ts <= actions[n - 1].ts && actions[i].seqNo <= actions[n - 1].seqNo {
      if i < n - 1 { assert actions[i].ts <= actions[n - 1].ts; }
    }
  }

  /** The string comparison that replay makes agrees with times and numbers that fit 64 bits. */
  lemma CheckpointCovers(s: Store, seqNo: nat, clockMs: nat, runStart: nat, k: EventKey)
    requires LogInv(s.events, s.ckpts, seqNo, clockMs, runStart) && k in s.events
    requires forall e :: e in s.events ==> e.ts < UINT64_LIMIT && e.seqNo < UINT64_LIMIT
    ensures Covered(k, s.ckpts)
  {
    assert AtOrBelow(k, s.events, s.ckpts);
    var c := s.ckpts[k.workspaceId];
    EventKeyOrder(k.workspaceId, k.ts, k.seqNo, c.ts, c.seqNo);
  }

  // ---- Documents ----

  ghost predicate DocsInv(docs: map<RecKey, Record>, opMs: nat) {
    forall k :: k in docs ==> Settled(k, docs[k]) && docs[k].lastAccessMs > 0 && docs[k].updatedAtMs <= opMs
  }

  /** What is resident is stored, up to access statistics. */
  ghost predicate ResidentInv(records: map<RecKey, Record>, docs: map<RecKey, Record>) {
    forall k :: k in records ==> k in docs && SameButAccess(records[k], docs[k])
  }

  /** A pinned document is never evicted. */
  ghost predicate PinnedResident(records: map<RecKey, Record>, docs: map<RecKey, Record>) {
    forall k :: k in docs && docs[k].pinned ==> k in records
  }

  lemma {:induction false} BatchKeepsDocs(s: Store, m: Memory, resident: map<RecKey, Record>, actions: seq<Action>, opMs: nat,
                                          before: nat, firstSeq: nat, lastSeq: nat, lastMs: nat, charge: Record -> nat)
    requires DocsInv(s.docs, before) && before <= opMs && ResidentInv(m.records, s.docs) && PinnedResident(m.records, s.docs)
    requires Stamped(actions, resident, opMs, firstSeq, lastSeq, lastMs)
    ensures DocsInv(ActAll(s, resident, actions).docs, opMs)
    ensures ResidentInv(ActMemAll(m, actions, charge).records, ActAll(s, resident, actions).docs)
    ensures PinnedResident(ActMemAll(m, actions, charge).records, ActAll(s, resident, actions).docs)
  {
    if actions != [] {
      var n := |actions| - 1;
      StampedPrefix(actions, resident, opMs, firstSeq, lastSeq, lastMs);
      BatchKeepsDocs(s, m, resident, actions[..n], opMs, before, firstSeq, lastSeq, lastMs, charge);
      assert WellFormed(actions[n], resident, opMs);
      ActKeepsDocs(ActAll(s, resident, actions[..n]), ActMemAll(m, actions[..n], charge), resident, actions[n], opMs, charge);
    }
  }

  lemma ActKeepsDocs(s: Store, m: Memory, resident: map<RecKey, Record>, a: Action, opMs: nat, charge: Record -> nat)
    requires DocsInv(s.docs, opMs) && ResidentInv(m.records, s.docs) && PinnedResident(m.records, s.docs)
    requires WellFormed(a, resident, opMs)
    ensures DocsInv(Act(s, resident, a).docs, opMs)
    ensures ResidentInv(ActMem(m, a, charge).records, Act(s, resident, a).docs)
    ensures PinnedResident(ActMem(m, a, charge).records, Act(s, resident, a).docs)
  {
    ActParts(s, resident, a);
    ActMemRecords(m, a, charge);
    var k := KeyOf(a.record);
    if a.Save? {
      PutKeepsDocs(s.docs, m.records, k, a.record, opMs);
    } else {
      DropKeepsDocs(s.docs, m.records, k, opMs);
    }
  }

  lemma PutKeepsDocs(docs: map<RecKey, Record>, records: map<RecKey, Record>, k: RecKey, r: Record, opMs: nat)
    requires DocsInv(docs, opMs) && ResidentInv(records, docs) && PinnedResident(records, docs)
    requires Settled(k, r) && r.lastAccessMs > 0 && r.updatedAtMs <= opMs
    ensures DocsInv(docs[k := r], opMs) && ResidentInv(records[k := r], docs[k := r]) && PinnedResident(records[k := r], docs[k := r])
  {
  }

  lemma DropKeepsDocs(docs: map<RecKey, Record>, records: map<RecKey, Record>, k: RecKey, opMs: nat)
    requires DocsInv(docs, opMs) && ResidentInv(records, docs) && PinnedResident(records, docs)
    ensures DocsInv(docs - {k}, opMs) && ResidentInv(records - {k}, docs - {k}) && PinnedResident(records - {k}, docs - {k})
  {
  }
}
