/** The memory engine (src/core/memory_engine.cpp). Its methods build batches of store writes,
    commit them whole or not at all, and update the maps, the byte counter and the retriever. */
module Engine {
  import G = Graves
  import opened Bytes
  import opened Collections
  import opened Compaction
  import opened EngineModel
  import opened EngineQuery
  import opened EngineRuns
  import opened Eviction
  import opened Keys
  import opened Postings
  import opened Records
  import opened Recovery
  import opened Replay
  import opened Restarts
  import opened RetrievalModel
  import opened Retriever
  import opened StoreScans
  import opened Tokenizer
  import opened VectorIndex
  import opened WritePlans

  // ---- What a sequence of writes amounts to ----

  function RowsOf(r: Record, terms: set<Str>): (rows: set<TermKey>) {
    set t | t in terms :: (r.workspaceId, t, r.id)
  }

  function WithoutRows(s: Store, rows: set<TermKey>): (s': Store) {
    s.(postings := s.postings - rows)
  }

  lemma ApplyLast(s: Store, writes: seq<StoreWrite>, w: StoreWrite)
    ensures ApplyAll(s, writes + [w]) == Apply(ApplyAll(s, writes), w)
  {
    assert (writes + [w])[..|writes|] == writes;
  }

  lemma WithoutNext(s: Store, rows: set<TermKey>, row: TermKey)
    ensures Apply(WithoutRows(s, rows), DropPosting(row)) == WithoutRows(s, rows + {row})
    ensures WithoutRows(s, {}) == s
  {
    assert s.postings - rows - {row} == s.postings - (rows + {row});
    assert s.postings - {} == s.postings;
  }

  /** Deletes the posting rows of a record's terms. */
  method DeleteTerms(r: Record, writes0: seq<StoreWrite>, ghost base: Store) returns (writes: seq<StoreWrite>)
    ensures ApplyAll(base, writes) == WithoutRows(ApplyAll(base, writes0), TermRows(r))
  {
    writes := writes0;
    var tokens := Tokenize(r.content);
    var terms := Enumerate(Elements(tokens));
    AllElements(terms);
    ghost var start := ApplyAll(base, writes0);
    WithoutNext(start, {}, ([], [], []));
    for i := 0 to |terms|
      invariant ApplyAll(base, writes) == WithoutRows(start, RowsOf(r, Elements(terms[..i])))
    {
      NextElement(terms, i);
      var row := (r.workspaceId, terms[i], r.id);
      ApplyLast(base, writes, DropPosting(row));
      WithoutNext(start, RowsOf(r, Elements(terms[..i])), row);
      RowsOfNext(r, Elements(terms[..i]), terms[i]);
      writes := writes + [DropPosting(row)];
    }
    assert RowsOf(r, Elements(tokens)) == TermRows(r);
  }

  /** The store with some of these rows written. */
  function WithRows(s: Store, rows: map<TermKey, Posting>, keys: set<TermKey>): (s': Store) {
    s.(postings := s.postings + map row | row in keys && row in rows :: rows[row])
  }

  lemma WithNext(s: Store, rows: map<TermKey, Posting>, keys: set<TermKey>, row: TermKey)
    requires row in rows
    ensures Apply(WithRows(s, rows, keys), PutPosting(row, rows[row])) == WithRows(s, rows, keys + {row})
  {
    assert WithRows(s, rows, keys).postings[row := rows[row]] == WithRows(s, rows, keys + {row}).postings;
  }

  lemma WithNoneOrAll(s: Store, rows: map<TermKey, Posting>)
    ensures WithRows(s, rows, {}) == s && WithRows(s, rows, rows.Keys) == s.(postings := s.postings + rows)
  {
    assert WithRows(s, rows, {}).postings == s.postings;
    assert (map row | row in rows.Keys && row in rows :: rows[row]) == rows;
  }

  /** These are the rows that counting a record's tokens gives. */
  ghost predicate RowsCount(rows: map<TermKey, Posting>, r: Record, tf: map<Str, nat>, docLen: nat) {
    && rows.Keys == RowsOf(r, tf.Keys)
    && forall t :: t in tf ==>
         var row := (r.workspaceId, t, r.id);
         row in rows && rows[row] == Posting(r.id, tf[t], docLen, r.pinned, r.updatedAtMs)
  }

  lemma PostingRowsCount(r: Record)
    ensures RowsCount(PostingRows(r), r, Frequencies(TokensOf(r.content)), |TokensOf(r.content)|)
  {
    assert RowsOf(r, Frequencies(TokensOf(r.content)).Keys) == TermRows(r);
    forall t | t in Frequencies(TokensOf(r.content)) ensures (r.workspaceId, t, r.id) in PostingRows(r) {
      assert (r.workspaceId, t, r.id) in TermRows(r);
    }
  }

  /** Writes the posting rows of a record. */
  method PutTerms(r: Record, writes0: seq<StoreWrite>, ghost base: Store) returns (writes: seq<StoreWrite>)
    ensures ApplyAll(base, writes)
         == ApplyAll(base, writes0).(postings := ApplyAll(base, writes0).postings + PostingRows(r))
  {
    var tokens := Tokenize(r.content);
    var tf := CountTerms(tokens);
    PostingRowsCount(r);
    writes := PutRows(r, tf, |tokens|, writes0, base, PostingRows(r));
  }

  method PutRows(r: Record, tf: map<Str, nat>, docLen: nat, writes0: seq<StoreWrite>, ghost base: Store, ghost rows: map<TermKey, Posting>)
    returns (writes: seq<StoreWrite>)
    requires RowsCount(rows, r, tf, docLen)
    ensures ApplyAll(base, writes) == ApplyAll(base, writes0).(postings := ApplyAll(base, writes0).postings + rows)
  {
    writes := writes0;
    var terms := Enumerate(tf.Keys);
    AllElements(terms);
    ghost var start := ApplyAll(base, writes0);
    WithNoneOrAll(start, rows);
    for i := 0 to |terms|
      invariant ApplyAll(base, writes) == WithRows(start, rows, RowsOf(r, Elements(terms[..i])))
    {
      NextElement(terms, i);
      var t := terms[i];
      var w := PutPosting((r.workspaceId, t, r.id), Posting(r.id, tf[t], docLen, r.pinned, r.updatedAtMs));
      WithNext(start, rows, RowsOf(r, Elements(terms[..i])), (r.workspaceId, t, r.id));
      RowsOfNext(r, Elements(terms[..i]), t);
      ApplyLast(base, writes, w);
      writes := writes + [w];
    }
  }

  lemma RowsOfNext(r: Record, terms: set<Str>, t: Str)
    ensures RowsOf(r, terms + {t}) == RowsOf(r, terms) + {(r.workspaceId, t, r.id)}
  {
  }

  // ---- Store effects of saving, erasing and logging ----

  /** The rows of a resident predecessor go. */
  function ClearedOld(s: Store, resident: map<RecKey, Record>, k: RecKey): (s': Store) {
    if k in resident then WithoutRows(s, TermRows(resident[k])).(vecFp := s.vecFp - {k}) else s
  }

  /** The rows of the record itself go, or come. */
  function OwnRows(s: Store, r: Record): (s': Store) {
    if r.tombstone then WithoutRows(s, TermRows(r)).(vecFp := s.vecFp - {KeyOf(r)})
    else s.(vecFp := s.vecFp[KeyOf(r) := VecFp(r.content, r.updatedAtMs)], postings := s.postings + PostingRows(r))
  }

  lemma PostingsFromParts(postings: map<TermKey, Posting>, old': set<TermKey>, own: set<TermKey>, rows: map<TermKey, Posting>)
    ensures postings - old' - own == postings - (old' + own) + map[]
    ensures postings - old' + rows == postings - (old' + {}) + rows
    ensures postings - {} == postings
  {
  }

  lemma VectorsFromParts(vecFp: map<RecKey, VecFp>, k: RecKey, fp: VecFp)
    ensures vecFp - {k} - {k} == vecFp - {k} && (vecFp - {k})[k := fp] == vecFp[k := fp]
  {
  }

  lemma PersistedFromParts(s: Store, resident: map<RecKey, Record>, r: Record)
    ensures OwnRows(ClearedOld(s.(docs := s.docs[KeyOf(r) := r]), resident, KeyOf(r)), r) == Persisted(s, resident, r)
  {
    var old' := if KeyOf(r) in resident then TermRows(resident[KeyOf(r)]) else {};
    PostingsFromParts(s.postings, old', TermRows(r), PostingRows(r));
    PostingsFromParts(s.postings, {}, TermRows(r), PostingRows(r));
    VectorsFromParts(s.vecFp, KeyOf(r), VecFp(r.content, r.updatedAtMs));
  }

  lemma ErasedFromParts(s: Store, r: Record)
    ensures WithoutRows(s.(docs := s.docs - {KeyOf(r)}).(vecFp := s.vecFp - {KeyOf(r)}), TermRows(r)) == Erased(s, r)
  {
  }

  lemma LoggedFromParts(s: Store, writes: seq<StoreWrite>, a: Action)
    ensures var put := writes + [PutEvent(EventKeyOf(a), EventOf(a))];
      ApplyAll(s, if a.record.workspaceId == [] then put else put + [PutCkpt(a.record.workspaceId, EventKeyOf(a))])
      == Logged(ApplyAll(s, writes), a)
  {
    var put := writes + [PutEvent(EventKeyOf(a), EventOf(a))];
    ApplyLast(s, writes, PutEvent(EventKeyOf(a), EventOf(a)));
    ApplyLast(s, put, PutCkpt(a.record.workspaceId, EventKeyOf(a)));
  }

  method ComputeWorkspacePinStats(records: map<RecKey, Record>, workspaceId: Str) returns (active: nat, pinned: nat)
    ensures active == |ActiveKeys(records, workspaceId)| && pinned == |PinnedKeys(records, workspaceId)|
  {
    active, pinned := 0, 0;
    var left := records.Keys;
    PinStatsAll(records, workspaceId);
    while left != {}
      invariant left <= records.Keys
      invariant active + ActiveAmong(records, workspaceId, left) == |ActiveKeys(records, workspaceId)|
      invariant pinned + PinnedAmong(records, workspaceId, left) == |PinnedKeys(records, workspaceId)|
      decreases |left|
    {
      var k :| k in left;
      PinStatsNext(records, workspaceId, left, k);
      left := left - {k};
      var r := records[k];
      if r.workspaceId == workspaceId && !r.tombstone {
        active := active + 1;
        if r.pinned {
          pinned := pinned + 1;
        }
      }
    }
  }

  ghost function ActiveAmong(records: map<RecKey, Record>, ws: Str, ks: set<RecKey>): nat {
    |ActiveKeys(records, ws) * ks|
  }

  ghost function PinnedAmong(records: map<RecKey, Record>, ws: Str, ks: set<RecKey>): nat {
    |PinnedKeys(records, ws) * ks|
  }

  lemma PinStatsAll(records: map<RecKey, Record>, ws: Str)
    ensures ActiveAmong(records, ws, {}) == 0 && ActiveAmong(records, ws, records.Keys) == |ActiveKeys(records, ws)|
    ensures PinnedAmong(records, ws, {}) == 0 && PinnedAmong(records, ws, records.Keys) == |PinnedKeys(records, ws)|
  {
    assert ActiveKeys(records, ws) * {} == {} && PinnedKeys(records, ws) * {} == {};
    assert ActiveKeys(records, ws) * records.Keys == ActiveKeys(records, ws);
    assert PinnedKeys(records, ws) * records.Keys == PinnedKeys(records, ws);
  }

  lemma PinStatsNext(records: map<RecKey, Record>, ws: Str, left: set<RecKey>, k: RecKey)
    requires k in left && k in records
    ensures var active := records[k].workspaceId == ws && !records[k].tombstone;
      && ActiveAmong(records, ws, left) == ActiveAmong(records, ws, left - {k}) + (if active then 1 else 0)
      && PinnedAmong(records, ws, left) == PinnedAmong(records, ws, left - {k}) + if active && records[k].pinned then 1 else 0
  {
    CountOne(ActiveKeys(records, ws), left, k);
    CountOne(PinnedKeys(records, ws), left, k);
  }

  // ---- A Write in the making ----

  /** The local variables of a Write: the store writes, the records to keep, the report, the
      projected counts, and the clock readings used. */
  datatype Draft = Draft(writes: seq<StoreWrite>, upserts: seq<Record>, storedIds: seq<Str>, dedupedIds: seq<Str>,
                         warnings: seq<Warning>, active: nat, pinned: nat, tick: nat)

  datatype WriteOutput = WriteOutput(ok: bool, storedIds: seq<Str>, dedupedIds: seq<Str>, warnings: seq<Warning>)

  ghost predicate Keeps(upserts: seq<Record>, actions: seq<Action>) {
    |upserts| == |actions| && forall i :: 0 <= i < |actions| ==> actions[i].Save? && upserts[i] == actions[i].record
  }

  /** The draft carries out the plan. */
  ghost predicate Drafts(d: Draft, p: WritePlan, base: Store, resident: map<RecKey, Record>) {
    && ApplyAll(base, d.writes) == ActAll(base, resident, p.actions)
    && (d.writes == [] <==> p.actions == [])
    && Keeps(d.upserts, p.actions)
    && DraftReport(d) == PlanReport(p)
  }

  ghost function IsDraft(d: Draft, p: WritePlan, base: Store, resident: map<RecKey, Record>): Verdict {
    Judge(Drafts(d, p, base, resident))
  }

  datatype Report = Report(storedIds: seq<Str>, dedupedIds: seq<Str>, warnings: seq<Warning>, active: nat, pinned: nat, tick: nat)

  /** The warnings of the plan, and one more if the store refuses the batch. */
  function WriteWarnings(p: WritePlan, stored: bool): (ws: seq<Warning>) {
    if p.actions == [] || stored then p.warnings else p.warnings + [StoreFailed]
  }

  function DraftReport(d: Draft): (r: Report) {
    Report(d.storedIds, d.dedupedIds, d.warnings, d.active, d.pinned, d.tick)
  }

  function PlanReport(p: WritePlan): (r: Report) {
    Report(p.storedIds, p.dedupedIds, p.warnings, p.active, p.pinned, p.tick)
  }

  lemma DraftGrows(d: Draft, p: WritePlan, base: Store, resident: map<RecKey, Record>, d': Draft, p': WritePlan, a: Action)
    requires Drafts(d, p, base, resident) && a.Save?
    requires p'.actions == p.actions + [a] && d'.upserts == d.upserts + [a.record]
    requires ApplyAll(base, d'.writes) == Act(ApplyAll(base, d.writes), resident, a) && d'.writes != []
    requires DraftReport(d') == PlanReport(p')
    ensures Drafts(d', p', base, resident)
  {
    assert p'.actions[..|p'.actions| - 1] == p.actions;
  }

  // ---- Scans ----

  predicate DocAtMost(a: RecKey, b: RecKey) {
    AtMost(BuildDocKey(a.0, a.1), BuildDocKey(b.0, b.1))
  }

  method ScanDocs(keys: set<RecKey>) returns (ks: seq<RecKey>)
    ensures IsListing(ks, keys) && Sorted(ks, DocAtMost)
  {
    AtMostIsTotalOrder();
    var some := Enumerate(keys);
    ks := Sort(some, DocAtMost);
    SameMultisetSameElements(some, ks);
  }

  method ScanEvents(keys: set<EventKey>) returns (ks: seq<EventKey>)
    ensures IsListing(ks, keys) && Sorted(ks, KeyAtMost)
  {
    AtMostIsTotalOrder();
    var some := Enumerate(keys);
    ks := Sort(some, KeyAtMost);
    SameMultisetSameElements(some, ks);
  }

  // ---- A compaction in the making ----

  /** Its local variables: the store writes, the tombstones to keep, the records to forget, the
      counts, and the clock readings used. */
  datatype CompactDraft = CompactDraft(writes: seq<StoreWrite>, upserts: seq<Record>, removals: seq<Record>,
                                       tombstoned: nat, deleted: nat, tick: nat)

  datatype CompactOutput = CompactOutput(triggered: bool, tombstoned: nat, deleted: nat)

  ghost predicate Erases(removals: seq<Record>, actions: seq<Action>) {
    |removals| == |actions| && forall i :: 0 <= i < |actions| ==> actions[i].Erase? && removals[i] == actions[i].record
  }

  lemma EraseOneMore(m: Memory, saves: seq<Action>, erases: seq<Action>, removals: seq<Record>, i: nat, charge: Record -> nat)
    requires Erases(removals, erases) && i < |erases|
    ensures ActMemAll(m, saves + erases[..i + 1], charge) == Removed(ActMemAll(m, saves + erases[..i], charge), removals[i])
  {
    ActOneMore(m, saves + erases[..i], erases[i], charge);
    assert saves + erases[..i + 1] == saves + erases[..i] + [erases[i]];
  }

  /** The actions first save the upserts and then erase the removals. */
  ghost predicate SavesThenErases(actions: seq<Action>, upserts: seq<Record>, removals: seq<Record>) {
    && |upserts| <= |actions|
    && Keeps(upserts, actions[..|upserts|])
    && Erases(removals, actions[|upserts|..])
  }

  ghost predicate DraftsCompaction(d: CompactDraft, p: CompactPlan, base: Store, resident: map<RecKey, Record>) {
    && ApplyAll(base, d.writes) == ActAll(base, resident, p.actions)
    && (d.writes == [] <==> p.actions == [])
    && SavesThenErases(p.actions, d.upserts, d.removals)
    && (d.tombstoned, d.deleted, d.tick) == (p.tombstoned, p.deleted, p.tick)
  }

  lemma CompactionGrows(d: CompactDraft, p: CompactPlan, base: Store, resident: map<RecKey, Record>, d': CompactDraft, p': CompactPlan, a: Action)
    requires DraftsCompaction(d, p, base, resident) && (a.Save? ==> d.removals == [])
    requires p'.actions == p.actions + [a]
    requires d'.upserts == d.upserts + (if a.Save? then [a.record] else []) && d'.removals == d.removals + if a.Save? then [] else [a.record]
    requires ApplyAll(base, d'.writes) == Act(ApplyAll(base, d.writes), resident, a) && d'.writes != []
    requires (d'.tombstoned, d'.deleted, d'.tick) == (p'.tombstoned, p'.deleted, p'.tick)
    ensures DraftsCompaction(d', p', base, resident)
  {
    assert p'.actions[..|p'.actions| - 1] == p.actions;
    SavesThenErasesGrows(p.actions, d.upserts, d.removals, a);
  }

  lemma KeepsGrows(upserts: seq<Record>, actions: seq<Action>, a: Action)
    requires Keeps(upserts, actions) && a.Save?
    ensures Keeps(upserts + [a.record], actions + [a])
  {
  }

  lemma SavesThenErasesGrows(actions: seq<Action>, upserts: seq<Record>, removals: seq<Record>, a: Action)
    requires SavesThenErases(actions, upserts, removals) && (a.Save? ==> removals == [])
    ensures SavesThenErases(actions + [a], upserts + (if a.Save? then [a.record] else []), removals + if a.Save? then [] else [a.record])
  {
    var n := |upserts|;
    if a.Save? {
      assert actions[..n] == actions && (actions + [a])[..n + 1] == actions + [a];
      KeepsGrows(upserts, actions, a);
    } else {
      assert upserts + [] == upserts && (actions + [a])[..n] == actions[..n] && (actions + [a])[n..] == actions[n..] + [a];
      ErasesGrows(removals, actions[n..], a);
    }
  }

  lemma ErasesGrows(removals: seq<Record>, actions: seq<Action>, a: Action)
    requires Erases(removals, actions) && a.Erase?
    ensures Erases(removals + [a.record], actions + [a])
  {
  }

  ghost predicate NeverZero(charge: Record -> nat) {
    forall r :: charge(r) > 0
  }

  class MemoryEngine {
    const options: Options
    /** What a resident record is charged. */
    const charge: Record -> nat
    const log1p: real -> real
    const retriever: HybridRetriever

    /** The rows of the store adapter, which applies a batch whole or not at all. */
    var store: Store
    var records: map<RecKey, Record>
    var dedupIndex: map<(Str, Str), Str>
    var residentChargeBytes: map<RecKey, nat>
    var residentUsedBytes: nat
    var localSeq: nat

    /** A time no clock reading so far is later than, the start of this run, and of the last operation that writes. */
    ghost var clockMs: nat
    ghost var runStart: nat
    ghost var opMs: nat

    /** A new engine over an existing store; nothing is resident until it is warmed up. */
    constructor (store: Store, options: Options, embeddingDim: nat, embed: Str -> Vector, log: real -> real, log1p: real -> real)
      ensures retriever.Valid() && fresh(retriever) && fresh(retriever.vectorIndex) && retriever.embed == embed && retriever.log == log
      ensures this.options == options && charge == ChargeBy(embeddingDim) && this.log1p == log1p
      ensures this.store == store && Mem() == EMPTY_MEMORY && localSeq == 0
    {
      this.store, this.options, charge, this.log1p := store, options, ChargeBy(embeddingDim), log1p;
      retriever := new HybridRetriever(embed, log);
      records, dedupIndex, residentChargeBytes, residentUsedBytes, localSeq := map[], map[], map[], 0, 0;
      clockMs, runStart, opMs := 0, 0, 0;
    }

    ghost function Cfg(): Config {
      Config(options, charge, log1p)
    }

    ghost function Mem(): Memory
      reads this, retriever
    {
      Memory(records, residentChargeBytes, residentUsedBytes, retriever.indexed, dedupIndex)
    }

    ghost function Now(): State
      reads this, retriever
    {
      State(store, Mem(), localSeq, clockMs, runStart, opMs)
    }

    ghost predicate Valid()
      reads this, retriever, retriever.vectorIndex
    {
      retriever.Valid() && IgnoresAccess(charge) && NeverZero(charge) && InvHolds(Cfg(), Now()) == Yes
    }

    // ---- Memory ----

    method UpsertRecordInMemory(record: Record)
      requires retriever.Valid() && charge(record) > 0
      modifies this`records, this`dedupIndex, this`residentChargeBytes, this`residentUsedBytes, retriever, retriever.vectorIndex
      ensures retriever.Valid() && residentUsedBytes < UINT64_LIMIT
      ensures Mem() == Upserted(old(Mem()), record, charge)
    {
      var mapKey := KeyOf(record);
      var newCharge := charge(record);
      var oldCharge := if mapKey in residentChargeBytes then residentChargeBytes[mapKey] else 0;
      records := records[mapKey := record];
      if record.dedupKey != [] {
        dedupIndex := dedupIndex[(record.workspaceId, record.dedupKey) := record.id];
      }
      residentChargeBytes := if newCharge == 0 then residentChargeBytes - {mapKey} else residentChargeBytes[mapKey := newCharge];
      if record.tombstone {
        retriever.Remove(record.workspaceId, record.id);
      } else {
        retriever.Index(record);
      }
      if newCharge >= oldCharge {
        residentUsedBytes := (residentUsedBytes + (newCharge - oldCharge)) % UINT64_LIMIT;
      } else {
        residentUsedBytes := (residentUsedBytes - (oldCharge - newCharge)) % UINT64_LIMIT;
      }
    }

    method RemoveRecordInMemory(record: Record)
      requires retriever.Valid() && residentUsedBytes < UINT64_LIMIT
      modifies this`records, this`dedupIndex, this`residentChargeBytes, this`residentUsedBytes, retriever, retriever.vectorIndex
      ensures retriever.Valid() && residentUsedBytes < UINT64_LIMIT
      ensures Mem() == Removed(old(Mem()), record)
    {
      var mapKey := KeyOf(record);
      var removedCharge := if mapKey in residentChargeBytes then residentChargeBytes[mapKey] else 0;
      residentChargeBytes := residentChargeBytes - {mapKey};
      if mapKey !in records {
        return;
      }
      if records[mapKey].dedupKey != [] {
        dedupIndex := dedupIndex - {(record.workspaceId, records[mapKey].dedupKey)};
      }
      records := records - {mapKey};
      if removedCharge > 0 {
        residentUsedBytes := (residentUsedBytes - removedCharge) % UINT64_LIMIT;
      }
      retriever.Remove(record.workspaceId, record.id);
    }

    // ---- Batches ----

    method PersistRecord(record: Record, writes0: seq<StoreWrite>, ghost base: Store) returns (writes: seq<StoreWrite>)
      requires WellKeyed(records)
      ensures ApplyAll(base, writes) == Persisted(ApplyAll(base, writes0), records, record)
    {
      var mapKey := KeyOf(record);
      ghost var start := ApplyAll(base, writes0);
      ApplyLast(base, writes0, PutDoc(record));
      writes := writes0 + [PutDoc(record)];
      if mapKey in records {
        writes := DeleteTerms(records[mapKey], writes, base);
        ApplyLast(base, writes, DropVec(KeyOf(records[mapKey])));
        writes := writes + [DropVec(KeyOf(records[mapKey]))];
      }
      assert ApplyAll(base, writes) == ClearedOld(start.(docs := start.docs[mapKey := record]), records, mapKey);
      writes := WriteOwnRows(record, writes, base);
      PersistedFromParts(start, records, record);
    }

    method WriteOwnRows(record: Record, writes0: seq<StoreWrite>, ghost base: Store) returns (writes: seq<StoreWrite>)
      ensures ApplyAll(base, writes) == OwnRows(ApplyAll(base, writes0), record)
    {
      var mapKey := KeyOf(record);
      if record.tombstone {
        writes := DeleteTerms(record, writes0, base);
        ApplyLast(base, writes, DropVec(mapKey));
        writes := writes + [DropVec(mapKey)];
        return;
      }
      writes := writes0 + [PutVec(mapKey, VecFp(record.content, record.updatedAtMs))];
      ApplyLast(base, writes0, PutVec(mapKey, VecFp(record.content, record.updatedAtMs)));
      ghost var start, put := ApplyAll(base, writes0), ApplyAll(base, writes);
      assert put == start.(vecFp := start.vecFp[mapKey := VecFp(record.content, record.updatedAtMs)]);
      writes := PutTerms(record, writes, base);
    }

    method DeleteRecordStorage(record: Record, writes0: seq<StoreWrite>, ghost base: Store) returns (writes: seq<StoreWrite>)
      ensures ApplyAll(base, writes) == Erased(ApplyAll(base, writes0), record)
    {
      var first := writes0 + [DropDoc(KeyOf(record))];
      ApplyLast(base, writes0, DropDoc(KeyOf(record)));
      ApplyLast(base, first, DropVec(KeyOf(record)));
      writes := DeleteTerms(record, first + [DropVec(KeyOf(record))], base);
      ErasedFromParts(ApplyAll(base, writes0), record);
    }

    /** The event is stamped with the later of the record's time and a new clock reading. */
    method AppendProjectionEvent(record: Record, op: OpType, nowMs: nat, writes0: seq<StoreWrite>)
      returns (writes: seq<StoreWrite>, key: EventKey)
      modifies this`localSeq
      ensures localSeq == old(localSeq) + 1
      ensures key == EventKey(if record.workspaceId == [] then DEFAULT else record.workspaceId, Max(record.updatedAtMs, nowMs), localSeq)
      ensures writes == writes0 + [PutEvent(key, Event(record.id, op, Max(record.updatedAtMs, nowMs), record.version, record))]
    {
      var ts := Max(record.updatedAtMs, nowMs);
      localSeq := localSeq + 1;
      key := EventKey(if record.workspaceId == [] then DEFAULT else record.workspaceId, ts, localSeq);
      writes := writes0 + [PutEvent(key, Event(record.id, op, ts, record.version, record))];
    }

    method AppendProjectionCheckpoint(workspaceId: Str, key: EventKey, writes0: seq<StoreWrite>) returns (writes: seq<StoreWrite>)
      ensures writes == if workspaceId == [] then writes0 else writes0 + [PutCkpt(workspaceId, key)]
    {
      if workspaceId == [] {
        return writes0;
      }
      writes := writes0 + [PutCkpt(workspaceId, key)];
    }

    /** The event of an action, and its checkpoint. */
    method AppendLog(record: Record, op: OpType, nowMs: nat, writes0: seq<StoreWrite>, ghost base: Store, ghost a: Action)
      returns (writes: seq<StoreWrite>)
      requires a.record == record && EventOf(a).op == op && a.ts == Max(record.updatedAtMs, nowMs) && a.seqNo == localSeq + 1
      modifies this`localSeq
      ensures localSeq == old(localSeq) + 1
      ensures ApplyAll(base, writes) == Logged(ApplyAll(base, writes0), a) && writes != []
    {
      var key;
      LoggedFromParts(base, writes0, a);
      writes, key := AppendProjectionEvent(record, op, nowMs, writes0);
      writes := AppendProjectionCheckpoint(record.workspaceId, key, writes);
    }

    /** A record saved, its event and its checkpoint. */
    method SaveAndLog(record: Record, op: OpType, nowMs: nat, writes0: seq<StoreWrite>, ghost base: Store)
      returns (writes: seq<StoreWrite>, ghost a: Action)
      requires WellKeyed(records)
      modifies this`localSeq
      ensures localSeq == old(localSeq) + 1
      ensures a == Save(record, op, Max(record.updatedAtMs, nowMs), localSeq)
      ensures ApplyAll(base, writes) == Act(ApplyAll(base, writes0), records, a) && writes != []
    {
      writes := PersistRecord(record, writes0, base);
      a := Save(record, op, Max(record.updatedAtMs, nowMs), localSeq + 1);
      writes := AppendLog(record, op, nowMs, writes, base, a);
    }

    /** A record physically deleted, its event and its checkpoint. */
    method EraseAndLog(record: Record, nowMs: nat, writes0: seq<StoreWrite>, ghost base: Store)
      returns (writes: seq<StoreWrite>, ghost a: Action)
      modifies this`localSeq
      ensures localSeq == old(localSeq) + 1
      ensures a == Erase(record, Max(record.updatedAtMs, nowMs), localSeq)
      ensures ApplyAll(base, writes) == Act(ApplyAll(base, writes0), records, a) && writes != []
    {
      writes := DeleteRecordStorage(record, writes0, base);
      a := Erase(record, Max(record.updatedAtMs, nowMs), localSeq + 1);
      writes := AppendLog(record, DeleteOp, nowMs, writes, base, a);
    }

    /** The store takes the batch or refuses it. */
    method PersistBatchNow(writes: seq<StoreWrite>, stored: bool) returns (ok: bool)
      modifies this`store
      ensures ok == stored
      ensures store == if stored then ApplyAll(old(store), writes) else old(store)
    {
      if stored {
        store := ApplyAll(store, writes);
      }
      return stored;
    }

    // ---- Write ----

    /** One record of the input. */
    method DraftRecord(d: Draft, input: WriteInput, rec: WriteRecordInput, nowMs: nat, clock: nat -> nat, ghost p: WritePlan)
      returns (d': Draft)
      requires WellKeyed(records) && IsDraft(d, p, store, records) == Yes && p.seqNo == localSeq
      modifies this`localSeq
      ensures var p' := PlanStep(p, dedupIndex, input, rec, options, nowMs, clock);
        IsDraft(d', p', store, records) == Yes && p'.seqNo == localSeq
    {
      if rec.content == [] {
        return d.(warnings := d.warnings + [EmptyContent]);
      }
      if rec.dedupKey != [] && input.writeMode != APPEND && (input.workspaceId, rec.dedupKey) in dedupIndex {
        return d.(dedupedIds := d.dedupedIds + [dedupIndex[(input.workspaceId, rec.dedupKey)]]);
      }
      d' := DraftNew(d, input, rec, nowMs, clock, p);
    }

    method DraftNew(d: Draft, input: WriteInput, rec: WriteRecordInput, nowMs: nat, clock: nat -> nat, ghost p: WritePlan)
      returns (d': Draft)
      requires WellKeyed(records) && Drafts(d, p, store, records) && p.seqNo == localSeq
      modifies this`localSeq
      ensures var p' := PlanNew(p, input, rec, options, nowMs, clock);
        Drafts(d', p', store, records) && p'.seqNo == localSeq
    {
      var id, tick := rec.recordId, d.tick;
      if id == [] {
        id := NextMemoryId(clock(d.tick), localSeq);
        localSeq := localSeq + 1;
        tick := d.tick + 1;
      }
      d' := DraftNamed(d.(tick := tick), input, rec, nowMs, clock, id, Numbered(p, rec));
    }

    method DraftNamed(d: Draft, input: WriteInput, rec: WriteRecordInput, nowMs: nat, clock: nat -> nat, id: Str, ghost p: WritePlan)
      returns (d': Draft)
      requires WellKeyed(records) && Drafts(d, p, store, records) && p.seqNo == localSeq
      modifies this`localSeq
      ensures var p' := PlanNamed(p, input, rec, options, nowMs, clock, id);
        Drafts(d', p', store, records) && p'.seqNo == localSeq
    {
      var decision := DecidePin(rec.pin, d.pinned, d.active, options);
      var record := NewRecord(input, rec, id, decision.Granted?, nowMs, options);
      var warnings := PinWarnings(decision, id);
      d' := DraftKept(d.(warnings := d.warnings + warnings), record, clock, p.(warnings := p.warnings + warnings));
    }

    method DraftKept(d: Draft, record: Record, clock: nat -> nat, ghost p: WritePlan) returns (d': Draft)
      requires WellKeyed(records) && Drafts(d, p, store, records) && p.seqNo == localSeq
      modifies this`localSeq
      ensures var p' := PlanKept(p, record, options, clock);
        Drafts(d', p', store, records) && p'.seqNo == localSeq
    {
      if record.sizeBytes > options.maxRecordBytes {
        return d.(warnings := d.warnings + [Oversized(record.id)]);
      }
      var writes; ghost var a;
      writes, a := SaveAndLog(record, UpsertOp, clock(d.tick), d.writes, store);
      d' := Draft(writes, d.upserts + [record], d.storedIds + [record.id], d.dedupedIds, d.warnings,
                  d.active + 1, d.pinned + (if record.pinned then 1 else 0), d.tick + 1);
      DraftGrows(d, p, store, records, d', PlanKept(p, record, options, clock), a);
    }

    /** The readings of an operation: they never fall, follow all earlier ones, and fit 64 bits. */
    ghost predicate Readings(clock: nat -> nat)
      reads this`clockMs
    {
      Monotone(clock) && clock(0) >= clockMs && forall i :: clock(i) < UINT64_LIMIT
    }

    method DraftAll(input: WriteInput, clock: nat -> nat) returns (d: Draft)
      requires WellKeyed(records)
      modifies this`localSeq
      ensures var p := PlanWrite(Mem(), old(localSeq), input, |input.records|, options, clock);
        IsDraft(d, p, store, records) == Yes && p.seqNo == localSeq
      ensures Mem() == old(Mem())
    {
      var nowMs := clock(0);
      var active, pinned := ComputeWorkspacePinStats(records, input.workspaceId);
      d := Draft([], [], [], [], [], active, pinned, 1);
      ghost var m, seqNo := Mem(), localSeq;
      ghost var p := PlanWrite(m, seqNo, input, 0, options, clock);
      for i := 0 to |input.records|
        invariant p == PlanWrite(m, seqNo, input, i, options, clock)
        invariant IsDraft(d, p, store, records) == Yes && p.seqNo == localSeq
      {
        d := DraftRecord(d, input, input.records[i], nowMs, clock, p);
        PlanWriteOneMore(m, seqNo, input, i, options, clock, p);
        p := PlanStep(p, dedupIndex, input, input.records[i], options, nowMs, clock);
      }
    }

    /** Keeps the saved records in memory. */
    method UpsertAll(upserts: seq<Record>, ghost actions: seq<Action>)
      requires retriever.Valid() && NeverZero(charge) && Keeps(upserts, actions) && residentUsedBytes < UINT64_LIMIT
      modifies this`records, this`dedupIndex, this`residentChargeBytes, this`residentUsedBytes, retriever, retriever.vectorIndex
      ensures retriever.Valid() && residentUsedBytes < UINT64_LIMIT && Mem() == ActMemAll(old(Mem()), actions, charge)
    {
      assert actions[..0] == [];
      for i := 0 to |upserts|
        invariant retriever.Valid() && residentUsedBytes < UINT64_LIMIT && Mem() == ActMemAll(old(Mem()), actions[..i], charge)
      {
        ActOneMore(old(Mem()), actions[..i], actions[i], charge);
        UpsertRecordInMemory(upserts[i]);
        assert actions[..i + 1] == actions[..i] + [actions[i]];
      }
      assert actions[..|upserts|] == actions;
    }

    /** Stores the records of the input that are not empty, duplicate or oversized, all or none. */
    method Write(input: WriteInput, clock: nat -> nat, stored: bool) returns (out: WriteOutput)
      requires Valid() && Readings(clock) && localSeq + 2 * |input.records| < UINT64_LIMIT
      modifies this, retriever, retriever.vectorIndex
      ensures Valid()
      ensures input.workspaceId == [] ==> !out.ok && out.warnings == [WorkspaceRequired] && Now() == old(Now())
      ensures input.workspaceId != [] && input.records == [] ==> out.ok && out.warnings == [RecordsEmpty] && Now() == old(Now())
      ensures input.workspaceId != [] && input.records != [] ==>
                var p := PlanWrite(old(Mem()), old(localSeq), input, |input.records|, options, clock);
                && StepTaken(Cfg(), old(Now()), DoWrite(input, clock, stored), Now()) == Yes
                && out.storedIds == p.storedIds && out.dedupedIds == p.dedupedIds && out.warnings == WriteWarnings(p, stored)
                && (out.ok <==> p.actions == [] || stored)
    {
      if input.workspaceId == [] {
        return WriteOutput(false, [], [], [WorkspaceRequired]);
      }
      if input.records == [] {
        return WriteOutput(true, [], [], [RecordsEmpty]);
      }
      out := WriteRecords(input, clock, stored);
    }

    method WriteRecords(input: WriteInput, clock: nat -> nat, stored: bool) returns (out: WriteOutput)
      requires Valid() && Readings(clock) && localSeq + 2 * |input.records| < UINT64_LIMIT && input.workspaceId != [] && input.records != []
      modifies this, retriever, retriever.vectorIndex
      ensures Valid()
      ensures StepTaken(Cfg(), old(Now()), DoWrite(input, clock, stored), Now()) == Yes
      ensures var p := PlanWrite(old(Mem()), old(localSeq), input, |input.records|, options, clock);
        out.storedIds == p.storedIds && out.dedupedIds == p.dedupedIds && out.warnings == WriteWarnings(p, stored)
        && (out.ok <==> p.actions == [] || stored)
    {
      ghost var before := Now();
      InvGives(Cfg(), before);
      ghost var p;
      out, p := PlanAndCommit(input, clock, stored);
      opMs := clock(0);
      WriteIsStep(Cfg(), before, Now(), input, clock, stored, p);
      StepKeepsInvHolds(Cfg(), before, DoWrite(input, clock, stored), Now());
    }

    method PlanAndCommit(input: WriteInput, clock: nat -> nat, stored: bool) returns (out: WriteOutput, ghost p: WritePlan)
      requires retriever.Valid() && NeverZero(charge) && WellKeyed(records) && residentUsedBytes < UINT64_LIMIT && Readings(clock)
      requires localSeq + 2 * |input.records| < UINT64_LIMIT && input.records != []
      modifies this`store, this`records, this`dedupIndex, this`residentChargeBytes, this`residentUsedBytes, this`localSeq, this`clockMs,
               retriever, retriever.vectorIndex
      ensures retriever.Valid() && p == PlanWrite(old(Mem()), old(localSeq), input, |input.records|, options, clock)
      ensures localSeq == p.seqNo < UINT64_LIMIT && clock(p.tick) <= clockMs < UINT64_LIMIT
      ensures IsCommitted(Cfg(), old(store), old(Mem()), p.actions, stored, true, clock, store, Mem()) == Yes
      ensures out.storedIds == p.storedIds && out.dedupedIds == p.dedupedIds && out.warnings == WriteWarnings(p, stored)
      ensures out.ok <==> p.actions == [] || stored
    {
      p := PlanWrite(Mem(), localSeq, input, |input.records|, options, clock);
      PlanReports(Mem(), localSeq, input, |input.records|, options, clock);
      var d := DraftAll(input, clock);
      out := CommitWrite(d, clock, stored, p);
    }

    method CommitWrite(d: Draft, clock: nat -> nat, stored: bool, ghost p: WritePlan) returns (out: WriteOutput)
      requires retriever.Valid() && NeverZero(charge) && IsDraft(d, p, store, records) == Yes && residentUsedBytes < UINT64_LIMIT
      requires Readings(clock)
      modifies this`store, this`records, this`dedupIndex, this`residentChargeBytes, this`residentUsedBytes, this`clockMs, retriever, retriever.vectorIndex
      ensures retriever.Valid() && clock(d.tick) <= clockMs < UINT64_LIMIT
      ensures out.storedIds == p.storedIds && out.dedupedIds == p.dedupedIds && out.warnings == WriteWarnings(p, stored)
      ensures out.ok == if p.actions == [] then p.storedIds != [] || p.dedupedIds != [] || p.warnings != [] else stored
      ensures IsCommitted(Cfg(), old(store), old(Mem()), p.actions, stored, true, clock, store, Mem()) == Yes
    {
      if d.writes == [] {
        clockMs := clock(d.tick);
        return WriteOutput(d.storedIds != [] || d.dedupedIds != [] || d.warnings != [], d.storedIds, d.dedupedIds, d.warnings);
      }
      var ok := Commit(d.writes, d.upserts, clock, d.tick, stored, p.actions);
      out := WriteOutput(ok, d.storedIds, d.dedupedIds, if ok then d.warnings else d.warnings + [StoreFailed]);
    }

    /** Stores a batch that saves records, and if the store takes it keeps them in memory and evicts. */
    method Commit(writes: seq<StoreWrite>, upserts: seq<Record>, clock: nat -> nat, tick: nat, stored: bool, ghost actions: seq<Action>)
      returns (ok: bool)
      requires retriever.Valid() && NeverZero(charge) && residentUsedBytes < UINT64_LIMIT && Readings(clock)
      requires actions != [] && Keeps(upserts, actions) && ApplyAll(store, writes) == ActAll(store, records, actions)
      modifies this`store, this`records, this`dedupIndex, this`residentChargeBytes, this`residentUsedBytes, this`clockMs, retriever, retriever.vectorIndex
      ensures retriever.Valid() && clock(tick) <= clockMs < UINT64_LIMIT && ok == stored
      ensures IsCommitted(Cfg(), old(store), old(Mem()), actions, stored, true, clock, store, Mem()) == Yes
    {
      clockMs := clock(tick);
      ok := PersistBatchNow(writes, stored);
      if !ok {
        return;
      }
      UpsertAll(upserts, actions);
      var rounds := EnforceResidentHardLimit({}, clock, tick);
      clockMs := clock(tick + rounds);
      CommittedAndEvicted(Cfg(), old(store), old(Mem()), actions, clock, tick, Mem());
    }

    // ---- Pin ----

    method LoadRecord(k: RecKey) returns (found: bool, record: Record)
      ensures found <==> k in records || k in store.docs
      ensures found ==> record == Current(Now(), k)
    {
      found := true;
      if k in records {
        record := records[k];
      } else if k in store.docs {
        record := store.docs[k];
      } else {
        found := false;
        record := NO_RECORD;
      }
    }

    /** Whether the workspace has room for one more pinned record. */
    method MayPin(workspaceId: Str) returns (ok: bool)
      ensures ok == DecidePin(true, |PinnedKeys(records, workspaceId)|, |ActiveKeys(records, workspaceId)|, options).Granted?
    {
      var active, pinned := ComputeWorkspacePinStats(records, workspaceId);
      ok := pinned + 1 <= options.pinQuotaPerWorkspace && !IsPinBlockedByRatio(pinned + 1, active + 1, options.maxPinnedRatio);
    }

    /** Pins or unpins a record, if it is found and pinning it is allowed. */
    method Pin(workspaceId: Str, memoryId: Str, pin: bool, clock: nat -> nat, stored: bool) returns (ok: bool)
      requires Valid() && Readings(clock) && localSeq + 1 < UINT64_LIMIT
      modifies this, retriever, retriever.vectorIndex
      ensures Valid()
      ensures var op := DoPin((workspaceId, memoryId), pin, clock, stored);
        StepTaken(Cfg(), old(Now()), op, Now()) == Yes && (ok <==> Pins(Cfg(), old(Now()), op) && stored)
    {
      ghost var before, op := Now(), DoPin((workspaceId, memoryId), pin, clock, stored);
      InvGives(Cfg(), before);
      ok := PinAndCommit((workspaceId, memoryId), pin, clock, stored, before, op);
      opMs := clock(0);
      BatchIsStep(Cfg(), before, op, Now());
      StepKeepsInvHolds(Cfg(), before, op, Now());
    }

    method PinAndCommit(k: RecKey, pin: bool, clock: nat -> nat, stored: bool, ghost before: State, ghost op: Op) returns (ok: bool)
      requires retriever.Valid() && NeverZero(charge) && WellKeyed(records) && residentUsedBytes < UINT64_LIMIT && Readings(clock)
      requires localSeq + 1 < UINT64_LIMIT && before == Now() && op == DoPin(k, pin, clock, stored)
      modifies this`store, this`records, this`dedupIndex, this`residentChargeBytes, this`residentUsedBytes, this`localSeq, this`clockMs,
               retriever, retriever.vectorIndex
      ensures retriever.Valid() && (ok <==> Pins(Cfg(), before, op) && stored)
      ensures var b := BatchOf(Cfg(), before, op);
        && localSeq == b.1 < UINT64_LIMIT && clock(b.2) <= clockMs < UINT64_LIMIT
        && IsCommitted(Cfg(), before.store, before.mem, b.0, stored, true, clock, store, Mem()) == Yes
    {
      clockMs := clock(0);
      var record;
      ok, record := FindToPin(k, pin, before, op);
      if ok {
        ok := SavePinned(Repinned(record, pin, clock(0), options), clock, stored, PinAction(record, pin, localSeq, clock, options));
      }
    }

    method FindToPin(k: RecKey, pin: bool, ghost before: State, ghost op: Op) returns (ok: bool, record: Record)
      requires before.store == store && before.mem == Mem() && op.DoPin? && op.k == k && op.pin == pin
      ensures ok <==> Pins(Cfg(), before, op)
      ensures ok ==> record == Current(before, k)
    {
      ok, record := LoadRecord(k);
      if ok && pin && !record.pinned {
        ok := MayPin(k.0);
      }
    }

    method SavePinned(record: Record, clock: nat -> nat, stored: bool, ghost a: Action) returns (ok: bool)
      requires retriever.Valid() && NeverZero(charge) && WellKeyed(records) && residentUsedBytes < UINT64_LIMIT && Readings(clock)
      requires record.updatedAtMs == clock(0) && a == Save(record, PinOp, Max(clock(0), clock(1)), localSeq + 1)
      modifies this`store, this`records, this`dedupIndex, this`residentChargeBytes, this`residentUsedBytes, this`localSeq, this`clockMs,
               retriever, retriever.vectorIndex
      ensures retriever.Valid() && ok == stored && localSeq == old(localSeq) + 1 && clock(2) <= clockMs < UINT64_LIMIT
      ensures IsCommitted(Cfg(), old(store), old(Mem()), [a], stored, true, clock, store, Mem()) == Yes
    {
      var writes; ghost var a';
      ghost var m := Mem();
      writes, a' := SaveAndLog(record, PinOp, clock(1), [], store);
      assert Mem() == m && [a][..0] == [];
      ok := Commit(writes, [record], clock, 2, stored, [a]);
    }

    // ---- Compaction ----

    /** One candidate for a tombstone. */
    method DraftTomb(d: CompactDraft, candidate: Record, clock: nat -> nat, ghost p: CompactPlan) returns (d': CompactDraft)
      requires WellKeyed(records) && DraftsCompaction(d, p, store, records) && p.seqNo == localSeq && d.removals == []
      modifies this`localSeq
      ensures var p' := PlanTomb(p, candidate, options, clock(0), clock);
        DraftsCompaction(d', p', store, records) && p'.seqNo == localSeq
      ensures d'.removals == []
    {
      if d.tombstoned + d.deleted >= MaxBatch(options) || candidate.pinned || candidate.tombstone {
        return d;
      }
      d' := DraftSave(d, TombOf(candidate, clock(0), options), clock, p);
    }

    method DraftSave(d: CompactDraft, tomb: Record, clock: nat -> nat, ghost p: CompactPlan) returns (d': CompactDraft)
      requires WellKeyed(records) && DraftsCompaction(d, p, store, records) && p.seqNo == localSeq && d.removals == []
      modifies this`localSeq
      ensures DraftsCompaction(d', PlanSaved(p, tomb, clock), store, records) && PlanSaved(p, tomb, clock).seqNo == localSeq
      ensures d'.removals == []
    {
      var writes; ghost var a;
      writes, a := SaveAndLog(tomb, DeleteOp, clock(d.tick), d.writes, store);
      d' := CompactDraft(writes, d.upserts + [tomb], [], d.tombstoned + 1, d.deleted, d.tick + 1);
      CompactionGrows(d, p, store, records, d', PlanSaved(p, tomb, clock), a);
    }

    /** One candidate for deletion. */
    method DraftErase(d: CompactDraft, candidate: Record, clock: nat -> nat, ghost p: CompactPlan) returns (d': CompactDraft)
      requires WellKeyed(records) && DraftsCompaction(d, p, store, records) && p.seqNo == localSeq
      modifies this`localSeq
      ensures var p' := PlanErase(p, candidate, options, clock(0), clock);
        DraftsCompaction(d', p', store, records) && p'.seqNo == localSeq
    {
      if d.tombstoned + d.deleted >= MaxBatch(options) || AgeMs(candidate, clock(0)) < options.tombstoneRetentionMs {
        return d;
      }
      var writes; ghost var a;
      writes, a := EraseAndLog(candidate, clock(d.tick), d.writes, store);
      d' := CompactDraft(writes, d.upserts, d.removals + [candidate], d.tombstoned, d.deleted + 1, d.tick + 1);
      CompactionGrows(d, p, store, records, d', PlanErase(p, candidate, options, clock(0), clock), a);
    }

    method DraftTombs(active: seq<Record>, clock: nat -> nat) returns (d: CompactDraft)
      requires WellKeyed(records)
      modifies this`localSeq
      ensures var p := PlanTombs(CompactPlan([], 0, 0, old(localSeq), 1), active, options, clock(0), clock);
        DraftsCompaction(d, p, store, records) && p.seqNo == localSeq
      ensures d.removals == [] && Mem() == old(Mem())
    {
      ghost var p0 := CompactPlan([], 0, 0, localSeq, 1);
      ghost var p := p0;
      d := CompactDraft([], [], [], 0, 0, 1);
      for i := 0 to |active|
        invariant p == PlanTombs(p0, active[..i], options, clock(0), clock)
        invariant DraftsCompaction(d, p, store, records) && p.seqNo == localSeq && d.removals == []
      {
        assert active[..i + 1][..i] == active[..i];
        d := DraftTomb(d, active[i], clock, p);
        p := PlanTomb(p, active[i], options, clock(0), clock);
      }
      assert active[..|active|] == active;
    }

    method DraftErases(d0: CompactDraft, tombs: seq<Record>, clock: nat -> nat, ghost p0: CompactPlan) returns (d: CompactDraft)
      requires WellKeyed(records) && DraftsCompaction(d0, p0, store, records) && p0.seqNo == localSeq
      modifies this`localSeq
      ensures var p := PlanErases(p0, tombs, options, clock(0), clock);
        DraftsCompaction(d, p, store, records) && p.seqNo == localSeq
      ensures Mem() == old(Mem())
    {
      ghost var p := p0;
      d := d0;
      for i := 0 to |tombs|
        invariant p == PlanErases(p0, tombs[..i], options, clock(0), clock)
        invariant DraftsCompaction(d, p, store, records) && p.seqNo == localSeq
      {
        assert tombs[..i + 1][..i] == tombs[..i];
        d := DraftErase(d, tombs[i], clock, p);
        p := PlanErase(p, tombs[i], options, clock(0), clock);
      }
      assert tombs[..|tombs|] == tombs;
    }

    /** Forgets the erased records. */
    method RemoveAll(removals: seq<Record>, ghost m: Memory, ghost saves: seq<Action>, ghost erases: seq<Action>)
      requires retriever.Valid() && residentUsedBytes < UINT64_LIMIT && Erases(removals, erases) && Mem() == ActMemAll(m, saves, charge)
      modifies this`records, this`dedupIndex, this`residentChargeBytes, this`residentUsedBytes, retriever, retriever.vectorIndex
      ensures retriever.Valid() && Mem() == ActMemAll(m, saves + erases, charge)
    {
      assert saves + erases[..0] == saves;
      for i := 0 to |removals|
        invariant retriever.Valid() && residentUsedBytes < UINT64_LIMIT && Mem() == ActMemAll(m, saves + erases[..i], charge)
      {
        EraseOneMore(m, saves, erases, removals, i, charge);
        RemoveRecordInMemory(removals[i]);
      }
      assert erases[..|removals|] == erases;
    }

    method DraftCompaction(active: seq<Record>, tombs: seq<Record>, clock: nat -> nat) returns (d: CompactDraft)
      requires WellKeyed(records)
      modifies this`localSeq
      ensures var p := PlanCompact(active, tombs, old(localSeq), options, clock);
        DraftsCompaction(d, p, store, records) && p.seqNo == localSeq
      ensures Mem() == old(Mem())
    {
      ghost var p0 := PlanTombs(CompactPlan([], 0, 0, localSeq, 1), active, options, clock(0), clock);
      d := DraftTombs(active, clock);
      if options.enableTombstoneGc {
        d := DraftErases(d, tombs, clock, p0);
      }
    }

    /** Commits a compaction, and if the store takes it updates the memory. */
    method CommitCompaction(d: CompactDraft, stored: bool, ghost clock: nat -> nat, ghost p: CompactPlan)
      requires retriever.Valid() && NeverZero(charge) && residentUsedBytes < UINT64_LIMIT && DraftsCompaction(d, p, store, records)
      modifies this`store, this`records, this`dedupIndex, this`residentChargeBytes, this`residentUsedBytes, retriever, retriever.vectorIndex
      ensures retriever.Valid()
      ensures IsCommitted(Cfg(), old(store), old(Mem()), p.actions, stored, false, clock, store, Mem()) == Yes
    {
      CommittedOnly(Cfg(), store, Mem(), p.actions, stored, clock);
      if d.writes != [] {
        var ok := PersistBatchNow(d.writes, stored);
        if ok {
          UpsertAndRemove(d.upserts, d.removals, p.actions);
        }
      }
    }

    method UpsertAndRemove(upserts: seq<Record>, removals: seq<Record>, ghost actions: seq<Action>)
      requires retriever.Valid() && NeverZero(charge) && residentUsedBytes < UINT64_LIMIT && SavesThenErases(actions, upserts, removals)
      modifies this`records, this`dedupIndex, this`residentChargeBytes, this`residentUsedBytes, retriever, retriever.vectorIndex
      ensures retriever.Valid() && Mem() == ActMemAll(old(Mem()), actions, charge)
    {
      ghost var m := Mem();
      UpsertAll(upserts, actions[..|upserts|]);
      RemoveAll(removals, m, actions[..|upserts|], actions[|upserts|..]);
      assert actions[..|upserts|] + actions[|upserts|..] == actions;
    }

    /** Turns active records into tombstones in eviction order, and deletes tombstones past their
        retention, up to one batch; without `force` only when the disk is over its high watermark. */
    method CompactInternal(workspaceId: Str, force: bool, overHigh: bool, clock: nat -> nat, stored: bool)
      returns (out: CompactOutput, ghost active: seq<Record>, ghost tombs: seq<Record>)
      requires Valid() && Readings(clock) && localSeq + MaxBatch(options) < UINT64_LIMIT
      modifies this, retriever, retriever.vectorIndex
      ensures Valid() && out.triggered == (force || overHigh)
      ensures !out.triggered ==> Now() == old(Now())
      ensures out.triggered ==>
                var p := PlanCompact(active, tombs, old(localSeq), options, clock);
                && StepTaken(Cfg(), old(Now()), DoCompact(workspaceId, active, tombs, clock, stored), Now()) == Yes
                && out.tombstoned == p.tombstoned && out.deleted == p.deleted
    {
      active, tombs := [], [];
      if !force && !overHigh {
        out := CompactOutput(false, 0, 0);
        return;
      }
      ghost var before := Now();
      InvGives(Cfg(), before);
      out, active, tombs := ListAndCompact(workspaceId, clock, stored);
      opMs := clock(0);
      BatchIsStep(Cfg(), before, DoCompact(workspaceId, active, tombs, clock, stored), Now());
      StepKeepsInvHolds(Cfg(), before, DoCompact(workspaceId, active, tombs, clock, stored), Now());
    }

    method ListAndCompact(workspaceId: Str, clock: nat -> nat, stored: bool)
      returns (out: CompactOutput, ghost active: seq<Record>, ghost tombs: seq<Record>)
      requires retriever.Valid() && NeverZero(charge) && WellKeyed(records) && residentUsedBytes < UINT64_LIMIT && Readings(clock)
      requires localSeq + MaxBatch(options) < UINT64_LIMIT
      modifies this`store, this`records, this`dedupIndex, this`residentChargeBytes, this`residentUsedBytes, this`localSeq, this`clockMs,
               retriever, retriever.vectorIndex
      ensures retriever.Valid() && TakenInOrder(active, tombs, old(records), workspaceId, clock(0), log1p)
      ensures var p := PlanCompact(active, tombs, old(localSeq), options, clock);
        && localSeq == p.seqNo < UINT64_LIMIT && clock(p.tick) <= clockMs < UINT64_LIMIT
        && IsCommitted(Cfg(), old(store), old(Mem()), p.actions, stored, false, clock, store, Mem()) == Yes
        && out == CompactOutput(true, p.tombstoned, p.deleted)
    {
      var activeRecords, tombstones := ListRecords(records, workspaceId);
      ListEnds(activeRecords, records, workspaceId, false);
      ListEnds(tombstones, records, workspaceId, true);
      activeRecords := SortByEviction(records, activeRecords, workspaceId, clock(0), log1p);
      active, tombs := activeRecords, tombstones;
      CompactUsesNumbers(active, tombs, localSeq, options, clock);
      ghost var p := PlanCompact(active, tombs, localSeq, options, clock);
      var d := DraftCompaction(activeRecords, tombstones, clock);
      CommitCompaction(d, stored, clock, p);
      clockMs := clock(d.tick);
      out := CompactOutput(true, d.tombstoned, d.deleted);
    }

    // ---- Restart ----

    /** Keeps every stored document in memory, as it was or with the missing parts filled in. */
    method LoadDocs(docs: seq<RecKey>)
      requires retriever.Valid() && NeverZero(charge) && residentUsedBytes < UINT64_LIMIT && forall k :: k in docs ==> k in store.docs
      modifies this`records, this`dedupIndex, this`residentChargeBytes, this`residentUsedBytes, retriever, retriever.vectorIndex
      ensures retriever.Valid() && residentUsedBytes < UINT64_LIMIT && Mem() == LoadedAll(old(Mem()), store.docs, docs, charge)
    {
      ghost var m := Mem();
      for i := 0 to |docs|
        invariant retriever.Valid() && residentUsedBytes < UINT64_LIMIT
        invariant (forall k :: k in docs[..i] ==> k in store.docs) && Mem() == LoadedAll(m, store.docs, docs[..i], charge)
      {
        assert docs[..i + 1][..i] == docs[..i] && docs[i] in docs;
        var record := WithKey(docs[i], store.docs[docs[i]]);
        if HasKey(record) {
          UpsertRecordInMemory(Normalised(record));
        }
      }
      assert docs[..|docs|] == docs;
    }

    /** Applies the events that no checkpoint covers and that are newer than what is resident. */
    method ReplayEvents(ckpts: map<Str, EventKey>, events: seq<EventKey>)
      requires retriever.Valid() && NeverZero(charge) && residentUsedBytes < UINT64_LIMIT && forall k :: k in events ==> k in store.events
      modifies this`records, this`dedupIndex, this`residentChargeBytes, this`residentUsedBytes, retriever, retriever.vectorIndex
      ensures retriever.Valid() && residentUsedBytes < UINT64_LIMIT && Mem() == ReplayedAll(old(Mem()), store, ckpts, events, charge)
    {
      ghost var m := Mem();
      for i := 0 to |events|
        invariant retriever.Valid() && residentUsedBytes < UINT64_LIMIT
        invariant (forall k :: k in events[..i] ==> k in store.events) && Mem() == ReplayedAll(m, store, ckpts, events[..i], charge)
      {
        assert events[..i + 1][..i] == events[..i] && events[i] in events;
        var key := events[i];
        var incoming := Incoming(key, store.events[key]);
        if !Covered(key, ckpts) && incoming.id != [] {
          if KeyOf(incoming) !in records || IsIncomingNewer(records[KeyOf(incoming)], incoming) {
            UpsertRecordInMemory(Normalised(incoming));
          }
        }
      }
      assert events[..|events|] == events;
    }

    /** Replays the log in key order; a namespace that is not found counts as empty. */
    method ReplayProjectionEvents(scans: Scans) returns (ok: bool, events: seq<EventKey>)
      requires retriever.Valid() && NeverZero(charge) && residentUsedBytes < UINT64_LIMIT
      modifies this`records, this`dedupIndex, this`residentChargeBytes, this`residentUsedBytes, retriever, retriever.vectorIndex
      ensures retriever.Valid() && residentUsedBytes < UINT64_LIMIT && (ok <==> !scans.ckpts.Failed? && !scans.events.Failed?)
      ensures IsListing(events, if ok then Seen(store, scans).events.Keys else {}) && Sorted(events, KeyAtMost)
      ensures Mem() == ReplayedAll(old(Mem()), store, Seen(store, scans).ckpts, events, charge)
      ensures !ok ==> Mem() == old(Mem())
    {
      events := [];
      ok := !scans.ckpts.Failed? && !scans.events.Failed?;
      if ok && scans.events.Found? {
        events := ScanEvents(store.events.Keys);
        ReplayEvents(if scans.ckpts.Found? then store.ckpts else map[], events);
      }
    }

    /** Loads what the scans find, replays the log, and evicts what does not fit. `before` is the
        state that the previous run left behind. Whatever a scan hides, memory is then the reload of
        what was seen, less what was evicted. If the scans find enough, that is a restart. */
    method Warmup(scans: Scans, clock: nat -> nat, ghost before: State) returns (ok: bool, ghost op: Op)
      requires retriever.Valid() && IgnoresAccess(charge) && NeverZero(charge)
      requires Mem() == EMPTY_MEMORY && localSeq == 0 && store == before.store && InvHolds(Cfg(), before) == Yes
      requires Monotone(clock) && clock(0) > before.clockMs && forall i :: clock(i) < UINT64_LIMIT
      modifies this, retriever, retriever.vectorIndex
      ensures ok <==> NoneFailed(scans)
      ensures store == old(store) && retriever.Valid() && op.DoRestart? && op.scans == scans && op.clock == clock
      ensures IsListing(op.docs, Seen(store, scans).docs.Keys) && Sorted(op.docs, DocAtMost)
      ensures !ok ==> Mem() == ReloadedMemory(store, op.docs, charge)
      ensures ok ==> Returned(store, scans, op.docs, op.events) && Sorted(op.events, KeyAtMost)
      ensures ok ==> IsEnforced(Reload(store, scans, op.docs, op.events, charge), Mem(), Limit(Cfg()), {}, clock, 0, log1p) == Yes
      ensures ok && Suffices(store, scans, op.events) ==> Valid() && StepTaken(Cfg(), before, op, Now()) == Yes
      ensures ok && scans.docs.Found? && G.LaidToRest(store.docs, store.events) ==> KeepsDocs(records, store.docs)
    {
      ghost var events;
      ghost var docs;
      ok, docs, events := LoadAndReplay(scans);
      op := DoRestart(scans, docs, events, clock);
      if ok {
        EvictAfterReload(scans, docs, events, clock, before);
      }
    }

    method EvictAfterReload(scans: Scans, ghost docs: seq<RecKey>, ghost events: seq<EventKey>, clock: nat -> nat, ghost before: State)
      requires retriever.Valid() && residentUsedBytes < UINT64_LIMIT && IgnoresAccess(charge) && NeverZero(charge)
      requires localSeq == 0 && store == before.store && InvHolds(Cfg(), before) == Yes && NoneFailed(scans)
      requires Monotone(clock) && clock(0) > before.clockMs && forall i :: clock(i) < UINT64_LIMIT
      requires Returned(store, scans, docs, events) && Mem() == Reload(store, scans, docs, events, charge)
      modifies this`records, this`residentChargeBytes, this`residentUsedBytes, this`clockMs, this`runStart, this`opMs,
               retriever, retriever.vectorIndex
      ensures retriever.Valid()
      ensures IsEnforced(Reload(store, scans, docs, events, charge), Mem(), Limit(Cfg()), {}, clock, 0, log1p) == Yes
      ensures Suffices(store, scans, events) ==> Valid() && StepTaken(Cfg(), before, DoRestart(scans, docs, events, clock), Now()) == Yes
      ensures scans.docs.Found? && G.LaidToRest(store.docs, store.events) ==> KeepsDocs(records, store.docs)
    {
      ghost var m := Mem();
      var rounds := EnforceResidentHardLimit({}, clock, 0);
      clockMs, runStart, opMs := clock(rounds), clock(0), before.opMs;
      ReloadedAndEvicted(Cfg(), before, scans, docs, events, clock, m, Now());
    }

    method ReadDocs(scans: Scans) returns (docs: seq<RecKey>)
      ensures IsListing(docs, Seen(store, scans).docs.Keys) && Sorted(docs, DocAtMost) && (scans.docs.Failed? ==> docs == [])
    {
      docs := [];
      if scans.docs.Found? {
        docs := ScanDocs(store.docs.Keys);
      }
    }

    /** Loads the documents and replays the log; the log is not reached if the documents cannot be read. */
    method LoadAndReplay(scans: Scans) returns (ok: bool, docs: seq<RecKey>, events: seq<EventKey>)
      requires retriever.Valid() && NeverZero(charge) && residentUsedBytes < UINT64_LIMIT && Mem() == EMPTY_MEMORY
      modifies this`records, this`dedupIndex, this`residentChargeBytes, this`residentUsedBytes, retriever, retriever.vectorIndex
      ensures retriever.Valid() && residentUsedBytes < UINT64_LIMIT && (ok <==> NoneFailed(scans))
      ensures IsListing(docs, Seen(store, scans).docs.Keys) && Sorted(docs, DocAtMost)
      ensures !ok ==> Mem() == ReloadedMemory(store, docs, charge)
      ensures ok ==> Returned(store, scans, docs, events) && Sorted(events, KeyAtMost)
      ensures ok ==> Mem() == Reload(store, scans, docs, events, charge)
    {
      docs := ReadDocs(scans);
      events := [];
      ok := !scans.docs.Failed?;
      if ok {
        LoadDocs(docs);
        ok, events := ReplayProjectionEvents(scans);
      } else {
        NothingLoaded(store, charge);
      }
    }

    // ---- Query ----

    /** The hits the retriever finds, without the expired ones, up to the token budget; resident hits
        are marked as used. */
    method Query(q: QueryInput, retrievedMs: nat, nowMs: nat) returns (out: seq<QueryHit>)
      requires Valid() && clockMs <= nowMs < UINT64_LIMIT && nowMs > 0
      modifies this
      ensures Valid()
      ensures IsQueryOutput(out, old(Mem()), q, Env(retriever.embed, retriever.log, retrievedMs), nowMs)
      ensures q.workspaceId == [] ==> Now() == old(Now())
      ensures q.workspaceId != [] ==> StepTaken(Cfg(), old(Now()), DoQuery(HitKeys(q.workspaceId, out), nowMs), Now()) == Yes
    {
      if q.workspaceId == [] {
        return [];
      }
      ghost var before := Now();
      out := Retrieve(q, retrievedMs, nowMs);
      MarkUsed(HitKeys(q.workspaceId, out), nowMs);
      clockMs := nowMs;
      QueryIsStep(Cfg(), before, Now(), HitKeys(q.workspaceId, out), nowMs);
    }

    method Retrieve(q: QueryInput, retrievedMs: nat, nowMs: nat) returns (out: seq<QueryHit>)
      requires retriever.Valid() && q.workspaceId != []
      ensures IsQueryOutput(out, Mem(), q, Env(retriever.embed, retriever.log, retrievedMs), nowMs)
    {
      var hits := retriever.Query(q, retrievedMs);
      out := Emit(hits, q, nowMs);
    }

    method Emit(hits: seq<QueryHit>, q: QueryInput, nowMs: nat) returns (out: seq<QueryHit>)
      ensures out == Emitted(hits, records, q.workspaceId, nowMs, q.tokenBudget, 0)
    {
      out := [];
      var usedTokens: nat := 0;
      var i: nat := 0;
      while i < |hits| && !OverBudget(hits[i], usedTokens, q.tokenBudget)
        invariant i <= |hits|
        invariant out + Emitted(hits[i..], records, q.workspaceId, nowMs, q.tokenBudget, usedTokens)
               == Emitted(hits, records, q.workspaceId, nowMs, q.tokenBudget, 0)
      {
        EmittedNext(out, hits, i, records, q.workspaceId, nowMs, q.tokenBudget, usedTokens);
        var hit := hits[i];
        i := i + 1;
        if (q.workspaceId, hit.memoryId) in records && IsExpired(records[(q.workspaceId, hit.memoryId)], nowMs) {
          continue;
        }
        out := out + [hit];
        usedTokens := usedTokens + EstimateTokenCount(hit.content);
      }
      EmittedEnd(hits, i, records, q.workspaceId, nowMs, q.tokenBudget, usedTokens);
    }

    method MarkUsed(keys: seq<RecKey>, nowMs: nat)
      modifies this`records
      ensures Mem() == TouchedAll(old(Mem()), keys, nowMs)
    {
      assert keys[..0] == [];
      for i := 0 to |keys|
        invariant Mem() == TouchedAll(old(Mem()), keys[..i], nowMs)
      {
        assert keys[..i + 1][..i] == keys[..i];
        var k := keys[i];
        if k in records && !records[k].tombstone {
          records := records[k := WithAccess(records[k], nowMs, records[k].hitCount + 1)];
        }
      }
      assert keys[..|keys|] == keys;
    }

    // ---- Eviction ----

    /** The record that goes next: unprotected ones first. */
    method SelectEvictionCandidate(nowMs: nat, protectedKeys: set<RecKey>, ghost may: Choice) returns (found: bool, k: RecKey)
      requires may == ChoiceOf(protectedKeys, log1p)
      ensures found ==> k in records && k in may(records, nowMs)
      ensures !found ==> Unpinned(records) == {}
    {
      found, k := PickCandidate(records, nowMs, protectedKeys, log1p);
      if !found && protectedKeys != {} {
        found, k := PickCandidate(records, nowMs, {}, log1p);
      }
      if found {
        FirstIsVictim(k, records, protectedKeys, nowMs, log1p);
      }
    }

    method EvictRecord(k: RecKey)
      requires retriever.Valid() && residentUsedBytes < UINT64_LIMIT
      modifies this`records, this`residentChargeBytes, this`residentUsedBytes, retriever, retriever.vectorIndex
      ensures retriever.Valid() && residentUsedBytes < UINT64_LIMIT
      ensures Mem() == Dropped(old(Mem()), k)
    {
      var victimCharge := if k in residentChargeBytes then residentChargeBytes[k] else 0;
      records := records - {k};
      residentChargeBytes := residentChargeBytes - {k};
      if victimCharge > 0 {
        residentUsedBytes := (residentUsedBytes - victimCharge) % UINT64_LIMIT;
      }
      retriever.Remove(k.0, k.1);
    }

    method EnforceResidentHardLimit(protectedKeys: set<RecKey>, clock: nat -> nat, tick: nat) returns (rounds: nat)
      requires retriever.Valid() && residentUsedBytes < UINT64_LIMIT
      modifies this`records, this`residentChargeBytes, this`residentUsedBytes, retriever, retriever.vectorIndex
      ensures retriever.Valid()
      ensures IsEnforced(old(Mem()), Mem(), ResidentLimitBytes(options), protectedKeys, clock, tick, log1p) == Yes
    {
      rounds := 0;
      if ResidentLimitBytes(options) == 0 {
        return;
      }
      ghost var may := ChoiceOf(protectedKeys, log1p);
      var victims := EvictDownTo(ResidentLimitBytes(options), protectedKeys, clock, tick, Mem(), may);
      assert EvictionRun(old(Mem()), Mem(), victims, ResidentLimitBytes(options), may, clock, tick);
      rounds := |victims|;
    }

    method EvictDownTo(limit: nat, protectedKeys: set<RecKey>, clock: nat -> nat, tick: nat, ghost m: Memory, ghost may: Choice)
      returns (victims: seq<RecKey>)
      requires retriever.Valid() && residentUsedBytes < UINT64_LIMIT && m == Mem() && may == ChoiceOf(protectedKeys, log1p)
      modifies this`records, this`residentChargeBytes, this`residentUsedBytes, retriever, retriever.vectorIndex
      ensures retriever.Valid()
      ensures EvictionRun(m, Mem(), victims, limit, may, clock, tick)
    {
      victims := [];
      var searching := true;
      while residentUsedBytes > limit && searching
        invariant retriever.Valid() && residentUsedBytes < UINT64_LIMIT
        invariant EvictionPath(m, victims, limit, may, clock, tick) && Mem() == EvictedAll(m, victims)
        invariant searching || Unpinned(records) == {}
        decreases |records|, searching
      {
        ghost var before := Mem();
        var nowMs := clock(tick + |victims|);
        var found, k := SelectEvictionCandidate(nowMs, protectedKeys, may);
        if found {
          PathGoesOn(m, victims, k, limit, may, clock, tick, before, nowMs);
          EvictRecord(k);
          victims := victims + [k];
        } else {
          searching := false;
        }
      }
    }
  }

  ghost predicate IsFirstOf(k: RecKey, ks: set<RecKey>, records: map<RecKey, Record>, nowMs: nat, log1p: real -> real)
    requires ks <= records.Keys
  {
    k in ks && forall x :: x in ks ==> GoesBefore(records[k], records[x], nowMs, log1p)
  }

  lemma FirstIsVictim(k: RecKey, records: map<RecKey, Record>, protectedKeys: set<RecKey>, nowMs: nat, log1p: real -> real)
    requires IsFirstOf(k, Unpinned(records) - protectedKeys, records, nowMs, log1p)
          || (Unpinned(records) <= protectedKeys && IsFirstOf(k, Unpinned(records), records, nowMs, log1p))
    ensures k in ChoiceOf(protectedKeys, log1p)(records, nowMs)
  {
    assert IsVictim(k, records, protectedKeys, nowMs, log1p);
  }

  /** The first of the unpinned records that are not skipped. */
  method PickCandidate(records: map<RecKey, Record>, nowMs: nat, skipped: set<RecKey>, log1p: real -> real) returns (found: bool, k: RecKey)
    ensures found ==> IsFirstOf(k, Unpinned(records) - skipped, records, nowMs, log1p)
    ensures !found ==> Unpinned(records) <= skipped
  {
    found, k := false, ([], []);
    var ids := Enumerate(records.Keys);
    AllElements(ids);
    ghost var ks := Unpinned(records) - skipped;
    for i := 0 to |ids|
      invariant FirstSoFar(found, k, ks * Elements(ids[..i]), records, nowMs, log1p)
    {
      NextElement(ids, i);
      var x := ids[i];
      FirstNext(found, k, x, ks, Elements(ids[..i]), records, nowMs, log1p);
      if !records[x].pinned && x !in skipped {
        if !found || !GoesBefore(records[k], records[x], nowMs, log1p) {
          found, k := true, x;
        }
      }
    }
    assert ks * records.Keys == ks;
    assert forall y :: y in Unpinned(records) ==> y in ks || y in skipped;
  }

  ghost predicate FirstSoFar(found: bool, k: RecKey, ks: set<RecKey>, records: map<RecKey, Record>, nowMs: nat, log1p: real -> real) {
    ks <= records.Keys && if found then IsFirstOf(k, ks, records, nowMs, log1p) else ks == {}
  }

  lemma FirstNext(found: bool, k: RecKey, x: RecKey, ks: set<RecKey>, seen: set<RecKey>, records: map<RecKey, Record>, nowMs: nat,
                  log1p: real -> real)
    requires FirstSoFar(found, k, ks * seen, records, nowMs, log1p) && x in records && x !in seen
    ensures x !in ks ==> FirstSoFar(found, k, ks * (seen + {x}), records, nowMs, log1p)
    ensures x in ks && !found ==> FirstSoFar(true, x, ks * (seen + {x}), records, nowMs, log1p)
    ensures x in ks && found ==>
              FirstSoFar(true, if GoesBefore(records[k], records[x], nowMs, log1p) then k else x, ks * (seen + {x}), records, nowMs, log1p)
  {
    if x !in ks {
      assert ks * (seen + {x}) == ks * seen;
    } else {
      assert ks * (seen + {x}) == ks * seen + {x};
      if found && !GoesBefore(records[k], records[x], nowMs, log1p) {
        FirstChanges(k, x, ks * seen, records, nowMs, log1p);
      }
    }
  }

  lemma FirstChanges(k: RecKey, x: RecKey, seen: set<RecKey>, records: map<RecKey, Record>, nowMs: nat, log1p: real -> real)
    requires seen <= records.Keys && IsFirstOf(k, seen, records, nowMs, log1p) && x in records
    requires !GoesBefore(records[k], records[x], nowMs, log1p)
    ensures IsFirstOf(x, seen + {x}, records, nowMs, log1p)
  {
    forall y | y in seen + {x} ensures GoesBefore(records[x], records[y], nowMs, log1p) {
      GoesBeforeIsTotal(records[x], records[k], if y == x then records[x] else records[y], nowMs, log1p);
    }
  }

  lemma CountOne(ks: set<RecKey>, left: set<RecKey>, k: RecKey)
    requires k in left
    ensures |ks * left| == |ks * (left - {k})| + if k in ks then 1 else 0
  {
    assert ks * left == ks * (left - {k}) + if k in ks then {k} else {};
  }

  // ---- The methods are the steps of a run ----

  lemma WriteIsStep(c: Config, s: State, s': State, input: WriteInput, clock: nat -> nat, stored: bool, p: WritePlan)
    requires input.workspaceId != [] && Monotone(clock) && clock(0) >= s.clockMs && s'.clockMs < UINT64_LIMIT
    requires p.seqNo < UINT64_LIMIT
    requires p == PlanWrite(s.mem, s.seqNo, input, |input.records|, c.options, clock)
    requires
      && s'.seqNo == p.seqNo && s'.runStart == s.runStart && s'.opMs == clock(0) && clock(p.tick) <= s'.clockMs
      && IsCommitted(c, s.store, s.mem, p.actions, stored, true, clock, s'.store, s'.mem) == Yes
    ensures StepTaken(c, s, DoWrite(input, clock, stored), s') == Yes
  {
  }

  lemma BatchIsStep(c: Config, s: State, op: Op, s': State)
    requires Batches(op) && Monotone(op.clock) && op.clock(0) >= s.clockMs && s'.clockMs < UINT64_LIMIT && s'.seqNo < UINT64_LIMIT
    requires op.DoCompact? ==> TakenInOrder(op.active, op.tombs, s.mem.records, op.ws, op.clock(0), c.log1p)
    requires s'.seqNo == BatchOf(c, s, op).1 && op.clock(BatchOf(c, s, op).2) <= s'.clockMs
    requires s'.runStart == s.runStart && s'.opMs == op.clock(0)
    requires IsCommitted(c, s.store, s.mem, BatchOf(c, s, op).0, op.stored, !op.DoCompact?, op.clock, s'.store, s'.mem) == Yes
    ensures StepTaken(c, s, op, s') == Yes
  {
  }

  lemma QueryIsStep(c: Config, s: State, s': State, hits: seq<RecKey>, nowMs: nat)
    requires InvHolds(c, s) == Yes && IgnoresAccess(c.charge)
    requires s.clockMs <= nowMs < UINT64_LIMIT && nowMs > 0 && s'.mem == TouchedAll(s.mem, hits, nowMs) && s'.clockMs == nowMs
    requires s'.store == s.store && s'.seqNo == s.seqNo && s'.runStart == s.runStart && s'.opMs == s.opMs
    ensures StepTaken(c, s, DoQuery(hits, nowMs), s') == Yes && InvHolds(c, s') == Yes
  {
    InvGives(c, s);
    assert Step(c, s, DoQuery(hits, nowMs), s');
    StepKeepsInvHolds(c, s, DoQuery(hits, nowMs), s');
  }

  function HitKeys(ws: Str, hits: seq<QueryHit>): (ks: seq<RecKey>) {
    seq(|hits|, i requires 0 <= i < |hits| => (ws, hits[i].memoryId))
  }

  lemma EmittedNext(out: seq<QueryHit>, hits: seq<QueryHit>, i: nat, records: map<RecKey, Record>, ws: Str, nowMs: nat, budget: int, used: nat)
    requires i < |hits| && !OverBudget(hits[i], used, budget)
    ensures out + Emitted(hits[i..], records, ws, nowMs, budget, used)
         == if Expired(records, ws, hits[i], nowMs) then out + Emitted(hits[i + 1..], records, ws, nowMs, budget, used)
            else out + [hits[i]] + Emitted(hits[i + 1..], records, ws, nowMs, budget, used + EstimateTokenCount(hits[i].content))
  {
    assert hits[i..][1..] == hits[i + 1..];
    var rest := Emitted(hits[i + 1..], records, ws, nowMs, budget, used + EstimateTokenCount(hits[i].content));
    assert out + ([hits[i]] + rest) == out + [hits[i]] + rest;
  }

  lemma EmittedEnd(hits: seq<QueryHit>, i: nat, records: map<RecKey, Record>, ws: Str, nowMs: nat, budget: int, used: nat)
    requires i == |hits| || (i < |hits| && OverBudget(hits[i], used, budget))
    ensures Emitted(hits[i..], records, ws, nowMs, budget, used) == []
  {
  }

  lemma RestartIsStep(c: Config, s: State, scans: Scans, docs: seq<RecKey>, events: seq<EventKey>, clock: nat -> nat, m: Memory, s': State)
    requires InvHolds(c, s) == Yes && Monotone(clock) && clock(0) > s.clockMs && clock(0) <= s'.clockMs < UINT64_LIMIT
    requires NoneFailed(scans) && Returned(s.store, scans, docs, events) && Suffices(s.store, scans, events)
    requires s'.store == s.store && s'.seqNo == 0 && s'.runStart == clock(0) && s'.opMs == s.opMs
    requires m == Reload(s.store, scans, docs, events, c.charge)
    requires IsEnforced(m, s'.mem, Limit(c), {}, clock, 0, c.log1p) == Yes && IgnoresAccess(c.charge)
    ensures StepTaken(c, s, DoRestart(scans, docs, events, clock), s') == Yes && InvHolds(c, s') == Yes
  {
    assert Enforced(m, s'.mem, Limit(c), {}, clock, 0, c.log1p);
    StepKeepsInvHolds(c, s, DoRestart(scans, docs, events, clock), s');
  }

  lemma ReloadedAndEvicted(c: Config, s: State, scans: Scans, docs: seq<RecKey>, events: seq<EventKey>, clock: nat -> nat, m: Memory, s': State)
    requires InvHolds(c, s) == Yes && Monotone(clock) && clock(0) > s.clockMs && clock(0) <= s'.clockMs < UINT64_LIMIT
    requires NoneFailed(scans) && Returned(s.store, scans, docs, events)
    requires s'.store == s.store && s'.seqNo == 0 && s'.runStart == clock(0) && s'.opMs == s.opMs
    requires m == Reload(s.store, scans, docs, events, c.charge)
    requires IsEnforced(m, s'.mem, Limit(c), {}, clock, 0, c.log1p) == Yes && IgnoresAccess(c.charge)
    ensures Suffices(s.store, scans, events) ==>
              StepTaken(c, s, DoRestart(scans, docs, events, clock), s') == Yes && InvHolds(c, s') == Yes
    ensures scans.docs.Found? && G.LaidToRest(s.store.docs, s.store.events) ==> KeepsDocs(s'.mem.records, s.store.docs)
  {
    if Suffices(s.store, scans, events) { RestartIsStep(c, s, scans, docs, events, clock, m, s'); }
    if scans.docs.Found? && G.LaidToRest(s.store.docs, s.store.events) { WarmedKeepsDocs(c, s, scans, docs, events, clock, s'.mem); }
  }

  lemma NothingLoaded(s: Store, charge: Record -> nat)
    ensures ReloadedMemory(s, [], charge) == EMPTY_MEMORY
  {
  }

  /** What is resident is as stored, or a tombstone without a document; and what is pinned is resident. */
  ghost predicate KeepsDocs(records: map<RecKey, Record>, docs: map<RecKey, Record>) {
    && (forall k :: k in records ==> if k in docs then records[k] == docs[k] else records[k].tombstone)
    && forall k :: k in docs && docs[k].pinned ==> k in records
  }

  lemma WarmedKeepsDocs(c: Config, s: State, scans: Scans, docs: seq<RecKey>, events: seq<EventKey>, clock: nat -> nat, m: Memory)
    requires InvHolds(c, s) == Yes && Returned(s.store, scans, docs, events)
    requires scans.docs.Found? && G.LaidToRest(s.store.docs, s.store.events)
    requires IsEnforced(Reload(s.store, scans, docs, events, c.charge), m, Limit(c), {}, clock, 0, c.log1p) == Yes
    ensures KeepsDocs(m.records, s.store.docs)
  {
    var reloaded := Reload(s.store, scans, docs, events, c.charge);
    StoreIsSound(s);
    ReloadRaisesNoDead(s.store, scans, docs, events, c.charge, s.seqNo, s.clockMs, s.runStart, s.opMs);
    ReloadIsCoherent(s.store, scans, docs, events, c.charge);
    EnforcedSheds(reloaded, m, Limit(c), {}, clock, 0, c.log1p, c.charge);
  }

  /** A client: the first start over an empty store gives an engine that is ready for use, whether
      its namespaces are found or not. */
  method FirstStart(options: Options, embeddingDim: nat, embed: Str -> Vector, log: real -> real, log1p: real -> real,
                    scans: Scans, clock: nat -> nat)
    returns (engine: MemoryEngine)
    requires NoneFailed(scans) && Monotone(clock) && clock(0) > 0 && forall i :: clock(i) < UINT64_LIMIT
    ensures fresh(engine) && engine.Valid() && engine.store == EMPTY_STORE && engine.records == map[]
  {
    engine := new MemoryEngine(EMPTY_STORE, options, embeddingDim, embed, log, log1p);
    ghost var before := State(EMPTY_STORE, EMPTY_MEMORY, 0, 0, 0, 0);
    ChargeByIgnoresAccess(embeddingDim);
    InitHasInv(engine.Cfg(), before);
    var ok;
    ghost var op;
    ok, op := engine.Warmup(scans, clock, before);
    assert op.docs == [] && op.events == [] by { NothingListed(op.docs); NothingListed(op.events); }
    assert engine.Valid();
  }
}
