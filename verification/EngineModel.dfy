/** The state of the memory engine as values: the rows of its store, what it keeps in memory, and
    the effect on both of saving and erasing one record (src/core/memory_engine.cpp:738-933,
    985-1091, 1238-1272). Rows and map entries are keyed by structured keys; Keys says when the
    strings the code builds are as good as those. */
module EngineModel {
  import opened Bytes
  import opened Collections
  import opened Keys
  import opened Records
  import opened Tokenizer

  datatype Options = Options(
    nodeId: Str, memBudgetMb: nat, gcBatchSize: nat, maxRecordBytes: nat, enableTombstoneGc: bool,
    tombstoneRetentionMs: nat, maxPinnedRatio: real, pinTtlOverrideS: nat, pinQuotaPerWorkspace: nat)

  function ResidentLimitBytes(o: Options): (n: nat) {
    o.memBudgetMb * 1024 * 1024 % UINT64_LIMIT
  }

  // ---- Store rows ----

  type TermKey = (Str, Str, Str)

  datatype OpType = UpsertOp | PinOp | DeleteOp

  datatype Posting = Posting(docId: Str, tf: nat, docLen: nat, pinned: bool, updatedAtMs: nat)

  /** The row holds the vector computed from this text. */
  datatype VecFp = VecFp(embeddedText: Str, updatedAtMs: nat)

  datatype EventKey = EventKey(workspaceId: Str, ts: nat, seqNo: nat)

  datatype Event = Event(memoryId: Str, op: OpType, updatedAtMs: nat, version: nat, payload: Record)

  datatype Store = Store(docs: map<RecKey, Record>, postings: map<TermKey, Posting>, vecFp: map<RecKey, VecFp>,
                         events: map<EventKey, Event>, ckpts: map<Str, EventKey>)

  const EMPTY_STORE := Store(map[], map[], map[], map[], map[])

  datatype StoreWrite =
    | PutDoc(record: Record)
    | DropDoc(doc: RecKey)
    | PutPosting(row: TermKey, posting: Posting)
    | DropPosting(row: TermKey)
    | PutVec(vec: RecKey, fp: VecFp)
    | DropVec(vec: RecKey)
    | PutEvent(key: EventKey, event: Event)
    | PutCkpt(workspaceId: Str, key: EventKey)

  function Apply(s: Store, w: StoreWrite): (s': Store) {
    match w
    case PutDoc(r) => s.(docs := s.docs[KeyOf(r) := r])
    case DropDoc(k) => s.(docs := s.docs - {k})
    case PutPosting(k, p) => s.(postings := s.postings[k := p])
    case DropPosting(k) => s.(postings := s.postings - {k})
    case PutVec(k, v) => s.(vecFp := s.vecFp[k := v])
    case DropVec(k) => s.(vecFp := s.vecFp - {k})
    case PutEvent(k, e) => s.(events := s.events[k := e])
    case PutCkpt(ws, k) => s.(ckpts := s.ckpts[ws := k])
  }

  function ApplyAll(s: Store, writes: seq<StoreWrite>): (s': Store) {
    if writes == [] then s else Apply(ApplyAll(s, writes[..|writes| - 1]), writes[|writes| - 1])
  }

  lemma {:induction false} ApplyAllAppend(s: Store, a: seq<StoreWrite>, b: seq<StoreWrite>)
    ensures ApplyAll(s, a + b) == ApplyAll(ApplyAll(s, a), b)
    decreases |b|
  {
    if b == [] {
      assert a + b == a;
    } else {
      var n := |b| - 1;
      ApplyAllAppend(s, a, b[..n]);
      assert (a + b)[..|a + b| - 1] == a + b[..n];
    }
  }

  // ---- What one action does to the store ----

  /** The posting rows of a record's terms. */
  function TermRows(r: Record): (rows: set<TermKey>) {
    set t | t in TokensOf(r.content) :: (r.workspaceId, t, r.id)
  }

  function PostingOf(r: Record, t: Str): (p: Posting)
    requires t in TokensOf(r.content)
  {
    Posting(r.id, Frequencies(TokensOf(r.content))[t], |TokensOf(r.content)|, r.pinned, r.updatedAtMs)
  }

  function PostingRows(r: Record): (rows: map<TermKey, Posting>)
    ensures rows.Keys == TermRows(r)
  {
    map row | row in TermRows(r) :: PostingOf(r, row.1)
  }

  /** The terms whose rows are deleted before a record is saved: those of the resident record under
      its key, and its own if it is a tombstone. */
  function ClearedRows(resident: map<RecKey, Record>, r: Record): (rows: set<TermKey>) {
    (if KeyOf(r) in resident then TermRows(resident[KeyOf(r)]) else {}) + (if r.tombstone then TermRows(r) else {})
  }

  function Persisted(s: Store, resident: map<RecKey, Record>, r: Record): (s': Store) {
    s.(docs := s.docs[KeyOf(r) := r],
       postings := s.postings - ClearedRows(resident, r) + if r.tombstone then map[] else PostingRows(r),
       vecFp := if r.tombstone then s.vecFp - {KeyOf(r)} else s.vecFp[KeyOf(r) := VecFp(r.content, r.updatedAtMs)])
  }

  function Erased(s: Store, r: Record): (s': Store) {
    s.(docs := s.docs - {KeyOf(r)}, postings := s.postings - TermRows(r), vecFp := s.vecFp - {KeyOf(r)})
  }

  /** One record saved or physically deleted, with the time and number of its event. */
  datatype Action =
    | Save(record: Record, op: OpType, ts: nat, seqNo: nat)
    | Erase(record: Record, ts: nat, seqNo: nat)

  const DEFAULT: Str := Lit("default")

  function EventKeyOf(a: Action): (k: EventKey) {
    EventKey(if a.record.workspaceId == [] then DEFAULT else a.record.workspaceId, a.ts, a.seqNo)
  }

  function EventOf(a: Action): (e: Event) {
    Event(a.record.id, if a.Save? then a.op else DeleteOp, a.ts, a.record.version, a.record)
  }

  function Logged(s: Store, a: Action): (s': Store) {
    s.(events := s.events[EventKeyOf(a) := EventOf(a)],
       ckpts := if a.record.workspaceId == [] then s.ckpts else s.ckpts[a.record.workspaceId := EventKeyOf(a)])
  }

  function Act(s: Store, resident: map<RecKey, Record>, a: Action): (s': Store) {
    Logged(if a.Save? then Persisted(s, resident, a.record) else Erased(s, a.record), a)
  }

  lemma ActParts(s: Store, resident: map<RecKey, Record>, a: Action)
    ensures Act(s, resident, a).docs == if a.Save? then s.docs[KeyOf(a.record) := a.record] else s.docs - {KeyOf(a.record)}
    ensures Act(s, resident, a).events == s.events[EventKeyOf(a) := EventOf(a)]
    ensures a.record.workspaceId != [] ==> Act(s, resident, a).ckpts == s.ckpts[a.record.workspaceId := EventKeyOf(a)]
  {
  }

  /** A batch of actions; `resident` is what was in memory when the batch was built. */
  function ActAll(s: Store, resident: map<RecKey, Record>, actions: seq<Action>): (s': Store) {
    if actions == [] then s else Act(ActAll(s, resident, actions[..|actions| - 1]), resident, actions[|actions| - 1])
  }

  // ---- What one action does in memory ----

  /** `used` is a 64-bit counter and wraps; `indexed` is what the retriever holds. */
  datatype Memory = Memory(records: map<RecKey, Record>, charges: map<RecKey, nat>, used: nat,
                           indexed: map<RecKey, Record>, dedup: map<(Str, Str), Str>)

  const EMPTY_MEMORY := Memory(map[], map[], 0, map[], map[])

  function ChargeAt(m: Memory, k: RecKey): (c: nat) {
    if k in m.charges then m.charges[k] else 0
  }

  function Upserted(m: Memory, r: Record, charge: Record -> nat): (m': Memory) {
    Memory(m.records[KeyOf(r) := r],
           m.charges[KeyOf(r) := charge(r)],
           (m.used + charge(r) - ChargeAt(m, KeyOf(r))) % UINT64_LIMIT,
           if r.tombstone then m.indexed - {KeyOf(r)} else m.indexed[KeyOf(r) := r],
           if r.dedupKey == [] then m.dedup else m.dedup[(r.workspaceId, r.dedupKey) := r.id])
  }

  function Dropped(m: Memory, k: RecKey): (m': Memory) {
    Memory(m.records - {k}, m.charges - {k}, (m.used - ChargeAt(m, k)) % UINT64_LIMIT, m.indexed - {k}, m.dedup)
  }

  /** Removing a record that is not resident only forgets a charge; removing one that is also
      forgets its dedup entry. */
  function Removed(m: Memory, r: Record): (m': Memory) {
    var k := KeyOf(r);
    if k !in m.records then m.(charges := m.charges - {k})
    else if m.records[k].dedupKey == [] then Dropped(m, k)
    else Dropped(m, k).(dedup := m.dedup - {(r.workspaceId, m.records[k].dedupKey)})
  }

  function ActMem(m: Memory, a: Action, charge: Record -> nat): (m': Memory) {
    if a.Save? then Upserted(m, a.record, charge) else Removed(m, a.record)
  }

  function ActMemAll(m: Memory, actions: seq<Action>, charge: Record -> nat): (m': Memory) {
    if actions == [] then m else ActMem(ActMemAll(m, actions[..|actions| - 1], charge), actions[|actions| - 1], charge)
  }

  lemma ActOneMore(m: Memory, actions: seq<Action>, a: Action, charge: Record -> nat)
    ensures ActMemAll(m, actions + [a], charge) == ActMem(ActMemAll(m, actions, charge), a, charge)
  {
    assert (actions + [a])[..|actions|] == actions;
  }

  function WithAccess(r: Record, lastAccessMs: nat, hitCount: nat): (r': Record) {
    r.(lastAccessMs := lastAccessMs, hitCount := hitCount)
  }

  lemma ActMemRecords(m: Memory, a: Action, charge: Record -> nat)
    ensures ActMem(m, a, charge).records
         == if a.Save? then m.records[KeyOf(a.record) := a.record] else m.records - {KeyOf(a.record)}
  {
    if a.Erase? && KeyOf(a.record) !in m.records { assert m.records - {KeyOf(a.record)} == m.records; }
  }

  /** A record not yet filled in. */
  const NO_RECORD := Record([], [], [], [], [], [], [], [], false, false, 0, 0, 0, 0, 0, 0, 1.0, HOT, [], 0, [], [], 0, [])

  /** What a query writes back about one hit. */
  function Touched(m: Memory, k: RecKey, nowMs: nat): (m': Memory) {
    if k !in m.records || m.records[k].tombstone then m
    else m.(records := m.records[k := WithAccess(m.records[k], nowMs, m.records[k].hitCount + 1)])
  }

  function TouchedAll(m: Memory, ks: seq<RecKey>, nowMs: nat): (m': Memory) {
    if ks == [] then m else Touched(TouchedAll(m, ks[..|ks| - 1], nowMs), ks[|ks| - 1], nowMs)
  }

  // ---- Coherence of the memory ----

  /** How the engine charges a record: never zero, and blind to what a query changes. */
  function ChargeBy(dim: nat): (charge: Record -> nat)
    ensures forall r :: charge(r) == EstimateResidentCharge(r, dim)
  {
    (r: Record) => EstimateResidentCharge(r, dim)
  }

  ghost predicate IgnoresAccess(charge: Record -> nat) {
    forall r, lastAccessMs, hitCount :: charge(WithAccess(r, lastAccessMs, hitCount)) == charge(r)
  }

  lemma ChargeByIgnoresAccess(dim: nat)
    ensures IgnoresAccess(ChargeBy(dim))
  {
    forall r: Record, lastAccessMs: nat, hitCount: nat
      ensures ChargeBy(dim)(WithAccess(r, lastAccessMs, hitCount)) == ChargeBy(dim)(r)
    {
      ChargeIgnoresAccess(WithAccess(r, lastAccessMs, hitCount), r, dim);
    }
  }

  ghost predicate Charged(records: map<RecKey, Record>, charges: map<RecKey, nat>, charge: Record -> nat) {
    && records.Keys == charges.Keys
    && forall k :: k in records ==> KeyOf(records[k]) == k && charges[k] == charge(records[k])
  }

  ghost predicate IndexMatches(indexed: map<RecKey, Record>, records: map<RecKey, Record>) {
    && (forall k :: k in indexed <==> k in records && !records[k].tombstone)
    && forall k :: k in indexed ==> SameButAccess(indexed[k], records[k])
  }

  /** Every resident record is charged exactly its estimate, the counter is the sum, and the
      retriever holds exactly the resident records that are not tombstones. */
  ghost predicate Coherent(m: Memory, charge: Record -> nat) {
    && Charged(m.records, m.charges, charge)
    && m.used == Total(m.charges) % UINT64_LIMIT
    && IndexMatches(m.indexed, m.records)
  }

  lemma WrapSum(t: nat, used: nat, old': nat, new': nat)
    requires used == t % UINT64_LIMIT && old' <= t
    ensures (used + new' - old') % UINT64_LIMIT == (t + new' - old') % UINT64_LIMIT
  {
  }

  lemma UsedAfterPut(charges: map<RecKey, nat>, used: nat, k: RecKey, c: nat)
    requires used == Total(charges) % UINT64_LIMIT
    ensures (used + c - if k in charges then charges[k] else 0) % UINT64_LIMIT == Total(charges[k := c]) % UINT64_LIMIT
  {
    TotalPut(charges, k, c);
    if k in charges { TotalRemove(charges, k); }
    WrapSum(Total(charges), used, if k in charges then charges[k] else 0, c);
  }

  lemma UsedAfterRemove(charges: map<RecKey, nat>, used: nat, k: RecKey)
    requires used == Total(charges) % UINT64_LIMIT && k in charges
    ensures (used - charges[k]) % UINT64_LIMIT == Total(charges - {k}) % UINT64_LIMIT
  {
    TotalRemove(charges, k);
    WrapSum(Total(charges), used, charges[k], 0);
  }

  lemma ChargedAfterPut(records: map<RecKey, Record>, charges: map<RecKey, nat>, charge: Record -> nat, k: RecKey, r: Record, c: nat)
    requires Charged(records, charges, charge) && KeyOf(r) == k && c == charge(r)
    ensures Charged(records[k := r], charges[k := c], charge)
  {
  }

  lemma ChargedAfterRemove(records: map<RecKey, Record>, charges: map<RecKey, nat>, charge: Record -> nat, k: RecKey)
    requires Charged(records, charges, charge)
    ensures Charged(records - {k}, charges - {k}, charge)
  {
  }

  lemma UpsertedCoherent(m: Memory, r: Record, charge: Record -> nat)
    requires Coherent(m, charge)
    ensures Coherent(Upserted(m, r, charge), charge)
  {
    UpsertedUsed(m, r, charge);
    UpsertedCharged(m, r, charge);
    IndexAfterPut(m.indexed, m.records, KeyOf(r), r);
  }

  lemma UpsertedUsed(m: Memory, r: Record, charge: Record -> nat)
    requires m.used == Total(m.charges) % UINT64_LIMIT
    ensures Upserted(m, r, charge).used == Total(Upserted(m, r, charge).charges) % UINT64_LIMIT
  {
    UsedAfterPut(m.charges, m.used, KeyOf(r), charge(r));
  }

  lemma UpsertedCharged(m: Memory, r: Record, charge: Record -> nat)
    requires Charged(m.records, m.charges, charge)
    ensures Charged(Upserted(m, r, charge).records, Upserted(m, r, charge).charges, charge)
  {
    ChargedAfterPut(m.records, m.charges, charge, KeyOf(r), r, charge(r));
  }

  lemma IndexAfterPut(indexed: map<RecKey, Record>, records: map<RecKey, Record>, k: RecKey, r: Record)
    requires IndexMatches(indexed, records)
    ensures IndexMatches(if r.tombstone then indexed - {k} else indexed[k := r], records[k := r])
  {
  }

  lemma DroppedCoherent(m: Memory, k: RecKey, charge: Record -> nat)
    requires Coherent(m, charge) && k in m.records
    ensures Coherent(Dropped(m, k), charge)
  {
    ChargedAfterRemove(m.records, m.charges, charge, k);
    UsedAfterRemove(m.charges, m.used, k);
    assert IndexMatches(m.indexed - {k}, m.records - {k});
  }

  lemma RemovedCoherent(m: Memory, r: Record, charge: Record -> nat)
    requires Coherent(m, charge)
    ensures Coherent(Removed(m, r), charge)
  {
    if KeyOf(r) in m.records {
      DroppedCoherent(m, KeyOf(r), charge);
    } else {
      assert m.charges - {KeyOf(r)} == m.charges;
    }
  }

  lemma TouchedCoherent(m: Memory, k: RecKey, nowMs: nat, charge: Record -> nat)
    requires Coherent(m, charge) && IgnoresAccess(charge)
    ensures Coherent(Touched(m, k, nowMs), charge)
  {
    if k in m.records && !m.records[k].tombstone {
      var r := WithAccess(m.records[k], nowMs, m.records[k].hitCount + 1);
      assert Touched(m, k, nowMs) == m.(records := m.records[k := r]);
      AccessChanged(m, k, r, charge);
    }
  }

  lemma AccessChanged(m: Memory, k: RecKey, r: Record, charge: Record -> nat)
    requires Coherent(m, charge) && k in m.records && SameButAccess(m.records[k], r) && charge(r) == charge(m.records[k])
    ensures Coherent(m.(records := m.records[k := r]), charge)
  {
    ChargedAfterPut(m.records, m.charges, charge, k, r, charge(r));
    assert m.charges[k := charge(r)] == m.charges;
    IndexAfterTouch(m.indexed, m.records, k, r);
  }

  lemma IndexAfterTouch(indexed: map<RecKey, Record>, records: map<RecKey, Record>, k: RecKey, r: Record)
    requires IndexMatches(indexed, records) && k in records && SameButAccess(records[k], r)
    ensures IndexMatches(indexed, records[k := r])
  {
  }

  lemma {:induction false} ActMemAllCoherent(m: Memory, actions: seq<Action>, charge: Record -> nat)
    requires Coherent(m, charge)
    ensures Coherent(ActMemAll(m, actions, charge), charge)
  {
    if actions != [] {
      var n := |actions| - 1;
      ActMemAllCoherent(m, actions[..n], charge);
      if actions[n].Save? {
        UpsertedCoherent(ActMemAll(m, actions[..n], charge), actions[n].record, charge);
      } else {
        RemovedCoherent(ActMemAll(m, actions[..n], charge), actions[n].record, charge);
      }
    }
  }

  lemma {:induction false} TouchedAllCoherent(m: Memory, ks: seq<RecKey>, nowMs: nat, charge: Record -> nat)
    requires Coherent(m, charge) && IgnoresAccess(charge)
    ensures Coherent(TouchedAll(m, ks, nowMs), charge)
  {
    if ks != [] {
      var n := |ks| - 1;
      TouchedAllCoherent(m, ks[..n], nowMs, charge);
      TouchedCoherent(TouchedAll(m, ks[..n], nowMs), ks[n], nowMs, charge);
    }
  }

  /** As long as the charges add up to less than 2^64 the counter is their exact sum, and no
      subtraction takes it below zero. */
  lemma CounterIsExact(m: Memory, charge: Record -> nat)
    requires Coherent(m, charge) && Total(m.charges) < UINT64_LIMIT
    ensures m.used == Total(m.charges)
    ensures forall k :: k in m.records ==> m.used >= m.charges[k]
  {
    forall k | k in m.records ensures m.used >= m.charges[k] {
      TotalRemove(m.charges, k);
    }
  }
}
