/** Memory records and the pure rules about them
    (include/pgmem/types.h:15-52, src/core/memory_engine.cpp:131-172, 225-267, 935-938, 1495-1501). */
module Records {
  import opened Bytes
  import opened Collections
  import opened Keys
  import opened Tokenizer

  datatype Record = Record(
    id: Str, workspaceId: Str, sessionId: Str, source: Str, content: Str,
    tags: seq<Str>, metadata: seq<(Str, Str)>, dedupKey: Str,
    pinned: bool, tombstone: bool,
    createdAtMs: nat, updatedAtMs: nat, version: nat, sizeBytes: nat, lastAccessMs: nat, hitCount: nat,
    importanceScore: real, tier: Str, nodeId: Str, ttlS: nat,
    shardId: Str, replicaRole: Str, routingEpoch: nat, shardHint: Str)

  /** A record's place: workspace and id. */
  type RecKey = (Str, Str)

  function KeyOf(r: Record): (k: RecKey) {
    (r.workspaceId, r.id)
  }

  /** Equal up to what a query writes back: last access and hit count. */
  predicate SameButAccess(a: Record, b: Record) {
    a.(lastAccessMs := b.lastAccessMs, hitCount := b.hitCount) == b
  }

  predicate Active(r: Record) {
    !r.tombstone
  }

  // ---- Sizes ----

  function SizeOfTags(tags: seq<Str>): (n: nat) {
    if tags == [] then 0 else |tags[0]| + SizeOfTags(tags[1..])
  }

  function SizeOfMetadata(metadata: seq<(Str, Str)>): (n: nat) {
    if metadata == [] then 0 else |metadata[0].0| + |metadata[0].1| + SizeOfMetadata(metadata[1..])
  }

  function FieldBytes(r: Record): (n: nat) {
    |r.id| + |r.workspaceId| + |r.sessionId| + |r.source| + |r.content| + |r.nodeId| + |r.tier|
    + |r.dedupKey| + |r.shardId| + |r.replicaRole| + |r.shardHint| + SizeOfTags(r.tags) + SizeOfMetadata(r.metadata)
  }

  function ComputeRecordSizeBytes(r: Record): (n: nat)
    ensures n >= 384
  {
    FieldBytes(r) + 384
  }

  function SizeOfTerms(terms: seq<Str>): (n: nat) {
    if terms == [] then 0 else |terms[0]| + SizeOfTerms(terms[1..])
  }

  /** The retriever's estimate; a tombstone is not indexed and costs nothing there. */
  function EstimateDocBytes(r: Record, embeddingDim: nat): (n: nat) {
    if r.tombstone then 0
    else
      var tokens := TokensOf(r.content);
      var terms := Distinct(tokens);
      FieldBytes(r) + 320 + |tokens| * 8 + |terms| * 48 + SizeOfTerms(terms) + embeddingDim * 4 + 128
  }

  function EstimateResidentCharge(r: Record, embeddingDim: nat): (n: nat)
    ensures n > 0
  {
    (if r.sizeBytes > 0 then r.sizeBytes else ComputeRecordSizeBytes(r)) + EstimateDocBytes(r, embeddingDim)
  }

  /** What a query changes does not change the charge. */
  lemma ChargeIgnoresAccess(a: Record, b: Record, embeddingDim: nat)
    requires SameButAccess(a, b)
    ensures EstimateResidentCharge(a, embeddingDim) == EstimateResidentCharge(b, embeddingDim)
  {
  }

  // ---- Expiry ----

  function TtlMs(r: Record): (ms: nat) {
    r.ttlS * 1000 % UINT64_LIMIT
  }

  predicate IsExpired(r: Record, nowMs: nat) {
    r.ttlS != 0 && r.updatedAtMs != 0 && nowMs > r.updatedAtMs && nowMs - r.updatedAtMs >= TtlMs(r)
  }

  /** A record expires when its time to live has passed since its last update, exactly for the
      lifetimes whose milliseconds fit in 64 bits. */
  lemma ExpiryExact(r: Record)
    requires r.ttlS != 0 && r.updatedAtMs != 0
    ensures (forall now: nat :: IsExpired(r, now) <==> now >= r.updatedAtMs + r.ttlS * 1000) <==> r.ttlS * 1000 < UINT64_LIMIT
  {
    var full := r.ttlS * 1000;
    if full < UINT64_LIMIT {
      assert TtlMs(r) == full;
    } else {
      var early := r.updatedAtMs + full - 1;
      assert TtlMs(r) < UINT64_LIMIT <= full;
      assert IsExpired(r, early) && !(early >= r.updatedAtMs + full);
    }
  }

  // ---- Versions ----

  /** Newer by update time, then version, then node id. */
  predicate IsIncomingNewer(current: Record, incoming: Record) {
    if incoming.updatedAtMs != current.updatedAtMs then incoming.updatedAtMs > current.updatedAtMs
    else if incoming.version != current.version then incoming.version > current.version
    else Less(current.nodeId, incoming.nodeId)
  }

  predicate SameStamp(a: Record, b: Record) {
    a.updatedAtMs == b.updatedAtMs && a.version == b.version && a.nodeId == b.nodeId
  }

  lemma NewerIsStrictOrder(a: Record, b: Record, c: Record)
    ensures !IsIncomingNewer(a, a)
    ensures IsIncomingNewer(a, b) && IsIncomingNewer(b, c) ==> IsIncomingNewer(a, c)
    ensures IsIncomingNewer(a, b) || IsIncomingNewer(b, a) || SameStamp(a, b)
    ensures IsIncomingNewer(a, b) ==> !IsIncomingNewer(b, a)
    ensures SameStamp(a, b) ==> !IsIncomingNewer(a, b)
  {
    LessIrreflexive(a.nodeId);
    LessTotal(a.nodeId, b.nodeId);
    if Less(a.nodeId, b.nodeId) && Less(b.nodeId, c.nodeId) { LessTransitive(a.nodeId, b.nodeId, c.nodeId); }
    if Less(a.nodeId, b.nodeId) && Less(b.nodeId, a.nodeId) { LessTransitive(a.nodeId, b.nodeId, a.nodeId); }
  }

  // ---- Eviction rank and pin governance ----

  function Max(a: nat, b: nat): (m: nat) {
    if a >= b then a else b
  }

  const TURN: Str := Lit("turn")
  const HOT: Str := Lit("hot")
  const COLD: Str := Lit("cold")

  /** log1p stands for the library function of that name, over the reals. */
  function EvictionRank(r: Record, nowMs: nat, log1p: real -> real): (rank: real) {
    var reference := Max(r.updatedAtMs, r.lastAccessMs);
    var ageHours := (if nowMs > reference then nowMs - reference else 0) as real / 3600000.0;
    var sourceWeight := if r.source == TURN then 2.0 else 0.8;
    var pinBias := if r.pinned then 1500.0 else 0.0;
    var tombstoneBias := if r.tombstone then -1500.0 else 0.0;
    r.importanceScore * 10.0 + log1p(r.hitCount as real) * 4.0 + sourceWeight + pinBias + tombstoneBias - ageHours * 1.5
  }

  predicate IsPinBlockedByRatio(pinned: nat, active: nat, maxRatio: real) {
    if active == 0 then false
    else if maxRatio <= 0.0 then true
    else if maxRatio >= 1.0 then false
    else pinned as real / active as real > maxRatio
  }

  /** The active records of a workspace, and the pinned ones among them. */
  function ActiveKeys(records: map<RecKey, Record>, ws: Str): (ks: set<RecKey>) {
    set k | k in records && records[k].workspaceId == ws && !records[k].tombstone
  }

  function PinnedKeys(records: map<RecKey, Record>, ws: Str): (ks: set<RecKey>) {
    set k | k in records && records[k].workspaceId == ws && !records[k].tombstone && records[k].pinned
  }

  /** First entry under the name, if any. */
  function Lookup(metadata: seq<(Str, Str)>, name: Str): (value: Str) {
    if metadata == [] then [] else if metadata[0].0 == name then metadata[0].1 else Lookup(metadata[1..], name)
  }
}
