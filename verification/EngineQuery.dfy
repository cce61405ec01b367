/** What a query returns (src/core/memory_engine.cpp:535-567): the retriever's hits without the
    expired ones, up to the token budget. */
module EngineQuery {
  import opened Bytes
  import opened Collections
  import opened EngineModel
  import opened Ranking
  import opened Records
  import opened RetrievalModel
  import opened Retriever
  import opened Tokenizer
  import opened VectorIndex

  predicate Expired(records: map<RecKey, Record>, ws: Str, hit: QueryHit, nowMs: nat) {
    (ws, hit.memoryId) in records && IsExpired(records[(ws, hit.memoryId)], nowMs)
  }

  predicate OverBudget(hit: QueryHit, used: nat, budget: int) {
    budget > 0 && used + EstimateTokenCount(hit.content) > budget
  }

  /** The loop: stop at the first hit over budget, expired or not; skip the other expired hits. */
  function Emitted(hits: seq<QueryHit>, records: map<RecKey, Record>, ws: Str, nowMs: nat, budget: int, used: nat): (out: seq<QueryHit>) {
    if hits == [] || OverBudget(hits[0], used, budget) then []
    else if Expired(records, ws, hits[0], nowMs) then Emitted(hits[1..], records, ws, nowMs, budget, used)
    else [hits[0]] + Emitted(hits[1..], records, ws, nowMs, budget, used + EstimateTokenCount(hits[0].content))
  }

  function Live(hits: seq<QueryHit>, records: map<RecKey, Record>, ws: Str, nowMs: nat): (out: seq<QueryHit>) {
    if hits == [] then []
    else (if Expired(records, ws, hits[0], nowMs) then [] else [hits[0]]) + Live(hits[1..], records, ws, nowMs)
  }

  function WithinBudget(hits: seq<QueryHit>, budget: int, used: nat): (out: seq<QueryHit>) {
    if hits == [] || OverBudget(hits[0], used, budget) then []
    else [hits[0]] + WithinBudget(hits[1..], budget, used + EstimateTokenCount(hits[0].content))
  }

  function TokensIn(hits: seq<QueryHit>): (n: nat) {
    if hits == [] then 0 else EstimateTokenCount(hits[0].content) + TokensIn(hits[1..])
  }

  /** The budget is never exceeded. */
  lemma {:induction false} BudgetIsHard(hits: seq<QueryHit>, records: map<RecKey, Record>, ws: Str, nowMs: nat, budget: int, used: nat)
    requires 0 < budget && used <= budget
    ensures used + TokensIn(Emitted(hits, records, ws, nowMs, budget, used)) <= budget
  {
    if hits != [] && !OverBudget(hits[0], used, budget) {
      var t := EstimateTokenCount(hits[0].content);
      if Expired(records, ws, hits[0], nowMs) {
        BudgetIsHard(hits[1..], records, ws, nowMs, budget, used);
      } else {
        BudgetIsHard(hits[1..], records, ws, nowMs, budget, used + t);
        var rest := Emitted(hits[1..], records, ws, nowMs, budget, used + t);
        assert ([hits[0]] + rest)[1..] == rest;
      }
    }
  }

  /** Where the loop stops: at a live hit, or with no live hit left that would fit. */
  predicate StopsAtLive(hits: seq<QueryHit>, records: map<RecKey, Record>, ws: Str, nowMs: nat, budget: int, used: nat) {
    if hits == [] then true
    else if OverBudget(hits[0], used, budget) then
      var live := Live(hits, records, ws, nowMs); live == [] || OverBudget(live[0], used, budget)
    else StopsAtLive(hits[1..], records, ws, nowMs, budget,
                     if Expired(records, ws, hits[0], nowMs) then used else used + EstimateTokenCount(hits[0].content))
  }

  /** The documented order removes expired hits first and then applies the budget. The code returns a
      prefix of that, and all of it exactly when the hit it stops at is not an expired one hiding a
      live one that fits. */
  lemma {:induction false} EmittedIsDocumented(hits: seq<QueryHit>, records: map<RecKey, Record>, ws: Str, nowMs: nat, budget: int, used: nat)
    ensures Emitted(hits, records, ws, nowMs, budget, used) <= WithinBudget(Live(hits, records, ws, nowMs), budget, used)
    ensures Emitted(hits, records, ws, nowMs, budget, used) == WithinBudget(Live(hits, records, ws, nowMs), budget, used)
       <==> StopsAtLive(hits, records, ws, nowMs, budget, used)
  {
    if hits != [] && !OverBudget(hits[0], used, budget) {
      if Expired(records, ws, hits[0], nowMs) {
        assert [] + Live(hits[1..], records, ws, nowMs) == Live(hits[1..], records, ws, nowMs);
        EmittedIsDocumented(hits[1..], records, ws, nowMs, budget, used);
      } else {
        var now := used + EstimateTokenCount(hits[0].content);
        EmittedIsDocumented(hits[1..], records, ws, nowMs, budget, now);
        LiveHead(hits, records, ws, nowMs, budget, used, now);
      }
    }
  }

  /** A live hit within the budget goes out first, in the code and in the documented order. */
  lemma LiveHead(hits: seq<QueryHit>, records: map<RecKey, Record>, ws: Str, nowMs: nat, budget: int, used: nat, now: nat)
    requires hits != [] && !OverBudget(hits[0], used, budget) && !Expired(records, ws, hits[0], nowMs)
    requires now == used + EstimateTokenCount(hits[0].content)
    ensures var out, doc := Emitted(hits[1..], records, ws, nowMs, budget, now), WithinBudget(Live(hits[1..], records, ws, nowMs), budget, now);
      && Emitted(hits, records, ws, nowMs, budget, used) == [hits[0]] + out
      && WithinBudget(Live(hits, records, ws, nowMs), budget, used) == [hits[0]] + doc
      && ([hits[0]] + out == [hits[0]] + doc <==> out == doc) && ([hits[0]] + out <= [hits[0]] + doc <==> out <= doc)
  {
    var rest := Live(hits[1..], records, ws, nowMs);
    var out, doc := Emitted(hits[1..], records, ws, nowMs, budget, now), WithinBudget(rest, budget, now);
    FitsFirst(hits[0], rest, budget, used, now);
    SameHead(hits[0], out, doc);
  }

  lemma FitsFirst(hit: QueryHit, rest: seq<QueryHit>, budget: int, used: nat, now: nat)
    requires !OverBudget(hit, used, budget) && now == used + EstimateTokenCount(hit.content)
    ensures WithinBudget([hit] + rest, budget, used) == [hit] + WithinBudget(rest, budget, now)
  {
    assert ([hit] + rest)[0] == hit && ([hit] + rest)[1..] == rest;
  }

  lemma SameHead<T>(x: T, a: seq<T>, b: seq<T>)
    ensures [x] + a == [x] + b <==> a == b
    ensures [x] + a <= [x] + b <==> a <= b
  {
    assert ([x] + a)[1..] == a && ([x] + b)[1..] == b;
    if [x] + a <= [x] + b { assert a == ([x] + b)[..|a| + 1][1..] == b[..|a|]; }
  }

  // ---- A query that the order of the two checks deprives of its only answer ----

  function StaleRecord(ws: Str): (r: Record) {
    NO_RECORD.(workspaceId := ws, id := Lit("a"), content := Lit("stale"), pinned := true, updatedAtMs := 1, ttlS := 1)
  }

  function FreshRecord(ws: Str): (r: Record) {
    NO_RECORD.(workspaceId := ws, id := Lit("b"), content := Lit("new"), updatedAtMs := 1)
  }

  /** A query without filters, for one token, that ranks by pin alone. */
  function OneTokenQuery(ws: Str, text: Str): (q: QueryInput) {
    QueryInput(ws, text, 0, 1, QueryFilter([], [], [], 0, 0, false), RecallOptions(0, 0, 0), RerankWeights(0.0, 0.0, 0.0, 1.0))
  }

  function BothRecords(ws: Str): (records: map<RecKey, Record>) {
    map[KeyOf(StaleRecord(ws)) := StaleRecord(ws), KeyOf(FreshRecord(ws)) := FreshRecord(ws)]
  }

  lemma IdsDiffer(ws: Str)
    ensures StaleRecord(ws).id != FreshRecord(ws).id
    ensures DocIds(BothRecords(ws), ws) == {StaleRecord(ws).id, FreshRecord(ws).id}
  {
    assert StaleRecord(ws).id[0] != FreshRecord(ws).id[0];
  }

  lemma BothDescribed(ws: Str, s: Snapshot, embed: Str -> Vector)
    requires Describes(s, BothRecords(ws), ws, embed)
    ensures var a, b := StaleRecord(ws).id, FreshRecord(ws).id;
      a != b && s.docs.Keys == {a, b} && s.docs[a].record == StaleRecord(ws) && s.docs[b].record == FreshRecord(ws)
  {
    IdsDiffer(ws);
  }

  lemma PinScores(r: Record, sparse: real, dense: real, sparseMax: real, denseMax: real, nowMs: nat)
    ensures Fuse(r, sparse, dense, sparseMax, denseMax, RerankWeights(0.0, 0.0, 0.0, 1.0), nowMs).final == if r.pinned then 1.0 else 0.0
  {
  }

  lemma BruteForcePins(s: Snapshot, q: QueryInput, env: Env, id: Str)
    requires q.rerank == RerankWeights(0.0, 0.0, 0.0, 1.0) && id in Passing(s.docs, q.filters)
    ensures id in BruteForce(s, q, env) && BruteForce(s, q, env)[id].final == if s.docs[id].record.pinned then 1.0 else 0.0
  {
    var sparse, dense := PassingLexical(s, q, env), PassingDense(s, q, env);
    PinScores(s.docs[id].record, sparse[id], dense[id], Peak(sparse), Peak(dense), env.nowMs);
  }

  lemma PinnedRanksFirst(ws: Str, s: Snapshot, q: QueryInput, env: Env)
    requires Describes(s, BothRecords(ws), ws, env.embed) && q == OneTokenQuery(ws, q.query)
    ensures var a, b, rank := StaleRecord(ws).id, FreshRecord(ws).id, RankOf(s, BruteForce(s, q, env));
      rank.Keys == {a, b} && Outranks(rank[a], rank[b])
  {
    var a, b := StaleRecord(ws).id, FreshRecord(ws).id;
    BothDescribed(ws, s, env.embed);
    assert Passing(s.docs, q.filters) == {a, b};
    BruteForceRanksPassing(s, q, env);
    BruteForcePins(s, q, env, a);
    BruteForcePins(s, q, env, b);
  }

  lemma PairInOrder(ids: seq<Str>, rank: map<Str, (real, nat)>, k: nat, a: Str, b: Str)
    requires a != b && rank.Keys == {a, b} && Outranks(rank[a], rank[b]) && IsBest(ids, rank, k) && k >= 2
    ensures ids == [a, b]
  {
    assert |rank.Keys| == 2;
    assert ids[0] in rank && ids[1] in rank && ids[0] != ids[1];
  }

  lemma FewRankedByBruteForce(hits: seq<QueryHit>, s: Snapshot, q: QueryInput, env: Env)
    requires |s.docs| <= EffectiveTopK(q) && env.embed(q.query) != [] && IsAnswer(hits, s, q, env)
    ensures IsBest(HitIds(hits), RankOf(s, BruteForce(s, q, env)), EffectiveTopK(q))
  {
    AnswerIsBruteForceBest(hits, s, q, env);
  }

  lemma HitIsRecord(hits: seq<QueryHit>, i: nat, s: Snapshot, q: QueryInput, env: Env)
    requires IsAnswer(hits, s, q, env) && i < |hits|
    ensures HitIds(hits)[i] in s.docs && hits[i] == MakeHit(s.docs[HitIds(hits)[i]].record, hits[i].scores)
  {
  }

  lemma TwoIds(hits: seq<QueryHit>, s: Snapshot, q: QueryInput, env: Env, a: Str, b: Str)
    requires EffectiveTopK(q) >= 2 && env.embed(q.query) != [] && IsAnswer(hits, s, q, env)
    requires a != b && s.docs.Keys == {a, b}
    requires var rank := RankOf(s, BruteForce(s, q, env)); rank.Keys == {a, b} && Outranks(rank[a], rank[b])
    ensures HitIds(hits) == [a, b]
  {
    TwoDocs(s.docs, a, b);
    FewRankedByBruteForce(hits, s, q, env);
    PairInOrder(HitIds(hits), RankOf(s, BruteForce(s, q, env)), EffectiveTopK(q), a, b);
  }

  lemma TwoDocs<V>(docs: map<Str, V>, a: Str, b: Str)
    requires a != b && docs.Keys == {a, b}
    ensures |docs| == 2
  {
    assert |docs| == |docs.Keys|;
  }

  lemma TwoHits(hits: seq<QueryHit>, s: Snapshot, q: QueryInput, env: Env, a: Str, b: Str)
    requires IsAnswer(hits, s, q, env) && HitIds(hits) == [a, b]
    ensures |hits| == 2 && a in s.docs && b in s.docs
    ensures hits[0] == MakeHit(s.docs[a].record, hits[0].scores) && hits[1] == MakeHit(s.docs[b].record, hits[1].scores)
  {
    assert |hits| == |HitIds(hits)|;
    HitIsRecord(hits, 0, s, q, env);
    HitIsRecord(hits, 1, s, q, env);
  }

  lemma DescribedHits(ws: Str, s: Snapshot, hits: seq<QueryHit>, q: QueryInput, env: Env)
    requires q == OneTokenQuery(ws, q.query) && env.embed(q.query) != []
    requires Describes(s, BothRecords(ws), ws, env.embed) && IsAnswer(hits, s, q, env)
    ensures |hits| == 2 && hits[0] == MakeHit(StaleRecord(ws), hits[0].scores) && hits[1] == MakeHit(FreshRecord(ws), hits[1].scores)
  {
    BothDescribed(ws, s, env.embed);
    PinnedRanksFirst(ws, s, q, env);
    TwoIds(hits, s, q, env, StaleRecord(ws).id, FreshRecord(ws).id);
    TwoHits(hits, s, q, env, StaleRecord(ws).id, FreshRecord(ws).id);
  }

  /** The stale record is the first hit, the fresh one the second. */
  lemma RankedHits(ws: Str, hits: seq<QueryHit>, q: QueryInput, env: Env)
    requires q == OneTokenQuery(ws, q.query) && env.embed(q.query) != [] && IsRetrieved(hits, BothRecords(ws), q, env)
    ensures |hits| == 2 && hits[0] == MakeHit(StaleRecord(ws), hits[0].scores) && hits[1] == MakeHit(FreshRecord(ws), hits[1].scores)
  {
    IdsDiffer(ws);
    var s :| Describes(s, BothRecords(ws), ws, env.embed) && IsAnswer(hits, s, q, env);
    DescribedHits(ws, s, hits, q, env);
  }

  lemma FirstHitEndsAnswer(ws: Str, hits: seq<QueryHit>)
    requires |hits| == 2 && hits[0] == MakeHit(StaleRecord(ws), hits[0].scores) && hits[1] == MakeHit(FreshRecord(ws), hits[1].scores)
    ensures Emitted(hits, BothRecords(ws), ws, 2001, 1, 0) == [] && !StopsAtLive(hits, BothRecords(ws), ws, 2001, 1, 0)
    ensures WithinBudget(Live(hits, BothRecords(ws), ws, 2001), 1, 0) == [hits[1]]
  {
    var records := BothRecords(ws);
    IdsDiffer(ws);
    assert hits[1..] == [hits[1]] && hits[1..][1..] == [];
    assert Live(hits[1..], records, ws, 2001) == [hits[1]];
    assert Live(hits, records, ws, 2001) == [] + [hits[1]] == [hits[1]];
    EmittedIsDocumented(hits, records, ws, 2001, 1, 0);
  }

  /** Two records are indexed and queried for: whatever the text, the logarithm and the embedding, every
      answer of the engine is empty, while the documented order returns the fresh record. */
  method ExpiredHidesLive(ws: Str, text: Str, embed: Str -> Vector, log: real -> real, retrievedMs: nat) returns (hits: seq<QueryHit>)
    requires ws != [] && embed(text) != []
    ensures IsRetrieved(hits, BothRecords(ws), OneTokenQuery(ws, text), Env(embed, log, retrievedMs))
    ensures |hits| == 2 && WithinBudget(Live(hits, BothRecords(ws), ws, 2001), 1, 0) == [hits[1]] && hits[1].memoryId == FreshRecord(ws).id
    ensures forall out, m: Memory ::
              (m.records == BothRecords(ws) == m.indexed && IsQueryOutput(out, m, OneTokenQuery(ws, text), Env(embed, log, retrievedMs), 2001))
              ==> out == []
  {
    var retriever := new HybridRetriever(embed, log);
    retriever.Index(StaleRecord(ws));
    retriever.Index(FreshRecord(ws));
    IdsDiffer(ws);
    assert retriever.indexed == BothRecords(ws);
    ghost var q, env := OneTokenQuery(ws, text), Env(embed, log, retrievedMs);
    hits := retriever.Query(OneTokenQuery(ws, text), retrievedMs);
    RankedHits(ws, hits, q, env);
    FirstHitEndsAnswer(ws, hits);
    forall out, m: Memory | m.records == BothRecords(ws) == m.indexed && IsQueryOutput(out, m, q, env, 2001) ensures out == [] {
      EveryAnswerIsEmpty(ws, out, m, q, env);
    }
  }

  lemma EveryAnswerIsEmpty(ws: Str, out: seq<QueryHit>, m: Memory, q: QueryInput, env: Env)
    requires ws != [] && q == OneTokenQuery(ws, q.query) && env.embed(q.query) != []
    requires m.records == BothRecords(ws) == m.indexed && IsQueryOutput(out, m, q, env, 2001)
    ensures out == []
  {
    var hits :| IsRetrieved(hits, m.indexed, q, env) && out == Emitted(hits, m.records, ws, 2001, 1, 0);
    RankedHits(ws, hits, q, env);
    FirstHitEndsAnswer(ws, hits);
  }

  lemma {:induction false} NoBudgetEmitsLive(hits: seq<QueryHit>, records: map<RecKey, Record>, ws: Str, nowMs: nat, budget: int, used: nat)
    requires budget <= 0
    ensures Emitted(hits, records, ws, nowMs, budget, used) == Live(hits, records, ws, nowMs)
  {
    if hits != [] {
      NoBudgetEmitsLive(hits[1..], records, ws, nowMs, budget, used);
      NoBudgetEmitsLive(hits[1..], records, ws, nowMs, budget, used + EstimateTokenCount(hits[0].content));
    }
  }

  lemma {:induction false} LiveAre(hits: seq<QueryHit>, records: map<RecKey, Record>, ws: Str, nowMs: nat)
    ensures forall h :: h in Live(hits, records, ws, nowMs) <==> h in hits && !Expired(records, ws, h, nowMs)
    ensures NoDuplicates(HitIds(hits)) ==> NoDuplicates(HitIds(Live(hits, records, ws, nowMs)))
  {
    if hits != [] {
      var rest := Live(hits[1..], records, ws, nowMs);
      LiveAre(hits[1..], records, ws, nowMs);
      assert hits == [hits[0]] + hits[1..];
      if NoDuplicates(HitIds(hits)) {
        DistinctTail(hits);
        if !Expired(records, ws, hits[0], nowMs) { DistinctCons(hits[0], rest, hits); }
      }
    }
  }

  lemma DistinctTail(hits: seq<QueryHit>)
    requires hits != [] && NoDuplicates(HitIds(hits))
    ensures NoDuplicates(HitIds(hits[1..]))
  {
    assert HitIds(hits[1..]) == HitIds(hits)[1..];
  }

  lemma DistinctCons(h: QueryHit, rest: seq<QueryHit>, hits: seq<QueryHit>)
    requires hits != [] && hits[0] == h && NoDuplicates(HitIds(hits))
    requires NoDuplicates(HitIds(rest)) && forall x :: x in rest ==> x in hits[1..]
    ensures NoDuplicates(HitIds([h] + rest))
  {
    assert HitIds([h] + rest) == [h.memoryId] + HitIds(rest);
    forall j | 0 <= j < |rest| ensures HitIds(rest)[j] != h.memoryId {
      assert rest[j] in hits[1..];
      var i :| 0 <= i < |hits| - 1 && hits[1..][i] == rest[j];
      assert HitIds(hits)[0] != HitIds(hits)[i + 1];
    }
  }

  /** The ids a complete answer has: resident, active, unexpired records of the workspace that pass
      the filter; if the query has no embedding, of those only the ones that share a token with it. */
  function Answerable(records: map<RecKey, Record>, q: QueryInput, embedded: Vector, nowMs: nat): (ids: set<Str>) {
    set k | k in records && k.0 == q.workspaceId && IsAnswerable(records[k], q, embedded, nowMs) :: k.1
  }

  predicate IsAnswerable(r: Record, q: QueryInput, embedded: Vector, nowMs: nat) {
    PassesFilter(r, q.filters) && CanFind(r, q, embedded) && !IsExpired(r, nowMs)
  }

  /** What a Query of the engine returns. */
  ghost predicate IsQueryOutput(out: seq<QueryHit>, m: Memory, q: QueryInput, env: Env, nowMs: nat) {
    if q.workspaceId == [] then out == []
    else exists hits :: IsRetrieved(hits, m.indexed, q, env) && out == Emitted(hits, m.records, q.workspaceId, nowMs, q.tokenBudget, 0)
  }

  lemma SameToFilter(a: Record, b: Record, f: QueryFilter, nowMs: nat)
    requires SameButAccess(a, b)
    ensures PassesFilter(a, f) <==> PassesFilter(b, f)
    ensures IsExpired(a, nowMs) <==> IsExpired(b, nowMs)
    ensures forall s :: MakeHit(a, s) == MakeHit(b, s)
  {
  }

  lemma FindableAreRecords(m: Memory, q: QueryInput, embedded: Vector, id: Str)
    requires IndexMatches(m.indexed, m.records)
    ensures id in FindableRecords(m.indexed, q, embedded) <==>
              (q.workspaceId, id) in m.records && PassesFilter(m.records[(q.workspaceId, id)], q.filters)
              && CanFind(m.records[(q.workspaceId, id)], q, embedded)
  {
    var k := (q.workspaceId, id);
    if k in m.indexed { SameToFilter(m.indexed[k], m.records[k], q.filters, 0); }
  }

  /** With no budget and room for every document of the workspace, a query returns each resident,
      active, unexpired record that passes the filter exactly once, and nothing else, whatever its text;
      a query without an embedding returns those of them that share a token with it. */
  lemma QueryIsComplete(out: seq<QueryHit>, m: Memory, q: QueryInput, env: Env, nowMs: nat)
    requires q.workspaceId != [] && IsQueryOutput(out, m, q, env, nowMs) && IndexMatches(m.indexed, m.records)
    requires q.tokenBudget <= 0 && |DocIds(m.indexed, q.workspaceId)| <= EffectiveTopK(q)
    requires env.embed(q.query) == [] ==> LogPositiveAboveOne(env.log)
    ensures NoDuplicates(HitIds(out)) && Elements(HitIds(out)) == Answerable(m.records, q, env.embed(q.query), nowMs)
    ensures forall h :: h in out ==>
              (q.workspaceId, h.memoryId) in m.records && h == MakeHit(m.records[(q.workspaceId, h.memoryId)], h.scores)
  {
    var hits :| IsRetrieved(hits, m.indexed, q, env) && out == Emitted(hits, m.records, q.workspaceId, nowMs, q.tokenBudget, 0);
    RetrievedAreMatching(hits, m.indexed, q, env);
    RetrievedIsComplete(hits, m.indexed, q, env);
    NoBudgetEmitsLive(hits, m.records, q.workspaceId, nowMs, q.tokenBudget, 0);
    LiveAre(hits, m.records, q.workspaceId, nowMs);
    HitsShowRecords(out, hits, m, q);
    LiveIdsAnswer(out, hits, m, q, env.embed(q.query), nowMs);
  }

  lemma HitsShowRecords(out: seq<QueryHit>, hits: seq<QueryHit>, m: Memory, q: QueryInput)
    requires IndexMatches(m.indexed, m.records) && forall h :: h in out ==> h in hits
    requires forall i :: 0 <= i < |hits| ==>
               var id := hits[i].memoryId;
               id in Matching(m.indexed, q) && hits[i] == MakeHit(m.indexed[(q.workspaceId, id)], hits[i].scores)
    ensures forall h :: h in out ==>
              (q.workspaceId, h.memoryId) in m.records && h == MakeHit(m.records[(q.workspaceId, h.memoryId)], h.scores)
  {
    forall h | h in out
      ensures (q.workspaceId, h.memoryId) in m.records && h == MakeHit(m.records[(q.workspaceId, h.memoryId)], h.scores)
    {
      var i :| 0 <= i < |hits| && hits[i] == h;
      var k := (q.workspaceId, h.memoryId);
      assert h.memoryId in Matching(m.indexed, q);
      SameToFilter(m.indexed[k], m.records[k], q.filters, 0);
    }
  }

  lemma LiveIdsAnswer(out: seq<QueryHit>, hits: seq<QueryHit>, m: Memory, q: QueryInput, embedded: Vector, nowMs: nat)
    requires IndexMatches(m.indexed, m.records)
    requires forall h :: h in out <==> h in hits && !Expired(m.records, q.workspaceId, h, nowMs)
    requires Elements(HitIds(hits)) == FindableRecords(m.indexed, q, embedded)
    ensures Elements(HitIds(out)) == Answerable(m.records, q, embedded, nowMs)
  {
    forall id ensures id in Elements(HitIds(out)) <==> id in Answerable(m.records, q, embedded, nowMs) {
      HasHit(out, id);
      HasHit(hits, id);
      FindableAreRecords(m, q, embedded, id);
      assert (q.workspaceId, id).1 == id;
    }
  }

  lemma HasHit(hits: seq<QueryHit>, id: Str)
    ensures id in Elements(HitIds(hits)) <==> exists h :: h in hits && h.memoryId == id
  {
    if id in Elements(HitIds(hits)) {
      var i :| 0 <= i < |hits| && HitIds(hits)[i] == id;
      assert hits[i] in hits;
    }
    if h :| h in hits && h.memoryId == id {
      var i :| 0 <= i < |hits| && hits[i] == h;
      assert HitIds(hits)[i] == id;
    }
  }
}
