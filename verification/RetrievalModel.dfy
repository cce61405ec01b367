/** Filtering, lexical statistics and score fusion (src/core/retriever.cpp:15-58, 145-298, 341-409)
    over the reals. `log` stands for the natural logarithm and `embed` for the embedding; nothing
    is assumed of them but what a lemma requires. */
module RetrievalModel {
  import opened Bytes
  import opened Collections
  import opened Ranking
  import opened Records
  import opened Tokenizer
  import opened VectorIndex

  // ---- Queries ----

  datatype QueryFilter = QueryFilter(sessionId: Str, sources: seq<Str>, tagsAny: seq<Str>,
                                     updatedAfterMs: nat, updatedBeforeMs: nat, pinnedOnly: bool)

  datatype RecallOptions = RecallOptions(sparseK: nat, denseK: nat, oversample: nat)

  datatype RerankWeights = RerankWeights(wSparse: real, wDense: real, wFreshness: real, wPin: real)

  datatype QueryInput = QueryInput(workspaceId: Str, query: Str, topK: nat, tokenBudget: int,
                                   filters: QueryFilter, recall: RecallOptions, rerank: RerankWeights)

  datatype ScoreBreakdown = ScoreBreakdown(sparse: real, dense: real, freshness: real, pin: real, final: real)

  datatype QueryHit = QueryHit(memoryId: Str, source: Str, content: Str, tags: seq<Str>, metadata: seq<(Str, Str)>,
                               scores: ScoreBreakdown, updatedAtMs: nat, pinned: bool)

  predicate ContainsAny(haystack: seq<Str>, needle: seq<Str>) {
    exists i :: 0 <= i < |needle| && needle[i] in haystack
  }

  predicate PassesFilter(r: Record, f: QueryFilter) {
    && (f.sessionId == [] || r.sessionId == f.sessionId)
    && (f.sources == [] || r.source in f.sources)
    && (f.tagsAny == [] || ContainsAny(r.tags, f.tagsAny))
    && (f.updatedAfterMs == 0 || r.updatedAtMs >= f.updatedAfterMs)
    && (f.updatedBeforeMs == 0 || r.updatedAtMs <= f.updatedBeforeMs)
    && (!f.pinnedOnly || r.pinned)
    && !r.tombstone
  }

  function EffectiveTopK(q: QueryInput): (k: nat)
    ensures k >= 1
  {
    if q.topK == 0 then 8 else q.topK
  }

  function CandidateLimit(k: nat, q: QueryInput): (n: nat)
    ensures n >= EffectiveTopK(q)
  {
    Max(k, EffectiveTopK(q) * Max(1, q.recall.oversample))
  }

  // ---- Documents and their statistics ----

  datatype IndexedDoc = IndexedDoc(record: Record, tf: map<Str, nat>, docLen: nat, embedding: Vector)

  datatype Snapshot = Snapshot(docs: map<Str, IndexedDoc>, df: map<Str, nat>, totalDocLen: nat)

  function MakeDoc(r: Record, embed: Str -> Vector): (d: IndexedDoc) {
    IndexedDoc(r, Frequencies(TokensOf(r.content)), |TokensOf(r.content)|, embed(r.content))
  }

  /** The documents that contain a term. */
  function Containing(docs: map<Str, IndexedDoc>, t: Str): (ids: set<Str>) {
    set id | id in docs && t in docs[id].tf && docs[id].tf[t] > 0
  }

  ghost predicate IsDocumentFrequency(df: map<Str, nat>, docs: map<Str, IndexedDoc>) {
    forall t :: (t in df <==> Containing(docs, t) != {}) && (t in df ==> df[t] == |Containing(docs, t)|)
  }

  function DocLens(docs: map<Str, IndexedDoc>): (m: map<Str, nat>) {
    map id | id in docs :: docs[id].docLen
  }

  /** A snapshot whose documents are what indexing makes of their records, with exact statistics. */
  ghost predicate Exact(s: Snapshot, ws: Str, embed: Str -> Vector) {
    && s.docs != map[]
    && (forall id :: id in s.docs ==>
          var r := s.docs[id].record; KeyOf(r) == (ws, id) && !r.tombstone && s.docs[id] == MakeDoc(r, embed))
    && IsDocumentFrequency(s.df, s.docs)
    && s.totalDocLen == Total(DocLens(s.docs))
  }

  function DfOf(df: map<Str, nat>, t: Str): (n: nat) {
    if t in df then df[t] else 0
  }

  /** No term occurs in more documents than there are. */
  lemma DocumentFrequencyBounded(s: Snapshot, ws: Str, embed: Str -> Vector, t: Str)
    requires Exact(s, ws, embed)
    ensures DfOf(s.df, t) <= |s.docs|
    ensures DfOf(s.df, t) == |Containing(s.docs, t)|
  {
    assert Containing(s.docs, t) <= s.docs.Keys;
    SubsetSize(Containing(s.docs, t), s.docs.Keys);
  }

  // ---- Lexical score ----

  function Idf(n: nat, df: nat, log: real -> real): (w: real) {
    log((n as real - df as real + 0.5) / (df as real + 0.5) + 1.0)
  }

  function Saturation(tf: nat, docLen: nat, avgdl: real): (d: real)
    requires avgdl > 0.0
  {
    tf as real + 1.5 * (0.25 + 0.75 * (docLen as real / avgdl))
  }

  function TermScore(tf: nat, docLen: nat, n: nat, avgdl: real, df: nat, log: real -> real): (s: real)
    requires avgdl > 0.0
  {
    if Saturation(tf, docLen, avgdl) == 0.0 then 0.0
    else Idf(n, df, log) * (tf as real * 2.5 / Saturation(tf, docLen, avgdl))
  }

  function Positive(avgdl: real): (a: real)
    ensures a > 0.0
  {
    if avgdl > 0.0 then avgdl else 1.0
  }

  /** The contribution of each query term the document has. */
  function TermScores(doc: IndexedDoc, terms: set<Str>, n: nat, avgdl: real, df: map<Str, nat>, log: real -> real)
    : (m: map<Str, real>)
  {
    map t | t in terms && t in doc.tf :: TermScore(doc.tf[t], doc.docLen, n, Positive(avgdl), DfOf(df, t), log)
  }

  ghost function LexicalScore(doc: IndexedDoc, terms: set<Str>, n: nat, avgdl: real, df: map<Str, nat>, log: real -> real): real {
    if doc.docLen == 0 || terms == {} || n == 0 then 0.0
    else TotalReal(TermScores(doc, terms, n, avgdl, df, log))
  }

  ghost predicate LogPositiveAboveOne(log: real -> real) {
    forall x :: x > 1.0 ==> log(x) > 0.0
  }

  lemma QuotientPositive(a: real, b: real)
    requires a > 0.0 && b > 0.0
    ensures a / b > 0.0
  {
  }

  lemma ProductPositive(a: real, b: real)
    requires a > 0.0 && b > 0.0
    ensures a * b > 0.0
  {
  }

  lemma IdfPositive(n: nat, df: nat, log: real -> real)
    requires LogPositiveAboveOne(log) && df <= n
    ensures Idf(n, df, log) > 0.0
  {
    QuotientPositive(n as real - df as real + 0.5, df as real + 0.5);
  }

  lemma TermScorePositive(tf: nat, docLen: nat, n: nat, avgdl: real, df: nat, log: real -> real)
    requires LogPositiveAboveOne(log) && df <= n && tf > 0 && avgdl > 0.0
    ensures TermScore(tf, docLen, n, avgdl, df, log) > 0.0
  {
    IdfPositive(n, df, log);
    if docLen > 0 { QuotientPositive(docLen as real, avgdl); }
    var d := Saturation(tf, docLen, avgdl);
    assert d > 0.0;
    QuotientPositive(tf as real * 2.5, d);
    ProductPositive(Idf(n, df, log), tf as real * 2.5 / d);
  }

  /** On exact statistics, a document scores above zero for a query exactly when the two share a
      token, and never below. */
  lemma LexicalScoreSharesToken(s: Snapshot, ws: Str, embed: Str -> Vector, id: Str, terms: set<Str>, avgdl: real, log: real -> real)
    requires Exact(s, ws, embed) && id in s.docs && LogPositiveAboveOne(log)
    ensures var score := LexicalScore(s.docs[id], terms, |s.docs|, avgdl, s.df, log);
      && score >= 0.0
      && (score > 0.0 <==> exists t :: t in terms && t in TokensOf(s.docs[id].record.content))
  {
    var doc := s.docs[id];
    var m := TermScores(doc, terms, |s.docs|, avgdl, s.df, log);
    FrequenciesExact(TokensOf(doc.record.content));
    forall t | t in m ensures m[t] > 0.0 {
      DocumentFrequencyBounded(s, ws, embed, t);
      TermScorePositive(doc.tf[t], doc.docLen, |s.docs|, Positive(avgdl), DfOf(s.df, t), log);
    }
    TotalRealPositive(m);
    if t :| t in terms && t in TokensOf(doc.record.content) {
      assert t in m;
    } else {
      assert m == map[];
    }
  }

  // ---- Fusion ----

  function Normalize(value: real, maxValue: real): (r: real) {
    if value <= 0.0 || maxValue <= 0.0 then 0.0 else value / maxValue
  }

  function FreshnessScore(updatedAtMs: nat, nowMs: nat): (r: real) {
    1.0 / (1.0 + (if nowMs > updatedAtMs then nowMs - updatedAtMs else 0) as real / 3600000.0)
  }

  /** The largest value, or zero if none is above it. */
  ghost predicate IsPeak(p: real, m: map<Str, real>) {
    && p >= 0.0
    && (forall k :: k in m ==> m[k] <= p)
    && (p == 0.0 || exists k :: k in m && m[k] == p)
  }

  ghost function Peak(m: map<Str, real>): (p: real)
    ensures IsPeak(p, m)
    decreases |m|
  {
    if m == map[] then 0.0
    else
      var k :| k in m;
      var rest := Peak(m - {k});
      assert forall x :: x in m ==> x == k || (x in m - {k} && (m - {k})[x] == m[x]);
      if m[k] > rest then m[k] else rest
  }

  lemma PeakUnique(p: real, m: map<Str, real>)
    requires IsPeak(p, m)
    ensures p == Peak(m)
  {
  }

  function Fuse(doc: Record, sparse: real, dense: real, sparseMax: real, denseMax: real, w: RerankWeights, nowMs: nat)
    : (s: ScoreBreakdown)
  {
    var sp, de := Normalize(sparse, sparseMax), Normalize(dense, denseMax);
    var fr, pin := FreshnessScore(doc.updatedAtMs, nowMs), if doc.pinned then 1.0 else 0.0;
    ScoreBreakdown(sp, de, fr, pin, w.wSparse * sp + w.wDense * de + w.wFreshness * fr + w.wPin * pin)
  }

  // ---- What one query is about ----

  datatype Env = Env(embed: Str -> Vector, log: real -> real, nowMs: nat)

  function QueryTerms(q: QueryInput): (ts: set<Str>) {
    Elements(TokensOf(q.query))
  }

  function Passing(docs: map<Str, IndexedDoc>, f: QueryFilter): (ids: set<Str>) {
    set id | id in docs && PassesFilter(docs[id].record, f)
  }

  function AverageLength(s: Snapshot): (a: real) {
    if |s.docs| > 0 then s.totalDocLen as real / |s.docs| as real else 1.0
  }

  ghost function Lexical(s: Snapshot, q: QueryInput, env: Env, id: Str): real
    requires id in s.docs
  {
    LexicalScore(s.docs[id], QueryTerms(q), |s.docs|, AverageLength(s), s.df, env.log)
  }

  ghost function SparseScores(s: Snapshot, q: QueryInput, env: Env): Scores {
    map id | id in Passing(s.docs, q.filters) && Lexical(s, q, env, id) > 0.0 :: Lexical(s, q, env, id)
  }

  function EntryFor(d: IndexedDoc): (e: Entry) {
    Entry(d.embedding, BucketOf(d.embedding))
  }

  function DenseScore(s: Snapshot, q: QueryInput, env: Env, id: Str): (r: real)
    requires id in s.docs
  {
    Similarity(env.embed(q.query), EntryFor(s.docs[id]))
  }

  function DenseScores(s: Snapshot, q: QueryInput, env: Env): (m: Scores) {
    map id | id in s.docs :: DenseScore(s, q, env, id)
  }

  /** Stage one: the best sparse candidates, and the best dense ones that pass the filter. */
  ghost function SparseTop(s: Snapshot, q: QueryInput, env: Env): set<Str> {
    Top(SparseScores(s, q, env), CandidateLimit(q.recall.sparseK, q))
  }

  ghost function DenseTop(s: Snapshot, q: QueryInput, env: Env): set<Str> {
    if env.embed(q.query) == [] then {}
    else Top(DenseScores(s, q, env), CandidateLimit(q.recall.denseK, q)) * Passing(s.docs, q.filters)
  }

  ghost function Merged(s: Snapshot, q: QueryInput, env: Env): set<Str> {
    SparseTop(s, q, env) + DenseTop(s, q, env)
  }

  /** A candidate's score from one stage, zero if the stage did not recall it. */
  ghost function Recalled(candidates: set<Str>, top: set<Str>, scores: Scores): (m: map<Str, real>)
    ensures m.Keys == candidates
  {
    map id | id in candidates :: if id in top && id in scores then scores[id] else 0.0
  }

  ghost function MergedSparse(s: Snapshot, q: QueryInput, env: Env): map<Str, real> {
    Recalled(Merged(s, q, env), SparseTop(s, q, env), SparseScores(s, q, env))
  }

  ghost function MergedDense(s: Snapshot, q: QueryInput, env: Env): map<Str, real> {
    Recalled(Merged(s, q, env), DenseTop(s, q, env), DenseScores(s, q, env))
  }

  /** The fused score of each candidate, its stage scores taken relative to the largest. */
  ghost function Fused(docs: map<Str, IndexedDoc>, sparse: map<Str, real>, dense: map<Str, real>, w: RerankWeights, nowMs: nat)
    : (m: map<Str, ScoreBreakdown>)
    ensures m.Keys == docs.Keys * sparse.Keys * dense.Keys
  {
    map id | id in docs && id in sparse && id in dense ::
      Fuse(docs[id].record, sparse[id], dense[id], Peak(sparse), Peak(dense), w, nowMs)
  }

  /** Stage two: the fused scores of the merged candidates. */
  ghost function Reranked(s: Snapshot, q: QueryInput, env: Env): map<Str, ScoreBreakdown> {
    Fused(s.docs, MergedSparse(s, q, env), MergedDense(s, q, env), q.rerank, env.nowMs)
  }

  ghost function RankOf(s: Snapshot, scores: map<Str, ScoreBreakdown>): map<Str, (real, nat)> {
    map id | id in scores && id in s.docs :: (scores[id].final, s.docs[id].record.updatedAtMs)
  }

  function MakeHit(r: Record, scores: ScoreBreakdown): (h: QueryHit) {
    QueryHit(r.id, r.source, r.content, r.tags, r.metadata, scores, r.updatedAtMs, r.pinned)
  }

  function HitIds(hits: seq<QueryHit>): (ids: seq<Str>)
    ensures |ids| == |hits|
    ensures forall i :: 0 <= i < |hits| ==> ids[i] == hits[i].memoryId
  {
    seq(|hits|, i requires 0 <= i < |hits| => hits[i].memoryId)
  }

  /** What a query answers: a best-first list of the top_k merged candidates, with their scores. */
  ghost predicate IsAnswer(hits: seq<QueryHit>, s: Snapshot, q: QueryInput, env: Env) {
    && IsBest(HitIds(hits), RankOf(s, Reranked(s, q, env)), EffectiveTopK(q))
    && forall i :: 0 <= i < |hits| ==>
         var id := hits[i].memoryId;
         id in s.docs && id in Reranked(s, q, env) && hits[i] == MakeHit(s.docs[id].record, Reranked(s, q, env)[id])
  }

  // ---- Brute force ----

  ghost function PassingLexical(s: Snapshot, q: QueryInput, env: Env): map<Str, real> {
    map id | id in Passing(s.docs, q.filters) :: Lexical(s, q, env, id)
  }

  ghost function PassingDense(s: Snapshot, q: QueryInput, env: Env): map<Str, real> {
    map id | id in Passing(s.docs, q.filters) :: DenseScore(s, q, env, id)
  }

  /** Every document that passes the filter, scored against all that do: no recall stage. */
  ghost function BruteForce(s: Snapshot, q: QueryInput, env: Env): map<Str, ScoreBreakdown> {
    Fused(s.docs, PassingLexical(s, q, env), PassingDense(s, q, env), q.rerank, env.nowMs)
  }

  /** `a` is `b` with its negative scores raised to zero. */
  ghost predicate IsPositivePart(a: map<Str, real>, b: map<Str, real>) {
    && a.Keys == b.Keys
    && forall k :: k in a ==> a[k] == if b[k] > 0.0 then b[k] else 0.0
  }

  lemma PositivePartPeak(a: map<Str, real>, b: map<Str, real>)
    requires IsPositivePart(a, b)
    ensures Peak(a) == Peak(b)
  {
    var p := Peak(b);
    if p != 0.0 {
      var k :| k in b && b[k] == p;
      assert a[k] == p;
    }
    PeakUnique(p, a);
  }

  /** A score at or below zero and a missing one fuse alike. */
  lemma FusionIgnoresNegatives(docs: map<Str, IndexedDoc>, a: map<Str, real>, b: map<Str, real>, dense: map<Str, real>,
                               w: RerankWeights, nowMs: nat)
    requires IsPositivePart(a, b)
    ensures Fused(docs, a, dense, w, nowMs) == Fused(docs, b, dense, w, nowMs)
  {
    PositivePartPeak(a, b);
    var p, d := Peak(a), Peak(dense);
    forall id | id in docs && id in a && id in dense
      ensures Fuse(docs[id].record, a[id], dense[id], p, d, w, nowMs) == Fuse(docs[id].record, b[id], dense[id], p, d, w, nowMs)
    {
      assert Normalize(a[id], p) == Normalize(b[id], p);
    }
  }

  /** When the workspace is no larger than both recall limits, the two-stage query scores exactly
      the documents that pass the filter, exactly as brute force does. */
  lemma TwoStageIsBruteForce(s: Snapshot, q: QueryInput, env: Env)
    requires |s.docs| <= CandidateLimit(q.recall.sparseK, q) && |s.docs| <= CandidateLimit(q.recall.denseK, q)
    requires env.embed(q.query) != []
    ensures Reranked(s, q, env) == BruteForce(s, q, env)
  {
    RecallIsComplete(s, q, env);
    ScoresOfPassing(s, q, env);
    WholeRecallFusesAlike(s.docs, SparseScores(s, q, env), DenseScores(s, q, env),
                          PassingLexical(s, q, env), PassingDense(s, q, env), q.rerank, env.nowMs);
  }

  /** So the hits are, best first and up to ties, the top_k of scoring every document that passes the filter. */
  lemma AnswerIsBruteForceBest(hits: seq<QueryHit>, s: Snapshot, q: QueryInput, env: Env)
    requires |s.docs| <= CandidateLimit(q.recall.sparseK, q) && |s.docs| <= CandidateLimit(q.recall.denseK, q)
    requires env.embed(q.query) != [] && IsAnswer(hits, s, q, env)
    ensures IsBest(HitIds(hits), RankOf(s, BruteForce(s, q, env)), EffectiveTopK(q))
    ensures forall i :: 0 <= i < |hits| ==> hits[i].memoryId in BruteForce(s, q, env) && hits[i].scores == BruteForce(s, q, env)[hits[i].memoryId]
  {
    TwoStageIsBruteForce(s, q, env);
  }

  /** `sparse` holds the positive scores of `all`. */
  ghost predicate KeepsPositive(sparse: Scores, all: map<Str, real>) {
    && sparse.Keys <= all.Keys
    && forall k :: k in all ==> (k in sparse <==> all[k] > 0.0) && (k in sparse ==> sparse[k] == all[k])
  }

  ghost predicate Agree(dense: Scores, part: map<Str, real>) {
    part.Keys <= dense.Keys && forall k :: k in part ==> dense[k] == part[k]
  }

  lemma ScoresOfPassing(s: Snapshot, q: QueryInput, env: Env)
    ensures KeepsPositive(SparseScores(s, q, env), PassingLexical(s, q, env))
    ensures Agree(DenseScores(s, q, env), PassingDense(s, q, env))
    ensures PassingLexical(s, q, env).Keys == PassingDense(s, q, env).Keys == Passing(s.docs, q.filters)
  {
  }

  lemma WholeRecallFusesAlike(docs: map<Str, IndexedDoc>, sparse: Scores, dense: Scores,
                              allSparse: map<Str, real>, allDense: map<Str, real>, w: RerankWeights, nowMs: nat)
    requires KeepsPositive(sparse, allSparse) && Agree(dense, allDense) && allDense.Keys == allSparse.Keys
    ensures Fused(docs, Recalled(allSparse.Keys, sparse.Keys, sparse), Recalled(allSparse.Keys, allSparse.Keys, dense), w, nowMs)
         == Fused(docs, allSparse, allDense, w, nowMs)
  {
    var candidates := allSparse.Keys;
    assert Recalled(candidates, candidates, dense) == allDense;
    FusionIgnoresNegatives(docs, Recalled(candidates, sparse.Keys, sparse), allSparse, allDense, w, nowMs);
  }

  lemma RecallIsComplete(s: Snapshot, q: QueryInput, env: Env)
    requires |s.docs| <= CandidateLimit(q.recall.sparseK, q) && |s.docs| <= CandidateLimit(q.recall.denseK, q)
    requires env.embed(q.query) != []
    ensures SparseTop(s, q, env) == SparseScores(s, q, env).Keys
    ensures DenseTop(s, q, env) == Passing(s.docs, q.filters)
    ensures Merged(s, q, env) == Passing(s.docs, q.filters)
  {
    FewAreAllRecalled(SparseScores(s, q, env), s.docs.Keys, CandidateLimit(q.recall.sparseK, q));
    FewAreAllRecalled(DenseScores(s, q, env), s.docs.Keys, CandidateLimit(q.recall.denseK, q));
    assert DenseTop(s, q, env) == Passing(s.docs, q.filters);
    assert SparseTop(s, q, env) <= Passing(s.docs, q.filters);
  }

  lemma FewAreAllRecalled(scores: Scores, ids: set<Str>, limit: nat)
    requires scores.Keys <= ids && |ids| <= limit
    ensures Top(scores, limit) == scores.Keys
  {
    SubsetSize(scores.Keys, ids);
    TopOfFew(scores, limit);
  }

  predicate SharesToken(r: Record, q: QueryInput) {
    exists t :: t in TokensOf(q.query) && t in TokensOf(r.content)
  }

  /** What a query can find: with an embedding everything, without one what shares a token with it. */
  predicate CanFind(r: Record, q: QueryInput, embedded: Vector) {
    embedded != [] || SharesToken(r, q)
  }

  /** The documents that pass the filter and can be found. */
  function Findable(docs: map<Str, IndexedDoc>, q: QueryInput, embedded: Vector): (ids: set<Str>) {
    set id | id in Passing(docs, q.filters) && CanFind(docs[id].record, q, embedded)
  }

  /** Hence, with room for every document, a query returns each one that passes the filter exactly
      once, whatever the query text; without an embedding, each of those that share a token with it. */
  lemma AnswerIsComplete(hits: seq<QueryHit>, s: Snapshot, q: QueryInput, env: Env, ws: Str)
    requires IsAnswer(hits, s, q, env) && |s.docs| <= EffectiveTopK(q)
    requires env.embed(q.query) == [] ==> Exact(s, ws, env.embed) && LogPositiveAboveOne(env.log)
    ensures NoDuplicates(HitIds(hits)) && Elements(HitIds(hits)) == Findable(s.docs, q, env.embed(q.query))
  {
    var rank := RankOf(s, Reranked(s, q, env));
    if env.embed(q.query) == [] { SparseOnlyIsComplete(s, q, env, ws); } else { EmbeddedIsComplete(s, q, env); }
    RankedHaveDocs(s, Reranked(s, q, env), EffectiveTopK(q));
    BestOfFew(HitIds(hits), rank, EffectiveTopK(q));
  }

  lemma RankedHaveDocs(s: Snapshot, scores: map<Str, ScoreBreakdown>, k: nat)
    requires |s.docs| <= k
    ensures |RankOf(s, scores)| <= k
  {
    SubsetSize(RankOf(s, scores).Keys, s.docs.Keys);
  }

  lemma EmbeddedIsComplete(s: Snapshot, q: QueryInput, env: Env)
    requires env.embed(q.query) != [] && |s.docs| <= EffectiveTopK(q)
    ensures RankOf(s, Reranked(s, q, env)).Keys == Findable(s.docs, q, env.embed(q.query))
  {
    TwoStageIsBruteForce(s, q, env);
    BruteForceRanksPassing(s, q, env);
    AllAreFindable(s.docs, q, env.embed(q.query));
  }

  lemma BruteForceRanksPassing(s: Snapshot, q: QueryInput, env: Env)
    ensures RankOf(s, BruteForce(s, q, env)).Keys == Passing(s.docs, q.filters)
  {
  }

  lemma AllAreFindable(docs: map<Str, IndexedDoc>, q: QueryInput, embedded: Vector)
    requires embedded != []
    ensures Findable(docs, q, embedded) == Passing(docs, q.filters)
  {
  }

  lemma SparseOnlyIsComplete(s: Snapshot, q: QueryInput, env: Env, ws: Str)
    requires env.embed(q.query) == [] && Exact(s, ws, env.embed) && LogPositiveAboveOne(env.log) && |s.docs| <= EffectiveTopK(q)
    ensures RankOf(s, Reranked(s, q, env)).Keys == Findable(s.docs, q, env.embed(q.query))
  {
    SparseRanksAre(s, q, env);
    ScoredShareToken(s, q, env, ws);
  }

  lemma SparseRanksAre(s: Snapshot, q: QueryInput, env: Env)
    requires env.embed(q.query) == [] && |s.docs| <= EffectiveTopK(q)
    ensures RankOf(s, Reranked(s, q, env)).Keys == SparseScores(s, q, env).Keys
  {
    FewAreAllRecalled(SparseScores(s, q, env), s.docs.Keys, CandidateLimit(q.recall.sparseK, q));
    assert Merged(s, q, env) == SparseScores(s, q, env).Keys;
  }

  lemma ScoredShareToken(s: Snapshot, q: QueryInput, env: Env, ws: Str)
    requires Exact(s, ws, env.embed) && LogPositiveAboveOne(env.log)
    ensures SparseScores(s, q, env).Keys == Findable(s.docs, q, [])
  {
    forall id | id in Passing(s.docs, q.filters) ensures Lexical(s, q, env, id) > 0.0 <==> SharesToken(s.docs[id].record, q) {
      LexicalScoreSharesToken(s, ws, env.embed, id, QueryTerms(q), AverageLength(s), env.log);
    }
  }

  /** Without an embedding only documents that share a token with the query can be found. */
  lemma NoEmbeddingNeedsSharedToken(hits: seq<QueryHit>, i: nat, s: Snapshot, q: QueryInput, env: Env, ws: Str)
    requires IsAnswer(hits, s, q, env) && i < |hits| && env.embed(q.query) == []
    requires Exact(s, ws, env.embed) && LogPositiveAboveOne(env.log)
    ensures exists t :: t in TokensOf(q.query) && t in TokensOf(hits[i].content)
  {
    HitSharesToken(s, q, env, ws, hits[i].memoryId);
  }

  lemma HitSharesToken(s: Snapshot, q: QueryInput, env: Env, ws: Str, id: Str)
    requires id in s.docs && id in Reranked(s, q, env) && env.embed(q.query) == []
    requires Exact(s, ws, env.embed) && LogPositiveAboveOne(env.log)
    ensures exists t :: t in TokensOf(q.query) && t in TokensOf(s.docs[id].record.content)
  {
    SparseOnly(s, q, env, id);
    LexicalScoreSharesToken(s, ws, env.embed, id, QueryTerms(q), AverageLength(s), env.log);
  }

  lemma SparseOnly(s: Snapshot, q: QueryInput, env: Env, id: Str)
    requires env.embed(q.query) == [] && id in Reranked(s, q, env)
    ensures id in SparseScores(s, q, env)
  {
    assert id in Merged(s, q, env);
  }
}
