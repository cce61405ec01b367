/** The hybrid retriever (src/core/retriever.cpp): copy-on-write workspace snapshots kept beside a
    vector index, and the two-stage query over them. */
module Retriever {
  import opened Bytes
  import opened Collections
  import opened Ranking
  import opened Records
  import opened RetrievalModel
  import opened Tokenizer
  import opened VectorIndex

  // ---- What the snapshots and vectors stand for ----

  function DocIds(indexed: map<RecKey, Record>, ws: Str): (ids: set<Str>)
    ensures forall id :: id in ids <==> (ws, id) in indexed
  {
    var ids := set k | k in indexed && k.0 == ws :: k.1;
    assert forall id :: (ws, id) in indexed ==> (ws, id).1 in ids;
    ids
  }

  function DocsOf(indexed: map<RecKey, Record>, ws: Str, embed: Str -> Vector): (docs: map<Str, IndexedDoc>) {
    map id | id in DocIds(indexed, ws) :: MakeDoc(indexed[(ws, id)], embed)
  }

  ghost predicate WellIndexed(indexed: map<RecKey, Record>) {
    forall k :: k in indexed ==> KeyOf(indexed[k]) == k && !indexed[k].tombstone
  }

  ghost predicate Describes(s: Snapshot, indexed: map<RecKey, Record>, ws: Str, embed: Str -> Vector) {
    s.docs == DocsOf(indexed, ws, embed) && Exact(s, ws, embed)
  }

  /** A workspace has a snapshot exactly when it has documents, and the snapshot describes them. */
  ghost predicate InStep(snapshots: map<Str, Snapshot>, indexed: map<RecKey, Record>, embed: Str -> Vector, ws: Str) {
    if ws in snapshots then Describes(snapshots[ws], indexed, ws, embed) else DocsOf(indexed, ws, embed) == map[]
  }

  ghost predicate SnapshotsDescribe(snapshots: map<Str, Snapshot>, indexed: map<RecKey, Record>, embed: Str -> Vector) {
    forall ws :: InStep(snapshots, indexed, embed, ws)
  }

  function Entries(docs: map<Str, IndexedDoc>): (m: map<Str, Entry>) {
    map id | id in docs :: EntryFor(docs[id])
  }

  ghost predicate VectorsMatch(vectors: map<Str, map<Str, Entry>>, snapshots: map<Str, Snapshot>) {
    vectors.Keys == snapshots.Keys && forall ws :: ws in snapshots ==> vectors[ws] == Entries(snapshots[ws].docs)
  }

  /** What a query over the indexed records answers. */
  ghost predicate IsRetrieved(hits: seq<QueryHit>, indexed: map<RecKey, Record>, q: QueryInput, env: Env) {
    if DocIds(indexed, q.workspaceId) == {} then hits == []
    else exists s :: Describes(s, indexed, q.workspaceId, env.embed) && IsAnswer(hits, s, q, env)
  }

  lemma DocsAfterPut(indexed: map<RecKey, Record>, r: Record, ws: Str, embed: Str -> Vector)
    ensures DocsOf(indexed[KeyOf(r) := r], ws, embed)
         == if ws == r.workspaceId then DocsOf(indexed, ws, embed)[r.id := MakeDoc(r, embed)] else DocsOf(indexed, ws, embed)
  {
  }

  lemma DocsAfterRemove(indexed: map<RecKey, Record>, k: RecKey, ws: Str, embed: Str -> Vector)
    ensures DocsOf(indexed - {k}, ws, embed)
         == if ws == k.0 then DocsOf(indexed, ws, embed) - {k.1} else DocsOf(indexed, ws, embed)
  {
  }

  predicate SameAt(before: map<Str, Snapshot>, after: map<Str, Snapshot>, ws: Str) {
    (ws in before <==> ws in after) && (ws in before ==> before[ws] == after[ws])
  }

  /** A workspace left without documents loses its snapshot. */
  function AfterRemove(snapshots: map<Str, Snapshot>, ws: Str, s: Snapshot): (after: map<Str, Snapshot>) {
    if s.docs == map[] then snapshots - {ws} else snapshots[ws := s]
  }

  lemma InStepElsewhere(before: map<Str, Snapshot>, indexed: map<RecKey, Record>, after: map<Str, Snapshot>,
                        indexed': map<RecKey, Record>, embed: Str -> Vector, ws: Str)
    requires InStep(before, indexed, embed, ws) && DocsOf(indexed, ws, embed) == DocsOf(indexed', ws, embed)
    requires SameAt(before, after, ws)
    ensures InStep(after, indexed', embed, ws)
  {
  }

  lemma SnapshotsAfterPut(snapshots: map<Str, Snapshot>, indexed: map<RecKey, Record>, embed: Str -> Vector, r: Record, s: Snapshot)
    requires SnapshotsDescribe(snapshots, indexed, embed) && Describes(s, indexed[KeyOf(r) := r], r.workspaceId, embed)
    ensures SnapshotsDescribe(snapshots[r.workspaceId := s], indexed[KeyOf(r) := r], embed)
  {
    var after, indexed' := snapshots[r.workspaceId := s], indexed[KeyOf(r) := r];
    forall ws ensures InStep(after, indexed', embed, ws) {
      if ws != r.workspaceId {
        DocsAfterPut(indexed, r, ws, embed);
        assert InStep(snapshots, indexed, embed, ws);
        InStepElsewhere(snapshots, indexed, after, indexed', embed, ws);
      }
    }
  }

  lemma SnapshotsAfterRemove(snapshots: map<Str, Snapshot>, indexed: map<RecKey, Record>, embed: Str -> Vector, k: RecKey,
                             after: map<Str, Snapshot>)
    requires SnapshotsDescribe(snapshots, indexed, embed)
    requires forall ws: Str :: ws != k.0 ==> SameAt(snapshots, after, ws)
    requires InStep(after, indexed - {k}, embed, k.0)
    ensures SnapshotsDescribe(after, indexed - {k}, embed)
  {
    forall ws ensures InStep(after, indexed - {k}, embed, ws) {
      if ws != k.0 {
        DocsAfterRemove(indexed, k, ws, embed);
        assert InStep(snapshots, indexed, embed, ws);
        InStepElsewhere(snapshots, indexed, after, indexed - {k}, embed, ws);
      }
    }
  }

  lemma VectorsAfterPut(vectors: map<Str, map<Str, Entry>>, snapshots: map<Str, Snapshot>, ws: Str, id: Str, doc: IndexedDoc,
                        s: Snapshot)
    requires VectorsMatch(vectors, snapshots)
    requires s.docs == (if ws in snapshots then snapshots[ws].docs else map[])[id := doc]
    ensures VectorsMatch(vectors[ws := Docs(vectors, ws)[id := EntryFor(doc)]], snapshots[ws := s])
  {
    assert Docs(vectors, ws)[id := EntryFor(doc)] == Entries(s.docs);
  }

  lemma VectorsAfterRemove(vectors: map<Str, map<Str, Entry>>, snapshots: map<Str, Snapshot>, ws: Str, id: Str, s: Snapshot)
    requires VectorsMatch(vectors, snapshots) && ws in snapshots && s.docs == snapshots[ws].docs - {id}
    ensures VectorsMatch(Without(vectors, ws, id), AfterRemove(snapshots, ws, s))
  {
    assert vectors[ws] - {id} == Entries(s.docs);
    if s.docs != map[] {
      var x :| x in s.docs;
      assert x in Entries(s.docs);
    } else {
      assert Entries(s.docs) == map[];
    }
  }

  lemma VectorsUnchanged(vectors: map<Str, map<Str, Entry>>, snapshots: map<Str, Snapshot>, ws: Str, id: Str)
    requires VectorsMatch(vectors, snapshots)
    requires ws in snapshots ==> id !in snapshots[ws].docs && snapshots[ws].docs != map[]
    ensures Without(vectors, ws, id) == vectors
  {
    if ws in snapshots {
      var x :| x in snapshots[ws].docs;
      assert x in Entries(snapshots[ws].docs);
      assert vectors[ws] - {id} == vectors[ws];
    }
  }

  // ---- Statistics ----

  method CountTerms(tokens: seq<Str>) returns (tf: map<Str, nat>)
    ensures tf == Frequencies(tokens)
  {
    tf := map[];
    for i := 0 to |tokens|
      invariant tf == Frequencies(tokens[..i])
    {
      assert tokens[..i + 1][..i] == tokens[..i];
      tf := tf[tokens[i] := (if tokens[i] in tf then tf[tokens[i]] else 0) + 1];
    }
    assert tokens[..|tokens|] == tokens;
  }

  /** df counts the documents among `ids` that contain t. */
  ghost predicate CountsAt(df: map<Str, nat>, docs: map<Str, IndexedDoc>, ids: set<Str>, t: Str) {
    var found := Containing(docs, t) * ids;
    (t in df <==> found != {}) && (t in df ==> df[t] == |found|)
  }

  function Counted(done: set<Str>, id: Str, seen: set<Str>, t: Str): (ids: set<Str>) {
    if t in seen then done + {id} else done
  }

  /** df counts the documents of `done`, and document id too for the terms of `seen`. */
  ghost predicate CountedSoFar(df: map<Str, nat>, docs: map<Str, IndexedDoc>, done: set<Str>, id: Str, seen: set<Str>) {
    forall t :: CountsAt(df, docs, Counted(done, id, seen, t), t)
  }

  lemma CountNext(df: map<Str, nat>, docs: map<Str, IndexedDoc>, done: set<Str>, id: Str, seen: set<Str>, t: Str)
    requires CountedSoFar(df, docs, done, id, seen) && id in docs && id !in done && t !in seen && t in docs[id].tf
    ensures CountedSoFar(if docs[id].tf[t] > 0 then df[t := DfOf(df, t) + 1] else df, docs, done, id, seen + {t})
  {
    var next := if docs[id].tf[t] > 0 then df[t := DfOf(df, t) + 1] else df;
    forall x ensures CountsAt(next, docs, Counted(done, id, seen + {t}, x), x) {
      assert CountsAt(df, docs, Counted(done, id, seen, x), x);
      if x == t { CountTerm(df, docs, done, id, t); }
    }
  }

  lemma CountTerm(df: map<Str, nat>, docs: map<Str, IndexedDoc>, done: set<Str>, id: Str, t: Str)
    requires CountsAt(df, docs, done, t) && id in docs && id !in done && t in docs[id].tf
    ensures CountsAt(if docs[id].tf[t] > 0 then df[t := DfOf(df, t) + 1] else df, docs, done + {id}, t)
  {
    var ids := Containing(docs, t);
    assert ids * (done + {id}) == ids * done + if docs[id].tf[t] > 0 then {id} else {};
  }

  lemma CountedDocument(df: map<Str, nat>, docs: map<Str, IndexedDoc>, done: set<Str>, id: Str, next: Str)
    requires id in docs && CountedSoFar(df, docs, done, id, docs[id].tf.Keys)
    ensures CountedSoFar(df, docs, done + {id}, next, {})
  {
    forall t ensures CountsAt(df, docs, Counted(done + {id}, next, {}, t), t) {
      assert CountsAt(df, docs, Counted(done, id, docs[id].tf.Keys, t), t);
      if t !in docs[id].tf {
        assert Containing(docs, t) * (done + {id}) == Containing(docs, t) * done;
      }
    }
  }

  method BuildDocumentFrequency(docs: map<Str, IndexedDoc>) returns (df: map<Str, nat>)
    ensures IsDocumentFrequency(df, docs)
  {
    df := map[];
    var ids := Enumerate(docs.Keys);
    AllElements(ids);
    for i := 0 to |ids|
      invariant CountedSoFar(df, docs, Elements(ids[..i]), [], {})
    {
      NextElement(ids, i);
      df := CountDocument(docs, ids[i], df, Elements(ids[..i]));
      CountedDocument(df, docs, Elements(ids[..i]), ids[i], []);
    }
    AllCounted(df, docs);
  }

  lemma AllCounted(df: map<Str, nat>, docs: map<Str, IndexedDoc>)
    requires CountedSoFar(df, docs, docs.Keys, [], {})
    ensures IsDocumentFrequency(df, docs)
  {
    forall t ensures (t in df <==> Containing(docs, t) != {}) && (t in df ==> df[t] == |Containing(docs, t)|) {
      assert CountsAt(df, docs, Counted(docs.Keys, [], {}, t), t);
      assert Containing(docs, t) * docs.Keys == Containing(docs, t);
    }
  }

  /** The inner loop: one document's terms. */
  method CountDocument(docs: map<Str, IndexedDoc>, id: Str, df0: map<Str, nat>, ghost done: set<Str>) returns (df: map<Str, nat>)
    requires id in docs && id !in done && CountedSoFar(df0, docs, done, [], {})
    ensures CountedSoFar(df, docs, done, id, docs[id].tf.Keys)
  {
    df := df0;
    var tf := docs[id].tf;
    var terms := Enumerate(tf.Keys);
    AllElements(terms);
    StartDocument(df, docs, done, id);
    for j := 0 to |terms|
      invariant CountedSoFar(df, docs, done, id, Elements(terms[..j]))
    {
      NextElement(terms, j);
      var t := terms[j];
      CountNext(df, docs, done, id, Elements(terms[..j]), t);
      if tf[t] > 0 {
        df := df[t := (if t in df then df[t] else 0) + 1];
      }
    }
  }

  lemma StartDocument(df: map<Str, nat>, docs: map<Str, IndexedDoc>, done: set<Str>, id: Str)
    requires CountedSoFar(df, docs, done, [], {})
    ensures CountedSoFar(df, docs, done, id, {})
  {
    forall t ensures CountsAt(df, docs, Counted(done, id, {}, t), t) {
      assert CountsAt(df, docs, Counted(done, [], {}, t), t);
    }
  }

  ghost function Part(m: map<Str, real>, seen: set<Str>): (p: map<Str, real>) {
    map x | x in m && x in seen :: m[x]
  }

  lemma PartGrows(m: map<Str, real>, seen: set<Str>, t: Str)
    requires t !in seen
    ensures TotalReal(Part(m, seen + {t})) == TotalReal(Part(m, seen)) + if t in m then m[t] else 0.0
  {
    if t in m {
      TotalRealRemove(Part(m, seen + {t}), t);
      assert Part(m, seen + {t}) - {t} == Part(m, seen);
    } else {
      assert Part(m, seen + {t}) == Part(m, seen);
    }
  }

  method ScoreLexically(doc: IndexedDoc, queryTf: map<Str, nat>, totalDocs: nat, avgDocLen: real, df: map<Str, nat>, log: real -> real)
    returns (score: real)
    ensures score == LexicalScore(doc, queryTf.Keys, totalDocs, avgDocLen, df, log)
  {
    if doc.docLen == 0 || queryTf == map[] || totalDocs == 0 {
      return 0.0;
    }
    var avgdl := Positive(avgDocLen);
    score := 0.0;
    var terms := Enumerate(queryTf.Keys);
    AllElements(terms);
    ghost var m := TermScores(doc, queryTf.Keys, totalDocs, avgDocLen, df, log);
    assert Part(m, {}) == map[] && Part(m, queryTf.Keys) == m;
    for i := 0 to |terms|
      invariant score == TotalReal(Part(m, Elements(terms[..i])))
    {
      NextElement(terms, i);
      var t := terms[i];
      PartGrows(m, Elements(terms[..i]), t);
      if t in doc.tf {
        var contribution := ScoreTerm(doc.tf[t], doc.docLen, totalDocs, avgdl, df, t, log);
        score := score + contribution;
      }
    }
  }

  method ScoreTerm(tf: nat, docLen: nat, totalDocs: nat, avgdl: real, df: map<Str, nat>, t: Str, log: real -> real) returns (score: real)
    requires avgdl > 0.0
    ensures score == TermScore(tf, docLen, totalDocs, avgdl, DfOf(df, t), log)
  {
    var docFreq := (if t in df then df[t] else 0) as real;
    var idf := log((totalDocs as real - docFreq + 0.5) / (docFreq + 0.5) + 1.0);
    var denom := tf as real + 1.5 * (0.25 + 0.75 * (docLen as real / avgdl));
    DenominatorPositive(tf, docLen, avgdl);
    score := idf * (tf as real * 2.5 / denom);
  }

  lemma DenominatorPositive(tf: nat, docLen: nat, avgdl: real)
    requires avgdl > 0.0
    ensures Saturation(tf, docLen, avgdl) > 0.0
  {
    if docLen > 0 { QuotientPositive(docLen as real, avgdl); }
  }

  // ---- The state of the retriever, as values ----

  /** Snapshots and vectors both hold exactly the indexed records. */
  ghost predicate Holds(snapshots: map<Str, Snapshot>, vectors: map<Str, map<Str, Entry>>, indexed: map<RecKey, Record>,
                        embed: Str -> Vector)
  {
    WellIndexed(indexed) && SnapshotsDescribe(snapshots, indexed, embed) && VectorsMatch(vectors, snapshots)
  }

  function SnapshotDocs(snapshots: map<Str, Snapshot>, ws: Str): (docs: map<Str, IndexedDoc>) {
    if ws in snapshots then snapshots[ws].docs else map[]
  }

  function SnapshotLen(snapshots: map<Str, Snapshot>, ws: Str): (n: nat) {
    if ws in snapshots then snapshots[ws].totalDocLen else 0
  }

  /** Replacing one document keeps the running total exact, and the guard of the subtraction holds. */
  lemma LengthAfterPut(docs: map<Str, IndexedDoc>, id: Str, doc: IndexedDoc)
    ensures id in docs ==> Total(DocLens(docs)) >= docs[id].docLen
    ensures Total(DocLens(docs[id := doc]))
         == Total(DocLens(docs)) - (if id in docs then docs[id].docLen else 0) + doc.docLen
  {
    assert DocLens(docs[id := doc]) == DocLens(docs)[id := doc.docLen];
    TotalPut(DocLens(docs), id, doc.docLen);
    if id in docs { TotalRemove(DocLens(docs), id); }
  }

  lemma LengthAfterRemove(docs: map<Str, IndexedDoc>, id: Str)
    requires id in docs
    ensures Total(DocLens(docs)) == Total(DocLens(docs - {id})) + docs[id].docLen
  {
    assert DocLens(docs - {id}) == DocLens(docs) - {id};
    TotalRemove(DocLens(docs), id);
  }

  method AddDocument(docs0: map<Str, IndexedDoc>, total0: nat, record: Record, embed: Str -> Vector) returns (next: Snapshot)
    requires total0 == Total(DocLens(docs0))
    ensures next.docs == docs0[record.id := MakeDoc(record, embed)]
    ensures IsDocumentFrequency(next.df, next.docs) && next.totalDocLen == Total(DocLens(next.docs))
  {
    var tokens := Tokenize(record.content);
    var tf := CountTerms(tokens);
    var doc := IndexedDoc(record, tf, |tokens|, embed(record.content));
    LengthAfterPut(docs0, record.id, doc);
    var total: nat := total0;
    if record.id in docs0 && total >= docs0[record.id].docLen {
      total := total - docs0[record.id].docLen;
    }
    var docs := docs0[record.id := doc];
    total := total + |tokens|;
    var df := BuildDocumentFrequency(docs);
    next := Snapshot(docs, df, total);
  }

  method DropDocument(old': Snapshot, id: Str) returns (next: Snapshot)
    requires id in old'.docs && old'.totalDocLen == Total(DocLens(old'.docs))
    ensures next.docs == old'.docs - {id}
    ensures next.docs != map[] ==> IsDocumentFrequency(next.df, next.docs) && next.totalDocLen == Total(DocLens(next.docs))
  {
    LengthAfterRemove(old'.docs, id);
    next := old';
    if next.totalDocLen >= next.docs[id].docLen {
      next := next.(totalDocLen := next.totalDocLen - next.docs[id].docLen);
    }
    next := next.(docs := next.docs - {id});
    if next.docs != map[] {
      var df := BuildDocumentFrequency(next.docs);
      next := next.(df := df);
    }
  }

  lemma SnapshotIs(snapshots: map<Str, Snapshot>, indexed: map<RecKey, Record>, embed: Str -> Vector, ws: Str)
    requires SnapshotsDescribe(snapshots, indexed, embed)
    ensures SnapshotDocs(snapshots, ws) == DocsOf(indexed, ws, embed)
    ensures SnapshotLen(snapshots, ws) == Total(DocLens(DocsOf(indexed, ws, embed)))
    ensures ws in snapshots <==> DocsOf(indexed, ws, embed) != map[]
  {
    assert InStep(snapshots, indexed, embed, ws);
    if ws !in snapshots { TotalZero(DocLens(map[])); }
  }

  /** Any snapshot with these documents and exact statistics describes the indexed records. */
  lemma NewSnapshot(s: Snapshot, indexed: map<RecKey, Record>, ws: Str, embed: Str -> Vector)
    requires WellIndexed(indexed) && s.docs == DocsOf(indexed, ws, embed) && s.docs != map[]
    requires IsDocumentFrequency(s.df, s.docs) && s.totalDocLen == Total(DocLens(s.docs))
    ensures Describes(s, indexed, ws, embed)
  {
    forall id | id in s.docs
      ensures KeyOf(s.docs[id].record) == (ws, id) && !s.docs[id].record.tombstone && s.docs[id] == MakeDoc(s.docs[id].record, embed)
    {
      assert (ws, id) in indexed;
    }
  }

  lemma HoldsAfterPut(snapshots: map<Str, Snapshot>, vectors: map<Str, map<Str, Entry>>, indexed: map<RecKey, Record>,
                      embed: Str -> Vector, r: Record, s: Snapshot)
    requires Holds(snapshots, vectors, indexed, embed) && !r.tombstone
    requires s.docs == SnapshotDocs(snapshots, r.workspaceId)[r.id := MakeDoc(r, embed)]
    requires IsDocumentFrequency(s.df, s.docs) && s.totalDocLen == Total(DocLens(s.docs))
    ensures Holds(snapshots[r.workspaceId := s],
                  vectors[r.workspaceId := Docs(vectors, r.workspaceId)[r.id := EntryFor(MakeDoc(r, embed))]],
                  indexed[KeyOf(r) := r], embed)
  {
    var ws, indexed' := r.workspaceId, indexed[KeyOf(r) := r];
    assert WellIndexed(indexed');
    assert Describes(s, indexed', ws, embed) by {
      SnapshotIs(snapshots, indexed, embed, ws);
      DocsAfterPut(indexed, r, ws, embed);
      assert r.id in s.docs;
      NewSnapshot(s, indexed', ws, embed);
    }
    SnapshotsAfterPut(snapshots, indexed, embed, r, s);
    VectorsAfterPut(vectors, snapshots, ws, r.id, MakeDoc(r, embed), s);
  }

  lemma HoldsAfterRemove(snapshots: map<Str, Snapshot>, vectors: map<Str, map<Str, Entry>>, indexed: map<RecKey, Record>,
                         embed: Str -> Vector, k: RecKey, s: Snapshot)
    requires Holds(snapshots, vectors, indexed, embed) && k.0 in snapshots
    requires s.docs == snapshots[k.0].docs - {k.1}
    requires s.docs != map[] ==> IsDocumentFrequency(s.df, s.docs) && s.totalDocLen == Total(DocLens(s.docs))
    ensures Holds(AfterRemove(snapshots, k.0, s), Without(vectors, k.0, k.1), indexed - {k}, embed)
  {
    InStepAfterRemove(snapshots, indexed, embed, k, s);
    SnapshotsAfterRemove(snapshots, indexed, embed, k, AfterRemove(snapshots, k.0, s));
    VectorsAfterRemove(vectors, snapshots, k.0, k.1, s);
    assert WellIndexed(indexed - {k});
  }

  lemma InStepAfterRemove(snapshots: map<Str, Snapshot>, indexed: map<RecKey, Record>, embed: Str -> Vector, k: RecKey, s: Snapshot)
    requires WellIndexed(indexed) && SnapshotsDescribe(snapshots, indexed, embed) && k.0 in snapshots
    requires s.docs == snapshots[k.0].docs - {k.1}
    requires s.docs != map[] ==> IsDocumentFrequency(s.df, s.docs) && s.totalDocLen == Total(DocLens(s.docs))
    ensures InStep(AfterRemove(snapshots, k.0, s), indexed - {k}, embed, k.0)
  {
    SnapshotIs(snapshots, indexed, embed, k.0);
    DocsAfterRemove(indexed, k, k.0, embed);
    assert WellIndexed(indexed - {k});
    if s.docs != map[] { NewSnapshot(s, indexed - {k}, k.0, embed); }
  }

  lemma HoldsAfterNothing(snapshots: map<Str, Snapshot>, vectors: map<Str, map<Str, Entry>>, indexed: map<RecKey, Record>,
                          embed: Str -> Vector, k: RecKey)
    requires Holds(snapshots, vectors, indexed, embed) && k.1 !in SnapshotDocs(snapshots, k.0)
    ensures indexed - {k} == indexed && Without(vectors, k.0, k.1) == vectors
  {
    SnapshotIs(snapshots, indexed, embed, k.0);
    assert k !in indexed;
    VectorsUnchanged(vectors, snapshots, k.0, k.1);
  }

  // ---- The stages of a query ----

  method SparseCandidates(s: Snapshot, q: QueryInput, queryTf: map<Str, nat>, avgdl: real, env: Env) returns (items: seq<(Str, real)>)
    requires queryTf.Keys == QueryTerms(q) && avgdl == AverageLength(s)
    ensures NoDuplicates(Ids(items)) && Elements(Ids(items)) == SparseTop(s, q, env)
    ensures forall i :: 0 <= i < |items| ==> items[i].0 in SparseScores(s, q, env) && items[i].1 == SparseScores(s, q, env)[items[i].0]
  {
    items := [];
    var ids := Enumerate(s.docs.Keys);
    ghost var scores := SparseScores(s, q, env);
    AllElements(ids);
    NothingGathered(scores);
    for i := 0 to |ids|
      invariant Gathers(items, scores, Elements(ids[..i])) == Yes
    {
      NextElement(ids, i);
      var id := ids[i];
      if id !in scores { PairsSkip(items, scores, Elements(ids[..i]), id); }
      if PassesFilter(s.docs[id].record, q.filters) {
        var score := ScoreLexically(s.docs[id], queryTf, |s.docs|, avgdl, s.df, env.log);
        LexicalIs(s, q, env, id, queryTf.Keys, avgdl);
        if score > 0.0 {
          PairsAppend(items, scores, Elements(ids[..i]), id);
          items := items + [(id, score)];
        }
      }
    }
    AllGathered(items, scores, s.docs.Keys);
    items := Rank(items, CandidateLimit(q.recall.sparseK, q), scores);
  }

  lemma LexicalIs(s: Snapshot, q: QueryInput, env: Env, id: Str, terms: set<Str>, avgdl: real)
    requires id in s.docs && terms == QueryTerms(q) && avgdl == AverageLength(s)
    ensures LexicalScore(s.docs[id], terms, |s.docs|, avgdl, s.df, env.log) == Lexical(s, q, env, id)
  {
  }

  /** The items so far are the scored ones among the documents seen. */
  ghost function Gathers(items: seq<(Str, real)>, scores: Scores, seen: set<Str>): Verdict {
    Judge(Pairs(items, Part(scores, seen)))
  }

  lemma NothingGathered(scores: Scores)
    ensures Gathers([], scores, {}) == Yes
  {
    assert Part(scores, {}) == map[];
  }

  lemma AllGathered(items: seq<(Str, real)>, scores: Scores, all: set<Str>)
    requires Gathers(items, scores, all) == Yes && scores.Keys <= all
    ensures Pairs(items, scores)
  {
    assert Part(scores, all) == scores;
  }

  lemma PairsSkip(items: seq<(Str, real)>, scores: Scores, seen: set<Str>, id: Str)
    requires Gathers(items, scores, seen) == Yes && id !in scores
    ensures Gathers(items, scores, seen + {id}) == Yes
  {
    assert Part(scores, seen + {id}) == Part(scores, seen);
  }

  lemma PairsAppend(items: seq<(Str, real)>, scores: Scores, seen: set<Str>, id: Str)
    requires Gathers(items, scores, seen) == Yes && id in scores && id !in seen
    ensures Gathers(items + [(id, scores[id])], scores, seen + {id}) == Yes
  {
    var next := items + [(id, scores[id])];
    assert Ids(next) == Ids(items) + [id];
    assert id !in Elements(Ids(items));
    assert Part(scores, seen + {id}).Keys == Part(scores, seen).Keys + {id};
  }

  method FilterDense(raw: seq<(Str, real)>, s: Snapshot, q: QueryInput) returns (items: seq<(Str, real)>)
    requires NoDuplicates(Ids(raw))
    ensures NoDuplicates(Ids(items)) && Elements(Ids(items)) == Elements(Ids(raw)) * Passing(s.docs, q.filters)
    ensures forall item :: item in items ==> item in raw
  {
    items := [];
    AllElements(Ids(raw));
    for i := 0 to |raw|
      invariant NoDuplicates(Ids(items))
      invariant Elements(Ids(items)) == Elements(Ids(raw)[..i]) * Passing(s.docs, q.filters)
      invariant forall item :: item in items ==> item in raw
    {
      NextElement(Ids(raw), i);
      var id := raw[i].0;
      if id in s.docs && PassesFilter(s.docs[id].record, q.filters) {
        assert id !in Elements(Ids(items));
        IdsAppend(items, raw[i]);
        items := items + [raw[i]];
      }
    }
  }

  lemma IdsAppend(items: seq<(Str, real)>, item: (Str, real))
    ensures Ids(items + [item]) == Ids(items) + [item.0]
    ensures Elements(Ids(items + [item])) == Elements(Ids(items)) + {item.0}
    ensures NoDuplicates(Ids(items)) && item.0 !in Elements(Ids(items)) ==> NoDuplicates(Ids(items + [item]))
  {
    assert Ids(items + [item]) == Ids(items) + [item.0];
  }

  lemma DenseItems(raw: seq<(Str, real)>, items: seq<(Str, real)>, vectors: map<Str, map<Str, Entry>>, s: Snapshot, q: QueryInput, env: Env)
    requires q.workspaceId in vectors && vectors[q.workspaceId] == Entries(s.docs)
    requires Elements(Ids(raw)) == Nearest(vectors, q.workspaceId, env.embed(q.query), CandidateLimit(q.recall.denseK, q))
    requires Elements(Ids(items)) == Elements(Ids(raw)) * Passing(s.docs, q.filters)
    requires forall i :: 0 <= i < |raw| ==>
               raw[i].0 in vectors[q.workspaceId] && raw[i].1 == Similarity(env.embed(q.query), vectors[q.workspaceId][raw[i].0])
    requires forall item :: item in items ==> item in raw
    ensures Elements(Ids(items)) == DenseTop(s, q, env)
    ensures ScoredBy(items, DenseScores(s, q, env))
  {
    assert Similarities(Entries(s.docs), env.embed(q.query)) == DenseScores(s, q, env);
    forall i | 0 <= i < |items| ensures items[i].0 in DenseScores(s, q, env) && items[i].1 == DenseScores(s, q, env)[items[i].0] {
      assert items[i] in raw;
    }
  }

  ghost predicate ScoredBy(items: seq<(Str, real)>, scores: Scores) {
    forall i :: 0 <= i < |items| ==> items[i].0 in scores && items[i].1 == scores[items[i].0]
  }

  function Score(ids: set<Str>, scores: Scores, id: Str): (r: real) {
    if id in ids && id in scores then scores[id] else 0.0
  }

  /** Sparse and dense scores side by side, zero where a stage recalled nothing. */
  ghost predicate Merges(merged: map<Str, (real, real)>, sparseIds: set<Str>, sparse: Scores, denseIds: set<Str>, dense: Scores) {
    && merged.Keys == sparseIds + denseIds
    && forall id :: id in merged ==> merged[id] == (Score(sparseIds, sparse, id), Score(denseIds, dense, id))
  }

  method Merge(sparse: seq<(Str, real)>, dense: seq<(Str, real)>, ghost sparseScores: Scores, ghost denseScores: Scores)
    returns (merged: map<Str, (real, real)>)
    requires ScoredBy(sparse, sparseScores) && ScoredBy(dense, denseScores)
    ensures Merges(merged, Elements(Ids(sparse)), sparseScores, Elements(Ids(dense)), denseScores)
  {
    merged := map[];
    AllElements(Ids(sparse));
    for i := 0 to |sparse|
      invariant Merges(merged, Elements(Ids(sparse)[..i]), sparseScores, {}, denseScores)
    {
      ElementsNext(Ids(sparse), i);
      var id := sparse[i].0;
      MergeSparse(merged, Elements(Ids(sparse)[..i]), sparseScores, {}, denseScores, id);
      merged := merged[id := (sparse[i].1, if id in merged then merged[id].1 else 0.0)];
    }
    AllElements(Ids(dense));
    for i := 0 to |dense|
      invariant Merges(merged, Elements(Ids(sparse)), sparseScores, Elements(Ids(dense)[..i]), denseScores)
    {
      ElementsNext(Ids(dense), i);
      var id := dense[i].0;
      MergeDense(merged, Elements(Ids(sparse)), sparseScores, Elements(Ids(dense)[..i]), denseScores, id);
      merged := merged[id := (if id in merged then merged[id].0 else 0.0, dense[i].1)];
    }
  }

  lemma MergeSparse(merged: map<Str, (real, real)>, sparseIds: set<Str>, sparse: Scores, denseIds: set<Str>, dense: Scores, id: Str)
    requires Merges(merged, sparseIds, sparse, denseIds, dense) && id in sparse
    ensures Merges(merged[id := (sparse[id], if id in merged then merged[id].1 else 0.0)], sparseIds + {id}, sparse, denseIds, dense)
  {
  }

  lemma MergeDense(merged: map<Str, (real, real)>, sparseIds: set<Str>, sparse: Scores, denseIds: set<Str>, dense: Scores, id: Str)
    requires Merges(merged, sparseIds, sparse, denseIds, dense) && id in dense
    ensures Merges(merged[id := (if id in merged then merged[id].0 else 0.0, dense[id])], sparseIds, sparse, denseIds + {id}, dense)
  {
  }

  lemma ElementsNext(s: seq<Str>, i: nat)
    requires i < |s|
    ensures Elements(s[..i + 1]) == Elements(s[..i]) + {s[i]}
  {
    assert s[..i + 1] == s[..i] + [s[i]];
  }

  lemma MergedIsRecalled(merged: map<Str, (real, real)>, sparseIds: set<Str>, sparse: Scores, denseIds: set<Str>, dense: Scores)
    requires Merges(merged, sparseIds, sparse, denseIds, dense)
    ensures Firsts(merged) == Recalled(sparseIds + denseIds, sparseIds, sparse)
    ensures Seconds(merged) == Recalled(sparseIds + denseIds, denseIds, dense)
  {
  }

  function Firsts(m: map<Str, (real, real)>): (r: map<Str, real>) {
    map id | id in m :: m[id].0
  }

  function Seconds(m: map<Str, (real, real)>): (r: map<Str, real>) {
    map id | id in m :: m[id].1
  }

  method Peaks(merged: map<Str, (real, real)>) returns (sparseMax: real, denseMax: real)
    ensures sparseMax == Peak(Firsts(merged)) && denseMax == Peak(Seconds(merged))
  {
    sparseMax, denseMax := 0.0, 0.0;
    var ids := Enumerate(merged.Keys);
    AllElements(ids);
    ghost var sparse, dense := Firsts(merged), Seconds(merged);
    NoPeak(sparse);
    NoPeak(dense);
    for i := 0 to |ids|
      invariant IsPeak(sparseMax, Part(sparse, Elements(ids[..i])))
      invariant IsPeak(denseMax, Part(dense, Elements(ids[..i])))
    {
      NextElement(ids, i);
      var id := ids[i];
      PeakGrows(sparseMax, sparse, Elements(ids[..i]), id);
      PeakGrows(denseMax, dense, Elements(ids[..i]), id);
      sparseMax := if sparseMax < merged[id].0 then merged[id].0 else sparseMax;
      denseMax := if denseMax < merged[id].1 then merged[id].1 else denseMax;
    }
    WholePeak(sparseMax, sparse);
    WholePeak(denseMax, dense);
  }

  lemma NoPeak(m: map<Str, real>)
    ensures IsPeak(0.0, Part(m, {}))
  {
  }

  lemma WholePeak(p: real, m: map<Str, real>)
    requires IsPeak(p, Part(m, m.Keys))
    ensures p == Peak(m)
  {
    assert Part(m, m.Keys) == m;
    PeakUnique(p, m);
  }

  lemma PeakGrows(p: real, m: map<Str, real>, seen: set<Str>, id: Str)
    requires IsPeak(p, Part(m, seen)) && id in m && id !in seen
    ensures IsPeak(if p < m[id] then m[id] else p, Part(m, seen + {id}))
  {
    var next := Part(m, seen + {id});
    assert id in next && next[id] == m[id];
    forall k | k in next ensures next[k] <= if p < m[id] then m[id] else p {
      assert k == id || (k in Part(m, seen) && Part(m, seen)[k] == next[k]);
    }
    if p >= m[id] && p != 0.0 {
      var k :| k in Part(m, seen) && Part(m, seen)[k] == p;
      assert k in next && next[k] == p;
    }
  }

  predicate HitAtMost(a: QueryHit, b: QueryHit) {
    if a.scores.final == b.scores.final then a.updatedAtMs >= b.updatedAtMs else a.scores.final > b.scores.final
  }

  /** Each of the documents once, with its scores. */
  ghost predicate AreHits(hits: seq<QueryHit>, docs: map<Str, IndexedDoc>, scores: map<Str, ScoreBreakdown>, ids: set<Str>) {
    && NoDuplicates(HitIds(hits))
    && Elements(HitIds(hits)) == ids
    && forall i :: 0 <= i < |hits| ==> IsHit(hits[i], docs, scores)
  }

  ghost predicate IsHit(hit: QueryHit, docs: map<Str, IndexedDoc>, scores: map<Str, ScoreBreakdown>) {
    hit.memoryId in docs && hit.memoryId in scores && hit == MakeHit(docs[hit.memoryId].record, scores[hit.memoryId])
  }

  method Rerank(s: Snapshot, merged: map<Str, (real, real)>, q: QueryInput, nowMs: nat) returns (hits: seq<QueryHit>)
    requires forall id :: id in s.docs ==> s.docs[id].record.id == id
    ensures AreHits(hits, s.docs, Fused(s.docs, Firsts(merged), Seconds(merged), q.rerank, nowMs), merged.Keys * s.docs.Keys)
  {
    var sparseMax, denseMax := Peaks(merged);
    hits := [];
    var ids := Enumerate(merged.Keys);
    AllElements(ids);
    ghost var scores := Fused(s.docs, Firsts(merged), Seconds(merged), q.rerank, nowMs);
    for i := 0 to |ids|
      invariant AreHits(hits, s.docs, scores, Elements(ids[..i]) * s.docs.Keys)
    {
      NextElement(ids, i);
      var id := ids[i];
      if id in s.docs {
        var doc := s.docs[id].record;
        var score := Fuse(doc, merged[id].0, merged[id].1, sparseMax, denseMax, q.rerank, nowMs);
        var hit := MakeHit(doc, score);
        HitsAppend(hits, hit, s.docs, scores, Elements(ids[..i]), id);
        hits := hits + [hit];
      } else {
        HitsSkip(s.docs.Keys, Elements(ids[..i]), id);
      }
    }
  }

  lemma HitsAppend(hits: seq<QueryHit>, hit: QueryHit, docs: map<Str, IndexedDoc>, scores: map<Str, ScoreBreakdown>, seen: set<Str>, id: Str)
    requires AreHits(hits, docs, scores, seen * docs.Keys) && id !in seen && hit.memoryId == id && IsHit(hit, docs, scores)
    ensures AreHits(hits + [hit], docs, scores, (seen + {id}) * docs.Keys)
  {
    assert HitIds(hits + [hit]) == HitIds(hits) + [id];
    assert (seen + {id}) * docs.Keys == seen * docs.Keys + {id};
  }

  lemma HitsSkip(docIds: set<Str>, seen: set<Str>, id: Str)
    requires id !in docIds
    ensures (seen + {id}) * docIds == seen * docIds
  {
  }

  lemma HitOrder()
    ensures TotalPreorder(HitAtMost)
  {
  }

  /** Sorting and cutting leaves a best-first list of the k best. */
  method CutToBest(hits0: seq<QueryHit>, k: nat, s: Snapshot, ghost scores: map<Str, ScoreBreakdown>) returns (hits: seq<QueryHit>)
    requires AreHits(hits0, s.docs, scores, scores.Keys)
    ensures IsBest(HitIds(hits), RankOf(s, scores), k)
    ensures forall i :: 0 <= i < |hits| ==> IsHit(hits[i], s.docs, scores)
  {
    HitOrder();
    hits := Sort(hits0, HitAtMost);
    RearrangedHits(hits0, hits, s.docs, scores, scores.Keys);
    SortedHitsRank(hits, s, scores);
    BestPrefix(HitIds(hits), RankOf(s, scores), k);
    if |hits| > k {
      assert HitIds(hits[..k]) == HitIds(hits)[..k];
      hits := hits[..k];
    }
  }

  lemma RearrangedHits(a: seq<QueryHit>, b: seq<QueryHit>, docs: map<Str, IndexedDoc>, scores: map<Str, ScoreBreakdown>, ids: set<Str>)
    requires AreHits(a, docs, scores, ids) && multiset(a) == multiset(b)
    ensures AreHits(b, docs, scores, ids)
  {
    SameMultisetSameElements(a, b);
    forall i | 0 <= i < |b| ensures IsHit(b[i], docs, scores) {
      assert b[i] in Elements(a);
    }
    DistinctHits(a);
    forall i, j | 0 <= i < j < |b| ensures HitIds(b)[i] != HitIds(b)[j] {
      assert b[i] in Elements(a) && b[j] in Elements(a);
      assert b[i] != b[j];
    }
    forall id ensures id in HitIds(b) <==> id in ids {
      if id in ids {
        assert id in Elements(HitIds(a));
        var i :| 0 <= i < |a| && HitIds(a)[i] == id;
        assert a[i] in Elements(b);
        var j :| 0 <= j < |b| && b[j] == a[i];
        assert HitIds(b)[j] == id;
      }
      if id in HitIds(b) {
        var j :| 0 <= j < |b| && HitIds(b)[j] == id;
        assert b[j] in Elements(a);
        var i :| 0 <= i < |a| && a[i] == b[j];
        assert HitIds(a)[i] == id;
        assert id in Elements(HitIds(a));
      }
    }
  }

  lemma DistinctHits(a: seq<QueryHit>)
    requires NoDuplicates(HitIds(a))
    ensures NoDuplicates(a)
  {
    forall i, j | 0 <= i < j < |a| ensures a[i] != a[j] {
      assert HitIds(a)[i] != HitIds(a)[j];
    }
  }

  lemma SortedHitsRank(full: seq<QueryHit>, s: Snapshot, scores: map<Str, ScoreBreakdown>)
    requires AreHits(full, s.docs, scores, scores.Keys) && Sorted(full, HitAtMost)
    ensures var ids, rank := HitIds(full), RankOf(s, scores);
      && Elements(ids) == rank.Keys
      && forall i, j :: 0 <= i < j < |ids| && ids[i] in rank && ids[j] in rank ==> !Outranks(rank[ids[j]], rank[ids[i]])
  {
    var ids, rank := HitIds(full), RankOf(s, scores);
    forall x | x in scores ensures x in s.docs {
      assert x in Elements(ids);
      var i :| 0 <= i < |full| && ids[i] == x;
      assert IsHit(full[i], s.docs, scores);
    }
    forall i, j | 0 <= i < j < |ids| && ids[i] in rank && ids[j] in rank ensures !Outranks(rank[ids[j]], rank[ids[i]]) {
      RankOfHit(full[i], s, scores);
      RankOfHit(full[j], s, scores);
      assert HitAtMost(full[i], full[j]);
    }
  }

  lemma RankOfHit(hit: QueryHit, s: Snapshot, scores: map<Str, ScoreBreakdown>)
    requires IsHit(hit, s.docs, scores)
    ensures hit.memoryId in RankOf(s, scores) && RankOf(s, scores)[hit.memoryId] == (hit.scores.final, hit.updatedAtMs)
  {
  }

  /** Stage one: what both searches recall, with their scores. */
  method Recall(s: Snapshot, vectorIndex: LshVectorIndex, q: QueryInput, env: Env) returns (merged: map<Str, (real, real)>)
    requires q.workspaceId in vectorIndex.workspaceVectors && vectorIndex.workspaceVectors[q.workspaceId] == Entries(s.docs)
    ensures Firsts(merged) == MergedSparse(s, q, env) && Seconds(merged) == MergedDense(s, q, env)
  {
    var tokens := Tokenize(q.query);
    var queryTf := CountTerms(tokens);
    var sparse := SparseCandidates(s, q, queryTf, AverageLength(s), env);
    var raw := vectorIndex.Search(q.workspaceId, env.embed(q.query), CandidateLimit(q.recall.denseK, q));
    var dense := FilterDense(raw, s, q);
    DenseItems(raw, dense, vectorIndex.workspaceVectors, s, q, env);
    ghost var sparseScores, denseScores := SparseScores(s, q, env), DenseScores(s, q, env);
    merged := Merge(sparse, dense, sparseScores, denseScores);
    MergedIsRecalled(merged, Elements(Ids(sparse)), sparseScores, Elements(Ids(dense)), denseScores);
  }

  /** Stage two: fuse, sort, cut. */
  method Answer(s: Snapshot, merged: map<Str, (real, real)>, q: QueryInput, env: Env) returns (hits: seq<QueryHit>)
    requires Firsts(merged) == MergedSparse(s, q, env) && Seconds(merged) == MergedDense(s, q, env)
    requires forall id :: id in s.docs ==> s.docs[id].record.id == id
    ensures IsAnswer(hits, s, q, env)
  {
    hits := Rerank(s, merged, q, env.nowMs);
    assert merged.Keys == Firsts(merged).Keys == Seconds(merged).Keys;
    hits := CutToBest(hits, EffectiveTopK(q), s, Reranked(s, q, env));
    AnswerFromHits(hits, s, q, env);
  }

  lemma AnswerFromHits(hits: seq<QueryHit>, s: Snapshot, q: QueryInput, env: Env)
    requires IsBest(HitIds(hits), RankOf(s, Reranked(s, q, env)), EffectiveTopK(q))
    requires forall i :: 0 <= i < |hits| ==> IsHit(hits[i], s.docs, Reranked(s, q, env))
    ensures IsAnswer(hits, s, q, env)
  {
  }

  lemma NoSnapshot(snapshots: map<Str, Snapshot>, indexed: map<RecKey, Record>, embed: Str -> Vector, ws: Str)
    requires SnapshotsDescribe(snapshots, indexed, embed) && (ws !in snapshots || snapshots[ws].docs == map[])
    ensures DocIds(indexed, ws) == {}
  {
    SnapshotIs(snapshots, indexed, embed, ws);
    assert DocsOf(indexed, ws, embed).Keys == DocIds(indexed, ws);
  }

  lemma SnapshotDescribes(snapshots: map<Str, Snapshot>, indexed: map<RecKey, Record>, embed: Str -> Vector, ws: Str)
    requires SnapshotsDescribe(snapshots, indexed, embed) && ws in snapshots
    ensures Describes(snapshots[ws], indexed, ws, embed)
    ensures forall id :: id in snapshots[ws].docs ==> snapshots[ws].docs[id].record.id == id
  {
    assert InStep(snapshots, indexed, embed, ws);
    DocumentsHaveTheirIds(snapshots[ws], ws, embed);
  }

  lemma AnswerIsRetrieved(hits: seq<QueryHit>, s: Snapshot, indexed: map<RecKey, Record>, q: QueryInput, env: Env)
    requires Describes(s, indexed, q.workspaceId, env.embed) && s.docs != map[] && IsAnswer(hits, s, q, env)
    ensures IsRetrieved(hits, indexed, q, env)
  {
    assert DocIds(indexed, q.workspaceId) == s.docs.Keys;
  }

  lemma DocumentsHaveTheirIds(s: Snapshot, ws: Str, embed: Str -> Vector)
    requires Exact(s, ws, embed)
    ensures forall id :: id in s.docs ==> s.docs[id].record.id == id
  {
    forall id | id in s.docs ensures s.docs[id].record.id == id {
      assert KeyOf(s.docs[id].record) == (ws, id);
    }
  }

  class HybridRetriever {
    const embed: Str -> Vector
    const log: real -> real
    const vectorIndex: LshVectorIndex
    var snapshots: map<Str, Snapshot>
    /** The records that have been indexed and not removed. */
    ghost var indexed: map<RecKey, Record>

    constructor (embed: Str -> Vector, log: real -> real)
      ensures Valid() && fresh(vectorIndex)
      ensures this.embed == embed && this.log == log && indexed == map[]
    {
      this.embed, this.log := embed, log;
      vectorIndex := new LshVectorIndex();
      snapshots, indexed := map[], map[];
      new;
      assert forall ws :: DocsOf(indexed, ws, embed) == map[];
    }

    ghost predicate Valid()
      reads this, vectorIndex
    {
      Holds(snapshots, vectorIndex.workspaceVectors, indexed, embed)
    }

    /** Indexing replaces the record, and a tombstone removes it. */
    method Index(record: Record)
      requires Valid()
      modifies this, vectorIndex
      ensures Valid()
      ensures indexed == if record.tombstone then old(indexed) - {KeyOf(record)} else old(indexed)[KeyOf(record) := record]
    {
      if record.tombstone {
        Remove(record.workspaceId, record.id);
        return;
      }
      var docs, total := SnapshotDocs(snapshots, record.workspaceId), SnapshotLen(snapshots, record.workspaceId);
      assert total == Total(DocLens(docs)) by {
        SnapshotIs(snapshots, indexed, embed, record.workspaceId);
      }
      var next := AddDocument(docs, total, record, embed);
      HoldsAfterPut(snapshots, vectorIndex.workspaceVectors, indexed, embed, record, next);
      snapshots := snapshots[record.workspaceId := next];
      indexed := indexed[KeyOf(record) := record];
      vectorIndex.Upsert(record.workspaceId, record.id, embed(record.content));
    }

    method Remove(workspaceId: Str, memoryId: Str)
      requires Valid()
      modifies this, vectorIndex
      ensures Valid()
      ensures indexed == old(indexed) - {(workspaceId, memoryId)}
    {
      ghost var k := (workspaceId, memoryId);
      if workspaceId !in snapshots || memoryId !in snapshots[workspaceId].docs {
        HoldsAfterNothing(snapshots, vectorIndex.workspaceVectors, indexed, embed, k);
        vectorIndex.Remove(workspaceId, memoryId);
        return;
      }
      assert snapshots[workspaceId].totalDocLen == Total(DocLens(snapshots[workspaceId].docs)) by {
        SnapshotIs(snapshots, indexed, embed, workspaceId);
      }
      var next := DropDocument(snapshots[workspaceId], memoryId);
      HoldsAfterRemove(snapshots, vectorIndex.workspaceVectors, indexed, embed, k, next);
      snapshots := if next.docs == map[] then snapshots - {workspaceId} else snapshots[workspaceId := next];
      indexed := indexed - {k};
      vectorIndex.Remove(workspaceId, memoryId);
    }

    method Query(q: QueryInput, nowMs: nat) returns (hits: seq<QueryHit>)
      requires Valid()
      ensures IsRetrieved(hits, indexed, q, Env(embed, log, nowMs))
    {
      if q.workspaceId !in snapshots || snapshots[q.workspaceId].docs == map[] {
        NoSnapshot(snapshots, indexed, embed, q.workspaceId);
        return [];
      }
      var s, env := snapshots[q.workspaceId], Env(embed, log, nowMs);
      SnapshotDescribes(snapshots, indexed, embed, q.workspaceId);
      var merged := Recall(s, vectorIndex, q, env);
      hits := Answer(s, merged, q, env);
      AnswerIsRetrieved(hits, s, indexed, q, env);
    }
  }

  // ---- What a query promises ----

  /** The ids of a workspace's records that pass the filter. */
  function Matching(indexed: map<RecKey, Record>, q: QueryInput): (ids: set<Str>) {
    set id | id in DocIds(indexed, q.workspaceId) && PassesFilter(indexed[(q.workspaceId, id)], q.filters)
  }

  lemma PassingIsMatching(s: Snapshot, indexed: map<RecKey, Record>, q: QueryInput, embed: Str -> Vector)
    requires s.docs == DocsOf(indexed, q.workspaceId, embed)
    ensures Passing(s.docs, q.filters) == Matching(indexed, q)
    ensures |s.docs| == |DocIds(indexed, q.workspaceId)|
  {
    assert s.docs.Keys == DocIds(indexed, q.workspaceId);
  }

  /** Every hit is a different matching record, shown as it is; there are at most top_k, best first. */
  lemma RetrievedAreMatching(hits: seq<QueryHit>, indexed: map<RecKey, Record>, q: QueryInput, env: Env)
    requires IsRetrieved(hits, indexed, q, env)
    ensures |hits| <= EffectiveTopK(q) && NoDuplicates(HitIds(hits)) && Sorted(hits, HitAtMost)
    ensures forall i :: 0 <= i < |hits| ==>
              var id := hits[i].memoryId;
              id in Matching(indexed, q) && hits[i] == MakeHit(indexed[(q.workspaceId, id)], hits[i].scores)
  {
    if DocIds(indexed, q.workspaceId) != {} {
      var s :| Describes(s, indexed, q.workspaceId, env.embed) && IsAnswer(hits, s, q, env);
      PassingIsMatching(s, indexed, q, env.embed);
      AnswerIsSorted(hits, s, q, env);
      forall i | 0 <= i < |hits|
        ensures var id := hits[i].memoryId;
          id in Matching(indexed, q) && hits[i] == MakeHit(indexed[(q.workspaceId, id)], hits[i].scores)
      {
        RerankedPass(s, q, env, hits[i].memoryId);
      }
    }
  }

  lemma RerankedPass(s: Snapshot, q: QueryInput, env: Env, id: Str)
    requires id in Reranked(s, q, env)
    ensures id in Passing(s.docs, q.filters)
  {
    assert id in Merged(s, q, env);
  }

  lemma AnswerIsSorted(hits: seq<QueryHit>, s: Snapshot, q: QueryInput, env: Env)
    requires IsAnswer(hits, s, q, env)
    ensures Sorted(hits, HitAtMost)
  {
    var rank := RankOf(s, Reranked(s, q, env));
    forall i, j | 0 <= i < j < |hits| ensures HitAtMost(hits[i], hits[j]) {
      RankedInOrder(HitIds(hits), rank, EffectiveTopK(q), i, j);
    }
  }

  lemma RankedInOrder(ids: seq<Str>, rank: map<Str, (real, nat)>, k: nat, i: nat, j: nat)
    requires IsBest(ids, rank, k) && i < j < |ids|
    ensures ids[i] in rank && ids[j] in rank && !Outranks(rank[ids[j]], rank[ids[i]])
  {
    assert ids[i] in Elements(ids) && ids[j] in Elements(ids);
  }

  /** Of the matching ones, those that the query can find. */
  function FindableRecords(indexed: map<RecKey, Record>, q: QueryInput, embedded: Vector): (ids: set<Str>) {
    set id | id in Matching(indexed, q) && CanFind(indexed[(q.workspaceId, id)], q, embedded)
  }

  /** With room for every document, the hits are exactly the matching records the query can find, each once. */
  lemma RetrievedIsComplete(hits: seq<QueryHit>, indexed: map<RecKey, Record>, q: QueryInput, env: Env)
    requires IsRetrieved(hits, indexed, q, env) && |DocIds(indexed, q.workspaceId)| <= EffectiveTopK(q)
    requires env.embed(q.query) == [] ==> LogPositiveAboveOne(env.log)
    ensures Elements(HitIds(hits)) == FindableRecords(indexed, q, env.embed(q.query))
  {
    if DocIds(indexed, q.workspaceId) == {} {
      assert HitIds(hits) == [];
    } else {
      var s :| Describes(s, indexed, q.workspaceId, env.embed) && IsAnswer(hits, s, q, env);
      FindableAreMatching(s, indexed, q, env.embed);
      AnswerIsComplete(hits, s, q, env, q.workspaceId);
    }
  }

  lemma FindableAreMatching(s: Snapshot, indexed: map<RecKey, Record>, q: QueryInput, embed: Str -> Vector)
    requires s.docs == DocsOf(indexed, q.workspaceId, embed)
    ensures Findable(s.docs, q, embed(q.query)) == FindableRecords(indexed, q, embed(q.query))
    ensures |s.docs| == |DocIds(indexed, q.workspaceId)|
  {
    PassingIsMatching(s, indexed, q, embed);
  }
}
