/** The stored inverted index and the stored vectors agree with the stored documents
    (src/core/memory_engine.cpp:738-862, 1238-1272). */
module Postings {
  import opened Bytes
  import opened Collections
  import opened EngineModel
  import opened Records
  import opened Tokenizer

  ghost predicate WellKeyed(records: map<RecKey, Record>) {
    forall k :: k in records ==> KeyOf(records[k]) == k
  }

  predicate ActiveDoc(docs: map<RecKey, Record>, k: RecKey) {
    k in docs && !docs[k].tombstone
  }

  function DocOf(row: TermKey): (k: RecKey) {
    (row.0, row.2)
  }

  /** The row belongs to a term of the document. */
  predicate IsRowOf(row: TermKey, r: Record) {
    DocOf(row) == KeyOf(r) && row.1 in TokensOf(r.content)
  }

  lemma TermRowsAre(r: Record, row: TermKey)
    ensures row in TermRows(r) <==> IsRowOf(row, r)
  {
    if IsRowOf(row, r) {
      assert (r.workspaceId, row.1, r.id) == row;
    }
  }

  /** Every term of an active document has its row. */
  ghost predicate Covers(s: Store) {
    forall row: TermKey :: ActiveDoc(s.docs, DocOf(row)) && row.1 in TokensOf(s.docs[DocOf(row)].content) ==>
      row in s.postings && s.postings[row] == PostingOf(s.docs[DocOf(row)], row.1)
  }

  /** And there are no other rows. */
  ghost predicate NoStray(s: Store) {
    forall row :: row in s.postings ==> ActiveDoc(s.docs, DocOf(row)) && row.1 in TokensOf(s.docs[DocOf(row)].content)
  }

  /** Exactly the active documents have a vector, that of their content. */
  ghost predicate VectorsMatch(s: Store) {
    && (forall k :: k in s.vecFp <==> ActiveDoc(s.docs, k))
    && forall k :: k in s.vecFp && k in s.docs ==> s.vecFp[k] == VecFp(s.docs[k].content, s.docs[k].updatedAtMs)
  }

  lemma PersistedRow(s: Store, resident: map<RecKey, Record>, r: Record, row: TermKey)
    requires WellKeyed(resident)
    ensures DocOf(row) != KeyOf(r) ==>
              (row in Persisted(s, resident, r).postings <==> row in s.postings)
              && (row in s.postings ==> Persisted(s, resident, r).postings[row] == s.postings[row])
    ensures IsRowOf(row, r) && !r.tombstone ==>
              row in Persisted(s, resident, r).postings && Persisted(s, resident, r).postings[row] == PostingOf(r, row.1)
    ensures !(IsRowOf(row, r) && !r.tombstone) ==>
              (row in Persisted(s, resident, r).postings <==> row in s.postings && row !in ClearedRows(resident, r))
  {
    TermRowsAre(r, row);
    if KeyOf(r) in resident { TermRowsAre(resident[KeyOf(r)], row); }
  }

  lemma ErasedRow(s: Store, r: Record, row: TermKey)
    ensures row in Erased(s, r).postings <==> row in s.postings && !IsRowOf(row, r)
    ensures row in Erased(s, r).postings ==> Erased(s, r).postings[row] == s.postings[row]
  {
    TermRowsAre(r, row);
  }

  lemma PersistedCovers(s: Store, resident: map<RecKey, Record>, r: Record)
    requires WellKeyed(resident) && Covers(s)
    ensures Covers(Persisted(s, resident, r))
  {
    var s' := Persisted(s, resident, r);
    forall row: TermKey | ActiveDoc(s'.docs, DocOf(row)) && row.1 in TokensOf(s'.docs[DocOf(row)].content)
      ensures row in s'.postings && s'.postings[row] == PostingOf(s'.docs[DocOf(row)], row.1)
    {
      PersistedRow(s, resident, r, row);
    }
  }

  lemma ErasedCovers(s: Store, r: Record)
    requires Covers(s)
    ensures Covers(Erased(s, r))
  {
    var s' := Erased(s, r);
    forall row: TermKey | ActiveDoc(s'.docs, DocOf(row)) && row.1 in TokensOf(s'.docs[DocOf(row)].content)
      ensures row in s'.postings && s'.postings[row] == PostingOf(s'.docs[DocOf(row)], row.1)
    {
      ErasedRow(s, r, row);
    }
  }

  /** Whatever is evicted, overwritten or repeated, every active document keeps all its rows and
      exactly the active documents have a vector. */
  lemma {:induction false} BatchCovers(s: Store, resident: map<RecKey, Record>, actions: seq<Action>)
    requires WellKeyed(resident) && Covers(s) && VectorsMatch(s)
    ensures Covers(ActAll(s, resident, actions)) && VectorsMatch(ActAll(s, resident, actions))
  {
    if actions != [] {
      var n := |actions| - 1;
      BatchCovers(s, resident, actions[..n]);
      ActCovers(ActAll(s, resident, actions[..n]), resident, actions[n]);
    }
  }

  lemma ActCovers(s: Store, resident: map<RecKey, Record>, a: Action)
    requires WellKeyed(resident) && Covers(s) && VectorsMatch(s)
    ensures Covers(Act(s, resident, a)) && VectorsMatch(Act(s, resident, a))
  {
    if a.Save? { PersistedCovers(s, resident, a.record); } else { ErasedCovers(s, a.record); }
  }

  /** The rows of the document under the key that an action leaves alone. */
  ghost predicate NothingStale(s: Store, resident: map<RecKey, Record>, a: Action) {
    ActiveDoc(s.docs, KeyOf(a.record)) ==>
      TermRows(s.docs[KeyOf(a.record)])
      <= TermRows(a.record) + if a.Save? && KeyOf(a.record) in resident then TermRows(resident[KeyOf(a.record)]) else {}
  }

  /** An action keeps the rows exact if and only if each row of the document it replaces belongs to
      the new record or to the resident one. */
  lemma ActIsExact(s: Store, resident: map<RecKey, Record>, a: Action)
    requires WellKeyed(resident) && WellKeyed(s.docs) && Covers(s) && NoStray(s)
    ensures NoStray(Act(s, resident, a)) <==> NothingStale(s, resident, a)
  {
    var s' := if a.Save? then Persisted(s, resident, a.record) else Erased(s, a.record);
    LoggingKeepsRows(s', a);
    if NothingStale(s, resident, a) {
      if a.Save? { PersistedExact(s, resident, a); } else { ErasedExact(s, resident, a); }
    } else {
      var row := StaleWitness(s, resident, a);
    }
  }

  lemma LoggingKeepsRows(s: Store, a: Action)
    ensures NoStray(Logged(s, a)) <==> NoStray(s)
  {
  }

  lemma PersistedExact(s: Store, resident: map<RecKey, Record>, a: Action)
    requires WellKeyed(resident) && WellKeyed(s.docs) && NoStray(s) && a.Save? && NothingStale(s, resident, a)
    ensures NoStray(Persisted(s, resident, a.record))
  {
    var s' := Persisted(s, resident, a.record);
    forall row | row in s'.postings ensures ActiveDoc(s'.docs, DocOf(row)) && row.1 in TokensOf(s'.docs[DocOf(row)].content) {
      PersistedRow(s, resident, a.record, row);
      if DocOf(row) == KeyOf(a.record) && !IsRowOf(row, a.record) { StaleRow(s, resident, a, row); }
    }
  }

  lemma ErasedExact(s: Store, resident: map<RecKey, Record>, a: Action)
    requires WellKeyed(s.docs) && NoStray(s) && a.Erase? && NothingStale(s, resident, a)
    ensures NoStray(Erased(s, a.record))
  {
    var s' := Erased(s, a.record);
    forall row | row in s'.postings ensures ActiveDoc(s'.docs, DocOf(row)) && row.1 in TokensOf(s'.docs[DocOf(row)].content) {
      ErasedRow(s, a.record, row);
      if DocOf(row) == KeyOf(a.record) { StaleRow(s, resident, a, row); }
    }
  }

  /** A row that is left behind. */
  lemma StaleWitness(s: Store, resident: map<RecKey, Record>, a: Action) returns (row: TermKey)
    requires WellKeyed(resident) && WellKeyed(s.docs) && Covers(s) && !NothingStale(s, resident, a)
    ensures DocOf(row) == KeyOf(a.record) && row.1 !in TokensOf(a.record.content)
    ensures row in (if a.Save? then Persisted(s, resident, a.record) else Erased(s, a.record)).postings
    ensures !NoStray(if a.Save? then Persisted(s, resident, a.record) else Erased(s, a.record))
  {
    var r, k := a.record, KeyOf(a.record);
    row :| row in TermRows(s.docs[k]) && row !in TermRows(r) && (a.Save? && k in resident ==> row !in TermRows(resident[k]));
    TermRowsAre(s.docs[k], row);
    TermRowsAre(r, row);
    if a.Save? { PersistedRow(s, resident, r, row); } else { ErasedRow(s, r, row); }
  }

  lemma StaleRow(s: Store, resident: map<RecKey, Record>, a: Action, row: TermKey)
    requires WellKeyed(s.docs) && NoStray(s) && NothingStale(s, resident, a) && row in s.postings && DocOf(row) == KeyOf(a.record)
    requires a.Save? ==> row !in ClearedRows(resident, a.record)
    ensures IsRowOf(row, a.record) && (a.Save? ==> !a.record.tombstone)
  {
    TermRowsAre(s.docs[KeyOf(a.record)], row);
    TermRowsAre(a.record, row);
  }

  /** Saving over a resident record, over nothing, or with the same text leaves nothing stale. */
  lemma WhenNothingIsStale(s: Store, resident: map<RecKey, Record>, a: Action)
    requires a.Save? && WellKeyed(resident) && WellKeyed(s.docs)
    requires var k := KeyOf(a.record);
      !ActiveDoc(s.docs, k) || s.docs[k].content == a.record.content || (k in resident && resident[k].content == s.docs[k].content)
    ensures NothingStale(s, resident, a)
  {
  }

  ghost predicate DistinctKeys(actions: seq<Action>) {
    forall i, j :: 0 <= i < j < |actions| ==> KeyOf(actions[i].record) != KeyOf(actions[j].record)
  }

  /** So the rows stay exact over a batch of different records, none of which leaves anything stale. */
  lemma {:induction false} BatchIsExact(s: Store, resident: map<RecKey, Record>, actions: seq<Action>)
    requires WellKeyed(resident) && WellKeyed(s.docs) && Covers(s) && VectorsMatch(s) && NoStray(s)
    requires DistinctKeys(actions) && forall a :: a in actions ==> NothingStale(s, resident, a)
    ensures NoStray(ActAll(s, resident, actions))
  {
    if actions != [] {
      var n := |actions| - 1;
      var s' := ActAll(s, resident, actions[..n]);
      BatchIsExact(s, resident, actions[..n]);
      BatchCovers(s, resident, actions[..n]);
      OtherDocsUntouched(s, resident, actions[..n], KeyOf(actions[n].record));
      ExactStep(s, s', resident, actions[n]);
    }
  }

  lemma ExactStep(s: Store, s': Store, resident: map<RecKey, Record>, a: Action)
    requires WellKeyed(resident) && WellKeyed(s'.docs) && Covers(s') && NoStray(s') && NothingStale(s, resident, a)
    requires KeyOf(a.record) in s'.docs <==> KeyOf(a.record) in s.docs
    requires KeyOf(a.record) in s.docs ==> s'.docs[KeyOf(a.record)] == s.docs[KeyOf(a.record)]
    ensures NoStray(Act(s', resident, a))
  {
    assert NothingStale(s', resident, a);
    ActIsExact(s', resident, a);
  }

  lemma {:induction false} OtherDocsUntouched(s: Store, resident: map<RecKey, Record>, actions: seq<Action>, k: RecKey)
    requires WellKeyed(s.docs) && forall a :: a in actions ==> KeyOf(a.record) != k
    ensures WellKeyed(ActAll(s, resident, actions).docs)
    ensures k in ActAll(s, resident, actions).docs <==> k in s.docs
    ensures k in s.docs ==> ActAll(s, resident, actions).docs[k] == s.docs[k]
  {
    if actions != [] {
      OtherDocsUntouched(s, resident, actions[..|actions| - 1], k);
    }
  }

  /** The term counts in a document's rows. */
  function StoredCounts(s: Store, k: RecKey): (tf: map<Str, nat>)
    requires Covers(s) && ActiveDoc(s.docs, k)
  {
    map t | t in TokensOf(s.docs[k].content) && (k.0, t, k.1) in s.postings :: s.postings[(k.0, t, k.1)].tf
  }

  /** Each row counts its term in the document, and the counts of one document add up to the
      length that each of its rows gives. */
  lemma RowsAddUp(s: Store, k: RecKey)
    requires Covers(s) && ActiveDoc(s.docs, k)
    ensures Total(StoredCounts(s, k)) == |TokensOf(s.docs[k].content)|
    ensures forall t :: t in TokensOf(s.docs[k].content) ==>
              var row := (k.0, t, k.1);
              row in s.postings && s.postings[row].docLen == |TokensOf(s.docs[k].content)|
              && s.postings[row].tf == Occurrences(TokensOf(s.docs[k].content), t) > 0
  {
    var tokens := TokensOf(s.docs[k].content);
    forall t | t in tokens ensures var row := (k.0, t, k.1); row in s.postings && s.postings[row] == PostingOf(s.docs[k], t) {
      assert DocOf((k.0, t, k.1)) == k;
    }
    FrequenciesExact(tokens);
    assert StoredCounts(s, k) == Frequencies(tokens);
  }
}
