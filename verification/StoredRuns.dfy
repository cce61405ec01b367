/** The engine's runs over the partitions of the persistent store: what one stores, the other
    returns (src/core/memory_engine.cpp:310-360, 1093-1207; src/store/eloqstore_adapter.cpp:234-353). */
module StoredRuns {
  import opened Bytes
  import opened Collections
  import opened EngineModel
  import opened EngineRuns
  import opened Keys
  import opened MergedScan
  import opened PartitionedFlat
  import opened PartitionModel
  import opened PartitionRouting
  import opened Records
  import opened Replay
  import opened Restarts
  import opened StoreScans
  import FlatStore
  import R = StoreRows

  /** Partitions that hold the rows of the store, each in the partition it belongs to. */
  ghost predicate HoldsStore(parts: Parts, s: Store, codec: R.Codec, wss: set<Str>, hash: Str -> nat, n: nat)
    requires n >= 1
  {
    exists f :: HoldsFlat(parts, f, hash, n) && R.HoldsRows(f, s, codec, wss)
  }

  /** New partitions hold the empty store. */
  lemma NewPartitionsHoldNothing(codec: R.Codec, wss: set<Str>, hash: Str -> nat, n: nat)
    requires n >= 1
    ensures HoldsStore(map[], EMPTY_STORE, codec, wss, hash, n)
  {
    var f: FlatStore.Flat := map[];
    assert Represents(map[], map[]) && Spells(map[], f);
    assert HoldsFlat(map[], f, hash, n);
    assert R.HoldsRows(f, EMPTY_STORE, codec, wss);
  }

  /** The entries are a batch for these rows' writes, and all its sub-batches succeed. */
  ghost predicate Commits(parts: Parts, parts': Parts, es: seq<FlatStore.WriteEntry>, ws: seq<StoreWrite>, codec: R.Codec,
                          wss: set<Str>, hash: Str -> nat, n: nat)
    requires n >= 1
  {
    && R.Encodes(es, ws, codec) && (forall w :: w in ws ==> R.IsRow(R.RowOf(w), wss))
    && (forall i :: 0 <= i < |es| ==> COLON !in es[i].entry.nameSpace)
    && PartitionModel.Committed(parts, parts', RouteAll(hash, n, es))
  }

  /** Such a batch does to the store what its writes say. */
  lemma BatchReachesStore(parts: Parts, parts': Parts, s: Store, es: seq<FlatStore.WriteEntry>, ws: seq<StoreWrite>, codec: R.Codec,
                          wss: set<Str>, hash: Str -> nat, n: nat)
    requires n >= 1 && HoldsStore(parts, s, codec, wss, hash, n) && R.AllApart(wss, codec)
    requires Commits(parts, parts', es, ws, codec, wss, hash, n)
    ensures HoldsStore(parts', ApplyAll(s, ws), codec, wss, hash, n)
  {
    var f :| HoldsFlat(parts, f, hash, n) && R.HoldsRows(f, s, codec, wss);
    BatchRefinesFlat(parts, parts', f, es, hash, n);
    R.BatchSpells(f, s, es, ws, codec, wss);
  }

  /** From one state to the next the partitions stay as the store does, or take a batch that makes
      the one store the other. */
  ghost predicate Follows(parts: Parts, parts': Parts, s: Store, s': Store, codec: R.Codec, wss: set<Str>, hash: Str -> nat, n: nat)
    requires n >= 1
  {
    || (parts' == parts && s' == s)
    || exists es, ws :: Commits(parts, parts', es, ws, codec, wss, hash, n) && ApplyAll(s, ws) == s'
  }

  /** Partitions that follow a run from its beginning hold its store at every state. */
  lemma {:induction false} RunIsHeld(c: Config, states: seq<State>, ops: seq<Op>, kept: seq<Parts>, at: nat, codec: R.Codec, wss: set<Str>,
                                     hash: Str -> nat, n: nat)
    requires n >= 1 && IsRun(c, states, ops) && |kept| == |states| && at < |states| && R.AllApart(wss, codec)
    requires kept[0] == map[]
    requires forall i :: 0 <= i < at ==> Follows(kept[i], kept[i + 1], states[i].store, states[i + 1].store, codec, wss, hash, n)
    ensures HoldsStore(kept[at], states[at].store, codec, wss, hash, n)
  {
    if at == 0 {
      NewPartitionsHoldNothing(codec, wss, hash, n);
    } else {
      RunIsHeld(c, states, ops, kept, at - 1, codec, wss, hash, n);
      FollowsIsHeld(kept[at - 1], kept[at], states[at - 1].store, states[at].store, codec, wss, hash, n);
    }
  }

  lemma FollowsIsHeld(parts: Parts, parts': Parts, s: Store, s': Store, codec: R.Codec, wss: set<Str>, hash: Str -> nat, n: nat)
    requires n >= 1 && HoldsStore(parts, s, codec, wss, hash, n) && R.AllApart(wss, codec) && Follows(parts, parts', s, s', codec, wss, hash, n)
    ensures HoldsStore(parts', s', codec, wss, hash, n)
  {
    if !(parts' == parts && s' == s) {
      var es, ws :| Commits(parts, parts', es, ws, codec, wss, hash, n) && ApplyAll(s, ws) == s';
      BatchReachesStore(parts, parts', s, es, ws, codec, wss, hash, n);
    }
  }

  lemma NoColons()
    ensures COLON !in MEM_DOCS && COLON !in R.EVENTS
  {
  }

  /** What a scan of one namespace over all partitions returns. */
  lemma ScanOfPartitions(parts: Parts, s: Store, codec: R.Codec, wss: set<Str>, hash: Str -> nat, n: nat, ns: Str, out: seq<FlatStore.KeyValueEntry>)
    returns (rows: seq<R.Row>)
    requires n >= 1 && HoldsStore(parts, s, codec, wss, hash, n) && R.AllApart(wss, codec)
    requires R.IsEngineNameSpace(ns) && COLON !in ns && IsMerged(out, parts, n, ns, [], [], 0)
    ensures R.Lists(out, rows, s, codec, ns)
    ensures forall i, j :: 0 <= i < j < |rows| ==> Less(R.KeyOfRow(rows[i], codec), R.KeyOfRow(rows[j], codec))
  {
    var f :| HoldsFlat(parts, f, hash, n) && R.HoldsRows(f, s, codec, wss);
    ScanRefinesFlat(out, parts, f, hash, n, ns, [], [], 0);
    rows := R.ScanListsRows(f, s, codec, wss, ns, out);
  }

  // ---- The two scans of a warmup ----

  ghost predicate ListsDocs(out: seq<FlatStore.KeyValueEntry>, docs: seq<RecKey>, s: Store, codec: R.Codec) {
    && |out| == |docs| && IsListing(docs, s.docs.Keys)
    && forall i :: 0 <= i < |docs| ==> out[i].key == BuildDocKey(docs[i].0, docs[i].1) && out[i].value == codec.record(s.docs[docs[i]])
  }

  ghost predicate ListsEvents(out: seq<FlatStore.KeyValueEntry>, events: seq<EventKey>, s: Store, codec: R.Codec) {
    && |out| == |events| && IsListing(events, s.events.Keys)
    && (forall i :: 0 <= i < |events| ==> out[i].value == codec.event(events[i], s.events[events[i]]))
    && forall i, j :: 0 <= i < j < |events| ==> KeyAtMost(events[i], events[j])
  }

  lemma DocOfEntry(e: FlatStore.KeyValueEntry, row: R.Row, s: Store, codec: R.Codec)
    requires R.IsEntryOf(e, row, s, codec, MEM_DOCS)
    ensures row.DocRow? && row.doc in s.docs && e.key == BuildDocKey(row.doc.0, row.doc.1) && e.value == codec.record(s.docs[row.doc])
  {
    R.NameSpacesDiffer();
  }

  lemma DocsAreListed(rows: seq<R.Row>, docs: seq<RecKey>, s: Store)
    requires |docs| == |rows| && NoDuplicates(rows)
    requires forall i :: 0 <= i < |rows| ==> rows[i] == R.DocRow(docs[i]) && docs[i] in s.docs
    requires forall k :: k in s.docs ==> R.DocRow(k) in rows
    ensures IsListing(docs, s.docs.Keys)
  {
    forall k | k in s.docs ensures k in docs {
      var i :| 0 <= i < |rows| && rows[i] == R.DocRow(k);
      assert docs[i] == k;
    }
  }

  lemma DocsOfRows(out: seq<FlatStore.KeyValueEntry>, rows: seq<R.Row>, s: Store, codec: R.Codec) returns (docs: seq<RecKey>)
    requires R.Lists(out, rows, s, codec, MEM_DOCS)
    ensures ListsDocs(out, docs, s, codec)
  {
    forall i | 0 <= i < |rows|
      ensures rows[i].DocRow? && rows[i].doc in s.docs
      ensures out[i].key == BuildDocKey(rows[i].doc.0, rows[i].doc.1) && out[i].value == codec.record(s.docs[rows[i].doc])
    {
      DocOfEntry(out[i], rows[i], s, codec);
    }
    docs := seq(|rows|, i requires 0 <= i < |rows| => rows[i].doc);
    forall k | k in s.docs ensures R.DocRow(k) in rows { assert R.Held(s, R.DocRow(k)) && R.NameSpaceOf(R.DocRow(k)) == MEM_DOCS; }
    DocsAreListed(rows, docs, s);
  }

  lemma EventOfEntry(e: FlatStore.KeyValueEntry, row: R.Row, s: Store, codec: R.Codec)
    requires R.IsEntryOf(e, row, s, codec, R.EVENTS)
    ensures row.EventRow? && row.event in s.events && e.value == codec.event(row.event, s.events[row.event])
  {
    R.NameSpacesDiffer();
  }

  lemma EventsAreListed(rows: seq<R.Row>, events: seq<EventKey>, s: Store)
    requires |events| == |rows| && NoDuplicates(rows)
    requires forall i :: 0 <= i < |rows| ==> rows[i] == R.EventRow(events[i]) && events[i] in s.events
    requires forall k :: k in s.events ==> R.EventRow(k) in rows
    ensures IsListing(events, s.events.Keys)
  {
    forall i, j | 0 <= i < j < |events| ensures events[i] != events[j] { assert rows[i] != rows[j]; }
    forall k | k in s.events ensures k in events {
      var i :| 0 <= i < |rows| && rows[i] == R.EventRow(k);
      assert events[i] == k;
    }
  }

  lemma EventsAscend(rows: seq<R.Row>, events: seq<EventKey>, codec: R.Codec)
    requires |events| == |rows| && forall i :: 0 <= i < |rows| ==> rows[i] == R.EventRow(events[i])
    requires forall i, j :: 0 <= i < j < |rows| ==> Less(R.KeyOfRow(rows[i], codec), R.KeyOfRow(rows[j], codec))
    ensures forall i, j :: 0 <= i < j < |events| ==> KeyAtMost(events[i], events[j])
  {
    forall i, j | 0 <= i < j < |events| ensures KeyAtMost(events[i], events[j]) {
      assert Less(R.KeyOfRow(rows[i], codec), R.KeyOfRow(rows[j], codec));
    }
  }

  lemma EventsOfRows(out: seq<FlatStore.KeyValueEntry>, rows: seq<R.Row>, s: Store, codec: R.Codec) returns (events: seq<EventKey>)
    requires R.Lists(out, rows, s, codec, R.EVENTS)
    requires forall i, j :: 0 <= i < j < |rows| ==> Less(R.KeyOfRow(rows[i], codec), R.KeyOfRow(rows[j], codec))
    ensures ListsEvents(out, events, s, codec)
  {
    forall i | 0 <= i < |rows|
      ensures rows[i].EventRow? && rows[i].event in s.events && out[i].value == codec.event(rows[i].event, s.events[rows[i].event])
    {
      EventOfEntry(out[i], rows[i], s, codec);
    }
    events := seq(|rows|, i requires 0 <= i < |rows| => rows[i].event);
    forall k | k in s.events ensures R.EventRow(k) in rows { assert R.Held(s, R.EventRow(k)) && R.NameSpaceOf(R.EventRow(k)) == R.EVENTS; }
    EventsAreListed(rows, events, s);
    EventsAscend(rows, events, codec);
  }

  /** Wherever a run is cut off: if the partitions hold its store and no request fails, the warmup's
      scans of them list the documents and the events in the order of their keys, and it loads
      exactly the stored documents if and only if every partition was written or there are none. */
  lemma RunsRecoverFromPartitions(c: Config, states: seq<State>, ops: seq<Op>, at: nat, parts: Parts, codec: R.Codec, wss: set<Str>,
                                  hash: Str -> nat, n: nat, fails: nat -> bool, docsOut: seq<FlatStore.KeyValueEntry>,
                                  eventsOut: seq<FlatStore.KeyValueEntry>)
    returns (docs: seq<RecKey>, events: seq<EventKey>)
    requires IsRun(c, states, ops) && IgnoresAccess(c.charge) && at < |states|
    requires n >= 1 && HoldsStore(parts, states[at].store, codec, wss, hash, n) && R.AllApart(wss, codec)
    requires forall pid :: 0 <= pid < n ==> !fails(pid)
    requires ScanOutcome(parts, n, fails).Found? ==> IsMerged(docsOut, parts, n, MEM_DOCS, [], [], 0) && IsMerged(eventsOut, parts, n, R.EVENTS, [], [], 0)
    ensures var o, s := ScanOutcome(parts, n, fails), states[at].store;
      && (o.Found? ==> ListsDocs(docsOut, docs, s, codec) && ListsEvents(eventsOut, events, s, codec))
      && Returned(s, Scans(o, o, o), docs, events)
      && (Reload(s, Scans(o, o, o), docs, events, c.charge).records == s.docs <==> (forall pid :: 0 <= pid < n ==> pid in parts) || s.docs == map[])
  {
    var o, s := ScanOutcome(parts, n, fails), states[at].store;
    docs, events := [], [];
    if o.Found? {
      NoColons();
      var docRows := ScanOfPartitions(parts, s, codec, wss, hash, n, MEM_DOCS, docsOut);
      docs := DocsOfRows(docsOut, docRows, s, codec);
      var eventRows := ScanOfPartitions(parts, s, codec, wss, hash, n, R.EVENTS, eventsOut);
      events := EventsOfRows(eventsOut, eventRows, s, codec);
    }
    var last := states[at];
    RunHasInv(c, states, ops, at);
    StoreIsSound(last);
    OneUnwrittenLosesAll(parts, n, fails, s, docs, events, c.charge, last.seqNo, last.clockMs, last.runStart, last.opMs);
  }
}
