/** What a warmup finds, for every outcome of its three scans (src/core/memory_engine.cpp:310-360,
    1093-1207). A scan that says "resource not found" counts as an empty namespace, whether the
    namespace is empty or not. */
module Restarts {
  import opened Collections
  import opened EngineModel
  import opened Graves
  import opened Keys
  import opened MergedScan
  import opened PartitionModel
  import opened Records
  import opened Recovery
  import opened Replay
  import opened StoreScans

  datatype Scans = Scans(docs: ScanStatus, ckpts: ScanStatus, events: ScanStatus)

  const ALL_FOUND := Scans(Found, Found, Found)

  predicate NoneFailed(scans: Scans) {
    !scans.docs.Failed? && !scans.ckpts.Failed? && !scans.events.Failed?
  }

  /** The rows the warmup gets to see. */
  function Seen(s: Store, scans: Scans): (s': Store) {
    s.(docs := if scans.docs.Found? then s.docs else map[],
       ckpts := if scans.ckpts.Found? then s.ckpts else map[],
       events := if scans.events.Found? then s.events else map[])
  }

  ghost predicate IsListing<K(!new)>(ks: seq<K>, keys: set<K>) {
    NoDuplicates(ks) && Elements(ks) == keys && forall k :: k in ks <==> k in keys
  }

  lemma NothingListed<K(!new)>(ks: seq<K>)
    requires IsListing(ks, {})
    ensures ks == []
  {
    ElementsCount(ks);
  }

  /** What the scans return, in some order. */
  ghost predicate Returned(s: Store, scans: Scans, docs: seq<RecKey>, events: seq<EventKey>) {
    IsListing(docs, Seen(s, scans).docs.Keys) && IsListing(events, Seen(s, scans).events.Keys)
  }

  function ReloadedMemory(s: Store, docs: seq<RecKey>, charge: Record -> nat): (m: Memory)
    requires forall k :: k in docs ==> k in s.docs
  {
    LoadedAll(EMPTY_MEMORY, s.docs, docs, charge)
  }

  /** Memory after loading and replay, before eviction. */
  ghost function Reload(s: Store, scans: Scans, docs: seq<RecKey>, events: seq<EventKey>, charge: Record -> nat): (m: Memory)
    requires Returned(s, scans, docs, events)
  {
    ReplayedAll(ReloadedMemory(s, docs, charge), s, Seen(s, scans).ckpts, events, charge)
  }

  // ---- What a run leaves in its store ----

  ghost predicate FitsLog(events: map<EventKey, Event>) {
    forall k :: k in events ==> k.ts < UINT64_LIMIT && k.seqNo < UINT64_LIMIT
  }

  /** The documents are as the engine writes them, every event names its record, and checkpoints cover the log. */
  ghost predicate Sound(s: Store, seqNo: nat, clockMs: nat, runStart: nat, opMs: nat) {
    DocsInv(s.docs, opMs) && LogInv(s.events, s.ckpts, seqNo, clockMs, runStart) && PayloadsKeyed(s.events) && FitsLog(s.events)
  }

  lemma EmptyIsCoherent(charge: Record -> nat)
    ensures Coherent(EMPTY_MEMORY, charge)
  {
    TotalZero(EMPTY_MEMORY.charges);
  }

  lemma ReloadIsCoherent(s: Store, scans: Scans, docs: seq<RecKey>, events: seq<EventKey>, charge: Record -> nat)
    requires Returned(s, scans, docs, events)
    ensures Coherent(Reload(s, scans, docs, events, charge), charge)
  {
    EmptyIsCoherent(charge);
    LoadedAllCoherent(EMPTY_MEMORY, s.docs, docs, charge);
    ReplayedAllCoherent(ReloadedMemory(s, docs, charge), s, Seen(s, scans).ckpts, events, charge);
  }

  /** Loading gives exactly the rows read. */
  lemma LoadedExactly(s: Store, docs: seq<RecKey>, opMs: nat, charge: Record -> nat)
    requires DocsInv(s.docs, opMs) && forall k :: k in docs ==> k in s.docs
    ensures ReloadedMemory(s, docs, charge).records == Chosen(s.docs, Elements(docs))
  {
    forall k | k in docs ensures k in s.docs && Settled(k, s.docs[k]) {}
    LoadedAllRecords(EMPTY_MEMORY, s.docs, docs, charge);
    assert EMPTY_MEMORY.records + Chosen(s.docs, Elements(docs)) == Chosen(s.docs, Elements(docs));
  }

  lemma LoadedIsSeen(s: Store, scans: Scans, docs: seq<RecKey>, events: seq<EventKey>, opMs: nat, charge: Record -> nat)
    requires DocsInv(s.docs, opMs) && Returned(s, scans, docs, events)
    ensures ReloadedMemory(s, docs, charge).records == Seen(s, scans).docs
  {
    LoadedExactly(s, docs, opMs, charge);
    assert Chosen(s.docs, Seen(s, scans).docs.Keys) == Seen(s, scans).docs;
  }

  /** If no checkpoint is hidden, no event is applied. */
  lemma CheckpointsStopReplay(m: Memory, s: Store, events: seq<EventKey>, seqNo: nat, clockMs: nat, runStart: nat, charge: Record -> nat)
    requires LogInv(s.events, s.ckpts, seqNo, clockMs, runStart) && FitsLog(s.events)
    requires forall k :: k in events ==> k in s.events
    ensures ReplayedAll(m, s, s.ckpts, events, charge) == m
  {
    forall k | k in events ensures k in s.events && Covered(k, s.ckpts) {
      CheckpointCovers(s, seqNo, clockMs, runStart, k);
    }
    CoveredEventsChangeNothing(m, s, s.ckpts, events, charge);
  }

  // ---- What is loaded, for each outcome of the scans ----

  /** The log is replayed only if it is found without its checkpoints. */
  predicate Replays(scans: Scans) {
    scans.events.Found? && !scans.ckpts.Found?
  }

  /** Without replay memory holds the documents seen; with it, their join with the log. */
  lemma ReloadRecords(s: Store, scans: Scans, docs: seq<RecKey>, events: seq<EventKey>, charge: Record -> nat,
                      seqNo: nat, clockMs: nat, runStart: nat, opMs: nat)
    requires Sound(s, seqNo, clockMs, runStart, opMs) && Returned(s, scans, docs, events)
    ensures !Replays(scans) ==>
              Reload(s, scans, docs, events, charge) == ReloadedMemory(s, docs, charge)
              && Reload(s, scans, docs, events, charge).records == Seen(s, scans).docs
    ensures Replays(scans) ==> Reload(s, scans, docs, events, charge).records == JoinedAll(Seen(s, scans).docs, IncomingAll(s, events))
  {
    var m := ReloadedMemory(s, docs, charge);
    LoadedIsSeen(s, scans, docs, events, opMs, charge);
    if Replays(scans) { ReplayIsJoin(m, s, events, charge); }
    else if scans.ckpts.Found? { CheckpointsStopReplay(m, s, events, seqNo, clockMs, runStart, charge); }
    else { NothingListed(events); }
  }

  /** The log alone gives back these documents: it names no other record, and each document is the
      newest record of its key, the first in order if several have that stamp. */
  ghost predicate LogRebuilds(docs: map<RecKey, Record>, rs: seq<Record>) {
    && (forall i :: 0 <= i < |rs| ==> KeyOf(rs[i]) in docs)
    && forall k :: k in docs ==> Rebuilt(docs[k], rs, k)
  }

  ghost predicate Rebuilt(d: Record, rs: seq<Record>, k: RecKey) {
    exists i: nat :: IsWinner(rs, k, i) && d == Normalised(rs[i])
  }

  /** What of the store has to be found. */
  ghost predicate Suffices(s: Store, scans: Scans, events: seq<EventKey>)
    requires forall k :: k in events ==> k in s.events
  {
    if !Replays(scans) then scans.docs.Found? || s.docs == map[]
    else if scans.docs.Found? then
      forall e :: e in s.events ==> KeyOf(s.events[e].payload) in s.docs && !IsIncomingNewer(s.docs[KeyOf(s.events[e].payload)], s.events[e].payload)
    else LogRebuilds(s.docs, IncomingAll(s, events))
  }

  /** A warmup loads exactly the stored documents if and only if the scans find enough. */
  lemma ReloadIsIntact(s: Store, scans: Scans, docs: seq<RecKey>, events: seq<EventKey>, charge: Record -> nat,
                       seqNo: nat, clockMs: nat, runStart: nat, opMs: nat)
    requires Sound(s, seqNo, clockMs, runStart, opMs) && Returned(s, scans, docs, events)
    ensures Reload(s, scans, docs, events, charge).records == s.docs <==> Suffices(s, scans, events)
  {
    ReloadRecords(s, scans, docs, events, charge, seqNo, clockMs, runStart, opMs);
    if Replays(scans) { JoinIsIntact(s, scans, events); }
  }

  lemma JoinIsIntact(s: Store, scans: Scans, events: seq<EventKey>)
    requires Replays(scans) && PayloadsKeyed(s.events) && forall k :: k in events <==> k in s.events
    ensures JoinedAll(Seen(s, scans).docs, IncomingAll(s, events)) == s.docs <==> Suffices(s, scans, events)
  {
    if scans.docs.Found? {
      JoinKeepsDocs(s, events);
    } else {
      JoinOfLog(s, events);
    }
  }

  lemma JoinOfLog(s: Store, events: seq<EventKey>)
    requires PayloadsKeyed(s.events) && forall k :: k in events <==> k in s.events
    ensures JoinedAll(map[], IncomingAll(s, events)) == s.docs <==> LogRebuilds(s.docs, IncomingAll(s, events))
  {
    Payloads(s, events);
    JoinRebuilds(s.docs, IncomingAll(s, events));
  }

  lemma JoinKeepsDocs(s: Store, events: seq<EventKey>)
    requires PayloadsKeyed(s.events) && forall k :: k in events <==> k in s.events
    ensures JoinedAll(s.docs, IncomingAll(s, events)) == s.docs <==>
            forall e :: e in s.events ==>
              KeyOf(s.events[e].payload) in s.docs && !IsIncomingNewer(s.docs[KeyOf(s.events[e].payload)], s.events[e].payload)
  {
    var rs := IncomingAll(s, events);
    Payloads(s, events);
    if JoinedAll(s.docs, rs) == s.docs {
      forall e | e in s.events
        ensures KeyOf(s.events[e].payload) in s.docs && !IsIncomingNewer(s.docs[KeyOf(s.events[e].payload)], s.events[e].payload)
      {
        assert e in events;
        var i :| 0 <= i < |events| && events[i] == e;
        JoinIsLastWriterWins(s.docs, rs, KeyOf(rs[i]));
        assert Names(rs[i], KeyOf(rs[i]));
      }
    }
    if forall e :: e in s.events ==>
         KeyOf(s.events[e].payload) in s.docs && !IsIncomingNewer(s.docs[KeyOf(s.events[e].payload)], s.events[e].payload) {
      forall i | 0 <= i < |rs| && rs[i].id != [] ensures !Applies(s.docs, rs[i]) {
        assert events[i] in s.events;
      }
      NothingApplies(s.docs, rs);
    }
  }

  lemma JoinRebuilds(docs: map<RecKey, Record>, rs: seq<Record>)
    requires forall i :: 0 <= i < |rs| ==> rs[i].id != []
    ensures JoinedAll(map[], rs) == docs <==> LogRebuilds(docs, rs)
  {
    JoinIsRebuilt(rs);
    if LogRebuilds(docs, rs) { RebuildIsUnique(docs, JoinedAll(map[], rs), rs); }
  }

  lemma JoinIsRebuilt(rs: seq<Record>)
    requires forall i :: 0 <= i < |rs| ==> rs[i].id != []
    ensures LogRebuilds(JoinedAll(map[], rs), rs)
  {
    var after := JoinedAll(map[], rs);
    forall i | 0 <= i < |rs| ensures KeyOf(rs[i]) in after {
      JoinIsLastWriterWins(map[], rs, KeyOf(rs[i]));
      assert Names(rs[i], KeyOf(rs[i]));
    }
    forall k | k in after ensures Rebuilt(after[k], rs, k) {
      var i := WinnerStays(map[], rs, k);
    }
  }

  lemma RebuildIsUnique(a: map<RecKey, Record>, b: map<RecKey, Record>, rs: seq<Record>)
    requires LogRebuilds(a, rs) && LogRebuilds(b, rs)
    ensures a == b
  {
    forall k | k in a ensures k in b && a[k] == b[k] { SameRebuilt(a, b, rs, k); }
    forall k | k in b ensures k in a { SameRebuilt(b, a, rs, k); }
  }

  lemma SameRebuilt(a: map<RecKey, Record>, b: map<RecKey, Record>, rs: seq<Record>, k: RecKey)
    requires LogRebuilds(a, rs) && LogRebuilds(b, rs) && k in a
    ensures k in b && a[k] == b[k]
  {
    assert Rebuilt(a[k], rs, k);
    var i: nat :| IsWinner(rs, k, i) && a[k] == Normalised(rs[i]);
    assert Rebuilt(b[k], rs, k);
    var j: nat :| IsWinner(rs, k, j) && b[k] == Normalised(rs[j]);
    OneWinner(rs, k, i, j);
  }

  lemma OneWinner(rs: seq<Record>, k: RecKey, i: nat, j: nat)
    requires IsWinner(rs, k, i) && IsWinner(rs, k, j)
    ensures i == j
  {
  }

  /** Documents that a scan does not find are lost to the new run, unless the log is replayed: if its
      checkpoints are found, or it is not found itself, no event brings one of them back. */
  lemma HiddenDocumentsAreLost(s: Store, scans: Scans, docs: seq<RecKey>, events: seq<EventKey>, charge: Record -> nat,
                               seqNo: nat, clockMs: nat, runStart: nat, opMs: nat)
    requires Sound(s, seqNo, clockMs, runStart, opMs) && Returned(s, scans, docs, events)
    requires scans.docs.Missing? && !Replays(scans)
    ensures Reload(s, scans, docs, events, charge) == EMPTY_MEMORY
  {
    ReloadRecords(s, scans, docs, events, charge, seqNo, clockMs, runStart, opMs);
    NothingListed(docs);
  }

  /** All namespaces lie in the same partitions, so one that was never written decides all three
      scans: if no request fails, the documents are loaded exactly if every configured partition was
      written, or there are none. */
  lemma OneUnwrittenLosesAll(parts: Parts, n: nat, fails: nat -> bool, s: Store, docs: seq<RecKey>, events: seq<EventKey>,
                             charge: Record -> nat, seqNo: nat, clockMs: nat, runStart: nat, opMs: nat)
    requires forall pid :: 0 <= pid < n ==> !fails(pid)
    requires var o := ScanOutcome(parts, n, fails); Returned(s, Scans(o, o, o), docs, events)
    requires Sound(s, seqNo, clockMs, runStart, opMs)
    ensures var o := ScanOutcome(parts, n, fails);
      && NoneFailed(Scans(o, o, o))
      && (Reload(s, Scans(o, o, o), docs, events, charge).records == s.docs <==> (forall pid :: 0 <= pid < n ==> pid in parts) || s.docs == map[])
      && ((exists pid :: 0 <= pid < n && pid !in parts) ==> Reload(s, Scans(o, o, o), docs, events, charge) == EMPTY_MEMORY)
  {
    var o := ScanOutcome(parts, n, fails);
    OneUnwrittenHidesAll(parts, n, fails);
    ReloadIsIntact(s, Scans(o, o, o), docs, events, charge, seqNo, clockMs, runStart, opMs);
    if o.Missing? { HiddenDocumentsAreLost(s, Scans(o, o, o), docs, events, charge, seqNo, clockMs, runStart, opMs); }
  }

  /** With the documents found, a warmup raises no dead if and only if the log is not replayed, or
      every event of it stays down in the order of its keys. */
  lemma ReloadRaisesNoDead(s: Store, scans: Scans, docs: seq<RecKey>, events: seq<EventKey>, charge: Record -> nat,
                           seqNo: nat, clockMs: nat, runStart: nat, opMs: nat)
    requires Sound(s, seqNo, clockMs, runStart, opMs) && Returned(s, scans, docs, events) && scans.docs.Found?
    ensures RaisesNoDead(s.docs, Reload(s, scans, docs, events, charge).records) <==>
            !Replays(scans) || forall i :: 0 <= i < |events| ==> RestsAt(s.docs, IncomingAll(s, events), i)
    ensures LaidToRest(s.docs, s.events) ==> RaisesNoDead(s.docs, Reload(s, scans, docs, events, charge).records)
  {
    ReloadRecords(s, scans, docs, events, charge, seqNo, clockMs, runStart, opMs);
    if Replays(scans) {
      Payloads(s, events);
      OrderRaisesNoDead(s.docs, IncomingAll(s, events));
      if LaidToRest(s.docs, s.events) { RestIsHarmless(s.docs, s, events); }
    }
  }
}
