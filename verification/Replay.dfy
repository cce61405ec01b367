/** Loading documents and replaying the event log (src/core/memory_engine.cpp:310-360, 1093-1207). */
module Replay {
  import opened Bytes
  import opened Collections
  import opened EngineModel
  import opened Keys
  import opened Records

  // ---- Loading ----

  /** What is filled in when a record comes back from the store. */
  function Normalised(r: Record): (r': Record)
    ensures KeyOf(r') == KeyOf(r) && r'.tombstone == r.tombstone && r'.pinned == r.pinned && SameStamp(r, r')
  {
    r.(sizeBytes := if r.sizeBytes == 0 then ComputeRecordSizeBytes(r) else r.sizeBytes,
       lastAccessMs := if r.lastAccessMs == 0 then r.updatedAtMs else r.lastAccessMs,
       tier := if r.tier == [] then (if r.tombstone then COLD else HOT) else r.tier)
  }

  /** A missing workspace or id is taken from the row's key. */
  function WithKey(k: RecKey, r: Record): (r': Record) {
    r.(workspaceId := if r.workspaceId == [] then k.0 else r.workspaceId, id := if r.id == [] then k.1 else r.id)
  }

  predicate HasKey(r: Record) {
    r.workspaceId != [] && r.id != []
  }

  function Loaded(m: Memory, k: RecKey, r: Record, charge: Record -> nat): (m': Memory) {
    if HasKey(WithKey(k, r)) then Upserted(m, Normalised(WithKey(k, r)), charge) else m
  }

  function LoadedAll(m: Memory, docs: map<RecKey, Record>, ks: seq<RecKey>, charge: Record -> nat): (m': Memory)
    requires forall k :: k in ks ==> k in docs
  {
    if ks == [] then m
    else
      var n := |ks| - 1;
      assert forall k :: k in ks[..n] ==> k in ks;
      Loaded(LoadedAll(m, docs, ks[..n], charge), ks[n], docs[ks[n]], charge)
  }

  /** A record as the engine writes it: loading changes nothing. */
  ghost predicate Settled(k: RecKey, r: Record) {
    KeyOf(r) == k && HasKey(r) && Normalised(r) == r
  }

  function Chosen(docs: map<RecKey, Record>, ks: set<RecKey>): (chosen: map<RecKey, Record>) {
    map k | k in ks && k in docs :: docs[k]
  }

  lemma {:induction false} LoadedAllRecords(m: Memory, docs: map<RecKey, Record>, ks: seq<RecKey>, charge: Record -> nat)
    requires forall k :: k in ks ==> k in docs && Settled(k, docs[k])
    ensures LoadedAll(m, docs, ks, charge).records == m.records + Chosen(docs, Elements(ks))
  {
    if ks != [] {
      var n := |ks| - 1;
      assert ks == ks[..n] + [ks[n]];
      LoadedAllRecords(m, docs, ks[..n], charge);
      LoadedOne(LoadedAll(m, docs, ks[..n], charge), ks[n], docs[ks[n]], charge);
      ChosenGrows(m.records, docs, Elements(ks[..n]), ks[n]);
      assert Elements(ks) == Elements(ks[..n]) + {ks[n]};
    }
  }

  lemma LoadedOne(m: Memory, k: RecKey, r: Record, charge: Record -> nat)
    requires Settled(k, r)
    ensures Loaded(m, k, r, charge) == Upserted(m, r, charge)
  {
    assert WithKey(k, r) == r;
  }

  lemma ChosenGrows(records: map<RecKey, Record>, docs: map<RecKey, Record>, ks: set<RecKey>, k: RecKey)
    requires k in docs
    ensures (records + Chosen(docs, ks))[k := docs[k]] == records + Chosen(docs, ks + {k})
  {
  }

  lemma {:induction false} LoadedAllCoherent(m: Memory, docs: map<RecKey, Record>, ks: seq<RecKey>, charge: Record -> nat)
    requires Coherent(m, charge) && forall k :: k in ks ==> k in docs
    ensures Coherent(LoadedAll(m, docs, ks, charge), charge)
  {
    if ks != [] {
      var n := |ks| - 1;
      assert forall k :: k in ks[..n] ==> k in ks;
      LoadedAllCoherent(m, docs, ks[..n], charge);
      var before := LoadedAll(m, docs, ks[..n], charge);
      if HasKey(WithKey(ks[n], docs[ks[n]])) {
        UpsertedCoherent(before, Normalised(WithKey(ks[n], docs[ks[n]])), charge);
      }
    }
  }

  // ---- Replay ----

  /** The record an event brings; none if it names no record. */
  function Incoming(k: EventKey, e: Event): (r: Record) {
    e.payload.(workspaceId := if e.payload.workspaceId == [] then k.workspaceId else e.payload.workspaceId,
               id := if e.payload.id == [] then e.memoryId else e.payload.id)
  }

  /** Keys compare as the strings the code builds. */
  predicate KeyAtMost(a: EventKey, b: EventKey) {
    AtMost(BuildEventKey(a.workspaceId, a.ts, a.seqNo), BuildEventKey(b.workspaceId, b.ts, b.seqNo))
  }

  predicate Covered(k: EventKey, ckpts: map<Str, EventKey>) {
    k.workspaceId in ckpts && KeyAtMost(k, ckpts[k.workspaceId])
  }

  predicate Applies(records: map<RecKey, Record>, r: Record) {
    KeyOf(r) !in records || IsIncomingNewer(records[KeyOf(r)], r)
  }

  function Replayed(m: Memory, r: Record, charge: Record -> nat): (m': Memory) {
    if r.id != [] && Applies(m.records, r) then Upserted(m, Normalised(r), charge) else m
  }

  /** One event: skipped when a checkpoint covers it, applied when it is newer. */
  function ReplayedEvent(m: Memory, s: Store, ckpts: map<Str, EventKey>, k: EventKey, charge: Record -> nat): (m': Memory)
    requires k in s.events
  {
    if Covered(k, ckpts) then m else Replayed(m, Incoming(k, s.events[k]), charge)
  }

  function ReplayedAll(m: Memory, s: Store, ckpts: map<Str, EventKey>, ks: seq<EventKey>, charge: Record -> nat): (m': Memory)
    requires forall k :: k in ks ==> k in s.events
  {
    if ks == [] then m
    else
      var n := |ks| - 1;
      assert forall k :: k in ks[..n] ==> k in ks;
      ReplayedEvent(ReplayedAll(m, s, ckpts, ks[..n], charge), s, ckpts, ks[n], charge)
  }

  lemma {:induction false} ReplayedAllCoherent(m: Memory, s: Store, ckpts: map<Str, EventKey>, ks: seq<EventKey>, charge: Record -> nat)
    requires Coherent(m, charge) && forall k :: k in ks ==> k in s.events
    ensures Coherent(ReplayedAll(m, s, ckpts, ks, charge), charge)
  {
    if ks != [] {
      var n := |ks| - 1;
      assert forall k :: k in ks[..n] ==> k in ks;
      ReplayedAllCoherent(m, s, ckpts, ks[..n], charge);
      var before := ReplayedAll(m, s, ckpts, ks[..n], charge);
      var r := Incoming(ks[n], s.events[ks[n]]);
      if r.id != [] && Applies(before.records, r) { UpsertedCoherent(before, Normalised(r), charge); }
    }
  }

  lemma CoveredLast(m: Memory, s: Store, ckpts: map<Str, EventKey>, ks: seq<EventKey>, charge: Record -> nat)
    requires ks != [] && forall k :: k in ks ==> k in s.events && Covered(k, ckpts)
    ensures forall k :: k in ks[..|ks| - 1] ==> k in s.events && Covered(k, ckpts)
    ensures ReplayedAll(m, s, ckpts, ks, charge) == ReplayedAll(m, s, ckpts, ks[..|ks| - 1], charge)
  {
    assert forall k :: k in ks[..|ks| - 1] ==> k in ks;
    assert ks[|ks| - 1] in ks;
  }

  /** Events that checkpoints cover change nothing. */
  lemma {:induction false} CoveredEventsChangeNothing(m: Memory, s: Store, ckpts: map<Str, EventKey>, ks: seq<EventKey>, charge: Record -> nat)
    requires forall k :: k in ks ==> k in s.events && Covered(k, ckpts)
    ensures ReplayedAll(m, s, ckpts, ks, charge) == m
  {
    if ks != [] {
      CoveredLast(m, s, ckpts, ks, charge);
      CoveredEventsChangeNothing(m, s, ckpts, ks[..|ks| - 1], charge);
    }
  }

  // ---- Replay is a last-writer-wins join ----

  function JoinedWith(records: map<RecKey, Record>, r: Record): (records': map<RecKey, Record>) {
    if r.id != [] && Applies(records, r) then records[KeyOf(r) := Normalised(r)] else records
  }

  function JoinedAll(records: map<RecKey, Record>, rs: seq<Record>): (records': map<RecKey, Record>) {
    if rs == [] then records else JoinedWith(JoinedAll(records, rs[..|rs| - 1]), rs[|rs| - 1])
  }

  function IncomingAll(s: Store, ks: seq<EventKey>): (rs: seq<Record>)
    requires forall k :: k in ks ==> k in s.events
    ensures |rs| == |ks|
  {
    seq(|ks|, i requires 0 <= i < |ks| => assert ks[i] in ks; Incoming(ks[i], s.events[ks[i]]))
  }

  lemma ReplayedIsJoined(m: Memory, r: Record, charge: Record -> nat)
    ensures Replayed(m, r, charge).records == JoinedWith(m.records, r)
  {
  }

  /** Without checkpoints the records after replay depend only on the records before and the events. */
  lemma ReplayIsJoin(m: Memory, s: Store, ks: seq<EventKey>, charge: Record -> nat)
    requires forall k :: k in ks ==> k in s.events
    ensures ReplayedAll(m, s, map[], ks, charge).records == JoinedAll(m.records, IncomingAll(s, ks))
  {
    assert forall i :: 0 <= i < |ks| ==> ks[i] in ks;
    ReplayJoins(m, s, ks, IncomingAll(s, ks), charge);
  }

  lemma LastReplayed(m: Memory, s: Store, ks: seq<EventKey>, charge: Record -> nat)
    requires ks != [] && forall k :: k in ks ==> k in s.events
    ensures forall k :: k in ks[..|ks| - 1] ==> k in s.events
    ensures ks[|ks| - 1] in s.events
    ensures ReplayedAll(m, s, map[], ks, charge)
         == Replayed(ReplayedAll(m, s, map[], ks[..|ks| - 1], charge), Incoming(ks[|ks| - 1], s.events[ks[|ks| - 1]]), charge)
  {
    assert forall k :: k in ks[..|ks| - 1] ==> k in ks;
  }

  lemma {:induction false} ReplayJoins(m: Memory, s: Store, ks: seq<EventKey>, rs: seq<Record>, charge: Record -> nat)
    requires |ks| == |rs| && forall k :: k in ks ==> k in s.events
    requires forall i :: 0 <= i < |ks| && ks[i] in s.events ==> rs[i] == Incoming(ks[i], s.events[ks[i]])
    ensures ReplayedAll(m, s, map[], ks, charge).records == JoinedAll(m.records, rs)
  {
    if ks != [] {
      var n := |ks| - 1;
      LastReplayed(m, s, ks, charge);
      ReplayJoins(m, s, ks[..n], rs[..n], charge);
      ReplayedIsJoined(ReplayedAll(m, s, map[], ks[..n], charge), rs[n], charge);
    }
  }

  predicate Names(r: Record, k: RecKey) {
    KeyOf(r) == k && r.id != []
  }

  /** At key k, `now` is the newest of what was there before and what came in; a newcomer wins only
      if it is strictly newer. */
  ghost predicate JoinAt(before: map<RecKey, Record>, rs: seq<Record>, now: map<RecKey, Record>, k: RecKey) {
    && (k in now <==> k in before || exists i :: 0 <= i < |rs| && Names(rs[i], k))
    && (k in now ==>
          && ((k in before && now[k] == before[k])
              || ((exists i :: 0 <= i < |rs| && Names(rs[i], k) && now[k] == Normalised(rs[i]))
                  && (k in before ==> IsIncomingNewer(before[k], now[k]))))
          && (forall i :: 0 <= i < |rs| && Names(rs[i], k) ==> !IsIncomingNewer(now[k], rs[i])))
  }

  /** Each record ends as the newest by update time, version and node of its row and its events. */
  lemma {:induction false} JoinIsLastWriterWins(before: map<RecKey, Record>, rs: seq<Record>, k: RecKey)
    ensures JoinAt(before, rs, JoinedAll(before, rs), k)
  {
    if rs != [] {
      var n := |rs| - 1;
      var mid := JoinedAll(before, rs[..n]);
      JoinIsLastWriterWins(before, rs[..n], k);
      JoinStep(before, rs, mid, k);
    }
  }

  lemma JoinStep(before: map<RecKey, Record>, rs: seq<Record>, mid: map<RecKey, Record>, k: RecKey)
    requires rs != [] && JoinAt(before, rs[..|rs| - 1], mid, k)
    ensures JoinAt(before, rs, JoinedWith(mid, rs[|rs| - 1]), k)
  {
    var n := |rs| - 1;
    var r, now := rs[n], JoinedWith(mid, rs[n]);
    if Names(r, k) && Applies(mid, r) {
      NewcomerWins(before, rs, mid, k);
    } else {
      assert k in now <==> k in mid || Names(r, k);
      if k in mid && (k !in before || mid[k] != before[k]) {
        var i :| 0 <= i < n && Names(rs[..n][i], k) && mid[k] == Normalised(rs[..n][i]);
        assert Names(rs[i], k);
      }
      forall i | 0 <= i < |rs| && Names(rs[i], k) && k in now ensures !IsIncomingNewer(now[k], rs[i]) {
        if i < n { assert Names(rs[..n][i], k); }
      }
      if k in mid && k !in before {
        var i :| 0 <= i < n && Names(rs[..n][i], k);
        assert Names(rs[i], k);
      }
      if i :| 0 <= i < |rs| && Names(rs[i], k) {
        if i < n { assert Names(rs[..n][i], k); }
      }
    }
  }

  lemma NewcomerWins(before: map<RecKey, Record>, rs: seq<Record>, mid: map<RecKey, Record>, k: RecKey)
    requires rs != [] && JoinAt(before, rs[..|rs| - 1], mid, k)
    requires Names(rs[|rs| - 1], k) && Applies(mid, rs[|rs| - 1])
    ensures JoinAt(before, rs, JoinedWith(mid, rs[|rs| - 1]), k)
  {
    var n := |rs| - 1;
    var r, now := rs[n], JoinedWith(mid, rs[n]);
    assert now[k] == Normalised(r);
    forall i | 0 <= i < |rs| && Names(rs[i], k) ensures !IsIncomingNewer(now[k], rs[i]) {
      StampOrder(r, now[k], rs[i]);
      if i < n {
        assert Names(rs[..n][i], k);
        NewerIsStrictOrder(mid[k], r, rs[i]);
        NewerIsStrictOrder(r, rs[i], mid[k]);
        NewerIsStrictOrder(rs[i], mid[k], r);
      } else {
        NewerIsStrictOrder(r, r, r);
      }
    }
    if k in before {
      StampOrder(r, now[k], before[k]);
      NewerIsStrictOrder(before[k], mid[k], r);
    }
  }

  /** The record that a replay in this order leaves under a key that had none: newer than every one
      before it, and none after it is newer. */
  ghost predicate IsWinner(rs: seq<Record>, k: RecKey, i: nat) {
    && i < |rs| && Names(rs[i], k)
    && (forall j :: 0 <= j < i && Names(rs[j], k) ==> IsIncomingNewer(rs[j], rs[i]))
    && (forall j :: i < j < |rs| && Names(rs[j], k) ==> !IsIncomingNewer(rs[i], rs[j]))
  }

  lemma {:induction false} WinnerStays(before: map<RecKey, Record>, rs: seq<Record>, k: RecKey) returns (i: nat)
    requires k !in before && k in JoinedAll(before, rs)
    ensures IsWinner(rs, k, i) && JoinedAll(before, rs)[k] == Normalised(rs[i])
  {
    var n := |rs| - 1;
    var mid := JoinedAll(before, rs[..n]);
    if k in mid {
      i := WinnerStays(before, rs[..n], k);
      StampOrder(rs[i], mid[k], rs[n]);
      if Names(rs[n], k) && Applies(mid, rs[n]) {
        LastWins(rs, k, i);
        i := n;
      }
    } else {
      JoinIsLastWriterWins(before, rs[..n], k);
      i := n;
      assert forall j :: 0 <= j < n && Names(rs[j], k) ==> Names(rs[..n][j], k);
    }
  }

  lemma LastWins(rs: seq<Record>, k: RecKey, i: nat)
    requires rs != [] && IsWinner(rs[..|rs| - 1], k, i)
    requires Names(rs[|rs| - 1], k) && IsIncomingNewer(rs[i], rs[|rs| - 1])
    ensures IsWinner(rs, k, |rs| - 1)
  {
    var n := |rs| - 1;
    forall j | 0 <= j < n && Names(rs[j], k) ensures IsIncomingNewer(rs[j], rs[n]) {
      assert Names(rs[..n][j], k);
      NewerIsStrictOrder(rs[j], rs[i], rs[n]);
      NewerIsStrictOrder(rs[i], rs[j], rs[n]);
      NewerIsStrictOrder(rs[j], rs[n], rs[i]);
      NewerIsStrictOrder(rs[n], rs[i], rs[j]);
      StampAgrees(rs[i], rs[j], rs[n]);
    }
  }

  lemma StampAgrees(a: Record, b: Record, c: Record)
    ensures SameStamp(a, b) && IsIncomingNewer(a, c) ==> IsIncomingNewer(b, c)
  {
  }

  /** Records with one stamp compare alike with any other. */
  lemma StampOrder(a: Record, b: Record, c: Record)
    requires SameStamp(a, b)
    ensures IsIncomingNewer(a, c) <==> IsIncomingNewer(b, c)
    ensures IsIncomingNewer(c, a) <==> IsIncomingNewer(c, b)
  {
  }

  ghost predicate DistinctStamps(rs: seq<Record>) {
    forall a, b :: a in rs && b in rs && a.id != [] && KeyOf(a) == KeyOf(b) && SameStamp(a, b) ==> a == b
  }

  /** The order in which events are replayed does not matter, when different events have different stamps. */
  lemma JoinIgnoresOrder(before: map<RecKey, Record>, a: seq<Record>, b: seq<Record>)
    requires Elements(a) == Elements(b) && DistinctStamps(a)
    ensures JoinedAll(before, a) == JoinedAll(before, b)
  {
    var x, y := JoinedAll(before, a), JoinedAll(before, b);
    forall k ensures (k in x <==> k in y) && (k in x && k in y ==> x[k] == y[k]) {
      JoinIsLastWriterWins(before, a, k);
      JoinIsLastWriterWins(before, b, k);
      SameNames(a, b, k);
      if k in x { SameWinner(before, a, x, b, y, k); }
    }
  }

  lemma SameNames(a: seq<Record>, b: seq<Record>, k: RecKey)
    requires Elements(a) == Elements(b)
    ensures (exists i :: 0 <= i < |a| && Names(a[i], k)) <==> exists i :: 0 <= i < |b| && Names(b[i], k)
  {
    if i :| 0 <= i < |a| && Names(a[i], k) {
      assert a[i] in Elements(b);
      var j :| 0 <= j < |b| && b[j] == a[i];
    }
    if i :| 0 <= i < |b| && Names(b[i], k) {
      assert b[i] in Elements(a);
      var j :| 0 <= j < |a| && a[j] == b[i];
    }
  }

  lemma SameWinner(before: map<RecKey, Record>, a: seq<Record>, x: map<RecKey, Record>, b: seq<Record>, y: map<RecKey, Record>, k: RecKey)
    requires Elements(a) == Elements(b) && DistinctStamps(a)
    requires JoinAt(before, a, x, k) && JoinAt(before, b, y, k) && k in x && k in y
    ensures x[k] == y[k]
  {
    NotOlder(before, a, x, b, y, k);
    NotOlder(before, b, y, a, x, k);
    NewerIsStrictOrder(x[k], y[k], x[k]);
    if !(k in before && x[k] == before[k]) && !(k in before && y[k] == before[k]) {
      var i :| 0 <= i < |a| && Names(a[i], k) && x[k] == Normalised(a[i]);
      var j :| 0 <= j < |b| && Names(b[j], k) && y[k] == Normalised(b[j]);
      assert b[j] in Elements(a);
      assert a[i] in a && b[j] in a && SameStamp(a[i], b[j]);
    }
  }

  lemma NotOlder(before: map<RecKey, Record>, a: seq<Record>, x: map<RecKey, Record>, b: seq<Record>, y: map<RecKey, Record>, k: RecKey)
    requires Elements(a) == Elements(b)
    requires JoinAt(before, a, x, k) && JoinAt(before, b, y, k) && k in x && k in y
    ensures !IsIncomingNewer(x[k], y[k])
  {
    if k in before && y[k] == before[k] {
      if x[k] != before[k] { NewerIsStrictOrder(before[k], x[k], before[k]); } else { NewerIsStrictOrder(x[k], x[k], x[k]); }
    } else {
      var j :| 0 <= j < |b| && Names(b[j], k) && y[k] == Normalised(b[j]);
      assert b[j] in Elements(a);
      var i :| 0 <= i < |a| && a[i] == b[j];
      assert Names(a[i], k);
      StampOrder(b[j], y[k], x[k]);
    }
  }

  /** A second replay changes nothing. */
  lemma JoinIsIdempotent(before: map<RecKey, Record>, rs: seq<Record>)
    ensures JoinedAll(JoinedAll(before, rs), rs) == JoinedAll(before, rs)
  {
    var now := JoinedAll(before, rs);
    forall i | 0 <= i < |rs| && rs[i].id != [] ensures !Applies(now, rs[i]) {
      JoinIsLastWriterWins(before, rs, KeyOf(rs[i]));
      assert Names(rs[i], KeyOf(rs[i]));
    }
    NothingApplies(now, rs);
  }

  lemma {:induction false} NothingApplies(now: map<RecKey, Record>, rs: seq<Record>)
    requires forall i :: 0 <= i < |rs| && rs[i].id != [] ==> !Applies(now, rs[i])
    ensures JoinedAll(now, rs) == now
  {
    if rs != [] { NothingApplies(now, rs[..|rs| - 1]); }
  }
}
