/** When a replay of the event log without checkpoints brings back deleted records only as tombstones:
    exactly when the log is laid to rest, and always if every operation starts later than the one
    before (src/core/memory_engine.cpp:164-172, 1141-1204, 1388-1429). */
module Graves {
  import opened Bytes
  import opened Collections
  import opened EngineModel
  import opened Keys
  import opened Records
  import opened Replay
  import opened Recovery
  import Postings

  /** p is older than d, or a copy of its stamp that is just as dead or alive. */
  predicate NotAfter(p: Record, d: Record) {
    IsIncomingNewer(p, d) || (SameStamp(p, d) && p.tombstone == d.tombstone)
  }

  /** The event buries p: a strictly newer tombstone of the same record. */
  ghost predicate Buries(g: EventKey, events: map<EventKey, Event>, p: Record) {
    g in events && KeyOf(events[g].payload) == KeyOf(p) && events[g].payload.tombstone && IsIncomingNewer(p, events[g].payload)
  }

  /** A logged record is not after its document; without a document, it is a tombstone or buried. */
  ghost predicate Accounted(p: Record, docs: map<RecKey, Record>, events: map<EventKey, Event>) {
    if KeyOf(p) in docs then NotAfter(p, docs[KeyOf(p)])
    else p.tombstone || exists g :: Buries(g, events, p)
  }

  ghost predicate GravesInv(docs: map<RecKey, Record>, events: map<EventKey, Event>) {
    forall k :: k in events ==> Accounted(events[k].payload, docs, events)
  }

  /** No record in the log is later than the last operation. */
  ghost predicate LoggedBy(events: map<EventKey, Event>, opMs: nat) {
    forall k :: k in events ==> events[k].payload.updatedAtMs <= opMs
  }

  /** Within an operation, only its own saves carry its time. */
  ghost predicate OwnStamps(events: map<EventKey, Event>, actions: seq<Action>, opMs: nat) {
    forall k :: k in events && events[k].payload.updatedAtMs >= opMs ==>
      events[k].payload.updatedAtMs == opMs
      && exists j :: 0 <= j < |actions| && actions[j].Save? && actions[j].record == events[k].payload
  }

  lemma AccountedGrows(p: Record, docs: map<RecKey, Record>, events: map<EventKey, Event>, docs': map<RecKey, Record>,
                       mine: EventKey, e: Event)
    requires Accounted(p, docs, events) && mine !in events
    requires KeyOf(p) in docs' <==> KeyOf(p) in docs
    requires KeyOf(p) in docs' ==> docs'[KeyOf(p)] == docs[KeyOf(p)]
    ensures Accounted(p, docs', events[mine := e])
  {
    if KeyOf(p) !in docs && !p.tombstone {
      var g :| Buries(g, events, p);
      assert Buries(g, events[mine := e], p);
    }
  }

  lemma SaveKeepsGraves(docs: map<RecKey, Record>, events: map<EventKey, Event>, mine: EventKey, e: Event, r: Record)
    requires GravesInv(docs, events) && mine !in events && e.payload == r
    requires forall k :: k in events && KeyOf(events[k].payload) == KeyOf(r) ==> NotAfter(events[k].payload, r)
    ensures GravesInv(docs[KeyOf(r) := r], events[mine := e])
  {
    var docs', events' := docs[KeyOf(r) := r], events[mine := e];
    forall k | k in events' ensures Accounted(events'[k].payload, docs', events') {
      if k != mine && KeyOf(events[k].payload) != KeyOf(r) {
        assert Accounted(events[k].payload, docs, events);
        AccountedGrows(events[k].payload, docs, events, docs', mine, e);
      }
    }
  }

  lemma EraseKeepsGraves(docs: map<RecKey, Record>, events: map<EventKey, Event>, mine: EventKey, e: Event, r: Record)
    requires GravesInv(docs, events) && mine !in events && e.payload == r && r.tombstone
    requires KeyOf(r) in docs && SameStamp(docs[KeyOf(r)], r) && docs[KeyOf(r)].tombstone
    ensures GravesInv(docs - {KeyOf(r)}, events[mine := e])
  {
    var docs', events' := docs - {KeyOf(r)}, events[mine := e];
    forall k | k in events' ensures Accounted(events'[k].payload, docs', events') {
      var p := events'[k].payload;
      if k != mine {
        assert Accounted(p, docs, events);
        if KeyOf(p) != KeyOf(r) {
          AccountedGrows(p, docs, events, docs', mine, e);
        } else if !p.tombstone {
          StampOrder(docs[KeyOf(r)], r, p);
          assert Buries(mine, events', p);
        }
      }
    }
  }

  /** A committed batch of an operation later than everything logged keeps every record accounted for. */
  lemma {:induction false} BatchKeepsGraves(s: Store, resident: map<RecKey, Record>, actions: seq<Action>, before: nat, opMs: nat,
                                            seqNo: nat, clockMs: nat, runStart: nat, seqNo': nat, clockMs': nat)
    requires LogInv(s.events, s.ckpts, seqNo, clockMs, runStart) && PayloadsKeyed(s.events)
    requires runStart <= opMs && clockMs <= opMs <= clockMs' && seqNo <= seqNo'
    requires Stamped(actions, resident, opMs, seqNo, seqNo', clockMs')
    requires forall k :: k in resident ==> HasKey(resident[k])
    requires GravesInv(s.docs, s.events) && LoggedBy(s.events, before) && before < opMs
    requires ResidentInv(resident, s.docs) && DocsInv(s.docs, before)
    ensures var s' := ActAll(s, resident, actions);
      GravesInv(s'.docs, s'.events) && OwnStamps(s'.events, actions, opMs)
  {
    if actions != [] {
      var n := |actions| - 1;
      var q, c := if n == 0 then seqNo else actions[n - 1].seqNo, if n == 0 then opMs else actions[n - 1].ts;
      StampedPrefix(actions, resident, opMs, seqNo, seqNo', clockMs');
      NextStamp(actions, resident, opMs, seqNo, seqNo', clockMs');
      BatchKeepsLog(s, resident, actions[..n], opMs, seqNo, clockMs, runStart, q, c);
      BatchKeepsGraves(s, resident, actions[..n], before, opMs, seqNo, clockMs, runStart, q, c);
      var s' := ActAll(s, resident, actions[..n]);
      ActKeepsLog(s', resident, actions[n], q, c, runStart);
      GraveStep(s, s', resident, actions, before, opMs, seqNo, seqNo', clockMs');
    }
  }

  lemma GraveStep(s: Store, s': Store, resident: map<RecKey, Record>, actions: seq<Action>, before: nat, opMs: nat,
                  seqNo: nat, seqNo': nat, clockMs': nat)
    requires actions != [] && s' == ActAll(s, resident, actions[..|actions| - 1])
    requires Stamped(actions, resident, opMs, seqNo, seqNo', clockMs')
    requires GravesInv(s'.docs, s'.events) && OwnStamps(s'.events, actions[..|actions| - 1], opMs) && before < opMs
    requires EventKeyOf(actions[|actions| - 1]) !in s'.events
    requires ResidentInv(resident, s.docs) && DocsInv(s.docs, before)
    ensures var s'' := Act(s', resident, actions[|actions| - 1]);
      GravesInv(s''.docs, s''.events) && OwnStamps(s''.events, actions, opMs)
  {
    var n := |actions| - 1;
    var a := actions[n];
    ActParts(s', resident, a);
    assert WellFormed(a, resident, opMs);
    if a.Save? {
      forall k | k in s'.events && KeyOf(s'.events[k].payload) == KeyOf(a.record) ensures NotAfter(s'.events[k].payload, a.record) {
        OwnRepeat(s'.events, actions, opMs, k);
      }
      SaveKeepsGraves(s'.docs, s'.events, EventKeyOf(a), EventOf(a), a.record);
    } else {
      UntouchedByOthers(s, resident, actions);
      EraseKeepsGraves(s'.docs, s'.events, EventKeyOf(a), EventOf(a), a.record);
    }
    OwnStampsGrow(s'.events, actions, resident, s.docs, before, opMs);
  }

  lemma OwnRepeat(events: map<EventKey, Event>, actions: seq<Action>, opMs: nat, k: EventKey)
    requires actions != [] && OwnStamps(events, actions[..|actions| - 1], opMs) && k in events
    requires var a := actions[|actions| - 1];
      a.Save? && a.record.updatedAtMs == opMs && KeyOf(events[k].payload) == KeyOf(a.record)
    requires forall i, j :: 0 <= i < j < |actions| ==> MayRepeat(actions[i], actions[j])
    ensures NotAfter(events[k].payload, actions[|actions| - 1].record)
  {
    var n := |actions| - 1;
    if events[k].payload.updatedAtMs >= opMs {
      var j :| 0 <= j < n && actions[..n][j].Save? && actions[..n][j].record == events[k].payload;
      assert MayRepeat(actions[j], actions[n]);
    }
  }

  lemma UntouchedByOthers(s: Store, resident: map<RecKey, Record>, actions: seq<Action>)
    requires actions != [] && actions[|actions| - 1].Erase? && Postings.WellKeyed(s.docs)
    requires forall i, j :: 0 <= i < j < |actions| ==> MayRepeat(actions[i], actions[j])
    ensures var n, k := |actions| - 1, KeyOf(actions[|actions| - 1].record);
      var s' := ActAll(s, resident, actions[..n]);
      (k in s'.docs <==> k in s.docs) && (k in s.docs ==> s'.docs[k] == s.docs[k])
  {
    var n := |actions| - 1;
    forall a | a in actions[..n] ensures KeyOf(a.record) != KeyOf(actions[n].record) {
      var i :| 0 <= i < n && actions[i] == a;
      assert MayRepeat(actions[i], actions[n]);
    }
    Postings.OtherDocsUntouched(s, resident, actions[..n], KeyOf(actions[n].record));
  }

  lemma OwnStampsGrow(events: map<EventKey, Event>, actions: seq<Action>, resident: map<RecKey, Record>, docs: map<RecKey, Record>,
                      before: nat, opMs: nat)
    requires actions != [] && OwnStamps(events, actions[..|actions| - 1], opMs)
    requires WellFormed(actions[|actions| - 1], resident, opMs)
    requires ResidentInv(resident, docs) && DocsInv(docs, before) && before < opMs
    ensures var a := actions[|actions| - 1]; OwnStamps(events[EventKeyOf(a) := EventOf(a)], actions, opMs)
  {
    var n := |actions| - 1;
    var a := actions[n];
    var events' := events[EventKeyOf(a) := EventOf(a)];
    if a.Erase? {
      assert docs[KeyOf(a.record)].updatedAtMs == a.record.updatedAtMs;
    }
    forall k | k in events' && events'[k].payload.updatedAtMs >= opMs
      ensures events'[k].payload.updatedAtMs == opMs
      ensures exists j :: 0 <= j < |actions| && actions[j].Save? && actions[j].record == events'[k].payload
    {
      if k != EventKeyOf(a) {
        var j :| 0 <= j < n && actions[..n][j].Save? && actions[..n][j].record == events[k].payload;
        assert actions[j].Save? && actions[j].record == events'[k].payload;
      } else {
        assert actions[n].Save? && actions[n].record == events'[k].payload;
      }
    }
  }

  // ---- What replaying the whole log then gives ----

  /** The documents are as they were, and whatever else is there is a tombstone. */
  ghost predicate RaisesNoDead(docs: map<RecKey, Record>, after: map<RecKey, Record>) {
    && (forall k :: k in docs ==> k in after && after[k] == docs[k])
    && forall k :: k in after && k !in docs ==> after[k].tombstone
  }

  /** In this order the i-th record stays down: it is not newer than its document; without one, it
      is a tombstone, or one beats it that is newer or of the same stamp and earlier in line. */
  ghost predicate RestsAt(docs: map<RecKey, Record>, rs: seq<Record>, i: nat)
    requires i < |rs|
  {
    var k := KeyOf(rs[i]);
    if k in docs then !IsIncomingNewer(docs[k], rs[i])
    else rs[i].tombstone || exists j: nat :: Outlasts(rs, j, i)
  }

  predicate Outlasts(rs: seq<Record>, j: nat, i: nat)
    requires i < |rs|
  {
    && j < |rs| && Names(rs[j], KeyOf(rs[i])) && rs[j].tombstone
    && (IsIncomingNewer(rs[i], rs[j]) || (j < i && SameStamp(rs[i], rs[j])))
  }

  /** A replay in a given order raises no dead if and only if every record in it stays down. */
  lemma OrderRaisesNoDead(docs: map<RecKey, Record>, rs: seq<Record>)
    ensures RaisesNoDead(docs, JoinedAll(docs, rs)) <==> forall i :: 0 <= i < |rs| && rs[i].id != [] ==> RestsAt(docs, rs, i)
  {
    var after := JoinedAll(docs, rs);
    if RaisesNoDead(docs, after) {
      forall i | 0 <= i < |rs| && rs[i].id != [] ensures RestsAt(docs, rs, i) { StaysDown(docs, rs, i); }
    }
    if forall i :: 0 <= i < |rs| && rs[i].id != [] ==> RestsAt(docs, rs, i) {
      forall k ensures k in docs ==> k in after && after[k] == docs[k] {
        JoinIsLastWriterWins(docs, rs, k);
        if k in docs && after[k] != docs[k] {
          var i :| 0 <= i < |rs| && Names(rs[i], k) && after[k] == Normalised(rs[i]);
          StampOrder(rs[i], after[k], docs[k]);
        }
      }
      forall k | k in after && k !in docs ensures after[k].tombstone { WinnerIsDead(docs, rs, k); }
    }
  }

  lemma StaysDown(docs: map<RecKey, Record>, rs: seq<Record>, i: nat)
    requires i < |rs| && rs[i].id != [] && RaisesNoDead(docs, JoinedAll(docs, rs))
    ensures RestsAt(docs, rs, i)
  {
    var k := KeyOf(rs[i]);
    JoinIsLastWriterWins(docs, rs, k);
    assert Names(rs[i], k);
    if k !in docs && !rs[i].tombstone {
      var j := WinnerStays(docs, rs, k);
      assert rs[j].tombstone && Names(rs[i], k);
      NewerIsStrictOrder(rs[i], rs[j], rs[i]);
      assert Outlasts(rs, j, i);
    }
  }

  lemma WinnerIsDead(docs: map<RecKey, Record>, rs: seq<Record>, k: RecKey)
    requires k !in docs && k in JoinedAll(docs, rs)
    requires forall i :: 0 <= i < |rs| && rs[i].id != [] ==> RestsAt(docs, rs, i)
    ensures JoinedAll(docs, rs)[k].tombstone
  {
    var i := WinnerStays(docs, rs, k);
    assert RestsAt(docs, rs, i);
    if !rs[i].tombstone {
      var j: nat :| Outlasts(rs, j, i);
      NewerIsStrictOrder(rs[i], rs[j], rs[i]);
      NewerIsStrictOrder(rs[j], rs[i], rs[j]);
    }
  }

  /** No logged record is newer than its document; without a document, it is a tombstone or buried. */
  ghost predicate LaidToRest(docs: map<RecKey, Record>, events: map<EventKey, Event>) {
    forall k :: k in events ==> Rests(events[k].payload, docs, events)
  }

  ghost predicate Rests(p: Record, docs: map<RecKey, Record>, events: map<EventKey, Event>) {
    if KeyOf(p) in docs then !IsIncomingNewer(docs[KeyOf(p)], p)
    else p.tombstone || exists g :: Buries(g, events, p)
  }

  lemma GravesRest(docs: map<RecKey, Record>, events: map<EventKey, Event>)
    requires GravesInv(docs, events)
    ensures LaidToRest(docs, events)
  {
    forall k | k in events ensures Rests(events[k].payload, docs, events) {
      var p := events[k].payload;
      assert Accounted(p, docs, events);
      if KeyOf(p) in docs { NewerIsStrictOrder(p, docs[KeyOf(p)], p); NewerIsStrictOrder(docs[KeyOf(p)], p, p); }
    }
  }

  /** Every event, once each, in some order. */
  ghost predicate IsOrder(ks: seq<EventKey>, events: map<EventKey, Event>) {
    NoDuplicates(ks) && forall k :: k in ks <==> k in events
  }

  /** Replaying the log without checkpoints over the stored documents. */
  ghost predicate OrderIsHarmless(docs: map<RecKey, Record>, s: Store, ks: seq<EventKey>) {
    IsOrder(ks, s.events) && RaisesNoDead(docs, JoinedAll(docs, IncomingAll(s, ks)))
  }

  /** In every order a replay leaves each document as it is and brings back nothing but tombstones,
      if and only if no record in the log is newer than its document, and each live one without a
      document is strictly older than a tombstone of it. */
  lemma ReplayRaisesNoDead(docs: map<RecKey, Record>, s: Store)
    requires PayloadsKeyed(s.events)
    ensures LaidToRest(docs, s.events) <==> forall ks :: IsOrder(ks, s.events) ==> OrderIsHarmless(docs, s, ks)
  {
    if LaidToRest(docs, s.events) {
      forall ks | IsOrder(ks, s.events) ensures OrderIsHarmless(docs, s, ks) { RestIsHarmless(docs, s, ks); }
    }
    if forall ks :: IsOrder(ks, s.events) ==> OrderIsHarmless(docs, s, ks) {
      forall k | k in s.events ensures Rests(s.events[k].payload, docs, s.events) {
        var ks := OrderFrom(s.events, k);
        assert OrderIsHarmless(docs, s, ks);
        FirstRests(docs, s, ks);
      }
    }
  }

  lemma Payloads(s: Store, ks: seq<EventKey>)
    requires PayloadsKeyed(s.events) && forall k :: k in ks ==> k in s.events
    ensures forall i :: 0 <= i < |ks| ==> ks[i] in s.events && IncomingAll(s, ks)[i] == s.events[ks[i]].payload && HasKey(s.events[ks[i]].payload)
  {
    forall i | 0 <= i < |ks|
      ensures ks[i] in s.events && IncomingAll(s, ks)[i] == s.events[ks[i]].payload && HasKey(s.events[ks[i]].payload)
    {
      assert ks[i] in ks;
    }
  }

  lemma RestIsHarmless(docs: map<RecKey, Record>, s: Store, ks: seq<EventKey>)
    requires PayloadsKeyed(s.events) && LaidToRest(docs, s.events) && forall k :: k in ks <==> k in s.events
    ensures RaisesNoDead(docs, JoinedAll(docs, IncomingAll(s, ks)))
  {
    var rs := IncomingAll(s, ks);
    Payloads(s, ks);
    forall i | 0 <= i < |rs| && rs[i].id != [] ensures RestsAt(docs, rs, i) {
      assert Rests(s.events[ks[i]].payload, docs, s.events);
      if KeyOf(rs[i]) !in docs && !rs[i].tombstone {
        var g :| Buries(g, s.events, rs[i]);
        assert g in ks;
        var j :| 0 <= j < |ks| && ks[j] == g;
        assert Outlasts(rs, j, i);
      }
    }
    OrderRaisesNoDead(docs, rs);
  }

  lemma OrderFrom(events: map<EventKey, Event>, first: EventKey) returns (ks: seq<EventKey>)
    requires first in events
    ensures IsOrder(ks, events) && ks != [] && ks[0] == first
  {
    var rest := Enumeration(events.Keys - {first});
    ks := [first] + rest;
  }

  lemma FirstRests(docs: map<RecKey, Record>, s: Store, ks: seq<EventKey>)
    requires PayloadsKeyed(s.events) && OrderIsHarmless(docs, s, ks) && ks != []
    ensures ks[0] in s.events && Rests(s.events[ks[0]].payload, docs, s.events)
  {
    var rs := IncomingAll(s, ks);
    Payloads(s, ks);
    OrderRaisesNoDead(docs, rs);
    assert RestsAt(docs, rs, 0);
    if KeyOf(rs[0]) !in docs && !rs[0].tombstone {
      var j: nat :| Outlasts(rs, j, 0);
      assert Buries(ks[j], s.events, rs[0]);
    }
  }
}
