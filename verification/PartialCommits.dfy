/** A batch over several partitions can stop between two of them (src/store/eloqstore_adapter.cpp:
    324-343). What a restart finds when only some rows of one save were stored
    (src/core/memory_engine.cpp:310-360, 1032-1091, 1141-1204). */
module PartialCommits {
  import opened Bytes
  import opened Collections
  import opened EngineModel
  import opened Keys
  import opened Records
  import opened Recovery
  import opened Replay
  import opened Restarts

  /** Which of the rows that a warmup reads were stored. */
  datatype Kept = Kept(doc: bool, event: bool, ckpt: bool)

  function PartlySaved(s: Store, a: Action, kept: Kept): (s': Store) {
    s.(docs := if kept.doc then s.docs[KeyOf(a.record) := a.record] else s.docs,
       events := if kept.event then s.events[EventKeyOf(a) := EventOf(a)] else s.events,
       ckpts := if kept.ckpt then s.ckpts[a.record.workspaceId := EventKeyOf(a)] else s.ckpts)
  }

  /** Every checkpoint names an event of its workspace. */
  ghost predicate CkptsLogged(s: Store) {
    forall ws :: ws in s.ckpts ==> s.ckpts[ws] in s.events && s.ckpts[ws].workspaceId == ws
  }

  lemma {:induction false} BatchLogsCkpts(s: Store, resident: map<RecKey, Record>, actions: seq<Action>)
    requires CkptsLogged(s) && forall i :: 0 <= i < |actions| ==> actions[i].record.workspaceId != []
    ensures CkptsLogged(ActAll(s, resident, actions))
  {
    if actions != [] {
      var n := |actions| - 1;
      BatchLogsCkpts(s, resident, actions[..n]);
      ActParts(ActAll(s, resident, actions[..n]), resident, actions[n]);
    }
  }

  /** The next save after a store that a run left behind. */
  ghost predicate IsNext(a: Action, seqNo: nat, clockMs: nat, runStart: nat) {
    && a.Save? && Settled(KeyOf(a.record), a.record) && a.ts < UINT64_LIMIT && a.seqNo < UINT64_LIMIT
    && runStart <= a.ts && clockMs <= a.ts && (clockMs < runStart || seqNo < a.seqNo)
  }

  /** If all other events are covered, replay applies that one. */
  lemma {:induction false} OnlyOneReplays(m: Memory, s: Store, ckpts: map<Str, EventKey>, ks: seq<EventKey>, mine: EventKey, charge: Record -> nat)
    requires NoDuplicates(ks) && !Covered(mine, ckpts)
    requires forall k :: k in ks ==> k in s.events && (k != mine ==> Covered(k, ckpts))
    ensures mine in ks ==> mine in s.events
    ensures ReplayedAll(m, s, ckpts, ks, charge) == if mine in ks then Replayed(m, Incoming(mine, s.events[mine]), charge) else m
  {
    if ks != [] {
      var n := |ks| - 1;
      assert forall k :: k in ks[..n] ==> k in ks;
      assert ks == ks[..n] + [ks[n]];
      OnlyOneReplays(m, s, ckpts, ks[..n], mine, charge);
    }
  }

  lemma KeyLeIsAtMost(a: EventKey, b: EventKey)
    requires a.workspaceId == b.workspaceId
    requires a.ts < UINT64_LIMIT && a.seqNo < UINT64_LIMIT && b.ts < UINT64_LIMIT && b.seqNo < UINT64_LIMIT
    ensures KeyAtMost(a, b) <==> KeyLe(a, b)
  {
    EventKeyOrder(a.workspaceId, a.ts, a.seqNo, b.ts, b.seqNo);
  }

  /** The checkpoints cover every older event, and the new one exactly if its own was stored. */
  lemma OlderIsCovered(s: Store, a: Action, kept: Kept, k: EventKey, seqNo: nat, clockMs: nat, runStart: nat, opMs: nat)
    requires Sound(s, seqNo, clockMs, runStart, opMs) && IsNext(a, seqNo, clockMs, runStart) && k in s.events
    ensures k != EventKeyOf(a) && Covered(k, PartlySaved(s, a, kept).ckpts)
  {
    CheckpointCovers(s, seqNo, clockMs, runStart, k);
    if k.workspaceId == a.record.workspaceId { KeyLeIsAtMost(k, EventKeyOf(a)); }
  }

  lemma NewIsCovered(s: Store, a: Action, kept: Kept, seqNo: nat, clockMs: nat, runStart: nat, opMs: nat)
    requires Sound(s, seqNo, clockMs, runStart, opMs) && CkptsLogged(s) && IsNext(a, seqNo, clockMs, runStart)
    ensures Covered(EventKeyOf(a), PartlySaved(s, a, kept).ckpts) <==> kept.ckpt
  {
    var mine, ws := EventKeyOf(a), a.record.workspaceId;
    KeyLeIsAtMost(mine, mine);
    if ws in s.ckpts { KeyLeIsAtMost(mine, s.ckpts[ws]); }
  }

  lemma PartlyDocs(s: Store, a: Action, kept: Kept, opMs: nat)
    requires DocsInv(s.docs, opMs) && Settled(KeyOf(a.record), a.record) && a.record.lastAccessMs > 0
    ensures DocsInv(PartlySaved(s, a, kept).docs, Max(opMs, a.record.updatedAtMs))
  {
  }

  /** Loading, and then replaying the new event over the result. */
  lemma PartlyReplayed(s: Store, a: Action, kept: Kept, m: Memory, charge: Record -> nat)
    requires Settled(KeyOf(a.record), a.record) && m.records == PartlySaved(s, a, kept).docs
    ensures var mine := EventKeyOf(a);
      Replayed(m, Incoming(mine, EventOf(a)), charge).records
      == if kept.doc || Applies(s.docs, a.record) then s.docs[KeyOf(a.record) := a.record] else s.docs
  {
    assert Incoming(EventKeyOf(a), EventOf(a)) == a.record;
    NewerIsStrictOrder(a.record, a.record, a.record);
  }

  /** The save survives a restart if and only if its document was stored, or its event was stored
      without the checkpoint that hides it and is newer than the old document. Otherwise the old
      state is found; no other record is touched. */
  lemma PartialSaveSurvives(s: Store, a: Action, kept: Kept, docs: seq<RecKey>, events: seq<EventKey>, charge: Record -> nat,
                            seqNo: nat, clockMs: nat, runStart: nat, opMs: nat)
    requires Sound(s, seqNo, clockMs, runStart, opMs) && CkptsLogged(s) && IsNext(a, seqNo, clockMs, runStart)
    requires a.record.lastAccessMs > 0 && Returned(PartlySaved(s, a, kept), ALL_FOUND, docs, events)
    ensures var after := Reload(PartlySaved(s, a, kept), ALL_FOUND, docs, events, charge).records;
      after == if kept.doc || (kept.event && !kept.ckpt && Applies(s.docs, a.record)) then s.docs[KeyOf(a.record) := a.record] else s.docs
  {
    var s', mine := PartlySaved(s, a, kept), EventKeyOf(a);
    var m := ReloadedMemory(s', docs, charge);
    PartlyDocs(s, a, kept, opMs);
    LoadedIsSeen(s', ALL_FOUND, docs, events, Max(opMs, a.record.updatedAtMs), charge);
    forall k | k in events ensures k in s'.events && (k != mine ==> k in s.events && Covered(k, s'.ckpts)) {
      if k in s.events { OlderIsCovered(s, a, kept, k, seqNo, clockMs, runStart, opMs); }
    }
    NewIsCovered(s, a, kept, seqNo, clockMs, runStart, opMs);
    if mine in s.events { OlderIsCovered(s, a, kept, mine, seqNo, clockMs, runStart, opMs); }
    if kept.ckpt {
      CoveredEventsChangeNothing(m, s', s'.ckpts, events, charge);
    } else {
      OnlyOneReplays(m, s', s'.ckpts, events, mine, charge);
      PartlyReplayed(s, a, kept, m, charge);
    }
  }
}
