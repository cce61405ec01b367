/** Which records the resident limit pushes out of memory (src/core/memory_engine.cpp:940-1030). */
module Eviction {
  import opened Bytes
  import opened Collections
  import opened EngineModel
  import opened Keys
  import opened Records

  /** Lower rank first, then the earlier update. */
  predicate GoesBefore(a: Record, b: Record, nowMs: nat, log1p: real -> real) {
    var ra, rb := EvictionRank(a, nowMs, log1p), EvictionRank(b, nowMs, log1p);
    ra < rb || (ra == rb && a.updatedAtMs <= b.updatedAtMs)
  }

  lemma GoesBeforeIsTotal(a: Record, b: Record, c: Record, nowMs: nat, log1p: real -> real)
    ensures GoesBefore(a, b, nowMs, log1p) || GoesBefore(b, a, nowMs, log1p)
    ensures GoesBefore(a, b, nowMs, log1p) && GoesBefore(b, c, nowMs, log1p) ==> GoesBefore(a, c, nowMs, log1p)
  {
  }

  function Unpinned(records: map<RecKey, Record>): (ks: set<RecKey>) {
    set k | k in records && !records[k].pinned
  }

  /** Unprotected records go before protected ones, and otherwise by rank. */
  predicate Precedes(k: RecKey, x: RecKey, records: map<RecKey, Record>, protectedKeys: set<RecKey>, nowMs: nat, log1p: real -> real)
    requires k in records && x in records
  {
    if k in protectedKeys <==> x in protectedKeys then GoesBefore(records[k], records[x], nowMs, log1p) else x in protectedKeys
  }

  /** The record may go next: it is unpinned, and no other unpinned one has to go before it. */
  ghost predicate IsVictim(k: RecKey, records: map<RecKey, Record>, protectedKeys: set<RecKey>, nowMs: nat, log1p: real -> real) {
    && k in Unpinned(records)
    && forall x :: x in Unpinned(records) ==> Precedes(k, x, records, protectedKeys, nowMs, log1p)
  }

  /** Which records may go, given the resident ones and the time. */
  type Choice = (map<RecKey, Record>, nat) -> set<RecKey>

  ghost function ChoiceOf(protectedKeys: set<RecKey>, log1p: real -> real): (may: Choice) {
    (records: map<RecKey, Record>, nowMs: nat) => set k | k in records && IsVictim(k, records, protectedKeys, nowMs, log1p)
  }

  ghost predicate OnlyUnpinned(may: Choice) {
    forall records: map<RecKey, Record>, nowMs: nat, k: RecKey :: k in may(records, nowMs) ==> k in records && !records[k].pinned
  }

  lemma ChoiceOfUnpinned(protectedKeys: set<RecKey>, log1p: real -> real)
    ensures OnlyUnpinned(ChoiceOf(protectedKeys, log1p))
  {
  }

  function EvictedAll(m: Memory, victims: seq<RecKey>): (m': Memory) {
    if victims == [] then m else Dropped(EvictedAll(m, victims[..|victims| - 1]), victims[|victims| - 1])
  }

  /** One round: above the limit, one record that may go. */
  ghost predicate Round(before: Memory, k: RecKey, limit: nat, may: Choice, nowMs: nat) {
    before.used > limit && k in may(before.records, nowMs)
  }

  /** Victims leave one at a time, each while the counter is above the limit. Each round reads the
      clock once. */
  ghost predicate EvictionPath(m: Memory, victims: seq<RecKey>, limit: nat, may: Choice, clock: nat -> nat, tick: nat) {
    victims == []
    || (var n := |victims| - 1;
        && EvictionPath(m, victims[..n], limit, may, clock, tick)
        && Round(EvictedAll(m, victims[..n]), victims[n], limit, may, clock(tick + n)))
  }

  lemma PathGoesOn(m: Memory, victims: seq<RecKey>, k: RecKey, limit: nat, may: Choice, clock: nat -> nat, tick: nat,
                   before: Memory, nowMs: nat)
    requires EvictionPath(m, victims, limit, may, clock, tick)
    requires before == EvictedAll(m, victims) && nowMs == clock(tick + |victims|)
    requires before.used > limit && k in may(before.records, nowMs)
    ensures EvictionPath(m, victims + [k], limit, may, clock, tick)
    ensures EvictedAll(m, victims + [k]) == Dropped(before, k)
  {
    assert (victims + [k])[..|victims|] == victims;
  }

  /** It ends when the counter is at the limit or only pinned records remain. */
  ghost predicate EvictionRun(m: Memory, m': Memory, victims: seq<RecKey>, limit: nat, may: Choice, clock: nat -> nat, tick: nat) {
    && EvictionPath(m, victims, limit, may, clock, tick)
    && m' == EvictedAll(m, victims)
    && (m'.used <= limit || Unpinned(m'.records) == {})
  }

  ghost predicate Enforced(m: Memory, m': Memory, limit: nat, protectedKeys: set<RecKey>, clock: nat -> nat, tick: nat,
                           log1p: real -> real)
  {
    if limit == 0 then m' == m
    else exists victims :: EvictionRun(m, m', victims, limit, ChoiceOf(protectedKeys, log1p), clock, tick)
  }

  ghost function IsEnforced(m: Memory, m': Memory, limit: nat, protectedKeys: set<RecKey>, clock: nat -> nat, tick: nat,
                            log1p: real -> real): Verdict
  {
    Judge(Enforced(m, m', limit, protectedKeys, clock, tick, log1p))
  }

  /** What is left is what was there, minus unpinned records. */
  ghost predicate Sheds(m: Memory, m': Memory) {
    && m'.records.Keys <= m.records.Keys
    && (forall k :: k in m'.records ==> m'.records[k] == m.records[k])
    && (forall k :: k in m.records && m.records[k].pinned ==> k in m'.records)
    && m'.dedup == m.dedup
  }

  /** What eviction keeps, as one value. */
  ghost function Kept(m: Memory, m': Memory, charge: Record -> nat): Verdict {
    Judge(Coherent(m', charge) && Sheds(m, m'))
  }

  lemma DroppedIsKept(m: Memory, m': Memory, k: RecKey, charge: Record -> nat)
    requires Kept(m, m', charge) == Yes && k in m'.records && !m'.records[k].pinned
    ensures Kept(m, Dropped(m', k), charge) == Yes
  {
    DroppedCoherent(m', k, charge);
    DroppedSheds(m, m', k);
  }

  lemma DroppedSheds(m: Memory, m': Memory, k: RecKey)
    requires Sheds(m, m') && k in m'.records && !m'.records[k].pinned
    ensures Sheds(m, Dropped(m', k))
  {
  }

  /** The last round of an eviction, and when it was. */
  lemma LastRound(m: Memory, victims: seq<RecKey>, limit: nat, may: Choice, clock: nat -> nat, tick: nat) returns (nowMs: nat)
    requires victims != [] && EvictionPath(m, victims, limit, may, clock, tick)
    ensures EvictionPath(m, victims[..|victims| - 1], limit, may, clock, tick)
    ensures Round(EvictedAll(m, victims[..|victims| - 1]), victims[|victims| - 1], limit, may, nowMs)
    ensures EvictedAll(m, victims) == Dropped(EvictedAll(m, victims[..|victims| - 1]), victims[|victims| - 1])
  {
    nowMs := clock(tick + (|victims| - 1));
  }

  lemma RoundIsUnpinned(before: Memory, k: RecKey, limit: nat, may: Choice, nowMs: nat)
    requires OnlyUnpinned(may) && Round(before, k, limit, may, nowMs)
    ensures before.used > limit && k in before.records && !before.records[k].pinned
  {
  }

  lemma {:induction false} EvictionPathKeeps(m: Memory, victims: seq<RecKey>, limit: nat, may: Choice, clock: nat -> nat, tick: nat,
                                             charge: Record -> nat)
    requires EvictionPath(m, victims, limit, may, clock, tick) && OnlyUnpinned(may) && Kept(m, m, charge) == Yes
    ensures Kept(m, EvictedAll(m, victims), charge) == Yes && (victims != [] ==> m.used > limit)
  {
    if victims != [] {
      var n := |victims| - 1;
      var nowMs := LastRound(m, victims, limit, may, clock, tick);
      EvictionPathKeeps(m, victims[..n], limit, may, clock, tick, charge);
      RoundIsUnpinned(EvictedAll(m, victims[..n]), victims[n], limit, may, nowMs);
      DroppedIsKept(m, EvictedAll(m, victims[..n]), victims[n], charge);
    }
  }

  /** Eviction removes only unpinned records and keeps the books. */
  lemma EvictionPathSheds(m: Memory, victims: seq<RecKey>, limit: nat, may: Choice, clock: nat -> nat, tick: nat, charge: Record -> nat)
    requires EvictionPath(m, victims, limit, may, clock, tick) && Coherent(m, charge) && OnlyUnpinned(may)
    ensures Coherent(EvictedAll(m, victims), charge) && Sheds(m, EvictedAll(m, victims))
    ensures victims != [] ==> m.used > limit
  {
    EvictionPathKeeps(m, victims, limit, may, clock, tick, charge);
  }

  /** It removes exactly its victims, each once. */
  lemma {:induction false} EvictionPathRemoves(m: Memory, victims: seq<RecKey>, limit: nat, may: Choice, clock: nat -> nat, tick: nat)
    requires EvictionPath(m, victims, limit, may, clock, tick) && OnlyUnpinned(may)
    ensures EvictedAll(m, victims).records == m.records - Elements(victims) && NoDuplicates(victims)
  {
    if victims == [] {
      assert m.records - Elements(victims) == m.records;
    } else {
      var n := |victims| - 1;
      var nowMs := LastRound(m, victims, limit, may, clock, tick);
      RoundIsUnpinned(EvictedAll(m, victims[..n]), victims[n], limit, may, nowMs);
      EvictionPathRemoves(m, victims[..n], limit, may, clock, tick);
      LastVictim(m.records, victims);
    }
  }

  lemma LastVictim(records: map<RecKey, Record>, victims: seq<RecKey>)
    requires victims != [] && NoDuplicates(victims[..|victims| - 1])
    requires victims[|victims| - 1] in records - Elements(victims[..|victims| - 1])
    ensures records - Elements(victims[..|victims| - 1]) - {victims[|victims| - 1]} == records - Elements(victims)
    ensures NoDuplicates(victims)
  {
    var n := |victims| - 1;
    assert victims == victims[..n] + [victims[n]];
    assert Elements(victims) == Elements(victims[..n]) + {victims[n]};
  }

  /** A whole run also stops at the limit, or with pinned records only, and does nothing within it. */
  lemma EvictionRunSheds(m: Memory, m': Memory, victims: seq<RecKey>, limit: nat, may: Choice, clock: nat -> nat, tick: nat,
                         charge: Record -> nat)
    requires EvictionRun(m, m', victims, limit, may, clock, tick) && Coherent(m, charge) && OnlyUnpinned(may)
    ensures Coherent(m', charge) && Sheds(m, m')
    ensures m'.records == m.records - Elements(victims) && NoDuplicates(victims)
    ensures m'.used <= limit || Unpinned(m'.records) == {}
    ensures m.used <= limit ==> m' == m
  {
    EvictionPathSheds(m, victims, limit, may, clock, tick, charge);
    EvictionPathRemoves(m, victims, limit, may, clock, tick);
  }

  lemma EnforcedSheds(m: Memory, m': Memory, limit: nat, protectedKeys: set<RecKey>, clock: nat -> nat, tick: nat,
                      log1p: real -> real, charge: Record -> nat)
    requires Enforced(m, m', limit, protectedKeys, clock, tick, log1p) && Coherent(m, charge)
    ensures Coherent(m', charge) && Sheds(m, m')
    ensures limit == 0 || m'.used <= limit || Unpinned(m'.records) == {}
  {
    if limit != 0 {
      var may := ChoiceOf(protectedKeys, log1p);
      var victims :| EvictionRun(m, m', victims, limit, may, clock, tick);
      ChoiceOfUnpinned(protectedKeys, log1p);
      EvictionRunSheds(m, m', victims, limit, may, clock, tick, charge);
    }
  }
}
