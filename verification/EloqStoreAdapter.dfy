/** The partitioned persistent store (src/store/eloqstore_adapter.cpp:122-443, 567-666).

    Requests to EloqStore are all-or-nothing per partition; whether one fails is an input, as are
    the partition directories found on disk. */
module EloqStoreAdapter {
  import opened Bytes
  import opened Collections
  import opened FlatStore
  import opened PartitionRouting
  import opened PartitionModel
  import opened LayoutModel
  import opened MergedScan
  import opened LayoutPlan
  import opened StoreScans

  datatype LayoutMeta = NoMeta | LayoutMeta(partitionCount: nat, routingSchema: Str)

  const ROUTING_SCHEMA: Str := Lit("balanced_workspace_record")

  class EloqStoreAdapter {
    const hash: Str -> nat
    const numPartitions: nat
    var started: bool
    var parts: Parts
    var meta: LayoutMeta

    constructor (hash: Str -> nat, configured: nat, parts: Parts, meta: LayoutMeta)
      ensures this.hash == hash && this.parts == parts && this.meta == meta && !started
      ensures numPartitions == if configured == 0 then 1 else configured
    {
      this.hash := hash;
      this.numPartitions := if configured == 0 then 1 else configured;
      this.parts, this.meta, this.started := parts, meta, false;
    }

    /** One write request: EloqStore wants its keys strictly ascending. */
    method ExecBatch(pid: nat, ds: seq<WriteData>, fails: bool) returns (ok: bool)
      requires KeysAscend(ds)
      modifies this`parts
      ensures ok == !fails
      ensures parts == if ok then old(parts)[pid := ApplyBatch(Part(old(parts), pid), ds)] else old(parts)
    {
      ok := !fails;
      if ok {
        parts := parts[pid := ApplyBatch(Part(parts, pid), ds)];
      }
    }

    method Get(ns: Str, key: Str) returns (found: bool, value: Str)
      requires numPartitions >= 1
      ensures found <==> started && At(parts, ResolvePartitionId(hash, numPartitions, ns, key), ComposeKey(ns, key))
      ensures found ==> value == parts[ResolvePartitionId(hash, numPartitions, ns, key)][ComposeKey(ns, key)].value
    {
      if !started { return false, []; }
      var table := Part(parts, ResolvePartitionId(hash, numPartitions, ns, key));
      var full := ComposeKey(ns, key);
      if full !in table { return false, []; }
      return true, table[full].value;
    }

    // ---- Batches ----

    method BatchWrite(entries: seq<WriteEntry>, fails: nat -> bool) returns (ok: bool)
      requires numPartitions >= 1
      modifies this`parts
      ensures !started ==> !ok && parts == old(parts)
      ensures started ==>
        var rs := RouteAll(hash, numPartitions, entries);
        && (ok <==> forall i :: 0 <= i < |rs| ==> !fails(rs[i].pid))
        && Written(old(parts), parts, rs, fails)
    {
      if !started { return false; }
      var batches := GroupByPartition(entries);
      ok := CommitBatches(batches, fails, RouteAll(hash, numPartitions, entries));
    }

    /** One request per partition, in ascending order; the first failure stops the rest. */
    method CommitBatches(batches: map<nat, map<Str, WriteData>>, fails: nat -> bool, ghost rs: seq<Routed>) returns (ok: bool)
      requires Grouped(batches, rs)
      modifies this`parts
      ensures ok <==> forall i :: 0 <= i < |rs| ==> !fails(rs[i].pid)
      ensures Written(old(parts), parts, rs, fails)
    {
      ghost var before := parts;
      var pids := SortedPids(batches.Keys);
      GroupsAreNonEmpty(batches, rs, pids);
      NoFailureMeansNone(rs, pids, fails);
      var n := 0;
      while n < |pids|
        invariant 0 <= n <= |pids|
        invariant forall i :: 0 <= i < n ==> !fails(pids[i])
        invariant CommittedPids(before, parts, rs, pids[..n])
        invariant forall pid :: pid in parts ==> pid in before || pid in batches.Keys
      {
        var pid := pids[n];
        var ordered := OrderedBatch(batches[pid]);
        InPrefix(pids, n, n);
        assert pids[..n + 1] == pids[..n] + [pid];
        CommitStep(before, parts, rs, pids[..n], pid, batches, ordered);
        var res := ExecBatch(pid, ordered, fails(pid));
        if !res {
          break;
        }
        n := n + 1;
      }
      Stopped(before, parts, rs, pids, n, fails);
      ok := n == |pids|;
    }

    /** One ordered map of last writes per partition. */
    method GroupByPartition(entries: seq<WriteEntry>) returns (batches: map<nat, map<Str, WriteData>>)
      requires numPartitions >= 1
      ensures Grouped(batches, RouteAll(hash, numPartitions, entries))
    {
      ghost var rs := RouteAll(hash, numPartitions, entries);
      batches := map[];
      for i := 0 to |entries|
        invariant Grouped(batches, rs[..i])
      {
        var d := ToData(entries[i]);
        var pid := ResolvePartitionId(hash, numPartitions, entries[i].entry.nameSpace, entries[i].entry.key);
        GroupStep(batches, rs, i);
        var group := if pid in batches then batches[pid] else map[];
        batches := batches[pid := group[d.key := d]];
      }
      assert rs[..|entries|] == rs;
    }

    // ---- Scans ----

    /** Every partition has to answer; the first that does not decides how the scan ends. */
    method Scan(ns: Str, begin: Str, end: Str, limit: nat, fails: nat -> bool)
      returns (out: seq<KeyValueEntry>, status: ScanStatus)
      ensures status == if started then ScanOutcome(parts, numPartitions, fails) else Failed
      ensures status.Found? ==> IsMerged(out, parts, numPartitions, ns, begin, end, limit)
    {
      out := [];
      if !started { return out, Failed; }
      var beginKey := ComposeKey(ns, begin);
      var endKey := if end != [] then ComposeKey(ns, end) else ns + [SEMICOLON];
      for pid := 0 to numPartitions
        invariant Gathered(out, parts, pid, ns, begin, end, limit)
        invariant ScanOutcome(parts, pid, fails).Found?
      {
        if pid !in parts || fails(pid) {
          StopsAt(parts, numPartitions, fails, pid + 1);
          return out, if pid !in parts then Missing else Failed;
        }
        var more := ScanOne(pid, ns, begin, end, limit, beginKey, endKey);
        out := out + more;
      }
      EntryOrder();
      var sorted := Sort(out, EntryAtMost);
      var deduped := RemoveDuplicates(sorted);
      DedupedRearranged(deduped, sorted, out);
      PagesSuffice(out, deduped, parts, numPartitions, ns, begin, end, limit);
      out, status := Cut(deduped, limit), Found;
    }

    method ScanOne(pid: nat, ns: Str, begin: Str, end: Str, limit: nat, beginKey: Str, endKey: Str)
      returns (es: seq<KeyValueEntry>)
      requires beginKey == ComposeKey(ns, begin)
      requires endKey == if end != [] then ComposeKey(ns, end) else ns + [SEMICOLON]
      ensures forall g :: Gathered(g, parts, pid, ns, begin, end, limit) ==> Gathered(g + es, parts, pid + 1, ns, begin, end, limit)
    {
      var table := Part(parts, pid);
      var rows := ScanPartition(table, beginKey, endKey, limit);
      es := [];
      var prefix := ns + [COLON];
      for i := 0 to |rows|
        invariant IsRowList(es, rows[..i], ns)
      {
        RangeHasPrefix(ns, begin, end, rows[i].0);
        if !HasPrefix(rows[i].0, prefix) {
          continue;
        }
        assert rows[i].0 == ComposeKey(ns, rows[i].0[|prefix|..]);
        es := es + [KeyValueEntry(ns, rows[i].0[|prefix|..], rows[i].1.value, rows[i].1.ts)];
      }
      assert rows[..|rows|] == rows;
      forall g | Gathered(g, parts, pid, ns, begin, end, limit)
        ensures Gathered(g + es, parts, pid + 1, ns, begin, end, limit)
      {
        GatherStep(g, es, rows, parts, pid, ns, begin, end, limit);
      }
    }

    // ---- Layout refresh ----

    /** Moves what one partition holds of one namespace to where it belongs now. */
    method MoveNamespace(source: nat, ns: Str, fails: nat -> bool, tick: nat, names: seq<Str>, ghost m: map<Str, Stored>)
      returns (ok: bool, next: nat)
      requires numPartitions >= 1 && COLON !in ns && ns in names && Represents(parts, m)
      modifies this`parts
      ensures Represents(parts, m) && OnlyTowardsHome(old(parts), parts, hash, numPartitions, names)
      ensures ok ==> Settled(parts, hash, numPartitions, source, ns)
      ensures old(parts).Keys <= parts.Keys
      ensures (forall i :: !fails(i)) ==> ok
    {
      next := tick + 1;
      if source !in parts { return true, next; }
      if fails(tick) { return false, next; }
      var rows := ScanPartition(parts[source], ns + [COLON], ns + [SEMICOLON], 0);
      RowsOfNamespace(parts, source, ns, rows, m, names);
      var moves, deletes := PlanMoves(source, ns, rows);
      ok, next := ExecutePlan(source, ns, moves, deletes, fails, next, rows, names, m);
    }

    method ExecutePlan(source: nat, ns: Str, moves: map<nat, seq<WriteData>>, deletes: seq<WriteData>, fails: nat -> bool,
                       tick: nat, ghost rows: seq<(Str, Stored)>, ghost names: seq<Str>, ghost m: map<Str, Stored>)
      returns (ok: bool, next: nat)
      requires numPartitions >= 1 && Represents(parts, m) && source in parts
      requires IsPlan(moves, deletes, rows, hash, numPartitions, source)
      requires forall i, j :: 0 <= i < j < |rows| ==> Less(rows[i].0, rows[j].0)
      requires forall i :: 0 <= i < |rows| ==> rows[i].0 in m && m[rows[i].0] == rows[i].1 && Known(names, rows[i].0)
      requires forall k :: At(parts, source, k) && InNamespace(k, ns) ==> RowHas(rows, k)
      modifies this`parts
      ensures Represents(parts, m) && OnlyTowardsHome(old(parts), parts, hash, numPartitions, names)
      ensures ok ==> Settled(parts, hash, numPartitions, source, ns)
      ensures old(parts).Keys <= parts.Keys
      ensures (forall i :: !fails(i)) ==> ok
    {
      ghost var before := parts;
      ok, next := WriteCopies(source, moves, fails, tick, rows, deletes, m);
      if ok && deletes != [] {
        ok, next := DeleteMoved(source, deletes, fails, next, before, rows, moves, m);
      }
      TowardsHome(before, parts, hash, numPartitions, source, rows, moves, deletes, names);
      if ok { MovedIsSettled(before, parts, hash, numPartitions, source, ns, rows, moves, deletes); }
    }

    /** The copies come first, one request per target partition... */
    method WriteCopies(source: nat, moves: map<nat, seq<WriteData>>, fails: nat -> bool, tick: nat,
                       ghost rows: seq<(Str, Stored)>, ghost deletes: seq<WriteData>, ghost m: map<Str, Stored>)
      returns (ok: bool, next: nat)
      requires numPartitions >= 1 && Represents(parts, m)
      requires IsPlan(moves, deletes, rows, hash, numPartitions, source)
      requires forall i, j :: 0 <= i < j < |rows| ==> Less(rows[i].0, rows[j].0)
      requires forall i :: 0 <= i < |rows| ==> rows[i].0 in m && m[rows[i].0] == rows[i].1
      modifies this`parts
      ensures Represents(parts, m) && old(parts).Keys <= parts.Keys <= old(parts).Keys + moves.Keys
      ensures forall pid, k :: At(parts, pid, k) ==> At(old(parts), pid, k) || (pid in moves && HasKey(moves[pid], k))
      ensures forall pid, k :: At(old(parts), pid, k) ==> At(parts, pid, k)
      ensures ok ==> forall pid, k :: pid in moves && HasKey(moves[pid], k) ==> At(parts, pid, k)
      ensures (forall i :: !fails(i)) ==> ok
    {
      ghost var before := parts;
      next := tick;
      var targets := SortedPids(moves.Keys);
      var t := 0;
      CopiedStart(before, moves);
      assert targets[..0] == [];
      while t < |targets|
        invariant 0 <= t <= |targets|
        invariant Represents(parts, m) && IsCopied(before, parts, moves, targets[..t]) == Yes
      {
        var target := targets[t];
        PlanAscends(rows, hash, numPartitions, source, target);
        PlanCopies(rows, hash, numPartitions, source, target, m);
        CopiedNext(before, parts, m, moves, targets, t);
        ok := ExecBatch(target, moves[target], fails(next));
        next := next + 1;
        if !ok { return; }
        t := t + 1;
      }
      assert targets[..|targets|] == targets;
      ok := true;
    }

    /** ... then the originals are deleted. */
    method DeleteMoved(source: nat, deletes: seq<WriteData>, fails: nat -> bool, tick: nat, ghost before: Parts,
                       ghost rows: seq<(Str, Stored)>, ghost moves: map<nat, seq<WriteData>>, ghost m: map<Str, Stored>)
      returns (ok: bool, next: nat)
      requires numPartitions >= 1 && Represents(parts, m) && source in parts
      requires IsPlan(moves, deletes, rows, hash, numPartitions, source)
      requires forall i, j :: 0 <= i < j < |rows| ==> Less(rows[i].0, rows[j].0)
      requires forall i :: 0 <= i < |rows| ==> rows[i].0 in m && m[rows[i].0] == rows[i].1
      requires forall pid, k :: At(parts, pid, k) <==> At(before, pid, k) || (pid in moves && HasKey(moves[pid], k))
      modifies this`parts
      ensures Represents(parts, m) && parts.Keys == old(parts).Keys
      ensures forall pid, k :: At(parts, pid, k) <==> At(old(parts), pid, k) && !(ok && pid == source && HasKey(deletes, k))
      ensures (forall i :: !fails(i)) ==> ok
    {
      PlanAscends(rows, hash, numPartitions, source, source);
      PlanCopies(rows, hash, numPartitions, source, source, m);
      CopiesElsewhere(before, parts, hash, numPartitions, source, rows, moves, deletes);
      DropStep(parts, m, source, deletes);
      ok := ExecBatch(source, deletes, fails(tick));
      next := tick + 1;
    }

    method PlanMoves(source: nat, ns: Str, rows: seq<(Str, Stored)>)
      returns (moves: map<nat, seq<WriteData>>, deletes: seq<WriteData>)
      requires numPartitions >= 1 && COLON !in ns
      requires forall i :: 0 <= i < |rows| ==> InNamespace(rows[i].0, ns)
      ensures IsPlan(moves, deletes, rows, hash, numPartitions, source)
    {
      moves, deletes := map[], [];
      var prefix := ns + [COLON];
      for i := 0 to |rows|
        invariant IsPlan(moves, deletes, rows[..i], hash, numPartitions, source)
      {
        SplitInNamespace(hash, numPartitions, ns, rows[i].0);
        PlanStep(moves, deletes, rows, i, hash, numPartitions, source);
        if !HasPrefix(rows[i].0, prefix) {
          continue;
        }
        var key := rows[i].0[|prefix|..];
        var target := ResolvePartitionId(hash, numPartitions, ns, key);
        if target == source {
          continue;
        }
        var batch := if target in moves then moves[target] else [];
        moves := moves[target := batch + [WriteData(rows[i].0, rows[i].1.value, rows[i].1.ts, Upsert)]];
        deletes := deletes + [WriteData(rows[i].0, [], rows[i].1.ts, Delete)];
      }
      assert rows[..|rows|] == rows;
    }

    method RehashPartition(source: nat, names: seq<Str>, fails: nat -> bool, tick: nat, ghost m: map<Str, Stored>)
      returns (ok: bool, next: nat)
      requires numPartitions >= 1 && Represents(parts, m)
      requires forall i :: 0 <= i < |names| ==> COLON !in names[i]
      modifies this`parts
      ensures Represents(parts, m) && OnlyTowardsHome(old(parts), parts, hash, numPartitions, names)
      ensures ok ==> AllSettled(parts, hash, numPartitions, source, names, |names|)
      ensures old(parts).Keys <= parts.Keys
      ensures (forall i :: !fails(i)) ==> ok
    {
      ghost var before := parts;
      next := tick;
      for n := 0 to |names|
        invariant Represents(parts, m) && OnlyTowardsHome(before, parts, hash, numPartitions, names) && before.Keys <= parts.Keys
        invariant AllSettled(parts, hash, numPartitions, source, names, n)
      {
        ghost var last := parts;
        ok, next := MoveNamespace(source, names[n], fails, next, names, m);
        TowardsHomeTransitive(before, last, parts, hash, numPartitions, names);
        if !ok { return false, next; }
        SettledStep(last, parts, hash, numPartitions, source, names, n);
      }
      ok := true;
    }

    method MoveAll(existing: seq<nat>, names: seq<Str>, fails: nat -> bool, ghost m: map<Str, Stored>) returns (ok: bool)
      requires numPartitions >= 1 && Represents(parts, m)
      requires forall pid :: pid in parts ==> pid in existing
      requires forall i :: 0 <= i < |names| ==> COLON !in names[i]
      modifies this`parts
      ensures Represents(parts, m) && OnlyTowardsHome(old(parts), parts, hash, numPartitions, names)
      ensures ok ==> KnownAtHome(parts, hash, numPartitions, names)
      ensures old(parts).Keys <= parts.Keys
      ensures (forall i :: !fails(i)) ==> ok
    {
      ghost var before := parts;
      var tick := 0;
      for s := 0 to |existing|
        invariant Represents(parts, m) && OnlyTowardsHome(before, parts, hash, numPartitions, names) && before.Keys <= parts.Keys
        invariant SourcesSettled(parts, hash, numPartitions, existing, names, s)
      {
        ghost var last := parts;
        ok, tick := RehashPartition(existing[s], names, fails, tick, m);
        TowardsHomeTransitive(before, last, parts, hash, numPartitions, names);
        if !ok { return false; }
        SourceStep(last, parts, hash, numPartitions, existing, names, s);
      }
      SettledIsHome(before, parts, hash, numPartitions, existing, names);
      ok := true;
    }

    /** Moves every entry of the eight namespaces home, then removes the directories of partitions
        that no longer exist. `m` is the map the partitions stand for before. */
    method RehashStoredEntries(existing: seq<nat>, fails: nat -> bool, ghost m: map<Str, Stored>) returns (ok: bool)
      requires numPartitions >= 1 && Represents(parts, m)
      requires forall pid :: pid in parts ==> pid in existing
      modifies this`parts
      ensures !ok ==> Represents(parts, m) && OnlyTowardsHome(old(parts), parts, hash, numPartitions, NAMESPACES)
      ensures ok ==> Refreshed(old(parts), parts, m, hash, numPartitions, NAMESPACES)
      ensures !ok ==> old(parts).Keys <= parts.Keys
      ensures (forall i :: !fails(i)) ==> ok
    {
      if existing == [] {
        NothingToRefresh(parts, existing, m, hash, numPartitions, NAMESPACES);
        return true;
      }
      NamespacesHaveNoColon();
      ok := RehashNamespaces(existing, NAMESPACES, fails, m);
    }

    method RehashNamespaces(existing: seq<nat>, names: seq<Str>, fails: nat -> bool, ghost m: map<Str, Stored>) returns (ok: bool)
      requires numPartitions >= 1 && Represents(parts, m)
      requires forall pid :: pid in parts ==> pid in existing
      requires forall i :: 0 <= i < |names| ==> COLON !in names[i]
      modifies this`parts
      ensures !ok ==> Represents(parts, m) && OnlyTowardsHome(old(parts), parts, hash, numPartitions, names)
      ensures ok ==> Refreshed(old(parts), parts, m, hash, numPartitions, names)
      ensures !ok ==> old(parts).Keys <= parts.Keys
      ensures (forall i :: !fails(i)) ==> ok
    {
      ghost var before := parts;
      ok := MoveAll(existing, names, fails, m);
      if !ok { return; }
      ghost var moved := parts;
      CleanupOutdatedPartitionDirs(existing);
      CleanupKeepsKnown(before, moved, parts, existing, m, hash, numPartitions, names);
    }

    method CleanupOutdatedPartitionDirs(partitions: seq<nat>)
      modifies this`parts
      ensures parts == map pid | pid in old(parts) && !(pid in partitions && pid >= numPartitions) :: old(parts)[pid]
    {
      ghost var before := parts;
      for i := 0 to |partitions|
        invariant parts == map pid | pid in before && !(pid in partitions[..i] && pid >= numPartitions) :: before[pid]
      {
        var pid := partitions[i];
        assert partitions[..i + 1] == partitions[..i] + [pid];
        if pid < numPartitions { continue; }
        parts := parts - {pid};
      }
      assert partitions[..|partitions|] == partitions;
    }

    /** Startup: rehash when the recorded layout is not the configured one, then record it. The
        recorded layout is trusted: when it asks for no rehash, nothing moves. `rehashed` says that a
        rehash was completed, which is when directories are removed. */
    method RefreshLayoutOnStartup(existing: seq<nat>, fails: nat -> bool, metaFails: bool, ghost m: map<Str, Stored>)
      returns (ok: bool, rehashed: bool)
      requires numPartitions >= 1 && Represents(parts, m)
      requires forall pid :: pid in parts ==> pid in existing
      modifies this`parts, this`meta
      ensures meta == if ok then LayoutMeta(numPartitions, ROUTING_SCHEMA) else old(meta)
      ensures ok ==>
        (Refreshed(old(parts), parts, m, hash, numPartitions, NAMESPACES)
         <==> NeedsRehash(old(meta), existing, numPartitions) || KnownAtHome(old(parts), hash, numPartitions, NAMESPACES))
      ensures !NeedsRehash(old(meta), existing, numPartitions) ==> parts == old(parts) && !rehashed
      ensures rehashed ==> Refreshed(old(parts), parts, m, hash, numPartitions, NAMESPACES)
      ensures !rehashed ==> Represents(parts, m) && OnlyTowardsHome(old(parts), parts, hash, numPartitions, NAMESPACES)
      ensures !rehashed ==> old(parts).Keys <= parts.Keys
      ensures ok ==> rehashed || !NeedsRehash(old(meta), existing, numPartitions)
      ensures (forall i :: !fails(i)) ==> (rehashed <==> NeedsRehash(old(meta), existing, numPartitions)) && (ok <==> !metaFails)
    {
      ok, rehashed := false, NeedsRehash(meta, existing, numPartitions);
      if rehashed {
        rehashed := RehashStoredEntries(existing, fails, m);
        if !rehashed { return; }
      } else {
        SkippedRefresh(parts, m, hash, numPartitions, NAMESPACES);
      }
      if metaFails { return; }
      meta := LayoutMeta(numPartitions, ROUTING_SCHEMA);
      ok := true;
    }
  }

  predicate NeedsRehash(meta: LayoutMeta, existing: seq<nat>, n: nat) {
    || (meta.LayoutMeta? && (meta.partitionCount != n || meta.routingSchema != ROUTING_SCHEMA))
    || (meta.NoMeta? && existing != [])
    || exists i :: 0 <= i < |existing| && existing[i] >= n
  }

  /** After an attempt that failed, a rehash is due again or every entry is at home: the recorded
      layout is the old one, and directories are removed only once everything has moved. */
  lemma RetryStillRehashes(meta: LayoutMeta, existing: seq<nat>, later: seq<nat>, parts: Parts, rehashed: bool, hash: Str -> nat, n: nat)
    requires n >= 1 && NeedsRehash(meta, existing, n)
    requires if rehashed then KnownAtHome(parts, hash, n, NAMESPACES) else forall p :: p in existing ==> p in later
    ensures NeedsRehash(meta, later, n) || KnownAtHome(parts, hash, n, NAMESPACES)
  {
    if !rehashed {
      if i :| 0 <= i < |existing| && existing[i] >= n {
        assert existing[i] in later;
      } else if existing != [] {
        assert existing[0] in later;
      }
    }
  }

  /** A client: a start that fails anywhere, and another with the same partition count that does not.
      If a rehash was due or everything was at home, the data ends as after one undisturbed refresh. */
  method StartAgain(adapter: EloqStoreAdapter, existing: seq<nat>, fails: nat -> bool, metaFails: bool, ghost m: map<Str, Stored>)
    requires adapter.numPartitions >= 1 && Represents(adapter.parts, m)
    requires forall pid :: pid in adapter.parts ==> pid in existing
    requires NeedsRehash(adapter.meta, existing, adapter.numPartitions)
          || KnownAtHome(adapter.parts, adapter.hash, adapter.numPartitions, NAMESPACES)
    modifies adapter`parts, adapter`meta
    ensures adapter.meta == LayoutMeta(adapter.numPartitions, ROUTING_SCHEMA)
    ensures Refreshed(old(adapter.parts), adapter.parts, m, adapter.hash, adapter.numPartitions, NAMESPACES)
  {
    ghost var before := adapter.parts;
    var ok, rehashed := adapter.RefreshLayoutOnStartup(existing, fails, metaFails, m);
    ghost var mid, hash, n := adapter.parts, adapter.hash, adapter.numPartitions;
    if ok { return; }
    var later := SortedPids(adapter.parts.Keys);
    if !rehashed { later := later + existing; }
    if rehashed { RefreshedIsAtHome(before, mid, m, hash, n, NAMESPACES); }
    if NeedsRehash(adapter.meta, existing, n) { RetryStillRehashes(adapter.meta, existing, later, mid, rehashed, hash, n); }
    ghost var held := if rehashed then Held(mid, m) else m;
    if rehashed { RefreshedHolds(before, mid, mid, m, hash, n, NAMESPACES); }
    ok, rehashed := adapter.RefreshLayoutOnStartup(later, _ => false, false, held);
    if held != m { RefreshedHolds(before, mid, adapter.parts, m, hash, n, NAMESPACES); }
    RefreshedAgain(before, mid, adapter.parts, m, hash, n, NAMESPACES);
  }

  /** Another client: a refresh towards fewer partitions that moves everything and then fails to record
      the new layout, and a start with the old count. The recorded layout asks for nothing, and the
      stored entry is not found. */
  method StoppedRefreshIsForgotten(hash: Str -> nat, n: nat, fewer: nat, ns: Str, key: Str, v: Stored)
    returns (first: EloqStoreAdapter, second: EloqStoreAdapter, found: bool)
    requires 1 <= fewer <= n && COLON !in ns && ns in NAMESPACES
    requires ResolvePartitionId(hash, n, ns, key) != ResolvePartitionId(hash, fewer, ns, key)
    ensures first.numPartitions == fewer && second.numPartitions == n && second.started
    ensures second.meta == LayoutMeta(n, ROUTING_SCHEMA) && Represents(second.parts, map[ComposeKey(ns, key) := v])
    ensures !found && !Refreshed(second.parts, second.parts, map[ComposeKey(ns, key) := v], hash, n, NAMESPACES)
  {
    var k := ComposeKey(ns, key);
    ghost var m := map[k := v];
    EntryIsKnown(hash, n, ns, key);
    EntryIsKnown(hash, fewer, ns, key);
    first := StopBeforeRecording(hash, n, fewer, ResolvePartitionId(hash, n, ns, key), k, v);
    second := StartWithoutRehash(hash, n, first.parts, first.meta, m);
    found := LookUp(second, ns, key);
    NotRefreshed(second.parts, k, m, hash, n, ResolvePartitionId(hash, fewer, ns, key));
  }

  lemma EntryIsKnown(hash: Str -> nat, n: nat, ns: Str, key: Str)
    requires n >= 1 && COLON !in ns && ns in NAMESPACES
    ensures Known(NAMESPACES, ComposeKey(ns, key)) && Home(hash, n, ComposeKey(ns, key)) == ResolvePartitionId(hash, n, ns, key)
  {
    HomeOfEntry(hash, n, ns, key);
    KeyIsKnown(ns, key);
  }

  lemma NotRefreshed(parts: Parts, k: Str, m: map<Str, Stored>, hash: Str -> nat, n: nat, pid: nat)
    requires n >= 1 && At(parts, pid, k) && Known(NAMESPACES, k) && pid != Home(hash, n, k)
    ensures !Refreshed(parts, parts, m, hash, n, NAMESPACES)
  {
  }

  method LookUp(adapter: EloqStoreAdapter, ns: Str, key: Str) returns (found: bool)
    requires adapter.numPartitions >= 1
    ensures found ==> At(adapter.parts, ResolvePartitionId(adapter.hash, adapter.numPartitions, ns, key), ComposeKey(ns, key))
  {
    var value;
    found, value := adapter.Get(ns, key);
  }

  method StartWithoutRehash(hash: Str -> nat, n: nat, parts: Parts, meta: LayoutMeta, ghost m: map<Str, Stored>)
    returns (adapter: EloqStoreAdapter)
    requires n >= 1 && meta == LayoutMeta(n, ROUTING_SCHEMA) && Represents(parts, m) && forall pid: nat :: pid in parts ==> pid < n
    ensures fresh(adapter) && adapter.hash == hash && adapter.numPartitions == n && adapter.started
    ensures adapter.parts == parts && adapter.meta == meta
  {
    adapter := new EloqStoreAdapter(hash, n, parts, meta);
    var existing := SortedPids(parts.Keys);
    assert forall i :: 0 <= i < |existing| ==> existing[i] in parts.Keys;
    var ok, rehashed := adapter.RefreshLayoutOnStartup(existing, _ => false, false, m);
    adapter.started := true;
  }

  method StopBeforeRecording(hash: Str -> nat, n: nat, fewer: nat, home: nat, k: Str, v: Stored) returns (first: EloqStoreAdapter)
    requires 1 <= fewer <= n && Known(NAMESPACES, k) && home == Home(hash, n, k) != Home(hash, fewer, k)
    ensures fresh(first) && first.numPartitions == fewer && first.meta == LayoutMeta(n, ROUTING_SCHEMA)
    ensures Represents(first.parts, map[k := v]) && forall pid: nat :: pid in first.parts ==> pid < fewer
    ensures forall pid, x :: At(first.parts, pid, x) <==> pid == Home(hash, fewer, k) && x == k
  {
    ghost var m := map[k := v];
    OneCopy(home, k, v);
    first := new EloqStoreAdapter(hash, fewer, map[home := map[k := v]], LayoutMeta(n, ROUTING_SCHEMA));
    var ok, rehashed := first.RefreshLayoutOnStartup([home], _ => false, true, m);
    OnlyMoved(first.parts, k, m, hash, fewer);
  }

  lemma KeyIsKnown(ns: Str, key: Str)
    requires ns in NAMESPACES
    ensures Known(NAMESPACES, ComposeKey(ns, key)) && InNamespace(ComposeKey(ns, key), ns)
  {
    var i :| 0 <= i < |NAMESPACES| && NAMESPACES[i] == ns;
    assert InNamespace(ComposeKey(ns, key), NAMESPACES[i]);
  }

  lemma OnlyMoved(parts: Parts, k: Str, m: map<Str, Stored>, hash: Str -> nat, n: nat)
    requires n >= 1 && m.Keys == {k} && Known(NAMESPACES, k)
    requires forall pid, x :: At(parts, pid, x) ==> x in m && parts[pid][x] == m[x]
    requires forall pid, x :: At(parts, pid, x) && Known(NAMESPACES, x) ==> pid == Home(hash, n, x)
    requires At(parts, Home(hash, n, k), k)
    ensures Represents(parts, m) && forall pid, x :: At(parts, pid, x) <==> pid == Home(hash, n, k) && x == k
  {
  }

  lemma OneCopy(pid: nat, k: Str, v: Stored)
    ensures var parts: Parts := map[pid := map[k := v]];
      Represents(parts, map[k := v]) && At(parts, pid, k) && forall q: nat, x :: At(parts, q, x) <==> q == pid && x == k
  {
    var parts: Parts := map[pid := map[k := v]];
    assert At(parts, pid, k);
  }
}
