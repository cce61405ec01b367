/** Moving entries between partitions, and merging the partitions' answers to a range scan:
    what single steps keep (src/store/eloqstore_adapter.cpp:234-298, 567-666). */
module LayoutModel {
  import opened Bytes
  import opened Collections
  import opened FlatStore
  import opened Keys
  import opened PartitionRouting
  import opened PartitionModel

  // ---- The eight namespaces ----

  const NAMESPACES: seq<Str> := [
    Lit("mem_docs"), Lit("mem_term_dict"), Lit("mem_posting_blk"), Lit("mem_vec_code"),
    Lit("mem_vec_fp"), Lit("mem_route_meta"), Lit("ds_events"), Lit("ds_projection_ckpt")]

  predicate InNamespace(k: Str, ns: Str) {
    HasPrefix(k, ns + [COLON])
  }

  /** The key belongs to one of the listed namespaces. */
  predicate Known(names: seq<Str>, k: Str) {
    exists i :: 0 <= i < |names| && InNamespace(k, names[i])
  }

  lemma NamespacesHaveNoColon()
    ensures forall i :: 0 <= i < |NAMESPACES| ==> COLON !in NAMESPACES[i]
  {
    forall i | 0 <= i < |NAMESPACES| ensures COLON !in NAMESPACES[i] {
      if i < 4 { NoColonFirst(i); } else { NoColonLast(i); }
    }
  }

  lemma NoColonFirst(i: nat)
    requires i < 4
    ensures COLON !in NAMESPACES[i]
  {
    assert NAMESPACES[0] == Lit("mem_docs") && NAMESPACES[1] == Lit("mem_term_dict");
    assert NAMESPACES[2] == Lit("mem_posting_blk") && NAMESPACES[3] == Lit("mem_vec_code");
  }

  lemma NoColonLast(i: nat)
    requires 4 <= i < 8
    ensures COLON !in NAMESPACES[i]
  {
    assert NAMESPACES[4] == Lit("mem_vec_fp") && NAMESPACES[5] == Lit("mem_route_meta");
    assert NAMESPACES[6] == Lit("ds_events") && NAMESPACES[7] == Lit("ds_projection_ckpt");
  }

  lemma SplitInNamespace(hash: Str -> nat, n: nat, ns: Str, k: Str)
    requires n >= 1 && COLON !in ns && InNamespace(k, ns)
    ensures ComposeKey(ns, k[|ns| + 1..]) == k
    ensures Home(hash, n, k) == ResolvePartitionId(hash, n, ns, k[|ns| + 1..])
  {
    assert k == k[..|ns| + 1] + k[|ns| + 1..];
    HomeOfEntry(hash, n, ns, k[|ns| + 1..]);
  }

  // ---- Single steps of a move ----

  ghost predicate HasKey(ds: seq<WriteData>, k: Str) {
    exists i :: 0 <= i < |ds| && ds[i].key == k
  }

  lemma {:induction false} LastsHasKey(ds: seq<WriteData>, k: Str)
    ensures k in Lasts(ds) <==> HasKey(ds, k)
    ensures k in Lasts(ds) ==> Lasts(ds)[k] in ds
  {
    if ds != [] {
      var n := |ds| - 1;
      LastsHasKey(ds[..n], k);
      if HasKey(ds[..n], k) {
        var i :| 0 <= i < n && ds[..n][i].key == k;
        assert ds[i].key == k;
      }
      if HasKey(ds, k) && k != ds[n].key {
        var i :| 0 <= i < |ds| && ds[i].key == k;
        assert ds[..n][i].key == k;
      }
    }
  }

  ghost predicate CopiesOf(ds: seq<WriteData>, m: map<Str, Stored>) {
    forall d :: d in ds ==> d.op.Upsert? && d.key in m && m[d.key] == Stored(d.val, d.ts)
  }

  /** Writing further copies of entries changes nothing but where they can be found. */
  lemma CopyStep(parts: Parts, m: map<Str, Stored>, target: nat, ds: seq<WriteData>)
    requires Represents(parts, m) && CopiesOf(ds, m)
    ensures var parts' := parts[target := ApplyBatch(Part(parts, target), ds)];
      && Represents(parts', m)
      && forall pid, k :: At(parts', pid, k) <==> At(parts, pid, k) || (pid == target && HasKey(ds, k))
  {
    var parts' := parts[target := ApplyBatch(Part(parts, target), ds)];
    BatchIsOverride(Part(parts, target), ds);
    forall pid, k ensures At(parts', pid, k) <==> At(parts, pid, k) || (pid == target && HasKey(ds, k))
      ensures At(parts', pid, k) ==> k in m && parts'[pid][k] == m[k]
    {
      LastsHasKey(ds, k);
      assert At(parts, target, k) <==> k in Part(parts, target);
    }
    forall k | k in m ensures exists pid :: At(parts', pid, k) {
      var pid :| At(parts, pid, k);
      assert At(parts', pid, k);
    }
  }

  /** Deleting copies that exist elsewhere too loses nothing. */
  lemma DropStep(parts: Parts, m: map<Str, Stored>, source: nat, ds: seq<WriteData>)
    requires Represents(parts, m)
    requires forall d :: d in ds ==> d.op.Delete? && exists pid :: pid != source && At(parts, pid, d.key)
    ensures var parts' := parts[source := ApplyBatch(Part(parts, source), ds)];
      && Represents(parts', m)
      && forall pid, k :: At(parts', pid, k) <==> At(parts, pid, k) && !(pid == source && HasKey(ds, k))
  {
    var parts' := parts[source := ApplyBatch(Part(parts, source), ds)];
    BatchIsOverride(Part(parts, source), ds);
    forall pid, k ensures At(parts', pid, k) <==> At(parts, pid, k) && !(pid == source && HasKey(ds, k))
      ensures At(parts', pid, k) ==> k in m && parts'[pid][k] == m[k]
    {
      LastsHasKey(ds, k);
      assert At(parts, source, k) <==> k in Part(parts, source);
    }
    forall k | k in m ensures exists pid :: At(parts', pid, k) {
      var pid :| At(parts, pid, k);
      if pid == source && HasKey(ds, k) {
        var i :| 0 <= i < |ds| && ds[i].key == k;
        assert ds[i] in ds;
        var q :| q != source && At(parts, q, k);
        assert At(parts', q, k);
      } else {
        assert At(parts', pid, k);
      }
    }
  }

  /** Entries only ever turn up where they belong, in configured partitions; and entries outside
      the listed namespaces stay where they are. */
  ghost predicate OnlyTowardsHome(before: Parts, after: Parts, hash: Str -> nat, n: nat, names: seq<Str>)
    requires n >= 1
  {
    && (forall pid: nat :: pid in after ==> pid in before || pid < n)
    && (forall pid, k :: At(after, pid, k) ==> At(before, pid, k) || pid == Home(hash, n, k))
    && (forall pid, k :: At(before, pid, k) && !Known(names, k) ==> At(after, pid, k))
  }

  lemma TowardsHomeTransitive(a: Parts, b: Parts, c: Parts, hash: Str -> nat, n: nat, names: seq<Str>)
    requires n >= 1 && OnlyTowardsHome(a, b, hash, n, names) && OnlyTowardsHome(b, c, hash, n, names)
    ensures OnlyTowardsHome(a, c, hash, n, names)
  {
  }

  /** No entry of the namespace is left in a partition it does not belong to. */
  ghost predicate Settled(parts: Parts, hash: Str -> nat, n: nat, source: nat, ns: Str)
    requires n >= 1
  {
    forall k :: At(parts, source, k) && InNamespace(k, ns) ==> Home(hash, n, k) == source
  }

  lemma SettledStays(before: Parts, after: Parts, hash: Str -> nat, n: nat, source: nat, ns: Str, names: seq<Str>)
    requires n >= 1 && OnlyTowardsHome(before, after, hash, n, names) && Settled(before, hash, n, source, ns)
    ensures Settled(after, hash, n, source, ns)
  {
  }

  // ---- Scanning one partition ----

  function RangeKeys(p: Partition, low: Str, high: Str): (ks: set<Str>) {
    set k | k in p && AtMost(low, k) && Less(k, high)
  }

  ghost predicate IsPage(rows: seq<(Str, Stored)>, p: Partition, low: Str, high: Str, limit: nat) {
    && (forall i, j :: 0 <= i < j < |rows| ==> Less(rows[i].0, rows[j].0))
    && (forall i :: 0 <= i < |rows| ==> rows[i].0 in RangeKeys(p, low, high) && rows[i].1 == p[rows[i].0])
    && (limit > 0 ==> |rows| <= limit)
    && (forall k :: k in RangeKeys(p, low, high) ==>
          || (exists i :: 0 <= i < |rows| && rows[i].0 == k)
          || (limit > 0 && |rows| == limit && forall i :: 0 <= i < |rows| ==> Less(rows[i].0, k)))
  }

  /** The rows of a partition in [low, high), in key order, at most `limit` of them unless it is 0. */
  method ScanPartition(p: Partition, low: Str, high: Str, limit: nat) returns (rows: seq<(Str, Stored)>)
    ensures IsPage(rows, p, low, high, limit)
  {
    var keys := SortedKeys(RangeKeys(p, low, high));
    var page := Cut(keys, limit);
    rows := seq(|page|, i requires 0 <= i < |page| => (page[i], p[page[i]]));
    KeysStrict(keys);
    forall k | k in RangeKeys(p, low, high)
      ensures (exists i :: 0 <= i < |rows| && rows[i].0 == k)
           || (limit > 0 && |rows| == limit && forall i :: 0 <= i < |rows| ==> Less(rows[i].0, k))
    {
      assert k in Elements(keys);
      var j :| 0 <= j < |keys| && keys[j] == k;
      if j < |page| { assert rows[j].0 == k; }
    }
  }

  lemma KeysStrict(keys: seq<Str>)
    requires Sorted(keys, AtMost) && NoDuplicates(keys)
    ensures forall i, j :: 0 <= i < j < |keys| ==> Less(keys[i], keys[j])
  {
    forall i, j | 0 <= i < j < |keys| ensures Less(keys[i], keys[j]) {
      assert AtMost(keys[i], keys[j]);
    }
  }
}
