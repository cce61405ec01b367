/** The persistent store's partitions as values: batches, the map they stand for together, and
    where each key belongs. Reads from and writes to one partition are EloqStore's own business;
    a successful batch sets exactly the keys it names. */
module PartitionModel {
  import opened Bytes
  import opened Collections
  import opened FlatStore
  import opened Keys
  import opened PartitionRouting

  /** eloqstore::WriteDataEntry: a full key "namespace:key" and what to do with it. */
  datatype WriteData = WriteData(key: Str, val: Str, ts: nat, op: WriteOp)

  type Partition = map<Str, Stored>

  /** Only partitions that were ever written exist. */
  type Parts = map<nat, Partition>

  function Part(parts: Parts, pid: nat): (p: Partition) {
    if pid in parts then parts[pid] else map[]
  }

  predicate At(parts: Parts, pid: nat, k: Str) {
    pid in parts && k in parts[pid]
  }

  function ApplyData(p: Partition, d: WriteData): (r: Partition) {
    if d.op.Delete? then p - {d.key} else p[d.key := Stored(d.val, d.ts)]
  }

  function ApplyBatch(p: Partition, ds: seq<WriteData>): (r: Partition) {
    if ds == [] then p else ApplyData(ApplyBatch(p, ds[..|ds| - 1]), ds[|ds| - 1])
  }

  function ToData(w: WriteEntry): (d: WriteData) {
    WriteData(ComposeKey(w.entry.nameSpace, w.entry.key), if w.op.Delete? then [] else w.entry.value, w.entry.ts, w.op)
  }

  // ---- Grouping a batch ----

  /** The last write for each key. */
  function Lasts(ds: seq<WriteData>): (g: map<Str, WriteData>)
    ensures forall k :: k in g ==> g[k].key == k
  {
    if ds == [] then map[]
    else
      var d := ds[|ds| - 1];
      Lasts(ds[..|ds| - 1])[d.key := d]
  }

  function Override(p: Partition, g: map<Str, WriteData>): (r: Partition) {
    map k | k in p.Keys + g.Keys && !(k in g && g[k].op.Delete?) ::
      if k in g then Stored(g[k].val, g[k].ts) else p[k]
  }

  /** A batch leaves, for each key, what its last write for that key says. */
  lemma {:induction false} BatchIsOverride(p: Partition, ds: seq<WriteData>)
    ensures ApplyBatch(p, ds) == Override(p, Lasts(ds))
  {
    if ds == [] {
      assert Override(p, map[]) == p;
    } else {
      var n := |ds| - 1;
      BatchIsOverride(p, ds[..n]);
      OverrideStep(p, Lasts(ds[..n]), ds[n]);
    }
  }

  lemma OverrideStep(p: Partition, g: map<Str, WriteData>, d: WriteData)
    ensures ApplyData(Override(p, g), d) == Override(p, g[d.key := d])
  {
  }

  predicate KeysAscend(ds: seq<WriteData>) {
    forall i, j :: 0 <= i < j < |ds| ==> Less(ds[i].key, ds[j].key)
  }

  predicate Lists(ds: seq<WriteData>, g: map<Str, WriteData>) {
    && (forall i :: 0 <= i < |ds| ==> ds[i].key in g && g[ds[i].key] == ds[i])
    && (forall k :: k in g ==> exists i :: 0 <= i < |ds| && ds[i].key == k)
  }

  lemma {:induction false} LastsOfList(ds: seq<WriteData>, g: map<Str, WriteData>)
    requires forall i :: 0 <= i < |ds| ==> ds[i].key in g && g[ds[i].key] == ds[i]
    ensures forall k :: k in Lasts(ds) <==> exists i :: 0 <= i < |ds| && ds[i].key == k
    ensures forall k :: k in Lasts(ds) ==> k in g && Lasts(ds)[k] == g[k]
  {
    if ds != [] {
      var n := |ds| - 1;
      LastsOfList(ds[..n], g);
      forall k | exists i :: 0 <= i < |ds| && ds[i].key == k ensures k in Lasts(ds) {
        var i :| 0 <= i < |ds| && ds[i].key == k;
        if i < n { assert ds[..n][i].key == k; }
      }
      forall k | k in Lasts(ds) ensures exists i :: 0 <= i < |ds| && ds[i].key == k {
        if k != ds[n].key {
          var i :| 0 <= i < n && ds[..n][i].key == k;
          assert ds[i].key == k;
        } else {
          assert ds[n].key == k;
        }
      }
    }
  }

  /** Whatever order a batch lists one write per key in, it does the same. */
  lemma ListedBatch(p: Partition, ds: seq<WriteData>, g: map<Str, WriteData>)
    requires Lists(ds, g)
    ensures ApplyBatch(p, ds) == Override(p, g)
  {
    LastsOfList(ds, g);
    assert Lasts(ds) == g;
    BatchIsOverride(p, ds);
  }

  datatype Routed = Routed(pid: nat, data: WriteData)

  /** The writes of a batch that go to one partition, in order. */
  function For(rs: seq<Routed>, pid: nat): (ds: seq<WriteData>) {
    if rs == [] then []
    else
      var r := rs[|rs| - 1];
      For(rs[..|rs| - 1], pid) + if r.pid == pid then [r.data] else []
  }

  function RouteAll(hash: Str -> nat, n: nat, ws: seq<WriteEntry>): (rs: seq<Routed>)
    requires n >= 1
    ensures |rs| == |ws|
    ensures forall i :: 0 <= i < |ws| ==>
              rs[i] == Routed(ResolvePartitionId(hash, n, ws[i].entry.nameSpace, ws[i].entry.key), ToData(ws[i]))
  {
    seq(|ws|, i requires 0 <= i < |ws| =>
      Routed(ResolvePartitionId(hash, n, ws[i].entry.nameSpace, ws[i].entry.key), ToData(ws[i])))
  }

  // ---- The map the partitions stand for ----

  /** Every copy of a key agrees with m, and every key of m has a copy. */
  ghost predicate Represents(parts: Parts, m: map<Str, Stored>) {
    && (forall pid, k :: At(parts, pid, k) ==> k in m && parts[pid][k] == m[k])
    && (forall k :: k in m ==> exists pid :: At(parts, pid, k))
  }

  /** The partition a full key belongs to. */
  function Home(hash: Str -> nat, n: nat, full: Str): (pid: nat)
    requires n >= 1
    ensures pid < n
  {
    var c := FirstIndex(full, COLON);
    ResolvePartitionId(hash, n, full[..c], if c < |full| then full[c + 1..] else [])
  }

  lemma HomeOfEntry(hash: Str -> nat, n: nat, ns: Str, key: Str)
    requires n >= 1 && COLON !in ns
    ensures Home(hash, n, ComposeKey(ns, key)) == ResolvePartitionId(hash, n, ns, key)
  {
    FirstIndexIsLength(ns, COLON, key);
    var full := ComposeKey(ns, key);
    assert full[..|ns|] == ns && full[|ns| + 1..] == key;
  }

  ghost predicate AtHome(parts: Parts, hash: Str -> nat, n: nat)
    requires n >= 1
  {
    forall pid, k :: At(parts, pid, k) ==> pid == Home(hash, n, k)
  }

  /** The partitions after a batch whose sub-batches all succeed. */
  ghost predicate Committed(parts: Parts, parts': Parts, rs: seq<Routed>) {
    forall pid :: Part(parts', pid) == ApplyBatch(Part(parts, pid), For(rs, pid))
  }

  ghost predicate SameAt(a: map<Str, WriteData>, b: map<Str, WriteData>, k: Str) {
    (k in a <==> k in b) && (k in a ==> a[k] == b[k])
  }

  lemma LastsOfFor(rs: seq<Routed>, pid: nat)
    requires rs != []
    ensures var m := |rs| - 1;
      && Lasts(DataOf(rs)) == Lasts(DataOf(rs[..m]))[rs[m].data.key := rs[m].data]
      && Lasts(For(rs, pid))
         == if rs[m].pid == pid then Lasts(For(rs[..m], pid))[rs[m].data.key := rs[m].data] else Lasts(For(rs[..m], pid))
  {
    var m := |rs| - 1;
    assert DataOf(rs) == DataOf(rs[..m]) + [rs[m].data];
    LastsAppend(DataOf(rs[..m]), rs[m].data);
    if rs[m].pid == pid {
      LastsAppend(For(rs[..m], pid), rs[m].data);
    } else {
      assert For(rs, pid) == For(rs[..m], pid);
    }
  }

  lemma {:induction false} ForHasKey(rs: seq<Routed>, hash: Str -> nat, n: nat, pid: nat, k: Str)
    requires n >= 1
    requires forall i :: 0 <= i < |rs| ==> rs[i].pid == Home(hash, n, rs[i].data.key)
    ensures pid == Home(hash, n, k) ==> SameAt(Lasts(For(rs, pid)), Lasts(DataOf(rs)), k)
    ensures pid != Home(hash, n, k) ==> k !in Lasts(For(rs, pid))
  {
    if rs != [] {
      var m := |rs| - 1;
      ForHasKey(rs[..m], hash, n, pid, k);
      LastsOfFor(rs, pid);
    }
  }

  function DataOf(rs: seq<Routed>): (ds: seq<WriteData>)
    ensures |ds| == |rs|
    ensures forall i :: 0 <= i < |rs| ==> ds[i] == rs[i].data
  {
    seq(|rs|, i requires 0 <= i < |rs| => rs[i].data)
  }

  lemma LastsAppend(ds: seq<WriteData>, d: WriteData)
    ensures Lasts(ds + [d]) == Lasts(ds)[d.key := d]
  {
    assert (ds + [d])[..|ds|] == ds;
  }

  /** Splitting a batch by partition and keeping the last write per key has the effect of applying
      its entries in order to the one map the partitions stand for. */
  lemma BatchPreservesMeaning(parts: Parts, parts': Parts, m: map<Str, Stored>, rs: seq<Routed>, hash: Str -> nat, n: nat)
    requires n >= 1
    requires forall i :: 0 <= i < |rs| ==> rs[i].pid == Home(hash, n, rs[i].data.key)
    requires Represents(parts, m) && AtHome(parts, hash, n) && Committed(parts, parts', rs)
    ensures Represents(parts', ApplyBatch(m, DataOf(rs))) && AtHome(parts', hash, n)
  {
    var ds := Lasts(DataOf(rs));
    var m' := ApplyBatch(m, DataOf(rs));
    BatchIsOverride(m, DataOf(rs));
    forall pid, k ensures At(parts', pid, k) <==> k in m' && pid == Home(hash, n, k)
      ensures At(parts', pid, k) && k in m' ==> parts'[pid][k] == m'[k]
    {
      BatchIsOverride(Part(parts, pid), For(rs, pid));
      ForHasKey(rs, hash, n, pid, k);
      assert Part(parts', pid) == ApplyBatch(Part(parts, pid), For(rs, pid));
      assert At(parts', pid, k) <==> k in Part(parts', pid);
      assert At(parts, pid, k) <==> k in Part(parts, pid);
      if k in m {
        var q :| At(parts, q, k);
      }
    }
    forall k | k in m' ensures exists pid :: At(parts', pid, k) {
      assert At(parts', Home(hash, n, k), k);
    }
  }
}
