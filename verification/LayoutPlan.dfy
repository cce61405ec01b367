/** Planning the sub-batches of a write and of a layout refresh
    (src/store/eloqstore_adapter.cpp:305-343, 600-644). */
module LayoutPlan {
  import opened Bytes
  import opened Collections
  import opened FlatStore
  import opened Keys
  import opened PartitionRouting
  import opened PartitionModel
  import opened LayoutModel
  import opened MergedScan
  import opened Tokenizer

  // ---- Batches ----

  ghost predicate Grouped(batches: map<nat, map<Str, WriteData>>, rs: seq<Routed>) {
    forall pid :: if pid in batches then batches[pid] == Lasts(For(rs, pid)) && For(rs, pid) != [] else For(rs, pid) == []
  }

  lemma GroupStep(batches: map<nat, map<Str, WriteData>>, rs: seq<Routed>, i: nat)
    requires i < |rs| && Grouped(batches, rs[..i])
    ensures var (pid, d) := (rs[i].pid, rs[i].data);
      var group := if pid in batches then batches[pid] else map[];
      Grouped(batches[pid := group[d.key := d]], rs[..i + 1])
  {
    var r := rs[i];
    var group := if r.pid in batches then batches[r.pid] else map[];
    var batches' := batches[r.pid := group[r.data.key := r.data]];
    assert rs[..i + 1][..i] == rs[..i];
    forall pid ensures if pid in batches' then batches'[pid] == Lasts(For(rs[..i + 1], pid)) && For(rs[..i + 1], pid) != [] else For(rs[..i + 1], pid) == [] {
      if pid == r.pid {
        LastsAppend(For(rs[..i], pid), r.data);
      } else {
        assert For(rs[..i + 1], pid) == For(rs[..i], pid);
      }
    }
  }

  lemma GroupsAreNonEmpty(batches: map<nat, map<Str, WriteData>>, rs: seq<Routed>, pids: seq<nat>)
    requires Grouped(batches, rs) && forall p :: p in pids <==> p in batches.Keys
    ensures forall p :: p in pids <==> For(rs, p) != []
  {
  }

  /** The listed partitions have taken their part of the batch, the others have not. */
  ghost predicate CommittedPids(before: Parts, parts: Parts, rs: seq<Routed>, done: seq<nat>) {
    forall pid :: Part(parts, pid) == if pid in done then ApplyBatch(Part(before, pid), For(rs, pid)) else Part(before, pid)
  }

  lemma CommitStep(before: Parts, parts: Parts, rs: seq<Routed>, done: seq<nat>, pid: nat,
                   batches: map<nat, map<Str, WriteData>>, ordered: seq<WriteData>)
    requires CommittedPids(before, parts, rs, done) && pid !in done
    requires Grouped(batches, rs) && pid in batches && Lists(ordered, batches[pid])
    ensures CommittedPids(before, parts[pid := ApplyBatch(Part(parts, pid), ordered)], rs, done + [pid])
  {
    ListedBatch(Part(before, pid), ordered, batches[pid]);
    BatchIsOverride(Part(before, pid), For(rs, pid));
  }

  lemma Stopped(before: Parts, parts: Parts, rs: seq<Routed>, pids: seq<nat>, n: nat, fails: nat -> bool)
    requires forall i, j :: 0 <= i < j < |pids| ==> pids[i] < pids[j]
    requires forall p :: p in pids <==> For(rs, p) != []
    requires n <= |pids| && forall i :: 0 <= i < n ==> !fails(pids[i])
    requires n < |pids| ==> fails(pids[n])
    requires CommittedPids(before, parts, rs, pids[..n])
    ensures forall pid :: Part(parts, pid)
              == if NoFailureUpTo(rs, fails, pid) then ApplyBatch(Part(before, pid), For(rs, pid)) else Part(before, pid)
  {
    forall pid
      ensures Part(parts, pid)
           == if NoFailureUpTo(rs, fails, pid) then ApplyBatch(Part(before, pid), For(rs, pid)) else Part(before, pid)
    {
      Progress(rs, pids, n, fails, pid);
      if For(rs, pid) == [] {
        assert ApplyBatch(Part(before, pid), []) == Part(before, pid);
      }
    }
  }

  lemma {:induction false} ForNonEmpty(rs: seq<Routed>, pid: nat)
    ensures For(rs, pid) != [] <==> exists i :: 0 <= i < |rs| && rs[i].pid == pid
  {
    if rs != [] {
      var n := |rs| - 1;
      ForNonEmpty(rs[..n], pid);
      if i :| 0 <= i < |rs| && rs[i].pid == pid {
        if i < n { assert rs[..n][i].pid == pid; }
      }
      if For(rs[..n], pid) != [] {
        var i :| 0 <= i < n && rs[..n][i].pid == pid;
        assert rs[i].pid == pid;
      }
    }
  }

  method SortedPids(pids: set<nat>) returns (r: seq<nat>)
    ensures forall i, j :: 0 <= i < j < |r| ==> r[i] < r[j]
    ensures forall p :: p in r <==> p in pids
  {
    var unordered := Enumerate(pids);
    r := Sort(unordered, (a: nat, b: nat) => a <= b);
    SameMultisetSameElements(r, unordered);
    forall p ensures p in r <==> p in pids { assert p in r <==> p in Elements(r); }
    forall i, j | 0 <= i < j < |r| ensures r[i] < r[j] { assert r[i] <= r[j] && r[i] != r[j]; }
  }

  method OrderedBatch(group: map<Str, WriteData>) returns (ds: seq<WriteData>)
    requires forall k :: k in group ==> group[k].key == k
    ensures KeysAscend(ds) && Lists(ds, group)
  {
    var keys := SortedKeys(group.Keys);
    KeysStrict(keys);
    ds := seq(|keys|, i requires 0 <= i < |keys| => group[keys[i]]);
    forall k | k in group ensures exists i :: 0 <= i < |ds| && ds[i].key == k {
      assert k in Elements(keys);
      var i :| 0 <= i < |keys| && keys[i] == k;
      assert ds[i].key == k;
    }
  }

  /** Which partitions have taken their part when the batch stops before pids[n]. */
  lemma Progress(rs: seq<Routed>, pids: seq<nat>, n: nat, fails: nat -> bool, pid: nat)
    requires forall i, j :: 0 <= i < j < |pids| ==> pids[i] < pids[j]
    requires forall p :: p in pids <==> For(rs, p) != []
    requires n <= |pids| && forall i :: 0 <= i < n ==> !fails(pids[i])
    requires n < |pids| ==> fails(pids[n])
    ensures For(rs, pid) != [] ==> (pid in pids[..n] <==> NoFailureUpTo(rs, fails, pid))
  {
    if For(rs, pid) != [] {
      var x :| 0 <= x < |pids| && pids[x] == pid;
      InPrefix(pids, n, x);
      if x < n {
        forall i | 0 <= i < |rs| && rs[i].pid <= pid ensures !fails(rs[i].pid) {
          ForNonEmpty(rs, rs[i].pid);
          var y :| 0 <= y < |pids| && pids[y] == rs[i].pid;
          assert y <= x;
        }
      } else {
        ForNonEmpty(rs, pids[n]);
        var i :| 0 <= i < |rs| && rs[i].pid == pids[n];
        assert rs[i].pid <= pid;
      }
    }
  }

  lemma InPrefix(pids: seq<nat>, n: nat, x: nat)
    requires forall i, j :: 0 <= i < j < |pids| ==> pids[i] < pids[j]
    requires n <= |pids| && x < |pids|
    ensures pids[x] in pids[..n] <==> x < n
  {
    if pids[x] in pids[..n] {
      var y :| 0 <= y < n && pids[..n][y] == pids[x];
      assert y == x;
    }
    assert x < n ==> pids[..n][x] == pids[x];
  }

  /** Every partition not above `pid` that the batch writes to accepts its part. */
  ghost predicate NoFailureUpTo(rs: seq<Routed>, fails: nat -> bool, pid: nat) {
    forall i :: 0 <= i < |rs| && rs[i].pid <= pid ==> !fails(rs[i].pid)
  }

  lemma NoFailureMeansNone(rs: seq<Routed>, pids: seq<nat>, fails: nat -> bool)
    requires forall p :: p in pids <==> For(rs, p) != []
    ensures (forall i :: 0 <= i < |rs| ==> !fails(rs[i].pid)) <==> (forall i :: 0 <= i < |pids| ==> !fails(pids[i]))
  {
    forall i | 0 <= i < |rs| ensures rs[i].pid in pids { ForNonEmpty(rs, rs[i].pid); }
    forall i | 0 <= i < |pids| ensures exists j :: 0 <= j < |rs| && rs[j].pid == pids[i] { ForNonEmpty(rs, pids[i]); }
  }

  // ---- Moving a namespace ----

  ghost predicate RowHas(rows: seq<(Str, Stored)>, k: Str) {
    exists i :: 0 <= i < |rows| && rows[i].0 == k
  }

  ghost function MovesTo(rows: seq<(Str, Stored)>, hash: Str -> nat, n: nat, source: nat, pid: nat): seq<WriteData>
    requires n >= 1
  {
    if rows == [] then []
    else
      var r := rows[|rows| - 1];
      MovesTo(rows[..|rows| - 1], hash, n, source, pid)
      + if Home(hash, n, r.0) == pid && pid != source then [WriteData(r.0, r.1.value, r.1.ts, Upsert)] else []
  }

  ghost function DeletesOf(rows: seq<(Str, Stored)>, hash: Str -> nat, n: nat, source: nat): seq<WriteData>
    requires n >= 1
  {
    if rows == [] then []
    else
      var r := rows[|rows| - 1];
      DeletesOf(rows[..|rows| - 1], hash, n, source)
      + if Home(hash, n, r.0) != source then [WriteData(r.0, [], r.1.ts, Delete)] else []
  }

  ghost predicate IsPlan(moves: map<nat, seq<WriteData>>, deletes: seq<WriteData>, rows: seq<(Str, Stored)>,
                         hash: Str -> nat, n: nat, source: nat)
    requires n >= 1
  {
    && deletes == DeletesOf(rows, hash, n, source)
    && (forall pid :: MovesTo(rows, hash, n, source, pid) == if pid in moves then moves[pid] else [])
    && (forall pid :: pid in moves ==> pid < n)
  }

  lemma PlanStep(moves: map<nat, seq<WriteData>>, deletes: seq<WriteData>, rows: seq<(Str, Stored)>, i: nat,
                 hash: Str -> nat, n: nat, source: nat)
    requires n >= 1 && i < |rows| && IsPlan(moves, deletes, rows[..i], hash, n, source)
    ensures var r, target := rows[i], Home(hash, n, rows[i].0);
      if target == source then IsPlan(moves, deletes, rows[..i + 1], hash, n, source)
      else
        var batch := if target in moves then moves[target] else [];
        IsPlan(moves[target := batch + [WriteData(r.0, r.1.value, r.1.ts, Upsert)]],
               deletes + [WriteData(r.0, [], r.1.ts, Delete)], rows[..i + 1], hash, n, source)
  {
    var r, target := rows[i], Home(hash, n, rows[i].0);
    var batch := if target in moves then moves[target] else [];
    var moves' := if target == source then moves else moves[target := batch + [WriteData(r.0, r.1.value, r.1.ts, Upsert)]];
    DeletesNext(rows, i, hash, n, source);
    forall pid ensures MovesTo(rows[..i + 1], hash, n, source, pid) == if pid in moves' then moves'[pid] else [] {
      MovesNext(rows, i, hash, n, source, pid);
    }
  }

  lemma MovesNext(rows: seq<(Str, Stored)>, i: nat, hash: Str -> nat, n: nat, source: nat, pid: nat)
    requires n >= 1 && i < |rows|
    ensures MovesTo(rows[..i + 1], hash, n, source, pid)
         == if Home(hash, n, rows[i].0) == pid && pid != source
            then MovesTo(rows[..i], hash, n, source, pid) + [WriteData(rows[i].0, rows[i].1.value, rows[i].1.ts, Upsert)]
            else MovesTo(rows[..i], hash, n, source, pid)
  {
    assert rows[..i + 1][..i] == rows[..i];
    EmptyIsNeutral(MovesTo(rows[..i], hash, n, source, pid));
  }

  lemma DeletesNext(rows: seq<(Str, Stored)>, i: nat, hash: Str -> nat, n: nat, source: nat)
    requires n >= 1 && i < |rows|
    ensures DeletesOf(rows[..i + 1], hash, n, source)
         == if Home(hash, n, rows[i].0) != source
            then DeletesOf(rows[..i], hash, n, source) + [WriteData(rows[i].0, [], rows[i].1.ts, Delete)]
            else DeletesOf(rows[..i], hash, n, source)
  {
    assert rows[..i + 1][..i] == rows[..i];
    EmptyIsNeutral(DeletesOf(rows[..i], hash, n, source));
  }

  /** The scanned rows are the partition's entries of the namespace. */
  lemma RowsOfNamespace(parts: Parts, source: nat, ns: Str, rows: seq<(Str, Stored)>, m: map<Str, Stored>, names: seq<Str>)
    requires source in parts && Represents(parts, m) && ns in names
    requires IsPage(rows, parts[source], ns + [COLON], ns + [SEMICOLON], 0)
    ensures forall i :: 0 <= i < |rows| ==> InNamespace(rows[i].0, ns) && rows[i].0 in m && m[rows[i].0] == rows[i].1
    ensures forall i :: 0 <= i < |rows| ==> Known(names, rows[i].0)
    ensures forall k :: At(parts, source, k) && InNamespace(k, ns) ==> RowHas(rows, k)
  {
    forall k ensures k in RangeKeys(parts[source], ns + [COLON], ns + [SEMICOLON]) <==> At(parts, source, k) && InNamespace(k, ns) {
      RangeHasPrefix(ns, [], [], k);
      assert ComposeKey(ns, []) == ns + [COLON];
      if HasPrefix(k, ns + [COLON]) { assert AtMost([], k[|ns| + 1..]); }
    }
    forall i | 0 <= i < |rows| ensures InNamespace(rows[i].0, ns) && rows[i].0 in m && m[rows[i].0] == rows[i].1 {
      assert At(parts, source, rows[i].0);
    }
    var j :| 0 <= j < |names| && names[j] == ns;
    forall i | 0 <= i < |rows| ensures Known(names, rows[i].0) {
      assert InNamespace(rows[i].0, names[j]);
    }
  }

  lemma {:induction false} MovesHaveKeys(rows: seq<(Str, Stored)>, hash: Str -> nat, n: nat, source: nat, pid: nat, k: Str)
    requires n >= 1
    ensures HasKey(MovesTo(rows, hash, n, source, pid), k) <==> RowHas(rows, k) && Home(hash, n, k) == pid && pid != source
    ensures HasKey(DeletesOf(rows, hash, n, source), k) <==> RowHas(rows, k) && Home(hash, n, k) != source
  {
    if rows != [] {
      var m := |rows| - 1;
      MovesHaveKeys(rows[..m], hash, n, source, pid, k);
      RowHasAppend(rows, k);
      HasKeyAppend(MovesTo(rows[..m], hash, n, source, pid), WriteData(rows[m].0, rows[m].1.value, rows[m].1.ts, Upsert), k);
      HasKeyAppend(DeletesOf(rows[..m], hash, n, source), WriteData(rows[m].0, [], rows[m].1.ts, Delete), k);
      assert MovesTo(rows[..m], hash, n, source, pid) + [] == MovesTo(rows[..m], hash, n, source, pid);
      assert DeletesOf(rows[..m], hash, n, source) + [] == DeletesOf(rows[..m], hash, n, source);
    }
  }

  lemma RowHasAppend(rows: seq<(Str, Stored)>, k: Str)
    requires rows != []
    ensures RowHas(rows, k) <==> RowHas(rows[..|rows| - 1], k) || rows[|rows| - 1].0 == k
  {
    var m := |rows| - 1;
    if i :| 0 <= i < |rows| && rows[i].0 == k {
      if i < m { assert rows[..m][i].0 == k; }
    }
    if RowHas(rows[..m], k) {
      var i :| 0 <= i < m && rows[..m][i].0 == k;
      assert rows[i].0 == k;
    }
  }

  lemma HasKeyAppend(ds: seq<WriteData>, d: WriteData, k: Str)
    ensures HasKey(ds + [d], k) <==> HasKey(ds, k) || d.key == k
  {
    if HasKey(ds, k) {
      var i :| 0 <= i < |ds| && ds[i].key == k;
      assert (ds + [d])[i].key == k;
    }
    assert (ds + [d])[|ds|] == d;
  }

  lemma {:induction false} PlanAscends(rows: seq<(Str, Stored)>, hash: Str -> nat, n: nat, source: nat, pid: nat)
    requires n >= 1
    requires forall i, j :: 0 <= i < j < |rows| ==> Less(rows[i].0, rows[j].0)
    ensures KeysAscend(MovesTo(rows, hash, n, source, pid)) && KeysAscend(DeletesOf(rows, hash, n, source))
  {
    if rows != [] {
      var m := |rows| - 1;
      PlanAscends(rows[..m], hash, n, source, pid);
      var a, b := MovesTo(rows[..m], hash, n, source, pid), DeletesOf(rows[..m], hash, n, source);
      forall i | 0 <= i < |a| ensures Less(a[i].key, rows[m].0) {
        assert HasKey(a, a[i].key);
        MovesHaveKeys(rows[..m], hash, n, source, pid, a[i].key);
        var j :| 0 <= j < m && rows[..m][j].0 == a[i].key;
      }
      forall i | 0 <= i < |b| ensures Less(b[i].key, rows[m].0) {
        assert HasKey(b, b[i].key);
        MovesHaveKeys(rows[..m], hash, n, source, pid, b[i].key);
        var j :| 0 <= j < m && rows[..m][j].0 == b[i].key;
      }
    }
  }

  lemma {:induction false} PlanCopies(rows: seq<(Str, Stored)>, hash: Str -> nat, n: nat, source: nat, pid: nat, m: map<Str, Stored>)
    requires n >= 1
    requires forall i :: 0 <= i < |rows| ==> rows[i].0 in m && m[rows[i].0] == rows[i].1
    ensures CopiesOf(MovesTo(rows, hash, n, source, pid), m)
    ensures forall d :: d in DeletesOf(rows, hash, n, source) ==> d.op.Delete?
  {
    if rows != [] { PlanCopies(rows[..|rows| - 1], hash, n, source, pid, m); }
  }

  /** Once its copies are written, every entry to delete has a copy in another partition. */
  lemma CopiesElsewhere(before: Parts, parts: Parts, hash: Str -> nat, n: nat, source: nat, rows: seq<(Str, Stored)>,
                        moves: map<nat, seq<WriteData>>, deletes: seq<WriteData>)
    requires n >= 1 && IsPlan(moves, deletes, rows, hash, n, source)
    requires forall pid, k :: At(parts, pid, k) <==> At(before, pid, k) || (pid in moves && HasKey(moves[pid], k))
    ensures forall d :: d in deletes ==> exists pid :: pid != source && At(parts, pid, d.key)
  {
    forall d | d in deletes ensures exists pid :: pid != source && At(parts, pid, d.key) {
      var i :| 0 <= i < |deletes| && deletes[i] == d;
      assert HasKey(deletes, d.key);
      var home := Home(hash, n, d.key);
      MovesHaveKeys(rows, hash, n, source, home, d.key);
      assert HasKey(MovesTo(rows, hash, n, source, home), d.key);
      assert home in moves;
      assert home != source && At(parts, home, d.key);
    }
  }

  /** What the partitions hold after the moves, and after the deletes. */
  ghost predicate AfterMoves(before: Parts, parts: Parts, moves: map<nat, seq<WriteData>>, source: nat, deletes: seq<WriteData>) {
    forall pid, k :: At(parts, pid, k) <==>
         (At(before, pid, k) || (pid in moves && HasKey(moves[pid], k))) && !(pid == source && HasKey(deletes, k))
  }

  lemma TowardsHome(before: Parts, parts: Parts, hash: Str -> nat, n: nat, source: nat, rows: seq<(Str, Stored)>,
                    moves: map<nat, seq<WriteData>>, deletes: seq<WriteData>, names: seq<Str>)
    requires n >= 1 && IsPlan(moves, deletes, rows, hash, n, source)
    requires parts.Keys <= before.Keys + moves.Keys
    requires forall pid, k :: At(parts, pid, k) ==> At(before, pid, k) || (pid in moves && HasKey(moves[pid], k))
    requires forall pid, k :: At(before, pid, k) && !HasKey(deletes, k) ==> At(parts, pid, k)
    requires forall i :: 0 <= i < |rows| ==> Known(names, rows[i].0)
    ensures OnlyTowardsHome(before, parts, hash, n, names)
  {
    forall pid: nat, k | At(parts, pid, k) ensures At(before, pid, k) || pid == Home(hash, n, k) {
      MovesHaveKeys(rows, hash, n, source, pid, k);
      if !At(before, pid, k) { assert moves[pid] == MovesTo(rows, hash, n, source, pid); }
    }
    forall pid: nat, k | At(before, pid, k) && !Known(names, k) ensures At(parts, pid, k) {
      MovesHaveKeys(rows, hash, n, source, pid, k);
    }
  }

  lemma MovedIsSettled(before: Parts, parts: Parts, hash: Str -> nat, n: nat, source: nat, ns: Str, rows: seq<(Str, Stored)>,
                       moves: map<nat, seq<WriteData>>, deletes: seq<WriteData>)
    requires n >= 1 && IsPlan(moves, deletes, rows, hash, n, source)
    requires AfterMoves(before, parts, moves, source, deletes)
    requires forall k :: At(before, source, k) && InNamespace(k, ns) ==> RowHas(rows, k)
    ensures Settled(parts, hash, n, source, ns)
  {
    forall k | At(parts, source, k) && InNamespace(k, ns) ensures Home(hash, n, k) == source {
      MovesHaveKeys(rows, hash, n, source, source, k);
      assert !HasKey(MovesTo(rows, hash, n, source, source), k);
    }
  }

  // ---- The whole refresh ----

  /** The first `count` namespaces are settled in the partition. */
  ghost predicate AllSettled(parts: Parts, hash: Str -> nat, n: nat, source: nat, names: seq<Str>, count: nat)
    requires n >= 1 && count <= |names|
  {
    forall j :: 0 <= j < count ==> Settled(parts, hash, n, source, names[j])
  }

  lemma AllSettledStays(before: Parts, after: Parts, hash: Str -> nat, n: nat, source: nat, names: seq<Str>, count: nat)
    requires n >= 1 && count <= |names|
    requires OnlyTowardsHome(before, after, hash, n, names) && AllSettled(before, hash, n, source, names, count)
    ensures AllSettled(after, hash, n, source, names, count)
  {
    forall j | 0 <= j < count ensures Settled(after, hash, n, source, names[j]) {
      SettledStays(before, after, hash, n, source, names[j], names);
    }
  }

  /** The result of a completed refresh: the entries of the listed namespaces are unchanged, each
      lives in its own partition and nowhere else, and only configured partitions are left. */
  ghost predicate Refreshed(before: Parts, after: Parts, m: map<Str, Stored>, hash: Str -> nat, n: nat, names: seq<Str>)
    requires n >= 1
  {
    && (forall pid, k :: At(after, pid, k) ==> k in m && after[pid][k] == m[k])
    && (forall pid, k :: At(after, pid, k) && Known(names, k) ==> pid == Home(hash, n, k))
    && (forall k :: k in m && Known(names, k) ==> At(after, Home(hash, n, k), k))
    && (forall pid: nat :: pid in after ==> pid < n)
    && (forall pid: nat, k :: At(before, pid, k) && pid < n && !Known(names, k) ==> At(after, pid, k))
  }

  lemma SettledStep(last: Parts, parts: Parts, hash: Str -> nat, n: nat, source: nat, names: seq<Str>, count: nat)
    requires n >= 1 && count < |names|
    requires OnlyTowardsHome(last, parts, hash, n, names) && AllSettled(last, hash, n, source, names, count)
    requires Settled(parts, hash, n, source, names[count])
    ensures AllSettled(parts, hash, n, source, names, count + 1)
  {
    AllSettledStays(last, parts, hash, n, source, names, count);
  }

  /** The first `count` source partitions are settled in every listed namespace. */
  ghost predicate SourcesSettled(parts: Parts, hash: Str -> nat, n: nat, existing: seq<nat>, names: seq<Str>, count: nat)
    requires n >= 1 && count <= |existing|
  {
    forall i :: 0 <= i < count ==> AllSettled(parts, hash, n, existing[i], names, |names|)
  }

  lemma SourceStep(last: Parts, parts: Parts, hash: Str -> nat, n: nat, existing: seq<nat>, names: seq<Str>, count: nat)
    requires n >= 1 && count < |existing|
    requires OnlyTowardsHome(last, parts, hash, n, names) && SourcesSettled(last, hash, n, existing, names, count)
    requires AllSettled(parts, hash, n, existing[count], names, |names|)
    ensures SourcesSettled(parts, hash, n, existing, names, count + 1)
  {
    forall i | 0 <= i < count ensures AllSettled(parts, hash, n, existing[i], names, |names|) {
      AllSettledStays(last, parts, hash, n, existing[i], names, |names|);
    }
  }

  lemma SettledIsHome(before: Parts, after: Parts, hash: Str -> nat, n: nat, existing: seq<nat>, names: seq<Str>)
    requires n >= 1 && OnlyTowardsHome(before, after, hash, n, names)
    requires forall pid :: pid in before ==> pid in existing
    requires SourcesSettled(after, hash, n, existing, names, |existing|)
    ensures KnownAtHome(after, hash, n, names)
  {
    forall pid: nat, k | At(after, pid, k) && Known(names, k) ensures pid == Home(hash, n, k) {
      if At(before, pid, k) {
        var i :| 0 <= i < |existing| && existing[i] == pid;
        var j :| 0 <= j < |names| && InNamespace(k, names[j]);
        assert AllSettled(after, hash, n, existing[i], names, |names|);
        assert Settled(after, hash, n, existing[i], names[j]);
      }
    }
  }

  lemma CleanupKeepsKnown(before: Parts, moved: Parts, after: Parts, existing: seq<nat>, m: map<Str, Stored>,
                          hash: Str -> nat, n: nat, names: seq<Str>)
    requires n >= 1 && Represents(moved, m)
    requires forall pid :: pid in before ==> pid in existing
    requires OnlyTowardsHome(before, moved, hash, n, names) && KnownAtHome(moved, hash, n, names)
    requires after == map pid | pid in moved && !(pid in existing && pid >= n) :: moved[pid]
    ensures Refreshed(before, after, m, hash, n, names)
  {
    forall pid: nat, k ensures At(after, pid, k) <==> At(moved, pid, k) && pid < n {
      if At(moved, pid, k) { assert pid in after <==> pid < n; }
    }
    forall k | k in m && Known(names, k) ensures At(after, Home(hash, n, k), k) {
      var pid :| At(moved, pid, k);
    }
  }

  ghost predicate KnownAtHome(parts: Parts, hash: Str -> nat, n: nat, names: seq<Str>)
    requires n >= 1
  {
    forall pid, k :: At(parts, pid, k) && Known(names, k) ==> pid == Home(hash, n, k)
  }

  /** Leaving the partitions alone is right exactly when every listed entry is at home already: the
      recorded layout is trusted, not checked. A completed refresh and the batches after it see to
      that; EloqStoreAdapter.StoppedRefreshIsForgotten is what they do not cover. */
  lemma SkippedRefresh(parts: Parts, m: map<Str, Stored>, hash: Str -> nat, n: nat, names: seq<Str>)
    requires n >= 1 && Represents(parts, m)
    requires forall pid: nat :: pid in parts ==> pid < n
    ensures Refreshed(parts, parts, m, hash, n, names) <==> KnownAtHome(parts, hash, n, names)
  {
    if KnownAtHome(parts, hash, n, names) {
      forall k | k in m && Known(names, k) ensures At(parts, Home(hash, n, k), k) {
        var pid :| At(parts, pid, k);
      }
    }
  }

  /** A completed refresh makes the next start right in skipping it. */
  lemma RefreshedIsAtHome(before: Parts, after: Parts, m: map<Str, Stored>, hash: Str -> nat, n: nat, names: seq<Str>)
    requires n >= 1 && Refreshed(before, after, m, hash, n, names)
    ensures KnownAtHome(after, hash, n, names)
  {
  }

  /** What a batch leaves when requests fail: partitions below the first that does have their part. */
  ghost predicate Written(parts: Parts, parts': Parts, rs: seq<Routed>, fails: nat -> bool) {
    && (forall pid :: Part(parts', pid) == if NoFailureUpTo(rs, fails, pid) then ApplyBatch(Part(parts, pid), For(rs, pid)) else Part(parts, pid))
    && (forall pid :: pid in parts' ==> pid in parts || For(rs, pid) != [])
  }

  /** Batches keep it right, whichever of their requests fail. */
  lemma WritesKeepHome(parts: Parts, parts': Parts, rs: seq<Routed>, fails: nat -> bool, hash: Str -> nat, n: nat, names: seq<Str>)
    requires n >= 1 && KnownAtHome(parts, hash, n, names) && Written(parts, parts', rs, fails)
    requires forall i :: 0 <= i < |rs| ==> rs[i].pid == Home(hash, n, rs[i].data.key)
    ensures KnownAtHome(parts', hash, n, names)
  {
    forall pid, k | At(parts', pid, k) && Known(names, k) ensures pid == Home(hash, n, k) {
      if !At(parts, pid, k) {
        assert Part(parts', pid) == if NoFailureUpTo(rs, fails, pid) then ApplyBatch(Part(parts, pid), For(rs, pid)) else Part(parts, pid);
        WriteIsHome(parts, parts', rs, hash, n, pid, k);
      }
    }
  }

  lemma WriteIsHome(parts: Parts, parts': Parts, rs: seq<Routed>, hash: Str -> nat, n: nat, pid: nat, k: Str)
    requires n >= 1 && forall i :: 0 <= i < |rs| ==> rs[i].pid == Home(hash, n, rs[i].data.key)
    requires At(parts', pid, k) && !At(parts, pid, k)
    requires Part(parts', pid) == ApplyBatch(Part(parts, pid), For(rs, pid)) || Part(parts', pid) == Part(parts, pid)
    ensures pid == Home(hash, n, k)
  {
    var p := Part(parts, pid);
    assert k in Part(parts', pid) && k !in p;
    BatchIsOverride(p, For(rs, pid));
    ForHasKey(rs, hash, n, pid, k);
  }

  /** Batches one after another, each with failures of its own. */
  ghost predicate IsWriteRun(run: seq<Parts>, batches: seq<seq<WriteEntry>>, fails: seq<nat -> bool>, hash: Str -> nat, n: nat)
    requires n >= 1
  {
    && |run| == |batches| + 1 == |fails| + 1
    && forall i :: 0 <= i < |batches| ==> Written(run[i], run[i + 1], RouteAll(hash, n, batches[i]), fails[i])
  }

  lemma WriteStaysHome(parts: Parts, parts': Parts, ws: seq<WriteEntry>, fails: nat -> bool, hash: Str -> nat, n: nat, names: seq<Str>)
    requires n >= 1 && KnownAtHome(parts, hash, n, names) && Written(parts, parts', RouteAll(hash, n, ws), fails)
    requires (forall pid: nat :: pid in parts ==> pid < n) && forall j :: 0 <= j < |ws| ==> COLON !in ws[j].entry.nameSpace
    ensures KnownAtHome(parts', hash, n, names) && forall pid: nat :: pid in parts' ==> pid < n
  {
    var rs := RouteAll(hash, n, ws);
    forall i | 0 <= i < |rs| ensures rs[i].pid == Home(hash, n, rs[i].data.key) {
      HomeOfEntry(hash, n, ws[i].entry.nameSpace, ws[i].entry.key);
    }
    WritesKeepHome(parts, parts', rs, fails, hash, n, names);
    forall pid: nat | pid in parts' ensures pid < n {
      if pid !in parts { ForNonEmpty(rs, pid); }
    }
  }

  lemma {:induction false} WriteRunStaysHome(run: seq<Parts>, batches: seq<seq<WriteEntry>>, fails: seq<nat -> bool>, hash: Str -> nat, n: nat,
                                             names: seq<Str>, count: nat)
    requires n >= 1 && IsWriteRun(run, batches, fails, hash, n) && count < |run|
    requires KnownAtHome(run[0], hash, n, names) && forall pid: nat :: pid in run[0] ==> pid < n
    requires forall i, j :: 0 <= i < |batches| && 0 <= j < |batches[i]| ==> COLON !in batches[i][j].entry.nameSpace
    ensures KnownAtHome(run[count], hash, n, names) && forall pid: nat :: pid in run[count] ==> pid < n
  {
    if count > 0 {
      var i := count - 1;
      WriteRunStaysHome(run, batches, fails, hash, n, names, i);
      assert Written(run[i], run[i + 1], RouteAll(hash, n, batches[i]), fails[i]);
      WriteStaysHome(run[i], run[count], batches[i], fails[i], hash, n, names);
    }
  }

  /** After a completed refresh and any sequence of batches, with any failures, a start with the same
      partition count is right in moving nothing. */
  lemma SkippingStaysRight(before: Parts, m0: map<Str, Stored>, run: seq<Parts>, batches: seq<seq<WriteEntry>>, fails: seq<nat -> bool>,
                           m: map<Str, Stored>, hash: Str -> nat, n: nat, names: seq<Str>)
    requires n >= 1 && IsWriteRun(run, batches, fails, hash, n) && Refreshed(before, run[0], m0, hash, n, names)
    requires forall i, j :: 0 <= i < |batches| && 0 <= j < |batches[i]| ==> COLON !in batches[i][j].entry.nameSpace
    requires Represents(run[|run| - 1], m)
    ensures Refreshed(run[|run| - 1], run[|run| - 1], m, hash, n, names)
  {
    RefreshedIsAtHome(before, run[0], m0, hash, n, names);
    WriteRunStaysHome(run, batches, fails, hash, n, names, |run| - 1);
    SkippedRefresh(run[|run| - 1], m, hash, n, names);
  }

  /** Refreshing what a refresh that was stopped, or one that was completed, has left. */
  lemma RefreshedAgain(before: Parts, mid: Parts, after: Parts, m: map<Str, Stored>, hash: Str -> nat, n: nat, names: seq<Str>)
    requires n >= 1 && (OnlyTowardsHome(before, mid, hash, n, names) || Refreshed(before, mid, m, hash, n, names))
    requires Refreshed(mid, after, m, hash, n, names)
    ensures Refreshed(before, after, m, hash, n, names)
  {
  }

  /** What is left of the map once outdated partitions are gone. */
  ghost function Held(parts: Parts, m: map<Str, Stored>): (h: map<Str, Stored>) {
    map k | k in m && (exists pid :: At(parts, pid, k)) :: m[k]
  }

  lemma RefreshedHolds(before: Parts, mid: Parts, after: Parts, m: map<Str, Stored>, hash: Str -> nat, n: nat, names: seq<Str>)
    requires n >= 1 && Refreshed(before, mid, m, hash, n, names)
    ensures Represents(mid, Held(mid, m))
    ensures Refreshed(mid, after, Held(mid, m), hash, n, names) ==> Refreshed(mid, after, m, hash, n, names)
  {
  }

  lemma NothingToRefresh(parts: Parts, existing: seq<nat>, m: map<Str, Stored>, hash: Str -> nat, n: nat, names: seq<Str>)
    requires n >= 1 && Represents(parts, m) && existing == []
    requires forall pid :: pid in parts ==> pid in existing
    ensures Refreshed(parts, parts, m, hash, n, names)
  {
    assert forall pid: nat :: pid !in parts;
    assert forall k :: k !in m;
  }

  /** However far a stopped refresh got, a later one that completes ends where an undisturbed one
      would have: the listed entries are in the same partitions with the same values. */
  lemma RetryEndsTheSame(before: Parts, stopped: Parts, after: Parts, undisturbed: Parts, m: map<Str, Stored>,
                         hash: Str -> nat, n: nat, names: seq<Str>, pid: nat, k: Str)
    requires n >= 1 && OnlyTowardsHome(before, stopped, hash, n, names)
    requires Refreshed(stopped, after, m, hash, n, names) && Refreshed(before, undisturbed, m, hash, n, names)
    ensures Refreshed(before, after, m, hash, n, names)
    ensures Known(names, k) ==> (At(after, pid, k) <==> At(undisturbed, pid, k))
    ensures Known(names, k) && At(after, pid, k) ==> after[pid][k] == undisturbed[pid][k]
  {
  }

  // ---- Writing the copies, one target after another ----

  /** The copies for the targets in `done` have been added, and nothing else has changed. */
  ghost predicate CopiedFor(before: Parts, after: Parts, moves: map<nat, seq<WriteData>>, done: seq<nat>) {
    && before.Keys <= after.Keys <= before.Keys + moves.Keys
    && forall pid, k :: At(after, pid, k) <==> At(before, pid, k) || (pid in done && pid in moves && HasKey(moves[pid], k))
  }

  ghost function IsCopied(before: Parts, after: Parts, moves: map<nat, seq<WriteData>>, done: seq<nat>): Verdict {
    Judge(CopiedFor(before, after, moves, done))
  }

  lemma CopiedNext(before: Parts, parts: Parts, m: map<Str, Stored>, moves: map<nat, seq<WriteData>>, targets: seq<nat>, t: nat)
    requires t < |targets| && targets[t] in moves && Represents(parts, m) && CopiesOf(moves[targets[t]], m)
    requires IsCopied(before, parts, moves, targets[..t]) == Yes
    ensures var parts' := parts[targets[t] := ApplyBatch(Part(parts, targets[t]), moves[targets[t]])];
      Represents(parts', m) && IsCopied(before, parts', moves, targets[..t + 1]) == Yes
  {
    assert targets[..t + 1] == targets[..t] + [targets[t]];
    CopyStep(parts, m, targets[t], moves[targets[t]]);
  }

  lemma CopiedStart(before: Parts, moves: map<nat, seq<WriteData>>)
    ensures IsCopied(before, before, moves, []) == Yes
  {
  }
}
