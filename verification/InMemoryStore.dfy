/** The sharded in-memory store (src/store/in_memory_store_adapter.cpp). */
module InMemoryStore {
  import opened Bytes
  import opened Collections
  import opened FlatStore

  const SHARD_COUNT: nat := 32

  type Shard = map<Str, map<Str, Stored>>

  function ShardIndex(hash: Str -> nat, ns: Str, key: Str): (i: nat)
    ensures i < SHARD_COUNT
  {
    hash(ns + [COLON] + key) % SHARD_COUNT
  }

  predicate HasIn(shard: Shard, ns: Str, key: Str) {
    ns in shard && key in shard[ns]
  }

  predicate Has(db: seq<Shard>, i: nat, ns: Str, key: Str) {
    i < |db| && HasIn(db[i], ns, key)
  }

  /** Every key lives only in its hash shard, and no shard keeps an empty namespace. */
  ghost predicate Routed(db: seq<Shard>, hash: Str -> nat) {
    && |db| == SHARD_COUNT
    && (forall i, ns, key :: Has(db, i, ns, key) ==> i == ShardIndex(hash, ns, key))
    && (forall i, ns :: 0 <= i < |db| && ns in db[i] ==> db[i][ns] != map[])
  }

  ghost function StoredKeys(db: seq<Shard>): set<(Str, Str)> {
    set i, ns, key | 0 <= i < |db| && ns in db[i] && key in db[i][ns] :: (ns, key)
  }

  /** The flat map the shards stand for. */
  ghost function FlatOf(db: seq<Shard>, hash: Str -> nat): (m: Flat)
    requires |db| == SHARD_COUNT
  {
    map p | p in StoredKeys(db) && Has(db, ShardIndex(hash, p.0, p.1), p.0, p.1) ::
      db[ShardIndex(hash, p.0, p.1)][p.0][p.1]
  }

  /** A routed state hides nothing: what is stored anywhere is found where lookups go. */
  lemma FlatLookup(db: seq<Shard>, hash: Str -> nat, ns: Str, key: Str)
    requires |db| == SHARD_COUNT
    ensures var i := ShardIndex(hash, ns, key);
      && ((ns, key) in FlatOf(db, hash) <==> Has(db, i, ns, key))
      && (Has(db, i, ns, key) ==> FlatOf(db, hash)[(ns, key)] == db[i][ns][key])
  {
  }

  function Inner(shard: Shard, ns: Str): (m: map<Str, Stored>) {
    if ns in shard then shard[ns] else map[]
  }

  function PutShard(shard: Shard, ns: Str, key: Str, v: Stored): (r: Shard) {
    shard[ns := Inner(shard, ns)[key := v]]
  }

  function DeleteShard(shard: Shard, ns: Str, key: Str): (r: Shard) {
    var rest := Inner(shard, ns) - {key};
    if rest == map[] then shard - {ns} else shard[ns := rest]
  }

  lemma PutShardHas(shard: Shard, ns: Str, key: Str, v: Stored, n: Str, k: Str)
    ensures var r := PutShard(shard, ns, key, v);
      && (HasIn(r, n, k) <==> HasIn(shard, n, k) || (n == ns && k == key))
      && (HasIn(r, n, k) ==> r[n][k] == if n == ns && k == key then v else shard[n][k])
  {
  }

  lemma DeleteShardHas(shard: Shard, ns: Str, key: Str, n: Str, k: Str)
    ensures var r := DeleteShard(shard, ns, key);
      && (HasIn(r, n, k) <==> HasIn(shard, n, k) && !(n == ns && k == key))
      && (HasIn(r, n, k) ==> r[n][k] == shard[n][k])
  {
    if n == ns && HasIn(shard, n, k) && k != key {
      assert k in Inner(shard, ns) - {key};
    }
  }

  lemma PutRefinesFlat(db: seq<Shard>, hash: Str -> nat, ns: Str, key: Str, v: Stored)
    requires Routed(db, hash)
    ensures var i := ShardIndex(hash, ns, key);
      var db' := db[i := PutShard(db[i], ns, key, v)];
      Routed(db', hash) && FlatOf(db', hash) == FlatOf(db, hash)[(ns, key) := v]
  {
    var i := ShardIndex(hash, ns, key);
    var db' := db[i := PutShard(db[i], ns, key, v)];
    forall j, n, k | Has(db', j, n, k) ensures j == ShardIndex(hash, n, k) {
      if j == i { PutShardHas(db[i], ns, key, v, n, k); }
      assert Has(db, j, n, k) || (n == ns && k == key);
    }
    forall j, n | 0 <= j < |db'| && n in db'[j] ensures db'[j][n] != map[] {
      if j == i && n == ns { assert key in db'[j][n]; }
    }
    var a, b := FlatOf(db, hash)[(ns, key) := v], FlatOf(db', hash);
    forall n, k ensures ((n, k) in b <==> (n, k) in a) && ((n, k) in b ==> b[(n, k)] == a[(n, k)]) {
      FlatLookup(db, hash, n, k);
      FlatLookup(db', hash, n, k);
      PutShardHas(db[i], ns, key, v, n, k);
    }
    SameFlat(a, b);
  }

  lemma DeleteRefinesFlat(db: seq<Shard>, hash: Str -> nat, ns: Str, key: Str)
    requires Routed(db, hash)
    ensures var i := ShardIndex(hash, ns, key);
      var db' := db[i := DeleteShard(db[i], ns, key)];
      Routed(db', hash) && FlatOf(db', hash) == FlatOf(db, hash) - {(ns, key)}
  {
    var i := ShardIndex(hash, ns, key);
    var db' := db[i := DeleteShard(db[i], ns, key)];
    forall j, n, k | Has(db', j, n, k) ensures j == ShardIndex(hash, n, k) {
      if j == i { DeleteShardHas(db[i], ns, key, n, k); }
      assert Has(db, j, n, k);
    }
    var a, b := FlatOf(db, hash) - {(ns, key)}, FlatOf(db', hash);
    forall n, k ensures ((n, k) in b <==> (n, k) in a) && ((n, k) in b ==> b[(n, k)] == a[(n, k)]) {
      FlatLookup(db, hash, n, k);
      FlatLookup(db', hash, n, k);
      DeleteShardHas(db[i], ns, key, n, k);
    }
    SameFlat(a, b);
  }

  lemma SameFlat(a: Flat, b: Flat)
    requires forall n, k :: ((n, k) in b <==> (n, k) in a) && ((n, k) in b ==> b[(n, k)] == a[(n, k)])
    ensures a == b
  {
    forall p: (Str, Str) ensures (p in a <==> p in b) && (p in a ==> a[p] == b[p]) {
      assert p == (p.0, p.1);
    }
  }

  // ---- Usage ----

  function EntryFootprintBytes(ns: Str, key: Str, value: Str, overhead: nat): (n: nat) {
    |ns| + |key| + |value| + overhead
  }

  ghost function Footprints(m: Flat, overhead: nat): (f: map<(Str, Str), nat>)
    ensures f.Keys == m.Keys
  {
    map p | p in m :: EntryFootprintBytes(p.0, p.1, m[p].value, overhead)
  }

  /** The footprint of what the key holds now. */
  ghost function Held(m: Flat, p: (Str, Str), overhead: nat): nat {
    if p in m then EntryFootprintBytes(p.0, p.1, m[p].value, overhead) else 0
  }

  lemma FootprintsOfPut(m: Flat, p: (Str, Str), v: Stored, overhead: nat)
    ensures Footprints(m[p := v], overhead)
         == Footprints(m, overhead)[p := EntryFootprintBytes(p.0, p.1, v.value, overhead)]
  {
  }

  lemma FootprintPut(m: Flat, p: (Str, Str), v: Stored, overhead: nat)
    ensures Held(m, p, overhead) <= Total(Footprints(m, overhead))
    ensures Total(Footprints(m[p := v], overhead))
         == Total(Footprints(m, overhead)) - Held(m, p, overhead) + EntryFootprintBytes(p.0, p.1, v.value, overhead)
  {
    var f, n := Footprints(m, overhead), EntryFootprintBytes(p.0, p.1, v.value, overhead);
    FootprintsOfPut(m, p, v, overhead);
    TotalPut(f, p, n);
    if p in m { TotalRemove(f, p); }
  }

  lemma CountPut<K, V>(m: map<K, V>, k: K, v: V)
    ensures |m[k := v]| == if k in m then |m| else |m| + 1
  {
    assert m[k := v].Keys == m.Keys + {k};
  }

  lemma FootprintRemove(m: Flat, p: (Str, Str), overhead: nat)
    requires p in m
    ensures var o := EntryFootprintBytes(p.0, p.1, m[p].value, overhead);
      && o <= Total(Footprints(m, overhead))
      && Total(Footprints(m - {p}, overhead)) == Total(Footprints(m, overhead)) - o
      && |m - {p}| == |m| - 1
  {
    var f := Footprints(m, overhead);
    assert Footprints(m - {p}, overhead) == f - {p};
    TotalRemove(f, p);
    assert (m - {p}).Keys == m.Keys - {p};
  }

  /** What the adapter keeps track of: whether the shards are routed, and the flat map's size and
      total footprint. */
  datatype Books = Books(routed: bool, items: int, bytes: int)

  ghost function Audit(db: seq<Shard>, hash: Str -> nat, overhead: nat): Books
    requires |db| == SHARD_COUNT
  {
    Books(Routed(db, hash), |FlatOf(db, hash)|, Total(Footprints(FlatOf(db, hash), overhead)))
  }

  /** The footprint of what a shard holds under the key. */
  function FootprintAt(shard: Shard, ns: Str, key: Str, overhead: nat): (n: nat) {
    if HasIn(shard, ns, key) then EntryFootprintBytes(ns, key, shard[ns][key].value, overhead) else 0
  }

  /** A put into the routed shard: the flat map gains one entry, and the books follow. */
  lemma PutAudit(db: seq<Shard>, hash: Str -> nat, overhead: nat, i: nat, ns: Str, key: Str, v: Stored, items: nat, mem: nat,
                 db': seq<Shard>, oldBytes: nat, newBytes: nat, existing: bool)
    returns (items': nat, mem': nat)
    requires |db| == SHARD_COUNT && i == ShardIndex(hash, ns, key) && Audit(db, hash, overhead) == Books(true, items, mem)
    requires existing == HasIn(db[i], ns, key) && newBytes == EntryFootprintBytes(ns, key, v.value, overhead)
    requires oldBytes == FootprintAt(db[i], ns, key, overhead) && db' == db[i := PutShard(db[i], ns, key, v)]
    ensures oldBytes <= mem && (!existing ==> oldBytes == 0) && FlatOf(db', hash) == FlatOf(db, hash)[(ns, key) := v]
    ensures items' == items + (if existing then 0 else 1) && mem' == mem - oldBytes + newBytes
    ensures Audit(db', hash, overhead) == Books(true, items', mem')
  {
    PutRefinesFlat(db, hash, ns, key, v);
    HeldInShard(db, hash, ns, key, overhead);
    PutBooks(FlatOf(db, hash), (ns, key), v, overhead);
    items', mem' := items + (if existing then 0 else 1), mem - oldBytes + newBytes;
  }

  lemma HeldInShard(db: seq<Shard>, hash: Str -> nat, ns: Str, key: Str, overhead: nat)
    requires |db| == SHARD_COUNT
    ensures var shard := db[ShardIndex(hash, ns, key)];
      && ((ns, key) in FlatOf(db, hash) <==> HasIn(shard, ns, key))
      && Held(FlatOf(db, hash), (ns, key), overhead) == FootprintAt(shard, ns, key, overhead)
  {
    FlatLookup(db, hash, ns, key);
  }

  lemma PutBooks(m: Flat, p: (Str, Str), v: Stored, overhead: nat)
    ensures |m[p := v]| == |m| + if p in m then 0 else 1
    ensures Held(m, p, overhead) <= Total(Footprints(m, overhead))
    ensures Total(Footprints(m[p := v], overhead))
         == Total(Footprints(m, overhead)) - Held(m, p, overhead) + EntryFootprintBytes(p.0, p.1, v.value, overhead)
  {
    FootprintPut(m, p, v, overhead);
    CountPut(m, p, v);
  }

  lemma DeleteAudit(db: seq<Shard>, hash: Str -> nat, overhead: nat, i: nat, ns: Str, key: Str, items: nat, mem: nat,
                    db': seq<Shard>, bytes: nat)
    returns (items': nat, mem': nat)
    requires |db| == SHARD_COUNT && i == ShardIndex(hash, ns, key) && Audit(db, hash, overhead) == Books(true, items, mem)
    requires HasIn(db[i], ns, key) && bytes == FootprintAt(db[i], ns, key, overhead)
    requires db' == db[i := DeleteShard(db[i], ns, key)]
    ensures items == items' + 1 && mem == mem' + bytes && Audit(db', hash, overhead) == Books(true, items', mem')
    ensures FlatOf(db', hash) == FlatOf(db, hash) - {(ns, key)}
  {
    DeleteRefinesFlat(db, hash, ns, key);
    HeldInShard(db, hash, ns, key, overhead);
    FootprintRemove(FlatOf(db, hash), (ns, key), overhead);
    items', mem' := items - 1, mem - bytes;
  }

  lemma DeleteAbsent(db: seq<Shard>, hash: Str -> nat, ns: Str, key: Str)
    requires |db| == SHARD_COUNT && !HasIn(db[ShardIndex(hash, ns, key)], ns, key)
    ensures FlatOf(db, hash) - {(ns, key)} == FlatOf(db, hash)
  {
    FlatLookup(db, hash, ns, key);
  }

  // ---- The adapter ----

  class InMemoryStoreAdapter {
    const hash: Str -> nat
    const overhead: nat
    const shards: array<Shard>
    var approxItemCount: nat
    var approxMemUsedBytes: nat

    ghost predicate Valid()
      reads this, shards
    {
      && shards.Length == SHARD_COUNT
      && Audit(shards[..], hash, overhead) == Books(true, approxItemCount, approxMemUsedBytes)
    }

    ghost function Contents(): Flat
      requires Valid()
      reads this, shards
    {
      FlatOf(shards[..], hash)
    }

    constructor (hash: Str -> nat, overhead: nat)
      ensures Valid() && Contents() == map[] && fresh(shards)
    {
      this.hash, this.overhead := hash, overhead;
      shards := new Shard[SHARD_COUNT](_ => map[]);
      approxItemCount, approxMemUsedBytes := 0, 0;
      new;
      assert FlatOf(shards[..], hash) == map[];
      assert Footprints(map[], overhead) == map[];
    }

    method Put(ns: Str, key: Str, value: Str, ts: nat) returns (ok: bool)
      requires Valid()
      modifies this, shards
      ensures Valid() && ok
      ensures Contents() == old(Contents())[(ns, key) := Stored(value, ts)]
    {
      var i := ShardIndex(hash, ns, key);
      UpsertLocked(i, ns, key, value, ts);
      ok := true;
    }

    method UpsertLocked(i: nat, ns: Str, key: Str, value: Str, ts: nat)
      requires Valid() && i == ShardIndex(hash, ns, key)
      modifies this, shards
      ensures Valid()
      ensures Contents() == old(Contents())[(ns, key) := Stored(value, ts)]
    {
      var newBytes := EntryFootprintBytes(ns, key, value, overhead);
      ghost var items, mem;
      var existing, oldBytes;
      existing, oldBytes, items, mem := PutRow(i, ns, key, Stored(value, ts), newBytes);
      ghost var after := shards[..];
      CountUpsert(existing, oldBytes, newBytes, items, mem);
      assert shards[..] == after;
    }

    /** Puts the entry; the counters still say what was there before. */
    method PutRow(i: nat, ns: Str, key: Str, v: Stored, ghost newBytes: nat)
      returns (existing: bool, oldBytes: nat, ghost items: nat, ghost mem: nat)
      requires Valid() && i == ShardIndex(hash, ns, key) && newBytes == EntryFootprintBytes(ns, key, v.value, overhead)
      modifies shards
      ensures oldBytes <= approxMemUsedBytes && (!existing ==> oldBytes == 0)
      ensures items == approxItemCount + (if existing then 0 else 1) && mem == approxMemUsedBytes - oldBytes + newBytes
      ensures Audit(shards[..], hash, overhead) == Books(true, items, mem)
      ensures FlatOf(shards[..], hash) == FlatOf(old(shards[..]), hash)[(ns, key) := v]
    {
      existing, oldBytes := HasIn(shards[..][i], ns, key), FootprintAt(shards[..][i], ns, key, overhead);
      PutEntry(i, ns, key, v);
      items, mem := PutAudit(old(shards[..]), hash, overhead, i, ns, key, v, old(approxItemCount), old(approxMemUsedBytes), shards[..],
                             oldBytes, newBytes, existing);
    }

    method PutEntry(i: nat, ns: Str, key: Str, v: Stored)
      requires i < shards.Length
      modifies shards
      ensures shards[..] == old(shards[..])[i := PutShard(old(shards[..])[i], ns, key, v)]
    {
      shards[i] := PutShard(shards[i], ns, key, v);
    }

    method CountUpsert(existing: bool, oldBytes: nat, newBytes: nat, ghost items: nat, ghost mem: nat)
      requires oldBytes <= approxMemUsedBytes && (!existing ==> oldBytes == 0)
      requires items == approxItemCount + (if existing then 0 else 1) && mem == approxMemUsedBytes - oldBytes + newBytes
      modifies this`approxItemCount, this`approxMemUsedBytes
      ensures approxItemCount == items && approxMemUsedBytes == mem
    {
      if !existing {
        approxItemCount := approxItemCount + 1;
        approxMemUsedBytes := approxMemUsedBytes + newBytes;
        return;
      }
      if newBytes >= oldBytes {
        approxMemUsedBytes := approxMemUsedBytes + (newBytes - oldBytes);
      } else {
        approxMemUsedBytes := approxMemUsedBytes - (oldBytes - newBytes);
      }
    }

    method Get(ns: Str, key: Str) returns (found: bool, value: Str)
      requires Valid()
      ensures found <==> (ns, key) in Contents()
      ensures found ==> value == Contents()[(ns, key)].value
    {
      FlatLookup(shards[..], hash, ns, key);
      var i := ShardIndex(hash, ns, key);
      if ns !in shards[i] || key !in shards[i][ns] {
        return false, [];
      }
      return true, shards[i][ns][key].value;
    }

    method Delete(ns: Str, key: Str, ts: nat) returns (ok: bool)
      requires Valid()
      modifies this, shards
      ensures Valid() && ok
      ensures Contents() == old(Contents()) - {(ns, key)}
    {
      var i := ShardIndex(hash, ns, key);
      DeleteLocked(i, ns, key);
      ok := true;
    }

    method DeleteLocked(i: nat, ns: Str, key: Str)
      requires Valid() && i == ShardIndex(hash, ns, key)
      modifies this, shards
      ensures Valid()
      ensures Contents() == old(Contents()) - {(ns, key)}
    {
      if ns !in shards[i] || key !in shards[i][ns] {
        DeleteAbsent(shards[..], hash, ns, key);
        return;
      }
      EraseLocked(i, ns, key);
    }

    method EraseLocked(i: nat, ns: Str, key: Str)
      requires Valid() && i == ShardIndex(hash, ns, key) && HasIn(shards[..][i], ns, key)
      modifies this, shards
      ensures Valid()
      ensures Contents() == old(Contents()) - {(ns, key)}
    {
      ghost var items, mem;
      var bytes;
      bytes, items, mem := EraseRow(i, ns, key);
      ghost var after := shards[..];
      CountDelete(bytes, items, mem);
      assert shards[..] == after;
    }

    /** Erases the entry; the counters still say what was there before. */
    method EraseRow(i: nat, ns: Str, key: Str) returns (bytes: nat, ghost items: nat, ghost mem: nat)
      requires Valid() && i == ShardIndex(hash, ns, key) && HasIn(shards[..][i], ns, key)
      modifies shards
      ensures approxItemCount == items + 1 && approxMemUsedBytes == mem + bytes
      ensures Audit(shards[..], hash, overhead) == Books(true, items, mem)
      ensures FlatOf(shards[..], hash) == FlatOf(old(shards[..]), hash) - {(ns, key)}
    {
      bytes := FootprintAt(shards[..][i], ns, key, overhead);
      EraseEntry(i, ns, key);
      items, mem := DeleteAudit(old(shards[..]), hash, overhead, i, ns, key, old(approxItemCount), old(approxMemUsedBytes), shards[..], bytes);
    }

    method EraseEntry(i: nat, ns: Str, key: Str)
      requires i < shards.Length
      modifies shards
      ensures shards[..] == old(shards[..])[i := DeleteShard(old(shards[..])[i], ns, key)]
    {
      shards[i] := DeleteShard(shards[i], ns, key);
    }

    method CountDelete(oldBytes: nat, ghost items: nat, ghost mem: nat)
      requires approxItemCount == items + 1 && approxMemUsedBytes == mem + oldBytes
      modifies this`approxItemCount, this`approxMemUsedBytes
      ensures approxItemCount == items && approxMemUsedBytes == mem
    {
      approxItemCount := approxItemCount - 1;
      approxMemUsedBytes := approxMemUsedBytes - oldBytes;
    }

    method BatchWrite(entries: seq<WriteEntry>) returns (ok: bool)
      requires Valid()
      modifies this, shards
      ensures Valid() && ok
      ensures Contents() == ApplyAll(old(Contents()), entries)
    {
      for n := 0 to |entries|
        invariant Valid() && Contents() == ApplyAll(old(Contents()), entries[..n])
      {
        var e := entries[n].entry;
        ApplyNext(old(Contents()), entries, n);
        if entries[n].op.Delete? {
          var res := Delete(e.nameSpace, e.key, e.ts);
          if !res { return false; }
          continue;
        }
        var res := Put(e.nameSpace, e.key, e.value, e.ts);
        if !res { return false; }
      }
      assert entries[..|entries|] == entries;
      ok := true;
    }

    method Scan(ns: Str, begin: Str, end: Str, limit: nat) returns (out: seq<KeyValueEntry>)
      requires Valid()
      ensures IsScan(out, Contents(), ns, begin, end, limit)
    {
      out := [];
      ghost var db := shards[..];
      for s := 0 to shards.Length
        invariant shards[..] == db && Elements(out) == SliceUpTo(db, s, ns, begin, end) && DistinctKeys(out)
      {
        out := AddShard(s, ns, begin, end, out, db);
      }
      SliceIsWhole(db, hash, ns, begin, end);
      out := SortAndCut(out, limit, Contents(), ns, begin, end);
    }

    /** Adds what one shard holds of the range. */
    method AddShard(s: nat, ns: Str, begin: Str, end: Str, es: seq<KeyValueEntry>, ghost db: seq<Shard>) returns (out: seq<KeyValueEntry>)
      requires s < shards.Length && db == shards[..] && Routed(db, hash)
      requires Elements(es) == SliceUpTo(db, s, ns, begin, end) && DistinctKeys(es)
      ensures Elements(out) == SliceUpTo(db, s + 1, ns, begin, end) && DistinctKeys(out)
    {
      if ns !in shards[s] {
        return es;
      }
      var more := ScanShard(shards[s][ns], ns, begin, end);
      KeysStayDistinct(db, hash, s, ns, begin, end, es, more);
      out := es + more;
    }

    method ApproximateUsage() returns (memUsedBytes: nat, itemCount: nat)
      requires Valid()
      ensures itemCount == |Contents()| && memUsedBytes == Total(Footprints(Contents(), overhead))
    {
      return approxMemUsedBytes, approxItemCount;
    }
  }

  /** The end of a scan: by key, and no more than the limit. */
  method SortAndCut(es: seq<KeyValueEntry>, limit: nat, ghost m: Flat, ghost ns: Str, ghost begin: Str, ghost end: Str)
    returns (out: seq<KeyValueEntry>)
    requires DistinctKeys(es) && Elements(es) == Slice(m, ns, begin, end)
    ensures IsScan(out, m, ns, begin, end, limit)
  {
    EntryOrder();
    var sorted := Sort(es, EntryAtMost);
    SameMultisetDistinctKeys(es, sorted);
    SortedDistinctKeys(sorted);
    out := sorted;
    if limit > 0 && |out| > limit {
      out := out[..limit];
    }
    ScanFound(sorted, out, m, ns, begin, end, limit);
  }

  lemma ApplyNext(m: Flat, entries: seq<WriteEntry>, n: nat)
    requires n < |entries|
    ensures ApplyAll(m, entries[..n + 1]) == Apply(ApplyAll(m, entries[..n]), entries[n])
  {
    assert entries[..n + 1][..n] == entries[..n];
  }

  lemma ScanFound(full: seq<KeyValueEntry>, out: seq<KeyValueEntry>, m: Flat, ns: Str, begin: Str, end: Str, limit: nat)
    requires IsRange(full, m, ns, begin, end) && out == Cut(full, limit)
    ensures IsScan(out, m, ns, begin, end, limit)
  {
  }

  // ---- Scanning the shards ----

  ghost function ShardSlice(m: map<Str, Stored>, ns: Str, begin: Str, end: Str): set<KeyValueEntry> {
    set k | k in m && InRange(k, begin, end) :: KeyValueEntry(ns, k, m[k].value, m[k].ts)
  }

  ghost function SliceUpTo(db: seq<Shard>, n: nat, ns: Str, begin: Str, end: Str): set<KeyValueEntry>
    requires n <= |db|
  {
    if n == 0 then {} else SliceUpTo(db, n - 1, ns, begin, end) + ShardSlice(Inner(db[n - 1], ns), ns, begin, end)
  }

  function Rows(m: map<Str, Stored>, ns: Str, keys: seq<Str>): (es: seq<KeyValueEntry>)
    requires forall i :: 0 <= i < |keys| ==> keys[i] in m
  {
    seq(|keys|, i requires 0 <= i < |keys| => KeyValueEntry(ns, keys[i], m[keys[i]].value, m[keys[i]].ts))
  }

  /** The entry lower_bound(begin) points at: the first key not below `begin`. */
  method LowerBound(keys: seq<Str>, begin: Str) returns (it: nat)
    requires Sorted(keys, AtMost)
    ensures it <= |keys|
    ensures forall j :: 0 <= j < |keys| ==> (AtMost(begin, keys[j]) <==> it <= j)
  {
    it := 0;
    while it < |keys| && !AtMost(begin, keys[it])
      invariant it <= |keys|
      invariant forall j :: 0 <= j < it ==> !AtMost(begin, keys[j])
    {
      it := it + 1;
    }
    AtMostIsTotalOrder();
    forall j | it <= j < |keys| ensures AtMost(begin, keys[j]) {
      assert AtMost(keys[it], keys[j]);
    }
  }

  /** One shard's part of the range: the ordered map from lower_bound(begin) up to the end key. */
  method ScanShard(m: map<Str, Stored>, ns: Str, begin: Str, end: Str) returns (es: seq<KeyValueEntry>)
    ensures Elements(es) == ShardSlice(m, ns, begin, end)
    ensures DistinctKeys(es)
  {
    var keys := SortedKeys(m.Keys);
    var first := LowerBound(keys, begin);
    var it := first;
    es := [];
    while it < |keys|
      invariant first <= it <= |keys|
      invariant es == Rows(m, ns, keys[first..it])
      invariant forall j :: first <= j < it ==> end == [] || Less(keys[j], end)
    {
      if end != [] && !Less(keys[it], end) {
        break;
      }
      assert keys[first..it + 1] == keys[first..it] + [keys[it]];
      es := es + [KeyValueEntry(ns, keys[it], m[keys[it]].value, m[keys[it]].ts)];
      it := it + 1;
    }
    KeysBetween(keys, begin, end, first, it);
    RowsOfRange(m, keys[first..it], ns, begin, end);
  }

  /** The keys the iterator passed are those in the range. */
  lemma KeysBetween(keys: seq<Str>, begin: Str, end: Str, first: nat, it: nat)
    requires Sorted(keys, AtMost) && NoDuplicates(keys) && first <= it <= |keys|
    requires forall j :: 0 <= j < |keys| ==> (AtMost(begin, keys[j]) <==> first <= j)
    requires forall j :: first <= j < it ==> end == [] || Less(keys[j], end)
    requires it < |keys| ==> end != [] && !Less(keys[it], end)
    ensures NoDuplicates(keys[first..it])
    ensures forall k :: k in keys[first..it] <==> k in keys && InRange(k, begin, end)
  {
    forall j | it <= j < |keys| ensures !(end == [] || Less(keys[j], end)) {
      if j != it && Less(keys[j], end) {
        assert AtMost(keys[it], keys[j]);
        BelowEnd(keys[it], keys[j], end);
      }
    }
    forall k | k in keys && InRange(k, begin, end) ensures k in keys[first..it] {
      var j :| 0 <= j < |keys| && keys[j] == k;
      assert keys[first..it][j - first] == k;
    }
    forall k | k in keys[first..it] ensures k in keys && InRange(k, begin, end) {
      var j :| 0 <= j < it - first && keys[first..it][j] == k;
      assert keys[first + j] == k;
    }
  }

  lemma BelowEnd(a: Str, b: Str, end: Str)
    requires AtMost(a, b) && Less(b, end)
    ensures Less(a, end)
  {
    if a != b { LessTransitive(a, b, end); }
  }

  lemma RowsOfRange(m: map<Str, Stored>, ks: seq<Str>, ns: Str, begin: Str, end: Str)
    requires NoDuplicates(ks)
    requires forall i :: 0 <= i < |ks| ==> ks[i] in m
    requires forall k :: k in m ==> (k in ks <==> InRange(k, begin, end))
    ensures Elements(Rows(m, ns, ks)) == ShardSlice(m, ns, begin, end)
    ensures DistinctKeys(Rows(m, ns, ks))
  {
    var es := Rows(m, ns, ks);
    forall e | e in ShardSlice(m, ns, begin, end) ensures e in es {
      var i :| 0 <= i < |ks| && ks[i] == e.key;
      assert es[i] == e;
    }
  }

  ghost predicate DistinctKeys(es: seq<KeyValueEntry>) {
    forall i, j :: 0 <= i < j < |es| ==> es[i].key != es[j].key
  }

  lemma {:induction false} SliceHasShard(db: seq<Shard>, n: nat, ns: Str, begin: Str, end: Str, e: KeyValueEntry)
    requires n <= |db|
    ensures e in SliceUpTo(db, n, ns, begin, end) <==>
            exists i :: 0 <= i < n && e in ShardSlice(Inner(db[i], ns), ns, begin, end)
  {
    if n > 0 { SliceHasShard(db, n - 1, ns, begin, end, e); }
  }

  lemma KeysStayDistinct(db: seq<Shard>, hash: Str -> nat, s: nat, ns: Str, begin: Str, end: Str,
                         out: seq<KeyValueEntry>, more: seq<KeyValueEntry>)
    requires Routed(db, hash) && s < |db|
    requires Elements(out) == SliceUpTo(db, s, ns, begin, end) && DistinctKeys(out)
    requires Elements(more) == ShardSlice(Inner(db[s], ns), ns, begin, end) && DistinctKeys(more)
    ensures DistinctKeys(out + more)
    ensures Elements(out + more) == SliceUpTo(db, s + 1, ns, begin, end)
  {
    forall a, b | 0 <= a < |out| && 0 <= b < |more| ensures out[a].key != more[b].key {
      assert out[a] in Elements(out) && more[b] in Elements(more);
      SliceHasShard(db, s, ns, begin, end, out[a]);
      var i :| 0 <= i < s && out[a] in ShardSlice(Inner(db[i], ns), ns, begin, end);
      assert Has(db, i, ns, out[a].key) && Has(db, s, ns, more[b].key);
    }
  }

  lemma SliceIsWhole(db: seq<Shard>, hash: Str -> nat, ns: Str, begin: Str, end: Str)
    requires Routed(db, hash)
    ensures SliceUpTo(db, |db|, ns, begin, end) == Slice(FlatOf(db, hash), ns, begin, end)
  {
    var m := FlatOf(db, hash);
    forall e: KeyValueEntry ensures e in SliceUpTo(db, |db|, ns, begin, end) <==> e in Slice(m, ns, begin, end) {
      SliceHasShard(db, |db|, ns, begin, end, e);
      EntryInSlice(db, hash, ns, begin, end, e);
    }
  }

  lemma EntryInSlice(db: seq<Shard>, hash: Str -> nat, ns: Str, begin: Str, end: Str, e: KeyValueEntry)
    requires Routed(db, hash)
    ensures (exists i :: 0 <= i < |db| && e in ShardSlice(Inner(db[i], ns), ns, begin, end))
       <==> e in Slice(FlatOf(db, hash), ns, begin, end)
  {
    var m, home := FlatOf(db, hash), ShardIndex(hash, ns, e.key);
    FlatLookup(db, hash, ns, e.key);
    forall i | 0 <= i < |db| && e in ShardSlice(Inner(db[i], ns), ns, begin, end)
      ensures e in Slice(m, ns, begin, end)
    {
      assert Has(db, i, ns, e.key);
      assert (ns, e.key) in m;
    }
    if e in Slice(m, ns, begin, end) {
      assert (ns, e.key) in m;
      assert e in ShardSlice(Inner(db[home], ns), ns, begin, end);
    }
  }

  lemma SameMultisetDistinctKeys(a: seq<KeyValueEntry>, b: seq<KeyValueEntry>)
    requires multiset(a) == multiset(b) && DistinctKeys(a)
    ensures DistinctKeys(b) && Elements(a) == Elements(b)
  {
    SameMultisetSameElements(a, b);
    forall i, j | 0 <= i < j < |b| ensures b[i].key != b[j].key {
      assert b[i] in Elements(a) && b[j] in Elements(a);
      var x :| 0 <= x < |a| && a[x] == b[i];
      var y :| 0 <= y < |a| && a[y] == b[j];
      assert x != y;
    }
  }
}
