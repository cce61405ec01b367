/** What a store promises its callers (include/pgmem/store/store_adapter.h): one map from
    (namespace, key) to a value and a timestamp, batches in order, and sorted range scans.
    InMemoryStore is proved against this module, and PartitionedFlat proves it of the partitions of
    EloqStoreAdapter, for batches and scans of which no request fails. */
module FlatStore {
  import opened Bytes
  import opened Collections

  datatype Stored = Stored(value: Str, ts: nat)

  datatype KeyValueEntry = KeyValueEntry(nameSpace: Str, key: Str, value: Str, ts: nat)

  datatype WriteOp = Upsert | Delete

  datatype WriteEntry = WriteEntry(op: WriteOp, entry: KeyValueEntry)

  type Flat = map<(Str, Str), Stored>

  function Apply(m: Flat, w: WriteEntry): (r: Flat) {
    var p := (w.entry.nameSpace, w.entry.key);
    if w.op.Delete? then m - {p} else m[p := Stored(w.entry.value, w.entry.ts)]
  }

  function ApplyAll(m: Flat, ws: seq<WriteEntry>): (r: Flat) {
    if ws == [] then m else Apply(ApplyAll(m, ws[..|ws| - 1]), ws[|ws| - 1])
  }

  predicate InRange(k: Str, begin: Str, end: Str) {
    AtMost(begin, k) && (end == [] || Less(k, end))
  }

  ghost predicate StrictlySorted(es: seq<KeyValueEntry>) {
    forall i, j :: 0 <= i < j < |es| ==> Less(es[i].key, es[j].key)
  }

  /** The entries of one namespace with keys in the range. */
  ghost function Slice(m: Flat, ns: Str, begin: Str, end: Str): set<KeyValueEntry> {
    set p | p in m && p.0 == ns && InRange(p.1, begin, end) :: KeyValueEntry(ns, p.1, m[p].value, m[p].ts)
  }

  /** `out` is the whole range: in key order, each key once. */
  ghost predicate IsRange(out: seq<KeyValueEntry>, m: Flat, ns: Str, begin: Str, end: Str) {
    StrictlySorted(out) && Elements(out) == Slice(m, ns, begin, end)
  }

  function Cut<T>(s: seq<T>, limit: nat): (r: seq<T>) {
    if limit > 0 && |s| > limit then s[..limit] else s
  }

  /** `out` is the first `limit` entries of the range, or all of it when limit is 0. */
  ghost predicate IsScan(out: seq<KeyValueEntry>, m: Flat, ns: Str, begin: Str, end: Str, limit: nat) {
    exists full :: IsRange(full, m, ns, begin, end) && out == Cut(full, limit)
  }

  /** There is only one such answer. */
  lemma {:induction false} RangeUnique(a: seq<KeyValueEntry>, b: seq<KeyValueEntry>)
    requires StrictlySorted(a) && StrictlySorted(b) && Elements(a) == Elements(b)
    ensures a == b
  {
    NoElements(a);
    NoElements(b);
    if a != [] && b != [] {
      HeadIsLeast(a);
      HeadIsLeast(b);
      assert a[0] in Elements(b) && b[0] in Elements(a);
      if a[0] != b[0] {
        assert Less(a[0].key, b[0].key) && Less(b[0].key, a[0].key);
        LessTransitive(a[0].key, b[0].key, a[0].key);
        LessIrreflexive(a[0].key);
      }
      TailElements(a);
      TailElements(b);
      RangeUnique(a[1..], b[1..]);
      assert a == [a[0]] + a[1..] && b == [b[0]] + b[1..];
    }
  }

  lemma NoElements<T(!new)>(a: seq<T>)
    ensures Elements(a) == {} <==> a == []
  {
    if a != [] { assert a[0] in Elements(a); }
  }

  lemma HeadIsLeast(a: seq<KeyValueEntry>)
    requires StrictlySorted(a) && a != []
    ensures forall e :: e in Elements(a) && e != a[0] ==> Less(a[0].key, e.key)
  {
    forall e | e in Elements(a) && e != a[0] ensures Less(a[0].key, e.key) {
      var i :| 0 <= i < |a| && a[i] == e;
    }
  }

  lemma TailElements(a: seq<KeyValueEntry>)
    requires StrictlySorted(a) && a != []
    ensures Elements(a[1..]) == Elements(a) - {a[0]}
  {
    assert a == [a[0]] + a[1..];
    forall i | 1 <= i < |a| ensures a[i] != a[0] {
      LessIrreflexive(a[0].key);
    }
    assert a[0] !in a[1..];
  }

  lemma ScanUnique(a: seq<KeyValueEntry>, b: seq<KeyValueEntry>, m: Flat, ns: Str, begin: Str, end: Str, limit: nat)
    requires IsScan(a, m, ns, begin, end, limit) && IsScan(b, m, ns, begin, end, limit)
    ensures a == b
  {
    var x :| IsRange(x, m, ns, begin, end) && a == Cut(x, limit);
    var y :| IsRange(y, m, ns, begin, end) && b == Cut(y, limit);
    RangeUnique(x, y);
  }

  /** The order both adapters sort by: key first, then the newer timestamp. */
  predicate EntryAtMost(a: KeyValueEntry, b: KeyValueEntry) {
    if a.key == b.key then a.ts >= b.ts else Less(a.key, b.key)
  }

  lemma EntryOrder()
    ensures TotalPreorder(EntryAtMost)
  {
    AtMostIsTotalOrder();
    forall a: KeyValueEntry, b: KeyValueEntry ensures EntryAtMost(a, b) || EntryAtMost(b, a) {
      LessTotal(a.key, b.key);
    }
    forall a: KeyValueEntry, b: KeyValueEntry, c: KeyValueEntry | EntryAtMost(a, b) && EntryAtMost(b, c)
      ensures EntryAtMost(a, c)
    {
      if a.key != b.key && b.key != c.key {
        LessTransitive(a.key, b.key, c.key);
        if a.key == c.key { LessIrreflexive(a.key); }
      }
    }
  }

  /** Sorting entries with distinct keys by that order sorts them strictly by key. */
  lemma SortedDistinctKeys(es: seq<KeyValueEntry>)
    requires Sorted(es, EntryAtMost)
    requires forall i, j :: 0 <= i < j < |es| ==> es[i].key != es[j].key
    ensures StrictlySorted(es)
  {
    forall i, j | 0 <= i < j < |es| ensures Less(es[i].key, es[j].key) {
      assert EntryAtMost(es[i], es[j]);
    }
  }

  /** The keys of an ordered map, in the order it iterates them. */
  method SortedKeys(ks: set<Str>) returns (keys: seq<Str>)
    ensures Sorted(keys, AtMost) && NoDuplicates(keys)
    ensures Elements(keys) == ks
    ensures forall i :: 0 <= i < |keys| ==> keys[i] in ks
  {
    var unordered := Enumerate(ks);
    AtMostIsTotalOrder();
    keys := Sort(unordered, AtMost);
    SameMultisetSameElements(keys, unordered);
    forall i | 0 <= i < |keys| ensures keys[i] in ks { assert keys[i] in Elements(keys); }
  }
}
