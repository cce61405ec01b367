/** The partitioned store is the flat map of FlatStore, as far as namespaces hold no ':'
    (src/store/eloqstore_adapter.cpp:30, 234-353). */
module PartitionedFlat {
  import opened Bytes
  import opened Collections
  import opened FlatStore
  import opened Keys
  import opened MergedScan
  import opened PartitionModel
  import opened PartitionRouting

  /** The map from full keys says the same as the map from namespaces and keys. */
  ghost predicate Spells(m: map<Str, Stored>, f: Flat) {
    && (forall p :: p in f ==> COLON !in p.0 && ComposeKey(p.0, p.1) in m && m[ComposeKey(p.0, p.1)] == f[p])
    && (forall k :: k in m ==> exists p :: p in f && ComposeKey(p.0, p.1) == k)
  }

  lemma ComposeInjective(p: (Str, Str), q: (Str, Str))
    requires COLON !in p.0 && COLON !in q.0
    ensures ComposeKey(p.0, p.1) == ComposeKey(q.0, q.1) <==> p == q
  {
    if ComposeKey(p.0, p.1) == ComposeKey(q.0, q.1) { SplitAt(COLON, p.0, p.1, q.0, q.1); }
  }

  lemma SpelledAt(m: map<Str, Stored>, f: Flat, p: (Str, Str))
    requires Spells(m, f) && COLON !in p.0
    ensures ComposeKey(p.0, p.1) in m <==> p in f
  {
    if ComposeKey(p.0, p.1) in m {
      var q :| q in f && ComposeKey(q.0, q.1) == ComposeKey(p.0, p.1);
      ComposeInjective(p, q);
    }
  }

  lemma SpellsOne(m: map<Str, Stored>, f: Flat, w: WriteEntry)
    requires Spells(m, f) && COLON !in w.entry.nameSpace
    ensures Spells(ApplyData(m, ToData(w)), Apply(f, w))
  {
    var p := (w.entry.nameSpace, w.entry.key);
    var m', f' := ApplyData(m, ToData(w)), Apply(f, w);
    forall q | q in f' ensures COLON !in q.0 && ComposeKey(q.0, q.1) in m' && m'[ComposeKey(q.0, q.1)] == f'[q] {
      ComposeInjective(p, q);
    }
    forall k | k in m' ensures exists q :: q in f' && ComposeKey(q.0, q.1) == k {
      if k == ComposeKey(p.0, p.1) { assert p in f'; }
      else {
        var q :| q in f && ComposeKey(q.0, q.1) == k;
        assert q in f';
      }
    }
  }

  lemma {:induction false} SpellsAll(m: map<Str, Stored>, f: Flat, ws: seq<WriteEntry>, hash: Str -> nat, n: nat)
    requires n >= 1 && Spells(m, f) && forall i :: 0 <= i < |ws| ==> COLON !in ws[i].entry.nameSpace
    ensures Spells(ApplyBatch(m, DataOf(RouteAll(hash, n, ws))), ApplyAll(f, ws))
  {
    if ws != [] {
      var k := |ws| - 1;
      SpellsAll(m, f, ws[..k], hash, n);
      assert DataOf(RouteAll(hash, n, ws))[..k] == DataOf(RouteAll(hash, n, ws[..k]));
      SpellsOne(ApplyBatch(m, DataOf(RouteAll(hash, n, ws[..k]))), ApplyAll(f, ws[..k]), ws[k]);
    }
  }

  /** Partitions that hold a flat map, each entry in the partition it belongs to. */
  ghost predicate HoldsFlat(parts: Parts, f: Flat, hash: Str -> nat, n: nat)
    requires n >= 1
  {
    AtHome(parts, hash, n) && exists m :: Represents(parts, m) && Spells(m, f)
  }

  /** A batch whose sub-batches all succeed does to the flat map what its entries say in order. */
  lemma BatchRefinesFlat(parts: Parts, parts': Parts, f: Flat, ws: seq<WriteEntry>, hash: Str -> nat, n: nat)
    requires n >= 1 && HoldsFlat(parts, f, hash, n) && Committed(parts, parts', RouteAll(hash, n, ws))
    requires forall i :: 0 <= i < |ws| ==> COLON !in ws[i].entry.nameSpace
    ensures HoldsFlat(parts', ApplyAll(f, ws), hash, n)
  {
    var m :| Represents(parts, m) && Spells(m, f);
    var rs := RouteAll(hash, n, ws);
    forall i | 0 <= i < |rs| ensures rs[i].pid == Home(hash, n, rs[i].data.key) {
      HomeOfEntry(hash, n, ws[i].entry.nameSpace, ws[i].entry.key);
    }
    BatchPreservesMeaning(parts, parts', m, rs, hash, n);
    SpellsAll(m, f, ws, hash, n);
  }

  // ---- Scans ----

  /** What some partition holds under a name is what the flat map holds. */
  lemma HeldInFlat(parts: Parts, f: Flat, hash: Str -> nat, n: nat, ns: Str, e: KeyValueEntry)
    requires n >= 1 && HoldsFlat(parts, f, hash, n) && COLON !in ns
    ensures InSomePartition(parts, n, ns, e) <==> e.nameSpace == ns && (ns, e.key) in f && f[(ns, e.key)] == Stored(e.value, e.ts)
  {
    var m :| Represents(parts, m) && Spells(m, f);
    CopyIsEntry(parts, n, ns, e, m);
    SpelledAt(m, f, (ns, e.key));
  }

  lemma HeldInSlice(parts: Parts, f: Flat, hash: Str -> nat, n: nat, ns: Str, begin: Str, end: Str)
    requires n >= 1 && HoldsFlat(parts, f, hash, n) && COLON !in ns
    ensures forall e :: InSomePartition(parts, n, ns, e) && InRange(e.key, begin, end) <==> e in Slice(f, ns, begin, end)
  {
    forall e ensures InSomePartition(parts, n, ns, e) && InRange(e.key, begin, end) <==> e in Slice(f, ns, begin, end) {
      HeldInFlat(parts, f, hash, n, ns, e);
      if e in Slice(f, ns, begin, end) {
        var p :| p in f && p.0 == ns && InRange(p.1, begin, end) && e == KeyValueEntry(ns, p.1, f[p].value, f[p].ts);
        assert p == (ns, e.key);
      }
    }
  }

  /** The merged answer is a sorted part of the slice; what it leaves out lies above it, and only
      a limit that is reached leaves anything out. */
  lemma MergedInSlice(out: seq<KeyValueEntry>, parts: Parts, f: Flat, hash: Str -> nat, n: nat, ns: Str, begin: Str, end: Str, limit: nat)
    requires n >= 1 && HoldsFlat(parts, f, hash, n) && COLON !in ns && IsMerged(out, parts, n, ns, begin, end, limit)
    ensures forall e :: e in out ==> e in Slice(f, ns, begin, end)
    ensures forall c :: c in Slice(f, ns, begin, end) && c !in out ==> limit > 0 && |out| == limit && forall e :: e in out ==> Less(e.key, c.key)
  {
    HeldInSlice(parts, f, hash, n, ns, begin, end);
    forall c | c in Slice(f, ns, begin, end) && c !in out
      ensures limit > 0 && |out| == limit && forall e :: e in out ==> Less(e.key, c.key)
    {
      forall e | e in out && e.key == c.key ensures e == c { SliceHasOne(f, ns, begin, end, c, e); }
      assert c.key !in KeysOf(out);
    }
  }

  lemma SliceHasOne(f: Flat, ns: Str, begin: Str, end: Str, a: KeyValueEntry, b: KeyValueEntry)
    requires a in Slice(f, ns, begin, end) && b in Slice(f, ns, begin, end) && a.key == b.key
    ensures a == b
  {
    var p :| p in f && p.0 == ns && a == KeyValueEntry(ns, p.1, f[p].value, f[p].ts);
    var q :| q in f && q.0 == ns && b == KeyValueEntry(ns, q.1, f[q].value, f[q].ts);
    assert p == q;
  }

  lemma {:induction false} SortedListing(s: seq<KeyValueEntry>) returns (r: seq<KeyValueEntry>)
    ensures Sorted(r, EntryAtMost) && multiset(r) == multiset(s)
  {
    if s == [] {
      r := [];
    } else {
      var n := |s| - 1;
      var t := SortedListing(s[..n]);
      EntryOrder();
      InsertSorted(s[n], t, EntryAtMost);
      r := Insert(s[n], t, EntryAtMost);
      assert s == s[..n] + [s[n]];
    }
  }

  lemma SortedSet(s: set<KeyValueEntry>) returns (r: seq<KeyValueEntry>)
    requires forall a, b :: a in s && b in s && a.key == b.key ==> a == b
    ensures StrictlySorted(r) && Elements(r) == s
  {
    var l := Enumeration(s);
    r := SortedListing(l);
    SameMultisetSameElements(l, r);
    assert Elements(l) == s;
    forall i, j | 0 <= i < j < |r| ensures r[i].key != r[j].key {
      assert r[i] in Elements(r) && r[j] in Elements(r);
    }
    SortedDistinctKeys(r);
  }

  /** A scan of every partition, with or without a limit, is the flat map's scan. */
  lemma ScanRefinesFlat(out: seq<KeyValueEntry>, parts: Parts, f: Flat, hash: Str -> nat, n: nat, ns: Str, begin: Str, end: Str, limit: nat)
    requires n >= 1 && HoldsFlat(parts, f, hash, n) && COLON !in ns && IsMerged(out, parts, n, ns, begin, end, limit)
    ensures IsScan(out, f, ns, begin, end, limit)
  {
    MergedInSlice(out, parts, f, hash, n, ns, begin, end, limit);
    var slice := Slice(f, ns, begin, end);
    var left := slice - Elements(out);
    forall a, b | a in left && b in left && a.key == b.key ensures a == b { SliceHasOne(f, ns, begin, end, a, b); }
    var rest := SortedSet(left);
    RestFollows(out, rest, limit);
    assert Elements(out + rest) == slice by {
      forall e ensures e in out + rest <==> e in slice { assert e in rest <==> e in left; }
    }
    assert IsRange(out + rest, f, ns, begin, end);
  }

  lemma RestFollows(out: seq<KeyValueEntry>, rest: seq<KeyValueEntry>, limit: nat)
    requires StrictlySorted(out) && StrictlySorted(rest) && (limit > 0 ==> |out| <= limit)
    requires forall c :: c in rest ==> limit > 0 && |out| == limit && forall e :: e in out ==> Less(e.key, c.key)
    ensures StrictlySorted(out + rest) && Cut(out + rest, limit) == out
  {
    if rest != [] { assert rest[0] in rest; }
    else { assert out + rest == out; }
    forall i, j | 0 <= i < j < |out + rest| ensures Less((out + rest)[i].key, (out + rest)[j].key) {
      if i < |out| <= j { assert rest[j - |out|] in rest && out[i] in out; }
    }
  }
}
