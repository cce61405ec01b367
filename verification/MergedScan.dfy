/** Merging the partitions' pages into one answer (src/store/eloqstore_adapter.cpp:234-298). */
module MergedScan {
  import opened Bytes
  import opened Collections
  import opened FlatStore
  import opened Keys
  import opened PartitionRouting
  import opened PartitionModel
  import opened LayoutModel
  import opened StoreScans

  /** How a scan over the first n partitions ends: at the first of them that cannot be read. One that
      was never written is not found. */
  function ScanOutcome(parts: Parts, n: nat, fails: nat -> bool): (status: ScanStatus)
    ensures status.Found? <==> forall pid :: 0 <= pid < n ==> pid in parts && !fails(pid)
  {
    if n == 0 then Found
    else
      var before := ScanOutcome(parts, n - 1, fails);
      if !before.Found? then before else if n - 1 !in parts then Missing else if fails(n - 1) then Failed else Found
  }

  lemma {:induction false} StopsAt(parts: Parts, n: nat, fails: nat -> bool, m: nat)
    requires m <= n && !ScanOutcome(parts, m, fails).Found?
    ensures ScanOutcome(parts, n, fails) == ScanOutcome(parts, m, fails)
  {
    if m < n { StopsAt(parts, n - 1, fails, m); }
  }

  /** If no request fails, a scan finds nothing if and only if some partition was never written,
      whatever the others hold. */
  lemma {:induction false} OneUnwrittenHidesAll(parts: Parts, n: nat, fails: nat -> bool)
    requires forall pid :: 0 <= pid < n ==> !fails(pid)
    ensures ScanOutcome(parts, n, fails) == if exists pid :: 0 <= pid < n && pid !in parts then Missing else Found
  {
    if n > 0 { OneUnwrittenHidesAll(parts, n - 1, fails); }
  }

  /** Entry e is what partition pid holds under its key. */
  predicate Copy(parts: Parts, pid: nat, ns: Str, e: KeyValueEntry) {
    && e.nameSpace == ns
    && At(parts, pid, ComposeKey(ns, e.key))
    && parts[pid][ComposeKey(ns, e.key)] == Stored(e.value, e.ts)
  }

  ghost predicate InSomePartition(parts: Parts, n: nat, ns: Str, e: KeyValueEntry) {
    exists pid :: 0 <= pid < n && Copy(parts, pid, ns, e)
  }

  /** The answer to a scan, whatever copies there are: in key order, each key once and with a
      newest copy; complete, except that a limit cuts off the largest keys. */
  ghost predicate IsMerged(out: seq<KeyValueEntry>, parts: Parts, n: nat, ns: Str, begin: Str, end: Str, limit: nat) {
    && StrictlySorted(out)
    && (limit > 0 ==> |out| <= limit)
    && (forall e :: e in out ==> InRange(e.key, begin, end) && InSomePartition(parts, n, ns, e))
    && (forall e, c :: e in out && InSomePartition(parts, n, ns, c) && c.key == e.key ==> c.ts <= e.ts)
    && (forall c :: InSomePartition(parts, n, ns, c) && InRange(c.key, begin, end) ==>
          || c.key in KeysOf(out)
          || (limit > 0 && |out| == limit && forall e :: e in out ==> Less(e.key, c.key)))
  }

  ghost predicate EntryOf(m: map<Str, Stored>, ns: Str, e: KeyValueEntry) {
    e.nameSpace == ns && ComposeKey(ns, e.key) in m && m[ComposeKey(ns, e.key)] == Stored(e.value, e.ts)
  }

  /** On a store that represents one map, the unlimited answer is that map's range. */
  lemma MergedIsRange(out: seq<KeyValueEntry>, parts: Parts, n: nat, ns: Str, begin: Str, end: Str, m: map<Str, Stored>)
    requires IsMerged(out, parts, n, ns, begin, end, 0) && Represents(parts, m)
    requires forall pid: nat, k :: At(parts, pid, k) ==> pid < n
    ensures StrictlySorted(out)
    ensures forall e: KeyValueEntry :: e in out <==> InRange(e.key, begin, end) && EntryOf(m, ns, e)
  {
    forall e: KeyValueEntry ensures e in out <==> InRange(e.key, begin, end) && EntryOf(m, ns, e) {
      CopyIsEntry(parts, n, ns, e, m);
      if InRange(e.key, begin, end) && EntryOf(m, ns, e) {
        var e' := ListedEntry(out, parts, n, ns, begin, end, e);
        CopyIsEntry(parts, n, ns, e', m);
      }
    }
  }

  lemma ListedEntry(out: seq<KeyValueEntry>, parts: Parts, n: nat, ns: Str, begin: Str, end: Str, e: KeyValueEntry)
    returns (e': KeyValueEntry)
    requires IsMerged(out, parts, n, ns, begin, end, 0)
    requires InSomePartition(parts, n, ns, e) && InRange(e.key, begin, end)
    ensures e' in out && e'.key == e.key && InSomePartition(parts, n, ns, e')
  {
    e' :| e' in out && e'.key == e.key;
  }

  lemma CopyIsEntry(parts: Parts, n: nat, ns: Str, e: KeyValueEntry, m: map<Str, Stored>)
    requires Represents(parts, m)
    requires forall pid: nat, k :: At(parts, pid, k) ==> pid < n
    ensures InSomePartition(parts, n, ns, e) <==> EntryOf(m, ns, e)
  {
    if EntryOf(m, ns, e) {
      var pid :| At(parts, pid, ComposeKey(ns, e.key));
      assert Copy(parts, pid, ns, e);
    }
  }

  function KeysOf(es: seq<KeyValueEntry>): (ks: set<Str>) {
    set e | e in es :: e.key
  }

  /** At least `limit` gathered keys lie below k. */
  ghost predicate Crowded(g: seq<KeyValueEntry>, k: Str, limit: nat) {
    limit > 0 && exists s: set<Str> :: |s| == limit && s <= KeysOf(g) && AllBelow(s, k)
  }

  ghost predicate AllBelow(s: set<Str>, k: Str) {
    forall x :: x in s ==> Less(x, k)
  }

  /** The pages gathered from the first n partitions. */
  ghost predicate Gathered(g: seq<KeyValueEntry>, parts: Parts, n: nat, ns: Str, begin: Str, end: Str, limit: nat) {
    && (forall e :: e in g ==> InRange(e.key, begin, end) && InSomePartition(parts, n, ns, e))
    && (forall pid, c :: 0 <= pid < n && Copy(parts, pid, ns, c) && InRange(c.key, begin, end) ==>
          c in g || Crowded(g, c.key, limit))
  }

  /** `d` is `g` sorted, with one newest entry per key. */
  ghost predicate IsDeduped(d: seq<KeyValueEntry>, g: seq<KeyValueEntry>) {
    && StrictlySorted(d)
    && KeysOf(d) == KeysOf(g)
    && (forall e :: e in d ==> e in g)
    && (forall e, c :: e in d && c in g && c.key == e.key ==> c.ts <= e.ts)
  }

  /** In a strictly sorted list, if `limit` keys are below k then so are its first `limit`. */
  lemma CrowdedPrefix(d: seq<KeyValueEntry>, g: seq<KeyValueEntry>, k: Str, limit: nat)
    requires IsDeduped(d, g) && Crowded(g, k, limit)
    ensures limit <= |d| && forall i :: 0 <= i < limit ==> Less(d[i].key, k)
  {
    var s: set<Str> :| |s| == limit && s <= KeysOf(g) && AllBelow(s, k);
    var c := CountBelow(d, k);
    assert s <= KeysOf(d[..c]) by {
      forall x | x in s ensures x in KeysOf(d[..c]) {
        var e :| e in d && e.key == x;
        var i :| 0 <= i < |d| && d[i] == e;
        assert d[..c][i] == e;
      }
    }
    SubsetCount(s, KeysOf(d[..c]));
    KeysCount(d[..c]);
  }

  lemma {:induction false} CountBelow(d: seq<KeyValueEntry>, k: Str) returns (c: nat)
    requires StrictlySorted(d)
    ensures c <= |d| && forall i :: 0 <= i < |d| ==> (Less(d[i].key, k) <==> i < c)
  {
    c := 0;
    while c < |d| && Less(d[c].key, k)
      invariant c <= |d| && forall i :: 0 <= i < c ==> Less(d[i].key, k)
    {
      c := c + 1;
    }
    forall i | c < i < |d| ensures !Less(d[i].key, k) {
      if Less(d[i].key, k) { LessTransitive(d[c].key, d[i].key, k); }
    }
  }

  lemma SubsetCount<T>(a: set<T>, b: set<T>)
    requires a <= b
    ensures |a| <= |b|
  {
    assert |b - a| + |a| == |b - a + a| && b - a + a == b;
  }

  lemma {:induction false} KeysCount(d: seq<KeyValueEntry>)
    ensures |KeysOf(d)| <= |d|
  {
    if d != [] {
      var n := |d| - 1;
      KeysCount(d[..n]);
      assert d == d[..n] + [d[n]];
      assert KeysOf(d) == KeysOf(d[..n]) + {d[n].key};
    }
  }

  /** Pages of `limit` entries are enough to know the first `limit` of the merged range. */
  lemma PagesSuffice(g: seq<KeyValueEntry>, d: seq<KeyValueEntry>, parts: Parts, n: nat, ns: Str, begin: Str, end: Str, limit: nat)
    requires Gathered(g, parts, n, ns, begin, end, limit) && IsDeduped(d, g)
    ensures IsMerged(Cut(d, limit), parts, n, ns, begin, end, limit)
  {
    var out := Cut(d, limit);
    forall e | e in out ensures e in d && e in g {}
    forall e, c | e in out && InSomePartition(parts, n, ns, c) && c.key == e.key ensures c.ts <= e.ts {
      KeptIsNewest(g, d, parts, n, ns, begin, end, limit, e, c);
    }
    forall c | InSomePartition(parts, n, ns, c) && InRange(c.key, begin, end)
      ensures c.key in KeysOf(out)
           || (limit > 0 && |out| == limit && forall e :: e in out ==> Less(e.key, c.key))
    {
      KeptOrBeyond(g, d, parts, n, ns, begin, end, limit, c);
    }
  }

  lemma KeptIsNewest(g: seq<KeyValueEntry>, d: seq<KeyValueEntry>, parts: Parts, n: nat, ns: Str, begin: Str, end: Str,
                     limit: nat, e: KeyValueEntry, c: KeyValueEntry)
    requires Gathered(g, parts, n, ns, begin, end, limit) && IsDeduped(d, g)
    requires e in Cut(d, limit) && InSomePartition(parts, n, ns, c) && c.key == e.key
    ensures c.ts <= e.ts
  {
    assert e in d && e in g;
    if c !in g {
      assert Crowded(g, c.key, limit);
      CrowdedPrefix(d, g, c.key, limit);
      var i :| 0 <= i < |Cut(d, limit)| && Cut(d, limit)[i] == e;
      LessIrreflexive(e.key);
    }
  }

  lemma KeptOrBeyond(g: seq<KeyValueEntry>, d: seq<KeyValueEntry>, parts: Parts, n: nat, ns: Str, begin: Str, end: Str,
                     limit: nat, c: KeyValueEntry)
    requires Gathered(g, parts, n, ns, begin, end, limit) && IsDeduped(d, g)
    requires InSomePartition(parts, n, ns, c) && InRange(c.key, begin, end)
    ensures var out := Cut(d, limit);
      || c.key in KeysOf(out)
      || (limit > 0 && |out| == limit && forall e :: e in out ==> Less(e.key, c.key))
  {
    var out := Cut(d, limit);
    if c in g {
      assert c.key in KeysOf(d);
      var e :| e in d && e.key == c.key;
      var i :| 0 <= i < |d| && d[i] == e;
      if i < |out| {
        assert out[i] == e;
      } else {
        forall o | o in out ensures Less(o.key, c.key) {
          var j :| 0 <= j < |out| && out[j] == o;
          assert d[j] == o;
        }
      }
    } else {
      CrowdedPrefix(d, g, c.key, limit);
    }
  }

  // ---- Gathering, sorting, removing duplicates ----

  ghost predicate IsRowList(es: seq<KeyValueEntry>, rows: seq<(Str, Stored)>, ns: Str) {
    && |es| == |rows|
    && forall i :: 0 <= i < |rows| ==>
         rows[i].0 == ComposeKey(ns, es[i].key) && rows[i].1 == Stored(es[i].value, es[i].ts) && es[i].nameSpace == ns
  }

  /** Every key of the range [ns:begin, ns:end) (or up to ns; without an end) carries the prefix. */
  lemma RangeHasPrefix(ns: Str, begin: Str, end: Str, k: Str)
    ensures var high := if end != [] then ComposeKey(ns, end) else ns + [SEMICOLON];
      AtMost(ComposeKey(ns, begin), k) && Less(k, high)
      <==> HasPrefix(k, ns + [COLON]) && InRange(k[|ns| + 1..], begin, end)
  {
    if end != [] {
      PrefixIsConvex(ns + [COLON], begin, end, k);
    } else {
      NamespaceRange(ns, begin, k);
    }
  }

  lemma GatherStep(g: seq<KeyValueEntry>, es: seq<KeyValueEntry>, rows: seq<(Str, Stored)>, parts: Parts, pid: nat,
                   ns: Str, begin: Str, end: Str, limit: nat)
    requires Gathered(g, parts, pid, ns, begin, end, limit)
    requires IsPage(rows, Part(parts, pid), ComposeKey(ns, begin), if end != [] then ComposeKey(ns, end) else ns + [SEMICOLON], limit)
    requires IsRowList(es, rows, ns)
    ensures Gathered(g + es, parts, pid + 1, ns, begin, end, limit)
  {
    var g' := g + es;
    forall i | 0 <= i < |es| ensures InRange(es[i].key, begin, end) && Copy(parts, pid, ns, es[i]) {
      RangeHasPrefix(ns, begin, end, rows[i].0);
      assert rows[i].0[|ns| + 1..] == es[i].key;
    }
    forall e | e in g' ensures InRange(e.key, begin, end) && InSomePartition(parts, pid + 1, ns, e) {
      if e in g {
        var q :| 0 <= q < pid && Copy(parts, q, ns, e);
      }
    }
    forall q, c | 0 <= q < pid + 1 && Copy(parts, q, ns, c) && InRange(c.key, begin, end)
      ensures c in g' || Crowded(g', c.key, limit)
    {
      if q < pid {
        if c !in g { MoreCrowded(g, es, c.key, limit); }
      } else {
        PageHasCopy(es, rows, parts, pid, ns, begin, end, limit, c);
        if c !in es { MoreCrowded2(g, es, c.key, limit); }
      }
    }
  }

  lemma MoreCrowded(g: seq<KeyValueEntry>, es: seq<KeyValueEntry>, k: Str, limit: nat)
    requires Crowded(g, k, limit)
    ensures Crowded(g + es, k, limit)
  {
    assert KeysOf(g) <= KeysOf(g + es);
  }

  lemma MoreCrowded2(g: seq<KeyValueEntry>, es: seq<KeyValueEntry>, k: Str, limit: nat)
    requires Crowded(es, k, limit)
    ensures Crowded(g + es, k, limit)
  {
    assert KeysOf(es) <= KeysOf(g + es);
  }

  lemma PageHasCopy(es: seq<KeyValueEntry>, rows: seq<(Str, Stored)>, parts: Parts, pid: nat, ns: Str, begin: Str, end: Str,
                    limit: nat, c: KeyValueEntry)
    requires IsPage(rows, Part(parts, pid), ComposeKey(ns, begin), if end != [] then ComposeKey(ns, end) else ns + [SEMICOLON], limit)
    requires IsRowList(es, rows, ns)
    requires Copy(parts, pid, ns, c) && InRange(c.key, begin, end)
    ensures c in es || Crowded(es, c.key, limit)
  {
    var k := ComposeKey(ns, c.key);
    var p := ns + [COLON];
    assert k[|p|..] == c.key && k[..|p|] == p;
    RangeHasPrefix(ns, begin, end, k);
    assert k in RangeKeys(Part(parts, pid), ComposeKey(ns, begin), if end != [] then ComposeKey(ns, end) else ns + [SEMICOLON]);
    if i :| 0 <= i < |rows| && rows[i].0 == k {
      assert ComposeKey(ns, es[i].key)[|p|..] == es[i].key;
      assert es[i] == c;
    } else {
      forall i | 0 <= i < |es| ensures Less(es[i].key, c.key) {
        LessCommonPrefix(p, es[i].key, c.key);
      }
      forall i, j | 0 <= i < j < |es| ensures es[i].key != es[j].key {
        LessIrreflexive(rows[i].0);
      }
      DistinctKeysCount(es);
      assert |KeysOf(es)| == limit && AllBelow(KeysOf(es), c.key);
    }
  }

  lemma {:induction false} DistinctKeysCount(es: seq<KeyValueEntry>)
    requires forall i, j :: 0 <= i < j < |es| ==> es[i].key != es[j].key
    ensures |KeysOf(es)| == |es|
  {
    if es != [] {
      var n := |es| - 1;
      DistinctKeysCount(es[..n]);
      assert es == es[..n] + [es[n]];
      assert KeysOf(es) == KeysOf(es[..n]) + {es[n].key};
      assert es[n].key !in KeysOf(es[..n]);
    }
  }

  /** The newest entries of the first i places of a sorted list, one per key. */
  ghost predicate DedupedPrefix(d: seq<KeyValueEntry>, sorted: seq<KeyValueEntry>, i: nat)
    requires i <= |sorted|
  {
    && StrictlySorted(d)
    && KeysOf(d) == KeysOf(sorted[..i])
    && (forall e :: e in d ==> e in sorted)
    && (forall e, c :: e in d && c in sorted && c.key == e.key ==> c.ts <= e.ts)
    && (if i == 0 then d == [] else d != [] && d[|d| - 1].key == sorted[i - 1].key)
  }

  lemma SameKeyStep(d: seq<KeyValueEntry>, sorted: seq<KeyValueEntry>, i: nat)
    requires i < |sorted| && DedupedPrefix(d, sorted, i) && d != [] && d[|d| - 1].key == sorted[i].key
    ensures DedupedPrefix(d, sorted, i + 1)
  {
    assert sorted[..i + 1] == sorted[..i] + [sorted[i]];
    assert KeysOf(sorted[..i + 1]) == KeysOf(sorted[..i]) + {sorted[i].key};
    assert d[|d| - 1].key in KeysOf(d);
  }

  lemma NewKeyStep(d: seq<KeyValueEntry>, sorted: seq<KeyValueEntry>, i: nat)
    requires Sorted(sorted, EntryAtMost) && i < |sorted| && DedupedPrefix(d, sorted, i)
    requires d == [] || d[|d| - 1].key != sorted[i].key
    ensures DedupedPrefix(d + [sorted[i]], sorted, i + 1)
  {
    NextKey(sorted, i, d);
    assert sorted[..i + 1] == sorted[..i] + [sorted[i]];
    KeysAppend(sorted[..i], sorted[i]);
    KeysAppend(d, sorted[i]);
    var d' := d + [sorted[i]];
    forall e, c | e in d' && c in sorted && c.key == e.key ensures c.ts <= e.ts {
      if e !in d {
        var x :| 0 <= x < |sorted| && sorted[x] == c;
      }
    }
  }

  lemma KeysAppend(d: seq<KeyValueEntry>, e: KeyValueEntry)
    ensures KeysOf(d + [e]) == KeysOf(d) + {e.key}
  {
    forall x | x in d + [e] ensures x in d || x == e {}
  }

  /** Keeps the first entry of each run of equal keys. */
  method RemoveDuplicates(sorted: seq<KeyValueEntry>) returns (d: seq<KeyValueEntry>)
    requires Sorted(sorted, EntryAtMost)
    ensures IsDeduped(d, sorted)
  {
    d := [];
    for i := 0 to |sorted|
      invariant DedupedPrefix(d, sorted, i)
    {
      if d == [] || d[|d| - 1].key != sorted[i].key {
        NewKeyStep(d, sorted, i);
        d := d + [sorted[i]];
      } else {
        SameKeyStep(d, sorted, i);
      }
    }
    assert sorted[..|sorted|] == sorted;
  }

  lemma DedupedRearranged(d: seq<KeyValueEntry>, sorted: seq<KeyValueEntry>, g: seq<KeyValueEntry>)
    requires IsDeduped(d, sorted) && multiset(sorted) == multiset(g)
    ensures IsDeduped(d, g)
  {
    SameMultisetSameElements(sorted, g);
    SameElementsSameKeys(sorted, g);
    forall e ensures e in sorted <==> e in g { assert e in Elements(sorted) <==> e in Elements(g); }
  }

  lemma SameElementsSameKeys(a: seq<KeyValueEntry>, b: seq<KeyValueEntry>)
    requires Elements(a) == Elements(b)
    ensures KeysOf(a) == KeysOf(b)
  {
    forall e ensures e in a <==> e in b { assert e in Elements(a) <==> e in Elements(b); }
  }

  lemma NextKey(sorted: seq<KeyValueEntry>, i: nat, d: seq<KeyValueEntry>)
    requires Sorted(sorted, EntryAtMost) && i < |sorted| && StrictlySorted(d)
    requires i > 0 ==> d != [] && d[|d| - 1].key == sorted[i - 1].key && d[|d| - 1].key != sorted[i].key
    requires i == 0 ==> d == []
    requires KeysOf(d) == KeysOf(sorted[..i])
    ensures forall j :: 0 <= j < |d| ==> Less(d[j].key, sorted[i].key)
    ensures forall x :: 0 <= x < |sorted| && sorted[x].key == sorted[i].key ==> i <= x && sorted[x].ts <= sorted[i].ts
  {
    if i > 0 {
      var last := d[|d| - 1].key;
      assert EntryAtMost(sorted[i - 1], sorted[i]);
      assert Less(last, sorted[i].key);
      forall j | 0 <= j < |d| ensures Less(d[j].key, sorted[i].key) {
        if j < |d| - 1 { LessTransitive(d[j].key, last, sorted[i].key); }
      }
      forall x | 0 <= x < |sorted| && sorted[x].key == sorted[i].key ensures i <= x {
        if x < i {
          assert sorted[..i][x].key in KeysOf(d);
          var e :| e in d && e.key == sorted[x].key;
          LessIrreflexive(e.key);
        }
      }
    }
    forall x | i <= x < |sorted| && sorted[x].key == sorted[i].key ensures sorted[x].ts <= sorted[i].ts {
      if i < x { assert EntryAtMost(sorted[i], sorted[x]); }
    }
  }
}
