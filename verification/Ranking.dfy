/** Ranked lists cut to a length, without saying how they were sorted. */
module Ranking {
  import opened Bytes
  import opened Collections

  type Scores = map<Str, real>

  /** Higher score first, then the smaller id: a strict total order on ids. */
  predicate Better(s: Scores, a: Str, b: Str)
    requires a in s && b in s
  {
    s[a] > s[b] || (s[a] == s[b] && Less(a, b))
  }

  ghost function BetterThan(s: Scores, d: Str): set<Str>
    requires d in s
  {
    set e | e in s && Better(s, e, d)
  }

  /** The k best ids: those with fewer than k better ones. */
  ghost function Top(s: Scores, k: nat): set<Str> {
    set d | d in s && |BetterThan(s, d)| < k
  }

  /** With room for all, all are among the best. */
  lemma TopOfFew(s: Scores, k: nat)
    requires |s| <= k
    ensures Top(s, k) == s.Keys
  {
    forall d | d in s ensures |BetterThan(s, d)| < k {
      LessIrreflexive(d);
      assert BetterThan(s, d) <= s.Keys - {d};
      SubsetSize(BetterThan(s, d), s.Keys - {d});
    }
  }

  lemma SubsetSize<T>(a: set<T>, b: set<T>)
    requires a <= b
    ensures |a| <= |b|
  {
    assert b == a + (b - a);
  }

  function Ids(items: seq<(Str, real)>): (ids: seq<Str>)
    ensures |ids| == |items|
    ensures forall i :: 0 <= i < |items| ==> ids[i] == items[i].0
  {
    seq(|items|, i requires 0 <= i < |items| => items[i].0)
  }

  /** The list pairs each id of s with its score, once. */
  ghost predicate Pairs(items: seq<(Str, real)>, s: Scores) {
    && NoDuplicates(Ids(items))
    && Elements(Ids(items)) == s.Keys
    && forall i :: 0 <= i < |items| ==> items[i].0 in s && s[items[i].0] == items[i].1
  }

  predicate ItemAtMost(a: (Str, real), b: (Str, real)) {
    if a.1 == b.1 then AtMost(a.0, b.0) else a.1 > b.1
  }

  lemma ItemOrder()
    ensures TotalPreorder(ItemAtMost)
  {
    AtMostIsTotalOrder();
  }

  /** Sorting by score and cutting to k leaves exactly the k best. */
  method Rank(items: seq<(Str, real)>, k: nat, ghost s: Scores) returns (r: seq<(Str, real)>)
    requires Pairs(items, s)
    ensures NoDuplicates(Ids(r)) && Elements(Ids(r)) == Top(s, k)
    ensures forall i :: 0 <= i < |r| ==> r[i].0 in s && r[i].1 == s[r[i].0]
    ensures forall i, j :: 0 <= i < j < |r| ==> ItemAtMost(r[i], r[j])
  {
    ItemOrder();
    r := Sort(items, ItemAtMost);
    RearrangedPairs(items, r, s);
    ghost var full := r;
    if |r| > k {
      r := r[..k];
    }
    RankedPrefix(full, s, k);
  }

  lemma RearrangedPairs(a: seq<(Str, real)>, b: seq<(Str, real)>, s: Scores)
    requires Pairs(a, s) && multiset(a) == multiset(b)
    ensures Pairs(b, s)
  {
    SameMultisetSameElements(a, b);
    forall i | 0 <= i < |b| ensures b[i].0 in s && s[b[i].0] == b[i].1 {
      assert b[i] in Elements(a);
      var j :| 0 <= j < |a| && a[j] == b[i];
    }
    DistinctItems(a);
    forall i, j | 0 <= i < j < |b| ensures Ids(b)[i] != Ids(b)[j] {
      assert b[i] in Elements(a) && b[j] in Elements(a);
      assert b[i] != b[j];
    }
    forall x ensures x in Ids(b) <==> x in s.Keys {
      if x in s.Keys {
        assert x in Elements(Ids(a));
        var i :| 0 <= i < |a| && Ids(a)[i] == x;
        assert a[i] in Elements(b);
        var j :| 0 <= j < |b| && b[j] == a[i];
        assert Ids(b)[j] == x;
      }
    }
  }

  lemma DistinctItems(a: seq<(Str, real)>)
    requires NoDuplicates(Ids(a))
    ensures NoDuplicates(a)
  {
    forall i, j | 0 <= i < j < |a| ensures a[i] != a[j] {
      assert Ids(a)[i] != Ids(a)[j];
    }
  }

  /** In the sorted list the item at place i has exactly i better ones. */
  lemma PlaceIsRank(full: seq<(Str, real)>, s: Scores, i: nat)
    requires Pairs(full, s) && Sorted(full, ItemAtMost) && i < |full|
    ensures BetterThan(s, full[i].0) == Elements(Ids(full)[..i])
    ensures |BetterThan(s, full[i].0)| == i
  {
    var ids := Ids(full);
    forall x ensures x in BetterThan(s, ids[i]) <==> x in ids[..i] {
      if x in s {
        assert x in Elements(ids);
        var j :| 0 <= j < |ids| && ids[j] == x;
        LessIrreflexive(x);
        if j < i {
          assert ItemAtMost(full[j], full[i]);
          assert ids[..i][j] == x;
        } else if i < j {
          assert ItemAtMost(full[i], full[j]);
          if Less(x, ids[i]) && Less(ids[i], x) { LessTransitive(x, ids[i], x); }
        }
      }
    }
    assert NoDuplicates(ids[..i]);
    ElementsCount(ids[..i]);
  }

  lemma RankedPrefix(full: seq<(Str, real)>, s: Scores, k: nat)
    requires Pairs(full, s) && Sorted(full, ItemAtMost)
    ensures var r := if |full| > k then full[..k] else full;
      NoDuplicates(Ids(r)) && Elements(Ids(r)) == Top(s, k)
  {
    var r := if |full| > k then full[..k] else full;
    forall i, j | 0 <= i < j < |r| ensures Ids(r)[i] != Ids(r)[j] {
      assert Ids(full)[i] != Ids(full)[j];
    }
    forall j | 0 <= j < |r| ensures Ids(r)[j] in Top(s, k) {
      PlaceIsRank(full, s, j);
    }
    forall x | x in Top(s, k) ensures x in Ids(r) {
      assert x in Elements(Ids(full));
      var i :| 0 <= i < |full| && Ids(full)[i] == x;
      PlaceIsRank(full, s, i);
      assert Ids(r)[i] == x;
    }
  }

  // ---- The final ranking: ties are left open ----

  /** Final score, then the later update. */
  predicate Outranks(a: (real, nat), b: (real, nat)) {
    a.0 > b.0 || (a.0 == b.0 && a.1 > b.1)
  }

  /** `ids` is a best-first list of the k best of `rank`, up to ties. */
  ghost predicate IsBest(ids: seq<Str>, rank: map<Str, (real, nat)>, k: nat) {
    && NoDuplicates(ids)
    && (forall x :: x in ids ==> x in rank)
    && |ids| == (if |rank| < k then |rank| else k)
    && (forall i, j :: 0 <= i < j < |ids| && ids[i] in rank && ids[j] in rank ==> !Outranks(rank[ids[j]], rank[ids[i]]))
    && (forall x, y :: x in ids && x in rank && y in rank && y !in ids ==> !Outranks(rank[y], rank[x]))
  }

  /** A best-first list of all, cut to k, is a best-first list of the k best. */
  lemma BestPrefix(ids: seq<Str>, rank: map<Str, (real, nat)>, k: nat)
    requires NoDuplicates(ids) && Elements(ids) == rank.Keys
    requires forall i, j :: 0 <= i < j < |ids| && ids[i] in rank && ids[j] in rank ==> !Outranks(rank[ids[j]], rank[ids[i]])
    ensures IsBest(if |ids| > k then ids[..k] else ids, rank, k)
  {
    var cut := if |ids| > k then ids[..k] else ids;
    ElementsCount(ids);
    forall x | x in cut ensures x in rank {
      assert x in Elements(ids);
    }
    forall x, y | x in cut && x in rank && y in rank && y !in cut ensures !Outranks(rank[y], rank[x]) {
      var i :| 0 <= i < |cut| && cut[i] == x;
      assert y in Elements(ids);
      var j :| 0 <= j < |ids| && ids[j] == y;
      assert forall m :: 0 <= m < |cut| ==> ids[m] == cut[m] && cut[m] in cut;
    }
  }

  /** With room for all, the list holds every id exactly once. */
  lemma BestOfFew(ids: seq<Str>, rank: map<Str, (real, nat)>, k: nat)
    requires IsBest(ids, rank, k) && |rank| <= k
    ensures Elements(ids) == rank.Keys && NoDuplicates(ids)
  {
    ElementsCount(ids);
    assert Elements(ids) <= rank.Keys;
    SubsetSameSize(Elements(ids), rank.Keys);
  }

  lemma SubsetSameSize<T>(a: set<T>, b: set<T>)
    requires a <= b && |a| == |b|
    ensures a == b
  {
    assert b == a + (b - a);
    assert |b - a| == 0;
  }
}
