/** Totals over maps, term counts, and the sort the code gets from the standard library. */
module Collections {

  /** The truth of a large predicate, passed on as one value. */
  datatype Verdict = Yes | No

  function Judge(b: bool): (v: Verdict) {
    if b then Yes else No
  }

  // ---- Totals ----

  /** The sum of a map's values. */
  ghost function Total<K>(m: map<K, nat>): nat {
    if m == map[] then 0 else var k :| k in m; m[k] + Total(m - {k})
  }

  lemma {:induction false} TotalRemove<K>(m: map<K, nat>, k: K)
    requires k in m
    ensures Total(m) == m[k] + Total(m - {k})
    decreases |m|
  {
    var p :| p in m && Total(m) == m[p] + Total(m - {p});
    if p != k {
      TotalRemove(m - {p}, k);
      TotalRemove(m - {k}, p);
      assert m - {p} - {k} == m - {k} - {p};
    }
  }

  lemma TotalPut<K>(m: map<K, nat>, k: K, v: nat)
    ensures Total(m[k := v]) == Total(m - {k}) + v
    ensures k in m ==> Total(m[k := v]) == Total(m) - m[k] + v
    ensures k !in m ==> Total(m[k := v]) == Total(m) + v
  {
    TotalRemove(m[k := v], k);
    assert m[k := v] - {k} == m - {k};
    if k in m { TotalRemove(m, k); } else { assert m - {k} == m; }
  }

  lemma {:induction false} TotalZero<K>(m: map<K, nat>)
    ensures Total(m) == 0 <==> forall k :: k in m ==> m[k] == 0
    decreases |m|
  {
    if m != map[] {
      var p :| p in m && Total(m) == m[p] + Total(m - {p});
      TotalZero(m - {p});
      forall k | k in m && k != p && Total(m) == 0 ensures m[k] == 0 {
        assert k in m - {p};
      }
    }
  }

  /** The sum of a map's values, over the reals. */
  ghost function TotalReal<K>(m: map<K, real>): real {
    if m == map[] then 0.0 else var k :| k in m; m[k] + TotalReal(m - {k})
  }

  lemma {:induction false} TotalRealRemove<K>(m: map<K, real>, k: K)
    requires k in m
    ensures TotalReal(m) == m[k] + TotalReal(m - {k})
    decreases |m|
  {
    var p :| p in m && TotalReal(m) == m[p] + TotalReal(m - {p});
    if p != k {
      TotalRealRemove(m - {p}, k);
      TotalRealRemove(m - {k}, p);
      assert m - {p} - {k} == m - {k} - {p};
    }
  }

  lemma {:induction false} TotalRealPositive<K>(m: map<K, real>)
    requires forall k :: k in m ==> m[k] > 0.0
    ensures TotalReal(m) >= 0.0
    ensures TotalReal(m) > 0.0 <==> m != map[]
    decreases |m|
  {
    if m != map[] {
      var p :| p in m && TotalReal(m) == m[p] + TotalReal(m - {p});
      TotalRealPositive(m - {p});
    }
  }

  // ---- Term counts ----

  /** How often x occurs in s. */
  function Occurrences<T(==)>(s: seq<T>, x: T): (n: nat) {
    if s == [] then 0 else (if s[0] == x then 1 else 0) + Occurrences(s[1..], x)
  }

  lemma {:induction false} OccurrencesAppend<T>(s: seq<T>, y: T, x: T)
    ensures Occurrences(s + [y], x) == Occurrences(s, x) + if x == y then 1 else 0
  {
    if s == [] {
      assert [] + [y] == [y] && [y][1..] == [];
    } else {
      assert (s + [y])[1..] == s[1..] + [y];
      OccurrencesAppend(s[1..], y, x);
    }
  }

  lemma {:induction false} OccurrencesPositive<T>(s: seq<T>, x: T)
    ensures Occurrences(s, x) > 0 <==> x in s
  {
    if s != [] {
      OccurrencesPositive(s[1..], x);
      assert s == [s[0]] + s[1..];
    }
  }

  /** Counting into a map, one token at a time. */
  function Frequencies<T(==,!new)>(s: seq<T>): (tf: map<T, nat>)
    ensures forall x :: x in tf <==> x in s
  {
    if s == [] then map[]
    else
      var n := |s| - 1;
      var tf := Frequencies(s[..n]);
      assert s == s[..n] + [s[n]];
      tf[s[n] := (if s[n] in tf then tf[s[n]] else 0) + 1]
  }

  /** The counts are the occurrences, and together they make up the whole sequence. */
  lemma {:induction false} FrequenciesExact<T(!new)>(s: seq<T>)
    ensures forall x :: x in s ==> Frequencies(s)[x] == Occurrences(s, x) > 0
    ensures Total(Frequencies(s)) == |s|
  {
    if s != [] {
      var n := |s| - 1;
      var tf := Frequencies(s[..n]);
      FrequenciesExact(s[..n]);
      assert s == s[..n] + [s[n]];
      TotalPut(tf, s[n], (if s[n] in tf then tf[s[n]] else 0) + 1);
      forall x | x in s ensures Frequencies(s)[x] == Occurrences(s, x) > 0 {
        OccurrencesAppend(s[..n], s[n], x);
        OccurrencesPositive(s[..n], x);
        OccurrencesPositive(s, x);
      }
    }
  }

  /** The distinct elements in order of first appearance. */
  function Distinct<T(==,!new)>(s: seq<T>): (d: seq<T>)
    ensures forall x :: x in d <==> x in s
    ensures NoDuplicates(d)
  {
    if s == [] then []
    else
      var n := |s| - 1;
      var d := Distinct(s[..n]);
      assert s == s[..n] + [s[n]];
      if s[n] in d then d else d + [s[n]]
  }

  predicate NoDuplicates<T(==)>(s: seq<T>) {
    forall i, j :: 0 <= i < j < |s| ==> s[i] != s[j]
  }

  function Elements<T(!new)>(s: seq<T>): (e: set<T>)
    ensures forall x :: x in e <==> x in s
  {
    set x | x in s
  }

  lemma {:induction false} ElementsCount<T(!new)>(s: seq<T>)
    requires NoDuplicates(s)
    ensures |Elements(s)| == |s|
  {
    if s != [] {
      var n := |s| - 1;
      ElementsCount(s[..n]);
      assert s == s[..n] + [s[n]];
      assert s[n] !in s[..n];
      assert Elements(s) == Elements(s[..n]) + {s[n]};
    }
  }

  /** One step of iterating over distinct elements. */
  lemma NextElement<T(!new)>(s: seq<T>, i: nat)
    requires NoDuplicates(s) && i < |s|
    ensures s[i] in Elements(s) && s[i] !in Elements(s[..i])
    ensures Elements(s[..i + 1]) == Elements(s[..i]) + {s[i]}
  {
    assert s[..i + 1] == s[..i] + [s[i]];
  }

  lemma AllElements<T(!new)>(s: seq<T>)
    ensures Elements(s[..0]) == {} && Elements(s[..|s|]) == Elements(s)
  {
    assert s[..|s|] == s;
  }

  lemma {:induction false} Enumeration<T(!new)>(s: set<T>) returns (r: seq<T>)
    ensures NoDuplicates(r) && forall x :: x in r <==> x in s
    decreases s
  {
    if s == {} {
      r := [];
    } else {
      var x :| x in s;
      r := Enumeration(s - {x});
      r := r + [x];
    }
  }

  /** Some order of a set's elements, as iterating over an unordered container gives one. */
  method Enumerate<T(!new)>(s: set<T>) returns (r: seq<T>)
    ensures NoDuplicates(r) && Elements(r) == s && |r| == |s|
  {
    r := [];
    var left := s;
    while left != {}
      invariant NoDuplicates(r)
      invariant Elements(r) !! left && Elements(r) + left == s
      invariant |r| + |left| == |s|
      decreases |left|
    {
      var x :| x in left;
      assert x !in Elements(r);
      r := r + [x];
      left := left - {x};
    }
  }

  // ---- Sorting ----

  ghost predicate TotalPreorder<T(!new)>(le: (T, T) -> bool) {
    && (forall a, b :: le(a, b) || le(b, a))
    && (forall a, b, c :: le(a, b) && le(b, c) ==> le(a, c))
  }

  ghost predicate Sorted<T>(s: seq<T>, le: (T, T) -> bool) {
    forall i, j :: 0 <= i < j < |s| ==> le(s[i], s[j])
  }

  function Insert<T>(x: T, s: seq<T>, le: (T, T) -> bool): (r: seq<T>) {
    if s == [] || le(x, s[0]) then [x] + s else [s[0]] + Insert(x, s[1..], le)
  }

  lemma {:induction false} InsertSorted<T(!new)>(x: T, s: seq<T>, le: (T, T) -> bool)
    requires TotalPreorder(le) && Sorted(s, le)
    ensures Sorted(Insert(x, s, le), le)
    ensures multiset(Insert(x, s, le)) == multiset(s) + multiset{x}
  {
    if s == [] || le(x, s[0]) {
      assert multiset([x] + s) == multiset([x]) + multiset(s);
    } else {
      InsertSorted(x, s[1..], le);
      InsertAfterHead(x, s, le, Insert(x, s[1..], le));
    }
  }

  lemma InsertAfterHead<T(!new)>(x: T, s: seq<T>, le: (T, T) -> bool, t: seq<T>)
    requires TotalPreorder(le) && Sorted(s, le) && s != [] && !le(x, s[0])
    requires Sorted(t, le) && multiset(t) == multiset(s[1..]) + multiset{x}
    ensures Sorted([s[0]] + t, le) && multiset([s[0]] + t) == multiset(s) + multiset{x}
  {
    assert s == [s[0]] + s[1..];
    forall j | 0 <= j < |t| ensures le(s[0], t[j]) {
      assert t[j] in multiset(t);
      assert t[j] == x || t[j] in s[1..];
    }
  }

  /** A sorted rearrangement; nothing is said about the order of equivalent elements. */
  method Sort<T(!new)>(s: seq<T>, le: (T, T) -> bool) returns (r: seq<T>)
    requires TotalPreorder(le)
    ensures Sorted(r, le) && multiset(r) == multiset(s)
  {
    r := [];
    for i := 0 to |s|
      invariant Sorted(r, le) && multiset(r) == multiset(s[..i])
    {
      InsertSorted(s[i], r, le);
      r := Insert(s[i], r, le);
      assert s[..i + 1] == s[..i] + [s[i]];
    }
    assert s[..|s|] == s;
  }

  lemma {:induction false} SameMultisetSameElements<T(!new)>(a: seq<T>, b: seq<T>)
    requires multiset(a) == multiset(b)
    ensures Elements(a) == Elements(b) && |a| == |b|
    ensures NoDuplicates(a) <==> NoDuplicates(b)
  {
    forall x ensures x in a <==> x in b {
      assert x in a <==> x in multiset(a);
      assert x in b <==> x in multiset(b);
    }
    assert |multiset(a)| == |a| && |multiset(b)| == |b|;
    NoDuplicatesCount(a);
    NoDuplicatesCount(b);
  }

  lemma {:induction false} NoDuplicatesCount<T(!new)>(s: seq<T>)
    ensures NoDuplicates(s) <==> |Elements(s)| == |s|
    ensures |Elements(s)| <= |s|
  {
    if s == [] {
      assert Elements(s) == {};
    } else {
      var n := |s| - 1;
      NoDuplicatesCount(s[..n]);
      assert s == s[..n] + [s[n]];
      assert Elements(s) == Elements(s[..n]) + {s[n]};
      if s[n] in s[..n] {
        assert Elements(s) == Elements(s[..n]);
        var i :| 0 <= i < n && s[..n][i] == s[n];
        assert s[i] == s[n];
      }
    }
  }
}
