/** The vector index (src/core/lsh_vector_index.cpp). Scores are real numbers. */
module VectorIndex {
  import opened Bytes
  import opened Collections
  import opened Ranking

  type Vector = seq<real>

  datatype Entry = Entry(vector: Vector, bucket: nat)

  // ---- Buckets ----

  function Pow2(n: nat): (p: nat)
    ensures p >= 1
  {
    if n == 0 then 1 else 2 * Pow2(n - 1)
  }

  function BitCount(v: Vector): (n: nat) {
    if |v| < 64 then |v| else 64
  }

  /** The signature of the first n coordinates: bit i is set when coordinate i is positive. */
  function Signature(v: Vector, n: nat): (b: nat)
    requires n <= |v|
    ensures b < Pow2(n)
  {
    if n == 0 then 0 else Signature(v, n - 1) + if v[n - 1] > 0.0 then Pow2(n - 1) else 0
  }

  function BucketOf(v: Vector): (b: nat) {
    Signature(v, BitCount(v))
  }

  predicate PositiveAt(v: Vector, i: nat) {
    i < BitCount(v) && v[i] > 0.0
  }

  lemma {:induction false} SignatureEqual(a: Vector, b: Vector, n: nat)
    requires n <= |a| && n <= |b|
    ensures Signature(a, n) == Signature(b, n) <==> forall i :: 0 <= i < n ==> (a[i] > 0.0 <==> b[i] > 0.0)
  {
    if n > 0 { SignatureEqual(a, b, n - 1); }
  }

  lemma {:induction false} SignatureExtends(b: Vector, m: nat, n: nat)
    requires m <= n <= |b|
    ensures Signature(b, m) <= Signature(b, n)
    ensures Signature(b, n) == Signature(b, m) <==> forall i :: m <= i < n ==> b[i] <= 0.0
    ensures m < n && Signature(b, n) != Signature(b, m) ==> Signature(b, n) >= Pow2(m)
  {
    if m < n {
      SignatureExtends(b, m, n - 1);
      Pow2Monotone(m, n - 1);
    }
  }

  lemma {:induction false} Pow2Monotone(m: nat, n: nat)
    requires m <= n
    ensures Pow2(m) <= Pow2(n)
  {
    if m < n { Pow2Monotone(m, n - 1); }
  }

  /** Two vectors share a bucket exactly when the same of their first 64 coordinates are positive. */
  lemma SameBucketSameSigns(a: Vector, b: Vector)
    ensures BucketOf(a) == BucketOf(b) <==> forall i :: PositiveAt(a, i) <==> PositiveAt(b, i)
  {
    if BitCount(a) <= BitCount(b) { SameBucketOrdered(a, b); } else { SameBucketOrdered(b, a); }
  }

  lemma SameBucketOrdered(a: Vector, b: Vector)
    requires BitCount(a) <= BitCount(b)
    ensures BucketOf(a) == BucketOf(b) <==> forall i :: PositiveAt(a, i) <==> PositiveAt(b, i)
  {
    var m, n := BitCount(a), BitCount(b);
    SignatureEqual(a, b, m);
    SignatureExtends(b, m, n);
    assert Signature(a, m) < Pow2(m) && Signature(b, m) < Pow2(m);
    if forall i :: PositiveAt(a, i) <==> PositiveAt(b, i) {
      forall i | 0 <= i < m ensures a[i] > 0.0 <==> b[i] > 0.0 {
        assert PositiveAt(a, i) <==> PositiveAt(b, i);
      }
      forall i | m <= i < n ensures b[i] <= 0.0 {
        assert PositiveAt(a, i) <==> PositiveAt(b, i);
      }
    }
  }

  // ---- Similarity ----

  function Dot(a: Vector, b: Vector, n: nat): (d: real)
    requires n <= |a| && n <= |b|
  {
    if n == 0 then 0.0 else Dot(a, b, n - 1) + a[n - 1] * b[n - 1]
  }

  function Cosine(a: Vector, b: Vector): (c: real) {
    if |a| != |b| || a == [] then 0.0 else Dot(a, b, |a|)
  }

  function Similarity(query: Vector, e: Entry): (s: real) {
    Cosine(query, e.vector) + if e.bucket == BucketOf(query) then 0.05 else 0.0
  }

  function Similarities(entries: map<Str, Entry>, query: Vector): (s: Scores) {
    map id | id in entries :: Similarity(query, entries[id])
  }

  /** The ids a search returns: the k best of the workspace, all of them when k is 0. */
  ghost function Nearest(vectors: map<Str, map<Str, Entry>>, ws: Str, query: Vector, k: nat): set<Str> {
    if ws !in vectors || query == [] then {}
    else Top(Similarities(vectors[ws], query), if k > 0 then k else |vectors[ws]|)
  }

  class LshVectorIndex {
    var workspaceVectors: map<Str, map<Str, Entry>>

    constructor ()
      ensures workspaceVectors == map[]
    {
      workspaceVectors := map[];
    }

    method Upsert(ws: Str, id: Str, vector: Vector)
      modifies this
      ensures workspaceVectors
           == old(workspaceVectors)[ws := Docs(old(workspaceVectors), ws)[id := Entry(vector, BucketOf(vector))]]
    {
      var bucket := BucketForVector(vector);
      workspaceVectors := workspaceVectors[ws := Docs(workspaceVectors, ws)[id := Entry(vector, bucket)]];
    }

    method Remove(ws: Str, id: Str)
      modifies this
      ensures workspaceVectors == Without(old(workspaceVectors), ws, id)
    {
      if ws !in workspaceVectors {
        return;
      }
      var rest := workspaceVectors[ws] - {id};
      workspaceVectors := workspaceVectors[ws := rest];
      if rest == map[] {
        workspaceVectors := workspaceVectors - {ws};
      }
    }

    method Search(ws: Str, query: Vector, topK: nat) returns (out: seq<(Str, real)>)
      ensures NoDuplicates(Ids(out)) && Elements(Ids(out)) == Nearest(workspaceVectors, ws, query, topK)
      ensures forall i :: 0 <= i < |out| ==>
                ws in workspaceVectors && out[i].0 in workspaceVectors[ws]
                && out[i].1 == Similarity(query, workspaceVectors[ws][out[i].0])
      ensures forall i, j :: 0 <= i < j < |out| ==> ItemAtMost(out[i], out[j])
    {
      out := [];
      if ws !in workspaceVectors || query == [] {
        return;
      }
      var entries := workspaceVectors[ws];
      var queryBucket := BucketForVector(query);
      var ids := Enumerate(entries.Keys);
      for i := 0 to |ids|
        invariant |out| == i
        invariant forall j :: 0 <= j < i ==> ids[j] in entries && out[j] == (ids[j], Similarity(query, entries[ids[j]]))
      {
        assert ids[i] in Elements(ids);
        var entry := entries[ids[i]];
        var score := CosineOf(query, entry.vector);
        if entry.bucket == queryBucket {
          score := score + 0.05;
        }
        out := out + [(ids[i], score)];
      }
      ghost var s := Similarities(entries, query);
      assert Ids(out) == ids;
      out := Rank(out, if topK > 0 then topK else |out|, s);
    }

    method BucketForVector(vector: Vector) returns (bucket: nat)
      ensures bucket == BucketOf(vector)
    {
      bucket := 0;
      var bit := 1;
      for i := 0 to BitCount(vector)
        invariant bucket == Signature(vector, i) && bit == Pow2(i)
      {
        if vector[i] > 0.0 {
          bucket := bucket + bit;
        }
        bit := 2 * bit;
      }
    }

    static method CosineOf(a: Vector, b: Vector) returns (dot: real)
      ensures dot == Cosine(a, b)
    {
      if |a| != |b| || a == [] {
        return 0.0;
      }
      dot := 0.0;
      for i := 0 to |a|
        invariant dot == Dot(a, b, i)
      {
        dot := dot + a[i] * b[i];
      }
    }
  }

  function Docs(vectors: map<Str, map<Str, Entry>>, ws: Str): (m: map<Str, Entry>) {
    if ws in vectors then vectors[ws] else map[]
  }

  /** One vector removed; a workspace left without vectors goes too. */
  function Without(vectors: map<Str, map<Str, Entry>>, ws: Str, id: Str): (r: map<Str, map<Str, Entry>>) {
    if ws !in vectors then vectors
    else
      var rest := vectors[ws] - {id};
      if rest == map[] then vectors - {ws} else vectors[ws := rest]
  }
}
