/** Store keys and map keys (src/core/memory_engine.cpp:34-67, 1274-1276).

    The engine's model uses structured keys (workspace, id), (workspace, term, id) and
    (workspace, time, sequence). The lemmas here say when the strings the code builds are as good
    as those: when two of them are equal, and how event keys compare. */
module Keys {
  import opened Bytes
  import opened Tokenizer
  import opened TokenAlgebra

  const UINT64_LIMIT: nat := 0x1_0000_0000_0000_0000

  function Digit(d: nat): (b: Byte)
    requires d < 10
  {
    (0x30 + d) as Byte
  }

  /** Decimal digits without leading zeros. */
  function ToDecimal(v: nat): (s: Str)
    ensures |s| >= 1
    ensures forall b :: b in s ==> 0x30 <= b <= 0x39
  {
    if v < 10 then [Digit(v)] else ToDecimal(v / 10) + [Digit(v % 10)]
  }

  function Zeros(n: nat): (s: Str)
    ensures |s| == n
    ensures forall i :: 0 <= i < n ==> s[i] == ZERO
  {
    seq(n, _ => ZERO)
  }

  /** A stream with width 20 and fill '0': shorter numbers are padded, none is cut. */
  function ZeroPadUint64(v: nat): (s: Str) {
    var d := ToDecimal(v);
    if |d| < 20 then Zeros(20 - |d|) + d else d
  }

  function BuildDocKey(workspaceId: Str, memoryId: Str): (key: Str) {
    Lit("ws/") + workspaceId + Lit("/doc/") + memoryId
  }

  function BuildVecFpKey(workspaceId: Str, memoryId: Str): (key: Str) {
    Lit("ws/") + workspaceId + Lit("/vecfp/") + memoryId
  }

  function BuildPostingKey(workspaceId: Str, term: Str, bucket: nat, memoryId: Str): (key: Str) {
    Lit("ws/") + workspaceId + Lit("/term/") + term + Lit("/b/") + ToDecimal(bucket) + Lit("/blk/") + memoryId
  }

  function BuildEventKey(workspaceId: Str, ts: nat, seqNo: nat): (key: Str) {
    Lit("ws/") + workspaceId + Lit("/ts/") + ZeroPadUint64(ts) + Lit("/seq/") + ZeroPadUint64(seqNo)
  }

  function RecordMapKey(workspaceId: Str, memoryId: Str): (key: Str) {
    workspaceId + [COLON] + memoryId
  }

  // ---- Zero-padded numbers compare like numbers ----

  function Padded(v: nat, width: nat): (s: Str)
    ensures |s| == width
  {
    if width == 0 then [] else Padded(v / 10, width - 1) + [Digit(v % 10)]
  }

  function Pow10(n: nat): (p: nat)
    ensures p >= 1
  {
    if n == 0 then 1 else 10 * Pow10(n - 1)
  }

  lemma {:induction false} PaddedZero(n: nat)
    ensures Padded(0, n) == Zeros(n)
  {
    if n > 0 {
      PaddedZero(n - 1);
      assert Zeros(n - 1) + [ZERO] == Zeros(n);
    }
  }

  lemma DivideBelow(v: nat, p: nat)
    requires v < 10 * p
    ensures v / 10 < p
  {
  }

  lemma {:induction false} PaddedIsDecimal(v: nat, n: nat)
    requires v < Pow10(n) && n >= 1
    ensures |ToDecimal(v)| <= n && Padded(v, n) == Zeros(n - |ToDecimal(v)|) + ToDecimal(v)
  {
    if v < 10 {
      PaddedZero(n - 1);
    } else {
      assert n > 1 by { assert Pow10(1) == 10 * Pow10(0); }
      DivideBelow(v, Pow10(n - 1));
      PaddedIsDecimal(v / 10, n - 1);
      var d := ToDecimal(v / 10);
      assert Zeros(n - 1 - |d|) + d + [Digit(v % 10)] == Zeros(n - 1 - |d|) + (d + [Digit(v % 10)]);
    }
  }

  lemma Pow10Twenty()
    ensures UINT64_LIMIT <= Pow10(20)
  {
    assert Pow10(5) == 100000 by {
      assert Pow10(1) == 10 * Pow10(0);
      assert Pow10(2) == 10 * Pow10(1);
      assert Pow10(3) == 10 * Pow10(2);
      assert Pow10(4) == 10 * Pow10(3);
    }
    Pow10Sum(5, 5);
    Pow10Sum(10, 10);
    assert Pow10(10) == 10000000000;
  }

  lemma {:induction false} Pow10Sum(a: nat, b: nat)
    ensures Pow10(a + b) == Pow10(a) * Pow10(b)
  {
    if a > 0 { Pow10Sum(a - 1, b); }
  }

  lemma ZeroPadIsPadded(v: nat)
    requires v < UINT64_LIMIT
    ensures ZeroPadUint64(v) == Padded(v, 20)
  {
    Pow10Twenty();
    PaddedIsDecimal(v, 20);
    var d := ToDecimal(v);
    assert |d| == 20 ==> Zeros(0) + d == d;
  }

  lemma {:induction false} PaddedOrder(a: nat, b: nat, n: nat)
    requires a < Pow10(n) && b < Pow10(n)
    ensures Less(Padded(a, n), Padded(b, n)) <==> a < b
    ensures Padded(a, n) == Padded(b, n) <==> a == b
  {
    if n > 0 {
      DivideBelow(a, Pow10(n - 1));
      DivideBelow(b, Pow10(n - 1));
      PaddedOrder(a / 10, b / 10, n - 1);
      var x, y := [Digit(a % 10)], [Digit(b % 10)];
      LessFixedWidth(Padded(a / 10, n - 1), Padded(b / 10, n - 1), x, y);
      assert x[1..] == [] && y[1..] == [];
      assert Padded(a, n)[..n - 1] == Padded(a / 10, n - 1) && Padded(b, n)[..n - 1] == Padded(b / 10, n - 1);
      assert Padded(a, n)[n - 1] == x[0] && Padded(b, n)[n - 1] == y[0];
    }
  }

  /** Padded to twenty digits, 64-bit numbers compare as strings the way they compare as numbers. */
  lemma ZeroPadOrder(a: nat, b: nat)
    requires a < UINT64_LIMIT && b < UINT64_LIMIT
    ensures |ZeroPadUint64(a)| == |ZeroPadUint64(b)| == 20
    ensures Less(ZeroPadUint64(a), ZeroPadUint64(b)) <==> a < b
    ensures ZeroPadUint64(a) == ZeroPadUint64(b) <==> a == b
  {
    ZeroPadIsPadded(a);
    ZeroPadIsPadded(b);
    Pow10Twenty();
    PaddedOrder(a, b, 20);
  }

  /** Event keys of one workspace compare by time and then by sequence number. */
  lemma EventKeyOrder(ws: Str, ts: nat, q: nat, ts': nat, q': nat)
    requires ts < UINT64_LIMIT && ts' < UINT64_LIMIT && q < UINT64_LIMIT && q' < UINT64_LIMIT
    ensures Less(BuildEventKey(ws, ts, q), BuildEventKey(ws, ts', q')) <==> ts < ts' || (ts == ts' && q < q')
    ensures BuildEventKey(ws, ts, q) == BuildEventKey(ws, ts', q') <==> ts == ts' && q == q'
  {
    var head := Lit("ws/") + ws + Lit("/ts/");
    var mid := Lit("/seq/");
    var t, t' := ZeroPadUint64(ts), ZeroPadUint64(ts');
    var s, s' := ZeroPadUint64(q), ZeroPadUint64(q');
    ZeroPadOrder(ts, ts');
    ZeroPadOrder(q, q');
    EventKeyParts(ws, ts, q);
    EventKeyParts(ws, ts', q');
    LessCommonPrefix(head, t + (mid + s), t' + (mid + s'));
    LessFixedWidth(t, t', mid + s, mid + s');
    LessCommonPrefix(mid, s, s');
    if BuildEventKey(ws, ts, q) == BuildEventKey(ws, ts', q') {
      DropPrefix(head, t + (mid + s), t' + (mid + s'));
      assert t == (t + (mid + s))[..20] && t' == (t' + (mid + s'))[..20];
      DropPrefix(t, mid + s, mid + s');
      DropPrefix(mid, s, s');
    }
  }

  lemma EventKeyParts(ws: Str, ts: nat, q: nat)
    ensures BuildEventKey(ws, ts, q)
         == Lit("ws/") + ws + Lit("/ts/") + (ZeroPadUint64(ts) + (Lit("/seq/") + ZeroPadUint64(q)))
  {
    var head, t, mid, s := Lit("ws/") + ws + Lit("/ts/"), ZeroPadUint64(ts), Lit("/seq/"), ZeroPadUint64(q);
    Associative(head + t, mid, s);
    Associative(head, t, mid + s);
  }

  // ---- When two built keys are equal ----

  predicate NoSlash(s: Str) {
    SLASH !in s
  }

  function FirstIndex(s: Str, c: Byte): (n: nat)
    ensures n <= |s|
  {
    if s == [] || s[0] == c then 0 else 1 + FirstIndex(s[1..], c)
  }

  lemma {:induction false} FirstIndexIsLength(x: Str, c: Byte, y: Str)
    requires c !in x
    ensures FirstIndex(x + [c] + y, c) == |x|
  {
    if x != [] {
      assert (x + [c] + y)[1..] == x[1..] + [c] + y;
      FirstIndexIsLength(x[1..], c, y);
    }
  }

  /** A separator ends a part that does not contain it. */
  lemma SplitAt(c: Byte, x: Str, y: Str, x': Str, y': Str)
    requires c !in x && c !in x'
    requires x + [c] + y == x' + [c] + y'
    ensures x == x' && y == y'
  {
    FirstIndexIsLength(x, c, y);
    FirstIndexIsLength(x', c, y');
    var s, s' := x + [c] + y, x' + [c] + y';
    assert x == s[..|x|] && x' == s'[..|x'|];
    assert y == s[|x| + 1..] && y' == s'[|x'| + 1..];
  }

  lemma SplitAtSlash(x: Str, y: Str, x': Str, y': Str)
    requires NoSlash(x) && NoSlash(x')
    requires x + [SLASH] + y == x' + [SLASH] + y'
    ensures x == x' && y == y'
  {
    SplitAt(SLASH, x, y, x', y');
  }

  lemma DropPrefix(p: Str, a: Str, b: Str)
    requires p + a == p + b
    ensures a == b
  {
    assert a == (p + a)[|p|..] && b == (p + b)[|p|..];
  }

  lemma SlashFirst(p: Str)
    requires p != [] && p[0] == SLASH
    ensures p == [SLASH] + p[1..]
  {
  }

  /** One of two strings goes on where the other ends. */
  predicate Nested(p: Str, q: Str) {
    HasPrefix(p, q) || HasPrefix(q, p)
  }

  /** Two prefixes can be continued to the same string exactly if they are nested. */
  lemma NestedIffContinued(p: Str, q: Str)
    ensures Nested(p, q) <==> exists x, y :: p + x == q + y
  {
    if HasPrefix(p, q) {
      assert p + [] == q + p[|q|..];
    } else if HasPrefix(q, p) {
      assert p + q[|p|..] == q + [];
    }
    if x, y :| p + x == q + y {
      assert p == (p + x)[..|p|] && q == (q + y)[..|q|];
    }
  }

  /** Continuations of prefixes that are not nested differ, and so do different ones of one prefix. */
  lemma SplitAtPrefix(p: Str, x: Str, q: Str, y: Str)
    requires p == q || !Nested(p, q)
    ensures p + x == q + y <==> p == q && x == y
  {
    NestedIffContinued(p, q);
    if p + x == q + y { DropPrefix(p, x, y); }
  }

  lemma SameAfterPrefix(p: Str, a: Str, b: Str)
    ensures p + a == p + b <==> a == b
  {
    if p + a == p + b { DropPrefix(p, a, b); }
  }

  lemma NestedStarts(p: Str, x: Str, q: Str, y: Str)
    requires Nested(p + x, q + y)
    ensures Nested(p, q)
  {
    NestedIffContinued(p + x, q + y);
    var a, b :| (p + x) + a == (q + y) + b;
    Associative(p, x, a);
    Associative(q, y, b);
    NestedIffContinued(p, q);
  }

  lemma JoinParts(ws: Str, marker: Str, id: Str)
    ensures Lit("ws/") + ws + marker + id == Lit("ws/") + (ws + marker + id)
  {
    Associative(Lit("ws/") + ws, marker, id);
    Associative(Lit("ws/"), ws, marker + id);
    Associative(ws, marker, id);
  }

  /** Names and ids joined by a marker: two names share a key for some ids if and only if one name
      with the marker begins the other with it. */
  lemma JoinedKeysCollide(ws: Str, ws': Str, marker: Str)
    ensures (exists id, id' :: Lit("ws/") + ws + marker + id == Lit("ws/") + ws' + marker + id') <==> Nested(ws + marker, ws' + marker)
  {
    forall id, id' ensures Lit("ws/") + ws + marker + id == Lit("ws/") + ws' + marker + id' <==> ws + marker + id == ws' + marker + id' {
      JoinParts(ws, marker, id);
      JoinParts(ws', marker, id');
      SameAfterPrefix(Lit("ws/"), ws + marker + id, ws' + marker + id');
    }
    NestedIffContinued(ws + marker, ws' + marker);
    if id, id' :| (ws + marker) + id == (ws' + marker) + id' {
      assert Lit("ws/") + ws + marker + id == Lit("ws/") + ws' + marker + id';
    }
  }

  lemma JoinedKeyInjective(ws: Str, id: Str, ws': Str, id': Str, marker: Str)
    requires ws == ws' || !Nested(ws + marker, ws' + marker)
    ensures Lit("ws/") + ws + marker + id == Lit("ws/") + ws' + marker + id' <==> ws == ws' && id == id'
  {
    JoinParts(ws, marker, id);
    JoinParts(ws', marker, id');
    SameAfterPrefix(Lit("ws/"), ws + marker + id, ws' + marker + id');
    if ws == ws' { SameAfterPrefix(ws + marker, id, id'); }
    else { SplitAtPrefix(ws + marker, id, ws' + marker, id'); }
  }

  /** Two workspaces share a document key for some ids if and only if one name followed by "/doc/"
      begins the other followed by "/doc/". */
  lemma DocKeysCollide(ws: Str, ws': Str)
    ensures (exists id, id' :: BuildDocKey(ws, id) == BuildDocKey(ws', id')) <==> Nested(ws + Lit("/doc/"), ws' + Lit("/doc/"))
  {
    JoinedKeysCollide(ws, ws', Lit("/doc/"));
    if id, id' :| Lit("ws/") + ws + Lit("/doc/") + id == Lit("ws/") + ws' + Lit("/doc/") + id' {
      assert BuildDocKey(ws, id) == BuildDocKey(ws', id');
    }
  }

  /** If they are not nested, a document key determines workspace and id. */
  lemma DocKeyInjective(ws: Str, id: Str, ws': Str, id': Str)
    requires ws == ws' || !Nested(ws + Lit("/doc/"), ws' + Lit("/doc/"))
    ensures BuildDocKey(ws, id) == BuildDocKey(ws', id') <==> ws == ws' && id == id'
  {
    JoinedKeyInjective(ws, id, ws', id', Lit("/doc/"));
  }

  /** The same for the rows of the vectors. */
  lemma VecFpKeysCollide(ws: Str, ws': Str)
    ensures (exists id, id' :: BuildVecFpKey(ws, id) == BuildVecFpKey(ws', id')) <==> Nested(ws + Lit("/vecfp/"), ws' + Lit("/vecfp/"))
  {
    JoinedKeysCollide(ws, ws', Lit("/vecfp/"));
    if id, id' :| Lit("ws/") + ws + Lit("/vecfp/") + id == Lit("ws/") + ws' + Lit("/vecfp/") + id' {
      assert BuildVecFpKey(ws, id) == BuildVecFpKey(ws', id');
    }
  }

  lemma VecFpKeyInjective(ws: Str, id: Str, ws': Str, id': Str)
    requires ws == ws' || !Nested(ws + Lit("/vecfp/"), ws' + Lit("/vecfp/"))
    ensures BuildVecFpKey(ws, id) == BuildVecFpKey(ws', id') <==> ws == ws' && id == id'
  {
    JoinedKeyInjective(ws, id, ws', id', Lit("/vecfp/"));
  }

  /** Event keys never collide, whatever the names: what follows the name has one length. */
  lemma EventKeyInjective(ws: Str, ts: nat, q: nat, ws': Str, ts': nat, q': nat)
    requires ts < UINT64_LIMIT && ts' < UINT64_LIMIT && q < UINT64_LIMIT && q' < UINT64_LIMIT
    ensures BuildEventKey(ws, ts, q) == BuildEventKey(ws', ts', q') <==> ws == ws' && ts == ts' && q == q'
  {
    ZeroPadOrder(ts, ts');
    ZeroPadOrder(q, q');
    EventKeyOrder(ws, ts, q, ts', q');
    if BuildEventKey(ws, ts, q) == BuildEventKey(ws', ts', q') {
      EventKeyParts(ws, ts, q);
      EventKeyParts(ws', ts', q');
      SameNames(Lit("ws/"), ws, ws', Lit("/ts/"), ZeroPadUint64(ts) + (Lit("/seq/") + ZeroPadUint64(q)),
                ZeroPadUint64(ts') + (Lit("/seq/") + ZeroPadUint64(q')));
    }
  }

  lemma SameNames(w: Str, ws: Str, ws': Str, mark: Str, x: Str, y: Str)
    requires w + ws + mark + x == w + ws' + mark + y && |x| == |y|
    ensures ws == ws'
  {
    SameTails(w + ws + mark, x, w + ws' + mark, y);
    SameTails(w + ws, mark, w + ws', mark);
    DropPrefix(w, ws, ws');
  }

  lemma SameTails(p: Str, x: Str, q: Str, y: Str)
    requires p + x == q + y && |x| == |y|
    ensures p == q && x == y
  {
    assert p == (p + x)[..|p|] && q == (q + y)[..|q|];
    DropPrefix(p, x, y);
  }

  /** The documents of a set of workspaces have keys of their own if and only if no two are nested. */
  lemma DocKeysUnique(wss: set<Str>)
    ensures (forall ws, ws', id, id' :: ws in wss && ws' in wss && BuildDocKey(ws, id) == BuildDocKey(ws', id') ==> ws == ws' && id == id')
       <==> (forall ws, ws' :: ws in wss && ws' in wss && ws != ws' ==> !Nested(ws + Lit("/doc/"), ws' + Lit("/doc/")))
  {
    if forall ws, ws', id, id' :: ws in wss && ws' in wss && BuildDocKey(ws, id) == BuildDocKey(ws', id') ==> ws == ws' && id == id' {
      forall ws, ws' | ws in wss && ws' in wss && ws != ws' ensures !Nested(ws + Lit("/doc/"), ws' + Lit("/doc/")) {
        DocKeysCollide(ws, ws');
      }
    }
    if forall ws, ws' :: ws in wss && ws' in wss && ws != ws' ==> !Nested(ws + Lit("/doc/"), ws' + Lit("/doc/")) {
      forall ws, ws', id, id' | ws in wss && ws' in wss && BuildDocKey(ws, id) == BuildDocKey(ws', id') ensures ws == ws' && id == id' {
        DocKeyInjective(ws, id, ws', id');
      }
    }
  }

  /** For instance, a name with "/doc/" inside shares a document row with the name before it. */
  lemma DocKeyCollision(a: Str, b: Str, id: Str)
    ensures BuildDocKey(a + Lit("/doc/") + b, id) == BuildDocKey(a, b + Lit("/doc/") + id)
    ensures a + Lit("/doc/") + b != a
  {
    var m := Lit("/doc/");
    assert Lit("ws/") + (a + m + b) + m + id == Lit("ws/") + a + m + (b + m + id);
    assert |a + m + b| > |a|;
  }

  lemma PartsAfterWorkspace(ws: Str, marker: Str, rest: Str)
    requires marker != [] && marker[0] == SLASH
    ensures Lit("ws/") + ws + marker + rest == Lit("ws/") + (ws + [SLASH] + (marker[1..] + rest))
  {
    SlashFirst(marker);
  }

  function PostingPrefix(ws: Str, t: Str, n: nat): (p: Str) {
    Lit("ws/") + ws + Lit("/term/") + t + Lit("/b/") + ToDecimal(n) + Lit("/blk/")
  }

  /** Two terms share a posting key for some ids if and only if the keys' beginnings are nested. */
  lemma PostingKeysCollide(ws: Str, t: Str, n: nat, ws': Str, t': Str, n': nat)
    ensures (exists id, id' :: BuildPostingKey(ws, t, n, id) == BuildPostingKey(ws', t', n', id'))
       <==> Nested(PostingPrefix(ws, t, n), PostingPrefix(ws', t', n'))
  {
    forall id, id' ensures BuildPostingKey(ws, t, n, id) == PostingPrefix(ws, t, n) + id && BuildPostingKey(ws', t', n', id') == PostingPrefix(ws', t', n') + id' {}
    NestedIffContinued(PostingPrefix(ws, t, n), PostingPrefix(ws', t', n'));
    if id, id' :| PostingPrefix(ws, t, n) + id == PostingPrefix(ws', t', n') + id' {
      assert BuildPostingKey(ws, t, n, id) == BuildPostingKey(ws', t', n', id');
    }
  }

  /** Within a workspace, whatever its name, and across workspaces for which the keys' beginnings are
      not nested, a posting key determines workspace, term and id; the bucket is a function of the
      first two. The terms come out of the tokenizer. */
  lemma PostingKeyInjective(text: Str, ws: Str, t: Str, n: nat, id: Str, text': Str, ws': Str, t': Str, n': nat, id': Str)
    requires ws == ws' || !Nested(PostingPrefix(ws, t, n), PostingPrefix(ws', t', n'))
    requires t in TokensOf(text) && t' in TokensOf(text')
    requires BuildPostingKey(ws, t, n, id) == BuildPostingKey(ws', t', n', id')
    ensures ws == ws' && t == t' && ToDecimal(n) == ToDecimal(n') && id == id'
  {
    assert BuildPostingKey(ws, t, n, id) == PostingPrefix(ws, t, n) + id && BuildPostingKey(ws', t', n', id') == PostingPrefix(ws', t', n') + id';
    NestedIffContinued(PostingPrefix(ws, t, n), PostingPrefix(ws', t', n'));
    TermHasNoSlash(text, t);
    TermHasNoSlash(text', t');
    SamePostingKey(ws, t, n, id, t', n', id');
  }

  lemma SamePostingKey(ws: Str, t: Str, n: nat, id: Str, t': Str, n': nat, id': Str)
    requires NoSlash(t) && NoSlash(t') && BuildPostingKey(ws, t, n, id) == BuildPostingKey(ws, t', n', id')
    ensures t == t' && ToDecimal(n) == ToDecimal(n') && id == id'
  {
    var term, b, blk := Lit("/term/"), Lit("/b/"), Lit("/blk/");
    PostingParts(ws, t, n, id);
    PostingParts(ws, t', n', id');
    var z, z' := ToDecimal(n) + [SLASH] + (blk[1..] + id), ToDecimal(n') + [SLASH] + (blk[1..] + id');
    var y, y' := t + [SLASH] + (b[1..] + z), t' + [SLASH] + (b[1..] + z');
    DropPrefix(Lit("ws/"), ws + [SLASH] + (term[1..] + y), ws + [SLASH] + (term[1..] + y'));
    DropPrefix(ws + [SLASH], term[1..] + y, term[1..] + y');
    DropPrefix(term[1..], y, y');
    SplitAtSlash(t, b[1..] + z, t', b[1..] + z');
    DropPrefix(b[1..], z, z');
    SplitAtSlash(ToDecimal(n), blk[1..] + id, ToDecimal(n'), blk[1..] + id');
    DropPrefix(blk[1..], id, id');
  }

  /** Names that are not nested up to a slash have nested keys nowhere. */
  lemma NamesApart(ws: Str, ws': Str)
    requires !Nested(ws + [SLASH], ws' + [SLASH])
    ensures !Nested(ws + Lit("/doc/"), ws' + Lit("/doc/")) && !Nested(ws + Lit("/vecfp/"), ws' + Lit("/vecfp/"))
    ensures forall t, n, t', n' :: !Nested(PostingPrefix(ws, t, n), PostingPrefix(ws', t', n'))
  {
    var doc, vecfp := Lit("/doc/"), Lit("/vecfp/");
    SlashFirst(doc);
    SlashFirst(vecfp);
    if Nested(ws + doc, ws' + doc) { ApartFrom(ws, doc, ws', doc); }
    if Nested(ws + vecfp, ws' + vecfp) { ApartFrom(ws, vecfp, ws', vecfp); }
    forall t, n, t', n' ensures !Nested(PostingPrefix(ws, t, n), PostingPrefix(ws', t', n')) {
      PostingPrefixesApart(ws, t, n, ws', t', n');
    }
  }

  lemma ApartFrom(ws: Str, x: Str, ws': Str, y: Str)
    requires !Nested(ws + [SLASH], ws' + [SLASH]) && x != [] && x[0] == SLASH && y != [] && y[0] == SLASH
    ensures !Nested(ws + x, ws' + y)
  {
    SlashFirst(x);
    SlashFirst(y);
    assert ws + x == ws + [SLASH] + x[1..] && ws' + y == ws' + [SLASH] + y[1..];
    if Nested(ws + x, ws' + y) { NestedStarts(ws + [SLASH], x[1..], ws' + [SLASH], y[1..]); }
  }

  lemma PostingPrefixesApart(ws: Str, t: Str, n: nat, ws': Str, t': Str, n': nat)
    requires !Nested(ws + [SLASH], ws' + [SLASH])
    ensures !Nested(PostingPrefix(ws, t, n), PostingPrefix(ws', t', n'))
  {
    var x, y := PostingRest(t, n), PostingRest(t', n');
    PostingPrefixParts(ws, t, n);
    PostingPrefixParts(ws', t', n');
    ApartFrom(ws, x, ws', y);
    if Nested(Lit("ws/") + (ws + x), Lit("ws/") + (ws' + y)) {
      NestedIffContinued(Lit("ws/") + (ws + x), Lit("ws/") + (ws' + y));
      var a, b :| Lit("ws/") + (ws + x) + a == Lit("ws/") + (ws' + y) + b;
      Associative(Lit("ws/"), ws + x, a);
      Associative(Lit("ws/"), ws' + y, b);
      DropPrefix(Lit("ws/"), ws + x + a, ws' + y + b);
      NestedIffContinued(ws + x, ws' + y);
    }
  }

  function PostingRest(t: Str, n: nat): (r: Str) {
    Lit("/term/") + t + Lit("/b/") + ToDecimal(n) + Lit("/blk/")
  }

  lemma PostingPrefixParts(ws: Str, t: Str, n: nat)
    ensures PostingPrefix(ws, t, n) == Lit("ws/") + (ws + PostingRest(t, n))
  {
    var w, term, b, d, blk := Lit("ws/"), Lit("/term/"), Lit("/b/"), ToDecimal(n), Lit("/blk/");
    assert w + ws + term + t + b + d + blk == w + (ws + (term + t + b + d + blk));
  }

  lemma TermHasNoSlash(text: Str, t: Str)
    requires t in TokensOf(text)
    ensures NoSlash(t)
  {
    TokensHaveNoSeparator(text);
  }

  lemma PostingParts(ws: Str, t: Str, n: nat, id: Str)
    ensures var z := ToDecimal(n) + [SLASH] + (Lit("/blk/")[1..] + id);
      BuildPostingKey(ws, t, n, id)
      == Lit("ws/") + (ws + [SLASH] + (Lit("/term/")[1..] + (t + [SLASH] + (Lit("/b/")[1..] + z))))
  {
    var w, term, b, d, blk := Lit("ws/"), Lit("/term/"), Lit("/b/"), ToDecimal(n), Lit("/blk/");
    SlashFirst(term);
    SlashFirst(b);
    SlashFirst(blk);
    var z := d + [SLASH] + (blk[1..] + id);
    Associative(w + ws + term + t + b + d, blk, id);
    Associative(w + ws + term + t + b, d, blk + id);
    assert d + (blk + id) == z;
    Associative(w + ws + term + t, b, z);
    Associative(w + ws + term, t, b + z);
    var y := t + [SLASH] + (b[1..] + z);
    assert t + (b + z) == y;
    PartsAfterWorkspace(ws, term, y);
  }

  /** In-memory keys join with ':'. Two workspaces share a map key for some ids if and only if one
      name followed by ':' begins the other followed by ':'. */
  lemma RecordMapKeysCollide(ws: Str, ws': Str)
    ensures (exists id, id' :: RecordMapKey(ws, id) == RecordMapKey(ws', id')) <==> Nested(ws + [COLON], ws' + [COLON])
  {
    NestedIffContinued(ws + [COLON], ws' + [COLON]);
    if id, id' :| (ws + [COLON]) + id == (ws' + [COLON]) + id' {
      assert RecordMapKey(ws, id) == RecordMapKey(ws', id');
    }
  }

  /** If they are not nested, a map key determines workspace and id. */
  lemma RecordMapKeyInjective(ws: Str, id: Str, ws': Str, id': Str)
    requires ws == ws' || !Nested(ws + [COLON], ws' + [COLON])
    ensures RecordMapKey(ws, id) == RecordMapKey(ws', id') <==> ws == ws' && id == id'
  {
    if ws == ws' { SameAfterPrefix(ws + [COLON], id, id'); }
    else { SplitAtPrefix(ws + [COLON], id, ws' + [COLON], id'); }
  }

  /** The records of a set of workspaces have map keys of their own if and only if no two are nested. */
  lemma RecordMapKeysUnique(wss: set<Str>)
    ensures (forall ws, ws', id, id' :: ws in wss && ws' in wss && RecordMapKey(ws, id) == RecordMapKey(ws', id') ==> ws == ws' && id == id')
       <==> (forall ws, ws' :: ws in wss && ws' in wss && ws != ws' ==> !Nested(ws + [COLON], ws' + [COLON]))
  {
    if forall ws, ws', id, id' :: ws in wss && ws' in wss && RecordMapKey(ws, id) == RecordMapKey(ws', id') ==> ws == ws' && id == id' {
      forall ws, ws' | ws in wss && ws' in wss && ws != ws' ensures !Nested(ws + [COLON], ws' + [COLON]) {
        RecordMapKeysCollide(ws, ws');
      }
    }
    if forall ws, ws' :: ws in wss && ws' in wss && ws != ws' ==> !Nested(ws + [COLON], ws' + [COLON]) {
      forall ws, ws', id, id' | ws in wss && ws' in wss && RecordMapKey(ws, id) == RecordMapKey(ws', id') ensures ws == ws' && id == id' {
        RecordMapKeyInjective(ws, id, ws', id');
      }
    }
  }

  /** So every name with a ':' collides with its prefix before the ':'. */
  lemma RecordMapKeyCollision(a: Str, b: Str, id: Str)
    ensures RecordMapKey(a + [COLON] + b, id) == RecordMapKey(a, b + [COLON] + id)
    ensures a + [COLON] + b != a
  {
    assert (a + [COLON] + b) + [COLON] + id == a + [COLON] + (b + [COLON] + id);
    assert |a + [COLON] + b| > |a|;
  }

  // ---- Generated ids ----

  function NextMemoryId(nowMs: nat, localSeq: nat): (id: Str) {
    Lit("m-") + ZeroPadUint64(nowMs) + Lit("-") + ZeroPadUint64(localSeq)
  }

  /** Ids drawn with different sequence numbers or at different times differ. */
  lemma NextMemoryIdInjective(now: nat, q: nat, now': nat, q': nat)
    requires now < UINT64_LIMIT && now' < UINT64_LIMIT && q < UINT64_LIMIT && q' < UINT64_LIMIT
    ensures NextMemoryId(now, q) == NextMemoryId(now', q') <==> now == now' && q == q'
  {
    if NextMemoryId(now, q) == NextMemoryId(now', q') {
      ZeroPadOrder(now, now');
      ZeroPadOrder(q, q');
      var a, b := NextMemoryId(now, q), NextMemoryId(now', q');
      assert a[2..22] == ZeroPadUint64(now) && b[2..22] == ZeroPadUint64(now');
      assert a[23..] == ZeroPadUint64(q) && b[23..] == ZeroPadUint64(q');
    }
  }
}
