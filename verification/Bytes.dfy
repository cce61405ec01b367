/** Byte strings and the order the C++ standard library gives them.

    A std::string is a sequence of bytes; operator< on it is lexicographic on unsigned bytes,
    and that order is what ordered maps, range scans and checkpoint comparisons rest on. */
module Bytes {
  newtype Byte = x: int | 0 <= x < 256

  type Str = seq<Byte>

  const SLASH: Byte := 0x2F
  const COLON: Byte := 0x3A
  const SEMICOLON: Byte := 0x3B
  const BAR: Byte := 0x7C
  const ZERO: Byte := 0x30

  /** The bytes of an ASCII literal. */
  function Lit(s: string): (r: Str)
    requires forall i :: 0 <= i < |s| ==> s[i] < 128 as char
    ensures |r| == |s|
    ensures forall i :: 0 <= i < |s| ==> r[i] as int == s[i] as int
  {
    seq(|s|, i requires 0 <= i < |s| => s[i] as int as Byte)
  }

  predicate Less(a: Str, b: Str) {
    b != [] && (a == [] || a[0] < b[0] || (a[0] == b[0] && Less(a[1..], b[1..])))
  }

  predicate AtMost(a: Str, b: Str) {
    a == b || Less(a, b)
  }

  lemma {:induction false} LessIrreflexive(a: Str)
    ensures !Less(a, a)
  {
    if a != [] { LessIrreflexive(a[1..]); }
  }

  lemma {:induction false} LessTransitive(a: Str, b: Str, c: Str)
    requires Less(a, b) && Less(b, c)
    ensures Less(a, c)
  {
    if a != [] && a[0] == b[0] && b[0] == c[0] {
      LessTransitive(a[1..], b[1..], c[1..]);
    }
  }

  lemma {:induction false} LessTotal(a: Str, b: Str)
    ensures Less(a, b) || a == b || Less(b, a)
  {
    if a != [] && b != [] && a[0] == b[0] {
      LessTotal(a[1..], b[1..]);
      assert a == [a[0]] + a[1..] && b == [b[0]] + b[1..];
    }
  }

  /** `AtMost` is a total order: what a sort by key needs to know about it. */
  lemma AtMostIsTotalOrder()
    ensures forall a, b :: AtMost(a, b) || AtMost(b, a)
    ensures forall a, b, c :: AtMost(a, b) && AtMost(b, c) ==> AtMost(a, c)
    ensures forall a, b :: AtMost(a, b) && AtMost(b, a) ==> a == b
  {
    forall a, b ensures AtMost(a, b) || AtMost(b, a) { LessTotal(a, b); }
    forall a, b, c | AtMost(a, b) && AtMost(b, c) ensures AtMost(a, c) {
      if Less(a, b) && Less(b, c) { LessTransitive(a, b, c); }
    }
    forall a, b | AtMost(a, b) && AtMost(b, a) ensures a == b {
      if a != b { LessTransitive(a, b, a); LessIrreflexive(a); }
    }
  }

  /** A shared prefix does not affect the comparison. */
  lemma {:induction false} LessCommonPrefix(p: Str, a: Str, b: Str)
    ensures Less(p + a, p + b) <==> Less(a, b)
  {
    if p == [] {
      assert p + a == a && p + b == b;
    } else {
      assert (p + a)[1..] == p[1..] + a && (p + b)[1..] == p[1..] + b;
      LessCommonPrefix(p[1..], a, b);
    }
  }

  predicate HasPrefix(s: Str, p: Str) {
    |p| <= |s| && s[..|p|] == p
  }

  /** Two strings of one length that differ are ordered by what comes first, whatever follows. */
  lemma {:induction false} LessFixedWidth(a: Str, b: Str, x: Str, y: Str)
    requires |a| == |b|
    ensures Less(a + x, b + y) <==> Less(a, b) || (a == b && Less(x, y))
  {
    if a == [] {
      assert a + x == x && b + y == y;
    } else {
      assert (a + x)[1..] == a[1..] + x && (b + y)[1..] == b[1..] + y;
      assert a == [a[0]] + a[1..] && b == [b[0]] + b[1..];
      LessFixedWidth(a[1..], b[1..], x, y);
    }
  }

  lemma HasPrefixCons(k: Str, p: Str)
    requires p != []
    ensures HasPrefix(k, p) <==> k != [] && k[0] == p[0] && HasPrefix(k[1..], p[1..])
  {
    if |p| <= |k| {
      assert k[..|p|] == [k[0]] + k[1..][..|p| - 1];
      assert p == [p[0]] + p[1..];
    }
  }

  /** The half-open range a scan uses for one namespace, [ns:begin, ns;), holds exactly the keys
      that carry the prefix `ns:` and are at or above `ns:begin`. */
  lemma {:induction false} NamespaceRange(ns: Str, begin: Str, k: Str)
    ensures AtMost(ns + [COLON] + begin, k) && Less(k, ns + [SEMICOLON])
       <==> HasPrefix(k, ns + [COLON]) && AtMost(begin, k[|ns| + 1..])
  {
    var low, high, prefix := ns + [COLON] + begin, ns + [SEMICOLON], ns + [COLON];
    HasPrefixCons(k, prefix);
    if ns == [] {
      assert low[1..] == begin && high[1..] == [] && prefix[1..] == [];
    } else {
      assert low[1..] == ns[1..] + [COLON] + begin && high[1..] == ns[1..] + [SEMICOLON];
      assert prefix[1..] == ns[1..] + [COLON];
      if k != [] {
        NamespaceRange(ns[1..], begin, k[1..]);
        assert |ns| < |k| ==> k[1..][|ns[1..]| + 1..] == k[|ns| + 1..];
      }
    }
    if k != [] && k[0] == low[0] {
      assert k == [k[0]] + k[1..] && low == [low[0]] + low[1..];
    }
  }

  /** Whatever lies between two strings with a common prefix has that prefix too. */
  lemma {:induction false} PrefixIsConvex(p: Str, a: Str, b: Str, k: Str)
    ensures AtMost(p + a, k) && Less(k, p + b)
       <==> HasPrefix(k, p) && AtMost(a, k[|p|..]) && Less(k[|p|..], b)
  {
    if p == [] {
      assert p + a == a && p + b == b && k[0..] == k;
    } else {
      HasPrefixCons(k, p);
      var low, high := p + a, p + b;
      assert low[1..] == p[1..] + a && high[1..] == p[1..] + b;
      if k != [] && k[0] == p[0] {
        PrefixIsConvex(p[1..], a, b, k[1..]);
        assert |p| <= |k| ==> k[1..][|p[1..]|..] == k[|p|..];
        assert k == [k[0]] + k[1..] && low == [low[0]] + low[1..];
      }
    }
  }
}
