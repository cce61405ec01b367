/** Laws of the tokenizer that hold for all byte strings, well-formed or not. */
module TokenAlgebra {
  import opened Bytes
  import opened Utf8
  import opened Tokenizer

  // ---- Concatenation across a separator ----

  /** A character never reaches into an ASCII byte: decoding the front of `a` does not depend on
      what follows `a`, even when `a` ends inside a character. */
  lemma DecodeStopsAtAscii(a: Str, b: Str)
    requires a != [] && (b == [] || b[0] < 0x80)
    ensures DecodeUtf8At(a + b, 0) == DecodeUtf8At(a, 0)
  {
    var s := a + b;
    assert forall j :: 0 <= j < |a| ==> s[j] == a[j];
    assert b != [] ==> s[|a|] == b[0];
  }

  lemma {:induction false} UnitsConcat(a: Str, b: Str)
    requires b == [] || b[0] < 0x80
    ensures Units(a + b) == Units(a) + Units(b)
  {
    if a == [] {
      assert a + b == b;
    } else {
      DecodeStopsAtAscii(a, b);
      UnitConcat(a, b);
      var rest := a[WidthAt(a)..];
      UnitsConcat(rest, b);
      Associative([UnitAt(a)], Units(rest), Units(b));
    }
  }

  lemma UnitConcat(a: Str, b: Str)
    requires a != [] && DecodeUtf8At(a + b, 0) == DecodeUtf8At(a, 0)
    ensures UnitAt(a + b) == UnitAt(a) && WidthAt(a + b) == WidthAt(a)
    ensures (a + b)[WidthAt(a)..] == a[WidthAt(a)..] + b
  {
    assert (a + b)[..WidthAt(a)] == a[..WidthAt(a)];
  }

  lemma {:induction false} TokensConcat(u: seq<Unit>, v: seq<Unit>)
    requires v == [] || v[0].Gap?
    ensures Tokens(u + v) == Tokens(u) + Tokens(v)
    decreases |u|
  {
    if u == [] {
      assert u + v == v;
    } else {
      var n, first := FirstTokens(u, v);
      TokensConcat(u[n..], v);
      Associative(first, Tokens(u[n..]), Tokens(v));
    }
  }

  /** The tokens of the first run do not depend on what follows a gap. */
  lemma FirstTokens(u: seq<Unit>, v: seq<Unit>) returns (n: nat, first: seq<Str>)
    requires u != [] && (v == [] || v[0].Gap?)
    ensures 1 <= n <= |u| && Tokens(u) == first + Tokens(u[n..]) && Tokens(u + v) == first + Tokens(u[n..] + v)
  {
    n := match u[0] case Gap => 1 case Word(_) => WordRun(u) case Cjk(_) => CjkRun(u);
    RunConcat(u, v);
    SlicesConcat(u, v, n);
    first := match u[0] case Gap => [] case Word(_) => [Letters(u[..n])] case Cjk(_) => Bigrams(Characters(u[..n]));
  }

  lemma SlicesConcat<T>(u: seq<T>, v: seq<T>, n: nat)
    requires n <= |u|
    ensures (u + v)[n..] == u[n..] + v && (u + v)[..n] == u[..n]
  {
  }

  lemma RunConcat(u: seq<Unit>, v: seq<Unit>)
    requires v == [] || v[0].Gap?
    ensures WordRun(u + v) == WordRun(u) && CjkRun(u + v) == CjkRun(u)
  {
    RunOfPrefix(u + v, WordRun(u));
    RunOfPrefix(u + v, CjkRun(u));
  }

  /** Any ASCII byte that is not a word character cuts the input in two independent parts, also
      when the first part ends in a truncated character. */
  lemma TokenizeSplitsAtSeparator(a: Str, s: Byte, b: Str)
    requires s < 0x80 && !IsAsciiWordChar(s)
    ensures TokensOf(a + [s] + b) == TokensOf(a) + TokensOf(b)
  {
    var tail := [s] + b;
    assert a + [s] + b == a + tail;
    UnitsConcat(a, tail);
    assert tail[1..] == b && UnitAt(tail) == Gap && WidthAt(tail) == 1;
    TokensConcat(Units(a), Units(tail));
    assert Units(tail) == [Gap] + Units(b);
    assert Units(tail)[1..] == Units(b);
  }

  // ---- Shape of tokens ----

  predicate IsWordToken(t: Str) {
    t != [] && forall i :: 0 <= i < |t| ==> IsAsciiWordChar(t[i]) && ToLower(t[i]) == t[i]
  }

  /** The bytes of one CJK character. */
  predicate IsCjkChar(c: Str) {
    c != [] && c[0] >= 0x80 && UnitAt(c) == Cjk(c) && WidthAt(c) == |c|
  }

  predicate IsToken(t: Str) {
    IsWordToken(t) || IsCjkChar(t) || exists k :: 0 < k < |t| && IsBigramAt(t, k)
  }

  predicate IsBigramAt(t: Str, k: nat) {
    0 < k < |t| && IsCjkChar(t[..k]) && IsCjkChar(t[k..])
  }

  predicate WellFormedUnit(u: Unit) {
    match u
    case Word(b) => IsAsciiWordChar(b) && ToLower(b) == b
    case Cjk(c) => IsCjkChar(c)
    case Gap => true
  }

  lemma CharDecodesAlone(s: Str, len: nat)
    requires s != [] && DecodeUtf8At(s, 0).Scalar? && DecodeUtf8At(s, 0).length == len
    ensures len <= |s| && DecodeUtf8At(s[..len], 0) == DecodeUtf8At(s, 0)
  {
    var c := s[..len];
    assert forall j :: 0 <= j < len ==> c[j] == s[j];
  }

  lemma UnitIsWellFormed(s: Str)
    requires s != []
    ensures WellFormedUnit(UnitAt(s))
  {
    if UnitAt(s).Cjk? {
      var len := DecodeUtf8At(s, 0).length;
      CharDecodesAlone(s, len);
      assert s[..len][..len] == s[..len];
    }
  }

  lemma {:induction false} UnitsAreWellFormed(s: Str)
    ensures forall u :: u in Units(s) ==> WellFormedUnit(u)
  {
    if s != [] {
      UnitIsWellFormed(s);
      UnitsAreWellFormed(s[WidthAt(s)..]);
    }
  }

  lemma {:induction false} TokensAreTokens(us: seq<Unit>)
    requires forall u :: u in us ==> WellFormedUnit(u)
    ensures forall t :: t in Tokens(us) ==> IsToken(t)
    decreases |us|
  {
    if us != [] {
      match us[0] {
        case Gap =>
          TokensAreTokens(us[1..]);
        case Word(_) =>
          var n := WordRun(us);
          TokensAreTokens(us[n..]);
          assert IsWordToken(Letters(us[..n])) by {
            forall i | 0 <= i < n ensures IsAsciiWordChar(us[i].b) && ToLower(us[i].b) == us[i].b {
              assert WellFormedUnit(us[i]);
            }
          }
        case Cjk(_) =>
          var n := CjkRun(us);
          TokensAreTokens(us[n..]);
          var cs := Characters(us[..n]);
          forall i | 0 <= i < n ensures IsCjkChar(cs[i]) { assert WellFormedUnit(us[i]); }
          forall t | t in Bigrams(cs) ensures IsToken(t) { BigramIsToken(cs, t); }
      }
    }
  }

  lemma BigramIsToken(cs: seq<Str>, t: Str)
    requires forall i :: 0 <= i < |cs| ==> IsCjkChar(cs[i])
    requires t in Bigrams(cs)
    ensures IsToken(t)
  {
    if |cs| == 1 {
      OneIsToken(cs[0], t);
    } else {
      var i := BigramIndex(cs, t);
      PairIsToken(cs[i], cs[i + 1], t);
    }
  }

  lemma BigramIndex(cs: seq<Str>, t: Str) returns (i: nat)
    requires t in Bigrams(cs) && |cs| != 1
    ensures i + 1 < |cs| && t == cs[i] + cs[i + 1]
  {
    i :| i < |Bigrams(cs)| && Bigrams(cs)[i] == t;
  }

  lemma OneIsToken(a: Str, t: Str)
    requires IsCjkChar(a) && t == a
    ensures IsToken(t)
  {
  }

  lemma PairIsToken(a: Str, b: Str, t: Str)
    requires IsCjkChar(a) && IsCjkChar(b) && t == a + b
    ensures IsToken(t)
  {
    assert t[..|a|] == a && t[|a|..] == b;
    assert IsBigramAt(t, |a|);
  }

  // ---- Tokens are fixed points ----

  lemma {:induction false} WordUnitsOf(t: Str)
    requires forall i :: 0 <= i < |t| ==> IsAsciiWordChar(t[i]) && ToLower(t[i]) == t[i]
    ensures Units(t) == WordUnits(t)
  {
    if t != [] { WordUnitsOf(t[1..]); }
  }

  lemma CjkUnitsOf(c: Str, rest: Str)
    requires IsCjkChar(c)
    ensures Units(c + rest) == [Cjk(c)] + Units(rest)
  {
    var s := c + rest;
    assert forall j :: 0 <= j < |c| ==> s[j] == c[j];
    assert DecodeUtf8At(s, 0) == DecodeUtf8At(c, 0);
    UnitConcat(c, rest);
    assert c[WidthAt(c)..] + rest == rest;
  }

  lemma WordTokenIsFixedPoint(t: Str)
    requires IsWordToken(t)
    ensures TokensOf(t) == [t]
  {
    WordUnitsOf(t);
    FlushWord(t, []);
    EmptyIsNeutral(WordUnits(t));
  }

  lemma CjkTokenIsFixedPoint(t: Str)
    requires IsCjkChar(t)
    ensures TokensOf(t) == [t]
  {
    CjkUnitsOf(t, []);
    EmptyIsNeutral(t);
    assert CjkUnits([t]) + [] == [Cjk(t)] + Units([]);
    FlushCjk([t], []);
  }

  lemma BigramIsFixedPoint(t: Str, k: nat)
    requires IsBigramAt(t, k)
    ensures TokensOf(t) == [t]
  {
    BigramUnits(t[..k], t[k..]);
    BigramTokens(t[..k], t[k..]);
    assert t[..k] + t[k..] == t;
  }

  lemma BigramUnits(a: Str, b: Str)
    requires IsCjkChar(a) && IsCjkChar(b)
    ensures Units(a + b) == CjkUnits([a, b]) + []
  {
    CjkUnitsOf(a, b);
    CjkUnitsOf(b, []);
    EmptyIsNeutral(b);
    assert CjkUnits([a, b]) + [] == [Cjk(a)] + ([Cjk(b)] + Units([]));
  }

  lemma BigramTokens(a: Str, b: Str)
    ensures Tokens(CjkUnits([a, b]) + []) == [a + b]
  {
    FlushCjk([a, b], []);
    assert Bigrams([a, b]) == [a + b];
  }

  lemma TokenIsFixedPoint(t: Str)
    requires IsToken(t)
    ensures TokensOf(t) == [t]
  {
    if IsWordToken(t) {
      WordTokenIsFixedPoint(t);
    } else if IsCjkChar(t) {
      CjkTokenIsFixedPoint(t);
    } else {
      var k :| 0 < k < |t| && IsBigramAt(t, k);
      BigramIsFixedPoint(t, k);
    }
  }

  /** Every token that any input produces is itself tokenized to exactly that token. */
  lemma TokenizeIdempotent(s: Str)
    ensures forall t :: t in TokensOf(s) ==> TokensOf(t) == [t]
  {
    UnitsAreWellFormed(s);
    TokensAreTokens(Units(s));
    forall t | t in TokensOf(s) ensures TokensOf(t) == [t] {
      TokenIsFixedPoint(t);
    }
  }

  /** No token contains a separator byte: a term can stand inside a '/'-separated store key. */
  lemma TokensHaveNoSeparator(s: Str)
    ensures forall t :: t in TokensOf(s) ==> t != [] && forall b :: b in t ==> b >= 0x80 || IsAsciiWordChar(b)
  {
    UnitsAreWellFormed(s);
    TokensAreTokens(Units(s));
    forall t | t in TokensOf(s) ensures t != [] && forall b :: b in t ==> b >= 0x80 || IsAsciiWordChar(b) {
      if !IsWordToken(t) {
        if IsCjkChar(t) {
          CjkBytesAreHigh(t);
        } else {
          var k :| 0 < k < |t| && IsBigramAt(t, k);
          CjkBytesAreHigh(t[..k]);
          CjkBytesAreHigh(t[k..]);
          assert t == t[..k] + t[k..];
        }
      }
    }
  }

  lemma CjkBytesAreHigh(c: Str)
    requires IsCjkChar(c)
    ensures forall b :: b in c ==> b >= 0x80
  {
    assert |c| == DecodeUtf8At(c, 0).length;
  }
}
