/** The tokenizer (src/util/text.cpp:91-172, 201-207).

    `Tokens(Units(s))` is the reference definition: the input is read as a sequence of units (a
    lower-cased word byte, a CJK character, or a gap), maximal runs of word bytes are one token
    each, and maximal CJK runs become overlapping bigrams. `Tokenize` is the scanner itself, with
    its two pending buffers. */
module Tokenizer {
  import opened Bytes
  import opened Collections
  import opened Utf8

  predicate IsAsciiWordChar(c: Byte) {
    || 0x30 <= c <= 0x39 || 0x41 <= c <= 0x5A || 0x61 <= c <= 0x7A
    || c == 0x5F || c == 0x2D
  }

  function ToLower(c: Byte): (r: Byte) {
    if 0x41 <= c <= 0x5A then c + 32 else c
  }

  datatype Unit = Word(b: Byte) | Cjk(bytes: Str) | Gap

  /** The unit that starts at the front of a non-empty string. */
  function UnitAt(s: Str): (u: Unit)
    requires s != []
  {
    if s[0] < 0x80 then
      if IsAsciiWordChar(s[0]) then Word(ToLower(s[0])) else Gap
    else match DecodeUtf8At(s, 0)
      case Malformed => Gap
      case Scalar(cp, len) => if IsCjkCodepoint(cp) then Cjk(s[..len]) else Gap
  }

  /** How many bytes that unit takes: one, unless a character was decoded. */
  function WidthAt(s: Str): (n: nat)
    requires s != []
    ensures 1 <= n <= |s|
  {
    match DecodeUtf8At(s, 0)
    case Malformed => 1
    case Scalar(_, len) => len
  }

  function Units(s: Str): (us: seq<Unit>) {
    if s == [] then [] else [UnitAt(s)] + Units(s[WidthAt(s)..])
  }

  function WordRun(us: seq<Unit>): (n: nat)
    ensures n <= |us|
    ensures forall i :: 0 <= i < n ==> us[i].Word?
    ensures n < |us| ==> !us[n].Word?
  {
    if us != [] && us[0].Word? then 1 + WordRun(us[1..]) else 0
  }

  function CjkRun(us: seq<Unit>): (n: nat)
    ensures n <= |us|
    ensures forall i :: 0 <= i < n ==> us[i].Cjk?
    ensures n < |us| ==> !us[n].Cjk?
  {
    if us != [] && us[0].Cjk? then 1 + CjkRun(us[1..]) else 0
  }

  function Letters(us: seq<Unit>): (s: Str)
    requires forall u :: u in us ==> u.Word?
    ensures |s| == |us|
    ensures forall i :: 0 <= i < |us| ==> s[i] == us[i].b
  {
    seq(|us|, i requires 0 <= i < |us| => us[i].b)
  }

  function Characters(us: seq<Unit>): (cs: seq<Str>)
    requires forall u :: u in us ==> u.Cjk?
    ensures |cs| == |us|
    ensures forall i :: 0 <= i < |us| ==> cs[i] == us[i].bytes
  {
    seq(|us|, i requires 0 <= i < |us| => us[i].bytes)
  }

  /** Overlapping pairs; a lone character stands for itself. */
  function Bigrams(cs: seq<Str>): (ts: seq<Str>) {
    if |cs| <= 1 then cs
    else seq(|cs| - 1, i requires 0 <= i < |cs| - 1 => cs[i] + cs[i + 1])
  }

  function Tokens(us: seq<Unit>): (ts: seq<Str>) {
    if us == [] then []
    else match us[0]
      case Gap => Tokens(us[1..])
      case Word(_) => var n := WordRun(us); [Letters(us[..n])] + Tokens(us[n..])
      case Cjk(_) => var n := CjkRun(us); Bigrams(Characters(us[..n])) + Tokens(us[n..])
  }

  function TokensOf(s: Str): (ts: seq<Str>) {
    Tokens(Units(s))
  }

  function EstimateTokenCount(text: Str): (n: nat) {
    (|text| + 3) / 4
  }

  // ---- The scanner refines the reference definition ----

  function WordUnits(cur: Str): (us: seq<Unit>)
    ensures |us| == |cur|
    ensures forall i :: 0 <= i < |cur| ==> us[i] == Word(cur[i])
  {
    seq(|cur|, i requires 0 <= i < |cur| => Word(cur[i]))
  }

  function CjkUnits(run: seq<Str>): (us: seq<Unit>)
    ensures |us| == |run|
    ensures forall i :: 0 <= i < |run| ==> us[i] == Cjk(run[i])
  {
    seq(|run|, i requires 0 <= i < |run| => Cjk(run[i]))
  }

  function AsciiFlushed(cur: Str): (ts: seq<Str>) {
    if cur == [] then [] else [cur]
  }

  lemma FlushWord(cur: Str, rest: seq<Unit>)
    requires rest == [] || !rest[0].Word?
    ensures Tokens(WordUnits(cur) + rest) == AsciiFlushed(cur) + Tokens(rest)
  {
    var us := WordUnits(cur) + rest;
    if cur == [] {
      assert us == rest;
    } else {
      RunOfPrefix(us, |cur|);
      assert us[..|cur|] == WordUnits(cur) && us[|cur|..] == rest;
      assert Letters(WordUnits(cur)) == cur;
    }
  }

  lemma FlushCjk(run: seq<Str>, rest: seq<Unit>)
    requires rest == [] || !rest[0].Cjk?
    ensures Tokens(CjkUnits(run) + rest) == Bigrams(run) + Tokens(rest)
  {
    var us := CjkUnits(run) + rest;
    if run == [] {
      assert us == rest;
    } else {
      RunOfPrefix(us, |run|);
      assert us[..|run|] == CjkUnits(run) && us[|run|..] == rest;
      assert Characters(CjkUnits(run)) == run;
    }
  }

  lemma {:induction false} RunOfPrefix(us: seq<Unit>, n: nat)
    requires n <= |us|
    ensures (forall i :: 0 <= i < n ==> us[i].Word?) && (n < |us| ==> !us[n].Word?) ==> WordRun(us) == n
    ensures (forall i :: 0 <= i < n ==> us[i].Cjk?) && (n < |us| ==> !us[n].Cjk?) ==> CjkRun(us) == n
  {
    if n > 0 { RunOfPrefix(us[1..], n - 1); }
  }

  method FlushAsciiToken(cur: Str, tokens: seq<Str>) returns (cur': Str, tokens': seq<Str>)
    ensures cur' == [] && tokens' == tokens + AsciiFlushed(cur)
  {
    if cur == [] { return cur, tokens; }
    cur', tokens' := [], tokens + [cur];
  }

  method FlushCjkRunAsBigrams(run: seq<Str>, tokens: seq<Str>) returns (run': seq<Str>, tokens': seq<Str>)
    ensures run' == [] && tokens' == tokens + Bigrams(run)
  {
    if run == [] { return run, tokens; }
    if |run| == 1 {
      return [], tokens + [run[0]];
    }
    tokens' := tokens;
    for i := 0 to |run| - 1
      invariant tokens' == tokens + Bigrams(run)[..i]
    {
      tokens' := tokens' + [run[i] + run[i + 1]];
    }
    run' := [];
  }

  /** The units held back in the two buffers, at most one of which is in use. */
  ghost function Buffered(cur: Str, run: seq<Str>): seq<Unit> {
    if run == [] then WordUnits(cur) else CjkUnits(run)
  }

  ghost function Flushed(cur: Str, run: seq<Str>): seq<Str> {
    if run == [] then AsciiFlushed(cur) else Bigrams(run)
  }

  /** What is still to come once the buffers are pending and `rest` is unread. */
  ghost function Pending(cur: Str, run: seq<Str>, rest: Str): seq<Str> {
    Tokens(Buffered(cur, run) + Units(rest))
  }

  lemma NothingPending(s: Str)
    ensures Pending([], [], s) == TokensOf(s)
  {
    assert Buffered([], []) + Units(s) == Units(s);
  }

  lemma FlushBuffers(cur: Str, run: seq<Str>, us: seq<Unit>)
    requires us != [] ==> us[0].Gap? || (if run == [] then us[0].Cjk? else us[0].Word?)
    ensures Tokens(Buffered(cur, run) + us) == Flushed(cur, run) + Tokens(us)
  {
    if run == [] { FlushWord(cur, us); } else { FlushCjk(run, us); }
  }

  lemma StepWord(cur: Str, run: seq<Str>, rest: Str)
    requires rest != [] && UnitAt(rest).Word? && (cur == [] || run == [])
    ensures Pending(cur, run, rest) == Bigrams(run) + Pending(cur + [ToLower(rest[0])], [], rest[1..])
  {
    var next := cur + [ToLower(rest[0])];
    if run != [] {
      FlushBuffers(cur, run, Units(rest));
      assert Buffered(next, []) + Units(rest[1..]) == Units(rest);
    } else {
      assert Buffered(next, []) + Units(rest[1..]) == Buffered(cur, run) + Units(rest);
    }
  }

  lemma StepGap(cur: Str, run: seq<Str>, rest: Str)
    requires rest != [] && UnitAt(rest).Gap?
    ensures Pending(cur, run, rest) == Flushed(cur, run) + Pending([], [], rest[WidthAt(rest)..])
  {
    FlushBuffers(cur, run, Units(rest));
    NothingPending(rest[WidthAt(rest)..]);
  }

  lemma StepCjk(cur: Str, run: seq<Str>, rest: Str)
    requires rest != [] && UnitAt(rest).Cjk? && (cur == [] || run == [])
    ensures Pending(cur, run, rest)
         == AsciiFlushed(cur) + Pending([], run + [rest[..WidthAt(rest)]], rest[WidthAt(rest)..])
  {
    var c := rest[..WidthAt(rest)];
    var tail := Units(rest[WidthAt(rest)..]);
    if run == [] {
      FlushBuffers(cur, run, Units(rest));
      assert Buffered([], [c]) + tail == Units(rest);
      assert run + [c] == [c];
    } else {
      assert Buffered([], run + [c]) + tail == Buffered(cur, run) + Units(rest);
    }
  }

  lemma Associative<T>(a: seq<T>, b: seq<T>, c: seq<T>)
    ensures (a + b) + c == a + (b + c)
  {
  }

  lemma EmptyIsNeutral<T>(a: seq<T>)
    ensures a + [] == a && [] + a == a
  {
  }

  /** The result, as the scanner's state determines it: final tokens, buffers, unread input. */
  ghost function Outcome(tokens: seq<Str>, cur: Str, run: seq<Str>, rest: Str): seq<Str> {
    tokens + Pending(cur, run, rest)
  }

  /** The suffix at i starts with the unit the scanner's branches see there. */
  lemma UnitInPlace(input: Str, i: nat)
    requires i < |input|
    ensures DecodeUtf8At(input[i..], 0) == DecodeUtf8At(input, i)
    ensures DecodeUtf8At(input, i).Scalar? ==>
              var len := DecodeUtf8At(input, i).length; 1 <= len <= |input| - i && input[i..][..len] == input[i..i + len]
    ensures input[i..][WidthAt(input[i..])..] == input[i + WidthAt(input[i..])..]
  {
    assert input == input[..i] + input[i..];
    DecodeSuffix(input[..i], input[i..], 0);
  }

  lemma WordInPlace(input: Str, i: nat, cur: Str, run: seq<Str>, tokens: seq<Str>)
    requires i < |input| && input[i] < 0x80 && IsAsciiWordChar(input[i]) && (cur == [] || run == [])
    ensures Outcome(tokens + Bigrams(run), cur + [ToLower(input[i])], [], input[i + 1..])
         == Outcome(tokens, cur, run, input[i..])
  {
    UnitInPlace(input, i);
    StepWord(cur, run, input[i..]);
    Associative(tokens, Bigrams(run), Pending(cur + [ToLower(input[i])], [], input[i + 1..]));
  }

  /** A CJK character spans the bytes from i to next. */
  predicate IsCjk(input: Str, i: nat, next: nat)
    requires i < |input|
  {
    match DecodeUtf8At(input, i)
    case Malformed => false
    case Scalar(cp, len) => next == i + len && input[i] >= 0x80 && IsCjkCodepoint(cp)
  }

  /** The bytes from i to next belong to no token. */
  predicate IsGap(input: Str, i: nat, next: nat)
    requires i < |input|
  {
    match DecodeUtf8At(input, i)
    case Malformed => next == i + 1
    case Scalar(cp, len) => next == i + len && if input[i] < 0x80 then !IsAsciiWordChar(input[i]) else !IsCjkCodepoint(cp)
  }

  lemma CjkInPlace(input: Str, i: nat, cur: Str, run: seq<Str>, tokens: seq<Str>, next: nat)
    requires i < |input| && IsCjk(input, i, next) && (cur == [] || run == [])
    ensures i < next <= |input|
    ensures Outcome(tokens + AsciiFlushed(cur), [], run + [input[i..next]], input[next..]) == Outcome(tokens, cur, run, input[i..])
  {
    CjkAt(input, i, next);
    CjkOutcome(tokens, cur, run, input[i..], input[i..next], input[next..]);
  }

  lemma CjkAt(input: Str, i: nat, next: nat)
    requires i < |input| && IsCjk(input, i, next)
    ensures i < next <= |input|
    ensures var rest := input[i..];
      UnitAt(rest).Cjk? && rest[..WidthAt(rest)] == input[i..next] && rest[WidthAt(rest)..] == input[next..]
  {
    UnitInPlace(input, i);
  }

  lemma CjkOutcome(tokens: seq<Str>, cur: Str, run: seq<Str>, rest: Str, c: Str, next: Str)
    requires rest != [] && UnitAt(rest).Cjk? && c == rest[..WidthAt(rest)] && next == rest[WidthAt(rest)..]
    requires cur == [] || run == []
    ensures Outcome(tokens + AsciiFlushed(cur), [], run + [c], next) == Outcome(tokens, cur, run, rest)
  {
    StepCjk(cur, run, rest);
    Associative(tokens, AsciiFlushed(cur), Pending([], run + [c], next));
  }

  lemma GapInPlace(input: Str, i: nat, cur: Str, run: seq<Str>, tokens: seq<Str>, next: nat)
    requires i < |input| && (cur == [] || run == []) && IsGap(input, i, next)
    ensures i < next <= |input|
    ensures Outcome(tokens + AsciiFlushed(cur) + Bigrams(run), [], [], input[next..]) == Outcome(tokens, cur, run, input[i..])
    ensures Outcome(tokens + Bigrams(run) + AsciiFlushed(cur), [], [], input[next..]) == Outcome(tokens, cur, run, input[i..])
  {
    GapAt(input, i, next);
    FlushOrder(tokens, cur, run);
    GapOutcome(tokens, cur, run, input[i..], input[next..]);
  }

  lemma GapAt(input: Str, i: nat, next: nat)
    requires i < |input| && IsGap(input, i, next)
    ensures i < next <= |input|
    ensures UnitAt(input[i..]).Gap? && input[i..][WidthAt(input[i..])..] == input[next..]
  {
    UnitInPlace(input, i);
  }

  lemma AsciiGap(input: Str, i: nat)
    requires i < |input| && input[i] < 0x80 && !IsAsciiWordChar(input[i])
    ensures IsGap(input, i, i + 1)
  {
  }

  lemma GapOutcome(tokens: seq<Str>, cur: Str, run: seq<Str>, rest: Str, next: Str)
    requires rest != [] && UnitAt(rest).Gap? && next == rest[WidthAt(rest)..]
    ensures Outcome(tokens + Flushed(cur, run), [], [], next) == Outcome(tokens, cur, run, rest)
  {
    StepGap(cur, run, rest);
    Associative(tokens, Flushed(cur, run), Pending([], [], next));
  }

  lemma FlushOrder(tokens: seq<Str>, cur: Str, run: seq<Str>)
    requires cur == [] || run == []
    ensures tokens + AsciiFlushed(cur) + Bigrams(run) == tokens + Flushed(cur, run)
    ensures tokens + Bigrams(run) + AsciiFlushed(cur) == tokens + Flushed(cur, run)
  {
    EmptyIsNeutral(tokens);
    EmptyIsNeutral(tokens + AsciiFlushed(cur));
    EmptyIsNeutral(tokens + Bigrams(run));
  }

  /** What has been read gives the tokens and buffers, and what has not gives the rest. */
  ghost function Scanned(input: Str, i: nat, tokens: seq<Str>, cur: Str, run: seq<Str>): Verdict {
    Judge(i <= |input| && (cur == [] || run == []) && Outcome(tokens, cur, run, input[i..]) == TokensOf(input))
  }

  lemma ScanWord(input: Str, i: nat, tokens0: seq<Str>, cur0: Str, run0: seq<Str>, tokens: seq<Str>, cur: Str, run: seq<Str>)
    requires i < |input| && input[i] < 0x80 && IsAsciiWordChar(input[i]) && Scanned(input, i, tokens0, cur0, run0) == Yes
    requires tokens == tokens0 + Bigrams(run0) && cur == cur0 + [ToLower(input[i])] && run == []
    ensures Scanned(input, i + 1, tokens, cur, run) == Yes
  {
    WordInPlace(input, i, cur0, run0, tokens0);
  }

  lemma ScanCjk(input: Str, i: nat, tokens0: seq<Str>, cur0: Str, run0: seq<Str>, tokens: seq<Str>, cur: Str, run: seq<Str>, next: nat)
    requires i < |input| && IsCjk(input, i, next) && i < next <= |input| && Scanned(input, i, tokens0, cur0, run0) == Yes
    requires tokens == tokens0 + AsciiFlushed(cur0) && cur == [] && run == run0 + [input[i..next]]
    ensures Scanned(input, next, tokens, cur, run) == Yes
  {
    CjkInPlace(input, i, cur0, run0, tokens0, next);
  }

  lemma ScanGap(input: Str, i: nat, tokens0: seq<Str>, cur0: Str, run0: seq<Str>, tokens: seq<Str>, cur: Str, run: seq<Str>, next: nat)
    requires i < |input| && IsGap(input, i, next) && Scanned(input, i, tokens0, cur0, run0) == Yes
    requires tokens == tokens0 + AsciiFlushed(cur0) + Bigrams(run0) || tokens == tokens0 + Bigrams(run0) + AsciiFlushed(cur0)
    requires cur == [] && run == []
    ensures Scanned(input, next, tokens, cur, run) == Yes
  {
    GapInPlace(input, i, cur0, run0, tokens0, next);
  }

  lemma WidthInPlace(input: Str, i: nat)
    requires i < |input| && DecodeUtf8At(input, i).Scalar?
    ensures 1 <= DecodeUtf8At(input, i).length <= |input| - i
  {
    UnitInPlace(input, i);
  }

  lemma ScanEnds(input: Str, i: nat, tokens: seq<Str>, cur: Str, run: seq<Str>)
    requires i >= |input| && Scanned(input, i, tokens, cur, run) == Yes
    ensures tokens + AsciiFlushed(cur) + Bigrams(run) == TokensOf(input)
  {
    EndOutcome(tokens, cur, run, input[i..]);
  }

  lemma ScanStarts(input: Str)
    ensures Scanned(input, 0, [], [], []) == Yes
  {
    StartOutcome(input);
  }

  /** One ASCII byte. */
  method TakeAscii(input: Str, i: nat, cur0: Str, run0: seq<Str>, tokens0: seq<Str>) returns (cur: Str, run: seq<Str>, tokens: seq<Str>)
    requires i < |input| && input[i] < 0x80 && Scanned(input, i, tokens0, cur0, run0) == Yes
    ensures Scanned(input, i + 1, tokens, cur, run) == Yes
  {
    var c := input[i];
    run, tokens := FlushCjkRunAsBigrams(run0, tokens0);
    if IsAsciiWordChar(c) {
      cur := cur0 + [ToLower(c)];
      ScanWord(input, i, tokens0, cur0, run0, tokens, cur, run);
    } else {
      cur, tokens := FlushAsciiToken(cur0, tokens);
      AsciiGap(input, i);
      ScanGap(input, i, tokens0, cur0, run0, tokens, cur, run, i + 1);
    }
  }

  /** One character of several bytes, or one byte that begins none. */
  method TakeOther(input: Str, i: nat, cur0: Str, run0: seq<Str>, tokens0: seq<Str>)
    returns (cur: Str, run: seq<Str>, tokens: seq<Str>, next: nat)
    requires i < |input| && input[i] >= 0x80 && Scanned(input, i, tokens0, cur0, run0) == Yes
    ensures i < next <= |input| && Scanned(input, next, tokens, cur, run) == Yes
  {
    cur, tokens := FlushAsciiToken(cur0, tokens0);
    match DecodeUtf8At(input, i) {
      case Malformed =>
        run, tokens := FlushCjkRunAsBigrams(run0, tokens);
        next := i + 1;
        ScanGap(input, i, tokens0, cur0, run0, tokens, cur, run, next);
      case Scalar(cp, len) =>
        WidthInPlace(input, i);
        next := i + len;
        if IsCjkCodepoint(cp) {
          run := run0 + [input[i..i + len]];
          ScanCjk(input, i, tokens0, cur0, run0, tokens, cur, run, next);
        } else {
          run, tokens := FlushCjkRunAsBigrams(run0, tokens);
          ScanGap(input, i, tokens0, cur0, run0, tokens, cur, run, next);
        }
    }
  }

  method Tokenize(input: Str) returns (tokens: seq<Str>)
    ensures tokens == TokensOf(input)
  {
    tokens := [];
    var cur: Str := [];
    var run: seq<Str> := [];
    var i := 0;
    ScanStarts(input);
    while i < |input|
      invariant Scanned(input, i, tokens, cur, run) == Yes
    {
      if input[i] < 0x80 {
        cur, run, tokens := TakeAscii(input, i, cur, run, tokens);
        i := i + 1;
        continue;
      }
      cur, run, tokens, i := TakeOther(input, i, cur, run, tokens);
    }
    ScanEnds(input, i, tokens, cur, run);
    cur, tokens := FlushAsciiToken(cur, tokens);
    run, tokens := FlushCjkRunAsBigrams(run, tokens);
  }

  lemma StartOutcome(input: Str)
    ensures Outcome([], [], [], input[0..]) == TokensOf(input)
  {
    NothingPending(input);
    EmptyIsNeutral(TokensOf(input));
    assert input[0..] == input;
  }

  lemma EndOutcome(tokens: seq<Str>, cur: Str, run: seq<Str>, rest: Str)
    requires rest == [] && (cur == [] || run == [])
    ensures tokens + AsciiFlushed(cur) + Bigrams(run) == Outcome(tokens, cur, run, rest)
  {
    FlushBuffers(cur, run, []);
    FlushOrder(tokens, cur, run);
    EmptyIsNeutral(Flushed(cur, run));
  }
}
