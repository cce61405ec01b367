/** How the persistent store spreads keys over partitions
    (src/store/eloqstore_adapter.cpp:30-82, 705-708). */
module PartitionRouting {
  import opened Bytes
  import opened Keys
  import opened Tokenizer

  function ComposeKey(ns: Str, key: Str): (full: Str) {
    ns + [COLON] + key
  }

  /** The first '/' at or after `from`, or the end. */
  function FindFrom(s: Str, c: Byte, from: nat): (n: nat)
    requires from <= |s|
    ensures from <= n <= |s|
  {
    from + FirstIndex(s[from..], c)
  }

  /** One past the last occurrence of c, or 0. */
  function AfterLast(s: Str, c: Byte): (n: nat)
    ensures n <= |s|
  {
    if s == [] then 0
    else if s[|s| - 1] == c then |s|
    else AfterLast(s[..|s| - 1], c)
  }

  function WorkspacePrefix(key: Str): (ws: Str) {
    if HasPrefix(key, Lit("ws/")) then key[3..FindFrom(key, SLASH, 3)]
    else
      var pos := FirstIndex(key, COLON);
      if pos == |key| || pos == 0 then key else key[..pos]
  }

  /** Despite its name it looks for the last '/' first. */
  function SuffixAfterLastColon(key: Str): (suffix: Str) {
    var slash := AfterLast(key, SLASH);
    if slash > 0 && slash < |key| then key[slash..]
    else
      var pos := AfterLast(key, COLON);
      if pos == 0 || pos >= |key| then [] else key[pos..]
  }

  const MEM_DOCS: Str := Lit("mem_docs")
  const MEM_VEC_FP: Str := Lit("mem_vec_fp")
  const MEM_POSTING_BLK: Str := Lit("mem_posting_blk")

  predicate RoutedByWorkspace(ns: Str) {
    ns == Lit("mem_route_meta") || ns == Lit("ds_projection_ckpt")
  }

  predicate RoutedByRecord(ns: Str) {
    || ns == MEM_DOCS || ns == Lit("mem_term_dict") || ns == MEM_POSTING_BLK
    || ns == Lit("mem_vec_code") || ns == MEM_VEC_FP || ns == Lit("ds_events")
  }

  function RoutingShardKey(ns: Str, key: Str): (shardKey: Str) {
    if RoutedByWorkspace(ns) then WorkspacePrefix(key)
    else if RoutedByRecord(ns) then
      var workspace, recordId := WorkspacePrefix(key), SuffixAfterLastColon(key);
      if workspace != [] && recordId != [] then workspace + [COLON] + recordId else key
    else key
  }

  function PartitionRoutingSeed(ns: Str, key: Str): (seed: Str) {
    ns + [BAR] + RoutingShardKey(ns, key)
  }

  function ResolvePartitionId(hash: Str -> nat, numPartitions: nat, ns: Str, key: Str): (pid: nat)
    requires numPartitions >= 1
    ensures pid < numPartitions
  {
    hash(PartitionRoutingSeed(ns, key)) % numPartitions
  }

  // ---- What the routing key depends on ----

  lemma {:induction false} FirstIndexOfFirst(x: Str, c: Byte, y: Str)
    ensures FirstIndex(x + [c] + y, c) == FirstIndex(x, c)
  {
    if x != [] && x[0] != c {
      assert (x + [c] + y)[1..] == x[1..] + [c] + y;
      FirstIndexOfFirst(x[1..], c, y);
    }
  }

  /** A workspace name up to its first '/', and an id after its last: what routing goes by. */
  function Head(ws: Str): (head: Str)
    ensures head == [] <==> ws == [] || ws[0] == SLASH
  {
    ws[..FirstIndex(ws, SLASH)]
  }

  function Last(id: Str): (last: Str)
    ensures last == [] <==> id == [] || id[|id| - 1] == SLASH
  {
    id[AfterLast(id, SLASH)..]
  }

  lemma {:induction false} AfterLastInSuffix(x: Str, c: Byte, y: Str)
    ensures AfterLast(x + [c] + y, c) == |x| + 1 + AfterLast(y, c)
  {
    var s := x + [c] + y;
    if y != [] && y[|y| - 1] != c {
      assert s[..|s| - 1] == x + [c] + y[..|y| - 1];
      AfterLastInSuffix(x, c, y[..|y| - 1]);
    }
  }

  lemma WorkspaceOfKey(ws: Str, rest: Str)
    ensures WorkspacePrefix(Lit("ws/") + (ws + [SLASH] + rest)) == Head(ws)
  {
    var p := Lit("ws/");
    var key := p + (ws + [SLASH] + rest);
    assert key[3..] == ws + [SLASH] + rest && key[..3] == p;
    FirstIndexOfFirst(ws, SLASH, rest);
    assert key[3..3 + FirstIndex(ws, SLASH)] == key[3..][..FirstIndex(ws, SLASH)] == ws[..FirstIndex(ws, SLASH)];
  }

  /** What routing takes of an id: the part after its last '/', or if that is empty the part after
      its last ':'. */
  function Tail(id: Str): (tail: Str) {
    if Last(id) != [] then Last(id) else id[AfterLast(id, COLON)..]
  }

  predicate HasTail(id: Str) {
    Last(id) != [] || COLON in id
  }

  lemma {:induction false} AfterLastAppend(x: Str, c: Byte, y: Str)
    ensures AfterLast(x + y, c) == if c in y then |x| + AfterLast(y, c) else AfterLast(x, c)
    ensures c in y <==> AfterLast(y, c) > 0
  {
    if y == [] {
      assert x + y == x;
    } else if y[|y| - 1] != c {
      assert (x + y)[..|x + y| - 1] == x + y[..|y| - 1];
      AfterLastAppend(x, c, y[..|y| - 1]);
    }
  }

  lemma SuffixOfKey(x: Str, id: Str)
    requires HasTail(id)
    ensures SuffixAfterLastColon(x + [SLASH] + id) == Tail(id) != []
  {
    var key := x + [SLASH] + id;
    AfterLastInSuffix(x, SLASH, id);
    AfterLastAppend(x + [SLASH], COLON, id);
    assert key[|x| + 1..] == id;
    assert key[|x| + 1 + AfterLast(id, SLASH)..] == key[|x| + 1..][AfterLast(id, SLASH)..];
    if Last(id) == [] {
      assert id[|id| - 1] == SLASH;
      assert AfterLast(id, COLON) < |id|;
      assert key[|x| + 1 + AfterLast(id, COLON)..] == key[|x| + 1..][AfterLast(id, COLON)..];
    }
  }

  /** An id without a tail leaves the last ':' before it, if there is one. */
  lemma NoTail(x: Str, marker: Str, id: Str)
    requires !HasTail(id) && COLON !in marker && marker != [] && marker[|marker| - 1] == SLASH
    ensures var key, pos := x + marker + id, AfterLast(x, COLON);
      SuffixAfterLastColon(key) == if pos == 0 then [] else key[pos..]
  {
    var key := x + marker + id;
    assert key == x + marker[..|marker| - 1] + [SLASH] + id by { EndsInId(x, marker, id); }
    AfterLastInSuffix(x + marker[..|marker| - 1], SLASH, id);
    AfterLastAppend(x + marker, COLON, id);
    AfterLastAppend(x, COLON, marker);
  }

  lemma EndsInId(head: Str, marker: Str, id: Str)
    requires marker != [] && marker[|marker| - 1] == SLASH
    ensures head + marker + id == head + marker[..|marker| - 1] + [SLASH] + id
  {
    assert marker == marker[..|marker| - 1] + [SLASH];
  }

  /** Without a head or a tail the whole key or what follows a ':' in the name is left, marker and all. */
  function RestLength(ws: Str, id: Str): (n: int) {
    var pos := AfterLast(Lit("ws/") + ws, COLON);
    3 + |ws| + |id| + if Head(ws) == [] || pos == 0 then 0 else |Head(ws)| + 1 - pos
  }

  lemma ShardKeyOfRecord(ns: Str, ws: Str, marker: Str, id: Str)
    requires RoutedByRecord(ns) && !RoutedByWorkspace(ns)
    requires marker != [] && marker[0] == SLASH && marker[|marker| - 1] == SLASH && COLON !in marker
    ensures var shard := RoutingShardKey(ns, Lit("ws/") + ws + marker + id);
      if Head(ws) != [] && HasTail(id) then shard == Head(ws) + [COLON] + Tail(id) else |shard| == RestLength(ws, id) + |marker|
  {
    WorkspaceOfRecord(ws, marker, id);
    if HasTail(id) { TailOfRecord(ws, marker, id); } else { NoTail(Lit("ws/") + ws, marker, id); }
  }

  lemma ShardKeysAgree(ns: Str, ns': Str, ws: Str, marker: Str, marker': Str, id: Str, key: Str, key': Str)
    requires RoutedByRecord(ns) && !RoutedByWorkspace(ns) && RoutedByRecord(ns') && !RoutedByWorkspace(ns')
    requires marker != [] && marker[0] == SLASH && marker[|marker| - 1] == SLASH && COLON !in marker
    requires marker' != [] && marker'[0] == SLASH && marker'[|marker'| - 1] == SLASH && COLON !in marker'
    requires |marker| != |marker'| && key == Lit("ws/") + ws + marker + id && key' == Lit("ws/") + ws + marker' + id
    ensures RoutingShardKey(ns, key) == RoutingShardKey(ns', key') <==> Head(ws) != [] && HasTail(id)
    ensures Head(ws) != [] && HasTail(id) ==> RoutingShardKey(ns, key) == Head(ws) + [COLON] + Tail(id)
  {
    ShardKeyOfRecord(ns, ws, marker, id);
    ShardKeyOfRecord(ns', ws, marker', id);
  }

  lemma ShardKeyOfPosting(ns: Str, ws: Str, term: Str, bucket: nat, id: Str, key: Str)
    requires RoutedByRecord(ns) && !RoutedByWorkspace(ns) && key == BuildPostingKey(ws, term, bucket, id)
    requires Head(ws) != [] && HasTail(id)
    ensures RoutingShardKey(ns, key) == Head(ws) + [COLON] + Tail(id)
  {
    KeyOfPosting(ws, term, bucket, id);
  }

  /** The rows the engine keeps for one record, in whichever namespace and whatever the term, have the
      same routing key if and only if the workspace does not begin with '/' and the id has a part
      after its last '/' or holds a ':'. */
  lemma RecordRowsShareRoutingKey(ws: Str, id: Str, term: Str, bucket: nat)
    ensures RoutingShardKey(MEM_DOCS, BuildDocKey(ws, id)) == RoutingShardKey(MEM_VEC_FP, BuildVecFpKey(ws, id)) <==> Head(ws) != [] && HasTail(id)
    ensures Head(ws) != [] && HasTail(id) ==>
              && RoutingShardKey(MEM_DOCS, BuildDocKey(ws, id)) == Head(ws) + [COLON] + Tail(id)
              && RoutingShardKey(MEM_POSTING_BLK, BuildPostingKey(ws, term, bucket, id)) == Head(ws) + [COLON] + Tail(id)
  {
    RecordNamespaces();
    ShardKeysAgree(MEM_DOCS, MEM_VEC_FP, ws, Lit("/doc/"), Lit("/vecfp/"), id, BuildDocKey(ws, id), BuildVecFpKey(ws, id));
    if Head(ws) != [] && HasTail(id) { ShardKeyOfPosting(MEM_POSTING_BLK, ws, term, bucket, id, BuildPostingKey(ws, term, bucket, id)); }
  }

  lemma KeyOfPosting(ws: Str, term: Str, bucket: nat, id: Str)
    requires HasTail(id)
    ensures WorkspacePrefix(BuildPostingKey(ws, term, bucket, id)) == Head(ws)
    ensures SuffixAfterLastColon(BuildPostingKey(ws, term, bucket, id)) == Tail(id) != []
  {
    PostingParts(ws, term, bucket, id);
    var z := ToDecimal(bucket) + [SLASH] + (Lit("/blk/")[1..] + id);
    WorkspaceOfKey(ws, Lit("/term/")[1..] + (term + [SLASH] + (Lit("/b/")[1..] + z)));
    var head := Lit("ws/") + ws + Lit("/term/") + term + Lit("/b/") + ToDecimal(bucket);
    EndsInId(head, Lit("/blk/"), id);
    SuffixOfKey(head + Lit("/blk/")[..4], id);
  }

  lemma WorkspaceOfRecord(ws: Str, marker: Str, id: Str)
    requires marker != [] && marker[0] == SLASH
    ensures WorkspacePrefix(Lit("ws/") + ws + marker + id) == Head(ws)
  {
    PartsAfterWorkspace(ws, marker, id);
    WorkspaceOfKey(ws, marker[1..] + id);
  }

  lemma TailOfRecord(ws: Str, marker: Str, id: Str)
    requires HasTail(id) && marker != [] && marker[|marker| - 1] == SLASH
    ensures SuffixAfterLastColon(Lit("ws/") + ws + marker + id) == Tail(id) != []
  {
    EndsInId(Lit("ws/") + ws, marker, id);
    SuffixOfKey(Lit("ws/") + ws + marker[..|marker| - 1], id);
  }

  lemma RecordNamespaces()
    ensures RoutedByRecord(MEM_DOCS) && !RoutedByWorkspace(MEM_DOCS)
    ensures RoutedByRecord(MEM_VEC_FP) && !RoutedByWorkspace(MEM_VEC_FP)
    ensures RoutedByRecord(MEM_POSTING_BLK) && !RoutedByWorkspace(MEM_POSTING_BLK)
  {
    FifthByteDiffers(MEM_DOCS);
    FifthByteDiffers(MEM_VEC_FP);
    FifthByteDiffers(MEM_POSTING_BLK);
  }

  lemma FifthByteDiffers(ns: Str)
    requires |ns| > 4 && ns[0] == 0x6D && ns[4] != 0x72
    ensures !RoutedByWorkspace(ns)
  {
    assert Lit("mem_route_meta")[4] == 0x72 && Lit("ds_projection_ckpt")[0] == 0x64;
  }

  /** But the namespace is part of the seed, so a record's document row and its vector row hash
      from different strings: they are not placed together by design. */
  lemma SeedsDifferAcrossNamespaces(ns: Str, key: Str, ns': Str, key': Str)
    requires BAR !in ns && BAR !in ns'
    ensures PartitionRoutingSeed(ns, key) == PartitionRoutingSeed(ns', key')
       <==> ns == ns' && RoutingShardKey(ns, key) == RoutingShardKey(ns', key')
  {
    if PartitionRoutingSeed(ns, key) == PartitionRoutingSeed(ns', key') {
      SplitAt(BAR, ns, RoutingShardKey(ns, key), ns', RoutingShardKey(ns', key'));
    }
  }
}
