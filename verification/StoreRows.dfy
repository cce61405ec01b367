/** The rows of the engine's store under the strings the code builds for them
    (src/core/memory_engine.cpp:22-67, 738-861, 1030-1091, 1238-1272). The engine's model keeps its
    rows under structured keys; here is when a store of strings does the same under the same
    writes, and what its scans then return. */
module StoreRows {
  import opened Bytes
  import opened Collections
  import opened EngineModel
  import opened Keys
  import opened PartitionRouting
  import opened Records
  import opened Tokenizer
  import opened TokenAlgebra
  import FlatStore

  const EVENTS: Str := Lit("ds_events")
  const CKPTS: Str := Lit("ds_projection_ckpt")

  /** Which row of which namespace. */
  datatype Row =
    | DocRow(doc: RecKey)
    | VecRow(vec: RecKey)
    | PostingRow(row: TermKey)
    | EventRow(event: EventKey)
    | CkptRow(workspaceId: Str)

  /** How values are written as text, and the bucket of a workspace's term. */
  datatype Codec = Codec(record: Record -> Str, posting: Posting -> Str, vecFp: VecFp -> Str, event: (EventKey, Event) -> Str,
                         ckpt: (Str, EventKey) -> Str, bucket: (Str, Str) -> nat)

  function NameSpaceOf(row: Row): (ns: Str) {
    match row
    case DocRow(_) => MEM_DOCS
    case VecRow(_) => MEM_VEC_FP
    case PostingRow(_) => MEM_POSTING_BLK
    case EventRow(_) => EVENTS
    case CkptRow(_) => CKPTS
  }

  function KeyOfRow(row: Row, c: Codec): (key: Str) {
    match row
    case DocRow(k) => BuildDocKey(k.0, k.1)
    case VecRow(k) => BuildVecFpKey(k.0, k.1)
    case PostingRow(k) => BuildPostingKey(k.0, k.1, c.bucket(k.0, k.1), k.2)
    case EventRow(k) => BuildEventKey(k.workspaceId, k.ts, k.seqNo)
    case CkptRow(ws) => Lit("ws/") + ws
  }

  function RowName(row: Row, c: Codec): (name: (Str, Str)) {
    (NameSpaceOf(row), KeyOfRow(row, c))
  }

  predicate IsEngineNameSpace(ns: Str) {
    ns == MEM_DOCS || ns == MEM_VEC_FP || ns == MEM_POSTING_BLK || ns == EVENTS || ns == CKPTS
  }

  /** A term as the tokenizer makes them. */
  predicate IsTerm(t: Str) {
    t in TokensOf(t)
  }

  /** A row of one of the workspaces, with a term for a term and 64-bit numbers. */
  predicate IsRow(row: Row, wss: set<Str>) {
    match row
    case DocRow(k) => k.0 in wss
    case VecRow(k) => k.0 in wss
    case PostingRow(k) => k.0 in wss && IsTerm(k.1)
    case EventRow(k) => k.workspaceId in wss && k.ts < UINT64_LIMIT && k.seqNo < UINT64_LIMIT
    case CkptRow(ws) => ws in wss
  }

  // ---- The store says what the strings say ----

  predicate Held(s: Store, row: Row) {
    match row
    case DocRow(k) => k in s.docs
    case VecRow(k) => k in s.vecFp
    case PostingRow(k) => k in s.postings
    case EventRow(k) => k in s.events
    case CkptRow(ws) => ws in s.ckpts
  }

  function ValueOf(s: Store, row: Row, c: Codec): (value: Str)
    requires Held(s, row)
  {
    match row
    case DocRow(k) => c.record(s.docs[k])
    case VecRow(k) => c.vecFp(s.vecFp[k])
    case PostingRow(k) => c.posting(s.postings[k])
    case EventRow(k) => c.event(k, s.events[k])
    case CkptRow(ws) => c.ckpt(ws, s.ckpts[ws])
  }

  ghost predicate SameAt(f: FlatStore.Flat, s: Store, row: Row, c: Codec) {
    && (RowName(row, c) in f <==> Held(s, row))
    && (Held(s, row) ==> f[RowName(row, c)].value == ValueOf(s, row, c))
  }

  ghost predicate IsNamed(name: (Str, Str), c: Codec, wss: set<Str>) {
    exists row :: IsRow(row, wss) && RowName(row, c) == name
  }

  /** The strings hold the rows of the store, each with its value, and no other row in the engine's
      namespaces. */
  ghost predicate HoldsRows(f: FlatStore.Flat, s: Store, c: Codec, wss: set<Str>) {
    && (forall row :: Held(s, row) ==> IsRow(row, wss))
    && (forall row :: IsRow(row, wss) ==> SameAt(f, s, row, c))
    && (forall name :: name in f && IsEngineNameSpace(name.0) ==> IsNamed(name, c, wss))
  }

  // ---- Writes ----

  function RowOf(w: StoreWrite): (row: Row) {
    match w
    case PutDoc(r) => DocRow(KeyOf(r))
    case DropDoc(k) => DocRow(k)
    case PutPosting(k, _) => PostingRow(k)
    case DropPosting(k) => PostingRow(k)
    case PutVec(k, _) => VecRow(k)
    case DropVec(k) => VecRow(k)
    case PutEvent(k, _) => EventRow(k)
    case PutCkpt(ws, _) => CkptRow(ws)
  }

  predicate Puts(w: StoreWrite) {
    !w.DropDoc? && !w.DropPosting? && !w.DropVec?
  }

  function Encode(w: StoreWrite, c: Codec, ts: nat): (e: FlatStore.WriteEntry) {
    var name := RowName(RowOf(w), c);
    var value := match w
      case PutDoc(r) => c.record(r)
      case PutPosting(_, p) => c.posting(p)
      case PutVec(_, v) => c.vecFp(v)
      case PutEvent(k, e) => c.event(k, e)
      case PutCkpt(ws, k) => c.ckpt(ws, k)
      case _ => [];
    FlatStore.WriteEntry(if Puts(w) then FlatStore.Upsert else FlatStore.Delete, FlatStore.KeyValueEntry(name.0, name.1, value, ts))
  }

  /** A write changes its own row and no other. */
  lemma ApplyAt(s: Store, w: StoreWrite, row: Row, c: Codec)
    ensures Held(Apply(s, w), row) <==> if RowOf(w) == row then Puts(w) else Held(s, row)
    ensures Held(Apply(s, w), row) ==>
              ValueOf(Apply(s, w), row, c) == if RowOf(w) == row then Encode(w, c, 0).entry.value else ValueOf(s, row, c)
  {
  }

  /** Two workspaces for which no keys of rows can be the same. */
  ghost predicate Apart(ws: Str, ws': Str, c: Codec) {
    && !Nested(ws + Lit("/doc/"), ws' + Lit("/doc/"))
    && !Nested(ws + Lit("/vecfp/"), ws' + Lit("/vecfp/"))
    && forall t, t' :: IsTerm(t) && IsTerm(t') ==> !Nested(PostingPrefix(ws, t, c.bucket(ws, t)), PostingPrefix(ws', t', c.bucket(ws', t')))
  }

  ghost predicate AllApart(wss: set<Str>, c: Codec) {
    forall ws, ws' :: ws in wss && ws' in wss && ws != ws' ==> Apart(ws, ws', c)
  }

  /** Names that are not nested up to a slash are apart. */
  lemma NotNestedIsApart(ws: Str, ws': Str, c: Codec)
    requires !Nested(ws + [SLASH], ws' + [SLASH])
    ensures Apart(ws, ws', c)
  {
    NamesApart(ws, ws');
  }

  lemma NameSpacesDiffer()
    ensures MEM_DOCS != MEM_VEC_FP && MEM_DOCS != MEM_POSTING_BLK && MEM_DOCS != EVENTS && MEM_DOCS != CKPTS
    ensures MEM_VEC_FP != MEM_POSTING_BLK && MEM_VEC_FP != EVENTS && MEM_VEC_FP != CKPTS
    ensures MEM_POSTING_BLK != EVENTS && MEM_POSTING_BLK != CKPTS && EVENTS != CKPTS
  {
    assert |MEM_DOCS| == 8 && |MEM_VEC_FP| == 10 && |MEM_POSTING_BLK| == 15 && |EVENTS| == 9 && |CKPTS| == 18;
  }

  lemma SamePosting(k: TermKey, k': TermKey, c: Codec)
    requires IsTerm(k.1) && IsTerm(k'.1) && (k.0 == k'.0 || Apart(k.0, k'.0, c))
    requires KeyOfRow(PostingRow(k), c) == KeyOfRow(PostingRow(k'), c)
    ensures k == k'
  {
    PostingKeyInjective(k.1, k.0, k.1, c.bucket(k.0, k.1), k.2, k'.1, k'.0, k'.1, c.bucket(k'.0, k'.1), k'.2);
  }

  /** If the workspaces are apart, a row's namespace and key determine it. */
  lemma RowNameInjective(row: Row, row': Row, c: Codec, wss: set<Str>)
    requires AllApart(wss, c) && IsRow(row, wss) && IsRow(row', wss) && RowName(row, c) == RowName(row', c)
    ensures row == row'
  {
    NameSpacesDiffer();
    match row
    case DocRow(k) => DocKeyInjective(k.0, k.1, row'.doc.0, row'.doc.1);
    case VecRow(k) => VecFpKeyInjective(k.0, k.1, row'.vec.0, row'.vec.1);
    case PostingRow(k) => SamePosting(k, row'.row, c);
    case EventRow(k) => EventKeyInjective(k.workspaceId, k.ts, k.seqNo, row'.event.workspaceId, row'.event.ts, row'.event.seqNo);
    case CkptRow(ws) => DropPrefix(Lit("ws/"), ws, row'.workspaceId);
  }

  /** If two are not, there are two rows of the same name. */
  lemma ClashingRows(ws: Str, ws': Str, c: Codec) returns (row: Row, row': Row)
    requires ws != ws' && !Apart(ws, ws', c)
    ensures row != row' && IsRow(row, {ws, ws'}) && IsRow(row', {ws, ws'}) && RowName(row, c) == RowName(row', c)
    ensures row.DocRow? || row.VecRow? || row.PostingRow?
  {
    DocKeysCollide(ws, ws');
    VecFpKeysCollide(ws, ws');
    if id, id' :| BuildDocKey(ws, id) == BuildDocKey(ws', id') {
      row, row' := DocRow((ws, id)), DocRow((ws', id'));
    } else if id, id' :| BuildVecFpKey(ws, id) == BuildVecFpKey(ws', id') {
      row, row' := VecRow((ws, id)), VecRow((ws', id'));
    } else {
      var t, t' :| IsTerm(t) && IsTerm(t') && Nested(PostingPrefix(ws, t, c.bucket(ws, t)), PostingPrefix(ws', t', c.bucket(ws', t')));
      PostingKeysCollide(ws, t, c.bucket(ws, t), ws', t', c.bucket(ws', t'));
      var id, id' :| BuildPostingKey(ws, t, c.bucket(ws, t), id) == BuildPostingKey(ws', t', c.bucket(ws', t'), id');
      row, row' := PostingRow((ws, t, id)), PostingRow((ws', t', id'));
    }
  }

  lemma WriteKeepsSame(f: FlatStore.Flat, s: Store, w: StoreWrite, ts: nat, row: Row, c: Codec)
    requires SameAt(f, s, row, c) && (RowName(row, c) == RowName(RowOf(w), c) ==> row == RowOf(w))
    ensures SameAt(FlatStore.Apply(f, Encode(w, c, ts)), Apply(s, w), row, c)
  {
    ApplyAt(s, w, row, c);
  }

  /** One write to the strings does what it does to the store. */
  lemma WriteSpells(f: FlatStore.Flat, s: Store, w: StoreWrite, ts: nat, c: Codec, wss: set<Str>)
    requires AllApart(wss, c) && HoldsRows(f, s, c, wss) && IsRow(RowOf(w), wss)
    ensures HoldsRows(FlatStore.Apply(f, Encode(w, c, ts)), Apply(s, w), c, wss)
  {
    var f', s' := FlatStore.Apply(f, Encode(w, c, ts)), Apply(s, w);
    forall row | Held(s', row) ensures IsRow(row, wss) { ApplyAt(s, w, row, c); }
    forall row | IsRow(row, wss) ensures SameAt(f', s', row, c) {
      if RowName(row, c) == RowName(RowOf(w), c) { RowNameInjective(row, RowOf(w), c, wss); }
      WriteKeepsSame(f, s, w, ts, row, c);
    }
    forall name | name in f' && IsEngineNameSpace(name.0) ensures IsNamed(name, c, wss) {
      if name != RowName(RowOf(w), c) { assert name in f; }
    }
  }

  /** That every write to the strings does what it does to the store. */
  ghost predicate WritesAgree(c: Codec, wss: set<Str>) {
    forall f: FlatStore.Flat, s: Store, w: StoreWrite, ts: nat :: HoldsRows(f, s, c, wss) && IsRow(RowOf(w), wss) ==>
      HoldsRows(FlatStore.Apply(f, Encode(w, c, ts)), Apply(s, w), c, wss)
  }

  /** It does if and only if the workspaces are apart. */
  lemma WritesAgreeIffApart(c: Codec, wss: set<Str>)
    ensures WritesAgree(c, wss) <==> AllApart(wss, c)
  {
    if AllApart(wss, c) {
      forall f: FlatStore.Flat, s: Store, w: StoreWrite, ts: nat | HoldsRows(f, s, c, wss) && IsRow(RowOf(w), wss)
        ensures HoldsRows(FlatStore.Apply(f, Encode(w, c, ts)), Apply(s, w), c, wss)
      {
        WriteSpells(f, s, w, ts, c, wss);
      }
    } else {
      var ws, ws' :| ws in wss && ws' in wss && ws != ws' && !Apart(ws, ws', c);
      var row, row' := ClashingRows(ws, ws', c);
      var w := WriteOf(row);
      assert HoldsRows(map[], EMPTY_STORE, c, wss);
      NotBothHeld(row, row', w, c, wss);
    }
  }

  /** Some write to a row that is not a log row. */
  lemma WriteOf(row: Row) returns (w: StoreWrite)
    requires row.DocRow? || row.VecRow? || row.PostingRow?
    ensures RowOf(w) == row && Puts(w)
  {
    match row
    case DocRow(k) =>
      var r: Record :| true;
      w := PutDoc(r.(workspaceId := k.0, id := k.1));
    case VecRow(k) => w := PutVec(k, VecFp([], 0));
    case PostingRow(k) => w := PutPosting(k, Posting([], 0, 0, false, 0));
  }

  lemma NotBothHeld(row: Row, row': Row, w: StoreWrite, c: Codec, wss: set<Str>)
    requires row != row' && IsRow(row, wss) && IsRow(row', wss) && RowName(row, c) == RowName(row', c)
    requires RowOf(w) == row && Puts(w)
    ensures !HoldsRows(FlatStore.Apply(map[], Encode(w, c, 0)), Apply(EMPTY_STORE, w), c, wss)
  {
    ApplyAt(EMPTY_STORE, w, row', c);
    assert !SameAt(FlatStore.Apply(map[], Encode(w, c, 0)), Apply(EMPTY_STORE, w), row', c);
  }

  // ---- Batches ----

  /** The entries are these writes, in order, with any timestamps and with entries of other
      namespaces in between. */
  ghost predicate Encodes(es: seq<FlatStore.WriteEntry>, ws: seq<StoreWrite>, c: Codec) {
    if es == [] then ws == []
    else
      var e, before := es[|es| - 1], es[..|es| - 1];
      if !IsEngineNameSpace(e.entry.nameSpace) then Encodes(before, ws, c)
      else ws != [] && e == Encode(ws[|ws| - 1], c, e.entry.ts) && Encodes(before, ws[..|ws| - 1], c)
  }

  lemma OtherKeepsSpelling(f: FlatStore.Flat, s: Store, e: FlatStore.WriteEntry, c: Codec, wss: set<Str>)
    requires HoldsRows(f, s, c, wss) && !IsEngineNameSpace(e.entry.nameSpace)
    ensures HoldsRows(FlatStore.Apply(f, e), s, c, wss)
  {
    var f' := FlatStore.Apply(f, e);
    forall row | IsRow(row, wss) ensures SameAt(f', s, row, c) {
      assert SameAt(f, s, row, c) && IsEngineNameSpace(NameSpaceOf(row));
    }
  }

  /** A batch does to the strings what its writes do to the store. */
  lemma {:induction false} BatchSpells(f: FlatStore.Flat, s: Store, es: seq<FlatStore.WriteEntry>, ws: seq<StoreWrite>, c: Codec, wss: set<Str>)
    requires AllApart(wss, c) && HoldsRows(f, s, c, wss) && Encodes(es, ws, c) && forall w :: w in ws ==> IsRow(RowOf(w), wss)
    ensures HoldsRows(FlatStore.ApplyAll(f, es), ApplyAll(s, ws), c, wss)
  {
    if es != [] {
      var e, before := es[|es| - 1], es[..|es| - 1];
      if !IsEngineNameSpace(e.entry.nameSpace) {
        BatchSpells(f, s, before, ws, c, wss);
        OtherKeepsSpelling(FlatStore.ApplyAll(f, before), ApplyAll(s, ws), e, c, wss);
      } else {
        var n := |ws| - 1;
        BatchSpells(f, s, before, ws[..n], c, wss);
        assert ws[n] in ws;
        WriteSpells(FlatStore.ApplyAll(f, before), ApplyAll(s, ws[..n]), ws[n], e.entry.ts, c, wss);
      }
    }
  }

  // ---- Reading back ----

  /** Texts that lose nothing. */
  ghost predicate Lossless(c: Codec) {
    && (forall a, b :: c.record(a) == c.record(b) ==> a == b)
    && (forall a, b :: c.posting(a) == c.posting(b) ==> a == b)
    && (forall a, b :: c.vecFp(a) == c.vecFp(b) ==> a == b)
    && (forall k, a, b :: c.event(k, a) == c.event(k, b) ==> a == b)
    && (forall ws, a, b :: c.ckpt(ws, a) == c.ckpt(ws, b) ==> a == b)
  }

  lemma SameRow(f: FlatStore.Flat, s: Store, s': Store, row: Row, c: Codec, wss: set<Str>)
    requires HoldsRows(f, s, c, wss) && HoldsRows(f, s', c, wss)
    ensures Held(s, row) <==> Held(s', row)
    ensures Held(s, row) ==> ValueOf(s, row, c) == ValueOf(s', row, c)
  {
    if IsRow(row, wss) { assert SameAt(f, s, row, c) && SameAt(f, s', row, c); }
  }

  /** The strings determine the store. */
  lemma SpellsOneStore(f: FlatStore.Flat, s: Store, s': Store, c: Codec, wss: set<Str>)
    requires HoldsRows(f, s, c, wss) && HoldsRows(f, s', c, wss) && Lossless(c)
    ensures s == s'
  {
    forall k ensures k in s.docs <==> k in s'.docs ensures k in s.docs ==> s.docs[k] == s'.docs[k] { SameRow(f, s, s', DocRow(k), c, wss); }
    forall k ensures k in s.vecFp <==> k in s'.vecFp ensures k in s.vecFp ==> s.vecFp[k] == s'.vecFp[k] { SameRow(f, s, s', VecRow(k), c, wss); }
    forall k ensures k in s.postings <==> k in s'.postings ensures k in s.postings ==> s.postings[k] == s'.postings[k] {
      SameRow(f, s, s', PostingRow(k), c, wss);
    }
    forall k ensures k in s.events <==> k in s'.events ensures k in s.events ==> s.events[k] == s'.events[k] { SameRow(f, s, s', EventRow(k), c, wss); }
    forall ws ensures ws in s.ckpts <==> ws in s'.ckpts ensures ws in s.ckpts ==> s.ckpts[ws] == s'.ckpts[ws] { SameRow(f, s, s', CkptRow(ws), c, wss); }
    assert s.docs == s'.docs && s.vecFp == s'.vecFp && s.postings == s'.postings && s.events == s'.events && s.ckpts == s'.ckpts;
  }

  // ---- Scans ----

  ghost predicate IsEntryOf(e: FlatStore.KeyValueEntry, row: Row, s: Store, c: Codec, ns: Str) {
    Held(s, row) && NameSpaceOf(row) == ns && e.key == KeyOfRow(row, c) && e.value == ValueOf(s, row, c)
  }

  /** The entries of a whole namespace are these rows, in order. */
  ghost predicate Lists(out: seq<FlatStore.KeyValueEntry>, rows: seq<Row>, s: Store, c: Codec, ns: Str) {
    && |rows| == |out| && NoDuplicates(rows)
    && (forall i :: 0 <= i < |rows| ==> IsEntryOf(out[i], rows[i], s, c, ns))
    && (forall row :: Held(s, row) && NameSpaceOf(row) == ns ==> row in rows)
  }

  lemma EntryHasRow(f: FlatStore.Flat, s: Store, c: Codec, wss: set<Str>, ns: Str, e: FlatStore.KeyValueEntry)
    requires HoldsRows(f, s, c, wss) && IsEngineNameSpace(ns) && e in FlatStore.Slice(f, ns, [], [])
    ensures exists row :: IsEntryOf(e, row, s, c, ns)
  {
    assert IsNamed((ns, e.key), c, wss);
    var row :| IsRow(row, wss) && RowName(row, c) == (ns, e.key);
    assert SameAt(f, s, row, c);
    assert IsEntryOf(e, row, s, c, ns);
  }

  ghost function RowOfEntry(f: FlatStore.Flat, s: Store, c: Codec, wss: set<Str>, ns: Str, e: FlatStore.KeyValueEntry): (row: Row)
    requires HoldsRows(f, s, c, wss) && IsEngineNameSpace(ns) && e in FlatStore.Slice(f, ns, [], [])
    ensures IsEntryOf(e, row, s, c, ns)
  {
    EntryHasRow(f, s, c, wss, ns, e);
    var row :| IsEntryOf(e, row, s, c, ns);
    row
  }

  lemma RowsOfEntries(f: FlatStore.Flat, s: Store, c: Codec, wss: set<Str>, ns: Str, out: seq<FlatStore.KeyValueEntry>)
    returns (rows: seq<Row>)
    requires HoldsRows(f, s, c, wss) && IsEngineNameSpace(ns) && FlatStore.IsRange(out, f, ns, [], [])
    ensures |rows| == |out| && forall i :: 0 <= i < |rows| ==> IsEntryOf(out[i], rows[i], s, c, ns)
  {
    forall e | e in out ensures e in FlatStore.Slice(f, ns, [], []) { assert e in Elements(out); }
    rows := seq(|out|, i requires 0 <= i < |out| => RowOfEntry(f, s, c, wss, ns, out[i]));
  }

  lemma RowsAscend(out: seq<FlatStore.KeyValueEntry>, rows: seq<Row>, s: Store, c: Codec, ns: Str)
    requires FlatStore.StrictlySorted(out) && |rows| == |out| && forall i :: 0 <= i < |rows| ==> IsEntryOf(out[i], rows[i], s, c, ns)
    ensures NoDuplicates(rows) && forall i, j :: 0 <= i < j < |rows| ==> Less(KeyOfRow(rows[i], c), KeyOfRow(rows[j], c))
  {
    forall i, j | 0 <= i < j < |rows| ensures rows[i] != rows[j] && Less(KeyOfRow(rows[i], c), KeyOfRow(rows[j], c)) {
      assert IsEntryOf(out[i], rows[i], s, c, ns) && IsEntryOf(out[j], rows[j], s, c, ns);
      LessIrreflexive(out[i].key);
    }
  }

  /** An unlimited scan of one of the engine's namespaces lists its rows, each once, in the order of
      their keys. */
  lemma ScanListsRows(f: FlatStore.Flat, s: Store, c: Codec, wss: set<Str>, ns: Str, out: seq<FlatStore.KeyValueEntry>)
    returns (rows: seq<Row>)
    requires HoldsRows(f, s, c, wss) && AllApart(wss, c) && IsEngineNameSpace(ns) && FlatStore.IsScan(out, f, ns, [], [], 0)
    ensures Lists(out, rows, s, c, ns)
    ensures forall i, j :: 0 <= i < j < |rows| ==> Less(KeyOfRow(rows[i], c), KeyOfRow(rows[j], c))
  {
    assert FlatStore.IsRange(out, f, ns, [], []);
    rows := RowsOfEntries(f, s, c, wss, ns, out);
    RowsAscend(out, rows, s, c, ns);
    forall row | Held(s, row) && NameSpaceOf(row) == ns ensures row in rows { RowIsListed(f, s, c, wss, ns, out, rows, row); }
  }

  lemma RowIsListed(f: FlatStore.Flat, s: Store, c: Codec, wss: set<Str>, ns: Str, out: seq<FlatStore.KeyValueEntry>, rows: seq<Row>, row: Row)
    requires HoldsRows(f, s, c, wss) && AllApart(wss, c) && FlatStore.IsRange(out, f, ns, [], []) && Held(s, row) && NameSpaceOf(row) == ns
    requires |rows| == |out| && forall i :: 0 <= i < |rows| ==> IsEntryOf(out[i], rows[i], s, c, ns)
    ensures row in rows
  {
    var name := RowName(row, c);
    assert SameAt(f, s, row, c);
    var e := FlatStore.KeyValueEntry(ns, name.1, f[name].value, f[name].ts);
    assert FlatStore.InRange(name.1, [], []);
    assert e in FlatStore.Slice(f, ns, [], []);
    assert e in Elements(out);
    var i :| 0 <= i < |out| && out[i] == e;
    RowNameInjective(row, rows[i], c, wss);
  }
}
