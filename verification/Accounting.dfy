/** The resident byte counter under concurrency (src/core/memory_engine.cpp:864-933, 985-1030): an
    upsert, a removal and an eviction each change the maps under the lock and adjust the atomic
    counter later, in any interleaving with others. An eviction begins only while the counter shows
    more than the limit. */
module Accounting {
  import opened Collections
  import opened Keys
  import opened Records

  type OpId = nat

  /** What an operation in flight has still to add to the counter, or to take off it. */
  datatype Adjustment = Adjustment(charged: nat, released: nat)

  /** `resident` are the keys of the record map; `used` is the counter's value without wrap-around,
      of which the 64-bit counter holds the residue. */
  datatype Ledger = Ledger(resident: set<RecKey>, charges: map<RecKey, nat>, used: int, pending: map<OpId, Adjustment>)

  const EMPTY_LEDGER := Ledger({}, map[], 0, map[])

  function Counter(l: Ledger): (n: nat) {
    l.used % UINT64_LIMIT
  }

  function ChargeOf(l: Ledger, k: RecKey): (c: nat) {
    if k in l.charges then l.charges[k] else 0
  }

  /** Locked step of an upsert; a charge of zero is not kept. */
  function BeginUpsert(l: Ledger, id: OpId, k: RecKey, charge: nat): (l': Ledger) {
    Ledger(l.resident + {k}, if charge == 0 then l.charges - {k} else l.charges[k := charge], l.used,
           l.pending[id := Adjustment(charge, ChargeOf(l, k))])
  }

  /** Locked step of a removal; nothing follows if the record was not resident. */
  function BeginRemove(l: Ledger, id: OpId, k: RecKey): (l': Ledger) {
    Ledger(l.resident - {k}, l.charges - {k}, l.used,
           if k in l.resident then l.pending[id := Adjustment(0, ChargeOf(l, k))] else l.pending)
  }

  /** Locked step of an eviction, whose victim is resident. */
  function BeginEvict(l: Ledger, id: OpId, k: RecKey): (l': Ledger)
    requires k in l.resident
  {
    Ledger(l.resident - {k}, l.charges - {k}, l.used, l.pending[id := Adjustment(0, ChargeOf(l, k))])
  }

  /** The atomic step: one addition or one subtraction. */
  function Settle(l: Ledger, id: OpId): (l': Ledger)
    requires id in l.pending
  {
    var a := l.pending[id];
    l.(used := if a.charged >= a.released then l.used + (a.charged - a.released) else l.used - (a.released - a.charged),
       pending := l.pending - {id})
  }

  datatype Move = Upsert(id: OpId, k: RecKey, charge: nat) | Remove(id: OpId, k: RecKey) | Evict(id: OpId, k: RecKey) | Finish(id: OpId)

  /** `limit` is the resident limit in bytes; with limit 0 nothing is evicted. */
  predicate Enabled(l: Ledger, m: Move, limit: nat) {
    match m
    case Upsert(id, _, _) => id !in l.pending
    case Remove(id, _) => id !in l.pending
    case Evict(id, k) => id !in l.pending && k in l.resident && 0 < limit < Counter(l)
    case Finish(id) => id in l.pending
  }

  function After(l: Ledger, m: Move, limit: nat): (l': Ledger)
    requires Enabled(l, m, limit)
  {
    match m
    case Upsert(id, k, charge) => BeginUpsert(l, id, k, charge)
    case Remove(id, k) => BeginRemove(l, id, k)
    case Evict(id, k) => BeginEvict(l, id, k)
    case Finish(id) => Settle(l, id)
  }

  function Charged(pending: map<OpId, Adjustment>): (m: map<OpId, nat>) {
    map id | id in pending :: pending[id].charged
  }

  function Released(pending: map<OpId, Adjustment>): (m: map<OpId, nat>) {
    map id | id in pending :: pending[id].released
  }

  /** The counter, with what is still to be added and without what is still to be taken off, is the
      sum of the charges; only resident records are charged. */
  ghost predicate Balanced(l: Ledger) {
    && l.charges.Keys <= l.resident
    && l.used + Total(Charged(l.pending)) - Total(Released(l.pending)) == Total(l.charges)
  }

  lemma PendingAfterPut(pending: map<OpId, Adjustment>, id: OpId, a: Adjustment)
    requires id !in pending
    ensures Total(Charged(pending[id := a])) == Total(Charged(pending)) + a.charged
    ensures Total(Released(pending[id := a])) == Total(Released(pending)) + a.released
  {
    assert Charged(pending[id := a]) == Charged(pending)[id := a.charged];
    assert Released(pending[id := a]) == Released(pending)[id := a.released];
    TotalPut(Charged(pending), id, a.charged);
    TotalPut(Released(pending), id, a.released);
  }

  lemma PendingAfterRemove(pending: map<OpId, Adjustment>, id: OpId)
    requires id in pending
    ensures Total(Charged(pending - {id})) == Total(Charged(pending)) - pending[id].charged
    ensures Total(Released(pending - {id})) == Total(Released(pending)) - pending[id].released
  {
    assert Charged(pending - {id}) == Charged(pending) - {id};
    assert Released(pending - {id}) == Released(pending) - {id};
    TotalRemove(Charged(pending), id);
    TotalRemove(Released(pending), id);
  }

  lemma ChargesAfterPut(charges: map<RecKey, nat>, k: RecKey, charge: nat)
    ensures Total(if charge == 0 then charges - {k} else charges[k := charge])
         == Total(charges) + charge - if k in charges then charges[k] else 0
  {
    if charge > 0 { TotalPut(charges, k, charge); } else { ChargesAfterRemove(charges, k); }
  }

  lemma ChargesAfterRemove(charges: map<RecKey, nat>, k: RecKey)
    ensures Total(charges - {k}) == Total(charges) - if k in charges then charges[k] else 0
  {
    if k in charges { TotalRemove(charges, k); } else { assert charges - {k} == charges; }
  }

  /** An eviction reads the counter before it erases, and others may settle in between. Such a run
      ends like one in which they settle after both: a settlement and an erasure can change places. */
  lemma SettlingCanWait(l: Ledger, id: OpId, k: RecKey, other: OpId)
    requires k in l.resident && id !in l.pending && other in l.pending
    ensures BeginEvict(Settle(l, other), id, k) == Settle(BeginEvict(l, id, k), other)
  {
    assert (l.pending - {other})[id := Adjustment(0, ChargeOf(l, k))] == l.pending[id := Adjustment(0, ChargeOf(l, k))] - {other};
  }

  /** Every step of every operation keeps the balance. */
  lemma StepKeepsBalance(l: Ledger, m: Move, limit: nat)
    requires Balanced(l) && Enabled(l, m, limit)
    ensures Balanced(After(l, m, limit))
  {
    match m {
      case Upsert(id, k, charge) =>
        ChargesAfterPut(l.charges, k, charge);
        PendingAfterPut(l.pending, id, Adjustment(charge, ChargeOf(l, k)));
      case Remove(id, k) =>
        ChargesAfterRemove(l.charges, k);
        if k in l.resident { PendingAfterPut(l.pending, id, Adjustment(0, ChargeOf(l, k))); }
      case Evict(id, k) =>
        ChargesAfterRemove(l.charges, k);
        PendingAfterPut(l.pending, id, Adjustment(0, ChargeOf(l, k)));
      case Finish(id) =>
        PendingAfterRemove(l.pending, id);
    }
  }

  ghost predicate IsInterleaving(ledgers: seq<Ledger>, moves: seq<Move>, limit: nat) {
    && |ledgers| == |moves| + 1 && ledgers[0] == EMPTY_LEDGER
    && forall i :: 0 <= i < |moves| ==> Enabled(ledgers[i], moves[i], limit) && ledgers[i + 1] == After(ledgers[i], moves[i], limit)
  }

  /** In every interleaving the counter accounts for the charges, up to the operations in flight. */
  lemma {:induction false} InterleavingsBalance(ledgers: seq<Ledger>, moves: seq<Move>, limit: nat, n: nat)
    requires IsInterleaving(ledgers, moves, limit) && n < |ledgers|
    ensures Balanced(ledgers[n])
  {
    if n == 0 {
      TotalZero(EMPTY_LEDGER.charges);
      TotalZero(Charged(EMPTY_LEDGER.pending));
      TotalZero(Released(EMPTY_LEDGER.pending));
    } else {
      InterleavingsBalance(ledgers, moves, limit, n - 1);
      assert ledgers[n - 1 + 1] == After(ledgers[n - 1], moves[n - 1], limit);
      StepKeepsBalance(ledgers[n - 1], moves[n - 1], limit);
    }
  }

  /** The 64-bit counter shows the sum of the charges exactly when what is pending cancels out modulo
      2^64; so it does whenever no operation is in flight. */
  lemma CounterShowsSum(l: Ledger)
    requires Balanced(l) && Total(l.charges) < UINT64_LIMIT
    ensures Counter(l) == Total(l.charges) <==> (Total(Charged(l.pending)) - Total(Released(l.pending))) % UINT64_LIMIT == 0
    ensures l.pending == map[] ==> Counter(l) == Total(l.charges)
  {
    var d := Total(Charged(l.pending)) - Total(Released(l.pending));
    SameResidue(l.used, Total(l.charges), d);
    if l.pending == map[] {
      TotalZero(Charged(l.pending));
      TotalZero(Released(l.pending));
    }
  }

  lemma SameResidue(used: int, sum: nat, d: int)
    requires used + d == sum < UINT64_LIMIT
    ensures used % UINT64_LIMIT == sum <==> d % UINT64_LIMIT == 0
  {
    if d % UINT64_LIMIT == 0 {
      var q := d / UINT64_LIMIT;
      assert used == sum - q * UINT64_LIMIT;
      ResidueOfShift(sum, -q);
    } else if used % UINT64_LIMIT == sum {
      var q := used / UINT64_LIMIT;
      assert d == -q * UINT64_LIMIT;
      ResidueOfShift(0, -q);
    }
  }

  lemma ResidueOfShift(sum: nat, q: int)
    requires sum < UINT64_LIMIT
    ensures (sum + q * UINT64_LIMIT) % UINT64_LIMIT == sum
  {
    var x := sum + q * UINT64_LIMIT;
    var r, p := x % UINT64_LIMIT, x / UINT64_LIMIT;
    assert x == p * UINT64_LIMIT + r;
    assert (p - q) * UINT64_LIMIT == sum - r;
  }

  /** While operations are in flight the counter can wrap. The first record takes the counter over
      the limit and is evicted; before that is settled the second comes in and is evicted too, since
      the counter still shows the first. Both evictions settle before the second upsert does: then
      nothing is resident, and the counter is close to 2^64. */
  lemma EvictionCanOvertake(a: RecKey, chargeA: nat, b: RecKey, chargeB: nat, limit: nat) returns (ledgers: seq<Ledger>, moves: seq<Move>)
    requires 0 < limit < chargeA < UINT64_LIMIT && 0 < chargeB < UINT64_LIMIT
    ensures IsInterleaving(ledgers, moves, limit)
    ensures var last := ledgers[|ledgers| - 1];
      last.resident == {} && Total(last.charges) == 0 && Counter(last) == UINT64_LIMIT - chargeB
  {
    moves := [Upsert(0, a, chargeA), Finish(0), Evict(1, a), Upsert(2, b, chargeB), Evict(3, b), Finish(1), Finish(3)];
    var added, second := Adjustment(chargeA, 0), Adjustment(chargeB, 0);
    var gone, goneToo := Adjustment(0, chargeA), Adjustment(0, chargeB);
    var l1 := Ledger({a}, map[a := chargeA], 0, map[0 := added]);
    var l2 := Ledger({a}, map[a := chargeA], chargeA, map[]);
    var l3 := Ledger({}, map[], chargeA, map[1 := gone]);
    var l4 := Ledger({b}, map[b := chargeB], chargeA, map[1 := gone, 2 := second]);
    var l5 := Ledger({}, map[], chargeA, map[1 := gone, 2 := second, 3 := goneToo]);
    var l6 := Ledger({}, map[], 0, map[2 := second, 3 := goneToo]);
    var l7 := Ledger({}, map[], 0 - chargeB as int, map[2 := second]);
    UpsertNew(EMPTY_LEDGER, 0, a, chargeA, limit, l1);
    FinishOne(l1, 0, limit, l2);
    EvictOnly(l2, 1, a, limit, l3);
    UpsertNew(l3, 2, b, chargeB, limit, l4);
    EvictOnly(l4, 3, b, limit, l5);
    FinishOne(l5, 1, limit, l6);
    FinishOne(l6, 3, limit, l7);
    ledgers := [EMPTY_LEDGER, l1, l2, l3, l4, l5, l6, l7];
    ResidueOfShift(UINT64_LIMIT - chargeB, -1);
  }

  lemma UpsertNew(l: Ledger, id: OpId, k: RecKey, charge: nat, limit: nat, l': Ledger)
    requires id !in l.pending && l.resident == {} && l.charges == map[] && charge > 0
    requires l' == Ledger({k}, map[k := charge], l.used, l.pending[id := Adjustment(charge, 0)])
    ensures Enabled(l, Upsert(id, k, charge), limit) && After(l, Upsert(id, k, charge), limit) == l'
  {
  }

  lemma EvictOnly(l: Ledger, id: OpId, k: RecKey, limit: nat, l': Ledger)
    requires id !in l.pending && l.resident == {k} && l.charges.Keys == {k} && 0 < limit < l.used < UINT64_LIMIT
    requires l' == Ledger({}, map[], l.used, l.pending[id := Adjustment(0, l.charges[k])])
    ensures Enabled(l, Evict(id, k), limit) && After(l, Evict(id, k), limit) == l'
  {
  }

  lemma FinishOne(l: Ledger, id: OpId, limit: nat, l': Ledger)
    requires id in l.pending && l' == Ledger(l.resident, l.charges, l.used + l.pending[id].charged - l.pending[id].released, l.pending - {id})
    ensures Enabled(l, Finish(id), limit) && After(l, Finish(id), limit) == l'
  {
  }
}
