/**
 * When the price levels of a book are exact: each level's doubly linked list holds
 * exactly the resting orders of that side and price, and its count and total are
 * their number and summed remaining quantity. Reductions that exhaust an order and
 * removals of reduced orders break this; the lemmas say exactly when.
 */
module BookLevels {
  import opened PriceLevels
  import opened OrderBook
  import opened LevelLists

  // ---- exactly when each operation keeps all levels exact ----

  /** The resting order behind a reference. */
  function OrderAt(b: Book, ref: nat): OrderSlot
    requires ref in b.index && b.index[ref] < |b.slots|
  {
    b.slots[b.index[ref]]
  }

  /** How many orders the level of an order counts. */
  function LevelCount(b: Book, s: OrderSlot): nat {
    LevelAt(SideOf(b, s.side), s.price).count
  }

  /** cancel and execute keep the levels exact if and only if something remains. */
  lemma ReduceExactIff(b: Book, ref: nat, amount: nat)
    requires Safe(b) && Exact(b) && ref in b.index
    ensures RefInRange(b, ref)
    ensures Exact(Reduced(b, ref, amount)) <==> amount < OrderAt(b, ref).remaining
  {
    hide Safe, SizesOk, LevelOk, Dropped, Charged, Indexed, InRange, TotalAt;
    RefsInRange(b, ref);
    var idx := b.index[ref];
    var s := b.slots[idx];
    SizeOf(b, idx);
    if amount < s.remaining {
      forall key ensures LevelExact(Charged(b, idx, amount), key) {
        assert LevelExact(b, key);
        var ns :| LevelOk(b, key, ns);
        ChargeKeeps(b, idx, amount, key, ns);
      }
      ChargeSizes(b, idx, amount);
      assert Reduced(b, ref, amount) == Charged(b, idx, amount) by { ReducedCases(b, ref, amount); }
    } else {
      var key := KeyOf(s);
      assert LevelExact(b, key);
      var ns :| LevelOk(b, key, ns);
      ExhaustBreaks(b, idx, key, ns);
      ReducedCases(b, ref, amount);
    }
  }

  lemma ReducedCases(b: Book, ref: nat, amount: nat)
    requires RefInRange(b, ref) && ref in b.index && InRange(b.slots[b.index[ref]], |b.slots|)
    ensures var idx := b.index[ref];
      var k := Min(amount, b.slots[idx].remaining);
      var b1 := Charged(b, idx, k);
      && InRange(b1.slots[idx], |b1.slots|)
      && Reduced(b, ref, amount) == if amount < b.slots[idx].remaining then b1 else Dropped(b1, idx)
  {
    hide Dropped, ReducedLevels;
  }

  lemma ChargeSizes(b: Book, idx: nat, k: nat)
    requires idx < |b.slots| && Indexed(b, idx) && k < b.slots[idx].remaining && SizesOk(b)
    ensures SizesOk(Charged(b, idx, k))
  {
    hide Indexed, Charged;
    ChargeRests(b, idx, k, KeyOf(b.slots[idx]), idx);
    forall i | 0 <= i < |b.slots| && Indexed(Charged(b, idx, k), i)
      ensures var s := Charged(b, idx, k).slots[i]; 0 < s.remaining <= s.shares < WORD32
    {
      ChargeRests(b, idx, k, KeyOf(b.slots[idx]), i);
    }
  }

  lemma DropSizes(b: Book, idx: nat)
    requires Safe(b) && idx < |b.slots| && Indexed(b, idx) && InRange(b.slots[idx], |b.slots|) && SizesOk(b)
    ensures SizesOk(Dropped(b, idx))
  {
    hide Indexed, Dropped, Safe, InRange;
    var b' := Dropped(b, idx);
    DropRests(b, idx, KeyOf(b.slots[idx]), idx);
    forall i | 0 <= i < |b.slots| && Indexed(b', i) ensures 0 < b'.slots[i].remaining <= b'.slots[i].shares < WORD32 {
      DropRests(b, idx, KeyOf(b.slots[idx]), i);
    }
  }

  /** remove keeps the levels exact if and only if the order was unreduced or alone at its level. */
  lemma RemoveExactIff(b: Book, ref: nat)
    requires Safe(b) && Exact(b) && ref in b.index
    ensures RefInRange(b, ref)
    ensures var s := OrderAt(b, ref);
      Exact(Removed(b, ref)) <==> s.remaining == s.shares || LevelCount(b, s) == 1
  {
    hide Safe, SizesOk, Linked, Lists, Dropped, Indexed, InRange, TotalAt;
    RefsInRange(b, ref);
    var idx := b.index[ref];
    var s := b.slots[idx];
    var own, b' := KeyOf(s), Dropped(b, idx);
    assert LevelExact(b, own);
    var ns :| LevelOk(b, own, ns);
    RestsOwn(b, own, idx);
    OnList(b, own, ns, idx);
    var p :| 0 <= p < |ns| && ns[p] == idx;
    DropHere(b, own, ns, p);
    DropSizes(b, idx);
    forall key | key != own ensures LevelExact(b', key) {
      assert LevelExact(b, key);
      var os :| LevelOk(b, key, os);
      DropElsewhere(b, own, ns, p, key, os);
    }
    assert Exact(b') <==> LevelExact(b', own);
  }

  /** add keeps the levels exact if and only if the order has a size and the level total fits 32 bits. */
  lemma AddExactIff(b: Book, ref: nat, side: Side, price: int, shares: nat, seqNo: nat)
    requires Safe(b) && Exact(b) && ref !in b.index && IsPrice(price) && b.free != []
    ensures b.free[0] < |b.slots|
    ensures var h := LevelAt(SideOf(b, side), price).head; h == NIL || h < |b.slots|
    ensures Exact(Added(b, ref, side, price, shares, seqNo)) <==>
      0 < shares && LevelAt(SideOf(b, side), price).total + shares < WORD32
  {
    hide Safe, SizesOk, Linked, Lists, Added, Indexed, TotalAt;
    SafeHeads(b);
    var own, b', idx := NewKey(side, price), Added(b, ref, side, price, shares, seqNo), b.free[0];
    assert LevelExact(b, own);
    var ns :| LevelOk(b, own, ns);
    EmptyTotal(b, own, ns);
    AddTotal(b, ref, side, price, shares, seqNo, own);
    AddSize(b, ref, side, price, shares, seqNo);
    AddRests(b, ref, side, price, shares, seqNo, own, idx);
    assert LevelAt(SideOf(b, side), price).total == Total(b, own);
    if 0 < shares && Total(b, own) + shares < WORD32 {
      AddSizes(b, ref, side, price, shares, seqNo);
      forall key ensures LevelExact(b', key) {
        if key == own {
          AddHere(b, ref, side, price, shares, seqNo, ns);
        } else {
          assert LevelExact(b, key);
          var os :| LevelOk(b, key, os);
          AddElsewhere(b, ref, side, price, shares, seqNo, ns, key, os);
        }
      }
    } else if shares == 0 {
      if SizesOk(b') { RestsIndexed(b', own, idx); SizeOf(b', idx); }
    } else {
      forall other ensures !LevelOk(b', own, other) {
        if Lists(b', own, other) { OnList(b', own, other, idx); }
      }
      assert !LevelExact(b', own);
    }
  }

  lemma RestsIndexed(b: Book, key: Key, n: nat)
    requires Rests(b, key, n)
    ensures Indexed(b, n)
  {
  }

  lemma AddSizes(b: Book, ref: nat, side: Side, price: int, shares: nat, seqNo: nat)
    requires Safe(b) && SizesOk(b) && ref !in b.index && IsPrice(price) && b.free != [] && b.free[0] < |b.slots|
    requires var h := LevelAt(SideOf(b, side), price).head; h == NIL || h < |b.slots|
    requires 0 < shares < WORD32
    ensures SizesOk(Added(b, ref, side, price, shares, seqNo))
  {
    hide Safe, Added, Indexed, LevelAt;
    var b' := Added(b, ref, side, price, shares, seqNo);
    AddSize(b, ref, side, price, shares, seqNo);
    forall i | 0 <= i < |b'.slots| && Indexed(b', i) ensures 0 < b'.slots[i].remaining <= b'.slots[i].shares < WORD32 {
      AddRests(b, ref, side, price, shares, seqNo, NewKey(side, price), i);
    }
  }

  lemma AddElsewhere(b: Book, ref: nat, side: Side, price: int, shares: nat, seqNo: nat, ns: seq<nat>, other: Key, os: seq<nat>)
    requires Safe(b) && ref !in b.index && IsPrice(price) && b.free != [] && b.free[0] < |b.slots|
    requires var h := LevelAt(SideOf(b, side), price).head; h == NIL || h < |b.slots|
    requires LevelOk(b, NewKey(side, price), ns) && LevelOk(b, other, os) && other != NewKey(side, price)
    ensures LevelOk(Added(b, ref, side, price, shares, seqNo), other, os)
  {
    hide FreeOk, IndexOk, LinksOk, Indexed, TotalAt, PushedLevel;
    var idx, b' := b.free[0], Added(b, ref, side, price, shares, seqNo);
    AddLinks(b, ref, side, price, shares, seqNo, ns);
    AddRests(b, ref, side, price, shares, seqNo, other, idx);
    if ns != [] { assert Rests(b, NewKey(side, price), ns[0]); }
    forall n | 0 <= n < |b.slots| ensures Rests(b', other, n) <==> Rests(b, other, n) {
      AddRests(b, ref, side, price, shares, seqNo, other, n);
      if Rests(b, other, n) { RestsIndexed(b, other, n); }
    }
    forall n | 0 <= n < |b.slots| && Rests(b, other, n) ensures SameSlot(b'.slots[n], b.slots[n]) {
      AddRests(b, ref, side, price, shares, seqNo, other, n);
      RestsIndexed(b, other, n);
    }
    OtherLevel(b, b', other, os);
  }

  // ---- runs ----

  /** A book with nothing resting. */
  ghost predicate Fresh(b: Book) {
    Safe(b) && b.index == map[] && b.bids == map[] && b.asks == map[]
  }

  lemma FreshExact(b: Book)
    requires Fresh(b)
    ensures Exact(b)
  {
    hide Safe;
    forall key ensures LevelExact(b, key) {
      assert LevelOk(b, key, []);
    }
  }

  /** The additions, reductions and removals that keep an exact book exact. */
  predicate Gentle(b: Book, op: Op) {
    match op
    case DoAdd(ref, side, price, shares, _) =>
      b.free == [] || (0 < shares && LevelAt(SideOf(b, side), price).total + shares < WORD32)
    case DoReduce(ref, amount) =>
      ref in b.index && b.index[ref] < |b.slots| ==> amount < OrderAt(b, ref).remaining
    case DoRemove(ref) =>
      ref in b.index && b.index[ref] < |b.slots| ==>
        OrderAt(b, ref).remaining == OrderAt(b, ref).shares || LevelCount(b, OrderAt(b, ref)) == 1
    case DoReplace(ref, newRef, side, price, shares, _) =>
      ref in b.index && RefInRange(b, ref) ==>
        && (OrderAt(b, ref).remaining == OrderAt(b, ref).shares || LevelCount(b, OrderAt(b, ref)) == 1)
        && 0 < shares && LevelAt(SideOf(Removed(b, ref), side), price).total + shares < WORD32
  }

  predicate AllGentle(b: Book, ops: seq<Op>)
    decreases |ops|
  {
    ops == [] || (Gentle(b, ops[0]) && AllGentle(Step(b, ops[0]), ops[1..]))
  }

  lemma AddGuardedExact(b: Book, ref: nat, side: Side, price: int, shares: nat, seqNo: nat)
    requires Safe(b) && Exact(b) && ref !in b.index && IsPrice(price)
    requires b.free == [] || (0 < shares && LevelAt(SideOf(b, side), price).total + shares < WORD32)
    ensures Exact(AddGuarded(b, ref, side, price, shares, seqNo))
  {
    hide Safe, Exact, Added, LevelAt;
    if b.free == [] {
      FullPoolKeepsBook(b, ref, side, price, shares, seqNo);
    } else {
      AddExactIff(b, ref, side, price, shares, seqNo);
    }
  }

  lemma FullPoolKeepsBook(b: Book, ref: nat, side: Side, price: int, shares: nat, seqNo: nat)
    requires b.free == []
    ensures AddGuarded(b, ref, side, price, shares, seqNo) == b
  {
  }

  lemma StepExact(b: Book, op: Op)
    requires Safe(b) && (forall r :: r in b.index ==> b.index[r] < |b.slots|)
    requires Exact(b) && Allowed(LedgerOf(b), op) && Gentle(b, op)
    ensures Exact(Step(b, op))
  {
    hide Safe, Exact, LedgerOf, Added, Dropped, LevelAt, AddGuarded, Reduced, Removed, InRange;
    match op
    case DoAdd(ref, side, price, shares, seqNo) =>
      LedgerAt(b, ref);
      AddGuardedExact(b, ref, side, price, shares, seqNo);
    case DoReduce(ref, amount) =>
      RefsInRange(b, ref);
      if ref in b.index { ReduceExactIff(b, ref, amount); } else { Untouched(b, ref, amount); }
    case DoRemove(ref) =>
      RefsInRange(b, ref);
      if ref in b.index { RemoveExactIff(b, ref); } else { Untouched(b, ref, 0); }
    case DoReplace(ref, newRef, side, price, shares, seqNo) =>
      RefsInRange(b, ref);
      if ref in b.index {
        RemoveExactIff(b, ref);
        RemovedLedger(b, ref);
        LedgerAt(b, newRef);
        LedgerAt(Removed(b, ref), newRef);
        ReplaceRoom(b, ref);
        AddGuardedExact(Removed(b, ref), newRef, side, price, shares, if seqNo != 0 then seqNo else OrderAt(b, ref).seqNo);
      }
  }

  lemma Untouched(b: Book, ref: nat, amount: nat)
    requires ref !in b.index
    ensures Reduced(b, ref, amount) == b && Removed(b, ref) == b
  {
  }

  /** Over every run of such operations every level stays exact. */
  lemma {:induction false} RunExact(b: Book, ops: seq<Op>)
    requires Safe(b) && (forall r :: r in b.index ==> b.index[r] < |b.slots|) && Exact(b)
    requires AllAllowed(LedgerOf(b), |b.slots|, ops) && AllGentle(b, ops)
    ensures Exact(Run(b, ops))
    decreases |ops|
  {
    hide Exact, LedgerOf, Step, LedgerStep, Allowed, Gentle, Safe;
    if ops != [] {
      StepLedger(b, ops[0]);
      StepExact(b, ops[0]);
      RunExact(Step(b, ops[0]), ops[1..]);
    }
  }

  /** And so from a book with nothing resting. */
  lemma FreshRunExact(b: Book, ops: seq<Op>)
    requires Fresh(b) && AllAllowed(map[], |b.slots|, ops) && AllGentle(b, ops)
    ensures Exact(Run(b, ops))
  {
    hide Exact, Safe, Step, Gentle, Allowed, LedgerStep;
    FreshExact(b);
    assert LedgerOf(b) == map[];
    RunExact(b, ops);
  }
}
