/**
 * The order book of one instrument: resting orders in a slot pool, an index from
 * order reference to slot, and a table of price levels for each side.
 */
module OrderBook {
  import OrderMap
  import opened PriceLevels

  const WORD32: nat := 0x1_0000_0000

  datatype Side = BUY | SELL | NONE

  /** A pool slot; prev and next link the orders of one level. */
  datatype OrderSlot = OrderSlot(ref: nat, side: Side, price: int, shares: nat, remaining: nat, seqNo: nat,
                                 prev: nat, next: nat)

  /** The state of pool, index and both sides as values. */
  datatype Book = Book(slots: seq<OrderSlot>, free: seq<nat>, index: map<nat, nat>,
                       bids: map<int, Level>, asks: map<int, Level>)

  // ---- what one operation does to levels and slots ----

  /** 32-bit subtraction. */
  function Sub32(a: nat, b: nat): nat {
    (a - b) % WORD32
  }

  function LevelAt(levels: map<int, Level>, price: int): Level {
    if price in levels then levels[price] else NEW_LEVEL
  }

  /** A new order in front of a level. */
  function PushedLevel(lvl: Level, idx: nat, shares: nat): Level {
    Level(idx, if lvl.tail == NIL then idx else lvl.tail, (lvl.count + 1) % WORD32, (lvl.total + shares) % WORD32)
  }

  function PushedSlots(slots: seq<OrderSlot>, head: nat, idx: nat): seq<OrderSlot>
    requires idx < |slots| && (head == NIL || head < |slots|)
  {
    if head == NIL then slots
    else
      var linked := slots[head := slots[head].(prev := idx)];
      linked[idx := linked[idx].(next := head)]
  }

  /** Slots after the order at idx has left its list: first its predecessor, then its successor. */
  function CutBefore(slots: seq<OrderSlot>, idx: nat): seq<OrderSlot>
    requires idx < |slots| && (slots[idx].prev == NIL || slots[idx].prev < |slots|)
  {
    var s := slots[idx];
    if s.prev == NIL then slots else slots[s.prev := slots[s.prev].(next := s.next)]
  }

  function UnlinkedSlots(slots: seq<OrderSlot>, idx: nat): seq<OrderSlot>
    requires idx < |slots| && InRange(slots[idx], |slots|)
  {
    var cut := CutBefore(slots, idx);
    var s := cut[idx];
    if s.next == NIL then cut else cut[s.next := cut[s.next].(prev := s.prev)]
  }

  /** The level of an order that leaves; the full original size is subtracted. */
  function UnlinkedLevel(lvl: Level, s: OrderSlot): Level {
    Level(if s.prev == NIL then s.next else lvl.head, if s.next == NIL then s.prev else lvl.tail,
          Sub32(lvl.count, 1), Sub32(lvl.total, s.shares % WORD32))
  }

  function UnlinkedLevels(levels: map<int, Level>, s: OrderSlot): map<int, Level> {
    var lvl := UnlinkedLevel(LevelAt(levels, s.price), s);
    if lvl.count == 0 then levels - {s.price} else levels[s.price := lvl]
  }

  /** A reduction by k; a total of zero removes the level. */
  function ReducedLevels(levels: map<int, Level>, price: int, k: nat): map<int, Level> {
    var lvl := LevelAt(levels, price);
    var total := Sub32(lvl.total, k % WORD32);
    if total == 0 then levels - {price} else levels[price := lvl.(total := total)]
  }

  // ---- safety of stored indexes ----

  predicate InRange(s: OrderSlot, n: nat) {
    (s.prev == NIL || s.prev < n) && (s.next == NIL || s.next < n) && IsPrice(s.price)
  }

  ghost predicate HeadsInRange(levels: map<int, Level>, n: nat) {
    forall p :: p in levels ==> levels[p].head == NIL || levels[p].head < n
  }

  ghost predicate Distinct(ns: seq<nat>) {
    forall i, j :: 0 <= i < j < |ns| ==> ns[i] != ns[j]
  }

  /** Slot i is indexed under its own reference. */
  predicate Indexed(b: Book, i: nat) {
    i < |b.slots| && b.slots[i].ref in b.index && b.index[b.slots[i].ref] == i
  }

  /**
   * What every operation keeps, whatever happens to the level totals: slots are
   * either free or indexed under their reference, and no stored link leaves the pool.
   */
  ghost predicate Safe(b: Book) {
    |b.slots| < NIL && FreeOk(b) && IndexOk(b) && LinksOk(b)
  }

  ghost predicate FreeOk(b: Book) {
    && Distinct(b.free)
    && (forall k :: 0 <= k < |b.free| ==> b.free[k] < |b.slots|)
    && |b.free| + |b.index| == |b.slots|
  }

  ghost predicate IndexOk(b: Book) {
    && (forall r :: r in b.index ==> b.index[r] < |b.slots| && b.slots[b.index[r]].ref == r)
    && (forall i :: 0 <= i < |b.slots| ==> (i in b.free <==> !Indexed(b, i)))
  }

  ghost predicate LinksOk(b: Book) {
    && (forall i :: 0 <= i < |b.slots| && Indexed(b, i) ==> InRange(b.slots[i], |b.slots|))
    && HeadsInRange(b.bids, |b.slots|) && HeadsInRange(b.asks, |b.slots|)
  }

  // ---- the operations on values ----

  function OnSide(b: Book, side: Side, levels: map<int, Level>): Book {
    if side == BUY then b.(bids := levels) else b.(asks := levels)
  }

  function SideOf(b: Book, side: Side): map<int, Level> {
    if side == BUY then b.bids else b.asks
  }

  function NewSlot(ref: nat, side: Side, price: int, shares: nat, seqNo: nat): OrderSlot {
    OrderSlot(ref, side, price, shares, shares, seqNo, NIL, NIL)
  }

  /** add: nothing happens when the pool is exhausted. */
  function Added(b: Book, ref: nat, side: Side, price: int, shares: nat, seqNo: nat): Book
    requires b.free == [] || b.free[0] < |b.slots|
    requires var h := LevelAt(SideOf(b, side), price).head; h == NIL || h < |b.slots|
  {
    if b.free == [] then b
    else
      var idx, lvl := b.free[0], LevelAt(SideOf(b, side), price);
      var slots := b.slots[idx := NewSlot(ref, side, price, shares, seqNo)];
      OnSide(b.(slots := PushedSlots(slots, lvl.head, idx), free := b.free[1..], index := b.index[ref := idx]),
             side, SideOf(b, side)[price := PushedLevel(lvl, idx, shares)])
  }

  /** Take the order at idx out of level, pool and index. */
  function Dropped(b: Book, idx: nat): Book
    requires idx < |b.slots| && InRange(b.slots[idx], |b.slots|)
  {
    var s := b.slots[idx];
    OnSide(b.(slots := UnlinkedSlots(b.slots, idx), free := [idx] + b.free, index := b.index - {s.ref}),
           s.side, UnlinkedLevels(SideOf(b, s.side), s))
  }

  function Removed(b: Book, ref: nat): Book
    requires ref in b.index ==> b.index[ref] < |b.slots| && InRange(b.slots[b.index[ref]], |b.slots|)
  {
    if ref in b.index then Dropped(b, b.index[ref]) else b
  }

  function Min(a: nat, b: nat): nat {
    if a < b then a else b
  }

  /** The book after the quantity change of a reduction, before an exhausted order is dropped. */
  function Charged(b: Book, idx: nat, k: nat): Book
    requires idx < |b.slots| && k <= b.slots[idx].remaining
  {
    var s := b.slots[idx];
    OnSide(b.(slots := b.slots[idx := s.(remaining := s.remaining - k)]), s.side,
           ReducedLevels(SideOf(b, s.side), s.price, k))
  }

  /** cancel and execute: reduce by at most what remains; an exhausted order is dropped. */
  function Reduced(b: Book, ref: nat, amount: nat): Book
    requires ref in b.index ==> b.index[ref] < |b.slots| && InRange(b.slots[b.index[ref]], |b.slots|)
  {
    if ref !in b.index then b
    else
      var idx := b.index[ref];
      var s := b.slots[idx];
      var k := Min(amount, s.remaining);
      if s.remaining == k then Dropped(Charged(b, idx, k), idx) else Charged(b, idx, k)
  }

  // ---- the ledger ----

  /** A resting order as the outside sees it. */
  datatype Entry = Entry(side: Side, price: int, shares: nat, remaining: nat, seqNo: nat)

  type Ledger = map<nat, Entry>

  function EntryOf(s: OrderSlot): Entry {
    Entry(s.side, s.price, s.shares, s.remaining, s.seqNo)
  }

  ghost function LedgerOf(b: Book): Ledger
    requires forall r :: r in b.index ==> b.index[r] < |b.slots|
  {
    map r | r in b.index :: EntryOf(b.slots[b.index[r]])
  }

  function LedgerAdd(l: Ledger, capacity: nat, ref: nat, e: Entry): Ledger {
    if |l| < capacity then l[ref := e] else l
  }

  function LedgerReduce(l: Ledger, ref: nat, amount: nat): Ledger {
    if ref !in l then l
    else if amount >= l[ref].remaining then l - {ref}
    else l[ref := l[ref].(remaining := l[ref].remaining - amount)]
  }

  /** Link updates do not touch what the ledger shows. */
  predicate SameOrders(a: seq<OrderSlot>, b: seq<OrderSlot>) {
    |a| == |b| && forall i :: 0 <= i < |a| ==> b[i].ref == a[i].ref && EntryOf(b[i]) == EntryOf(a[i])
  }

  lemma PushSameOrders(slots: seq<OrderSlot>, head: nat, idx: nat)
    requires idx < |slots| && (head == NIL || head < |slots|)
    ensures SameOrders(slots, PushedSlots(slots, head, idx))
    ensures forall i, n: nat :: 0 <= i < |slots| && InRange(slots[i], n) && |slots| <= n ==> InRange(PushedSlots(slots, head, idx)[i], n)
  {
  }

  lemma UnlinkSameOrders(slots: seq<OrderSlot>, idx: nat)
    requires idx < |slots| && InRange(slots[idx], |slots|)
    ensures SameOrders(slots, UnlinkedSlots(slots, idx))
    ensures forall i :: 0 <= i < |slots| && InRange(slots[i], |slots|) ==> InRange(UnlinkedSlots(slots, idx)[i], |slots|)
  {
  }

  // ---- every operation keeps Safe and acts on the ledger ----

  lemma HeadsStay(levels: map<int, Level>, p: int, lvl: Level, n: nat)
    requires HeadsInRange(levels, n) && (lvl.head == NIL || lvl.head < n)
    ensures HeadsInRange(levels[p := lvl], n) && HeadsInRange(levels - {p}, n)
  {
  }

  lemma HeadInRange(levels: map<int, Level>, p: int, n: nat)
    requires HeadsInRange(levels, n)
    ensures var h := LevelAt(levels, p).head; h == NIL || h < n
  {
  }

  lemma LedgerSize(b: Book)
    requires forall r :: r in b.index ==> b.index[r] < |b.slots|
    ensures |LedgerOf(b)| == |b.index|
  {
    assert LedgerOf(b).Keys == b.index.Keys;
  }

  lemma IndexedAt(b: Book, ref: nat)
    requires Safe(b) && ref in b.index
    ensures Indexed(b, b.index[ref]) && b.slots[b.index[ref]].ref == ref
    ensures InRange(b.slots[b.index[ref]], |b.slots|)
  {
  }

  lemma IndexInPool(b: Book)
    requires Safe(b)
    ensures forall r :: r in b.index ==> b.index[r] < |b.slots|
  {
  }

  lemma AddedSlots(b: Book, ref: nat, side: Side, price: int, shares: nat, seqNo: nat)
    requires Safe(b) && b.free != [] && IsPrice(price) && ref !in b.index
    requires var h := LevelAt(SideOf(b, side), price).head; h == NIL || h < |b.slots|
    ensures var b', idx := Added(b, ref, side, price, shares, seqNo), b.free[0];
      && |b'.slots| == |b.slots| && idx < |b.slots| && !Indexed(b, idx)
      && b'.slots[idx].ref == ref && EntryOf(b'.slots[idx]) == Entry(side, price, shares, shares, seqNo)
      && InRange(b'.slots[idx], |b.slots|)
      && forall i :: 0 <= i < |b.slots| && i != idx ==>
           && b'.slots[i].ref == b.slots[i].ref && EntryOf(b'.slots[i]) == EntryOf(b.slots[i])
           && (InRange(b.slots[i], |b.slots|) ==> InRange(b'.slots[i], |b.slots|))
  {
    var idx, h := b.free[0], LevelAt(SideOf(b, side), price).head;
    assert idx in b.free;
    PushSameOrders(b.slots[idx := NewSlot(ref, side, price, shares, seqNo)], h, idx);
  }

  lemma AddedSafe(b: Book, ref: nat, side: Side, price: int, shares: nat, seqNo: nat)
    requires Safe(b) && IsPrice(price) && ref !in b.index
    requires var h := LevelAt(SideOf(b, side), price).head; h == NIL || h < |b.slots|
    ensures Safe(Added(b, ref, side, price, shares, seqNo))
  {
    hide Distinct, PushedSlots, PushedLevel, HeadsInRange, InRange, LevelAt;
    if b.free != [] {
      AddedSlots(b, ref, side, price, shares, seqNo);
      AddedIndex(b, Added(b, ref, side, price, shares, seqNo), ref, b.free[0]);
      AddedFree(b, Added(b, ref, side, price, shares, seqNo), ref);
      AddedHeads(b, ref, side, price, shares, seqNo);
    }
  }

  lemma AddedHeads(b: Book, ref: nat, side: Side, price: int, shares: nat, seqNo: nat)
    requires HeadsInRange(b.bids, |b.slots|) && HeadsInRange(b.asks, |b.slots|) && b.free != [] && b.free[0] < |b.slots|
    requires var h := LevelAt(SideOf(b, side), price).head; h == NIL || h < |b.slots|
    ensures var b' := Added(b, ref, side, price, shares, seqNo);
      HeadsInRange(b'.bids, |b.slots|) && HeadsInRange(b'.asks, |b.slots|)
  {
    var lvl := LevelAt(SideOf(b, side), price);
    HeadsStay(SideOf(b, side), price, PushedLevel(lvl, b.free[0], shares), |b.slots|);
  }

  lemma AddedFree(b: Book, b': Book, ref: nat)
    requires FreeOk(b) && b.free != [] && ref !in b.index
    requires |b'.slots| == |b.slots| && b'.free == b.free[1..] && b'.index == b.index[ref := b.free[0]]
    ensures FreeOk(b')
  {
    assert b'.index.Keys == b.index.Keys + {ref};
  }

  /** The free list and the index still split the slots after one moved from free to indexed. */
  lemma AddedIndex(b: Book, b': Book, ref: nat, idx: nat)
    requires FreeOk(b) && IndexOk(b) && ref !in b.index && b.free != [] && idx == b.free[0]
    requires |b'.slots| == |b.slots| && b'.index == b.index[ref := idx] && b'.free == b.free[1..]
    requires b'.slots[idx].ref == ref
    requires forall i :: 0 <= i < |b.slots| && i != idx ==> b'.slots[i].ref == b.slots[i].ref
    ensures IndexOk(b')
    ensures forall i :: 0 <= i < |b'.slots| && Indexed(b', i) ==> i == idx || Indexed(b, i)
  {
    var rest := b.free[1..];
    assert b.free == [idx] + rest && idx in b.free && !Indexed(b, idx) && idx !in rest;
    forall r | r in b'.index ensures b'.index[r] < |b'.slots| && b'.slots[b'.index[r]].ref == r {
      if r != ref { assert Indexed(b, b.index[r]); }
    }
    forall i | 0 <= i < |b'.slots| ensures i in rest <==> !Indexed(b', i) {
      assert i in b.free <==> !Indexed(b, i);
    }
  }

  lemma AddedLedger(b: Book, ref: nat, side: Side, price: int, shares: nat, seqNo: nat)
    requires Safe(b) && IsPrice(price) && ref !in b.index
    requires var h := LevelAt(SideOf(b, side), price).head; h == NIL || h < |b.slots|
    ensures var b' := Added(b, ref, side, price, shares, seqNo);
      && (forall r :: r in b'.index ==> b'.index[r] < |b'.slots|)
      && LedgerOf(b') == LedgerAdd(LedgerOf(b), |b.slots|, ref, Entry(side, price, shares, shares, seqNo))
  {
    hide Safe, InRange, PushedSlots, PushedLevel;
    IndexInPool(b);
    LedgerSize(b);
    FreeCount(b);
    if b.free != [] {
      var b', idx := Added(b, ref, side, price, shares, seqNo), b.free[0];
      AddedSlots(b, ref, side, price, shares, seqNo);
      NotIndexed(b, idx);
      LedgerSet(b, b', ref, idx);
    }
  }

  lemma FreeCount(b: Book)
    requires Safe(b)
    ensures |b.free| + |b.index| == |b.slots|
    ensures b.free != [] ==> b.free[0] < |b.slots|
  {
  }

  lemma NotIndexed(b: Book, idx: nat)
    requires Safe(b) && !Indexed(b, idx)
    ensures forall r :: r in b.index ==> b.index[r] != idx
  {
  }

  lemma LedgerSet(b: Book, b': Book, ref: nat, idx: nat)
    requires forall r :: r in b.index ==> b.index[r] < |b.slots| && b.index[r] != idx
    requires idx < |b.slots| == |b'.slots| && b'.index == b.index[ref := idx]
    requires forall i :: 0 <= i < |b.slots| && i != idx ==> EntryOf(b'.slots[i]) == EntryOf(b.slots[i])
    ensures LedgerOf(b') == LedgerOf(b)[ref := EntryOf(b'.slots[idx])]
  {
    hide EntryOf;
  }

  lemma DroppedSafe(b: Book, idx: nat)
    requires Safe(b) && idx < |b.slots| && Indexed(b, idx) && InRange(b.slots[idx], |b.slots|)
    ensures Safe(Dropped(b, idx))
  {
    hide Distinct, UnlinkedSlots, UnlinkedLevels, HeadsInRange, InRange, EntryOf, FreeOk, IndexOk;
    var s, b' := b.slots[idx], Dropped(b, idx);
    UnlinkSameOrders(b.slots, idx);
    UnlinkedHeads(SideOf(b, s.side), s, |b.slots|);
    DroppedIndex(b, b', idx);
    DroppedFree(b, b', idx);
  }

  lemma DroppedFree(b: Book, b': Book, idx: nat)
    requires FreeOk(b) && IndexOk(b) && Indexed(b, idx) && |b'.slots| == |b.slots|
    requires b'.index == b.index - {b.slots[idx].ref} && b'.free == [idx] + b.free
    ensures FreeOk(b')
  {
    assert b.index.Keys == b'.index.Keys + {b.slots[idx].ref};
    assert idx !in b.free;
  }

  lemma UnlinkedHeads(levels: map<int, Level>, s: OrderSlot, n: nat)
    requires HeadsInRange(levels, n) && InRange(s, n)
    ensures HeadsInRange(UnlinkedLevels(levels, s), n)
  {
    HeadInRange(levels, s.price, n);
    HeadsStay(levels, s.price, UnlinkedLevel(LevelAt(levels, s.price), s), n);
  }

  lemma DroppedIndex(b: Book, b': Book, idx: nat)
    requires FreeOk(b) && IndexOk(b) && Indexed(b, idx) && SameOrders(b.slots, b'.slots)
    requires b'.index == b.index - {b.slots[idx].ref} && b'.free == [idx] + b.free
    ensures IndexOk(b')
    ensures forall i :: 0 <= i < |b'.slots| && Indexed(b', i) ==> Indexed(b, i)
  {
    hide EntryOf, FreeOk;
    forall i | 0 <= i < |b'.slots| ensures i in b'.free <==> !Indexed(b', i) {
      assert i in b.free <==> !Indexed(b, i);
    }
  }

  lemma DroppedLedger(b: Book, idx: nat)
    requires Safe(b) && idx < |b.slots| && Indexed(b, idx) && InRange(b.slots[idx], |b.slots|)
    ensures var b' := Dropped(b, idx);
      && (forall r :: r in b'.index ==> b'.index[r] < |b'.slots|)
      && LedgerOf(b') == LedgerOf(b) - {b.slots[idx].ref}
  {
    hide UnlinkedSlots, UnlinkedLevels, HeadsInRange;
    UnlinkSameOrders(b.slots, idx);
    IndexInPool(b);
  }

  lemma ChargedSafe(b: Book, idx: nat, k: nat)
    requires Safe(b) && Indexed(b, idx) && k <= b.slots[idx].remaining
    ensures Safe(Charged(b, idx, k)) && Indexed(Charged(b, idx, k), idx)
  {
    hide ReducedLevels;
    var s, b' := b.slots[idx], Charged(b, idx, k);
    ReducedHeads(SideOf(b, s.side), s.price, k, |b.slots|);
    forall i | 0 <= i < |b'.slots| ensures i in b'.free <==> !Indexed(b', i) {
      assert i in b.free <==> !Indexed(b, i);
    }
  }

  lemma ReducedHeads(levels: map<int, Level>, price: int, k: nat, n: nat)
    requires HeadsInRange(levels, n)
    ensures HeadsInRange(ReducedLevels(levels, price, k), n)
  {
    var lvl := LevelAt(levels, price);
    HeadInRange(levels, price, n);
    HeadsStay(levels, price, lvl.(total := Sub32(lvl.total, k % WORD32)), n);
  }

  lemma ChargedLedger(b: Book, idx: nat, k: nat)
    requires Safe(b) && Indexed(b, idx) && k <= b.slots[idx].remaining
    ensures forall r :: r in b.index ==> b.index[r] < |b.slots|
    ensures var e := EntryOf(b.slots[idx]);
      LedgerOf(Charged(b, idx, k)) == LedgerOf(b)[b.slots[idx].ref := e.(remaining := e.remaining - k)]
  {
    hide Safe, Charged;
    IndexInPool(b);
    ChargedSlot(b, idx, k);
    var b', ref := Charged(b, idx, k), b.slots[idx].ref;
    forall r | r in b.index && r != ref ensures b.index[r] != idx {
      IndexedAt(b, r);
    }
  }

  lemma ChargedSlot(b: Book, idx: nat, k: nat)
    requires idx < |b.slots| && k <= b.slots[idx].remaining
    ensures var b', s := Charged(b, idx, k), b.slots[idx];
      b'.index == b.index && b'.slots == b.slots[idx := s.(remaining := s.remaining - k)]
  {
    hide ReducedLevels;
  }

  /** cancel and execute, in every safe book, exhausted orders included. */
  lemma ReducedLedger(b: Book, ref: nat, amount: nat)
    requires Safe(b) && (ref in b.index ==> b.index[ref] < |b.slots| && InRange(b.slots[b.index[ref]], |b.slots|))
    ensures forall r :: r in b.index ==> b.index[r] < |b.slots|
    ensures forall r :: r in Reduced(b, ref, amount).index ==> Reduced(b, ref, amount).index[r] < |Reduced(b, ref, amount).slots|
    ensures Safe(Reduced(b, ref, amount))
    ensures LedgerOf(Reduced(b, ref, amount)) == LedgerReduce(LedgerOf(b), ref, amount)
  {
    hide Safe, Charged, Dropped, LedgerOf, InRange;
    IndexInPool(b);
    LedgerAt(b, ref);
    if ref in b.index {
      var idx := b.index[ref];
      IndexedAt(b, ref);
      var k := Min(amount, b.slots[idx].remaining);
      var b1 := Charged(b, idx, k);
      ChargedSafe(b, idx, k);
      ChargedLedger(b, idx, k);
      ChargedSlot(b, idx, k);
      IndexInPool(b1);
      if b.slots[idx].remaining == k {
        IndexedAt(b1, ref);
        DroppedSafe(b1, idx);
        DroppedLedger(b1, idx);
        ReAndOut(LedgerOf(b), ref, EntryOf(b.slots[idx]).(remaining := 0));
      }
    }
  }

  lemma ReAndOut(l: Ledger, ref: nat, e: Entry)
    ensures l[ref := e] - {ref} == l - {ref}
  {
  }

  lemma RemovedLedger(b: Book, ref: nat)
    requires Safe(b) && (ref in b.index ==> b.index[ref] < |b.slots| && InRange(b.slots[b.index[ref]], |b.slots|))
    ensures Safe(Removed(b, ref)) && LedgerOf(Removed(b, ref)) == LedgerOf(b) - {ref}
  {
    if ref in b.index {
      assert Indexed(b, b.index[ref]);
      DroppedSafe(b, b.index[ref]);
      DroppedLedger(b, b.index[ref]);
    } else {
      assert LedgerOf(b) - {ref} == LedgerOf(b);
    }
  }

  // ---- the pool ----

  /** The free stack of the slot pool, used by one thread (the concurrent stack is in OrderPool). */
  class SlotPool {
    const slots: array<OrderSlot>
    const nextFree: array<nat>
    var first: nat
    var used: nat
    ghost var free: seq<nat>

    function At(ns: seq<nat>, i: nat): nat {
      if i < |ns| then ns[i] else NIL
    }

    ghost predicate Linked(i: nat)
      requires i < |free|
      reads this, nextFree
    {
      free[i] < nextFree.Length && nextFree[free[i]] == At(free, i + 1)
    }

    ghost predicate Valid()
      reads this, nextFree
    {
      && slots.Length == nextFree.Length < NIL
      && first == At(free, 0)
      && (forall i :: 0 <= i < |free| ==> Linked(i))
      && Distinct(free)
      && used + |free| == slots.Length
    }

    constructor (capacity: nat)
      requires 0 < capacity < NIL
      ensures Valid() && fresh(slots) && fresh(nextFree) && slots.Length == capacity
      ensures free == seq(capacity, i => i) && used == 0
    {
      slots := new OrderSlot[capacity](_ => OrderSlot(0, NONE, 0, 0, 0, 0, NIL, NIL));
      nextFree := new nat[capacity]((i: nat) => if i + 1 < capacity then i + 1 else NIL);
      first, used := 0, 0;
      free := seq(capacity, i => i);
    }

    /** Take the first free slot; NIL if there is none. */
    method Allocate() returns (idx: nat)
      requires Valid()
      modifies this`first, this`used, this`free
      ensures Valid()
      ensures if old(free) == [] then idx == NIL && free == [] && used == old(used)
              else idx == old(free)[0] < slots.Length && free == old(free)[1..] && used == old(used) + 1
    {
      idx := first;
      if idx != NIL {
        assert free != [] && Linked(0);
        ghost var was := free;
        first, used, free := nextFree[idx], used + 1, free[1..];
        forall i | 0 <= i < |free| ensures Linked(i) {
          assert free[i] == was[i + 1];
          assert old(Linked(i + 1));
        }
      } else {
        assert free != [] ==> Linked(0);
      }
    }

    method Deallocate(idx: nat)
      requires Valid() && idx < slots.Length && idx !in free && used > 0
      modifies this`first, this`used, this`free, nextFree
      ensures Valid() && free == [idx] + old(free) && used == old(used) - 1
    {
      ghost var was := free;
      nextFree[idx] := first;
      first, used, free := idx, used - 1, [idx] + free;
      forall i | 0 <= i < |free| ensures Linked(i) {
        if i > 0 {
          assert free[i] == was[i - 1];
          assert old(Linked(i - 1));
        }
      }
    }
  }

  // ---- the object ----

  class OrderBook {
    const pool: SlotPool
    const index: OrderMap.OrderMap
    const bids: PriceLevelTable
    const asks: PriceLevelTable

    ghost function State(): Book
      reads pool, pool.slots, index, bids, asks
    {
      Book(pool.slots[..], pool.free, index.view.contents, bids.levels, asks.levels)
    }

    ghost predicate Valid()
      reads pool, pool.slots, pool.nextFree, index, index.nodes, index.buckets, index.lens, index.states,
            bids, bids.slots, asks, asks.slots
    {
      && bids != asks && bids.slots != asks.slots && bids.isBid && !asks.isBid
      && pool.nextFree != index.buckets && pool.nextFree != index.lens && pool.nextFree != index.states
      && pool.Valid() && index.Valid() && bids.Valid() && asks.Valid()
      && Safe(State())
    }

    constructor (p: SlotPool, ix: OrderMap.OrderMap)
      requires p.Valid() && ix.Valid() && p.free == seq(p.slots.Length, i => i) && ix.view.contents == map[]
      requires p.nextFree != ix.buckets && p.nextFree != ix.lens && p.nextFree != ix.states
      ensures Valid() && pool == p && index == ix && fresh(bids) && fresh(asks)
      ensures LedgerOf(State()) == map[]
    {
      pool, index := p, ix;
      bids := new PriceLevelTable(true);
      asks := new PriceLevelTable(false);
      new;
      forall i | 0 <= i < |State().slots| ensures i in State().free <==> !Indexed(State(), i) {
        assert State().free[i] == i;
      }
    }

    /** Write slot idx and push it in front of its level: the part of add between pool and index. */
    method PushLevel(t: PriceLevelTable, slot: OrderSlot, idx: nat)
      requires t.Valid() && IsPrice(slot.price) && idx < pool.slots.Length < NIL
      requires HeadsInRange(t.levels, pool.slots.Length)
      modifies t, t.slots, pool.slots
      ensures t.Valid() && (t.slots == old(t.slots) || fresh(t.slots))
      ensures var lvl := LevelAt(old(t.levels), slot.price);
        && (lvl.head == NIL || lvl.head < pool.slots.Length)
        && t.levels == old(t.levels)[slot.price := PushedLevel(lvl, idx, slot.shares)]
        && pool.slots[..] == PushedSlots(old(pool.slots[..])[idx := slot], lvl.head, idx)
    {
      hide PriceLevelTable.Valid, HeadsInRange;
      HeadInRange(t.levels, slot.price, pool.slots.Length);
      pool.slots[idx] := slot;
      assert pool.slots[..] == old(pool.slots[..])[idx := slot];
      var at := t.GetOrInsert(slot.price);
      var lvl := t.slots[at].lvl;
      if lvl.head != NIL {
        pool.slots[lvl.head] := pool.slots[lvl.head].(prev := idx);
        pool.slots[idx] := pool.slots[idx].(next := lvl.head);
      }
      t.Store(at, Level(idx, if lvl.tail == NIL then idx else lvl.tail, (lvl.count + 1) % WORD32, (lvl.total + slot.shares) % WORD32));
    }

    /** Take the order at idx out of its level: the level part of unlink_and_free. */
    method UnlinkLevel(t: PriceLevelTable, idx: nat)
      requires t.Valid() && idx < pool.slots.Length && InRange(pool.slots[idx], pool.slots.Length)
      requires IsPrice(pool.slots[idx].price)
      modifies t, t.slots, pool.slots
      ensures t.Valid() && (t.slots == old(t.slots) || fresh(t.slots))
      ensures t.levels == UnlinkedLevels(old(t.levels), old(pool.slots[idx]))
      ensures pool.slots[..] == UnlinkedSlots(old(pool.slots[..]), idx)
    {
      hide InRange, PriceLevelTable.Valid;
      var s := pool.slots[idx];
      var at := t.GetOrInsert(s.price);
      var lvl := t.slots[at].lvl;
      lvl := lvl.(head := if s.prev == NIL then s.next else lvl.head, tail := if s.next == NIL then s.prev else lvl.tail);
      lvl := lvl.(count := Sub32(lvl.count, 1), total := Sub32(lvl.total, s.shares % WORD32));
      UnlinkSlots(idx);
      t.Store(at, lvl);
      if lvl.count == 0 { t.Erase(s.price); }
    }

    /** Close the gap between the list neighbours of the order at idx. */
    method UnlinkSlots(idx: nat)
      requires idx < pool.slots.Length && InRange(pool.slots[idx], pool.slots.Length)
      modifies pool.slots
      ensures pool.slots[..] == UnlinkedSlots(old(pool.slots[..]), idx)
    {
      var prev := pool.slots[idx].prev;
      if prev != NIL {
        pool.slots[prev] := pool.slots[prev].(next := pool.slots[idx].next);
      }
      assert pool.slots[..] == CutBefore(old(pool.slots[..]), idx);
      var next := pool.slots[idx].next;
      if next != NIL {
        pool.slots[next] := pool.slots[next].(prev := pool.slots[idx].prev);
      }
    }

    /** dec_level_qty. */
    method DecLevel(t: PriceLevelTable, price: int, k: nat)
      requires t.Valid() && IsPrice(price)
      modifies t, t.slots
      ensures t.Valid() && (t.slots == old(t.slots) || fresh(t.slots))
      ensures t.levels == ReducedLevels(old(t.levels), price, k)
    {
      var at := t.GetOrInsert(price);
      var lvl := t.slots[at].lvl;
      lvl := lvl.(total := Sub32(lvl.total, k % WORD32));
      t.Store(at, lvl);
      if lvl.total == 0 { t.Erase(price); }
    }

    /** Add an order (A/F): the slot taken, or NIL when the pool is exhausted. */
    method Add(ref: nat, side: Side, price: int, shares: nat, seqNo: nat) returns (idx: nat)
      requires Valid() && IsPrice(price) && ref !in index.view.contents && index.freeFirst != OrderMap.NIL
      modifies pool, pool.slots, index, index.nodes, index.buckets, index.lens, index.states
      modifies bids, bids.slots, asks, asks.slots
      ensures Valid() && TablesFresh(old(bids.slots), old(asks.slots))
      ensures var h := LevelAt(SideOf(old(State()), side), price).head; h == NIL || h < pool.slots.Length
      ensures State() == Added(old(State()), ref, side, price, shares, seqNo)
      ensures idx == if old(pool.free) == [] then NIL else old(pool.free)[0]
      ensures var was := LedgerOf(old(State()));
        LedgerOf(State()) == if |was| < pool.slots.Length then was[ref := Entry(side, price, shares, shares, seqNo)] else was
    {
      hide LedgerOf, Safe, PriceLevelTable.Valid, OrderMap.OrderMap.Valid, SlotPool.Valid, PushedSlots, PushedLevel, HeadsInRange;
      ghost var b := State();
      SafeHeads(b);
      IndexInPool(b);
      AddedSafe(b, ref, side, price, shares, seqNo);
      AddedLedger(b, ref, side, price, shares, seqNo);
      idx := pool.Allocate();
      if idx == NIL { return; }
      var slot := NewSlot(ref, side, price, shares, seqNo);
      if side == BUY {
        PushLevel(bids, slot, idx);
      } else {
        PushLevel(asks, slot, idx);
      }
      index.Insert(ref, idx);
    }

    /** unlink_and_free: the order at idx leaves its level and the pool; the index entry goes with it. */
    method Drop(idx: nat, ref: nat)
      requires Valid() && Indexed(State(), idx) && pool.slots[idx].ref == ref && InRange(pool.slots[idx], pool.slots.Length)
      modifies pool, pool.slots, pool.nextFree, index, index.nodes, index.buckets, index.lens, index.states
      modifies bids, bids.slots, asks, asks.slots
      ensures Valid() && TablesFresh(old(bids.slots), old(asks.slots))
      ensures State() == Dropped(old(State()), idx)
      ensures old(index.freeFirst) != OrderMap.NIL ==> index.freeFirst != OrderMap.NIL
    {
      hide Safe, PriceLevelTable.Valid, OrderMap.OrderMap.Valid, UnlinkedSlots, UnlinkedLevels, HeadsInRange;
      ghost var b := State();
      DroppedSafe(b, idx);
      PoolBusy(b, idx);
      if pool.slots[idx].side == BUY {
        UnlinkLevel(bids, idx);
      } else {
        UnlinkLevel(asks, idx);
      }
      pool.Deallocate(idx);
      index.Erase(ref);
    }

    /** Full cancellation (D). */
    method Remove(ref: nat) returns (ok: bool)
      requires Valid()
      modifies pool, pool.slots, pool.nextFree, index, index.nodes, index.buckets, index.lens, index.states
      modifies bids, bids.slots, asks, asks.slots
      ensures Valid() && TablesFresh(old(bids.slots), old(asks.slots))
      ensures RefInRange(old(State()), ref) && State() == Removed(old(State()), ref)
      ensures ok == (ref in old(index.view.contents))
      ensures LedgerOf(State()) == LedgerOf(old(State())) - {ref}
      ensures old(index.freeFirst) != OrderMap.NIL ==> index.freeFirst != OrderMap.NIL
    {
      hide LedgerOf, Safe, PriceLevelTable.Valid, OrderMap.OrderMap.Valid, SlotPool.Valid, Dropped, HeadsInRange;
      RefsInRange(State(), ref);
      RemovedLedger(State(), ref);
      var found := index.Find(ref);
      if found.None? { return false; }
      Drop(found.value, ref);
      return true;
    }

    /** Partial cancellation (X) and execution (E/P) reduce an order alike. */
    method Reduce(ref: nat, amount: nat) returns (ok: bool)
      requires Valid()
      modifies pool, pool.slots, pool.nextFree, index, index.nodes, index.buckets, index.lens, index.states
      modifies bids, bids.slots, asks, asks.slots
      ensures Valid() && TablesFresh(old(bids.slots), old(asks.slots))
      ensures RefInRange(old(State()), ref) && State() == Reduced(old(State()), ref, amount)
      ensures ok == (ref in old(index.view.contents))
    {
      hide Safe, PriceLevelTable.Valid, OrderMap.OrderMap.Valid, SlotPool.Valid, Dropped, ReducedLevels, HeadsInRange;
      ghost var b := State();
      RefsInRange(b, ref);
      var found := index.Find(ref);
      if found.None? { return false; }
      var idx := found.value;
      var s := pool.slots[idx];
      var k := Min(amount, s.remaining);
      ChargedSafe(b, idx, k);
      pool.slots[idx] := s.(remaining := s.remaining - k);
      if s.side == BUY {
        DecLevel(bids, s.price, k);
      } else {
        DecLevel(asks, s.price, k);
      }
      assert State() == Charged(b, idx, k);
      if pool.slots[idx].remaining == 0 {
        Drop(idx, ref);
      }
      return true;
    }

    method Cancel(ref: nat, cancelledShares: nat) returns (ok: bool)
      requires Valid()
      modifies pool, pool.slots, pool.nextFree, index, index.nodes, index.buckets, index.lens, index.states
      modifies bids, bids.slots, asks, asks.slots
      ensures Valid() && TablesFresh(old(bids.slots), old(asks.slots))
      ensures var was := LedgerOf(old(State()));
        LedgerOf(State()) ==
          if ref !in was then was
          else if cancelledShares < was[ref].remaining then was[ref := was[ref].(remaining := was[ref].remaining - cancelledShares)]
          else was - {ref}
      ensures State() == Step(old(State()), DoReduce(ref, cancelledShares))
      ensures ok == (ref in old(index.view.contents))
    {
      hide Safe, PriceLevelTable.Valid, OrderMap.OrderMap.Valid, SlotPool.Valid, LedgerOf, Reduced;
      RefsInRange(State(), ref);
      ReducedLedger(State(), ref, cancelledShares);
      ok := Reduce(ref, cancelledShares);
    }

    method Execute(ref: nat, executedShares: nat) returns (ok: bool)
      requires Valid()
      modifies pool, pool.slots, pool.nextFree, index, index.nodes, index.buckets, index.lens, index.states
      modifies bids, bids.slots, asks, asks.slots
      ensures Valid() && TablesFresh(old(bids.slots), old(asks.slots))
      ensures var was := LedgerOf(old(State()));
        LedgerOf(State()) ==
          if ref !in was then was
          else if executedShares < was[ref].remaining then was[ref := was[ref].(remaining := was[ref].remaining - executedShares)]
          else was - {ref}
      ensures State() == Step(old(State()), DoReduce(ref, executedShares))
      ensures ok == (ref in old(index.view.contents))
    {
      hide Safe, PriceLevelTable.Valid, OrderMap.OrderMap.Valid, SlotPool.Valid, LedgerOf, Reduced;
      RefsInRange(State(), ref);
      ReducedLedger(State(), ref, executedShares);
      ok := Reduce(ref, executedShares);
    }

    /** Replacement (U): the old reference goes, the new one rests with new price and size. */
    method Replace(oldRef: nat, newRef: nat, side: Side, newPrice: int, newShares: nat, newSeq: nat) returns (ok: bool)
      requires Valid() && IsPrice(newPrice) && index.freeFirst != OrderMap.NIL
      requires newRef == oldRef || newRef !in index.view.contents
      modifies pool, pool.slots, pool.nextFree, index, index.nodes, index.buckets, index.lens, index.states
      modifies bids, bids.slots, asks, asks.slots
      ensures Valid() && TablesFresh(old(bids.slots), old(asks.slots))
      ensures var was := LedgerOf(old(State()));
        LedgerOf(State()) ==
          if oldRef !in was then was
          else (was - {oldRef})[newRef := Entry(side, newPrice, newShares, newShares, if newSeq == 0 then was[oldRef].seqNo else newSeq)]
      ensures State() == Step(old(State()), DoReplace(oldRef, newRef, side, newPrice, newShares, newSeq))
      ensures ok == (oldRef in old(index.view.contents))
    {
      hide Safe, PriceLevelTable.Valid, OrderMap.OrderMap.Valid, SlotPool.Valid, LedgerOf, Removed, Added, Step, LevelAt, SideOf;
      ghost var b := State();
      RefsInRange(b, oldRef);
      ReplaceIsStep(b, oldRef, newRef, side, newPrice, newShares, newSeq);
      RemovedLedger(b, oldRef);
      LedgerAt(b, oldRef);
      var found := index.Find(oldRef);
      if found.None? { return false; }
      var seqNo := if newSeq != 0 then newSeq else pool.slots[found.value].seqNo;
      var removed := Remove(oldRef);
      ghost var b1 := State();
      LedgerAt(b, newRef);
      LedgerAt(b1, newRef);
      SafeHeads(b1);
      AddedLedger(b1, newRef, side, newPrice, newShares, seqNo);
      LedgerSize(b);
      LedgerSize(b1);
      ReplaceRoom(b, oldRef);
      var idx := Add(newRef, side, newPrice, newShares, seqNo);
      return idx != NIL;
    }

    /** Pool usage and index size both count the resting orders. */
    lemma UsageIsLive()
      requires Valid()
      ensures LedgerOf(State()).Keys == index.view.contents.Keys
      ensures pool.used == index.size == |LedgerOf(State())|
    {
      hide HeadsInRange, InRange, PriceLevelTable.Valid;
      LedgerSize(State());
    }

    /** What the outside sees of an order. */
    method Get(ref: nat) returns (r: Option<Entry>)
      requires Valid()
      ensures r == if ref in LedgerOf(State()) then Some(LedgerOf(State())[ref]) else None
    {
      hide PriceLevelTable.Valid, OrderMap.OrderMap.Valid, SlotPool.Valid, HeadsInRange, InRange;
      var found := index.Find(ref);
      if found.None? { return None; }
      return Some(EntryOf(pool.slots[found.value]));
    }

    twostate predicate TablesFresh(new was1: array<PriceLevels.Slot>, new was2: array<PriceLevels.Slot>)
      reads bids, asks
    {
      && (bids.slots == was1 || fresh(bids.slots))
      && (asks.slots == was2 || fresh(asks.slots))
    }
  }

  lemma SafeHeads(b: Book)
    requires Safe(b)
    ensures |b.slots| < NIL && HeadsInRange(b.bids, |b.slots|) && HeadsInRange(b.asks, |b.slots|)
    ensures b.free != [] ==> b.free[0] < |b.slots|
    ensures forall p :: (var h := LevelAt(b.bids, p).head; h == NIL || h < |b.slots|)
    ensures forall p :: (var h := LevelAt(b.asks, p).head; h == NIL || h < |b.slots|)
  {
  }

  predicate RefInRange(b: Book, ref: nat) {
    ref in b.index ==> b.index[ref] < |b.slots| && InRange(b.slots[b.index[ref]], |b.slots|)
  }

  lemma RefsInRange(b: Book, ref: nat)
    requires Safe(b)
    ensures RefInRange(b, ref)
    ensures ref in b.index ==> Indexed(b, b.index[ref]) && b.slots[b.index[ref]].ref == ref
    ensures forall r :: r in b.index ==> b.index[r] < |b.slots|
  {
    if ref in b.index { IndexedAt(b, ref); }
  }

  lemma PoolBusy(b: Book, idx: nat)
    requires Safe(b) && Indexed(b, idx)
    ensures idx !in b.free && |b.free| < |b.slots|
  {
    assert |b.index| > 0;
  }

  lemma LedgerAt(b: Book, ref: nat)
    requires Safe(b)
    ensures forall r :: r in b.index ==> b.index[r] < |b.slots|
    ensures ref in LedgerOf(b) <==> ref in b.index
    ensures ref in b.index ==> LedgerOf(b)[ref] == EntryOf(b.slots[b.index[ref]])
  {
  }

  /** Removing an order leaves room for another. */
  lemma ReplaceRoom(b: Book, ref: nat)
    requires Safe(b) && ref in b.index && RefInRange(b, ref)
    ensures Safe(Removed(b, ref)) && |Removed(b, ref).index| < |b.slots| == |Removed(b, ref).slots|
    ensures |Removed(b, ref).free| > 0
  {
    RemovedLedger(b, ref);
    assert Removed(b, ref).free != [];
  }

  /** replace keeps the old sequence number when none is given. */
  function LedgerReplace(l: Ledger, oldRef: nat, newRef: nat, side: Side, price: int, shares: nat, seqNo: nat): Ledger {
    if oldRef !in l then l
    else (l - {oldRef})[newRef := Entry(side, price, shares, shares, if seqNo != 0 then seqNo else l[oldRef].seqNo)]
  }

  // ---- runs ----

  datatype Op =
    | DoAdd(ref: nat, side: Side, price: int, shares: nat, seqNo: nat)
    | DoReduce(ref: nat, amount: nat)     // cancel or execute
    | DoRemove(ref: nat)
    | DoReplace(ref: nat, newRef: nat, side: Side, price: int, shares: nat, seqNo: nat)

  /** References are fresh and prices are prices. */
  predicate Allowed(l: Ledger, op: Op) {
    match op
    case DoAdd(ref, _, price, _, _) => IsPrice(price) && ref !in l
    case DoReplace(ref, newRef, _, price, _, _) => IsPrice(price) && (newRef == ref || newRef !in l)
    case _ => true
  }

  function LedgerStep(l: Ledger, capacity: nat, op: Op): Ledger {
    match op
    case DoAdd(ref, side, price, shares, seqNo) => LedgerAdd(l, capacity, ref, Entry(side, price, shares, shares, seqNo))
    case DoReduce(ref, amount) => LedgerReduce(l, ref, amount)
    case DoRemove(ref) => l - {ref}
    case DoReplace(ref, newRef, side, price, shares, seqNo) => LedgerReplace(l, ref, newRef, side, price, shares, seqNo)
  }

  function LedgerRun(l: Ledger, capacity: nat, ops: seq<Op>): Ledger
    decreases |ops|
  {
    if ops == [] then l else LedgerRun(LedgerStep(l, capacity, ops[0]), capacity, ops[1..])
  }

  predicate AllAllowed(l: Ledger, capacity: nat, ops: seq<Op>)
    decreases |ops|
  {
    ops == [] || (Allowed(l, ops[0]) && AllAllowed(LedgerStep(l, capacity, ops[0]), capacity, ops[1..]))
  }

  /** A link that leaves the pool would be undefined behaviour; the guard never fires (see StepLedger). */
  function AddGuarded(b: Book, ref: nat, side: Side, price: int, shares: nat, seqNo: nat): Book {
    var h := LevelAt(SideOf(b, side), price).head;
    if (b.free == [] || b.free[0] < |b.slots|) && (h == NIL || h < |b.slots|)
    then Added(b, ref, side, price, shares, seqNo) else b
  }

  function Step(b: Book, op: Op): Book {
    match op
    case DoAdd(ref, side, price, shares, seqNo) => AddGuarded(b, ref, side, price, shares, seqNo)
    case DoReduce(ref, amount) => if RefInRange(b, ref) then Reduced(b, ref, amount) else b
    case DoRemove(ref) => if RefInRange(b, ref) then Removed(b, ref) else b
    case DoReplace(ref, newRef, side, price, shares, seqNo) =>
      if ref in b.index && RefInRange(b, ref) then
        AddGuarded(Removed(b, ref), newRef, side, price, shares, if seqNo != 0 then seqNo else b.slots[b.index[ref]].seqNo)
      else b
  }

  function Run(b: Book, ops: seq<Op>): Book
    decreases |ops|
  {
    if ops == [] then b else Run(Step(b, ops[0]), ops[1..])
  }

  lemma ReplaceIsStep(b: Book, ref: nat, newRef: nat, side: Side, price: int, shares: nat, seqNo: nat)
    requires Safe(b) && RefInRange(b, ref)
    ensures ref !in b.index ==> Step(b, DoReplace(ref, newRef, side, price, shares, seqNo)) == b
    ensures ref in b.index ==>
      var b1, no := Removed(b, ref), if seqNo != 0 then seqNo else b.slots[b.index[ref]].seqNo;
      var h := LevelAt(SideOf(b1, side), price).head;
      && b1.free != [] && b1.free[0] < |b1.slots| && (h == NIL || h < |b1.slots|)
      && Step(b, DoReplace(ref, newRef, side, price, shares, seqNo)) == Added(b1, newRef, side, price, shares, no)
  {
    hide LedgerOf, Added;
    if ref in b.index {
      ReplaceRoom(b, ref);
      SafeHeads(Removed(b, ref));
    }
  }

  lemma AddGuardedLedger(b: Book, ref: nat, side: Side, price: int, shares: nat, seqNo: nat)
    requires Safe(b) && IsPrice(price) && ref !in b.index
    ensures var b' := AddGuarded(b, ref, side, price, shares, seqNo);
      && Safe(b') && |b'.slots| == |b.slots|
      && (forall r :: r in b.index ==> b.index[r] < |b.slots|)
      && (forall r :: r in b'.index ==> b'.index[r] < |b'.slots|)
      && LedgerOf(b') == LedgerAdd(LedgerOf(b), |b.slots|, ref, Entry(side, price, shares, shares, seqNo))
  {
    hide Safe, LedgerOf, HeadsInRange;
    SafeHeads(b);
    IndexInPool(b);
    AddedSafe(b, ref, side, price, shares, seqNo);
    AddedLedger(b, ref, side, price, shares, seqNo);
  }

  lemma StepLedger(b: Book, op: Op)
    requires Safe(b) && (forall r :: r in b.index ==> b.index[r] < |b.slots|) && Allowed(LedgerOf(b), op)
    ensures var b' := Step(b, op);
      && Safe(b') && |b'.slots| == |b.slots|
      && (forall r :: r in b'.index ==> b'.index[r] < |b'.slots|)
      && LedgerOf(b') == LedgerStep(LedgerOf(b), |b.slots|, op)
  {
    hide Safe, LedgerOf, HeadsInRange, Added, Dropped, Charged, InRange, AddGuarded, Reduced, Removed;
    match op
    case DoAdd(ref, side, price, shares, seqNo) =>
      LedgerAt(b, ref);
      AddGuardedLedger(b, ref, side, price, shares, seqNo);
    case DoReduce(ref, amount) =>
      RefsInRange(b, ref);
      ReducedLedger(b, ref, amount);
      SameCapacity(b, ref, amount);
    case DoRemove(ref) =>
      RefsInRange(b, ref);
      RemovedLedger(b, ref);
      SameCapacity(b, ref, 0);
      IndexInPool(Removed(b, ref));
    case DoReplace(ref, newRef, side, price, shares, seqNo) =>
      RefsInRange(b, ref);
      RemovedLedger(b, ref);
      LedgerAt(b, ref);
      LedgerAt(b, newRef);
      SameCapacity(b, ref, 0);
      if ref in b.index {
        var b1 := Removed(b, ref);
        ReplaceRoom(b, ref);
        LedgerAt(b1, newRef);
        LedgerSize(b1);
        AddGuardedLedger(b1, newRef, side, price, shares, if seqNo != 0 then seqNo else b.slots[b.index[ref]].seqNo);
      }
  }

  lemma SameCapacity(b: Book, ref: nat, amount: nat)
    requires RefInRange(b, ref)
    ensures |Removed(b, ref).slots| == |b.slots| == |Reduced(b, ref, amount).slots|
  {
  }

  /**
   * Over every run with fresh references the book shows exactly the ledger of resting
   * orders, and the pool is in use for exactly those orders.
   */
  lemma {:induction false} RunIsLedger(b: Book, ops: seq<Op>)
    requires Safe(b) && (forall r :: r in b.index ==> b.index[r] < |b.slots|)
    requires AllAllowed(LedgerOf(b), |b.slots|, ops)
    ensures var b' := Run(b, ops);
      && Safe(b') && |b'.slots| == |b.slots|
      && (forall r :: r in b'.index ==> b'.index[r] < |b'.slots|)
      && LedgerOf(b') == LedgerRun(LedgerOf(b), |b.slots|, ops)
      && |b'.slots| - |b'.free| == |LedgerOf(b')|
    decreases |ops|
  {
    hide LedgerOf, Step, LedgerStep, Allowed, HeadsInRange;
    if ops == [] {
      LedgerSize(b);
    } else {
      StepLedger(b, ops[0]);
      RunIsLedger(Step(b, ops[0]), ops[1..]);
    }
  }
}
