/**
 * The intrusive lists of a book's price levels: when a level is exact, and what adding,
 * dropping and charging one order does to its links, its members, its count and total.
 */
module LevelLists {
  import OrderMap
  import OrderPool
  import opened PriceLevels
  import opened OrderBook

  datatype Key = Key(bid: bool, price: int)

  function KeyOf(s: OrderSlot): Key {
    Key(s.side == BUY, s.price)
  }

  function LevelsOf(b: Book, bid: bool): map<int, Level> {
    if bid then b.bids else b.asks
  }

  // ---- counting by slot ----

  /** What slot i contributes to the total of level key. */
  function Share(b: Book, key: Key, i: nat): nat
    requires i < |b.slots|
  {
    if Indexed(b, i) && KeyOf(b.slots[i]) == key then b.slots[i].remaining else 0
  }

  /** Summed remaining quantity of the resting orders of level key among the first n slots. */
  function TotalAt(b: Book, key: Key, n: nat): nat
    requires n <= |b.slots|
  {
    if n == 0 then 0 else TotalAt(b, key, n - 1) + Share(b, key, n - 1)
  }

  function Total(b: Book, key: Key): nat {
    TotalAt(b, key, |b.slots|)
  }

  /** The total changes by what one slot's contribution changes. */
  lemma {:induction false} TotalChange(b: Book, b': Book, key: Key, idx: nat, n: nat)
    requires n <= |b.slots| == |b'.slots| && idx < |b.slots|
    requires forall i :: 0 <= i < |b.slots| && i != idx ==> Share(b', key, i) == Share(b, key, i)
    ensures TotalAt(b', key, n) - TotalAt(b, key, n) == if idx < n then Share(b', key, idx) - Share(b, key, idx) else 0
  {
    hide Share;
    if n > 0 {
      TotalChange(b, b', key, idx, n - 1);
    }
  }

  lemma {:induction false} ShareWithin(b: Book, key: Key, i: nat, n: nat)
    requires i < n <= |b.slots|
    ensures TotalAt(b, key, n) >= Share(b, key, i)
  {
    hide Share;
    if i < n - 1 {
      ShareWithin(b, key, i, n - 1);
    }
  }

  lemma {:induction false} TwoShares(b: Book, key: Key, i: nat, j: nat, n: nat)
    requires i < n <= |b.slots| && j < n && i != j
    ensures TotalAt(b, key, n) >= Share(b, key, i) + Share(b, key, j)
  {
    hide Share;
    if i == n - 1 {
      ShareWithin(b, key, j, n - 1);
    } else if j == n - 1 {
      ShareWithin(b, key, i, n - 1);
    } else {
      TwoShares(b, key, i, j, n - 1);
    }
  }

  // ---- one list ----

  function At(ns: seq<nat>, i: nat): nat {
    if i < |ns| then ns[i] else NIL
  }

  function Before(ns: seq<nat>, i: nat): nat {
    if 0 < i <= |ns| then ns[i - 1] else NIL
  }

  /** Position i is linked to its neighbours in both directions. */
  predicate Joined(slots: seq<OrderSlot>, ns: seq<nat>, i: nat)
    requires i < |ns|
  {
    ns[i] < |slots| && slots[ns[i]].next == At(ns, i + 1) && slots[ns[i]].prev == Before(ns, i)
  }

  ghost predicate Linked(slots: seq<OrderSlot>, ns: seq<nat>) {
    forall i :: 0 <= i < |ns| ==> Joined(slots, ns, i)
  }

  predicate Rests(b: Book, key: Key, n: nat) {
    Indexed(b, n) && KeyOf(b.slots[n]) == key
  }

  /** ns lists each resting order of level key once. */
  ghost predicate Lists(b: Book, key: Key, ns: seq<nat>) {
    && Distinct(ns)
    && (forall i :: 0 <= i < |ns| ==> Rests(b, key, ns[i]))
    && (forall n :: 0 <= n < |b.slots| && Rests(b, key, n) ==> n in ns)
  }

  /** The level of key: none if no order rests there, otherwise right in every field. */
  ghost predicate LevelOk(b: Book, key: Key, ns: seq<nat>) {
    && Linked(b.slots, ns) && Lists(b, key, ns)
    && var levels := LevelsOf(b, key.bid);
       if ns == [] then key.price !in levels
       else
         && key.price in levels
         && levels[key.price] == Level(ns[0], ns[|ns| - 1], |ns|, Total(b, key))
         && Total(b, key) < WORD32
  }

  /** Resting orders have something left and 32-bit sizes. */
  predicate SizesOk(b: Book) {
    forall i :: 0 <= i < |b.slots| && Indexed(b, i) ==> 0 < b.slots[i].remaining <= b.slots[i].shares < WORD32
  }

  /** Every level is exact. */
  ghost predicate Exact(b: Book) {
    SizesOk(b) && forall key :: LevelExact(b, key)
  }

  ghost predicate LevelExact(b: Book, key: Key) {
    exists ns :: LevelOk(b, key, ns)
  }

  // ---- what does not concern a level leaves it exact ----

  lemma {:induction false} TotalSame(b: Book, b': Book, key: Key, n: nat)
    requires n <= |b.slots| == |b'.slots|
    requires forall i :: 0 <= i < |b.slots| ==> Share(b', key, i) == Share(b, key, i)
    ensures TotalAt(b', key, n) == TotalAt(b, key, n)
  {
    hide Share;
    if n > 0 { TotalSame(b, b', key, n - 1); }
  }

  predicate SameSlot(a: OrderSlot, b: OrderSlot) {
    a.next == b.next && a.prev == b.prev && a.remaining == b.remaining
  }

  lemma OtherLevel(b: Book, b': Book, key: Key, ns: seq<nat>)
    requires LevelOk(b, key, ns) && |b'.slots| == |b.slots|
    requires forall n :: 0 <= n < |b.slots| ==> (Rests(b', key, n) <==> Rests(b, key, n))
    requires forall n :: 0 <= n < |b.slots| && Rests(b, key, n) ==> SameSlot(b'.slots[n], b.slots[n])
    requires key.price in LevelsOf(b', key.bid) <==> key.price in LevelsOf(b, key.bid)
    requires key.price in LevelsOf(b, key.bid) ==> LevelsOf(b', key.bid)[key.price] == LevelsOf(b, key.bid)[key.price]
    ensures LevelOk(b', key, ns)
  {
    hide Indexed, KeyOf, LevelsOf, Distinct;
    forall i | 0 <= i < |b.slots| ensures Share(b', key, i) == Share(b, key, i) {
      assert Rests(b', key, i) <==> Rests(b, key, i);
    }
    TotalSame(b, b', key, |b.slots|);
    InPool(b, key, ns);
    forall n | 0 <= n < |b'.slots| && Rests(b', key, n) ensures n in ns {
      assert Rests(b, key, n);
    }
    forall i | 0 <= i < |ns| ensures Rests(b', key, ns[i]) {
      assert Rests(b, key, ns[i]);
    }
    forall i | 0 <= i < |ns| ensures Joined(b'.slots, ns, i) {
      assert Joined(b.slots, ns, i) && Rests(b, key, ns[i]);
    }
  }

  lemma {:induction false} Elements(ns: seq<nat>) returns (all: set<nat>)
    requires Distinct(ns)
    ensures |all| == |ns| && forall n :: n in all <==> n in ns
  {
    if ns == [] {
      all := {};
    } else {
      var rest := Elements(ns[1..]);
      assert ns == [ns[0]] + ns[1..];
      assert ns[0] !in ns[1..];
      all := rest + {ns[0]};
    }
  }

  /** A list of distinct pool slots is no longer than the pool. */
  lemma ListBound(b: Book, key: Key, ns: seq<nat>)
    requires Lists(b, key, ns)
    ensures |ns| <= |b.slots|
  {
    var all := Elements(ns);
    var pool := OrderPool.Upto(|b.slots|);
    OrderPool.UptoSize(|b.slots|);
    forall n | n in all ensures n in pool {
      var i :| 0 <= i < |ns| && ns[i] == n;
      assert Rests(b, key, ns[i]);
    }
    OrderPool.Subset(all, pool);
  }

  // ---- add ----

  /** Where the order being added will rest. */
  function NewKey(side: Side, price: int): Key {
    Key(side == BUY, price)
  }

  lemma AddLinks(b: Book, ref: nat, side: Side, price: int, shares: nat, seqNo: nat, ns: seq<nat>)
    requires Safe(b) && b.free != [] && ref !in b.index && b.free[0] < |b.slots|
    requires LevelOk(b, NewKey(side, price), ns)
    requires var h := LevelAt(SideOf(b, side), price).head; h == NIL || h < |b.slots|
    ensures LevelAt(SideOf(b, side), price).head == At(ns, 0)
    ensures Linked(Added(b, ref, side, price, shares, seqNo).slots, [b.free[0]] + ns)
  {
    hide LinksOk, Distinct, PushedLevel;
    var idx, h, key := b.free[0], LevelAt(SideOf(b, side), price).head, NewKey(side, price);
    var b', all := Added(b, ref, side, price, shares, seqNo), [idx] + ns;
    assert idx in b.free && !Indexed(b, idx);
    if ns != [] { assert Rests(b, key, ns[0]); }
    forall i | 0 <= i < |all| ensures Joined(b'.slots, all, i) {
      if i > 0 {
        assert all[i] == ns[i - 1] && Joined(b.slots, ns, i - 1) && Rests(b, key, ns[i - 1]);
        if i > 1 { assert ns[i - 1] != ns[0] by { DistinctAt(ns, 0, i - 1); } }
      }
    }
  }

  lemma DistinctAt(ns: seq<nat>, i: nat, j: nat)
    requires Distinct(ns) && i < |ns| && j < |ns| && i != j
    ensures ns[i] != ns[j]
  {
  }

  /** Who rests where after an addition. */
  lemma AddRests(b: Book, ref: nat, side: Side, price: int, shares: nat, seqNo: nat, key: Key, n: nat)
    requires Safe(b) && b.free != [] && ref !in b.index && IsPrice(price) && b.free[0] < |b.slots| && n < |b.slots|
    requires var h := LevelAt(SideOf(b, side), price).head; h == NIL || h < |b.slots|
    ensures var b' := Added(b, ref, side, price, shares, seqNo);
      && (Rests(b', key, n) <==> if n == b.free[0] then key == NewKey(side, price) else Rests(b, key, n))
      && !Indexed(b, b.free[0])
      && (n != b.free[0] ==> b'.slots[n].remaining == b.slots[n].remaining && b'.slots[n].shares == b.slots[n].shares)
      && b'.slots[b.free[0]].remaining == b'.slots[b.free[0]].shares == shares
      && (Indexed(b', n) <==> n == b.free[0] || Indexed(b, n))
  {
    hide LinksOk, PushedLevel, PushedSlots, LevelAt;
    AddedSlots(b, ref, side, price, shares, seqNo);
    NotIndexed(b, b.free[0]);
  }

  lemma AddHere(b: Book, ref: nat, side: Side, price: int, shares: nat, seqNo: nat, ns: seq<nat>)
    requires Safe(b) && b.free != [] && ref !in b.index && IsPrice(price) && b.free[0] < |b.slots|
    requires LevelOk(b, NewKey(side, price), ns) && LevelAt(SideOf(b, side), price).total + shares < WORD32
    requires var h := LevelAt(SideOf(b, side), price).head; h == NIL || h < |b.slots|
    ensures LevelOk(Added(b, ref, side, price, shares, seqNo), NewKey(side, price), [b.free[0]] + ns)
  {
    hide FreeOk, IndexOk, LinksOk, Distinct, Indexed, PushedSlots, Linked;
    var key, idx, b' := NewKey(side, price), b.free[0], Added(b, ref, side, price, shares, seqNo);
    AddLinks(b, ref, side, price, shares, seqNo, ns);
    AddTotal(b, ref, side, price, shares, seqNo, key);
    AddLists(b, ref, side, price, shares, seqNo, ns);
    ListBound(b, key, ns);
    InPool(b, key, ns);
    EmptyTotal(b, key, ns);
  }

  lemma InPool(b: Book, key: Key, ns: seq<nat>)
    requires Lists(b, key, ns)
    ensures forall i :: 0 <= i < |ns| ==> ns[i] < |b.slots|
  {
    forall i | 0 <= i < |ns| ensures ns[i] < |b.slots| { assert Rests(b, key, ns[i]); }
  }

  /** A level nobody rests at totals 0. */
  lemma EmptyTotal(b: Book, key: Key, ns: seq<nat>)
    requires Lists(b, key, ns)
    ensures ns == [] ==> Total(b, key) == 0
  {
    if ns == [] { NoneRests(b, key, |b.slots|); }
  }

  lemma {:induction false} NoneRests(b: Book, key: Key, n: nat)
    requires n <= |b.slots| && forall i :: 0 <= i < |b.slots| ==> !Rests(b, key, i)
    ensures TotalAt(b, key, n) == 0
  {
    if n > 0 {
      assert !Rests(b, key, n - 1);
      NoneRests(b, key, n - 1);
    }
  }

  lemma AddTotal(b: Book, ref: nat, side: Side, price: int, shares: nat, seqNo: nat, key: Key)
    requires Safe(b) && b.free != [] && ref !in b.index && IsPrice(price) && b.free[0] < |b.slots|
    requires var h := LevelAt(SideOf(b, side), price).head; h == NIL || h < |b.slots|
    ensures Total(Added(b, ref, side, price, shares, seqNo), key) ==
      Total(b, key) + if key == NewKey(side, price) then shares else 0
  {
    hide Safe, LevelAt, PushedSlots, PushedLevel, Indexed;
    var b', idx := Added(b, ref, side, price, shares, seqNo), b.free[0];
    AddRests(b, ref, side, price, shares, seqNo, key, idx);
    AddSize(b, ref, side, price, shares, seqNo);
    forall i | 0 <= i < |b.slots| && i != idx ensures Share(b', key, i) == Share(b, key, i) {
      AddRests(b, ref, side, price, shares, seqNo, key, i);
      assert Rests(b', key, i) == Rests(b, key, i);
    }
    assert Rests(b', key, idx) == (key == NewKey(side, price)) && !Rests(b, key, idx);
    TotalChange(b, b', key, idx, |b.slots|);
  }

  lemma AddSize(b: Book, ref: nat, side: Side, price: int, shares: nat, seqNo: nat)
    requires b.free != [] && b.free[0] < |b.slots|
    requires var h := LevelAt(SideOf(b, side), price).head; h == NIL || h < |b.slots|
    ensures |Added(b, ref, side, price, shares, seqNo).slots| == |b.slots|
  {
  }

  lemma AddLists(b: Book, ref: nat, side: Side, price: int, shares: nat, seqNo: nat, ns: seq<nat>)
    requires Safe(b) && b.free != [] && ref !in b.index && IsPrice(price) && b.free[0] < |b.slots|
    requires Lists(b, NewKey(side, price), ns)
    requires var h := LevelAt(SideOf(b, side), price).head; h == NIL || h < |b.slots|
    ensures Lists(Added(b, ref, side, price, shares, seqNo), NewKey(side, price), [b.free[0]] + ns)
  {
    hide Safe, LevelAt, PushedSlots, PushedLevel;
    var key, idx, b' := NewKey(side, price), b.free[0], Added(b, ref, side, price, shares, seqNo);
    var all := [idx] + ns;
    AddSize(b, ref, side, price, shares, seqNo);
    AddRests(b, ref, side, price, shares, seqNo, key, idx);
    forall i | 0 <= i < |all| ensures Rests(b', key, all[i]) && (i > 0 ==> all[i] != idx) {
      if i > 0 {
        assert all[i] == ns[i - 1] && Rests(b, key, ns[i - 1]);
        AddRests(b, ref, side, price, shares, seqNo, key, ns[i - 1]);
      }
    }
    forall n | 0 <= n < |b'.slots| && Rests(b', key, n) ensures n in all {
      AddRests(b, ref, side, price, shares, seqNo, key, n);
      if n != idx { assert n in ns; }
    }
    assert Distinct(all);
  }

  // ---- drop ----

  /** How a drop at position p of its level changes the links. */
  lemma DropSlot(b: Book, ns: seq<nat>, p: nat, n: nat)
    requires Linked(b.slots, ns) && Distinct(ns) && p < |ns| && n < |b.slots| && ns[p] < |b.slots|
    requires InRange(b.slots[ns[p]], |b.slots|) && (forall i :: 0 <= i < |ns| ==> ns[i] < |b.slots| < NIL)
    ensures var s, s' := b.slots[n], UnlinkedSlots(b.slots, ns[p])[n];
      && s'.next == (if p > 0 && n == ns[p - 1] then At(ns, p + 1) else s.next)
      && s'.prev == (if p + 1 < |ns| && n == ns[p + 1] then Before(ns, p) else s.prev)
  {
    hide InRange;
    assert Joined(b.slots, ns, p);
    if p > 0 { DistinctAt(ns, p - 1, p); }
    if p + 1 < |ns| { DistinctAt(ns, p, p + 1); }
  }

  lemma DropLinks(b: Book, ns: seq<nat>, p: nat)
    requires Linked(b.slots, ns) && Distinct(ns) && p < |ns| && ns[p] < |b.slots|
    requires InRange(b.slots[ns[p]], |b.slots|) && (forall i :: 0 <= i < |ns| ==> ns[i] < |b.slots| < NIL)
    ensures Linked(UnlinkedSlots(b.slots, ns[p]), OrderMap.Without(ns, p))
  {
    hide InRange, UnlinkedSlots;
    var rest, slots' := OrderMap.Without(ns, p), UnlinkedSlots(b.slots, ns[p]);
    UnlinkSameOrders(b.slots, ns[p]);
    forall i | 0 <= i < |rest| ensures Joined(slots', rest, i) {
      var k := OrderMap.Skip(i, p);
      assert rest[i] == ns[k] && Joined(b.slots, ns, k);
      DropSlot(b, ns, p, ns[k]);
      if p > 0 && k != p - 1 { DistinctAt(ns, k, p - 1); }
      if p + 1 < |ns| && k != p + 1 { DistinctAt(ns, k, p + 1); }
    }
  }

  /** Who rests where after a drop. */
  lemma DropRests(b: Book, idx: nat, key: Key, n: nat)
    requires Safe(b) && Indexed(b, idx) && InRange(b.slots[idx], |b.slots|) && n < |b.slots|
    ensures var b' := Dropped(b, idx);
      && (Rests(b', key, n) <==> n != idx && Rests(b, key, n))
      && (Indexed(b', n) <==> n != idx && Indexed(b, n))
      && |b'.slots| == |b.slots| && EntryOf(b'.slots[n]) == EntryOf(b.slots[n])
  {
    hide LinksOk, FreeOk, InRange, UnlinkedSlots, UnlinkedLevels;
    UnlinkSameOrders(b.slots, idx);
  }

  lemma DropTotal(b: Book, idx: nat, key: Key)
    requires Safe(b) && Indexed(b, idx) && InRange(b.slots[idx], |b.slots|)
    ensures Total(Dropped(b, idx), key) == Total(b, key) - Share(b, key, idx)
  {
    hide Safe, InRange, Indexed, Dropped;
    IndexedInPool(b, idx);
    var b' := Dropped(b, idx);
    DropRests(b, idx, key, idx);
    forall i | 0 <= i < |b.slots| && i != idx ensures Share(b', key, i) == Share(b, key, i) {
      DropRests(b, idx, key, i);
      assert Rests(b', key, i) == Rests(b, key, i);
    }
    assert !Rests(b', key, idx);
    TotalChange(b, b', key, idx, |b.slots|);
  }

  lemma IndexedInPool(b: Book, idx: nat)
    requires Indexed(b, idx)
    ensures idx < |b.slots|
  {
  }

  lemma DropLists(b: Book, key: Key, ns: seq<nat>, p: nat)
    requires Safe(b) && Lists(b, key, ns) && p < |ns| && Indexed(b, ns[p]) && InRange(b.slots[ns[p]], |b.slots|)
    ensures Lists(Dropped(b, ns[p]), key, OrderMap.Without(ns, p))
  {
    hide Safe, InRange, Indexed, Dropped;
    InPool(b, key, ns);
    var idx, rest, b' := ns[p], OrderMap.Without(ns, p), Dropped(b, ns[p]);
    OrderMap.WithoutFacts(ns, p);
    forall i | 0 <= i < |rest| ensures Rests(b', key, rest[i]) {
      var k := OrderMap.Skip(i, p);
      assert rest[i] == ns[k] && Rests(b, key, ns[k]);
      DropRests(b, idx, key, ns[k]);
      DistinctAt(ns, k, p);
    }
    DropRests(b, idx, key, idx);
    forall n | 0 <= n < |b'.slots| && Rests(b', key, n) ensures n in rest {
      DropRests(b, idx, key, n);
      OrderMap.WithoutKeeps(ns, p, n);
    }
    forall i, j | 0 <= i < j < |rest| ensures rest[i] != rest[j] {
      assert rest[i] == ns[OrderMap.Skip(i, p)] && rest[j] == ns[OrderMap.Skip(j, p)];
      DistinctAt(ns, OrderMap.Skip(i, p), OrderMap.Skip(j, p));
    }
  }

  /** A drop leaves every other level exact. */
  lemma DropElsewhere(b: Book, key: Key, ns: seq<nat>, p: nat, other: Key, os: seq<nat>)
    requires Safe(b) && LevelOk(b, key, ns) && p < |ns| && LevelOk(b, other, os) && other != key
    requires Indexed(b, ns[p]) && InRange(b.slots[ns[p]], |b.slots|)
    ensures LevelOk(Dropped(b, ns[p]), other, os)
  {
    hide FreeOk, IndexOk, LinksOk, InRange, Indexed, UnlinkedSlots, UnlinkedLevels, TotalAt;
    InPool(b, key, ns);
    var idx, b' := ns[p], Dropped(b, ns[p]);
    assert Rests(b, key, idx);
    if p > 0 { assert Rests(b, key, ns[p - 1]); }
    if p + 1 < |ns| { assert Rests(b, key, ns[p + 1]); }
    DropRests(b, idx, other, idx);
    forall n | 0 <= n < |b.slots| ensures Rests(b', other, n) <==> Rests(b, other, n) {
      DropRests(b, idx, other, n);
    }
    forall n | 0 <= n < |b.slots| && Rests(b, other, n) ensures SameSlot(b'.slots[n], b.slots[n]) {
      DropRests(b, idx, other, n);
      DropSlot(b, ns, p, n);
    }
    DropOtherLevels(b, idx, other);
    OtherLevel(b, b', other, os);
  }

  lemma DropOtherLevels(b: Book, idx: nat, other: Key)
    requires idx < |b.slots| && InRange(b.slots[idx], |b.slots|) && other != KeyOf(b.slots[idx])
    ensures var l, l' := LevelsOf(b, other.bid), LevelsOf(Dropped(b, idx), other.bid);
      (other.price in l' <==> other.price in l) && (other.price in l ==> l'[other.price] == l[other.price])
  {
    hide InRange, UnlinkedSlots, UnlinkedLevel;
  }

  /** The level entry a drop leaves behind at the order's own level. */
  lemma DropEntry(b: Book, idx: nat)
    requires idx < |b.slots| && InRange(b.slots[idx], |b.slots|)
    ensures var s := b.slots[idx];
      var lvl, l' := UnlinkedLevel(LevelAt(SideOf(b, s.side), s.price), s), LevelsOf(Dropped(b, idx), s.side == BUY);
      (s.price in l' <==> lvl.count != 0) && (lvl.count != 0 ==> l'[s.price] == lvl)
  {
    hide InRange, UnlinkedSlots, UnlinkedLevel;
  }

  /**
   * Dropping an unreduced order, or the only order of its level, keeps its level
   * exact; dropping any other reduced order leaves a wrong total.
   */
  lemma DropHere(b: Book, key: Key, ns: seq<nat>, p: nat)
    requires Safe(b) && SizesOk(b) && LevelOk(b, key, ns) && p < |ns|
    requires Indexed(b, ns[p]) && InRange(b.slots[ns[p]], |b.slots|)
    ensures var s := b.slots[ns[p]];
      LevelExact(Dropped(b, ns[p]), key) <==> s.remaining == s.shares || |ns| == 1
  {
    hide FreeOk, IndexOk, LinksOk, InRange, UnlinkedSlots, UnlinkedLevel, UnlinkedLevels, Linked, Distinct, TotalAt;
    var idx, b', rest := ns[p], Dropped(b, ns[p]), OrderMap.Without(ns, p);
    var s := b.slots[idx];
    assert Rests(b, key, idx);
    InPool(b, key, ns);
    ListBound(b, key, ns);
    DropLinks(b, ns, p);
    DropLists(b, key, ns, p);
    DropTotal(b, idx, key);
    DropEntry(b, idx);
    DropRests(b, idx, key, idx);
    DropFields(b, key, ns, p);
    if s.remaining == s.shares || |ns| == 1 {
      assert LevelOk(b', key, rest);
    } else {
      OrderMap.WithoutFacts(ns, p);
      assert Rests(b', key, rest[0]);
      forall other ensures !LevelOk(b', key, other) {
        assert Lists(b', key, other) ==> rest[0] in other;
      }
    }
  }

  lemma DropFields(b: Book, key: Key, ns: seq<nat>, p: nat)
    requires LevelOk(b, key, ns) && p < |ns| && ns[p] < |b.slots| && |ns| <= |b.slots| < NIL
    requires 0 < b.slots[ns[p]].remaining <= b.slots[ns[p]].shares < WORD32 && Rests(b, key, ns[p])
    ensures var s, rest := b.slots[ns[p]], OrderMap.Without(ns, p);
      var lvl := UnlinkedLevel(LevelAt(SideOf(b, s.side), s.price), s);
      && Total(b, key) >= s.remaining
      && lvl.count == |rest|
      && (rest != [] ==> lvl.head == rest[0] && lvl.tail == rest[|rest| - 1])
      && (rest != [] ==> (lvl.total == Total(b, key) - s.remaining <==> s.remaining == s.shares))
  {
    hide TotalAt;
    assert Joined(b.slots, ns, p);
    ShareWithin(b, key, ns[p], |b.slots|);
  }

  // ---- reduce ----

  lemma ChargeRests(b: Book, idx: nat, k: nat, key: Key, n: nat)
    requires idx < |b.slots| && Indexed(b, idx) && k <= b.slots[idx].remaining && n < |b.slots|
    ensures var b' := Charged(b, idx, k);
      && |b'.slots| == |b.slots|
      && (Rests(b', key, n) <==> Rests(b, key, n)) && (Indexed(b', n) <==> Indexed(b, n))
      && b'.slots[n] == b.slots[n].(remaining := b.slots[n].remaining - if n == idx then k else 0)
  {
    hide ReducedLevels;
  }

  lemma ChargeTotal(b: Book, idx: nat, k: nat, key: Key)
    requires idx < |b.slots| && Indexed(b, idx) && k <= b.slots[idx].remaining
    ensures Total(Charged(b, idx, k), key) == Total(b, key) - if Rests(b, key, idx) then k else 0
  {
    hide Indexed, Charged;
    var b' := Charged(b, idx, k);
    ChargeRests(b, idx, k, key, idx);
    forall i | 0 <= i < |b.slots| && i != idx ensures Share(b', key, i) == Share(b, key, i) {
      ChargeRests(b, idx, k, key, i);
      assert Rests(b', key, i) == Rests(b, key, i);
    }
    assert Rests(b', key, idx) == Rests(b, key, idx);
    TotalChange(b, b', key, idx, |b.slots|);
  }

  lemma ChargeLists(b: Book, idx: nat, k: nat, key: Key, ns: seq<nat>)
    requires idx < |b.slots| && Indexed(b, idx) && k <= b.slots[idx].remaining
    requires Linked(b.slots, ns) && Lists(b, key, ns)
    ensures Linked(Charged(b, idx, k).slots, ns) && Lists(Charged(b, idx, k), key, ns)
  {
    hide Indexed, Charged, Distinct;
    var b' := Charged(b, idx, k);
    InPool(b, key, ns);
    ChargeRests(b, idx, k, key, idx);
    forall i | 0 <= i < |ns| ensures Joined(b'.slots, ns, i) && Rests(b', key, ns[i]) {
      assert Joined(b.slots, ns, i) && Rests(b, key, ns[i]);
      ChargeRests(b, idx, k, key, ns[i]);
    }
    forall n | 0 <= n < |b'.slots| && Rests(b', key, n) ensures n in ns {
      ChargeRests(b, idx, k, key, n);
    }
  }

  /** The level entries after a charge: the order's own level loses k or, at zero, goes. */
  lemma ChargeEntry(b: Book, idx: nat, k: nat, key: Key)
    requires idx < |b.slots| && k <= b.slots[idx].remaining
    ensures var l, l', own := LevelsOf(b, key.bid), LevelsOf(Charged(b, idx, k), key.bid), KeyOf(b.slots[idx]);
      if key == own then
        var lvl := LevelAt(l, key.price);
        var total := Sub32(lvl.total, k % WORD32);
        if total == 0 then key.price !in l' else key.price in l' && l'[key.price] == lvl.(total := total)
      else (key.price in l' <==> key.price in l) && (key.price in l ==> l'[key.price] == l[key.price])
  {
  }

  /** A partial reduction keeps every level exact. */
  lemma ChargeKeeps(b: Book, idx: nat, k: nat, key: Key, ns: seq<nat>)
    requires idx < |b.slots| && Indexed(b, idx) && k < b.slots[idx].remaining < WORD32 && LevelOk(b, key, ns)
    ensures LevelOk(Charged(b, idx, k), key, ns)
  {
    hide Indexed, Charged, Linked, Lists, TotalAt;
    ChargeLists(b, idx, k, key, ns);
    ChargeTotal(b, idx, k, key);
    ChargeEntry(b, idx, k, key);
    RestsOwn(b, key, idx);
    if key == KeyOf(b.slots[idx]) {
      ShareWithin(b, key, idx, |b.slots|);
      OnList(b, key, ns, idx);
    }
  }

  lemma RestsOwn(b: Book, key: Key, idx: nat)
    requires idx < |b.slots| && Indexed(b, idx)
    ensures Rests(b, key, idx) <==> key == KeyOf(b.slots[idx])
    ensures Share(b, key, idx) == if key == KeyOf(b.slots[idx]) then b.slots[idx].remaining else 0
  {
  }

  lemma OnList(b: Book, key: Key, ns: seq<nat>, n: nat)
    requires Lists(b, key, ns) && n < |b.slots| && Rests(b, key, n)
    ensures n in ns && ns != []
  {
  }

  /** Exhausting an order always leaves its level wrong. */
  lemma ExhaustBreaks(b: Book, idx: nat, key: Key, ns: seq<nat>)
    requires Safe(b) && SizesOk(b) && Indexed(b, idx) && idx < |b.slots| && key == KeyOf(b.slots[idx])
    requires LevelOk(b, key, ns) && InRange(b.slots[idx], |b.slots|)
    ensures var b1 := Charged(b, idx, b.slots[idx].remaining);
      Safe(b1) && Indexed(b1, idx) && InRange(b1.slots[idx], |b1.slots|) && !LevelExact(Dropped(b1, idx), key)
  {
    hide Safe, Dropped, Charged, InRange, Linked, Lists, TotalAt, Indexed, UnlinkedLevel;
    var s := b.slots[idx];
    var b1 := Charged(b, idx, s.remaining);
    SizeOf(b, idx);
    SafeHeads(b);
    RestsOwn(b, key, idx);
    OnList(b, key, ns, idx);
    ChargedSafe(b, idx, s.remaining);
    ChargeRests(b, idx, s.remaining, key, idx);
    KeepInRange(b.slots[idx], b1.slots[idx], |b.slots|);
    ChargeEntry(b, idx, s.remaining, key);
    ChargeTotal(b, idx, s.remaining, key);
    ChargeLists(b, idx, s.remaining, key, ns);
    RestsOwn(b1, key, idx);
    var b2 := Dropped(b1, idx);
    DropEntry(b1, idx);
    DropTotal(b1, idx, key);
    DropRests(b1, idx, key, idx);
    ShareWithin(b, key, idx, |b.slots|);
    var lvl := LevelAt(SideOf(b1, s.side), s.price);
    assert lvl == if Total(b, key) == s.remaining then NEW_LEVEL
                  else Level(ns[0], ns[|ns| - 1], |ns|, Total(b, key) - s.remaining);
    ListBound(b, key, ns);
    AloneTotal(b, key, ns, idx);
    GhostLevel(lvl, b1.slots[idx]);
    forall other ensures !LevelOk(b2, key, other) {
      if Lists(b2, key, other) { ListBound(b2, key, other); }
    }
  }

  lemma SizeOf(b: Book, idx: nat)
    requires SizesOk(b) && Indexed(b, idx) && idx < |b.slots|
    ensures 0 < b.slots[idx].remaining <= b.slots[idx].shares < WORD32
  {
  }

  lemma KeepInRange(s: OrderSlot, s': OrderSlot, n: nat)
    requires InRange(s, n) && s'.prev == s.prev && s'.next == s.next && s'.price == s.price
    ensures InRange(s', n)
  {
  }

  /** If an order is alone at its level, the total is what it has left. */
  lemma AloneTotal(b: Book, key: Key, ns: seq<nat>, idx: nat)
    requires Safe(b) && Lists(b, key, ns) && idx < |b.slots| && Rests(b, key, idx) && InRange(b.slots[idx], |b.slots|)
    ensures |ns| == 1 ==> Total(b, key) == b.slots[idx].remaining
  {
    hide Safe, InRange, Linked;
    if |ns| == 1 {
      assert idx in ns;
      DropTotal(b, idx, key);
      DropLists(b, key, ns, 0);
      EmptyTotal(Dropped(b, idx), key, OrderMap.Without(ns, 0));
    }
  }

  /** What unlinking an order does to a level that has already been charged or removed. */
  lemma GhostLevel(lvl: Level, s: OrderSlot)
    requires 0 < s.shares < WORD32
    ensures var u := UnlinkedLevel(lvl, s);
      && (lvl == NEW_LEVEL ==> u.count == NIL)
      && (0 < lvl.count <= NIL ==> u.count == lvl.count - 1)
      && (lvl.total < WORD32 ==> u.total != lvl.total)
  {
  }
}
