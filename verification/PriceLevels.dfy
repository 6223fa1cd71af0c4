/**
 * One side of a book: price levels in an open-addressing table with tombstones and
 * a cached best price. A search passes over tombstones and stops at an empty slot;
 * the table doubles when a search for a new price finds no empty slot.
 */
module PriceLevels {
  import OrderMap

  const NIL: nat := 0xFFFF_FFFF
  const INT64_MIN: int := -0x8000_0000_0000_0000
  const INT64_MAX: int := 0x7FFF_FFFF_FFFF_FFFF
  const EMPTY: int := INT64_MIN
  const TOMBSTONE: int := INT64_MIN + 1
  const INIT_CAPACITY: nat := 1024

  datatype Option<T> = None | Some(value: T)

  /** Order list of a level (newest to oldest), number of orders, total quantity. */
  datatype Level = Level(head: nat, tail: nat, count: nat, total: nat)

  datatype Slot = Slot(price: int, lvl: Level)

  const NEW_LEVEL: Level := Level(NIL, NIL, 0, 0)

  /** A price that is not one of the two markers. */
  predicate IsPrice(p: int) {
    TOMBSTONE < p <= INT64_MAX
  }

  // ---- probing ----

  /** Home slot of a price: the hash of its 64-bit pattern, masked to the table size. */
  function Probe(cap: nat, price: int): (h: nat)
    requires cap > 0
    ensures h < cap
  {
    OrderMap.Hash(cap, price % OrderMap.WORD) % cap
  }

  /** The slot n steps after h, going round once. */
  function Wrap(cap: nat, x: nat): nat
    requires x < 2 * cap
  {
    if x < cap then x else x - cap
  }

  /** How many steps from h to i. */
  function Dist(cap: nat, h: nat, i: nat): (d: nat)
    requires h < cap && i < cap
    ensures d < cap && Wrap(cap, h + d) == i
  {
    if i >= h then i - h else i + cap - h
  }

  predicate Open(sl: seq<Slot>, h: nat, n: nat)
    requires h < |sl|
  {
    n < |sl| && sl[Wrap(|sl|, h + n)].price == EMPTY
  }

  predicate Live(s: Slot) {
    IsPrice(s.price)
  }

  // ---- the table as a finite map ----

  /** No empty slot comes before slot i on the search for its price. */
  ghost predicate Reached(sl: seq<Slot>, i: nat)
    requires i < |sl|
  {
    var h := Probe(|sl|, sl[i].price);
    forall n :: 0 <= n < Dist(|sl|, h, i) ==> !Open(sl, h, n)
  }

  /** Slot i is empty, a tombstone, or the one slot of its price. */
  ghost predicate SlotOk(sl: seq<Slot>, levels: map<int, Level>, i: nat)
    requires i < |sl|
  {
    var p := sl[i].price;
    && (p == EMPTY || p == TOMBSTONE || IsPrice(p))
    && (IsPrice(p) ==> p in levels && levels[p] == sl[i].lvl && Reached(sl, i))
  }

  predicate HasPrice(sl: seq<Slot>, p: int) {
    exists i :: 0 <= i < |sl| && sl[i].price == p
  }

  ghost predicate Unique(sl: seq<Slot>) {
    forall i, j :: 0 <= i < j < |sl| && Live(sl[i]) ==> sl[i].price != sl[j].price
  }

  ghost predicate Table(sl: seq<Slot>, levels: map<int, Level>) {
    && |sl| > 0
    && (forall i :: 0 <= i < |sl| ==> SlotOk(sl, levels, i))
    && Unique(sl)
    && (forall p :: p in levels ==> IsPrice(p) && HasPrice(sl, p))
  }

  /** The first n probes for p met neither p nor an empty slot. */
  ghost predicate Passed(sl: seq<Slot>, p: int, n: nat)
    requires 0 < |sl|
  {
    var h := Probe(|sl|, p);
    forall k :: 0 <= k < n && k < |sl| ==> !Open(sl, h, k) && sl[Wrap(|sl|, h + k)].price != p
  }

  lemma PassOne(sl: seq<Slot>, p: int, n: nat)
    requires n < |sl| && Passed(sl, p, n)
    requires var s := sl[Wrap(|sl|, Probe(|sl|, p) + n)]; s.price != EMPTY && s.price != p
    ensures Passed(sl, p, n + 1)
  {
    hide OrderMap.Hash, Probe;
  }

  lemma NotPassed(sl: seq<Slot>, p: int, n: nat, d: nat)
    requires d < |sl| && Passed(sl, p, n) && sl[Wrap(|sl|, Probe(|sl|, p) + d)].price == p
    ensures d >= n
  {
    hide OrderMap.Hash, Probe;
    var open := Open(sl, Probe(|sl|, p), d);
  }

  lemma NotReached(sl: seq<Slot>, i: nat, n: nat)
    requires i < |sl| && Reached(sl, i)
    ensures n < Dist(|sl|, Probe(|sl|, sl[i].price), i) ==> !Open(sl, Probe(|sl|, sl[i].price), n)
  {
  }

  /** A search that stopped at an empty slot, or went all the way round, has not missed p. */
  lemma SearchIsRight(sl: seq<Slot>, levels: map<int, Level>, p: int, n: nat)
    requires Table(sl, levels) && IsPrice(p) && Passed(sl, p, n)
    requires n >= |sl| || Open(sl, Probe(|sl|, p), n)
    ensures p !in levels
  {
    hide OrderMap.Hash, Probe;
    if p in levels {
      var i :| 0 <= i < |sl| && sl[i].price == p;
      assert SlotOk(sl, levels, i);
      var h := Probe(|sl|, p);
      var d := Dist(|sl|, h, i);
      NotPassed(sl, p, n, d);
      NotReached(sl, i, n);
    }
  }

  /** The slot found by a search is the price's own. */
  lemma FoundIsRight(sl: seq<Slot>, levels: map<int, Level>, i: nat)
    requires Table(sl, levels) && i < |sl| && IsPrice(sl[i].price)
    ensures sl[i].price in levels && levels[sl[i].price] == sl[i].lvl
  {
    assert SlotOk(sl, levels, i);
  }

  /** Filling a slot that only makes tombstones and empty slots disappear keeps every search path. */
  lemma ReachedMore(sl: seq<Slot>, sl': seq<Slot>, i: nat)
    requires i < |sl| == |sl'| && Reached(sl, i) && sl'[i].price == sl[i].price
    requires forall k :: 0 <= k < |sl| && sl'[k].price == EMPTY ==> sl[k].price == EMPTY
    ensures Reached(sl', i)
  {
    hide OrderMap.Hash, Probe;
    var h := Probe(|sl|, sl[i].price);
    forall n | 0 <= n < Dist(|sl|, h, i) ensures !Open(sl', h, n) {
      assert !Open(sl, h, n);
    }
  }

  /** A new price goes into a slot its search reached. */
  lemma PutKeeps(sl: seq<Slot>, levels: map<int, Level>, p: int, lvl: Level, n: nat)
    requires Table(sl, levels) && IsPrice(p) && p !in levels && n < |sl|
    requires forall k :: 0 <= k < n ==> !Open(sl, Probe(|sl|, p), k)
    requires !Live(sl[Wrap(|sl|, Probe(|sl|, p) + n)])
    ensures Table(sl[Wrap(|sl|, Probe(|sl|, p) + n) := Slot(p, lvl)], levels[p := lvl])
  {
    hide OrderMap.Hash, Probe;
    var h := Probe(|sl|, p);
    var at := Wrap(|sl|, h + n);
    var sl', levels' := sl[at := Slot(p, lvl)], levels[p := lvl];
    forall i | 0 <= i < |sl'| ensures SlotOk(sl', levels', i) {
      assert SlotOk(sl, levels, i);
      if i != at {
        if IsPrice(sl[i].price) { ReachedMore(sl, sl', i); }
      } else {
        assert Dist(|sl|, h, at) == n;
        forall k | 0 <= k < n ensures !Open(sl', h, k) { assert !Open(sl, h, k); }
      }
    }
    forall i, j | 0 <= i < j < |sl'| && Live(sl'[i]) ensures sl'[i].price != sl'[j].price {
      assert SlotOk(sl, levels, i) && SlotOk(sl, levels, j);
    }
    forall q | q in levels' ensures IsPrice(q) && HasPrice(sl', q) {
      if q == p { assert sl'[at].price == p; } else {
        var i :| 0 <= i < |sl| && sl[i].price == q;
        assert sl'[i].price == q;
      }
    }
  }

  /** Burying a price leaves a tombstone, so no search path breaks. */
  lemma BuryKeeps(sl: seq<Slot>, levels: map<int, Level>, i: nat)
    requires Table(sl, levels) && i < |sl| && IsPrice(sl[i].price)
    ensures Table(sl[i := Slot(TOMBSTONE, sl[i].lvl)], levels - {sl[i].price})
  {
    hide OrderMap.Hash, Probe;
    var p, sl' := sl[i].price, sl[i := Slot(TOMBSTONE, sl[i].lvl)];
    var levels' := levels - {p};
    forall j | 0 <= j < |sl'| ensures SlotOk(sl', levels', j) {
      assert SlotOk(sl, levels, j);
      if j != i && IsPrice(sl[j].price) { ReachedMore(sl, sl', j); }
    }
    forall q | q in levels' ensures IsPrice(q) && HasPrice(sl', q) {
      var j :| 0 <= j < |sl| && sl[j].price == q;
      assert sl'[j].price == q;
    }
  }

  /** Changing the level stored with a price. */
  lemma StoreKeeps(sl: seq<Slot>, levels: map<int, Level>, i: nat, lvl: Level)
    requires Table(sl, levels) && i < |sl| && IsPrice(sl[i].price)
    ensures Table(sl[i := Slot(sl[i].price, lvl)], levels[sl[i].price := lvl])
  {
    hide OrderMap.Hash, Probe;
    var p, sl' := sl[i].price, sl[i := Slot(sl[i].price, lvl)];
    var levels' := levels[p := lvl];
    assert SlotOk(sl, levels, i);
    forall j | 0 <= j < |sl'| ensures SlotOk(sl', levels', j) {
      assert SlotOk(sl, levels, j);
      if IsPrice(sl[j].price) {
        ReachedMore(sl, sl', j);
        if j < i { assert sl[j].price != sl[i].price; } else if i < j { assert sl[i].price != sl[j].price; }
      }
    }
    forall q | q in levels' ensures IsPrice(q) && HasPrice(sl', q) {
      var j :| 0 <= j < |sl| && sl[j].price == q;
      assert sl'[j].price == q;
    }
  }

  // ---- the best price ----

  function Worst(isBid: bool): int {
    if isBid then INT64_MIN else INT64_MAX
  }

  predicate Better(isBid: bool, p: int, q: int) {
    if isBid then p > q else p < q
  }

  /** best is the highest live price (bids) or the lowest (asks); a constant when there is none. */
  ghost predicate IsBest(isBid: bool, levels: map<int, Level>, best: int) {
    if |levels| == 0 then best == Worst(isBid)
    else best in levels && forall p :: p in levels ==> !Better(isBid, p, best)
  }

  // ---- an empty slot exists ----

  lemma {:induction false} SmallSetMisses(n: nat, used: set<nat>) returns (e: nat)
    requires |used| < n
    ensures e < n && e !in used
  {
    if n - 1 !in used {
      e := n - 1;
    } else {
      e := SmallSetMisses(n - 1, used - {n - 1});
    }
  }

  // ---- rehashing ----

  /** Slots [0, done) of the old table are in the new one. */
  ghost predicate Rehashed(old_: seq<Slot>, done: nat, new_: seq<Slot>, part: map<int, Level>)
    requires done <= |old_|
  {
    && Table(new_, part)
    && (forall p :: p in part ==> exists i :: 0 <= i < done && Live(old_[i]) && old_[i].price == p && part[p] == old_[i].lvl)
    && (forall i :: 0 <= i < done && Live(old_[i]) ==> old_[i].price in part)
    && (forall j :: 0 <= j < |new_| ==> new_[j].price == EMPTY || Live(new_[j]))
  }

  /** A slot index each live price was found at shows that few slots are used. */
  ghost predicate Filled(sl: seq<Slot>, used: set<nat>) {
    forall j :: 0 <= j < |sl| && sl[j].price != EMPTY ==> j in used
  }

  lemma RehashStep(old_: seq<Slot>, levels: map<int, Level>, done: nat, new_: seq<Slot>, part: map<int, Level>, n: nat)
    requires Table(old_, levels) && done < |old_| && Rehashed(old_, done, new_, part) && Live(old_[done])
    requires var h := Probe(|new_|, old_[done].price);
      n < |new_| && Open(new_, h, n) && forall k :: 0 <= k < n ==> !Open(new_, h, k)
    ensures var p := old_[done].price;
      Rehashed(old_, done + 1, new_[Wrap(|new_|, Probe(|new_|, p) + n) := old_[done]], part[p := old_[done].lvl])
  {
    hide OrderMap.Hash, Probe, SlotOk, Reached;
    var p := old_[done].price;
    assert p !in part;
    PutKeeps(new_, part, p, old_[done].lvl, n);
    assert old_[done] == Slot(p, old_[done].lvl);
    var part' := part[p := old_[done].lvl];
    forall q | q in part'
      ensures exists i :: 0 <= i < done + 1 && Live(old_[i]) && old_[i].price == q && part'[q] == old_[i].lvl
    {
      if q != p {
        var i :| 0 <= i < done && Live(old_[i]) && old_[i].price == q && part[q] == old_[i].lvl;
        assert 0 <= i < done + 1;
      }
    }
  }

  lemma RehashSkip(old_: seq<Slot>, done: nat, new_: seq<Slot>, part: map<int, Level>)
    requires done < |old_| && Rehashed(old_, done, new_, part) && !Live(old_[done])
    ensures Rehashed(old_, done + 1, new_, part)
  {
    hide OrderMap.Hash, Probe, SlotOk, Reached, Table;
    forall p | p in part
      ensures exists i :: 0 <= i < done + 1 && Live(old_[i]) && old_[i].price == p && part[p] == old_[i].lvl
    {
      var i :| 0 <= i < done && Live(old_[i]) && old_[i].price == p && part[p] == old_[i].lvl;
      assert 0 <= i < done + 1;
    }
  }

  lemma RehashDone(old_: seq<Slot>, levels: map<int, Level>, new_: seq<Slot>, part: map<int, Level>)
    requires Table(old_, levels) && Rehashed(old_, |old_|, new_, part)
    ensures part == levels
  {
    hide OrderMap.Hash, Probe, Reached;
    forall p ensures p in part <==> p in levels {
      if p in part {
        var i :| 0 <= i < |old_| && Live(old_[i]) && old_[i].price == p && part[p] == old_[i].lvl;
        assert SlotOk(old_, levels, i);
      }
      if p in levels {
        var i :| 0 <= i < |old_| && old_[i].price == p;
        assert Live(old_[i]) && old_[i].price in part;
      }
    }
    forall p | p in part ensures part[p] == levels[p] {
      var i :| 0 <= i < |old_| && Live(old_[i]) && old_[i].price == p && part[p] == old_[i].lvl;
      assert SlotOk(old_, levels, i);
    }
  }

  // ---- the object ----

  class PriceLevelTable {
    const isBid: bool
    var best: int
    var slots: array<Slot>
    var count: nat
    ghost var levels: map<int, Level>   // the finite map this table stands for

    ghost predicate Valid()
      reads this, slots
    {
      && Table(slots[..], levels)
      && count == |levels|
      && IsBest(isBid, levels, best)
    }

    constructor (bid: bool)
      ensures Valid() && fresh(slots) && isBid == bid && levels == map[]
    {
      isBid := bid;
      best := Worst(bid);
      slots := new Slot[INIT_CAPACITY](_ => Slot(EMPTY, NEW_LEVEL));
      count, levels := 0, map[];
    }

    /** Search for a price: its slot, or the slot where the search ended, the first tombstone passed, and fullness. */
    method Search(price: int) returns (found: bool, at: nat, tomb: nat, full: bool)
      requires Table(slots[..], levels) && IsPrice(price)
      ensures at < slots.Length && tomb <= slots.Length
      ensures found <==> price in levels
      ensures found ==> slots[at].price == price && levels[price] == slots[at].lvl
      ensures !found && !full ==> CanPut(slots[..], price, at)
      ensures !found && tomb < slots.Length ==> CanPut(slots[..], price, tomb)
    {
      hide OrderMap.Hash, Probe, SlotOk, Reached;
      var cap := slots.Length;
      ghost var sl, h := slots[..], Probe(slots.Length, price);
      at := Probe(cap, price);
      tomb, full := cap, true;
      var n := 0;
      while n < cap
        invariant n <= cap && at == if n < cap then Wrap(cap, h + n) else h
        invariant Passed(sl, price, n) && tomb <= cap
        invariant tomb < cap ==> CanPut(sl, price, tomb)
      {
        if slots[at].price == price {
          FoundIsRight(sl, levels, at);
          return true, at, tomb, false;
        }
        if slots[at].price == TOMBSTONE && tomb == cap {
          PutAt(sl, price, n);
          tomb := at;
        }
        if slots[at].price == EMPTY {
          PutAt(sl, price, n);
          SearchIsRight(sl, levels, price, n);
          return false, at, tomb, false;
        }
        PassOne(sl, price, n);
        at := if at + 1 < cap then at + 1 else 0;
        n := n + 1;
      }
      SearchIsRight(sl, levels, price, n);
      return false, at, tomb, true;
    }

    /** operator[]: the slot of a price, inserted with a fresh level if it was not there. */
    method GetOrInsert(price: int) returns (at: nat)
      requires Valid() && IsPrice(price)
      modifies this, slots
      ensures Valid() && (slots == old(slots) || fresh(slots))
      ensures levels == if price in old(levels) then old(levels) else old(levels)[price := NEW_LEVEL]
      ensures at < slots.Length && slots[at] == Slot(price, levels[price])
    {
      hide OrderMap.Hash, Table, IsBest, CanPut;
      var found, i, tomb, full := Search(price);
      Insertion(isBid, levels, best, price);
      if found {
        best := if Better(isBid, price, best) then price else best;
        return i;
      }
      if full {
        Grow();
        i := FirstEmpty(price);
        tomb := slots.Length;
      }
      at := if tomb != slots.Length then tomb else i;
      PutCanPut(slots[..], levels, price, at);
      OneMoreLevel(levels, price);
      slots[at] := Slot(price, NEW_LEVEL);
      count := count + 1;
      levels := levels[price := NEW_LEVEL];
      if Better(isBid, price, best) { best := price; }
    }

    /** Write back the level of a slot operator[] returned. */
    method Store(at: nat, lvl: Level)
      requires Valid() && at < slots.Length && IsPrice(slots[at].price)
      modifies this`levels, slots
      ensures Valid() && slots[at].price == old(slots[at].price)
      ensures levels == old(levels)[slots[at].price := lvl]
    {
      hide OrderMap.Hash, Probe, Reached, SlotOk;
      StoreKeeps(slots[..], levels, at, lvl);
      FoundIsRight(slots[..], levels, at);
      var p := slots[at].price;
      assert levels[p := lvl].Keys == levels.Keys;
      slots[at] := Slot(p, lvl);
      levels := levels[p := lvl];
    }

    /** Leave a tombstone; if the best price went, look for the new one. */
    method Erase(price: int)
      requires Valid() && IsPrice(price)
      modifies this, slots
      ensures Valid() && slots == old(slots)
      ensures levels == old(levels) - {price}
    {
      hide OrderMap.Hash, Table, IsBest;
      var found, i, _, _ := Search(price);
      Removal(isBid, levels, best, price);
      if !found { return; }
      BuryKeeps(slots[..], levels, i);
      slots[i] := Slot(TOMBSTONE, slots[i].lvl);
      count := count - 1;
      levels := levels - {price};
      if price == best {
        RescanBest();
      }
    }

    method Find(price: int) returns (r: Option<Level>)
      requires Valid() && IsPrice(price)
      ensures r == if price in levels then Some(levels[price]) else None
    {
      var found, i, _, _ := Search(price);
      return if found then Some(slots[i].lvl) else None;
    }

    /** Total quantity at the best price, 0 for an empty side. */
    method BestQty() returns (q: nat)
      requires Valid()
      ensures |levels| > 0 ==> best in levels
      ensures q == if |levels| == 0 then 0 else levels[best].total
    {
      if count == 0 { return 0; }
      var found, i, _, _ := Search(best);
      if !found { assert false; }   // the best price is live
      return slots[i].lvl.total;
    }

    /** Double the table, dropping tombstones. */
    method Grow()
      requires Table(slots[..], levels)
      modifies this`slots
      ensures fresh(slots) && Table(slots[..], levels)
      ensures exists used :: Filled(slots[..], used) && |used| < slots.Length
    {
      hide OrderMap.Hash, Probe, SlotOk, Reached, Table;
      var cap := slots.Length;
      var ns := new Slot[cap * 2](_ => Slot(EMPTY, NEW_LEVEL));
      ghost var part: map<int, Level>, used: set<nat> := map[], {};
      HasSlots(slots[..], levels);
      assert forall k :: 0 <= k < |ns[..]| ==> ns[..][k] == Slot(EMPTY, NEW_LEVEL);
      EmptyTable(ns[..]);
      var i := 0;
      while i < cap
        invariant i <= cap && Rehashed(slots[..], i, ns[..], part)
        invariant Filled(ns[..], used) && |used| <= i
        modifies ns
      {
        if slots[i].price == EMPTY || slots[i].price == TOMBSTONE {
          RehashSkip(slots[..], i, ns[..], part);
        } else {
          SlotsLive(slots[..], levels, i);
          var p := slots[i].price;
          var j, n := ProbeEmpty(ns, p, used);
          RehashStep(slots[..], levels, i, ns[..], part, n);
          ns[j] := slots[i];
          part := part[p := slots[i].lvl];
          used := used + {j};
        }
        i := i + 1;
      }
      RehashDone(slots[..], levels, ns[..], part);
      RehashedTable(slots[..], i, ns[..], part);
      slots := ns;
    }

    /** Walk from the home slot to an empty one; there is one because fewer slots are used than exist. */
    static method ProbeEmpty(a: array<Slot>, price: int, ghost used: set<nat>) returns (j: nat, ghost n: nat)
      requires 0 < a.Length && Filled(a[..], used) && |used| < a.Length
      ensures n < a.Length && j == Wrap(a.Length, Probe(a.Length, price) + n)
      ensures Open(a[..], Probe(a.Length, price), n)
      ensures forall k :: 0 <= k < n ==> !Open(a[..], Probe(a.Length, price), k)
    {
      hide OrderMap.Hash, Probe;
      ghost var e := SmallSetMisses(a.Length, used);
      assert a[..][e].price == EMPTY;
      ghost var h := Probe(a.Length, price);
      ghost var last := Dist(a.Length, h, e);
      assert Open(a[..], h, last);
      j, n := Probe(a.Length, price), 0;
      while a[j].price != EMPTY
        invariant n <= last && j == Wrap(a.Length, h + n)
        invariant forall k :: 0 <= k < n ==> !Open(a[..], h, k)
        decreases last - n
      {
        assert !Open(a[..], h, n);
        j := if j + 1 < a.Length then j + 1 else 0;
        n := n + 1;
      }
    }

    /** Where a price goes in a table that has just grown. */
    method FirstEmpty(price: int) returns (at: nat)
      requires exists used :: Filled(slots[..], used) && |used| < slots.Length
      ensures at < slots.Length && CanPut(slots[..], price, at)
    {
      hide OrderMap.Hash, Probe;
      ghost var used :| Filled(slots[..], used) && |used| < slots.Length;
      ghost var n;
      at, n := ProbeEmpty(slots, price, used);
      assert Dist(slots.Length, Probe(slots.Length, price), at) == n;
    }

    /** Scan the whole table for the new best price. */
    method RescanBest()
      requires Table(slots[..], levels)
      modifies this`best
      ensures IsBest(isBid, levels, best)
    {
      hide OrderMap.Hash, Probe, Reached;
      best := Worst(isBid);
      var i := 0;
      while i < slots.Length
        invariant i <= slots.Length
        invariant best == Worst(isBid) || best in levels
        invariant forall k :: 0 <= k < i && Live(slots[k]) ==> !Better(isBid, slots[k].price, best)
      {
        assert SlotOk(slots[..], levels, i);
        if slots[i].price != EMPTY && slots[i].price != TOMBSTONE {
          if Better(isBid, slots[i].price, best) { best := slots[i].price; }
        }
        i := i + 1;
      }
      forall p | p in levels ensures !Better(isBid, p, best) {
        assert HasPrice(slots[..], p);
      }
      WorstIsNotLive(isBid, levels, best);
    }
  }

  /** What taking a price out of the map does to its size and to the best price. */
  lemma Removal(isBid: bool, levels: map<int, Level>, best: int, price: int)
    requires IsBest(isBid, levels, best)
    ensures price !in levels ==> levels - {price} == levels
    ensures price in levels ==> |levels - {price}| == |levels| - 1
    ensures price in levels && price != best ==> IsBest(isBid, levels - {price}, best)
  {
    if price in levels {
      assert levels.Keys == (levels - {price}).Keys + {price};
      if price != best { assert best in levels - {price}; }
    }
  }

  /** Slot at is free and a search for p gets there without meeting an empty slot. */
  ghost predicate CanPut(sl: seq<Slot>, p: int, at: nat)
    requires 0 < |sl|
  {
    var h := Probe(|sl|, p);
    at < |sl| && !Live(sl[at]) && forall k :: 0 <= k < Dist(|sl|, h, at) ==> !Open(sl, h, k)
  }

  lemma PutAt(sl: seq<Slot>, p: int, n: nat)
    requires 0 < |sl| && n < |sl| && Passed(sl, p, n)
    requires !Live(sl[Wrap(|sl|, Probe(|sl|, p) + n)])
    ensures CanPut(sl, p, Wrap(|sl|, Probe(|sl|, p) + n))
  {
    hide OrderMap.Hash, Probe;
    var h := Probe(|sl|, p);
    assert Dist(|sl|, h, Wrap(|sl|, h + n)) == n;
  }

  lemma PutCanPut(sl: seq<Slot>, levels: map<int, Level>, p: int, at: nat)
    requires Table(sl, levels) && IsPrice(p) && p !in levels && CanPut(sl, p, at)
    ensures Table(sl[at := Slot(p, NEW_LEVEL)], levels[p := NEW_LEVEL])
    ensures levels[p := NEW_LEVEL].Keys == levels.Keys + {p}
  {
    hide OrderMap.Hash, Probe, SlotOk, Reached;
    PutKeeps(sl, levels, p, NEW_LEVEL, Dist(|sl|, Probe(|sl|, p), at));
  }

  /** The best price after an insertion. */
  lemma Insertion(isBid: bool, levels: map<int, Level>, best: int, p: int)
    requires IsBest(isBid, levels, best) && IsPrice(p)
    ensures IsBest(isBid, levels[p := NEW_LEVEL], if Better(isBid, p, best) then p else best)
    ensures p in levels ==> !Better(isBid, p, best)
  {
    assert p in levels[p := NEW_LEVEL];
  }

  lemma OneMoreLevel(levels: map<int, Level>, p: int)
    requires p !in levels
    ensures |levels[p := NEW_LEVEL]| == |levels| + 1
  {
    assert levels[p := NEW_LEVEL].Keys == levels.Keys + {p};
  }

  lemma WorstIsNotLive(isBid: bool, levels: map<int, Level>, best: int)
    requires best == Worst(isBid) || best in levels
    requires forall p :: p in levels ==> IsPrice(p) && !Better(isBid, p, best)
    ensures IsBest(isBid, levels, best)
  {
    if |levels| > 0 {
      SomePrice(levels);
      var p :| p in levels;
      assert !Better(isBid, p, best);
    }
  }

  lemma SomePrice(levels: map<int, Level>)
    requires |levels| > 0
    ensures exists p :: p in levels
  {
    assert (forall p :: p !in levels) ==> levels.Keys == {};
  }

  lemma EmptyTable(sl: seq<Slot>)
    requires |sl| > 0 && forall i :: 0 <= i < |sl| ==> sl[i].price == EMPTY
    ensures Table(sl, map[])
    ensures Filled(sl, {})
  {
  }

  lemma HasSlots(sl: seq<Slot>, levels: map<int, Level>)
    requires Table(sl, levels)
    ensures |sl| > 0
  {
  }

  lemma SlotsLive(sl: seq<Slot>, levels: map<int, Level>, i: nat)
    requires Table(sl, levels) && i < |sl| && sl[i].price != EMPTY && sl[i].price != TOMBSTONE
    ensures Live(sl[i])
  {
    assert SlotOk(sl, levels, i);
  }

  lemma RehashedTable(old_: seq<Slot>, done: nat, new_: seq<Slot>, part: map<int, Level>)
    requires done <= |old_| && Rehashed(old_, done, new_, part)
    ensures Table(new_, part)
  {
  }
}
