/**
 * The order manager: the life of every order under acceptances, fills, cancels and
 * rejections, the two indexes of live orders, and the rounded average fill price.
 */
module Oms {

  datatype Side = Buy | Sell | NoSide

  datatype OrderType = Market | Limit | Iceberg

  datatype Order = Order(id: nat, strategy: nat, symbol: nat, side: Side, kind: OrderType, price: int, quantity: nat)

  datatype Status = Pending | Submitted | PartialFill | PendingCancel | Filled | Cancelled | Rejected

  datatype Entry = Entry(order: Order, status: Status, exchangeRef: nat, filled: nat, remaining: int, avgPrice: int)

  datatype State = State(orders: map<nat, Entry>, bySymbol: map<nat, set<nat>>, byStrategy: map<nat, set<nat>>, nextId: nat)

  datatype Event =
    | New(order: Order)
    | Accept(id: nat, ref: nat)
    | Fill(id: nat, qty: nat, price: int)
    | RequestCancel(id: nat)
    | Cancel(id: nat)
    | Reject(id: nat)

  /** A fill as credited to an order, after clamping. */
  datatype Trade = Trade(price: int, qty: nat)

  predicate Live(st: Status) {
    !st.Filled? && !st.Cancelled? && !st.Rejected?
  }

  predicate Working(st: Status) {
    st.Submitted? || st.PartialFill?
  }

  /** Integer division that rounds toward zero. */
  function Quot(a: int, b: int): int
    requires b > 0
  {
    if a >= 0 then a / b else -((-a) / b)
  }

  /** q is the average a / n rounded toward zero; 0 when n is 0. */
  predicate IsTruncated(q: int, a: int, n: int) {
    if n <= 0 then q == 0
    else if a >= 0 then q * n <= a < q * n + n
    else q * n - n < a <= q * n
  }

  lemma QuotIsTruncated(a: int, n: int)
    ensures IsTruncated(if n > 0 then Quot(a, n) else 0, a, n)
  {
    if n <= 0 {
    } else if a >= 0 {
      assert a == n * (a / n) + a % n;
    } else {
      assert -a == n * ((-a) / n) + (-a) % n;
      assert Quot(a, n) * n == -(n * ((-a) / n));
    }
  }

  // ---- the transitions ----

  function At(index: map<nat, set<nat>>, key: nat): set<nat> {
    if key in index then index[key] else {}
  }

  function Created(s: State, order: Order): State {
    var o := order.(id := s.nextId);
    State(s.orders[o.id := Entry(o, Pending, 0, 0, o.quantity, 0)],
          s.bySymbol[o.symbol := At(s.bySymbol, o.symbol) + {o.id}],
          s.byStrategy[o.strategy := At(s.byStrategy, o.strategy) + {o.id}],
          s.nextId + 1)
  }

  /** The order leaves both indexes. */
  function Unlisted(s: State, id: nat): State
    requires id in s.orders
  {
    var o := s.orders[id].order;
    s.(bySymbol := s.bySymbol[o.symbol := At(s.bySymbol, o.symbol) - {id}],
       byStrategy := s.byStrategy[o.strategy := At(s.byStrategy, o.strategy) - {id}])
  }

  /** What of a fill of qty the order can still take. */
  function Clamped(e: Entry, qty: nat): int {
    if e.filled + qty > e.order.quantity then e.order.quantity - e.filled else qty
  }

  function FilledEntry(e: Entry, qty: nat, price: int): Entry
    requires e.filled <= e.order.quantity
  {
    var q := Clamped(e, qty);
    var total := e.avgPrice * e.filled + price * q;
    var now := e.filled + q;
    e.(filled := now, remaining := e.order.quantity - now,
       avgPrice := if now > 0 then Quot(total, now) else 0,
       status := if now >= e.order.quantity then Filled else PartialFill)
  }

  predicate NotOverfilled(s: State) {
    forall id :: id in s.orders ==> s.orders[id].filled <= s.orders[id].order.quantity
  }

  function Step(s: State, ev: Event): State
    requires NotOverfilled(s)
  {
    if ev.New? then Created(s, ev.order)
    else if ev.id !in s.orders then s
    else
      var e := s.orders[ev.id];
      match ev
      case Accept(id, ref) =>
        if e.status.Pending? then s.(orders := s.orders[id := e.(status := Submitted, exchangeRef := ref)]) else s
      case Fill(id, qty, price) =>
        if !Working(e.status) then s
        else
          var e' := FilledEntry(e, qty, price);
          var s' := s.(orders := s.orders[id := e']);
          if e'.status.Filled? then Unlisted(s', id) else s'
      case RequestCancel(id) =>
        if Working(e.status) then s.(orders := s.orders[id := e.(status := PendingCancel)]) else s
      case Cancel(id) =>
        if e.status.PendingCancel? then Unlisted(s.(orders := s.orders[id := e.(status := Cancelled)]), id) else s
      case Reject(id) =>
        if e.status.Pending? then Unlisted(s.(orders := s.orders[id := e.(status := Rejected)]), id) else s
  }

  // ---- what every run keeps ----

  predicate QuantityRule(e: Entry) {
    e.filled + e.remaining == e.order.quantity && e.filled >= 0 && e.remaining >= 0
  }

  predicate FilledRule(e: Entry) {
    e.status.Filled? <==> e.filled == e.order.quantity
  }

  ghost predicate Indexed(s: State) {
    && (forall key, id :: id in At(s.bySymbol, key) <==> id in s.orders && s.orders[id].order.symbol == key && Live(s.orders[id].status))
    && (forall key, id :: id in At(s.byStrategy, key) <==> id in s.orders && s.orders[id].order.strategy == key && Live(s.orders[id].status))
  }

  predicate Numbered(s: State) {
    forall id :: id in s.orders ==> id < s.nextId && s.orders[id].order.id == id
  }

  ghost predicate Inv(s: State) {
    && (forall id :: id in s.orders ==> QuantityRule(s.orders[id]))
    && Numbered(s) && Indexed(s)
  }

  /** The order manager before any order. */
  function Empty(): State {
    State(map[], map[], map[], 1)
  }

  lemma AtUpdate(index: map<nat, set<nat>>, key: nat, ids: set<nat>, k: nat)
    ensures At(index[key := ids], k) == if k == key then ids else At(index, k)
  {
    assert k in index[key := ids] <==> k == key || k in index;
  }

  lemma CreatedInv(s: State, order: Order)
    requires Inv(s)
    ensures Inv(Created(s, order))
  {
    hide At;
    var s' := Created(s, order);
    forall key: nat, id: nat
      ensures id in At(s'.bySymbol, key) <==> id in s'.orders && s'.orders[id].order.symbol == key && Live(s'.orders[id].status)
    {
      AtUpdate(s.bySymbol, order.symbol, At(s.bySymbol, order.symbol) + {s.nextId}, key);
      assert id in At(s.bySymbol, key) ==> id in s.orders;
    }
    forall key: nat, id: nat
      ensures id in At(s'.byStrategy, key) <==> id in s'.orders && s'.orders[id].order.strategy == key && Live(s'.orders[id].status)
    {
      AtUpdate(s.byStrategy, order.strategy, At(s.byStrategy, order.strategy) + {s.nextId}, key);
      assert id in At(s.byStrategy, key) ==> id in s.orders;
    }
  }

  /** Rewriting a live order's entry to another live one leaves the indexes right. */
  lemma RewrittenInv(s: State, id: nat, e: Entry)
    requires Inv(s) && id in s.orders && Live(s.orders[id].status)
    requires Live(e.status) && e.order == s.orders[id].order && QuantityRule(e)
    ensures Inv(s.(orders := s.orders[id := e]))
  {
  }

  lemma ClosedInv(s: State, id: nat, e: Entry)
    requires Inv(s) && id in s.orders
    requires !Live(e.status) && e.order == s.orders[id].order && QuantityRule(e)
    ensures Inv(Unlisted(s.(orders := s.orders[id := e]), id))
  {
    hide At;
    var o := e.order;
    var s' := Unlisted(s.(orders := s.orders[id := e]), id);
    forall key: nat, i: nat
      ensures i in At(s'.bySymbol, key) <==> i in s'.orders && s'.orders[i].order.symbol == key && Live(s'.orders[i].status)
    {
      AtUpdate(s.bySymbol, o.symbol, At(s.bySymbol, o.symbol) - {id}, key);
      assert i in At(s.bySymbol, key) ==> i in s.orders && s.orders[i].order.symbol == key;
    }
    forall key: nat, i: nat
      ensures i in At(s'.byStrategy, key) <==> i in s'.orders && s'.orders[i].order.strategy == key && Live(s'.orders[i].status)
    {
      AtUpdate(s.byStrategy, o.strategy, At(s.byStrategy, o.strategy) - {id}, key);
      assert i in At(s.byStrategy, key) ==> i in s.orders && s.orders[i].order.strategy == key;
    }
  }

  lemma StepInv(s: State, ev: Event)
    requires Inv(s)
    ensures Inv(Step(s, ev))
  {
    hide Indexed;
    if ev.New? {
      CreatedInv(s, ev.order);
    } else if ev.id in s.orders {
      var e := s.orders[ev.id];
      match ev
      case Accept(id, ref) =>
        if e.status.Pending? { RewrittenInv(s, id, e.(status := Submitted, exchangeRef := ref)); }
      case Fill(id, qty, price) =>
        if Working(e.status) {
          var e' := FilledEntry(e, qty, price);
          assert QuantityRule(e');
          if e'.status.Filled? { ClosedInv(s, id, e'); } else { RewrittenInv(s, id, e'); }
        }
      case RequestCancel(id) =>
        if Working(e.status) { RewrittenInv(s, id, e.(status := PendingCancel)); }
      case Cancel(id) =>
        if e.status.PendingCancel? { ClosedInv(s, id, e.(status := Cancelled)); }
      case Reject(id) =>
        if e.status.Pending? { ClosedInv(s, id, e.(status := Rejected)); }
    }
  }

  /** An order that is not live never changes again, and nothing but New changes which orders exist. */
  lemma TerminalAbsorbs(s: State, ev: Event, id: nat)
    requires Inv(s) && id in s.orders && !Live(s.orders[id].status)
    ensures id in Step(s, ev).orders && Step(s, ev).orders[id] == s.orders[id]
  {
  }

  /** The arrows of the documented state diagram, with partial fills looping. */
  predicate Arrow(a: Status, b: Status) {
    match a
    case Pending => b.Submitted? || b.Rejected?
    case Submitted => b.PartialFill? || b.Filled? || b.PendingCancel?
    case PartialFill => b.PartialFill? || b.Filled? || b.PendingCancel?
    case PendingCancel => b.Cancelled?
    case Filled => false
    case Cancelled => false
    case Rejected => false
  }

  /** Every event moves at most the order it names, and that one along an arrow. */
  lemma MovesAlongArrows(s: State, ev: Event, id: nat)
    requires Inv(s) && id in s.orders
    ensures id in Step(s, ev).orders
    ensures Step(s, ev).orders[id] != s.orders[id] ==>
              !ev.New? && ev.id == id && Arrow(s.orders[id].status, Step(s, ev).orders[id].status)
  {
  }

  lemma FilledRuleStep(s: State, ev: Event)
    requires Inv(s) && (forall id :: id in s.orders ==> FilledRule(s.orders[id]))
    ensures (forall id :: id in Step(s, ev).orders ==> FilledRule(Step(s, ev).orders[id]))
              <==> (ev.New? ==> ev.order.quantity > 0)
  {
    var s' := Step(s, ev);
    if ev.New? {
      assert s'.orders[s.nextId].order.quantity == ev.order.quantity;
    } else if ev.id in s.orders {
      assert forall id :: id in s'.orders && id != ev.id ==> s'.orders[id] == s.orders[id];
      assert FilledRule(s.orders[ev.id]);
    }
  }

  // ---- runs, and the trades they credit ----

  ghost function Run(evs: seq<Event>): (s: State)
    ensures Inv(s)
    decreases |evs|
  {
    if evs == [] then Empty()
    else
      var before := Run(evs[..|evs| - 1]);
      StepInv(before, evs[|evs| - 1]);
      Step(before, evs[|evs| - 1])
  }

  predicate Credits(s: State, ev: Event, id: nat) {
    ev.Fill? && ev.id == id && id in s.orders && Working(s.orders[id].status)
  }

  /** The fills a run credits to one order, each clamped to what was left. */
  ghost function Trades(evs: seq<Event>, id: nat): seq<Trade>
    decreases |evs|
  {
    if evs == [] then []
    else
      var before := Run(evs[..|evs| - 1]);
      var ev := evs[|evs| - 1];
      Trades(evs[..|evs| - 1], id)
      + if Credits(before, ev, id) then [Trade(ev.price, Clamped(before.orders[id], ev.qty))] else []
  }

  function Volume(trades: seq<Trade>): nat {
    if trades == [] then 0 else Volume(trades[..|trades| - 1]) + trades[|trades| - 1].qty
  }

  function Value(trades: seq<Trade>): int {
    if trades == [] then 0
    else Value(trades[..|trades| - 1]) + trades[|trades| - 1].price * trades[|trades| - 1].qty
  }

  predicate Between(trades: seq<Trade>, lo: int, hi: int) {
    forall t :: t in trades ==> lo <= t.price <= hi
  }

  function Abs(x: int): nat {
    if x < 0 then -x else x
  }

  /** What an entry's numbers say about the trades credited to it. */
  ghost predicate Accounts(e: Entry, trades: seq<Trade>) {
    && e.filled == Volume(trades)
    && (e.filled == 0 ==> e.avgPrice == 0)
    && (e.filled > 0 ==> forall lo, hi :: Between(trades, lo, hi) ==> lo <= e.avgPrice <= hi)
    && Abs(Value(trades) - e.avgPrice * e.filled) <= |trades| * (if e.order.quantity > 0 then e.order.quantity - 1 else 0)
    && ((forall t :: t in trades ==> t.price >= 0) ==> e.avgPrice >= 0 && Value(trades) - e.avgPrice * e.filled >= 0)
  }

  /** Rounding toward zero: the quotient, the remainder and the sign. */
  lemma QuotRem(total: int, n: int)
    requires n > 0
    ensures Abs(total - Quot(total, n) * n) <= n - 1
    ensures total >= 0 ==> Quot(total, n) >= 0 && total - Quot(total, n) * n >= 0
  {
  }

  /** Rounding toward zero does not leave an interval with integer ends. */
  lemma QuotBetween(total: int, n: int, lo: int, hi: int)
    requires n > 0 && lo * n <= total <= hi * n
    ensures lo <= Quot(total, n) <= hi
  {
    QuotRem(total, n);
    var q := Quot(total, n);
    assert (q + 1) * n == q * n + n && (q - 1) * n == q * n - n;
    if q < lo { Scale(q + 1, lo, n); }
    if q > hi { Scale(hi, q - 1, n); }
  }

  lemma Scale(a: int, b: int, n: int)
    requires a <= b && n >= 0
    ensures a * n <= b * n
  {
  }

  lemma AccountsFill(e: Entry, trades: seq<Trade>, qty: nat, price: int)
    requires QuantityRule(e) && Accounts(e, trades)
    ensures Clamped(e, qty) >= 0
    ensures Accounts(FilledEntry(e, qty, price), trades + [Trade(price, Clamped(e, qty))])
  {
    var q := Clamped(e, qty);
    var all := trades + [Trade(price, q)];
    assert all[..|all| - 1] == trades;
    var e' := FilledEntry(e, qty, price);
    var total := e.avgPrice * e.filled + price * q;
    var n := e.filled + q;
    assert forall t :: t in trades ==> t in all;
    assert Trade(price, q) in all;
    if n > 0 {
      QuotRem(total, n);
      forall lo, hi | Between(all, lo, hi) ensures lo <= e'.avgPrice <= hi {
        assert Between(trades, lo, hi);
        AverageBetween(e.avgPrice, e.filled, price, q, lo, hi);
      }
      RoundingGrows(|trades|, n - 1, e.order.quantity - 1);
      if forall t :: t in all ==> t.price >= 0 {
        Scale(0, e.avgPrice, e.filled);
        Scale(0, price, q);
      }
    } else {
      RoundingGrows(|trades|, 0, if e.order.quantity > 0 then e.order.quantity - 1 else 0);
    }
  }

  lemma AverageBetween(avg: int, f: int, price: int, q: int, lo: int, hi: int)
    requires f >= 0 && q >= 0 && f + q > 0 && (f > 0 ==> lo <= avg <= hi) && lo <= price <= hi
    ensures lo <= Quot(avg * f + price * q, f + q) <= hi
  {
    if f > 0 { Scale(lo, avg, f); Scale(avg, hi, f); }
    Scale(lo, price, q);
    Scale(price, hi, q);
    assert lo * (f + q) == lo * f + lo * q && hi * (f + q) == hi * f + hi * q;
    QuotBetween(avg * f + price * q, f + q, lo, hi);
  }

  lemma RoundingGrows(k: nat, r: nat, bound: nat)
    requires r <= bound
    ensures k * bound + r <= (k + 1) * bound
  {
    assert (k + 1) * bound == k * bound + bound;
  }

  /**
   * Over any run of events: filled + remaining == quantity, the order's filled volume
   * is the sum of its credited trades, its average lies between the lowest and highest
   * credited price, and volume times average misses the traded value by less than one
   * quantity per trade, from below when no price is negative.
   */
  lemma {:induction false} RunAccounts(evs: seq<Event>, id: nat)
    requires id in Run(evs).orders
    ensures QuantityRule(Run(evs).orders[id])
    ensures Accounts(Run(evs).orders[id], Trades(evs, id))
    decreases |evs|
  {
    hide Accounts, Step, FilledEntry, Indexed;
    var init, ev := evs[..|evs| - 1], evs[|evs| - 1];
    var s := Run(init);
    if id !in s.orders {
      AppearsNew(s, ev, id);
      NoTrades(init, id);
      assert Trades(evs, id) == [];
      AccountsNew(Run(evs).orders[id]);
    } else {
      RunAccounts(init, id);
      if Credits(s, ev, id) {
        CreditedBecomes(s, ev, id);
        AccountsFill(s.orders[id], Trades(init, id), ev.qty, ev.price);
      } else {
        UncreditedKeeps(s, ev, id);
        assert Trades(evs, id) == Trades(init, id);
        AccountsOnly(s.orders[id], Run(evs).orders[id], Trades(init, id));
      }
    }
  }

  lemma AppearsNew(s: State, ev: Event, id: nat)
    requires Inv(s) && id !in s.orders && id in Step(s, ev).orders
    ensures Step(s, ev).orders[id].filled == 0 && Step(s, ev).orders[id].avgPrice == 0
  {
  }

  lemma CreditedBecomes(s: State, ev: Event, id: nat)
    requires Inv(s) && Credits(s, ev, id)
    ensures Step(s, ev).orders == s.orders[id := FilledEntry(s.orders[id], ev.qty, ev.price)]
  {
  }

  lemma UncreditedKeeps(s: State, ev: Event, id: nat)
    requires Inv(s) && id in s.orders && !Credits(s, ev, id)
    ensures id in Step(s, ev).orders
    ensures var e, e' := s.orders[id], Step(s, ev).orders[id];
      e'.order == e.order && e'.filled == e.filled && e'.avgPrice == e.avgPrice
  {
  }

  lemma AccountsOnly(e: Entry, e': Entry, trades: seq<Trade>)
    requires Accounts(e, trades) && e'.order == e.order && e'.filled == e.filled && e'.avgPrice == e.avgPrice
    ensures Accounts(e', trades)
  {
  }

  lemma AccountsNew(e: Entry)
    requires e.filled == 0 && e.avgPrice == 0
    ensures Accounts(e, [])
  {
  }

  lemma StepGrows(s: State, ev: Event, id: nat)
    requires Inv(s) && id in s.orders
    ensures id in Step(s, ev).orders
  {
  }

  lemma {:induction false} NoTrades(evs: seq<Event>, id: nat)
    requires id !in Run(evs).orders
    ensures Trades(evs, id) == []
    decreases |evs|
  {
    hide Inv, Step;
    if evs != [] {
      var before := Run(evs[..|evs| - 1]);
      if id in before.orders { StepGrows(before, evs[|evs| - 1], id); }
      NoTrades(evs[..|evs| - 1], id);
    }
  }

  /** Over a run of orders with positive quantities an order is FILLED exactly when nothing remains. */
  lemma {:induction false} RunFilledRule(evs: seq<Event>)
    requires forall i :: 0 <= i < |evs| && evs[i].New? ==> evs[i].order.quantity > 0
    ensures forall id :: id in Run(evs).orders ==> FilledRule(Run(evs).orders[id])
    decreases |evs|
  {
    if evs != [] {
      RunFilledRule(evs[..|evs| - 1]);
      FilledRuleStep(Run(evs[..|evs| - 1]), evs[|evs| - 1]);
    }
  }

  /** Once an order has reached a final state, the rest of the run leaves its entry alone. */
  lemma {:induction false} StaysFinal(evs: seq<Event>, n: nat, id: nat)
    requires n <= |evs| && id in Run(evs[..n]).orders && !Live(Run(evs[..n]).orders[id].status)
    ensures id in Run(evs).orders && Run(evs).orders[id] == Run(evs[..n]).orders[id]
    decreases |evs|
  {
    hide Step, Inv;
    if n == |evs| {
      assert evs[..n] == evs;
    } else {
      var init := evs[..|evs| - 1];
      assert init[..n] == evs[..n];
      StaysFinal(init, n, id);
      TerminalAbsorbs(Run(init), evs[|evs| - 1], id);
    }
  }

  // ---- the object ----

  class OrderManager {
    var orders: map<nat, Entry>
    var bySymbol: map<nat, set<nat>>
    var byStrategy: map<nat, set<nat>>
    var nextId: nat

    function View(): State
      reads this
    {
      State(orders, bySymbol, byStrategy, nextId)
    }

    ghost predicate Valid()
      reads this
    {
      Inv(View())
    }

    constructor ()
      ensures Valid() && View() == Empty()
    {
      orders, bySymbol, byStrategy, nextId := map[], map[], map[], 1;
    }

    method NewOrder(order: Order) returns (id: nat)
      requires Valid()
      modifies this
      ensures Valid() && View() == Step(old(View()), New(order)) && id == old(nextId)
      ensures id !in old(orders) && nextId == id + 1
      ensures orders == old(orders)[id := Entry(order.(id := id), Pending, 0, 0, order.quantity, 0)]
      ensures Listed(id, order.symbol, order.strategy)
    {
      StepInv(View(), New(order));
      id := nextId;
      nextId := nextId + 1;
      var o := order.(id := id);
      orders := orders[id := Entry(o, Pending, 0, 0, o.quantity, 0)];
      bySymbol := bySymbol[o.symbol := At(bySymbol, o.symbol) + {id}];
      byStrategy := byStrategy[o.strategy := At(byStrategy, o.strategy) + {id}];
    }

    /** In both indexes, under these keys. */
    predicate Listed(id: nat, symbol: nat, strategy: nat)
      reads this
    {
      symbol in bySymbol && id in bySymbol[symbol] && strategy in byStrategy && id in byStrategy[strategy]
    }

    /** In no set of either index. */
    predicate InNoIndex(id: nat)
      reads this
    {
      && (forall key :: key in bySymbol ==> id !in bySymbol[key])
      && (forall key :: key in byStrategy ==> id !in byStrategy[key])
    }

    lemma FinishedInNoIndex(id: nat)
      requires Valid() && id in orders
      requires orders[id].status.Filled? || orders[id].status.Cancelled? || orders[id].status.Rejected?
      ensures InNoIndex(id)
    {
      forall key | key in bySymbol ensures id !in bySymbol[key] {
        assert bySymbol[key] == At(View().bySymbol, key);
      }
      forall key | key in byStrategy ensures id !in byStrategy[key] {
        assert byStrategy[key] == At(View().byStrategy, key);
      }
    }

    method Unlist(id: nat)
      requires id in orders
      modifies this
      ensures View() == Unlisted(old(View()), id)
    {
      var o := orders[id].order;
      bySymbol := bySymbol[o.symbol := At(bySymbol, o.symbol) - {id}];
      byStrategy := byStrategy[o.strategy := At(byStrategy, o.strategy) - {id}];
    }

    method OnAccept(id: nat, ref: nat)
      requires Valid()
      modifies this
      ensures Valid() && View() == Step(old(View()), Accept(id, ref))
      ensures orders == if id in old(orders) && old(orders)[id].status.Pending?
                        then old(orders)[id := old(orders)[id].(status := Submitted, exchangeRef := ref)] else old(orders)
      ensures bySymbol == old(bySymbol) && byStrategy == old(byStrategy) && nextId == old(nextId)
    {
      StepInv(View(), Accept(id, ref));
      if id in orders && orders[id].status.Pending? {
        orders := orders[id := orders[id].(status := Submitted, exchangeRef := ref)];
      }
    }

    method OnFill(id: nat, filledQty: nat, price: int)
      requires Valid()
      modifies this
      ensures Valid() && View() == Step(old(View()), Fill(id, filledQty, price))
      ensures nextId == old(nextId)
      ensures id !in old(orders) || !(old(orders)[id].status.Submitted? || old(orders)[id].status.PartialFill?) ==>
        orders == old(orders) && bySymbol == old(bySymbol) && byStrategy == old(byStrategy)
      ensures id in old(orders) && (old(orders)[id].status.Submitted? || old(orders)[id].status.PartialFill?) ==>
        var e := old(orders)[id];
        var take := if filledQty < e.remaining then filledQty else e.remaining;
        && id in orders
        && orders == old(orders)[id := e.(filled := e.filled + take, remaining := e.remaining - take, avgPrice := orders[id].avgPrice,
                                          status := if take == e.remaining then Filled else PartialFill)]
        && IsTruncated(orders[id].avgPrice, e.avgPrice * e.filled + price * take, e.filled + take)
        && (take == e.remaining ==> InNoIndex(id))
        && (take < e.remaining ==> bySymbol == old(bySymbol) && byStrategy == old(byStrategy))
    {
      hide Indexed, At, Numbered, Quot, IsTruncated;
      StepInv(View(), Fill(id, filledQty, price));
      if id !in orders { return; }
      var e := orders[id];
      if !e.status.Submitted? && !e.status.PartialFill? { return; }
      assert QuantityRule(e);
      var qty := filledQty;
      var newFilled := e.filled + qty;
      if newFilled > e.order.quantity {
        qty := e.order.quantity - e.filled;
        newFilled := e.order.quantity;
      }
      var totalCost := e.avgPrice * e.filled + price * qty;
      QuotIsTruncated(totalCost, newFilled);
      e := e.(filled := newFilled, remaining := e.order.quantity - newFilled,
              avgPrice := if newFilled != 0 then Quot(totalCost, newFilled) else 0);
      if newFilled >= e.order.quantity {
        orders := orders[id := e.(status := Filled)];
        Unlist(id);
        FinishedInNoIndex(id);
      } else {
        orders := orders[id := e.(status := PartialFill)];
      }
    }

    method RequestCancel(id: nat) returns (ok: bool)
      requires Valid()
      modifies this
      ensures Valid() && View() == Step(old(View()), Event.RequestCancel(id))
      ensures ok <==> id in old(orders) && (old(orders)[id].status.Submitted? || old(orders)[id].status.PartialFill?)
      ensures orders == if ok then old(orders)[id := old(orders)[id].(status := PendingCancel)] else old(orders)
      ensures bySymbol == old(bySymbol) && byStrategy == old(byStrategy) && nextId == old(nextId)
    {
      StepInv(View(), Event.RequestCancel(id));
      if id !in orders { return false; }
      if !orders[id].status.Submitted? && !orders[id].status.PartialFill? { return false; }
      orders := orders[id := orders[id].(status := PendingCancel)];
      return true;
    }

    method OnCancel(id: nat) returns (ok: bool)
      requires Valid()
      modifies this
      ensures Valid() && View() == Step(old(View()), Cancel(id))
      ensures ok <==> id in old(orders) && old(orders)[id].status.PendingCancel?
      ensures orders == if ok then old(orders)[id := old(orders)[id].(status := Cancelled)] else old(orders)
      ensures if ok then InNoIndex(id) else bySymbol == old(bySymbol) && byStrategy == old(byStrategy)
      ensures nextId == old(nextId)
    {
      StepInv(View(), Cancel(id));
      if id !in orders || !orders[id].status.PendingCancel? { return false; }
      orders := orders[id := orders[id].(status := Cancelled)];
      Unlist(id);
      FinishedInNoIndex(id);
      return true;
    }

    method OnReject(id: nat)
      requires Valid()
      modifies this
      ensures Valid() && View() == Step(old(View()), Reject(id))
      ensures var acts := id in old(orders) && old(orders)[id].status.Pending?;
        && orders == (if acts then old(orders)[id := old(orders)[id].(status := Rejected)] else old(orders))
        && (if acts then InNoIndex(id) else bySymbol == old(bySymbol) && byStrategy == old(byStrategy))
      ensures nextId == old(nextId)
    {
      StepInv(View(), Reject(id));
      if id !in orders || !orders[id].status.Pending? { return; }
      orders := orders[id := orders[id].(status := Rejected)];
      Unlist(id);
      FinishedInNoIndex(id);
    }

    /** The ids of the live orders of one symbol, each once. */
    method OpenOrders(symbol: nat) returns (out: seq<nat>)
      requires Valid()
      ensures forall id :: id in out <==> id in orders && orders[id].order.symbol == symbol && Live(orders[id].status)
      ensures forall i, j :: 0 <= i < j < |out| ==> out[i] != out[j]
    {
      out := [];
      assert forall id :: id in At(bySymbol, symbol) <==> id in orders && orders[id].order.symbol == symbol && Live(orders[id].status);
      if symbol !in bySymbol { return; }
      var left := bySymbol[symbol];
      while left != {}
        invariant forall id :: id in bySymbol[symbol] <==> id in out || id in left
        invariant forall id :: id in out ==> id !in left
        invariant forall i, j :: 0 <= i < j < |out| ==> out[i] != out[j]
        decreases left
      {
        var id :| id in left;
        out := out + [id];
        left := left - {id};
      }
      assert forall id :: id in out <==> id in At(bySymbol, symbol);
    }
  }
}
