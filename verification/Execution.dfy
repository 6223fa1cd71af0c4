/**
 * The execution engine: signals become orders that pass the risk gate, are booked by
 * the order manager, and are filled at once when no sender is attached; execution
 * reports drive both books when one is.
 */
module Execution {
  import Oms
  import Risk

  datatype Signal = Signal(side: Oms.Side, locate: nat, price: int, strength: nat)

  /** Strength is a fraction of ten thousand. */
  const SCALE: nat := 10000

  datatype Config = Config(baseQty: nat, maxPosition: nat, maxDailyLoss: int, pause: int, flatten: int)

  datatype Engine = Engine(oms: Oms.State, risk: Risk.Account, flattened: bool)

  /** What an exchange report says: acceptance, execution, cancel or rejection of an order. */
  datatype Kind = Ack | Exec | Canceled | Rejection

  datatype Report = Report(kind: Kind, id: nat, ref: nat, qty: nat, price: int)

  ghost predicate Shape(e: Engine) {
    Oms.Inv(e.oms) && Risk.Shape(e.risk) && Dense(e.oms)
  }

  /** Order ids are handed out without gaps. */
  ghost predicate Dense(s: Oms.State) {
    s.nextId >= 1 && forall id: nat :: id in s.orders <==> 1 <= id < s.nextId
  }

  // ---- a signal, without a sender ----

  predicate Ignored(c: Config, sig: Signal, kind: Oms.OrderType) {
    || sig.side.NoSide? || sig.price < 0 || (kind.Limit? && sig.price <= 0)
    || c.baseQty * sig.strength / SCALE == 0
  }

  function OrderFor(c: Config, sig: Signal, strategy: nat, kind: Oms.OrderType, id: nat): Oms.Order {
    Oms.Order(id, strategy, sig.locate, sig.side, kind, sig.price, c.baseQty * sig.strength / SCALE)
  }

  ghost predicate Passes(c: Config, a: Risk.Account, o: Oms.Order)
    requires Risk.Shape(a)
  {
    Risk.Passes(a, c.maxPosition, c.maxDailyLoss, c.pause, o)
  }

  /** The order manager's books after registering o and rejecting it, or accepting and filling it whole. */
  ghost function Settled(s: Oms.State, o: Oms.Order, passes: bool): (t: Oms.State)
    requires Oms.Inv(s)
    ensures Oms.Inv(t)
  {
    Oms.StepInv(s, Oms.New(o));
    var s1 := Oms.Step(s, Oms.New(o));
    if !passes then
      Oms.StepInv(s1, Oms.Reject(s.nextId));
      Oms.Step(s1, Oms.Reject(s.nextId))
    else
      Oms.StepInv(s1, Oms.Accept(s.nextId, 0));
      var s2 := Oms.Step(s1, Oms.Accept(s.nextId, 0));
      Oms.StepInv(s2, Oms.Fill(s.nextId, o.quantity, o.price));
      Oms.Step(s2, Oms.Fill(s.nextId, o.quantity, o.price))
  }

  ghost function Submitted(c: Config, e: Engine, sig: Signal, strategy: nat, kind: Oms.OrderType): (f: Engine)
    requires Shape(e)
  {
    if Ignored(c, sig, kind) then e
    else
      var o := OrderFor(c, sig, strategy, kind, e.oms.nextId);
      var passes := Passes(c, e.risk, o);
      e.(oms := Settled(e.oms, o, passes),
         risk := if passes then Risk.Step(e.risk, Risk.Fill(o.side, o.symbol, o.price, o.quantity)) else e.risk)
  }

  /** The books gain exactly one finished order: filled whole at its own price, or rejected untouched. */
  lemma SettledEntry(s: Oms.State, o: Oms.Order, passes: bool)
    requires Oms.Inv(s) && Dense(s) && o.quantity > 0 && o.id == s.nextId
    ensures var t := Settled(s, o, passes);
      && t.nextId == s.nextId + 1 && Dense(t)
      && t.orders == s.orders[o.id := if passes then Oms.Entry(o, Oms.Filled, 0, o.quantity, 0, o.price)
                                      else Oms.Entry(o, Oms.Rejected, 0, 0, o.quantity, 0)]
  {
    hide Oms.Indexed, Oms.At;
    if passes { WholeFillPrice(o.price, o.quantity); }
  }

  lemma WholeFillPrice(price: int, qty: nat)
    requires qty > 0
    ensures Oms.Quot(0 * 0 + price * qty, qty) == price
  {
    Oms.QuotBetween(price * qty, qty, price, price);
  }

  // ---- positions against the order manager's books ----

  /** Bought less sold, in one slot, over the orders below n. */
  ghost function NetFilled(s: Oms.State, l: nat, n: nat): int {
    if n == 0 then 0 else NetFilled(s, l, n - 1) + Signed(s, l, n - 1)
  }

  function Signed(s: Oms.State, l: nat, id: nat): int {
    if id !in s.orders || Risk.Slot(s.orders[id].order.symbol) != l then 0
    else if s.orders[id].order.side.Buy? then s.orders[id].filled
    else if s.orders[id].order.side.Sell? then 0 - s.orders[id].filled
    else 0
  }

  lemma {:induction false} NetChanges(s: Oms.State, t: Oms.State, l: nat, id: nat, n: nat)
    requires forall i: nat :: i < n && i != id ==> Signed(s, l, i) == Signed(t, l, i)
    ensures NetFilled(t, l, n) == NetFilled(s, l, n) + if id < n then Signed(t, l, id) - Signed(s, l, id) else 0
    decreases n
  {
    if n > 0 { NetChanges(s, t, l, id, n - 1); }
  }

  ghost predicate Agrees(e: Engine)
    requires Risk.Shape(e.risk)
  {
    forall l :: 0 <= l < Risk.LOCATES ==> e.risk.qty[l] == NetFilled(e.oms, l, e.oms.nextId)
  }

  ghost predicate WithinLimits(c: Config, e: Engine)
    requires Risk.Shape(e.risk)
  {
    forall l :: 0 <= l < Risk.LOCATES ==> 0 <= e.risk.qty[l] <= c.maxPosition
  }

  ghost predicate AllFinished(e: Engine) {
    forall id :: id in e.oms.orders ==>
      var o := e.oms.orders[id];
      (o.status.Filled? && o.filled == o.order.quantity) || (o.status.Rejected? && o.filled == 0)
  }

  /**
   * A signal that is not ignored adds one order with the signal's own side, instrument and
   * price, for its share of the base quantity. Within the limits it is filled whole, and a
   * BUY raises and a SELL lowers its own position by that quantity; otherwise it is
   * rejected and nothing else changes.
   */
  lemma SignalMoves(c: Config, e: Engine, sig: Signal, strategy: nat, kind: Oms.OrderType)
    requires Shape(e)
    ensures var f := Submitted(c, e, sig, strategy, kind);
      var q, l, id := c.baseQty * sig.strength / 10000, if sig.locate < 65536 then sig.locate else 0, e.oms.nextId;
      var silent := sig.side.NoSide? || sig.price < 0 || (kind.Limit? && sig.price <= 0) || q == 0;
      var passes :=
        && e.risk.realized > -c.maxDailyLoss && e.risk.peak - Risk.Equity(e.risk) <= c.pause
        && (sig.side.Buy? ==> e.risk.qty[l] + q <= c.maxPosition) && (sig.side.Sell? ==> q <= e.risk.qty[l]);
      if silent then f == e
      else
        && id !in e.oms.orders && f.oms.nextId == id + 1 && f.flattened == e.flattened
        && f.oms.orders.Keys == e.oms.orders.Keys + {id}
        && (forall i :: i in e.oms.orders ==> f.oms.orders[i] == e.oms.orders[i])
        && f.oms.orders[id].order == Oms.Order(id, strategy, sig.locate, sig.side, kind, sig.price, q)
        && (if passes
            then && f.oms.orders[id].status.Filled? && f.oms.orders[id].filled == q && f.oms.orders[id].avgPrice == sig.price
                 && f.risk.mark == e.risk.mark
                 && f.risk.qty == e.risk.qty[l := if sig.side.Buy? then e.risk.qty[l] + q else e.risk.qty[l] - q]
            else f.oms.orders[id].status.Rejected? && f.oms.orders[id].filled == 0 && f.risk == e.risk)
  {
    hide Oms.Inv, Oms.Step, Risk.Step, Settled;
    if !Ignored(c, sig, kind) {
      var o := OrderFor(c, sig, strategy, kind, e.oms.nextId);
      SettledEntry(e.oms, o, Passes(c, e.risk, o));
      Risk.StepMoves(e.risk, Risk.Fill(o.side, o.symbol, o.price, o.quantity));
    }
  }

  lemma SubmitKeeps(c: Config, e: Engine, sig: Signal, strategy: nat, kind: Oms.OrderType)
    requires Shape(e) && Agrees(e) && WithinLimits(c, e) && AllFinished(e)
    ensures var f := Submitted(c, e, sig, strategy, kind);
      Shape(f) && Agrees(f) && WithinLimits(c, f) && AllFinished(f)
  {
    hide Oms.Inv, Oms.Step, Risk.Step, Settled, NetFilled;
    if !Ignored(c, sig, kind) {
      var f := Submitted(c, e, sig, strategy, kind);
      var o := OrderFor(c, sig, strategy, kind, e.oms.nextId);
      SettledEntry(e.oms, o, Passes(c, e.risk, o));
      if Passes(c, e.risk, o) { Risk.StepMoves(e.risk, Risk.Fill(o.side, o.symbol, o.price, o.quantity)); }
      forall l | 0 <= l < Risk.LOCATES ensures f.risk.qty[l] == NetFilled(f.oms, l, f.oms.nextId) {
        NetChanges(e.oms, f.oms, l, o.id, e.oms.nextId);
        NetNext(f.oms, l, e.oms.nextId);
      }
    }
  }

  lemma NetNext(s: Oms.State, l: nat, n: nat)
    ensures NetFilled(s, l, n + 1) == NetFilled(s, l, n) + Signed(s, l, n)
  {
  }

  datatype Input =
    | Submit(sig: Signal, strategy: nat, kind: Oms.OrderType)
    | Mark(symbol: nat, price: int)

  ghost function Next(c: Config, e: Engine, i: Input): (f: Engine)
    requires Shape(e)
  {
    match i
    case Submit(sig, strategy, kind) => Submitted(c, e, sig, strategy, kind)
    case Mark(symbol, price) => e.(risk := Risk.Step(e.risk, Risk.Mark(symbol, price)))
  }

  function Start(initial: int): Engine {
    Engine(Oms.Empty(), Risk.Opening(initial), false)
  }

  ghost predicate Trading(c: Config, initial: int, inputs: seq<Input>, tr: seq<Engine>) {
    && |tr| == |inputs| + 1 && tr[0] == Start(initial)
    && forall k :: 0 <= k < |inputs| ==> Shape(tr[k]) && tr[k + 1] == Next(c, tr[k], inputs[k])
  }

  /**
   * Without a sender, over any run of signals and marks: every order is FILLED in full
   * or REJECTED untouched, every position lies between 0 and the limit, and every
   * position equals the filled buys less the filled sells on the order manager's books.
   */
  lemma {:induction false} NoSenderRun(c: Config, initial: int, inputs: seq<Input>, tr: seq<Engine>, k: nat)
    requires Trading(c, initial, inputs, tr) && k < |tr|
    ensures Shape(tr[k]) && Agrees(tr[k]) && WithinLimits(c, tr[k]) && AllFinished(tr[k])
  {
    hide Shape, Agrees, WithinLimits, AllFinished, Risk.Step, Submitted;
    if k == 0 {
      StartOk(c, initial);
    } else {
      NoSenderRun(c, initial, inputs, tr, k - 1);
      var e, i := tr[k - 1], inputs[k - 1];
      match i
      case Submit(sig, strategy, kind) => SubmitKeeps(c, e, sig, strategy, kind);
      case Mark(symbol, price) => MarkKeeps(c, e, symbol, price);
    }
  }

  /** What the signals among the first k inputs traded in entry l, read off the signals: a filled BUY adds its quantity, a filled SELL takes it. */
  function Traded(c: Config, inputs: seq<Input>, tr: seq<Engine>, l: nat, k: nat): int
    requires |tr| == |inputs| + 1 && k < |tr|
  {
    if k == 0 then 0
    else
      var before, i, books := Traded(c, inputs, tr, l, k - 1), inputs[k - 1], tr[k].oms.orders;
      if !i.Submit? || Risk.Slot(i.sig.locate) != l then before
      else
        var id, q := tr[k - 1].oms.nextId, c.baseQty * i.sig.strength / 10000;
        if id !in books || !books[id].status.Filled? then before
        else if i.sig.side.Buy? then before + q else before - q
  }

  /** Over every run the position in an entry is exactly what its signals traded. */
  lemma {:induction false} PositionIsTraded(c: Config, initial: int, inputs: seq<Input>, tr: seq<Engine>, l: nat, k: nat)
    requires Trading(c, initial, inputs, tr) && l < Risk.LOCATES && k < |tr|
    ensures Risk.Shape(tr[k].risk) && tr[k].risk.qty[l] == Traded(c, inputs, tr, l, k)
  {
    hide Shape, Agrees, WithinLimits, AllFinished, Risk.Step, Submitted;
    NoSenderRun(c, initial, inputs, tr, k);
    ShapeOfRisk(tr[k]);
    if k > 0 {
      PositionIsTraded(c, initial, inputs, tr, l, k - 1);
      ShapeOfRisk(tr[k - 1]);
      match inputs[k - 1]
      case Submit(sig, strategy, kind) => SignalMoves(c, tr[k - 1], sig, strategy, kind);
      case Mark(symbol, price) => Risk.StepMoves(tr[k - 1].risk, Risk.Mark(symbol, price));
    }
  }

  lemma ShapeOfRisk(e: Engine)
    requires Shape(e)
    ensures Risk.Shape(e.risk) && e.oms.nextId !in e.oms.orders
  {
  }

  lemma StartOk(c: Config, initial: int)
    ensures var e := Start(initial); Shape(e) && Agrees(e) && WithinLimits(c, e) && AllFinished(e)
  {
    forall l | 0 <= l < Risk.LOCATES ensures NetFilled(Oms.Empty(), l, 1) == 0 {
      NetNext(Oms.Empty(), l, 0);
    }
  }

  lemma MarkKeeps(c: Config, e: Engine, symbol: nat, price: int)
    requires Shape(e) && Agrees(e) && WithinLimits(c, e) && AllFinished(e)
    ensures var f := e.(risk := Risk.Step(e.risk, Risk.Mark(symbol, price)));
      Shape(f) && Agrees(f) && WithinLimits(c, f) && AllFinished(f)
  {
  }

  // ---- execution reports ----

  /** Once, when the drawdown passes the second threshold: cancel every working order whose request goes out. */
  ghost function Flattened(c: Config, e: Engine, sent: set<nat>): (f: Engine)
    requires Shape(e)
  {
    if e.flattened || e.risk.peak - Risk.Equity(e.risk) <= c.flatten then e
    else e.(oms := AllCancelling(e.oms, sent), flattened := true)
  }

  /** Past the second threshold every working order waits for its cancel, once; before it, and the second time, nothing happens. */
  lemma FlattenMoves(c: Config, e: Engine)
    requires Shape(e)
    ensures var f := Flattened(c, e, e.oms.orders.Keys);
      var breach := !e.flattened && e.risk.peak - Risk.Equity(e.risk) > c.flatten;
      && f.flattened == (e.flattened || breach) && f.risk == e.risk
      && f.oms.orders.Keys == e.oms.orders.Keys
      && (forall id :: id in e.oms.orders ==>
            var was := e.oms.orders[id];
            f.oms.orders[id] == if breach && (was.status.Submitted? || was.status.PartialFill?) then was.(status := Oms.PendingCancel) else was)
      && f.oms.bySymbol == e.oms.bySymbol && f.oms.byStrategy == e.oms.byStrategy && f.oms.nextId == e.oms.nextId
  {
    hide Shape, Risk.Equity;
  }

  function AllCancelling(s: Oms.State, sent: set<nat>): Oms.State {
    s.(orders := map id | id in s.orders :: if id in sent then Cancelling(s.orders[id]) else s.orders[id])
  }

  function Cancelling(e: Oms.Entry): Oms.Entry {
    if Oms.Working(e.status) then e.(status := Oms.PendingCancel) else e
  }

  ghost function Reported(c: Config, e: Engine, r: Report, sent: set<nat>): (f: Engine)
    requires Shape(e)
    ensures Shape(f)
  {
    if r.id !in e.oms.orders then e
    else
      match r.kind
      case Ack =>
        StepShape(e, Oms.Accept(r.id, r.ref));
        e.(oms := Oms.Step(e.oms, Oms.Accept(r.id, r.ref)))
      case Canceled =>
        StepShape(e, Oms.Cancel(r.id));
        e.(oms := Oms.Step(e.oms, Oms.Cancel(r.id)))
      case Rejection =>
        StepShape(e, Oms.Reject(r.id));
        e.(oms := Oms.Step(e.oms, Oms.Reject(r.id)))
      case Exec =>
        var f := Executed(e, r);
        FlattenedKeeps(c, f, sent);
        Flattened(c, f, sent)
  }

  /** An execution: the order manager clamps the quantity, risk takes it as reported, at the order's own price. */
  ghost function Executed(e: Engine, r: Report): (f: Engine)
    requires Shape(e) && r.id in e.oms.orders
    ensures Shape(f)
  {
    var o := e.oms.orders[r.id].order;
    StepShape(e, Oms.Fill(r.id, r.qty, r.price));
    e.(oms := Oms.Step(e.oms, Oms.Fill(r.id, r.qty, r.price)),
       risk := Risk.Step(e.risk, Risk.Fill(o.side, o.symbol, o.price, r.qty)))
  }

  lemma StepShape(e: Engine, ev: Oms.Event)
    requires Shape(e) && !ev.New?
    ensures Shape(e.(oms := Oms.Step(e.oms, ev)))
  {
    hide Oms.Indexed;
    Oms.StepInv(e.oms, ev);
  }

  lemma FlattenedKeeps(c: Config, e: Engine, sent: set<nat>)
    requires Shape(e)
    ensures var f := Flattened(c, e, sent);
      Shape(f) && f.risk == e.risk && f.oms.nextId == e.oms.nextId && (forall l, id :: Signed(f.oms, l, id) == Signed(e.oms, l, id))
  {
  }

  /** What the order manager credits of an execution. */
  function Credited(e: Oms.Entry, qty: nat): int {
    if Oms.Working(e.status) then Oms.Clamped(e, qty) else 0
  }

  /**
   * When an execution moves the two books alike: a buy must be working and not overfill;
   * a sell must also be covered by the position, or overfill by exactly what is missing.
   */
  predicate Conforms(e: Oms.Entry, held: int, qty: nat) {
    match e.order.side
    case Buy => qty == 0 || (Oms.Working(e.status) && e.filled + qty <= e.order.quantity)
    case Sell =>
      if !Oms.Working(e.status) then qty == 0 || held == 0
      else if e.filled + qty <= e.order.quantity then qty <= held
      else held == e.order.quantity - e.filled
    case NoSide => true
  }

  /** Books that agreed before an execution report agree after it if and only if the report conforms. */
  lemma AgreeIffConforms(c: Config, e: Engine, r: Report, sent: set<nat>)
    requires Shape(e) && Agrees(e) && r.kind.Exec? && r.id in e.oms.orders
    ensures var entry := e.oms.orders[r.id];
      Agrees(Reported(c, e, r, sent)) <==> Conforms(entry, e.risk.qty[Risk.Slot(entry.order.symbol)], r.qty)
  {
    hide Oms.Inv, Oms.Step, Risk.Step, NetFilled, Flattened;
    var entry := e.oms.orders[r.id];
    var own := Risk.Slot(entry.order.symbol);
    var mid := Executed(e, r);
    var f := Reported(c, e, r, sent);
    FlattenedKeeps(c, mid, sent);
    Risk.StepMoves(e.risk, Risk.Fill(entry.order.side, entry.order.symbol, entry.order.price, r.qty));
    CreditedMoves(e.oms, r);
    forall l | 0 <= l < Risk.LOCATES
      ensures NetFilled(f.oms, l, f.oms.nextId) == NetFilled(e.oms, l, e.oms.nextId) + Signed(mid.oms, l, r.id) - Signed(e.oms, l, r.id)
    {
      NetChanges(e.oms, mid.oms, l, r.id, e.oms.nextId);
      NetChanges(mid.oms, f.oms, l, r.id, e.oms.nextId);
    }
    assert e.risk.qty[own] == NetFilled(e.oms, own, e.oms.nextId);
    assert Agrees(f) <==> f.risk.qty[own] == NetFilled(f.oms, own, f.oms.nextId);
  }

  lemma CreditedMoves(s: Oms.State, r: Report)
    requires Oms.Inv(s) && Dense(s) && r.id in s.orders
    ensures var t := Oms.Step(s, Oms.Fill(r.id, r.qty, r.price));
      && t.nextId == s.nextId && t.orders.Keys == s.orders.Keys
      && t.orders[r.id].order == s.orders[r.id].order
      && t.orders[r.id].filled == s.orders[r.id].filled + Credited(s.orders[r.id], r.qty)
      && Oms.QuantityRule(s.orders[r.id])
      && (forall id :: id in s.orders && id != r.id ==> t.orders[id] == s.orders[id])
  {
  }

  // ---- runs with a sender ----

  /** A signal when orders go to an exchange: registered, rejected by the gate or by a failed send, else left pending. */
  ghost function Placed(c: Config, e: Engine, sig: Signal, strategy: nat, kind: Oms.OrderType, sendOk: bool): (f: Engine)
    requires Shape(e)
  {
    if Ignored(c, sig, kind) then e
    else
      var o := OrderFor(c, sig, strategy, kind, e.oms.nextId);
      e.(oms := if Passes(c, e.risk, o) && sendOk then Oms.Step(e.oms, Oms.New(o)) else Settled(e.oms, o, false))
  }

  /** With a sender, an order within the limits that goes out waits for its reports; one refused by the gate or by the send is rejected. No position moves. */
  lemma PlacedEntry(c: Config, e: Engine, sig: Signal, strategy: nat, kind: Oms.OrderType, sendOk: bool)
    requires Shape(e)
    ensures var f := Placed(c, e, sig, strategy, kind, sendOk);
      var q, l, id := c.baseQty * sig.strength / 10000, if sig.locate < 65536 then sig.locate else 0, e.oms.nextId;
      var silent := sig.side.NoSide? || sig.price < 0 || (kind.Limit? && sig.price <= 0) || q == 0;
      var passes :=
        && e.risk.realized > -c.maxDailyLoss && e.risk.peak - Risk.Equity(e.risk) <= c.pause
        && (sig.side.Buy? ==> e.risk.qty[l] + q <= c.maxPosition) && (sig.side.Sell? ==> q <= e.risk.qty[l]);
      var o := Oms.Order(id, strategy, sig.locate, sig.side, kind, sig.price, q);
      if silent then f == e
      else
        && f.risk == e.risk && f.flattened == e.flattened && f.oms.nextId == id + 1 && id !in e.oms.orders
        && f.oms.orders == e.oms.orders[id := Oms.Entry(o, if passes && sendOk then Oms.Pending else Oms.Rejected, 0, 0, q, 0)]
  {
    hide Oms.Inv, Oms.Step, Settled;
    if !Ignored(c, sig, kind) {
      var o := OrderFor(c, sig, strategy, kind, e.oms.nextId);
      Registered(e.oms, o);
      SettledEntry(e.oms, o, false);
    }
  }

  lemma PlacedKeeps(c: Config, e: Engine, sig: Signal, strategy: nat, kind: Oms.OrderType, sendOk: bool)
    requires Shape(e) && Agrees(e)
    ensures var f := Placed(c, e, sig, strategy, kind, sendOk); Shape(f) && Agrees(f)
  {
    hide Oms.Inv, Oms.Step, Settled, NetFilled, Passes;
    if !Ignored(c, sig, kind) {
      var f := Placed(c, e, sig, strategy, kind, sendOk);
      var o := OrderFor(c, sig, strategy, kind, e.oms.nextId);
      Oms.StepInv(e.oms, Oms.New(o));
      Registered(e.oms, o);
      SettledEntry(e.oms, o, false);
      forall l | 0 <= l < Risk.LOCATES ensures f.risk.qty[l] == NetFilled(f.oms, l, f.oms.nextId) {
        NetChanges(e.oms, f.oms, l, o.id, e.oms.nextId);
        NetNext(f.oms, l, e.oms.nextId);
      }
    }
  }

  lemma Registered(s: Oms.State, o: Oms.Order)
    requires Oms.Inv(s) && Dense(s) && o.id == s.nextId
    ensures var t := Oms.Step(s, Oms.New(o));
      t.nextId == s.nextId + 1 && Dense(t) && t.orders == s.orders[o.id := Oms.Entry(o, Oms.Pending, 0, 0, o.quantity, 0)]
  {
  }

  /** Acceptances, cancels and rejections move no quantity on either side. */
  lemma QuietReport(c: Config, e: Engine, r: Report, sent: set<nat>)
    requires Shape(e) && Agrees(e) && !r.kind.Exec?
    ensures Agrees(Reported(c, e, r, sent))
  {
    hide Oms.Indexed, Oms.At, NetFilled;
    var f := Reported(c, e, r, sent);
    forall l | 0 <= l < Risk.LOCATES ensures f.risk.qty[l] == NetFilled(f.oms, l, f.oms.nextId) {
      NetChanges(e.oms, f.oms, l, r.id, e.oms.nextId);
    }
  }

  datatype Outside =
    | Place(sig: Signal, strategy: nat, kind: Oms.OrderType, sendOk: bool)
    | Got(r: Report, sent: set<nat>)

  ghost function NextOutside(c: Config, e: Engine, o: Outside): (f: Engine)
    requires Shape(e)
  {
    match o
    case Place(sig, strategy, kind, sendOk) => Placed(c, e, sig, strategy, kind, sendOk)
    case Got(r, sent) => Reported(c, e, r, sent)
  }

  ghost predicate Connected(c: Config, initial: int, outs: seq<Outside>, tr: seq<Engine>) {
    && |tr| == |outs| + 1 && tr[0] == Start(initial)
    && forall k :: 0 <= k < |outs| ==> Shape(tr[k]) && tr[k + 1] == NextOutside(c, tr[k], outs[k])
  }

  /** Every execution report of the run conforms when it arrives. */
  ghost predicate Conforming(outs: seq<Outside>, tr: seq<Engine>)
    requires |tr| == |outs| + 1
  {
    forall k :: 0 <= k < |outs| && Shape(tr[k]) && outs[k].Got? && outs[k].r.kind.Exec? && outs[k].r.id in tr[k].oms.orders ==>
      var entry := tr[k].oms.orders[outs[k].r.id];
      Conforms(entry, tr[k].risk.qty[Risk.Slot(entry.order.symbol)], outs[k].r.qty)
  }

  /** With an exchange attached, positions and order manager agree for as long as executions conform. */
  lemma {:induction false} SenderRun(c: Config, initial: int, outs: seq<Outside>, tr: seq<Engine>, k: nat)
    requires Connected(c, initial, outs, tr) && Conforming(outs, tr) && k < |tr|
    ensures Shape(tr[k]) && Agrees(tr[k])
  {
    hide Shape, Agrees, Placed, Reported, Conforms;
    if k == 0 {
      StartOk(c, initial);
    } else {
      SenderRun(c, initial, outs, tr, k - 1);
      var e := tr[k - 1];
      match outs[k - 1]
      case Place(sig, strategy, kind, sendOk) => PlacedKeeps(c, e, sig, strategy, kind, sendOk);
      case Got(r, sent) =>
        if r.id !in e.oms.orders { UnknownReport(c, e, r, sent); }
        else if r.kind.Exec? { AgreeIffConforms(c, e, r, sent); }
        else { QuietReport(c, e, r, sent); }
    }
  }

  lemma UnknownReport(c: Config, e: Engine, r: Report, sent: set<nat>)
    requires Shape(e) && r.id !in e.oms.orders
    ensures Reported(c, e, r, sent) == e
  {
  }

  // ---- the object ----

  class ExecutionEngine {
    const orderManager: Oms.OrderManager
    const riskManager: Risk.RiskManager
    var baseQty: nat
    var flattenIssued: bool

    ghost function View(): Engine
      reads this, orderManager, riskManager, riskManager.qty, riskManager.avgCost, riskManager.markPrice
    {
      Engine(orderManager.View(), riskManager.View(), flattenIssued)
    }

    ghost function Settings(): Config
      reads this, riskManager
    {
      Config(baseQty, riskManager.maxPosition, riskManager.maxDailyLoss, riskManager.maxDrawdownPause, riskManager.maxDrawdownFlatten)
    }

    ghost predicate Valid()
      reads this, orderManager, riskManager, riskManager.qty, riskManager.avgCost, riskManager.markPrice
    {
      orderManager.Valid() && riskManager.Valid() && Shape(View())
    }

    constructor (om: Oms.OrderManager, rm: Risk.RiskManager)
      requires om.Valid() && rm.Valid() && Dense(om.View())
      ensures Valid() && orderManager == om && riskManager == rm
      ensures View() == Engine(om.View(), rm.View(), false) && baseQty == 100
    {
      orderManager, riskManager, baseQty, flattenIssued := om, rm, 100, false;
    }

    /** The part under the lock: the order is registered, passes the gate or not, and is filled at once in-process. */
    method Trade(request: Oms.Order) returns (id: nat)
      requires Valid() && request.quantity > 0 && request.id == 0
      modifies orderManager, riskManager, riskManager.qty, riskManager.avgCost
      ensures Valid() && Settings() == old(Settings()) && flattenIssued == old(flattenIssued)
      ensures id == old(orderManager.nextId)
      ensures var o := request.(id := id);
        var passes := Passes(old(Settings()), old(riskManager.View()), o);
        && orderManager.View() == Settled(old(orderManager.View()), o, passes)
        && riskManager.View() == if passes then Risk.Step(old(riskManager.View()), Risk.Fill(o.side, o.symbol, o.price, o.quantity))
                                 else old(riskManager.View())
    {
      hide Oms.Inv, Oms.Step, Risk.Step, Risk.Shape, Oms.OrderManager.Valid, Risk.RiskManager.Valid;
      ghost var before := orderManager.View();
      id := orderManager.NewOrder(request);
      var order := request.(id := id);
      SettledEntry(before, order, Passes(Settings(), riskManager.View(), order));
      IdIsOverwritten(before, order);
      var ok := riskManager.CheckOrder(order);
      if !ok {
        orderManager.OnReject(id);
        return;
      }
      orderManager.OnAccept(id, 0);
      orderManager.OnFill(id, order.quantity, order.price);
      riskManager.OnFill(order, order.quantity);
    }

    /** A signal becomes an order, filled at once in-process; 0 when there is nothing to order. */
    method SubmitSignal(sig: Signal, strategy: nat, kind: Oms.OrderType) returns (id: nat)
      requires Valid()
      modifies orderManager, riskManager, riskManager.qty, riskManager.avgCost
      ensures Valid() && Settings() == old(Settings())
      ensures View() == Submitted(Settings(), old(View()), sig, strategy, kind)
      ensures var q, l := baseQty * sig.strength / 10000, if sig.locate < 65536 then sig.locate else 0;
        var held := old(riskManager.qty[..])[l];
        var silent := sig.side.NoSide? || sig.price < 0 || (kind.Limit? && sig.price <= 0) || q == 0;
        var passes :=
          && old(riskManager.realizedPnl) > -riskManager.maxDailyLoss
          && old(riskManager.equityPeak - Risk.Equity(riskManager.View())) <= riskManager.maxDrawdownPause
          && (sig.side.Buy? ==> held + q <= riskManager.maxPosition) && (sig.side.Sell? ==> q <= held);
        if silent then id == 0 && View() == old(View())
        else
          && id == old(orderManager.nextId) && id !in old(orderManager.orders) && id in orderManager.orders
          && orderManager.orders == old(orderManager.orders)[id := orderManager.orders[id]]
          && orderManager.orders[id].order == Oms.Order(id, strategy, sig.locate, sig.side, kind, sig.price, q)
          && (if passes
              then && orderManager.orders[id].status.Filled? && orderManager.orders[id].filled == q
                   && orderManager.orders[id].avgPrice == sig.price
                   && riskManager.qty[..] == old(riskManager.qty[..])[l := if sig.side.Buy? then held + q else held - q]
              else orderManager.orders[id].status.Rejected? && orderManager.orders[id].filled == 0
                   && riskManager.View() == old(riskManager.View()))
    {
      hide Oms.Inv, Oms.Step, Risk.Step, Risk.Shape, Passes, Settled, Risk.Equity, Oms.OrderManager.Valid, Risk.RiskManager.Valid;
      SignalMoves(Settings(), View(), sig, strategy, kind);
      if sig.side.NoSide? || sig.price < 0 { return 0; }
      if kind.Limit? && sig.price <= 0 { return 0; }
      var qty := baseQty * sig.strength / SCALE;
      if qty == 0 { return 0; }
      id := Trade(Oms.Order(0, strategy, sig.locate, sig.side, kind, sig.price, qty));
    }

    method FlattenOnDrawdown()
      requires Valid()
      modifies this`flattenIssued, orderManager
      ensures Valid() && Settings() == old(Settings())
      ensures View() == Flattened(Settings(), old(View()), old(orderManager.orders.Keys))
      ensures var breach := !old(flattenIssued)
          && old(riskManager.equityPeak - Risk.Equity(riskManager.View())) > riskManager.maxDrawdownFlatten;
        && flattenIssued == (old(flattenIssued) || breach)
        && orderManager.orders.Keys == old(orderManager.orders.Keys)
        && (forall id :: id in orderManager.orders ==>
              var e := old(orderManager.orders)[id];
              orderManager.orders[id] ==
                if breach && (e.status.Submitted? || e.status.PartialFill?) then e.(status := Oms.PendingCancel) else e)
        && orderManager.bySymbol == old(orderManager.bySymbol) && orderManager.byStrategy == old(orderManager.byStrategy)
        && orderManager.nextId == old(orderManager.nextId)
    {
      hide Oms.Inv, Oms.Step, Risk.Shape, Risk.Total, Risk.Equity, Risk.RiskManager.Valid;
      FlattenMoves(Settings(), View());
      if flattenIssued { return; }
      var broken := riskManager.DrawdownFlatten();
      if !broken { return; }
      FlattenedKeeps(Settings(), View(), orderManager.orders.Keys);
      flattenIssued := true;
      ghost var s := orderManager.View();
      var left := orderManager.orders.Keys;
      while left != {}
        invariant left <= s.orders.Keys && orderManager.Valid() && flattenIssued
        invariant orderManager.View() == AllCancelling(s, s.orders.Keys - left)
        decreases left
      {
        var id :| id in left;
        CancelOneMore(s, s.orders.Keys - left, id);
        if orderManager.orders[id].status.Submitted? || orderManager.orders[id].status.PartialFill? {
          var _ := orderManager.RequestCancel(id);
        }
        assert s.orders.Keys - (left - {id}) == s.orders.Keys - left + {id};
        left := left - {id};
      }
      assert s.orders.Keys - left == s.orders.Keys;
    }

    /** A fill of a known order goes to both books, and the drawdown is looked at. */
    method OnOrderFill(id: nat, qty: nat, price: int)
      requires Valid()
      modifies this`flattenIssued, orderManager, riskManager, riskManager.qty, riskManager.avgCost
      ensures Valid() && Settings() == old(Settings())
      ensures id !in old(orderManager.orders) ==> View() == old(View())
      ensures View() == Reported(Settings(), old(View()), Report(Exec, id, 0, qty, price), old(orderManager.orders.Keys))
      ensures id in old(orderManager.orders) ==>
        var e := old(orderManager.orders)[id];
        var take := if !(e.status.Submitted? || e.status.PartialFill?) then 0 else if qty < e.remaining then qty else e.remaining;
        var l := if e.order.symbol < 65536 then e.order.symbol else 0;
        var held := old(riskManager.qty[..])[l];
        && orderManager.orders.Keys == old(orderManager.orders.Keys)
        && (forall i :: i in orderManager.orders ==>
              && orderManager.orders[i].order == old(orderManager.orders)[i].order
              && orderManager.orders[i].filled == old(orderManager.orders)[i].filled + if i == id then take else 0)
        && riskManager.qty[..] == match e.order.side
           case Buy => old(riskManager.qty[..])[l := held + qty]
           case Sell => old(riskManager.qty[..])[l := if qty < held then held - qty else 0]
           case NoSide => old(riskManager.qty[..])
    {
      hide Flattened, Oms.Step, Oms.IsTruncated, Risk.Step, Risk.Equity, Risk.Peaked, Oms.Inv, Risk.Shape;
      if id !in orderManager.orders { return; }
      CreditedMoves(orderManager.View(), Report(Exec, id, 0, qty, price));
      var order := orderManager.orders[id].order;
      orderManager.OnFill(id, qty, price);
      riskManager.OnFill(order, qty);
      FlattenOnDrawdown();
    }

    /** A report by its kind; an execution does what a fill does. */
    method OnOrderReport(r: Report)
      requires Valid()
      modifies this`flattenIssued, orderManager, riskManager, riskManager.qty, riskManager.avgCost
      ensures Valid() && Settings() == old(Settings())
      ensures View() == Reported(Settings(), old(View()), r, old(orderManager.orders.Keys))
      ensures r.id !in old(orderManager.orders) ==> View() == old(View())
      ensures r.id in old(orderManager.orders) && !r.kind.Exec? ==>
        var e := old(orderManager.orders)[r.id];
        var to := match r.kind
          case Ack => if e.status.Pending? then e.(status := Oms.Submitted, exchangeRef := r.ref) else e
          case Canceled => if e.status.PendingCancel? then e.(status := Oms.Cancelled) else e
          case Rejection => if e.status.Pending? then e.(status := Oms.Rejected) else e;
        orderManager.orders == old(orderManager.orders)[r.id := to] && riskManager.View() == old(riskManager.View())
      ensures r.id in old(orderManager.orders) && r.kind.Exec? ==>
        var e := old(orderManager.orders)[r.id];
        var take := if !(e.status.Submitted? || e.status.PartialFill?) then 0 else if r.qty < e.remaining then r.qty else e.remaining;
        var l := if e.order.symbol < 65536 then e.order.symbol else 0;
        var held := old(riskManager.qty[..])[l];
        && orderManager.orders.Keys == old(orderManager.orders.Keys)
        && (forall id :: id in orderManager.orders ==>
              && orderManager.orders[id].order == old(orderManager.orders)[id].order
              && orderManager.orders[id].filled == old(orderManager.orders)[id].filled + if id == r.id then take else 0)
        && riskManager.qty[..] == match e.order.side
           case Buy => old(riskManager.qty[..])[l := held + r.qty]
           case Sell => old(riskManager.qty[..])[l := if r.qty < held then held - r.qty else 0]
           case NoSide => old(riskManager.qty[..])
    {
      hide Flattened, Oms.Step, Oms.IsTruncated, Risk.Step, Risk.Equity, Risk.Peaked, Oms.Inv, Risk.Shape;
      if r.id !in orderManager.orders { return; }
      match r.kind
      case Ack =>
        StepShape(View(), Oms.Accept(r.id, r.ref));
        orderManager.OnAccept(r.id, r.ref);
      case Canceled =>
        StepShape(View(), Oms.Cancel(r.id));
        var _ := orderManager.OnCancel(r.id);
      case Rejection =>
        StepShape(View(), Oms.Reject(r.id));
        orderManager.OnReject(r.id);
      case Exec =>
        OnOrderFill(r.id, r.qty, r.price);
    }
  }

  /** The order manager numbers an order itself, whatever number it came with. */
  lemma IdIsOverwritten(s: Oms.State, o: Oms.Order)
    requires Oms.Inv(s)
    ensures Oms.Step(s, Oms.New(o.(id := 0))) == Oms.Step(s, Oms.New(o))
  {
  }

  lemma CancelOneMore(s: Oms.State, done: set<nat>, id: nat)
    requires Oms.Inv(s) && Oms.Inv(AllCancelling(s, done)) && id in s.orders && id !in done
    ensures AllCancelling(s, done + {id}) == Oms.Step(AllCancelling(s, done), Oms.RequestCancel(id))
    ensures !Oms.Working(s.orders[id].status) ==> AllCancelling(s, done + {id}) == AllCancelling(s, done)
  {
  }
}
