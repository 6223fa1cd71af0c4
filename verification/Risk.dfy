/**
 * The risk manager: positions at average cost, realised profit, marks, and the
 * high-water mark of equity. Average-cost equity is compared with plain cash books.
 */
module Risk {
  import Oms

  const LOCATES: nat := 65536

  datatype Account = Account(qty: seq<int>, avg: seq<int>, mark: seq<int>, realized: int, initial: int, peak: int)

  datatype Event =
    | Fill(side: Oms.Side, symbol: nat, price: int, qty: nat)
    | Mark(symbol: nat, price: int)

  ghost predicate Shape(a: Account) {
    && |a.qty| == |a.avg| == |a.mark| == LOCATES
    && forall l :: 0 <= l < LOCATES ==> a.qty[l] >= 0 && (a.qty[l] == 0 ==> a.avg[l] == 0)
  }

  /** The array index of a symbol; one outside the 16-bit range goes to entry 0. */
  function Slot(symbol: nat): (l: nat)
    ensures l < LOCATES && (symbol < LOCATES ==> l == symbol) && (symbol >= LOCATES ==> l == 0)
  {
    if symbol < LOCATES then symbol else 0
  }

  // ---- sums over all entries ----

  /** Three readings of an entry: open profit at its mark, cost, and worth (at mark, or at cost while unmarked). */
  datatype Reading = Gain | Cost | Worth

  function Term(a: Account, l: nat, t: Reading): int
    requires |a.qty| == |a.avg| == |a.mark| && l < |a.qty|
  {
    var marked := a.qty[l] > 0 && a.mark[l] > 0;
    match t
    case Gain => if marked then a.qty[l] * (a.mark[l] - a.avg[l]) else 0
    case Cost => a.qty[l] * a.avg[l]
    case Worth => if marked then a.qty[l] * a.mark[l] else a.qty[l] * a.avg[l]
  }

  function Total(a: Account, n: nat, t: Reading): int
    requires |a.qty| == |a.avg| == |a.mark| && n <= |a.qty|
  {
    if n == 0 then 0 else Total(a, n - 1, t) + Term(a, n - 1, t)
  }

  function Equity(a: Account): int
    requires |a.qty| == |a.avg| == |a.mark|
  {
    a.initial + a.realized + Total(a, |a.qty|, Gain)
  }

  predicate SameExcept(a: Account, b: Account, l: nat) {
    && |a.qty| == |a.avg| == |a.mark| == |b.qty| == |b.avg| == |b.mark|
    && l < |a.qty|
    && forall i :: 0 <= i < |a.qty| && i != l ==> a.qty[i] == b.qty[i] && a.avg[i] == b.avg[i] && a.mark[i] == b.mark[i]
  }

  lemma {:induction false} TotalChanges(a: Account, b: Account, l: nat, n: nat, t: Reading)
    requires SameExcept(a, b, l) && n <= |a.qty|
    ensures Total(b, n, t) == Total(a, n, t) + if l < n then Term(b, l, t) - Term(a, l, t) else 0
    decreases n
  {
    if n > 0 { TotalChanges(a, b, l, n - 1, t); }
  }

  lemma {:induction false} GainPlusCost(a: Account, n: nat)
    requires |a.qty| == |a.avg| == |a.mark| && n <= |a.qty|
    ensures Total(a, n, Gain) + Total(a, n, Cost) == Total(a, n, Worth)
    decreases n
  {
    if n > 0 {
      GainPlusCost(a, n - 1);
      var q, m, c := a.qty[n - 1], a.mark[n - 1], a.avg[n - 1];
      assert q * (m - c) + q * c == q * m;
    }
  }

  // ---- the transitions ----

  function Bought(a: Account, l: nat, price: int, qty: nat): Account
    requires |a.qty| == |a.avg| && l < |a.qty| && a.qty[l] >= 0
  {
    var total := a.avg[l] * a.qty[l] + price * qty;
    var now := a.qty[l] + qty;
    a.(qty := a.qty[l := now], avg := a.avg[l := if now > 0 then Oms.Quot(total, now) else 0])
  }

  /** A sale of more than the position is booked for the position only. */
  function Sold(a: Account, l: nat, price: int, qty: nat): Account
    requires |a.qty| == |a.avg| && l < |a.qty|
  {
    var q := if qty < a.qty[l] then qty else a.qty[l];
    var now := a.qty[l] - q;
    a.(qty := a.qty[l := now], avg := if now == 0 then a.avg[l := 0] else a.avg,
       realized := a.realized + (price - a.avg[l]) * q)
  }

  function Peaked(a: Account): Account
    requires |a.qty| == |a.avg| == |a.mark|
  {
    if Equity(a) > a.peak then a.(peak := Equity(a)) else a
  }

  ghost function Booked(a: Account, ev: Event): (b: Account)
    requires Shape(a)
    ensures Shape(b)
  {
    match ev
    case Mark(symbol, price) => a.(mark := a.mark[Slot(symbol) := price])
    case Fill(side, symbol, price, qty) =>
      if side.Buy? then Bought(a, Slot(symbol), price, qty)
      else if side.Sell? then Sold(a, Slot(symbol), price, qty)
      else a
  }

  ghost function Step(a: Account, ev: Event): (b: Account)
    requires Shape(a)
    ensures Shape(b)
  {
    Peaked(Booked(a, ev))
  }

  // ---- average cost against cash ----

  /** Cash received by an event, for the quantity that was booked. */
  function CashFlow(a: Account, ev: Event): int
    requires |a.qty| == LOCATES
  {
    match ev
    case Mark(_, _) => 0
    case Fill(side, symbol, price, qty) =>
      if side.Buy? then -(price * qty)
      else if side.Sell? then price * (if qty < a.qty[Slot(symbol)] then qty else a.qty[Slot(symbol)])
      else 0
  }

  /** The most a single event can lose to rounding: one less than the quantity held after a buy. */
  function Slip(a: Account, ev: Event): int
    requires |a.qty| == LOCATES
  {
    if ev.Fill? && ev.side.Buy? && a.qty[Slot(ev.symbol)] + ev.qty > 0 then a.qty[Slot(ev.symbol)] + ev.qty - 1 else 0
  }

  /** Equity less what cash books would show: initial funds, net cash, and the positions' worth. */
  function Gap(a: Account, cash: int): int
    requires |a.qty| == |a.avg| == |a.mark|
  {
    Equity(a) - (a.initial + cash + Total(a, |a.qty|, Worth))
  }

  lemma GapIsRounding(a: Account, cash: int)
    requires Shape(a)
    ensures Gap(a, cash) == a.realized - cash - Total(a, |a.qty|, Cost)
  {
    GainPlusCost(a, |a.qty|);
  }

  predicate NoNegativeCost(a: Account) {
    forall l :: 0 <= l < |a.avg| ==> a.avg[l] >= 0
  }

  predicate BuyNotNegative(ev: Event) {
    ev.Fill? && ev.side.Buy? ==> ev.price >= 0
  }

  lemma BuyGap(a: Account, l: nat, price: int, qty: nat, cash: int)
    requires Shape(a) && l < LOCATES
    ensures var b := Bought(a, l, price, qty);
      var slip := if a.qty[l] + qty > 0 then a.qty[l] + qty - 1 else 0;
      && Shape(b) && -slip <= Gap(b, cash - price * qty) - Gap(a, cash) <= slip
      && (price >= 0 && NoNegativeCost(a) ==> NoNegativeCost(b) && Gap(b, cash - price * qty) >= Gap(a, cash))
  {
    hide Total, Gap, Oms.Quot;
    var b := Bought(a, l, price, qty);
    BuyRounds(a.avg[l], a.qty[l], price, qty);
    TotalChanges(a, b, l, |a.qty|, Cost);
    GapIsRounding(a, cash);
    GapIsRounding(b, cash - price * qty);
    assert Term(b, l, Cost) == b.qty[l] * b.avg[l];
  }

  /** What one buy loses to rounding: its value and the old cost, less the new cost. */
  lemma BuyRounds(avg: int, held: int, price: int, qty: nat)
    requires held >= 0
    ensures var now := held + qty;
      var cost := if now > 0 then Oms.Quot(avg * held + price * qty, now) else 0;
      var lost := price * qty + held * avg - now * cost;
      var slip := if now > 0 then now - 1 else 0;
      && -slip <= lost <= slip && (price >= 0 && avg >= 0 ==> cost >= 0 && lost >= 0)
  {
    hide Oms.Quot;
    var now := held + qty;
    if now > 0 {
      var total := avg * held + price * qty;
      Oms.QuotRem(total, now);
      assert held * avg == avg * held && now * Oms.Quot(total, now) == Oms.Quot(total, now) * now;
      if price >= 0 && avg >= 0 {
        Oms.Scale(0, avg, held);
        Oms.Scale(0, price, qty);
      }
    }
  }

  lemma SellGap(a: Account, l: nat, price: int, qty: nat, cash: int)
    requires Shape(a) && l < LOCATES
    ensures var b := Sold(a, l, price, qty);
      var q := if qty < a.qty[l] then qty else a.qty[l];
      Shape(b) && Gap(b, cash + price * q) == Gap(a, cash) && (NoNegativeCost(a) ==> NoNegativeCost(b))
  {
    hide Total, Gap;
    var b := Sold(a, l, price, qty);
    var q := if qty < a.qty[l] then qty else a.qty[l];
    TotalChanges(a, b, l, |a.qty|, Cost);
    GapIsRounding(a, cash);
    GapIsRounding(b, cash + price * q);
    var c := a.avg[l];
    assert (price - c) * q == price * q - c * q;
    assert (a.qty[l] - q) * c == a.qty[l] * c - q * c;
    assert c * q == q * c;
  }

  lemma MarkGap(a: Account, l: nat, price: int, cash: int)
    requires Shape(a) && l < LOCATES
    ensures var b := a.(mark := a.mark[l := price]); Shape(b) && Gap(b, cash) == Gap(a, cash)
  {
    hide Total, Gap;
    var b := a.(mark := a.mark[l := price]);
    TotalChanges(a, b, l, |a.qty|, Cost);
    GapIsRounding(a, cash);
    GapIsRounding(b, cash);
  }

  lemma {:induction false} PeakOnly(a: Account, b: Account, n: nat, t: Reading)
    requires |a.qty| == |a.avg| == |a.mark| && n <= |a.qty|
    requires b.qty == a.qty && b.avg == a.avg && b.mark == a.mark
    ensures Total(b, n, t) == Total(a, n, t)
    decreases n
  {
    if n > 0 { PeakOnly(a, b, n - 1, t); }
  }

  lemma PeakedKeeps(a: Account, cash: int)
    requires Shape(a)
    ensures Equity(Peaked(a)) == Equity(a) <= Peaked(a).peak && Gap(Peaked(a), cash) == Gap(a, cash)
    ensures NoNegativeCost(a) ==> NoNegativeCost(Peaked(a))
  {
    var b := Peaked(a);
    PeakOnly(a, b, |a.qty|, Gain);
    PeakOnly(a, b, |a.qty|, Worth);
  }

  lemma StepGap(a: Account, ev: Event, cash: int)
    requires Shape(a)
    ensures var d := Gap(Step(a, ev), cash + CashFlow(a, ev)) - Gap(a, cash);
      && -Slip(a, ev) <= d <= Slip(a, ev)
      && (NoNegativeCost(a) && BuyNotNegative(ev) ==> d >= 0 && NoNegativeCost(Step(a, ev)))
    ensures Equity(Step(a, ev)) <= Step(a, ev).peak
  {
    hide Gap, Equity, Peaked, NoNegativeCost, Total;
    PeakedKeeps(Booked(a, ev), cash + CashFlow(a, ev));
    match ev {
      case Mark(symbol, price) =>
        MarkGap(a, Slot(symbol), price, cash);
        if NoNegativeCost(a) { MarkCost(a, Slot(symbol), price); }
      case Fill(side, symbol, price, qty) =>
        if side.Buy? { BuyGap(a, Slot(symbol), price, qty, cash); }
        else if side.Sell? { SellGap(a, Slot(symbol), price, qty, cash); }
    }
  }

  lemma MarkCost(a: Account, l: nat, price: int)
    requires Shape(a) && l < LOCATES && NoNegativeCost(a)
    ensures NoNegativeCost(a.(mark := a.mark[l := price]))
  {
  }

  // ---- runs ----

  /** A new risk manager after its initial equity was set. */
  function Opening(initial: int): Account {
    Account(seq(LOCATES, _ => 0), seq(LOCATES, _ => 0), seq(LOCATES, _ => 0), 0, initial, initial)
  }

  ghost function Run(initial: int, evs: seq<Event>): (a: Account)
    ensures Shape(a)
    decreases |evs|
  {
    if evs == [] then Opening(initial) else Step(Run(initial, evs[..|evs| - 1]), evs[|evs| - 1])
  }

  // What a list of events says about entry l, without any account: the quantity held, the
  // price last marked (0 if none), net cash, and the rounding bound.

  /** The entry an event is about: its symbol, or 0 for one outside the 16-bit range. */
  function About(ev: Event): nat {
    if ev.symbol < LOCATES then ev.symbol else 0
  }

  /** Bought less sold; a sale cannot take more than there is. */
  function Held(evs: seq<Event>, l: nat): nat
    decreases |evs|
  {
    if evs == [] then 0
    else
      var before, ev := Held(evs[..|evs| - 1], l), evs[|evs| - 1];
      if !ev.Fill? || About(ev) != l then before
      else match ev.side
        case Buy => before + ev.qty
        case Sell => if ev.qty < before then before - ev.qty else 0
        case NoSide => before
  }

  /** The price of the last mark of entry l. */
  function LastMark(evs: seq<Event>, l: nat): int
    decreases |evs|
  {
    if evs == [] then 0
    else if evs[|evs| - 1].Mark? && About(evs[|evs| - 1]) == l then evs[|evs| - 1].price
    else LastMark(evs[..|evs| - 1], l)
  }

  /** Received for what was sold, less paid for what was bought. */
  function NetCash(evs: seq<Event>): int
    decreases |evs|
  {
    if evs == [] then 0
    else
      var init, ev := evs[..|evs| - 1], evs[|evs| - 1];
      var sold := Held(init, About(ev)) - Held(evs, About(ev));
      NetCash(init) + if !ev.Fill? || ev.side.NoSide? then 0 else if ev.side.Buy? then -(ev.price * ev.qty) else ev.price * sold
  }

  /** Over the buys: one less than the quantity held after each. */
  function Slips(evs: seq<Event>): int
    decreases |evs|
  {
    if evs == [] then 0
    else
      var ev, held := evs[|evs| - 1], Held(evs, About(evs[|evs| - 1]));
      Slips(evs[..|evs| - 1]) + if ev.Fill? && ev.side.Buy? && held > 0 then held - 1 else 0
  }

  /** What the positions of the first n entries are worth: at the last mark, or at cost while there is no positive mark. */
  function PositionsWorth(evs: seq<Event>, cost: seq<int>, n: nat): int
    requires n <= |cost|
  {
    if n == 0 then 0
    else
      var held, mark := Held(evs, n - 1), LastMark(evs, n - 1);
      PositionsWorth(evs, cost, n - 1) + held * if mark > 0 then mark else cost[n - 1]
  }

  /** One event changes only its own entry: the mark, or the quantity held, its average cost and the realised profit. */
  lemma StepMoves(a: Account, ev: Event)
    requires Shape(a)
    ensures var b, l := Step(a, ev), About(ev);
      var held, cost := a.qty[l], a.avg[l];
      match ev
      case Mark(_, price) => b.mark == a.mark[l := price] && b.qty == a.qty && b.avg == a.avg && b.realized == a.realized
      case Fill(side, _, price, qty) =>
        && b.mark == a.mark
        && match side
           case Buy =>
             && b.qty == a.qty[l := held + qty] && b.realized == a.realized && b.avg == a.avg[l := b.avg[l]]
             && Oms.IsTruncated(b.avg[l], cost * held + price * qty, held + qty)
           case Sell =>
             var sold := if qty < held then qty else held;
             && b.qty == a.qty[l := held - sold] && b.realized == a.realized + (price - cost) * sold
             && b.avg == a.avg[l := if sold == held then 0 else cost]
           case NoSide => b.qty == a.qty && b.avg == a.avg && b.realized == a.realized
  {
    hide Total, Oms.Quot, Oms.IsTruncated;
    if ev.Fill? && ev.side.Buy? {
      var held := a.qty[About(ev)];
      Oms.QuotIsTruncated(a.avg[About(ev)] * held + ev.price * ev.qty, held + ev.qty);
    }
  }

  /** The account holds, entry by entry, what the events say. */
  lemma {:induction false} RunMatchesEvents(initial: int, evs: seq<Event>, l: nat)
    requires l < LOCATES
    ensures Run(initial, evs).qty[l] == Held(evs, l) && Run(initial, evs).mark[l] == LastMark(evs, l)
    decreases |evs|
  {
    hide Step;
    if evs != [] {
      RunMatchesEvents(initial, evs[..|evs| - 1], l);
      StepMoves(Run(initial, evs[..|evs| - 1]), evs[|evs| - 1]);
    }
  }

  lemma {:induction false} WorthMatchesEvents(initial: int, evs: seq<Event>, n: nat)
    requires n <= LOCATES
    ensures Total(Run(initial, evs), n, Worth) == PositionsWorth(evs, Run(initial, evs).avg, n)
    decreases n
  {
    hide Run, Held, LastMark;
    RunShape(initial, evs);
    if n > 0 {
      WorthMatchesEvents(initial, evs, n - 1);
      RunMatchesEvents(initial, evs, n - 1);
    }
  }

  lemma RunShape(initial: int, evs: seq<Event>)
    ensures Shape(Run(initial, evs))
  {
  }

  /** The cash and the rounding bound of one event, on the account and on the events. */
  lemma FlowMatchesEvents(initial: int, evs: seq<Event>)
    requires evs != []
    ensures var init, ev := evs[..|evs| - 1], evs[|evs| - 1];
      && NetCash(evs) == NetCash(init) + CashFlow(Run(initial, init), ev)
      && Slips(evs) == Slips(init) + Slip(Run(initial, init), ev)
  {
    hide Run;
    var init, ev := evs[..|evs| - 1], evs[|evs| - 1];
    RunShape(initial, init);
    RunMatchesEvents(initial, init, About(ev));
  }

  lemma {:induction false} OpeningTotals(initial: int, n: nat, t: Reading)
    requires n <= LOCATES
    ensures Total(Opening(initial), n, t) == 0
    decreases n
  {
    if n > 0 { OpeningTotals(initial, n - 1, t); }
  }

  lemma {:induction false} GapOverRun(initial: int, evs: seq<Event>)
    ensures var a, gap := Run(initial, evs), Gap(Run(initial, evs), NetCash(evs));
      && -Slips(evs) <= gap <= Slips(evs)
      && ((forall i :: 0 <= i < |evs| ==> BuyNotNegative(evs[i])) ==> gap >= 0 && NoNegativeCost(a))
      && a.initial == initial && a.peak >= Equity(a)
    decreases |evs|
  {
    hide Total, Step, CashFlow, Slip, NoNegativeCost, Held;
    if evs == [] {
      OpeningTotals(initial, LOCATES, Gain);
      OpeningTotals(initial, LOCATES, Worth);
      OpeningCost(initial);
    } else {
      var init, ev := evs[..|evs| - 1], evs[|evs| - 1];
      GapOverRun(initial, init);
      StepGap(Run(initial, init), ev, NetCash(init));
      FlowMatchesEvents(initial, evs);
      InitialStays(Run(initial, init), ev);
    }
  }

  /**
   * After any run of fills and marks, equity differs from cash accounting - initial
   * funds, net cash, and the quantities held at the prices last marked - by at most the
   * sum over buys of (resulting quantity - 1), and is never below it when no buy had a
   * negative price. The drawdown is never negative.
   */
  lemma EquityIsCashPlusRounding(initial: int, evs: seq<Event>)
    ensures var a := Run(initial, evs);
      var cashBooks := initial + NetCash(evs) + PositionsWorth(evs, a.avg, |a.avg|);
      && -Slips(evs) <= Equity(a) - cashBooks <= Slips(evs)
      && ((forall i :: 0 <= i < |evs| ==> BuyNotNegative(evs[i])) ==> Equity(a) >= cashBooks && NoNegativeCost(a))
      && a.peak >= Equity(a)
  {
    hide Run, Total, Held, LastMark, NetCash, Slips, PositionsWorth;
    RunShape(initial, evs);
    GapOverRun(initial, evs);
    WorthMatchesEvents(initial, evs, LOCATES);
  }

  lemma OpeningCost(initial: int)
    ensures NoNegativeCost(Opening(initial))
  {
  }

  lemma InitialStays(a: Account, ev: Event)
    requires Shape(a)
    ensures Step(a, ev).initial == a.initial
  {
  }

  /** The peak is the high-water mark: the largest equity the run has passed through. */
  lemma {:induction false} PeakIsHighWater(initial: int, evs: seq<Event>)
    ensures forall k :: 0 <= k <= |evs| ==> Equity(Run(initial, evs[..k])) <= Run(initial, evs).peak
    ensures exists k :: 0 <= k <= |evs| && Equity(Run(initial, evs[..k])) == Run(initial, evs).peak
    decreases |evs|
  {
    hide Total, Equity, Booked;
    if evs == [] {
      OpeningEquity(initial);
      assert evs[..0] == evs;
    } else {
      var init, ev := evs[..|evs| - 1], evs[|evs| - 1];
      var before := Run(initial, init);
      PeakIsHighWater(initial, init);
      PeakStep(before, ev);
      assert evs[..|evs|] == evs;
      forall k | 0 <= k <= |evs| ensures Equity(Run(initial, evs[..k])) <= Run(initial, evs).peak {
        if k < |evs| { assert init[..k] == evs[..k]; }
      }
      var k :| 0 <= k <= |init| && Equity(Run(initial, init[..k])) == before.peak;
      assert init[..k] == evs[..k];
      assert Run(initial, evs).peak == before.peak || Equity(Run(initial, evs[..|evs|])) == Run(initial, evs).peak;
    }
  }

  lemma OpeningEquity(initial: int)
    ensures Equity(Opening(initial)) == initial
  {
    OpeningTotals(initial, LOCATES, Gain);
  }

  lemma PeakStep(a: Account, ev: Event)
    requires Shape(a)
    ensures var b := Step(a, ev); Equity(b) <= b.peak && a.peak <= b.peak && (b.peak == a.peak || b.peak == Equity(b))
  {
    PeakedKeeps(Booked(a, ev), 0);
  }

  /** Setting the initial equity of a running account leaves no negative drawdown exactly when nothing has been gained yet. */
  lemma ResetPeakIff(a: Account, equity: int)
    requires Shape(a)
    ensures var b := a.(initial := equity, peak := equity);
      b.peak >= Equity(b) <==> a.realized + Total(a, |a.qty|, Gain) <= 0
  {
    PeakOnly(a, a.(initial := equity, peak := equity), |a.qty|, Gain);
  }

  // ---- the object ----

  /** Every rule of the gate: quantity, daily loss, drawdown, position limit, no short sale. */
  ghost predicate Passes(a: Account, maxPosition: nat, maxDailyLoss: int, maxDrawdownPause: int, order: Oms.Order)
    requires Shape(a)
  {
    && order.quantity > 0 && a.realized > -maxDailyLoss && a.peak - Equity(a) <= maxDrawdownPause
    && (order.side.Buy? ==> a.qty[Slot(order.symbol)] + order.quantity <= maxPosition)
    && (order.side.Sell? ==> order.quantity <= a.qty[Slot(order.symbol)])
    && !order.side.NoSide?
  }

  class RiskManager {
    const qty: array<int>
    const avgCost: array<int>
    const markPrice: array<int>
    var realizedPnl: int
    var initialEquity: int
    var equityPeak: int
    var maxPosition: nat
    var maxDailyLoss: int
    var maxDrawdownPause: int
    var maxDrawdownFlatten: int

    ghost function View(): Account
      reads this, qty, avgCost, markPrice
    {
      Account(qty[..], avgCost[..], markPrice[..], realizedPnl, initialEquity, equityPeak)
    }

    ghost predicate Valid()
      reads this, qty, avgCost, markPrice
    {
      qty != avgCost && avgCost != markPrice && qty != markPrice && Shape(View())
    }

    constructor ()
      ensures Valid() && View() == Opening(0) && fresh(qty) && fresh(avgCost) && fresh(markPrice)
      ensures maxPosition == 100000 && maxDailyLoss == 100000000 && maxDrawdownPause == maxDrawdownFlatten == 0
    {
      qty := new int[LOCATES](_ => 0);
      avgCost := new int[LOCATES](_ => 0);
      markPrice := new int[LOCATES](_ => 0);
      realizedPnl, initialEquity, equityPeak := 0, 0, 0;
      maxPosition, maxDailyLoss, maxDrawdownPause, maxDrawdownFlatten := 100000, 100000000, 0, 0;
      new;
      assert qty[..] == avgCost[..] == markPrice[..] == seq(LOCATES, _ => 0);
    }

    /** Marked-to-market equity, summed entry by entry. */
    method CurrentEquity() returns (eq: int)
      requires Valid()
      ensures eq == Equity(View())
    {
      eq := initialEquity + realizedPnl;
      var l := 0;
      while l < LOCATES
        invariant l <= LOCATES && eq == initialEquity + realizedPnl + Total(View(), l, Gain)
      {
        var q, mk := qty[l], markPrice[l];
        if q > 0 && mk > 0 { eq := eq + q * (mk - avgCost[l]); }
        l := l + 1;
      }
    }

    /** The high-water mark follows equity up. */
    method UpdateEquity()
      requires Valid()
      modifies this`equityPeak
      ensures Valid() && View() == Peaked(old(View()))
    {
      hide Total;
      var eq := CurrentEquity();
      if eq > equityPeak { equityPeak := eq; }
    }

    /** The gate before an order is sent. */
    method CheckOrder(order: Oms.Order) returns (ok: bool)
      requires Valid()
      ensures ok <==> Passes(View(), maxPosition, maxDailyLoss, maxDrawdownPause, order)
      ensures var held := qty[if order.symbol < LOCATES then order.symbol else 0];
        ok <==>
          && order.quantity > 0 && realizedPnl > -maxDailyLoss && equityPeak - Equity(View()) <= maxDrawdownPause
          && ((order.side.Buy? && held + order.quantity <= maxPosition) || (order.side.Sell? && order.quantity <= held))
    {
      if order.quantity == 0 || realizedPnl <= -maxDailyLoss { return false; }
      var eq := CurrentEquity();
      if equityPeak - eq > maxDrawdownPause { return false; }
      var held := qty[Slot(order.symbol)];
      match order.side
      case Buy => return held + order.quantity <= maxPosition;
      case Sell => return order.quantity <= held;
      case NoSide => return false;
    }

    /** The position, cost and profit of a fill, before the peak follows. */
    method Book(order: Oms.Order, filledQty: nat)
      requires Valid()
      modifies this`realizedPnl, qty, avgCost
      ensures Valid() && View() == Booked(old(View()), Fill(order.side, order.symbol, order.price, filledQty))
    {
      hide Total, Oms.Quot;
      var l := Slot(order.symbol);
      if order.side.Buy? {
        var total := avgCost[l] * qty[l] + order.price * filledQty;
        var newQty := qty[l] + filledQty;
        qty[l] := newQty;
        avgCost[l] := if newQty != 0 then Oms.Quot(total, newQty) else 0;
      } else if order.side.Sell? {
        var sold := if filledQty < qty[l] then filledQty else qty[l];
        realizedPnl := realizedPnl + (order.price - avgCost[l]) * sold;
        var newQty := qty[l] - sold;
        qty[l] := newQty;
        if newQty == 0 { avgCost[l] := 0; }
      }
    }

    method OnFill(order: Oms.Order, filledQty: nat)
      requires Valid()
      modifies this`realizedPnl, this`equityPeak, qty, avgCost
      ensures Valid() && View() == Step(old(View()), Fill(order.side, order.symbol, order.price, filledQty))
      ensures var l := if order.symbol < LOCATES then order.symbol else 0;
        var held, cost := old(qty[..])[l], old(avgCost[..])[l];
        var sold := if filledQty < held then filledQty else held;
        match order.side
        case Buy =>
          && qty[..] == old(qty[..])[l := held + filledQty] && realizedPnl == old(realizedPnl)
          && avgCost[..] == old(avgCost[..])[l := avgCost[l]]
          && Oms.IsTruncated(avgCost[l], cost * held + order.price * filledQty, held + filledQty)
        case Sell =>
          && qty[..] == old(qty[..])[l := held - sold] && realizedPnl == old(realizedPnl) + (order.price - cost) * sold
          && avgCost[..] == old(avgCost[..])[l := if sold == held then 0 else cost]
        case NoSide => qty[..] == old(qty[..]) && avgCost[..] == old(avgCost[..]) && realizedPnl == old(realizedPnl)
    {
      hide Booked, Peaked, Total, Oms.IsTruncated;
      StepMoves(View(), Fill(order.side, order.symbol, order.price, filledQty));
      Book(order, filledQty);
      UpdateEquity();
    }

    method MarkTo(symbol: nat, price: int)
      requires Valid()
      modifies this`equityPeak, markPrice
      ensures Valid() && View() == Step(old(View()), Mark(symbol, price))
      ensures markPrice[..] == old(markPrice[..])[(if symbol < LOCATES then symbol else 0) := price]
      ensures equityPeak == if Equity(View()) > old(equityPeak) then Equity(View()) else old(equityPeak)
    {
      hide Peaked, Total;
      markPrice[Slot(symbol)] := price;
      assert View() == Booked(old(View()), Mark(symbol, price));
      PeakStep(old(View()), Mark(symbol, price));
      UpdateEquity();
    }

    method SetInitialEquity(equity: int)
      requires Valid()
      modifies this`initialEquity, this`equityPeak
      ensures Valid() && View() == old(View()).(initial := equity, peak := equity)
    {
      initialEquity, equityPeak := equity, equity;
    }

    method DrawdownFlatten() returns (yes: bool)
      requires Valid()
      ensures yes <==> equityPeak - Equity(View()) > maxDrawdownFlatten
    {
      var eq := CurrentEquity();
      yes := equityPeak - eq > maxDrawdownFlatten;
    }
  }
}
