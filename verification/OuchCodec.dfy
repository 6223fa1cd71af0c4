/**
 * The OUCH order codec: fixed-length big-endian messages with decimal tokens and an
 * additive checksum, exchange-assigned order references, and the two-party protocol
 * by which the trader learns them.
 */
module OuchCodec {
  import opened Bytes
  import Decimal
  import Oms

  datatype Option<T> = None | Some(value: T)

  const TOKEN: nat := 14
  const BOOK: nat := 10
  const TWO32: nat := 0x1_0000_0000
  const TWO64: nat := 0x1_0000_0000_0000_0000

  /** An exchange's report about one order. */
  datatype Report =
    | Ack(order: Oms.Order)
    | Exec(id: nat, qty: nat, price: int)
    | Canceled(id: nat, qty: nat)
    | Rejected(id: nat)

  /** What the trader's side makes of a report. */
  datatype Fill = Fill(kind: byte, orderId: nat, ref: nat, qty: nat, price: int)

  function Ascii(c: char): (b: byte)
    requires c as int < 256
  {
    c as int
  }

  function IdOf(r: Report): nat {
    if r.Ack? then r.order.id else r.id
  }

  function KindOf(r: Report): byte {
    match r
    case Ack(_) => Ascii('A')
    case Exec(_, _, _) => Ascii('E')
    case Canceled(_, _) => Ascii('C')
    case Rejected(_) => Ascii('J')
  }

  /** Length of a report by its first byte; 0 when it is none. */
  function ReportLen(kind: byte): (n: nat)
    ensures n == 0 || 36 <= n <= 42
  {
    if kind == Ascii('A') || kind == Ascii('C') then 39
    else if kind == Ascii('E') then 42
    else if kind == Ascii('J') then 36
    else 0
  }

  /** A price in cents as an unsigned 32-bit field in ten-thousandths. */
  function WirePrice(price: int): (v: nat)
    ensures v < TWO32
  {
    (price * 100) % TWO32
  }

  // ---- layouts ----

  function Sum(s: seq<byte>): nat {
    if s == [] then 0 else Sum(s[..|s| - 1]) + s[|s| - 1]
  }

  /** The last byte is the sum of the others, modulo 256. */
  predicate Sealed(msg: seq<byte>) {
    msg != [] && msg[|msg| - 1] == Sum(msg[..|msg| - 1]) % 256
  }

  function SideByte(side: Oms.Side): byte {
    if side.Sell? then Ascii('S') else Ascii('B')
  }

  function TimeInForce(kind: Oms.OrderType): byte {
    if kind.Limit? || kind.Iceberg? then Ascii('D') else Ascii('Y')
  }

  function Token(id: nat): (s: seq<byte>)
    ensures |s| == TOKEN
  {
    Decimal.ZeroPadded(id, TOKEN)
  }

  function Book(symbol: nat): (s: seq<byte>)
    ensures |s| == BOOK
  {
    Decimal.SpacePadded(symbol, BOOK)
  }

  /** The 49 bytes of an Enter Order message. */
  predicate IsOrder(msg: seq<byte>, o: Oms.Order) {
    && |msg| == 49 && msg[0] == Ascii('O') && msg[1..15] == Token(o.id) && msg[15] == SideByte(o.side)
    && msg[16..20] == ToBytes(o.quantity, 4) && msg[20..30] == Book(o.symbol)
    && msg[30..34] == ToBytes(WirePrice(o.price), 4) && msg[34] == TimeInForce(o.kind)
    && msg[35..41] == Decimal.Copies(Decimal.SPACE, 6)
    && msg[41] == Ascii('N') && msg[42] == Ascii('A') && msg[43] == Ascii('N')
    && msg[44..48] == ToBytes(0, 4) && Sealed(msg)
  }

  /** Type, order reference and token: the head of every report. */
  predicate Headed(msg: seq<byte>, r: Report, ref: nat) {
    && |msg| == ReportLen(KindOf(r)) && msg[0] == KindOf(r)
    && msg[1..9] == ToBytes(ref, 8) && msg[9..23] == Token(IdOf(r))
  }

  predicate IsReport(msg: seq<byte>, r: Report, ref: nat) {
    && Headed(msg, r, ref) && Sealed(msg)
    && match r
       case Ack(o) =>
         msg[23] == SideByte(o.side) && msg[24..28] == ToBytes(o.quantity, 4) && msg[28..38] == Book(o.symbol)
       case Exec(_, qty, price) =>
         && msg[23] == Ascii('B') && msg[24..28] == ToBytes(qty, 4) && msg[28..32] == ToBytes(WirePrice(price), 4)
         && msg[32..36] == ToBytes(qty, 4) && msg[36..40] == ToBytes(WirePrice(price), 4) && msg[40] == Ascii('T')
       case Canceled(_, qty) =>
         msg[23] == Ascii('B') && msg[24..28] == ToBytes(qty, 4) && msg[28..38] == Decimal.Copies(Decimal.SPACE, 10)
       case Rejected(_) =>
         msg[23] == Ascii('B') && msg[24..35] == Decimal.Copies(Decimal.SPACE, 11)
  }

  // ---- decoding ----

  function DecodedOrder(buf: seq<byte>): Option<Oms.Order> {
    if |buf| < 49 || buf[0] != Ascii('O') || !Sealed(buf[..49]) then None
    else
      Some(Oms.Order(Decimal.Parse(buf[1..15]), 0, Decimal.Parse(buf[20..30]),
                     if buf[15] == Ascii('S') then Oms.Sell else Oms.Buy,
                     if buf[34] == Ascii('D') then Oms.Limit else Oms.Market,
                     FromBytes(buf[30..34]) / 100, FromBytes(buf[16..20])))
  }

  /** The order a reference stands for: as learned, else as the token says. */
  function Resolve(learned: map<nat, nat>, buf: seq<byte>): nat
    requires |buf| >= 36
  {
    var ref := FromBytes(buf[1..9]);
    if ref in learned then learned[ref] else Decimal.Parse(buf[9..23])
  }

  function DecodedFill(learned: map<nat, nat>, buf: seq<byte>): Option<Fill> {
    if buf == [] || ReportLen(buf[0]) == 0 || |buf| < ReportLen(buf[0]) || !Sealed(buf[..ReportLen(buf[0])]) then None
    else
      var exec := buf[0] == Ascii('E');
      Some(Fill(buf[0], Resolve(learned, buf), FromBytes(buf[1..9]),
                if exec then FromBytes(buf[32..36]) else 0, if exec then FromBytes(buf[36..40]) / 100 else 0))
  }

  /** An acceptance teaches its reference. */
  function Learned(learned: map<nat, nat>, buf: seq<byte>): map<nat, nat> {
    var f := DecodedFill(learned, buf);
    if f.Some? && f.value.kind == Ascii('A') then learned[f.value.ref := f.value.orderId] else learned
  }

  // ---- round trips ----

  lemma PriceReadsIff(price: int)
    ensures WirePrice(price) / 100 == price <==> 0 <= price * 100 < TWO32
  {
    var w := price * 100;
    if w < 0 {
    } else if w >= TWO32 {
      assert w % TWO32 == w - TWO32 * (w / TWO32);
    }
  }

  lemma WordReadsIff(v: nat)
    ensures FromBytes(ToBytes(v, 4)) == v % TWO32
    ensures FromBytes(ToBytes(v, 4)) == v <==> v < TWO32
  {
    ReadWritten(v, 4);
    PowValues();
  }

  predicate FitsWire(o: Oms.Order) {
    o.id < Decimal.Pow10(TOKEN) && o.symbol < Decimal.Pow10(BOOK) && o.quantity < TWO32 && 0 <= o.price * 100 < TWO32
  }

  /**
   * An Enter Order message decodes to the order's id, symbol, quantity and price if and
   * only if all four fit their fields; side and type come back as the wire can say them.
   */
  lemma OrderRoundTripIff(msg: seq<byte>, o: Oms.Order)
    requires IsOrder(msg, o)
    ensures DecodedOrder(msg).Some?
    ensures var d := DecodedOrder(msg).value;
      && (d.id == o.id && d.symbol == o.symbol && d.quantity == o.quantity && d.price == o.price <==> FitsWire(o))
      && (d.side.Sell? <==> o.side.Sell?) && (d.side.Buy? <==> !o.side.Sell?)
      && (d.kind.Market? <==> o.kind.Market?) && (d.kind.Limit? <==> !o.kind.Market?)
  {
    hide Sum, Decimal.Parse, Decimal.ZeroPadded, Decimal.SpacePadded, Decimal.Pow10, FromBytes, ToBytes, WirePrice;
    assert msg[..49] == msg;
    Decimal.ZeroPaddedReadsIff(o.id, TOKEN);
    Decimal.SpacePaddedReadsIff(o.symbol, BOOK);
    WordReadsIff(o.quantity);
    WordReadsIff(WirePrice(o.price));
    PriceReadsIff(o.price);
  }

  lemma RefReads(ref: nat)
    requires ref < TWO64
    ensures FromBytes(ToBytes(ref, 8)) == ref
  {
    PowValues();
    ReadWrittenFits(ref, 8);
  }

  lemma HeadDecodes(learned: map<nat, nat>, buf: seq<byte>, r: Report, ref: nat)
    requires ReportLen(KindOf(r)) <= |buf| && Headed(buf[..ReportLen(KindOf(r))], r, ref) && ref < TWO64
    ensures buf[0] == KindOf(r) && FromBytes(buf[1..9]) == ref
    ensures Resolve(learned, buf) == if ref in learned then learned[ref] else Decimal.Value(Token(IdOf(r)))
  {
    hide Decimal.Parse, Decimal.ZeroPadded, FromBytes, ToBytes;
    var msg := buf[..ReportLen(KindOf(r))];
    assert buf[1..9] == msg[1..9] && buf[9..23] == msg[9..23];
    RefReads(ref);
    Decimal.ZeroPaddedValue(IdOf(r), TOKEN);
  }

  lemma ExecDecodes(buf: seq<byte>, r: Report, ref: nat)
    requires |buf| >= 42 && r.Exec? && IsReport(buf[..42], r, ref)
    ensures FromBytes(buf[32..36]) == r.qty % TWO32 && FromBytes(buf[36..40]) == WirePrice(r.price)
  {
    hide FromBytes, ToBytes, WirePrice, Headed, Sealed;
    var msg := buf[..42];
    assert buf[32..36] == msg[32..36] && buf[36..40] == msg[36..40];
    WordReadsIff(r.qty);
    WordReadsIff(WirePrice(r.price));
  }

  /** A report, read by a trader that has learned some references, whatever follows it in the buffer. */
  lemma ReportDecodes(learned: map<nat, nat>, msg: seq<byte>, rest: seq<byte>, r: Report, ref: nat)
    requires IsReport(msg, r, ref) && ref < TWO64
    ensures var f := DecodedFill(learned, msg + rest);
      && f.Some? && f.value.kind == KindOf(r) && f.value.ref == ref
      && f.value.orderId == (if ref in learned then learned[ref] else Decimal.Value(Token(IdOf(r))))
      && (r.Exec? ==> f.value.qty == r.qty % TWO32 && f.value.price == WirePrice(r.price) / 100)
      && (!r.Exec? ==> f.value.qty == 0 && f.value.price == 0)
  {
    hide Sealed, Resolve, FromBytes, ToBytes, WirePrice, Token, Book, Decimal.Copies;
    var buf := msg + rest;
    assert buf[..|msg|] == msg;
    HeadDecodes(learned, buf, r, ref);
    if r.Exec? { ExecDecodes(buf, r, ref); }
  }

  // ---- the wire, byte by byte ----

  /** Where an Enter Order message carries what. */
  lemma OrderOnWire(msg: seq<byte>, o: Oms.Order)
    requires IsOrder(msg, o)
    ensures |msg| == 49 && msg[0] == 79
    ensures Decimal.Parse(msg[1..15]) == o.id <==> o.id < Decimal.Pow10(14)
    ensures msg[15] == if o.side.Sell? then 83 else 66
    ensures FromBytes(msg[16..20]) == o.quantity % 0x1_0000_0000
    ensures Decimal.Parse(msg[20..30]) == o.symbol <==> o.symbol < Decimal.Pow10(10)
    ensures FromBytes(msg[30..34]) == (o.price * 100) % 0x1_0000_0000
    ensures msg[34] == if o.kind.Limit? || o.kind.Iceberg? then 68 else 89
    ensures msg[48] == Sum(msg[..48]) % 256
  {
    hide Sum, Decimal.Parse, Decimal.ZeroPadded, Decimal.SpacePadded, Decimal.Pow10, FromBytes, ToBytes;
    Decimal.ZeroPaddedReadsIff(o.id, TOKEN);
    Decimal.SpacePaddedReadsIff(o.symbol, BOOK);
    WordReadsIff(o.quantity);
    WordReadsIff(WirePrice(o.price));
  }

  /** Where a report carries what: all name the reference and the order; an execution its quantity and price twice. */
  lemma ReportOnWire(msg: seq<byte>, r: Report, ref: nat)
    requires IsReport(msg, r, ref) && ref < TWO64
    ensures match r
      case Ack(_) => |msg| == 39 && msg[0] == 65
      case Exec(_, _, _) => |msg| == 42 && msg[0] == 69
      case Canceled(_, _) => |msg| == 39 && msg[0] == 67
      case Rejected(_) => |msg| == 36 && msg[0] == 74
    ensures FromBytes(msg[1..9]) == ref
    ensures Decimal.Parse(msg[9..23]) == IdOf(r) <==> IdOf(r) < Decimal.Pow10(14)
    ensures r.Ack? ==>
      && (msg[23] == if r.order.side.Sell? then 83 else 66) && FromBytes(msg[24..28]) == r.order.quantity % 0x1_0000_0000
      && (Decimal.Parse(msg[28..38]) == r.order.symbol <==> r.order.symbol < Decimal.Pow10(10))
    ensures r.Exec? ==>
      && FromBytes(msg[24..28]) == FromBytes(msg[32..36]) == r.qty % 0x1_0000_0000
      && FromBytes(msg[28..32]) == FromBytes(msg[36..40]) == (r.price * 100) % 0x1_0000_0000
    ensures r.Canceled? ==> FromBytes(msg[24..28]) == r.qty % 0x1_0000_0000
    ensures msg[|msg| - 1] == Sum(msg[..|msg| - 1]) % 256
  {
    hide Sum, Decimal.Parse, Decimal.ZeroPadded, Decimal.SpacePadded, Decimal.Pow10, FromBytes, ToBytes;
    RefReads(ref);
    Decimal.ZeroPaddedReadsIff(IdOf(r), TOKEN);
    match r
    case Ack(o) =>
      WordReadsIff(o.quantity);
      Decimal.SpacePaddedReadsIff(o.symbol, BOOK);
    case Exec(_, qty, price) =>
      WordReadsIff(qty);
      WordReadsIff(WirePrice(price));
    case Canceled(_, qty) => WordReadsIff(qty);
    case Rejected(_) =>
  }

  // ---- corruption ----

  lemma {:induction false} SumChanges(s: seq<byte>, i: nat, b: byte)
    requires i < |s|
    ensures Sum(s[i := b]) == Sum(s) - s[i] + b
    decreases |s|
  {
    var n := |s| - 1;
    if i == n {
      assert s[i := b][..n] == s[..n];
    } else {
      SumChanges(s[..n], i, b);
      assert s[i := b][..n] == s[..n][i := b];
    }
  }

  /** The checksum notices every change of a single byte. */
  lemma ChangedByteBreaksSeal(msg: seq<byte>, i: nat, b: byte)
    requires Sealed(msg) && i < |msg| && b != msg[i]
    ensures !Sealed(msg[i := b])
  {
    var n := |msg| - 1;
    if i == n {
      assert msg[i := b][..n] == msg[..n];
    } else {
      SumChanges(msg[..n], i, b);
      assert msg[i := b][..n] == msg[..n][i := b];
    }
  }

  /** No order message is accepted with one byte changed. */
  lemma CorruptOrderIsRefused(msg: seq<byte>, o: Oms.Order, i: nat, b: byte)
    requires IsOrder(msg, o) && i < |msg| && b != msg[i]
    ensures DecodedOrder(msg[i := b]).None?
  {
    hide Sealed, Decimal.Parse, FromBytes, ToBytes;
    ChangedByteBreaksSeal(msg, i, b);
    assert msg[i := b][..49] == msg[i := b];
  }

  /** A report with one byte changed is refused, unless its first byte became that of a report of another length. */
  lemma CorruptReportIsRefused(learned: map<nat, nat>, msg: seq<byte>, rest: seq<byte>, r: Report, ref: nat, i: nat, b: byte)
    requires IsReport(msg, r, ref) && i < |msg| && b != msg[i]
    ensures DecodedFill(learned, msg[i := b] + rest).Some? ==> i == 0 && ReportLen(b) != 0 && ReportLen(b) != |msg|
  {
    hide Sealed, Resolve, FromBytes, ToBytes;
    ChangedByteBreaksSeal(msg, i, b);
    assert (msg[i := b] + rest)[..|msg|] == msg[i := b];
  }

  // ---- references ----

  /** The exchange's side: one reference per order, in order of first mention. */
  datatype Exchange = Exchange(refs: map<nat, nat>, nextRef: nat)

  function RefFor(x: Exchange, id: nat): nat {
    if id in x.refs then x.refs[id] else x.nextRef
  }

  function Assigned(x: Exchange, id: nat): Exchange {
    if id in x.refs then x else Exchange(x.refs[id := x.nextRef], x.nextRef + 1)
  }

  ghost predicate Distinct(x: Exchange) {
    && x.nextRef >= 1
    && (forall id :: id in x.refs ==> 1 <= x.refs[id] < x.nextRef)
    && (forall id, id' :: id in x.refs && id' in x.refs && x.refs[id] == x.refs[id'] ==> id == id')
  }

  /** A reference, once given, stays; no two orders share one. */
  lemma RefStableAndDistinct(x: Exchange, id: nat)
    requires Distinct(x)
    ensures Distinct(Assigned(x, id)) && id in Assigned(x, id).refs && Assigned(x, id).refs[id] == RefFor(x, id)
    ensures forall j :: j in x.refs ==> j in Assigned(x, id).refs && Assigned(x, id).refs[j] == x.refs[j]
  {
  }

  // ---- the two parties ----

  /** A report as it was put on the wire. */
  datatype Sent = Sent(report: Report, ref: nat, bytes: seq<byte>)

  datatype Parties = Parties(exchange: Exchange, learned: map<nat, nat>, wire: seq<Sent>)

  /** The exchange encodes a report; the trader decodes any report sent so far, in any order, any number of times. */
  datatype Action = Encode(report: Report, bytes: seq<byte>) | Decode(i: nat)

  ghost predicate Next(p: Parties, a: Action, p': Parties) {
    match a
    case Encode(r, bytes) =>
      && IsReport(bytes, r, RefFor(p.exchange, IdOf(r)))
      && p' == Parties(Assigned(p.exchange, IdOf(r)), p.learned, p.wire + [Sent(r, RefFor(p.exchange, IdOf(r)), bytes)])
    case Decode(i) =>
      i < |p.wire| && p' == p.(learned := Learned(p.learned, p.wire[i].bytes))
  }

  ghost predicate Run(tr: seq<Parties>, acts: seq<Action>) {
    && |tr| == |acts| + 1 && tr[0] == Parties(Exchange(map[], 1), map[], [])
    && forall k :: 0 <= k < |acts| ==> Next(tr[k], acts[k], tr[k + 1])
  }

  /** Every order named in the run has an id its token can hold, and the reference counter has not wrapped. */
  ghost predicate InRange(tr: seq<Parties>, acts: seq<Action>) {
    && (forall k :: 0 <= k < |acts| && acts[k].Encode? ==> IdOf(acts[k].report) < Decimal.Pow10(TOKEN))
    && (forall k :: 0 <= k < |tr| ==> tr[k].exchange.nextRef <= TWO64)
  }

  ghost predicate WireOk(p: Parties, s: Sent) {
    && IsReport(s.bytes, s.report, s.ref) && IdOf(s.report) < Decimal.Pow10(TOKEN)
    && IdOf(s.report) in p.exchange.refs && p.exchange.refs[IdOf(s.report)] == s.ref
  }

  ghost predicate PartiesInv(p: Parties) {
    && Distinct(p.exchange)
    && (forall i :: 0 <= i < |p.wire| ==> WireOk(p, p.wire[i]))
    && (forall ref :: ref in p.learned ==> p.learned[ref] in p.exchange.refs && p.exchange.refs[p.learned[ref]] == ref)
  }

  lemma SentDecodes(p: Parties, i: nat)
    requires PartiesInv(p) && i < |p.wire| && p.exchange.nextRef <= TWO64
    ensures var f, s := DecodedFill(p.learned, p.wire[i].bytes), p.wire[i];
      && f.Some? && f.value.kind == KindOf(s.report) && f.value.orderId == IdOf(s.report) && f.value.ref == s.ref
      && (s.report.Exec? ==> f.value.qty == s.report.qty % TWO32 && f.value.price == WirePrice(s.report.price) / 100)
  {
    hide IsReport, Decimal.ZeroPadded, Decimal.Value, Decimal.Pow10, DecodedFill, WirePrice;
    var s := p.wire[i];
    assert WireOk(p, s);
    ReportDecodes(p.learned, s.bytes, [], s.report, s.ref);
    assert s.bytes + [] == s.bytes;
    Decimal.ZeroPaddedValue(IdOf(s.report), TOKEN);
  }

  lemma NextKeeps(p: Parties, a: Action, p': Parties)
    requires PartiesInv(p) && Next(p, a, p') && p.exchange.nextRef <= TWO64
    requires a.Encode? ==> IdOf(a.report) < Decimal.Pow10(TOKEN)
    ensures PartiesInv(p')
  {
    hide IsReport, Decimal.Pow10, DecodedFill, WirePrice;
    match a
    case Encode(r, bytes) =>
      RefStableAndDistinct(p.exchange, IdOf(r));
      forall i | 0 <= i < |p'.wire| ensures WireOk(p', p'.wire[i]) {
        if i < |p.wire| { assert WireOk(p, p.wire[i]); }
      }
    case Decode(i) =>
      SentDecodes(p, i);
      assert WireOk(p, p.wire[i]);
  }

  lemma {:induction false} RunInv(tr: seq<Parties>, acts: seq<Action>, k: nat)
    requires Run(tr, acts) && InRange(tr, acts) && k < |tr|
    ensures PartiesInv(tr[k])
  {
    hide Next;
    if k > 0 {
      RunInv(tr, acts, k - 1);
      NextKeeps(tr[k - 1], acts[k - 1], tr[k]);
    }
  }

  /**
   * Whatever reports the exchange encodes and however the trader interleaves decoding
   * them - early, late, out of order, twice, or before any acceptance was seen - each
   * decodes to its own order, with the one reference the exchange uses for that order.
   */
  lemma EveryReportFindsItsOrder(tr: seq<Parties>, acts: seq<Action>, k: nat)
    requires Run(tr, acts) && InRange(tr, acts) && k < |acts| && acts[k].Decode?
    ensures acts[k].i < |tr[k].wire|
    ensures var s := tr[k].wire[acts[k].i];
      var f := DecodedFill(tr[k].learned, s.bytes);
      && f.Some? && f.value.kind == KindOf(s.report) && f.value.orderId == IdOf(s.report)
      && IdOf(s.report) in tr[k].exchange.refs && f.value.ref == tr[k].exchange.refs[IdOf(s.report)]
      && (s.report.Exec? && s.report.qty < TWO32 && 0 <= s.report.price * 100 < TWO32 ==>
            f.value.qty == s.report.qty && f.value.price == s.report.price)
  {
    hide IsReport, DecodedFill, WirePrice;
    RunInv(tr, acts, k);
    assert Next(tr[k], acts[k], tr[k + 1]);
    SentDecodes(tr[k], acts[k].i);
    var s := tr[k].wire[acts[k].i];
    assert WireOk(tr[k], s);
    if s.report.Exec? { PriceReadsIff(s.report.price); }
  }

  /** An order whose id is too long for its token is misread by a trader that has learned nothing. */
  lemma LongIdIsMisread(msg: seq<byte>, r: Report, ref: nat)
    requires IsReport(msg, r, ref) && ref < TWO64
    ensures DecodedFill(map[], msg).Some?
    ensures DecodedFill(map[], msg).value.orderId == IdOf(r) <==> IdOf(r) < Decimal.Pow10(TOKEN)
  {
    hide IsReport, DecodedFill, WirePrice;
    ReportDecodes(map[], msg, [], r, ref);
    assert msg + [] == msg;
    Decimal.ZeroPaddedValue(IdOf(r), TOKEN);
  }

  // ---- writing into the caller's buffer ----

  /** Bytes outside [at, at + n) are as they were. */
  twostate predicate KeptOutside(buf: array<byte>, at: nat, n: nat)
    reads buf
  {
    forall k :: 0 <= k < buf.Length && !(at <= k < at + n) ==> buf[k] == old(buf[k])
  }

  method Put(buf: array<byte>, at: nat, s: seq<byte>)
    requires at + |s| <= buf.Length
    modifies buf
    ensures buf[at..at + |s|] == s && KeptOutside(buf, at, |s|)
  {
    for i := 0 to |s|
      invariant forall k :: 0 <= k < i ==> buf[at + k] == s[k]
      invariant KeptOutside(buf, at, |s|)
    {
      buf[at + i] := s[i];
    }
  }

  method Blank(buf: array<byte>, n: nat)
    requires n <= buf.Length
    modifies buf
    ensures forall k :: 0 <= k < n ==> buf[k] == Decimal.SPACE
    ensures KeptOutside(buf, 0, n)
  {
    for i := 0 to n
      invariant forall k :: 0 <= k < i ==> buf[k] == Decimal.SPACE
      invariant KeptOutside(buf, 0, n)
    {
      buf[i] := Decimal.SPACE;
    }
  }

  /** Byte i from the right of the big-endian form is v shifted right by 8 i bits. */
  lemma {:induction false} ToBytesAt(v: nat, n: nat, i: nat)
    requires i < n
    ensures ToBytes(v, n)[n - 1 - i] == (v / Pow256(i)) % 256
    decreases i
  {
    if i > 0 {
      ToBytesAt(v / 256, n - 1, i - 1);
      DivTwice(v, 256, Pow256(i - 1));
    }
  }

  lemma DivTwice(v: nat, a: nat, b: nat)
    requires a > 0 && b > 0
    ensures a * b > 0 && (v / a) / b == v / (a * b)
  {
    AtLeast(a, b);
    var q := v / a / b;
    var r := v % a + a * ((v / a) % b);
    assert v / a == b * q + (v / a) % b;
    assert a * (b * q + (v / a) % b) == (a * b) * q + a * ((v / a) % b);
    Oms.Scale((v / a) % b, b - 1, a);
    assert (b - 1) * a == a * b - a;
    ModUnique(v, a * b, q, r);
  }

  method PutBe32(buf: array<byte>, at: nat, v: nat)
    requires at + 4 <= buf.Length
    modifies buf
    ensures buf[at..at + 4] == ToBytes(v, 4) && KeptOutside(buf, at, 4)
  {
    buf[at], buf[at + 1], buf[at + 2], buf[at + 3] := v / 0x100_0000 % 256, v / 0x1_0000 % 256, v / 0x100 % 256, v % 256;
    Be32Bytes(v);
  }

  lemma Be32Bytes(v: nat)
    ensures ToBytes(v, 4) == [v / 0x100_0000 % 256, v / 0x1_0000 % 256, v / 0x100 % 256, v % 256]
  {
    ToBytesAt(v, 4, 0);
    ToBytesAt(v, 4, 1);
    ToBytesAt(v, 4, 2);
    ToBytesAt(v, 4, 3);
    PowValues();
    assert Pow256(3) == 0x100_0000 && Pow256(0) == 1;
  }

  method PutBe64(buf: array<byte>, at: nat, v: nat)
    requires at + 8 <= buf.Length
    modifies buf
    ensures buf[at..at + 8] == ToBytes(v, 8) && KeptOutside(buf, at, 8)
  {
    hide ToBytes, Pow256;
    ghost var bytes := ToBytes(v, 8);
    var i := 8;
    while i > 0
      invariant 0 <= i <= 8
      invariant forall j :: 0 <= j < 8 - i ==> buf[at + j] == bytes[j]
      invariant KeptOutside(buf, at, 8)
    {
      i := i - 1;
      buf[at + 7 - i] := v / Pow256(i) % 256;
      ToBytesAt(v, 8, i);
    }
    assert forall j :: 0 <= j < 8 ==> buf[at..at + 8][j] == bytes[j];
  }

  method Checksum(buf: array<byte>, n: nat) returns (c: byte)
    requires n <= buf.Length
    ensures c == Sum(buf[..n]) % 256
  {
    var s: nat := 0;
    for i := 0 to n
      invariant s == Sum(buf[..i])
    {
      assert buf[..i + 1][..i] == buf[..i];
      s := s + buf[i];
    }
    c := s % 256;
  }

  lemma Within(s: seq<byte>, n: nat, i: nat, j: nat)
    requires i <= j <= n <= |s|
    ensures s[..n][i..j] == s[i..j]
  {
  }

  /** The same sum over a received buffer. */
  method SumOf(buf: seq<byte>, n: nat) returns (c: byte)
    requires n <= |buf|
    ensures c == Sum(buf[..n]) % 256
  {
    var s: nat := 0;
    for i := 0 to n
      invariant s == Sum(buf[..i])
    {
      assert buf[..i + 1][..i] == buf[..i];
      s := s + buf[i];
    }
    c := s % 256;
  }

  /** Ends an n-byte message with its checksum. */
  method Seal(buf: array<byte>, n: nat)
    requires 0 < n <= buf.Length
    modifies buf
    ensures Sealed(buf[..n]) && KeptOutside(buf, n - 1, 1)
  {
    var c := Checksum(buf, n - 1);
    ghost var body := buf[..n - 1];
    buf[n - 1] := c;
    assert buf[..n][..n - 1] == body;
  }

  /** Type, order reference and token; the rest of the message is blank. */
  method PutHead(buf: array<byte>, kind: byte, n: nat, ref: nat, id: nat)
    requires 23 <= n <= buf.Length
    modifies buf
    ensures buf[0] == kind && buf[1..9] == ToBytes(ref, 8) && buf[9..23] == Token(id)
    ensures forall k :: 23 <= k < n ==> buf[k] == Decimal.SPACE
    ensures KeptOutside(buf, 0, n)
  {
    hide ToBytes, Decimal.ZeroPadded;
    Blank(buf, n);
    buf[0] := kind;
    PutBe64(buf, 1, ref);
    Put(buf, 9, Token(id));
  }

  /** Side, shares, price, executed shares, executed price and liquidity of an execution. */
  method PutExecution(buf: array<byte>, qty: nat, price: int)
    requires 42 <= buf.Length
    modifies buf
    ensures buf[23] == Ascii('B') && buf[24..28] == ToBytes(qty, 4) && buf[28..32] == ToBytes(WirePrice(price), 4)
    ensures buf[32..36] == ToBytes(qty, 4) && buf[36..40] == ToBytes(WirePrice(price), 4) && buf[40] == Ascii('T')
    ensures KeptOutside(buf, 23, 18)
  {
    hide ToBytes, WirePrice;
    buf[23] := Ascii('B');
    PutBe32(buf, 24, qty);
    PutBe32(buf, 28, WirePrice(price));
    PutBe32(buf, 32, qty);
    PutBe32(buf, 36, WirePrice(price));
    buf[40] := Ascii('T');
  }

  /** The fields of an Enter Order message up to the order book. */
  method PutOrderFront(o: Oms.Order, buf: array<byte>)
    requires 49 <= buf.Length
    modifies buf
    ensures buf[0] == Ascii('O') && buf[1..15] == Token(o.id) && buf[15] == SideByte(o.side)
    ensures buf[16..20] == ToBytes(o.quantity, 4) && buf[20..30] == Book(o.symbol)
    ensures forall k :: 30 <= k < 49 ==> buf[k] == Decimal.SPACE
    ensures KeptOutside(buf, 0, 49)
  {
    hide ToBytes, Decimal.ZeroPadded, Decimal.SpacePadded;
    Blank(buf, 49);
    buf[0] := Ascii('O');
    Put(buf, 1, Token(o.id));
    buf[15] := SideByte(o.side);
    PutBe32(buf, 16, o.quantity);
    Put(buf, 20, Book(o.symbol));
  }

  /** The rest of it, and the checksum. */
  method PutOrderBack(o: Oms.Order, buf: array<byte>)
    requires 49 <= buf.Length
    requires forall k :: 30 <= k < 49 ==> buf[k] == Decimal.SPACE
    modifies buf
    ensures buf[30..34] == ToBytes(WirePrice(o.price), 4) && buf[34] == TimeInForce(o.kind)
    ensures buf[35..41] == Decimal.Copies(Decimal.SPACE, 6)
    ensures buf[41] == Ascii('N') && buf[42] == Ascii('A') && buf[43] == Ascii('N')
    ensures buf[44..48] == ToBytes(0, 4) && Sealed(buf[..49]) && KeptOutside(buf, 30, 19)
  {
    hide ToBytes, Sealed, WirePrice;
    PutBe32(buf, 30, WirePrice(o.price));
    buf[34] := TimeInForce(o.kind);
    buf[41], buf[42], buf[43] := Ascii('N'), Ascii('A'), Ascii('N');
    PutBe32(buf, 44, 0);
    Seal(buf, 49);
  }

  /** A big-endian field, read byte by byte. */
  method ReadBe(buf: seq<byte>, at: nat, n: nat) returns (v: nat)
    requires at + n <= |buf|
    ensures v == FromBytes(buf[at..at + n])
  {
    v := 0;
    for i := 0 to n
      invariant v == FromBytes(buf[at..at + i])
    {
      assert buf[at..at + i + 1][..i] == buf[at..at + i];
      v := 256 * v + buf[at + i];
    }
  }

  class OrderCodec {
    var tokenToId: map<seq<byte>, nat>
    var idToRef: map<nat, nat>
    var refToId: map<nat, nat>
    var nextRef: nat

    function Numbering(): Exchange
      reads this
    {
      Exchange(idToRef, nextRef)
    }

    constructor ()
      ensures Numbering() == Exchange(map[], 1) && refToId == map[] && tokenToId == map[]
    {
      tokenToId, idToRef, refToId, nextRef := map[], map[], map[], 1;
    }

    method EncodeOrder(o: Oms.Order, buf: array<byte>) returns (ok: bool, outLen: nat)
      modifies this`tokenToId, buf
      ensures ok <==> buf.Length >= 49
      ensures ok ==> outLen == 49 && IsOrder(buf[..49], o) && KeptOutside(buf, 0, 49)
      ensures ok ==> tokenToId == old(tokenToId)[Token(o.id) := o.id]
      ensures !ok ==> KeptOutside(buf, 0, 0) && tokenToId == old(tokenToId)
    {
      hide ToBytes, Sealed, WirePrice, Token, Book, Decimal.Copies;
      if buf.Length < 49 { return false, 0; }
      PutOrderFront(o, buf);
      PutOrderBack(o, buf);
      tokenToId := tokenToId[Token(o.id) := o.id];
      return true, 49;
    }

    /** The exchange's reference of an order, assigned at its first mention. */
    method RefOf(id: nat) returns (ref: nat)
      modifies this`idToRef, this`nextRef
      ensures ref == RefFor(old(Numbering()), id) && Numbering() == Assigned(old(Numbering()), id)
      ensures id in old(idToRef) ==> ref == old(idToRef)[id] && idToRef == old(idToRef) && nextRef == old(nextRef)
      ensures id !in old(idToRef) ==> ref == old(nextRef) && idToRef == old(idToRef)[id := ref] && nextRef == ref + 1
    {
      if id in idToRef { return idToRef[id]; }
      ref := nextRef;
      nextRef := nextRef + 1;
      idToRef := idToRef[id := ref];
    }

    method EncodeAck(o: Oms.Order, buf: array<byte>) returns (ok: bool, outLen: nat)
      modifies this`idToRef, this`nextRef, buf
      ensures ok <==> buf.Length >= 39
      ensures ok ==> outLen == 39 && IsReport(buf[..39], Ack(o), RefFor(old(Numbering()), o.id)) && KeptOutside(buf, 0, 39)
      ensures Numbering() == if ok then Assigned(old(Numbering()), o.id) else old(Numbering())
    {
      hide ToBytes, Sealed, Token, Book;
      if buf.Length < 39 { return false, 0; }
      var ref := RefOf(o.id);
      PutHead(buf, Ascii('A'), 39, ref, o.id);
      buf[23] := SideByte(o.side);
      PutBe32(buf, 24, o.quantity);
      Put(buf, 28, Book(o.symbol));
      Seal(buf, 39);
      Within(buf[..], 39, 1, 9);
      Within(buf[..], 39, 9, 23);
      Within(buf[..], 39, 24, 28);
      Within(buf[..], 39, 28, 38);
      return true, 39;
    }

    method EncodeExec(id: nat, qty: nat, price: int, buf: array<byte>) returns (ok: bool, outLen: nat)
      modifies this`idToRef, this`nextRef, buf
      ensures ok <==> buf.Length >= 42
      ensures ok ==> outLen == 42 && IsReport(buf[..42], Exec(id, qty, price), RefFor(old(Numbering()), id)) && KeptOutside(buf, 0, 42)
      ensures Numbering() == if ok then Assigned(old(Numbering()), id) else old(Numbering())
    {
      hide ToBytes, Sealed, Token, Book, WirePrice;
      if buf.Length < 42 { return false, 0; }
      var ref := RefOf(id);
      PutHead(buf, Ascii('E'), 42, ref, id);
      PutExecution(buf, qty, price);
      Seal(buf, 42);
      Within(buf[..], 42, 1, 9);
      Within(buf[..], 42, 9, 23);
      Within(buf[..], 42, 24, 28);
      Within(buf[..], 42, 28, 32);
      Within(buf[..], 42, 32, 36);
      Within(buf[..], 42, 36, 40);
      return true, 42;
    }

    method EncodeCancel(id: nat, qty: nat, buf: array<byte>) returns (ok: bool, outLen: nat)
      modifies this`idToRef, this`nextRef, buf
      ensures ok <==> buf.Length >= 39
      ensures ok ==> outLen == 39 && IsReport(buf[..39], Canceled(id, qty), RefFor(old(Numbering()), id)) && KeptOutside(buf, 0, 39)
      ensures Numbering() == if ok then Assigned(old(Numbering()), id) else old(Numbering())
    {
      hide ToBytes, Sealed, Token, Book;
      if buf.Length < 39 { return false, 0; }
      var ref := RefOf(id);
      PutHead(buf, Ascii('C'), 39, ref, id);
      buf[23] := Ascii('B');
      PutBe32(buf, 24, qty);
      Seal(buf, 39);
      Within(buf[..], 39, 1, 9);
      Within(buf[..], 39, 9, 23);
      Within(buf[..], 39, 24, 28);
      Within(buf[..], 39, 28, 38);
      assert forall k :: 28 <= k < 38 ==> buf[k] == Decimal.SPACE;
      assert buf[28..38] == Decimal.Copies(Decimal.SPACE, 10);
      return true, 39;
    }

    method EncodeReject(id: nat, buf: array<byte>) returns (ok: bool, outLen: nat)
      modifies this`idToRef, this`nextRef, buf
      ensures ok <==> buf.Length >= 36
      ensures ok ==> outLen == 36 && IsReport(buf[..36], Rejected(id), RefFor(old(Numbering()), id)) && KeptOutside(buf, 0, 36)
      ensures Numbering() == if ok then Assigned(old(Numbering()), id) else old(Numbering())
    {
      hide ToBytes, Sealed, Token, Book;
      if buf.Length < 36 { return false, 0; }
      var ref := RefOf(id);
      PutHead(buf, Ascii('J'), 36, ref, id);
      buf[23] := Ascii('B');
      Seal(buf, 36);
      Within(buf[..], 36, 1, 9);
      Within(buf[..], 36, 9, 23);
      Within(buf[..], 36, 24, 35);
      assert forall k :: 24 <= k < 35 ==> buf[k] == Decimal.SPACE;
      assert buf[24..35] == Decimal.Copies(Decimal.SPACE, 11);
      return true, 36;
    }

    method DecodeOrder(buf: seq<byte>) returns (r: Option<Oms.Order>)
      ensures r == DecodedOrder(buf)
      ensures r.Some? <==> |buf| >= 49 && buf[0] == 79 && buf[48] == Sum(buf[..48]) % 256
    {
      hide Decimal.Parse, FromBytes;
      if |buf| < 49 || buf[0] != Ascii('O') { return None; }
      var c := SumOf(buf, 48);
      assert buf[..49][..48] == buf[..48];
      if buf[48] != c { return None; }
      var qty := ReadBe(buf, 16, 4);
      var price := ReadBe(buf, 30, 4);
      return Some(Oms.Order(Decimal.Parse(buf[1..15]), 0, Decimal.Parse(buf[20..30]),
                            if buf[15] == Ascii('S') then Oms.Sell else Oms.Buy,
                            if buf[34] == Ascii('D') then Oms.Limit else Oms.Market, price / 100, qty));
    }

    method DecodeFill(buf: seq<byte>) returns (r: Option<Fill>)
      modifies this`refToId
      ensures r == DecodedFill(old(refToId), buf) && refToId == Learned(old(refToId), buf)
      ensures var n := if buf == [] then 0 else if buf[0] in {65, 67} then 39 else if buf[0] == 69 then 42 else if buf[0] == 74 then 36 else 0;
        r.Some? <==> n > 0 && |buf| >= n && buf[n - 1] == Sum(buf[..n - 1]) % 256
      ensures r.None? ==> refToId == old(refToId)
      ensures r.Some? ==> |buf| >= 36
      ensures r.Some? ==>
        var ref := FromBytes(buf[1..9]);
        && r.value.kind == buf[0] && r.value.ref == ref
        && r.value.orderId == (if ref in old(refToId) then old(refToId)[ref] else Decimal.Parse(buf[9..23]))
        && refToId == if buf[0] == 65 then old(refToId)[ref := r.value.orderId] else old(refToId)
    {
      hide Decimal.Parse, FromBytes;
      if |buf| == 0 { return None; }
      var n := ReportLen(buf[0]);
      if n == 0 || |buf| < n { return None; }
      var c := SumOf(buf, n - 1);
      assert buf[..n][..n - 1] == buf[..n - 1];
      if buf[n - 1] != c { return None; }
      var ref := ReadBe(buf, 1, 8);
      var id := if ref in refToId then refToId[ref] else Decimal.Parse(buf[9..23]);
      if buf[0] == Ascii('A') { refToId := refToId[ref := id]; }
      var qty, price := 0, 0;
      if buf[0] == Ascii('E') {
        qty := ReadBe(buf, 32, 4);
        price := ReadBe(buf, 36, 4);
        price := price / 100;
      }
      return Some(Fill(buf[0], id, ref, qty, price));
    }
  }
}
