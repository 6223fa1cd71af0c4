/**
 * Producer and consumers of the broadcast queue as interleaved steps: the producer
 * reads the published counters one at a time, writes the slot and publishes the tail
 * separately; a consumer reads the tail, then the slot, then advances.
 */
module BroadcastProtocol {
  import opened Laps
  import opened MarketEvents
  import opened BroadcastQueue

  datatype Producer =
    | Idle
    | Scanning(ev: MarketEvent, i: nat, m: nat)   // the first i counters are read, m is their minimum
    | Granted(ev: MarketEvent)                    // the rescan found room
    | Written(ev: MarketEvent)                    // the slot is written, the tail is not yet published

  datatype Consumer = Rest | Snapped(t: nat) | Read(t: nat, ev: MarketEvent)

  datatype State = State(q: Core, prod: Producer, cons: seq<Consumer>, got: seq<seq<MarketEvent>>)

  ghost predicate Init(s: State) {
    && 0 < |s.q.slots| && 0 < |s.q.heads| == |s.q.locals| == |s.q.pending| == |s.cons| == |s.got|
    && s.q.tail == s.q.cached == 0 && s.q.log == [] && s.prod == Idle
    && forall c :: 0 <= c < |s.cons| ==>
         s.q.heads[c] == s.q.locals[c] == s.q.pending[c] == 0 && s.cons[c] == Rest && s.got[c] == []
  }

  predicate Shape(s: State) {
    0 < |s.q.slots| && 0 < |s.q.heads| == |s.q.locals| == |s.q.pending| == |s.cons| == |s.got|
  }

  // ---- steps ----

  predicate PushWrite(s: State, s': State, ev: MarketEvent)
    requires Shape(s)
  {
    && ((s.prod == Idle && s.q.tail < s.q.cached + |s.q.slots|) || s.prod == Granted(ev))
    && s' == s.(q := s.q.(slots := s.q.slots[s.q.tail % |s.q.slots| := ev]), prod := Written(ev))
  }

  predicate PushPublish(s: State, s': State) {
    s.prod.Written? && s' == s.(q := s.q.(tail := s.q.tail + 1, log := s.q.log + [s.prod.ev]), prod := Idle)
  }

  predicate ScanBegin(s: State, s': State, ev: MarketEvent) {
    s.prod == Idle && s.q.tail >= s.q.cached + |s.q.slots| && s' == s.(prod := Scanning(ev, 0, 0))
  }

  predicate ScanOne(s: State, s': State)
    requires Shape(s)
  {
    && s.prod.Scanning? && s.prod.i < |s.q.heads|
    && var h := s.q.heads[s.prod.i];
       s' == s.(prod := s.prod.(i := s.prod.i + 1, m := if s.prod.i == 0 || h < s.prod.m then h else s.prod.m))
  }

  /** The cache takes the scanned minimum; without room the push has failed. */
  predicate ScanEnd(s: State, s': State) {
    && s.prod.Scanning? && s.prod.i == |s.q.heads|
    && s' == s.(q := s.q.(cached := s.prod.m),
                prod := if s.q.tail < s.prod.m + |s.q.slots| then Granted(s.prod.ev) else Idle)
  }

  predicate Snap(s: State, s': State, c: nat) {
    c < |s.cons| && s.cons[c] == Rest && s' == s.(cons := s.cons[c := Snapped(s.q.tail)])
  }

  predicate PopEmpty(s: State, s': State, c: nat)
    requires Shape(s)
  {
    && c < |s.cons| && s.cons[c].Snapped? && s.cons[c].t == s.q.locals[c]
    && s' == s.(q := Flushed(s.q, c), cons := s.cons[c := Rest])
  }

  predicate ReadSlot(s: State, s': State, c: nat)
    requires Shape(s)
  {
    && c < |s.cons| && s.cons[c].Snapped? && s.cons[c].t != s.q.locals[c]
    && s' == s.(cons := s.cons[c := Read(s.cons[c].t, s.q.slots[s.q.locals[c] % |s.q.slots|])])
  }

  predicate Advance(s: State, s': State, c: nat)
    requires Shape(s)
  {
    && c < |s.cons| && s.cons[c].Read?
    && s' == s.(q := Popped(s.q, c, s.cons[c].t), cons := s.cons[c := Rest], got := s.got[c := s.got[c] + [s.cons[c].ev]])
  }

  predicate Flush(s: State, s': State, c: nat)
    requires Shape(s)
  {
    c < |s.cons| && s.cons[c] == Rest && s' == s.(q := Flushed(s.q, c))
  }

  ghost predicate Next(s: State, s': State) {
    Shape(s) &&
    ( || PushPublish(s, s') || ScanOne(s, s') || ScanEnd(s, s')
      || (exists ev :: PushWrite(s, s', ev)) || (exists ev :: ScanBegin(s, s', ev))
      || (exists c :: Snap(s, s', c)) || (exists c :: PopEmpty(s, s', c)) || (exists c :: ReadSlot(s, s', c))
      || (exists c :: Advance(s, s', c)) || (exists c :: Flush(s, s', c)))
  }

  ghost predicate Run(tr: seq<State>) {
    && |tr| > 0 && Init(tr[0])
    && forall i :: 0 <= i < |tr| - 1 ==> Next(tr[i], tr[i + 1])
  }

  // ---- invariant ----

  predicate ConsOk(s: State, c: nat)
    requires Shape(s) && c < |s.cons| && |s.q.log| == s.q.tail
  {
    && s.q.locals[c] <= s.q.tail
    && s.got[c] == s.q.log[..s.q.locals[c]]
    && match s.cons[c]
       case Rest => true
       case Snapped(t) => s.q.locals[c] <= t <= s.q.tail
       case Read(t, ev) => s.q.locals[c] < t <= s.q.tail && ev == s.q.log[s.q.locals[c]]
  }

  predicate ProdOk(s: State)
    requires Shape(s)
  {
    match s.prod
    case Idle => true
    case Scanning(_, i, m) => i <= |s.q.heads| && (i > 0 ==> s.q.cached <= m && forall c :: 0 <= c < i ==> m <= s.q.heads[c])
    case Granted(_) => s.q.tail < s.q.cached + |s.q.slots|
    case Written(ev) => s.q.tail < s.q.cached + |s.q.slots| && s.q.slots[s.q.tail % |s.q.slots|] == ev
  }

  ghost predicate StateInv(s: State) {
    && Shape(s) && Inv(s.q) && ProdOk(s)
    && forall c :: 0 <= c < |s.cons| ==> ConsOk(s, c)
  }

  // ---- every step keeps it ----

  /** The slot being written holds no event a consumer still needs. */
  lemma WriteKeeps(s: State, s': State, ev: MarketEvent)
    requires StateInv(s) && PushWrite(s, s', ev)
    ensures StateInv(s')
  {
    forall k | s'.q.cached <= k < s'.q.tail ensures Stored(s'.q, k) {
      assert Stored(s.q, k);
      CellsDiffer(|s.q.slots|, k, s.q.tail);
    }
    forall c | 0 <= c < |s.cons| ensures ConsumerOk(s'.q, c) && ConsOk(s', c) {
      assert ConsumerOk(s.q, c) && ConsOk(s, c);
    }
  }

  lemma PublishKeeps(s: State, s': State)
    requires StateInv(s) && PushPublish(s, s')
    ensures StateInv(s')
  {
    forall k | s'.q.cached <= k < s'.q.tail ensures Stored(s'.q, k) {
      if k < s.q.tail { assert Stored(s.q, k); }
    }
    forall c | 0 <= c < |s.cons| ensures ConsumerOk(s'.q, c) && ConsOk(s', c) {
      assert ConsumerOk(s.q, c) && ConsOk(s, c);
    }
  }

  lemma ScanKeeps(s: State, s': State)
    requires StateInv(s) && (ScanOne(s, s') || ScanEnd(s, s') || exists ev :: ScanBegin(s, s', ev))
    ensures StateInv(s')
  {
    if ScanOne(s, s') {
      assert ConsumerOk(s.q, s.prod.i);
    } else if ScanEnd(s, s') {
      RescanKeeps(s.q, s.prod.m);
    }
    forall c | 0 <= c < |s.cons| ensures ConsOk(s', c) { assert ConsOk(s, c); }
  }

  lemma ConsumeKeeps(s: State, s': State, c: nat)
    requires StateInv(s) && (Snap(s, s', c) || PopEmpty(s, s', c) || ReadSlot(s, s', c) || Advance(s, s', c) || Flush(s, s', c))
    ensures StateInv(s')
  {
    assert ConsumerOk(s.q, c) && ConsOk(s, c);
    if Advance(s, s', c) {
      PopKeeps(s.q, c, s.cons[c].t);
    } else if ReadSlot(s, s', c) {
      NextEvent(s.q, c);
    } else if PopEmpty(s, s', c) || Flush(s, s', c) {
      FlushKeeps(s.q, c);
    }
    forall d | 0 <= d < |s.cons| ensures ConsOk(s', d) { assert ConsOk(s, d); }
  }

  lemma NextKeeps(s: State, s': State)
    requires StateInv(s) && Next(s, s')
    ensures StateInv(s')
  {
    hide StateInv;
    if PushPublish(s, s') { PublishKeeps(s, s'); }
    else if ScanOne(s, s') || ScanEnd(s, s') || exists ev :: ScanBegin(s, s', ev) { ScanKeeps(s, s'); }
    else if ev :| PushWrite(s, s', ev) { WriteKeeps(s, s', ev); }
    else {
      var c :| Snap(s, s', c) || PopEmpty(s, s', c) || ReadSlot(s, s', c) || Advance(s, s', c) || Flush(s, s', c);
      ConsumeKeeps(s, s', c);
    }
  }

  lemma {:induction false} RunInv(tr: seq<State>, i: nat)
    requires Run(tr) && i < |tr|
    ensures StateInv(tr[i])
  {
    if i > 0 {
      RunInv(tr, i - 1);
      NextKeeps(tr[i - 1], tr[i]);
    }
  }

  // ---- what every run guarantees ----

  /** Each consumer has popped exactly a prefix of the pushed events, and the counters are ordered. */
  lemma EveryConsumerReadsAPrefix(tr: seq<State>, i: nat, c: nat)
    requires Run(tr) && i < |tr| && c < |tr[i].cons|
    ensures var s := tr[i];
      && Shape(s) && s.got[c] <= s.q.log && |s.got[c]| == s.q.locals[c]
      && s.q.cached <= s.q.heads[c] <= s.q.locals[c] <= s.q.tail <= s.q.cached + |s.q.slots|
      && s.q.locals[c] - s.q.heads[c] < LAZY_BATCH
  {
    RunInv(tr, i);
    assert ConsumerOk(tr[i].q, c) && ConsOk(tr[i], c);
  }

  /** A scanned minimum was some consumer's published progress at some moment of the same scan. */
  lemma {:induction false} ScanSaw(tr: seq<State>, k: nat) returns (at: nat, c: nat)
    requires Run(tr) && k < |tr| && tr[k].prod.Scanning? && tr[k].prod.i > 0
    ensures at < k && Shape(tr[at]) && c < |tr[at].cons| && tr[at].q.heads[c] == tr[k].prod.m
    ensures tr[at].q.tail == tr[k].q.tail && |tr[at].q.slots| == |tr[k].q.slots|
    ensures forall x :: at <= x <= k ==> tr[x].prod.Scanning?
    decreases k
  {
    var s, s' := tr[k - 1], tr[k];
    assert Next(s, s');
    hide Init;
    if ScanOne(s, s') && s'.prod.m == s.q.heads[s.prod.i] {
      at, c := k - 1, s.prod.i;
    } else {
      assert s.prod.Scanning? && s.prod.i > 0 && s.prod.m == s'.prod.m;
      at, c := ScanSaw(tr, k - 1);
    }
  }

  /** A push fails only if, while it was scanning, some consumer really had capacity - 63 events unread. */
  lemma FailedPushMeansFull(tr: seq<State>, k: nat) returns (at: nat, c: nat)
    requires Run(tr) && k < |tr| - 1 && ScanEnd(tr[k], tr[k + 1]) && tr[k + 1].prod == Idle
    ensures at < k && (forall x :: at <= x <= k ==> tr[x].prod.Scanning?)
    ensures Shape(tr[at]) && c < |tr[at].cons|
    ensures tr[at].q.tail - tr[at].q.locals[c] + 63 >= |tr[at].q.slots|
  {
    RunInv(tr, k);
    at, c := ScanSaw(tr, k);
    RunInv(tr, at);
    assert ConsumerOk(tr[at].q, c);
  }
}
