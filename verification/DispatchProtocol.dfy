/**
 * Parser, retry thread and workers as interleaved steps over all lanes. A dispatch
 * call is one step; the retry thread's move is two (push to the ring, take from the
 * bucket); its check that the bucket is empty and the clearing of the flag are one.
 * DispatchRaces splits the calls that are one step here.
 */
module DispatchProtocol {
  import opened MarketEvents
  import Registry

  /** One worker: its ring, its bucket, the flag, and the retry thread's position. */
  datatype Lane = Lane(ringCap: nat, bucketCap: nat, ring: seq<MarketEvent>, bucket: seq<MarketEvent>, active: bool,
                       moved: bool,               // the bucket's head is already in the ring
                       checked: bool,             // the bucket was seen empty, the clear is still to come
                       consumed: seq<MarketEvent>, sent: seq<MarketEvent>)

  // ---- steps of one lane ----

  /** dispatch of ev to this lane, when it does not have to wait for the bucket. */
  predicate Send(l: Lane, l': Lane, ev: MarketEvent) {
    if l.active || |l.ring| >= l.ringCap then
      |l.bucket| < l.bucketCap &&
      l' == l.(bucket := l.bucket + [ev], active := true, sent := l.sent + [ev])
    else
      l' == l.(ring := l.ring + [ev], sent := l.sent + [ev])
  }

  predicate Move(l: Lane, l': Lane) {
    && l.bucket != [] && !l.moved && !l.checked && |l.ring| < l.ringCap
    && l' == l.(ring := l.ring + [l.bucket[0]], moved := true)
  }

  predicate Take(l: Lane, l': Lane) {
    l.moved && l.bucket != [] && l' == l.(bucket := l.bucket[1..], moved := false)
  }

  predicate CheckAndClear(l: Lane, l': Lane) {
    !l.moved && !l.checked && l.bucket == [] && l' == l.(active := false)
  }

  predicate Pop(l: Lane, l': Lane) {
    l.ring != [] && l' == l.(ring := l.ring[1..], consumed := l.consumed + [l.ring[0]])
  }

  predicate Drain(l: Lane, l': Lane) {
    Move(l, l') || Take(l, l') || Pop(l, l')
  }

  // ---- one lane keeps the order ----

  predicate Shape(l: Lane) {
    && 0 < l.ringCap && 0 < l.bucketCap && |l.ring| <= l.ringCap && |l.bucket| <= l.bucketCap
    && (l.moved ==> l.bucket != [])
  }

  /** What is in the bucket and not yet in the ring. */
  function Waiting(l: Lane): seq<MarketEvent> {
    if l.moved && l.bucket != [] then l.bucket[1..] else l.bucket
  }

  predicate InOrder(l: Lane) {
    l.consumed + l.ring + Waiting(l) == l.sent
  }

  predicate FlagOk(l: Lane) {
    !l.active ==> l.bucket == []
  }

  predicate LaneInv(l: Lane) {
    Shape(l) && FlagOk(l) && InOrder(l)
  }

  lemma SendKeeps(l: Lane, l': Lane, ev: MarketEvent)
    requires LaneInv(l) && Send(l, l', ev)
    ensures LaneInv(l')
  {
    if l.active || |l.ring| >= l.ringCap {
      assert Waiting(l') == Waiting(l) + [ev];
      assert l'.consumed + l'.ring + Waiting(l') == (l.consumed + l.ring + Waiting(l)) + [ev];
    } else {
      assert Waiting(l) == [];
      assert l'.consumed + l'.ring + Waiting(l') == (l.consumed + l.ring + Waiting(l)) + [ev];
    }
  }

  lemma DrainStepKeeps(l: Lane, l': Lane)
    requires LaneInv(l) && Drain(l, l')
    ensures LaneInv(l')
  {
    if Move(l, l') {
      assert l'.consumed + l'.ring + Waiting(l') == l.consumed + l.ring + ([l.bucket[0]] + l.bucket[1..]);
      assert l.bucket == [l.bucket[0]] + l.bucket[1..];
    } else if Pop(l, l') {
      assert l'.consumed + l'.ring + Waiting(l') == l.consumed + ([l.ring[0]] + l.ring[1..]) + Waiting(l);
      assert l.ring == [l.ring[0]] + l.ring[1..];
    }
  }

  lemma LaneKeeps(l: Lane, l': Lane)
    requires LaneInv(l)
    requires (exists ev :: Send(l, l', ev)) || Drain(l, l') || CheckAndClear(l, l')
    ensures LaneInv(l')
  {
    hide Send, Drain;
    if ev :| Send(l, l', ev) {
      SendKeeps(l, l', ev);
    } else if Drain(l, l') {
      DrainStepKeeps(l, l');
    }
  }

  /** Undelivered work: it drops at every move, take or pop. */
  function Work(l: Lane): nat {
    3 * |Waiting(l)| + |l.ring| + if l.moved then 1 else 0
  }

  lemma DrainReducesWork(l: Lane, l': Lane)
    requires Shape(l) && Drain(l, l')
    ensures Shape(l') && Work(l') < Work(l)
    ensures 2 * |l'.bucket| + |l'.ring| + (if l'.moved then -1 else 0) <= 2 * |l.bucket| + |l.ring| + (if l.moved then -1 else 0)
  {
  }

  /** While anything is undelivered, some drain step is possible. */
  lemma DrainEnabled(l: Lane)
    requires LaneInv(l) && !l.checked && l.consumed != l.sent
    ensures exists l' :: Drain(l, l')
  {
    if l.ring != [] {
      assert Drain(l, l.(ring := l.ring[1..], consumed := l.consumed + [l.ring[0]]));
    } else if l.moved {
      assert Drain(l, l.(bucket := l.bucket[1..], moved := false));
    } else {
      assert l.consumed + l.ring == l.consumed;
      assert l.bucket != [];
      assert Drain(l, l.(ring := l.ring + [l.bucket[0]], moved := true));
    }
  }

  ghost predicate DrainRun(tr: seq<Lane>) {
    |tr| > 0 && forall i :: 0 <= i < |tr| - 1 ==> Drain(tr[i], tr[i + 1])
  }

  /**
   * Once dispatch has ended, a lane can drain for only as many steps as there is work,
   * and where it can drain no further everything sent has been consumed, in order.
   */
  lemma {:induction false} DrainsCompletely(tr: seq<Lane>)
    requires DrainRun(tr) && LaneInv(tr[0]) && !tr[0].checked
    ensures |tr| - 1 + Work(tr[|tr| - 1]) <= Work(tr[0])
    ensures var last := tr[|tr| - 1];
      (forall l' :: !Drain(last, l')) ==> last.consumed == last.sent == tr[0].sent
    decreases |tr|
  {
    hide LaneInv, Work, Drain;
    if |tr| == 1 {
      if forall l' :: !Drain(tr[0], l') {
        if tr[0].consumed != tr[0].sent { DrainEnabled(tr[0]); }
      }
    } else {
      assert Drain(tr[0], tr[1]);
      DrainKeeps(tr[0], tr[1]);
      assert DrainRun(tr[1..]);
      DrainsCompletely(tr[1..]);
    }
  }

  lemma DrainKeeps(l: Lane, l': Lane)
    requires LaneInv(l) && !l.checked && Drain(l, l')
    ensures LaneInv(l') && !l'.checked && Work(l') < Work(l) && l'.sent == l.sent
  {
    LaneKeeps(l, l');
    DrainReducesWork(l, l');
  }

  // ---- all lanes ----

  datatype System = System(owner: map<nat, nat>, counts: seq<nat>, lanes: seq<Lane>, log: seq<MarketEvent>)

  ghost predicate Init(s: System) {
    && s.lanes != [] && s.log == [] && s.owner == map[] && s.counts == seq(|s.lanes|, _ => 0)
    && forall w :: 0 <= w < |s.lanes| ==>
         var l := s.lanes[w];
         0 < l.ringCap && 0 < l.bucketCap && l.ring == l.bucket == l.consumed == l.sent == [] && !l.active && !l.moved && !l.checked
  }

  /** dispatch: the owner is looked up or assigned, then the event goes to its lane. */
  ghost predicate Dispatch(s: System, s': System, ev: MarketEvent)
    requires s.counts != []
  {
    var owner := Registry.Owners(s.owner, s.counts, ev.locate);
    && ev.locate in owner && owner[ev.locate] < |s.lanes| == |s'.lanes|
    && Send(s.lanes[owner[ev.locate]], s'.lanes[owner[ev.locate]], ev)
    && s' == System(owner, Registry.Counts(s.owner, s.counts, ev.locate),
                    s.lanes[owner[ev.locate] := s'.lanes[owner[ev.locate]]], s.log + [ev])
  }

  ghost predicate LaneStep(s: System, s': System, w: nat) {
    && w < |s.lanes| == |s'.lanes|
    && (Drain(s.lanes[w], s'.lanes[w]) || CheckAndClear(s.lanes[w], s'.lanes[w]))
    && s' == s.(lanes := s.lanes[w := s'.lanes[w]])
  }

  ghost predicate Next(s: System, s': System) {
    s.counts != [] && ((exists ev :: Dispatch(s, s', ev)) || (exists w :: LaneStep(s, s', w)))
  }

  ghost predicate Run(tr: seq<System>) {
    && |tr| > 0 && Init(tr[0])
    && forall i :: 0 <= i < |tr| - 1 ==> Next(tr[i], tr[i + 1])
  }

  /** The events of a log that go to worker w. */
  function ForWorker(owner: map<nat, nat>, log: seq<MarketEvent>, w: nat): seq<MarketEvent> {
    if log == [] then []
    else
      var last := log[|log| - 1];
      ForWorker(owner, log[..|log| - 1], w) + if last.locate in owner && owner[last.locate] == w then [last] else []
  }

  lemma {:induction false} ForWorkerGrows(owner: map<nat, nat>, owner': map<nat, nat>, log: seq<MarketEvent>, w: nat)
    requires forall l :: l in owner ==> l in owner' && owner'[l] == owner[l]
    requires forall i :: 0 <= i < |log| ==> log[i].locate in owner
    ensures ForWorker(owner', log, w) == ForWorker(owner, log, w)
    decreases |log|
  {
    if log != [] { ForWorkerGrows(owner, owner', log[..|log| - 1], w); }
  }

  ghost predicate SysInv(s: System) {
    && |s.counts| == |s.lanes| > 0
    && Registry.Balanced(s.owner, s.counts)
    && (forall i :: 0 <= i < |s.log| ==> s.log[i].locate in s.owner)
    && (forall w :: 0 <= w < |s.lanes| ==> LaneInv(s.lanes[w]) && s.lanes[w].sent == ForWorker(s.owner, s.log, w))
  }

  lemma DispatchKeeps(s: System, s': System, ev: MarketEvent)
    requires SysInv(s) && s.counts != [] && Dispatch(s, s', ev)
    ensures SysInv(s')
  {
    hide LaneInv, Registry.Balanced, ForWorker, Send, Registry.Owners, Registry.Counts;
    Registry.StepBalanced(s.owner, s.counts, ev.locate);
    var own := s'.owner[ev.locate];
    forall w | 0 <= w < |s'.lanes|
      ensures LaneInv(s'.lanes[w]) && s'.lanes[w].sent == ForWorker(s'.owner, s'.log, w)
    {
      ForWorkerGrows(s.owner, s'.owner, s.log, w);
      ForWorkerSnoc(s'.owner, s.log, ev, w);
      if w == own {
        LaneKeeps(s.lanes[w], s'.lanes[w]);
        SendSent(s.lanes[w], s'.lanes[w], ev);
      }
    }
  }

  lemma SendSent(l: Lane, l': Lane, ev: MarketEvent)
    requires Send(l, l', ev)
    ensures l'.sent == l.sent + [ev]
  {
  }

  lemma ForWorkerSnoc(owner: map<nat, nat>, log: seq<MarketEvent>, ev: MarketEvent, w: nat)
    requires ev.locate in owner
    ensures ForWorker(owner, log + [ev], w) == ForWorker(owner, log, w) + if owner[ev.locate] == w then [ev] else []
  {
    assert (log + [ev])[..|log|] == log;
  }

  lemma LaneStepKeeps(s: System, s': System, w: nat)
    requires SysInv(s) && LaneStep(s, s', w)
    ensures SysInv(s')
  {
    hide Registry.Balanced, ForWorker, InOrder;
    LaneKeeps(s.lanes[w], s'.lanes[w]);
  }

  lemma {:induction false} RunInv(tr: seq<System>, i: nat)
    requires Run(tr) && i < |tr|
    ensures SysInv(tr[i])
  {
    if i == 0 {
      Registry.ZeroSum(|tr[0].lanes|);
      Registry.NoneOwned(|tr[0].lanes|);
    } else {
      RunInv(tr, i - 1);
      var s, s' := tr[i - 1], tr[i];
      assert Next(s, s');
      hide SysInv, Init, Dispatch, LaneStep;
      if ev :| Dispatch(s, s', ev) {
        DispatchKeeps(s, s', ev);
      } else {
        var w :| LaneStep(s, s', w);
        LaneStepKeeps(s, s', w);
      }
    }
  }

  /**
   * In every reachable state a worker has consumed a prefix of the events of its
   * instruments in dispatch order, the rest is in its ring and bucket in that order,
   * and no event waits in the bucket of a lane whose flag is down.
   */
  lemma WorkerOrder(tr: seq<System>, i: nat, w: nat)
    requires Run(tr) && i < |tr| && w < |tr[i].lanes|
    ensures var l := tr[i].lanes[w];
      && l.consumed + l.ring + Waiting(l) == ForWorker(tr[i].owner, tr[i].log, w)
      && (!l.active ==> l.bucket == [])
  {
    RunInv(tr, i);
  }
}
