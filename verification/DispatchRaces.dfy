/**
 * One lane with every access to shared state a step of its own: the dispatcher reads
 * the flag, then pushes, then may raise the flag; the retry thread sees the bucket
 * empty, then clears the flag. Exactly when this keeps the order of events.
 */
module DispatchRaces {
  import opened MarketEvents
  import opened DispatchProtocol

  /** Where the dispatcher is in its call for this lane. */
  datatype Caller =
    | Idle
    | Saw(ev: MarketEvent, flag: bool)   // has read the flag
    | Refused(ev: MarketEvent)           // the flag was down and the ring full
    | Bucketed                           // the event is in the bucket, the flag still to be raised

  datatype State = State(lane: Lane, caller: Caller)

  // ---- steps ----

  predicate ReadFlag(s: State, s': State, ev: MarketEvent) {
    s.caller == Idle && s' == s.(caller := Saw(ev, s.lane.active))
  }

  predicate PushRing(s: State, s': State) {
    && s.caller.Saw? && !s.caller.flag && |s.lane.ring| < s.lane.ringCap
    && s' == State(s.lane.(ring := s.lane.ring + [s.caller.ev], sent := s.lane.sent + [s.caller.ev]), Idle)
  }

  predicate RingRefuses(s: State, s': State) {
    && s.caller.Saw? && !s.caller.flag && |s.lane.ring| >= s.lane.ringCap
    && s' == s.(caller := Refused(s.caller.ev))
  }

  /** A full bucket makes the dispatcher wait: the step is not possible until there is room. */
  predicate PushBucket(s: State, s': State) {
    && ((s.caller.Saw? && s.caller.flag) || s.caller.Refused?) && |s.lane.bucket| < s.lane.bucketCap
    && s' == State(s.lane.(bucket := s.lane.bucket + [s.caller.ev], sent := s.lane.sent + [s.caller.ev]),
                   if s.caller.Saw? then Idle else Bucketed)
  }

  predicate RaiseFlag(s: State, s': State) {
    s.caller == Bucketed && s' == State(s.lane.(active := true), Idle)
  }

  predicate Check(s: State, s': State) {
    && !s.lane.moved && !s.lane.checked && s.lane.bucket == []
    && s' == s.(lane := s.lane.(checked := true))
  }

  predicate Clear(s: State, s': State) {
    s.lane.checked && s' == s.(lane := s.lane.(checked := false, active := false))
  }

  predicate DrainStep(s: State, s': State) {
    Drain(s.lane, s'.lane) && s' == s.(lane := s'.lane)
  }

  ghost predicate Next(s: State, s': State) {
    || (exists ev :: ReadFlag(s, s', ev)) || PushRing(s, s') || RingRefuses(s, s') || PushBucket(s, s') || RaiseFlag(s, s')
    || Check(s, s') || Clear(s, s') || DrainStep(s, s')
  }

  /** A run from any state that is in order, with the dispatcher between two calls. */
  ghost predicate Run(tr: seq<State>) {
    && |tr| > 0 && Shape(tr[0].lane) && InOrder(tr[0].lane) && Distinct(tr[0].lane.sent) && tr[0].caller == Idle
    && forall i :: 0 <= i < |tr| - 1 ==> Next(tr[i], tr[i + 1])
  }

  ghost predicate Distinct(s: seq<MarketEvent>) {
    forall i, j :: 0 <= i < j < |s| ==> s[i] != s[j]
  }

  /** No event is dispatched twice. */
  ghost predicate NewEvents(tr: seq<State>) {
    forall i :: 0 <= i < |tr| - 1 && (PushRing(tr[i], tr[i + 1]) || PushBucket(tr[i], tr[i + 1])) ==>
      tr[i].caller.ev !in tr[i].lane.sent
  }

  /** The dispatcher pushes straight to the ring while an earlier event waits in the bucket. */
  predicate Overtakes(s: State, s': State) {
    PushRing(s, s') && Waiting(s.lane) != []
  }

  predicate OvertakesAt(tr: seq<State>, i: nat)
    requires i < |tr| - 1
  {
    Overtakes(tr[i], tr[i + 1])
  }

  ghost predicate NoneOvertaken(tr: seq<State>) {
    forall i: nat :: i < |tr| - 1 ==> !OvertakesAt(tr, i)
  }

  // ---- what one step does to the line of events ----

  /** Everything sent, in the order the worker gets it. */
  function Line(l: Lane): seq<MarketEvent> {
    l.consumed + l.ring + Waiting(l)
  }

  /** The line and the dispatch order stay, grow alike at the end, or an event slips in before the waiting ones. */
  ghost predicate LineStep(s: State, s': State) {
    var l, l' := s.lane, s'.lane;
    && Shape(l')
    && ( || (Line(l') == Line(l) && l'.sent == l.sent)
         || ( && (s.caller.Saw? || s.caller.Refused?) && (PushRing(s, s') || PushBucket(s, s'))
              && l'.sent == l.sent + [s.caller.ev]
              && Line(l') == if Overtakes(s, s') then l.consumed + l.ring + ([s.caller.ev] + Waiting(l))
                             else Line(l) + [s.caller.ev]))
  }

  lemma DrainLine(l: Lane, l': Lane)
    requires Shape(l) && Drain(l, l')
    ensures Shape(l') && Line(l') == Line(l) && l'.sent == l.sent
  {
    if Move(l, l') {
      Regroup(l.consumed + l.ring, [l.bucket[0]], l.bucket[1..]);
      Regroup(l.consumed, l.ring, [l.bucket[0]]);
      assert l.bucket == [l.bucket[0]] + l.bucket[1..];
    } else if Pop(l, l') {
      Regroup(l.consumed, [l.ring[0]], l.ring[1..]);
      assert l.ring == [l.ring[0]] + l.ring[1..];
    }
  }

  lemma Regroup(x: seq<MarketEvent>, y: seq<MarketEvent>, z: seq<MarketEvent>)
    ensures x + (y + z) == (x + y) + z
  {
  }

  lemma StepLine(s: State, s': State)
    requires Shape(s.lane) && Next(s, s')
    ensures LineStep(s, s')
  {
    var l, l' := s.lane, s'.lane;
    if DrainStep(s, s') {
      DrainLine(l, l');
    } else if PushBucket(s, s') {
      assert Waiting(l') == Waiting(l) + [s.caller.ev];
      Regroup(l.consumed + l.ring, Waiting(l), [s.caller.ev]);
    } else if PushRing(s, s') {
      Regroup(l.consumed, l.ring, [s.caller.ev]);
      Regroup(l.consumed + l.ring, [s.caller.ev], Waiting(l));
    }
  }

  // ---- an inversion never heals ----

  /** a stands before b in s. */
  ghost predicate Before(s: seq<MarketEvent>, a: MarketEvent, b: MarketEvent) {
    exists i, j :: 0 <= i < j < |s| && s[i] == a && s[j] == b
  }

  /** The worker gets a before b although b was dispatched before a. */
  ghost predicate Inverted(l: Lane, a: MarketEvent, b: MarketEvent) {
    Before(Line(l), a, b) && Before(l.sent, b, a)
  }

  ghost predicate HasInversion(l: Lane) {
    exists a, b :: Inverted(l, a, b)
  }

  lemma BeforeGrows(s: seq<MarketEvent>, more: seq<MarketEvent>, a: MarketEvent, b: MarketEvent)
    requires Before(s, a, b)
    ensures Before(s + more, a, b)
  {
    var i, j :| 0 <= i < j < |s| && s[i] == a && s[j] == b;
    assert (s + more)[i] == a && (s + more)[j] == b;
  }

  lemma BeforeInserted(x: seq<MarketEvent>, e: MarketEvent, y: seq<MarketEvent>, a: MarketEvent, b: MarketEvent)
    requires Before(x + y, a, b)
    ensures Before(x + ([e] + y), a, b)
  {
    var i, j :| 0 <= i < j < |x + y| && (x + y)[i] == a && (x + y)[j] == b;
    var all := x + ([e] + y);
    var i', j' := if i < |x| then i else i + 1, if j < |x| then j else j + 1;
    assert all[i'] == a && all[j'] == b;
  }

  lemma InversionStays(s: State, s': State, a: MarketEvent, b: MarketEvent)
    requires LineStep(s, s') && Inverted(s.lane, a, b)
    ensures Inverted(s'.lane, a, b)
  {
    hide Before, Waiting, PushRing, PushBucket, Shape;
    var l, l' := s.lane, s'.lane;
    if !(Line(l') == Line(l) && l'.sent == l.sent) {
      BeforeGrows(l.sent, [s.caller.ev], b, a);
      if Overtakes(s, s') {
        BeforeInserted(l.consumed + l.ring, s.caller.ev, Waiting(l), a, b);
      } else {
        BeforeGrows(Line(l), [s.caller.ev], a, b);
      }
    }
  }

  lemma NoInversionInOrder(l: Lane, a: MarketEvent, b: MarketEvent)
    requires InOrder(l) && Distinct(l.sent)
    ensures !Inverted(l, a, b)
  {
  }

  /** Overtaking a waiting event that was dispatched earlier inverts the two. */
  lemma OvertakingInverts(s: State, s': State)
    requires Shape(s.lane) && InOrder(s.lane) && Overtakes(s, s') && LineStep(s, s')
    requires s.caller.ev !in s.lane.sent
    ensures HasInversion(s'.lane)
  {
    var l, l', e := s.lane, s'.lane, s.caller.ev;
    var w, front := Waiting(l), l.consumed + l.ring;
    assert Line(l') == front + ([e] + w);
    assert Line(l')[|front|] == e && Line(l')[|front| + 1] == w[0];
    assert l.sent[|front|] == w[0] by { assert (front + w)[|front|] == w[0]; }
    assert l'.sent[|front|] == w[0] && l'.sent[|l.sent|] == e;
    assert Inverted(l', e, w[0]);
  }

  lemma {:induction false} RunShape(tr: seq<State>)
    requires Run(tr) && NewEvents(tr)
    ensures var l := tr[|tr| - 1].lane; Shape(l) && Distinct(l.sent)
    decreases |tr|
  {
    hide Next, Shape, LineStep;
    if |tr| > 1 {
      var init, s, s' := tr[..|tr| - 1], tr[|tr| - 2], tr[|tr| - 1];
      RunShape(init);
      assert Next(s, s');
      StepLine(s, s');
      SentGrows(s, s');
      if s'.lane.sent != s.lane.sent { assert s.caller.ev !in s.lane.sent; }
    }
  }

  lemma SentGrows(s: State, s': State)
    requires LineStep(s, s')
    ensures Shape(s'.lane)
    ensures s'.lane.sent == s.lane.sent ||
      ((s.caller.Saw? || s.caller.Refused?) && (PushRing(s, s') || PushBucket(s, s')) && s'.lane.sent == s.lane.sent + [s.caller.ev])
  {
  }

  /** With no overtaking so far the lane is in order; after one, two events are inverted for good. */
  lemma {:induction false} OrderOrInversion(tr: seq<State>)
    requires Run(tr) && NewEvents(tr)
    ensures if NoneOvertaken(tr) then InOrder(tr[|tr| - 1].lane) else HasInversion(tr[|tr| - 1].lane)
    decreases |tr|
  {
    hide Next, Inverted, Overtakes, Waiting, PushRing, PushBucket;
    if |tr| > 1 {
      var init, s, s' := tr[..|tr| - 1], tr[|tr| - 2], tr[|tr| - 1];
      OrderOrInversion(init);
      RunShape(init);
      assert Next(s, s');
      StepLine(s, s');
      if !NoneOvertaken(init) {
        var i: nat :| i < |init| - 1 && OvertakesAt(init, i);
        assert OvertakesAt(tr, i);
        var a, b :| Inverted(s.lane, a, b);
        InversionStays(s, s', a, b);
        assert HasInversion(s'.lane);
      } else if Overtakes(s, s') {
        assert OvertakesAt(tr, |tr| - 2);
        NewAt(tr, |tr| - 2);
        OvertakingInverts(s, s');
      } else {
        assert forall i: nat :: i < |tr| - 1 && OvertakesAt(tr, i) ==> i < |init| - 1 && OvertakesAt(init, i);
        assert Line(s.lane) == s.lane.sent;
      }
    }
  }

  lemma NewAt(tr: seq<State>, i: nat)
    requires NewEvents(tr) && i < |tr| - 1 && Overtakes(tr[i], tr[i + 1])
    ensures tr[i].caller.Saw? && tr[i].caller.ev !in tr[i].lane.sent
  {
  }

  /**
   * At the end of any run the worker gets the events in dispatch order if and only if
   * the dispatcher never pushed straight to the ring past a waiting event. An inversion
   * once made is never undone.
   */
  lemma OrderedIffNoneOvertaken(tr: seq<State>)
    requires Run(tr) && NewEvents(tr)
    ensures InOrder(tr[|tr| - 1].lane) <==> NoneOvertaken(tr)
  {
    hide Next, Inverted, NoneOvertaken, InOrder;
    OrderOrInversion(tr);
    RunShape(tr);
    if HasInversion(tr[|tr| - 1].lane) {
      var a, b :| Inverted(tr[|tr| - 1].lane, a, b);
      if InOrder(tr[|tr| - 1].lane) { NoInversionInOrder(tr[|tr| - 1].lane, a, b); }
    }
  }

  // ---- two ways to overtake ----

  /** Every check of the run is followed at once by its clear. */
  ghost predicate ClearsAtOnce(tr: seq<State>) {
    forall i :: 0 <= i < |tr| - 1 && tr[i].lane.checked ==> Clear(tr[i], tr[i + 1])
  }

  /** No step of the retry thread or the worker comes between a call's reading of the flag and its end. */
  ghost predicate CallsAtOnce(tr: seq<State>) {
    forall i :: 0 <= i < |tr| - 1 && tr[i].caller != Idle ==> tr[i + 1].caller != tr[i].caller
  }

  lemma Extend(tr: seq<State>, s: State) returns (more: seq<State>)
    requires Run(tr) && Next(tr[|tr| - 1], s)
    ensures Run(more) && more == tr + [s]
    ensures ClearsAtOnce(tr) && (tr[|tr| - 1].lane.checked ==> Clear(tr[|tr| - 1], s)) ==> ClearsAtOnce(more)
    ensures CallsAtOnce(tr) && (tr[|tr| - 1].caller != Idle ==> s.caller != tr[|tr| - 1].caller) ==> CallsAtOnce(more)
  {
    hide Next, Clear;
    more := tr + [s];
    forall i | 0 <= i < |more| - 1 ensures Next(more[i], more[i + 1]) {
      if i < |tr| - 1 { assert Next(tr[i], tr[i + 1]); }
    }
    if ClearsAtOnce(tr) && (tr[|tr| - 1].lane.checked ==> Clear(tr[|tr| - 1], s)) {
      forall i | 0 <= i < |more| - 1 && more[i].lane.checked ensures Clear(more[i], more[i + 1]) {
        if i < |tr| - 1 { assert Clear(tr[i], tr[i + 1]); }
      }
    }
  }

  lemma LaneTurn(tr: seq<State>, l: Lane) returns (more: seq<State>)
    requires Run(tr) && !tr[|tr| - 1].lane.checked && Drain(tr[|tr| - 1].lane, l)
    ensures Run(more) && more == tr + [tr[|tr| - 1].(lane := l)]
    ensures ClearsAtOnce(tr) ==> ClearsAtOnce(more)
    ensures CallsAtOnce(tr) && tr[|tr| - 1].caller == Idle ==> CallsAtOnce(more)
  {
    hide InOrder, Shape, Distinct, ClearsAtOnce, CallsAtOnce, Drain;
    assert DrainStep(tr[|tr| - 1], tr[|tr| - 1].(lane := l));
    more := Extend(tr, tr[|tr| - 1].(lane := l));
  }

  /** A whole call that finds the flag down and room in the ring. */
  lemma CallRing(tr: seq<State>, ev: MarketEvent) returns (more: seq<State>)
    requires Run(tr)
    requires var s := tr[|tr| - 1]; s.caller == Idle && !s.lane.active && !s.lane.checked && |s.lane.ring| < s.lane.ringCap
    ensures var s := tr[|tr| - 1];
      && Run(more) && |more| == |tr| + 2 && more[..|tr|] == tr
      && more[|tr|] == State(s.lane, Saw(ev, false)) && PushRing(more[|tr|], more[|tr| + 1])
    ensures ClearsAtOnce(tr) ==> ClearsAtOnce(more)
    ensures CallsAtOnce(tr) ==> CallsAtOnce(more)
  {
    hide InOrder, Shape, Distinct, ClearsAtOnce, CallsAtOnce;
    var s := tr[|tr| - 1];
    var saw := s.(caller := Saw(ev, false));
    assert ReadFlag(s, saw, ev);
    more := Extend(tr, saw);
    var done := State(s.lane.(ring := s.lane.ring + [ev], sent := s.lane.sent + [ev]), Idle);
    assert PushRing(saw, done);
    more := Extend(more, done);
  }

  /** a fills a ring of one, b goes to the bucket and is moved to the ring: the flag is up, the bucket empty. */
  lemma BucketEmptied(a: MarketEvent, b: MarketEvent) returns (tr: seq<State>)
    ensures Run(tr) && ClearsAtOnce(tr) && CallsAtOnce(tr)
    ensures tr[0] == State(Lane(1, 2, [], [], false, false, false, [], []), Idle)
    ensures tr[|tr| - 1] == State(Lane(1, 2, [b], [], true, false, false, [a], [a, b]), Idle)
  {
    tr := [State(Lane(1, 2, [], [], false, false, false, [], []), Idle)];
    tr := CallRing(tr, a);
    tr := CallFull(tr, b);
    var l := tr[|tr| - 1].lane;
    tr := LaneTurn(tr, l.(ring := [], consumed := [a]));
    tr := LaneTurn(tr, l.(ring := [b], consumed := [a], moved := true));
    tr := LaneTurn(tr, l.(ring := [b], bucket := [], consumed := [a]));
  }

  /** A whole call that finds the flag down, the ring full and room in the bucket. */
  lemma CallFull(tr: seq<State>, ev: MarketEvent) returns (more: seq<State>)
    requires Run(tr)
    requires var s := tr[|tr| - 1];
      && s.caller == Idle && !s.lane.active && !s.lane.checked
      && |s.lane.ring| >= s.lane.ringCap && |s.lane.bucket| < s.lane.bucketCap
    ensures Run(more) && |more| == |tr| + 4 && more[..|tr|] == tr
    ensures var l := tr[|tr| - 1].lane;
      more[|tr| + 3] == State(l.(bucket := l.bucket + [ev], sent := l.sent + [ev], active := true), Idle)
    ensures ClearsAtOnce(tr) ==> ClearsAtOnce(more)
    ensures CallsAtOnce(tr) ==> CallsAtOnce(more)
  {
    hide InOrder, Shape, Distinct, ClearsAtOnce, CallsAtOnce;
    var s := tr[|tr| - 1];
    var saw, refused := s.(caller := Saw(ev, false)), s.(caller := Refused(ev));
    assert ReadFlag(s, saw, ev);
    more := Extend(tr, saw);
    assert RingRefuses(saw, refused);
    more := Extend(more, refused);
    var bucketed := State(s.lane.(bucket := s.lane.bucket + [ev], sent := s.lane.sent + [ev]), Bucketed);
    assert PushBucket(refused, bucketed);
    more := Extend(more, bucketed);
    assert RaiseFlag(bucketed, State(bucketed.lane.(active := true), Idle));
    more := Extend(more, State(bucketed.lane.(active := true), Idle));
  }

  /** c waits in the bucket with the flag down; d passes it and is consumed first. */
  lemma PassedBy(tr: seq<State>, a: MarketEvent, b: MarketEvent, c: MarketEvent, d: MarketEvent) returns (more: seq<State>)
    requires Run(tr) && tr[|tr| - 1] == State(Lane(1, 2, [b], [c], false, false, false, [a], [a, b, c]), Idle)
    ensures Run(more) && tr <= more
    ensures var last := more[|more| - 1].lane; last.consumed == [a, b, d] && last.sent == [a, b, c, d]
    ensures ClearsAtOnce(tr) ==> ClearsAtOnce(more)
    ensures CallsAtOnce(tr) ==> CallsAtOnce(more)
  {
    hide InOrder, Shape, Distinct, ClearsAtOnce, CallsAtOnce;
    var l := tr[|tr| - 1].lane;
    more := LaneTurn(tr, l.(ring := [], consumed := [a, b]));
    more := CallRing(more, d);
    l := more[|more| - 1].lane;
    more := LaneTurn(more, l.(ring := [], consumed := [a, b, d]));
  }

  /**
   * A call that comes whole between the retry thread's check and its clear: c is
   * stranded in the bucket with the flag down, and d is consumed before it.
   */
  lemma LateClearReorders(a: MarketEvent, b: MarketEvent, c: MarketEvent, d: MarketEvent) returns (tr: seq<State>)
    ensures Run(tr) && CallsAtOnce(tr) && tr[0].lane.sent == []
    ensures var last := tr[|tr| - 1].lane; last.consumed == [a, b, d] && last.sent == [a, b, c, d]
  {
    hide Run, CallsAtOnce, ClearsAtOnce;
    tr := BucketEmptied(a, b);
    var first := tr[0];
    var s := tr[|tr| - 1];
    var checked := s.(lane := s.lane.(checked := true));
    assert Check(s, checked);
    tr := Extend(tr, checked);
    var saw := checked.(caller := Saw(c, true));
    assert ReadFlag(checked, saw, c);
    tr := Extend(tr, saw);
    var stranded := State(checked.lane.(bucket := [c], sent := [a, b, c]), Idle);
    assert PushBucket(saw, stranded);
    tr := Extend(tr, stranded);
    var cleared := stranded.(lane := stranded.lane.(checked := false, active := false));
    assert Clear(stranded, cleared);
    tr := Extend(tr, cleared);
    tr := PassedBy(tr, a, b, c, d);
    assert tr[0] == first;
  }

  /**
   * A check and clear that come whole inside a call, after it has read the flag: again
   * c is stranded and d is consumed before it.
   */
  lemma StaleFlagReorders(a: MarketEvent, b: MarketEvent, c: MarketEvent, d: MarketEvent) returns (tr: seq<State>)
    ensures Run(tr) && ClearsAtOnce(tr) && tr[0].lane.sent == []
    ensures var last := tr[|tr| - 1].lane; last.consumed == [a, b, d] && last.sent == [a, b, c, d]
  {
    hide Run, CallsAtOnce, ClearsAtOnce;
    tr := BucketEmptied(a, b);
    var first := tr[0];
    var s := tr[|tr| - 1];
    var saw := s.(caller := Saw(c, true));
    assert ReadFlag(s, saw, c);
    tr := Extend(tr, saw);
    var checked := saw.(lane := s.lane.(checked := true));
    assert Check(saw, checked);
    tr := Extend(tr, checked);
    var cleared := saw.(lane := s.lane.(active := false));
    assert Clear(checked, cleared);
    tr := Extend(tr, cleared);
    var stranded := State(cleared.lane.(bucket := [c], sent := [a, b, c]), Idle);
    assert PushBucket(cleared, stranded);
    tr := Extend(tr, stranded);
    tr := PassedBy(tr, a, b, c, d);
    assert tr[0] == first;
  }
}
