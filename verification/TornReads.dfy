/** What goes wrong on the byte ring when the tail moves between the tail reads of one parser round. */
module TornReads {
  import opened ByteRing
  import opened Bytes
  import opened Laps

  /** The window: the header was not yet there, then a push crossed the lap. */
  predicate Torn(cap: nat, head: nat, t1: nat, t2: nat, t3: nat)
    requires cap > 0
  {
    && t1 < head + HEADER <= t2
    && Room(cap, head) >= HEADER
    && NextLap(cap, head) <= t3
  }

  /**
   * A round whose reads saw different tails acts like a round on one of the tails
   * it saw, if and only if the window above was not hit.
   */
  lemma RoundAtomicIffNotTorn(buf: seq<byte>, head: nat, t1: nat, t2: nat, t3: nat,
                              q1: seq<seq<byte>>, q2: seq<seq<byte>>, q3: seq<seq<byte>>)
    requires |buf| > 0 && head <= t1 <= t2 <= t3 <= head + |buf|
    requires Layout(buf, head, t1, q1) && Layout(buf, head, t2, q2) && Layout(buf, head, t3, q3)
    ensures !Torn(|buf|, head, t1, t2, t3) <==>
      exists t :: t in {t1, t2, t3} && Round(buf, head, t1, t2, t3) == Round(buf, head, t, t, t)
  {
    RoundIsQueue(buf, head, t1, q1);
    RoundIsQueue(buf, head, t2, q2);
    RoundIsQueue(buf, head, t3, q3);
    LayoutExtent(buf, head, t1, q1);
    LayoutExtent(buf, head, t2, q2);
    assert t1 in {t1, t2, t3} && t2 in {t1, t2, t3} && t3 in {t1, t2, t3};
  }

  /** Where laying out queue from offset h ends. */
  function End(cap: nat, h: nat, queue: seq<seq<byte>>): nat
    requires cap > 0
    decreases |queue|
  {
    if queue == [] then h else End(cap, Start(cap, h) + |queue[0]|, queue[1..])
  }

  lemma {:induction false} LayoutEnd(buf: seq<byte>, head: nat, tail: nat, queue: seq<seq<byte>>)
    requires |buf| > 0 && Layout(buf, head, tail, queue)
    ensures End(|buf|, head, queue) == tail
    decreases |queue|
  {
    if queue != [] {
      LayoutEnd(buf, Start(|buf|, head) + |queue[0]|, tail, queue[1..]);
    }
  }

  /** Two placements of one queue around the lap boundary lap never meet again. */
  lemma {:induction false} EndsApart(buf: seq<byte>, tail: nat, queue: seq<seq<byte>>, lap: nat, room: nat, a: nat, b: nat)
    requires |buf| > 0 && lap % |buf| == 0 && HEADER <= room
    requires Layout(buf, a, tail, queue) && lap <= a + |buf| && tail + room <= lap + |buf|
    requires if a < lap then a + room <= b else a < b
    ensures End(|buf|, a, queue) < End(|buf|, b, queue)
    decreases |queue|
  {
    if queue != [] {
      var cap := |buf|;
      LayoutExtent(buf, a, tail, queue);
      if a < lap {
        NextLapFormula(cap, a);
        LapOf(cap, lap, a);
      } else {
        Cell(cap, lap, a - lap);
      }
      EndsApart(buf, tail, queue[1..], lap, room, Start(cap, a) + |queue[0]|, Start(cap, b) + |queue[0]|);
    }
  }

  /** A torn round jumps over real data: what was pushed is no longer laid out at the new head. */
  lemma TornLosesData(buf: seq<byte>, head: nat, t1: nat, t2: nat, t3: nat, q3: seq<seq<byte>>)
    requires |buf| > 0 && head <= t1 <= t2 <= t3 <= head + |buf|
    requires Layout(buf, head, t3, q3) && Torn(|buf|, head, t1, t2, t3)
    ensures var out := Round(buf, head, t1, t2, t3);
      out.Skip? && q3 != [] && !Layout(buf, out.to, t3, q3)
  {
    var lap := NextLap(|buf|, head);
    NextLapFormula(|buf|, head);
    LayoutEnd(buf, head, t3, q3);
    EndsApart(buf, t3, q3, lap, Room(|buf|, head), head, lap);
    if Layout(buf, lap, t3, q3) {
      LayoutEnd(buf, lap, t3, q3);
    }
  }
}
