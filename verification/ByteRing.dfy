/**
 * The single-producer single-consumer byte ring between the packet unpacker and
 * the parser. A message is a 10-byte header (8-byte sequence number, 2-byte body
 * length) and a body. The header never wraps; the body may; a tail of fewer than
 * 10 cells is left unused.
 */
module ByteRing {
  import opened Bytes
  import opened Laps

  const HEADER: nat := 10
  const MAX_BODY: nat := 200

  /** What the unpacker pushes: the length field agrees with the body. */
  predicate IsMessage(m: seq<byte>) {
    && HEADER + 1 <= |m| <= HEADER + MAX_BODY
    && FromBytes(m[8..10]) == |m| - HEADER
  }

  /** What the parser hands on for a message: its sequence number and its body. */
  datatype Parsed = Parsed(seqNo: nat, body: seq<byte>)

  function Parse(m: seq<byte>): Parsed
    requires |m| >= HEADER
  {
    Parsed(FromBytes(m[..8]), m[HEADER..])
  }

  /** Where a message placed at offset o really starts: past the gap, if there is one. */
  function Start(cap: nat, o: nat): nat
    requires cap > 0
  {
    if Room(cap, o) < HEADER then NextLap(cap, o) else o
  }

  /** The message m occupies offsets o, o+1, ... of the ring. */
  ghost predicate Holds(buf: seq<byte>, o: nat, m: seq<byte>)
    requires |buf| > 0
  {
    forall i :: 0 <= i < |m| ==> buf[(o + i) % |buf|] == m[i]
  }

  /** The offsets head..tail hold exactly the messages of queue, in order, with gaps. */
  ghost predicate Layout(buf: seq<byte>, head: nat, tail: nat, queue: seq<seq<byte>>)
    requires |buf| > 0
    decreases |queue|
  {
    if queue == [] then head == tail
    else
      var s := Start(|buf|, head);
      && IsMessage(queue[0])
      && Holds(buf, s, queue[0])
      && Layout(buf, s + |queue[0]|, tail, queue[1..])
  }

  /** The admission test of push, for a head the producer may have read long ago. */
  predicate Fits(cap: nat, head: nat, tail: nat, len: nat)
    requires cap > 0
  {
    if tail % cap + len <= cap then tail + len <= head + cap
    else NextLap(cap, tail) + len <= head + cap
  }

  /** The outcome of one round of the parser's loop. */
  datatype Outcome =
    | Wait                            // leave the loop, nothing consumed
    | Skip(to: nat)                   // advance the head without a message
    | Emit(to: nat, parsed: Parsed)   // hand on a message and advance the head

  /** The n bytes at offset o, joined across the wrap as the parser's copy does. */
  function Slice(buf: seq<byte>, o: nat, n: nat): (m: seq<byte>)
    requires n <= |buf| && |buf| > 0
    ensures |m| == n
  {
    var p := o % |buf|;
    if p + n <= |buf| then buf[p..p + n] else buf[p..] + buf[..p + n - |buf|]
  }

  /**
   * One round of parse_available on arbitrary ring contents. The source reads the
   * tail several times: t1 inside read_acquire, t2 for the amount used, and t3 in
   * the gap test. Later reads cannot change the result.
   */
  function Round(buf: seq<byte>, head: nat, t1: nat, t2: nat, t3: nat): Outcome
    requires |buf| > 0 && head <= t1 <= t2 <= t3 <= head + |buf|
  {
    var cap := |buf|;
    if t1 - head >= HEADER && Room(cap, head) >= HEADER then
      var h := Slice(buf, head, HEADER);
      var bodyLen := FromBytes(h[8..10]);
      if bodyLen < 1 || bodyLen > MAX_BODY then Skip(head + HEADER)
      else if t2 - head < HEADER + bodyLen then Wait
      else Emit(head + HEADER + bodyLen, Parse(Slice(buf, head, HEADER + bodyLen)))
    else if t2 - head >= HEADER then
      if NextLap(cap, head) > t3 then Wait else Skip(NextLap(cap, head))
    else Wait
  }

  /** The cases of a round on one tail snapshot. */
  lemma RoundAt(buf: seq<byte>, head: nat, tail: nat)
    requires |buf| > 0 && head <= tail <= head + |buf|
    ensures var out, used, lap := Round(buf, head, tail, tail, tail), tail - head, NextLap(|buf|, head);
      && (used < HEADER ==> out == Wait)
      && (used >= HEADER && Room(|buf|, head) < HEADER ==> out == if lap > tail then Wait else Skip(lap))
      && (used >= HEADER && Room(|buf|, head) >= HEADER ==>
            var n := FromBytes(Slice(buf, head, HEADER)[8..10]);
            out == if n < 1 || n > MAX_BODY then Skip(head + HEADER)
                   else if used < HEADER + n then Wait
                   else Emit(head + HEADER + n, Parse(Slice(buf, head, HEADER + n))))
  {
  }

  // ---- facts about layouts ----

  lemma {:induction false} LayoutExtent(buf: seq<byte>, head: nat, tail: nat, queue: seq<seq<byte>>)
    requires |buf| > 0 && Layout(buf, head, tail, queue)
    ensures head <= tail
    ensures queue != [] ==> Start(|buf|, head) + |queue[0]| <= tail
    decreases |queue|
  {
    if queue != [] {
      LayoutExtent(buf, Start(|buf|, head) + |queue[0]|, tail, queue[1..]);
    }
  }

  /** Only the live cells matter. */
  lemma {:induction false} LayoutFrame(buf: seq<byte>, buf': seq<byte>, head: nat, tail: nat, queue: seq<seq<byte>>)
    requires 0 < |buf| == |buf'| && Layout(buf, head, tail, queue)
    requires forall o :: head <= o < tail ==> buf'[o % |buf|] == buf[o % |buf|]
    ensures Layout(buf', head, tail, queue)
    decreases |queue|
  {
    if queue != [] {
      LayoutExtent(buf, head, tail, queue);
      var s := Start(|buf|, head);
      forall i | 0 <= i < |queue[0]| ensures buf'[(s + i) % |buf|] == queue[0][i] {
        assert head <= s + i < tail;
      }
      LayoutFrame(buf, buf', s + |queue[0]|, tail, queue[1..]);
    }
  }

  lemma {:induction false} LayoutAppend(buf: seq<byte>, head: nat, tail: nat, queue: seq<seq<byte>>, m: seq<byte>)
    requires |buf| > 0 && Layout(buf, head, tail, queue)
    requires IsMessage(m) && Holds(buf, Start(|buf|, tail), m)
    ensures Layout(buf, head, Start(|buf|, tail) + |m|, queue + [m])
    decreases |queue|
  {
    var all := queue + [m];
    if queue == [] {
      assert all[1..] == [];
    } else {
      LayoutAppend(buf, Start(|buf|, head) + |queue[0]|, tail, queue[1..], m);
      assert all[1..] == queue[1..] + [m];
    }
  }

  /** Skipping the gap in front of the first message loses nothing. */
  lemma LayoutFirst(buf: seq<byte>, head: nat, tail: nat, queue: seq<seq<byte>>)
    requires |buf| >= HEADER && Layout(buf, head, tail, queue) && queue != []
    ensures Layout(buf, Start(|buf|, head), tail, queue)
  {
    NextLapFormula(|buf|, head);
  }

  lemma HoldsBytes(buf: seq<byte>, o: nat, m: seq<byte>)
    requires |m| <= |buf| && |buf| > 0 && Holds(buf, o, m)
    ensures Slice(buf, o, |m|) == m
  {
    forall i | 0 <= i < |m| ensures Slice(buf, o, |m|)[i] == m[i] {
      Cell(|buf|, o, i);
    }
  }

  lemma BytesHold(buf: seq<byte>, o: nat, m: seq<byte>)
    requires |m| <= |buf| && |buf| > 0 && Slice(buf, o, |m|) == m
    ensures Holds(buf, o, m)
  {
    forall i | 0 <= i < |m| ensures buf[(o + i) % |buf|] == m[i] {
      Cell(|buf|, o, i);
      assert Slice(buf, o, |m|)[i] == m[i];
    }
  }

  // ---- one round with one tail snapshot ----

  /** What the abstract queue expects of a round that saw the first k messages. */
  predicate RightRound(cap: nat, head: nat, queue: seq<seq<byte>>, out: Outcome)
    requires cap > 0
  {
    if queue == [] then out == Wait
    else if Room(cap, head) < HEADER then out == Skip(NextLap(cap, head))
    else IsMessage(queue[0]) && out == Emit(head + |queue[0]|, Parse(queue[0]))
  }

  lemma {:induction false} LayoutMessages(buf: seq<byte>, head: nat, tail: nat, queue: seq<seq<byte>>)
    requires |buf| > 0 && Layout(buf, head, tail, queue)
    ensures forall m :: m in queue ==> IsMessage(m)
    decreases |queue|
  {
    if queue != [] {
      LayoutMessages(buf, Start(|buf|, head) + |queue[0]|, tail, queue[1..]);
    }
  }

  /** With one tail snapshot a round does exactly what a message queue would. */
  lemma RoundIsQueue(buf: seq<byte>, head: nat, tail: nat, queue: seq<seq<byte>>)
    requires |buf| > 0 && head <= tail <= head + |buf| && Layout(buf, head, tail, queue)
    ensures forall m :: m in queue ==> IsMessage(m)
    ensures RightRound(|buf|, head, queue, Round(buf, head, tail, tail, tail))
  {
    hide Round, FromBytes, Slice, Parse, Room;
    LayoutMessages(buf, head, tail, queue);
    LayoutExtent(buf, head, tail, queue);
    RoundAt(buf, head, tail);
    if queue != [] && Room(|buf|, head) >= HEADER {
      var m := queue[0];
      HoldsBytes(buf, head, m);
      assert Holds(buf, head, m[..HEADER]);
      HoldsBytes(buf, head, m[..HEADER]);
      assert m[..HEADER][8..10] == m[8..10];
    }
  }

  /** After a right round the rest of the queue is still laid out. */
  lemma AfterRound(buf: seq<byte>, head: nat, tail: nat, queue: seq<seq<byte>>)
    requires |buf| > 0 && head <= tail <= head + |buf| && Layout(buf, head, tail, queue)
    ensures var out := Round(buf, head, tail, tail, tail);
      && (out.Wait? <==> queue == [])
      && (!out.Wait? ==> head < out.to <= tail)
      && (out.Skip? ==> Layout(buf, out.to, tail, queue))
      && (out.Emit? ==> out.parsed == Parse(queue[0]) && Layout(buf, out.to, tail, queue[1..]))
  {
    RoundIsQueue(buf, head, tail, queue);
    LayoutExtent(buf, head, tail, queue);
    if queue != [] {
      LayoutFirst(buf, head, tail, queue);
    }
  }

  // ---- writing a message ----

  /** The cells touched by a write of len bytes from offset s. */
  predicate Touched(cap: nat, s: nat, len: nat, c: nat)
    requires cap > 0
  {
    var p := s % cap;
    if p + len <= cap then p <= c < p + len else c < p + len - cap || p <= c
  }

  /** A write of len cells from offset s spares every offset less than a lap behind its end. */
  lemma SparedCell(cap: nat, s: nat, len: nat, o: nat)
    requires cap > 0 && o < s && s + len <= o + cap
    ensures !Touched(cap, s, len, o % cap)
  {
    var p, c := s % cap, o % cap;
    if p <= c < p + len {
      Cell(cap, s, c - p);
      CellsDiffer(cap, o, s + (c - p));
    } else if c < p + len - cap {
      Cell(cap, s, c + cap - p);
      CellsDiffer(cap, o, s + (c + cap - p));
    }
  }

  /** after is before with m written from offset s. */
  ghost predicate Wrote(before: seq<byte>, after: seq<byte>, s: nat, m: seq<byte>) {
    && |m| <= |before| == |after| && 0 < |before|
    && Slice(after, s, |m|) == m
    && forall c :: 0 <= c < |before| && !Touched(|before|, s, |m|, c) ==> after[c] == before[c]
  }

  /** Two writes side by side up to the physical end. */
  lemma TwoWrites(before: seq<byte>, first: seq<byte>, after: seq<byte>, p: nat, x: seq<byte>, y: seq<byte>)
    requires p + |x| + |y| == |before|
    requires first == before[..p] + x + before[p + |x|..] && after == first[..p + |x|] + y + first[p + |x| + |y|..]
    ensures after == before[..p] + (x + y)
  {
    assert first[..p + |x|] == before[..p] + x;
  }

  lemma WroteWrapped(before: seq<byte>, after: seq<byte>, s: nat, m: seq<byte>)
    requires 0 < |before| && |m| <= |before|
    requires var p := CellOf(|before|, s); var room := |before| - p;
      room < |m| && after == m[room..] + (before[..p] + m[..room])[|m| - room..]
    ensures Wrote(before, after, s, m)
  {
    var p, room := s % |before|, Room(|before|, s);
    assert after[p..] == m[..room] && after[..|m| - room] == m[room..];
  }

  /** An admitted write adds its message to the layout. */
  lemma WroteMessage(before: seq<byte>, after: seq<byte>, head: nat, tail: nat, queue: seq<seq<byte>>, m: seq<byte>)
    requires 0 < |before| && head <= tail <= head + |before| && Layout(before, head, tail, queue)
    requires IsMessage(m) && Fits(|before|, head, tail, |m|)
    requires Wrote(before, after, Start(|before|, tail), m)
    ensures Layout(after, head, Start(|before|, tail) + |m|, queue + [m])
    ensures Start(|before|, tail) + |m| <= head + |before|
  {
    var cap, s := |before|, Start(|before|, tail);
    forall o | head <= o < tail ensures after[o % cap] == before[o % cap] {
      SparedCell(cap, s, |m|, o);
    }
    LayoutFrame(before, after, head, tail, queue);
    BytesHold(after, s, m);
    LayoutAppend(after, head, tail, queue, m);
  }

  // ---- what is admitted ----

  /**
   * A message needs its own bytes and, when it does not fit before the physical end,
   * those up to that end as well; it is admitted exactly when that much is free.
   */
  lemma AdmittedIff(cap: nat, head: nat, tail: nat, len: nat)
    requires 0 < cap && head <= tail
    ensures Fits(cap, head, tail, len) <==>
      len + (if cap - tail % cap < len then cap - tail % cap else 0) <= cap - (tail - head)
  {
  }

  /**
   * With used of cap bytes taken, a message of len bytes is admitted wherever the
   * counters stand exactly when cap - used >= 2 * len - 1.
   */
  lemma AdmittedEverywhereIff(cap: nat, used: nat, len: nat)
    requires 0 < cap && used <= cap
    ensures (forall head: nat, tail: nat :: tail == head + used ==> Fits(cap, head, tail, len)) <==>
      cap - used >= 2 * len - 1
  {
    forall head: nat, tail: nat | tail == head + used
      ensures cap - used >= 2 * len - 1 ==> Fits(cap, head, tail, len)
    {
      AdmittedIff(cap, head, tail, len);
    }
    if cap - used < 2 * len - 1 {
      var tail := if len <= cap then 2 * cap - (len - 1) else used;
      if len <= cap { Cell(cap, cap, tail - cap); }
      AdmittedIff(cap, tail - used, tail, len);
      assert !Fits(cap, tail - used, tail, len);
    }
  }

  /** A drained ring: every message is admitted wherever the counters stand exactly when cap >= 2 * len - 1. */
  lemma DrainedRingAccepts(cap: nat, len: nat)
    requires 0 < cap
    ensures (forall h: nat :: Fits(cap, h, h, len)) <==> cap >= 2 * len - 1
  {
    hide Fits;
    AdmittedEverywhereIff(cap, 0, len);
  }

  /** So 512 bytes are enough for every legal message, in every drained state. */
  lemma EveryMessageFits512(h: nat, m: seq<byte>)
    requires IsMessage(m)
    ensures Fits(512, h, h, |m|)
  {
    DrainedRingAccepts(512, |m|);
  }
}
