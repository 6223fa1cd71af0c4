/**
 * Producer and consumer of the byte ring as interleaved steps. The producer reads
 * the head, copies a message one byte at a time and then publishes the tail; the
 * consumer reads the tail three times, decides and hands on, and only then releases.
 */
module RingProtocol {
  import opened Bytes
  import opened Laps
  import opened ByteRing
  import opened TornReads

  datatype Producer = Idle | Copying(m: seq<byte>, k: nat)

  /** The tail is read in read_acquire, for the amount used, and in the gap test. */
  datatype Consumer =
    | Resting
    | Read1(t1: nat)
    | Read2(t1: nat, t2: nat)
    | Read3(t1: nat, t2: nat, t3: nat)
    | Decided(out: Outcome)

  datatype State = State(buf: seq<byte>, head: nat, tail: nat, prod: Producer, cons: Consumer,
                         pushed: seq<seq<byte>>, parsed: seq<Parsed>)

  ghost predicate Init(s: State) {
    && |s.buf| > 0 && s.head == s.tail == 0
    && s.prod == Idle && s.cons == Resting && s.pushed == [] && s.parsed == []
  }

  // ---- steps ----

  /** push reads the head: either it returns 0 (nothing changes) or it starts copying. */
  ghost predicate BeginPush(s: State, s': State, m: seq<byte>)
    requires |s.buf| > 0
  {
    && s.prod == Idle && IsMessage(m)
    && s' == if Fits(|s.buf|, s.head, s.tail, |m|) then s.(prod := Copying(m, 0)) else s
  }

  ghost predicate CopyByte(s: State, s': State)
    requires |s.buf| > 0
  {
    && s.prod.Copying? && s.prod.k < |s.prod.m|
    && var cell := (Start(|s.buf|, s.tail) + s.prod.k) % |s.buf|;
       s' == s.(buf := s.buf[cell := s.prod.m[s.prod.k]], prod := s.prod.(k := s.prod.k + 1))
  }

  ghost predicate Publish(s: State, s': State)
    requires |s.buf| > 0
  {
    && s.prod.Copying? && s.prod.k == |s.prod.m|
    && s' == s.(tail := Start(|s.buf|, s.tail) + |s.prod.m|, prod := Idle, pushed := s.pushed + [s.prod.m])
  }

  /** One read of the tail; other steps may come before the next. */
  ghost predicate ReadTail(s: State, s': State) {
    match s.cons
    case Resting => s' == s.(cons := Read1(s.tail))
    case Read1(t1) => s' == s.(cons := Read2(t1, s.tail))
    case Read2(t1, t2) => s' == s.(cons := Read3(t1, t2, s.tail))
    case _ => false
  }

  /** The round runs on what was read of the tail and the bytes now in the buffer; a message is handed on here. */
  ghost predicate Decide(s: State, s': State)
    requires |s.buf| > 0
  {
    && s.cons.Read3? && s.head <= s.cons.t1 <= s.cons.t2 <= s.cons.t3 <= s.head + |s.buf|
    && var out := Round(s.buf, s.head, s.cons.t1, s.cons.t2, s.cons.t3);
       s' == s.(cons := Decided(out), parsed := if out.Emit? then s.parsed + [out.parsed] else s.parsed)
  }

  ghost predicate Release(s: State, s': State) {
    && s.cons.Decided?
    && s' == s.(head := if s.cons.out.Wait? then s.head else s.cons.out.to, cons := Resting)
  }

  ghost predicate Next(s: State, s': State) {
    |s.buf| > 0 &&
    ( || (exists m :: BeginPush(s, s', m))
      || CopyByte(s, s') || Publish(s, s') || ReadTail(s, s') || Decide(s, s') || Release(s, s'))
  }

  ghost predicate Run(tr: seq<State>) {
    && |tr| > 0 && Init(tr[0])
    && forall i :: 0 <= i < |tr| - 1 ==> Next(tr[i], tr[i + 1])
  }

  /** No step of the run is a round whose tail reads were torn apart. */
  ghost predicate Untorn(tr: seq<State>) {
    forall i :: 0 <= i < |tr| && |tr[i].buf| > 0 && tr[i].cons.Read3? ==>
      !Torn(|tr[i].buf|, tr[i].head, tr[i].cons.t1, tr[i].cons.t2, tr[i].cons.t3)
  }

  // ---- invariant ----

  /** Messages still occupying the ring: a handed-on message counts until it is released. */
  ghost function Pending(s: State): seq<seq<byte>>
    requires |s.parsed| <= |s.pushed|
  {
    var held := if s.cons.Decided? && s.cons.out.Emit? && |s.parsed| > 0 then 1 else 0;
    s.pushed[|s.parsed| - held..]
  }

  ghost predicate ProducerInv(s: State)
    requires |s.buf| > 0
  {
    s.prod.Copying? ==>
      var start := Start(|s.buf|, s.tail);
      && IsMessage(s.prod.m) && s.prod.k <= |s.prod.m|
      && start + |s.prod.m| <= s.head + |s.buf|
      && Holds(s.buf, start, s.prod.m[..s.prod.k])
  }

  /** t was the tail after some of the pending messages. */
  ghost predicate Seen(s: State, t: nat)
    requires |s.buf| > 0 && |s.parsed| <= |s.pushed|
  {
    s.head <= t <= s.tail && exists j :: 0 <= j <= |Pending(s)| && Layout(s.buf, s.head, t, Pending(s)[..j])
  }

  /** Every reading of the tail was right when it was taken, and what was decided is still right. */
  ghost predicate ConsumerInv(s: State)
    requires |s.buf| > 0 && |s.parsed| <= |s.pushed|
  {
    match s.cons
    case Resting => true
    case Read1(t1) => Seen(s, t1)
    case Read2(t1, t2) => t1 <= t2 && Seen(s, t1) && Seen(s, t2)
    case Read3(t1, t2, t3) => t1 <= t2 <= t3 && Seen(s, t1) && Seen(s, t2) && Seen(s, t3)
    case Decided(out) =>
      var q := Pending(s);
      out.Wait? || (
        && q != [] && s.head < out.to <= s.tail
        && Layout(s.buf, out.to, s.tail, if out.Emit? then q[1..] else q))
  }

  ghost predicate Inv(s: State) {
    && |s.buf| > 0
    && s.head <= s.tail <= s.head + |s.buf|
    && |s.parsed| <= |s.pushed|
    && (forall i :: 0 <= i < |s.pushed| ==> IsMessage(s.pushed[i]))
    && (forall i :: 0 <= i < |s.parsed| ==> s.parsed[i] == Parse(s.pushed[i]))
    && (s.cons.Decided? && s.cons.out.Emit? ==> |s.parsed| > 0)
    && Layout(s.buf, s.head, s.tail, Pending(s))
    && ProducerInv(s) && ConsumerInv(s)
  }

  // ---- every step keeps it ----

  /** A byte of the message being copied never lands on a live cell. */
  lemma CopyFrame(s: State, s': State, a: nat, t: nat, q: seq<seq<byte>>)
    requires Inv(s) && CopyByte(s, s') && s.head <= a && t <= s.tail && Layout(s.buf, a, t, q)
    ensures Layout(s'.buf, a, t, q)
  {
    var cap, at := |s.buf|, Start(|s.buf|, s.tail) + s.prod.k;
    forall o | a <= o < t ensures s'.buf[o % cap] == s.buf[o % cap] {
      CellsDiffer(cap, o, at);
    }
    LayoutFrame(s.buf, s'.buf, a, t, q);
  }

  /** Copying byte k adds it to the bytes already in place. */
  lemma CopiedOne(buf: seq<byte>, start: nat, m: seq<byte>, k: nat)
    requires 0 < |buf| && k < |m| <= |buf| && Holds(buf, start, m[..k])
    ensures Holds(buf[(start + k) % |buf| := m[k]], start, m[..k + 1])
  {
    var cap, done, more := |buf|, m[..k], m[..k + 1];
    var buf' := buf[(start + k) % cap := m[k]];
    forall i | 0 <= i < |more| ensures buf'[(start + i) % cap] == more[i] {
      if i < k {
        CellsDiffer(cap, start + i, start + k);
        assert buf[(start + i) % cap] == done[i];
      }
    }
  }

  lemma CopyKeepsProducer(s: State, s': State)
    requires Inv(s) && CopyByte(s, s')
    ensures ProducerInv(s')
  {
    hide Holds, Layout;
    CopiedOne(s.buf, Start(|s.buf|, s.tail), s.prod.m, s.prod.k);
  }

  lemma CopyKeepsSeen(s: State, s': State, t: nat)
    requires Inv(s) && CopyByte(s, s') && Seen(s, t)
    ensures |s'.parsed| <= |s'.pushed| && Seen(s', t)
  {
    var q := Pending(s);
    assert Pending(s') == q;
    var j :| 0 <= j <= |q| && Layout(s.buf, s.head, t, q[..j]);
    CopyFrame(s, s', s.head, t, q[..j]);
  }

  lemma CopyKeepsConsumer(s: State, s': State)
    requires Inv(s) && CopyByte(s, s')
    ensures ConsumerInv(s')
  {
    hide Layout, Seen, ProducerInv;
    match s.cons
    case Resting =>
    case Read1(t1) => CopyKeepsSeen(s, s', t1);
    case Read2(t1, t2) => CopyKeepsSeen(s, s', t1); CopyKeepsSeen(s, s', t2);
    case Read3(t1, t2, t3) => CopyKeepsSeen(s, s', t1); CopyKeepsSeen(s, s', t2); CopyKeepsSeen(s, s', t3);
    case Decided(out) =>
      var q := Pending(s);
      assert Pending(s') == q;
      if !out.Wait? { CopyFrame(s, s', out.to, s.tail, if out.Emit? then q[1..] else q); }
  }

  lemma CopyKeeps(s: State, s': State)
    requires Inv(s) && CopyByte(s, s')
    ensures Inv(s')
  {
    CopyKeepsProducer(s, s');
    CopyKeepsConsumer(s, s');
    CopyFrame(s, s', s.head, s.tail, Pending(s));
  }

  lemma PublishKeepsSeen(s: State, s': State, t: nat)
    requires Inv(s) && Publish(s, s') && Seen(s, t)
    ensures |s'.parsed| <= |s'.pushed| && s.tail <= s'.tail && Seen(s', t)
  {
    var q := Pending(s);
    assert Pending(s') == q + [s.prod.m];
    var j :| 0 <= j <= |q| && Layout(s.buf, s.head, t, q[..j]);
    assert (q + [s.prod.m])[..j] == q[..j];
  }

  lemma PublishKeepsConsumer(s: State, s': State)
    requires Inv(s) && Publish(s, s') && Holds(s.buf, Start(|s.buf|, s.tail), s.prod.m)
    ensures ConsumerInv(s')
  {
    hide Layout, Seen, Holds, ProducerInv, Pending;
    match s.cons
    case Resting =>
    case Read1(t1) => PublishKeepsSeen(s, s', t1);
    case Read2(t1, t2) => PublishKeepsSeen(s, s', t1); PublishKeepsSeen(s, s', t2);
    case Read3(t1, t2, t3) => PublishKeepsSeen(s, s', t1); PublishKeepsSeen(s, s', t2); PublishKeepsSeen(s, s', t3);
    case Decided(out) => PublishKeepsDecided(s, s');
  }

  lemma PublishKeepsDecided(s: State, s': State)
    requires Inv(s) && Publish(s, s') && Holds(s.buf, Start(|s.buf|, s.tail), s.prod.m) && s.cons.Decided?
    ensures ConsumerInv(s')
  {
    hide Layout, Holds;
    var m, q, out := s.prod.m, Pending(s), s.cons.out;
    assert Pending(s') == q + [m];
    if !out.Wait? {
      var rest := if out.Emit? then q[1..] else q;
      LayoutAppend(s.buf, out.to, s.tail, rest, m);
      assert rest + [m] == if out.Emit? then (q + [m])[1..] else q + [m];
    }
  }

  lemma PublishKeeps(s: State, s': State)
    requires Inv(s) && Publish(s, s')
    ensures Inv(s')
  {
    var m, q := s.prod.m, Pending(s);
    assert m[..|m|] == m;
    PublishKeepsConsumer(s, s');
    LayoutAppend(s.buf, s.head, s.tail, q, m);
    assert Pending(s') == q + [m];
  }

  lemma ReadTailKeeps(s: State, s': State)
    requires Inv(s) && ReadTail(s, s')
    ensures Inv(s')
  {
    hide Layout;
    var q := Pending(s);
    assert Pending(s') == q && q[..|q|] == q;
    assert Seen(s', s.tail);
    forall t | Seen(s, t) ensures Seen(s', t) {
      var j :| 0 <= j <= |q| && Layout(s.buf, s.head, t, q[..j]);
      assert Layout(s'.buf, s'.head, t, Pending(s')[..j]);
    }
  }

  /** Whatever prefix the snapshot covered, the round is right for the whole queue. */
  lemma SnapshotRound(buf: seq<byte>, head: nat, t: nat, tail: nat, q: seq<seq<byte>>, j: nat)
    requires |buf| > 0 && head <= t <= tail <= head + |buf| && j <= |q|
    requires Layout(buf, head, t, q[..j]) && Layout(buf, head, tail, q)
    ensures RightFor(buf, head, tail, q, Round(buf, head, t, t, t))
  {
    hide Slice, FromBytes, IsMessage, Parse, Layout, Round, Holds;
    RoundIsQueue(buf, head, t, q[..j]);
    if j > 0 {
      assert q[..j][0] == q[0];
      QueueHead(buf, head, tail, q);
    }
  }

  /** A waiting round, or one that leaves the rest of the queue laid out behind what it took. */
  ghost predicate RightFor(buf: seq<byte>, head: nat, tail: nat, q: seq<seq<byte>>, out: Outcome)
    requires |buf| > 0
  {
    out.Wait? || (
      && q != [] && head < out.to <= tail
      && Layout(buf, out.to, tail, if out.Emit? then q[1..] else q)
      && (out.Emit? ==> IsMessage(q[0]) && out.parsed == Parse(q[0])))
  }

  lemma QueueHead(buf: seq<byte>, head: nat, tail: nat, q: seq<seq<byte>>)
    requires |buf| > 0 && Layout(buf, head, tail, q) && q != [] && tail <= head + |buf|
    ensures Room(|buf|, head) < HEADER ==> head < NextLap(|buf|, head) <= tail && Layout(buf, NextLap(|buf|, head), tail, q)
    ensures Room(|buf|, head) >= HEADER ==> head < head + |q[0]| <= tail && Layout(buf, head + |q[0]|, tail, q[1..])
  {
    LayoutExtent(buf, head, tail, q);
    if Room(|buf|, head) < HEADER { LayoutFirst(buf, head, tail, q); }
  }

  /** Three readings, each right when it was taken and not torn apart, give a right round. */
  lemma ThreeReads(s: State)
    requires Inv(s) && s.cons.Read3?
    requires !Torn(|s.buf|, s.head, s.cons.t1, s.cons.t2, s.cons.t3)
    ensures s.head <= s.cons.t1 <= s.cons.t2 <= s.cons.t3 <= s.head + |s.buf|
    ensures RightFor(s.buf, s.head, s.tail, Pending(s), Round(s.buf, s.head, s.cons.t1, s.cons.t2, s.cons.t3))
  {
    hide Layout, Round, Torn, RightFor, ProducerInv;
    var q, t1, t2, t3 := Pending(s), s.cons.t1, s.cons.t2, s.cons.t3;
    var j1 :| 0 <= j1 <= |q| && Layout(s.buf, s.head, t1, q[..j1]);
    var j2 :| 0 <= j2 <= |q| && Layout(s.buf, s.head, t2, q[..j2]);
    var j3 :| 0 <= j3 <= |q| && Layout(s.buf, s.head, t3, q[..j3]);
    RoundAtomicIffNotTorn(s.buf, s.head, t1, t2, t3, q[..j1], q[..j2], q[..j3]);
    SnapshotRound(s.buf, s.head, t1, s.tail, q, j1);
    SnapshotRound(s.buf, s.head, t2, s.tail, q, j2);
    SnapshotRound(s.buf, s.head, t3, s.tail, q, j3);
  }

  lemma DecideKeeps(s: State, s': State)
    requires Inv(s) && Decide(s, s') && !Torn(|s.buf|, s.head, s.cons.t1, s.cons.t2, s.cons.t3)
    ensures Inv(s')
  {
    hide Layout, Round, Torn, Holds, Seen, Start, IsMessage, Parse;
    ThreeReads(s);
    assert Pending(s') == Pending(s);
  }

  lemma ReleaseKeeps(s: State, s': State)
    requires Inv(s) && Release(s, s')
    ensures Inv(s')
  {
    var q := Pending(s);
    assert Pending(s') == if s.cons.out.Emit? then q[1..] else q;
  }

  lemma NextKeeps(s: State, s': State)
    requires Inv(s) && Next(s, s')
    requires s.cons.Read3? ==> !Torn(|s.buf|, s.head, s.cons.t1, s.cons.t2, s.cons.t3)
    ensures Inv(s')
  {
    if CopyByte(s, s') { CopyKeeps(s, s'); }
    else if Publish(s, s') { PublishKeeps(s, s'); }
    else if ReadTail(s, s') { ReadTailKeeps(s, s'); }
    else if Decide(s, s') { DecideKeeps(s, s'); }
    else if Release(s, s') { ReleaseKeeps(s, s'); }
    else {
      var m :| BeginPush(s, s', m);
      BeginKeeps(s, s', m);
    }
  }

  lemma BeginKeeps(s: State, s': State, m: seq<byte>)
    requires Inv(s) && BeginPush(s, s', m)
    ensures Inv(s')
  {
    assert Pending(s') == Pending(s);
    assert forall t :: Seen(s, t) ==> Seen(s', t);
  }

  lemma {:induction false} RunInv(tr: seq<State>, i: nat)
    requires Run(tr) && Untorn(tr) && i < |tr|
    ensures Inv(tr[i])
  {
    hide Next;
    if i > 0 {
      RunInv(tr, i - 1);
      assert Next(tr[i - 1], tr[i]);
      NextKeeps(tr[i - 1], tr[i]);
    }
  }

  // ---- what a run guarantees ----

  /**
   * In every state of a run without a torn round the parser has handed on exactly a
   * prefix of the messages published, byte for byte and in order, and the live bytes
   * never exceed the capacity.
   */
  lemma ParsedIsPrefixOfPushed(tr: seq<State>, i: nat)
    requires Run(tr) && Untorn(tr) && i < |tr|
    ensures var s := tr[i];
      && |s.parsed| <= |s.pushed|
      && (forall k :: 0 <= k < |s.parsed| ==> IsMessage(s.pushed[k]) && s.parsed[k] == Parse(s.pushed[k]))
      && s.head <= s.tail <= s.head + |s.buf|
  {
    RunInv(tr, i);
  }

  /** The parser is never stuck behind data: a round on fresh readings waits only if all is parsed. */
  lemma WaitMeansDrained(tr: seq<State>, i: nat)
    requires Run(tr) && Untorn(tr) && i < |tr| && tr[i].cons == Read3(tr[i].tail, tr[i].tail, tr[i].tail)
    ensures var s := tr[i];
      |s.buf| > 0 && s.head <= s.tail <= s.head + |s.buf| &&
      (Round(s.buf, s.head, s.tail, s.tail, s.tail).Wait? <==> |s.parsed| == |s.pushed|)
  {
    RunInv(tr, i);
    var s := tr[i];
    AfterRound(s.buf, s.head, s.tail, Pending(s));
  }

  /** Whatever is in the ring, a push of m begins when 2 * |m| - 1 bytes are free, so no run wedges. */
  lemma NeverWedged(tr: seq<State>, i: nat, m: seq<byte>)
    requires Run(tr) && Untorn(tr) && i < |tr| && IsMessage(m)
    requires tr[i].prod == Idle && |tr[i].buf| - (tr[i].tail - tr[i].head) >= 2 * |m| - 1
    ensures |tr[i].buf| > 0 && BeginPush(tr[i], tr[i].(prod := Copying(m, 0)), m)
  {
    RunInv(tr, i);
    AdmittedIff(|tr[i].buf|, tr[i].head, tr[i].tail, |m|);
  }

  /** A ring whose messages are all parsed and released has every byte free. */
  lemma DrainedMeansFree(tr: seq<State>, i: nat)
    requires Run(tr) && Untorn(tr) && i < |tr|
    requires tr[i].cons == Resting && |tr[i].parsed| == |tr[i].pushed|
    ensures tr[i].head == tr[i].tail
  {
    RunInv(tr, i);
    assert Pending(tr[i]) == [];
  }
}
