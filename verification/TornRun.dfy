/** A run of the byte ring in which torn tail reads lose a message. */
module TornRun {
  import opened Bytes
  import opened Laps
  import opened ByteRing
  import opened TornReads
  import opened RingProtocol

  function Last(tr: seq<State>): State
    requires |tr| > 0
  {
    tr[|tr| - 1]
  }

  lemma Extend(tr: seq<State>, s: State) returns (more: seq<State>)
    requires Run(tr) && Next(Last(tr), s)
    ensures Run(more) && more == tr + [s]
  {
    hide Init, Next;
    more := tr + [s];
    forall i | 0 <= i < |more| - 1 ensures Next(more[i], more[i + 1]) {
      if i < |tr| - 1 { assert Next(tr[i], tr[i + 1]); }
    }
  }

  /** The producer copies the rest of its message, undisturbed. */
  lemma {:induction false} CopyRest(tr: seq<State>) returns (more: seq<State>)
    requires Run(tr)
    requires var s := Last(tr);
      && |s.buf| > 0 && s.prod.Copying? && s.prod.k <= |s.prod.m| <= |s.buf|
      && Holds(s.buf, Start(|s.buf|, s.tail), s.prod.m[..s.prod.k])
    ensures Run(more) && tr <= more
    ensures var s, m := Last(tr), Last(tr).prod.m;
      exists buf ::
        && |buf| == |s.buf| && Holds(buf, Start(|buf|, s.tail), m)
        && Last(more) == s.(buf := buf, prod := Copying(m, |m|))
    decreases |Last(tr).prod.m| - Last(tr).prod.k
  {
    hide Init, Start;
    var s := Last(tr);
    var m, k, start := s.prod.m, s.prod.k, Start(|s.buf|, s.tail);
    if k == |m| {
      assert m[..k] == m;
      assert s == s.(buf := s.buf, prod := Copying(m, |m|));
      more := tr;
    } else {
      var s' := s.(buf := s.buf[(start + k) % |s.buf| := m[k]], prod := s.prod.(k := k + 1));
      assert CopyByte(s, s');
      CopiedOne(s.buf, start, m, k);
      var longer := Extend(tr, s');
      more := CopyRest(longer);
    }
  }

  /** A whole push while the consumer does nothing. */
  lemma PushWhole(tr: seq<State>, m: seq<byte>) returns (more: seq<State>)
    requires Run(tr) && IsMessage(m)
    requires var s := Last(tr); |s.buf| > 0 && s.prod == Idle && |m| <= |s.buf| && Fits(|s.buf|, s.head, s.tail, |m|)
    ensures Run(more) && tr <= more
    ensures var s := Last(tr);
      exists buf ::
        && |buf| == |s.buf| && Holds(buf, Start(|buf|, s.tail), m)
        && Last(more) == s.(buf := buf, tail := Start(|buf|, s.tail) + |m|, pushed := s.pushed + [m])
  {
    hide Init, Start, IsMessage, Fits;
    var s := Last(tr);
    var begun := s.(prod := Copying(m, 0));
    assert BeginPush(s, begun, m);
    more := Extend(tr, begun);
    more := CopyRest(more);
    var copied := Last(more);
    var published := copied.(tail := Start(|copied.buf|, copied.tail) + |m|, prod := Idle, pushed := copied.pushed + [m]);
    assert Publish(copied, published);
    more := Extend(more, published);
    assert published == s.(buf := copied.buf, tail := Start(|copied.buf|, s.tail) + |m|, pushed := s.pushed + [m]);
  }

  lemma ReadOnce(tr: seq<State>) returns (more: seq<State>)
    requires Run(tr) && |Last(tr).buf| > 0 && !Last(tr).cons.Read3? && !Last(tr).cons.Decided?
    ensures Run(more) && tr <= more && ReadTail(Last(tr), Last(more))
  {
    hide Init;
    var s := Last(tr);
    var c := match s.cons
      case Resting => Read1(s.tail)
      case Read1(t1) => Read2(t1, s.tail)
      case Read2(t1, t2) => Read3(t1, t2, s.tail)
      case _ => s.cons;
    more := Extend(tr, s.(cons := c));
  }

  lemma Finish(tr: seq<State>, out: Outcome) returns (more: seq<State>)
    requires Run(tr) && |Last(tr).buf| > 0 && Last(tr).cons.Read3? && !out.Wait?
    requires var s := Last(tr);
      && s.head <= s.cons.t1 <= s.cons.t2 <= s.cons.t3 <= s.head + |s.buf|
      && out == Round(s.buf, s.head, s.cons.t1, s.cons.t2, s.cons.t3)
    ensures Run(more) && tr <= more
    ensures Last(more) == Last(tr).(head := out.to, cons := Resting,
                                    parsed := if out.Emit? then Last(tr).parsed + [out.parsed] else Last(tr).parsed)
  {
    hide Init, Round;
    var s := Last(tr);
    var decided := s.(cons := Decided(out), parsed := if out.Emit? then s.parsed + [out.parsed] else s.parsed);
    assert Decide(s, decided);
    more := Extend(tr, decided);
    assert Release(decided, decided.(head := out.to, cons := Resting));
    more := Extend(more, decided.(head := out.to, cons := Resting));
  }

  /**
   * The consumer reads the tail of an empty ring, the producer pushes a message that
   * ends on the lap boundary, and the consumer goes on reading: the round is torn and
   * the message is skipped.
   */
  lemma TornSkip(m: seq<byte>) returns (tr: seq<State>, torn: nat)
    requires IsMessage(m)
    ensures Run(tr) && torn < |tr| && tr[torn].cons.Read3?
    ensures var s := tr[torn];
      && |s.buf| == |m| && s.head == 0
      && Torn(|m|, 0, s.cons.t1, s.cons.t2, s.cons.t3) && Layout(s.buf, 0, s.cons.t3, [m])
    ensures Last(tr).head == Last(tr).tail == |Last(tr).buf| == |m|
    ensures Last(tr).prod == Idle && Last(tr).cons == Resting && Last(tr).pushed == [m] && Last(tr).parsed == []
  {
    hide Run, Holds;
    var s0 := State(Zeros(|m|), 0, 0, Idle, Resting, [], []);
    tr := [s0];
    StartsRun(tr);
    tr := ReadOnce(tr);
    tr := PushWhole(tr, m);
    tr := ReadOnce(tr);
    tr := ReadOnce(tr);
    torn := |tr| - 1;
    var s := Last(tr);
    assert s.cons == Read3(0, |m|, |m|);
    LaidOut(s.buf, 0, m);
    var more := Finish(tr, Skip(|m|));
    assert more[torn] == s;
    tr := more;
  }

  function Zeros(n: nat): (s: seq<byte>)
    ensures |s| == n
  {
    seq(n, _ => 0)
  }

  lemma StartsRun(tr: seq<State>)
    requires |tr| == 1 && Init(tr[0])
    ensures Run(tr)
  {
  }

  lemma LaidOut(buf: seq<byte>, head: nat, m: seq<byte>)
    requires |buf| > 0 && IsMessage(m) && Holds(buf, Start(|buf|, head), m)
    ensures Layout(buf, head, Start(|buf|, head) + |m|, [m])
  {
    assert [m][1..] == [];
  }

  /** Unlike in ParsedIsPrefixOfPushed: two messages pushed, and the first one parsed is the second. */
  lemma TornRunLosesMessage(m: seq<byte>, next: seq<byte>) returns (tr: seq<State>)
    requires IsMessage(m) && IsMessage(next) && |next| <= |m|
    ensures Run(tr) && !Untorn(tr)
    ensures Last(tr).pushed == [m, next] && Last(tr).parsed == [Parse(next)] && Last(tr).head == Last(tr).tail
  {
    hide Run, Holds, FromBytes, Torn, Untorn, Layout, Round;
    var torn;
    tr, torn := TornSkip(m);
    var lost := tr;
    AtBoundary(|m|, |next|);
    tr := PushWhole(tr, next);
    tr := ReadOnce(tr);
    tr := ReadOnce(tr);
    tr := ReadOnce(tr);
    var s := Last(tr);
    LaidOut(s.buf, |m|, next);
    RoundIsQueue(s.buf, |m|, s.tail, [next]);
    tr := Finish(tr, Emit(|m| + |next|, Parse(next)));
    assert tr[torn] == lost[torn];
    NotUntorn(tr, torn);
  }

  lemma AtBoundary(cap: nat, len: nat)
    requires HEADER <= len <= cap
    ensures Room(cap, cap) == cap && Start(cap, cap) == cap && Fits(cap, cap, cap, len)
  {
  }

  lemma NotUntorn(tr: seq<State>, i: nat)
    requires i < |tr| && |tr[i].buf| > 0 && tr[i].cons.Read3?
    requires Torn(|tr[i].buf|, tr[i].head, tr[i].cons.t1, tr[i].cons.t2, tr[i].cons.t3)
    ensures !Untorn(tr)
  {
  }
}
