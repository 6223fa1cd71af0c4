/**
 * Re-framing of the report stream: bytes arrive in chunks of any size, messages are
 * cut off by the length their first byte implies, and each is decoded in turn.
 */
module ReportFraming {
  import opened Bytes
  import OuchCodec

  /** Length of a report or book message by its first byte; 0 for any other byte. */
  function FrameLen(b: byte): (n: nat)
    ensures b == 66 ==> n == 34
    ensures b == 65 || b == 67 ==> n == 39
    ensures b == 69 ==> n == 42
    ensures b == 74 ==> n == 36
    ensures b !in {65, 66, 67, 69, 74} ==> n == 0
  {
    if b == OuchCodec.Ascii('B') then 34 else OuchCodec.ReportLen(b)
  }

  datatype Cut = Cut(frames: seq<seq<byte>>, rest: seq<byte>)

  /** One pass over a whole stream: the complete frames, and what is left over. Unknown first bytes are dropped. */
  function CutUp(stream: seq<byte>): (c: Cut)
    decreases |stream|
  {
    if stream == [] then Cut([], [])
    else
      var n := FrameLen(stream[0]);
      if n == 0 then CutUp(stream[1..])
      else if |stream| < n then Cut([], stream)
      else
        var c := CutUp(stream[n..]);
        Cut([stream[..n]] + c.frames, c.rest)
  }

  /** Receiving chunk after chunk, each appended to what the last one left. */
  function Received(rest: seq<byte>, chunks: seq<seq<byte>>): Cut
    decreases |chunks|
  {
    if chunks == [] then Cut([], rest)
    else
      var now := CutUp(rest + chunks[0]);
      var later := Received(now.rest, chunks[1..]);
      Cut(now.frames + later.frames, later.rest)
  }

  function Joined(parts: seq<seq<byte>>): seq<byte> {
    if parts == [] then [] else parts[0] + Joined(parts[1..])
  }

  /** Cutting a stream in two makes no difference to the frames or to the leftover. */
  lemma {:induction false} CutInTwo(a: seq<byte>, b: seq<byte>)
    ensures CutUp(a + b).frames == CutUp(a).frames + CutUp(CutUp(a).rest + b).frames
    ensures CutUp(a + b).rest == CutUp(CutUp(a).rest + b).rest
    decreases |a|
  {
    var whole := a + b;
    if a == [] {
      assert whole == b == [] + b;
    } else {
      var n := FrameLen(a[0]);
      if n == 0 {
        assert whole[1..] == a[1..] + b;
        CutInTwo(a[1..], b);
      } else if |a| >= n {
        assert whole[..n] == a[..n] && whole[n..] == a[n..] + b;
        CutInTwo(a[n..], b);
      }
    }
  }

  /** What is left over is itself a stream that yields nothing yet. */
  lemma {:induction false} RestIsStuck(stream: seq<byte>)
    ensures CutUp(CutUp(stream).rest) == Cut([], CutUp(stream).rest)
    decreases |stream|
  {
    if stream != [] {
      var n := FrameLen(stream[0]);
      if n == 0 { RestIsStuck(stream[1..]); }
      else if |stream| >= n { RestIsStuck(stream[n..]); }
    }
  }

  /** However a stream is split into chunks, the frames and the leftover are those of one pass over the whole. */
  lemma {:induction false} ChunkingIsIrrelevant(rest: seq<byte>, chunks: seq<seq<byte>>)
    requires CutUp(rest) == Cut([], rest)
    ensures Received(rest, chunks) == CutUp(rest + Joined(chunks))
    decreases |chunks|
  {
    hide CutUp;
    if chunks == [] {
      assert rest + [] == rest;
    } else {
      var first, others := rest + chunks[0], Joined(chunks[1..]);
      assert rest + Joined(chunks) == first + others;
      RestIsStuck(first);
      ChunkingIsIrrelevant(CutUp(first).rest, chunks[1..]);
      CutInTwo(first, others);
      var all := CutUp(first + others);
      assert Received(rest, chunks) == Cut(all.frames, all.rest);
    }
  }

  predicate IsFrame(msg: seq<byte>) {
    msg != [] && |msg| == FrameLen(msg[0])
  }

  predicate IsNoise(s: seq<byte>) {
    forall i :: 0 <= i < |s| ==> FrameLen(s[i]) == 0
  }

  /** Messages on the wire, each with some bytes before it that start no message. */
  function Noisy(noise: seq<seq<byte>>, msgs: seq<seq<byte>>): seq<byte>
    requires |noise| == |msgs|
  {
    if msgs == [] then [] else noise[0] + (msgs[0] + Noisy(noise[1..], msgs[1..]))
  }

  lemma {:induction false} NoiseIsDropped(noise: seq<byte>, s: seq<byte>)
    requires IsNoise(noise)
    ensures CutUp(noise + s) == CutUp(s)
    decreases |noise|
  {
    if noise == [] {
      assert [] + s == s;
    } else {
      assert (noise + s)[1..] == noise[1..] + s;
      NoiseIsDropped(noise[1..], s);
    }
  }

  /** Whole messages, with or without noise between them, come out as exactly those messages. */
  lemma {:induction false} MessagesComeOut(noise: seq<seq<byte>>, msgs: seq<seq<byte>>)
    requires |noise| == |msgs|
    requires forall i :: 0 <= i < |msgs| ==> IsFrame(msgs[i]) && IsNoise(noise[i])
    ensures CutUp(Noisy(noise, msgs)) == Cut(msgs, [])
    decreases |msgs|
  {
    if msgs != [] {
      var tail := Noisy(noise[1..], msgs[1..]);
      MessagesComeOut(noise[1..], msgs[1..]);
      NoiseIsDropped(noise[0], msgs[0] + tail);
      var s := msgs[0] + tail;
      assert s[0] == msgs[0][0];
      assert s[..|msgs[0]|] == msgs[0] && s[|msgs[0]|..] == tail;
    }
  }

  // ---- decoding what was framed ----

  datatype Trader = Trader(fills: seq<OuchCodec.Fill>, learned: map<nat, nat>)

  /** Frames decoded one after another; book messages and broken ones give no fill. */
  function Decoded(learned: map<nat, nat>, frames: seq<seq<byte>>): Trader {
    if frames == [] then Trader([], learned)
    else
      var t := Decoded(learned, frames[..|frames| - 1]);
      var frame := frames[|frames| - 1];
      var f := OuchCodec.DecodedFill(t.learned, frame);
      if f.None? then t else Trader(t.fills + [f.value], OuchCodec.Learned(t.learned, frame))
  }

  function WireBytes(wire: seq<OuchCodec.Sent>): (s: seq<seq<byte>>)
    ensures |s| == |wire| && forall i :: 0 <= i < |wire| ==> s[i] == wire[i].bytes
  {
    seq(|wire|, i requires 0 <= i < |wire| => wire[i].bytes)
  }

  /** A fill that says what the report said. */
  predicate Tells(f: OuchCodec.Fill, s: OuchCodec.Sent) {
    && f.kind == OuchCodec.KindOf(s.report) && f.orderId == OuchCodec.IdOf(s.report) && f.ref == s.ref
    && (s.report.Exec? ==> f.qty == s.report.qty % OuchCodec.TWO32 && f.price == OuchCodec.WirePrice(s.report.price) / 100)
  }

  /** The messages that are not book messages. */
  function NoBooks(msgs: seq<seq<byte>>): seq<seq<byte>>
    requires forall i :: 0 <= i < |msgs| ==> msgs[i] != []
  {
    if msgs == [] then []
    else
      var last := msgs[|msgs| - 1];
      NoBooks(msgs[..|msgs| - 1]) + if last[0] == OuchCodec.Ascii('B') then [] else [last]
  }

  /** Book messages between reports change nothing about the fills. */
  lemma {:induction false} BooksAreSkipped(learned: map<nat, nat>, msgs: seq<seq<byte>>)
    requires forall i :: 0 <= i < |msgs| ==> msgs[i] != []
    ensures Decoded(learned, msgs) == Decoded(learned, NoBooks(msgs))
    decreases |msgs|
  {
    hide OuchCodec.DecodedFill;
    if msgs != [] {
      var init, last := msgs[..|msgs| - 1], msgs[|msgs| - 1];
      BooksAreSkipped(learned, init);
      if last[0] == OuchCodec.Ascii('B') {
        BookIsNoFill(Decoded(learned, init).learned, last);
        assert NoBooks(init) + [] == NoBooks(init);
      } else {
        DecodedMore(learned, NoBooks(init), last);
      }
    }
  }

  lemma {:induction false} ReportIsKept(msgs: seq<seq<byte>>, i: nat)
    requires forall j :: 0 <= j < |msgs| ==> msgs[j] != []
    requires i < |msgs| && msgs[i][0] != OuchCodec.Ascii('B')
    ensures msgs[i] in NoBooks(msgs)
    decreases |msgs|
  {
    if i < |msgs| - 1 { ReportIsKept(msgs[..|msgs| - 1], i); }
  }

  lemma {:induction false} DecodedInOrder(p: OuchCodec.Parties, n: nat)
    requires OuchCodec.PartiesInv(p) && p.exchange.nextRef <= OuchCodec.TWO64 && n <= |p.wire|
    ensures var t := Decoded(p.learned, WireBytes(p.wire)[..n]);
      && OuchCodec.PartiesInv(p.(learned := t.learned)) && |t.fills| == n
      && forall i :: 0 <= i < n ==> Tells(t.fills[i], p.wire[i])
    decreases n
  {
    hide OuchCodec.DecodedFill, OuchCodec.WirePrice, OuchCodec.PartiesInv;
    if n == 0 {
      assert WireBytes(p.wire)[..0] == [];
      assert p.(learned := p.learned) == p;
    } else {
      DecodedInOrder(p, n - 1);
      var frames := WireBytes(p.wire)[..n];
      assert frames[..n - 1] == WireBytes(p.wire)[..n - 1];
      var t := Decoded(p.learned, frames[..n - 1]);
      var q := p.(learned := t.learned);
      OuchCodec.SentDecodes(q, n - 1);
      OuchCodec.NextKeeps(q, OuchCodec.Decode(n - 1), q.(learned := OuchCodec.Learned(t.learned, frames[n - 1])));
      assert q.(learned := OuchCodec.Learned(t.learned, frames[n - 1])) == p.(learned := Decoded(p.learned, frames).learned);
    }
  }

  lemma SentIsFrame(p: OuchCodec.Parties, i: nat)
    requires OuchCodec.PartiesInv(p) && i < |p.wire|
    ensures IsFrame(p.wire[i].bytes)
  {
    assert OuchCodec.WireOk(p, p.wire[i]);
  }

  /** A book message: 34 bytes that start with its letter. */
  predicate IsBook(msg: seq<byte>) {
    |msg| == 34 && msg[0] == OuchCodec.Ascii('B')
  }

  lemma MessageIsFrame(p: OuchCodec.Parties, msgs: seq<seq<byte>>, i: nat)
    requires OuchCodec.PartiesInv(p) && i < |msgs|
    requires forall j :: 0 <= j < |msgs| ==> msgs[j] != [] && (msgs[j][0] == OuchCodec.Ascii('B') ==> IsBook(msgs[j]))
    requires NoBooks(msgs) == WireBytes(p.wire)
    ensures IsFrame(msgs[i])
  {
    hide OuchCodec.PartiesInv, NoBooks;
    if msgs[i][0] != OuchCodec.Ascii('B') {
      ReportIsKept(msgs, i);
      var j :| 0 <= j < |p.wire| && WireBytes(p.wire)[j] == msgs[i];
      SentIsFrame(p, j);
    }
  }

  /**
   * End to end: reports encoded by the exchange, with book messages and noise anywhere
   * between them, received in chunks of any size, decode to exactly those reports in
   * order, with nothing left over.
   */
  lemma ReportsSurviveTheStream(tr: seq<OuchCodec.Parties>, acts: seq<OuchCodec.Action>, k: nat,
                                msgs: seq<seq<byte>>, noise: seq<seq<byte>>, chunks: seq<seq<byte>>)
    requires OuchCodec.Run(tr, acts) && OuchCodec.InRange(tr, acts) && k < |tr|
    requires forall i :: 0 <= i < |msgs| ==> msgs[i] != [] && (msgs[i][0] == OuchCodec.Ascii('B') ==> IsBook(msgs[i]))
    requires NoBooks(msgs) == WireBytes(tr[k].wire)
    requires |noise| == |msgs| && forall i :: 0 <= i < |noise| ==> IsNoise(noise[i])
    requires Joined(chunks) == Noisy(noise, msgs)
    ensures var p := tr[k];
      var got := Received([], chunks);
      var t := Decoded(p.learned, got.frames);
      && got == Cut(msgs, []) && |t.fills| == |p.wire|
      && forall i :: 0 <= i < |p.wire| ==> Tells(t.fills[i], p.wire[i])
  {
    hide OuchCodec.Run, OuchCodec.PartiesInv, OuchCodec.DecodedFill, Tells, CutUp, Received, Decoded, IsFrame, IsNoise, NoBooks, IsBook;
    var p := tr[k];
    OuchCodec.RunInv(tr, acts, k);
    InRangeAt(tr, acts, k);
    forall i | 0 <= i < |msgs| ensures IsFrame(msgs[i]) { MessageIsFrame(p, msgs, i); }
    MessagesComeOut(noise, msgs);
    NothingYet();
    ChunkingIsIrrelevant([], chunks);
    assert [] + Joined(chunks) == Joined(chunks);
    BooksAreSkipped(p.learned, msgs);
    DecodedInOrder(p, |p.wire|);
    assert WireBytes(p.wire)[..|p.wire|] == WireBytes(p.wire);
  }

  lemma InRangeAt(tr: seq<OuchCodec.Parties>, acts: seq<OuchCodec.Action>, k: nat)
    requires OuchCodec.InRange(tr, acts) && k < |tr|
    ensures tr[k].exchange.nextRef <= OuchCodec.TWO64
  {
  }

  lemma NothingYet()
    ensures CutUp([]) == Cut([], [])
  {
  }

  // ---- the object ----

  lemma DecodedMore(learned: map<nat, nat>, frames: seq<seq<byte>>, frame: seq<byte>)
    ensures var t := Decoded(learned, frames);
      var f := OuchCodec.DecodedFill(t.learned, frame);
      Decoded(learned, frames + [frame]) == if f.None? then t else Trader(t.fills + [f.value], OuchCodec.Learned(t.learned, frame))
  {
    assert (frames + [frame])[..|frames|] == frames;
  }

  /** What one turn of the framing loop does to what is still to be cut. */
  lemma CutTurn(stream: seq<byte>)
    requires stream != []
    ensures var n := FrameLen(stream[0]);
      CutUp(stream) == if n == 0 then CutUp(stream[1..])
                       else if |stream| < n then Cut([], stream)
                       else Cut([stream[..n]] + CutUp(stream[n..]).frames, CutUp(stream[n..]).rest)
  {
  }

  /** A book message is no fill. */
  lemma BookIsNoFill(learned: map<nat, nat>, frame: seq<byte>)
    requires frame != [] && frame[0] == OuchCodec.Ascii('B')
    ensures OuchCodec.DecodedFill(learned, frame).None?
  {
  }

  class ReportReader {
    var stream: seq<byte>
    const codec: OuchCodec.OrderCodec

    constructor (codec: OuchCodec.OrderCodec)
      ensures stream == [] && this.codec == codec
    {
      stream := [];
      this.codec := codec;
    }

    /** One receive: appends the chunk and decodes every message it completes. */
    method OnReceive(chunk: seq<byte>) returns (fills: seq<OuchCodec.Fill>)
      modifies this`stream, codec`refToId
      ensures var c := CutUp(old(stream) + chunk);
        var t := Decoded(old(codec.refToId), c.frames);
        stream == c.rest && fills == t.fills && codec.refToId == t.learned
    {
      hide OuchCodec.DecodedFill, CutUp, Decoded;
      stream := stream + chunk;
      fills := [];
      ghost var whole, done := stream, [];
      NothingYet();
      NothingDecoded(codec.refToId);
      assert done + CutUp(stream).frames == CutUp(whole).frames;
      while stream != []
        invariant CutUp(whole) == Cut(done + CutUp(stream).frames, CutUp(stream).rest)
        invariant Decoded(old(codec.refToId), done) == Trader(fills, codec.refToId)
        decreases |stream|
      {
        CutTurn(stream);
        var n := FrameLen(stream[0]);
        if n == 0 {
          stream := stream[1..];
          continue;
        }
        if |stream| < n { break; }
        var frame := stream[..n];
        DecodedMore(old(codec.refToId), done, frame);
        if stream[0] != OuchCodec.Ascii('B') {
          var f := codec.DecodeFill(frame);
          if f.Some? { fills := fills + [f.value]; }
        } else {
          BookIsNoFill(codec.refToId, frame);
        }
        assert done + ([frame] + CutUp(stream[n..]).frames) == (done + [frame]) + CutUp(stream[n..]).frames;
        done := done + [frame];
        stream := stream[n..];
      }
      if stream != [] { CutTurn(stream); }
      assert done + CutUp(stream).frames == done;
    }
  }

  lemma NothingDecoded(learned: map<nat, nat>)
    ensures Decoded(learned, []) == Trader([], learned)
  {
  }
}
