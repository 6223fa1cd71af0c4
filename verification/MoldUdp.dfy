/**
 * MoldUDP64 packing (the replay client) and unpacking (the receiver). A packet is
 * a 20-byte header (10-byte session, 8-byte sequence number of its first message,
 * 2-byte message count) followed by message blocks (2-byte length, body).
 */
module MoldUdp {
  import opened Bytes
  import ByteRing

  const HEADER: nat := 20
  const MAX_BODY: nat := 200

  function Flatten(parts: seq<seq<byte>>): seq<byte> {
    if parts == [] then [] else parts[0] + Flatten(parts[1..])
  }

  predicate IsBody(b: seq<byte>) {
    1 <= |b| <= MAX_BODY
  }

  predicate AllBodies(bodies: seq<seq<byte>>) {
    forall i :: 0 <= i < |bodies| ==> IsBody(bodies[i])
  }

  /** A message block: length prefix and body. */
  function Block(body: seq<byte>): seq<byte> {
    ToBytes(|body|, 2) + body
  }

  function Blocks(bodies: seq<seq<byte>>): (r: seq<seq<byte>>)
    ensures |r| == |bodies|
  {
    if bodies == [] then [] else [Block(bodies[0])] + Blocks(bodies[1..])
  }

  /** What the receiver pushes for one message: its number, then its block. */
  function Message(seqNo: nat, block: seq<byte>): (r: seq<byte>)
    ensures |r| == 8 + |block|
  {
    ToBytes(seqNo, 8) + block
  }

  /** What the receiver pushes for bodies whose first sequence number is first. */
  function Numbered(bodies: seq<seq<byte>>, first: nat): (r: seq<seq<byte>>)
    ensures |r| == |bodies|
    decreases |bodies|
  {
    if bodies == [] then [] else [Message(first, Block(bodies[0]))] + Numbered(bodies[1..], first + 1)
  }

  lemma {:induction false} NumberedAt(bodies: seq<seq<byte>>, first: nat, i: nat)
    requires i < |bodies|
    ensures Numbered(bodies, first)[i] == Message(first + i, Block(bodies[i]))
    decreases i
  {
    if i > 0 {
      NumberedAt(bodies[1..], first + 1, i - 1);
    }
  }

  lemma {:induction false} NumberedSplit(bodies: seq<seq<byte>>, first: nat, n: nat)
    requires n <= |bodies|
    ensures Numbered(bodies, first) == Numbered(bodies[..n], first) + Numbered(bodies[n..], first + n)
    decreases n
  {
    hide Message, Block;
    if n == 0 {
      assert bodies[..0] == [] && bodies[0..] == bodies;
    } else {
      var rest, head := bodies[1..], [Message(first, Block(bodies[0]))];
      NumberedSplit(rest, first + 1, n - 1);
      assert bodies[..n][1..] == rest[..n - 1] && rest[n - 1..] == bodies[n..];
      Assoc(head, Numbered(rest[..n - 1], first + 1), Numbered(bodies[n..], first + n));
    }
  }

  lemma Assoc<T>(a: seq<T>, b: seq<T>, c: seq<T>)
    ensures (a + b) + c == a + (b + c)
  {
  }

  // ---- unpacking ----

  /** The length field at pos, or 0 if the block there is malformed or cut short. */
  function BodyLen(pkt: seq<byte>, pos: nat): (n: nat)
    ensures n > 0 ==> n <= MAX_BODY && pos + 2 + n <= |pkt|
  {
    if pos + 2 > |pkt| then 0
    else
      var n := FromBytes(pkt[pos..pos + 2]);
      if n < 1 || n > MAX_BODY || pos + 2 + n > |pkt| then 0 else n
  }

  /** The inner loop of feed: up to left messages from pos; what is pushed and where it stops. */
  function TakeBlocks(pkt: seq<byte>, pos: nat, seqNo: nat, left: nat): (r: (seq<seq<byte>>, nat))
    requires pos <= |pkt|
    ensures pos <= r.1 <= |pkt|
    decreases left
  {
    var n := BodyLen(pkt, pos);
    if left == 0 || n == 0 then ([], pos)
    else
      var (rest, p) := TakeBlocks(pkt, pos + 2 + n, seqNo + 1, left - 1);
      ([Message(seqNo, pkt[pos..pos + 2 + n])] + rest, p)
  }

  /** feed on an arbitrary byte string: everything it pushes, from pos on. */
  function Unpack(pkt: seq<byte>, pos: nat): seq<seq<byte>>
    requires pos <= |pkt|
    decreases |pkt| - pos
  {
    if pos + HEADER > |pkt| then []
    else
      var (ms, p) := TakeBlocks(pkt, pos + HEADER, FromBytes(pkt[pos + 10..pos + 18]), FromBytes(pkt[pos + 18..pos + 20]));
      ms + Unpack(pkt, p)
  }

  /** The messages of one packet: the inner loop of feed. */
  method FeedPacket(pkt: seq<byte>, from: nat, seqNo: nat, count: nat) returns (pushed: seq<seq<byte>>, pos: nat)
    requires from <= |pkt|
    ensures var r := TakeBlocks(pkt, from, seqNo, count); pushed == r.0 && pos == r.1
  {
    hide ToBytes, FromBytes, Message;
    pushed, pos := [], from;
    var i := 0;
    while i < count
      invariant pos <= |pkt| && i <= count
      invariant var rest, all := TakeBlocks(pkt, pos, seqNo + i, count - i), TakeBlocks(pkt, from, seqNo, count);
        pushed + rest.0 == all.0 && rest.1 == all.1
    {
      if pos + 2 > |pkt| { break; }
      var bodyLen := FromBytes(pkt[pos..pos + 2]);
      if bodyLen < 1 || bodyLen > MAX_BODY { break; }
      var msgLen := 2 + bodyLen;
      if pos + msgLen > |pkt| { break; }
      assert BodyLen(pkt, pos) == bodyLen;
      pushed := pushed + [Message(seqNo + i, pkt[pos..pos + msgLen])];
      pos := pos + msgLen;
      i := i + 1;
    }
  }

  /** The receiver's loop. Each element of pushed is one push to the byte ring. */
  method Feed(pkt: seq<byte>) returns (pushed: seq<seq<byte>>)
    ensures pushed == Unpack(pkt, 0)
  {
    var pos := 0;
    pushed := [];
    while pos + HEADER <= |pkt|
      invariant pos <= |pkt|
      invariant pushed + Unpack(pkt, pos) == Unpack(pkt, 0)
      decreases |pkt| - pos
    {
      var seqNo := FromBytes(pkt[pos + 10..pos + 18]);
      var count := FromBytes(pkt[pos + 18..pos + 20]);
      var more, next := FeedPacket(pkt, pos + HEADER, seqNo, count);
      Assoc(pushed, more, Unpack(pkt, next));
      pushed, pos := pushed + more, next;
    }
  }

  /** Whatever arrives, everything pushed is a well-formed ring message. */
  lemma {:induction false} UnpackGivesMessages(pkt: seq<byte>, pos: nat)
    requires pos <= |pkt|
    ensures forall i :: 0 <= i < |Unpack(pkt, pos)| ==> ByteRing.IsMessage(Unpack(pkt, pos)[i])
    decreases |pkt| - pos
  {
    if pos + HEADER <= |pkt| {
      var seqNo, count := FromBytes(pkt[pos + 10..pos + 18]), FromBytes(pkt[pos + 18..pos + 20]);
      TakeBlocksGivesMessages(pkt, pos + HEADER, seqNo, count);
      UnpackGivesMessages(pkt, TakeBlocks(pkt, pos + HEADER, seqNo, count).1);
    }
  }

  lemma {:induction false} TakeBlocksGivesMessages(pkt: seq<byte>, pos: nat, seqNo: nat, left: nat)
    requires pos <= |pkt|
    ensures forall m :: m in TakeBlocks(pkt, pos, seqNo, left).0 ==> ByteRing.IsMessage(m)
    decreases left
  {
    var n := BodyLen(pkt, pos);
    if left > 0 && n > 0 {
      var m := Message(seqNo, pkt[pos..pos + 2 + n]);
      assert m[8] == pkt[pos] && m[9] == pkt[pos + 1];
      assert m[8..10] == pkt[pos..pos + 2];
      TakeBlocksGivesMessages(pkt, pos + 2 + n, seqNo + 1, left - 1);
    }
  }

  // ---- packing ----

  /** The packet header, with an all-zero session. */
  function Header(first: nat, count: nat): (h: seq<byte>)
    ensures |h| == HEADER && h[10..18] == ToBytes(first, 8) && h[18..20] == ToBytes(count, 2)
  {
    [0, 0, 0, 0, 0, 0, 0, 0, 0, 0] + ToBytes(first, 8) + ToBytes(count, 2)
  }

  function Packet(first: nat, bodies: seq<seq<byte>>): seq<byte> {
    Header(first, |bodies|) + Flatten(Blocks(bodies))
  }

  /** The client's random choice for packet k, as extra messages beyond the first. */
  function Roll(rolls: seq<nat>, k: nat): nat {
    if k < |rolls| then rolls[k] else 0
  }

  /** The 16-bit count field holds every packet size chosen. */
  predicate SmallRolls(rolls: seq<nat>) {
    forall j :: 0 <= j < |rolls| ==> rolls[j] < 0xFFFF
  }

  /** How many messages go into packet k. */
  function Share(bodies: seq<seq<byte>>, rolls: seq<nat>, k: nat): (n: nat)
    ensures n <= |bodies| && n <= 1 + Roll(rolls, k) && (bodies != [] ==> n > 0)
  {
    if 1 + Roll(rolls, k) < |bodies| then 1 + Roll(rolls, k) else |bodies|
  }

  /** The packets for bodies when packet k may hold 1 + Roll(rolls, k) messages. */
  function Packets(bodies: seq<seq<byte>>, first: nat, rolls: seq<nat>, k: nat): seq<seq<byte>>
    decreases |bodies|
  {
    if bodies == [] then []
    else
      var n := Share(bodies, rolls, k);
      [Packet(first, bodies[..n])] + Packets(bodies[n..], first + n, rolls, k + 1)
  }

  /** What the client finds in a replay file: the messages to send, and where it stops. */
  datatype Scanned = Scanned(bodies: seq<seq<byte>>, end: nat)

  /**
   * Reading from pos on: a bad length skips one byte, type 'R' is filtered out. The
   * reading stops at the end of the file, or at a message that the end cuts short.
   */
  function Scan(file: seq<byte>, pos: nat): (r: Scanned)
    requires pos <= |file|
    ensures pos <= r.end <= |file|
    decreases |file| - pos
  {
    if pos + 2 > |file| then Scanned([], pos)
    else
      var n := FromBytes(file[pos..pos + 2]);
      if n < 1 || n > MAX_BODY then Scan(file, pos + 1)
      else if pos + 2 + n > |file| then Scanned([], pos)
      else
        var rest := Scan(file, pos + 2 + n);
        if file[pos + 2] == 'R' as int then rest else Scanned([file[pos + 2..pos + 2 + n]] + rest.bodies, rest.end)
  }

  lemma ScanStep(file: seq<byte>, pos: nat)
    requires pos <= |file|
    ensures pos + 2 > |file| ==> Scan(file, pos) == Scanned([], pos)
    ensures pos + 2 <= |file| ==>
      var n := FromBytes(file[pos..pos + 2]);
      Scan(file, pos) ==
        if n < 1 || n > MAX_BODY then Scan(file, pos + 1)
        else if pos + 2 + n > |file| then Scanned([], pos)
        else
          var rest := Scan(file, pos + 2 + n);
          Scanned((if file[pos + 2] == 'R' as int then [] else [file[pos + 2..pos + 2 + n]]) + rest.bodies, rest.end)
  {
  }

  lemma {:induction false} ScanEnds(file: seq<byte>, pos: nat)
    requires pos <= |file|
    ensures var r := Scan(file, pos); Scan(file, r.end) == Scanned([], r.end) && (pos == r.end ==> r.bodies == [])
    decreases |file| - pos
  {
    if pos + 2 <= |file| {
      var n := FromBytes(file[pos..pos + 2]);
      if n < 1 || n > MAX_BODY { ScanEnds(file, pos + 1); }
      else if pos + 2 + n <= |file| { ScanEnds(file, pos + 2 + n); }
    }
  }

  /** From from on, taken has been put into payload and the reading goes on at pos. */
  ghost predicate Filling(file: seq<byte>, from: nat, pos: nat, taken: seq<seq<byte>>, payload: seq<byte>) {
    && from <= pos <= |file| && payload == Flatten(Blocks(taken))
    && pos <= Scan(file, from).end == Scan(file, pos).end
    && taken + Scan(file, pos).bodies == Scan(file, from).bodies
  }

  lemma FillSkips(file: seq<byte>, from: nat, pos: nat, taken: seq<seq<byte>>, payload: seq<byte>)
    requires Filling(file, from, pos, taken, payload) && pos + 2 <= |file|
    ensures var n := FromBytes(file[pos..pos + 2]);
      && (n < 1 || n > MAX_BODY ==> Filling(file, from, pos + 1, taken, payload))
      && (1 <= n <= MAX_BODY && pos + 2 + n <= |file| && file[pos + 2] == 'R' as int ==>
            Filling(file, from, pos + 2 + n, taken, payload))
      && (1 <= n <= MAX_BODY && pos + 2 + n > |file| ==> pos == Scan(file, from).end)
  {
    hide FromBytes, Flatten, Blocks, Scan;
    ScanStep(file, pos);
  }

  lemma FillTakes(file: seq<byte>, from: nat, pos: nat, taken: seq<seq<byte>>, payload: seq<byte>)
    requires Filling(file, from, pos, taken, payload) && pos + 2 <= |file|
    requires var n := FromBytes(file[pos..pos + 2]);
      1 <= n <= MAX_BODY && pos + 2 + n <= |file| && file[pos + 2] != 'R' as int
    ensures var n := FromBytes(file[pos..pos + 2]);
      Filling(file, from, pos + 2 + n, taken + [file[pos + 2..pos + 2 + n]], payload + file[pos..pos + 2 + n])
  {
    hide FromBytes, Flatten, Blocks, Scan;
    var n := FromBytes(file[pos..pos + 2]);
    ScanStep(file, pos);
    Taken(file, pos, taken);
    Assoc(taken, [file[pos + 2..pos + 2 + n]], Scan(file, pos + 2 + n).bodies);
  }

  lemma FillStarts(file: seq<byte>, from: nat)
    requires from <= |file|
    ensures Filling(file, from, from, [], [])
  {
  }

  /**
   * Fill one packet: up to limit messages from pos on, skipping what is not sent. Where
   * the reading stops nothing is taken and pos stays.
   */
  method FillPacket(file: seq<byte>, from: nat, limit: nat) returns (payload: seq<byte>, count: nat, pos: nat, ghost taken: seq<seq<byte>>)
    requires from <= |file|
    ensures |taken| == count <= limit && Filling(file, from, pos, taken, payload)
    ensures count == limit || pos == Scan(file, from).end
    ensures from < Scan(file, from).end && limit > 0 ==> from < pos
    ensures from == Scan(file, from).end ==> pos == from && count == 0
  {
    hide FromBytes, Filling, Scan;
    payload, count, pos, taken := [], 0, from, [];
    FillStarts(file, from);
    while count < limit && pos + 2 <= |file|
      invariant from <= pos <= |file| && |taken| == count <= limit
      invariant Filling(file, from, pos, taken, payload)
      invariant count > 0 ==> from < pos
      decreases |file| - pos
    {
      FillSkips(file, from, pos, taken, payload);
      var bodyLen := FromBytes(file[pos..pos + 2]);
      if bodyLen < 1 || bodyLen > MAX_BODY {
        pos := pos + 1;
        continue;
      }
      var msgLen := 2 + bodyLen;
      if pos + msgLen > |file| { break; }
      if file[pos + 2] == 'R' as int {
        pos := pos + msgLen;
        continue;
      }
      FillTakes(file, from, pos, taken, payload);
      taken := taken + [file[pos + 2..pos + msgLen]];
      payload := payload + file[pos..pos + msgLen];
      pos := pos + msgLen;
      count := count + 1;
    }
    FillEnds(file, from, pos, taken, payload);
  }

  lemma FillEnds(file: seq<byte>, from: nat, pos: nat, taken: seq<seq<byte>>, payload: seq<byte>)
    requires Filling(file, from, pos, taken, payload)
    ensures pos <= Scan(file, from).end && (pos + 2 > |file| ==> pos == Scan(file, from).end)
  {
    ScanStep(file, pos);
  }

  lemma Taken(file: seq<byte>, pos: nat, taken: seq<seq<byte>>)
    requires pos + 2 <= |file|
    requires var n := FromBytes(file[pos..pos + 2]); 1 <= n <= MAX_BODY && pos + 2 + n <= |file|
    ensures var n := FromBytes(file[pos..pos + 2]);
      Flatten(Blocks(taken + [file[pos + 2..pos + 2 + n]])) == Flatten(Blocks(taken)) + file[pos..pos + 2 + n]
  {
    hide FromBytes, ToBytes, Flatten, Blocks;
    var n := FromBytes(file[pos..pos + 2]);
    var body := file[pos + 2..pos + 2 + n];
    LengthField(file[pos..pos + 2]);
    assert file[pos..pos + 2 + n] == file[pos..pos + 2] + body == Block(body);
    BlocksAppend(taken, body);
  }

  /**
   * The client's packing loop; 1 + Roll(rolls, k) is its random choice for packet k. A
   * pass that stays where it is would be repeated for ever by the client; the method
   * stops there and says so. That happens exactly when the file's last message is cut
   * short, and everything before it has been sent.
   */
  method Pack(file: seq<byte>, rolls: seq<nat>) returns (sent: seq<seq<byte>>, stuck: bool)
    ensures sent == Packets(Scan(file, 0).bodies, 0, rolls, 0)
    ensures stuck <==> Scan(file, 0).end + 2 <= |file|
  {
    hide Header, Flatten, Blocks, FromBytes, Scan;
    sent, stuck := [], false;
    var pos, globalSeq, k := 0, 0, 0;
    while pos + 2 <= |file|
      invariant pos <= |file| && Scan(file, pos).end == Scan(file, 0).end
      invariant sent + Packets(Scan(file, pos).bodies, globalSeq, rolls, k) == Packets(Scan(file, 0).bodies, 0, rolls, 0)
      decreases |file| - pos
    {
      ghost var bodies := Scan(file, pos).bodies;
      ScanEnds(file, pos);
      var payload, count, next, taken := FillPacket(file, pos, 1 + Roll(rolls, k));
      if next == pos {
        return sent, true;
      }
      if count == 0 {
        assert Scan(file, next).bodies == bodies;
      } else {
        var pkt := Header(globalSeq, count) + payload;
        FirstPacket(bodies, taken, Scan(file, next).bodies, globalSeq, rolls, k);
        assert pkt == Packet(globalSeq, taken);
        Assoc(sent, [pkt], Packets(Scan(file, next).bodies, globalSeq + count, rolls, k + 1));
        sent := sent + [pkt];
        k := k + 1;
        globalSeq := globalSeq + count;
      }
      pos := next;
    }
    ScanStep(file, pos);
  }

  lemma FirstPacket(bodies: seq<seq<byte>>, taken: seq<seq<byte>>, rest: seq<seq<byte>>, first: nat, rolls: seq<nat>, k: nat)
    requires bodies == taken + rest && 0 < |taken| <= 1 + Roll(rolls, k) && (|taken| == 1 + Roll(rolls, k) || rest == [])
    ensures Packets(bodies, first, rolls, k) == [Packet(first, taken)] + Packets(rest, first + |taken|, rolls, k + 1)
  {
    assert bodies[..|taken|] == taken && bodies[|taken|..] == rest;
  }

  /** A 2-byte field is determined by its value. */
  lemma LengthField(f: seq<byte>)
    requires |f| == 2
    ensures ToBytes(FromBytes(f), 2) == f
  {
    assert f[..1] == [f[0]];
    assert FromBytes([f[0]]) == f[0];
    assert FromBytes(f) == 256 * (f[0] as int) + f[1] as int;
    assert ToBytes(f[0], 1) == [f[0]];
  }

  lemma {:induction false} BlocksAppend(bodies: seq<seq<byte>>, body: seq<byte>)
    ensures Flatten(Blocks(bodies + [body])) == Flatten(Blocks(bodies)) + Block(body)
  {
    var all := bodies + [body];
    if bodies == [] {
      assert all == [body] && Blocks(all) == [Block(body)];
    } else {
      assert all[1..] == bodies[1..] + [body];
      BlocksAppend(bodies[1..], body);
    }
  }

  // ---- packing and unpacking are inverse ----

  /** The bytes part stand in whole at pos. */
  predicate At(whole: seq<byte>, pos: nat, part: seq<byte>) {
    pos + |part| <= |whole| && whole[pos..pos + |part|] == part
  }

  lemma AtSplit(whole: seq<byte>, pos: nat, a: seq<byte>, b: seq<byte>)
    requires At(whole, pos, a + b)
    ensures At(whole, pos, a) && At(whole, pos + |a|, b)
  {
    var ab := whole[pos..pos + |a| + |b|];
    assert ab[..|a|] == a && ab[|a|..] == b;
  }

  lemma Ahead(whole: seq<byte>, pos: nat, a: seq<byte>, b: seq<byte>)
    requires pos <= |whole| && whole[pos..] == a + b
    ensures At(whole, pos, a) && whole[pos + |a|..] == b
  {
    assert whole[pos..pos + |a|] == whole[pos..][..|a|];
    assert whole[pos + |a|..] == whole[pos..][|a|..];
  }

  lemma FlattenCons(p: seq<byte>, rest: seq<seq<byte>>)
    ensures Flatten([p] + rest) == p + Flatten(rest)
  {
    assert ([p] + rest)[1..] == rest;
  }

  lemma AtSlice(whole: seq<byte>, pos: nat, part: seq<byte>, i: nat, j: nat)
    requires At(whole, pos, part) && i <= j <= |part|
    ensures whole[pos + i..pos + j] == part[i..j]
  {
    forall k | i <= k < j ensures whole[pos + k] == part[k] {
      assert whole[pos..pos + |part|][k] == part[k];
    }
  }

  /** One block anywhere in a stream is read back. */
  lemma ReadBlock(pkt: seq<byte>, pos: nat, body: seq<byte>)
    requires IsBody(body) && At(pkt, pos, Block(body))
    ensures BodyLen(pkt, pos) == |body| && FromBytes(pkt[pos..pos + 2]) == |body|
    ensures pkt[pos..pos + 2 + |body|] == Block(body) && pkt[pos + 2..pos + 2 + |body|] == body
  {
    AtSplit(pkt, pos, ToBytes(|body|, 2), body);
    PowValues();
    ReadWrittenFits(|body|, 2);
  }

  /** At pos no block can be read: no room for a length, a length out of range, or a body cut short. */
  predicate BadBlock(pkt: seq<byte>, pos: nat) {
    || pos + 2 > |pkt|
    || FromBytes(pkt[pos..pos + 2]) == 0 || FromBytes(pkt[pos..pos + 2]) > 200
    || pos + 2 + FromBytes(pkt[pos..pos + 2]) > |pkt|
  }

  lemma {:induction false} TakeBlocksReads(pkt: seq<byte>, pos: nat, bodies: seq<seq<byte>>, seqNo: nat, left: nat)
    requires AllBodies(bodies) && At(pkt, pos, Flatten(Blocks(bodies)))
    requires |bodies| == left || (|bodies| < left && BadBlock(pkt, pos + |Flatten(Blocks(bodies))|))
    ensures var r := TakeBlocks(pkt, pos, seqNo, left);
      r.0 == Numbered(bodies, seqNo) && r.1 == pos + |Flatten(Blocks(bodies))|
    decreases |bodies|
  {
    hide ToBytes, FromBytes, Message;
    if bodies != [] {
      hide BodyLen, BadBlock;
      AtSplit(pkt, pos, Block(bodies[0]), Flatten(Blocks(bodies[1..])));
      ReadBlock(pkt, pos, bodies[0]);
      TakeBlocksReads(pkt, pos + 2 + |bodies[0]|, bodies[1..], seqNo + 1, left - 1);
    }
  }

  /**
   * A packet whose header announces more messages than can be read gives the messages
   * before the bad block, and the bytes of the bad block are taken for the next header.
   */
  lemma DamagedPacket(pkt: seq<byte>, pos: nat, first: nat, count: nat, bodies: seq<seq<byte>>)
    requires first < 0x1_0000_0000_0000_0000 && |bodies| < count < 0x1_0000 && AllBodies(bodies)
    requires At(pkt, pos, Header(first, count) + Flatten(Blocks(bodies)))
    requires BadBlock(pkt, pos + HEADER + |Flatten(Blocks(bodies))|)
    ensures Unpack(pkt, pos) == Numbered(bodies, first) + Unpack(pkt, pos + HEADER + |Flatten(Blocks(bodies))|)
  {
    hide ToBytes, FromBytes, TakeBlocks, Flatten, Numbered, Pow256, BadBlock;
    HeaderReads(pkt, pos, first, count, Flatten(Blocks(bodies)));
    TakeBlocksReads(pkt, pos + HEADER, bodies, first, count);
  }

  lemma HeaderReads(pkt: seq<byte>, pos: nat, first: nat, count: nat, rest: seq<byte>)
    requires first < 0x1_0000_0000_0000_0000 && count < 0x1_0000
    requires At(pkt, pos, Header(first, count) + rest)
    ensures pos + HEADER <= |pkt| && At(pkt, pos + HEADER, rest)
    ensures FromBytes(pkt[pos + 10..pos + 18]) == first && FromBytes(pkt[pos + 18..pos + 20]) == count
  {
    hide ToBytes, FromBytes, Pow256;
    var header := Header(first, count);
    AtSplit(pkt, pos, header, rest);
    AtSlice(pkt, pos, header, 10, 18);
    AtSlice(pkt, pos, header, 18, 20);
    PowValues();
    ReadWrittenFits(first, 8);
    ReadWrittenFits(count, 2);
  }

  /** A packet anywhere in a stream yields its messages, and unpacking goes on after it. */
  lemma UnpackPacket(pkt: seq<byte>, pos: nat, first: nat, bodies: seq<seq<byte>>)
    requires |bodies| < 0x1_0000 && first < 0x1_0000_0000_0000_0000 && AllBodies(bodies)
    requires At(pkt, pos, Packet(first, bodies))
    ensures Unpack(pkt, pos) == Numbered(bodies, first) + Unpack(pkt, pos + |Packet(first, bodies)|)
  {
    hide ToBytes, FromBytes, TakeBlocks, Flatten, Numbered, Pow256, BadBlock;
    HeaderReads(pkt, pos, first, |bodies|, Flatten(Blocks(bodies)));
    TakeBlocksReads(pkt, pos + HEADER, bodies, first, |bodies|);
  }

  lemma UnpackFirst(pkt: seq<byte>, pos: nat, first: nat, bodies: seq<seq<byte>>, rest: seq<byte>)
    requires |bodies| < 0x1_0000 && first < 0x1_0000_0000_0000_0000 && AllBodies(bodies)
    requires pos <= |pkt| && pkt[pos..] == Packet(first, bodies) + rest
    ensures pos + |Packet(first, bodies)| <= |pkt| && pkt[pos + |Packet(first, bodies)|..] == rest
    ensures Unpack(pkt, pos) == Numbered(bodies, first) + Unpack(pkt, pos + |Packet(first, bodies)|)
  {
    Ahead(pkt, pos, Packet(first, bodies), rest);
    UnpackPacket(pkt, pos, first, bodies);
  }

  lemma UnpackNothing(pkt: seq<byte>, pos: nat, first: nat, rolls: seq<nat>, k: nat)
    requires SmallRolls(rolls) && pos <= |pkt| && pkt[pos..] == Flatten(Packets([], first, rolls, k))
    ensures Unpack(pkt, pos) == Numbered([], first)
  {
  }

  lemma {:induction false} UnpackPackets(pkt: seq<byte>, pos: nat, bodies: seq<seq<byte>>, first: nat, rolls: seq<nat>, k: nat)
    requires SmallRolls(rolls)
    requires AllBodies(bodies) && first + |bodies| < 0x1_0000_0000_0000_0000
    requires pos <= |pkt| && pkt[pos..] == Flatten(Packets(bodies, first, rolls, k))
    ensures Unpack(pkt, pos) == Numbered(bodies, first)
    decreases |bodies|
  {
    hide Unpack, TakeBlocks, Packet, Numbered, Flatten;
    if bodies == [] {
      UnpackNothing(pkt, pos, first, rolls, k);
    } else {
      var n := Share(bodies, rolls, k);
      var p, rest := Packet(first, bodies[..n]), Flatten(Packets(bodies[n..], first + n, rolls, k + 1));
      FlattenCons(p, Packets(bodies[n..], first + n, rolls, k + 1));
      UnpackFirst(pkt, pos, first, bodies[..n], rest);
      UnpackPackets(pkt, pos + |p|, bodies[n..], first + n, rolls, k + 1);
      NumberedSplit(bodies, first, n);
    }
  }

  /**
   * Replay and receive: whatever the packet sizes, unpacking the packets made from a
   * file pushes exactly the messages the client found, numbered 0, 1, 2, ...
   */
  lemma StreamRoundTrip(bodies: seq<seq<byte>>, rolls: seq<nat>)
    requires SmallRolls(rolls)
    requires AllBodies(bodies)
    requires |bodies| < 0x1_0000_0000_0000_0000
    ensures Unpack(Flatten(Packets(bodies, 0, rolls, 0)), 0) == Numbered(bodies, 0)
  {
    var pkt := Flatten(Packets(bodies, 0, rolls, 0));
    assert pkt[0..] == pkt;
    UnpackPackets(pkt, 0, bodies, 0, rolls, 0);
  }

  /** Every packet but the last announces exactly the size chosen for it, and the last no more. */
  lemma {:induction false} PacketCounts(bodies: seq<seq<byte>>, first: nat, rolls: seq<nat>, k: nat, j: nat)
    requires SmallRolls(rolls) && j < |Packets(bodies, first, rolls, k)|
    ensures var ps := Packets(bodies, first, rolls, k);
      && |ps[j]| >= 20 && 1 <= FromBytes(ps[j][18..20]) <= 1 + Roll(rolls, k + j)
      && (j < |ps| - 1 ==> FromBytes(ps[j][18..20]) == 1 + Roll(rolls, k + j))
    decreases j
  {
    hide Flatten, Blocks, FromBytes, ToBytes, Pow256;
    var n := Share(bodies, rolls, k);
    if j > 0 {
      PacketCounts(bodies[n..], first + n, rolls, k + 1, j - 1);
    } else {
      PowValues();
      ReadWrittenFits(n, 2);
      assert Packet(first, bodies[..n])[18..20] == ToBytes(n, 2) by {
        assert Header(first, n)[18..20] == Packet(first, bodies[..n])[18..20];
      }
    }
  }

  function FeedEach(pkts: seq<seq<byte>>): seq<seq<byte>> {
    if pkts == [] then [] else Unpack(pkts[0], 0) + FeedEach(pkts[1..])
  }

  /** The same when every packet arrives as its own datagram. */
  lemma {:induction false} DatagramRoundTrip(bodies: seq<seq<byte>>, first: nat, rolls: seq<nat>, k: nat)
    requires SmallRolls(rolls)
    requires AllBodies(bodies)
    requires first + |bodies| < 0x1_0000_0000_0000_0000
    ensures FeedEach(Packets(bodies, first, rolls, k)) == Numbered(bodies, first)
    decreases |bodies|
  {
    hide Unpack, Packet, Numbered, Flatten;
    if bodies != [] {
      var n := Share(bodies, rolls, k);
      var p, rest := Packet(first, bodies[..n]), Packets(bodies[n..], first + n, rolls, k + 1);
      assert ([p] + rest)[1..] == rest;
      UnpackOne(first, bodies[..n]);
      DatagramRoundTrip(bodies[n..], first + n, rolls, k + 1);
      NumberedSplit(bodies, first, n);
    }
  }

  lemma UnpackOne(first: nat, bodies: seq<seq<byte>>)
    requires |bodies| < 0x1_0000 && first < 0x1_0000_0000_0000_0000 && AllBodies(bodies)
    ensures Unpack(Packet(first, bodies), 0) == Numbered(bodies, first)
  {
    var p := Packet(first, bodies);
    assert At(p, 0, p);
    UnpackPacket(p, 0, first, bodies);
    assert Unpack(p, |p|) == [];
  }

  /** The messages of a file that are not stock directory messages. */
  function Kept(bodies: seq<seq<byte>>): (r: seq<seq<byte>>)
    requires AllBodies(bodies)
    ensures AllBodies(r) && |r| <= |bodies|
    ensures forall i :: 0 <= i < |r| ==> r[i][0] != 'R' as int
  {
    if bodies == [] then []
    else (if bodies[0][0] == 'R' as int then [] else [bodies[0]]) + Kept(bodies[1..])
  }

  lemma KeptStep(bodies: seq<seq<byte>>)
    requires AllBodies(bodies) && bodies != []
    ensures Flatten(Blocks(bodies)) == Block(bodies[0]) + Flatten(Blocks(bodies[1..]))
    ensures Kept(bodies) == if bodies[0][0] == 'R' as int then Kept(bodies[1..]) else [bodies[0]] + Kept(bodies[1..])
  {
  }

  /** A file of whole messages is scanned to exactly those that are kept. */
  lemma {:induction false} ScanWhole(file: seq<byte>, pos: nat, bodies: seq<seq<byte>>)
    requires AllBodies(bodies) && pos <= |file| && file[pos..] == Flatten(Blocks(bodies))
    ensures Scan(file, pos) == Scanned(Kept(bodies), |file|)
    decreases |bodies|
  {
    hide ToBytes, BodyLen, Block;
    if bodies != [] {
      hide FromBytes, Kept, Flatten;
      var rest := Flatten(Blocks(bodies[1..]));
      KeptStep(bodies);
      Ahead(file, pos, Block(bodies[0]), rest);
      ReadBlock(file, pos, bodies[0]);
      ScanWhole(file, pos + 2 + |bodies[0]|, bodies[1..]);
      assert file[pos + 2] == bodies[0][0];
    }
  }

  /** End to end: the parser sees message i of the file as (i, body i). */
  lemma FileToParser(bodies: seq<seq<byte>>, rolls: seq<nat>)
    requires SmallRolls(rolls)
    requires AllBodies(bodies)
    requires |Kept(bodies)| < 0x1_0000_0000_0000_0000
    ensures var file, kept := Flatten(Blocks(bodies)), Kept(bodies);
      && Scan(file, 0) == Scanned(kept, |file|)
      && var pushed := Unpack(Flatten(Packets(kept, 0, rolls, 0)), 0);
         && |pushed| == |kept|
         && forall i :: 0 <= i < |kept| ==>
              ByteRing.IsMessage(pushed[i]) && ByteRing.Parse(pushed[i]) == ByteRing.Parsed(i, kept[i])
  {
    hide Unpack, Packets, Message, Block, Scan, Kept, Flatten, Blocks, Numbered;
    var file := Flatten(Blocks(bodies));
    assert file[0..] == file;
    ScanWhole(file, 0, bodies);
    var kept := Kept(bodies);
    StreamRoundTrip(kept, rolls);
    forall i | 0 <= i < |kept| ensures
      var m := Numbered(kept, 0)[i]; ByteRing.IsMessage(m) && ByteRing.Parse(m) == ByteRing.Parsed(i, kept[i])
    {
      NumberedAt(kept, 0, i);
      MessageParses(i, kept[i]);
    }
  }

  lemma MessageParses(i: nat, body: seq<byte>)
    requires i < 0x1_0000_0000_0000_0000 && IsBody(body)
    ensures var m := Message(i, Block(body));
      ByteRing.IsMessage(m) && ByteRing.Parse(m) == ByteRing.Parsed(i, body)
  {
    var m := Message(i, Block(body));
    assert m[..8] == ToBytes(i, 8);
    assert m[8..10] == ToBytes(|body|, 2);
    assert m[10..] == body;
    PowValues();
    ReadWrittenFits(i, 8);
    ReadWrittenFits(|body|, 2);
  }
}
