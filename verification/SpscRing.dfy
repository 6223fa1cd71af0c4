/** The byte ring as an object: storage, two counters, and the loops of producer and parser. */
module SpscRing {
  import opened Bytes
  import opened Laps
  import opened ByteRing

  /** Header and body up to the physical end, then the rest of the body from cell 0. */
  lemma ThreeWrites(b0: seq<byte>, b1: seq<byte>, b2: seq<byte>, b3: seq<byte>, s: nat, m: seq<byte>)
    requires 0 < |b0| && CellOf(|b0|, s) + HEADER <= |b0| < CellOf(|b0|, s) + |m| && |m| <= |b0|
    requires var p := CellOf(|b0|, s); var room := |b0| - p;
      && b1 == b0[..p] + m[..HEADER] + b0[p + HEADER..]
      && b2 == b1[..p + HEADER] + m[HEADER..room] + b1[|b0|..]
      && b3 == b2[..0] + m[room..] + b2[|m| - room..]
    ensures Wrote(b0, b3, s, m)
  {
    hide Wrote, CellOf, Slice;
    var p := CellOf(|b0|, s);
    var room := |b0| - p;
    TwoWrites(b0, b1, b2, p, m[..HEADER], m[HEADER..room]);
    assert m[..HEADER] + m[HEADER..room] == m[..room];
    assert b3 == m[room..] + b2[|m| - room..];
    WroteWrapped(b0, b3, s, m);
  }

  /** The ring object: storage owned by the caller, two monotone counters. */
  class SpscByteRing {
    const buf: array<byte>
    var head: nat
    var tail: nat
    ghost var queue: seq<seq<byte>>   // the messages between head and tail

    predicate Sane()
      reads this
    {
      buf.Length > 0 && head <= tail <= head + buf.Length
    }

    ghost predicate Valid()
      reads this, buf
    {
      Sane() && Layout(buf[..], head, tail, queue)
    }

    constructor (storage: array<byte>)
      requires storage.Length > 0
      ensures Valid() && buf == storage && queue == [] && head == tail == 0
    {
      buf := storage;
      head, tail, queue := 0, 0, [];
    }

    /** memcpy of data to the cells from pos on. */
    method CopyIn(pos: nat, data: seq<byte>)
      requires pos + |data| <= buf.Length
      modifies buf
      ensures buf[..] == old(buf[..pos]) + data + old(buf[pos + |data|..])
    {
      forall i | 0 <= i < |data| {
        buf[pos + i] := data[i];
      }
    }

    /** The copies of a message that stays within the lap. */
    method CopyStraight(ghost s: nat, pos: nat, m: seq<byte>)
      requires pos + |m| <= buf.Length && 0 < buf.Length && pos == s % buf.Length
      modifies buf
      ensures Wrote(old(buf[..]), buf[..], s, m)
    {
      CopyIn(pos, m);
    }

    /** The copies of a message whose header fits before the end and whose body wraps. */
    method CopyWrapped(ghost s: nat, pos: nat, m: seq<byte>)
      requires 0 < buf.Length && pos == CellOf(buf.Length, s)
      requires pos + HEADER <= buf.Length < pos + |m| && |m| <= buf.Length
      modifies buf
      ensures Wrote(old(buf[..]), buf[..], s, m)
    {
      hide Wrote, CellOf, Slice;
      var bodyRoom := buf.Length - pos - HEADER;
      ghost var b0 := buf[..];
      CopyIn(pos, m[..HEADER]);
      ghost var b1 := buf[..];
      CopyIn(pos + HEADER, m[HEADER..HEADER + bodyRoom]);
      ghost var b2 := buf[..];
      CopyIn(0, m[HEADER + bodyRoom..]);
      ThreeWrites(b0, b1, b2, buf[..], s, m);
    }

    /** Append one message, or nothing if it does not fit; returns the bytes accepted. */
    method Push(data: seq<byte>) returns (n: nat)
      requires Valid() && (data == [] || IsMessage(data))
      modifies this, buf
      ensures Valid() && head == old(head)
      ensures var room := buf.Length - old(tail) % buf.Length;
        var needed := |data| + if room < |data| then room else 0;
        n == if data != [] && needed <= buf.Length - (old(tail) - head) then |data| else 0
      ensures data != [] && buf.Length - (old(tail) - head) >= 2 * |data| - 1 ==> n == |data|
      ensures queue == if n > 0 then old(queue) + [data] else old(queue)
      ensures tail == if n > 0 then Start(buf.Length, old(tail)) + n else old(tail)
    {
      var cap, len := buf.Length, |data|;
      var pos := tail % cap;
      NextLapFormula(cap, tail);
      AdmittedIff(cap, head, tail, len);
      ghost var before, start := buf[..], Start(cap, tail);
      var next := tail + len;
      if pos + len <= cap {
        var free := cap - (tail - head);
        if free < len || len == 0 { return 0; }
        CopyStraight(start, pos, data);
      } else {
        var aligned := (tail / cap + 1) * cap;
        if aligned + len > head + cap { return 0; }
        if cap - pos >= HEADER {
          CopyWrapped(start, pos, data);
        } else {
          CopyStraight(start, 0, data);
          next := aligned + len;
        }
      }
      WroteMessage(before, buf[..], head, tail, queue, data);
      tail := next;
      queue := queue + [data];
      return len;
    }

    /** Borrow up to request contiguous bytes from the head, as cell and count. */
    method ReadAcquire(request: nat) returns (pos: nat, n: nat)
      requires Sane()
      ensures n == var m := if request < tail - head then request else tail - head;
                   if m < Room(buf.Length, head) then m else Room(buf.Length, head)
      ensures n > 0 ==> pos == head % buf.Length
      ensures n > 0 ==> pos + n <= buf.Length && buf[pos..pos + n] == Slice(buf[..], head, n)
    {
      var used := tail - head;
      if used == 0 || request == 0 { return 0, 0; }
      n := if request < used then request else used;
      pos := head % buf.Length;
      var contig := buf.Length - pos;
      if n > contig { n := contig; }
    }

    /** A whole message from the head, its wrapped part copied behind its first part. */
    method ReadMessage(msgLen: nat) returns (msg: seq<byte>)
      requires Sane() && 0 < msgLen <= tail - head
      ensures msg == Slice(buf[..], head, msgLen)
    {
      var pos, n := ReadAcquire(msgLen);
      msg := buf[pos..pos + n];
      if n != msgLen {
        msg := msg + buf[..msgLen - n];
      }
    }

    /** One round of the parser's loop, on arbitrary ring contents, with one tail snapshot. */
    method RawRound() returns (out: Outcome)
      requires Sane()
      modifies this`head
      ensures out == Round(buf[..], old(head), tail, tail, tail)
      ensures head == if out.Wait? then old(head) else out.to
    {
      hide Round, FromBytes, Slice, Parse, Room, NextLap;
      var cap := buf.Length;
      NextLapFormula(cap, head);
      RoundAt(buf[..], head, tail);
      var pos, n := ReadAcquire(HEADER);
      var used := tail - head;
      if n != HEADER {
        if used < HEADER { return Wait; }
        var aligned := (head / cap + 1) * cap;
        if aligned > tail { return Wait; }
        head := aligned;
        return Skip(aligned);
      }
      var header := buf[pos..pos + n];
      var bodyLen := FromBytes(header[8..10]);
      if bodyLen < 1 || bodyLen > MAX_BODY {
        head := head + n;
        return Skip(head);
      }
      var msgLen := HEADER + bodyLen;
      if used < msgLen { return Wait; }
      var msg := ReadMessage(msgLen);
      head := head + msgLen;
      return Emit(head, Parse(msg));
    }

    /** A round on a ring that only the producer above has written: the queue's first message. */
    method ParseRound() returns (out: Outcome)
      requires Valid()
      modifies this`head, this`queue
      ensures Valid()
      ensures out.Wait? <==> old(queue) == []
      ensures out.Wait? ==> head == old(head)
      ensures !out.Wait? ==> head > old(head)
      ensures out.Emit? ==> out.parsed == Parse(old(queue)[0]) && queue == old(queue)[1..]
      ensures !out.Emit? ==> queue == old(queue)
    {
      AfterRound(buf[..], head, tail, queue);
      out := RawRound();
      if out.Emit? {
        queue := queue[1..];
      }
    }

    /** parse_available: everything queued is handed on, in order, and the ring is empty. */
    method ParseAvailable() returns (parsed: seq<Parsed>)
      requires Valid()
      modifies this`head, this`queue
      ensures Valid() && queue == [] && head == tail
      ensures |parsed| == |old(queue)|
      ensures forall i :: 0 <= i < |parsed| ==> IsMessage(old(queue)[i]) && parsed[i] == Parse(old(queue)[i])
    {
      parsed := [];
      LayoutMessages(buf[..], head, tail, queue);
      while true
        invariant Valid() && |parsed| <= |old(queue)| && queue == old(queue)[|parsed|..]
        invariant forall i :: 0 <= i < |old(queue)| ==> IsMessage(old(queue)[i])
        invariant forall i :: 0 <= i < |parsed| ==> parsed[i] == Parse(old(queue)[i])
        decreases tail - head
      {
        var out := ParseRound();
        if out.Wait? { break; }
        if out.Emit? { parsed := parsed + [out.parsed]; }
      }
    }
  }
}
