/**
 * Dispatch of events to workers. Every worker has a ring and an overflow bucket with
 * an active flag: while the flag is up everything for the worker goes through the
 * bucket, so that the order of events survives a full ring.
 */
module Dispatch {
  import opened MarketEvents
  import Laps

  // ---- the ring object ----

  /** Single-producer single-consumer ring of events. */
  class SpscEventRing {
    const slots: array<MarketEvent>
    var head: nat
    var tail: nat
    ghost var contents: seq<MarketEvent>

    ghost predicate Valid()
      reads this, slots
    {
      && slots.Length > 0
      && head <= tail <= head + slots.Length
      && |contents| == tail - head
      && forall k :: 0 <= k < |contents| ==> InSlot(k)
    }

    ghost predicate InSlot(k: nat)
      requires slots.Length > 0 && k < |contents|
      reads this, slots
    {
      slots[(head + k) % slots.Length] == contents[k]
    }

    constructor (storage: array<MarketEvent>)
      requires storage.Length > 0
      ensures Valid() && slots == storage && contents == []
    {
      slots := storage;
      head, tail, contents := 0, 0, [];
    }

    method Push(ev: MarketEvent) returns (ok: bool)
      requires Valid()
      modifies this`tail, this`contents, slots
      ensures Valid()
      ensures ok <==> |old(contents)| < slots.Length
      ensures contents == if ok then old(contents) + [ev] else old(contents)
    {
      if tail - head >= slots.Length { return false; }
      ghost var was := contents;
      slots[tail % slots.Length] := ev;
      tail := tail + 1;
      contents := contents + [ev];
      forall k | 0 <= k < |contents| ensures InSlot(k) {
        if k < |was| {
          assert old(InSlot(k));
          Laps.CellsDiffer(slots.Length, head + k, tail - 1);
        }
      }
      return true;
    }

    method Pop() returns (r: seq<MarketEvent>)
      requires Valid()
      modifies this`head, this`contents
      ensures Valid()
      ensures if old(contents) == [] then r == [] && contents == []
              else r == [old(contents)[0]] && contents == old(contents)[1..]
    {
      if head == tail { return []; }
      assert InSlot(0);
      r := [slots[head % slots.Length]];
      ghost var was := contents;
      head := head + 1;
      contents := contents[1..];
      forall k | 0 <= k < |contents| ensures InSlot(k) {
        assert contents[k] == was[k + 1];
        assert old(InSlot(k + 1));
      }
    }

    /** The head event, left in place. */
    method Peek() returns (r: seq<MarketEvent>)
      requires Valid()
      ensures r == if contents == [] then [] else [contents[0]]
    {
      if head == tail { return []; }
      assert InSlot(0);
      return [slots[head % slots.Length]];
    }

    method Pending() returns (n: nat)
      requires Valid()
      ensures n == |contents|
    {
      return tail - head;
    }
  }

  /** What one worker is fed from: its ring and its retry bucket. */
  class Lane {
    const ring: SpscEventRing
    const bucket: SpscEventRing
    var active: bool

    ghost predicate Valid()
      reads this, ring, ring.slots, bucket, bucket.slots
    {
      && ring != bucket && ring.slots != bucket.slots
      && ring.Valid() && bucket.Valid()
      && (!active ==> bucket.contents == [])
    }

    /** Everything on its way to the worker, oldest first. */
    ghost function Queue(): seq<MarketEvent>
      reads this, ring, bucket
    {
      ring.contents + bucket.contents
    }

    constructor (r: SpscEventRing, b: SpscEventRing)
      requires r != b && r.slots != b.slots && r.Valid() && b.Valid() && b.contents == []
      ensures Valid() && ring == r && bucket == b && !active
    {
      ring, bucket, active := r, b, false;
    }

    /** dispatch for this worker; the wait for a full bucket ends with room for one event. */
    method Dispatch(ev: MarketEvent)
      requires Valid() && |bucket.contents| < bucket.slots.Length
      modifies this, ring, ring.slots, bucket, bucket.slots
      ensures Valid() && Queue() == old(Queue()) + [ev]
      ensures bucket.contents == old(bucket.contents) <==> old(!active && |ring.contents| < ring.slots.Length)
      ensures active == old(active || |ring.contents| == ring.slots.Length)
    {
      if active {
        var ok := bucket.Push(ev);
        return;
      }
      var pushed := ring.Push(ev);
      if pushed { return; }
      var ok := bucket.Push(ev);
      active := true;
    }

    /** The retry thread's pass over this bucket: move what fits, then clear the flag if nothing is left. */
    method RetryPass()
      requires Valid()
      modifies this, ring, ring.slots, bucket
      ensures Valid() && Queue() == old(Queue())
      ensures bucket.contents == [] || |ring.contents| == ring.slots.Length
      ensures bucket.contents == [] ==> !active
    {
      hide SpscEventRing.Valid;
      var ev := bucket.Peek();
      while ev != []
        invariant Valid() && Queue() == old(Queue())
        invariant ev == if bucket.contents == [] then [] else [bucket.contents[0]]
        decreases |bucket.contents|
      {
        ghost var r, b := ring.contents, bucket.contents;
        var ok := ring.Push(ev[0]);
        if !ok { break; }
        var taken := bucket.Pop();
        assert r + b == (r + [b[0]]) + b[1..];
        ev := bucket.Peek();
      }
      var left := bucket.Pending();
      if left == 0 { active := false; }
    }
  }
}
