/**
 * The single-producer broadcast queue: every consumer reads every event. Consumers
 * publish their progress lazily, in batches; the producer keeps a cached minimum of
 * the published progress and rescans it only when the cache says the queue is full.
 */
module BroadcastQueue {
  import opened Laps
  import opened MarketEvents

  const LAZY_BATCH: nat := 64

  /** Counters and slots at rest. log is every event ever pushed. */
  datatype Core = Core(slots: seq<MarketEvent>, tail: nat, cached: nat, heads: seq<nat>, locals: seq<nat>,
                          pending: seq<nat>, log: seq<MarketEvent>)

  /** Consumer c: published <= local <= tail, and the difference is its unpublished batch. */
  predicate ConsumerOk(q: Core, c: nat)
    requires c < |q.heads| == |q.locals| == |q.pending|
  {
    && q.cached <= q.heads[c] <= q.locals[c] <= q.tail
    && q.locals[c] - q.heads[c] == q.pending[c] < LAZY_BATCH
  }

  /** Event k is still in its slot. */
  predicate Stored(q: Core, k: nat)
    requires 0 < |q.slots| && k < |q.log|
  {
    q.slots[k % |q.slots|] == q.log[k]
  }

  ghost predicate Inv(q: Core) {
    && 0 < |q.slots| && 0 < |q.heads| == |q.locals| == |q.pending|
    && |q.log| == q.tail && q.cached <= q.tail <= q.cached + |q.slots|
    && (forall c :: 0 <= c < |q.heads| ==> ConsumerOk(q, c))
    && (forall k :: q.cached <= k < q.tail ==> Stored(q, k))
  }

  /** Pushing one event when the cached minimum leaves room. */
  function Pushed(q: Core, ev: MarketEvent): Core
    requires 0 < |q.slots|
  {
    q.(slots := q.slots[q.tail % |q.slots| := ev], tail := q.tail + 1, log := q.log + [ev])
  }

  lemma PushKeeps(q: Core, ev: MarketEvent)
    requires Inv(q) && q.tail - q.cached < |q.slots|
    ensures Inv(Pushed(q, ev))
  {
    var q' := Pushed(q, ev);
    forall k | q'.cached <= k < q'.tail ensures Stored(q', k) {
      if k < q.tail {
        assert Stored(q, k);
        CellsDiffer(|q.slots|, k, q.tail);
      }
    }
    forall c | 0 <= c < |q'.heads| ensures ConsumerOk(q', c) {
      assert ConsumerOk(q, c);
    }
  }

  /** A consumer takes one event and publishes if its batch is full or it has caught up. */
  function Popped(q: Core, c: nat, seen: nat): Core
    requires c < |q.heads| == |q.locals| == |q.pending|
  {
    var local, pending := q.locals[c] + 1, q.pending[c] + 1;
    if pending >= LAZY_BATCH || local == seen
    then q.(locals := q.locals[c := local], heads := q.heads[c := local], pending := q.pending[c := 0])
    else q.(locals := q.locals[c := local], pending := q.pending[c := pending])
  }

  function Flushed(q: Core, c: nat): Core
    requires c < |q.heads| == |q.locals| == |q.pending|
  {
    q.(heads := q.heads[c := q.locals[c]], pending := q.pending[c := 0])
  }

  lemma PopKeeps(q: Core, c: nat, seen: nat)
    requires Inv(q) && c < |q.heads| && q.locals[c] < q.tail
    ensures Inv(Popped(q, c, seen))
  {
    forall d | 0 <= d < |q.heads| ensures ConsumerOk(Popped(q, c, seen), d) {
      assert ConsumerOk(q, d) && ConsumerOk(q, c);
    }
    forall k | q.cached <= k < q.tail ensures Stored(Popped(q, c, seen), k) { assert Stored(q, k); }
  }

  lemma FlushKeeps(q: Core, c: nat)
    requires Inv(q) && c < |q.heads|
    ensures Inv(Flushed(q, c))
  {
    forall d | 0 <= d < |q.heads| ensures ConsumerOk(Flushed(q, c), d) {
      assert ConsumerOk(q, d) && ConsumerOk(q, c);
    }
    forall k | q.cached <= k < q.tail ensures Stored(Flushed(q, c), k) { assert Stored(q, k); }
  }

  /** Raising the cache to anything every consumer has published. */
  lemma RescanKeeps(q: Core, m: nat)
    requires Inv(q) && q.cached <= m && forall c :: 0 <= c < |q.heads| ==> m <= q.heads[c]
    ensures m <= q.tail && Inv(q.(cached := m))
  {
    assert ConsumerOk(q, 0);
    forall d | 0 <= d < |q.heads| ensures ConsumerOk(q.(cached := m), d) {
      assert ConsumerOk(q, d);
    }
    forall k | m <= k < q.tail ensures Stored(q.(cached := m), k) { assert Stored(q, k); }
  }

  lemma CacheIsLow(q: Core)
    requires Inv(q)
    ensures forall c :: 0 <= c < |q.heads| ==> q.cached <= q.heads[c]
  {
    forall c | 0 <= c < |q.heads| ensures q.cached <= q.heads[c] { assert ConsumerOk(q, c); }
  }

  /** The event a consumer reads is the next one of the log: it has not been overwritten. */
  lemma NextEvent(q: Core, c: nat)
    requires Inv(q) && c < |q.heads| && q.locals[c] < q.tail
    ensures q.slots[q.locals[c] % |q.slots|] == q.log[q.locals[c]]
  {
    assert ConsumerOk(q, c) && Stored(q, q.locals[c]);
  }

  // ---- the object, whole calls at a time ----

  class SpmcEventQueue {
    const slots: array<MarketEvent>
    const heads: array<nat>      // published progress
    const locals: array<nat>     // local progress
    const pending: array<nat>    // local events not yet published
    var tail: nat
    var cachedMinHead: nat
    ghost var log: seq<MarketEvent>

    ghost function State(): Core
      reads this, slots, heads, locals, pending
    {
      Core(slots[..], tail, cachedMinHead, heads[..], locals[..], pending[..], log)
    }

    ghost predicate Valid()
      reads this, slots, heads, locals, pending
    {
      heads != locals && locals != pending && heads != pending && Inv(State())
    }

    constructor (storage: array<MarketEvent>, consumers: nat)
      requires storage.Length > 0 && consumers > 0
      ensures Valid() && slots == storage && log == [] && heads.Length == consumers
      ensures fresh(heads) && fresh(locals) && fresh(pending)
    {
      slots := storage;
      heads := new nat[consumers](_ => 0);
      locals := new nat[consumers](_ => 0);
      pending := new nat[consumers](_ => 0);
      tail, cachedMinHead, log := 0, 0, [];
    }

    /** The least published progress. */
    method MinConsumed() returns (m: nat)
      requires heads.Length > 0
      ensures exists c :: 0 <= c < heads.Length && m == heads[c]
      ensures forall c :: 0 <= c < heads.Length ==> m <= heads[c]
    {
      m := heads[0];
      for i := 1 to heads.Length
        invariant exists c :: 0 <= c < i && m == heads[c]
        invariant forall c :: 0 <= c < i ==> m <= heads[c]
      {
        if heads[i] < m { m := heads[i]; }
      }
    }

    /** Scan the published progress and refresh the cache. */
    method Rescan()
      requires Valid()
      modifies this`cachedMinHead
      ensures Valid() && cachedMinHead <= tail
      ensures exists c :: 0 <= c < heads.Length && cachedMinHead == heads[c] && locals[c] <= heads[c] + 63
    {
      var m := MinConsumed();
      ghost var c :| 0 <= c < heads.Length && m == heads[c];
      assert ConsumerOk(State(), c);
      RescanKeeps(State(), m);
      cachedMinHead := m;
    }

    /** Append an event; false means the slowest consumer really is capacity - 63 or more behind. */
    method Push(ev: MarketEvent) returns (ok: bool)
      requires Valid()
      modifies this, slots
      ensures Valid()
      ensures log == if ok then old(log) + [ev] else old(log)
      ensures ok <==> forall c :: 0 <= c < heads.Length ==> old(tail) - heads[c] < slots.Length
      ensures !ok ==> exists c :: 0 <= c < heads.Length && tail - locals[c] + 63 >= slots.Length
    {
      hide ConsumerOk, Stored;
      if tail - cachedMinHead >= slots.Length {
        Rescan();
        if tail - cachedMinHead >= slots.Length { return false; }
      }
      PushKeeps(State(), ev);
      ghost var q := State();
      CacheIsLow(q);
      slots[tail % slots.Length] := ev;
      tail := tail + 1;
      log := log + [ev];
      assert slots[..] == q.slots[q.tail % |q.slots| := ev];
      assert State() == Pushed(q, ev);
      return true;
    }

    /** Read the next event of consumer c, if there is one. */
    method Pop(c: nat) returns (r: seq<MarketEvent>)
      requires Valid() && c < heads.Length
      modifies heads, locals, pending
      ensures Valid()
      ensures if old(locals[c]) < tail then r == [log[old(locals[c])]] && locals[..] == old(locals[..])[c := old(locals[c]) + 1]
              else r == [] && locals[..] == old(locals[..])
      ensures locals[c] == tail ==> heads[c] == tail
    {
      ghost var q := State();
      assert ConsumerOk(q, c);
      if tail == locals[c] {
        ProgressFlush(c);
        return [];
      }
      NextEvent(q, c);
      PopKeeps(q, c, tail);
      r := [slots[locals[c] % slots.Length]];
      locals[c] := locals[c] + 1;
      pending[c] := pending[c] + 1;
      if pending[c] >= LAZY_BATCH || locals[c] == tail {
        heads[c] := locals[c];
        pending[c] := 0;
      }
      assert locals[..] == q.locals[c := q.locals[c] + 1];
      assert heads[..] == Popped(q, c, tail).heads && pending[..] == Popped(q, c, tail).pending;
      assert State() == Popped(q, c, tail);
    }

    method ProgressFlush(c: nat)
      requires Valid() && c < heads.Length
      modifies heads, pending
      ensures Valid() && locals[..] == old(locals[..])
      ensures heads[..] == old(heads[..])[c := locals[c]] && pending[..] == old(pending[..])[c := 0]
    {
      ghost var q := State();
      FlushKeeps(q, c);
      if locals[c] != heads[c] { heads[c] := locals[c]; }
      pending[c] := 0;
      assert heads[..] == q.heads[c := q.locals[c]] && pending[..] == q.pending[c := 0];
      assert State() == Flushed(q, c);
    }
  }
}
