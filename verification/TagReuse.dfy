/** Why the free stack carries a tag: a run with a single tag value that shares a slot. */
module TagReuse {
  import opened OrderPool

  /** s is reached from an initial state in n steps, with no limit on the age of head copies. */
  ghost predicate ReachedIn(s: State, n: nat)
    decreases n
  {
    if n == 0 then Init(s) else exists r, t :: ReachedIn(r, n - 1) && Next(r, s, t)
  }

  lemma StepIn(r: State, s: State, t: nat, n: nat)
    requires ReachedIn(r, n) && Next(r, s, t)
    ensures ReachedIn(s, n + 1)
  {
  }

  ghost predicate Reached(s: State) {
    exists n: nat :: ReachedIn(s, n)
  }

  lemma Step(r: State, s: State, t: nat)
    requires Reached(r) && Next(r, s, t)
    ensures Reached(s)
  {
    var n: nat :| ReachedIn(r, n);
    StepIn(r, s, t, n);
  }

  /** Thread t takes the first free slot as far as its swap, from a quiet start. */
  lemma Prepare(s: State, t: nat) returns (s': State)
    requires Reached(s) && t in s.pcs && s.pcs[t] == Ready
    requires s.tags > 0 && s.head.first.To? && s.head.first.slot < |s.next|
    ensures s' == Go(s, t, AllocNext(s.head, s.next[s.head.first.slot]))
    ensures Reached(s')
  {
    hide Reached;
    var a := Go(s, t, AllocLoaded(s.head));
    s' := Go(a, t, AllocNext(s.head, s.next[s.head.first.slot]));
    assert AllocLoad(s, a, t) && AllocRead(a, s', t);
    Step(s, a, t);
    Step(a, s', t);
    assert s'.pcs == s.pcs[t := s'.pcs[t]];
  }

  /** An allocation nobody interrupts: load, read, swap, count. */
  lemma AllocAlone(s: State, t: nat) returns (s': State)
    requires Reached(s) && t in s.pcs && s.pcs[t] == Ready
    requires s.tags > 0 && s.head.first.To? && s.head.first.slot < |s.next|
    ensures Reached(s')
    ensures var slot := s.head.first.slot;
      s' == s.(head := Head(s.head.ops + 1, s.next[slot]), owner := s.owner[slot := t], size := s.size + 1)
  {
    hide Reached;
    var slot := s.head.first.slot;
    var b := Prepare(s, t);
    var c := Go(b, t, AllocWon(slot)).(head := Head(s.head.ops + 1, s.next[slot]), owner := s.owner[slot := t]);
    s' := Go(c, t, Ready).(size := s.size + 1);
    assert AllocSwap(b, c, t) && AllocCount(c, s', t);
    Step(b, c, t);
    Step(c, s', t);
    assert s'.pcs == s.pcs;
  }

  /** Thread t gives back a slot as far as its swap, from a quiet start. */
  lemma PrepareFree(s: State, t: nat, slot: nat) returns (s': State)
    requires Reached(s) && t in s.pcs && s.pcs[t] == Ready
    requires s.tags > 0 && slot < |s.next| && Owns(s, t, slot)
    ensures s' == Go(s, t, FreeLinked(slot, s.head)).(next := s.next[slot := s.head.first])
    ensures Reached(s')
  {
    hide Reached;
    var a := Go(s, t, FreeLoaded(slot, s.head));
    s' := Go(a, t, FreeLinked(slot, s.head)).(next := s.next[slot := s.head.first]);
    assert FreeLoad(s, a, t, slot) && FreeLink(a, s', t);
    Step(s, a, t);
    Step(a, s', t);
    assert s'.pcs == s.pcs[t := s'.pcs[t]];
  }

  /** A deallocation nobody interrupts: load, link, swap, count. */
  lemma FreeAlone(s: State, t: nat, slot: nat) returns (s': State)
    requires Reached(s) && t in s.pcs && s.pcs[t] == Ready
    requires s.tags > 0 && slot < |s.next| && Owns(s, t, slot)
    ensures Reached(s')
    ensures s' == s.(head := Head(s.head.ops + 1, To(slot)), next := s.next[slot := s.head.first],
                     owner := s.owner - {slot}, size := s.size - 1)
  {
    hide Reached;
    var b := PrepareFree(s, t, slot);
    var c := Go(b, t, FreeWon).(head := Head(s.head.ops + 1, To(slot)), owner := s.owner - {slot});
    s' := Go(c, t, Ready).(size := s.size - 1);
    assert FreeSwap(b, c, t) && FreeCount(c, s', t);
    Step(b, c, t);
    Step(c, s', t);
    assert s'.pcs == s.pcs;
  }

  /** Thread 1 takes slots 0 and 1 and gives slot 0 back, whatever thread 0 is holding. */
  lemma Churn(s: State) returns (s': State)
    requires Reached(s) && s.tags > 0
    requires s.head.first == To(0) && |s.next| == 3 && s.next[0] == To(1) && 1 in s.pcs && s.pcs[1] == Ready
    ensures Reached(s')
    ensures s'.tags == s.tags && s'.pcs == s.pcs && s'.head.first == To(0) && 1 in s'.owner
  {
    hide Reached, Next;
    var a := AllocAlone(s, 1);
    var b := AllocAlone(a, 1);
    s' := FreeAlone(b, 1, 0);
  }

  /** Without tags a stale swap succeeds as soon as the same slot is first again. */
  lemma StaleSwap(s: State, t: nat) returns (s': State)
    requires Reached(s) && s.tags == 1 && t in s.pcs && s.pcs[t].AllocNext?
    requires s.pcs[t].fh.first.To? && s.head.first == s.pcs[t].fh.first
    ensures Reached(s') && s'.tags == 1 && s'.head.first == s.pcs[t].next
    ensures s'.owner == s.owner[s.head.first.slot := t]
  {
    hide Reached;
    var slot := s.head.first.slot;
    s' := Go(s, t, AllocWon(slot)).(head := Head(s.head.ops + 1, s.pcs[t].next), owner := s.owner[slot := t]);
    assert AllocSwap(s, s', t);
    Step(s, s', t);
  }

  /**
   * With a single tag value the head is compared by slot alone, and a run ends with
   * a free chain that starts at a slot another thread owns.
   */
  lemma WithoutTagSlotIsShared() returns (s: State)
    ensures s.tags == 1 && Reached(s)
    ensures s.head.first.To? && s.head.first.slot in s.owner
  {
    var s0 := State(1, Head(0, To(0)), [To(1), To(2), Nil], 0, map[], map[0 := Ready, 1 := Ready]);
    assert ReachedIn(s0, 0);
    var s1 := Prepare(s0, 0);   // thread 0 stalls before its swap
    s := Stall(s1);
  }

  /** Thread 0 holds head 0 with link 1; its swap succeeds although the link is stale by then. */
  lemma Stall(s1: State) returns (s: State)
    requires Reached(s1) && s1.tags == 1 && |s1.next| == 3 && 0 in s1.pcs && 1 in s1.pcs
    requires s1.head.first == To(0) && s1.next[0] == To(1) && s1.pcs[1] == Ready
    requires s1.pcs[0].AllocNext? && s1.pcs[0].fh.first == To(0) && s1.pcs[0].next == To(1)
    ensures s.tags == 1 && Reached(s) && s.head.first == To(1) && 1 in s.owner
  {
    hide Reached, Next;
    var s2 := Churn(s1);
    s := StaleSwap(s2, 0);
  }
}
