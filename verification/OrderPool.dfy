/**
 * The lock-free free stack of the order pool, under every interleaving of any
 * number of threads. One step is one atomic load, one link read or write, one
 * compare-and-swap, or one counter update. The stack head carries a tag that every
 * successful swap increments; the tag has finitely many values (2^32 in the source).
 */
module OrderPool {
  import Laps

  datatype Link = Nil | To(slot: nat)

  /** The head word. ops counts successful swaps; only ops % tags is stored as the tag. */
  datatype Head = Head(ops: nat, first: Link)

  datatype Pc =
    | Ready                              // outside a call
    | AllocLoaded(fh: Head)              // allocate holds a copy of the head
    | AllocNext(fh: Head, next: Link)    // ... and has read the link of its first slot
    | AllocWon(slot: nat)                // the swap succeeded, the usage counter is still to come
    | FreeLoaded(slot: nat, fh: Head)    // deallocate holds a copy of the head
    | FreeLinked(slot: nat, fh: Head)    // ... and has linked its slot to it
    | FreeWon                            // the swap succeeded, the usage counter is still to come

  datatype State = State(tags: nat, head: Head, next: seq<Link>, size: int,
                         owner: map<nat, nat>, pcs: map<nat, Pc>)

  ghost predicate Init(s: State) {
    && s.tags > 0 && |s.next| > 0
    && s.head == Head(0, To(0)) && s.size == 0 && s.owner == map[]
    && (forall i :: 0 <= i < |s.next| ==> s.next[i] == if i + 1 < |s.next| then To(i + 1) else Nil)
    && (forall t :: t in s.pcs ==> s.pcs[t] == Ready)
  }

  /** The comparison of the swap: stored tag and first slot. */
  predicate Matches(s: State, fh: Head)
    requires s.tags > 0
  {
    s.head.ops % s.tags == fh.ops % s.tags && s.head.first == fh.first
  }

  function Go(s: State, t: nat, pc: Pc): State {
    s.(pcs := s.pcs[t := pc])
  }

  // ---- steps of thread t ----

  predicate AllocLoad(s: State, s': State, t: nat) {
    t in s.pcs && s.pcs[t] == Ready && s' == Go(s, t, AllocLoaded(s.head))
  }

  /** allocate gives up: its copy of the head is empty. */
  predicate AllocNull(s: State, s': State, t: nat) {
    t in s.pcs && s.pcs[t].AllocLoaded? && s.pcs[t].fh.first == Nil && s' == Go(s, t, Ready)
  }

  predicate AllocRead(s: State, s': State, t: nat) {
    && t in s.pcs && s.pcs[t].AllocLoaded? && s.pcs[t].fh.first.To? && s.pcs[t].fh.first.slot < |s.next|
    && s' == Go(s, t, AllocNext(s.pcs[t].fh, s.next[s.pcs[t].fh.first.slot]))
  }

  predicate AllocSwap(s: State, s': State, t: nat)
    requires s.tags > 0
  {
    && t in s.pcs && s.pcs[t].AllocNext? && s.pcs[t].fh.first.To? && Matches(s, s.pcs[t].fh)
    && var slot := s.pcs[t].fh.first.slot;
       s' == Go(s, t, AllocWon(slot)).(head := Head(s.head.ops + 1, s.pcs[t].next), owner := s.owner[slot := t])
  }

  /** A failed swap, spurious failures included, reloads the head. */
  predicate AllocRetry(s: State, s': State, t: nat) {
    t in s.pcs && s.pcs[t].AllocNext? && s' == Go(s, t, AllocLoaded(s.head))
  }

  predicate AllocCount(s: State, s': State, t: nat) {
    t in s.pcs && s.pcs[t].AllocWon? && s' == Go(s, t, Ready).(size := s.size + 1)
  }

  /** deallocate(slot) by the thread that owns the slot. */
  predicate FreeLoad(s: State, s': State, t: nat, slot: nat) {
    && t in s.pcs && s.pcs[t] == Ready && slot in s.owner && s.owner[slot] == t
    && s' == Go(s, t, FreeLoaded(slot, s.head))
  }

  predicate FreeLink(s: State, s': State, t: nat) {
    && t in s.pcs && s.pcs[t].FreeLoaded? && s.pcs[t].slot < |s.next|
    && s' == Go(s, t, FreeLinked(s.pcs[t].slot, s.pcs[t].fh)).(next := s.next[s.pcs[t].slot := s.pcs[t].fh.first])
  }

  predicate FreeSwap(s: State, s': State, t: nat)
    requires s.tags > 0
  {
    && t in s.pcs && s.pcs[t].FreeLinked? && Matches(s, s.pcs[t].fh)
    && var slot := s.pcs[t].slot;
       s' == Go(s, t, FreeWon).(head := Head(s.head.ops + 1, To(slot)), owner := s.owner - {slot})
  }

  predicate FreeRetry(s: State, s': State, t: nat) {
    t in s.pcs && s.pcs[t].FreeLinked? && s' == Go(s, t, FreeLoaded(s.pcs[t].slot, s.head))
  }

  predicate FreeCount(s: State, s': State, t: nat) {
    t in s.pcs && s.pcs[t] == FreeWon && s' == Go(s, t, Ready).(size := s.size - 1)
  }

  /** An owned slot no call is working on may be handed to another thread. */
  predicate Transfer(s: State, s': State, t: nat, slot: nat, u: nat) {
    && t in s.pcs && u in s.pcs && s.pcs[t] == Ready && slot in s.owner && s.owner[slot] == t
    && s' == s.(owner := s.owner[slot := u])
  }

  ghost predicate Next(s: State, s': State, t: nat) {
    s.tags > 0 &&
    ( || AllocLoad(s, s', t) || AllocNull(s, s', t) || AllocRead(s, s', t) || AllocSwap(s, s', t)
      || AllocRetry(s, s', t) || AllocCount(s, s', t)
      || (exists slot :: FreeLoad(s, s', t, slot))
      || FreeLink(s, s', t) || FreeSwap(s, s', t) || FreeRetry(s, s', t) || FreeCount(s, s', t)
      || (exists slot, u :: Transfer(s, s', t, slot, u)))
  }

  /** The head copy a thread is holding. */
  function Held(pc: Pc): Link {
    if pc.AllocLoaded? || pc.AllocNext? || pc.FreeLoaded? || pc.FreeLinked? then To(pc.fh.ops) else Nil
  }

  /** No thread's copy of the head is a whole tag cycle old. */
  predicate Fresh(s: State) {
    forall t :: t in s.pcs && Held(s.pcs[t]).To? ==> s.head.ops < Held(s.pcs[t]).slot + s.tags
  }

  ghost predicate Run(tr: seq<State>, who: seq<nat>) {
    && |tr| == |who| + 1 && Init(tr[0])
    && (forall i :: 0 <= i < |who| ==> Next(tr[i], tr[i + 1], who[i]))
    && (forall i :: 0 <= i < |tr| ==> Fresh(tr[i]))
  }

  // ---- invariant ----

  /** free lists the slots reached from l by following links. */
  ghost predicate Chain(next: seq<Link>, l: Link, free: seq<nat>)
    decreases |free|
  {
    if free == [] then l == Nil
    else l == To(free[0]) && free[0] < |next| && Chain(next, next[free[0]], free[1..])
  }

  ghost predicate Distinct(free: seq<nat>) {
    forall i, j :: 0 <= i < j < |free| ==> free[i] != free[j]
  }

  /** Every slot is on the free chain or has one owner, never both. */
  ghost predicate Partition(s: State, free: seq<nat>) {
    && Distinct(free) && Chain(s.next, s.head.first, free)
    && (forall i :: 0 <= i < |s.next| ==> (i in free <==> i !in s.owner))
    && (forall i :: i in s.owner ==> i < |s.next| && s.owner[i] in s.pcs)
    && (forall i :: i in free ==> i < |s.next|)
  }

  /** A head copy is the current head unless a swap has happened since. */
  predicate CopyOk(s: State, fh: Head) {
    && fh.ops <= s.head.ops
    && (fh.ops == s.head.ops ==> fh == s.head)
    && (fh.first.To? ==> fh.first.slot < |s.next|)
  }

  predicate Owns(s: State, t: nat, slot: nat) {
    slot in s.owner && s.owner[slot] == t
  }

  ghost predicate PcOk(s: State, t: nat)
    requires t in s.pcs
  {
    match s.pcs[t]
    case Ready => true
    case AllocLoaded(fh) => CopyOk(s, fh)
    case AllocNext(fh, n) =>
      && CopyOk(s, fh) && fh.first.To?
      && (fh.ops == s.head.ops ==> s.next[fh.first.slot] == n)
    case AllocWon(slot) => Owns(s, t, slot)
    case FreeLoaded(slot, fh) => CopyOk(s, fh) && Owns(s, t, slot)
    case FreeLinked(slot, fh) => CopyOk(s, fh) && Owns(s, t, slot) && slot < |s.next| && s.next[slot] == fh.first
    case FreeWon => true
  }

  function Winners(s: State): set<nat> {
    set t | t in s.pcs && s.pcs[t].AllocWon?
  }

  function Returners(s: State): set<nat> {
    set t | t in s.pcs && s.pcs[t].FreeWon?
  }

  ghost predicate Inv(s: State, free: seq<nat>) {
    && s.tags > 0
    && Partition(s, free)
    && (forall t :: t in s.pcs ==> PcOk(s, t))
    && s.size == |s.owner| - |Winners(s)| + |Returners(s)|
  }

  // ---- chains ----

  lemma {:induction false} ChainFrame(next: seq<Link>, i: nat, l': Link, l: Link, free: seq<nat>)
    requires i < |next| && Chain(next, l, free) && i !in free
    ensures Chain(next[i := l'], l, free)
    decreases |free|
  {
    if free != [] {
      ChainFrame(next, i, l', next[free[0]], free[1..]);
    }
  }

  lemma {:induction false} InitChain(next: seq<Link>, i: nat) returns (free: seq<nat>)
    requires i < |next|
    requires forall k :: 0 <= k < |next| ==> next[k] == if k + 1 < |next| then To(k + 1) else Nil
    ensures Chain(next, To(i), free) && Distinct(free)
    ensures forall k :: k in free <==> i <= k < |next|
    decreases |next| - i
  {
    if i + 1 == |next| {
      free := [i];
      assert Chain(next, Nil, []);
    } else {
      var rest := InitChain(next, i + 1);
      free := [i] + rest;
      assert free[1..] == rest && i !in rest;
      assert forall j :: 0 < j < |free| ==> free[j] == rest[j - 1] && free[j] in rest;
    }
  }

  lemma InitInv(s: State) returns (free: seq<nat>)
    requires Init(s)
    ensures Inv(s, free)
  {
    free := InitChain(s.next, 0);
    assert Winners(s) == {} && Returners(s) == {} && |s.owner| == 0;
    assert Partition(s, free);
    forall t | t in s.pcs ensures PcOk(s, t) { assert s.pcs[t] == Ready; }
  }

  // ---- counting winners ----

  lemma GoCounts(s: State, t: nat, pc: Pc)
    requires t in s.pcs
    ensures var s', was := Go(s, t, pc), s.pcs[t];
      && |Winners(s')| - |Winners(s)| == (if pc.AllocWon? then 1 else 0) - (if was.AllocWon? then 1 else 0)
      && |Returners(s')| - |Returners(s)| == (if pc.FreeWon? then 1 else 0) - (if was.FreeWon? then 1 else 0)
  {
    var s' := Go(s, t, pc);
    SizesDiffer(Winners(s), Winners(s'), t);
    SizesDiffer(Returners(s), Returners(s'), t);
  }

  lemma SizesDiffer(a: set<nat>, b: set<nat>, t: nat)
    requires a - {t} == b - {t}
    ensures |b| - |a| == (if t in b then 1 else 0) - (if t in a then 1 else 0)
  {
    var c := a - {t};
    assert a == if t in a then c + {t} else c;
    assert b == if t in b then c + {t} else c;
  }

  // ---- a fresh match is the current head ----

  lemma MatchIsCurrent(s: State, fh: Head)
    requires s.tags > 0 && CopyOk(s, fh) && s.head.ops < fh.ops + s.tags && Matches(s, fh)
    ensures fh == s.head
  {
    if fh.ops < s.head.ops {
      Laps.CellsDiffer(s.tags, fh.ops, s.head.ops);
    }
  }

  // ---- every step keeps the invariant ----

  lemma AllocSwapKeeps(s: State, s': State, t: nat, free: seq<nat>) returns (free': seq<nat>)
    requires Inv(s, free) && Fresh(s) && AllocSwap(s, s', t)
    ensures Inv(s', free')
    ensures s.pcs[t].fh.first.slot !in s.owner
  {
    var fh, slot := s.pcs[t].fh, s.pcs[t].fh.first.slot;
    assert PcOk(s, t) && Held(s.pcs[t]) == To(fh.ops);
    MatchIsCurrent(s, fh);
    free' := free[1..];
    assert free == [slot] + free';
    GoCounts(s, t, AllocWon(slot));
    assert Partition(s', free') by {
      assert forall i :: i in free <==> i == slot || i in free';
      assert slot !in free';
    }
    assert s'.owner.Keys == s.owner.Keys + {slot};
    forall u | u in s'.pcs ensures PcOk(s', u) {
      assert PcOk(s, u);
    }
    assert s'.size == |s'.owner| - |Winners(s')| + |Returners(s')| by {
      assert Winners(s') == Winners(Go(s, t, AllocWon(slot))) && Returners(s') == Returners(Go(s, t, AllocWon(slot)));
    }
  }

  lemma FreeSwapKeeps(s: State, s': State, t: nat, free: seq<nat>) returns (free': seq<nat>)
    requires Inv(s, free) && Fresh(s) && FreeSwap(s, s', t)
    ensures Inv(s', free')
  {
    var fh, slot := s.pcs[t].fh, s.pcs[t].slot;
    assert PcOk(s, t) && Held(s.pcs[t]) == To(fh.ops);
    MatchIsCurrent(s, fh);
    free' := [slot] + free;
    GoCounts(s, t, FreeWon);
    assert s'.owner.Keys == s.owner.Keys - {slot};
    assert Partition(s', free') by {
      assert free'[1..] == free;
      assert forall i :: i in free' <==> i == slot || i in free;
    }
    forall u | u in s'.pcs ensures PcOk(s', u) {
      assert PcOk(s, u);
    }
    assert Winners(s') == Winners(Go(s, t, FreeWon)) && Returners(s') == Returners(Go(s, t, FreeWon));
  }

  lemma FreeLinkKeeps(s: State, s': State, t: nat, free: seq<nat>)
    requires Inv(s, free) && FreeLink(s, s', t)
    ensures Inv(s', free)
  {
    var slot, fh := s.pcs[t].slot, s.pcs[t].fh;
    assert PcOk(s, t);
    ChainFrame(s.next, slot, fh.first, s.head.first, free);
    GoCounts(s, t, FreeLinked(slot, fh));
    assert Winners(s') == Winners(Go(s, t, FreeLinked(slot, fh))) && Returners(s') == Returners(Go(s, t, FreeLinked(slot, fh)));
    forall u | u in s'.pcs ensures PcOk(s', u) {
      assert PcOk(s, u);
      if u != t && s.pcs[u].AllocNext? && s.pcs[u].fh.ops == s.head.ops {
        assert s.pcs[u].fh.first.slot == free[0];
      }
    }
  }

  /** Steps that only move the thread's own program counter. */
  lemma LocalKeeps(s: State, s': State, t: nat, pc: Pc, free: seq<nat>)
    requires Inv(s, free) && t in s.pcs && s' == Go(s, t, pc)
    requires !pc.AllocWon? && !s.pcs[t].AllocWon? && !pc.FreeWon? && !s.pcs[t].FreeWon? && PcOk(s', t)
    ensures Inv(s', free)
  {
    GoCounts(s, t, pc);
    forall u | u in s'.pcs ensures PcOk(s', u) {
      if u != t { assert PcOk(s, u); }
    }
  }

  lemma CountKeeps(s: State, s': State, t: nat, free: seq<nat>)
    requires Inv(s, free) && (AllocCount(s, s', t) || FreeCount(s, s', t))
    ensures Inv(s', free)
  {
    GoCounts(s, t, Ready);
    assert Winners(s') == Winners(Go(s, t, Ready)) && Returners(s') == Returners(Go(s, t, Ready));
    forall u | u in s'.pcs ensures PcOk(s', u) {
      assert PcOk(s, u);
    }
  }

  lemma TransferKeeps(s: State, s': State, t: nat, slot: nat, u: nat, free: seq<nat>)
    requires Inv(s, free) && Transfer(s, s', t, slot, u)
    ensures Inv(s', free)
  {
    assert s'.owner.Keys == s.owner.Keys;
    assert Winners(s') == Winners(s) && Returners(s') == Returners(s);
    forall v | v in s'.pcs ensures PcOk(s', v) {
      assert PcOk(s, v);
    }
  }

  lemma NextKeeps(s: State, s': State, t: nat, free: seq<nat>) returns (free': seq<nat>)
    requires Inv(s, free) && Fresh(s) && Next(s, s', t)
    ensures Inv(s', free')
  {
    free' := free;
    assert t in s.pcs && PcOk(s, t);
    assert CopyOk(s, s.head) by {
      if free != [] { assert free[0] in free; }
    }
    if AllocSwap(s, s', t) { free' := AllocSwapKeeps(s, s', t, free); }
    else if FreeSwap(s, s', t) { free' := FreeSwapKeeps(s, s', t, free); }
    else if FreeLink(s, s', t) { FreeLinkKeeps(s, s', t, free); }
    else if AllocCount(s, s', t) || FreeCount(s, s', t) { CountKeeps(s, s', t, free); }
    else if exists slot, u :: Transfer(s, s', t, slot, u) {
      var slot, u :| Transfer(s, s', t, slot, u);
      TransferKeeps(s, s', t, slot, u, free);
    }
    else { LocalKeeps(s, s', t, s'.pcs[t], free); }
  }

  lemma {:induction false} RunInv(tr: seq<State>, who: seq<nat>, i: nat) returns (free: seq<nat>)
    requires Run(tr, who) && i < |tr|
    ensures Inv(tr[i], free)
  {
    if i == 0 {
      free := InitInv(tr[0]);
    } else {
      var before := RunInv(tr, who, i - 1);
      free := NextKeeps(tr[i - 1], tr[i], who[i - 1], before);
    }
  }

  // ---- what every run guarantees ----

  /** In every reachable state each slot is on one acyclic free chain or has exactly one owner. */
  lemma NoSlotLostOrShared(tr: seq<State>, who: seq<nat>, i: nat)
    requires Run(tr, who) && i < |tr|
    ensures exists free :: Partition(tr[i], free)
  {
    var free := RunInv(tr, who, i);
  }

  /** A successful allocation hands out a slot nobody owned. */
  lemma NeverHandedOutTwice(tr: seq<State>, who: seq<nat>, i: nat)
    requires Run(tr, who) && i < |who| && AllocSwap(tr[i], tr[i + 1], who[i])
    ensures var slot := tr[i + 1].pcs[who[i]].slot;
      slot !in tr[i].owner && tr[i + 1].owner == tr[i].owner[slot := who[i]]
  {
    var free := RunInv(tr, who, i);
    var free' := AllocSwapKeeps(tr[i], tr[i + 1], who[i], free);
  }

  /** When no call is between its swap and its count, size() is the number of owned slots. */
  lemma SizeCountsOwned(tr: seq<State>, who: seq<nat>, i: nat)
    requires Run(tr, who) && i < |tr|
    requires forall t :: t in tr[i].pcs ==> !tr[i].pcs[t].AllocWon? && !tr[i].pcs[t].FreeWon?
    ensures tr[i].size == |tr[i].owner| <= |tr[i].next|
  {
    var free := RunInv(tr, who, i);
    var s := tr[i];
    assert Winners(s) == {} && Returners(s) == {};
    var all := Upto(|s.next|);
    UptoSize(|s.next|);
    assert s.owner.Keys <= all;
    Subset(s.owner.Keys, all);
  }

  function Upto(n: nat): set<nat> {
    if n == 0 then {} else Upto(n - 1) + {n - 1}
  }

  lemma {:induction false} UptoSize(n: nat)
    ensures |Upto(n)| == n
    ensures forall k: nat :: k in Upto(n) <==> k < n
  {
    if n > 0 { UptoSize(n - 1); }
  }

  lemma Subset(a: set<nat>, b: set<nat>)
    requires a <= b
    ensures |a| <= |b|
  {
    assert b == a + (b - a);
  }

  /** A thread inside an allocation holds a head that was current at some moment of the call. */
  lemma {:induction false} LoadedDuringCall(tr: seq<State>, who: seq<nat>, t: nat, j: nat, k: nat) returns (m: nat)
    requires Run(tr, who) && j < k < |tr|
    requires forall i :: 0 <= i < |tr| ==> t in tr[i].pcs
    requires tr[j].pcs[t] == Ready && tr[k].pcs[t].AllocLoaded?
    requires forall i :: j < i <= k ==> tr[i].pcs[t] != Ready
    ensures j <= m < k && tr[m].head == tr[k].pcs[t].fh
    decreases k
  {
    hide Init, Fresh, Next;
    var a, b := tr[k - 1], tr[k];
    assert Next(a, b, who[k - 1]);
    LoadStep(a, b, who[k - 1], t);
    if b.pcs[t] == a.pcs[t] {
      m := LoadedDuringCall(tr, who, t, j, k - 1);
    } else {
      m := k - 1;
    }
  }

  /** A call comes to hold a head copy only by loading the current head. */
  lemma LoadStep(a: State, b: State, u: nat, t: nat)
    requires Next(a, b, u) && t in a.pcs && t in b.pcs && b.pcs[t].AllocLoaded?
    ensures b.pcs[t] == a.pcs[t] || b.pcs[t].fh == a.head
  {
    hide Matches;
  }

  /** allocate returns null only if at some moment of the call every slot was owned. */
  lemma NullOnlyIfEmpty(tr: seq<State>, who: seq<nat>, t: nat, j: nat, k: nat)
    requires Run(tr, who) && j < k < |who|
    requires t in tr[j].pcs && tr[j].pcs[t] == Ready
    requires forall i :: j < i <= k && t in tr[i].pcs ==> tr[i].pcs[t] != Ready
    requires who[k] == t && AllocNull(tr[k], tr[k + 1], t)
    ensures exists m :: j <= m < k && forall slot :: 0 <= slot < |tr[m].next| ==> slot in tr[m].owner
  {
    hide Init, Next, Fresh, Inv;
    forall i | 0 <= i < |tr| ensures t in tr[i].pcs {
      SameThreads(tr, who, i);
      SameThreads(tr, who, j);
    }
    var m := LoadedDuringCall(tr, who, t, j, k);
    var free := RunInv(tr, who, m);
    NoneFree(tr[m], free);
  }

  lemma NoneFree(s: State, free: seq<nat>)
    requires Inv(s, free) && s.head.first == Nil
    ensures forall slot :: 0 <= slot < |s.next| ==> slot in s.owner
  {
    assert free == [];
  }

  /** No step changes which threads there are. */
  lemma {:induction false} SameThreads(tr: seq<State>, who: seq<nat>, i: nat)
    requires Run(tr, who) && i < |tr|
    ensures tr[i].pcs.Keys == tr[0].pcs.Keys
  {
    if i > 0 {
      SameThreads(tr, who, i - 1);
      assert Next(tr[i - 1], tr[i], who[i - 1]);
    }
  }
}
