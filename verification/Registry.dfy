/** Which worker owns an instrument: assigned once, to the worker with the fewest instruments. */
module Registry {

  const LOCATES: nat := 65536

  /** First worker with the least count. */
  function ArgMin(counts: seq<nat>): (t: nat)
    requires counts != []
    ensures t < |counts|
    ensures forall i :: 0 <= i < |counts| ==> counts[t] <= counts[i]
    ensures forall i :: 0 <= i < t ==> counts[t] < counts[i]
  {
    if |counts| == 1 then 0
    else
      var t := ArgMin(counts[..|counts| - 1]);
      assert forall i :: 0 <= i < |counts| - 1 ==> counts[..|counts| - 1][i] == counts[i];
      if counts[|counts| - 1] < counts[t] then |counts| - 1 else t
  }

  function Sum(counts: seq<nat>): nat {
    if counts == [] then 0 else Sum(counts[..|counts| - 1]) + counts[|counts| - 1]
  }

  /** Registration of one locate as a step on values. */
  function Owners(owner: map<nat, nat>, counts: seq<nat>, locate: nat): map<nat, nat>
    requires counts != []
  {
    if locate in owner then owner else owner[locate := ArgMin(counts)]
  }

  function Counts(owner: map<nat, nat>, counts: seq<nat>, locate: nat): seq<nat>
    requires counts != []
  {
    if locate in owner then counts else counts[ArgMin(counts) := counts[ArgMin(counts)] + 1]
  }

  /** The locates of worker w. */
  function Owned(owner: map<nat, nat>, w: nat): set<nat> {
    set l | l in owner && owner[l] == w
  }

  /** Each worker's count is the number of its locates; counts differ by at most one and sum to the owned locates. */
  ghost predicate Balanced(owner: map<nat, nat>, counts: seq<nat>) {
    && counts != []
    && (forall w :: 0 <= w < |counts| ==> counts[w] == |Owned(owner, w)|)
    && (forall i, j :: 0 <= i < |counts| && 0 <= j < |counts| ==> counts[i] <= counts[j] + 1)
    && Sum(counts) == |owner|
    && (forall l :: l in owner ==> owner[l] < |counts|)
  }

  lemma {:induction false} SumIncrement(counts: seq<nat>, t: nat)
    requires t < |counts|
    ensures Sum(counts[t := counts[t] + 1]) == Sum(counts) + 1
    decreases |counts|
  {
    var n, more := |counts| - 1, counts[t := counts[t] + 1];
    if t < n {
      SumIncrement(counts[..n], t);
      assert more[..n] == counts[..n][t := counts[..n][t] + 1];
    } else {
      assert more[..n] == counts[..n];
    }
  }

  lemma StepBalanced(owner: map<nat, nat>, counts: seq<nat>, l: nat)
    requires Balanced(owner, counts)
    ensures var owner', counts' := Owners(owner, counts, l), Counts(owner, counts, l);
      && Balanced(owner', counts') && |counts'| == |counts|
      && (forall k :: k in owner ==> k in owner' && owner'[k] == owner[k])
      && (forall k :: k in owner' <==> k in owner || k == l)
  {
    hide Sum;
    if l !in owner {
      var t, owner' := ArgMin(counts), Owners(owner, counts, l);
      SumIncrement(counts, t);
      assert owner'.Keys == owner.Keys + {l};
      forall w | 0 <= w < |counts|
        ensures Owned(owner', w) == if w == t then Owned(owner, w) + {l} else Owned(owner, w)
      {
      }
    }
  }

  /** A locate nobody owned goes to a worker than which none owns fewer; all other locates stay where they are. */
  lemma NewGoesToLeastLoaded(owner: map<nat, nat>, counts: seq<nat>, l: nat)
    requires Balanced(owner, counts) && l !in owner
    ensures l in Owners(owner, counts, l)
    ensures var w := Owners(owner, counts, l)[l];
      && w < |counts| && Owners(owner, counts, l) == owner[l := w]
      && forall v :: 0 <= v < |counts| ==> |Owned(owner, w)| <= |Owned(owner, v)|
  {
    hide Sum;
    forall v | 0 <= v < |counts| ensures counts[v] == |Owned(owner, v)| {
    }
  }

  /** Over every run of registrations owners never change, and the load stays balanced. */
  lemma {:induction false} RunBalanced(owner: map<nat, nat>, counts: seq<nat>, locates: seq<nat>)
    requires counts != [] && Balanced(owner, counts)
    ensures var r := RegisterAll(owner, counts, locates);
      && Balanced(r.0, r.1) && |r.1| == |counts|
      && (forall l :: l in owner ==> l in r.0 && r.0[l] == owner[l])
      && (forall l :: l in r.0 <==> l in owner || l in locates)
    decreases |locates|
  {
    hide Balanced, Owners, Counts;
    if locates != [] {
      StepBalanced(owner, counts, locates[0]);
      RunBalanced(Owners(owner, counts, locates[0]), Counts(owner, counts, locates[0]), locates[1..]);
    }
  }

  function RegisterAll(owner: map<nat, nat>, counts: seq<nat>, locates: seq<nat>): (map<nat, nat>, seq<nat>)
    requires counts != []
    decreases |locates|
  {
    if locates == [] then (owner, counts)
    else RegisterAll(Owners(owner, counts, locates[0]), Counts(owner, counts, locates[0]), locates[1..])
  }

  /** From zero counts: any two workers own numbers of instruments that differ by at most one. */
  lemma FromZero(workers: nat, locates: seq<nat>)
    requires workers > 0
    ensures var r := RegisterAll(map[], seq(workers, _ => 0), locates);
      && Balanced(r.0, r.1) && |r.1| == workers
      && (forall l :: l in r.0 <==> l in locates) && (forall l :: l in r.0 ==> r.0[l] < workers)
      && forall v, w :: 0 <= v < workers && 0 <= w < workers ==> |Owned(r.0, v)| <= |Owned(r.0, w)| + 1
  {
    ZeroSum(workers);
    NoneOwned(workers);
    RunBalanced(map[], seq(workers, _ => 0), locates);
    OwnersDiffer(RegisterAll(map[], seq(workers, _ => 0), locates).0, RegisterAll(map[], seq(workers, _ => 0), locates).1);
  }

  lemma NoneOwned(workers: nat)
    ensures forall w :: 0 <= w < workers ==> |Owned(map[], w)| == 0
  {
  }

  lemma OwnersDiffer(owner: map<nat, nat>, counts: seq<nat>)
    requires Balanced(owner, counts)
    ensures forall v, w :: 0 <= v < |counts| && 0 <= w < |counts| ==> |Owned(owner, v)| <= |Owned(owner, w)| + 1
  {
    hide Sum;
    forall v, w | 0 <= v < |counts| && 0 <= w < |counts| ensures |Owned(owner, v)| <= |Owned(owner, w)| + 1 {
      assert counts[v] == |Owned(owner, v)| && counts[w] == |Owned(owner, w)|;
    }
  }

  lemma {:induction false} ZeroSum(n: nat)
    ensures Sum(seq(n, _ => 0)) == 0
  {
    if n > 0 {
      ZeroSum(n - 1);
      assert seq(n, _ => 0)[..n - 1] == seq(n - 1, _ => 0);
    }
  }

  lemma OwnerInRange(owner: map<nat, nat>, counts: seq<nat>, l: nat)
    requires Balanced(owner, counts) && l in owner
    ensures owner[l] < |counts|
  {
  }

  class OwnerTable {
    const owner: array<int>          // -1 is "none"
    const registered: array<nat>

    ghost predicate Valid()
      reads this, owner, registered
    {
      && owner.Length == LOCATES && registered.Length > 0
      && Balanced(OwnerMap(), registered[..])
      && forall l :: 0 <= l < LOCATES ==> -1 <= owner[l]
    }

    ghost function OwnerMap(): map<nat, nat>
      reads this, owner
    {
      map l: nat | l < owner.Length && owner[l] >= 0 :: owner[l]
    }

    constructor (workers: nat)
      requires workers > 0
      ensures Valid() && OwnerMap() == map[] && registered.Length == workers && fresh(owner) && fresh(registered)
    {
      owner := new int[LOCATES](_ => -1);
      registered := new nat[workers](_ => 0);
      new;
      assert registered[..] == seq(workers, _ => 0);
      ZeroSum(workers);
      NoneOwned(workers);
    }

    /** The owner of a locate; an unowned one goes to the worker with the fewest. */
    method LookupOrRegister(locate: nat) returns (w: nat)
      requires Valid() && locate < LOCATES
      modifies owner, registered
      ensures Valid()
      ensures OwnerMap() == Owners(old(OwnerMap()), old(registered[..]), locate)
      ensures registered[..] == Counts(old(OwnerMap()), old(registered[..]), locate)
      ensures locate in old(OwnerMap()) ==> OwnerMap() == old(OwnerMap()) && registered[..] == old(registered[..])
      ensures locate !in old(OwnerMap()) ==>
        && OwnerMap() == old(OwnerMap())[locate := w]
        && w < registered.Length && registered[..] == old(registered[..])[w := old(registered[..])[w] + 1]
        && forall v :: 0 <= v < registered.Length ==> |Owned(old(OwnerMap()), w)| <= |Owned(old(OwnerMap()), v)|
      ensures locate in OwnerMap() && w == OwnerMap()[locate] < registered.Length
    {
      hide Balanced, Sum;
      var cur := owner[locate];
      if cur != -1 {
        OwnerInRange(OwnerMap(), registered[..], locate);
        return cur;
      }
      ghost var m, counts := OwnerMap(), registered[..];
      var target, least := 0, registered[0];
      for i := 1 to registered.Length
        invariant target < i && least == registered[target]
        invariant forall k :: 0 <= k < i ==> least <= registered[k]
        invariant forall k :: 0 <= k < target ==> least < registered[k]
      {
        if registered[i] < least { target, least := i, registered[i]; }
      }
      assert target == ArgMin(counts);
      StepBalanced(m, counts, locate);
      NewGoesToLeastLoaded(m, counts, locate);
      owner[locate] := target;
      registered[target] := registered[target] + 1;
      assert OwnerMap() == m[locate := target];
      assert registered[..] == counts[target := counts[target] + 1];
      return target;
    }
  }
}
