/**
 * The order index: a hash map from order references to order slots. Buckets are
 * chains through one node array, unused nodes form a free list in the same array,
 * and a bucket that reaches eight nodes moves to an ordered overflow map for good.
 * Sequential operation; see the README for what concurrency adds.
 */
module OrderMap {
  import Bytes

  const NIL: nat := 0xFFFF_FFFF            // UINT32_MAX
  const WORD: nat := 0x1_0000_0000_0000_0000
  const TAGS: nat := 0x1_0000_0000
  const GOLDEN: nat := 0x9E37_79B9_7F4A_7C15
  const TREEIFY_THRESHOLD: nat := 8

  datatype Option<T> = None | Some(value: T)

  /** order is the slot the reference stands for. */
  datatype Node = Node(ref: nat, order: nat, next: nat, bucket: nat)

  // ---- hashing ----

  /** Multiply by the golden constant and keep as many high bits as n = 2^k buckets need. */
  function Hash(n: nat, ref: nat): nat
    requires 0 < n
  {
    var div := WORD / n;
    if div == 0 then 0 else (ref * GOLDEN % WORD) / div
  }

  /** With a divisor of 2^64 buckets every hash is a bucket. */
  lemma HashBound(n: nat, div: nat, ref: nat)
    requires n * div == WORD
    ensures 0 < n && Hash(n, ref) < n
  {
    var x := ref * GOLDEN % WORD;
    Bytes.ModUnique(WORD, n, div, 0);
    if x / div >= n {
      Bytes.Distribute(div, x / div, n);
      if x / div > n { Bytes.AtLeast(div, x / div - n); }
    }
  }

  // ---- one chain ----

  function At(ns: seq<nat>, i: nat): nat {
    if i < |ns| then ns[i] else NIL
  }

  ghost predicate Distinct(ns: seq<nat>) {
    forall i, j :: 0 <= i < j < |ns| ==> ns[i] != ns[j]
  }

  /** The link of the node at position i leads to the node at position i + 1. */
  ghost predicate Joined(nodes: seq<Node>, ns: seq<nat>, i: nat)
    requires i < |ns|
  {
    ns[i] < |nodes| && nodes[ns[i]].next == At(ns, i + 1)
  }

  /** Following the links from first visits exactly ns. */
  ghost predicate Path(nodes: seq<Node>, first: nat, ns: seq<nat>) {
    && first == At(ns, 0)
    && forall i :: 0 <= i < |ns| ==> Joined(nodes, ns, i)
  }

  /** ns lists, once each, the nodes that belong to list id. */
  ghost predicate Members(owner: seq<nat>, id: nat, ns: seq<nat>) {
    && (forall i :: 0 <= i < |ns| ==> ns[i] < |owner| && owner[ns[i]] == id)
    && Distinct(ns)
    && (forall n :: 0 <= n < |owner| && owner[n] == id ==> n in ns)
  }

  lemma PathFrame(nodes: seq<Node>, nodes': seq<Node>, first: nat, ns: seq<nat>)
    requires Path(nodes, first, ns) && |nodes'| == |nodes|
    requires forall i :: 0 <= i < |ns| && ns[i] < |nodes| ==> nodes'[ns[i]].next == nodes[ns[i]].next
    ensures Path(nodes', first, ns)
  {
    forall i | 0 <= i < |ns| ensures Joined(nodes', ns, i) {
      assert Joined(nodes, ns, i);
    }
  }

  lemma PathPush(nodes: seq<Node>, first: nat, ns: seq<nat>, idx: nat)
    requires Path(nodes, first, ns) && idx < |nodes| && nodes[idx].next == first
    ensures Path(nodes, idx, [idx] + ns)
  {
    var all := [idx] + ns;
    forall i | 0 <= i < |all| ensures Joined(nodes, all, i) {
      if i > 0 { assert Joined(nodes, ns, i - 1); }
    }
  }

  lemma MembersPush(owner: seq<nat>, id: nat, ns: seq<nat>, idx: nat)
    requires Members(owner, id, ns) && idx < |owner| && owner[idx] != id
    ensures Members(owner[idx := id], id, [idx] + ns)
  {
    var all, owner' := [idx] + ns, owner[idx := id];
    forall n | 0 <= n < |owner'| && owner'[n] == id ensures n in all {
      if n == idx { assert all[0] == n; } else { assert n in ns; }
    }
  }

  /** A node that moves between two other lists. */
  lemma MembersFrame(owner: seq<nat>, id: nat, ns: seq<nat>, n: nat, other: nat)
    requires Members(owner, id, ns) && n < |owner| && owner[n] != id && other != id
    ensures Members(owner[n := other], id, ns)
  {
  }

  function Without(s: seq<nat>, p: nat): seq<nat>
    requires p < |s|
  {
    s[..p] + s[p + 1..]
  }

  function Skip(i: nat, p: nat): nat {
    if i < p then i else i + 1
  }

  lemma WithoutFacts(s: seq<nat>, p: nat)
    requires p < |s|
    ensures |Without(s, p)| == |s| - 1
    ensures forall i :: 0 <= i < |s| - 1 ==> Without(s, p)[i] == s[Skip(i, p)]
  {
  }

  lemma WithoutKeeps(s: seq<nat>, p: nat, n: nat)
    requires p < |s| && n in s && n != s[p]
    ensures n in Without(s, p)
  {
    var i :| 0 <= i < |s| && s[i] == n;
    assert Without(s, p)[if i < p then i else i - 1] == n;
  }

  /** Cutting out position p: its predecessor, or the list head, takes over its link. */
  lemma PathCut(nodes: seq<Node>, nodes': seq<Node>, first: nat, ns: seq<nat>, p: nat)
    requires Path(nodes, first, ns) && |nodes'| == |nodes| && p < |ns| && ns[p] < |nodes|
    requires p > 0 ==> ns[p - 1] < |nodes| && nodes'[ns[p - 1]].next == nodes[ns[p]].next
    requires forall j :: 0 <= j < |ns| && j != p && j + 1 != p && ns[j] < |nodes| ==> nodes'[ns[j]].next == nodes[ns[j]].next
    ensures Path(nodes', if p == 0 then nodes[ns[0]].next else first, Without(ns, p))
  {
    var rest := Without(ns, p);
    WithoutFacts(ns, p);
    assert Joined(nodes, ns, p);
    forall i | 0 <= i < |rest| ensures Joined(nodes', rest, i) {
      assert Joined(nodes, ns, Skip(i, p));
      AtWithout(ns, p, i + 1);
    }
    AtWithout(ns, p, 0);
  }

  lemma AtWithout(ns: seq<nat>, p: nat, i: nat)
    requires p < |ns|
    ensures At(Without(ns, p), i) == At(ns, Skip(i, p))
  {
  }

  lemma MembersCut(owner: seq<nat>, id: nat, ns: seq<nat>, p: nat, other: nat)
    requires Members(owner, id, ns) && p < |ns| && other != id
    ensures Members(owner[ns[p] := other], id, Without(ns, p))
  {
    var rest, owner' := Without(ns, p), owner[ns[p] := other];
    WithoutFacts(ns, p);
    hide Without;
    forall i | 0 <= i < |rest| ensures rest[i] < |owner'| && owner'[rest[i]] == id {
      assert rest[i] == ns[Skip(i, p)];
    }
    forall n | 0 <= n < |owner'| && owner'[n] == id ensures n in rest {
      WithoutKeeps(ns, p, n);
    }
  }

  // ---- what one bucket answers ----

  /** The chain ns holds exactly the keys of contents that hash to b, each once. */
  ghost predicate Chained(nodes: seq<Node>, ns: seq<nat>, mine: map<nat, nat>) {
    && (forall i :: 0 <= i < |ns| ==> ns[i] < |nodes| && Entry(nodes[ns[i]], mine))
    && (forall i, j :: 0 <= i < j < |ns| ==> ns[i] < |nodes| && ns[j] < |nodes| && nodes[ns[i]].ref != nodes[ns[j]].ref)
    && (forall k :: k in mine ==> exists i :: 0 <= i < |ns| && ns[i] < |nodes| && nodes[ns[i]].ref == k)
  }

  predicate Entry(n: Node, mine: map<nat, nat>) {
    n.ref in mine && mine[n.ref] == n.order
  }

  lemma ChainedPush(nodes: seq<Node>, nodes': seq<Node>, ns: seq<nat>, mine: map<nat, nat>, idx: nat, ref: nat)
    requires |nodes'| == |nodes| && idx < |nodes|
    requires Chained(nodes, ns, mine) && ref !in mine && nodes'[idx].ref == ref
    requires forall i :: 0 <= i < |ns| && ns[i] < |nodes| ==> nodes'[ns[i]].ref == nodes[ns[i]].ref && nodes'[ns[i]].order == nodes[ns[i]].order
    ensures Chained(nodes', [idx] + ns, mine[ref := nodes'[idx].order])
  {
    var all, mine' := [idx] + ns, mine[ref := nodes'[idx].order];
    assert forall i :: 0 < i < |all| ==> all[i] == ns[i - 1];
    forall k | k in mine' ensures exists i :: 0 <= i < |all| && nodes'[all[i]].ref == k {
      if k == ref {
        assert nodes'[all[0]].ref == k;
      } else {
        var i :| 0 <= i < |ns| && nodes[ns[i]].ref == k;
        assert nodes'[all[i + 1]].ref == k;
      }
    }
  }

  lemma ChainedCut(nodes: seq<Node>, nodes': seq<Node>, ns: seq<nat>, mine: map<nat, nat>, p: nat)
    requires |nodes'| == |nodes| && p < |ns| && ns[p] < |nodes|
    requires Chained(nodes, ns, mine)
    requires forall i :: 0 <= i < |ns| && ns[i] < |nodes| ==> nodes'[ns[i]].ref == nodes[ns[i]].ref && nodes'[ns[i]].order == nodes[ns[i]].order
    ensures Chained(nodes', Without(ns, p), mine - {nodes[ns[p]].ref})
  {
    var rest, mine' := Without(ns, p), mine - {nodes[ns[p]].ref};
    WithoutFacts(ns, p);
    hide Without;
    forall i | 0 <= i < |rest| ensures rest[i] < |nodes'| && Entry(nodes'[rest[i]], mine') {
      var j := Skip(i, p);
      assert rest[i] == ns[j] && Entry(nodes[ns[j]], mine);
    }
    forall i, j | 0 <= i < j < |rest| ensures nodes'[rest[i]].ref != nodes'[rest[j]].ref {
      assert rest[i] == ns[Skip(i, p)] && rest[j] == ns[Skip(j, p)];
    }
    forall k | k in mine' ensures exists i :: 0 <= i < |rest| && rest[i] < |nodes'| && nodes'[rest[i]].ref == k {
      var i :| 0 <= i < |ns| && ns[i] < |nodes| && nodes[ns[i]].ref == k;
      var j := if i < p then i else i - 1;
      assert rest[j] == ns[i] && nodes'[rest[j]].ref == k;
    }
  }

  // ---- the whole map ----

  /** The contents of all arrays and fields at one moment. */
  datatype Image = Image(nodes: seq<Node>, buckets: seq<nat>, lens: seq<nat>, states: seq<nat>,
                         first: nat, overflow: map<nat, nat>, size: nat)

  /** The abstract side: chain and entries of each bucket, free list, list of each node, and the map. */
  datatype View = View(cs: seq<seq<nat>>, parts: seq<map<nat, nat>>, free: seq<nat>, owner: seq<nat>,
                       contents: map<nat, nat>)

  ghost predicate Shape(m: Image, v: View) {
    && 0 < |m.buckets| && |m.nodes| <= NIL
    && |m.buckets| == |m.lens| == |m.states| == |v.cs| == |v.parts|
    && |v.owner| == |m.nodes|
    && forall k :: Hash(|m.buckets|, k) < |m.buckets|
  }

  /** The nodes of bucket b: its chain, all marked with b. */
  ghost predicate ChainOk(m: Image, v: View, b: nat)
    requires Shape(m, v) && b < |v.cs|
  {
    && Path(m.nodes, m.buckets[b], v.cs[b]) && Members(v.owner, b, v.cs[b])
    && forall i :: 0 <= i < |v.cs[b]| ==> m.nodes[v.cs[b][i]].bucket == b
  }

  /** A bucket not yet moved (state 0) answers from its chain, a moved one (2) from the overflow map. */
  ghost predicate AnswerOk(m: Image, v: View, b: nat)
    requires Shape(m, v) && b < |v.cs|
  {
    && (m.states[b] == 0 || m.states[b] == 2)
    && (m.states[b] == 0 ==> m.lens[b] == |v.cs[b]| && Chained(m.nodes, v.cs[b], v.parts[b]))
    && (m.states[b] == 0 ==> forall k :: k in m.overflow ==> Hash(|m.buckets|, k) != b)
    && (m.states[b] == 2 ==> forall k :: Hash(|m.buckets|, k) == b ==> SameAt(m.overflow, v.parts[b], k))
  }

  predicate SameAt(a: map<nat, nat>, b: map<nat, nat>, k: nat) {
    (k in a <==> k in b) && (k in a ==> a[k] == b[k])
  }

  function Set(a: map<nat, nat>, k: nat, v: nat): map<nat, nat> {
    a[k := v]
  }

  /** The map is the union of the buckets' entries. */
  ghost predicate Agrees(n: nat, parts: seq<map<nat, nat>>, contents: map<nat, nat>)
    requires 0 < n && |parts| == n && forall k :: Hash(n, k) < n
  {
    && (forall k: nat :: SameAt(contents, parts[Hash(n, k)], k))
    && (forall b, k :: 0 <= b < n && k in parts[b] ==> Hash(n, k) == b)
  }

  ghost predicate Chains(m: Image, v: View)
    requires Shape(m, v)
  {
    && Path(m.nodes, m.first, v.free) && Members(v.owner, |v.cs|, v.free)
    && (forall b :: 0 <= b < |v.cs| ==> ChainOk(m, v, b))
    && (forall n :: 0 <= n < |v.owner| ==> v.owner[n] <= |v.cs|)
  }

  ghost predicate Answers(m: Image, v: View)
    requires Shape(m, v)
  {
    && m.size == |v.contents|
    && Agrees(|m.buckets|, v.parts, v.contents)
    && (forall b :: 0 <= b < |v.cs| ==> AnswerOk(m, v, b))
  }

  ghost predicate Inv(m: Image, v: View) {
    Shape(m, v) && Chains(m, v) && Answers(m, v)
  }

  /** The free list, or the chain of a bucket (orphaned in place once the bucket has moved to the tree). */
  function ListOf(v: View, c: nat): seq<nat> {
    if c < |v.cs| then v.cs[c] else v.free
  }

  /** No node is lost or shared: each is on exactly one list, once. */
  lemma NodesPartition(m: Image, v: View, n: nat)
    requires Inv(m, v) && n < |m.nodes|
    ensures v.owner[n] <= |v.cs|
    ensures forall c: nat :: c <= |v.cs| ==> Distinct(ListOf(v, c)) && (n in ListOf(v, c) <==> c == v.owner[n])
  {
    hide Hash, AnswerOk, Agrees;
    forall c: nat | c <= |v.cs|
      ensures Distinct(ListOf(v, c)) && (n in ListOf(v, c) <==> c == v.owner[n])
    {
      if c < |v.cs| { assert ChainOk(m, v, c); }
    }
  }

  lemma InChain(m: Image, v: View, b: nat)
    requires Shape(m, v) && b < |v.cs| && ChainOk(m, v, b)
    ensures forall i :: 0 <= i < |v.cs[b]| ==> v.cs[b][i] < |m.nodes| && v.owner[v.cs[b][i]] == b
  {
  }

  lemma ShapeOf(m: Image, v: View)
    requires Inv(m, v)
    ensures Shape(m, v)
  {
  }

  /** Position i of a chain: its node is marked with the bucket and links to position i + 1. */
  lemma ChainAt(m: Image, v: View, b: nat, i: nat)
    requires Inv(m, v) && b < |v.cs| && i < |v.cs[b]|
    ensures v.cs[b][i] < |m.nodes| && m.nodes[v.cs[b][i]].bucket == b
    ensures if i + 1 < |v.cs[b]| then m.nodes[v.cs[b][i]].next == v.cs[b][i + 1] < NIL else m.nodes[v.cs[b][i]].next == NIL
  {
    hide Hash, AnswerOk, Agrees;
    assert ChainOk(m, v, b) && Joined(m.nodes, v.cs[b], i);
    if i + 1 < |v.cs[b]| { assert Joined(m.nodes, v.cs[b], i + 1); }
  }

  /** A reference on no node of its chain is not in the map. */
  lemma Absent(m: Image, v: View, b: nat, ref: nat)
    requires Inv(m, v) && b < |v.cs| && b < |m.states| && m.states[b] == 0 && b == Hash(|m.buckets|, ref)
    requires forall j :: 0 <= j < |v.cs[b]| ==> v.cs[b][j] < |m.nodes| && m.nodes[v.cs[b][j]].ref != ref
    ensures ref !in v.contents && v.contents - {ref} == v.contents
  {
    hide Hash, Chains, Agrees;
    PartOf(m, v, ref);
    assert AnswerOk(m, v, b);
  }

  // ---- insert into a chain ----

  /** A free node goes to the front of its chain. */
  function Pushed(m: Image, b: nat, ref: nat, order: nat): Image
    requires m.first < |m.nodes| && b < |m.buckets| == |m.lens|
  {
    var idx := m.first;
    m.(nodes := m.nodes[idx := Node(ref, order, m.buckets[b], b)], buckets := m.buckets[b := idx],
       lens := m.lens[b := m.lens[b] + 1], first := m.nodes[idx].next, size := m.size + 1)
  }

  ghost function PushedView(m: Image, v: View, b: nat, ref: nat, order: nat): View
    requires Shape(m, v) && b < |v.cs| && m.first < |m.nodes| && v.free != []
  {
    View(v.cs[b := [m.first] + v.cs[b]], v.parts[b := Set(v.parts[b], ref, order)], v.free[1..],
         v.owner[m.first := b], v.contents[ref := order])
  }

  lemma PushFree(m: Image, v: View, b: nat, ref: nat, order: nat)
    requires Shape(m, v) && Chains(m, v) && v.free != [] && m.first < |m.nodes| && b < |v.cs|
    ensures var m', v' := Pushed(m, b, ref, order), PushedView(m, v, b, ref, order);
      Path(m'.nodes, m'.first, v'.free) && Members(v'.owner, |v'.cs|, v'.free)
  {
    hide Hash, ChainOk;
    var m' := Pushed(m, b, ref, order);
    assert Without(v.free, 0) == v.free[1..] && v.free[0] == m.first;
    PathCut(m.nodes, m'.nodes, m.first, v.free, 0);
    MembersCut(v.owner, |v.cs|, v.free, 0, b);
  }

  lemma PushChain(m: Image, v: View, b: nat, ref: nat, order: nat, c: nat)
    requires Shape(m, v) && Chains(m, v) && v.free != [] && m.first < |m.nodes| && b < |v.cs| && c < |v.cs|
    ensures ChainOk(Pushed(m, b, ref, order), PushedView(m, v, b, ref, order), c)
  {
    hide Hash;
    var m', v', idx := Pushed(m, b, ref, order), PushedView(m, v, b, ref, order), m.first;
    assert v.owner[idx] == |v.cs| by { assert v.free[0] == idx; }
    assert ChainOk(m, v, c);
    InChain(m, v, c);
    PathFrame(m.nodes, m'.nodes, m.buckets[c], v.cs[c]);
    if c == b {
      PathPush(m'.nodes, m.buckets[b], v.cs[b], idx);
      MembersPush(v.owner, b, v.cs[b], idx);
    }
  }

  lemma PushAnswer(m: Image, v: View, b: nat, ref: nat, order: nat)
    requires Inv(m, v) && v.free != [] && m.first < |m.nodes| && b < |v.cs|
    requires m.states[b] == 0 && ref !in v.parts[b] && Hash(|m.buckets|, ref) == b
    ensures AnswerOk(Pushed(m, b, ref, order), PushedView(m, v, b, ref, order), b)
  {
    hide Hash;
    var m', v', idx := Pushed(m, b, ref, order), PushedView(m, v, b, ref, order), m.first;
    NotInChain(m, v, b);
    assert AnswerOk(m, v, b);
    ChainedPush(m.nodes, m'.nodes, v.cs[b], v.parts[b], idx, ref);
  }

  lemma PushOtherAnswer(m: Image, v: View, b: nat, ref: nat, order: nat, c: nat)
    requires Inv(m, v) && v.free != [] && m.first < |m.nodes| && b < |v.cs| && c < |v.cs| && c != b
    ensures AnswerOk(Pushed(m, b, ref, order), PushedView(m, v, b, ref, order), c)
  {
    hide Hash;
    NotInChain(m, v, c);
    assert AnswerOk(m, v, c);
  }

  /** The first free node is on no chain. */
  lemma NotInChain(m: Image, v: View, c: nat)
    requires Shape(m, v) && Chains(m, v) && v.free != [] && c < |v.cs|
    ensures forall i :: 0 <= i < |v.cs[c]| ==> v.cs[c][i] != m.first && v.cs[c][i] < |m.nodes|
  {
    hide Hash;
    assert v.free[0] == m.first && v.owner[m.first] == |v.cs|;
    assert ChainOk(m, v, c);
    InChain(m, v, c);
  }

  /** One bucket's entries change at one key, and so does the map. */
  lemma AgreesSet(n: nat, parts: seq<map<nat, nat>>, contents: map<nat, nat>, ref: nat, order: nat)
    requires 0 < n && |parts| == n && (forall k :: Hash(n, k) < n) && Agrees(n, parts, contents)
    ensures var b := Hash(n, ref);
      Agrees(n, parts[b := Set(parts[b], ref, order)], contents[ref := order])
      && Agrees(n, parts[b := parts[b] - {ref}], contents - {ref})
  {
    hide Hash;
  }

  lemma PartOf(m: Image, v: View, ref: nat)
    requires Shape(m, v) && Answers(m, v)
    ensures SameAt(v.contents, v.parts[Hash(|m.buckets|, ref)], ref)
  {
  }

  lemma PushKeeps(m: Image, v: View, ref: nat, order: nat)
    requires Inv(m, v) && v.free != [] && m.first < |m.nodes| && ref !in v.contents
    requires m.states[Hash(|m.buckets|, ref)] == 0
    ensures var b := Hash(|m.buckets|, ref);
      Inv(Pushed(m, b, ref, order), PushedView(m, v, b, ref, order))
  {
    hide Hash, Path, Members, Chains, Answers;
    var b := Hash(|m.buckets|, ref);
    PushChains(m, v, b, ref, order);
    PushAnswers(m, v, ref, order);
  }

  lemma PushChains(m: Image, v: View, b: nat, ref: nat, order: nat)
    requires Shape(m, v) && Chains(m, v) && v.free != [] && m.first < |m.nodes| && b < |v.cs|
    ensures Shape(Pushed(m, b, ref, order), PushedView(m, v, b, ref, order))
    ensures Chains(Pushed(m, b, ref, order), PushedView(m, v, b, ref, order))
  {
    hide Hash, Path, Members, ChainOk;
    var m', v' := Pushed(m, b, ref, order), PushedView(m, v, b, ref, order);
    PushFree(m, v, b, ref, order);
    forall c | 0 <= c < |v'.cs| ensures ChainOk(m', v', c) {
      PushChain(m, v, b, ref, order, c);
    }
  }

  lemma OneMore(contents: map<nat, nat>, ref: nat, order: nat)
    requires ref !in contents
    ensures |contents[ref := order]| == |contents| + 1
  {
    assert contents[ref := order].Keys == contents.Keys + {ref};
  }

  lemma PushAnswers(m: Image, v: View, ref: nat, order: nat)
    requires Inv(m, v) && v.free != [] && m.first < |m.nodes| && ref !in v.contents
    requires m.states[Hash(|m.buckets|, ref)] == 0
    ensures var b := Hash(|m.buckets|, ref);
      && Shape(Pushed(m, b, ref, order), PushedView(m, v, b, ref, order))
      && Answers(Pushed(m, b, ref, order), PushedView(m, v, b, ref, order))
  {
    hide Hash, Path, Members, Chains, AnswerOk, Agrees, Set;
    var b := Hash(|m.buckets|, ref);
    var m', v' := Pushed(m, b, ref, order), PushedView(m, v, b, ref, order);
    PartOf(m, v, ref);
    OneMore(v.contents, ref, order);
    AgreesSet(|m.buckets|, v.parts, v.contents, ref, order);
    forall c | 0 <= c < |v'.cs| ensures AnswerOk(m', v', c) {
      if c == b { PushAnswer(m, v, b, ref, order); } else { PushOtherAnswer(m, v, b, ref, order, c); }
    }
  }

  // ---- erase from a chain ----

  /** Position p of chain b is unlinked (by the bucket head if p is 0) and goes back to the free list. */
  function Unlinked(m: Image, ns: seq<nat>, b: nat, p: nat): Image
    requires b < |m.buckets| == |m.lens| && p < |ns| && m.size > 0 && m.lens[b] > 0
    requires ns[p] < |m.nodes| && (p > 0 ==> ns[p - 1] < |m.nodes|)
  {
    var idx, after := ns[p], m.nodes[ns[p]].next;
    var cut := if p == 0 then m.nodes else m.nodes[ns[p - 1] := m.nodes[ns[p - 1]].(next := after)];
    m.(nodes := cut[idx := cut[idx].(next := m.first)], first := idx,
       buckets := if p == 0 then m.buckets[b := after] else m.buckets,
       lens := m.lens[b := m.lens[b] - 1], size := m.size - 1)
  }

  ghost function UnlinkedView(m: Image, v: View, b: nat, p: nat): View
    requires Shape(m, v) && b < |v.cs| && p < |v.cs[b]| && v.cs[b][p] < |m.nodes|
  {
    var idx := v.cs[b][p];
    var ref := m.nodes[idx].ref;
    View(v.cs[b := Without(v.cs[b], p)], v.parts[b := v.parts[b] - {ref}], [idx] + v.free,
         v.owner[idx := |v.cs|], v.contents - {ref})
  }

  /** Position p of bucket b is a node that can be unlinked. */
  predicate Removable(m: Image, v: View, b: nat, p: nat) {
    && b < |v.cs| == |m.buckets| == |m.lens| && p < |v.cs[b]| && m.size > 0 && m.lens[b] > 0
    && forall i :: 0 <= i < |v.cs[b]| ==> v.cs[b][i] < |m.nodes|
  }

  lemma IsRemovable(m: Image, v: View, b: nat, p: nat)
    requires Inv(m, v) && b < |v.cs| && p < |v.cs[b]| && m.states[b] == 0
    ensures Removable(m, v, b, p)
    ensures var ref := m.nodes[v.cs[b][p]].ref; ref in v.contents && Hash(|m.buckets|, ref) == b
  {
    hide Hash;
    assert ChainOk(m, v, b) && AnswerOk(m, v, b);
    InChain(m, v, b);
    var ref := m.nodes[v.cs[b][p]].ref;
    assert Entry(m.nodes[v.cs[b][p]], v.parts[b]);
    assert Hash(|m.buckets|, ref) == b && SameAt(v.contents, v.parts[b], ref);
    assert |v.contents| > 0;
  }

  lemma EraseFree(m: Image, v: View, b: nat, p: nat)
    requires Shape(m, v) && Chains(m, v) && Removable(m, v, b, p)
    ensures var m', v' := Unlinked(m, v.cs[b], b, p), UnlinkedView(m, v, b, p);
      Path(m'.nodes, m'.first, v'.free) && Members(v'.owner, |v'.cs|, v'.free)
  {
    hide Hash;
    var m', idx := Unlinked(m, v.cs[b], b, p), v.cs[b][p];
    assert ChainOk(m, v, b);
    InChain(m, v, b);
    PathFrame(m.nodes, m'.nodes, m.first, v.free);
    PathPush(m'.nodes, m.first, v.free, idx);
    MembersPush(v.owner, |v.cs|, v.free, idx);
  }

  lemma EraseChain(m: Image, v: View, b: nat, p: nat)
    requires Shape(m, v) && Chains(m, v) && Removable(m, v, b, p)
    ensures ChainOk(Unlinked(m, v.cs[b], b, p), UnlinkedView(m, v, b, p), b)
  {
    hide Hash;
    var m', v', ns := Unlinked(m, v.cs[b], b, p), UnlinkedView(m, v, b, p), v.cs[b];
    assert ChainOk(m, v, b);
    PathCut(m.nodes, m'.nodes, m.buckets[b], ns, p);
    MembersCut(v.owner, b, ns, p, |v.cs|);
    WithoutFacts(ns, p);
  }

  lemma EraseOtherChain(m: Image, v: View, b: nat, p: nat, c: nat)
    requires Shape(m, v) && Chains(m, v) && Removable(m, v, b, p) && c < |v.cs| && c != b
    ensures ChainOk(Unlinked(m, v.cs[b], b, p), UnlinkedView(m, v, b, p), c)
    ensures forall i :: 0 <= i < |v.cs[c]| ==>
      v.cs[c][i] < |m.nodes| && m.nodes[v.cs[c][i]] == Unlinked(m, v.cs[b], b, p).nodes[v.cs[c][i]]
  {
    hide Hash, Without, Path, Members;
    var m', v' := Unlinked(m, v.cs[b], b, p), UnlinkedView(m, v, b, p);
    assert ChainOk(m, v, b) && ChainOk(m, v, c);
    InChain(m, v, b);
    InChain(m, v, c);
    MembersFrame(v.owner, c, v.cs[c], v.cs[b][p], |v.cs|);
    PathFrame(m.nodes, m'.nodes, m.buckets[c], v.cs[c]);
  }

  lemma EraseAnswer(m: Image, v: View, b: nat, p: nat)
    requires Inv(m, v) && Removable(m, v, b, p) && m.states[b] == 0
    ensures AnswerOk(Unlinked(m, v.cs[b], b, p), UnlinkedView(m, v, b, p), b)
  {
    hide Hash;
    var m', v', ns := Unlinked(m, v.cs[b], b, p), UnlinkedView(m, v, b, p), v.cs[b];
    assert AnswerOk(m, v, b);
    ChainedCut(m.nodes, m'.nodes, ns, v.parts[b], p);
    WithoutFacts(ns, p);
  }

  lemma EraseOtherAnswer(m: Image, v: View, b: nat, p: nat, c: nat)
    requires Inv(m, v) && Removable(m, v, b, p) && c < |v.cs| && c != b
    ensures AnswerOk(Unlinked(m, v.cs[b], b, p), UnlinkedView(m, v, b, p), c)
  {
    hide Hash, Without;
    assert AnswerOk(m, v, c);
    EraseOtherChain(m, v, b, p, c);
  }

  lemma EraseKeeps(m: Image, v: View, b: nat, p: nat)
    requires Inv(m, v) && Removable(m, v, b, p) && m.states[b] == 0
    ensures Inv(Unlinked(m, v.cs[b], b, p), UnlinkedView(m, v, b, p))
  {
    hide Hash, Path, Members, Chained, ChainOk, AnswerOk, Agrees;
    var m', v' := Unlinked(m, v.cs[b], b, p), UnlinkedView(m, v, b, p);
    var ref := m.nodes[v.cs[b][p]].ref;
    IsRemovable(m, v, b, p);
    assert v.contents.Keys == v'.contents.Keys + {ref};
    EraseFree(m, v, b, p);
    AgreesSet(|m.buckets|, v.parts, v.contents, ref, 0);
    forall c | 0 <= c < |v'.cs| ensures ChainOk(m', v', c) {
      if c == b { EraseChain(m, v, b, p); } else { EraseOtherChain(m, v, b, p, c); }
    }
    assert Chains(m', v');
    forall c | 0 <= c < |v'.cs| ensures AnswerOk(m', v', c) {
      if c == b { EraseAnswer(m, v, b, p); } else { EraseOtherAnswer(m, v, b, p, c); }
    }
  }

  // ---- the overflow map ----

  /** A bucket moves: its entries are copied to the overflow map and its chain is orphaned. */
  lemma MoveKeeps(m: Image, v: View, b: nat)
    requires Inv(m, v) && b < |v.cs| && m.states[b] == 0
    ensures Inv(m.(overflow := m.overflow + v.parts[b], states := m.states[b := 2]), v)
  {
    hide Hash, Path, Members, Chained, ChainOk, AnswerOk, Agrees;
    var m' := m.(overflow := m.overflow + v.parts[b], states := m.states[b := 2]);
    forall c | 0 <= c < |v.cs| ensures ChainOk(m', v, c) {
      MoveChain(m, v, b, c);
    }
    assert Chains(m', v);
    forall c | 0 <= c < |v.cs| ensures AnswerOk(m', v, c) {
      MoveAnswer(m, v, b, c);
    }
  }

  lemma MoveChain(m: Image, v: View, b: nat, c: nat)
    requires Inv(m, v) && b < |v.cs| && c < |v.cs|
    ensures ChainOk(m.(overflow := m.overflow + v.parts[b], states := m.states[b := 2]), v, c)
  {
    hide Hash, Answers, Members;
    assert ChainOk(m, v, c);
  }

  lemma MoveAnswer(m: Image, v: View, b: nat, c: nat)
    requires Inv(m, v) && b < |v.cs| && c < |v.cs| && m.states[b] == 0
    ensures AnswerOk(m.(overflow := m.overflow + v.parts[b], states := m.states[b := 2]), v, c)
  {
    hide Hash, Chains, Chained;
    assert AnswerOk(m, v, c) && AnswerOk(m, v, b);
  }

  /** A key of a moved bucket is set or removed in the overflow map. */
  lemma OverflowKeeps(m: Image, v: View, ref: nat, overflow: map<nat, nat>, part: map<nat, nat>, contents: map<nat, nat>)
    requires Inv(m, v) && m.states[Hash(|m.buckets|, ref)] == 2
    requires forall k :: k != ref ==> SameAt(overflow, m.overflow, k) && SameAt(part, v.parts[Hash(|m.buckets|, ref)], k)
    requires SameAt(overflow, part, ref)
    requires Agrees(|m.buckets|, v.parts[Hash(|m.buckets|, ref) := part], contents)
    ensures var parts' := v.parts[Hash(|m.buckets|, ref) := part];
      Inv(m.(overflow := overflow, size := |contents|), v.(parts := parts', contents := contents))
  {
    hide Hash, Path, Members, Chained;
    var b := Hash(|m.buckets|, ref);
    var m', v' := m.(overflow := overflow, size := |contents|), v.(parts := v.parts[b := part], contents := contents);
    forall c | 0 <= c < |v.cs| ensures ChainOk(m', v', c) {
      assert ChainOk(m, v, c);
    }
    assert Chains(m', v');
    forall c | 0 <= c < |v.cs| ensures AnswerOk(m', v', c) {
      assert AnswerOk(m, v, c);
      forall k ensures k in overflow && k != ref ==> k in m.overflow {
        if k != ref { assert SameAt(overflow, m.overflow, k); }
      }
      forall k | Hash(|m.buckets|, k) == c && m.states[c] == 2 ensures SameAt(overflow, v'.parts[c], k) {
        if k != ref {
          assert SameAt(overflow, m.overflow, k) && SameAt(m.overflow, v.parts[c], k) && SameAt(part, v.parts[b], k);
        }
      }
    }
  }

  /** base with the entries of the first i nodes of a chain copied over it. */
  ghost function Copied(base: map<nat, nat>, nodes: seq<Node>, ns: seq<nat>, i: nat): map<nat, nat>
    requires i <= |ns| && forall j :: 0 <= j < |ns| ==> ns[j] < |nodes|
  {
    if i == 0 then base else Copied(base, nodes, ns, i - 1)[nodes[ns[i - 1]].ref := nodes[ns[i - 1]].order]
  }

  lemma {:induction false} CopiedFrom(base: map<nat, nat>, nodes: seq<Node>, ns: seq<nat>, mine: map<nat, nat>, i: nat, k: nat)
    requires i <= |ns| && (forall j :: 0 <= j < |ns| ==> ns[j] < |nodes|) && Chained(nodes, ns, mine)
    ensures var c := Copied(base, nodes, ns, i); (SameAt(c, mine, k) && k in mine) || SameAt(c, base, k)
  {
    if i > 0 {
      CopiedFrom(base, nodes, ns, mine, i - 1, k);
      assert Entry(nodes[ns[i - 1]], mine);
    }
  }

  lemma {:induction false} CopiedHas(base: map<nat, nat>, nodes: seq<Node>, ns: seq<nat>, mine: map<nat, nat>, i: nat, j: nat)
    requires j < i <= |ns| && (forall k :: 0 <= k < |ns| ==> ns[k] < |nodes|) && Chained(nodes, ns, mine)
    ensures Entry(nodes[ns[j]], Copied(base, nodes, ns, i))
  {
    if j < i - 1 {
      CopiedHas(base, nodes, ns, mine, i - 1, j);
    }
  }

  /** Copying a whole chain copies exactly its entries. */
  lemma CopiedAll(base: map<nat, nat>, nodes: seq<Node>, ns: seq<nat>, mine: map<nat, nat>)
    requires (forall j :: 0 <= j < |ns| ==> ns[j] < |nodes|) && Chained(nodes, ns, mine)
    ensures Copied(base, nodes, ns, |ns|) == base + mine
  {
    hide Copied;
    var c := Copied(base, nodes, ns, |ns|);
    forall k | k in mine ensures k in c && c[k] == mine[k] {
      var i :| 0 <= i < |ns| && ns[i] < |nodes| && nodes[ns[i]].ref == k;
      CopiedHas(base, nodes, ns, mine, |ns|, i);
      assert Entry(nodes[ns[i]], mine);
    }
    forall k ensures SameAt(c, base + mine, k) {
      CopiedFrom(base, nodes, ns, mine, |ns|, k);
    }
    SameMap(c, base + mine);
  }

  lemma SameMap(a: map<nat, nat>, b: map<nat, nat>)
    requires forall k: nat :: SameAt(a, b, k)
    ensures a == b
  {
    forall k ensures k in a <==> k in b { assert SameAt(a, b, k); }
    forall k | k in a ensures a[k] == b[k] { assert SameAt(a, b, k); }
  }

  /** What the copying loop of a bucket that starts to move relies on. */
  lemma CopyFacts(m: Image, v: View, b: nat)
    requires Inv(m, v) && b < |v.cs| && m.states[b] == 0
    ensures forall i :: 0 <= i < |v.cs[b]| ==> v.cs[b][i] < |m.nodes|
    ensures Chained(m.nodes, v.cs[b], v.parts[b])
    ensures var m' := m.(states := m.states[b := 1]); Shape(m', v) && ChainOk(m', v, b)
  {
    hide Hash;
    assert ChainOk(m, v, b) && AnswerOk(m, v, b);
    InChain(m, v, b);
  }

  /** A key of a moved bucket is set in the overflow map and in the abstract map alike. */
  lemma OverflowSet(m: Image, v: View, ref: nat, order: nat)
    requires Inv(m, v) && m.states[Hash(|m.buckets|, ref)] == 2 && ref !in v.contents
    ensures var b := Hash(|m.buckets|, ref);
      Inv(m.(overflow := m.overflow[ref := order], size := m.size + 1),
          v.(parts := v.parts[b := Set(v.parts[b], ref, order)], contents := v.contents[ref := order]))
  {
    hide Hash, Chains, AnswerOk, Agrees;
    var b, contents := Hash(|m.buckets|, ref), v.contents[ref := order];
    assert contents.Keys == v.contents.Keys + {ref};
    AgreesSet(|m.buckets|, v.parts, v.contents, ref, order);
    OverflowKeeps(m, v, ref, m.overflow[ref := order], Set(v.parts[b], ref, order), contents);
  }

  lemma OverflowCut(m: Image, v: View, ref: nat)
    requires Inv(m, v) && m.states[Hash(|m.buckets|, ref)] == 2 && ref in v.contents
    ensures m.size > 0
    ensures var b := Hash(|m.buckets|, ref);
      Inv(m.(overflow := m.overflow - {ref}, size := m.size - 1),
          v.(parts := v.parts[b := v.parts[b] - {ref}], contents := v.contents - {ref}))
  {
    hide Hash, Chains, AnswerOk, Agrees;
    var b, contents := Hash(|m.buckets|, ref), v.contents - {ref};
    assert v.contents.Keys == contents.Keys + {ref};
    AgreesSet(|m.buckets|, v.parts, v.contents, ref, 0);
    OverflowKeeps(m, v, ref, m.overflow - {ref}, v.parts[b] - {ref}, contents);
  }

  // ---- the object ----

  /** Smallest power of two not below n. */
  method RoundPow2(n: nat) returns (p: nat, div: nat)
    requires 1 <= n <= 0x8000_0000
    ensures n <= p <= 0x8000_0000 && p * div == WORD
  {
    p, div := 1, WORD;
    ghost var k := 31;
    Pow2At31();
    while p < n
      invariant 0 <= k <= 31 && p == Pow2(31 - k) && p * div == WORD && div == 0x2_0000_0000 * Pow2(k)
      decreases k
    {
      assert k > 0 by { if k == 0 { Pow2At31(); } }
      Halve(p, 0x2_0000_0000 * Pow2(k - 1));
      p, div, k := 2 * p, div / 2, k - 1;
    }
    Pow2Grows(31 - k, 31);
    Pow2At31();
  }

  function Pow2(k: nat): (r: nat)
    ensures r > 0
  {
    if k == 0 then 1 else 2 * Pow2(k - 1)
  }

  lemma Pow2At31()
    ensures Pow2(31) == 0x8000_0000
  {
    assert Pow2(8) == 0x100;
    assert Pow2(16) == 0x1_0000;
    assert Pow2(24) == 0x100_0000;
  }

  lemma Pow2Grows(a: nat, b: nat)
    requires a <= b
    ensures Pow2(a) <= Pow2(b)
  {
    if a < b { Pow2Grows(a, b - 1); }
  }

  lemma Halve(p: nat, half: nat)
    ensures p * (2 * half) == (2 * p) * half
  {
  }

  /** A new map: every node on the free list in order, every bucket empty. */
  lemma EmptyInv(m: Image, v: View)
    requires 0 < |m.nodes| < NIL && 0 < |m.buckets| == |m.lens| == |m.states| == |v.cs| == |v.parts|
    requires forall k :: Hash(|m.buckets|, k) < |m.buckets|
    requires m.first == 0 && m.overflow == map[] && m.size == 0 && v.contents == map[]
    requires forall i :: 0 <= i < |m.nodes| ==> m.nodes[i].next == if i + 1 < |m.nodes| then i + 1 else NIL
    requires forall b :: 0 <= b < |m.buckets| ==> m.buckets[b] == NIL && m.lens[b] == 0 && m.states[b] == 0
    requires forall b :: 0 <= b < |m.buckets| ==> v.cs[b] == [] && v.parts[b] == map[]
    requires v.free == seq(|m.nodes|, i => i) && v.owner == seq(|m.nodes|, _ => |m.buckets|)
    ensures Inv(m, v)
  {
    hide Hash;
    forall i | 0 <= i < |m.nodes| ensures Joined(m.nodes, v.free, i) {
      assert m.nodes[i].next == if i + 1 < |m.nodes| then i + 1 else NIL;
    }
    forall n | 0 <= n < |m.nodes| ensures n in v.free {
      assert v.free[n] == n;
    }
    assert Chains(m, v);
  }

  class OrderMap {
    const nodes: array<Node>
    const buckets: array<nat>
    const lens: array<nat>
    const states: array<nat>
    var freeTag: nat
    var freeFirst: nat
    var size: nat
    var overflow: map<nat, nat>
    ghost var view: View

    ghost function Img(): Image
      reads this, nodes, buckets, lens, states
    {
      Image(nodes[..], buckets[..], lens[..], states[..], freeFirst, overflow, size)
    }

    /** The arrays agree with the view; no chain is as long as the threshold. */
    ghost predicate Valid()
      reads this, nodes, buckets, lens, states
    {
      && buckets != lens && lens != states && buckets != states
      && Inv(Img(), view)
      && forall b :: 0 <= b < states.Length && states[b] == 0 ==> lens[b] < TREEIFY_THRESHOLD
    }

    constructor (capacity: nat)
      requires 2 <= capacity <= 0x8000_0000
      ensures Valid() && fresh(nodes) && fresh(buckets) && fresh(lens) && fresh(states)
      ensures view.contents == map[] && |view.free| == capacity == nodes.Length
    {
      hide Hash, Inv;
      var b, d := RoundPow2(capacity);
      nodes := new Node[capacity]((i: nat) => Node(0, 0, if i + 1 < capacity then i + 1 else NIL, 0));
      buckets := new nat[b](_ => NIL);
      lens := new nat[b](_ => 0);
      states := new nat[b](_ => 0);
      freeTag, freeFirst, size, overflow := 0, 0, 0, map[];
      var free := seq(capacity, i => i);
      view := View(seq(b, _ => []), seq(b, _ => map[]), free, seq(capacity, _ => b), map[]);
      new;
      forall k ensures Hash(b, k) < b { HashBound(b, d, k); }
      EmptyInv(Img(), view);
    }

    /** Pop the free list; the tag counts successful swaps. */
    method AllocNode() returns (idx: nat)
      requires freeFirst != NIL ==> freeFirst < nodes.Length
      modifies this`freeTag, this`freeFirst
      ensures idx == old(freeFirst)
      ensures idx != NIL ==> idx < nodes.Length && freeFirst == nodes[idx].next && freeTag == (old(freeTag) + 1) % TAGS
      ensures idx == NIL ==> freeFirst == NIL && freeTag == old(freeTag)
    {
      idx := freeFirst;
      if idx != NIL {
        freeTag, freeFirst := (freeTag + 1) % TAGS, nodes[idx].next;
      }
    }

    method FreeNode(idx: nat)
      requires idx < nodes.Length
      modifies nodes, this`freeTag, this`freeFirst
      ensures freeFirst == idx && freeTag == (old(freeTag) + 1) % TAGS
      ensures nodes[..] == old(nodes[..])[idx := old(nodes[idx]).(next := old(freeFirst))]
    {
      nodes[idx] := nodes[idx].(next := freeFirst);
      freeTag, freeFirst := (freeTag + 1) % TAGS, idx;
    }

    /** Copy the chain of bucket b to the overflow map, then mark the bucket as moved. */
    method Treeify(b: nat)
      requires Inv(Img(), view) && b < buckets.Length && states[b] == 0
      requires buckets != states && lens != states
      modifies states, this`overflow
      ensures Inv(Img(), view)
      ensures states[..] == old(states[..])[b := 2]
    {
      hide Hash, Chains, Answers, ChainOk, Chained, Copied, Agrees;
      ghost var m, ns := Img(), view.cs[b];
      CopyFacts(m, view, b);
      states[b] := 1;
      assert Img() == m.(states := m.states[b := 1]);
      CopyChain(b);
      CopiedAll(m.overflow, m.nodes, ns, view.parts[b]);
      states[b] := 2;
      MoveKeeps(m, view, b);
      assert Img() == m.(overflow := m.overflow + view.parts[b], states := m.states[b := 2]);
    }

    /** The copying loop of treeify. */
    method CopyChain(b: nat)
      requires Shape(Img(), view) && b < buckets.Length && ChainOk(Img(), view, b)
      requires forall i :: 0 <= i < |view.cs[b]| ==> view.cs[b][i] < nodes.Length
      modifies this`overflow
      ensures overflow == Copied(old(overflow), nodes[..], view.cs[b], |view.cs[b]|)
    {
      hide Hash;
      ghost var m, ns := Img(), view.cs[b];
      var cur := buckets[b];
      ghost var i := 0;
      while cur != NIL
        invariant i <= |ns| && cur == At(ns, i)
        invariant overflow == Copied(m.overflow, m.nodes, ns, i)
        decreases |ns| - i
      {
        assert Joined(m.nodes, ns, i);
        overflow := overflow[nodes[cur].ref := nodes[cur].order];
        cur := nodes[cur].next;
        i := i + 1;
      }
    }

    /** overflow_[ref] = order for a bucket that has moved. */
    method InsertOverflow(ref: nat, order: nat)
      requires Inv(Img(), view) && ref !in view.contents
      requires states[Hash(buckets.Length, ref)] == 2
      modifies this`overflow, this`size, this`view
      ensures Inv(Img(), view)
      ensures view.contents == old(view.contents)[ref := order] && view.free == old(view.free)
      ensures view.cs == old(view.cs) && view.owner == old(view.owner)
    {
      hide Hash, Chains, Answers;
      ghost var m, v, b := Img(), view, Hash(buckets.Length, ref);
      OverflowSet(m, v, ref, order);
      overflow := overflow[ref := order];
      size := size + 1;
      view := v.(parts := v.parts[b := Set(v.parts[b], ref, order)], contents := v.contents[ref := order]);
      assert Img() == m.(overflow := overflow, size := m.size + 1);
    }

    /** Add a fresh reference. It is kept if its bucket has moved or is full, a node is free, or the free word tests as exhausted. */
    method Insert(ref: nat, order: nat)
      requires Valid() && ref !in view.contents
      modifies this, nodes, buckets, lens, states
      ensures Valid()
      ensures var b := Hash(buckets.Length, ref);
        var kept := old(freeFirst) != NIL || old(freeTag) == 0 || old(states[b]) != 0 || old(lens[b]) >= TREEIFY_THRESHOLD;
        view.contents == if kept then old(view.contents)[ref := order] else old(view.contents)
      ensures |view.free| >= |old(view.free)| - 1
    {
      hide Hash;
      var b := Hash(buckets.Length, ref);
      assert ChainOk(Img(), view, b) && AnswerOk(Img(), view, b);
      if states[b] != 0 {
        InsertOverflow(ref, order);
        return;
      }
      if lens[b] >= TREEIFY_THRESHOLD || (freeTag == 0 && freeFirst == NIL) {
        Treeify(b);
        InsertOverflow(ref, order);
        return;
      }
      InsertChain(ref, order, b);
    }

    /** The chain path of insert. */
    method InsertChain(ref: nat, order: nat, b: nat)
      requires Valid() && ref !in view.contents && b < buckets.Length && b == Hash(buckets.Length, ref)
      requires states[b] == 0
      modifies this, nodes, buckets, lens, states
      ensures Valid()
      ensures view.contents == if old(freeFirst) != NIL then old(view.contents)[ref := order] else old(view.contents)
      ensures |view.free| >= |old(view.free)| - 1
    {
      hide Hash;
      ghost var m, v := Img(), view;
      assert v.free != [] ==> Joined(m.nodes, v.free, 0);
      var idx := AllocNode();
      if idx == NIL { return; }
      assert v.free != [];
      PushKeeps(m, v, ref, order);
      nodes[idx] := Node(ref, order, buckets[b], b);
      buckets[b] := idx;
      lens[b] := lens[b] + 1;
      size := size + 1;
      view := PushedView(m, v, b, ref, order);
      assert Img() == Pushed(m, b, ref, order);
      if lens[b] >= TREEIFY_THRESHOLD {
        Treeify(b);
      }
    }

    /** The slot of a reference; the chain is walked at most once and never left. */
    method Find(ref: nat) returns (r: Option<nat>)
      requires Valid()
      ensures r == if ref in view.contents then Some(view.contents[ref]) else None
    {
      hide Hash;
      var b := Hash(buckets.Length, ref);
      ghost var m, ns := Img(), view.cs[b];
      assert ChainOk(m, view, b) && AnswerOk(m, view, b) && SameAt(view.contents, view.parts[b], ref);
      if states[b] != 0 {
        return if ref in overflow then Some(overflow[ref]) else None;
      }
      var idx := buckets[b];
      ghost var i := 0;
      while idx != NIL
        invariant i <= |ns| && idx == At(ns, i)
        invariant forall j :: 0 <= j < i ==> m.nodes[ns[j]].ref != ref
        decreases |ns| - i
      {
        assert Joined(m.nodes, ns, i);
        if nodes[idx].bucket != b { assert false; }   // the retry branch: only concurrent reuse leaves the bucket
        if nodes[idx].ref == ref { return Some(nodes[idx].order); }
        idx := nodes[idx].next;
        i := i + 1;
      }
      return None;
    }

    method EraseOverflow(ref: nat)
      requires Inv(Img(), view) && ref in view.contents && ref in overflow
      requires states[Hash(buckets.Length, ref)] == 2
      modifies this`overflow, this`size, this`view
      ensures Inv(Img(), view)
      ensures view.contents == old(view.contents) - {ref} && view.free == old(view.free)
    {
      hide Hash, Chains, Answers;
      ghost var m, v, b := Img(), view, Hash(buckets.Length, ref);
      OverflowCut(m, v, ref);
      overflow := overflow - {ref};
      size := size - 1;
      view := v.(parts := v.parts[b := v.parts[b] - {ref}], contents := v.contents - {ref});
      assert Img() == m.(overflow := overflow, size := m.size - 1);
    }

    /** Take the first node of chain b out and give it back. */
    method UnlinkHead(b: nat)
      requires Valid() && b < buckets.Length && states[b] == 0 && view.cs[b] != [] && view.cs[b][0] < nodes.Length
      modifies this, nodes, buckets, lens
      ensures Valid()
      ensures view.contents == old(view.contents) - {old(nodes[view.cs[b][0]].ref)}
      ensures |view.free| == |old(view.free)| + 1 && freeFirst != NIL
    {
      ghost var m, v := Img(), view;
      IsRemovable(m, v, b, 0);
      assert ChainOk(m, v, b);
      EraseKeeps(m, v, b, 0);
      var idx := buckets[b];
      buckets[b] := nodes[idx].next;
      FreeNode(idx);
      lens[b] := lens[b] - 1;
      size := size - 1;
      view := UnlinkedView(m, v, b, 0);
      assert Img() == Unlinked(m, v.cs[b], b, 0);
    }

    /** Take the node after prev, at position p of chain b, out and give it back. */
    method UnlinkAfter(prev: nat, b: nat, ghost p: nat)
      requires Valid() && b < buckets.Length && states[b] == 0
      requires 0 < p < |view.cs[b]| && view.cs[b][p - 1] == prev && view.cs[b][p] < nodes.Length
      modifies this, nodes, lens
      ensures Valid()
      ensures view.contents == old(view.contents) - {old(nodes[view.cs[b][p]].ref)}
      ensures |view.free| == |old(view.free)| + 1 && freeFirst != NIL
    {
      ghost var m, v := Img(), view;
      IsRemovable(m, v, b, p);
      assert ChainOk(m, v, b) && Joined(m.nodes, v.cs[b], p - 1);
      EraseKeeps(m, v, b, p);
      var next := nodes[prev].next;
      nodes[prev] := nodes[prev].(next := nodes[next].next);
      FreeNode(next);
      lens[b] := lens[b] - 1;
      size := size - 1;
      view := UnlinkedView(m, v, b, p);
      assert Img() == Unlinked(m, v.cs[b], b, p);
    }

    /** Remove a reference, if present. */
    method Erase(ref: nat)
      requires Valid()
      modifies this, nodes, buckets, lens, states
      ensures Valid()
      ensures view.contents == old(view.contents) - {ref}
      ensures |view.free| >= |old(view.free)|
      ensures old(freeFirst) != NIL ==> freeFirst != NIL
    {
      hide Hash;
      var b := Hash(buckets.Length, ref);
      ghost var m, v, ns := Img(), view, view.cs[b];
      assert ChainOk(m, view, b) && AnswerOk(m, view, b) && SameAt(view.contents, view.parts[b], ref);
      if states[b] != 0 {
        if ref in overflow {
          EraseOverflow(ref);
        }
        return;
      }
      var idx := buckets[b];
      if idx == NIL { return; }
      assert Joined(m.nodes, ns, 0);
      if nodes[idx].ref == ref {
        UnlinkHead(b);
        return;
      }
      EraseInside(ref, b);
    }

    /** The walk of erase behind the head of chain b. */
    method EraseInside(ref: nat, b: nat)
      requires Valid() && b < buckets.Length && b == Hash(buckets.Length, ref) && states[b] == 0
      requires view.cs[b] != [] && buckets[b] == view.cs[b][0] < nodes.Length && nodes[buckets[b]].ref != ref
      modifies this, nodes, lens
      ensures Valid()
      ensures view.contents == old(view.contents) - {ref}
      ensures |view.free| >= |old(view.free)|
      ensures old(freeFirst) != NIL ==> freeFirst != NIL
    {
      hide Hash, Inv;
      ShapeOf(Img(), view);
      ghost var m, v, ns := Img(), view, view.cs[b];
      var idx := buckets[b];
      ghost var i := 0;
      while idx != NIL
        invariant Valid() && Img() == m && view == v
        invariant i < |ns| && idx == ns[i] < nodes.Length
        invariant forall j :: 0 <= j <= i ==> ns[j] < nodes.Length && m.nodes[ns[j]].ref != ref
        decreases |ns| - i
      {
        ChainAt(m, v, b, i);
        if nodes[idx].bucket != b { assert false; }
        var next := nodes[idx].next;
        if next == NIL {
          Absent(m, v, b, ref);
          return;
        }
        ChainAt(m, v, b, i + 1);
        if nodes[next].ref == ref {
          UnlinkAfter(idx, b, i + 1);
          return;
        }
        idx := next;
        i := i + 1;
      }
    }
  }
}
