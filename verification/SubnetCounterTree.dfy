/** Packet counters per subnet, kept in a Patricia trie keyed by the four bytes of an address. */
module SubnetCounterTree {
  import opened BitKeys
  import opened Common
  import opened MapSum
  import opened PatriciaTrie

  datatype CountType = Source | Dest

  datatype Counter = Counter(src: nat, dst: nat)

  function And(a: Key, b: Key): (c: Key)
    requires |a| == |b|
    ensures |c| == |a| && forall i :: 0 <= i < |c| ==> (c[i] <==> a[i] && b[i])
  {
    seq(|a|, i requires 0 <= i < |a| => a[i] && b[i])
  }

  /* ---------- the counters as a map, and what each operation may do to it ---------- */

  /** k is a key with a longest common prefix with a. */
  ghost predicate IsClosest<T>(m: map<Key, T>, a: Key, k: Key) {
    k in m && forall k' :: k' in m ==> CommonPrefix(a, k') <= CommonPrefix(a, k)
  }

  function Bump(c: Counter, ty: CountType, n: nat): Counter {
    match ty
    case Source => c.(src := (c.src + n) % ULONG)
    case Dest => c.(dst := (c.dst + n) % ULONG)
  }

  datatype Op =
    | AddSubnet(addr: Key, mask: Key)
    | AddCount(addr: Key, ty: CountType, n: nat)

  ghost predicate Step(m: map<Key, Counter>, op: Op, m': map<Key, Counter>) {
    match op
    case AddSubnet(a, k) =>
      |a| == |k| && m' == if And(a, k) in m then m else m[And(a, k) := Counter(0, 0)]
    case AddCount(a, ty, n) =>
      exists k :: IsClosest(m, a, k) && m' == m[k := Bump(m[k], ty, n)]
  }

  function Part(c: Counter, ty: CountType): nat {
    match ty case Source => c.src case Dest => c.dst
  }

  function Parts(ty: CountType): Counter -> nat {
    (c: Counter) => Part(c, ty)
  }

  ghost function Total(m: map<Key, Counter>, ty: CountType): nat {
    Sum(m, Parts(ty))
  }

  /** What one operation adds to the totals. */
  function Added(op: Op, ty: CountType): nat {
    if op.AddCount? && op.ty == ty then op.n else 0
  }

  function AddedBy(ops: seq<Op>, ty: CountType): nat {
    if ops == [] then 0 else AddedBy(ops[..|ops| - 1], ty) + Added(ops[|ops| - 1], ty)
  }

  /** The count reaches the range of the counter that it lands on. */
  ghost predicate WrapsAt(m: map<Key, Counter>, op: Op, m': map<Key, Counter>, ty: CountType) {
    op.AddCount? && op.ty == ty && exists k :: WrapsOn(m, op, m', k)
  }

  ghost predicate WrapsOn(m: map<Key, Counter>, op: Op, m': map<Key, Counter>, k: Key)
    requires op.AddCount?
  {
    IsClosest(m, op.addr, k) && m' == m[k := Bump(m[k], op.ty, op.n)] && Part(m[k], op.ty) + op.n >= ULONG
  }

  /** One operation adds to the totals what it says, less wraps times the range of a counter. */
  lemma StepTotal(m: map<Key, Counter>, op: Op, m': map<Key, Counter>, ty: CountType) returns (wraps: nat)
    requires Step(m, op, m')
    ensures Unwrapped(Total(m', ty), wraps, ULONG) == Total(m, ty) + Added(op, ty)
    ensures wraps == 0 <==> !WrapsAt(m, op, m', ty)
  {
    hide Sum, CommonPrefix, And, Bump;
    wraps := 0;
    match op
    case AddSubnet(a, k) =>
      SumUpdate(m, Parts(ty), And(a, k), Counter(0, 0));
    case AddCount(a, ty', n) =>
      var k :| IsClosest(m, a, k) && m' == m[k := Bump(m[k], ty', n)];
      wraps := CountTotal(m, op, m', ty, k);
      assert wraps > 0 ==> WrapsOn(m, op, m', k);
      if WrapsAt(m, op, m', ty) {
        var k' :| WrapsOn(m, op, m', k');
        var wraps' := CountTotal(m, op, m', ty, k');
      }
  }

  /** The count lands on subnet k. */
  lemma CountTotal(m: map<Key, Counter>, op: Op, m': map<Key, Counter>, ty: CountType, k: Key) returns (wraps: nat)
    requires op.AddCount? && k in m && m' == m[k := Bump(m[k], op.ty, op.n)]
    ensures Unwrapped(Total(m', ty), wraps, ULONG) == Total(m, ty) + Added(op, ty)
    ensures wraps == 0 <==> !(op.ty == ty && Part(m[k], ty) + op.n >= ULONG)
  {
    hide Sum, Bump;
    SumUpdate(m, Parts(ty), k, Bump(m[k], op.ty, op.n));
    wraps := BumpPart(m[k], op.ty, op.n, ty);
  }

  lemma BumpPart(c: Counter, ty: CountType, n: nat, ty': CountType) returns (wraps: nat)
    ensures Part(Bump(c, ty, n), ty') + wraps * ULONG == Part(c, ty') + if ty == ty' then n else 0
    ensures wraps == 0 <==> !(ty == ty' && Part(c, ty) + n >= ULONG)
  {
    wraps := if ty == ty' then (Part(c, ty) + n) / ULONG else 0;
  }

  /** A run: one state more than operations, each state reached from the one before. */
  ghost predicate IsRun(states: seq<map<Key, Counter>>, ops: seq<Op>) {
    |states| == |ops| + 1 && forall i :: 0 <= i < |ops| ==> Step(states[i], ops[i], states[i + 1])
  }

  ghost predicate NoneWraps(states: seq<map<Key, Counter>>, ops: seq<Op>, ty: CountType)
    requires |states| > |ops|
  {
    forall i :: 0 <= i < |ops| ==> !WrapsAt(states[i], ops[i], states[i + 1], ty)
  }

  lemma NoneWrapsPrefix(states: seq<map<Key, Counter>>, ops: seq<Op>, ty: CountType)
    requires |states| > |ops| > 0
    ensures var n := |ops| - 1;
      && NoneWraps(states, ops, ty)
      <==> NoneWraps(states[..|ops|], ops[..n], ty) && !WrapsAt(states[n], ops[n], states[n + 1], ty)
  {
    hide WrapsAt;
    var n := |ops| - 1;
    var before, os := states[..|ops|], ops[..n];
    forall i | 0 <= i < n
      ensures WrapsAt(before[i], os[i], before[i + 1], ty) == WrapsAt(states[i], ops[i], states[i + 1], ty)
    {
    }
  }

  lemma RunPrefix(states: seq<map<Key, Counter>>, ops: seq<Op>)
    requires IsRun(states, ops) && ops != []
    ensures var n := |ops| - 1; IsRun(states[..|ops|], ops[..n]) && Step(states[n], ops[n], states[n + 1])
  {
    hide Step;
  }

  /**
   Over every run the totals grow by exactly what was added, up to wrap-around; and nothing wraps
   around exactly if every count stays within the range of the counter that it lands on.
   */
  lemma {:induction false} CountsConserved(states: seq<map<Key, Counter>>, ops: seq<Op>, ty: CountType)
    returns (wraps: nat)
    requires IsRun(states, ops)
    ensures Unwrapped(Total(states[|ops|], ty), wraps, ULONG) == Total(states[0], ty) + AddedBy(ops, ty)
    ensures wraps == 0 <==> NoneWraps(states, ops, ty)
    decreases |ops|
  {
    if ops == [] {
      wraps := 0;
    } else {
      var n := |ops| - 1;
      RunPrefix(states, ops);
      NoneWrapsPrefix(states, ops, ty);
      hide Step, Total, Added, NoneWraps, WrapsAt, IsRun, Unwrapped;
      var before := CountsConserved(states[..|ops|], ops[..n], ty);
      var more := StepTotal(states[n], ops[n], states[n + 1], ty);
      wraps := Accumulated(ULONG, Total(states[0], ty), AddedBy(ops[..n], ty), Total(states[n], ty), before,
                           Added(ops[n], ty), Total(states[n + 1], ty), more);
    }
  }

  /** The totals are exact if and only if no counter wraps around. */
  lemma CountsExactly(states: seq<map<Key, Counter>>, ops: seq<Op>, ty: CountType)
    requires IsRun(states, ops)
    ensures Total(states[|ops|], ty) == Total(states[0], ty) + AddedBy(ops, ty) <==> NoneWraps(states, ops, ty)
  {
    hide Total, AddedBy, NoneWraps;
    var wraps := CountsConserved(states, ops, ty);
    assert wraps > 0 ==> wraps * ULONG >= ULONG;
  }

  /** A new tree that is given 2^64 - 1 packets and one more, counts none of them. */
  lemma CountWrapsAround(addr: Key) returns (states: seq<map<Key, Counter>>, ops: seq<Op>)
    ensures IsRun(states, ops) && states[0] == map[Zeros(32) := Counter(0, 0)]
    ensures AddedBy(ops, Source) == ULONG && Total(states[|ops|], Source) == Total(states[0], Source)
  {
    var z := Zeros(32);
    var m0, m1 := map[z := Counter(0, 0)], map[z := Counter(ULONG - 1, 0)];
    var op1, op2 := AddCount(addr, Source, ULONG - 1), AddCount(addr, Source, 1);
    states, ops := [m0, m1, m0], [op1, op2];
    assert IsClosest(m0, addr, z) && m1 == m0[z := Bump(m0[z], Source, ULONG - 1)];
    assert IsClosest(m1, addr, z) && m0 == m1[z := Bump(m1[z], Source, 1)];
    assert ops[..1] == [op1] && [op1][..0] == [];
    assert AddedBy([op1], Source) == ULONG - 1;
  }

  /** Existing counters survive every run that only adds subnets, and no run loses a subnet. */
  lemma {:induction false} SubnetsKept(states: seq<map<Key, Counter>>, ops: seq<Op>, k: Key)
    requires IsRun(states, ops) && k in states[0]
    ensures k in states[|ops|]
    ensures (forall i :: 0 <= i < |ops| ==> ops[i].AddSubnet?) ==> states[|ops|][k] == states[0][k]
    decreases |ops|
  {
    if ops != [] {
      var n := |ops| - 1;
      SubnetsKept(states[..|ops|], ops[..n], k);
      assert Step(states[n], ops[n], states[n + 1]);
    }
  }

  /* ---------- which subnet a packet is counted for ---------- */

  /** Two addresses are of the same subnet exactly if they agree in the bits of the mask. */
  lemma SameSubnetExactly(a: Key, b: Key, mask: Key)
    requires |a| == |b| == |mask|
    ensures And(a, mask) == And(b, mask) <==> forall i :: 0 <= i < |mask| && mask[i] ==> a[i] == b[i]
  {
    if And(a, mask) == And(b, mask) {
      assert forall i :: 0 <= i < |mask| ==> And(a, mask)[i] == And(b, mask)[i];
    }
  }

  /** A mask of p leading ones. */
  predicate IsMask(mask: Key, p: nat) {
    p <= |mask| && forall i :: 0 <= i < |mask| ==> (mask[i] <==> i < p)
  }

  /** The key of a subnet has the prefix of all its addresses. */
  lemma SubnetPrefix(addr: Key, mask: Key, p: nat)
    requires |addr| == |mask| && IsMask(mask, p)
    ensures Agree(And(addr, mask), addr, p)
  {
  }

  lemma ClosestInside(m: map<Key, Counter>, a: Key, k: Key, subnet: Key, p: nat)
    requires IsClosest(m, a, k) && subnet in m && Agree(subnet, a, p)
    ensures Agree(k, a, p)
  {
    assert Agree(a, subnet, p);
  }

  /** After a subnet was added, its key is in all later states. */
  lemma SubnetStays(states: seq<map<Key, Counter>>, ops: seq<Op>, i: nat, j: nat)
    requires IsRun(states, ops) && i < j < |ops| && ops[i].AddSubnet?
    ensures |ops[i].addr| == |ops[i].mask| && And(ops[i].addr, ops[i].mask) in states[j]
  {
    hide And;
    assert Step(states[i], ops[i], states[i + 1]);
    RunPart(states, ops, i + 1, j);
    hide IsRun, Step;
    SubnetsKept(states[i + 1..j + 1], ops[i + 1..j], And(ops[i].addr, ops[i].mask));
  }

  /** After a subnet was added, every packet from it is counted for a key with its prefix. */
  lemma CountedInside(states: seq<map<Key, Counter>>, ops: seq<Op>, i: nat, j: nat, p: nat) returns (k: Key)
    requires IsRun(states, ops) && i < j < |ops|
    requires ops[i].AddSubnet? && IsMask(ops[i].mask, p) && ops[j].AddCount? && Agree(ops[j].addr, ops[i].addr, p)
    ensures Agree(k, ops[i].addr, p) && k in states[j]
    ensures states[j + 1] == states[j][k := Bump(states[j][k], ops[j].ty, ops[j].n)]
  {
    hide And, Bump;
    SubnetStays(states, ops, i, j);
    assert Step(states[j], ops[j], states[j + 1]);
    SubnetPrefix(ops[i].addr, ops[i].mask, p);
    hide IsRun, IsMask;
    var a, m := ops[j].addr, states[j];
    k :| IsClosest(m, a, k) && states[j + 1] == m[k := Bump(m[k], ops[j].ty, ops[j].n)];
    ClosestInside(m, a, k, And(ops[i].addr, ops[i].mask), p);
  }

  lemma RunPart(states: seq<map<Key, Counter>>, ops: seq<Op>, i: nat, j: nat)
    requires IsRun(states, ops) && i <= j <= |ops|
    ensures IsRun(states[i..j + 1], ops[i..j])
  {
    hide Step;
  }

  lemma {:induction false} ClosestExists<T>(m: map<Key, T>, a: Key) returns (k: Key)
    requires m != map[]
    ensures IsClosest(m, a, k)
    decreases |m|
  {
    k :| k in m;
    var rest := m - {k};
    if rest != map[] {
      var k' := ClosestExists(rest, a);
      assert forall x :: x in m ==> x == k || x in rest;
      k := if CommonPrefix(a, k) < CommonPrefix(a, k') then k' else k;
    }
  }

  /** A packet is counted for subnet s, and for no other, exactly if every other key differs from it earlier. */
  lemma CountedForExactly<T>(m: map<Key, T>, a: Key, s: Key)
    requires s in m
    ensures (forall k :: IsClosest(m, a, k) ==> k == s) <==>
      forall k :: k in m && k != s ==> CommonPrefix(a, k) < CommonPrefix(a, s)
  {
    var c := ClosestExists(m, a);
    if forall k :: IsClosest(m, a, k) ==> k == s {
      forall k | k in m && k != s
        ensures CommonPrefix(a, k) < CommonPrefix(a, s)
      {
        assert !IsClosest(m, a, k) && c == s;
      }
    }
  }

  /** An address that is counted for another host, although it is only in the subnet of all addresses. */
  lemma CountedForNeighbor<T>(m: map<Key, T>, a: Key)
    requires var z := Zeros(32); a == z[30 := true] && m.Keys == {z, a[31 := true]}
    ensures forall k :: IsClosest(m, a, k) ==> k == a[31 := true]
  {
    var z, b := Zeros(32), a[31 := true];
    PrefixIs(a, z, 30);
    PrefixIs(a, b, 31);
    CountedForExactly(m, a, b);
  }

  /* ---------- the class ---------- */

  class SubnetCounterTree {
    const trie: Trie<Counter>

    ghost predicate Valid()
      reads this, trie, trie.nodes
    {
      trie.bytes == 4 && trie.Valid() && trie.head.key == Zeros(32)
    }

    ghost function Counters(): map<Key, Counter>
      reads this, trie
    {
      trie.Contents()
    }

    constructor ()
      ensures Valid() && fresh(trie) && fresh(trie.nodes)
      ensures Counters() == map[Zeros(32) := Counter(0, 0)]
    {
      trie := new Trie<Counter>(4, Counter(0, 0));
    }

    method AddSubnet(addr: Key, mask: Key)
      requires Valid() && |addr| == |mask| == 32
      modifies trie, trie.nodes
      ensures Valid() && fresh(trie.nodes - old(trie.nodes))
      ensures Step(old(Counters()), Op.AddSubnet(addr, mask), Counters())
    {
      var subnet := And(addr, mask);
      var found := trie.Exists(subnet);
      if !found {
        var n := trie.Insert(subnet, Counter(0, 0));
      }
    }

    method AddCount(addr: Key, ty: CountType, n: nat)
      requires Valid() && |addr| == 32 && n < ULONG
      modifies trie, trie.nodes
      ensures Valid() && trie.nodes == old(trie.nodes)
      ensures Step(old(Counters()), Op.AddCount(addr, ty, n), Counters())
    {
      hide Trie.Valid, Trie.Contents, CommonPrefix, IsClosest;
      var node := Closest(addr);
      ghost var k, c := node.key, node.data;
      var counter := node.data;
      match ty {
        case Source => counter := counter.(src := (counter.src + n) % ULONG);
        case Dest => counter := counter.(dst := (counter.dst + n) % ULONG);
      }
      trie.SetData(node, counter);
      assert Counters() == old(Counters())[k := Bump(c, ty, n)];
    }

    /** The node whose key has a longest common prefix with addr. */
    method Closest(addr: Key) returns (node: Node<Counter>)
      requires Valid() && |addr| == 32
      ensures node in trie.nodes && IsClosest(Counters(), addr, node.key) && node.data == Counters()[node.key]
    {
      hide Trie.Valid, Trie.Contents, CommonPrefix;
      node := trie.LookupGroup(addr);
    }

    /** Resets the counters of the listed nodes, which leaves out the head: the zero key keeps its counts. */
    method ClearCounters()
      requires Valid()
      modifies trie, trie.nodes
      ensures Valid() && trie.nodes == old(trie.nodes)
      ensures Counters() == Cleared(old(Counters()), old(Counters()).Keys - {Zeros(32)})
    {
      hide Trie.Valid, Trie.Contents, Cleared;
      ghost var c0 := Counters();
      ghost var done: set<Key> := {};
      var nodes := trie.GetNodeList();
      trie.ListedKeys(nodes);
      ghost var keys := KeysOf(trie, nodes);
      hide FirstKeys;
      FirstKeysMore(keys);
      ClearedMore(c0, {}, Zeros(32));
      var i := 0;
      while i < |nodes|
        invariant 0 <= i <= |nodes| && Valid()
        invariant trie.nodes == old(trie.nodes) && trie.head == old(trie.head)
        invariant forall n :: n in trie.nodes ==> n.key == old(n.key)
        invariant done == FirstKeys(keys, i)
        invariant Counters() == Cleared(c0, done)
      {
        ClearedMore(c0, done, nodes[i].key);
        trie.SetData(nodes[i], Counter(0, 0));
        done := done + {nodes[i].key};
        i := i + 1;
      }
    }
  }

  ghost function FirstKeys(keys: seq<Key>, i: nat): set<Key>
    requires i <= |keys|
  {
    set j | 0 <= j < i :: keys[j]
  }

  lemma KeysOf(trie: Trie<Counter>, nodes: seq<Node<Counter>>) returns (keys: seq<Key>)
    requires trie.Valid() && multiset(nodes) == multiset(trie.nodes - {trie.head})
    ensures |keys| == |nodes| && forall j :: 0 <= j < |nodes| ==> keys[j] == nodes[j].key
    ensures FirstKeys(keys, |keys|) == trie.Contents().Keys - {trie.head.key}
  {
    hide Trie.Valid;
    trie.ListedKeys(nodes);
    keys := seq(|nodes|, j requires 0 <= j < |nodes| reads nodes => nodes[j].key);
  }

  lemma FirstKeysMore(keys: seq<Key>)
    ensures FirstKeys(keys, 0) == {}
    ensures forall i :: 0 <= i < |keys| ==> FirstKeys(keys, i + 1) == FirstKeys(keys, i) + {keys[i]}
  {
  }

  lemma ClearedMore(m: map<Key, Counter>, ks: set<Key>, k: Key)
    ensures Cleared(m, {}) == m
    ensures k in m ==> Cleared(m, ks)[k := Counter(0, 0)] == Cleared(m, ks + {k})
    ensures Cleared(m, ks).Keys == m.Keys
  {
  }

  function Cleared(m: map<Key, Counter>, ks: set<Key>): map<Key, Counter> {
    map k | k in m :: if k in ks then Counter(0, 0) else m[k]
  }

  /** All counters are zero after clearing exactly if nothing was counted for the zero subnet before. */
  lemma AllClearedExactly(m: map<Key, Counter>)
    requires Zeros(32) in m
    ensures (forall k :: k in m ==> Cleared(m, m.Keys - {Zeros(32)})[k] == Counter(0, 0)) <==>
      m[Zeros(32)] == Counter(0, 0)
  {
    var c := Cleared(m, m.Keys - {Zeros(32)});
    assert c[Zeros(32)] == m[Zeros(32)];
  }

  /** A count that is left after clearing. */
  lemma ZeroSubnetNotCleared(m: map<Key, Counter>)
    requires m == map[Zeros(32) := Counter(1, 0)]
    ensures Cleared(m, m.Keys - {Zeros(32)}) == m
  {
  }

  predicate WellFormed(op: Op) {
    |op.addr| == 32 && match op case AddSubnet(_, mask) => |mask| == 32 case AddCount(_, _, n) => n < ULONG
  }

  /** A new tree on which operations are done one after the other: what it does is a run. */
  method Run(ops: seq<Op>) returns (tree: SubnetCounterTree, ghost states: seq<map<Key, Counter>>)
    requires forall op :: op in ops ==> WellFormed(op)
    ensures IsRun(states, ops) && states[0] == map[Zeros(32) := Counter(0, 0)]
    ensures tree.Valid() && tree.Counters() == states[|ops|]
  {
    hide Trie.Valid, Trie.Contents, Step, IsRun;
    tree := new SubnetCounterTree();
    states := [tree.Counters()];
    RunStart(tree.Counters());
    for i := 0 to |ops|
      invariant fresh(tree) && fresh(tree.trie) && fresh(tree.trie.nodes) && tree.Valid()
      invariant |states| == i + 1 && states[0] == map[Zeros(32) := Counter(0, 0)]
      invariant IsRun(states, ops[..i]) && tree.Counters() == states[i]
    {
      assert ops[i] in ops && ops[..i + 1] == ops[..i] + [ops[i]];
      match ops[i] {
        case AddSubnet(a, mask) => tree.AddSubnet(a, mask);
        case AddCount(a, ty, n) => tree.AddCount(a, ty, n);
      }
      RunMore(states, ops[..i], ops[i], tree.Counters());
      states := states + [tree.Counters()];
    }
    assert ops[..|ops|] == ops;
  }

  lemma RunStart(m: map<Key, Counter>)
    ensures IsRun([m], [])
  {
  }

  lemma RunMore(states: seq<map<Key, Counter>>, ops: seq<Op>, op: Op, m: map<Key, Counter>)
    requires IsRun(states, ops) && Step(states[|ops|], op, m)
    ensures IsRun(states + [m], ops + [op])
  {
    hide Step;
  }
}
