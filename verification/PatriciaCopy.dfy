/**
 Copying a trie. The copy is built with the same downward links, and every upward link is then
 found again by the bit index of its target alone, as the first node in the node list with that
 bit index.
 */
module PatriciaCopy {
  import opened BitKeys
  import opened PatriciaTree

  /* ---------- finding a node by its bit index ---------- */

  /** Position of the first node in list with bit index i. */
  ghost function First<N>(list: seq<N>, e: map<N, Links<N>>, i: int): (j: nat)
    requires forall n :: n in list ==> n in e
    ensures j <= |list|
    ensures j < |list| ==> e[list[j]].bit == i
    ensures forall j' :: 0 <= j' < j ==> e[list[j']].bit != i
  {
    if list == [] || e[list[0]].bit == i then 0 else 1 + First(list[1..], e, i)
  }

  lemma ListedOnce<N>(list: seq<N>, xs: set<N>)
    requires multiset(list) == multiset(xs)
    ensures forall n {:trigger n in xs} :: n in xs ==> n in list
    ensures forall n {:trigger n in list} :: n in list ==> n in xs
    ensures forall i :: 0 <= i < |list| ==> list[i] in xs
    ensures forall i, j :: 0 <= i < j < |list| ==> list[i] != list[j]
  {
    assert forall n :: n in list <==> n in multiset(list);
    forall i | 0 <= i < |list|
      ensures list[i] in xs
    {
      assert list[i] in multiset(list);
    }
    forall i, j | 0 <= i < j < |list|
      ensures list[i] != list[j]
    {
      assert list == list[..j] + list[j..];
      assert multiset(list)[list[j]] == multiset(list[..j])[list[j]] + multiset(list[j..])[list[j]];
      assert list[j] in list[j..] && list[i] in list[..j];
    }
  }

  lemma PreorderMembers<N, T>(t: Tree<N, T>)
    requires Linked(t)
    ensures forall n {:trigger n in Edges(t)} :: n in Edges(t) ==> n in Preorder(t)
    ensures forall n {:trigger n in Preorder(t)} :: n in Preorder(t) ==> n in Edges(t)
    ensures forall i :: 0 <= i < |Preorder(t)| ==> Preorder(t)[i] in Edges(t)
    ensures forall i, j :: 0 <= i < j < |Preorder(t)| ==> Preorder(t)[i] != Preorder(t)[j]
  {
    hide Edges, Preorder;
    PreorderOnce(t);
    ListedOnce(Preorder(t), Edges(t).Keys);
  }

  /** The node that the bit index of m leads back to: the first listed with that bit index, or the head. */
  ghost function SameBit<N, T>(t: Tree<N, T>, head: N, m: N): N
    requires Linked(t)
  {
    PreorderMembers(t);
    if m == head || m !in Edges(t) then head
    else
      var j := First(Preorder(t), Edges(t), Edges(t)[m].bit);
      assert j < |Preorder(t)| by {
        var i :| 0 <= i < |Preorder(t)| && Preorder(t)[i] == m;
      }
      Preorder(t)[j]
  }

  lemma SameBitListed<N, T>(t: Tree<N, T>, head: N, m: N)
    requires Linked(t) && m in Edges(t) && m != head && forall n :: n in Preorder(t) ==> n in Edges(t)
    ensures var j := First(Preorder(t), Edges(t), Edges(t)[m].bit);
      j < |Preorder(t)| && SameBit(t, head, m) == Preorder(t)[j]
  {
    hide Preorder, Edges, Linked;
    PreorderMembers(t);
    var i :| 0 <= i < |Preorder(t)| && Preorder(t)[i] == m;
  }

  /** The node whose copy the copied upward link to m points to. A link from m to itself is kept as it is. */
  ghost function Refound<N, T>(t: Tree<N, T>, head: N, m: N): N
    requires Linked(t) && (m == head || m in Edges(t))
  {
    if m == head || LinkSource(t, m, head, true).0 == m then m else SameBit(t, head, m)
  }

  /**
   No node that is linked from below is listed after another node with the same bit index. It is
   enough that no two nodes share a bit index.
   */
  ghost predicate NoEarlierTwin<N, T>(t: Tree<N, T>, head: N)
    requires Linked(t)
  {
    PreorderMembers(t);
    var list := Preorder(t);
    forall i, j :: 0 <= i < j < |list| && Edges(t)[list[i]].bit == Edges(t)[list[j]].bit ==>
      LinkSource(t, list[j], head, true).0 == list[j]
  }

  ghost predicate AllRefound<N, T>(t: Tree<N, T>, head: N)
    requires Linked(t)
  {
    forall m :: m in Edges(t) ==> Refound(t, head, m) == m
  }

  /** A listed node is found by its bit index exactly if it is the first with that bit index. */
  lemma SameBitExactly<N, T>(t: Tree<N, T>, head: N, j: nat)
    requires Linked(t) && head !in Edges(t) && j < |Preorder(t)| && forall n :: n in Preorder(t) ==> n in Edges(t)
    ensures SameBit(t, head, Preorder(t)[j]) == Preorder(t)[j]
       <==> forall i :: 0 <= i < j ==> Edges(t)[Preorder(t)[i]].bit != Edges(t)[Preorder(t)[j]].bit
  {
    hide Preorder, Edges, Linked;
    PreorderMembers(t);
  }

  lemma RefoundExactly<N, T>(t: Tree<N, T>, head: N)
    requires Linked(t) && head !in Edges(t)
    ensures AllRefound(t, head) <==> NoEarlierTwin(t, head)
  {
    hide Preorder, Edges, Linked, LinkSource, SameBit;
    var list, e := Preorder(t), Edges(t);
    PreorderMembers(t);
    if NoEarlierTwin(t, head) {
      forall m | m in e
        ensures Refound(t, head, m) == m
      {
        assert m in list;
        var j :| 0 <= j < |list| && list[j] == m;
        SameBitExactly(t, head, j);
      }
    }
    if AllRefound(t, head) {
      forall i, j | 0 <= i < j < |list| && e[list[i]].bit == e[list[j]].bit
        ensures LinkSource(t, list[j], head, true).0 == list[j]
      {
        assert Refound(t, head, list[j]) == list[j];
        SameBitExactly(t, head, j);
      }
    }
  }

  /**
   In the copy the walk for a key ends at the copy of a node that stores it, for all keys of the
   trie, exactly when no node has an earlier twin.
   */
  lemma LookupsSurviveExactly<N, T>(t: Tree<N, T>, head: N, ns: set<N>, w: nat)
    requires IsTrie(t, head, ns, w)
    ensures (forall k :: k in Contents(t) ==> FoundInCopy(t, head, ns, k)) <==> NoEarlierTwin(t, head)
  {
    hide Linked, Sorted, LinkSource, NoEarlierTwin, Refound, Edges, Ups, Contents, Find;
    RefoundExactly(t, head);
    if AllRefound(t, head) {
      forall k | k in Contents(t)
        ensures FoundInCopy(t, head, ns, k)
      {
        WalkStores(t, head, ns, w, k);
      }
    }
    if forall k :: k in Contents(t) ==> FoundInCopy(t, head, ns, k) {
      forall m | m in Edges(t)
        ensures Refound(t, head, m) == m
      {
        var k := Ups(t)[m].key;
        FindUp(t, -1, w, m);
        assert FoundInCopy(t, head, ns, k);
        var m' := Refound(t, head, m);
        RefoundIn(t, head, ns, w, m);
        FindUp(t, -1, w, m');
      }
    }
  }

  /** The node whose copy is found for k stores k. */
  ghost predicate FoundInCopy<N, T>(t: Tree<N, T>, head: N, ns: set<N>, k: Key)
    requires Linked(t) && Ups(t).Keys == ns && Edges(t).Keys == ns - {head}
  {
    FindInUps(t, k);
    var m := Refound(t, head, Find(t, k).n);
    m in Ups(t) && Ups(t)[m].key == k
  }

  lemma WalkStores<N, T>(t: Tree<N, T>, head: N, ns: set<N>, w: nat, k: Key)
    requires IsTrie(t, head, ns, w) && k in Contents(t) && AllRefound(t, head)
    ensures FoundInCopy(t, head, ns, k)
  {
    SortedWidth(t, -1, w, k);
    FindIn(t, -1, k);
    FindInUps(t, k);
    assert Refound(t, head, head) == head;
  }

  lemma RefoundIn<N, T>(t: Tree<N, T>, head: N, ns: set<N>, w: nat, m: N)
    requires IsTrie(t, head, ns, w) && m in ns
    ensures Refound(t, head, m) in ns
  {
    PreorderMembers(t);
  }

  /* ---------- a trie whose copy loses a key ---------- */

  function ByteKey(a: bool, b: bool, c: bool): (k: Key)
    ensures |k| == 8 && k[0] == a && k[1] == b && k[2] == c && forall i :: 3 <= i < 8 ==> !k[i]
  {
    [a, b, c, false, false, false, false, false]
  }

  const K000 := ByteKey(false, false, false)
  const K100 := ByteKey(true, false, false)
  const K010 := ByteKey(false, true, false)
  const K110 := ByteKey(true, true, false)
  const K111 := ByteKey(true, true, true)

  lemma TwinKeys()
    ensures Zeros(8) == K000 && |K100| == |K010| == |K110| == |K111| == 8
    ensures K100 !in {K000} && K010 !in {K000, K100} && K110 !in {K000, K100, K010} && K111 !in {K000, K100, K010, K110}
    ensures Agree(K100, K000, 0) && K100[0] != K000[0] && Agree(K010, K000, 1) && K010[1] != K000[1]
    ensures Agree(K110, K100, 1) && K110[1] != K100[1] && Agree(K111, K110, 2) && K111[2] != K110[2]
  {
  }

  ghost function TwinLeft<N>(head: N, b: N): Tree<N, int> {
    Branch(b, 1, Up(head, K000, 0), Up(b, K010, 2))
  }

  ghost function TwinRight<N>(a: N, c: N, d: N): Tree<N, int> {
    Branch(c, 1, Up(a, K100, 1), Branch(d, 2, Up(c, K110, 3), Up(d, K111, 4)))
  }

  /** The trie of the zero key and the keys 128, 64, 192 and 224, inserted in this order as nodes a, b, c and d. */
  ghost function Twins<N>(head: N, a: N, b: N, c: N, d: N): Tree<N, int> {
    Branch(a, 0, TwinLeft(head, b), TwinRight(a, c, d))
  }

  lemma TwinsGrow<N>(head: N, a: N, b: N, c: N, d: N)
    ensures var t0, u1 := Up(head, K000, 0), Up(a, K100, 1);
      var t1, t2 := Branch(a, 0, t0, u1), Branch(a, 0, TwinLeft(head, b), u1);
      var t3 := Branch(a, 0, TwinLeft(head, b), Branch(c, 1, u1, Up(c, K110, 3)));
      && Insert(t0, K100, 1, 0, a) == t1 && Find(t0, K100).key == K000
      && Insert(t1, K010, 2, 1, b) == t2 && Find(t1, K010).key == K000
      && Insert(t2, K110, 3, 1, c) == t3 && Find(t2, K110).key == K100
      && Insert(t3, K111, 4, 2, d) == Twins(head, a, b, c, d) && Find(t3, K111).key == K110
  {
    hide ByteKey;
    var r := Branch(c, 1, Up(a, K100, 1), Up(c, K110, 3));
    assert Insert(r, K111, 4, 2, d) == TwinRight(a, c, d) && Find(r, K111).key == K110;
  }

  lemma OneListed<N>(n: N, bit: nat, l: Tree<N, int>, r: Tree<N, int>)
    requires l.Up? && r.Up?
    ensures Preorder(Branch(n, bit, l, r)) == [n]
  {
    assert Preorder(l) == [] && Preorder(r) == [];
    assert [n] + [] + [] == [n];
  }

  lemma TwinsPreorder<N>(head: N, a: N, b: N, c: N, d: N)
    ensures Preorder(Twins(head, a, b, c, d)) == [a, b, c, d]
  {
    var l, r := TwinLeft(head, b), TwinRight(a, c, d);
    OneListed(b, 1, l.left, l.right);
    OneListed(d, 2, r.right.left, r.right.right);
    assert Preorder(r) == [c] + Preorder(r.left) + Preorder(r.right) == [c, d];
  }

  lemma TwinsListed<N>(head: N, a: N, b: N, c: N, d: N)
    requires Linked(Twins(head, a, b, c, d))
    ensures var e := Edges(Twins(head, a, b, c, d));
      a in e && b in e && c in e && e[a].bit == 0 && e[b].bit == 1 && e[c].bit == 1
  {
    var t, l, r := Twins(head, a, b, c, d), TwinLeft(head, b), TwinRight(a, c, d);
    assert Edges(l)[b].bit == 1 && Edges(r)[c].bit == 1 && Edges(t)[a].bit == 0;
    hide Edges, Ups, Linked;
    ChildPart(t, l);
    ChildPart(t, r);
  }

  lemma TwinsWalk<N>(head: N, a: N, b: N, c: N, d: N)
    requires c !in {head, a, b, d}
    ensures LinkSource(Twins(head, a, b, c, d), c, head, true).0 == d
    ensures Find(Twins(head, a, b, c, d), K110).n == c
  {
    var l, r := TwinLeft(head, b), TwinRight(a, c, d);
    assert c !in Ups(l) && c !in Ups(r.left) && c in Ups(r.right.left);
    assert LinkSource(r.right, c, r.n, true).0 == d;
    assert Find(r.right, K110) == r.right.left && Find(r, K110) == Find(r.right, K110);
  }

  /** Nodes b and c share a bit index, so in the copy the key of c is looked for at b. */
  lemma TwinsConfused<N>(head: N, a: N, b: N, c: N, d: N)
    requires c !in {head, a, b, d} && Linked(Twins(head, a, b, c, d))
    ensures c in Edges(Twins(head, a, b, c, d)) && Find(Twins(head, a, b, c, d), K110).n == c
    ensures Refound(Twins(head, a, b, c, d), head, c) == b
  {
    var t := Twins(head, a, b, c, d);
    TwinsPreorder(head, a, b, c, d);
    TwinsListed(head, a, b, c, d);
    TwinsWalk(head, a, b, c, d);
    PreorderMembers(t);
    hide Linked, Edges, Ups, Preorder, Find, LinkSource, Twins, SameBit;
    SameBitListed(t, head, c);
    SecondFound([a, b, c, d], Edges(t), 1);
  }

  lemma SecondFound<N>(list: seq<N>, e: map<N, Links<N>>, i: int)
    requires |list| >= 2 && (forall n :: n in list ==> n in e) && e[list[0]].bit != i && e[list[1]].bit == i
    ensures First(list, e, i) == 1
  {
  }

  /* ---------- the copied tree ---------- */

  /** Inner nodes renamed by f, targets of upward links by h. */
  ghost function CopyTree<N, T>(t: Tree<N, T>, f: map<N, N>, h: map<N, N>): (t': Tree<N, T>)
    requires Edges(t).Keys <= f.Keys && Ups(t).Keys <= h.Keys
    ensures t'.Branch? <==> t.Branch?
    ensures t'.n == if t.Branch? then f[t.n] else h[t.n]
  {
    match t
    case Up(m, k, d) => Up(h[m], k, d)
    case Branch(n, b, l, r) => Branch(f[n], b, CopyTree(l, f, h), CopyTree(r, f, h))
  }

  ghost predicate Injective<N>(f: map<N, N>) {
    forall n, m :: n in f && m in f && f[n] == f[m] ==> n == m
  }

  lemma {:induction false} CopySorted<N, T>(t: Tree<N, T>, f: map<N, N>, h: map<N, N>, lo: int, w: nat)
    requires Edges(t).Keys <= f.Keys && Ups(t).Keys <= h.Keys
    ensures Contents(CopyTree(t, f, h)) == Contents(t)
    ensures Sorted(t, lo, w) ==> Sorted(CopyTree(t, f, h), lo, w)
  {
    if t.Branch? {
      CopySorted(t.left, f, h, t.bit, w);
      CopySorted(t.right, f, h, t.bit, w);
    }
  }

  lemma {:induction false} CopyFind<N, T>(t: Tree<N, T>, f: map<N, N>, h: map<N, N>, k: Key)
    requires Edges(t).Keys <= f.Keys && Ups(t).Keys <= h.Keys
    ensures Find(t, k).n in h && Find(CopyTree(t, f, h), k).n == h[Find(t, k).n]
  {
    if t.Branch? {
      CopyFind(Child(t, k), f, h, k);
    }
  }

  lemma {:induction false} CopyPreorder<N, T>(t: Tree<N, T>, f: map<N, N>, h: map<N, N>)
    requires Edges(t).Keys <= f.Keys && Ups(t).Keys <= h.Keys
    ensures |Preorder(CopyTree(t, f, h))| == |Preorder(t)|
    ensures forall i :: 0 <= i < |Preorder(t)| ==>
      Preorder(t)[i] in f && Preorder(CopyTree(t, f, h))[i] == f[Preorder(t)[i]]
  {
    if t.Branch? {
      var t' := CopyTree(t, f, h);
      CopyPreorder(t.left, f, h);
      CopyPreorder(t.right, f, h);
      assert Preorder(t) == [t.n] + Preorder(t.left) + Preorder(t.right);
      assert Preorder(t') == [f[t.n]] + Preorder(t'.left) + Preorder(t'.right);
      hide Preorder, Edges, Ups;
      ListsRenamed(t.n, Preorder(t.left), Preorder(t.right), Preorder(t'.left), Preorder(t'.right), f);
    }
  }

  lemma ListsRenamed<N>(n: N, a: seq<N>, b: seq<N>, a': seq<N>, b': seq<N>, f: map<N, N>)
    requires n in f && |a'| == |a| && |b'| == |b|
    requires forall i :: 0 <= i < |a| ==> a[i] in f && a'[i] == f[a[i]]
    requires forall i :: 0 <= i < |b| ==> b[i] in f && b'[i] == f[b[i]]
    ensures var c, c' := [n] + a + b, [f[n]] + a' + b';
      |c'| == |c| && forall i :: 0 <= i < |c| ==> c[i] in f && c'[i] == f[c[i]]
  {
  }

  ghost function Image<N>(s: set<N>, f: map<N, N>): set<N>
    requires s <= f.Keys
  {
    set n | n in s :: f[n]
  }

  lemma ImageFacts<N>(a: set<N>, b: set<N>, f: map<N, N>)
    requires a <= f.Keys && b <= f.Keys && Injective(f)
    ensures Image(a + b, f) == Image(a, f) + Image(b, f)
    ensures a !! b ==> Image(a, f) !! Image(b, f)
    ensures forall n :: n in f ==> (f[n] in Image(a, f) <==> n in a)
  {
  }

  /** A faithful renaming keeps the links. */
  lemma {:induction false} CopyLinks<N, T>(t: Tree<N, T>, f: map<N, N>)
    requires Linked(t) && Edges(t).Keys <= f.Keys && Ups(t).Keys <= f.Keys && Injective(f)
    ensures var t' := CopyTree(t, f, f);
      && Linked(t')
      && Edges(t').Keys == Image(Edges(t).Keys, f) && Ups(t').Keys == Image(Ups(t).Keys, f)
  {
    if t.Branch? {
      var l, r, t' := t.left, t.right, CopyTree(t, f, f);
      assert Ups(t).Keys == Ups(l).Keys + Ups(r).Keys && Ups(t').Keys == Ups(t'.left).Keys + Ups(t'.right).Keys;
      hide Edges, Ups, Image;
      EdgeKeys(t);
      EdgeKeys(t');
      CopyLinks(l, f);
      CopyLinks(r, f);
      ImageFacts(Edges(l).Keys, Edges(r).Keys, f);
      ImageFacts(Edges(r).Keys, Edges(l).Keys, f);
      ImageFacts(Ups(l).Keys, Ups(r).Keys, f);
      ImageFacts(Ups(r).Keys, Ups(l).Keys, f);
      ImageFacts({t.n} + Edges(l).Keys, Edges(r).Keys, f);
      ImageFacts({t.n}, Edges(l).Keys, f);
      ImageOne(t.n, f);
    } else {
      ImageOne(t.n, f);
      assert Ups(t).Keys == {t.n};
    }
  }

  lemma ImageOne<N>(n: N, f: map<N, N>)
    requires n in f
    ensures Image({n}, f) == {f[n]} && Image({}, f) == {}
  {
  }

  /** The renamed nodes store what the nodes stored. */
  lemma CopyUps<N, T>(t: Tree<N, T>, f: map<N, N>, lo: int, w: nat, m: N)
    requires Sorted(t, lo, w) && Linked(t) && Edges(t).Keys <= f.Keys && Ups(t).Keys <= f.Keys && Injective(f)
      && m in Ups(t)
    ensures f[m] in Ups(CopyTree(t, f, f)) && Ups(CopyTree(t, f, f))[f[m]] == Ups(t)[m]
  {
    var t', k := CopyTree(t, f, f), Ups(t)[m].key;
    hide Sorted, Linked, Edges, Ups, Contents, Find, CopyTree, Image;
    FindUp(t, lo, w, m);
    CopySorted(t, f, f, lo, w);
    CopyLinks(t, f);
    CopyFind(t, f, f, k);
    FindInUps(t', k);
    FindIn(t', lo, k);
  }

  /** The copy of a trie without earlier twins is a trie with the same keys and data. */
  lemma CopyIsTrie<N, T>(t: Tree<N, T>, head: N, ns: set<N>, w: nat, f: map<N, N>)
    requires IsTrie(t, head, ns, w) && f.Keys == ns && Injective(f)
    ensures IsTrie(CopyTree(t, f, f), f[head], Image(ns, f), w)
    ensures Contents(CopyTree(t, f, f)) == Contents(t)
  {
    hide Sorted, Linked, Edges, Ups, Contents, CopyTree;
    CopySorted(t, f, f, -1, w);
    CopyLinks(t, f);
    assert ns == (ns - {head}) + {head};
    ImageFacts(ns - {head}, {head}, f);
    ImageOne(head, f);
  }
}
