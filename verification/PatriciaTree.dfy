/**
 The shape behind a Patricia trie: a binary tree whose inner nodes are the trie nodes
 reached by downward links and whose leaves are the upward links. A leaf stands for the
 node N it points back to, together with the key and data stored there.
 */
module PatriciaTree {
  import opened BitKeys

  datatype Entry<T> = Entry(key: Key, data: T)

  datatype Links<N> = Links(bit: int, left: N, right: N)

  datatype Tree<N, T> =
    | Up(n: N, key: Key, data: T)
    | Branch(n: N, bit: nat, left: Tree<N, T>, right: Tree<N, T>)

  /* ---------- what a tree stores ---------- */

  /** The finite map that the tree represents. */
  ghost function Contents<N, T>(t: Tree<N, T>): map<Key, T> {
    match t
    case Up(_, k, d) => map[k := d]
    case Branch(_, _, l, r) => Contents(l) + Contents(r)
  }

  /** For every target of an upward link, what is stored there. */
  ghost function Ups<N, T>(t: Tree<N, T>): map<N, Entry<T>> {
    match t
    case Up(n, k, d) => map[n := Entry(k, d)]
    case Branch(_, _, l, r) => Ups(l) + Ups(r)
  }

  /** For every inner node, its bit index and its two links. */
  ghost function Edges<N, T>(t: Tree<N, T>): map<N, Links<N>> {
    match t
    case Up(_, _, _) => map[]
    case Branch(n, b, l, r) => (Edges(l) + Edges(r))[n := Links(b, l.n, r.n)]
  }

  ghost function AllNodes<N, T>(t: Tree<N, T>): set<N> {
    Edges(t).Keys + Ups(t).Keys
  }

  /** The inner nodes, parents before children, left before right. */
  ghost function Preorder<N, T>(t: Tree<N, T>): seq<N> {
    match t
    case Up(_, _, _) => []
    case Branch(n, _, l, r) => [n] + Preorder(l) + Preorder(r)
  }

  /* ---------- the invariant ---------- */

  /** Every key in ks has bit b equal to v, and width w. */
  ghost predicate OnSide(ks: set<Key>, w: nat, b: nat, v: bool) {
    forall k :: k in ks ==> |k| == w && b < w && k[b] == v
  }

  /** All keys in ks have the same first b bits. */
  ghost predicate SamePrefix(ks: set<Key>, b: nat) {
    forall k, k' :: k in ks && k' in ks ==> Agree(k, k', b)
  }

  /**
   Bit indices grow strictly downwards from lo; an inner node tests the first bit in which
   the keys below it differ, and sends the keys with a 0 there to the left.
   */
  ghost predicate Sorted<N, T>(t: Tree<N, T>, lo: int, w: nat) {
    match t
    case Up(_, k, _) => |k| == w
    case Branch(_, b, l, r) =>
      && lo < b < w
      && Sorted(l, b, w) && Sorted(r, b, w)
      && OnSide(Contents(l).Keys, w, b, false)
      && OnSide(Contents(r).Keys, w, b, true)
      && SamePrefix(Contents(t).Keys, b)
  }

  /**
   No node occurs twice as an inner node, none is the target of two upward links, and the
   upward link to an inner node comes from inside its own subtree.
   */
  ghost predicate Linked<N, T>(t: Tree<N, T>) {
    match t
    case Up(_, _, _) => true
    case Branch(n, _, l, r) =>
      && Linked(l) && Linked(r)
      && n !in Edges(l) && n !in Edges(r)
      && Edges(l).Keys !! Edges(r).Keys
      && Ups(l).Keys !! Ups(r).Keys
      && (n in Ups(l) || n in Ups(r))
  }

  /**
   A whole trie of nodes ns with keys of width w: every node is the target of one upward link, all but
   the head are inner nodes.
   */
  ghost predicate IsTrie<N, T>(t: Tree<N, T>, head: N, ns: set<N>, w: nat) {
    && Sorted(t, -1, w)
    && Linked(t)
    && head in ns && Ups(t).Keys == ns && Edges(t).Keys == ns - {head}
  }

  /* ---------- the walk ---------- */

  predicate GoesLeft(k: Key, b: int) {
    0 <= b < |k| && !k[b]
  }

  ghost function Child<N, T>(t: Tree<N, T>, k: Key): (c: Tree<N, T>)
    requires t.Branch?
    ensures c < t
  {
    if GoesLeft(k, t.bit) then t.left else t.right
  }

  ghost function Sibling<N, T>(t: Tree<N, T>, k: Key): (c: Tree<N, T>)
    requires t.Branch?
    ensures c < t
  {
    if GoesLeft(k, t.bit) then t.right else t.left
  }

  ghost function WithChild<N, T>(t: Tree<N, T>, k: Key, c: Tree<N, T>): Tree<N, T>
    requires t.Branch?
  {
    if GoesLeft(k, t.bit) then t.(left := c) else t.(right := c)
  }

  ghost function Redirect<N>(e: Links<N>, k: Key, x: N): Links<N> {
    if GoesLeft(k, e.bit) then e.(left := x) else e.(right := x)
  }

  /** The upward link at which the walk for k ends. */
  ghost function Find<N, T>(t: Tree<N, T>, k: Key): (u: Tree<N, T>)
    ensures u.Up?
  {
    if t.Up? then t else Find(Child(t, k), k)
  }

  /** The node the walk came through last, q being the node above t. */
  ghost function FindParent<N, T>(t: Tree<N, T>, k: Key, q: N): N {
    if t.Up? then q else FindParent(Child(t, k), k, t.n)
  }

  /** The node before that one. */
  ghost function FindGrand<N, T>(t: Tree<N, T>, k: Key, q: N): N
    requires t.Branch?
  {
    if Child(t, k).Up? then q else FindGrand(Child(t, k), k, t.n)
  }

  lemma {:induction false} FindIn<N, T>(t: Tree<N, T>, lo: int, k: Key)
    requires Sorted(t, lo, |k|)
    ensures var u := Find(t, k);
            u.key in Contents(t) && Contents(t)[u.key] == u.data && |u.key| == |k|
    ensures k in Contents(t) ==> Find(t, k).key == k
  {
    if t.Branch? {
      FindIn(Child(t, k), t.bit, k);
    }
  }

  lemma {:induction false} FindInUps<N, T>(t: Tree<N, T>, k: Key)
    requires Linked(t)
    ensures var u := Find(t, k); u.n in Ups(t) && Ups(t)[u.n] == Entry(u.key, u.data)
  {
    if t.Branch? {
      FindInUps(Child(t, k), k);
    }
  }

  /** Every prefix that k shares with some key of the tree it shares with the key found. */
  lemma {:induction false} FindReaches<N, T>(t: Tree<N, T>, k: Key)
    ensures Find(t, k).n in AllNodes(t)
  {
    if t.Branch? {
      FindReaches(Child(t, k), k);
    }
  }

  lemma {:induction false} FindSharesPrefix<N, T>(t: Tree<N, T>, lo: int, k: Key, k': Key, m: nat)
    requires Sorted(t, lo, |k|)
    requires k' in Contents(t) && Agree(k, k', m)
    ensures Agree(k, Find(t, k).key, m)
  {
    if t.Branch? {
      FindIn(Child(t, k), t.bit, k);
      if k' in Contents(Child(t, k)) {
        FindSharesPrefix(Child(t, k), t.bit, k, k', m);
      } else {
        assert k'[t.bit] != k[t.bit];
        assert Agree(k', Find(t, k).key, t.bit);
      }
    }
  }

  /** The walk ends at a key with the longest common prefix. */
  lemma FindLongestPrefix<N, T>(t: Tree<N, T>, lo: int, k: Key)
    requires Sorted(t, lo, |k|)
    ensures Find(t, k).key in Contents(t)
    ensures forall k' :: k' in Contents(t) ==> CommonPrefix(k, k') <= CommonPrefix(k, Find(t, k).key)
  {
    FindIn(t, lo, k);
    forall k' | k' in Contents(t)
      ensures CommonPrefix(k, k') <= CommonPrefix(k, Find(t, k).key)
    {
      FindSharesPrefix(t, lo, k, k', CommonPrefix(k, k'));
    }
  }

  /* ---------- insertion ---------- */

  /** The node m for the new key goes in front of the first node that tests a bit not below i. */
  ghost function Insert<N, T>(t: Tree<N, T>, k: Key, d: T, i: nat, m: N): (t': Tree<N, T>)
    ensures t'.Branch?
  {
    if t.Branch? && t.bit < i then WithChild(t, k, Insert(Child(t, k), k, d, i, m))
    else if GoesLeft(k, i) then Branch(m, i, Up(m, k, d), t)
    else Branch(m, i, t, Up(m, k, d))
  }

  /** Replacing the child on k's side by a tree of keys that belong there. f is any key of t. */
  lemma WithChildSorted<N, T>(t: Tree<N, T>, lo: int, w: nat, k: Key, f: Key, c: Tree<N, T>)
    requires t.Branch? && Sorted(t, lo, w) && |k| == w && f in Contents(t)
    requires Sorted(c, t.bit, w)
    requires OnSide(Contents(c).Keys, w, t.bit, k[t.bit])
    requires forall k' :: k' in Contents(c) ==> Agree(k', f, t.bit)
    ensures Sorted(WithChild(t, k, c), lo, w)
  {
    var t' := WithChild(t, k, c);
    forall k' | k' in Contents(t')
      ensures Agree(k', f, t.bit)
    {
      assert k' in Contents(c) || k' in Contents(Sibling(t, k));
    }
    assert SamePrefix(Contents(t').Keys, t.bit);
  }

  lemma WithChildContents<N, T>(t: Tree<N, T>, lo: int, w: nat, k: Key, c: Tree<N, T>)
    requires t.Branch? && Sorted(t, lo, w) && |k| == w
    requires OnSide(Contents(c).Keys, w, t.bit, k[t.bit])
    ensures Contents(t) == Contents(Sibling(t, k)) + Contents(Child(t, k))
    ensures Contents(WithChild(t, k, c)) == Contents(Sibling(t, k)) + Contents(c)
    ensures OnSide(Contents(Child(t, k)).Keys, w, t.bit, k[t.bit])
    ensures OnSide(Contents(Sibling(t, k)).Keys, w, t.bit, !k[t.bit])
  {
  }

  /** In front of t: all keys of t share the first i bits with k and differ from it in bit i. */
  lemma InsertHere<N, T>(t: Tree<N, T>, lo: int, k: Key, i: nat)
    requires Sorted(t, lo, |k|)
    requires t.Branch? ==> i <= t.bit
    requires i < |k| && Agree(k, Find(t, k).key, i)
    requires |Find(t, k).key| == |k| && k[i] != Find(t, k).key[i]
    ensures t.Branch? ==> i < t.bit
    ensures OnSide(Contents(t).Keys, |k|, i, !k[i])
    ensures forall c :: c in Contents(t) ==> Agree(c, k, i)
  {
    if t.Branch? {
      var f := Find(t, k).key;
      BranchKeys(t, lo, k);
      AllDiffer(Contents(t).Keys, k, i, f, t.bit);
    }
  }

  /**
   The keys of an inner node agree with the key where the walk for k ends, and that agrees with k in
   the tested bit.
   */
  lemma BranchKeys<N, T>(t: Tree<N, T>, lo: int, k: Key)
    requires t.Branch? && Sorted(t, lo, |k|)
    ensures var f := Find(t, k).key;
      && |f| == |k| && t.bit < |k| && f[t.bit] == k[t.bit]
      && forall c :: c in Contents(t) ==> |c| == |k| && Agree(c, f, t.bit)
  {
    var f := Find(t, k).key;
    FindIn(t, lo, k);
    FindIn(Child(t, k), t.bit, k);
    WithChildContents(t, lo, |k|, k, Child(t, k));
    assert SamePrefix(Contents(t).Keys, t.bit);
    forall c | c in Contents(t)
      ensures |c| == |k| && Agree(c, f, t.bit)
    {
      SortedWidth(t, lo, |k|, c);
    }
  }

  lemma AllDiffer(ks: set<Key>, k: Key, i: nat, f: Key, b: nat)
    requires i <= b < |k| == |f| && Agree(k, f, i) && k[i] != f[i] && f[b] == k[b]
    requires forall c :: c in ks ==> |c| == |k| && Agree(c, f, b)
    ensures i < b && OnSide(ks, |k|, i, !k[i]) && forall c :: c in ks ==> Agree(c, k, i)
  {
    forall c | c in ks
      ensures Agree(c, k, i) && c[i] != k[i]
    {
      assert Agree(c, f, b);
    }
  }

  lemma NewBranchSorted<N, T>(t: Tree<N, T>, lo: int, k: Key, d: T, i: nat, m: N)
    requires Sorted(t, i, |k|) && lo < i < |k|
    requires OnSide(Contents(t).Keys, |k|, i, !k[i])
    requires forall c :: c in Contents(t) ==> Agree(c, k, i)
    requires t.Branch? ==> i < t.bit
    ensures Sorted(Insert(t, k, d, i, m), lo, |k|)
    ensures Contents(Insert(t, k, d, i, m)) == Contents(t)[k := d]
  {
    var t', u := Insert(t, k, d, i, m), Up(m, k, d);
    assert t' == if GoesLeft(k, i) then Branch(m, i, u, t) else Branch(m, i, t, u);
    assert Sorted(u, i, |k|) && Contents(u) == map[k := d];
    NotOnSide(Contents(t).Keys, k, i);
    UnionOne(Contents(t), k, d);
    assert Contents(t') == Contents(t)[k := d];
    SamePrefixMore(Contents(t).Keys, k, i);
    assert Contents(t').Keys == Contents(t).Keys + {k};
    assert OnSide({k}, |k|, i, k[i]) && Contents(u).Keys == {k};
    hide Contents, OnSide, SamePrefix, Agree;
  }

  lemma UnionOne<K, V>(c: map<K, V>, k: K, d: V)
    requires k !in c
    ensures c + map[k := d] == c[k := d] && map[k := d] + c == c[k := d]
  {
  }

  lemma SamePrefixMore(ks: set<Key>, k: Key, i: nat)
    requires i <= |k| && forall c :: c in ks ==> Agree(c, k, i)
    ensures SamePrefix(ks + {k}, i)
  {
  }

  lemma NotOnSide(ks: set<Key>, k: Key, i: nat)
    requires i < |k| && OnSide(ks, |k|, i, !k[i])
    ensures k !in ks
  {
  }

  lemma UnionUpdate<K, V>(s: map<K, V>, c: map<K, V>, k: K, d: V)
    ensures s + c[k := d] == (s + c)[k := d]
  {
  }

  lemma InsertBelow<N, T>(t: Tree<N, T>, lo: int, k: Key, d: T, f: Key, c: Tree<N, T>)
    requires t.Branch? && Sorted(t, lo, |k|) && f in Contents(t) && Agree(k, f, t.bit)
    requires Sorted(c, t.bit, |k|)
    requires k !in Contents(Child(t, k)) && Contents(c) == Contents(Child(t, k))[k := d]
    ensures Sorted(WithChild(t, k, c), lo, |k|)
    ensures Contents(WithChild(t, k, c)) == Contents(t)[k := d]
    ensures k !in Contents(t)
  {
    var ch := Child(t, k);
    WithChildContents(t, lo, |k|, k, ch);
    assert OnSide(Contents(c).Keys, |k|, t.bit, k[t.bit]);
    forall k' | k' in Contents(c)
      ensures Agree(k', f, t.bit)
    {
      assert k' == k || k' in Contents(ch);
    }
    WithChildSorted(t, lo, |k|, k, f, c);
    WithChildContents(t, lo, |k|, k, c);
    UnionUpdate(Contents(Sibling(t, k)), Contents(ch), k, d);
  }

  lemma {:induction false} InsertSorted<N, T>(t: Tree<N, T>, lo: int, k: Key, d: T, i: nat, m: N)
    requires Sorted(t, lo, |k|)
    requires lo < i < |k|
    requires Agree(k, Find(t, k).key, i) && |Find(t, k).key| == |k| && k[i] != Find(t, k).key[i]
    ensures Sorted(Insert(t, k, d, i, m), lo, |k|)
    ensures Contents(Insert(t, k, d, i, m)) == Contents(t)[k := d]
    ensures k !in Contents(t)
  {
    if t.Branch? && t.bit < i {
      FindIn(t, lo, k);
      InsertSorted(Child(t, k), t.bit, k, d, i, m);
      InsertBelow(t, lo, k, d, Find(t, k).key, Insert(Child(t, k), k, d, i, m));
    } else {
      InsertHere(t, lo, k, i);
      NewBranchSorted(t, lo, k, d, i, m);
    }
  }

  /** The subtree in front of which the new node goes, and the node above it (q above t). */
  ghost function InsertPoint<N, T>(t: Tree<N, T>, k: Key, i: nat): Tree<N, T> {
    if t.Branch? && t.bit < i then InsertPoint(Child(t, k), k, i) else t
  }

  ghost function InsertParent<N, T>(t: Tree<N, T>, k: Key, i: nat, q: N): N {
    if t.Branch? && t.bit < i then InsertParent(Child(t, k), k, i, t.n) else q
  }

  ghost function NewLinks<N>(k: Key, i: nat, m: N, x: N): Links<N> {
    if GoesLeft(k, i) then Links(i, m, x) else Links(i, x, m)
  }

  lemma {:induction false} EdgesInUps<N, T>(t: Tree<N, T>)
    requires Linked(t)
    ensures Edges(t).Keys <= Ups(t).Keys
  {
    if t.Branch? {
      EdgesInUps(t.left);
      EdgesInUps(t.right);
    }
  }

  lemma UnionNothing<K, V>(a: map<K, V>, b: map<K, V>)
    requires b == map[]
    ensures a + b == a
  {
  }

  lemma UnionSwap<K, V>(a: map<K, V>, b: map<K, V>)
    requires a.Keys !! b.Keys
    ensures a + b == b + a
  {
  }

  lemma UnionUpdateUnder<K, V>(s: map<K, V>, c: map<K, V>, n: K, e: V, e': V, m: K, x: V)
    requires n != m
    ensures (s + c[m := x])[n := e'] == (s + c)[n := e][n := e'][m := x]
  {
  }

  lemma UnionUpdateBelow<K, V>(s: map<K, V>, c: map<K, V>, n: K, e: V, p: K, y: V, m: K, x: V)
    requires n != m && n != p
    ensures (s + c[p := y][m := x])[n := e] == (s + c)[n := e][p := y][m := x]
  {
  }

  lemma {:induction false} EdgeBits<N, T>(t: Tree<N, T>, lo: int, w: nat, n: N)
    requires Sorted(t, lo, w) && n in Edges(t)
    ensures lo < Edges(t)[n].bit < w
  {
    if n in Edges(t.right) {
      EdgeBits(t.right, t.bit, w, n);
    }
    if n in Edges(t.left) {
      EdgeBits(t.left, t.bit, w, n);
    }
  }

  /** A child's part of the edges, and which of its upward links leave it. */
  lemma ChildPart<N, T>(t: Tree<N, T>, c: Tree<N, T>)
    requires t.Branch? && Linked(t) && (c == t.left || c == t.right)
    ensures Linked(c)
    ensures forall n :: n in Edges(c) ==> n in Edges(t) && Edges(t)[n] == Edges(c)[n]
    ensures forall n :: n in Ups(c) && n !in Edges(c) && n != t.n ==> n in Ups(t) && n !in Edges(t)
    ensures Ups(c).Keys <= Ups(t).Keys
  {
    var l, r := t.left, t.right;
    assert Ups(t) == Ups(l) + Ups(r) && Edges(t) == (Edges(l) + Edges(r))[t.n := Links(t.bit, l.n, r.n)];
    EdgesInUps(l);
    EdgesInUps(r);
    hide Ups, Edges, Linked;
    UnionPart(Edges(l), Edges(r), Ups(l), Ups(r), t.n, Links(t.bit, l.n, r.n));
  }

  lemma UnionPart<N, V, W>(el: map<N, V>, er: map<N, V>, ul: map<N, W>, ur: map<N, W>, m: N, x: V)
    requires el.Keys !! er.Keys && ul.Keys !! ur.Keys && m !in el && m !in er
    requires (forall n :: n in el ==> n in ul) && (forall n :: n in er ==> n in ur)
    ensures forall n :: n in el ==> (el + er)[m := x][n] == el[n]
    ensures forall n :: n in er ==> (el + er)[m := x][n] == er[n]
    ensures forall n :: n in ul && n !in el && n != m ==> n !in (el + er)[m := x]
    ensures forall n :: n in ur && n !in er && n != m ==> n !in (el + er)[m := x]
  {
  }

  /** Edges and upward links of an inner node, told from the side of k. */
  lemma SplitLinks<N, T>(t: Tree<N, T>, k: Key)
    requires t.Branch? && Linked(t)
    ensures var c, s := Child(t, k), Sibling(t, k);
      && Linked(c) && Linked(s)
      && t.n !in Edges(c) && t.n !in Edges(s)
      && Edges(c).Keys !! Edges(s).Keys && Ups(c).Keys !! Ups(s).Keys
      && Ups(t) == Ups(s) + Ups(c)
      && Edges(t) == (Edges(s) + Edges(c))[t.n := Edges(t)[t.n]]
      && (t.n in Ups(c) || t.n in Ups(s))
  {
    var l, r := t.left, t.right;
    assert Ups(t) == Ups(l) + Ups(r) && Edges(t) == (Edges(l) + Edges(r))[t.n := Links(t.bit, l.n, r.n)];
    hide Ups, Edges;
    UnionSwap(Ups(l), Ups(r));
    UnionSwap(Edges(l), Edges(r));
  }

  /** The same, put together from a new child c. */
  lemma JoinLinks<N, T>(t: Tree<N, T>, k: Key, c: Tree<N, T>)
    requires t.Branch? && Linked(Sibling(t, k)) && Linked(c)
    requires var s := Sibling(t, k);
      && t.n !in Edges(c) && t.n !in Edges(s)
      && Edges(c).Keys !! Edges(s).Keys && Ups(c).Keys !! Ups(s).Keys
    ensures var s, t' := Sibling(t, k), WithChild(t, k, c);
      && Ups(t') == Ups(s) + Ups(c)
      && Edges(t') == (Edges(s) + Edges(c))[t.n := Redirect(Edges(t)[t.n], k, c.n)]
      && (t.n in Ups(c) || t.n in Ups(s) ==> Linked(t'))
  {
    UnionSwap(Ups(Sibling(t, k)), Ups(c));
    UnionSwap(Edges(Sibling(t, k)), Edges(c));
  }

  lemma InsertLinksBelow<N, T>(t: Tree<N, T>, k: Key, d: T, i: nat, m: N)
    requires t.Branch? && Linked(t) && m !in Ups(t) && m != t.n
    requires var c' := Insert(Child(t, k), k, d, i, m);
      && Linked(c') && Ups(c') == Ups(Child(t, k))[m := Entry(k, d)]
      && Edges(c').Keys == Edges(Child(t, k)).Keys + {m}
    ensures var c', t' := Insert(Child(t, k), k, d, i, m), WithChild(t, k, Insert(Child(t, k), k, d, i, m));
      && Linked(t') && Ups(t') == Ups(t)[m := Entry(k, d)]
      && Edges(t') == (Edges(Sibling(t, k)) + Edges(c'))[t.n := Redirect(Edges(t)[t.n], k, c'.n)]
  {
    var c, s := Child(t, k), Sibling(t, k);
    EdgesInUps(t);
    SplitLinks(t, k);
    JoinLinks(t, k, Insert(c, k, d, i, m));
    UnionUpdate(Ups(s), Ups(c), m, Entry(k, d));
  }

  /** The edges after the link of p that the walk for k takes was set to x; p == q is the node above the tree. */
  ghost function Rewire<N>(e: map<N, Links<N>>, p: N, q: N, k: Key, x: N): map<N, Links<N>>
    requires p == q || p in e
  {
    if p == q then e else e[p := Redirect(e[p], k, x)]
  }

  lemma InsertLinksHere<N, T>(t: Tree<N, T>, k: Key, d: T, i: nat, m: N)
    requires Linked(t) && m !in Ups(t) && m !in Edges(t)
    requires t.Branch? ==> i <= t.bit
    ensures var t' := Insert(t, k, d, i, m);
      && Linked(t') && t'.n == m
      && Ups(t') == Ups(t)[m := Entry(k, d)]
      && Edges(t') == Edges(t)[m := NewLinks(k, i, m, t.n)]
  {
    var u := Up(m, k, d);
    assert Edges(u) == map[];
    assert Edges(t) + Edges(u) == Edges(t) == Edges(u) + Edges(t);
    assert Ups(u) == map[m := Entry(k, d)];
    UnionSwap(Ups(u), Ups(t));
  }

  lemma {:induction false} InsertLinks<N, T>(t: Tree<N, T>, k: Key, d: T, i: nat, m: N, q: N)
    requires Linked(t) && m !in Ups(t) && q !in Edges(t)
    ensures Linked(Insert(t, k, d, i, m))
    ensures Ups(Insert(t, k, d, i, m)) == Ups(t)[m := Entry(k, d)]
    ensures var p := InsertParent(t, k, i, q);
      && (p == q || p in Edges(t))
      && Insert(t, k, d, i, m).n == (if p == q then m else t.n)
      && Edges(Insert(t, k, d, i, m))
         == Rewire(Edges(t), p, q, k, m)[m := NewLinks(k, i, m, InsertPoint(t, k, i).n)]
  {
    hide Linked, Edges, Ups, NewLinks;
    EdgesInUps(t);
    if t.Branch? && t.bit < i {
      TopEdge(t);
      var c, s := Child(t, k), Sibling(t, k);
      var c' := Insert(c, k, d, i, m);
      var p, e := InsertParent(c, k, i, t.n), Edges(t)[t.n];
      var x := NewLinks(k, i, m, InsertPoint(t, k, i).n);
      SplitLinks(t, k);
      InsertLinks(c, k, d, i, m, t.n);
      InsertLinksBelow(t, k, d, i, m);
      assert p == InsertParent(t, k, i, q);
      if p == t.n {
        UnionUpdateUnder(Edges(s), Edges(c), t.n, e, Redirect(e, k, m), m, x);
      } else {
        assert Redirect(e, k, c'.n) == e;
        UnionUpdateBelow(Edges(s), Edges(c), t.n, e, p, Redirect(Edges(c)[p], k, m), m, x);
      }
    } else {
      InsertLinksHere(t, k, d, i, m);
    }
  }

  lemma TopEdge<N, T>(t: Tree<N, T>)
    requires t.Branch?
    ensures t.n in Edges(t) && Edges(t)[t.n] == Links(t.bit, t.left.n, t.right.n)
  {
  }

  /** Insertion keeps the invariant; what it means for the represented map and for every node. */
  lemma InsertIsTrie<N, T>(t: Tree<N, T>, head: N, ns: set<N>, k: Key, d: T, i: nat, m: N)
    requires IsTrie(t, head, ns, |k|) && m !in ns
    requires i < |k| && Agree(k, Find(t, k).key, i) && |Find(t, k).key| == |k| && k[i] != Find(t, k).key[i]
    ensures var t', p := Insert(t, k, d, i, m), InsertParent(t, k, i, head);
      && IsTrie(t', head, ns + {m}, |k|)
      && Contents(t') == Contents(t)[k := d]
      && Ups(t') == Ups(t)[m := Entry(k, d)]
      && p in ns && t'.n == (if p == head then m else t.n)
      && Edges(t') == Rewire(Edges(t), p, head, k, m)[m := NewLinks(k, i, m, InsertPoint(t, k, i).n)]
  {
    hide Sorted, Linked, Contents, Ups, Edges;
    InsertSorted(t, -1, k, d, i, m);
    InsertLinks(t, k, d, i, m, head);
  }

  /* ---------- deletion ---------- */

  /** The upward link at the end of the walk for k made to point to q, which takes over the entry stored there. */
  ghost function Retarget<N, T>(t: Tree<N, T>, k: Key, q: N): Tree<N, T> {
    if t.Up? then Up(q, t.key, t.data) else WithChild(t, k, Retarget(Child(t, k), k, q))
  }

  /** The inner node whose link the walk for k takes upwards. */
  ghost function LastBranch<N, T>(t: Tree<N, T>, k: Key): (b: Tree<N, T>)
    requires t.Branch?
    ensures b.Branch? && Child(b, k).Up?
  {
    if Child(t, k).Up? then t else LastBranch(Child(t, k), k)
  }

  /** What takes the place of inner node b when the upward link on k's side of it goes away. */
  ghost function Promoted<N, T>(b: Tree<N, T>, k: Key): Tree<N, T>
    requires b.Branch? && b.n in Ups(b)
  {
    var q := Child(b, k).n;
    if q == b.n then Sibling(b, k) else Retarget(Sibling(b, k), Ups(b)[b.n].key, q)
  }

  lemma LastBranchLinked<N, T>(t: Tree<N, T>, k: Key)
    requires t.Branch? && Linked(t)
    ensures var b := LastBranch(t, k); Linked(b) && b.n in Ups(b) && b.n in Edges(t)
  {
  }

  ghost function Remove<N, T>(t: Tree<N, T>, k: Key): Tree<N, T>
    requires t.Branch? && Linked(t)
  {
    if Child(t, k).Up? then Promoted(t, k) else WithChild(t, k, Remove(Child(t, k), k))
  }

  lemma {:induction false} RetargetSorted<N, T>(t: Tree<N, T>, lo: int, k: Key, q: N)
    requires Sorted(t, lo, |k|)
    ensures Sorted(Retarget(t, k, q), lo, |k|)
    ensures Contents(Retarget(t, k, q)) == Contents(t)
  {
    if t.Branch? {
      var c := Child(t, k);
      RetargetSorted(c, t.bit, k, q);
      FindIn(t, lo, k);
      WithChildContents(t, lo, |k|, k, c);
      WithChildContents(t, lo, |k|, k, Retarget(c, k, q));
      WithChildSorted(t, lo, |k|, k, Find(t, k).key, Retarget(c, k, q));
    }
  }

  lemma UnionMove<K, V>(s: map<K, V>, c: map<K, V>, p: K, q: K, e: V)
    requires p !in s
    ensures s + (c - {p})[q := e] == ((s + c) - {p})[q := e]
  {
  }

  lemma {:induction false} RetargetUps<N, T>(t: Tree<N, T>, k: Key, q: N)
    requires Linked(t)
    ensures var t', u := Retarget(t, k, q), Find(t, k);
      && t'.n == (if t.Up? then q else t.n)
      && u.n in Ups(t) && Ups(t)[u.n] == Entry(u.key, u.data)
      && (q !in Ups(t) ==> Ups(t') == (Ups(t) - {u.n})[q := Entry(u.key, u.data)])
  {
    if t.Branch? {
      var c, s, u := Child(t, k), Sibling(t, k), Find(t, k);
      SplitLinks(t, k);
      RetargetUps(c, k, q);
      if q !in Ups(t) {
        UnionMove(Ups(s), Ups(c), u.n, q, Entry(u.key, u.data));
        UnionSwap(Ups(s), Ups(Retarget(c, k, q)));
      }
    } else {
      assert Ups(t) - {t.n} == map[];
    }
  }

  lemma {:induction false} RetargetLinks<N, T>(t: Tree<N, T>, k: Key, q: N, r: N)
    requires Linked(t) && q !in Ups(t) && r !in Edges(t)
    requires Find(t, k).n !in Edges(t)
    ensures var t', p := Retarget(t, k, q), FindParent(t, k, r);
      && Linked(t')
      && Edges(t').Keys == Edges(t).Keys
      && (if t.Up? then p == r else p in Edges(t))
      && forall n :: n in Edges(t) ==>
           Edges(t')[n] == if n == p then Redirect(Edges(t)[n], k, q) else Edges(t)[n]
  {
    if t.Branch? {
      hide Linked, Edges, Ups;
      var c, c' := Child(t, k), Retarget(Child(t, k), k, q);
      SplitLinks(t, k);
      RetargetLinks(c, k, q, t.n);
      RetargetUps(c, k, q);
      JoinLinks(t, k, c');
      RedirectUnion(Edges(Sibling(t, k)), Edges(c), Edges(c'), t.n, Edges(t)[t.n], k, c'.n, q, FindParent(c, k, t.n));
    }
  }

  lemma RedirectUnion<N>(s: map<N, Links<N>>, c: map<N, Links<N>>, c': map<N, Links<N>>, n: N, e: Links<N>, k: Key,
                         y: N, q: N, p: N)
    requires s.Keys !! c.Keys && n !in s && n !in c && c'.Keys == c.Keys
    requires if p == n then y == q else p in c && Redirect(e, k, y) == e
    requires forall m :: m in c ==> c'[m] == if m == p then Redirect(c[m], k, q) else c[m]
    ensures var z, z' := (s + c)[n := e], (s + c')[n := Redirect(e, k, y)];
      && z'.Keys == z.Keys
      && forall m :: m in z ==> z'[m] == if m == p then Redirect(z[m], k, q) else z[m]
  {
  }

  /** The walk for the key stored at n ends at the upward link to n. */
  lemma {:induction false} FindUp<N, T>(t: Tree<N, T>, lo: int, w: nat, n: N)
    requires Sorted(t, lo, w) && Linked(t) && n in Ups(t)
    ensures var e := Ups(t)[n];
      && Find(t, e.key) == Up(n, e.key, e.data)
      && e.key in Contents(t) && Contents(t)[e.key] == e.data && |e.key| == w
  {
    if t.Branch? {
      FindUp(if n in Ups(t.left) then t.left else t.right, t.bit, w, n);
    }
  }

  /** The sibling that replaces inner node b, when the walk for k ends at a link of b. */
  lemma PromotedSorted<N, T>(b: Tree<N, T>, lo: int, k: Key)
    requires b.Branch? && Sorted(b, lo, |k|) && Linked(b) && Child(b, k).Up? && Child(b, k).key == k
    ensures Sorted(Promoted(b, k), lo, |k|)
    ensures Contents(Promoted(b, k)) == Contents(b) - {k}
  {
    var s, q := Sibling(b, k), Child(b, k).n;
    WithChildContents(b, lo, |k|, k, Child(b, k));
    assert Contents(b) - {k} == Contents(s);
    assert Sorted(s, lo, |k|);
    if q != b.n {
      FindUp(b, lo, |k|, b.n);
      RetargetSorted(s, lo, Ups(b)[b.n].key, q);
    }
  }

  lemma UnionMinus<K, V>(s: map<K, V>, c: map<K, V>, k: K)
    requires k !in s
    ensures s + (c - {k}) == (s + c) - {k}
  {
  }

  lemma RemoveBelow<N, T>(t: Tree<N, T>, lo: int, k: Key, c: Tree<N, T>)
    requires t.Branch? && Sorted(t, lo, |k|) && k in Contents(t)
    requires Sorted(c, t.bit, |k|) && Contents(c) == Contents(Child(t, k)) - {k}
    ensures Sorted(WithChild(t, k, c), lo, |k|)
    ensures Contents(WithChild(t, k, c)) == Contents(t) - {k}
  {
    WithChildContents(t, lo, |k|, k, Child(t, k));
    WithChildSorted(t, lo, |k|, k, k, c);
    WithChildContents(t, lo, |k|, k, c);
    UnionMinus(Contents(Sibling(t, k)), Contents(Child(t, k)), k);
  }

  lemma {:induction false} RemoveSorted<N, T>(t: Tree<N, T>, lo: int, k: Key)
    requires t.Branch? && Sorted(t, lo, |k|) && Linked(t) && Find(t, k).key == k
    ensures Sorted(Remove(t, k), lo, |k|)
    ensures Contents(Remove(t, k)) == Contents(t) - {k}
  {
    if Child(t, k).Up? {
      PromotedSorted(t, lo, k);
    } else {
      FindIn(t, lo, k);
      RemoveSorted(Child(t, k), t.bit, k);
      RemoveBelow(t, lo, k, Remove(Child(t, k), k));
    }
  }

  /**
   Deletion on the nodes. With b the inner node that the walk for k leaves upwards, towards q:
   b.n disappears; unless q is b.n itself, q takes over the entry of b.n.
   */
  lemma {:induction false} RemoveUps<N, T>(t: Tree<N, T>, lo: int, k: Key)
    requires t.Branch? && Sorted(t, lo, |k|) && Linked(t)
    ensures var t', b, q := Remove(t, k), LastBranch(t, k), Find(t, k).n;
      && b.n in Ups(b) && b.n in Ups(t) && Ups(b)[b.n] == Ups(t)[b.n]
      && q in Ups(t)
      && Ups(t') == if q == b.n then Ups(t) - {b.n} else (Ups(t) - {b.n})[q := Ups(t)[b.n]]
  {
    var c, s, b, q := Child(t, k), Sibling(t, k), LastBranch(t, k), Find(t, k).n;
    LastBranchLinked(t, k);
    SplitLinks(t, k);
    if c.Up? {
      PromotedUps(t, lo, k);
    } else {
      RemoveUps(c, t.bit, k);
      UnionMinus(Ups(s), Ups(c), b.n);
      UnionMove(Ups(s), Ups(c), b.n, q, Ups(t)[b.n]);
      UnionSwap(Ups(s), Ups(Remove(c, k)));
    }
  }

  lemma TakeOver<K, V>(s: map<K, V>, q: K, e: V, p: K, x: V)
    requires q !in s
    ensures (s + map[q := e]) - {q} == s
    ensures ((s + map[q := e]) - {p})[q := x] == (s - {p})[q := x]
  {
  }

  lemma PromotedUps<N, T>(b: Tree<N, T>, lo: int, k: Key)
    requires b.Branch? && Sorted(b, lo, |k|) && Linked(b) && Child(b, k).Up?
    ensures var t', q := Promoted(b, k), Child(b, k).n;
      && b.n in Ups(b)
      && Ups(t') == if q == b.n then Ups(b) - {b.n} else (Ups(b) - {b.n})[q := Ups(b)[b.n]]
  {
    var c, s := Child(b, k), Sibling(b, k);
    SplitLinks(b, k);
    TakeOver(Ups(s), c.n, Entry(c.key, c.data), b.n, Ups(b)[b.n]);
    if c.n != b.n {
      FindUp(s, b.bit, |k|, b.n);
      RetargetUps(s, Ups(b)[b.n].key, c.n);
    }
  }

  /**
   The rewiring that deletes a node: its parent is made to point to what takes its place, and
   the upward link to it, found below movedFrom by movedKey, is made to point to its heir.
   */
  datatype Cut<N> = Cut(gone: N, parent: N, promoted: N, movedFrom: N, movedKey: Key, heir: N)

  ghost function CutAt<N, T>(b: Tree<N, T>, k: Key, g: N): Cut<N>
    requires b.Branch? && b.n in Ups(b)
  {
    var kp := Ups(b)[b.n].key;
    Cut(b.n, g, Promoted(b, k).n, FindParent(Sibling(b, k), kp, b.n), kp, Child(b, k).n)
  }

  /** The links of node n after the rewiring, from its links e before. */
  ghost function CutLinks<N>(e: Links<N>, n: N, k: Key, x: Cut<N>): Links<N> {
    if n == x.parent then Redirect(e, k, x.promoted)
    else if n == x.movedFrom && x.heir != x.gone then Redirect(e, x.movedKey, x.heir)
    else e
  }

  /** e' is e without the node that goes, rewired. */
  ghost predicate IsCut<N>(e: map<N, Links<N>>, e': map<N, Links<N>>, k: Key, x: Cut<N>) {
    && e'.Keys == e.Keys - {x.gone}
    && forall n :: n in e' ==> e'[n] == CutLinks(e[n], n, k, x)
  }

  lemma CutOf<N, T>(b: Tree<N, T>, k: Key, r: N)
    requires b.Branch? && b.n in Ups(b)
    ensures CutAt(b, k, r).gone == b.n && CutAt(b, k, r).parent == r
  {
  }

  /** The head has only its right link, which no walk for a moved key passes. */
  lemma CutHead<N>(head: N, n: N, k: Key, x: Cut<N>)
    requires head != x.movedFrom
    ensures CutLinks(Links(-1, head, n), head, k, x) == Links(-1, head, if head == x.parent then x.promoted else n)
  {
  }

  lemma {:induction false} FindParentIn<N, T>(t: Tree<N, T>, k: Key, q: N)
    ensures FindParent(t, k, q) == q || FindParent(t, k, q) in Edges(t)
  {
    if t.Branch? {
      FindParentIn(Child(t, k), k, t.n);
    }
  }

  lemma CutTop<N>(s: map<N, Links<N>>, s': map<N, Links<N>>, p: N, e: Links<N>, k: Key, x: Cut<N>)
    requires p !in s && p == x.gone && x.parent !in s && s'.Keys == s.Keys
    requires forall n :: n in s ==>
      s'[n] == if n == x.movedFrom && x.heir != p then Redirect(s[n], x.movedKey, x.heir) else s[n]
    ensures IsCut(s[p := e], s', k, x)
  {
  }

  lemma PromotedLinks<N, T>(b: Tree<N, T>, lo: int, k: Key, r: N)
    requires b.Branch? && Sorted(b, lo, |k|) && Linked(b) && Child(b, k).Up? && r !in Edges(b)
    ensures b.n in Ups(b) && Linked(Promoted(b, k))
    ensures CutAt(b, k, r).movedFrom in Edges(b)
    ensures IsCut(Edges(b), Edges(Promoted(b, k)), k, CutAt(b, k, r))
  {
    var c, s, kp := Child(b, k), Sibling(b, k), Ups(b)[b.n].key;
    SplitLinks(b, k);
    assert Edges(c) == map[] && b.n in Ups(b) && Sorted(s, b.bit, |k|) && b.n in Edges(b);
    assert c.n != b.n ==> b.n !in Ups(c);
    assert Ups(c).Keys == {c.n};
    hide Edges, Ups, Linked, Sorted;
    UnionNothing(Edges(s), Edges(c));
    assert Edges(b) == Edges(s)[b.n := Edges(b)[b.n]];
    FindParentIn(s, kp, b.n);
    if c.n != b.n {
      FindUp(s, b.bit, |k|, b.n);
      RetargetLinks(s, kp, c.n, b.n);
    }
    CutTop(Edges(s), Edges(Promoted(b, k)), b.n, Edges(b)[b.n], k, CutAt(b, k, r));
  }

  lemma RemoveLinksBelow<N, T>(t: Tree<N, T>, k: Key, c': Tree<N, T>, x: Cut<N>)
    requires t.Branch? && Linked(t) && Linked(c')
    requires x.gone in Edges(Child(t, k)) && x.movedFrom in Edges(Child(t, k))
    requires x.parent == t.n || x.parent in Edges(Child(t, k))
    requires c'.n == (if x.parent == t.n then x.promoted else Child(t, k).n)
    requires Ups(c').Keys == Ups(Child(t, k)).Keys - {x.gone}
    requires IsCut(Edges(Child(t, k)), Edges(c'), k, x)
    ensures Linked(WithChild(t, k, c'))
    ensures IsCut(Edges(t), Edges(WithChild(t, k, c')), k, x)
  {
    var c, s, t' := Child(t, k), Sibling(t, k), WithChild(t, k, c');
    SplitLinks(t, k);
    JoinLinks(t, k, c');
    assert Redirect(Edges(t)[t.n], k, c.n) == Edges(t)[t.n];
    CutUnion(Edges(s), Edges(c), Edges(c'), t.n, Edges(t)[t.n], k, c'.n, x);
  }

  lemma CutUnion<N>(s: map<N, Links<N>>, c: map<N, Links<N>>, c': map<N, Links<N>>,
                    n: N, e: Links<N>, k: Key, y: N, x: Cut<N>)
    requires s.Keys !! c.Keys && n !in s && n !in c
    requires IsCut(c, c', k, x)
    requires x.gone in c && x.movedFrom in c && (x.parent == n || x.parent in c)
    requires if x.parent == n then y == x.promoted else Redirect(e, k, y) == e
    ensures IsCut((s + c)[n := e], (s + c')[n := Redirect(e, k, y)], k, x)
  {
  }

  lemma {:induction false} RemoveLinks<N, T>(t: Tree<N, T>, lo: int, k: Key, r: N)
    requires t.Branch? && Sorted(t, lo, |k|) && Linked(t) && r !in Edges(t)
    ensures Linked(Remove(t, k))
    ensures var b, g := LastBranch(t, k), FindGrand(t, k, r);
      && b.n in Ups(b) && b.n in Edges(t)
      && (g == r || g in Edges(t)) && g != b.n
      && var x := CutAt(b, k, g);
      && g != x.movedFrom && x.movedFrom in Edges(t)
      && Remove(t, k).n == (if g == r then x.promoted else t.n)
      && IsCut(Edges(t), Edges(Remove(t, k)), k, x)
  {
    hide Linked, Edges, Ups, IsCut;
    var c := Child(t, k);
    SplitLinks(t, k);
    if c.Up? {
      PromotedLinks(t, lo, k, r);
    } else {
      RemoveLinks(c, t.bit, k, t.n);
      RemoveUps(c, t.bit, k);
      RemoveLinksBelow(t, k, Remove(c, k), CutAt(LastBranch(c, k), k, FindGrand(c, k, t.n)));
    }
  }

  /** Deletion keeps the invariant; what it means for the represented map and for every node. */
  lemma RemoveIsTrie<N, T>(t: Tree<N, T>, head: N, ns: set<N>, k: Key)
    requires t.Branch? && IsTrie(t, head, ns, |k|) && Find(t, k).key == k
    ensures var t', b, g, q := Remove(t, k), LastBranch(t, k), FindGrand(t, k, head), Find(t, k).n;
      && b.n in ns && b.n != head && g in ns && g != b.n && q in ns
      && b.n in Ups(b) && b.n in Ups(t)
      && IsTrie(t', head, ns - {b.n}, |k|)
      && Contents(t') == Contents(t) - {k}
      && Ups(t') == (if q == b.n then Ups(t) - {b.n} else (Ups(t) - {b.n})[q := Ups(t)[b.n]])
      && var x := CutAt(b, k, g);
      && g != x.movedFrom && head != x.movedFrom && t'.n == (if g == head then x.promoted else t.n)
      && IsCut(Edges(t), Edges(t'), k, x)
  {
    hide Sorted, Linked, Contents, Ups, Edges, Remove, LastBranch, FindGrand, Find, CutLinks, Promoted;
    RemoveSorted(t, -1, k);
    RemoveUps(t, -1, k);
    RemoveLinks(t, -1, k, head);
  }

  /** Where the walk passes through b: its links, its entry and the way on to the moved key. */
  lemma {:induction false} AtLastBranch<N, T>(t: Tree<N, T>, lo: int, k: Key, q: N)
    requires t.Branch? && Sorted(t, lo, |k|) && Linked(t) && q !in Edges(t)
    ensures var b := LastBranch(t, k);
      && Edges(b).Keys <= Edges(t).Keys && FindGrand(t, k, q) !in Edges(b)
      && b.n == FindParent(t, k, q) && Child(b, k).n == Find(t, k).n
      && b.n in Edges(t) && Edges(t)[b.n] == Links(b.bit, b.left.n, b.right.n)
      && b.n in Ups(b) && b.n in Ups(t) && Ups(t)[b.n] == Ups(b)[b.n]
      && Linked(b) && Sorted(b, -1, |k|)
  {
    SplitLinks(t, k);
    if Child(t, k).Branch? {
      AtLastBranch(Child(t, k), t.bit, k, t.n);
    }
  }

  /** If the walk for k leaves b towards another node, the walk for b's own key turns the other way. */
  lemma TurnsAway<N, T>(b: Tree<N, T>, lo: int, k: Key)
    requires b.Branch? && Sorted(b, lo, |k|) && Linked(b) && Child(b, k).Up? && Child(b, k).n != b.n
    ensures b.n in Ups(b)
    ensures var s, kp := Sibling(b, k), Ups(b)[b.n].key;
      && |kp| == |k| && Child(b, kp) == s && Find(s, kp).n == b.n && Find(s, kp).key == kp
      && (s.Up? ==> s.n == b.n)
  {
    SplitLinks(b, k);
    FindUp(Sibling(b, k), b.bit, |k|, b.n);
    FindUp(b, lo, |k|, b.n);
    WithChildContents(b, lo, |k|, k, Child(b, k));
  }

  /** The rewiring, told from the two children of b. */
  lemma CutFacts<N, T>(b: Tree<N, T>, lo: int, k: Key, g: N)
    requires b.Branch? && Sorted(b, lo, |k|) && Linked(b) && Child(b, k).Up? && g !in Edges(b)
    ensures b.n in Ups(b)
    ensures var x, s, q := CutAt(b, k, g), Sibling(b, k), Child(b, k).n;
      && x.gone == b.n && x.parent == g && x.heir == q && x.movedKey == Ups(b)[b.n].key
      && x.promoted == (if s.Branch? || q == b.n then s.n else q)
      && x.movedFrom == FindParent(s, x.movedKey, b.n)
      && (s.Branch? ==> x.movedFrom in Edges(s))
      && b.n !in Edges(s) && Edges(s).Keys <= Edges(b).Keys
      && (s.Up? ==> x.movedFrom == b.n && (s.n == b.n <==> q != b.n))
      && (q != b.n ==> |x.movedKey| == |k| && Child(b, x.movedKey) == s && Find(s, x.movedKey).n == b.n)
  {
    var s := Sibling(b, k);
    SplitLinks(b, k);
    assert s.Up? ==> Ups(s).Keys == {s.n};
    if Child(b, k).n != b.n {
      TurnsAway(b, lo, k);
    }
    if s.Branch? {
      FindParentBelow(s, Ups(b)[b.n].key, b.n);
    }
  }

  lemma {:induction false} FindParentBelow<N, T>(t: Tree<N, T>, k: Key, q: N)
    requires t.Branch?
    ensures FindParent(t, k, q) in Edges(t)
  {
    FindParentIn(Child(t, k), k, t.n);
  }

  /* ---------- data ---------- */

  /** The tree after the data of node n was overwritten. */
  ghost function WithData<N, T>(t: Tree<N, T>, n: N, d: T): (t': Tree<N, T>)
    ensures t'.n == t.n && (t'.Up? <==> t.Up?)
  {
    match t
    case Up(m, k, _) => if m == n then Up(m, k, d) else t
    case Branch(m, b, l, r) => Branch(m, b, WithData(l, n, d), WithData(r, n, d))
  }

  lemma {:induction false} WithDataEdges<N, T>(t: Tree<N, T>, n: N, d: T)
    ensures WithData(t, n, d).n == t.n && Edges(WithData(t, n, d)) == Edges(t)
  {
    if t.Branch? {
      WithDataEdges(t.left, n, d);
      WithDataEdges(t.right, n, d);
    }
  }

  lemma {:induction false} WithDataKeys<N, T>(t: Tree<N, T>, n: N, d: T)
    ensures Ups(WithData(t, n, d)).Keys == Ups(t).Keys && Contents(WithData(t, n, d)).Keys == Contents(t).Keys
  {
    if t.Branch? {
      WithDataKeys(t.left, n, d);
      WithDataKeys(t.right, n, d);
    }
  }

  lemma {:induction false} WithDataLinked<N, T>(t: Tree<N, T>, n: N, d: T)
    requires Linked(t)
    ensures Linked(WithData(t, n, d))
  {
    if t.Branch? {
      var l, r := t.left, t.right;
      hide Edges, Ups, Contents;
      WithDataEdges(l, n, d);
      WithDataEdges(r, n, d);
      WithDataKeys(l, n, d);
      WithDataKeys(r, n, d);
      WithDataLinked(l, n, d);
      WithDataLinked(r, n, d);
    }
  }

  lemma {:induction false} WithDataUps<N, T>(t: Tree<N, T>, n: N, d: T, m: N)
    requires m in Ups(t)
    ensures m in Ups(WithData(t, n, d))
    ensures Ups(WithData(t, n, d))[m] == if m == n then Entry(Ups(t)[m].key, d) else Ups(t)[m]
  {
    if t.Branch? {
      WithDataKeys(t.right, n, d);
      WithDataUps(if m in Ups(t.right) then t.right else t.left, n, d, m);
    }
  }

  lemma WithDataLinks<N, T>(t: Tree<N, T>, n: N, d: T)
    ensures Edges(WithData(t, n, d)) == Edges(t)
    ensures Ups(WithData(t, n, d)).Keys == Ups(t).Keys
    ensures forall m :: m in Ups(t) ==>
      Ups(WithData(t, n, d))[m] == if m == n then Entry(Ups(t)[m].key, d) else Ups(t)[m]
    ensures Contents(WithData(t, n, d)).Keys == Contents(t).Keys
    ensures Linked(t) ==> Linked(WithData(t, n, d))
  {
    hide Edges, Ups, Contents, Linked, WithData;
    WithDataEdges(t, n, d);
    WithDataKeys(t, n, d);
    if Linked(t) {
      WithDataLinked(t, n, d);
    }
    forall m | m in Ups(t)
      ensures Ups(WithData(t, n, d))[m] == if m == n then Entry(Ups(t)[m].key, d) else Ups(t)[m]
    {
      WithDataUps(t, n, d, m);
    }
  }

  lemma {:induction false} WithDataSorted<N, T>(t: Tree<N, T>, n: N, d: T, lo: int, w: nat)
    requires Sorted(t, lo, w)
    ensures Sorted(WithData(t, n, d), lo, w)
  {
    WithDataLinks(t, n, d);
    if t.Branch? {
      WithDataLinks(t.left, n, d);
      WithDataLinks(t.right, n, d);
      WithDataSorted(t.left, n, d, t.bit, w);
      WithDataSorted(t.right, n, d, t.bit, w);
    }
  }

  /** Contents is determined by the entries of the nodes. */
  lemma WithDataContents<N, T>(t: Tree<N, T>, n: N, d: T, lo: int, w: nat)
    requires Sorted(t, lo, w) && Linked(t) && n in Ups(t)
    ensures Contents(WithData(t, n, d)) == Contents(t)[Ups(t)[n].key := d]
    ensures Ups(t)[n].key in Contents(t)
  {
    var t', kn := WithData(t, n, d), Ups(t)[n].key;
    hide Contents, Ups, Edges, Sorted, Linked, WithData;
    WithDataKeys(t, n, d);
    FindUp(t, lo, w, n);
    forall k | k in Contents(t)
      ensures Contents(t')[k] == if k == kn then d else Contents(t)[k]
    {
      WithDataAt(t, n, d, lo, w, k);
    }
    MapUpdated(Contents(t), Contents(t'), kn, d);
  }

  lemma MapUpdated<K, V>(c: map<K, V>, c': map<K, V>, k: K, d: V)
    requires k in c && c'.Keys == c.Keys && forall k' :: k' in c ==> c'[k'] == if k' == k then d else c[k']
    ensures c' == c[k := d]
  {
  }

  lemma WithDataAt<N, T>(t: Tree<N, T>, n: N, d: T, lo: int, w: nat, k: Key)
    requires Sorted(t, lo, w) && Linked(t) && n in Ups(t) && k in Contents(t)
    ensures var t' := WithData(t, n, d);
      k in Contents(t') && Contents(t')[k] == if k == Ups(t)[n].key then d else Contents(t)[k]
  {
    var t' := WithData(t, n, d);
    hide Contents, Ups, Edges, Sorted, Linked, WithData;
    WithDataLinks(t, n, d);
    WithDataSorted(t, n, d, lo, w);
    SortedWidth(t, lo, w, k);
    FindIn(t, lo, k);
    FindInUps(t, k);
    FindUp(t, lo, w, n);
    FindUp(t', lo, w, Find(t, k).n);
  }

  lemma {:induction false} SortedWidth<N, T>(t: Tree<N, T>, lo: int, w: nat, k: Key)
    requires Sorted(t, lo, w) && k in Contents(t)
    ensures |k| == w
  {
  }

  /* ---------- upward links and node lists ---------- */

  /** The node and side (true is right) of the upward link to m; t hangs on that side of q. */
  ghost function LinkSource<N, T>(t: Tree<N, T>, m: N, q: N, side: bool): (N, bool) {
    match t
    case Up(_, _, _) => (q, side)
    case Branch(n, _, l, r) => if m in Ups(l) then LinkSource(l, m, n, false) else LinkSource(r, m, n, true)
  }

  /** An upward link to an inner node comes from that node itself, or from one with a larger bit index. */
  lemma {:induction false} SourceBelow<N, T>(t: Tree<N, T>, lo: int, w: nat, m: N, q: N, side: bool)
    requires Sorted(t, lo, w) && Linked(t) && m in Edges(t)
    ensures m in Ups(t)
    ensures var n := LinkSource(t, m, q, side).0;
      n in Edges(t) && (n == m || Edges(t)[m].bit < Edges(t)[n].bit)
  {
    EdgesInUps(t);
    var c, s := if m in Ups(t.left) then t.left else t.right, m !in Ups(t.left);
    ChildPart(t, c);
    EdgesInUps(c);
    SourceIn(c, t.bit, w, m, t.n, s);
    if m != t.n {
      EdgesInUps(if s then t.left else t.right);
      SourceBelow(c, t.bit, w, m, t.n, s);
    }
  }

  lemma {:induction false} SourceIn<N, T>(t: Tree<N, T>, lo: int, w: nat, m: N, q: N, side: bool)
    requires Linked(t) && m in Ups(t)
    ensures var n := LinkSource(t, m, q, side).0;
      n == q || (n in Edges(t) && (Sorted(t, lo, w) ==> lo < Edges(t)[n].bit))
  {
    if t.Branch? {
      var c, s := if m in Ups(t.left) then t.left else t.right, m !in Ups(t.left);
      ChildPart(t, c);
      SourceIn(c, t.bit, w, m, t.n, s);
    }
  }

  /** Every inner node is listed exactly once. */
  lemma {:induction false} PreorderOnce<N, T>(t: Tree<N, T>)
    requires Linked(t)
    ensures multiset(Preorder(t)) == multiset(Edges(t).Keys)
  {
    if t.Branch? {
      hide Edges, Ups;
      EdgeKeys(t);
      PreorderOnce(t.left);
      PreorderOnce(t.right);
      ListsOnce(t.n, Preorder(t.left), Preorder(t.right), Edges(t.left).Keys, Edges(t.right).Keys);
    } else {
      assert Edges(t).Keys == {};
    }
  }

  lemma EdgeKeys<N, T>(t: Tree<N, T>)
    requires t.Branch?
    ensures Edges(t).Keys == {t.n} + Edges(t.left).Keys + Edges(t.right).Keys
  {
  }

  lemma ListsOnce<N>(n: N, p: seq<N>, q: seq<N>, a: set<N>, b: set<N>)
    requires a !! b && n !in a && n !in b
    requires multiset(p) == multiset(a) && multiset(q) == multiset(b)
    ensures multiset([n] + p + q) == multiset({n} + a + b)
  {
    DisjointSum({n}, a);
    DisjointSum({n} + a, b);
  }

  lemma DisjointSum<N>(a: set<N>, b: set<N>)
    requires a !! b
    ensures multiset(a + b) == multiset(a) + multiset(b)
  {
  }
}
