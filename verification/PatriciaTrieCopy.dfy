/** Copying a Patricia trie in memory. */
module PatriciaTrieCopy {
  import opened BitKeys
  import opened PatriciaTrie
  import P = PatriciaTree
  import C = PatriciaCopy

  /**
   y, a link of the copy of n, stands for the link x of n: copied if x leads down, otherwise to no
   larger bit index.
   */
  ghost predicate LinkCopied<D>(n: Node<D>, x: Node<D>, y: Node<D>, f: map<Node<D>, Node<D>>)
    reads n`bitIndex, x`bitIndex, y`bitIndex
  {
    if x.bitIndex > n.bitIndex then x in f && y == f[x] else y.bitIndex <= n.bitIndex
  }

  /** Node n, whose links stay in ns, has the copy f[n], whose links stay in cs. */
  ghost predicate NodeCopied<D>(n: Node<D>, f: map<Node<D>, Node<D>>, ns: set<Node<D>>, cs: set<Node<D>>)
    reads ns, cs
  {
    && n in ns && n.left in ns && n.right in ns
    && n in f && f[n] in cs && f[n].left in cs && f[n].right in cs
    && f[n].bitIndex == n.bitIndex && f[n].Entry() == n.Entry()
    && LinkCopied(n, n.left, f[n].left, f) && LinkCopied(n, n.right, f[n].right, f)
  }

  ghost predicate IsCopy<D>(f: map<Node<D>, Node<D>>, ns: set<Node<D>>, cs: set<Node<D>>)
    reads ns, cs
  {
    C.Injective(f) && forall n {:trigger NodeCopied(n, f, ns, cs)} :: n in f ==> NodeCopied(n, f, ns, cs)
  }

  /** Until the upward links are wired they lead from the copy to itself. */
  ghost predicate SelfLinked<D>(n: Node<D>, f: map<Node<D>, Node<D>>, ns: set<Node<D>>, cs: set<Node<D>>)
    reads ns, cs
  {
    && NodeCopied(n, f, ns, cs)
    && (n.left.bitIndex <= n.bitIndex ==> f[n].left == f[n])
    && (n.right.bitIndex <= n.bitIndex ==> f[n].right == f[n])
  }

  ghost predicate IsFirstCopy<D>(f: map<Node<D>, Node<D>>, ns: set<Node<D>>, cs: set<Node<D>>)
    reads ns, cs
  {
    C.Injective(f) && forall n {:trigger SelfLinked(n, f, ns, cs)} :: n in f ==> SelfLinked(n, f, ns, cs)
  }

  lemma JoinCopies<D>(a: map<Node<D>, Node<D>>, b: map<Node<D>, Node<D>>, ns: set<Node<D>>, ca: set<Node<D>>,
                      cb: set<Node<D>>)
    requires IsFirstCopy(a, ns, ca) && IsFirstCopy(b, ns, cb)
    requires a.Keys !! b.Keys && ca !! cb
    ensures IsFirstCopy(a + b, ns, ca + cb)
  {
    var f := a + b;
    forall n | n in f
      ensures SelfLinked(n, f, ns, ca + cb)
    {
      if n in b {
        assert SelfLinked(n, b, ns, cb);
      } else {
        assert SelfLinked(n, a, ns, ca);
      }
    }
    forall n, m | n in f && m in f && f[n] == f[m]
      ensures n == m
    {
      assert n in a ==> SelfLinked(n, a, ns, ca);
      assert m in a ==> SelfLinked(m, a, ns, ca);
      assert n in b ==> SelfLinked(n, b, ns, cb);
      assert m in b ==> SelfLinked(m, b, ns, cb);
    }
  }

  /** The copy of root on top of the copies of what is below it. */
  method AddRoot<D>(root: Node<D>, cl: Node?<D>, cr: Node?<D>, ghost g: map<Node<D>, Node<D>>, ghost ns: set<Node<D>>,
                    ghost cg: set<Node<D>>)
    returns (c: Node<D>, ghost f: map<Node<D>, Node<D>>)
    requires IsFirstCopy(g, ns, cg)
    requires root in ns && root !in g && root.left in ns && root.right in ns
    requires if root.left.bitIndex > root.bitIndex then root.left in g && cl == g[root.left] else cl == null
    requires if root.right.bitIndex > root.bitIndex then root.right in g && cr == g[root.right] else cr == null
    ensures fresh(c) && f == g[root := c]
    ensures IsFirstCopy(f, ns, cg + {c})
  {
    hide SelfLinked;
    c := new Node(root.key, root.data, root.bitIndex);
    if cl != null {
      c.left := cl;
    }
    if cr != null {
      c.right := cr;
    }
    f := g[root := c];
    GrowCopy(root, c, g, ns, cg);
  }

  lemma GrowCopy<D>(root: Node<D>, c: Node<D>, g: map<Node<D>, Node<D>>, ns: set<Node<D>>, cg: set<Node<D>>)
    requires IsFirstCopy(g, ns, cg) && c !in cg
    requires root in ns && root !in g && root.left in ns && root.right in ns
    requires c.bitIndex == root.bitIndex && c.Entry() == root.Entry()
    requires if root.left.bitIndex > root.bitIndex then root.left in g && c.left == g[root.left] else c.left == c
    requires if root.right.bitIndex > root.bitIndex then root.right in g && c.right == g[root.right] else c.right == c
    ensures IsFirstCopy(g[root := c], ns, cg + {c})
  {
    hide LinkCopied;
    var f, cs := g[root := c], cg + {c};
    forall n | n in f
      ensures SelfLinked(n, f, ns, cs)
    {
      if n == root {
        RootCopied(root, c, g, ns, cg);
      } else {
        OtherCopied(n, root, c, g, ns, cg);
      }
    }
    forall n, m | n in f && m in f && f[n] == f[m]
      ensures n == m
    {
      assert n in g ==> SelfLinked(n, g, ns, cg);
      assert m in g ==> SelfLinked(m, g, ns, cg);
    }
  }

  lemma RootCopied<D>(root: Node<D>, c: Node<D>, g: map<Node<D>, Node<D>>, ns: set<Node<D>>, cg: set<Node<D>>)
    requires IsFirstCopy(g, ns, cg)
    requires root in ns && root.left in ns && root.right in ns
    requires c.bitIndex == root.bitIndex && c.Entry() == root.Entry()
    requires if root.left.bitIndex > root.bitIndex then root.left in g && c.left == g[root.left] else c.left == c
    requires if root.right.bitIndex > root.bitIndex then root.right in g && c.right == g[root.right] else c.right == c
    ensures SelfLinked(root, g[root := c], ns, cg + {c})
  {
    assert root.left.bitIndex > root.bitIndex ==> SelfLinked(root.left, g, ns, cg);
    assert root.right.bitIndex > root.bitIndex ==> SelfLinked(root.right, g, ns, cg);
  }

  lemma OtherCopied<D>(n: Node<D>, root: Node<D>, c: Node<D>, g: map<Node<D>, Node<D>>, ns: set<Node<D>>,
                       cg: set<Node<D>>)
    requires IsFirstCopy(g, ns, cg) && n in g && root !in g
    ensures SelfLinked(n, g[root := c], ns, cg + {c})
  {
    assert SelfLinked(n, g, ns, cg);
  }

  /** Copies root and everything below; its links lead to l and r. */
  method CopyNodes<D>(root: Node<D>, ghost l: P.Tree<Node<D>, D>, ghost r: P.Tree<Node<D>, D>, ghost w: nat,
                      ghost ns: set<Node<D>>)
    returns (c: Node<D>, ghost f: map<Node<D>, Node<D>>, ghost cs: set<Node<D>>)
    requires Spans(root, l, w) && Spans(root, r, w) && root.left == l.n && root.right == r.n
    requires P.Linked(l) && P.Linked(r) && root !in P.Edges(l) && root !in P.Edges(r)
      && P.Edges(l).Keys !! P.Edges(r).Keys
    requires root in ns && P.AllNodes(l) <= ns && P.AllNodes(r) <= ns
    ensures f.Keys == {root} + P.Edges(l).Keys + P.Edges(r).Keys && c == f[root]
    ensures fresh(cs) && IsFirstCopy(f, ns, cs)
    decreases |P.Preorder(l)| + |P.Preorder(r)|, 1
  {
    hide Spans, P.Edges, P.Linked, P.Preorder, SelfLinked, IsFirstCopy;
    var cl, fl, sl := CopySide(root, root.left, l, w, ns);
    var cr, fr, sr := CopySide(root, root.right, r, w, ns);
    JoinCopies(fl, fr, ns, sl, sr);
    c, f := AddRoot(root, cl, cr, fl + fr, ns, sl + sr);
    cs := sl + sr + {c};
  }

  /** What is to be put on the side of p with link x: a copy of what is below, if the link leads down. */
  method CopySide<D>(p: Node<D>, x: Node<D>, ghost t: P.Tree<Node<D>, D>, ghost w: nat, ghost ns: set<Node<D>>)
    returns (c: Node?<D>, ghost f: map<Node<D>, Node<D>>, ghost cs: set<Node<D>>)
    requires Spans(p, t, w) && P.Linked(t) && P.AllNodes(t) <= ns && p in ns && x == t.n
    ensures f.Keys == P.Edges(t).Keys && x in ns
    ensures if x.bitIndex > p.bitIndex then x in f && c == f[x] else c == null
    ensures fresh(cs) && IsFirstCopy(f, ns, cs)
    decreases |P.Preorder(t)|, 0
  {
    hide Spans, P.Edges, P.Ups, P.Linked, P.Preorder;
    SideFacts(p, t, w, ns);
    if x.bitIndex > p.bitIndex {
      c, f, cs := CopyNodes(x, t.left, t.right, w, ns);
    } else {
      c, f, cs := null, map[], {};
    }
  }

  lemma SideFacts<D>(p: Node<D>, t: P.Tree<Node<D>, D>, w: nat, ns: set<Node<D>>)
    requires Spans(p, t, w) && P.Linked(t) && P.AllNodes(t) <= ns
    ensures t.n in ns
    ensures t.Branch? <==> p.bitIndex < t.n.bitIndex
    ensures t.Up? ==> P.Edges(t).Keys == {}
    ensures t.Branch? ==>
      && P.Edges(t).Keys == {t.n} + P.Edges(t.left).Keys + P.Edges(t.right).Keys
      && t.n !in P.Edges(t.left) && t.n !in P.Edges(t.right) && P.Edges(t.left).Keys !! P.Edges(t.right).Keys
      && t.n.left == t.left.n && t.n.right == t.right.n
      && Spans(t.n, t.left, w) && Spans(t.n, t.right, w)
      && P.Linked(t.left) && P.Linked(t.right)
      && P.AllNodes(t.left) <= ns && P.AllNodes(t.right) <= ns
      && |P.Preorder(t)| == 1 + |P.Preorder(t.left)| + |P.Preorder(t.right)|
  {
    if t.Branch? {
      P.EdgeKeys(t);
      P.ChildPart(t, t.left);
      P.ChildPart(t, t.right);
    }
  }

  /* ---------- upward links ---------- */

  ghost function Link<D>(n: Node<D>, side: bool): Node<D>
    reads n`left, n`right
  {
    if side then n.right else n.left
  }

  /** h tells where the copies of the upward links in t lead; t hangs on side qs of q. */
  ghost predicate UpLinksLead<D>(q: Node<D>, t: P.Tree<Node<D>, D>, qs: bool, f: map<Node<D>, Node<D>>,
                                 h: map<Node<D>, Node<D>>, ns: set<Node<D>>, cs: set<Node<D>>)
    reads cs
  {
    forall m {:trigger P.LinkSource(t, m, q, qs)} :: m in P.Ups(t) ==>
      var (n, side) := P.LinkSource(t, m, q, qs);
      m in h && n in f && f[n] in cs && Link(f[n], side) == h[m]
  }

  /** The copied nodes span the copied tree. */
  lemma {:induction false} CopySpans<D>(q: Node<D>, t: P.Tree<Node<D>, D>, qs: bool, f: map<Node<D>, Node<D>>,
                                        h: map<Node<D>, Node<D>>, ns: set<Node<D>>, cs: set<Node<D>>, w: nat)
    requires Spans(q, t, w) && P.Linked(t) && t.n == Link(q, qs)
    requires IsCopy(f, ns, cs) && q in f && P.Edges(t).Keys <= f.Keys && P.Ups(t).Keys <= h.Keys
    requires UpLinksLead(q, t, qs, f, h, ns, cs)
    ensures Spans(f[q], C.CopyTree(t, f, h), w)
    ensures Link(f[q], qs) == C.CopyTree(t, f, h).n
  {
    assert NodeCopied(q, f, ns, cs);
    if t.Branch? {
      var l, r := t.left, t.right;
      assert NodeCopied(t.n, f, ns, cs);
      forall m | m in P.Ups(l)
        ensures P.LinkSource(l, m, t.n, false) == P.LinkSource(t, m, q, qs)
      {
      }
      forall m | m in P.Ups(r)
        ensures P.LinkSource(r, m, t.n, true) == P.LinkSource(t, m, q, qs)
      {
      }
      CopySpans(t.n, l, false, f, h, ns, cs, w);
      CopySpans(t.n, r, true, f, h, ns, cs, w);
    } else {
      assert P.LinkSource(t, t.n, q, qs) == (q, qs);
    }
  }

  /** x is the first node in list with that bit index, or null if there is none. */
  ghost predicate IsFirst<D>(list: seq<Node<D>>, bitIndex: int, x: Node?<D>)
    reads list
  {
    if x == null then forall i :: 0 <= i < |list| ==> list[i].bitIndex != bitIndex
    else exists i ::
      0 <= i < |list| && list[i] == x && x.bitIndex == bitIndex && forall j :: 0 <= j < i ==>
        list[j].bitIndex != bitIndex
  }

  method FirstInList<D>(nodes: seq<Node<D>>, bitIndex: int) returns (x: Node?<D>)
    ensures IsFirst(nodes, bitIndex, x)
  {
    for i := 0 to |nodes|
      invariant forall j :: 0 <= j < i ==> nodes[j].bitIndex != bitIndex
    {
      if nodes[i].bitIndex == bitIndex {
        return nodes[i];
      }
    }
    x := null;
  }

  /** The first listed node with that bit index; the head for -1. */
  method FindBitIndexNode<D>(head: Node<D>, bitIndex: int, ghost up: P.Tree<Node<D>, D>, ghost t: P.Tree<Node<D>, D>,
                             ghost w: nat)
    returns (x: Node?<D>)
    requires Spans(head, up, w) && up.Up? && head.left == up.n
    requires Spans(head, t, w) && head.right == t.n && head.bitIndex == -1
    ensures if bitIndex == -1 then x == head else IsFirst(P.Preorder(t), bitIndex, x)
  {
    if bitIndex == -1 {
      return head;
    }
    var nodes := NodeList(head, up, t, w);
    assert nodes == P.Preorder(t);
    hide P.Preorder, Spans, IsFirst;
    x := FirstInList(nodes, bitIndex);
  }

  lemma HeadIsSameBit<D>(t: P.Tree<Node<D>, D>, head: Node<D>)
    requires P.Linked(t)
    ensures C.SameBit(t, head, head) == head
  {
  }

  /** In the copy, the search by the bit index of m finds the copy of that node. */
  lemma FoundIsSameBit<D>(t: P.Tree<Node<D>, D>, head: Node<D>, f: map<Node<D>, Node<D>>, h: map<Node<D>, Node<D>>,
                          ns: set<Node<D>>, cs: set<Node<D>>, m: Node<D>, x: Node?<D>)
    requires P.Linked(t) && IsCopy(f, ns, cs) && P.Edges(t).Keys <= f.Keys && P.Ups(t).Keys <= h.Keys
    requires forall n :: n in P.Edges(t) ==> n.bitIndex == P.Edges(t)[n].bit
    requires m in P.Edges(t) && m != head
    requires IsFirst(P.Preorder(C.CopyTree(t, f, h)), m.bitIndex, x)
    ensures C.SameBit(t, head, m) in f && x == f[C.SameBit(t, head, m)] && x.bitIndex == m.bitIndex
  {
    var list, list' := P.Preorder(t), P.Preorder(C.CopyTree(t, f, h));
    C.PreorderMembers(t);
    C.CopyPreorder(t, f, h);
    C.SameBitListed(t, head, m);
    hide P.Preorder, P.Edges, P.Ups, P.Linked, C.CopyTree, C.SameBit;
    forall i | 0 <= i < |list|
      ensures list'[i].bitIndex == P.Edges(t)[list[i]].bit
    {
      CopiedBit(list[i], f, ns, cs);
    }
    hide IsCopy;
    FirstIs(list', m.bitIndex, x, C.First(list, P.Edges(t), m.bitIndex));
  }

  lemma CopiedBit<D>(n: Node<D>, f: map<Node<D>, Node<D>>, ns: set<Node<D>>, cs: set<Node<D>>)
    requires IsCopy(f, ns, cs) && n in f
    ensures f[n] in cs && f[n].bitIndex == n.bitIndex
  {
    assert NodeCopied(n, f, ns, cs);
  }

  lemma FirstIs<D>(list: seq<Node<D>>, bitIndex: int, x: Node?<D>, j: nat)
    requires IsFirst(list, bitIndex, x) && j < |list| && list[j].bitIndex == bitIndex
    requires forall i :: 0 <= i < j ==> list[i].bitIndex != bitIndex
    ensures x == list[j]
  {
  }

  /* ---------- wiring the upward links ---------- */

  /** Where the copy of the upward link of n to m has to lead, before and after n is wired. */
  ghost function Target<D>(t: P.Tree<Node<D>, D>, head: Node<D>, n: Node<D>, m: Node<D>, wired: bool): Node<D>
    requires P.Linked(t)
    reads n`bitIndex, m`bitIndex
  {
    if wired && m.bitIndex < n.bitIndex then C.SameBit(t, head, m) else n
  }

  /** The copy of the link of n on that side leads where it has to, if the links in done are wired. */
  ghost predicate LinkLeads<D>(t: P.Tree<Node<D>, D>, head: Node<D>, n: Node<D>, side: bool, f: map<Node<D>, Node<D>>,
                               ns: set<Node<D>>, cs: set<Node<D>>, done: set<(Node<D>, bool)>)
    requires P.Linked(t)
    reads ns, cs
  {
    && NodeCopied(n, f, ns, cs)
    && (Link(n, side).bitIndex <= n.bitIndex ==>
          var m := Target(t, head, n, Link(n, side), (n, side) in done);
          m in f && Link(f[n], side) == f[m])
  }

  /** What the copied upward links lead to at the moment. */
  ghost function UpMap<D>(t: P.Tree<Node<D>, D>, head: Node<D>, f: map<Node<D>, Node<D>>,
                          cs: set<Node<D>>): (h: map<Node<D>, Node<D>>)
    requires P.Linked(t) && f.Keys == P.Edges(t).Keys + {head}
    requires forall n :: n in f ==> f[n] in cs
    reads cs
    ensures h.Keys == P.Ups(t).Keys
  {
    map m | m in P.Ups(t) ::
      P.SourceIn(t, 0, 0, m, head, true);
      Link(f[P.LinkSource(t, m, head, true).0], P.LinkSource(t, m, head, true).1)
  }

  /** A copy of the trie under construction. */
  ghost predicate InCopy<D>(trie: Trie<D>, f: map<Node<D>, Node<D>>, cs: set<Node<D>>)
    reads trie, trie.nodes, cs
  {
    && trie.Valid() && f.Keys == trie.nodes && IsCopy(f, trie.nodes, cs)
    && f[trie.head] in cs && f[trie.head].left == f[trie.head]
  }

  lemma CopySpansNow<D>(trie: Trie<D>, f: map<Node<D>, Node<D>>, cs: set<Node<D>>) returns (h: map<Node<D>, Node<D>>)
    requires InCopy(trie, f, cs)
    ensures P.Linked(trie.tree) && f.Keys == P.Edges(trie.tree).Keys + {trie.head} && P.Ups(trie.tree).Keys <= h.Keys
    ensures (forall n :: n in f ==> f[n] in cs) && h == UpMap(trie.tree, trie.head, f, cs)
    ensures Spans(f[trie.head], C.CopyTree(trie.tree, f, h), 8 * trie.bytes)
    ensures f[trie.head].right == C.CopyTree(trie.tree, f, h).n && f[trie.head].bitIndex == -1
  {
    hide P.Sorted, P.Linked, P.Edges, P.Ups, Spans, C.CopyTree, IsCopy, UpMap;
    trie.SpansBelowHead(Zeros(8 * trie.bytes));
    CopyInSet(f, trie.nodes, cs);
    h := UpMap(trie.tree, trie.head, f, cs);
    CopySpansBelow(trie.tree, trie.head, f, trie.nodes, cs, 8 * trie.bytes);
  }

  lemma CopySpansBelow<D>(t: P.Tree<Node<D>, D>, head: Node<D>, f: map<Node<D>, Node<D>>, ns: set<Node<D>>,
                          cs: set<Node<D>>, w: nat)
    requires P.Linked(t) && f.Keys == P.Edges(t).Keys + {head} && (forall n :: n in f ==> f[n] in cs)
    requires Spans(head, t, w) && head.right == t.n && IsCopy(f, ns, cs)
    ensures Spans(f[head], C.CopyTree(t, f, UpMap(t, head, f, cs)), w)
    ensures f[head].right == C.CopyTree(t, f, UpMap(t, head, f, cs)).n && f[head].bitIndex == head.bitIndex
  {
    assert NodeCopied(head, f, ns, cs);
    hide P.Linked, P.Edges, P.Ups, P.LinkSource, Spans, C.CopyTree, IsCopy, UpMap, UpLinksLead;
    UpMapLeads(t, head, f, ns, cs);
    CopySpans(head, t, true, f, UpMap(t, head, f, cs), ns, cs, w);
  }

  lemma CopyInSet<D>(f: map<Node<D>, Node<D>>, ns: set<Node<D>>, cs: set<Node<D>>)
    requires IsCopy(f, ns, cs)
    ensures forall n :: n in f ==> f[n] in cs
  {
    forall n | n in f
      ensures f[n] in cs
    {
      assert NodeCopied(n, f, ns, cs);
    }
  }

  lemma UpMapLeads<D>(t: P.Tree<Node<D>, D>, head: Node<D>, f: map<Node<D>, Node<D>>, ns: set<Node<D>>,
                      cs: set<Node<D>>)
    requires P.Linked(t) && f.Keys == P.Edges(t).Keys + {head}
    requires forall n :: n in f ==> f[n] in cs
    ensures UpLinksLead(head, t, true, f, UpMap(t, head, f, cs), ns, cs)
  {
    hide P.Linked, P.Edges, P.Ups, P.LinkSource;
    forall m | m in P.Ups(t)
      ensures P.LinkSource(t, m, head, true).0 in f
    {
      P.SourceIn(t, 0, 0, m, head, true);
    }
  }

  /** Finds the copy for the target m of an upward link. */
  method FindCopy<D>(trie: Trie<D>, newHead: Node<D>, m: Node<D>, ghost f: map<Node<D>, Node<D>>,
                     ghost cs: set<Node<D>>)
    returns (x: Node<D>)
    requires InCopy(trie, f, cs) && newHead == f[trie.head] && m in trie.nodes
    ensures P.Linked(trie.tree) && C.SameBit(trie.tree, trie.head, m) in f
    ensures x == f[C.SameBit(trie.tree, trie.head, m)] && x in cs && x.bitIndex == m.bitIndex
  {
    hide P.Sorted, P.Linked, P.Edges, P.Ups, C.CopyTree, IsCopy, UpMap, C.SameBit, P.Preorder, IsFirst;
    ghost var h := CopySpansNow(trie, f, cs);
    ghost var up := P.Up(newHead, newHead.key, newHead.data);
    var y := FindBitIndexNode(newHead, m.bitIndex, up, C.CopyTree(trie.tree, f, h), 8 * trie.bytes);
    if m == trie.head {
      HeadIsSameBit(trie.tree, trie.head);
    } else {
      P.EdgeBits(trie.tree, -1, 8 * trie.bytes, m);
      FoundIsSameBit(trie.tree, trie.head, f, h, trie.nodes, cs, m, y);
    }
    x := y;
  }

  ghost predicate AllLead<D>(t: P.Tree<Node<D>, D>, head: Node<D>, f: map<Node<D>, Node<D>>,
                             ns: set<Node<D>>, cs: set<Node<D>>, done: set<(Node<D>, bool)>)
    requires P.Linked(t)
    reads ns, cs
  {
    forall n, side {:trigger LinkLeads(t, head, n, side, f, ns, cs, done)} :: n in f ==>
      LinkLeads(t, head, n, side, f, ns, cs, done)
  }

  method SetSide<D>(c: Node<D>, side: bool, x: Node<D>)
    modifies c`left, c`right
    ensures Link(c, side) == x && Link(c, !side) == old(Link(c, !side))
  {
    if side {
      c.right := x;
    } else {
      c.left := x;
    }
  }

  method SetCopyLink<D>(c: Node<D>, side: bool, x: Node<D>, ghost n: Node<D>, ghost t: P.Tree<Node<D>, D>,
                        ghost head: Node<D>, ghost f: map<Node<D>, Node<D>>, ghost ns: set<Node<D>>,
                        ghost cs: set<Node<D>>, ghost done: set<(Node<D>, bool)>)
    requires P.Linked(t) && C.Injective(f) && AllLead(t, head, f, ns, cs, done) && cs !! ns && n in f && c == f[n]
    requires n in ns && Link(n, side) in ns && Link(n, side).bitIndex < n.bitIndex
    requires x in cs && x.bitIndex == Link(n, side).bitIndex && C.SameBit(t, head, Link(n, side)) in f
      && x == f[C.SameBit(t, head, Link(n, side))]
    modifies c`left, c`right
    ensures AllLead(t, head, f, ns, cs, done + {(n, side)})
  {
    hide P.Linked, C.SameBit;
    assert LinkLeads(t, head, n, side, f, ns, cs, done);
    SetSide(c, side, x);
    ghost var done' := done + {(n, side)};
    forall n', side' | n' in f
      ensures LinkLeads(t, head, n', side', f, ns, cs, done')
    {
      assert old(LinkLeads(t, head, n', side', f, ns, cs, done));
      if n' != n {
        assert f[n'] != c && Link(f[n'], side') == old(Link(f[n'], side'));
      }
    }
    assert AllLead(t, head, f, ns, cs, done');
  }

  /** The links in done are wired, the others still lead from a copy to itself. */
  ghost predicate Wired<D>(trie: Trie<D>, f: map<Node<D>, Node<D>>, cs: set<Node<D>>, done: set<(Node<D>, bool)>)
    reads trie, trie.nodes, cs
  {
    && trie.Valid() && f.Keys == trie.nodes && cs !! trie.nodes && C.Injective(f)
    && f[trie.head] in cs && f[trie.head].left == f[trie.head]
    && AllLead(trie.tree, trie.head, f, trie.nodes, cs, done)
  }

  lemma WiredInCopy<D>(trie: Trie<D>, f: map<Node<D>, Node<D>>, cs: set<Node<D>>, done: set<(Node<D>, bool)>)
    requires Wired(trie, f, cs, done)
    ensures InCopy(trie, f, cs) && P.Linked(trie.tree) && trie.head in trie.nodes
  {
    hide P.Sorted, P.Linked, P.Edges, P.Ups, Mirrors, AllLead, IsCopy;
    LeadIsCopy(trie.tree, trie.head, f, trie.nodes, cs, done);
  }

  lemma LeadIsCopy<D>(t: P.Tree<Node<D>, D>, head: Node<D>, f: map<Node<D>, Node<D>>,
                      ns: set<Node<D>>, cs: set<Node<D>>, done: set<(Node<D>, bool)>)
    requires P.Linked(t) && C.Injective(f) && AllLead(t, head, f, ns, cs, done)
    ensures IsCopy(f, ns, cs)
  {
    hide P.Linked, NodeCopied, Target;
    forall n | n in f
      ensures NodeCopied(n, f, ns, cs)
    {
      assert LinkLeads(t, head, n, false, f, ns, cs, done);
    }
  }

  /** Wires the link of c, the copy of n, on that side, if it leads up. */
  method WireLink<D>(trie: Trie<D>, newHead: Node<D>, n: Node<D>, c: Node<D>, side: bool,
                     ghost f: map<Node<D>, Node<D>>, ghost cs: set<Node<D>>, ghost done: set<(Node<D>, bool)>)
    requires Wired(trie, f, cs, done) && newHead == f[trie.head]
    requires n in f && n != trie.head && c == f[n]
    modifies c`left, c`right
    ensures Wired(trie, f, cs, done + {(n, side)})
  {
    hide Trie.Valid, InCopy, P.Linked, C.SameBit, LinkLeads, NodeCopied, AllLead;
    WiredInCopy(trie, f, cs, done);
    LinkStays(trie, f, cs, n, side);
    var m := if side then n.right else n.left;
    if m.bitIndex < n.bitIndex {
      var x := FindCopy(trie, newHead, m, f, cs);
      SetCopyLink(c, side, x, n, trie.tree, trie.head, f, trie.nodes, cs, done);
    } else {
      DoneAnyway(trie.tree, trie.head, n, side, f, trie.nodes, cs, done);
    }
  }

  lemma LinkStays<D>(trie: Trie<D>, f: map<Node<D>, Node<D>>, cs: set<Node<D>>, n: Node<D>, side: bool)
    requires InCopy(trie, f, cs) && n in f
    ensures n in trie.nodes && Link(n, side) in trie.nodes && f[n] in cs
  {
    assert NodeCopied(n, f, trie.nodes, cs);
  }

  lemma DoneAnyway<D>(t: P.Tree<Node<D>, D>, head: Node<D>, n: Node<D>, side: bool, f: map<Node<D>, Node<D>>,
                      ns: set<Node<D>>, cs: set<Node<D>>, done: set<(Node<D>, bool)>)
    requires P.Linked(t) && AllLead(t, head, f, ns, cs, done) && n in ns && Link(n, side) in ns
      && Link(n, side).bitIndex >= n.bitIndex
    ensures AllLead(t, head, f, ns, cs, done + {(n, side)})
  {
    hide P.Linked, C.SameBit;
    forall n', side' | n' in f
      ensures LinkLeads(t, head, n', side', f, ns, cs, done + {(n, side)})
    {
      assert LinkLeads(t, head, n', side', f, ns, cs, done);
    }
  }

  lemma FirstCopyWired<D>(t: P.Tree<Node<D>, D>, head: Node<D>, f: map<Node<D>, Node<D>>, ns: set<Node<D>>,
                          cs: set<Node<D>>)
    requires P.Linked(t) && IsFirstCopy(f, ns, cs) && head in f && head.left == head
    ensures AllLead(t, head, f, ns, cs, {}) && C.Injective(f) && f[head] in cs && f[head].left == f[head]
  {
    hide P.Linked, C.SameBit;
    assert SelfLinked(head, f, ns, cs);
    forall n, side | n in f
      ensures LinkLeads(t, head, n, side, f, ns, cs, {})
    {
      assert SelfLinked(n, f, ns, cs);
    }
  }

  ghost function BothSides<D>(ns: set<Node<D>>): set<(Node<D>, bool)> {
    set n, side | n in ns && side in {false, true} :: (n, side)
  }

  /** Copies all nodes of the trie; the downward links are in place. */
  method CopyAll<D>(trie: Trie<D>) returns (newHead: Node<D>, ghost f: map<Node<D>, Node<D>>, ghost cs: set<Node<D>>)
    requires trie.Valid()
    ensures fresh(cs) && Wired(trie, f, cs, {}) && newHead == f[trie.head]
  {
    hide Trie.Valid, P.Linked, P.Edges, P.Ups, Spans, IsFirstCopy, AllLead;
    ghost var up := P.Up(trie.head, trie.head.key, trie.head.data);
    HeadFacts(trie, up);
    newHead, f, cs := CopyNodes(trie.head, up, trie.tree, 8 * trie.bytes, trie.nodes);
    FirstCopyWired(trie.tree, trie.head, f, trie.nodes, cs);
  }

  /** What hangs on the two sides of the head. */
  lemma HeadFacts<D>(trie: Trie<D>, up: P.Tree<Node<D>, D>)
    requires trie.Valid() && up.Up? && up.n == trie.head
    ensures Spans(trie.head, up, 8 * trie.bytes) && Spans(trie.head, trie.tree, 8 * trie.bytes)
    ensures trie.head.left == up.n == trie.head && trie.head.right == trie.tree.n
    ensures P.Linked(up) && P.Edges(up).Keys == {} && P.AllNodes(up) == {trie.head}
    ensures P.Linked(trie.tree) && P.Edges(trie.tree).Keys == trie.nodes - {trie.head}
      && P.AllNodes(trie.tree) == trie.nodes
    ensures trie.head in trie.nodes
  {
    trie.SpansBelowHead(Zeros(8 * trie.bytes));
    assert P.AllNodes(up) == {trie.head};
  }

  /** Goes through the nodes and their copies and wires the upward links. */
  method WireAll<D>(trie: Trie<D>, newHead: Node<D>, orig: seq<Node<D>>, copy: seq<Node<D>>,
                    ghost f: map<Node<D>, Node<D>>, ghost cs: set<Node<D>>)
    requires Wired(trie, f, cs, {}) && newHead == f[trie.head]
    requires |orig| == |copy| && forall i :: 0 <= i < |orig| ==>
      orig[i] in f && orig[i] != trie.head && copy[i] == f[orig[i]] && copy[i] in cs
    modifies cs
    ensures Wired(trie, f, cs, BothSides(set n | n in orig))
  {
    hide Wired;
    ghost var done := {};
    for i := 0 to |orig|
      invariant Wired(trie, f, cs, done)
      invariant done == BothSides(set n | n in orig[..i])
    {
      WireLink(trie, newHead, orig[i], copy[i], false, f, cs, done);
      WireLink(trie, newHead, orig[i], copy[i], true, f, cs, done + {(orig[i], false)});
      done := done + {(orig[i], false)} + {(orig[i], true)};
      assert orig[..i + 1] == orig[..i] + [orig[i]];
    }
    assert orig[..|orig|] == orig;
  }

  /* ---------- the finished copy ---------- */

  lemma SameBitIsRefound<D>(t: P.Tree<Node<D>, D>, head: Node<D>, m: Node<D>)
    requires P.Linked(t) && (m == head || (m in P.Edges(t) && P.LinkSource(t, m, head, true).0 != m))
    ensures C.SameBit(t, head, m) == C.Refound(t, head, m)
  {
    hide P.Linked, P.Edges, P.Preorder, P.LinkSource;
  }

  /** When everything is wired, the copy of the upward link to m leads to the copy of the node found again for m. */
  lemma LeadsToRefound<D>(t: P.Tree<Node<D>, D>, head: Node<D>, f: map<Node<D>, Node<D>>,
                          ns: set<Node<D>>, cs: set<Node<D>>, w: nat, m: Node<D>)
    requires P.IsTrie(t, head, ns, w) && f.Keys == ns && m in ns
    requires head.bitIndex == -1 && (forall n :: n in P.Edges(t) ==> n.Links() == P.Edges(t)[n])
    requires Spans(head, t, w) && head.right == t.n
    requires AllLead(t, head, f, ns, cs, BothSides(ns - {head}))
    ensures C.Refound(t, head, m) in f
    ensures var (n, side) := P.LinkSource(t, m, head, true);
      n in f && f[n] in cs && Link(f[n], side) == f[C.Refound(t, head, m)]
  {
    hide P.Linked, P.Sorted, P.Edges, P.Ups, P.LinkSource, P.Preorder, Spans, C.Refound, C.SameBit;
    var (n, side) := P.LinkSource(t, m, head, true);
    SourceIsUpLink(head, t, w, m, true);
    assert LinkLeads(t, head, n, side, f, ns, cs, BothSides(ns - {head}));
    if m == head {
      HeadIsSameBit(t, head);
      SameBitIsRefound(t, head, m);
      if n != head {
        P.EdgeBits(t, -1, w, n);
      }
    } else {
      P.SourceBelow(t, -1, w, m, head, true);
      if n != m {
        SameBitIsRefound(t, head, m);
      } else {
        RefoundSelf(t, head, m);
      }
    }
  }

  lemma RefoundSelf<D>(t: P.Tree<Node<D>, D>, head: Node<D>, m: Node<D>)
    requires P.Linked(t) && m in P.Edges(t) && P.LinkSource(t, m, head, true).0 == m
    ensures C.Refound(t, head, m) == m
  {
  }

  /** Where the copied upward links lead in the end. */
  ghost function Leads<D>(t: P.Tree<Node<D>, D>, head: Node<D>, f: map<Node<D>, Node<D>>, w: nat)
    : (h: map<Node<D>, Node<D>>)
    requires P.IsTrie(t, head, f.Keys, w)
    ensures h.Keys == f.Keys
  {
    map m | m in f :: C.RefoundIn(t, head, f.Keys, w, m); f[C.Refound(t, head, m)]
  }

  lemma {:induction false} CopyAllNodes<D>(t: P.Tree<Node<D>, D>, f: map<Node<D>, Node<D>>, h: map<Node<D>, Node<D>>,
                                           s: set<Node<D>>)
    requires P.Edges(t).Keys <= f.Keys && P.Ups(t).Keys <= h.Keys
    requires (forall n :: n in f ==> f[n] in s) && (forall n :: n in h ==> h[n] in s)
    ensures P.AllNodes(C.CopyTree(t, f, h)) <= s
  {
    if t.Branch? {
      var t' := C.CopyTree(t, f, h);
      P.EdgeKeys(t);
      P.EdgeKeys(t');
      assert P.Ups(t').Keys == P.Ups(t'.left).Keys + P.Ups(t'.right).Keys;
      assert P.Ups(t).Keys == P.Ups(t.left).Keys + P.Ups(t.right).Keys;
      hide P.Edges, P.Ups;
      CopyAllNodes(t.left, f, h, s);
      CopyAllNodes(t.right, f, h, s);
    }
  }

  lemma FinishedSpans<D>(trie: Trie<D>, f: map<Node<D>, Node<D>>, cs: set<Node<D>>)
    requires Wired(trie, f, cs, BothSides(trie.nodes - {trie.head}))
    ensures var t' := C.CopyTree(trie.tree, f, Leads(trie.tree, trie.head, f, 8 * trie.bytes));
      Spans(f[trie.head], t', 8 * trie.bytes) && f[trie.head].right == t'.n && f[trie.head].bitIndex == -1
  {
    hide P.Sorted, P.Linked, P.Edges, P.Ups, Spans, AllLead, IsCopy, C.CopyTree, UpLinksLead, Leads, BothSides;
    var t, head, w := trie.tree, trie.head, 8 * trie.bytes;
    WiredInCopy(trie, f, cs, BothSides(trie.nodes - {head}));
    trie.SpansBelowHead(Zeros(w));
    CopyBits(trie, f, cs, head);
    AllLeadToRefound(t, head, f, trie.nodes, cs, w);
    CopySpans(head, t, true, f, Leads(t, head, f, w), trie.nodes, cs, w);
  }

  lemma AllLeadToRefound<D>(t: P.Tree<Node<D>, D>, head: Node<D>, f: map<Node<D>, Node<D>>, ns: set<Node<D>>,
                            cs: set<Node<D>>, w: nat)
    requires P.IsTrie(t, head, ns, w) && f.Keys == ns
    requires head.bitIndex == -1 && (forall n :: n in P.Edges(t) ==> n.Links() == P.Edges(t)[n])
    requires Spans(head, t, w) && head.right == t.n
    requires AllLead(t, head, f, ns, cs, BothSides(ns - {head}))
    ensures UpLinksLead(head, t, true, f, Leads(t, head, f, w), ns, cs)
  {
    hide P.Sorted, P.Linked, P.Edges, P.Ups, P.LinkSource, Spans, AllLead, BothSides;
    forall m | m in P.Ups(t)
      ensures var (n, side) := P.LinkSource(t, m, head, true);
        n in f && f[n] in cs && Link(f[n], side) == Leads(t, head, f, w)[m]
    {
      LeadsToRefound(t, head, f, ns, cs, w, m);
    }
  }

  lemma CopyBits<D>(trie: Trie<D>, f: map<Node<D>, Node<D>>, cs: set<Node<D>>, n: Node<D>)
    requires InCopy(trie, f, cs) && n in f
    ensures f[n] in cs && f[n].bitIndex == n.bitIndex && f[n].Entry() == n.Entry()
  {
    assert NodeCopied(n, f, trie.nodes, cs);
  }

  ghost function Finished<D>(trie: Trie<D>, f: map<Node<D>, Node<D>>): P.Tree<Node<D>, D>
    requires trie.Valid() && f.Keys == trie.nodes
    reads trie, trie.nodes
  {
    C.CopyTree(trie.tree, f, Leads(trie.tree, trie.head, f, 8 * trie.bytes))
  }

  /** The walk for k in the copy ends at the copy of the node found again for the end of the walk in the trie. */
  lemma CopyFinds<D>(trie: Trie<D>, f: map<Node<D>, Node<D>>, cs: set<Node<D>>, k: Key)
    requires InCopy(trie, f, cs)
    ensures var u := P.Find(trie.tree, k).n; u in trie.nodes && C.Refound(trie.tree, trie.head, u) in trie.nodes
    ensures P.Find(Finished(trie, f), k).n in cs
    ensures P.Find(Finished(trie, f), k).n.Entry() == C.Refound(trie.tree, trie.head, P.Find(trie.tree, k).n).Entry()
  {
    hide P.Sorted, P.Linked, P.Edges, P.Ups, P.Find, C.CopyTree, IsCopy, Mirrors, C.Refound;
    var t, head, w := trie.tree, trie.head, 8 * trie.bytes;
    C.CopyFind(t, f, Leads(t, head, f, w), k);
    C.RefoundIn(t, head, trie.nodes, w, P.Find(t, k).n);
    CopyBits(trie, f, cs, C.Refound(t, head, P.Find(t, k).n));
  }

  lemma CopySurvives<D>(trie: Trie<D>, f: map<Node<D>, Node<D>>, cs: set<Node<D>>)
    requires InCopy(trie, f, cs)
    ensures forall k :: P.Find(Finished(trie, f), k).n in cs
    ensures (forall k :: k in trie.Contents() ==> P.Find(Finished(trie, f), k).n.key == k) <==>
      C.NoEarlierTwin(trie.tree, trie.head)
  {
    hide P.Sorted, P.Linked, P.Edges, P.Ups, P.Find, IsCopy, C.Refound, P.Contents, Finished, C.NoEarlierTwin;
    var t, head, w := trie.tree, trie.head, 8 * trie.bytes;
    forall k
      ensures P.Find(Finished(trie, f), k).n in cs
      ensures P.Find(Finished(trie, f), k).n.key == k <==> C.FoundInCopy(t, head, trie.nodes, k)
    {
      CopyFinds(trie, f, cs, k);
    }
    C.LookupsSurviveExactly(t, head, trie.nodes, w);
    if C.NoEarlierTwin(t, head) {
      forall k | k in trie.Contents()
        ensures P.Find(Finished(trie, f), k).n.key == k
      {
        assert C.FoundInCopy(t, head, trie.nodes, k);
      }
    } else {
      var k :| k in P.Contents(t) && !C.FoundInCopy(t, head, trie.nodes, k);
      assert P.Find(Finished(trie, f), k).n.key != k;
    }
  }

  lemma {:induction false} SpansMirror<D>(q: Node<D>, t: P.Tree<Node<D>, D>, w: nat, n: Node<D>)
    requires Spans(q, t, w) && n in P.Edges(t)
    ensures n.Links() == P.Edges(t)[n]
  {
    if n in P.Edges(t.right) {
      SpansMirror(t.n, t.right, w, n);
    } else if n in P.Edges(t.left) {
      SpansMirror(t.n, t.left, w, n);
    }
  }

  lemma AllLeadHome<D>(t: P.Tree<Node<D>, D>, head: Node<D>, f: map<Node<D>, Node<D>>, w: nat)
    requires P.IsTrie(t, head, f.Keys, w) && C.NoEarlierTwin(t, head)
    ensures Leads(t, head, f, w) == f
  {
    hide P.Sorted, P.Linked, P.Edges, P.Ups, C.NoEarlierTwin;
    C.RefoundExactly(t, head);
    forall m | m in f
      ensures C.Refound(t, head, m) == m
    {
    }
  }

  lemma CopyMirrors<D>(trie: Trie<D>, f: map<Node<D>, Node<D>>, cs: set<Node<D>>)
    requires InCopy(trie, f, cs) && C.Injective(f) && Finished(trie, f) == C.CopyTree(trie.tree, f, f)
    requires Spans(f[trie.head], Finished(trie, f), 8 * trie.bytes)
    ensures P.Ups(Finished(trie, f)).Keys + P.Edges(Finished(trie, f)).Keys <= cs
    ensures Mirrors(P.Edges(Finished(trie, f)), P.Ups(Finished(trie, f)))
  {
    hide P.Sorted, P.Linked, P.Edges, P.Ups, Spans, IsCopy, C.CopyTree, Finished;
    var t', w := Finished(trie, f), 8 * trie.bytes;
    C.CopyLinks(trie.tree, f);
    forall n | n in P.Edges(t')
      ensures n in cs && n.Links() == P.Edges(t')[n]
    {
      SpansMirror(f[trie.head], t', w, n);
      var m :| m in P.Edges(trie.tree) && f[m] == n;
      CopyBits(trie, f, cs, m);
    }
    forall n | n in P.Ups(t')
      ensures n in cs && n.Entry() == P.Ups(t')[n]
    {
      var m :| m in P.Ups(trie.tree) && f[m] == n;
      C.CopyUps(trie.tree, f, -1, w, m);
      CopyBits(trie, f, cs, m);
    }
  }

  /** The node list of the unfinished copy. */
  method CopiedList<D>(trie: Trie<D>, newHead: Node<D>, orig: seq<Node<D>>, ghost f: map<Node<D>, Node<D>>,
                       ghost cs: set<Node<D>>)
    returns (copy: seq<Node<D>>)
    requires InCopy(trie, f, cs) && newHead == f[trie.head] && orig == P.Preorder(trie.tree)
    ensures |copy| == |orig| && forall i :: 0 <= i < |orig| ==>
      orig[i] in f && copy[i] == f[orig[i]] && copy[i] in cs && orig[i] != trie.head
    ensures (set n | n in orig) == trie.nodes - {trie.head}
  {
    hide P.Sorted, P.Linked, P.Edges, P.Ups, C.CopyTree, IsCopy, UpMap, P.Preorder, Mirrors;
    ghost var h := CopySpansNow(trie, f, cs);
    ghost var up := P.Up(newHead, newHead.key, newHead.data);
    NoPreorder(up);
    copy := NodeList(newHead, up, C.CopyTree(trie.tree, f, h), 8 * trie.bytes);
    assert copy == P.Preorder(C.CopyTree(trie.tree, f, h));
    assert trie.head !in P.Edges(trie.tree) && P.Edges(trie.tree).Keys == trie.nodes - {trie.head};
    hide Trie.Valid, InCopy, Spans;
    ListsMatch(trie.tree, trie.head, f, h, cs);
  }

  /** The node lists of a tree and of its copy. */
  lemma ListsMatch<D>(t: P.Tree<Node<D>, D>, head: Node<D>, f: map<Node<D>, Node<D>>, h: map<Node<D>, Node<D>>,
                      cs: set<Node<D>>)
    requires P.Linked(t) && head !in P.Edges(t) && P.Edges(t).Keys <= f.Keys && P.Ups(t).Keys <= h.Keys
    requires forall n :: n in f ==> f[n] in cs
    ensures var orig, copy := P.Preorder(t), P.Preorder(C.CopyTree(t, f, h));
      && |copy| == |orig| && (set n | n in orig) == P.Edges(t).Keys
      && forall i :: 0 <= i < |orig| ==>
           orig[i] in f && copy[i] == f[orig[i]] && copy[i] in cs && orig[i] != head
  {
    C.PreorderMembers(t);
    C.CopyPreorder(t, f, h);
    hide P.Preorder, P.Edges, P.Ups, P.Linked, C.CopyTree;
    assert forall n :: n in P.Edges(t).Keys <==> n in P.Preorder(t);
  }

  lemma NoPreorder<D>(up: P.Tree<Node<D>, D>)
    requires up.Up?
    ensures P.Preorder(up) == []
  {
  }

  lemma CopyStaysIn<D>(t: P.Tree<Node<D>, D>, head: Node<D>, f: map<Node<D>, Node<D>>, w: nat)
    requires P.IsTrie(t, head, f.Keys, w)
    ensures P.AllNodes(C.CopyTree(t, f, Leads(t, head, f, w))) <= C.Image(f.Keys, f)
  {
    hide P.Sorted, P.Linked, P.Edges, P.Ups, C.CopyTree, P.AllNodes, C.Refound;
    var h := Leads(t, head, f, w);
    forall m | m in h
      ensures h[m] in C.Image(f.Keys, f)
    {
      C.RefoundIn(t, head, f.Keys, w, m);
    }
    CopyAllNodes(t, f, h, C.Image(f.Keys, f));
  }

  /** The finished copy of a trie without earlier twins is a trie. */
  lemma FinishedCopy<D>(trie: Trie<D>, f: map<Node<D>, Node<D>>, cs: set<Node<D>>)
    requires Wired(trie, f, cs, BothSides(trie.nodes - {trie.head})) && C.NoEarlierTwin(trie.tree, trie.head)
    ensures P.IsTrie(Finished(trie, f), f[trie.head], C.Image(trie.nodes, f), 8 * trie.bytes)
    ensures P.Ups(Finished(trie, f)).Keys + P.Edges(Finished(trie, f)).Keys <= cs
    ensures Mirrors(P.Edges(Finished(trie, f)), P.Ups(Finished(trie, f)))
    ensures P.Contents(Finished(trie, f)) == trie.Contents()
  {
    hide P.Sorted, P.Linked, P.Edges, P.Ups, Spans, IsCopy, C.CopyTree, AllLead, BothSides, C.NoEarlierTwin, Mirrors;
    hide P.Contents, C.Image, Leads;
    WiredInCopy(trie, f, cs, BothSides(trie.nodes - {trie.head}));
    FinishedSpans(trie, f, cs);
    AllLeadHome(trie.tree, trie.head, f, 8 * trie.bytes);
    CopyMirrors(trie, f, cs);
    C.CopyIsTrie(trie.tree, trie.head, trie.nodes, 8 * trie.bytes, f);
  }

  /** Wires the upward links of the whole copy. */
  method WireUp<D>(trie: Trie<D>, newHead: Node<D>, ghost f: map<Node<D>, Node<D>>, ghost cs: set<Node<D>>)
    requires Wired(trie, f, cs, {}) && newHead == f[trie.head]
    modifies cs
    ensures Wired(trie, f, cs, BothSides(trie.nodes - {trie.head}))
  {
    hide Trie.Valid, AllLead, IsCopy, P.Preorder;
    WiredInCopy(trie, f, cs, {});
    var orig := trie.GetNodeList();
    var copy := CopiedList(trie, newHead, orig, f, cs);
    WireAll(trie, newHead, orig, copy, f, cs);
  }

  /** The walk for k in the copy c ends at a node with the entry of the node found again. */
  ghost predicate Found<D>(trie: Trie<D>, c: Trie<D>, k: Key)
    requires trie.Valid()
    reads trie, trie.nodes, c, P.Find(c.tree, k).n
  {
    P.FindInUps(trie.tree, k);
    C.RefoundIn(trie.tree, trie.head, trie.nodes, 8 * trie.bytes, P.Find(trie.tree, k).n);
    P.Find(c.tree, k).n.Entry() == C.Refound(trie.tree, trie.head, P.Find(trie.tree, k).n).Entry()
  }

  lemma WiredFacts<D>(trie: Trie<D>, f: map<Node<D>, Node<D>>, cs: set<Node<D>>)
    requires Wired(trie, f, cs, BothSides(trie.nodes - {trie.head}))
    ensures trie.Valid() && f.Keys == trie.nodes && trie.head in f && C.Image(trie.nodes, f) <= cs
  {
    hide Trie.Valid, BothSides;
    WiredInCopy(trie, f, cs, BothSides(trie.nodes - {trie.head}));
    CopyInSet(f, trie.nodes, cs);
  }

  /** What a finished copy is. */
  lemma CopyMeans<D>(trie: Trie<D>, c: Trie<D>, f: map<Node<D>, Node<D>>, cs: set<Node<D>>)
    requires Wired(trie, f, cs, BothSides(trie.nodes - {trie.head}))
    requires trie.head in f && c.head == f[trie.head] && c.bytes == trie.bytes
    requires trie.Valid() && f.Keys == trie.nodes && c.tree == Finished(trie, f) && c.nodes == C.Image(trie.nodes, f)
    ensures c.Walkable()
    ensures forall k :: Found(trie, c, k)
    ensures (forall k :: k in trie.Contents() ==> P.Find(c.tree, k).n.key == k) <==>
      C.NoEarlierTwin(trie.tree, trie.head)
    ensures C.NoEarlierTwin(trie.tree, trie.head) ==> c.Valid() && c.Contents() == trie.Contents()
  {
    assert c.head in c.nodes;
    hide P.Sorted, P.Linked, P.Edges, P.Ups, P.Find, P.Contents, C.NoEarlierTwin, C.Refound, C.CopyTree, C.Image;
    hide Spans, AllLead, Mirrors, Leads, BothSides;
    WiredInCopy(trie, f, cs, BothSides(trie.nodes - {trie.head}));
    FinishedSpans(trie, f, cs);
    CopyStaysIn(trie.tree, trie.head, f, 8 * trie.bytes);
    forall k
      ensures Found(trie, c, k)
    {
      CopyFinds(trie, f, cs, k);
    }
    CopySurvives(trie, f, cs);
    if C.NoEarlierTwin(trie.tree, trie.head) {
      FinishedCopy(trie, f, cs);
      CopyBits(trie, f, cs, trie.head);
    }
  }

  /**
   Copies the trie. The walk for a key in the copy ends at a copy of the node found again by bit index.
   All keys are still found exactly if there are no earlier twins, and then the copy is a trie of its
   own with the same contents.
   */
  method Copy<D>(trie: Trie<D>) returns (c: Trie<D>)
    requires trie.Valid()
    ensures fresh(c) && fresh(c.nodes) && c.bytes == trie.bytes && c.none == trie.none
    ensures c.Walkable()
    ensures forall k :: Found(trie, c, k)
    ensures (forall k :: k in trie.Contents() ==> P.Find(c.tree, k).n.key == k) <==>
      C.NoEarlierTwin(trie.tree, trie.head)
    ensures C.NoEarlierTwin(trie.tree, trie.head) ==> c.Valid() && c.Contents() == trie.Contents()
  {
    hide Trie.Valid, Trie.Walkable, Trie.Contents, P.Find, C.NoEarlierTwin, C.Refound, Wired, Finished, Found;
    ghost var f, cs;
    var newHead;
    newHead, f, cs := CopyAll(trie);
    c := new Trie(trie.bytes, trie.none);
    c.head := newHead;
    WireUp(trie, newHead, f, cs);
    WiredFacts(trie, f, cs);
    c.tree, c.nodes := Finished(trie, f), C.Image(trie.nodes, f);
    CopyMeans(trie, c, f, cs);
  }

  /* ---------- a copy that loses a key ---------- */

  /** Inserts a key that first differs in bit i from the key where its walk ends. */
  method InsertNew(trie: Trie<int>, k: Key, d: int, ghost i: nat) returns (n: Node<int>)
    requires trie.Valid() && |k| == 8 * trie.bytes && k !in trie.Contents()
    requires var f := P.Find(trie.tree, k).key; Agree(k, f, i) && i < |k| && i < |f| && k[i] != f[i]
    modifies trie, trie.nodes
    ensures trie.Valid() && trie.head == old(trie.head) && fresh(n) && trie.nodes == old(trie.nodes) + {n}
    ensures trie.tree == P.Insert(old(trie.tree), k, d, i, n) && trie.Contents() == old(trie.Contents())[k := d]
    ensures n.key == k && forall m :: m in old(trie.nodes) ==> m.key == old(m.key)
  {
    hide Trie.Valid, P.Find, P.Insert, Agree;
    PrefixIs(k, P.Find(trie.tree, k).key, i);
    var t := trie.Insert(k, d);
    n := t;
  }

  method MakeTwoKeys() returns (trie: Trie<int>, a: Node<int>, b: Node<int>)
    ensures fresh(trie) && fresh(trie.nodes) && trie.Valid() && trie.bytes == 1
    ensures trie.tree == P.Branch(a, 0, C.TwinLeft(trie.head, b), P.Up(a, C.K100, 1))
    ensures trie.nodes == {trie.head, a, b} && b.key == C.K010
    ensures trie.Contents() == map[C.K000 := 0, C.K100 := 1, C.K010 := 2]
  {
    hide Trie.Valid, Trie.Contents, P.Find, P.Insert, C.TwinLeft, C.Twins, Agree, C.ByteKey;
    C.TwinKeys();
    trie := new Trie(1, 0);
    assert trie.nodes == {trie.head};
    C.TwinsGrow(trie.head, trie.head, trie.head, trie.head, trie.head);
    a := InsertNew(trie, C.K100, 1, 0);
    C.TwinsGrow(trie.head, a, a, a, a);
    b := InsertNew(trie, C.K010, 2, 1);
    C.TwinsGrow(trie.head, a, b, b, b);
  }

  /** Five keys such that two nodes get the same bit index. */
  method MakeTwins() returns (trie: Trie<int>, a: Node<int>, b: Node<int>, c: Node<int>, d: Node<int>)
    ensures fresh(trie) && fresh(trie.nodes) && trie.Valid() && trie.bytes == 1
    ensures trie.tree == C.Twins(trie.head, a, b, c, d) && c !in {trie.head, a, b, d}
    ensures C.K110 in trie.Contents() && b in trie.nodes && b.key == C.K010
  {
    hide Trie.Valid, Trie.Contents, P.Find, P.Insert, C.TwinLeft, C.Twins, Agree, C.ByteKey;
    C.TwinKeys();
    trie, a, b := MakeTwoKeys();
    C.TwinsGrow(trie.head, a, b, b, b);
    c := InsertNew(trie, C.K110, 3, 1);
    C.TwinsGrow(trie.head, a, b, c, c);
    d := InsertNew(trie, C.K111, 4, 2);
    C.TwinsGrow(trie.head, a, b, c, d);
  }

  lemma TwinsLost(trie: Trie<int>, copy: Trie<int>, a: Node<int>, b: Node<int>, c: Node<int>, d: Node<int>)
    requires trie.Valid() && trie.tree == C.Twins(trie.head, a, b, c, d) && c !in {trie.head, a, b, d}
    requires b.key == C.K010 && Found(trie, copy, C.K110)
    ensures P.Find(copy.tree, C.K110).n.key == C.K010
  {
    hide P.Find, C.Refound, C.Twins, P.Sorted, P.Linked, P.Edges, P.Ups, Mirrors, C.ByteKey;
    C.TwinsConfused(trie.head, a, b, c, d);
  }

  lemma WalkStays<D>(trie: Trie<D>, k: Key)
    requires trie.Walkable()
    ensures P.Find(trie.tree, k).n in trie.nodes
  {
    P.FindReaches(trie.tree, k);
  }

  /** Key 192 is stored in the trie; the lookup in the copy, for which x is the answer, does not find it. */
  method CopyLosesKey() returns (trie: Trie<int>, copy: Trie<int>, x: Node?<int>)
    ensures trie.Valid() && copy.Walkable() && copy.bytes == trie.bytes == 1
    ensures C.K110 in trie.Contents() && P.Find(copy.tree, C.K110).n.key == C.K010
    ensures x == null
  {
    hide P.Find, C.Refound, C.Twins, Trie.Valid, Trie.Walkable, Trie.Contents, C.NoEarlierTwin, Found, C.ByteKey;
    var a, b, c, d;
    trie, a, b, c, d := MakeTwins();
    copy := Copy(trie);
    TwinsLost(trie, copy, a, b, c, d);
    C.TwinKeys();
    WalkStays(copy, C.K110);
    x := copy.LookupNode(C.K110);
  }
}
