/**
 The Patricia trie: nodes with in-place updated links, keys and data. A node reached by a
 link from a node with a smaller bit index hangs below that node; every other link leads
 back up. The head never moves, has bit index -1 and uses only its right link.
 */
module PatriciaTrie {
  import opened BitKeys
  import P = PatriciaTree

  class Node<D> {
    var bitIndex: int
    var key: Key
    var data: D
    var left: Node<D>
    var right: Node<D>

    constructor (k: Key, d: D, i: int)
      ensures key == k && data == d && bitIndex == i && left == this && right == this
    {
      key, data, bitIndex := k, d, i;
      left, right := this, this;
    }

    ghost function Links(): P.Links<Node<D>>
      reads this`bitIndex, this`left, this`right
    {
      P.Links(bitIndex, left, right)
    }

    ghost function Entry(): P.Entry<D>
      reads this`key, this`data
    {
      P.Entry(key, data)
    }

    /** The link that the walk for k takes. */
    function Toward(k: Key): (x: Node<D>)
      requires bitIndex < |k|
      reads this`bitIndex, this`left, this`right
      ensures x == if P.GoesLeft(k, bitIndex) then left else right
    {
      if BitGet(k, bitIndex) != 0 then right else left
    }
  }

  /** The nodes of e and u have the links of e and the keys and data of u. */
  ghost predicate Mirrors<D>(e: map<Node<D>, P.Links<Node<D>>>, u: map<Node<D>, P.Entry<D>>)
    reads e.Keys, u.Keys
  {
    && (forall n :: n in e ==> n.Links() == e[n])
    && (forall n :: n in u ==> n.Entry() == u[n])
  }

  class Trie<D> {
    const bytes: nat
    const none: D
    var head: Node<D>
    ghost var tree: P.Tree<Node<D>, D>
    ghost var nodes: set<Node<D>>

    ghost function Contents(): map<Key, D>
      reads this
    {
      P.Contents(tree)
    }

    ghost predicate Valid()
      reads this, nodes
    {
      && P.IsTrie(tree, head, nodes, 8 * bytes)
      && head.bitIndex == -1 && head.left == head && head.right == tree.n
      && Mirrors(P.Edges(tree), P.Ups(tree))
    }

    constructor (bytes: nat, none: D)
      ensures Valid() && fresh(nodes) && this.bytes == bytes && this.none == none
      ensures Contents() == map[Zeros(8 * bytes) := none] && head.key == Zeros(8 * bytes)
      ensures tree == P.Up(head, Zeros(8 * bytes), none) && nodes == {head}
    {
      this.bytes, this.none := bytes, none;
      var h := new Node(Zeros(8 * bytes), none, -1);
      head := h;
      tree := P.Up(h, Zeros(8 * bytes), none);
      nodes := {h};
    }

    /** Goes down from start, the node above the subtree t, until a link leads upwards. */
    static method Descend(start: Node<D>, k: Key, ghost t: P.Tree<Node<D>, D>)
      returns (pp: Node<D>, p: Node<D>, x: Node<D>)
      requires Spans(start, t, |k|) && start.Toward(k) == t.n
      ensures p == P.FindParent(t, k, start) && p.bitIndex < |k|
      ensures x == P.Find(t, k).n
      ensures t.Branch? ==> pp == P.FindGrand(t, k, start) && Spans(pp, P.LastBranch(t, k), |k|)
    {
      hide Spans;
      ghost var cur := t;
      TopOf(start, cur, |k|);
      pp, p, x := start, start, start.Toward(k);
      while p.bitIndex < x.bitIndex
        invariant Spans(p, cur, |k|) && p.bitIndex < |k| && x == cur.n && (cur.Branch? <==> p.bitIndex < x.bitIndex)
        invariant P.FindParent(t, k, start) == P.FindParent(cur, k, p)
        invariant P.Find(t, k) == P.Find(cur, k)
        invariant cur.Up? && t.Branch? ==> pp == P.FindGrand(t, k, start) && Spans(pp, P.LastBranch(t, k), |k|)
        invariant cur.Branch? ==> t.Branch? && P.FindGrand(t, k, start) == P.FindGrand(cur, k, p)
        invariant cur.Branch? ==> P.LastBranch(t, k) == P.LastBranch(cur, k)
        decreases cur
      {
        StepDown(p, cur, k);
        pp, p, x := p, x, x.Toward(k);
        cur := P.Child(cur, k);
        TopOf(p, cur, |k|);
      }
    }

    lemma SpansBelowHead(k: Key)
      requires Valid() && |k| == 8 * bytes
      ensures Spans(head, tree, |k|) && head.Toward(k) == tree.n
    {
      LinksSpan(head, tree, |k|);
    }

    /** The walk for k: where it ends, and what is stored there. */
    lemma Found(k: Key)
      requires Valid() && |k| == 8 * bytes
      ensures var x := P.Find(tree, k).n;
        && x in nodes && x.key in Contents() && x.data == Contents()[x.key] && |x.key| == |k|
        && (x.key == k <==> k in Contents())
        && x.key == P.Find(tree, k).key
        && (tree.Up? && x.key == k ==> Contents().Keys == {k})
    {
      P.FindIn(tree, -1, k);
      P.FindInUps(tree, k);
    }

    /** Distinct nodes hold distinct keys. */
    lemma KeysDiffer(n: Node<D>, n': Node<D>)
      requires Valid() && n in nodes && n' in nodes && n.key == n'.key
      ensures n == n' && n.key in Contents() && |n.key| == 8 * bytes
    {
      P.FindUp(tree, -1, 8 * bytes, n);
      P.FindUp(tree, -1, 8 * bytes, n');
    }

    /** A list of all nodes but the head has every key but the head's. */
    lemma ListedKeys(list: seq<Node<D>>)
      requires Valid() && multiset(list) == multiset(nodes - {head})
      ensures forall n :: n in list ==> n in nodes && n != head
      ensures (set j | 0 <= j < |list| :: list[j].key) == Contents().Keys - {head.key}
    {
      assert head in nodes;
      hide Valid;
      var ks := set j | 0 <= j < |list| :: list[j].key;
      forall j | 0 <= j < |list|
        ensures list[j] in nodes && list[j] != head && list[j].key in Contents().Keys - {head.key}
      {
        assert list[j] in multiset(list);
        KeysDiffer(list[j], list[j]);
        if list[j].key == head.key {
          KeysDiffer(list[j], head);
        }
      }
      forall k | k in Contents().Keys - {head.key}
        ensures k in ks
      {
        var n := NodeWithKey(k);
        assert n in multiset(list);
        var j :| 0 <= j < |list| && list[j] == n;
      }
    }

    lemma NodeWithKey(k: Key) returns (n: Node<D>)
      requires Valid() && k in Contents()
      ensures n in nodes && n.key == k
    {
      P.SortedWidth(tree, -1, 8 * bytes, k);
      Found(k);
      n := P.Find(tree, k).n;
    }

    lemma Closest(k: Key)
      requires Valid() && |k| == 8 * bytes
      ensures var x := P.Find(tree, k).n;
        && x in nodes && x.key in Contents() && x.data == Contents()[x.key]
        && forall k' :: k' in Contents() ==> CommonPrefix(k, k') <= CommonPrefix(k, x.key)
    {
      Found(k);
      P.FindLongestPrefix(tree, -1, k);
      P.FindInUps(tree, k);
    }

    /** A node with a longest common prefix with k. */
    method LookupGroup(k: Key) returns (t: Node<D>)
      requires Valid() && |k| == 8 * bytes
      ensures t in nodes && t.key in Contents() && t.data == Contents()[t.key]
      ensures forall k' :: k' in Contents() ==> CommonPrefix(k, k') <= CommonPrefix(k, t.key)
      ensures t == P.Find(tree, k).n
    {
      SpansBelowHead(k);
      var pp, p;
      pp, p, t := Descend(head, k, tree);
      Closest(k);
    }

    /** The links alone are in order, so that a walk ends. */
    ghost predicate Walkable()
      reads this, nodes
    {
      && head in nodes && P.AllNodes(tree) <= nodes
      && Spans(head, tree, 8 * bytes) && head.bitIndex == -1 && head.right == tree.n
    }

    lemma ValidIsWalkable()
      requires Valid()
      ensures Walkable()
    {
      SpansBelowHead(Zeros(8 * bytes));
    }

    method LookupNode(k: Key) returns (x: Node?<D>)
      requires (Valid() || Walkable()) && |k| == 8 * bytes
      ensures var u := P.Find(tree, k).n; x == if u.key == k then u else null
      ensures Valid() ==> (x != null <==> k in Contents())
      ensures Valid() && x != null ==> x in nodes && x.key == k && x.data == Contents()[k]
    {
      if Valid() {
        ValidIsWalkable();
        Found(k);
      }
      hide Valid, Spans, P.Find;
      var pp, p;
      pp, p, x := Descend(head, k, tree);
      if k != x.key {
        x := null;
      }
    }

    method Exists(k: Key) returns (b: bool)
      requires Valid() && |k| == 8 * bytes
      ensures b <==> k in Contents()
    {
      var node := LookupNode(k);
      b := node != null;
    }

    method Lookup(k: Key) returns (d: D)
      requires Valid() && |k| == 8 * bytes
      ensures d == if k in Contents() then Contents()[k] else none
    {
      var node := LookupNode(k);
      if node == null {
        return none;
      }
      d := node.data;
    }

    /** Goes down to the place for a key whose first bit not shared with the trie is i. */
    method FindPlace(k: Key, i: nat) returns (p: Node<D>, x: Node<D>)
      requires Valid() && |k| == 8 * bytes
      ensures p == P.InsertParent(tree, k, i, head)
      ensures x == P.InsertPoint(tree, k, i).n
      ensures p.bitIndex < |k|
    {
      SpansBelowHead(k);
      hide Spans;
      p, x := head, head.right;
      ghost var cur := tree;
      TopOf(p, cur, |k|);
      while p.bitIndex < x.bitIndex && x.bitIndex < i
        invariant Spans(p, cur, |k|) && p.bitIndex < |k| && x == cur.n
        invariant cur.Branch? ==> cur.bit == x.bitIndex
        invariant cur.Branch? <==> p.bitIndex < x.bitIndex
        invariant P.InsertParent(tree, k, i, head) == P.InsertParent(cur, k, i, p)
        invariant P.InsertPoint(tree, k, i) == P.InsertPoint(cur, k, i)
        decreases cur
      {
        StepDown(p, cur, k);
        p, x := x, x.Toward(k);
        cur := P.Child(cur, k);
        TopOf(p, cur, |k|);
      }
    }

    method Insert(k: Key, d: D) returns (t: Node?<D>)
      requires Valid() && |k| == 8 * bytes
      modifies this, nodes
      ensures Valid() && head == old(head)
      ensures t == null <==> k in old(Contents())
      ensures t == null ==> tree == old(tree) && nodes == old(nodes) && forall n :: n in old(nodes) ==> unchanged(n)
      ensures t != null ==> fresh(t) && t.key == k && t.data == d && nodes == old(nodes) + {t}
      ensures t != null ==> Contents() == old(Contents())[k := d]
      ensures t != null ==> tree == P.Insert(old(tree), k, d, CommonPrefix(k, P.Find(old(tree), k).key), t)
      ensures forall n :: n in old(nodes) ==> n.key == old(n.key) && n.data == old(n.data)
    {
      SpansBelowHead(k);
      var pp, p, x := Descend(head, k, tree);
      Found(k);
      if k == x.key {
        return null;
      }
      var i := BitFirstDifferent(k, x.key, bytes);
      PrefixIs(k, x.key, i);
      t := InsertAt(k, d, i);
    }

    /** Allocates the node for a new key, which first differs from the trie's closest key in bit i. */
    method InsertAt(k: Key, d: D, i: nat) returns (m: Node<D>)
      requires Valid() && |k| == 8 * bytes && i < |k|
      requires var f := P.Find(tree, k).key; Agree(k, f, i) && |f| == |k| && k[i] != f[i]
      modifies this, nodes
      ensures Valid() && head == old(head)
      ensures fresh(m) && m.key == k && m.data == d && nodes == old(nodes) + {m}
      ensures tree == P.Insert(old(tree), k, d, i, m) && Contents() == old(Contents())[k := d]
      ensures forall n :: n in old(nodes) ==> n.key == old(n.key) && n.data == old(n.data)
    {
      hide P.Sorted, P.Linked, P.Contents, P.Ups, P.Edges, P.Insert, P.Find, P.Rewire, P.NewLinks, Mirrors;
      var p, x := FindPlace(k, i);
      m := new Node(k, d, i);
      P.InsertIsTrie(tree, head, nodes, k, d, i, m);
      Hook(head, p, x, m, k, i, P.Edges(tree), P.Ups(tree));
      tree, nodes := P.Insert(tree, k, d, i, m), nodes + {m};
    }

    /** Overwrites the data of a node. */
    method SetData(n: Node<D>, d: D)
      requires Valid() && n in nodes
      modifies this`tree, n`data
      ensures Valid() && n.data == d
      ensures n.key in old(Contents()) && Contents() == old(Contents())[n.key := d]
    {
      hide P.Sorted, P.Linked, P.Contents, P.Ups, P.Edges, P.WithData;
      P.WithDataLinks(tree, n, d);
      P.WithDataSorted(tree, n, d, -1, 8 * bytes);
      P.WithDataContents(tree, n, d, -1, 8 * bytes);
      ghost var e, u := P.Edges(tree), P.Ups(tree);
      assert forall m :: m in u && m != n ==> m.Entry() == u[m];
      n.data := d;
      DataMirrors(e, u, P.Ups(P.WithData(tree, n, d)), n);
      hide Mirrors;
      tree := P.WithData(tree, n, d);
    }

    /** All nodes except the head, each once. */
    method GetNodeList() returns (list: seq<Node<D>>)
      requires Valid()
      ensures list == P.Preorder(tree)
      ensures multiset(list) == multiset(nodes - {head})
    {
      ghost var up := P.Up(head, Zeros(8 * bytes), none);
      SpansBelowHead(Zeros(8 * bytes));
      list := NodeList(head, up, tree, 8 * bytes);
      P.PreorderOnce(tree);
    }

    /** Every node is the target of exactly one link that does not lead down (the head has only its right link). */
    lemma OneUpLink(m: Node<D>)
      requires Valid() && m in nodes
      ensures exists n, side ::
                && n in nodes && IsUpLink(n, side, m) && (n == head ==> side)
                && forall n', side' :: n' in nodes && IsUpLink(n', side', m) && (n' == head ==> side') ==>
                     n' == n && side' == side
    {
      var (n, side) := P.LinkSource(tree, m, head, true);
      SpansBelowHead(Zeros(8 * bytes));
      SourceIsUpLink(head, tree, 8 * bytes, m, true);
      forall n', side' | n' in nodes && IsUpLink(n', side', m) && (n' == head ==> side')
        ensures n' == n && side' == side
      {
        if n' == head {
          TopOf(head, tree, 8 * bytes);
        } else {
          UpLinkIsSource(head, tree, 8 * bytes, n', side', m, true);
        }
      }
    }

    method Delete(k: Key) returns (ok: bool)
      requires Valid() && |k| == 8 * bytes
      requires Contents().Keys != {k}
      modifies this, nodes
      ensures Valid() && head == old(head)
      ensures ok <==> k in old(Contents())
      ensures Contents() == old(Contents()) - {k}
      ensures !ok ==> tree == old(tree) && nodes == old(nodes) && forall n :: n in old(nodes) ==> unchanged(n)
      ensures ok ==> exists n :: n in old(nodes) && nodes == old(nodes) - {n}
    {
      hide P.Contents, P.Find, P.FindGrand, P.FindParent, P.LastBranch, P.IsTrie, Spans;
      SpansBelowHead(k);
      var pp, p, t := Descend(head, k, tree);
      Found(k);
      if k != t.key {
        return false;
      }
      assert tree.Branch?;
      DeleteAt(k, pp, p, t);
      ok := true;
    }

    method DeleteAt(k: Key, pp: Node<D>, p: Node<D>, t: Node<D>)
      requires Valid() && |k| == 8 * bytes && tree.Branch? && P.Find(tree, k).key == k
      requires pp == P.FindGrand(tree, k, head) && p == P.FindParent(tree, k, head) && t == P.Find(tree, k).n
      requires Spans(pp, P.LastBranch(tree, k), |k|)
      modifies this, nodes
      ensures Valid() && head == old(head)
      ensures Contents() == old(Contents()) - {k}
      ensures p in old(nodes) && nodes == old(nodes) - {p}
    {
      hide P.Sorted, P.Linked, P.Contents, P.Ups, P.Edges, P.Remove, P.LastBranch, P.FindGrand, P.Find, P.FindParent;
      hide Mirrors, Spans;
      P.AtLastBranch(tree, -1, k, head);
      P.RemoveIsTrie(tree, head, nodes, k);
      CutOut(head, pp, p, t, k, tree, nodes);
      tree, nodes := P.Remove(tree, k), nodes - {p};
    }
  }

  /** Rewires and overwrites the nodes so that they look like the tree without k. */
  method CutOut<D>(head: Node<D>, pp: Node<D>, p: Node<D>, t: Node<D>, k: Key, ghost tree: P.Tree<Node<D>, D>,
                   ghost nodes: set<Node<D>>)
    requires P.IsTrie(tree, head, nodes, |k|) && head.Links() == P.Links(-1, head, tree.n)
      && Mirrors(P.Edges(tree), P.Ups(tree))
    requires tree.Branch? && P.Find(tree, k).key == k && Spans(pp, P.LastBranch(tree, k), |k|)
    requires pp == P.FindGrand(tree, k, head) && p == P.FindParent(tree, k, head) && t == P.Find(tree, k).n
    modifies nodes
    ensures Mirrors(P.Edges(P.Remove(tree, k)), P.Ups(P.Remove(tree, k)))
    ensures head.Links() == P.Links(-1, head, P.Remove(tree, k).n)
  {
    hide P.Sorted, P.Linked, P.Contents, P.Ups, P.Edges, P.Remove, P.LastBranch, P.FindGrand, P.Find, P.FindParent;
    hide P.CutLinks, P.CutAt, Spans;
    P.AtLastBranch(tree, -1, k, head);
    P.RemoveIsTrie(tree, head, nodes, k);
    ghost var e, u, t' := P.Edges(tree), P.Ups(tree), P.Remove(tree, k);
    ghost var x := P.CutAt(P.LastBranch(tree, k), k, pp);
    Unlink(pp, p, t, k, P.LastBranch(tree, k), nodes);
    forall n | n in e && n != p
      ensures n.Links() == P.CutLinks(e[n], n, k, x)
    {
      assert old(n.Links()) == e[n];
    }
    P.CutOf(P.LastBranch(tree, k), k, pp);
    P.CutHead(head, tree.n, k, x);
    CutMirrors(e, u, P.Edges(t'), P.Ups(t'), p, t, k, x);
  }

  /** The nodes look as they should after p was cut out and t took over its entry. */
  lemma CutMirrors<D>(e: map<Node<D>, P.Links<Node<D>>>, u: map<Node<D>, P.Entry<D>>,
                      e': map<Node<D>, P.Links<Node<D>>>, u': map<Node<D>, P.Entry<D>>,
                      p: Node<D>, t: Node<D>, k: Key, x: P.Cut<Node<D>>)
    requires p in u && P.IsCut(e, e', k, x) && x.gone == p
    requires u' == if t == p then u - {p} else (u - {p})[t := u[p]]
    requires forall n :: n in e && n != p ==> n.Links() == P.CutLinks(e[n], n, k, x)
    requires forall n :: n in u ==> n.Entry() == if n == t then u[p] else u[n]
    requires t in u
    ensures Mirrors(e', u')
  {
  }

  /** The nodes look as they should after the data of n was changed. */
  lemma DataMirrors<D>(e: map<Node<D>, P.Links<Node<D>>>, u: map<Node<D>, P.Entry<D>>, u': map<Node<D>, P.Entry<D>>,
                       n: Node<D>)
    requires n in u && n.key == u[n].key && u'.Keys == u.Keys
    requires forall m :: m in e ==> m.Links() == e[m]
    requires forall m :: m in u && m != n ==> m.Entry() == u[m]
    requires forall m :: m in u ==> u'[m] == if m == n then P.Entry(u[m].key, n.data) else u[m]
    ensures Mirrors(e, u')
  {
  }

  /** Sets the link of p that the walk for k takes. */
  method SetLink<D>(p: Node<D>, k: Key, x: Node<D>)
    requires p.bitIndex < |k|
    modifies p
    ensures p.Links() == P.Redirect(old(p.Links()), k, x)
    ensures p.Entry() == old(p.Entry())
  {
    if BitGet(k, p.bitIndex) != 0 {
      p.right := x;
    } else {
      p.left := x;
    }
  }

  /** Makes the upward link to p, found by walking for its key down the subtree s below it, point to t. */
  method MoveUpLink<D>(p: Node<D>, t: Node<D>, key: Key, ghost s: P.Tree<Node<D>, D>, ghost ns: set<Node<D>>)
    requires Spans(p, s, |key|) && s.Branch? && p.Toward(key) == s.n
    requires p.key == key && P.Find(s, key).n == p
    requires P.Edges(s).Keys <= ns
    modifies ns
    ensures forall n :: n in ns ==>
      && n.Links() == (if n == P.FindParent(s, key, p) then P.Redirect(old(n.Links()), key, t) else old(n.Links()))
      && n.Entry() == old(n.Entry())
  {
    hide Spans;
    var lpp, lp, x := Trie.Descend(p, key, s);
    assert key == x.key; // so the key is always found again
    P.FindParentBelow(s, key, p);
    SetLink(lp, key, t);
  }

  /** p has the downward link to s: the upward link to p moves to t, and pp gets s in place of p. */
  method BypassInner<D>(pp: Node<D>, p: Node<D>, t: Node<D>, k: Key,
                        ghost s: P.Tree<Node<D>, D>, ghost x: P.Cut<Node<D>>, ghost ns: set<Node<D>>)
    requires Spans(p, s, |k|) && s.Branch? && P.Edges(s).Keys <= ns && pp in ns && p in ns
    requires p !in P.Edges(s) && pp !in P.Edges(s) && pp != p
    requires pp.bitIndex < |k| && p.bitIndex < |k| && s.n == if BitGet(k, p.bitIndex) != 0 then p.left else p.right
    requires t != p ==> |p.key| == |k| && p.Toward(p.key) == s.n && P.Find(s, p.key).n == p
    requires x == P.Cut(p, pp, s.n, P.FindParent(s, x.movedKey, p), x.movedKey, t)
    requires t != p ==> x.movedKey == p.key
    modifies ns
    ensures forall n :: n in ns && n != p ==> n.Links() == P.CutLinks(old(n.Links()), n, k, x)
    ensures forall n :: n in ns ==> n.Entry() == old(n.Entry())
  {
    hide Spans, P.Edges, P.FindParent, P.Find, P.Redirect;
    P.FindParentBelow(s, x.movedKey, p);
    if p != t {
      MoveUpLink(p, t, p.key, s, ns);
    }
    if pp != p {
      var ch := if BitGet(k, p.bitIndex) != 0 then p.left else p.right;
      SetLink(pp, k, ch);
    }
  }

  /** Both links of p lead up or to itself: pp gets the one that is not p. */
  method BypassLeaf<D>(pp: Node<D>, p: Node<D>, t: Node<D>, k: Key,
                       ghost far: Node<D>, ghost x: P.Cut<Node<D>>, ghost ns: set<Node<D>>)
    requires pp in ns && pp != p && pp.bitIndex < |k|
    requires {p.left, p.right} == {t, far} && (far == p <==> t != p)
    requires x == P.Cut(p, pp, x.promoted, p, x.movedKey, t) && x.promoted == if t == p then far else t
    modifies ns
    ensures forall n :: n in ns && n != p ==> n.Links() == P.CutLinks(old(n.Links()), n, k, x)
    ensures forall n :: n in ns ==> n.Entry() == old(n.Entry())
  {
    hide P.Redirect;
    if pp != p {
      var item := if p.left == p.right && p.left == p then pp else if p.left == p then p.right else p.left;
      assert item == x.promoted by {
        assert p.left in {t, far} && p.right in {t, far} && t in {p.left, p.right} && far in {p.left, p.right};
      }
      SetLink(pp, k, item);
    }
  }

  /** What the nodes around b look like when the walk for k leaves it upwards. */
  lemma BranchFacts<D>(pp: Node<D>, b: P.Tree<Node<D>, D>, k: Key)
    requires Spans(pp, b, |k|) && b.Branch? && pp !in P.Edges(b) && P.Child(b, k).Up?
    requires P.Sorted(b, -1, |k|) && P.Linked(b)
    requires b.n in P.Ups(b) && b.n.Entry() == P.Ups(b)[b.n]
    ensures var p, t, s, x := b.n, P.Child(b, k).n, P.Sibling(b, k), P.CutAt(b, k, pp);
      && p in P.Edges(b) && pp != p && pp.bitIndex < |k| && p.bitIndex < |k|
      && Spans(p, s, |k|) && P.Edges(s).Keys <= P.Edges(b).Keys && p !in P.Edges(s) && pp !in P.Edges(s)
      && s.n == (if BitGet(k, p.bitIndex) != 0 then p.left else p.right)
      && {p.left, p.right} == {t, s.n}
      && (s.Branch? <==> p.left.bitIndex > p.bitIndex || p.right.bitIndex > p.bitIndex)
      && (t != p ==> |p.key| == |k| && p.Toward(p.key) == s.n && P.Find(s, p.key).n == p)
      && (s.Up? ==> (s.n == p <==> t != p))
      && x.movedKey == p.key
      && x == P.Cut(p, pp, x.promoted, x.movedFrom, x.movedKey, t)
      && x.promoted == (if s.Branch? || t == p then s.n else t)
      && x.movedFrom == P.FindParent(s, x.movedKey, p)
      && (s.Up? ==> x.movedFrom == p)
  {
    BranchLinks(pp, b, k);
    P.CutFacts(b, -1, k, pp);
    hide Spans, P.CutAt, P.Edges, P.Ups, P.FindParent, P.Find, P.Sorted, P.Linked, P.Child, P.Sibling;
  }

  /** The links of b and the nodes they lead to. */
  lemma BranchLinks<D>(pp: Node<D>, b: P.Tree<Node<D>, D>, k: Key)
    requires Spans(pp, b, |k|) && b.Branch? && pp !in P.Edges(b) && P.Child(b, k).Up?
    ensures var p, t, s := b.n, P.Child(b, k).n, P.Sibling(b, k);
      && p in P.Edges(b) && pp != p && pp.bitIndex < |k| && p.bitIndex < |k| && p.bitIndex == b.bit
      && Spans(p, s, |k|)
      && s.n == (if BitGet(k, p.bitIndex) != 0 then p.left else p.right)
      && {p.left, p.right} == {t, s.n}
      && (s.Branch? <==> p.left.bitIndex > p.bitIndex || p.right.bitIndex > p.bitIndex)
      && p.left == b.left.n && p.right == b.right.n
  {
    assert b.n in P.Edges(b);
    hide Spans, P.Edges;
    TopOf(pp, b, |k|);
    TopOf(b.n, b.left, |k|);
    TopOf(b.n, b.right, |k|);
  }

  /** Takes p out, whose link to t the walk for k ended with, coming from pp. t inherits key and data of p. */
  method Unlink<D>(pp: Node<D>, p: Node<D>, t: Node<D>, k: Key, ghost b: P.Tree<Node<D>, D>, ghost ns: set<Node<D>>)
    requires Spans(pp, b, |k|) && b.Branch? && pp !in P.Edges(b)
    requires P.Sorted(b, -1, |k|) && P.Linked(b)
    requires P.Child(b, k).Up? && p == b.n && t == P.Child(b, k).n
    requires b.n in P.Ups(b) && p.Entry() == P.Ups(b)[p]
    requires P.Edges(b).Keys <= ns && pp in ns && t in ns
    modifies ns
    ensures forall n :: n in ns && n != p ==> n.Links() == P.CutLinks(old(n.Links()), n, k, P.CutAt(b, k, pp))
    ensures forall n :: n in ns ==> n.Entry() == if n == t then old(p.Entry()) else old(n.Entry())
  {
    hide Spans, P.Edges, P.Ups, P.CutAt, P.Child, P.Sibling, P.FindParent, P.Find, P.CutLinks, BitGet;
    ghost var s := P.Sibling(b, k);
    ghost var x := P.CutAt(b, k, pp);
    BranchFacts(pp, b, k);
    if t != p {
      t.key, t.data := p.key, p.data;
    }
    if p.left.bitIndex > p.bitIndex || p.right.bitIndex > p.bitIndex {
      BypassInner(pp, p, t, k, s, x, ns);
    } else {
      BypassLeaf(pp, p, t, k, s.n, x, ns);
    }
  }

  /** Puts the new node m, which holds key k, between p and x. */
  method Hook<D>(head: Node<D>, p: Node<D>, x: Node<D>, m: Node<D>, k: Key, i: nat,
                 ghost e: map<Node<D>, P.Links<Node<D>>>, ghost u: map<Node<D>, P.Entry<D>>)
    requires Mirrors(e, u)
    requires head !in e && head.bitIndex == -1
    requires p == head || p in e
    requires p.bitIndex < |k| && m.bitIndex == i < |k|
    requires m != head && m !in e && m !in u && m.left == m == m.right
    modifies p, m
    ensures Mirrors(P.Rewire(e, p, head, k, m)[m := P.NewLinks(k, i, m, x)], u[m := P.Entry(m.key, m.data)])
    ensures head.bitIndex == -1 && head.left == old(head.left)
    ensures head.right == if p == head then m else old(head.right)
    ensures p.key == old(p.key) && p.data == old(p.data)
    ensures m.key == old(m.key) && m.data == old(m.data) && m.bitIndex == old(m.bitIndex)
  {
    if BitGet(k, i) != 0 {
      m.left := x;
    } else {
      m.right := x;
    }
    if BitGet(k, p.bitIndex) != 0 {
      p.right := m;
    } else {
      p.left := m;
    }
    ghost var e' := P.Rewire(e, p, head, k, m)[m := P.NewLinks(k, i, m, x)];
    forall n | n in e'
      ensures n.Links() == e'[n]
    {
      assert n == m || n in e;
    }
  }

  /**
   The subtree t lies in memory below node p: its inner nodes are reached by links to larger bit
   indices, all below w, and its upward links lead to bit indices that are not larger.
   */
  ghost predicate Spans<D>(p: Node<D>, t: P.Tree<Node<D>, D>, w: nat)
    reads p`bitIndex, P.AllNodes(t)`bitIndex, P.AllNodes(t)`left, P.AllNodes(t)`right
    decreases t
  {
    && p.bitIndex < w
    && match t
       case Up(n, _, _) => n.bitIndex <= p.bitIndex
       case Branch(n, b, l, r) =>
         p.bitIndex < b && n.Links() == P.Links(b, l.n, r.n) && Spans(n, l, w) && Spans(n, r, w)
  }

  /** Links as in a trie, and only upward links to nodes with bit index at most that of p, make t span. */
  lemma {:induction false} LinksSpan<D>(p: Node<D>, t: P.Tree<Node<D>, D>, w: nat)
    requires p.bitIndex < w && P.Sorted(t, p.bitIndex, w) && P.Linked(t)
    requires forall n :: n in P.Edges(t) ==> n.Links() == P.Edges(t)[n]
    requires forall n :: n in P.Ups(t) && n !in P.Edges(t) ==> n.bitIndex <= p.bitIndex
    ensures Spans(p, t, w)
  {
    if t.Branch? {
      assert P.Edges(t)[t.n] == P.Links(t.bit, t.left.n, t.right.n);
      P.ChildPart(t, t.left);
      P.ChildPart(t, t.right);
      LinksSpan(t.n, t.left, w);
      LinksSpan(t.n, t.right, w);
    } else {
      assert t.n in P.Ups(t) && t.n !in P.Edges(t);
    }
  }

  /** Going down is told from going up by the bit index. */
  lemma TopOf<D>(p: Node<D>, t: P.Tree<Node<D>, D>, w: nat)
    requires Spans(p, t, w)
    ensures p.bitIndex < w
    ensures t.Branch? <==> p.bitIndex < t.n.bitIndex
    ensures t.Branch? ==>
      && t.n.Links() == P.Links(t.bit, t.left.n, t.right.n) && t.n.bitIndex < w
      && Spans(t.n, t.left, w) && Spans(t.n, t.right, w)
  {
  }

  lemma StepDown<D>(p: Node<D>, t: P.Tree<Node<D>, D>, k: Key)
    requires Spans(p, t, |k|) && t.Branch?
    ensures t.n.bitIndex < |k| && Spans(t.n, P.Child(t, k), |k|) && t.n.Toward(k) == P.Child(t, k).n
  {
  }

  ghost predicate IsUpLink<D>(n: Node<D>, side: bool, m: Node<D>)
    reads n, m
  {
    m == (if side then n.right else n.left) && m.bitIndex <= n.bitIndex
  }

  lemma {:induction false} SourceIsUpLink<D>(q: Node<D>, t: P.Tree<Node<D>, D>, w: nat, m: Node<D>, side: bool)
    requires Spans(q, t, w) && t.n == (if side then q.right else q.left) && m in P.Ups(t)
    ensures var (n, s) := P.LinkSource(t, m, q, side);
      IsUpLink(n, s, m) && (n in P.Edges(t) || (n == q && s == side))
  {
    if t.Branch? {
      if m in P.Ups(t.left) {
        SourceIsUpLink(t.n, t.left, w, m, false);
      } else {
        SourceIsUpLink(t.n, t.right, w, m, true);
      }
    }
  }

  lemma {:induction false} UpLinkIsSource<D>(q: Node<D>, t: P.Tree<Node<D>, D>, w: nat, n: Node<D>, side: bool,
                                             m: Node<D>, qs: bool)
    requires Spans(q, t, w) && P.Linked(t) && n in P.Edges(t) && IsUpLink(n, side, m)
    ensures m in P.Ups(t) && P.LinkSource(t, m, q, qs) == (n, side)
  {
    var c := if n == t.n then if side then t.right else t.left
             else if n in P.Edges(t.left) then t.left else t.right;
    if n == t.n {
      TopOf(n, c, w);
      assert c.Up? && c.n == m;
    } else {
      UpLinkIsSource(t.n, c, w, n, side, m, c == t.right);
    }
  }

  /** The nodes from start downwards; its links lead to l and r. */
  function NodeList<D>(start: Node<D>, ghost l: P.Tree<Node<D>, D>, ghost r: P.Tree<Node<D>, D>,
                       ghost w: nat): (list: seq<Node<D>>)
    requires Spans(start, l, w) && Spans(start, r, w)
    requires start.left == l.n && start.right == r.n
    reads start, P.AllNodes(l), P.AllNodes(r)
    ensures list == (if start.bitIndex >= 0 then [start] else []) + P.Preorder(l) + P.Preorder(r)
    decreases |P.Preorder(l)| + |P.Preorder(r)|
  {
    TopOf(start, l, w);
    TopOf(start, r, w);
    (if start.bitIndex >= 0 then [start] else [])
    + (if start.left.bitIndex > start.bitIndex then NodeList(start.left, l.left, l.right, w) else [])
    + (if start.right.bitIndex > start.bitIndex then NodeList(start.right, r.left, r.right, w) else [])
  }
}
