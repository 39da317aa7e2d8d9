/** Whole runs of operations on a Patricia trie, against a plain finite map. */
module PatriciaRuns {
  import opened BitKeys
  import opened PatriciaTrie

  datatype Op<D> =
    | Insert(key: Key, data: D)
    | Delete(key: Key)
    | Exists(key: Key)
    | Lookup(key: Key)

  datatype Answer<D> = Yes | No | Found(data: D)

  /** What the map becomes, and what the caller is told. */
  function Effect<D>(m: map<Key, D>, op: Op<D>): map<Key, D> {
    match op
    case Insert(k, d) => if k in m then m else m[k := d]
    case Delete(k) => m - {k}
    case _ => m
  }

  function Reply<D>(m: map<Key, D>, none: D, op: Op<D>): Answer<D> {
    match op
    case Insert(k, _) => if k in m then No else Yes
    case Lookup(k) => Found(if k in m then m[k] else none)
    case _ => if op.key in m then Yes else No
  }

  function After<D>(m: map<Key, D>, ops: seq<Op<D>>): map<Key, D> {
    if ops == [] then m else Effect(After(m, ops[..|ops| - 1]), ops[|ops| - 1])
  }

  function Replies<D>(m: map<Key, D>, none: D, ops: seq<Op<D>>): seq<Answer<D>> {
    if ops == [] then []
    else var before := ops[..|ops| - 1];
      Replies(m, none, before) + [Reply(After(m, before), none, ops[|ops| - 1])]
  }

  /** Keys have width w, and the only key left is not deleted. */
  predicate Allowed<D>(m: map<Key, D>, op: Op<D>, w: nat) {
    |op.key| == w && (op.Delete? ==> m.Keys != {op.key})
  }

  predicate AllAllowed<D>(m: map<Key, D>, ops: seq<Op<D>>, w: nat) {
    forall i :: 0 <= i < |ops| ==> Allowed(After(m, ops[..i]), ops[i], w)
  }

  /**
   The zero key, which is there from the start, stays in a run that does not delete it, and then any
   other key may go.
   */
  lemma {:induction false} ZeroKeyStays<D>(m: map<Key, D>, ops: seq<Op<D>>, w: nat)
    requires Zeros(w) in m && forall op :: op in ops ==> |op.key| == w && (op.Delete? ==> op.key != Zeros(w))
    ensures Zeros(w) in After(m, ops) && AllAllowed(m, ops, w)
  {
    if ops != [] {
      var n := |ops| - 1;
      var before, op := ops[..n], ops[n];
      assert op in ops;
      ZeroKeyStays(m, before, w);
      var m' := After(m, before);
      assert After(m, ops) == Effect(m', op) && Zeros(w) in m'.Keys;
      assert Allowed(m', op, w);
      hide After, Allowed;
      AllowedMore(m, before, op, w);
      assert before + [op] == ops;
    }
  }

  lemma AllowedMore<D>(m: map<Key, D>, ops: seq<Op<D>>, op: Op<D>, w: nat)
    requires AllAllowed(m, ops, w) && Allowed(After(m, ops), op, w)
    ensures AllAllowed(m, ops + [op], w)
  {
    hide After, Allowed;
    var more := ops + [op];
    forall i | 0 <= i < |more|
      ensures Allowed(After(m, more[..i]), more[i], w)
    {
      if i < |ops| {
        assert more[..i] == ops[..i];
      } else {
        assert more[..i] == ops;
      }
    }
  }

  method Do<D>(trie: Trie<D>, op: Op<D>) returns (a: Answer<D>)
    requires trie.Valid() && Allowed(trie.Contents(), op, 8 * trie.bytes)
    modifies trie, trie.nodes
    ensures trie.Valid() && fresh(trie.nodes - old(trie.nodes))
    ensures trie.Contents() == Effect(old(trie.Contents()), op)
    ensures a == Reply(old(trie.Contents()), trie.none, op)
  {
    hide Trie.Valid;
    match op {
      case Insert(k, d) =>
        var t := trie.Insert(k, d);
        a := if t == null then No else Yes;
      case Delete(k) =>
        var ok := trie.Delete(k);
        a := if ok then Yes else No;
      case Exists(k) =>
        var b := trie.Exists(k);
        a := if b then Yes else No;
      case Lookup(k) =>
        var d := trie.Lookup(k);
        a := Found(d);
    }
  }

  /** Every run on a new trie answers as the finite map does. */
  method Run<D>(bytes: nat, none: D, ops: seq<Op<D>>) returns (trie: Trie<D>, answers: seq<Answer<D>>)
    requires AllAllowed(map[Zeros(8 * bytes) := none], ops, 8 * bytes)
    ensures trie.Valid()
    ensures trie.Contents() == After(map[Zeros(8 * bytes) := none], ops)
    ensures answers == Replies(map[Zeros(8 * bytes) := none], none, ops)
  {
    hide Trie.Valid, Trie.Contents, Effect, Reply, Allowed;
    trie := new Trie(bytes, none);
    ghost var m := trie.Contents();
    answers := [];
    for i := 0 to |ops|
      invariant fresh(trie) && trie.bytes == bytes && trie.none == none && trie.Valid() && fresh(trie.nodes)
      invariant trie.Contents() == After(m, ops[..i])
      invariant answers == Replies(m, none, ops[..i])
    {
      assert ops[..i + 1][..i] == ops[..i];
      var a := Do(trie, ops[i]);
      answers := answers + [a];
    }
    assert ops[..|ops|] == ops;
  }
}
