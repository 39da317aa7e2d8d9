/**
 Trie keys. The trie looks at a key only through its memory image, so a key is the
 sequence of the bits of that image, most significant bit of the first byte first.
 All keys of one trie have the same width, eight bits for every byte of the key type.
 */
module BitKeys {

  type Key = seq<bool>

  function Zeros(w: nat): Key {
    seq(w, _ => false)
  }

  /** The bit at index n; below index 0 the pseudo-bit 2, which sends the head's walk to the right. */
  function BitGet(k: Key, n: int): (b: nat)
    requires n < |k|
    ensures b == 0 <==> 0 <= n && !k[n]
  {
    if n < 0 then 2 else if k[n] then 1 else 0
  }

  /** a and b have their first n bits in common. */
  predicate Agree(a: Key, b: Key, n: nat) {
    n <= |a| && n <= |b| && forall i :: 0 <= i < n ==> a[i] == b[i]
  }

  /** Number of leading bits that a and b have in common. */
  function CommonPrefix(a: Key, b: Key): (n: nat)
    ensures Agree(a, b, n)
    ensures n < |a| && n < |b| ==> a[n] != b[n]
    ensures forall m: nat :: Agree(a, b, m) ==> m <= n
  {
    if a == [] || b == [] || a[0] != b[0] then 0
    else
      var n := 1 + CommonPrefix(a[1..], b[1..]);
      assert forall i :: 0 < i < n ==> a[i] == a[1..][i - 1] && b[i] == b[1..][i - 1];
      n
  }

  lemma PrefixIs(a: Key, b: Key, n: nat)
    requires Agree(a, b, n) && n < |a| && n < |b| && a[n] != b[n]
    ensures CommonPrefix(a, b) == n
  {
  }

  /** Keys of the same width that agree everywhere are the same key. */
  lemma AgreeEverywhere(a: Key, b: Key)
    requires |a| == |b| && Agree(a, b, |a|)
    ensures a == b
  {
  }

  lemma DifferenceIn(a: Key, b: Key) returns (w: nat)
    requires |a| == |b| && a != b
    ensures w < |a| && a[w] != b[w]
  {
    w :| 0 <= w < |a| && a[w] != b[w];
  }

  /** Skips equal bytes, then compares bit by bit inside the first byte that differs. */
  method BitFirstDifferent(a: Key, b: Key, ghost bytes: nat) returns (i: nat)
    requires |a| == |b| == 8 * bytes
    requires a != b
    ensures i < |a| && a[i] != b[i] && Agree(a, b, i)
  {
    var n := 0;
    while 8 * n < |a| && a[8 * n..8 * n + 8] == b[8 * n..8 * n + 8]
      invariant 0 <= n <= bytes
      invariant Agree(a, b, 8 * n)
    {
      forall j | 8 * n <= j < 8 * n + 8
        ensures a[j] == b[j]
      {
        assert a[j] == a[8 * n..8 * n + 8][j - 8 * n];
        assert b[j] == b[8 * n..8 * n + 8][j - 8 * n];
      }
      n := n + 1;
    }
    if n == bytes {
      AgreeEverywhere(a, b);
      assert false;
    }
    ghost var w := DifferenceIn(a[8 * n..8 * n + 8], b[8 * n..8 * n + 8]);
    var d := 0;
    while a[8 * n + d] == b[8 * n + d]
      invariant 0 <= d <= w
      invariant Agree(a, b, 8 * n + d)
      decreases 8 - d
    {
      d := d + 1;
    }
    i := 8 * n + d;
  }
}
