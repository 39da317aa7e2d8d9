/** What several components share. */
module Common {

  datatype Option<T> = None | Some(value: T)

  /** The ranges of an unsigned int of 32 bits and of an unsigned long of 64 bits. */
  const UINT: nat := 0x1_0000_0000
  const ULONG: nat := 0x1_0000_0000_0000_0000

  type Ulong = n: nat | n < ULONG

  /** What a total would be if its counters had not wrapped around that often. */
  function Unwrapped(total: nat, wraps: nat, range: nat): nat {
    total + wraps * range
  }

  /** To the total t0, a0 and then a1 is added. */
  lemma Accumulated(range: nat, t0: nat, a0: nat, t1: nat, w0: nat, a1: nat, t2: nat, w1: nat) returns (w: nat)
    requires Unwrapped(t1, w0, range) == t0 + a0 && Unwrapped(t2, w1, range) == t1 + a1
    ensures Unwrapped(t2, w, range) == t0 + (a0 + a1) && (w == 0 <==> w0 == 0 && w1 == 0)
  {
    w := w0 + w1;
    assert w * range == w0 * range + w1 * range;
  }

  lemma OnceAround(total: nat, wraps: nat, range: nat)
    requires wraps > 0 && Unwrapped(total, wraps, range) == range
    ensures total == 0
  {
    assert wraps * range >= range;
  }
}
