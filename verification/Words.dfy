/** Unsigned 32-bit counters that wrap around, and the slot of a ring they stand for. */
module Words {
  const UINT: int := 0x1_0000_0000

  lemma WrapNext(a: int)
    requires 0 <= a
    ensures (a % UINT + 1) % UINT == (a + 1) % UINT
    ensures 0 < a ==> (a % UINT - 1) % UINT == (a - 1) % UINT
  {
    var q, r := a / UINT, a % UINT;
    assert a + 1 == q * UINT + (r + 1) && a - 1 == q * UINT + (r - 1);
    assert r + 1 == UINT ==> a + 1 == (q + 1) * UINT;
    assert r == 0 ==> a - 1 == (q - 1) * UINT + (UINT - 1);
  }

  /** The size of a ring divides the range of its counters. */
  predicate RingSize(n: int) {
    n == 128 || n == 512
  }

  lemma WrapSlot(a: int, n: int)
    requires 0 <= a && RingSize(n)
    ensures a % UINT % n == a % n
  {
    if n == 128 {
      WrapShort(a);
    } else {
      WrapLong(a);
    }
  }

  lemma WrapShort(a: int)
    requires 0 <= a
    ensures a % UINT % 128 == a % 128
  {
    var q, r := a / UINT, a % UINT;
    assert a == 128 * (q * 33554432 + r / 128) + r % 128;
  }

  lemma WrapLong(a: int)
    requires 0 <= a
    ensures a % UINT % 512 == a % 512
  {
    var q, r := a / UINT, a % UINT;
    assert a == 512 * (q * 8388608 + r / 512) + r % 512;
  }

  /** One step of a counter of a ring of n slots. */
  lemma WrapStep(a: int, n: int)
    requires 0 <= a && RingSize(n)
    ensures (a % UINT + 1) % UINT == (a + 1) % UINT && a % UINT % n == a % n
    ensures 0 < a ==> (a % UINT - 1) % UINT == (a - 1) % UINT
  {
    WrapNext(a);
    WrapSlot(a, n);
  }

  lemma SlotsDiffer(i: int, j: int, n: int)
    requires 0 <= i < j < i + n && RingSize(n)
    ensures i % n != j % n
  {
    if n == 128 {
      assert (j - i) % 128 == j - i;
    } else {
      assert (j - i) % 512 == j - i;
    }
  }
}
