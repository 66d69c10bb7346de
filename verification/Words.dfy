/** Fixed-width words and the arithmetic of indices that wrap. */
module Words {

  const WRAP16: int := 0x1_0000
  const WRAP32: int := 0x1_0000_0000
  const WRAP64: int := 0x1_0000_0000_0000_0000

  type u8 = x: nat | x < 0x100
  type u16 = x: nat | x < WRAP16
  type u32 = x: nat | x < WRAP32
  type u64 = x: nat | x < WRAP64

  function Low16(x: int): u16 { x % WRAP16 }

  lemma AddMultiple(y: int, k: int, n: int)
    requires n > 0
    ensures (y + k * n) % n == y % n
  {
    var q := y / n;
    assert y == q * n + y % n;
    assert y + k * n == (q + k) * n + y % n;
    Quotient(y + k * n, q + k, y % n, n);
  }

  lemma Quotient(x: int, q: int, r: int, n: int)
    requires n > 0 && 0 <= r < n && x == q * n + r
    ensures x / n == q && x % n == r
  {
    var d := x / n - q;
    assert x == (x / n) * n + x % n;
    assert d * n == r - x % n;
    MultipleIsFar(d, n);
  }

  lemma MultipleIsFar(d: int, n: int)
    requires n > 0
    ensures d >= 1 ==> d * n >= n
    ensures d <= -1 ==> d * n <= -n
  {
  }

  lemma LowOfLow(x: int, n: int)
    ensures Low16(Low16(x) + n) == Low16(x + n)
  {
    AddMultiple(Low16(x) + n, x / WRAP16, WRAP16);
    assert x + n == Low16(x) + n + (x / WRAP16) * WRAP16;
  }

  lemma LowOfDifference(x: int, y: int)
    ensures Low16(Low16(x) - Low16(y)) == Low16(x - y)
  {
    LowOfLow(x, 0 - Low16(y));
    AddMultiple(x - Low16(y), -(y / WRAP16), WRAP16);
    assert x - y == x - Low16(y) + -(y / WRAP16) * WRAP16;
  }

  /** Counters less than 2^16 apart are equal if their low words are. */
  lemma LowsDiffer(a: nat, b: nat)
    requires a <= b < a + WRAP16
    ensures Low16(a) != Low16(b) <==> a < b
  {
    if Low16(a) == Low16(b) {
      LowOfDifference(b, a);
      assert Low16(b - a) == b - a;
    }
  }

  /** Reducing a counter to 16 bits does not change the slot it selects when the
      ring size divides 2^16. */
  lemma SlotOfWrapped(x: nat, num: nat)
    requires num > 0 && WRAP16 % num == 0
    ensures Low16(x) % num == x % num
  {
    var q := WRAP16 / num;
    assert WRAP16 == q * num;
    var k := x / WRAP16;
    assert x == Low16(x) + k * WRAP16;
    assert k * WRAP16 == (k * q) * num;
    AddMultiple(Low16(x), k * q, num);
  }

  /** Two counters less than `num` apart select different slots. */
  lemma SlotsDiffer(x: nat, y: nat, num: nat)
    requires num > 0 && x < y < x + num
    ensures x % num != y % num
  {
    assert x == (x / num) * num + x % num && y == (y / num) * num + y % num;
    var d := y / num - x / num;
    assert y - x == d * num + (y % num - x % num);
    MultipleIsFar(d, num);
  }

  /** The size test of the queue start routine. */
  predicate AcceptsQueueSize(size: bv64) { size != 0 && (size - 1) & size == 0 }

  /** A power of two that fits a 16-bit index. */
  predicate IsPower(size: bv64) {
    || size == 1 || size == 2 || size == 4 || size == 8 || size == 0x10 || size == 0x20 || size == 0x40
    || size == 0x80 || size == 0x100 || size == 0x200 || size == 0x400 || size == 0x800 || size == 0x1000
    || size == 0x2000 || size == 0x4000 || size == 0x8000 || size == 0x10000
  }

  /** The sizes up to 2^16 that pass the test are the powers of two, which divide 2^16. */
  lemma AcceptedSizeDivides(size: bv64)
    requires size <= 0x10000
    ensures AcceptsQueueSize(size) <==> IsPower(size)
    ensures AcceptsQueueSize(size) ==> size as int > 0 && WRAP16 % (size as int) == 0
  {
    assert AcceptsQueueSize(size) ==> IsPower(size);
  }
}
