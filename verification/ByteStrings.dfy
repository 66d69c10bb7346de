/** Byte strings: little-endian numbers, reads that pad and writes that drop. */
module ByteStrings {
  import opened Words

  type Bytes = seq<u8>

  function Pow256(n: nat): (p: nat)
    ensures p > 0
  {
    if n == 0 then 1 else 256 * Pow256(n - 1)
  }

  /** The number whose bytes, least significant first, are `b`. */
  function FromLE(b: Bytes): nat {
    if b == [] then 0 else b[0] + 256 * FromLE(b[1..])
  }

  /** The low `n` bytes of `v`, least significant first. */
  function ToLE(v: nat, n: nat): (b: Bytes)
    ensures |b| == n
  {
    if n == 0 then [] else [v % 256] + ToLE(v / 256, n - 1)
  }

  lemma {:induction false} FromToLE(v: nat, n: nat)
    requires v < Pow256(n)
    ensures FromLE(ToLE(v, n)) == v
  {
    if n > 0 {
      assert v / 256 < Pow256(n - 1);
      FromToLE(v / 256, n - 1);
      assert ToLE(v, n)[1..] == ToLE(v / 256, n - 1);
    }
  }

  lemma {:induction false} FromLEBound(b: Bytes)
    ensures FromLE(b) < Pow256(|b|)
  {
    if b != [] { FromLEBound(b[1..]); }
  }

  /** Two halves read separately and shifted together are the whole. */
  lemma {:induction false} FromLEConcat(a: Bytes, b: Bytes)
    ensures FromLE(a + b) == FromLE(a) + Pow256(|a|) * FromLE(b)
  {
    if a == [] {
      assert a + b == b;
    } else {
      FromLEConcat(a[1..], b);
      assert (a + b)[1..] == a[1..] + b && (a + b)[0] == a[0];
      Distribute(FromLE(a[1..]), Pow256(|a| - 1), FromLE(b));
    }
  }

  lemma Distribute(x: nat, p: nat, y: nat)
    ensures 256 * (x + p * y) == 256 * x + (256 * p) * y
  {
  }

  lemma Widths()
    ensures Pow256(1) == 0x100 && Pow256(2) == WRAP16 && Pow256(4) == WRAP32 && Pow256(8) == WRAP64
  {
    assert Pow256(3) == 0x100_0000 && Pow256(4) == WRAP32;
    assert Pow256(5) == 0x100_0000_0000 && Pow256(6) == 0x1_0000_0000_0000;
    assert Pow256(7) == 0x100_0000_0000_0000;
  }

  /** `n` bytes from `off` on, with zeroes for those past the end. */
  function Padded(flat: Bytes, off: nat, n: nat): (b: Bytes)
    ensures |b| == n
  {
    seq(n, i requires 0 <= i < n => if off + i < |flat| then flat[off + i] else 0)
  }

  /** `flat` with `b` written over it from `off` on; what falls past the end is dropped. */
  function Splice(flat: Bytes, off: nat, b: Bytes): (r: Bytes)
    ensures |r| == |flat|
  {
    seq(|flat|, i requires 0 <= i < |flat| => if off <= i < off + |b| then b[i - off] else flat[i])
  }

  /** A fixed-width read: all bytes or zero. */
  function NumberAt(flat: Bytes, off: nat, n: nat): nat {
    if off + n <= |flat| then FromLE(flat[off..off + n]) else 0
  }

  /** A fixed-width write: all bytes or none. */
  function PutNumber(flat: Bytes, off: nat, n: nat, v: nat): (r: Bytes)
    ensures |r| == |flat|
  {
    if off + n <= |flat| then Splice(flat, off, ToLE(v, n)) else flat
  }

  lemma PaddedInside(flat: Bytes, off: nat, n: nat)
    requires off + n <= |flat|
    ensures Padded(flat, off, n) == flat[off..off + n]
  {
  }

  lemma SpliceInside(flat: Bytes, off: nat, b: Bytes)
    requires off + |b| <= |flat|
    ensures Splice(flat, off, b) == flat[..off] + b + flat[off + |b|..]
    ensures Splice(flat, off, b)[off..off + |b|] == b
  {
  }

  lemma PaddedConcat(flat: Bytes, off: nat, n: nat, m: nat)
    ensures Padded(flat, off, n) + Padded(flat, off + n, m) == Padded(flat, off, n + m)
  {
  }

  lemma SpliceConcat(flat: Bytes, off: nat, a: Bytes, b: Bytes)
    ensures Splice(Splice(flat, off, a), off + |a|, b) == Splice(flat, off, a + b)
  {
  }

  // ----- Segmented strings

  function Flatten(segs: seq<Bytes>): Bytes {
    if segs == [] then [] else segs[0] + Flatten(segs[1..])
  }

  /** Bytes before segment `k`. */
  function Before(segs: seq<Bytes>, k: nat): nat
    requires k <= |segs|
  {
    if k == 0 then 0 else Before(segs, k - 1) + |segs[k - 1]|
  }

  lemma {:induction false} FlattenAppend(segs: seq<Bytes>, s: Bytes)
    ensures Flatten(segs + [s]) == Flatten(segs) + s
  {
    if segs == [] {
      assert segs + [s] == [s];
      assert Flatten([s]) == s + Flatten([]);
    } else {
      FlattenAppend(segs[1..], s);
      assert (segs + [s])[1..] == segs[1..] + [s];
    }
  }

  lemma {:induction false} BeforeShift(segs: seq<Bytes>, k: nat)
    requires 0 < k <= |segs|
    ensures Before(segs, k) == |segs[0]| + Before(segs[1..], k - 1)
  {
    if k > 1 { BeforeShift(segs, k - 1); }
  }

  /** A byte of a segment, found in the flat string. */
  lemma {:induction false} FlatIndex(segs: seq<Bytes>, k: nat)
    requires k < |segs|
    ensures Before(segs, k) + |segs[k]| <= |Flatten(segs)|
    ensures Flatten(segs)[Before(segs, k)..Before(segs, k) + |segs[k]|] == segs[k]
  {
    if k > 0 {
      FlatIndex(segs[1..], k - 1);
      BeforeShift(segs, k);
    }
  }

  lemma {:induction false} FlatLength(segs: seq<Bytes>)
    ensures |Flatten(segs)| == Before(segs, |segs|)
  {
    if segs != [] {
      FlatLength(segs[1..]);
      BeforeShift(segs, |segs|);
    }
  }

  /** Replacing a segment by one of the same length is a splice of the flat string. */
  lemma {:induction false} FlatUpdate(segs: seq<Bytes>, k: nat, s: Bytes)
    requires k < |segs| && |s| == |segs[k]|
    ensures Flatten(segs[k := s]) == Splice(Flatten(segs), Before(segs, k), s)
  {
    FlatIndex(segs, k);
    if k == 0 {
      assert segs[0 := s][1..] == segs[1..];
    } else {
      FlatUpdate(segs[1..], k - 1, s);
      BeforeShift(segs, k);
      assert segs[k := s][1..] == segs[1..][k - 1 := s];
      FlatIndex(segs[1..], k - 1);
    }
  }
}
