/**
 Numbers written across a segment boundary (machine/virtio_stream.go): when do their
 bytes land where they should?
 */
module StraddlingWrites {
  import opened Words
  import opened ByteStrings
  import opened VirtioStream

  /** The number is in one segment or past the end, or its first half is and its second
      half, taken alone, lands. */
  predicate Lands(lens: seq<nat>, off: nat, size: nat)
    requires IsWidth(size)
    decreases size
  {
    || !Straddles(lens, off, size)
    || (size > 1 && !Straddles(lens, off, size / 2) && Lands(lens, off + size / 2, size / 2))
  }

  /** The bytes of a number are those of its low half and of what is left of it. */
  lemma {:induction false} HalvesOfNumber(value: nat, k: nat, n: nat)
    ensures ToLE(value, k + n) == ToLE(value, k) + ToLE(HighPart(value, k), n)
    decreases k
  {
    if k == 0 {
      assert ToLE(value, 0) + ToLE(value, n) == ToLE(value, n);
    } else {
      HalvesOfNumber(value / 256, k - 1, n);
      assert [value % 256] + (ToLE(value / 256, k - 1) + ToLE(HighPart(value, k), n))
          == [value % 256] + ToLE(value / 256, k - 1) + ToLE(HighPart(value, k), n);
    }
  }

  /** A number that does not straddle is written whole. */
  lemma EffectInside(lens: seq<nat>, flat: Bytes, off: nat, size: nat, value: nat)
    requires IsWidth(size) && !Straddles(lens, off, size) && Total(lens) == |flat|
    ensures WriteEffect(lens, flat, off, size, value) == (PutNumber(flat, off, size, value), off + size)
  {
    RoomBounds(lens, off);
  }

  /** Where a number lands, the flat string has it, wherever the cursor ends. */
  lemma {:induction false} LandsWritten(lens: seq<nat>, flat: Bytes, off: nat, size: nat, value: nat)
    requires IsWidth(size) && Lands(lens, off, size) && Total(lens) == |flat|
    ensures WriteEffect(lens, flat, off, size, value).0 == PutNumber(flat, off, size, value)
    decreases size
  {
    hide Total, RoomAt, WriteEffect, PutNumber, HighPart, Splice, ToLE;
    if !Straddles(lens, off, size) {
      EffectInside(lens, flat, off, size, value);
    } else {
      var half := size / 2;
      EffectAcross(lens, flat, off, size, value);
      EffectInside(lens, flat, off, half, value);
      var f := PutNumber(flat, off, half, value);
      LandsWritten(lens, f, off + half, half, HighPart(value, half));
      TwoHalves(flat, off, half, value, RoomAt(lens, off));
    }
  }

  lemma TwoHalves(flat: Bytes, off: nat, half: nat, value: nat, room: nat)
    requires off + 2 * half <= |flat|
    ensures var f := PutNumber(PutNumber(flat, off, half, value), off + half, half, HighPart(value, half));
            Splice(f, off, Front(value, 2 * half, room)) == PutNumber(flat, off, 2 * half, value)
  {
    hide ToLE, HighPart;
    HalvesOfNumber(value, half, half);
    SpliceConcat(flat, off, ToLE(value, half), ToLE(HighPart(value, half), half));
  }

  // ----- Where a number does not land

  /** Nothing before the cursor is touched, and the cursor does not fall behind. */
  lemma {:induction false} NothingBefore(lens: seq<nat>, flat: Bytes, off: nat, size: nat, value: nat, j: nat)
    requires IsWidth(size) && j < |flat| && j < off
    ensures WriteEffect(lens, flat, off, size, value).0[j] == flat[j]
    ensures WriteEffect(lens, flat, off, size, value).1 >= off + size
    decreases size
  {
    if !(off + size > |flat|) && !(RoomAt(lens, off) >= size || size == 1) {
      var half := size / 2;
      var first := WriteEffect(lens, flat, off, half, value);
      NothingBefore(lens, flat, off, half, value, j);
      NothingBefore(lens, first.0, first.1, half, HighPart(value, half), j);
    }
  }

  /** A short number touches little, and moves the cursor little. */
  lemma {:induction false} NothingFarBehind(lens: seq<nat>, flat: Bytes, off: nat, size: nat, value: nat, j: nat)
    requires IsWidth(size) && size <= 4 && off + 2 * size - 1 <= j < |flat|
    ensures WriteEffect(lens, flat, off, size, value).0[j] == flat[j]
    ensures size <= 2 ==> WriteEffect(lens, flat, off, size, value).1 <= off + 2 * size
    decreases size
  {
    if !(off + size > |flat|) && !(RoomAt(lens, off) >= size || size == 1) {
      var half := size / 2;
      var first := WriteEffect(lens, flat, off, half, value);
      NothingFarBehind(lens, flat, off, half, value, j);
      if size == 2 { assert first.1 == off + 1; }
      NothingFarBehind(lens, first.0, first.1, half, HighPart(value, half), j);
      if size == 2 { assert WriteEffect(lens, first.0, first.1, half, HighPart(value, half)).1 == off + 2; }
    }
  }

  lemma OneByteNeverStraddles(lens: seq<nat>, off: nat)
    ensures !Straddles(lens, off, 1)
  {
    RoomBounds(lens, off);
  }

  /** The last byte of a number that does not land is not written. */
  lemma {:induction false} LastByteMissing(lens: seq<nat>, flat: Bytes, off: nat, size: nat, value: nat)
    requires IsWidth(size) && !Lands(lens, off, size) && Total(lens) == |flat|
    ensures off + size <= |flat| && WriteEffect(lens, flat, off, size, value).0[off + size - 1] == flat[off + size - 1]
    decreases size
  {
    hide Total, RoomAt, WriteEffect, HighPart, ToLE;
    OneByteNeverStraddles(lens, off);
    OneByteNeverStraddles(lens, off + 1);
    var half, p := size / 2, off + size - 1;
    EffectAcross(lens, flat, off, size, value);
    var first := WriteEffect(lens, flat, off, half, value);
    if Straddles(lens, off, half) {
      StraddledCursor(lens, flat, off, half, value);
      NothingFarBehind(lens, flat, off, half, value, p);
      NothingBefore(lens, first.0, first.1, half, HighPart(value, half), p);
    } else {
      EffectInside(lens, flat, off, half, value);
      LastByteMissing(lens, first.0, off + half, half, HighPart(value, half));
    }
  }

  lemma StraddledCursor(lens: seq<nat>, flat: Bytes, off: nat, size: nat, value: nat)
    requires IsWidth(size) && size > 1 && Straddles(lens, off, size) && Total(lens) == |flat|
    ensures WriteEffect(lens, flat, off, size, value).1 >= off + 2 * size
  {
    hide Total, RoomAt, WriteEffect, HighPart, ToLE, Splice;
    EffectAcross(lens, flat, off, size, value);
    CursorMoves(lens, flat, off, size / 2, value);
    var first := WriteEffect(lens, flat, off, size / 2, value);
    CursorMoves(lens, first.0, first.1, size / 2, HighPart(value, size / 2));
  }

  lemma {:induction false} CursorMoves(lens: seq<nat>, flat: Bytes, off: nat, size: nat, value: nat)
    requires IsWidth(size)
    ensures WriteEffect(lens, flat, off, size, value).1 >= off + size
    decreases size
  {
    if !(off + size > |flat|) && !(RoomAt(lens, off) >= size || size == 1) {
      var first := WriteEffect(lens, flat, off, size / 2, value);
      CursorMoves(lens, flat, off, size / 2, value);
      CursorMoves(lens, first.0, first.1, size / 2, HighPart(value, size / 2));
    }
  }

  lemma {:induction false} LargestNumber(n: nat)
    requires n > 0
    ensures ToLE(Pow256(n) - 1, n)[n - 1] == 255
  {
    var v := Pow256(n) - 1;
    assert v % 256 == 255 && v / 256 == Pow256(n - 1) - 1;
    if n > 1 { LargestNumber(n - 1); }
  }

  /** Every write of the number leaves it in the flat string, and nothing else changed,
      if and only if it lands. */
  lemma LandsExactly(lens: seq<nat>, off: nat, size: nat)
    requires IsWidth(size)
    ensures (forall flat: Bytes, value: nat | |flat| == Total(lens) && value < Pow256(size) ::
               WriteEffect(lens, flat, off, size, value).0 == PutNumber(flat, off, size, value))
            <==> Lands(lens, off, size)
  {
    hide Lands, WriteEffect, ToLE, Pow256, RoomAt;
    if Lands(lens, off, size) {
      forall flat: Bytes, value: nat | |flat| == Total(lens) && value < Pow256(size)
        ensures WriteEffect(lens, flat, off, size, value).0 == PutNumber(flat, off, size, value)
      {
        LandsWritten(lens, flat, off, size, value);
      }
    } else {
      var flat: Bytes, value := seq(Total(lens), _ => 0), Pow256(size) - 1;
      LastByteMissing(lens, flat, off, size, value);
      LargestNumber(size);
      assert PutNumber(flat, off, size, value)[off + size - 1] == 255;
      assert WriteEffect(lens, flat, off, size, value).0 != PutNumber(flat, off, size, value);
    }
  }
}
