/**
 Scatter-gather buffers and the stream over them.

 A buffer is a list of guest memory segments.  Through the stream it must behave
 like the one flat string obtained by joining the segments.
 */
module VirtioStream {
  import opened Words
  import opened ByteStrings

  ghost function SegsOf(d: seq<array<u8>>): (r: seq<Bytes>)
    reads d
    ensures |r| == |d| && forall i | 0 <= i < |d| :: r[i] == d[i][..]
  {
    if d == [] then [] else SegsOf(d[..|d| - 1]) + [d[|d| - 1][..]]
  }

  /** A part of one segment. */
  datatype Slice = Slice(seg: nat, lo: nat, hi: nat)

  class VirtioBuffer {
    var data: seq<array<u8>>
    var length: int
    ghost var flat: Bytes        // the segments joined
    ghost var lens: seq<nat>     // the length of each

    ghost function Segs(): seq<Bytes>
      reads this, data
    {
      SegsOf(data)
    }

    /** Segments do not alias and `length` is their total. */
    ghost predicate Valid()
      reads this, data
    {
      && (forall i, j | 0 <= i < j < |data| :: data[i] != data[j])
      && flat == Flatten(Segs()) && lens == LensOf(Segs()) && length == |flat|
    }

    constructor ()
      ensures Valid() && data == [] && flat == []
    {
      data, length, flat, lens := [], 0, [], [];
    }

    method Append(seg: array<u8>)
      requires Valid() && seg !in data
      modifies this
      ensures Valid() && data == old(data) + [seg] && flat == old(flat) + seg[..]
    {
      hide Flatten, LensOf;
      FlattenAppend(Segs(), seg[..]);
      data := data + [seg];
      length := length + seg.Length;
      assert Segs() == old(Segs()) + [seg[..]];
      flat, lens := flat + seg[..], LensOf(Segs());
    }

    /** The longest part of one segment that starts at `offset` and is no longer than
        `n`; nothing when the offset is past the end. */
    method Map(offset: nat, n: nat) returns (found: bool, s: Slice)
      requires Valid()
      ensures n == 0 ==> found && s.lo == s.hi
      ensures n > 0 ==> (found <==> offset < |flat|)
      ensures n > 0 && found ==> IsSlice(Segs(), s, offset, n)
    {
      if n == 0 { return true, Slice(0, 0, 0); }
      var off := offset;
      FlatLength(Segs());
      for i := 0 to |data|
        invariant 0 <= off && off + Before(Segs(), i) == offset
      {
        var seg := data[i];
        FlatIndex(Segs(), i);
        if off >= seg.Length {
          off := off - seg.Length;
        } else if off > 0 {
          if n > seg.Length - off { return true, Slice(i, off, seg.Length); }
          else { return true, Slice(i, off, off + n); }
        } else {
          if n > seg.Length { return true, Slice(i, 0, seg.Length); }
          else { return true, Slice(i, 0, n); }
        }
      }
      return false, Slice(0, 0, 0);
    }

    /** The bytes Map finds, as a reader sees them. */
    method Peek(offset: nat, n: nat) returns (found: bool, b: Bytes)
      requires Valid()
      ensures n == 0 ==> found && b == []
      ensures n > 0 ==> (found <==> offset < |flat|)
      ensures n > 0 && found ==> 0 < |b| <= n && offset + |b| <= |flat| && b == flat[offset..offset + |b|]
    {
      var s;
      found, s := Map(offset, n);
      b := [];
      if found && n > 0 {
        SliceIsFlat(Segs(), s, offset, n);
        b := data[s.seg][s.lo..s.hi];
      }
    }

    /** The length of what Map finds. */
    method MapLength(offset: nat, n: nat) returns (k: nat)
      requires Valid() && n > 0
      ensures k == Min(n, RoomAt(lens, offset)) && length == Total(lens) == |flat|
    {
      var found, s := Map(offset, n);
      LensFacts(Segs());
      RoomBounds(lens, offset);
      k := 0;
      if found {
        SliceLength(Segs(), s, offset, n);
        k := s.hi - s.lo;
      }
    }

    /** Store the longest prefix of `b` that Map finds room for. */
    method Poke(offset: nat, b: Bytes) returns (found: bool, n: nat)
      requires Valid()
      modifies data, this`flat
      ensures Valid()
      ensures n <= |b| && (|b| == 0 ==> found) && (!found ==> n == 0)
      ensures |b| > 0 ==> (found <==> offset < |flat|)
      ensures found ==> n == Min(|b|, RoomAt(lens, offset))
      ensures found && |b| > 0 ==> n > 0
      ensures flat == Splice(old(flat), offset, if found then b[..n] else [])
    {
      var s;
      found, s := Map(offset, |b|);
      n := 0;
      ghost var before := Segs();
      if found && |b| > 0 {
        n := s.hi - s.lo;
        SliceLength(before, s, offset, |b|);
        PokeSlice(s, offset, b, n);
      } else {
        SpliceNothing(flat, offset);
      }
    }

    /** Store `b` segment by segment, dropping what falls past the end. */
    method PokeAll(offset: nat, b: Bytes)
      requires Valid()
      modifies data, this`flat
      ensures Valid() && flat == Splice(old(flat), offset, b)
      decreases |b|
    {
      hide *;
      ghost var before := flat;
      var found, n := Poke(offset, b);
      SpliceSplit(before, offset, b, n);
      if found && n < |b| {
        PokeAll(offset + n, b[n..]);
      }
    }

    method PokeSlice(s: Slice, offset: nat, b: Bytes, n: nat)
      requires Valid() && IsSlice(Segs(), s, offset, |b|) && n == s.hi - s.lo
      modifies data, this`flat
      ensures Valid() && flat == Splice(old(flat), offset, b[..n])
    {
      hide Flatten, LensOf, Splice;
      ghost var before := Segs();
      Store(data[s.seg], s.lo, b[..n]);
      assert Segs() == before[s.seg := data[s.seg][..]];
      SpliceLength(before[s.seg], s.lo, b[..n]);
      SliceWrite(before, s, offset, |b|, b[..n], data[s.seg][..]);
      SameLens(before, s.seg, data[s.seg][..]);
      flat := Flatten(Segs());
      SpliceLength(old(flat), offset, b[..n]);
    }

    /** Store the bytes of a number that Map finds room for. */
    method PokeNumber(offset: nat, size: nat, value: nat)
      requires Valid() && IsWidth(size) && offset + size <= Total(lens)
      modifies data, this`flat
      ensures Valid()
      ensures flat == Splice(old(flat), offset, Front(value, size, RoomAt(lens, offset)))
      ensures RoomAt(lens, offset) >= size ==> flat == PutNumber(old(flat), offset, size, value)
    {
      LensFacts(Segs());
      RoomBounds(lens, offset);
      var b := ToLE(value, size);
      var found, n := Poke(offset, b);
      assert b[..|b|] == b;
    }

    /** The parts of segments that make up `n` bytes from `offset` on. */
    method Gather(offset: nat, n: nat) returns (parts: seq<Slice>)
      requires Valid()
      ensures forall p | p in parts :: Within(Segs(), p)
      ensures Gathered(Segs(), parts) == Available(flat, offset, n)
    {
      parts := GatherParts(data, Segs(), offset, n);
    }
  }

  method GatherParts(data: seq<array<u8>>, ghost segs: seq<Bytes>, offset: nat, n: nat) returns (parts: seq<Slice>)
    requires |segs| == |data| && forall i | 0 <= i < |data| :: |segs[i]| == data[i].Length
    ensures forall p | p in parts :: Within(segs, p)
    ensures Gathered(segs, parts) == Available(Flatten(segs), offset, n)
  {
    hide Gathering, Gathered, Available, Flatten, Before;
    parts := [];
    var off, left := offset, n;
    var i := 0;
    GatherStart(segs, offset, n);
    while i < |data|
      invariant i <= |data| && 0 <= off && 0 <= left && Gathering(segs, offset, n, i, off, left, parts)
    {
      var len := data[i].Length;
      if off >= len {
        SkipPart(segs, offset, n, i, off, left, parts);
        off := off - len;
      } else {
        var take := if len - off >= left then left else len - off;
        TakePart(segs, offset, n, i, off, left, take, parts);
        parts := parts + [Slice(i, off, off + take)];
        left := left - take;
        off := 0;
      }
      if left == 0 { return; }
      i := i + 1;
    }
    GatherEnd(segs, offset, n, off, left, parts);
  }

  lemma GatherStart(segs: seq<Bytes>, offset: nat, n: nat)
    ensures Gathering(segs, offset, n, 0, offset, n, [])
  {
  }

  lemma GatherEnd(segs: seq<Bytes>, offset: nat, n: nat, off: nat, left: nat, parts: seq<Slice>)
    requires Gathering(segs, offset, n, |segs|, off, left, parts)
    ensures forall p | p in parts :: Within(segs, p)
    ensures Gathered(segs, parts) == Available(Flatten(segs), offset, n)
  {
    FlatLength(segs);
  }

  lemma SkipPart(segs: seq<Bytes>, offset: nat, n: nat, i: nat, off: nat, left: nat, parts: seq<Slice>)
    requires Gathering(segs, offset, n, i, off, left, parts) && i < |segs| && off >= |segs[i]|
    ensures Gathering(segs, offset, n, i + 1, off - |segs[i]|, left, parts)
    ensures left == 0 ==> (forall p | p in parts :: Within(segs, p)) && Gathered(segs, parts) == Available(Flatten(segs), offset, n)
  {
  }

  predicate Within(segs: seq<Bytes>, p: Slice) { p.seg < |segs| && p.lo <= p.hi <= |segs[p.seg]| }

  /** Where the gathering loop stands before segment `i`. */
  predicate Position(segs: seq<Bytes>, offset: nat, n: nat, i: nat, off: nat, left: int) {
    && i <= |segs| && 0 <= left <= n
    && (left == n ==> off + Before(segs, i) == offset)
    && (0 < left < n ==> off == 0 && offset + (n - left) == Before(segs, i))
  }

  predicate Gathering(segs: seq<Bytes>, offset: nat, n: nat, i: nat, off: nat, left: int, parts: seq<Slice>) {
    && Position(segs, offset, n, i, off, left) && (left == 0 ==> n == 0)
    && (forall p | p in parts :: Within(segs, p))
    && Gathered(segs, parts) == Available(Flatten(segs), offset, n - left)
  }

  lemma TakePart(segs: seq<Bytes>, offset: nat, n: nat, i: nat, off: nat, left: nat, take: nat, parts: seq<Slice>)
    requires Gathering(segs, offset, n, i, off, left, parts) && i < |segs| && off < |segs[i]|
    requires take == if |segs[i]| - off >= left then left else |segs[i]| - off
    ensures var parts' := parts + [Slice(i, off, off + take)];
            && (take < left ==> Gathering(segs, offset, n, i + 1, 0, left - take, parts'))
            && (forall p | p in parts' :: Within(segs, p))
            && Gathered(segs, parts') == Available(Flatten(segs), offset, n - (left - take))
  {
    TakeBytes(segs, offset, n, i, off, left, take);
    GatheredAppend(segs, parts, Slice(i, off, off + take));
  }

  /** The next part continues the bytes gathered so far. */
  lemma TakeBytes(segs: seq<Bytes>, offset: nat, n: nat, i: nat, off: nat, left: nat, take: nat)
    requires Position(segs, offset, n, i, off, left) && i < |segs| && off + take <= |segs[i]|
    requires off < |segs[i]| && take <= left && (left == 0 ==> n == 0)
    ensures Available(Flatten(segs), offset, n - left) + segs[i][off..off + take]
            == Available(Flatten(segs), offset, n - left + take)
  {
    hide Available, Flatten, Before;
    FlatIndex(segs, i);
    ExtendFromSegment(Flatten(segs), segs[i], Before(segs, i), off, take, offset, n - left);
  }

  lemma ExtendFromSegment(flat: Bytes, seg: Bytes, b: nat, lo: nat, m: nat, off: nat, n: nat)
    requires b + |seg| <= |flat| && flat[b..b + |seg|] == seg
    requires lo + m <= |seg| && b + lo == off + n
    ensures Available(flat, off, n) + seg[lo..lo + m] == Available(flat, off, n + m)
  {
    SliceOfSlice(flat, b, b + |seg|, lo, lo + m);
    AvailableExtend(flat, off, n, m);
  }

  lemma AvailableExtend(flat: Bytes, off: nat, n: nat, m: nat)
    requires off + n + m <= |flat|
    ensures Available(flat, off, n) + flat[off + n..off + n + m] == Available(flat, off, n + m)
  {
  }

  lemma SliceOfSlice(f: Bytes, a: nat, b: nat, lo: nat, hi: nat)
    requires a <= b <= |f| && lo <= hi <= b - a
    ensures f[a..b][lo..hi] == f[a + lo..a + hi]
  {
    forall i | 0 <= i < hi - lo ensures f[a..b][lo..hi][i] == f[a + lo..a + hi][i] {}
  }

  /** What a successful Map returns. */
  predicate IsSlice(segs: seq<Bytes>, s: Slice, offset: nat, n: nat) {
    && s.seg < |segs| && s.lo < s.hi <= |segs[s.seg]|
    && Before(segs, s.seg) + s.lo == offset
    && s.hi - s.lo <= n && (s.hi - s.lo < n ==> s.hi == |segs[s.seg]|)
  }

  function Available(flat: Bytes, off: nat, n: nat): Bytes {
    if off + n <= |flat| then flat[off..off + n] else if off <= |flat| then flat[off..] else []
  }

  function Gathered(segs: seq<Bytes>, parts: seq<Slice>): Bytes
    requires forall p | p in parts :: Within(segs, p)
  {
    if parts == [] then [] else
      assert parts[0] in parts && Within(segs, parts[0]);
      segs[parts[0].seg][parts[0].lo..parts[0].hi] + Gathered(segs, parts[1..])
  }

  lemma {:induction false} GatheredAppend(segs: seq<Bytes>, parts: seq<Slice>, p: Slice)
    requires (forall q | q in parts :: Within(segs, q)) && Within(segs, p)
    ensures Gathered(segs, parts + [p]) == Gathered(segs, parts) + segs[p.seg][p.lo..p.hi]
  {
    if parts == [] {
      assert parts + [p] == [p] && [p][1..] == [];
    } else {
      GatheredAppend(segs, parts[1..], p);
      assert (parts + [p])[1..] == parts[1..] + [p];
    }
  }

  /** A mapped slice is the corresponding piece of the flat string. */
  lemma SliceIsFlat(segs: seq<Bytes>, s: Slice, offset: nat, n: nat)
    requires IsSlice(segs, s, offset, n)
    ensures offset + (s.hi - s.lo) <= |Flatten(segs)|
    ensures segs[s.seg][s.lo..s.hi] == Flatten(segs)[offset..offset + (s.hi - s.lo)]
  {
    FlatIndex(segs, s.seg);
    var flat := Flatten(segs);
    var b := Before(segs, s.seg);
    SliceOfSlice(flat, b, b + |segs[s.seg]|, s.lo, s.hi);
  }

  /** Overwriting a mapped slice is a splice of the flat string. */
  lemma SliceWrite(segs: seq<Bytes>, s: Slice, offset: nat, n: nat, b: Bytes, seg': Bytes)
    requires IsSlice(segs, s, offset, n) && |b| == s.hi - s.lo
    requires |seg'| == |segs[s.seg]| && seg' == Splice(segs[s.seg], s.lo, b)
    ensures Flatten(segs[s.seg := seg']) == Splice(Flatten(segs), offset, b)
  {
    FlatUpdate(segs, s.seg, seg');
    FlatIndex(segs, s.seg);
    var flat, at := Flatten(segs), Before(segs, s.seg);
    forall i | 0 <= i < |flat| ensures Splice(flat, at, seg')[i] == Splice(flat, offset, b)[i] {
      if at <= i < at + |seg'| { assert flat[at..at + |seg'|][i - at] == segs[s.seg][i - at]; }
    }
  }

  function Min(a: nat, b: nat): nat { if a < b then a else b }

  function LensOf(segs: seq<Bytes>): (lens: seq<nat>)
    ensures |lens| == |segs|
  {
    if segs == [] then [] else [|segs[0]|] + LensOf(segs[1..])
  }

  function Total(lens: seq<nat>): nat { if lens == [] then 0 else lens[0] + Total(lens[1..]) }

  /** Bytes from `off` to the end of the segment that holds it. */
  function RoomAt(lens: seq<nat>, off: nat): nat {
    if lens == [] then 0 else if off >= lens[0] then RoomAt(lens[1..], off - lens[0]) else lens[0] - off
  }

  lemma {:induction false} RoomBounds(lens: seq<nat>, off: nat)
    ensures RoomAt(lens, off) > 0 <==> off < Total(lens)
    ensures off < Total(lens) ==> off + RoomAt(lens, off) <= Total(lens)
  {
    if lens != [] && off >= lens[0] { RoomBounds(lens[1..], off - lens[0]); }
  }

  lemma {:induction false} LensFacts(segs: seq<Bytes>)
    ensures Total(LensOf(segs)) == |Flatten(segs)|
    ensures forall i | 0 <= i < |segs| :: LensOf(segs)[i] == |segs[i]|
  {
    if segs != [] { LensFacts(segs[1..]); }
  }

  /** A splice done in two parts, wholly or not at all. */
  lemma SpliceSplit(flat: Bytes, at: nat, b: Bytes, n: nat)
    requires n <= |b|
    ensures Splice(Splice(flat, at, b[..n]), at + n, b[n..]) == Splice(flat, at, b)
    ensures n == |b| ==> b[..n] == b
    ensures at >= |flat| ==> Splice(flat, at, []) == Splice(flat, at, b)
  {
    SpliceConcat(flat, at, b[..n], b[n..]);
    assert b[..n] + b[n..] == b;
  }

  lemma BeyondEnd(flat: Bytes, off: nat, n: nat, v: nat)
    ensures off + n > |flat| ==> PutNumber(flat, off, n, v) == flat
  {
  }

  lemma SpliceNothing(flat: Bytes, off: nat)
    ensures Splice(flat, off, []) == flat
  {
  }

  lemma SpliceLength(flat: Bytes, off: nat, b: Bytes)
    ensures |Splice(flat, off, b)| == |flat|
  {
  }

  lemma SameLens(segs: seq<Bytes>, k: nat, s: Bytes)
    requires k < |segs| && |s| == |segs[k]|
    ensures LensOf(segs[k := s]) == LensOf(segs)
  {
    LensFacts(segs);
    LensFacts(segs[k := s]);
  }

  lemma {:induction false} SliceLength(segs: seq<Bytes>, s: Slice, offset: nat, n: nat)
    requires IsSlice(segs, s, offset, n)
    ensures s.hi - s.lo == Min(n, RoomAt(LensOf(segs), offset))
  {
    assert LensOf(segs)[1..] == LensOf(segs[1..]);
    if s.seg > 0 {
      BeforeShift(segs, s.seg);
      SliceLength(segs[1..], s.(seg := s.seg - 1), offset - |segs[0]|, n);
    }
  }

  /** Store `b` into a segment. */
  method Store(seg: array<u8>, lo: nat, b: Bytes)
    requires lo + |b| <= seg.Length
    modifies seg
    ensures seg[..] == Splice(old(seg[..]), lo, b)
  {
    forall i | 0 <= i < |b| { seg[lo + i] := b[i]; }
  }

  lemma HalvesMakeWhole(flat: Bytes, at: nat, half: nat)
    requires at + 2 * half <= |flat|
    ensures NumberAt(flat, at + half, half) * Pow256(half) + NumberAt(flat, at, half) == NumberAt(flat, at, 2 * half)
  {
    var a, b := flat[at..at + half], flat[at + half..at + half + half];
    JoinSlices(flat, at, at + half, at + half + half);
    ShiftAndAdd(a, b);
  }

  lemma ReadWhole(flat: Bytes, at: nat, n: nat)
    ensures NumberAt(flat, at, n) == if at + n <= |flat| then FromLE(flat[at..at + n]) else 0
  {
  }

  lemma JoinSlices(f: Bytes, a: nat, b: nat, c: nat)
    requires a <= b <= c <= |f|
    ensures f[a..b] + f[b..c] == f[a..c]
  {
  }

  lemma ShiftAndAdd(a: Bytes, b: Bytes)
    ensures FromLE(b) * Pow256(|a|) + FromLE(a) == FromLE(a + b)
  {
    FromLEConcat(a, b);
  }

  predicate IsWidth(n: nat) { n == 1 || n == 2 || n == 4 || n == 8 }

  class VirtioStream {
    const buf: VirtioBuffer
    const bookmark: nat
    var readOffset: nat
    var writeOffset: nat

    constructor (buffer: VirtioBuffer, mark: nat)
      ensures buf == buffer && bookmark == readOffset == writeOffset == mark
    {
      buf, bookmark, readOffset, writeOffset := buffer, mark, mark, mark;
    }

    function ReadLeft(): (n: int)
      reads this, buf, buf.data
      ensures buf.Valid() ==> n == |buf.flat| - readOffset
    {
      buf.length - readOffset
    }

    function WriteLeft(): (n: int)
      reads this, buf, buf.data
      ensures buf.Valid() ==> n == |buf.flat| - writeOffset
    {
      buf.length - writeOffset
    }

    method ReadRewind()
      modifies this`readOffset
      ensures readOffset == bookmark
    {
      readOffset := bookmark;
    }

    method WriteRewind()
      modifies this`writeOffset
      ensures writeOffset == bookmark
    {
      writeOffset := bookmark;
    }

    /** A number read across any fragmentation is the number in the flat string. */
    method ReadN(size: nat) returns (v: nat)
      requires buf.Valid() && IsWidth(size)
      modifies this`readOffset
      ensures v == NumberAt(buf.flat, old(readOffset), size)
      ensures readOffset == old(readOffset) + size
      decreases size
    {
      ghost var flat, at := buf.flat, readOffset;
      ReadWhole(flat, at, size);
      hide NumberAt, FromLE, Pow256, VirtioBuffer.Valid;
      if ReadLeft() < size {
        readOffset := readOffset + size;
        return 0;
      }
      var found, ram := buf.Peek(readOffset, size);
      if |ram| < size {
        var half := size / 2;
        var n1 := ReadN(half);
        var n2 := ReadN(half);
        HalvesMakeWhole(flat, at, half);
        // n1 has fewer bits than the shift, so the bitwise or is a sum.
        return n2 * Pow256(half) + n1;
      }
      readOffset := readOffset + size;
      return FromLE(ram);
    }

    method ReadBytes(n: nat) returns (b: Bytes)
      requires buf.Valid()
      modifies this`readOffset
      ensures b == Padded(buf.flat, old(readOffset), n)
      ensures readOffset == old(readOffset) + n
      decreases n
    {
      ghost var flat, at := buf.flat, readOffset;
      var found, ram := buf.Peek(readOffset, n);
      if !found {
        readOffset := readOffset + n;
        b := seq(n, _ => 0);
        assert b == Padded(flat, at, n);
        return;
      }
      readOffset := readOffset + |ram|;
      PaddedConcat(flat, at, |ram|, n - |ram|);
      assert ram == Padded(flat, at, |ram|) by { if n > 0 { PaddedInside(flat, at, |ram|); } }
      if |ram| < n {
        var suffix := ReadBytes(n - |ram|);
        return ram + suffix;
      }
      return ram;
    }

    method WriteBytes(b: Bytes)
      requires buf.Valid()
      modifies this`writeOffset, buf.data, buf`flat
      ensures buf.Valid()
      ensures buf.flat == Splice(old(buf.flat), old(writeOffset), b)
      ensures writeOffset == old(writeOffset) + |b|
    {
      buf.PokeAll(writeOffset, b);
      writeOffset := writeOffset + |b|;
    }

    method WriteString(b: Bytes)
      requires buf.Valid()
      modifies this`writeOffset, buf.data, buf`flat
      ensures buf.Valid()
      ensures var (f, o) := WriteEffect(buf.lens, old(buf.flat), old(writeOffset), 2, Low16(|b|));
              buf.flat == Splice(f, o, b) && writeOffset == o + |b|
      ensures writeOffset == old(writeOffset) + 2 + |b| <==> !Straddles(buf.lens, old(writeOffset), 2)
      ensures Straddles(buf.lens, old(writeOffset), 2) ==> writeOffset >= old(writeOffset) + 4 + |b|
      ensures !Straddles(buf.lens, old(writeOffset), 2) ==>
                buf.flat == Splice(PutNumber(old(buf.flat), old(writeOffset), 2, Low16(|b|)), old(writeOffset) + 2, b)
    {
      hide VirtioBuffer.Valid, WriteEffect, Splice, PutNumber, Straddles, Low16;
      WriteN(2, Low16(|b|));
      WriteBytes(b);
    }

    method ReadString() returns (b: Bytes)
      requires buf.Valid()
      modifies this`readOffset
      ensures var n := NumberAt(buf.flat, old(readOffset), 2);
              b == Padded(buf.flat, old(readOffset) + 2, n) && readOffset == old(readOffset) + 2 + n
    {
      var n := ReadN(2);
      b := ReadBytes(n);
    }

    /** A number written where it does not straddle two segments lands in the flat
        string, and the cursor moves by its width exactly then.  A straddling write
        falls through after its two halves and moves the cursor twice as far or more;
        the bytes its last store puts outside the buffer are not part of this model. */
    method WriteN(size: nat, value: nat)
      requires buf.Valid() && IsWidth(size)
      modifies this`writeOffset, buf.data, buf`flat
      ensures buf.Valid()
      ensures (buf.flat, writeOffset) == WriteEffect(buf.lens, old(buf.flat), old(writeOffset), size, value)
      ensures writeOffset == old(writeOffset) + size <==> !Straddles(buf.lens, old(writeOffset), size)
      ensures Straddles(buf.lens, old(writeOffset), size) ==> writeOffset >= old(writeOffset) + 2 * size
      ensures !Straddles(buf.lens, old(writeOffset), size) ==>
                buf.flat == PutNumber(old(buf.flat), old(writeOffset), size, value)
      decreases size, 1
    {
      hide VirtioBuffer.Valid, Total, RoomAt;
      var start := writeOffset;
      BeyondEnd(buf.flat, start, size, value);
      var room := buf.MapLength(start, size);
      if WriteLeft() < size {
        writeOffset := writeOffset + size;
        return;
      }
      RoomBounds(buf.lens, start);
      if room < size {
        WriteStraddling(size, value);
      } else {
        writeOffset := writeOffset + size;
        buf.PokeNumber(start, size, value);
      }
    }

    method WriteStraddling(size: nat, value: nat)
      requires buf.Valid() && IsWidth(size) && size > 1 && Straddles(buf.lens, writeOffset, size)
      modifies this`writeOffset, buf.data, buf`flat
      ensures buf.Valid()
      ensures (buf.flat, writeOffset) == WriteEffect(buf.lens, old(buf.flat), old(writeOffset), size, value)
      ensures writeOffset >= old(writeOffset) + 2 * size
      decreases size, 0
    {
      hide VirtioBuffer.Valid, Total, RoomAt, PutNumber, HighPart, Front, Splice, WriteEffect;
      var start, half := writeOffset, size / 2;
      var _ := buf.MapLength(start, size);
      EffectAcross(buf.lens, buf.flat, start, size, value);
      WriteN(half, value);
      assert writeOffset >= start + half;
      WriteN(half, HighPart(value, half));
      assert writeOffset >= start + size;
      writeOffset := writeOffset + size;
      buf.PokeNumber(start, size, value);
    }
  }

  /** The bytes of a number that `room` has room for. */
  function Front(value: nat, size: nat, room: nat): (b: Bytes)
    ensures |b| == Min(size, room)
  {
    ToLE(value, size)[..Min(size, room)]
  }

  /** What writing a number does to the flat string and the cursor.  Across a boundary
      both halves are written, and then the number once more as far as its first segment
      goes, with the cursor moved on by the size again. */
  function WriteEffect(lens: seq<nat>, flat: Bytes, off: nat, size: nat, value: nat): (r: (Bytes, nat))
    requires IsWidth(size)
    ensures |r.0| == |flat|
    decreases size
  {
    if off + size > |flat| then (flat, off + size)
    else if RoomAt(lens, off) >= size || size == 1 then (PutNumber(flat, off, size, value), off + size)
    else
      var (f, o) := WriteEffect(lens, flat, off, size / 2, value);
      var (g, p) := WriteEffect(lens, f, o, size / 2, HighPart(value, size / 2));
      (Splice(g, off, Front(value, size, RoomAt(lens, off))), p + size)
  }

  lemma {:induction false} EffectAcross(lens: seq<nat>, flat: Bytes, off: nat, size: nat, value: nat)
    requires IsWidth(size) && size > 1 && Straddles(lens, off, size) && Total(lens) == |flat|
    ensures var first := WriteEffect(lens, flat, off, size / 2, value);
            var second := WriteEffect(lens, first.0, first.1, size / 2, HighPart(value, size / 2));
            WriteEffect(lens, flat, off, size, value)
            == (Splice(second.0, off, Front(value, size, RoomAt(lens, off))), second.1 + size)
  {
    hide Splice, Front, HighPart, RoomAt;
  }

  /** The bits left after shifting `n` bytes out. */
  function HighPart(value: nat, n: nat): nat {
    if n == 0 then value else HighPart(value / 256, n - 1)
  }

  /** A field that fits the buffer but not the segment it starts in. */
  predicate Straddles(lens: seq<nat>, off: nat, size: nat) {
    off + size <= Total(lens) && RoomAt(lens, off) < size
  }
}
