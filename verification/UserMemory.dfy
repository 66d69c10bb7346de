/**
 Placing user memory in the holes of the memory map (machine/user.go).

 The scan goes by index while the map grows under it: a hole that is filled pushes the
 region behind it one place on, so that region is met a second time, and the distance
 from its end back to its start, modulo 2^64, is taken for a hole that swallows all the
 rest.  User memory therefore goes into the first hole and directly behind the region
 that closes it, and nowhere else.
 */
module UserMemory {
  import opened Words
  import opened Regions
  import opened GuestMemory

  /** A range of the backing file and the guest memory it serves. */
  datatype Segment = Segment(offset: nat, start: u64, size: u64)

  /** The first region with a hole in front of it, from index `i` on. */
  function FirstHole(m: seq<Region>, i: nat): (k: nat)
    requires i <= |m|
    ensures i <= k <= |m| && (k < |m| ==> m[k].start != TopBefore(m, k))
    decreases |m| - i
  {
    if i == |m| || m[i].start != TopBefore(m, i) then i else FirstHole(m, i + 1)
  }

  /** Up to there each region starts where the one before it ends. */
  lemma {:induction false} BeforeFirstHole(m: seq<Region>, i: nat, j: nat)
    requires i <= |m| && i <= j < FirstHole(m, i)
    ensures m[j].start == TopBefore(m, j)
    decreases j - i
  {
    if i < j { BeforeFirstHole(m, i + 1, j); }
  }

  /** The size of the hole in front of region `k`. */
  function Hole(m: seq<Region>, k: nat): int
    requires k < |m|
  {
    m[k].start - TopBefore(m, k)
  }

  /** What is left after the first hole is full ends by 2^64, or there is nothing left. */
  predicate NoWrap(m: seq<Region>, memory: u64) {
    var k := FirstHole(m, 0);
    if k == |m| then TopBefore(m, k) + memory <= WRAP64
    else if memory <= Hole(m, k) then true
    else
      var e := Top(m[k]) + memory - Hole(m, k);
      e < WRAP64 || (e == WRAP64 && k + 1 == |m|)
  }

  /** What is left fits in front of the next region. */
  predicate Fits(m: seq<Region>, memory: u64) {
    var k := FirstHole(m, 0);
    k + 1 >= |m| || memory <= Hole(m, k) || Top(m[k]) + memory - Hole(m, k) <= m[k + 1].start
  }

  /** Where the memory goes: into the first hole, and what is left behind its region. */
  function Segments(m: seq<Region>, start: nat, memory: u64): seq<Segment>
    requires Ordered(m) && NoWrap(m, memory)
  {
    var k := FirstHole(m, 0);
    if memory == 0 then []
    else if k == |m| || memory <= Hole(m, k) then [Segment(start, TopBefore(m, k), memory)]
    else [Segment(start, TopBefore(m, k), Hole(m, k)), Segment(start + Hole(m, k), Top(m[k]), memory - Hole(m, k))]
  }

  /** The backing file, mapped into host memory at `base`. */
  datatype Mmap = Mmap(store: array<u8>, base: nat)

  function Piece(f: Mmap, s: Segment, len: nat): Region {
    Region(s.start, s.size, User, Slice(f.store, s.offset, len, f.base + s.offset), map[])
  }

  /** The map once the memory is placed.  A piece at the very end is given the whole
      rest of the file. */
  function Placed(m: seq<Region>, f: Mmap, start: nat, memory: u64): seq<Region>
    requires Ordered(m) && NoWrap(m, memory) && start <= f.store.Length
  {
    var k := FirstHole(m, 0);
    var s := Segments(m, start, memory);
    if memory == 0 then m
    else if k == |m| then m + [Piece(f, s[0], f.store.Length - start)]
    else if |s| == 1 then Filled(m, k, Piece(f, s[0], memory))
    else m[..k] + [Piece(f, s[0], s[0].size), m[k], Piece(f, s[1], s[1].size)] + m[k + 1..]
  }

  // ----- What the placement conserves

  /** Segments that follow each other in the file from `start` and add up to `total`. */
  predicate Contiguous(segments: seq<Segment>, start: nat, total: nat) {
    if segments == [] then total == 0
    else segments[0].offset == start && segments[0].size <= total
         && Contiguous(segments[1..], start + segments[0].size, total - segments[0].size)
  }

  /** Bytes of guest memory in a map. */
  function Bytes(m: seq<Region>): nat { if m == [] then 0 else m[0].size + Bytes(m[1..]) }

  lemma {:induction false} BytesConcat(a: seq<Region>, b: seq<Region>)
    ensures Bytes(a + b) == Bytes(a) + Bytes(b)
  {
    if a == [] {
      assert a + b == b;
    } else {
      assert (a + b)[1..] == a[1..] + b;
      BytesConcat(a[1..], b);
    }
  }

  lemma SegmentsAreContiguous(m: seq<Region>, start: nat, memory: u64)
    requires Ordered(m) && NoWrap(m, memory)
    ensures Contiguous(Segments(m, start, memory), start, memory)
  {
    var s := Segments(m, start, memory);
    if |s| == 2 {
      assert s[1..] == [s[1]] && [s[1]][1..] == [];
    } else if |s| == 1 {
      assert s[1..] == [];
    }
  }

  /** The map stays in order, and grows by exactly the memory asked for. */
  lemma PlacedConserves(m: seq<Region>, f: Mmap, start: nat, memory: u64)
    requires Ordered(m) && NoWrap(m, memory) && Fits(m, memory) && start <= f.store.Length
    ensures Ordered(Placed(m, f, start, memory))
    ensures Bytes(Placed(m, f, start, memory)) == Bytes(m) + memory
  {
    hide Bytes, Ordered;
    var k := FirstHole(m, 0);
    var s := Segments(m, start, memory);
    if k < |m| { SizesPositive(m, k); }
    if memory == 0 {
    } else if k == |m| {
      var p := Piece(f, s[0], f.store.Length - start);
      FilledConserves(m, k, p);
      assert Filled(m, k, p) == m + [p];
    } else if |s| == 1 {
      FilledConserves(m, k, Piece(f, s[0], memory));
    } else {
      var p, q := Piece(f, s[0], s[0].size), Piece(f, s[1], s[1].size);
      FilledTwice(m, k, p, q);
    }
  }

  lemma FilledTwice(m: seq<Region>, k: nat, p: Region, q: Region)
    requires Ordered(m) && k < |m| && 0 < p.size && 0 < q.size
    requires TopBefore(m, k) <= p.start && Top(p) <= m[k].start
    requires Top(m[k]) <= q.start && Top(q) <= if k + 1 < |m| then m[k + 1].start else WRAP64
    ensures var n := m[..k] + [p, m[k], q] + m[k + 1..];
            Ordered(n) && Bytes(n) == Bytes(m) + p.size + q.size
  {
    hide Ordered, Bytes;
    var n := Filled(m, k + 1, q);
    FilledConserves(m, k + 1, q);
    assert n[k] == m[k] && TopBefore(n, k) == TopBefore(m, k);
    FilledConserves(n, k, p);
    assert Filled(n, k, p) == m[..k] + [p, m[k], q] + m[k + 1..];
  }

  lemma FilledConserves(m: seq<Region>, k: nat, r: Region)
    requires Ordered(m) && k <= |m| && 0 < r.size
    requires TopBefore(m, k) <= r.start && Top(r) <= if k < |m| then m[k].start else WRAP64
    ensures Ordered(Filled(m, k, r)) && Bytes(Filled(m, k, r)) == Bytes(m) + r.size
  {
    hide Ordered, Bytes, Filled;
    FilledBytes(m, k, r);
    FilledInOrder(m, k, r);
  }

  lemma FilledBytes(m: seq<Region>, k: nat, r: Region)
    requires k <= |m|
    ensures Bytes(Filled(m, k, r)) == Bytes(m) + r.size
  {
    hide Bytes;
    BytesConcat(m[..k] + [r], m[k..]);
    BytesConcat(m[..k], [r]);
    BytesConcat(m[..k], m[k..]);
    assert m == m[..k] + m[k..];
    BytesOfOne(r);
  }

  lemma BytesOfOne(r: Region)
    ensures Bytes([r]) == r.size
  {
    assert [r][1..] == [];
  }

  /** Host memory stays apart: nothing of the file from `start` on was behind a region
      before, and then the pieces can be handed out in chunks like any other region. */
  lemma PlacedIsBacked(m: seq<Region>, f: Mmap, start: nat, memory: u64)
    requires Ordered(m) && NoWrap(m, memory) && Fits(m, memory) && start + memory <= f.store.Length
    requires Backed(m) && AllChunked(m) && Unused(m, f, start)
    ensures Backed(Placed(m, f, start, memory)) && AllChunked(Placed(m, f, start, memory))
  {
    hide Backed, AllChunked, Ordered, Unused, Filled, Fits;
    var k := FirstHole(m, 0);
    var s := Segments(m, start, memory);
    if k < |m| { SizesPositive(m, k); }
    if memory == 0 {
    } else if k == |m| {
      var p := Piece(f, s[0], f.store.Length - start);
      FilledIsBacked(m, f, start, k, p);
      FilledAtEnd(m, p);
    } else if |s| == 1 {
      FilledIsBacked(m, f, start, k, Piece(f, s[0], memory));
    } else {
      var p, q := Piece(f, s[0], s[0].size), Piece(f, s[1], s[1].size);
      FilledIsBacked(m, f, start, k, p);
      FilledBehind(m, k, p, q);
      FilledIsBacked(Filled(m, k, p), f, start + p.size, k + 2, q);
    }
  }

  /** The file is not in use from an offset on. */
  ghost predicate Unused(m: seq<Region>, f: Mmap, start: nat) {
    forall i | 0 <= i < |m| :: m[i].user.Slice? && m[i].user.store == f.store ==> m[i].user.lo + m[i].size <= start
  }

  lemma FilledIsBacked(m: seq<Region>, f: Mmap, start: nat, k: nat, r: Region)
    requires Backed(m) && AllChunked(m) && Unused(m, f, start) && k <= |m|
    requires 0 < r.size && Top(r) <= WRAP64 && r.chunks == map[] && r.user.Slice?
    requires r.user.store == f.store && r.user.lo == start
    requires r.size <= r.user.len && start + r.user.len <= f.store.Length
    ensures Backed(Filled(m, k, r)) && AllChunked(Filled(m, k, r)) && Unused(Filled(m, k, r), f, start + r.size)
  {
    var n := Filled(m, k, r);
    forall i | 0 <= i < |n| ensures n[i] == if i < k then m[i] else if i == k then r else m[i - 1] {
    }
    hide Filled;
    assert AllChunked(n) && Unused(n, f, start + r.size);
    assert forall i | 0 <= i < |n| :: BackedOne(n[i]);
    forall i, j | 0 <= i < j < |n| ensures Apart(n[i], n[j]) {
      if i != k && j != k {
        assert Apart(m[if i < k then i else i - 1], m[if j < k then j else j - 1]);
      }
    }
  }

  /** Two holes of a page each and the whole space behind, and yet three pages are
      refused: they must fit in the first hole and right behind the first region. */
  lemma RefusedDespiteRoom() returns (m: seq<Region>)
    ensures Ordered(m) && NoWrap(m, 3 * PAGE) && !Fits(m, 3 * PAGE)
    ensures Top(m[|m| - 1]) + 3 * PAGE < WRAP64
  {
    m := TwoPages();
    assert FirstHole(m, 0) == 0;
  }

  function TwoPages(): seq<Region> {
    [Region(PAGE, PAGE, Reserved, Nil, map[]), Region(3 * PAGE, PAGE, Reserved, Nil, map[])]
  }

  /** Three pages on a map whose first region leaves two below the last: the rest ends
      at 2^64, no conflict is seen, and the piece lies across the last region. */
  lemma UnseenConflict(f: Mmap, start: nat)
    ensures var m := NearTop();
            && Ordered(m) && FirstHole(m, 0) == 0 && !NoWrap(m, 3 * PAGE)
            && !Conflicts(m, 0, PAGE)
            && var q := SecondPiece(m, f, start, 3 * PAGE);
            !Conflicts(HalfPlaced(m, f, start), q.start, q.size) && !Ordered(Insert(HalfPlaced(m, f, start), q))
  {
    var m, n := NearTop(), HalfPlaced(NearTop(), f, start);
    NearTopHole();
    hide Insert, HalfPlaced, Ordered, NoWrap, NearTop;
    SecondFillWraps(m, f, start, 3 * PAGE);
    var q := SecondPiece(m, f, start, 3 * PAGE);
    forall i | 0 <= i < |n| ensures !Overlaps(n[i], q.start, q.size) {
      TopRangeOverlapsNothing(n[i], q.start, q.size);
    }
  }

  lemma NearTopHole()
    ensures var m := NearTop();
            && Ordered(m) && |m| == 2 && FirstHole(m, 0) == 0 && Hole(m, 0) == PAGE && !NoWrap(m, 3 * PAGE)
            && m[0].size == WRAP64 - 3 * PAGE && End(m[0]) == WRAP64 - 2 * PAGE && !Conflicts(m, 0, PAGE)
  {
  }

  function NearTop(): seq<Region> {
    [Region(PAGE, WRAP64 - 3 * PAGE, Reserved, Nil, map[]), Region(WRAP64 - PAGE, PAGE, Reserved, Nil, map[])]
  }

  // ----- The steps of the scan

  /** A range right behind the regions before index `k` that ends in front of the next
      one meets no conflict and goes in between. */
  lemma FillHole(m: seq<Region>, k: nat, r: Region)
    requires Ordered(m) && k <= |m| && 0 < r.size
    requires TopBefore(m, k) == r.start && Top(r) <= if k < |m| then m[k].start else WRAP64
    ensures !Conflicts(m, r.start, r.size) && Insert(m, r) == Filled(m, k, r)
  {
    forall i | 0 <= i < |m| ensures !Overlaps(m[i], r.start, r.size) && (m[i].start <= r.start <==> i < k) {
      HoleMisses(m, k, r, i);
    }
    PositionIs(m, r.start, k);
  }

  lemma HoleMisses(m: seq<Region>, k: nat, r: Region, i: nat)
    requires Ordered(m) && k <= |m| && 0 < r.size && i < |m|
    requires TopBefore(m, k) == r.start && Top(r) <= if k < |m| then m[k].start else WRAP64
    ensures !Overlaps(m[i], r.start, r.size) && (m[i].start <= r.start <==> i < k)
  {
    hide Ordered;
    SizesPositive(m, i);
    if i < k - 1 {
      PairInOrder(m, i, k - 1);
      SizesPositive(m, k - 1);
    } else if k < i {
      PairInOrder(m, k, i);
      SizesPositive(m, k);
    }
  }

  function FirstPiece(m: seq<Region>, f: Mmap, start: nat): Region
    requires Ordered(m) && FirstHole(m, 0) < |m|
  {
    var k := FirstHole(m, 0);
    Piece(f, Segment(start, TopBefore(m, k), Hole(m, k)), Hole(m, k))
  }

  /** The map when the first hole is full. */
  function HalfPlaced(m: seq<Region>, f: Mmap, start: nat): seq<Region>
    requires Ordered(m) && FirstHole(m, 0) < |m|
  {
    Filled(m, FirstHole(m, 0), FirstPiece(m, f, start))
  }

  /** The piece placed when the region closing the first hole is met again. */
  function SecondPiece(m: seq<Region>, f: Mmap, start: nat, memory: u64): Region
    requires Ordered(m) && FirstHole(m, 0) < |m| && memory > Hole(m, FirstHole(m, 0))
  {
    var k := FirstHole(m, 0);
    var rest := memory - Hole(m, k);
    var size := if WRAP64 - m[k].size > rest then rest else WRAP64 - m[k].size;
    Piece(f, Segment(start + Hole(m, k), End(m[k]), size), size)
  }

  lemma HalfPlacedShape(m: seq<Region>, f: Mmap, start: nat)
    requires Ordered(m) && FirstHole(m, 0) < |m|
    ensures var k, n := FirstHole(m, 0), HalfPlaced(m, f, start);
            && |n| == |m| + 1 && n[k + 1] == m[k] && n[0].start == 0 && Ordered(n)
            && (k + 1 < |m| ==> n[k + 2] == m[k + 1] && Top(m[k]) <= m[k + 1].start && 0 < m[k + 1].size)
            && 0 < m[k].size && Top(m[k]) <= WRAP64 && TopBefore(m, k) < m[k].start
  {
    hide Ordered;
    var k := FirstHole(m, 0);
    SizesPositive(m, k);
    FilledInOrder(m, k, FirstPiece(m, f, start));
    if k + 1 < |m| { PairInOrder(m, k, k + 1); SizesPositive(m, k + 1); }
  }

  lemma SecondFillFits(m: seq<Region>, f: Mmap, start: nat, memory: u64)
    requires Ordered(m) && FirstHole(m, 0) < |m| && memory > Hole(m, FirstHole(m, 0)) && start <= f.store.Length
    requires NoWrap(m, memory) && Fits(m, memory)
    ensures var q := SecondPiece(m, f, start, memory);
            && !Conflicts(HalfPlaced(m, f, start), q.start, q.size)
            && Insert(HalfPlaced(m, f, start), q) == Placed(m, f, start, memory)
  {
    hide Ordered, Insert, Conflicts, Filled;
    HalfPlacedShape(m, f, start);
    var k, n := FirstHole(m, 0), HalfPlaced(m, f, start);
    var q := SecondPiece(m, f, start, memory);
    FillHole(n, k + 2, q);
    FilledBehind(m, k, FirstPiece(m, f, start), q);
  }

  lemma FilledBehind(m: seq<Region>, k: nat, p: Region, q: Region)
    requires k < |m|
    ensures |Filled(m, k, p)| == |m| + 1
    ensures Filled(Filled(m, k, p), k + 2, q) == m[..k] + [p, m[k], q] + m[k + 1..]
  {
  }

  lemma SecondFillRefused(m: seq<Region>, f: Mmap, start: nat, memory: u64)
    requires Ordered(m) && FirstHole(m, 0) < |m| && memory > Hole(m, FirstHole(m, 0))
    requires NoWrap(m, memory) && !Fits(m, memory)
    ensures var q := SecondPiece(m, f, start, memory); Conflicts(HalfPlaced(m, f, start), q.start, q.size)
  {
    hide Ordered, HalfPlaced;
    HalfPlacedShape(m, f, start);
    var q := SecondPiece(m, f, start, memory);
    assert Overlaps(HalfPlaced(m, f, start)[FirstHole(m, 0) + 2], q.start, q.size);
  }

  lemma SecondFillWraps(m: seq<Region>, f: Mmap, start: nat, memory: u64)
    requires Ordered(m) && FirstHole(m, 0) < |m| && memory > Hole(m, FirstHole(m, 0)) && !NoWrap(m, memory)
    ensures var q := SecondPiece(m, f, start, memory);
            Conflicts(HalfPlaced(m, f, start), q.start, q.size) || !Ordered(Insert(HalfPlaced(m, f, start), q))
  {
    hide Ordered, HalfPlaced, Insert;
    HalfPlacedShape(m, f, start);
    var k, n := FirstHole(m, 0), HalfPlaced(m, f, start);
    var q := SecondPiece(m, f, start, memory);
    if Top(m[k]) == WRAP64 {
      assert Overlaps(n[0], q.start, q.size);
    } else if Top(q) > WRAP64 {
      InsertWrapped(n, q);
    } else {
      InsertClashing(n, q, k + 2);
    }
  }
  /** What the scan remembers: the next index, the map, the memory left to place, where
      it continues in the file, the end of the last region, and the segments recorded. */
  datatype Scan = Scan(i: nat, regions: seq<Region>, memory: u64, start: u64, lastTop: u64, log: seq<Segment>)

  /** The call: the map, the file and what is to be placed. */
  datatype Plan = Plan(m: seq<Region>, f: Mmap, start: u64, memory: u64, log: seq<Segment>)

  predicate Sound(p: Plan) { Ordered(p.m) && p.start <= p.f.store.Length }

  /** The segments that are recorded; a piece behind all regions is not. */
  function Recorded(p: Plan): seq<Segment>
    requires Sound(p) && NoWrap(p.m, p.memory)
  {
    if FirstHole(p.m, 0) == |p.m| then [] else Segments(p.m, p.start, p.memory)
  }

  /** No hole met yet. */
  predicate Scanning(p: Plan, s: Scan) {
    && s.i <= FirstHole(p.m, 0) && s.regions == p.m && s.memory == p.memory && s.start == p.start && s.log == p.log
    && s.lastTop == if TopBefore(p.m, s.i) == WRAP64 then 0 else TopBefore(p.m, s.i)
  }

  /** The first hole is full, and its region is about to be met again. */
  predicate Again(p: Plan, s: Scan)
    requires Sound(p)
  {
    var k := FirstHole(p.m, 0);
    && k < |p.m| && s.i == k + 1 && p.memory > Hole(p.m, k) && s.regions == HalfPlaced(p.m, p.f, p.start)
    && s.memory == p.memory - Hole(p.m, k) && s.start == p.start + Hole(p.m, k) && s.lastTop == End(p.m[k])
    && s.log == p.log + [Segment(p.start, TopBefore(p.m, k), Hole(p.m, k))]
  }

  predicate Done(p: Plan, s: Scan)
    requires Sound(p)
  {
    && NoWrap(p.m, p.memory) && Fits(p.m, p.memory)
    && s.regions == Placed(p.m, p.f, p.start, p.memory) && s.log == p.log + Recorded(p)
  }

  predicate Broken(p: Plan, s: Scan) { !NoWrap(p.m, p.memory) && !Ordered(s.regions) }

  predicate Reached(p: Plan, s: Scan)
    requires Sound(p)
  {
    || Scanning(p, s) || Again(p, s) || Broken(p, s)
    || (Done(p, s) && s.memory == 0 && FirstHole(p.m, 0) < |p.m|)
  }

  function Advance(s: Scan): Scan
    requires s.i < |s.regions|
  {
    s.(i := s.i + 1, lastTop := End(s.regions[s.i]))
  }

  /** The hole taken to be in front of the region at the index. */
  function Gap(s: Scan): u64
    requires s.i < |s.regions|
  {
    var gap := Minus(s.regions[s.i].start, s.lastTop);
    if gap > s.memory then s.memory else gap
  }

  function PutPiece(p: Plan, s: Scan, size: u64): Scan
    requires size <= s.memory && s.start + size < WRAP64
  {
    var seg := Segment(s.start, s.lastTop, size);
    s.(regions := Insert(s.regions, Piece(p.f, seg, size)), memory := s.memory - size, start := s.start + size, log := s.log + [seg])
  }

  lemma StepOver(p: Plan, s: Scan)
    requires Sound(p) && Reached(p, s) && s.i < |s.regions| && s.memory > 0 && s.lastTop == s.regions[s.i].start
    ensures Reached(p, Advance(s))
  {
    hide Ordered, NoWrap, Fits, HalfPlaced;
    if Scanning(p, s) {
      SizesPositive(p.m, s.i);
    } else if Again(p, s) {
      HalfPlacedShape(p.m, p.f, p.start);
    }
  }

  function Next(p: Plan, s: Scan): Scan
    requires s.i < |s.regions| && s.start + Gap(s) < WRAP64
  {
    PutPiece(p, s, Gap(s)).(i := s.i + 1, lastTop := End(s.regions[s.i]))
  }

  lemma GapPositive(s: Scan)
    requires s.i < |s.regions| && s.memory > 0 && s.lastTop != s.regions[s.i].start
    ensures 0 < Gap(s) <= s.memory
  {
  }

  /** The first hole is met. */
  lemma IntoFirst(p: Plan, s: Scan)
    requires Sound(p) && Scanning(p, s) && s.i < |p.m| && s.memory > 0 && s.lastTop != p.m[s.i].start
    requires s.start + Gap(s) < WRAP64
    ensures !Conflicts(s.regions, s.lastTop, Gap(s)) && Reached(p, Next(p, s))
  {
    hide Ordered, Insert, Conflicts, Filled;
    var k := FirstHole(p.m, 0);
    SizesPositive(p.m, s.i);
    if s.i < k { BeforeFirstHole(p.m, 0, s.i); }
    assert s.i == k;
    FillHole(p.m, k, Piece(p.f, Segment(s.start, s.lastTop, Gap(s)), Gap(s)));
    if p.memory <= Hole(p.m, k) {
      assert Done(p, Next(p, s));
    } else {
      assert Again(p, Next(p, s));
    }
  }

  /** Its region is met again. */
  lemma IntoSecond(p: Plan, s: Scan)
    requires Sound(p) && Again(p, s) && s.i < |s.regions| && s.start + Gap(s) < WRAP64
    ensures Conflicts(s.regions, s.lastTop, Gap(s)) ==> !(NoWrap(p.m, p.memory) && Fits(p.m, p.memory))
    ensures !Conflicts(s.regions, s.lastTop, Gap(s)) ==> Reached(p, Next(p, s))
  {
    hide Ordered, Insert, Conflicts, Filled, HalfPlaced;
    HalfPlacedShape(p.m, p.f, p.start);
    var k := FirstHole(p.m, 0);
    var q := SecondPiece(p.m, p.f, p.start, p.memory);
    assert q == Piece(p.f, Segment(s.start, s.lastTop, Gap(s)), Gap(s));
    if !NoWrap(p.m, p.memory) {
      SecondFillWraps(p.m, p.f, p.start, p.memory);
    } else if Fits(p.m, p.memory) {
      SecondFillFits(p.m, p.f, p.start, p.memory);
      var segs := Segments(p.m, p.start, p.memory);
      assert segs == [Segment(p.start, TopBefore(p.m, k), Hole(p.m, k))] + [Segment(s.start, s.lastTop, Gap(s))];
      assert Done(p, Next(p, s));
    } else {
      SecondFillRefused(p.m, p.f, p.start, p.memory);
    }
  }

  lemma StepInto(p: Plan, s: Scan)
    requires Sound(p) && Reached(p, s) && s.i < |s.regions| && s.memory > 0 && s.lastTop != s.regions[s.i].start
    requires s.start + Gap(s) < WRAP64
    ensures Conflicts(s.regions, s.lastTop, Gap(s)) ==> !(NoWrap(p.m, p.memory) && Fits(p.m, p.memory))
    ensures !Conflicts(s.regions, s.lastTop, Gap(s)) ==> Reached(p, Next(p, s))
  {
    hide Ordered, Insert, Conflicts, Scanning, Again, Done, NoWrap, Fits;
    if Scanning(p, s) {
      ScanningIsAtMap(p, s);
      IntoFirst(p, s);
    } else if Again(p, s) {
      IntoSecond(p, s);
    } else {
      InsertKeepsDisorder(s.regions, Piece(p.f, Segment(s.start, s.lastTop, Gap(s)), Gap(s)));
    }
  }

  lemma ScanningIsAtMap(p: Plan, s: Scan)
    requires Scanning(p, s)
    ensures s.regions == p.m
  {
  }

  /** The piece behind all regions, with the whole rest of the file. */
  function Tail(p: Plan, s: Scan): Region
    requires s.start <= p.f.store.Length
  {
    Piece(p.f, Segment(s.start, s.lastTop, s.memory), p.f.store.Length - s.start)
  }

  lemma StepTail(p: Plan, s: Scan)
    requires Sound(p) && Reached(p, s) && s.i >= |s.regions| && s.memory > 0 && s.start <= p.f.store.Length
    ensures Conflicts(s.regions, s.lastTop, s.memory) ==> !(NoWrap(p.m, p.memory) && Fits(p.m, p.memory))
    ensures var t := s.(regions := Insert(s.regions, Tail(p, s)));
            !Conflicts(s.regions, s.lastTop, s.memory) ==> Done(p, t) || Broken(p, t)
  {
    hide Ordered, Insert, Conflicts, HalfPlaced;
    if Scanning(p, s) {
      TailOfScan(p, s);
    } else if Again(p, s) {
      HalfPlacedShape(p.m, p.f, p.start);
      assert false;
    } else {
      InsertKeepsDisorder(s.regions, Tail(p, s));
    }
  }

  lemma TailOfScan(p: Plan, s: Scan)
    requires Sound(p) && Scanning(p, s) && s.i >= |p.m| && s.memory > 0
    ensures Conflicts(p.m, s.lastTop, s.memory) ==> !NoWrap(p.m, p.memory)
    ensures var t := s.(regions := Insert(p.m, Tail(p, s)));
            !Conflicts(p.m, s.lastTop, s.memory) ==> Done(p, t) || Broken(p, t)
  {
    hide Ordered, Insert, Filled;
    if NoWrap(p.m, p.memory) {
      FillHole(p.m, |p.m|, Tail(p, s));
      FilledAtEnd(p.m, Tail(p, s));
    } else if TopBefore(p.m, |p.m|) >= WRAP64 {
      SizesPositive(p.m, |p.m| - 1);
      assert Overlaps(p.m[0], s.lastTop, s.memory) by { BeforeFirstHole(p.m, 0, 0); }
    } else {
      InsertWrapped(p.m, Tail(p, s));
    }
  }

  lemma FilledAtEnd(m: seq<Region>, r: Region)
    ensures Filled(m, |m|, r) == m + [r]
  {
  }
  // ----- Alignment

  predicate Paged(m: seq<Region>) {
    forall i | 0 <= i < |m| :: m[i].start % PAGE == 0 && m[i].size % PAGE == 0
  }

  predicate PagedScan(s: Scan) {
    Paged(s.regions) && s.memory % PAGE == 0 && s.start % PAGE == 0 && s.lastTop % PAGE == 0
  }

  lemma InsertPaged(m: seq<Region>, r: Region)
    requires Paged(m) && r.start % PAGE == 0 && r.size % PAGE == 0
    ensures Paged(Insert(m, r))
  {
    var n, p := Insert(m, r), Position(m, r.start);
    forall i | 0 <= i < |n| ensures n[i].start % PAGE == 0 && n[i].size % PAGE == 0 {
      assert n[i] == if i < p then m[i] else if i == p then r else m[i - 1];
    }
  }

  lemma GapPaged(s: Scan)
    requires PagedScan(s) && s.i < |s.regions|
    ensures Gap(s) % PAGE == 0 && PagedScan(Advance(s))
  {
  }

  lemma NextPaged(p: Plan, s: Scan)
    requires PagedScan(s) && s.i < |s.regions| && s.start + Gap(s) < WRAP64
    ensures PagedScan(Next(p, s))
  {
    hide Insert, Paged;
    GapPaged(s);
    InsertPaged(s.regions, Piece(p.f, Segment(s.start, s.lastTop, Gap(s)), Gap(s)));
  }

  /** Nothing that is asked for is out of line with the pages. */
  predicate Aligned(p: Plan) {
    Paged(p.m) && p.start % PAGE == 0 && p.memory % PAGE == 0 && p.f.base % PAGE == 0
  }

  lemma StartOfScan(p: Plan)
    requires Sound(p)
    ensures Reached(p, Scan(0, p.m, p.memory, p.start, 0, p.log))
    ensures Aligned(p) ==> PagedScan(Scan(0, p.m, p.memory, p.start, 0, p.log))
  {
  }

  /** All memory is placed: the map is in order exactly when nothing wrapped. */
  lemma EndOfScan(p: Plan, s: Scan)
    requires Sound(p) && ((Reached(p, s) && s.memory == 0) || Done(p, s) || Broken(p, s))
    ensures Ordered(s.regions) <==> NoWrap(p.m, p.memory)
    ensures NoWrap(p.m, p.memory) ==> Done(p, s)
  {
    hide Ordered;
    if Done(p, s) {
      PlacedConserves(p.m, p.f, p.start, p.memory);
    } else if Scanning(p, s) {
      if FirstHole(p.m, 0) < |p.m| {
        SizesPositive(p.m, FirstHole(p.m, 0));
      } else if |p.m| > 0 {
        SizesPositive(p.m, |p.m| - 1);
      }
    }
  }

  class UserMemory {
    var segments: seq<Segment>
    const file: Mmap

    constructor (f: Mmap)
      ensures file == f && segments == []
    {
      file := f;
      segments := [];
    }

    /** Reserve a piece of guest memory and record it. */
    method PlacePiece(model: MemoryMap, at: u64, size: u64, start: u64, maps: (u64, u64) -> bool) returns (r: Result)
      requires size > 0
      modifies model, this`segments
      ensures r.Panic? <==> start + size >= WRAP64 || start + size > file.store.Length
      ensures r.Unaligned? ==> at % PAGE != 0 || size % PAGE != 0 || (file.base + start) % PAGE != 0
      ensures r.Conflict? ==> Conflicts(old(model.regions), at, size)
      ensures r.Ok? ==>
                && !Conflicts(old(model.regions), at, size)
                && model.regions == Insert(old(model.regions), Piece(file, Segment(start, at, size), size))
                && segments == old(segments) + [Segment(start, at, size)]
      ensures if r.Ok? then maps(at, size) else r.MapFailed? ==> !maps(at, size)
    {
      if start + size >= WRAP64 || start + size > file.store.Length { return Panic; }
      r := model.Reserve(User, at, size, Slice(file.store, start, size, file.base + start), maps);
      if r.Ok? { segments := segments + [Segment(start, at, size)]; }
    }

    /** Place `memory` bytes of the file from `start` in guest memory.

        Without wrapping, success means exactly that the memory fits in the first hole
        and behind the region that closes it, and that the hypervisor maps the pieces;
        and a successful call leaves the map in order exactly when nothing wrapped. */
    method Layout(model: MemoryMap, start: u64, memory: u64, maps: (u64, u64) -> bool) returns (r: Result)
      requires Ordered(model.regions) && start <= file.store.Length
      modifies model, this`segments
      ensures r.Ok? ==> (Ordered(model.regions) <==> NoWrap(old(model.regions), memory))
      ensures r.Ok? && NoWrap(old(model.regions), memory) ==>
                && Fits(old(model.regions), memory)
                && model.regions == Placed(old(model.regions), file, start, memory)
                && segments == old(segments) + Recorded(Plan(old(model.regions), file, start, memory, old(segments)))
      ensures r.Conflict? ==> !(NoWrap(old(model.regions), memory) && Fits(old(model.regions), memory))
      ensures r.Panic? ==> start + memory > file.store.Length || start + memory >= WRAP64
      ensures r.Unaligned? ==> !Aligned(Plan(old(model.regions), file, start, memory, old(segments)))
      ensures NoWrap(old(model.regions), memory) && Fits(old(model.regions), memory)
              && start + memory <= file.store.Length && start + memory < WRAP64
              && Aligned(Plan(old(model.regions), file, start, memory, old(segments))) ==>
                (r.Ok? <==> forall s | s in Segments(old(model.regions), start, memory) :: maps(s.start, s.size))
    {
      hide Reached, Ordered, Insert, Conflicts, NoWrap, Fits, Placed, Recorded, PagedScan, Broken, Aligned, Segments;
      ghost var p := Plan(model.regions, file, start, memory, segments);
      var left: u64, at: u64, lastTop: u64, i := memory, start, 0, 0;
      StartOfScan(p);
      while i < |model.regions| && left > 0
        invariant Reached(p, Scan(i, model.regions, left, at, lastTop, segments))
        invariant Aligned(p) ==> PagedScan(Scan(i, model.regions, left, at, lastTop, segments))
        invariant at + left == start + memory && at <= file.store.Length
        invariant MappedSince(p.log, segments, maps)
        decreases left, |model.regions| - i
      {
        ghost var s := Scan(i, model.regions, left, at, lastTop, segments);
        var region := model.regions[i];
        if lastTop != region.start {
          var gap := Minus(region.start, lastTop);
          if gap > left { gap := left; }
          ScanStep(p, s, gap);
          if NoWrap(p.m, p.memory) && Fits(p.m, p.memory) { PieceIsPlanned(p, s); }
          r := PlacePiece(model, lastTop, gap, at, maps);
          if !r.Ok? { return; }
          left, at := left - gap, at + gap;
        } else {
          StepOver(p, s);
          if Aligned(p) { GapPaged(s); }
        }
        lastTop := End(region);
        i := i + 1;
      }
      ghost var s := Scan(i, model.regions, left, at, lastTop, segments);
      if NoWrap(p.m, p.memory) && Fits(p.m, p.memory) && left > 0 { TailIsPlanned(p, s); }
      r := PlaceTail(model, p, i, left, at, lastTop, maps);
      if r.Ok? && NoWrap(p.m, p.memory) { AllAreMapped(p, s, segments, maps); }
    }

    /** What is left goes behind the last region, and is not recorded. */
    method PlaceTail(model: MemoryMap, ghost p: Plan, ghost i: nat, left: u64, at: u64, lastTop: u64,
                     maps: (u64, u64) -> bool) returns (r: Result)
      requires p.f == file && Sound(p) && at <= file.store.Length && (i < |model.regions| ==> left == 0)
      requires Reached(p, Scan(i, model.regions, left, at, lastTop, segments))
      requires Aligned(p) ==> PagedScan(Scan(i, model.regions, left, at, lastTop, segments))
      modifies model
      ensures r.Ok? ==> (Ordered(model.regions) <==> NoWrap(p.m, p.memory))
      ensures r.Ok? && NoWrap(p.m, p.memory) ==> Done(p, Scan(i, model.regions, left, at, lastTop, segments))
      ensures r.Conflict? ==> !(NoWrap(p.m, p.memory) && Fits(p.m, p.memory))
      ensures r.Panic? ==> left > 0 && at == file.store.Length
      ensures r.Unaligned? ==> !Aligned(p)
      ensures r.MapFailed? ==> left > 0 && !maps(lastTop, left)
      ensures r.Ok? && left > 0 ==> maps(lastTop, left)
    {
      hide Reached, Ordered, Insert, Conflicts, NoWrap, Fits, Done, Broken;
      ghost var s := Scan(i, model.regions, left, at, lastTop, segments);
      if left > 0 {
        StepTail(p, s);
        r := model.Reserve(User, lastTop, left, Slice(file.store, at, file.store.Length - at, file.base + at), maps);
        if !r.Ok? { return; }
      }
      r := Ok;
      EndOfScan(p, Scan(i, model.regions, left, at, lastTop, segments));
    }
  }

  /** The segments recorded since `log` are all mapped. */
  ghost predicate MappedSince(log: seq<Segment>, now: seq<Segment>, maps: (u64, u64) -> bool) {
    log <= now && forall i | |log| <= i < |now| :: maps(now[i].start, now[i].size)
  }

  /** The piece about to be placed is one of those planned. */
  lemma PieceIsPlanned(p: Plan, s: Scan)
    requires Sound(p) && Reached(p, s) && s.i < |s.regions| && s.memory > 0 && s.lastTop != s.regions[s.i].start
    requires NoWrap(p.m, p.memory) && Fits(p.m, p.memory)
    ensures Segment(s.start, s.lastTop, Gap(s)) in Segments(p.m, p.start, p.memory)
  {
    hide Ordered, Filled, Insert, HalfPlaced, Placed;
    var k, segs := FirstHole(p.m, 0), Segments(p.m, p.start, p.memory);
    if Scanning(p, s) {
      SizesPositive(p.m, s.i);
      if s.i < k { BeforeFirstHole(p.m, 0, s.i); }
      assert Segment(s.start, s.lastTop, Gap(s)) == segs[0];
    } else {
      HalfPlacedShape(p.m, p.f, p.start);
      assert Segment(s.start, s.lastTop, Gap(s)) == segs[1];
    }
  }

  lemma TailIsPlanned(p: Plan, s: Scan)
    requires Sound(p) && Reached(p, s) && s.i >= |s.regions| && s.memory > 0 && NoWrap(p.m, p.memory)
    ensures Segments(p.m, p.start, p.memory) == [Segment(s.start, s.lastTop, s.memory)]
  {
  }

  lemma AllAreMapped(p: Plan, s: Scan, log: seq<Segment>, maps: (u64, u64) -> bool)
    requires Sound(p) && Reached(p, s) && NoWrap(p.m, p.memory) && s.log == log && MappedSince(p.log, log, maps)
    requires (s.i < |s.regions| ==> s.memory == 0) && (s.memory > 0 ==> maps(s.lastTop, s.memory))
    ensures forall g | g in Segments(p.m, p.start, p.memory) :: maps(g.start, g.size)
  {
    hide Ordered, Filled, Insert, HalfPlaced, Placed;
    var segs := Segments(p.m, p.start, p.memory);
    if Scanning(p, s) {
      if s.memory > 0 { TailIsPlanned(p, s); }
    } else if Again(p, s) {
      HalfPlacedShape(p.m, p.f, p.start);
      assert false;
    } else {
      forall j | 0 <= j < |segs| ensures maps(segs[j].start, segs[j].size) {
        assert segs[j] == log[|p.log| + j];
      }
    }
  }

  lemma ScanStep(p: Plan, s: Scan, gap: u64)
    requires Sound(p) && Reached(p, s) && s.i < |s.regions| && s.memory > 0 && s.lastTop != s.regions[s.i].start
    requires gap == Gap(s) && (Aligned(p) ==> PagedScan(s))
    ensures 0 < gap <= s.memory
    ensures s.start + gap < WRAP64 && Conflicts(s.regions, s.lastTop, gap) ==> !(NoWrap(p.m, p.memory) && Fits(p.m, p.memory))
    ensures s.start + gap < WRAP64 && !Conflicts(s.regions, s.lastTop, gap) ==> Reached(p, Next(p, s))
    ensures Aligned(p) ==> gap % PAGE == 0 && s.lastTop % PAGE == 0 && (p.f.base + s.start) % PAGE == 0
    ensures s.start + gap < WRAP64 && Aligned(p) ==> PagedScan(Next(p, s))
  {
    hide Reached, Ordered, Insert, Conflicts, NoWrap, Fits;
    GapPositive(s);
    if s.start + gap < WRAP64 { StepInto(p, s); }
    if Aligned(p) {
      GapPaged(s);
      if s.start + gap < WRAP64 { NextPaged(p, s); }
    }
  }
}
