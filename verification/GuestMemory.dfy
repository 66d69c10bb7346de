/**
 The memory map of a machine (machine/memory.go): reserving regions, and handing out
 chunks of them to the loaders.
 */
module GuestMemory {
  import opened Words
  import opened Regions

  datatype Result = Ok | Unaligned | Conflict | MapFailed | Panic

  datatype Mapping = Mapped(user: Backing) | Taken | NotMapped | BadSlice

  datatype Allocation =
    | Allocated(addr: u64, user: Backing)
    | NoRoom
    | Faulted          // host memory was too short for the chunk
    | Wrapped          // the next step leaves the address space

  // ----- Chunks

  /** Chunks lie in their region and apart from each other. */
  predicate Chunked(r: Region) {
    && (forall o | o in r.chunks :: o + r.chunks[o] <= r.size)
    && (forall o, p | o in r.chunks && p in r.chunks && o < p :: o + r.chunks[o] <= p)
  }

  /** The test for a chunk in the way of `size` bytes at offset `at`. */
  predicate InTheWay(o: u64, n: u64, at: u64, size: u64) {
    || o <= at < After(o, n)
    || (After(at, size) >= o && at < o)
  }

  predicate Clashes(r: Region, at: u64, size: u64) {
    exists o | o in r.chunks :: InTheWay(o, r.chunks[o], at, size)
  }

  function Marked(r: Region, at: u64, size: u64): Region { r.(chunks := r.chunks[at := size]) }

  /** A chunk that is granted keeps the region chunked exactly when it lies in it. */
  lemma MarkedStaysChunked(r: Region, at: u64, size: u64)
    requires Chunked(r) && !Clashes(r, at, size)
    ensures Chunked(Marked(r, at, size)) <==> at + size <= r.size
  {
    var m := Marked(r, at, size);
    assert m.chunks[at] == size;
    if at + size <= r.size {
      forall o, p | o in m.chunks && p in m.chunks && o < p ensures o + m.chunks[o] <= p {
        assert o != at ==> !InTheWay(o, r.chunks[o], at, size);
        assert p != at ==> !InTheWay(p, r.chunks[p], at, size);
      }
    }
  }

  /** A range accepted as contained lies in the region exactly when it ends below 2^64,
      or at 2^64 together with the region. */
  lemma ContainedIsInside(r: Region, addr: u64, size: u64)
    requires Contains(r, addr, size) && Top(r) <= WRAP64
    ensures addr - r.start + size <= r.size <==> addr + size < WRAP64 || addr + size == WRAP64 == Top(r)
  {
  }

  lemma ContainedStart(r: Region, addr: u64, size: u64)
    requires Contains(r, addr, size)
    ensures r.start <= addr
  {
  }

  // ----- Grants in terms of bytes

  /** The range and the chunk have a byte in common. */
  ghost predicate ShareByte(o: nat, n: nat, at: nat, size: nat) { exists x :: IsByteOf(x, o, n) && IsByteOf(x, at, size) }

  predicate IsByteOf(x: int, lo: nat, n: nat) { lo <= x < lo + n }

  /** A chunk keeps a range from being granted if they share a byte, if the chunk begins
      exactly where the range ends, or if it is empty and begins inside the range. */
  ghost predicate Keeps(o: nat, n: nat, at: nat, size: nat) {
    ShareByte(o, n, at, size) || o == at + size || (n == 0 && at < o < at + size)
  }

  lemma InTheWayExactly(o: u64, n: u64, at: u64, size: u64)
    requires o + n < WRAP64 && at + size < WRAP64 && 0 < size
    ensures InTheWay(o, n, at, size) <==> Keeps(o, n, at, size)
  {
    if InTheWay(o, n, at, size) && o != at + size && !(n == 0 && at < o < at + size) {
      var x := if o <= at then at else o;
      assert IsByteOf(x, o, n) && IsByteOf(x, at, size);
    }
  }

  /** A range in a region is refused if and only if one of the chunks keeps it from being
      granted. */
  lemma ClashesExactly(r: Region, at: u64, size: u64)
    requires Chunked(r) && 0 < size && at + size <= r.size
    ensures Clashes(r, at, size) <==> exists o | o in r.chunks :: Keeps(o, r.chunks[o], at, size)
  {
    hide InTheWay, Keeps;
    forall o | o in r.chunks ensures InTheWay(o, r.chunks[o], at, size) <==> Keeps(o, r.chunks[o], at, size) {
      InTheWayExactly(o, r.chunks[o], at, size);
    }
  }

  /** Below 2^64 a region contains a range if and only if every byte of the range is one of
      its own and it does not itself end at 2^64. */
  lemma ContainsExactly(r: Region, addr: u64, size: u64)
    requires 0 < size && addr + size < WRAP64 && Top(r) <= WRAP64
    ensures Contains(r, addr, size) <==> Top(r) < WRAP64 && forall x | addr <= x < addr + size :: InRegion(r, x)
  {
    if Top(r) < WRAP64 && forall x | addr <= x < addr + size :: InRegion(r, x) {
      assert InRegion(r, addr) && InRegion(r, addr + size - 1);
    }
  }

  predicate InRegion(r: Region, x: nat) { r.start <= x < Top(r) }

  /** The region is of the kind, ends below 2^64 and has all bytes of the range. */
  ghost predicate HasRange(r: Region, kind: Kind, addr: u64, size: u64) {
    r.kind == kind && Top(r) < WRAP64 && forall x | addr <= x < addr + size :: InRegion(r, x)
  }

  /** A range is granted if and only if there is a region that has it, and no chunk of the
      first such region keeps it. */
  lemma GrantsExactly(m: seq<Region>, kind: Kind, addr: u64, size: u64)
    requires AllChunked(m) && Backed(m) && 0 < size && addr + size < WRAP64
    ensures Grants(m, kind, addr, size) <==>
            exists i | 0 <= i < |m| ::
              && HasRange(m[i], kind, addr, size) && (forall j | 0 <= j < i :: !HasRange(m[j], kind, addr, size))
              && m[i].start <= addr
              && !exists o | o in m[i].chunks :: Keeps(o, m[i].chunks[o], addr - m[i].start, size)
  {
    hide Clashes, Keeps, Chunked, HasRange, AllChunked, Contains;
    var h := Home(m, kind, addr, size);
    forall i | 0 <= i < |m| ensures HasRange(m[i], kind, addr, size) <==> Contains(m[i], addr, size) && m[i].kind == kind {
      HasRangeIsContains(m, i, kind, addr, size);
    }
    if h < |m| {
      RangeFits(m, h, kind, addr, size);
      ClashesExactly(m[h], addr - m[h].start, size);
    }
  }

  lemma HasRangeIsContains(m: seq<Region>, i: nat, kind: Kind, addr: u64, size: u64)
    requires Backed(m) && i < |m| && 0 < size && addr + size < WRAP64
    ensures HasRange(m[i], kind, addr, size) <==> Contains(m[i], addr, size) && m[i].kind == kind
  {
    hide Apart;
    assert BackedOne(m[i]);
    ContainsExactly(m[i], addr, size);
  }

  lemma RangeFits(m: seq<Region>, i: nat, kind: Kind, addr: u64, size: u64)
    requires AllChunked(m) && i < |m| && 0 < size && HasRange(m[i], kind, addr, size)
    ensures Chunked(m[i]) && m[i].start <= addr && addr - m[i].start + size <= m[i].size
  {
    assert InRegion(m[i], addr) && InRegion(m[i], addr + size - 1);
  }

  /** The first region of a kind that contains a range. */
  function Home(m: seq<Region>, kind: Kind, addr: u64, size: u64): (i: nat)
    ensures i <= |m| && (i < |m| ==> Contains(m[i], addr, size) && m[i].kind == kind)
    ensures forall j | 0 <= j < i :: !(Contains(m[j], addr, size) && m[j].kind == kind)
  {
    if m == [] || (Contains(m[0], addr, size) && m[0].kind == kind) then 0
    else 1 + Home(m[1..], kind, addr, size)
  }

  /** Whether a range would be granted. */
  predicate Grants(m: seq<Region>, kind: Kind, addr: u64, size: u64) {
    var i := Home(m, kind, addr, size);
    i < |m| && !Clashes(m[i], addr - m[i].start, size)
  }

  function Granted(m: seq<Region>, kind: Kind, addr: u64, size: u64): (g: seq<Region>)
    requires Grants(m, kind, addr, size)
    ensures |g| == |m|
  {
    var i := Home(m, kind, addr, size);
    m[i := Marked(m[i], addr - m[i].start, size)]
  }

  /** The part of a region's host memory.  A slice of a slice may reach past its end, as
      far as the memory below it goes. */
  function SliceOf(r: Region, at: u64, size: u64): Mapping {
    if r.user.Nil? then Mapped(Nil)
    else if at <= After(at, size) && r.user.lo + After(at, size) <= r.user.store.Length then
      Mapped(Slice(r.user.store, r.user.lo + at, size, r.user.addr + at))
    else BadSlice
  }

  predicate AllChunked(m: seq<Region>) { forall i | 0 <= i < |m| :: Chunked(m[i]) }

  /** Host memory: every slice covers its region, and no byte stands behind two. */
  ghost predicate Backed(m: seq<Region>) {
    && (forall i | 0 <= i < |m| :: BackedOne(m[i]))
    && (forall i, j | 0 <= i < j < |m| :: Apart(m[i], m[j]))
  }

  ghost predicate BackedOne(r: Region) {
    && 0 < r.size && Top(r) <= WRAP64
    && (r.kind.User? ==> r.user.Slice?)
    && (r.user.Slice? ==> r.size <= r.user.len && r.user.lo + r.user.len <= r.user.store.Length)
  }

  ghost predicate Apart(r: Region, s: Region) {
    r.user.Slice? && s.user.Slice? && r.user.store == s.user.store ==>
      r.user.lo + r.size <= s.user.lo || s.user.lo + s.size <= r.user.lo
  }

  predicate OnStep(start: int, a: int) { (a - start) % PAGE == 0 }

  /** Regions of the kind all have host memory. */
  predicate HasMemory(m: seq<Region>, kind: Kind) {
    forall i | 0 <= i < |m| :: m[i].kind == kind ==> m[i].user.Slice?
  }

  /** A grant that ends below 2^64 is a range of its region and of the memory behind it. */
  lemma GrantIsInside(m: seq<Region>, kind: Kind, addr: u64, size: u64)
    requires Backed(m) && Grants(m, kind, addr, size) && addr + size < WRAP64
    ensures var r := m[Home(m, kind, addr, size)];
            r.start <= addr && addr - r.start + size <= r.size && SliceOf(r, addr - r.start, size) != BadSlice
  {
    hide Clashes, Apart;
    var i := Home(m, kind, addr, size);
    assert BackedOne(m[i]);
    ContainedIsInside(m[i], addr, size);
  }

  /** Without the bound a page far outside the only region is granted. */
  lemma WrappedGrant(store: array<u8>) returns (m: seq<Region>)
    requires store.Length == PAGE
    ensures AllChunked(m) && Backed(m) && Grants(m, User, WRAP64 - PAGE, PAGE)
    ensures !AllChunked(Granted(m, User, WRAP64 - PAGE, PAGE))
  {
    m := [Region(0, PAGE, User, Slice(store, 0, PAGE, 0), map[])];
    MarkedStaysChunked(m[0], WRAP64 - PAGE, PAGE);
    assert Granted(m, User, WRAP64 - PAGE, PAGE)[0] == Marked(m[0], WRAP64 - PAGE, PAGE);
  }

  /** Such a grant keeps every chunk in place. */
  lemma GrantKeepsChunks(m: seq<Region>, kind: Kind, addr: u64, size: u64)
    requires AllChunked(m) && Backed(m) && Grants(m, kind, addr, size) && addr + size < WRAP64
    ensures AllChunked(Granted(m, kind, addr, size)) && Backed(Granted(m, kind, addr, size))
  {
    hide Clashes, Apart, Contains, Chunked, BackedOne, Home;
    var i := Home(m, kind, addr, size);
    GrantIsInside(m, kind, addr, size);
    MarkedStaysChunked(m[i], addr - m[i].start, size);
    ReplaceKeepsBacked(m, i, Marked(m[i], addr - m[i].start, size));
  }

  lemma ReplaceKeepsBacked(m: seq<Region>, i: nat, r: Region)
    requires Backed(m) && i < |m| && r == m[i].(chunks := r.chunks)
    ensures Backed(m[i := r])
  {
    var g := m[i := r];
    forall j, k | 0 <= j < k < |m| ensures Apart(g[j], g[k]) {
      assert Apart(m[j], m[k]);
    }
  }

  /** Host bytes [lo, lo + n) of both stores have nothing in common. */
  ghost predicate Disjoint(s: array<u8>, lo: nat, n: nat, s': array<u8>, lo': nat, n': nat) {
    s != s' || lo + n <= lo' || lo' + n' <= lo
  }

  /** Two chunks have no host byte in common. */
  lemma ChunksApart(m: seq<Region>, i: nat, at: u64, j: nat, bt: u64)
    requires AllChunked(m) && Backed(m) && i < |m| && j < |m| && (i != j || at != bt)
    requires m[i].user.Slice? && m[j].user.Slice? && at in m[i].chunks && bt in m[j].chunks
    ensures Disjoint(m[i].user.store, m[i].user.lo + at, m[i].chunks[at],
                     m[j].user.store, m[j].user.lo + bt, m[j].chunks[bt])
  {
    hide BackedOne;
    assert Chunked(m[i]) && Chunked(m[j]);
    if i != j { assert Apart(m[if i < j then i else j], m[if i < j then j else i]); }
  }

  /** A grant leaves the chunks there were, and none of its bytes belongs to one. */
  lemma GrantAvoidsChunks(m: seq<Region>, kind: Kind, addr: u64, size: u64, i: nat, at: u64)
    requires AllChunked(m) && Backed(m) && Grants(m, kind, addr, size) && addr + size < WRAP64
    requires i < |m| && m[i].user.Slice? && at in m[i].chunks && m[i].chunks[at] > 0
    requires m[Home(m, kind, addr, size)].user.Slice?
    ensures var h := m[Home(m, kind, addr, size)];
            var g := Granted(m, kind, addr, size);
            && at in g[i].chunks && g[i] == m[i].(chunks := g[i].chunks) && g[i].chunks[at] == m[i].chunks[at]
            && !(i == Home(m, kind, addr, size) && at == addr - h.start)
            && Disjoint(m[i].user.store, m[i].user.lo + at, m[i].chunks[at],
                        h.user.store, h.user.lo + addr - h.start, size)
  {
    hide Contains, Backed, AllChunked, Chunked, Disjoint;
    ChunkFits(m, i, at);
    assert InTheWay(at, m[i].chunks[at], at, size);
    var k := Home(m, kind, addr, size);
    GrantIsInside(m, kind, addr, size);
    GrantKeepsChunks(m, kind, addr, size);
    var at': u64 := addr - m[k].start;
    ChunksApart(Granted(m, kind, addr, size), i, at, k, at');
  }

  lemma ChunkFits(m: seq<Region>, i: nat, at: u64)
    requires AllChunked(m) && i < |m| && at in m[i].chunks
    ensures at + m[i].chunks[at] <= m[i].size
  {
    assert Chunked(m[i]);
  }

  lemma StepGap(start: int, a: int, b: int)
    requires (a - start) % PAGE == 0 && (b - start) % PAGE == 0 && a < b
    ensures a + PAGE <= b
  {
  }

  /** What an attempt at one address comes to. */
  ghost predicate Answers(m: seq<Region>, m': seq<Region>, kind: Kind, a: u64, size: u64, r: Allocation) {
    if !Grants(m, kind, a, size) then r.NoRoom? && m' == m
    else
      && m' == Granted(m, kind, a, size)
      && match GrantedMemory(m, kind, a, size)
         case Mapped(user) => user.Slice? && r == Allocated(a, user)
         case _ => r.Faulted?
  }

  /** The address found is the first page step in the direction of the search at which
      a range is granted, and it is granted there; without one nothing changes. */
  ghost predicate FirstFit(m: seq<Region>, m': seq<Region>, kind: Kind, start: u64, end: u64, size: u64, top: bool,
                           r: Allocation) {
    match r
    case Allocated(addr, _) =>
      && start <= addr <= end && OnStep(if top then end else start, addr)
      && Grants(m, kind, addr, size) && Answers(m, m', kind, addr, size, r)
      && (if top then NoneGranted(m, kind, addr + 1, end, size, end) else NoneGranted(m, kind, start, addr - 1, size, start))
    case NoRoom => m' == m && NoneGranted(m, kind, start, end, size, if top then end else start)
    case Wrapped => m' == m && NoneGranted(m, kind, start, end, size, if top then end else start)
    case Faulted => true
  }

  /** Nothing but chunks has changed. */
  ghost predicate SameRegions(m: seq<Region>, m': seq<Region>) {
    |m'| == |m| && forall i | 0 <= i < |m| :: m'[i] == m[i].(chunks := m'[i].chunks)
  }

  /** No page step of `origin` in a range of addresses is granted. */
  ghost predicate NoneGranted(m: seq<Region>, kind: Kind, first: int, last: int, size: u64, origin: u64) {
    forall b: u64 | first <= b <= last && OnStep(origin, b) :: !Grants(m, kind, b, size)
  }

  lemma NoneOfFewer(m: seq<Region>, kind: Kind, first: int, last: int, size: u64, origin: u64, first': int, last': int)
    requires NoneGranted(m, kind, first, last, size, origin) && first <= first' && last' <= last
    ensures NoneGranted(m, kind, first', last', size, origin)
  {
  }

  lemma NoneInNothing(m: seq<Region>, kind: Kind, start: u64, end: u64, size: u64)
    ensures NoneGranted(m, kind, start, start - 1, size, start) && NoneGranted(m, kind, end + 1, end, size, end)
  {
  }

  /** One more step passed on the way up; past the last of them there is none. */
  lemma NextStepUp(m: seq<Region>, kind: Kind, start: u64, a: u64, end: u64, size: u64)
    requires NoneGranted(m, kind, start, a - 1, size, start) && OnStep(start, a) && !Grants(m, kind, a, size)
    ensures NoneGranted(m, kind, start, a + PAGE - 1, size, start)
    ensures a + PAGE > end ==> NoneGranted(m, kind, start, end, size, start)
  {
    hide Grants;
    forall b: u64 | start <= b <= a + PAGE - 1 && OnStep(start, b) ensures !Grants(m, kind, b, size) {
      if a < b { StepGap(start, a, b); }
    }
  }

  lemma NextStepDown(m: seq<Region>, kind: Kind, start: u64, a: u64, end: u64, size: u64)
    requires NoneGranted(m, kind, a + 1, end, size, end) && OnStep(end, a) && !Grants(m, kind, a, size)
    ensures NoneGranted(m, kind, a - PAGE + 1, end, size, end)
    ensures a < start + PAGE ==> NoneGranted(m, kind, start, end, size, end)
  {
    hide Grants;
    forall b: u64 | a - PAGE + 1 <= b <= end && OnStep(end, b) ensures !Grants(m, kind, b, size) {
      if b < a { StepGap(end, b, a); }
    }
  }

  class MemoryMap {
    var regions: seq<Region>

    ghost predicate Valid()
      reads this
    {
      AllChunked(regions) && Backed(regions)
    }

    ghost function Stores(): set<array<u8>>
      reads this
    {
      StoresOf(regions)
    }

    constructor ()
      ensures Valid() && regions == []
    {
      regions := [];
    }

    // ----- Regions

    method Conflicting(start: u64, size: u64) returns (c: bool)
      ensures c <==> Conflicts(regions, start, size)
    {
      for i := 0 to |regions|
        invariant forall j | 0 <= j < i :: !Overlaps(regions[j], start, size)
      {
        if Overlaps(regions[i], start, size) { return true; }
      }
      return false;
    }

    method Add(r: Region) returns (ok: bool)
      modifies this
      ensures ok <==> !Conflicts(old(regions), r.start, r.size)
      ensures regions == if ok then Insert(old(regions), r) else old(regions)
    {
      var c := Conflicting(r.start, r.size);
      if c { return false; }
      regions := Insert(regions, r);
      return true;
    }

    /** A region stays listed when the hypervisor refuses to map it; `maps` says which
        ranges it maps. */
    method Reserve(kind: Kind, start: u64, size: u64, user: Backing, maps: (u64, u64) -> bool) returns (r: Result)
      modifies this
      ensures r.Unaligned? <==>
              start % PAGE != 0 || size % PAGE != 0 || (user.Slice? && user.len > 0 && user.addr % PAGE != 0)
      ensures r.Panic? <==> start % PAGE == 0 && size % PAGE == 0 && user.Slice? && user.len == 0
      ensures r.Conflict? ==> Conflicts(old(regions), start, size)
      ensures r.Ok? || r.MapFailed? ==>
                !Conflicts(old(regions), start, size)
                && regions == Insert(old(regions), Region(start, size, kind, user, map[]))
      ensures !r.Ok? && !r.MapFailed? ==> regions == old(regions)
      ensures r.MapFailed? ==> !kind.Reserved? && !maps(start, size)
      ensures r.Ok? ==> kind.Reserved? || maps(start, size)
    {
      if start % PAGE != 0 || size % PAGE != 0 { return Unaligned; }
      if user.Slice? {
        if user.len == 0 { return Panic; }
        if user.addr % PAGE != 0 { return Unaligned; }
      }
      var ok := Add(Region(start, size, kind, user, map[]));
      if !ok { return Conflict; }
      return if kind.Reserved? || maps(start, size) then Ok else MapFailed;
    }

    // ----- Chunks

    /** The scan of the chunks of a region, in the order of a hash table. */
    static method InUse(r: Region, at: u64, size: u64) returns (c: bool)
      ensures c <==> Clashes(r, at, size)
    {
      var todo := r.chunks.Keys;
      while todo != {}
        invariant todo <= r.chunks.Keys
        invariant forall o | o in r.chunks && o !in todo :: !InTheWay(o, r.chunks[o], at, size)
        decreases |todo|
      {
        var o :| o in todo;
        todo := todo - {o};
        if InTheWay(o, r.chunks[o], at, size) { return true; }
      }
      return false;
    }

    /** Find the host memory of a range, and mark it as used if `allocate`. */
    method Map(kind: Kind, addr: u64, size: u64, allocate: bool) returns (r: Mapping)
      modifies this
      ensures var m := old(regions);
              var i := Home(m, kind, addr, size);
              if i == |m| then r.NotMapped? && regions == m
              else if allocate && !Grants(m, kind, addr, size) then r.Taken? && regions == m
              else r == SliceOf(m[i], addr - m[i].start, size)
                   && regions == if allocate then Granted(m, kind, addr, size) else m
      ensures SameRegions(old(regions), regions)
    {
      hide Contains, Clashes, SliceOf;
      for i := 0 to |regions|
        invariant regions == old(regions)
        invariant forall j | 0 <= j < i :: !(Contains(regions[j], addr, size) && regions[j].kind == kind)
      {
        var region := regions[i];
        if Contains(region, addr, size) && region.kind == kind {
          assert Home(regions, kind, addr, size) == i;
          ContainedStart(region, addr, size);
          var at: u64 := addr - region.start;
          if allocate {
            var used := InUse(region, at, size);
            if used { return Taken; }
            regions := regions[i := Marked(region, at, size)];
          }
          return SliceOf(region, at, size);
        }
      }
      return NotMapped;
    }

    /** Map a range for allocation and look whether memory came back. */
    method Probe(kind: Kind, a: u64, size: u64) returns (r: Allocation)
      modifies this
      ensures !r.Wrapped? && (r.Allocated? ==> r.addr == a)
      ensures SameRegions(old(regions), regions)
      ensures a + size < WRAP64 && old(Valid()) ==> Valid() && !r.Faulted?
      ensures HasMemory(old(regions), kind) ==> Answers(old(regions), regions, kind, a, size, r)
    {
      hide Backed, AllChunked, InTheWay;
      if Grants(regions, kind, a, size) && a + size < WRAP64 && Valid() {
        GrantKeepsChunks(regions, kind, a, size);
        GrantIsInside(regions, kind, a, size);
      }
      var mapping := Map(kind, a, size, true);
      if mapping.BadSlice? { return Faulted; }
      return if mapping.Mapped? && mapping.user.Slice? then Allocated(a, mapping.user) else NoRoom;
    }

    /** Take the lowest page step from `start` to `end` at which a range is free. */
    method AllocateUp(kind: Kind, start: u64, end: u64, size: u64) returns (r: Allocation)
      requires Valid()
      modifies this
      ensures SameRegions(old(regions), regions)
      ensures end + size < WRAP64 ==> Valid() && !r.Faulted?
      ensures HasMemory(old(regions), kind) ==> FirstFit(old(regions), regions, kind, start, end, size, false, r)
      ensures r.Wrapped? ==> end + PAGE >= WRAP64
    {
      hide Backed, AllChunked, SliceOf, Granted, Grants, NoneGranted;
      NoneInNothing(regions, kind, start, end, size);
      var a := start;
      while a <= end
        invariant start <= a && OnStep(start, a)
        invariant SameRegions(old(regions), regions)
        invariant end + size < WRAP64 ==> Valid()
        invariant HasMemory(old(regions), kind) ==> regions == old(regions)
        invariant HasMemory(old(regions), kind) ==> NoneGranted(old(regions), kind, start, a - 1, size, start)
        decreases end + PAGE - a
      {
        r := Probe(kind, a, size);
        if !r.NoRoom? { return; }
        if HasMemory(old(regions), kind) { NextStepUp(old(regions), kind, start, a, end, size); }
        if a + PAGE >= WRAP64 { return Wrapped; }
        a := a + PAGE;
      }
      if HasMemory(old(regions), kind) { NoneOfFewer(old(regions), kind, start, a - 1, size, start, start, end); }
      return NoRoom;
    }

    /** Take the highest page step down from `end` to `start` at which a range is free. */
    method AllocateDown(kind: Kind, start: u64, end: u64, size: u64) returns (r: Allocation)
      requires Valid()
      modifies this
      ensures SameRegions(old(regions), regions)
      ensures end + size < WRAP64 ==> Valid() && !r.Faulted?
      ensures HasMemory(old(regions), kind) ==> FirstFit(old(regions), regions, kind, start, end, size, true, r)
      ensures r.Wrapped? ==> start <= end % PAGE
    {
      hide Backed, AllChunked, SliceOf, Granted, Grants, NoneGranted;
      NoneInNothing(regions, kind, start, end, size);
      var a := end;
      while a >= start
        invariant a <= end && OnStep(end, a)
        invariant SameRegions(old(regions), regions)
        invariant end + size < WRAP64 ==> Valid()
        invariant HasMemory(old(regions), kind) ==> regions == old(regions)
        invariant HasMemory(old(regions), kind) ==> NoneGranted(old(regions), kind, a + 1, end, size, end)
        decreases a
      {
        r := Probe(kind, a, size);
        if !r.NoRoom? { return; }
        if HasMemory(old(regions), kind) { NextStepDown(old(regions), kind, start, a, end, size); }
        if a < PAGE { return Wrapped; }
        a := a - PAGE;
      }
      if HasMemory(old(regions), kind) { NoneOfFewer(old(regions), kind, a + 1, end, size, end, start, end); }
      return NoRoom;
    }

    method Allocate(kind: Kind, start: u64, end: u64, size: u64, top: bool) returns (r: Allocation)
      requires Valid()
      modifies this
      ensures SameRegions(old(regions), regions)
      ensures end + size < WRAP64 ==> Valid() && !r.Faulted?
      ensures HasMemory(old(regions), kind) ==> FirstFit(old(regions), regions, kind, start, end, size, top, r)
      ensures r.Wrapped? ==> if top then start <= end % PAGE else end + PAGE >= WRAP64
    {
      hide Backed, AllChunked, FirstFit;
      if top {
        r := AllocateDown(kind, start, end, size);
      } else {
        r := AllocateUp(kind, start, end, size);
      }
    }

    // ----- Contents

    /** A chunk at `addr` holds the bytes `d`. */
    ghost predicate Holds(addr: u64, d: seq<u8>)
      reads this, Stores()
    {
      Present(regions, addr, d)
    }

    /** Copy a block into free memory.  It is there afterwards, and no block that was
        there before has changed. */
    method Load(start: u64, end: u64, data: seq<u8>, top: bool) returns (ok: bool, addr: u64)
      requires Valid() && |data| < WRAP64
      modifies this, Stores()
      ensures SameRegions(old(regions), regions)
      ensures end + |data| < WRAP64 ==> Valid()
      ensures end + |data| < WRAP64 && ok ==> start <= addr <= end && Holds(addr, data)
      ensures ok ==> Grants(old(regions), User, addr, |data|) && regions == Granted(old(regions), User, addr, |data|)
      ensures ok ==> start <= addr <= end && OnStep(if top then end else start, addr)
      ensures ok ==> if top then NoneGranted(old(regions), User, addr + 1, end, |data|, end)
                     else NoneGranted(old(regions), User, start, addr - 1, |data|, start)
      ensures end + |data| < WRAP64 && !ok ==>
                NoneGranted(old(regions), User, start, end, |data|, if top then end else start)
      ensures end + |data| < WRAP64 && !ok ==> regions == old(regions)
      ensures end + |data| < WRAP64 ==> forall a, d | |d| > 0 && old(Holds(a, d)) :: Holds(a, d)
    {
      hide Backed, AllChunked, Clashes, GrantedMemory;
      ghost var m := regions;
      UserHasMemory(m);
      var r := Allocate(User, start, end, |data|, top);
      if !r.Allocated? { return false, 0; }
      GrantedMemoryIsThere(m, User, r.addr, |data|);
      ghost var block := Put(m, r.addr, |data|, r.user, data);
      assert block == data;
      return true, r.addr;
    }

    /** Load one block after another: whatever was loaded first is still there at the end. */
    method LoadAll(blocks: seq<Block>) returns (ok: bool, addrs: seq<u64>)
      requires Valid() && forall b | b in blocks :: b.end + |b.data| < WRAP64
      modifies this, Stores()
      ensures Valid() && SameRegions(old(regions), regions)
      ensures ok ==> |addrs| == |blocks|
      ensures ok ==> forall i | 0 <= i < |blocks| && blocks[i].data != [] :: Holds(addrs[i], blocks[i].data)
      ensures forall a, d | |d| > 0 && old(Holds(a, d)) :: Holds(a, d)
    {
      hide Backed, AllChunked, MemoryMap.Holds, Grants, Granted;
      addrs := [];
      for i := 0 to |blocks|
        invariant Valid() && SameRegions(old(regions), regions) && Stores() == old(Stores())
        invariant |addrs| == i
        invariant forall j | 0 <= j < i && blocks[j].data != [] :: Holds(addrs[j], blocks[j].data)
        invariant forall a, d | |d| > 0 && old(Holds(a, d)) :: Holds(a, d)
      {
        var b := blocks[i];
        var addr;
        ok, addr := Load(b.start, b.end, b.data, b.top);
        if !ok { return; }
        addrs := addrs + [addr];
      }
      ok := true;
    }

    /** Place a program segment at its own address, in whole pages.  A segment without
        bytes, or so long that its pages wrap to none, has no byte to copy to. */
    method LoadSegment(offset: u64, source: seq<u8>) returns (ok: bool, fault: bool)
      requires Valid() && |source| < WRAP64
      modifies this, Stores()
      ensures SameRegions(old(regions), regions)
      ensures ok || fault <==> Grants(old(regions), User, offset, Pages(|source|))
      ensures offset + Pages(|source|) < WRAP64 ==> Valid() && (fault <==> (ok || fault) && Pages(|source|) == 0)
      ensures offset + Pages(|source|) < WRAP64 && ok ==>
                exists d :: |d| == Pages(|source|) && source <= d && Holds(offset, d)
      ensures offset + Pages(|source|) < WRAP64 ==> forall a, d | |d| > 0 && old(Holds(a, d)) :: Holds(a, d)
    {
      hide Backed, AllChunked, Clashes, GrantedMemory, Pages;
      ghost var m := regions;
      var n := Pages(|source|);
      PagesCover(|source|);
      UserHasMemory(m);
      var r := Probe(User, offset, n);
      if r.NoRoom? { return false, false; }
      if r.Faulted? { return false, true; }
      GrantedMemoryIsThere(m, User, offset, n);
      ghost var block := Put(m, offset, n, r.user, if n == 0 then [] else source);
      return n > 0, n == 0;
    }

    /** Write to the front of the chunk of `n` bytes that was granted in `m`. */
    method Put(ghost m: seq<Region>, addr: u64, ghost n: u64, to: Backing, data: seq<u8>) returns (ghost block: seq<u8>)
      requires AllChunked(m) && Backed(m) && Grants(m, User, addr, n) && regions == Granted(m, User, addr, n)
      requires GrantedMemory(m, User, addr, n) == Mapped(to) && to.Slice? && |data| <= n
      requires to.lo + n <= to.store.Length
      modifies to.store
      ensures |block| == n && data <= block
      ensures addr + n < WRAP64 ==> Holds(addr, block)
      ensures addr + n < WRAP64 ==> forall a, d | |d| > 0 && old(Present(m, a, d)) :: Holds(a, d)
    {
      hide Backed, AllChunked, Clashes, GrantedMemory, Written;
      block := CopyPart(to, n, data);
      if addr + n < WRAP64 {
        NewBlockIsThere(m, User, addr, block, to, to.store[..]);
        GrantedMemoryIsThere(m, User, addr, n);
        ghost var h := Home(m, User, addr, n);
        assert regions[h].user.store == to.store;
        forall a, d | |d| > 0 && old(Present(m, a, d)) ensures Holds(a, d) {
          ghost var i :| 0 <= i < |m| && m[i].user.Slice? && HoldsIn(old(m[i].user.store[..]), m[i], a, d);
          OldBlockStays(m, User, addr, block, to, i, a, d, old(m[i].user.store[..]), m[i].user.store[..]);
        }
      }
    }
  }

  /** A block to load and where to look for room. */
  datatype Block = Block(start: u64, end: u64, data: seq<u8>, top: bool)

  /** A length rounded up to whole pages, in 64 bits. */
  function Pages(n: u64): u64 { if n % PAGE == 0 then n else After(n - n % PAGE, PAGE) }

  lemma PagesCover(n: u64)
    ensures Pages(n) % PAGE == 0 && (Pages(n) >= n || Pages(n) == 0) && Pages(n) < n + PAGE
    ensures n + PAGE <= WRAP64 ==> n <= Pages(n)
  {
    if n % PAGE != 0 {
      var q := n / PAGE;
      assert n - n % PAGE == q * PAGE && q < 0x10_0000_0000_0000;
      assert (q * PAGE + PAGE) % PAGE == 0;
    }
  }

  lemma UserHasMemory(m: seq<Region>)
    requires Backed(m)
    ensures HasMemory(m, User)
  {
    assert forall i | 0 <= i < |m| :: BackedOne(m[i]);
  }

  /** The memory handed out for a grant. */
  function GrantedMemory(m: seq<Region>, kind: Kind, addr: u64, size: u64): Mapping
    requires Grants(m, kind, addr, size)
  {
    var h := m[Home(m, kind, addr, size)];
    SliceOf(h, addr - h.start, size)
  }

  lemma GrantedMemoryIsThere(m: seq<Region>, kind: Kind, addr: u64, size: u64)
    requires Backed(m) && Grants(m, kind, addr, size)
    ensures var s := GrantedMemory(m, kind, addr, size);
            s.Mapped? && s.user.Slice? ==>
              && s.user.lo + size <= s.user.store.Length
              && s.user.lo == m[Home(m, kind, addr, size)].user.lo + addr - m[Home(m, kind, addr, size)].start
              && m[Home(m, kind, addr, size)].user.Slice?
              && m[Home(m, kind, addr, size)].user.store == s.user.store
  {
    hide Clashes, Contains, Apart, Home;
    assert BackedOne(m[Home(m, kind, addr, size)]);
  }

  lemma NewBlockIsThere(m: seq<Region>, kind: Kind, addr: u64, data: seq<u8>, to: Backing, after: seq<u8>)
    requires Backed(m) && |data| < WRAP64 && Grants(m, kind, addr, |data|)
    requires GrantedMemory(m, kind, addr, |data|) == Mapped(to) && to.Slice?
    requires to.lo + |data| <= |after| && after[to.lo..to.lo + |data|] == data
    ensures HoldsIn(after, Granted(m, kind, addr, |data|)[Home(m, kind, addr, |data|)], addr, data)
  {
    hide Backed, Clashes, GrantedMemory;
    GrantedMemoryIsThere(m, kind, addr, |data|);
  }

  /** Writing a granted chunk leaves the other blocks as they are. */
  lemma OldBlockStays(m: seq<Region>, kind: Kind, addr: u64, data: seq<u8>, to: Backing,
                      i: nat, a: u64, d: seq<u8>, before: seq<u8>, after: seq<u8>)
    requires AllChunked(m) && Backed(m) && addr + |data| < WRAP64 && Grants(m, kind, addr, |data|)
    requires GrantedMemory(m, kind, addr, |data|) == Mapped(to) && to.Slice?
    requires i < |m| && |d| > 0 && HoldsIn(before, m[i], a, d)
    requires if m[i].user.store == to.store then to.lo + |data| <= |before| && after == Written(before, to.lo, data)
             else after == before
    ensures i < |Granted(m, kind, addr, |data|)| && HoldsIn(after, Granted(m, kind, addr, |data|)[i], a, d)
  {
    hide Grants, Granted, Backed, AllChunked, Home, SliceOf, Clashes, GrantedMemory, Written;
    GrantedMemoryIsThere(m, kind, addr, |data|);
    var at: u64 := a - m[i].start;
    GrantAvoidsChunks(m, kind, addr, |data|, i, at);
    var lo := m[i].user.lo + at;
    if m[i].user.store == to.store { WrittenElsewhere(before, to.lo, data, lo, |d|); }
  }

  lemma WrittenElsewhere(c: seq<u8>, lo: nat, data: seq<u8>, at: nat, n: nat)
    requires lo + |data| <= |c| && at + n <= |c| && (at + n <= lo || lo + |data| <= at)
    ensures Written(c, lo, data)[at..at + n] == c[at..at + n]
  {
    var w := Written(c, lo, data);
    assert forall j | at <= j < at + n :: w[j] == c[j];
  }

  ghost function StoresOf(m: seq<Region>): set<array<u8>> {
    set i | 0 <= i < |m| && m[i].user.Slice? :: m[i].user.store
  }

  ghost predicate Present(m: seq<Region>, addr: u64, d: seq<u8>)
    reads StoresOf(m)
  {
    exists i | 0 <= i < |m| :: m[i].user.Slice? && HoldsIn(m[i].user.store[..], m[i], addr, d)
  }

  ghost predicate HoldsIn(c: seq<u8>, r: Region, addr: u64, d: seq<u8>) {
    && r.user.Slice? && r.start <= addr
    && var at: u64 := addr - r.start;
    && at in r.chunks && r.chunks[at] == |d| && r.user.lo + at + |d| <= |c|
    && c[r.user.lo + at..r.user.lo + at + |d|] == d
  }

  function Written(c: seq<u8>, lo: nat, data: seq<u8>): (w: seq<u8>)
    requires lo + |data| <= |c|
    ensures |w| == |c| && w[lo..lo + |data|] == data
  {
    c[..lo] + data + c[lo + |data|..]
  }

  method Copy(to: Backing, data: seq<u8>)
    requires to.Slice? && to.lo + |data| <= to.store.Length
    modifies to.store
    ensures to.store[..] == Written(old(to.store[..]), to.lo, data)
  {
    forall j | 0 <= j < |data| { to.store[to.lo + j] := data[j]; }
  }

  /** Copy to the front of a chunk of `n` bytes, which holds `block` afterwards. */
  method CopyPart(to: Backing, ghost n: nat, data: seq<u8>) returns (ghost block: seq<u8>)
    requires to.Slice? && |data| <= n && to.lo + n <= to.store.Length
    modifies to.store
    ensures |block| == n && data <= block
    ensures to.store[..] == Written(old(to.store[..]), to.lo, block)
  {
    block := data + to.store[..][to.lo + |data|..to.lo + n];
    Copy(to, data);
  }
}
