/**
 The boot page tables in the memory map (loader/linux_x86.go): three pages are allocated
 from the bottom of user memory, filled in, and walked as guest memory.
 */
module BootTables {
  import opened Words
  import opened ByteStrings
  import opened Regions
  import opened GuestMemory
  import opened PageTables

  /** A chunk of `n` bytes at an address is taken. */
  ghost predicate IsTaken(m: seq<Region>, kind: Kind, addr: u64, n: u64) {
    var h := Home(m, kind, addr, n);
    && 0 < n && addr + n < WRAP64 && h < |m| && m[h].start <= addr
    && var at: u64 := addr - m[h].start;
    at in m[h].chunks && m[h].chunks[at] == n
  }

  lemma HomeStays(m: seq<Region>, g: seq<Region>, kind: Kind, addr: u64, n: u64)
    requires SameRegions(m, g)
    ensures Home(g, kind, addr, n) == Home(m, kind, addr, n)
  {
    var h, h' := Home(m, kind, addr, n), Home(g, kind, addr, n);
    if h' < |g| { assert Contains(m[h'], addr, n) && m[h'].kind == kind; }
    if h < |m| { assert Contains(g[h], addr, n) && g[h].kind == kind; }
  }

  lemma GrantIsTaken(m: seq<Region>, kind: Kind, addr: u64, n: u64)
    requires Grants(m, kind, addr, n) && 0 < n && addr + n < WRAP64
    ensures IsTaken(Granted(m, kind, addr, n), kind, addr, n)
  {
    hide Clashes;
    HomeStays(m, Granted(m, kind, addr, n), kind, addr, n);
  }

  /** What is taken is not granted again, and stays taken. */
  lemma TakenStays(m: seq<Region>, kind: Kind, addr: u64, n: u64, b: u64)
    requires IsTaken(m, kind, addr, n) && Grants(m, kind, b, n)
    ensures b != addr && IsTaken(Granted(m, kind, b, n), kind, addr, n)
  {
    var h := Home(m, kind, addr, n);
    var at: u64 := addr - m[h].start;
    assert InTheWay(at, m[h].chunks[at], at, n);
    HomeStays(m, Granted(m, kind, b, n), kind, addr, n);
  }

  // ----- Guest memory

  /** The bytes of the page at a guest address: what the first user region has there. */
  ghost function GuestPage(m: seq<Region>, t: u64): (b: Bytes)
    requires Backed(m) && t + PAGE < WRAP64 && Home(m, User, t, PAGE) < |m|
    reads StoresOf(m)
    ensures |b| == PAGE
  {
    BehindIsThere(m, t);
    PageOf(Behind(m, t))
  }

  /** The host memory of that page. */
  function Behind(m: seq<Region>, t: u64): Backing
    requires Home(m, User, t, PAGE) < |m|
  {
    var h := m[Home(m, User, t, PAGE)];
    if h.user.Slice? && h.start <= t then
      Slice(h.user.store, h.user.lo + t - h.start, PAGE, h.user.addr + t - h.start)
    else Nil
  }

  lemma BehindIsThere(m: seq<Region>, t: u64)
    requires Backed(m) && t + PAGE < WRAP64 && Home(m, User, t, PAGE) < |m|
    ensures IsPage(Behind(m, t)) && Behind(m, t).store in StoresOf(m)
  {
    hide Apart;
    var i := Home(m, User, t, PAGE);
    assert BackedOne(m[i]);
    ContainedIsInside(m[i], t, PAGE);
  }

  /** `to` is the host memory of the page at a guest address. */
  ghost predicate PageIn(m: seq<Region>, t: u64, to: Backing) {
    Home(m, User, t, PAGE) < |m| && to == Behind(m, t) && IsPage(to) && to.store in StoresOf(m)
  }

  /** Guest memory as the processor walks it. */
  ghost function RamOf(m: seq<Region>): Ram
    requires Backed(m)
    reads StoresOf(m)
  {
    map t: nat | 0 <= t < WRAP64 - PAGE && t % KB4 == 0 && Home(m, User, t, PAGE) < |m| :: EntriesOf(GuestPage(m, t))
  }

  lemma BehindStays(m: seq<Region>, g: seq<Region>, t: u64)
    requires SameRegions(m, g) && Home(m, User, t, PAGE) < |m|
    ensures Home(g, User, t, PAGE) < |g| && Behind(g, t) == Behind(m, t)
  {
    HomeStays(m, g, User, t, PAGE);
  }

  /** Pages taken at different addresses have no host byte in common. */
  lemma TakenPagesApart(m: seq<Region>, a: u64, b: u64)
    requires AllChunked(m) && Backed(m) && IsTaken(m, User, a, PAGE) && IsTaken(m, User, b, PAGE) && a != b
    ensures IsPage(Behind(m, a)) && IsPage(Behind(m, b)) && PagesApart(Behind(m, a), Behind(m, b))
  {
    hide Backed, AllChunked, Home, IsTaken, Behind;
    var i, at := ChunkOf(m, a);
    var j, bt := ChunkOf(m, b);
    ChunksApart(m, i, at, j, bt);
  }

  /** The chunk of a page that is taken. */
  lemma ChunkOf(m: seq<Region>, a: u64) returns (i: nat, at: u64)
    requires Backed(m) && IsTaken(m, User, a, PAGE)
    ensures i < |m| && m[i].user.Slice? && at in m[i].chunks && m[i].chunks[at] == PAGE && m[i].start + at == a
    ensures Home(m, User, a, PAGE) < |m| && IsPage(Behind(m, a))
    ensures Behind(m, a).store == m[i].user.store && Behind(m, a).lo == m[i].user.lo + at
  {
    BehindIsThere(m, a);
    i := Home(m, User, a, PAGE);
    at := a - m[i].start;
  }

  // ----- Allocation

  method AllocatePage(model: MemoryMap, max: u64) returns (ok: bool, a: u64, to: Backing)
    requires model.Valid() && max + PAGE < WRAP64
    modifies model
    ensures model.Valid() && KeepsChunks(old(model.regions), model.regions)
    ensures ok ==>
              && a <= max && a % KB4 == 0 && Grants(old(model.regions), User, a, PAGE)
              && model.regions == Granted(old(model.regions), User, a, PAGE) && IsTaken(model.regions, User, a, PAGE)
              && to == Behind(model.regions, a)
  {
    hide Backed, AllChunked, Grants, Granted, GrantedMemory, IsTaken, Behind;
    UserHasMemory(model.regions);
    ghost var m := model.regions;
    var r := model.Allocate(User, 0, max, PAGE, false);
    if !r.Allocated? { return false, 0, Nil; }
    GrantLosesNone(m, r.addr);
    GrantIsTaken(m, User, r.addr, PAGE);
    GrantedIsBehind(m, r.addr);
    return true, r.addr, r.user;
  }

  lemma GrantedIsBehind(m: seq<Region>, a: u64)
    requires Backed(m) && Grants(m, User, a, PAGE) && a + PAGE < WRAP64
    ensures var g := Granted(m, User, a, PAGE);
            Home(g, User, a, PAGE) < |g| && GrantedMemory(m, User, a, PAGE) == Mapped(Behind(g, a))
  {
    hide Clashes, Apart;
    assert BackedOne(m[Home(m, User, a, PAGE)]);
    GrantIsInside(m, User, a, PAGE);
    HomeStays(m, Granted(m, User, a, PAGE), User, a, PAGE);
  }

  /** Three pages from the bottom of user memory have three different page addresses,
      whatever was allocated before. */
  method AllocateTables(model: MemoryMap, max: u64)
    returns (ok: bool, a: u64, b: u64, c: u64, pde: Backing, pgd: Backing, pml4: Backing)
    requires model.Valid() && max + PAGE < WRAP64
    modifies model
    ensures model.Valid() && KeepsChunks(old(model.regions), model.regions)
    ensures ok ==> a != b && a != c && b != c && a <= max && b <= max && c <= max
    ensures ok ==> a % KB4 == 0 && b % KB4 == 0 && c % KB4 == 0
    ensures ok && max < PHYSICAL ==> TableAddress(a) && TableAddress(b) && TableAddress(c)
    ensures ok ==> TablesTaken(old(model.regions), model.regions, a, b, c)
    ensures ok ==> PageIn(model.regions, a, pde) && PageIn(model.regions, b, pgd) && PageIn(model.regions, c, pml4)
  {
    hide Backed, AllChunked, Grants, Granted, GrantedMemory, IsTaken, Behind, Home, KeepsChunks, StoresOf;
    ok, a, b, c, pde, pgd, pml4 := false, 0, 0, 0, Nil, Nil, Nil;
    ghost var m0 := model.regions;
    var found;
    found, a, pde := AllocatePage(model, max);
    if !found { return; }
    ghost var m1 := model.regions;
    found, b, pgd := AllocatePage(model, max);
    ghost var m2 := model.regions;
    KeepsOn(m0, m1, m2);
    if !found { return; }
    TakenStays(m1, User, a, PAGE, b);
    found, c, pml4 := AllocatePage(model, max);
    KeepsOn(m0, m2, model.regions);
    if !found { return; }
    KeepsOn(m1, m2, model.regions);
    TakenStays(m2, User, a, PAGE, c);
    TakenStays(m2, User, b, PAGE, c);
    TakenHasHome(m1, a);
    TakenHasHome(m2, b);
    BehindStays(m1, model.regions, a);
    BehindStays(m2, model.regions, b);
    ThreePages(model.regions, a, b, c);
    ok := true;
  }

  lemma TakenHasHome(m: seq<Region>, a: u64)
    requires IsTaken(m, User, a, PAGE)
    ensures Home(m, User, a, PAGE) < |m| && a + PAGE < WRAP64
  {
  }

  /** No chunk that has bytes is lost. */
  ghost predicate KeepsChunks(m: seq<Region>, g: seq<Region>) {
    && SameRegions(m, g)
    && forall i, at | 0 <= i < |m| && at in m[i].chunks && m[i].chunks[at] > 0 ::
         at in g[i].chunks && g[i].chunks[at] == m[i].chunks[at]
  }

  lemma GrantLosesNone(m: seq<Region>, a: u64)
    requires AllChunked(m) && Grants(m, User, a, PAGE)
    ensures KeepsChunks(m, Granted(m, User, a, PAGE))
  {
    hide AllChunked, Contains;
    var g := Granted(m, User, a, PAGE);
    forall i, at | 0 <= i < |m| && at in m[i].chunks && m[i].chunks[at] > 0
      ensures at in g[i].chunks && g[i].chunks[at] == m[i].chunks[at]
    {
      ChunkFits(m, i, at);
      assert InTheWay(at, m[i].chunks[at], at, PAGE);
    }
  }

  lemma KeepsOn(m: seq<Region>, g: seq<Region>, k: seq<Region>)
    requires KeepsChunks(m, g) && KeepsChunks(g, k)
    ensures KeepsChunks(m, k) && SameRegions(g, k)
  {
  }

  lemma BlocksStay(m: seq<Region>, g: seq<Region>, x: u64, d: seq<u8>)
    requires KeepsChunks(m, g) && Present(m, x, d) && |d| > 0
    ensures Present(g, x, d)
  {
    var i :| 0 <= i < |m| && m[i].user.Slice? && HoldsIn(m[i].user.store[..], m[i], x, d);
    assert HoldsIn(g[i].user.store[..], g[i], x, d);
  }

  /** The three pages were granted one after the other. */
  ghost predicate TablesTaken(m0: seq<Region>, m: seq<Region>, a: u64, b: u64, c: u64) {
    && Grants(m0, User, a, PAGE)
    && var m1 := Granted(m0, User, a, PAGE);
    Grants(m1, User, b, PAGE)
    && var m2 := Granted(m1, User, b, PAGE);
    Grants(m2, User, c, PAGE) && m == Granted(m2, User, c, PAGE)
    && IsTaken(m, User, a, PAGE) && IsTaken(m, User, b, PAGE) && IsTaken(m, User, c, PAGE)
  }

  /** In guest memory the first gigabyte is mapped to itself. */
  ghost predicate IdentityMapped(m: seq<Region>, cr3: u64)
    requires Backed(m)
    reads StoresOf(m)
  {
    forall va | 0 <= va < GB1 :: Walk(RamOf(m), cr3, va) == Physical(va, true)
  }

  ghost predicate NothingElseMapped(m: seq<Region>, cr3: u64)
    requires Backed(m)
    reads StoresOf(m)
  {
    forall va | GB1 <= va < TB256 :: Walk(RamOf(m), cr3, va) == NotPresent
  }

  /** The two upper pages have no present entries behind the first. */
  ghost predicate NoLeftovers(pgd: Backing, pml4: Backing)
    requires IsPage(pgd) && IsPage(pml4)
    reads pgd.store, pml4.store
  {
    RestAbsent(EntriesOf(PageOf(pgd))) && RestAbsent(EntriesOf(PageOf(pml4)))
  }

  // ----- The whole block of the loader

  /** Allocate the three pages and build the tables on them.  In guest memory as it is
      then, the first gigabyte is mapped to itself, nothing else is if the two upper
      pages had no present entries behind the first, and no block loaded before has
      changed. */
  method SetupTables(model: MemoryMap, max: u64) returns (ok: bool, cr3: u64, pgd: Backing, pml4: Backing)
    requires model.Valid() && max + PAGE < WRAP64 && max < PHYSICAL
    modifies model, model.Stores()
    ensures model.Valid() && KeepsChunks(old(model.regions), model.regions)
    ensures ok ==> IsPage(pgd) && IsPage(pml4) && pgd.store in old(model.Stores()) && pml4.store in old(model.Stores())
    ensures ok ==> IdentityMapped(model.regions, cr3)
    ensures ok && old(NoLeftovers(pgd, pml4)) ==> NothingElseMapped(model.regions, cr3)
    ensures forall x, d | |d| > 0 && old(model.Holds(x, d)) :: model.Holds(x, d)
  {
    hide Backed, AllChunked, Grants, Granted, IsTaken, Behind, Home, TablesTaken, Present, IdentityMapped, NothingElseMapped, NoLeftovers;
    ghost var m0 := model.regions;
    var a, b, c, pde;
    ok, a, b, c, pde, pgd, pml4 := AllocateTables(model, max);
    cr3 := c;
    forall x, d | |d| > 0 && Present(m0, x, d) ensures Present(model.regions, x, d) {
      BlocksStay(m0, model.regions, x, d);
    }
    if ok { FillTables(model, m0, a, b, c, pde, pgd, pml4); }
  }

  /** Build the tables on the chunks that were granted for them in `m0`. */
  method FillTables(model: MemoryMap, ghost m0: seq<Region>, a: u64, b: u64, c: u64, pde: Backing, pgd: Backing, pml4: Backing)
    requires model.Valid() && AllChunked(m0) && Backed(m0) && Distinct(a, b, c)
    requires TablesTaken(m0, model.regions, a, b, c) && KeepsChunks(m0, model.regions)
    requires PageIn(model.regions, a, pde) && PageIn(model.regions, b, pgd) && PageIn(model.regions, c, pml4)
    modifies model.Stores()
    ensures IdentityMapped(model.regions, c)
    ensures old(NoLeftovers(pgd, pml4)) ==> NothingElseMapped(model.regions, c)
    ensures forall x, d | |d| > 0 && old(Present(m0, x, d)) :: Present(model.regions, x, d)
  {
    hide Backed, AllChunked, Grants, Granted, IsTaken, Behind, Home, RestAbsent, EntriesOf, Built, PagesApart, KeepsChunks,
      IdentityMapped, NothingElseMapped, MapsGigabyte, MapsNothingElse, TablesTaken, SameRegions, StoresOf;
    ghost var m := model.regions;
    ThreeTaken(m0, m, a, b, c);
    ThreePages(m, a, b, c);
    BuildTables(pde, pgd, pml4, a, b, c);
    WalkFindsTables(m, a, b, c, pde, pgd, pml4);
    forall x: u64, d: seq<u8> | |d| > 0 && old(Present(m0, x, d)) ensures Present(m, x, d) {
      ghost var i :| 0 <= i < |m0| && m0[i].user.Slice? && HoldsIn(old(m0[i].user.store[..]), m0[i], x, d);
      BlockOutside(m0, m, a, b, c, i, x - m0[i].start, pde, pgd, pml4);
      ghost var s, lo := m0[i].user.store, m0[i].user.lo + x - m0[i].start;
      assert forall j | lo <= j < lo + |d| :: s[..][j] == old(s[..])[j];
      BlockSame(m0[i], m[i], x, d, old(s[..]), s[..]);
    }
  }

  /** What the three pages map, guest memory maps. */
  lemma WalkFindsTables(m: seq<Region>, a: u64, b: u64, c: u64, pde: Backing, pgd: Backing, pml4: Backing)
    requires Backed(m) && IsTaken(m, User, a, PAGE) && IsTaken(m, User, b, PAGE) && IsTaken(m, User, c, PAGE)
    requires Distinct(a, b, c) && PageIn(m, a, pde) && PageIn(m, b, pgd) && PageIn(m, c, pml4)
    ensures var p, q, r := EntriesOf(PageOf(pde)), EntriesOf(PageOf(pgd)), EntriesOf(PageOf(pml4));
            && (MapsGigabyte(p, q, r, a, b, c) ==> IdentityMapped(m, c))
            && (MapsNothingElse(p, q, r, a, b, c) ==> NothingElseMapped(m, c))
  {
    hide Backed, IsTaken, Behind, Home, Walk, EntriesOf, RamOf, Tables;
    RamHasTables(m, a, b, c);
  }

  /** A block that was there has no byte in the three pages. */
  lemma BlockOutside(m0: seq<Region>, m: seq<Region>, a: u64, b: u64, c: u64, i: nat, at: u64,
                     pde: Backing, pgd: Backing, pml4: Backing)
    requires AllChunked(m0) && Backed(m0) && TablesTaken(m0, m, a, b, c)
    requires PageIn(m, a, pde) && PageIn(m, b, pgd) && PageIn(m, c, pml4)
    requires i < |m0| && m0[i].user.Slice? && at in m0[i].chunks && m0[i].chunks[at] > 0
    ensures i < |m| && m[i] == m0[i].(chunks := m[i].chunks) && at in m[i].chunks && m[i].chunks[at] == m0[i].chunks[at]
    ensures var s, lo := m0[i].user.store, m0[i].user.lo + at;
            forall j | lo <= j < lo + m0[i].chunks[at] :: !InPage(pde, s, j) && !InPage(pgd, s, j) && !InPage(pml4, s, j)
  {
    hide Backed, AllChunked, TablesTaken, Behind, Home, StoresOf;
    OldChunkApart(m0, m, a, b, c, i, at);
    assert a in {a, b, c} && b in {a, b, c} && c in {a, b, c};
  }

  lemma BlockSame(r: Region, r': Region, x: u64, d: seq<u8>, before: Bytes, after: Bytes)
    requires HoldsIn(before, r, x, d) && r' == r.(chunks := r'.chunks) && |after| == |before|
    requires var at := x - r.start; at in r'.chunks && r'.chunks[at] == |d|
    requires forall j | r.user.lo + x - r.start <= j < r.user.lo + x - r.start + |d| :: after[j] == before[j]
    ensures HoldsIn(after, r', x, d)
  {
    var lo := r.user.lo + x - r.start;
    assert after[lo..lo + |d|] == before[lo..lo + |d|];
  }

  lemma ThreeTaken(m0: seq<Region>, m: seq<Region>, a: u64, b: u64, c: u64)
    requires TablesTaken(m0, m, a, b, c)
    ensures IsTaken(m, User, a, PAGE) && IsTaken(m, User, b, PAGE) && IsTaken(m, User, c, PAGE)
  {
  }

  lemma ThreePages(m: seq<Region>, a: u64, b: u64, c: u64)
    requires AllChunked(m) && Backed(m) && a != b && a != c && b != c
    requires IsTaken(m, User, a, PAGE) && IsTaken(m, User, b, PAGE) && IsTaken(m, User, c, PAGE)
    ensures Home(m, User, a, PAGE) < |m| && Home(m, User, b, PAGE) < |m| && Home(m, User, c, PAGE) < |m|
    ensures var p, q, r := Behind(m, a), Behind(m, b), Behind(m, c);
            && IsPage(p) && IsPage(q) && IsPage(r) && PagesApart(p, q) && PagesApart(p, r) && PagesApart(q, r)
            && p.store in StoresOf(m) && q.store in StoresOf(m) && r.store in StoresOf(m)
  {
    hide Backed, AllChunked, IsTaken, Behind, Home, PagesApart;
    TakenHasHome(m, a);
    TakenHasHome(m, b);
    TakenHasHome(m, c);
    BehindIsThere(m, a);
    BehindIsThere(m, b);
    BehindIsThere(m, c);
    TakenPagesApart(m, a, b);
    TakenPagesApart(m, a, c);
    TakenPagesApart(m, b, c);
  }

  lemma RamHasPage(m: seq<Region>, t: u64)
    requires Backed(m) && t + PAGE < WRAP64 && t % KB4 == 0 && Home(m, User, t, PAGE) < |m|
    ensures IsPage(Behind(m, t)) && t in RamOf(m) && RamOf(m)[t] == EntriesOf(PageOf(Behind(m, t)))
  {
    BehindIsThere(m, t);
  }

  /** Guest memory is itself with the three pages at their addresses. */
  lemma RamHasTables(m: seq<Region>, a: u64, b: u64, c: u64)
    requires Backed(m) && IsTaken(m, User, a, PAGE) && IsTaken(m, User, b, PAGE) && IsTaken(m, User, c, PAGE)
    requires a % KB4 == 0 && b % KB4 == 0 && c % KB4 == 0
    ensures Home(m, User, a, PAGE) < |m| && Home(m, User, b, PAGE) < |m| && Home(m, User, c, PAGE) < |m|
    ensures IsPage(Behind(m, a)) && IsPage(Behind(m, b)) && IsPage(Behind(m, c))
    ensures RamOf(m) == Tables(RamOf(m), EntriesOf(PageOf(Behind(m, a))), EntriesOf(PageOf(Behind(m, b))),
                               EntriesOf(PageOf(Behind(m, c))), a, b, c)
  {
    hide RamOf, EntriesOf, Behind, Home, IsTaken, Backed;
    TakenHasHome(m, a);
    TakenHasHome(m, b);
    TakenHasHome(m, c);
    RamHasPage(m, a);
    RamHasPage(m, b);
    RamHasPage(m, c);
  }

  /** A block that was there is still a chunk, apart from the three pages. */
  lemma OldChunkApart(m0: seq<Region>, m: seq<Region>, a: u64, b: u64, c: u64, i: nat, at: u64)
    requires AllChunked(m0) && Backed(m0) && TablesTaken(m0, m, a, b, c)
    requires i < |m0| && m0[i].user.Slice? && at in m0[i].chunks && m0[i].chunks[at] > 0
    ensures i < |m| && m[i] == m0[i].(chunks := m[i].chunks) && at in m[i].chunks && m[i].chunks[at] == m0[i].chunks[at]
    ensures forall t | t in {a, b, c} ::
              && Home(m, User, t, PAGE) < |m| && Behind(m, t).Slice?
              && Disjoint(m0[i].user.store, m0[i].user.lo + at, m0[i].chunks[at], Behind(m, t).store, Behind(m, t).lo, PAGE)
  {
    hide Backed, AllChunked, Grants, Granted, IsTaken, Behind, Home, Disjoint;
    var m1 := Granted(m0, User, a, PAGE);
    var m2 := Granted(m1, User, b, PAGE);
    TakenHasHome(m, a);
    TakenHasHome(m, b);
    TakenHasHome(m, c);
    OldChunkAfterOne(m0, a, i, at);
    OldChunkAfterOne(m1, b, i, at);
    OldChunkAfterOne(m2, c, i, at);
    BehindStays(m1, m, a);
    BehindStays(m2, m, b);
  }

  /** One grant: the chunk stays and is apart from the page. */
  lemma OldChunkAfterOne(m: seq<Region>, a: u64, i: nat, at: u64)
    requires AllChunked(m) && Backed(m) && Grants(m, User, a, PAGE) && a + PAGE < WRAP64
    requires i < |m| && m[i].user.Slice? && at in m[i].chunks && m[i].chunks[at] > 0
    ensures var g := Granted(m, User, a, PAGE);
            && AllChunked(g) && Backed(g) && SameRegions(m, g) && Home(g, User, a, PAGE) < |g| && Behind(g, a).Slice?
            && at in g[i].chunks && g[i].chunks[at] == m[i].chunks[at]
            && Disjoint(m[i].user.store, m[i].user.lo + at, m[i].chunks[at], Behind(g, a).store, Behind(g, a).lo, PAGE)
  {
    hide Backed, AllChunked, Clashes, Disjoint;
    var g := Granted(m, User, a, PAGE);
    GrantKeepsChunks(m, User, a, PAGE);
    GrantedIsBehind(m, a);
    BehindIsThere(g, a);
    GrantAvoidsChunks(m, User, a, PAGE, i, at);
    HomeStays(m, g, User, a, PAGE);
  }
}
