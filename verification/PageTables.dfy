/**
 The page tables a 64-bit kernel starts with (loader/linux_x86.go), and the walk that the
 processor makes through them: Intel SDM volume 3A, section 4.5.

 Pages are 4096 bytes of host memory, written eight at a time, least significant first.
 Entries are 64-bit words seen as numbers; the masks of the builders select bits 51:12
 or 51:21 of a word, and the flag bits set afterwards are clear before.
 */
module PageTables {
  import opened Words
  import opened ByteStrings
  import opened Regions
  import opened GuestMemory

  const ENTRIES: nat := 512
  const KB4: nat := 0x1000
  const MB2: nat := 0x20_0000
  const GB1: nat := 0x4000_0000
  const GB512: nat := 0x80_0000_0000
  const TB256: nat := 0x1_0000_0000_0000
  const PHYSICAL: nat := 0x10_0000_0000_0000     // addresses have 52 bits

  /** Bits 51:12, and bits 51:21, of a word. */
  function Frame(x: u64): u64 { x % PHYSICAL / KB4 * KB4 }

  function LargeFrame(x: u64): u64 { x % PHYSICAL / MB2 * MB2 }

  predicate IsPresent(e: u64) { e % 2 == 1 }

  predicate IsWritable(e: u64) { e / 2 % 2 == 1 }

  predicate IsLarge(e: u64) { e / 128 % 2 == 1 }

  // ----- The walk

  /** Guest memory as pages of entries, by page address. */
  type Ram = map<nat, seq<u64>>

  /** A page may be written if the entries of all levels say so. */
  datatype Translation = Physical(pa: nat, writable: bool) | NotPresent | ReservedBits | NoMemory

  predicate HasPage(ram: Ram, a: nat) { a in ram && |ram[a]| == ENTRIES }

  function Walk(ram: Ram, cr3: u64, va: nat): Translation {
    var pml4 := Frame(cr3);
    if !HasPage(ram, pml4) then NoMemory else
      var e := ram[pml4][va / GB512 % ENTRIES];
      if !IsPresent(e) then NotPresent
      else if IsLarge(e) then ReservedBits
      else WalkPointers(ram, Frame(e), va, IsWritable(e))
  }

  function WalkPointers(ram: Ram, table: nat, va: nat, w: bool): Translation {
    if !HasPage(ram, table) then NoMemory else
      var e := ram[table][va / GB1 % ENTRIES];
      if !IsPresent(e) then NotPresent
      else if IsLarge(e) then
        if e / 0x2000 % 0x2_0000 != 0 then ReservedBits else Physical(e % PHYSICAL / GB1 * GB1 + va % GB1, w && IsWritable(e))
      else WalkDirectory(ram, Frame(e), va, w && IsWritable(e))
  }

  function WalkDirectory(ram: Ram, table: nat, va: nat, w: bool): Translation {
    if !HasPage(ram, table) then NoMemory else
      var e := ram[table][va / MB2 % ENTRIES];
      if !IsPresent(e) then NotPresent
      else if IsLarge(e) then
        if e / 0x2000 % 0x100 != 0 then ReservedBits else Physical(LargeFrame(e) + va % MB2, w && IsWritable(e))
      else WalkTable(ram, Frame(e), va, w && IsWritable(e))
  }

  function WalkTable(ram: Ram, table: nat, va: nat, w: bool): Translation {
    if !HasPage(ram, table) then NoMemory else
      var e := ram[table][va / KB4 % ENTRIES];
      if !IsPresent(e) then NotPresent else Physical(Frame(e) + va % KB4, w && IsWritable(e))
  }

  // ----- The tables

  /** Present and writable, pointing at a table. */
  function Link(table: u64): u64 { Frame(table) + 0x3 }

  /** Present, writable and large, for the i-th two megabytes. */
  function LargeEntry(i: nat): u64
    requires i < ENTRIES
  {
    i * MB2 + 0x83
  }

  // ----- Pages as bytes

  function EntryAt(page: Bytes, i: nat): u64
    requires |page| == PAGE && i < ENTRIES
  {
    FromLEBound(page[8 * i..8 * i + 8]);
    Widths();
    FromLE(page[8 * i..8 * i + 8])
  }

  function EntriesOf(page: Bytes): (es: seq<u64>)
    requires |page| == PAGE
    ensures |es| == ENTRIES && forall i | 0 <= i < ENTRIES :: es[i] == EntryAt(page, i)
  {
    seq(ENTRIES, i requires 0 <= i < ENTRIES => EntryAt(page, i))
  }

  lemma EntryWritten(page: Bytes, i: nat, e: u64)
    requires |page| == PAGE && i < ENTRIES
    ensures EntriesOf(Written(page, 8 * i, ToLE(e, 8))) == EntriesOf(page)[i := e]
  {
    hide ToLE, FromLE, Written;
    var w := Written(page, 8 * i, ToLE(e, 8));
    forall j | 0 <= j < ENTRIES ensures EntryAt(w, j) == if j == i then e else EntryAt(page, j) {
      if j == i {
        Widths();
        FromToLE(e, 8);
      } else {
        WrittenElsewhere(page, 8 * i, ToLE(e, 8), 8 * j, 8);
      }
    }
  }

  predicate IsPage(to: Backing) { to.Slice? && to.lo + PAGE <= to.store.Length }

  ghost function PageOf(to: Backing): (b: Bytes)
    requires IsPage(to)
    reads to.store
    ensures |b| == PAGE
  {
    to.store[to.lo..to.lo + PAGE]
  }

  /** Nothing but the page at `lo` differs. */
  ghost predicate SameOutside(c: Bytes, d: Bytes, lo: nat) {
    |c| == |d| && forall j | 0 <= j < |c| && !(lo <= j < lo + PAGE) :: c[j] == d[j]
  }

  method PutEntry(to: Backing, i: nat, e: u64)
    requires IsPage(to) && i < ENTRIES
    modifies to.store
    ensures EntriesOf(PageOf(to)) == old(EntriesOf(PageOf(to)))[i := e]
    ensures SameOutside(old(to.store[..]), to.store[..], to.lo)
  {
    hide ToLE, EntriesOf;
    ghost var was := PageOf(to);
    Copy(Slice(to.store, to.lo + 8 * i, 8, to.addr + 8 * i), ToLE(e, 8));
    assert PageOf(to) == Written(was, 8 * i, ToLE(e, 8)) by {
      WrittenWithin(old(to.store[..]), to.lo, 8 * i, ToLE(e, 8));
      assert PageOf(to) == to.store[..][to.lo..to.lo + PAGE];
    }
    EntryWritten(was, i, e);
  }

  lemma WrittenWithin(c: Bytes, lo: nat, k: nat, data: Bytes)
    requires lo + PAGE <= |c| && k + |data| <= PAGE
    ensures Written(c, lo + k, data)[lo..lo + PAGE] == Written(c[lo..lo + PAGE], k, data)
  {
  }

  /** Every entry maps its own two megabytes. */
  predicate AllLarge(es: seq<u64>) { |es| == ENTRIES && forall i | 0 <= i < ENTRIES :: es[i] == LargeEntry(i) }

  method BuildPde(to: Backing, size: nat)
    requires IsPage(to) && size == PAGE
    modifies to.store
    ensures AllLarge(EntriesOf(PageOf(to)))
    ensures SameOutside(old(to.store[..]), to.store[..], to.lo)
  {
    var max := size / 8;
    for i := 0 to max
      invariant forall j | 0 <= j < i :: EntriesOf(PageOf(to))[j] == LargeEntry(j)
      invariant SameOutside(old(to.store[..]), to.store[..], to.lo)
    {
      ShiftedIsFrame(i);
      PutEntry(to, i, LargeFrame(i * MB2) + 0x83);
    }
  }

  lemma ShiftedIsFrame(i: nat)
    requires i < ENTRIES
    ensures LargeFrame(i * MB2) + 0x83 == LargeEntry(i)
  {
    Quotient(i * MB2, i, 0, MB2);
  }

  /** The single entry of the two upper tables. */
  method BuildLink(to: Backing, table: u64)
    requires IsPage(to)
    modifies to.store
    ensures EntriesOf(PageOf(to)) == old(EntriesOf(PageOf(to)))[0 := Link(table)]
    ensures SameOutside(old(to.store[..]), to.store[..], to.lo)
  {
    PutEntry(to, 0, Link(table));
  }

  /** No entry but the first is present. */
  predicate RestAbsent(page: seq<u64>) { forall i | 0 < i < |page| :: !IsPresent(page[i]) }

  lemma FirstDoesNotMatter(page: seq<u64>, e: u64)
    requires page != []
    ensures RestAbsent(page[0 := e]) <==> RestAbsent(page)
  {
    hide IsPresent;
    assert forall i | 0 < i < |page| :: page[0 := e][i] == page[i];
  }

  predicate TableAddress(a: u64) { a % KB4 == 0 && a < PHYSICAL }

  /** Guest memory with the three pages at their addresses. */
  function Tables(rest: Ram, pde: seq<u64>, pgd: seq<u64>, pml4: seq<u64>, a: u64, b: u64, c: u64): Ram {
    rest[a := pde][b := pgd][c := pml4]
  }

  predicate Distinct(a: u64, b: u64, c: u64) {
    TableAddress(a) && TableAddress(b) && TableAddress(c) && a != b && a != c && b != c
  }

  /** Whatever else guest memory holds, the first gigabyte is mapped to itself. */
  ghost predicate MapsGigabyte(pde: seq<u64>, pgd: seq<u64>, pml4: seq<u64>, a: u64, b: u64, c: u64) {
    forall rest, va | 0 <= va < GB1 :: Walk(Tables(rest, pde, pgd, pml4, a, b, c), c, va) == Physical(va, true)
  }

  /** Whatever else guest memory holds, nothing above the first gigabyte is present. */
  ghost predicate MapsNothingElse(pde: seq<u64>, pgd: seq<u64>, pml4: seq<u64>, a: u64, b: u64, c: u64) {
    forall rest, va | GB1 <= va < TB256 :: Walk(Tables(rest, pde, pgd, pml4, a, b, c), c, va) == NotPresent
  }

  /** Build the three tables on pages that guest memory has at three different
      addresses: the first gigabyte is mapped to itself, and nothing else is if and only
      if the two upper pages had no present entries behind the first, as fresh memory
      has none. */
  method BuildTables(pde: Backing, pgd: Backing, pml4: Backing, a: u64, b: u64, c: u64)
    requires IsPage(pde) && IsPage(pgd) && IsPage(pml4) && Distinct(a, b, c)
    requires PagesApart(pde, pgd) && PagesApart(pde, pml4) && PagesApart(pgd, pml4)
    modifies pde.store, pgd.store, pml4.store
    ensures MapsGigabyte(EntriesOf(PageOf(pde)), EntriesOf(PageOf(pgd)), EntriesOf(PageOf(pml4)), a, b, c)
    ensures MapsNothingElse(EntriesOf(PageOf(pde)), EntriesOf(PageOf(pgd)), EntriesOf(PageOf(pml4)), a, b, c)
            <==> old(RestAbsent(EntriesOf(PageOf(pgd))) && RestAbsent(EntriesOf(PageOf(pml4))))
    ensures Built(EntriesOf(PageOf(pde)), EntriesOf(PageOf(pgd)), EntriesOf(PageOf(pml4)), a, b)
    ensures forall s: array<u8>, j | s in {pde.store, pgd.store, pml4.store} && 0 <= j < s.Length
                                     && !InPage(pde, s, j) && !InPage(pgd, s, j) && !InPage(pml4, s, j) ::
              s[j] == old(s[j])
  {
    hide MapsGigabyte, MapsNothingElse, RestAbsent, EntriesOf, AllLarge, Link, LargeEntry;
    ghost var upper, top := EntriesOf(PageOf(pgd)), EntriesOf(PageOf(pml4));
    BuildPde(pde, PAGE);
    assert PageOf(pgd) == old(PageOf(pgd)) && PageOf(pml4) == old(PageOf(pml4));
    ghost var first := PageOf(pde);
    BuildLink(pgd, a);
    assert PageOf(pde) == first && PageOf(pml4) == old(PageOf(pml4));
    ghost var second := PageOf(pgd);
    BuildLink(pml4, b);
    assert PageOf(pde) == first && PageOf(pgd) == second;
    FirstDoesNotMatter(upper, Link(a));
    FirstDoesNotMatter(top, Link(b));
    BuiltTablesMap(EntriesOf(first), EntriesOf(second), EntriesOf(PageOf(pml4)), a, b, c);
  }

  ghost predicate PagesApart(p: Backing, q: Backing)
    requires p.Slice? && q.Slice?
  {
    Disjoint(p.store, p.lo, PAGE, q.store, q.lo, PAGE)
  }

  predicate InPage(p: Backing, s: array<u8>, j: nat)
    requires p.Slice?
  {
    s == p.store && p.lo <= j < p.lo + PAGE
  }

  /** Three pages as the builders leave them. */
  predicate Built(pde: seq<u64>, pgd: seq<u64>, pml4: seq<u64>, a: u64, b: u64) {
    AllLarge(pde) && |pgd| == |pml4| == ENTRIES && pgd[0] == Link(a) && pml4[0] == Link(b)
  }

  lemma BuiltTablesMap(pde: seq<u64>, pgd: seq<u64>, pml4: seq<u64>, a: u64, b: u64, c: u64)
    requires Built(pde, pgd, pml4, a, b) && Distinct(a, b, c)
    ensures MapsGigabyte(pde, pgd, pml4, a, b, c)
    ensures MapsNothingElse(pde, pgd, pml4, a, b, c) <==> RestAbsent(pgd) && RestAbsent(pml4)
  {
    hide Walk, RestAbsent, LargeEntry, Link;
    forall rest, va | 0 <= va < GB1 ensures Walk(Tables(rest, pde, pgd, pml4, a, b, c), c, va) == Physical(va, true) {
      IdentityBelow(Tables(rest, pde, pgd, pml4, a, b, c), a, b, c, va);
    }
    if RestAbsent(pgd) && RestAbsent(pml4) {
      forall rest, va | GB1 <= va < TB256 ensures Walk(Tables(rest, pde, pgd, pml4, a, b, c), c, va) == NotPresent {
        NothingAbove(Tables(rest, pde, pgd, pml4, a, b, c), b, c, va);
      }
    } else {
      var va := SomethingAbove(pde, pgd, pml4, a, b, c);
      assert Walk(Tables(map[], pde, pgd, pml4, a, b, c), c, va) != NotPresent;
    }
  }

  /** A present entry left behind the first of an upper page gives an address above the
      first gigabyte that is present: every page there is has a present first entry, so
      the walk on from there never finds an absent one. */
  lemma SomethingAbove(pde: seq<u64>, pgd: seq<u64>, pml4: seq<u64>, a: u64, b: u64, c: u64) returns (va: nat)
    requires Built(pde, pgd, pml4, a, b) && Distinct(a, b, c) && !(RestAbsent(pgd) && RestAbsent(pml4))
    ensures GB1 <= va < TB256 && Walk(Tables(map[], pde, pgd, pml4, a, b, c), c, va) != NotPresent
  {
    var ram := Tables(map[], pde, pgd, pml4, a, b, c);
    FirstEntries(pde, pgd, pml4, a, b, c);
    LinkLeadsOn(b);
    LinkLeadsOn(c);
    hide Frame, IsPresent, IsWritable, IsLarge, Link, LargeEntry, Built, Tables, FirstPresent;
    if !RestAbsent(pml4) {
      var i :| 0 < i < |pml4| && IsPresent(pml4[i]);
      va := i * GB512;
      IndicesOfTop(i);
      PointersPresent(ram, Frame(pml4[i]), va, IsWritable(pml4[i]));
    } else {
      var j :| 0 < j < |pgd| && IsPresent(pgd[j]);
      va := j * GB1;
      IndicesOfGigabyte(j);
      DirectoryPresent(ram, Frame(pgd[j]), va, IsWritable(Link(b)) && IsWritable(pgd[j]));
    }
  }

  ghost predicate FirstPresent(ram: Ram) { forall t | HasPage(ram, t) :: IsPresent(ram[t][0]) }

  lemma FirstEntries(pde: seq<u64>, pgd: seq<u64>, pml4: seq<u64>, a: u64, b: u64, c: u64)
    requires Built(pde, pgd, pml4, a, b) && Distinct(a, b, c)
    ensures var ram := Tables(map[], pde, pgd, pml4, a, b, c);
            && FirstPresent(ram) && HasPage(ram, b) && HasPage(ram, c) && ram[b] == pgd && ram[c] == pml4
            && pml4[0] == Link(b) && |pgd| == |pml4| == ENTRIES
  {
    hide IsPresent, Link, LargeEntry;
    LinkLeadsOn(a);
    LinkLeadsOn(b);
    LargeEntryMaps(0);
  }

  lemma IndexOf(i: nat, k: nat, unit: nat)
    requires i < ENTRIES && unit > 0 && (k == 1 || k % 512 == 0)
    ensures i * (k * unit) / unit % ENTRIES == if k == 1 then i else 0
  {
    assert i * (k * unit) == (i * k) * unit + 0;
    Quotient(i * (k * unit), i * k, 0, unit);
    if k != 1 {
      assert k == k / 512 * 512;
      assert i * k == (i * (k / 512)) * 512 + 0;
      Quotient(i * k, i * (k / 512), 0, 512);
    }
  }

  lemma IndicesOfTop(i: nat)
    requires 0 < i < ENTRIES
    ensures var va := i * GB512;
            && GB1 <= va < TB256 && va / GB512 % ENTRIES == i
            && va / GB1 % ENTRIES == 0 && va / MB2 % ENTRIES == 0 && va / KB4 % ENTRIES == 0
  {
    IndexOf(i, 1, GB512);
    IndexOf(i, 512, GB1);
    IndexOf(i, 512 * 512, MB2);
    IndexOf(i, 512 * 512 * 512, KB4);
  }

  lemma IndicesOfGigabyte(j: nat)
    requires 0 < j < ENTRIES
    ensures var va := j * GB1;
            && GB1 <= va < TB256 && va / GB512 % ENTRIES == 0 && va / GB1 % ENTRIES == j
            && va / MB2 % ENTRIES == 0 && va / KB4 % ENTRIES == 0
  {
    Quotient(j * GB1, 0, j * GB1, GB512);
    IndexOf(j, 1, GB1);
    IndexOf(j, 512, MB2);
    IndexOf(j, 512 * 512, KB4);
  }

  lemma TablePresent(ram: Ram, t: nat, va: nat, w: bool)
    requires FirstPresent(ram) && va / KB4 % ENTRIES == 0
    ensures WalkTable(ram, t, va, w) != NotPresent
  {
    hide IsPresent, Frame;
  }

  lemma DirectoryPresent(ram: Ram, t: nat, va: nat, w: bool)
    requires FirstPresent(ram) && va / MB2 % ENTRIES == 0 && va / KB4 % ENTRIES == 0
    ensures WalkDirectory(ram, t, va, w) != NotPresent
  {
    hide IsPresent, IsWritable, IsLarge, Frame, LargeFrame, WalkTable;
    if HasPage(ram, t) { TablePresent(ram, Frame(ram[t][0]), va, w && IsWritable(ram[t][0])); }
  }

  lemma PointersPresent(ram: Ram, t: nat, va: nat, w: bool)
    requires FirstPresent(ram) && va / GB1 % ENTRIES == 0 && va / MB2 % ENTRIES == 0 && va / KB4 % ENTRIES == 0
    ensures WalkPointers(ram, t, va, w) != NotPresent
  {
    hide IsPresent, IsWritable, IsLarge, Frame, WalkDirectory;
    if HasPage(ram, t) { DirectoryPresent(ram, Frame(ram[t][0]), va, w && IsWritable(ram[t][0])); }
  }

  /** Guest memory holds the three tables. */
  predicate Linked(ram: Ram, a: u64, b: u64, c: u64) {
    && HasPage(ram, a) && HasPage(ram, b) && HasPage(ram, c)
    && (forall i | 0 <= i < ENTRIES :: ram[a][i] == LargeEntry(i))
    && ram[b][0] == Link(a) && ram[c][0] == Link(b)
  }

  lemma LinkLeadsOn(table: u64)
    requires TableAddress(table)
    ensures Frame(table) == table && Frame(Link(table)) == table
    ensures IsPresent(Link(table)) && !IsLarge(Link(table)) && IsWritable(Link(table))
  {
    hide IsPresent, IsLarge, IsWritable;
    var q := table / KB4;
    assert table == q * KB4 && Frame(table) == table;
    assert Link(table) == q * KB4 + 3;
    LinkBits(q);
  }

  lemma LinkBits(q: nat)
    requires q * KB4 + 3 < WRAP64
    ensures var e := q * KB4 + 3; e / KB4 == q && IsPresent(e) && !IsLarge(e) && IsWritable(e)
  {
    var e: u64 := q * KB4 + 3;
    Quotient(e, q, 3, KB4);
    Quotient(e, 2048 * q + 1, 1, 2);
    BitOf(e, 2, 1024 * q, 1, 1);
    BitOf(e, 128, 16 * q, 0, 3);
  }

  /** One bit of a number, read off its digits. */
  lemma BitOf(e: nat, unit: nat, half: nat, bit: nat, r: nat)
    requires r < unit && bit < 2 && e == (2 * half + bit) * unit + r
    ensures e / unit % 2 == bit
  {
    Quotient(e, 2 * half + bit, r, unit);
    Quotient(2 * half + bit, half, bit, 2);
  }

  lemma LargeEntryMaps(i: nat)
    requires i < ENTRIES
    ensures IsPresent(LargeEntry(i)) && IsLarge(LargeEntry(i)) && IsWritable(LargeEntry(i))
    ensures LargeEntry(i) / 0x2000 % 0x100 == 0 && LargeFrame(LargeEntry(i)) == i * MB2
  {
    var e := i * MB2 + 0x83;
    assert e / MB2 == i && e / 128 == 16384 * i + 1 && e / 0x2000 == 256 * i && e == 2 * (1048576 * i + 65) + 1 && e / 2 == 2 * (524288 * i + 32) + 1;
    assert e < PHYSICAL;
  }

  lemma IdentityBelow(ram: Ram, a: u64, b: u64, c: u64, va: nat)
    requires TableAddress(a) && TableAddress(b) && TableAddress(c) && Linked(ram, a, b, c) && va < GB1
    ensures Walk(ram, c, va) == Physical(va, true)
  {
    hide Frame, IsPresent, IsWritable, IsLarge, Link, LargeEntry, LargeFrame;
    LinkLeadsOn(a);
    LinkLeadsOn(b);
    LinkLeadsOn(c);
    assert va / GB512 == 0 && va / GB1 == 0;
    var i := va / MB2;
    LargeEntryMaps(i);
    assert ram[a][i] == LargeEntry(i) && va == i * MB2 + va % MB2;
  }

  lemma NothingAbove(ram: Ram, b: u64, c: u64, va: nat)
    requires TableAddress(b) && TableAddress(c) && HasPage(ram, b) && HasPage(ram, c) && ram[c][0] == Link(b)
    requires RestAbsent(ram[b]) && RestAbsent(ram[c]) && GB1 <= va < TB256
    ensures Walk(ram, c, va) == NotPresent
  {
    hide Frame, IsPresent, IsWritable, IsLarge, Link;
    LinkLeadsOn(b);
    LinkLeadsOn(c);
    var i, j := va / GB512, va / GB1;
    assert i < ENTRIES;
    if i == 0 { assert 0 < j < ENTRIES; }
  }

  /** Pages are not cleared before they are used: an entry left over from earlier use
      of the second page stays in force. */
  lemma LeftoverIsMapped(ram: Ram, a: u64, b: u64, c: u64)
    requires TableAddress(a) && TableAddress(b) && TableAddress(c) && Linked(ram, a, b, c) && ram[b][1] == 0x83
    ensures Walk(ram, c, GB1) == Physical(0, true)
  {
    LinkLeadsOn(b);
    LinkLeadsOn(c);
    assert GB1 / GB512 == 0 && GB1 / GB1 == 1;
  }
}
