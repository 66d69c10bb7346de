/**
 Regions of guest physical memory (machine/memory.go).

 Addresses are 64-bit and wrap.  A map of regions is kept sorted by start address; what
 it should be is `Ordered`: no region wraps and no two share an address.
 */
module Regions {
  import opened Words

  const PAGE: nat := 4096

  datatype Kind = Reserved | User | Acpi | Special

  /** The host memory behind a region: `len` bytes of `store` from `lo`, the first of
      them at host address `addr`. */
  datatype Backing = Nil | Slice(store: array<u8>, lo: nat, len: nat, addr: nat)

  /** `chunks` maps the offset of a chunk handed out to its size. */
  datatype Region = Region(start: u64, size: u64, kind: Kind, user: Backing, chunks: map<u64, u64>)

  function After(a: u64, n: u64): u64 { if a + n < WRAP64 then a + n else a + n - WRAP64 }

  function Minus(a: u64, b: u64): u64 { if a >= b then a - b else a - b + WRAP64 }

  function End(r: Region): u64 { After(r.start, r.size) }

  /** The end of a region before it wraps. */
  function Top(r: Region): nat { r.start + r.size }

  predicate Overlaps(r: Region, start: u64, size: u64) {
    || start <= r.start < After(start, size)
    || start < End(r) <= After(start, size)
  }

  predicate Contains(r: Region, start: u64, size: u64) {
    r.start <= start && End(r) >= After(start, size)
  }

  predicate Conflicts(m: seq<Region>, start: u64, size: u64) {
    exists i | 0 <= i < |m| :: Overlaps(m[i], start, size)
  }

  /** The overlap test is right for ranges that end below 2^64, except that it does not
      see a range lying strictly inside the region. */
  lemma OverlapsExactly(r: Region, start: u64, size: u64)
    requires 0 < r.size && Top(r) < WRAP64 && 0 < size && start + size < WRAP64
    ensures Overlaps(r, start, size) <==>
            (r.start < start + size && start < Top(r)) && !(r.start < start && start + size < Top(r))
  {
  }

  /** A range that ends exactly at 2^64 overlaps nothing. */
  lemma TopRangeOverlapsNothing(r: Region, start: u64, size: u64)
    requires start + size == WRAP64
    ensures !Overlaps(r, start, size)
  {
  }

  predicate Ordered(m: seq<Region>) {
    && (forall i | 0 <= i < |m| :: 0 < m[i].size && Top(m[i]) <= WRAP64)
    && (forall i, j | 0 <= i < j < |m| :: Top(m[i]) <= m[j].start)
  }

  /** Where a region that starts at `s` belongs. */
  function Position(m: seq<Region>, s: u64): (p: nat)
    ensures p <= |m| && (p < |m| ==> s < m[p].start)
    ensures forall i | 0 <= i < p :: m[i].start <= s
  {
    if m == [] || s < m[0].start then 0 else 1 + Position(m[1..], s)
  }

  /** A region appended to a sorted map and sorted in. */
  function Insert(m: seq<Region>, r: Region): seq<Region> {
    var p := Position(m, r.start);
    m[..p] + [r] + m[p..]
  }

  lemma {:induction false} PositionIs(m: seq<Region>, s: u64, p: nat)
    requires p <= |m| && (p < |m| ==> s < m[p].start)
    requires forall i | 0 <= i < p :: m[i].start <= s
    ensures Position(m, s) == p
  {
    if p > 0 { PositionIs(m[1..], s, p - 1); }
  }

  /** Inserting cannot repair a map. */
  lemma InsertKeepsDisorder(m: seq<Region>, r: Region)
    ensures Ordered(Insert(m, r)) ==> Ordered(m)
  {
    hide Insert;
    if Ordered(Insert(m, r)) {
      forall i, j | 0 <= i <= j < |m|
        ensures 0 < m[i].size && Top(m[i]) <= WRAP64 && (i < j ==> Top(m[i]) <= m[j].start)
      {
        OrderOfPart(m, r, i, j);
      }
    }
  }

  lemma OrderOfPart(m: seq<Region>, r: Region, i: nat, j: nat)
    requires Ordered(Insert(m, r)) && i <= j < |m|
    ensures 0 < m[i].size && Top(m[i]) <= WRAP64 && (i < j ==> Top(m[i]) <= m[j].start)
  {
    hide Ordered;
    var n, p := Insert(m, r), Position(m, r.start);
    var i', j' := if i < p then i else i + 1, if j < p then j else j + 1;
    assert n[i'] == m[i] && n[j'] == m[j];
    SizesPositive(n, i');
    if i < j { PairInOrder(n, i', j'); }
  }

  /** A map that holds a range running past 2^64 is not in order. */
  lemma InsertWrapped(m: seq<Region>, r: Region)
    requires Top(r) > WRAP64
    ensures !Ordered(Insert(m, r))
  {
    assert Insert(m, r)[Position(m, r.start)] == r;
  }

  /** Nor is one that holds two ranges with a byte in common. */
  lemma InsertClashing(m: seq<Region>, r: Region, k: nat)
    requires k < |m| && r.start < Top(m[k]) && m[k].start < Top(r)
    ensures !Ordered(Insert(m, r))
  {
    var p := Position(m, r.start);
    assert Insert(m, r)[p] == r && Insert(m, r)[if k < p then k else k + 1] == m[k];
  }

  /** The end of the regions before index `i`. */
  function TopBefore(m: seq<Region>, i: nat): nat
    requires i <= |m|
  {
    if i == 0 then 0 else Top(m[i - 1])
  }

  /** A region put in front of index `k`. */
  function Filled(m: seq<Region>, k: nat, r: Region): seq<Region>
    requires k <= |m|
  {
    m[..k] + [r] + m[k..]
  }

  lemma FilledInOrder(m: seq<Region>, k: nat, r: Region)
    requires Ordered(m) && k <= |m| && 0 < r.size
    requires TopBefore(m, k) <= r.start && Top(r) <= if k < |m| then m[k].start else WRAP64
    ensures Ordered(Filled(m, k, r))
  {
    var n := Filled(m, k, r);
    forall i, j | 0 <= i < j < |n| ensures Top(n[i]) <= n[j].start {
      FilledPair(m, k, r, i, j);
    }
    assert forall i | 0 <= i < |n| :: n[i] == if i < k then m[i] else if i == k then r else m[i - 1];
  }

  lemma FilledPair(m: seq<Region>, k: nat, r: Region, i: nat, j: nat)
    requires Ordered(m) && k <= |m| && i < j <= |m|
    requires TopBefore(m, k) <= r.start && Top(r) <= if k < |m| then m[k].start else WRAP64
    ensures Top(Filled(m, k, r)[i]) <= Filled(m, k, r)[j].start
  {
    hide Ordered;
    var i', j' := if i < k then i else i - 1, if j < k then j else j - 1;
    assert i != k ==> Filled(m, k, r)[i] == m[i'];
    assert j != k ==> Filled(m, k, r)[j] == m[j'];
    if i != k && j != k {
      PairInOrder(m, i', j');
    } else if i == k && j' > k {
      PairInOrder(m, k, j');
      SizesPositive(m, k);
    } else if j == k && i' < k - 1 {
      PairInOrder(m, i', k - 1);
    }
  }

  lemma PairInOrder(m: seq<Region>, i: nat, j: nat)
    requires Ordered(m) && i < j < |m|
    ensures Top(m[i]) <= m[j].start
  {
  }

  lemma SizesPositive(m: seq<Region>, i: nat)
    requires Ordered(m) && i < |m|
    ensures 0 < m[i].size && Top(m[i]) <= WRAP64 && TopBefore(m, i) <= m[i].start
  {
  }

  /** A range that goes in without a conflict leaves the map in order exactly when it
      does not lie strictly inside a region or, if it reaches the end of the address
      space, where no conflict is ever seen, when it ends there and starts behind all
      regions. */
  lemma AddKeepsOrder(m: seq<Region>, r: Region)
    requires Ordered(m) && 0 < r.size && !Conflicts(m, r.start, r.size)
    ensures Ordered(Insert(m, r)) <==>
            if Top(r) < WRAP64 then !Engulfed(m, r)
            else Top(r) == WRAP64 && (m == [] || Top(m[|m| - 1]) <= r.start)
  {
    hide Ordered, Conflicts, Insert;
    if Top(r) < WRAP64 {
      AddBelowTop(m, r);
    } else if Top(r) > WRAP64 {
      InsertWrapped(m, r);
    } else {
      AddAtTop(m, r);
    }
  }

  lemma AddBelowTop(m: seq<Region>, r: Region)
    requires Ordered(m) && 0 < r.size && Top(r) < WRAP64 && !Conflicts(m, r.start, r.size)
    ensures Ordered(Insert(m, r)) <==> !Engulfed(m, r)
  {
    hide Ordered, Conflicts;
    if k :| 0 <= k < |m| && m[k].start < r.start && Top(r) < Top(m[k]) {
      InsertClashing(m, r, k);
    } else {
      var p := Position(m, r.start);
      if p > 0 { SideOf(m, r, p - 1); }
      if p < |m| { SideOf(m, r, p); }
      FilledInOrder(m, p, r);
    }
  }

  lemma AddAtTop(m: seq<Region>, r: Region)
    requires Ordered(m) && 0 < r.size && Top(r) == WRAP64
    ensures Ordered(Insert(m, r)) <==> m == [] || Top(m[|m| - 1]) <= r.start
  {
    hide Ordered;
    if m != [] && Top(m[|m| - 1]) > r.start {
      InsertClashing(m, r, |m| - 1);
    } else {
      forall i | 0 <= i < |m| ensures m[i].start <= r.start {
        SizesPositive(m, i);
        if i < |m| - 1 { PairInOrder(m, i, |m| - 1); }
      }
      PositionIs(m, r.start, |m|);
      FilledInOrder(m, |m|, r);
    }
  }

  predicate Engulfed(m: seq<Region>, r: Region) {
    exists k | 0 <= k < |m| :: m[k].start < r.start && Top(r) < Top(m[k])
  }

  lemma SideOf(m: seq<Region>, r: Region, i: nat)
    requires Ordered(m) && 0 < r.size && Top(r) < WRAP64 && !Conflicts(m, r.start, r.size) && !Engulfed(m, r)
    requires i < |m|
    ensures if m[i].start <= r.start then Top(m[i]) <= r.start else Top(r) <= m[i].start
  {
    assert !Overlaps(m[i], r.start, r.size);
    assert 0 < m[i].size && Top(m[i]) <= WRAP64;
  }
}
