/**
 Collecting the buffer of a descriptor chain (machine/virtio.go, processOne).

 The walk follows `next` as long as descriptors have one.  It has no guard against a
 chain that comes back to itself, and none against an index outside the table.
 */
module DescriptorChain {
  import opened Words

  datatype Descriptor = Descriptor(addr: u64, len: u32, hasNext: bool, next: u16, isWrite: bool, indirect: bool)

  datatype Segment = Segment(addr: u64, len: u32)

  /** What the walk comes to.  `Endless` means that it never returns, and `Outside` that
      it reads a descriptor that is none. */
  datatype Fate = Sent(readonly: bool, segments: seq<Segment>) | Unmapped | Outside | Endless

  /** The table, and the ranges of guest memory that can be mapped. */
  datatype Chain = Chain(table: seq<Descriptor>, maps: (u64, u32) -> bool)

  predicate Blocks(c: Chain, d: Descriptor) { !d.indirect && !c.maps(d.addr, d.len) }

  /** Indirect descriptors contribute nothing. */
  function Own(d: Descriptor): seq<Segment> { if d.indirect then [] else [Segment(d.addr, d.len)] }

  /** The walk from descriptor `i` after at most `n` descriptors; Endless if it is still
      going on. */
  function WalkFor(c: Chain, i: u16, n: nat): Fate
    decreases n
  {
    if n == 0 then Endless
    else if i >= |c.table| then Outside
    else
      var d := c.table[i];
      if Blocks(c, d) then Unmapped
      else if !d.hasNext then Sent(!d.isWrite, Own(d))
      else match WalkFor(c, d.next, n - 1)
           case Sent(_, segments) => Sent(!d.isWrite, Own(d) + segments)
           case other => other
  }

  /** The fate of a chain. */
  function FateOf(c: Chain, head: u16): Fate { WalkFor(c, head, |c.table| + 1) }

  /** The walk passes a descriptor and goes on. */
  predicate Passes(c: Chain, i: u16) { Usable(c, i) && c.table[i].hasNext }

  /** A descriptor of the table that is indirect or can be mapped. */
  predicate Usable(c: Chain, i: u16) {
    i < |c.table| && (c.table[i].indirect || c.maps(c.table[i].addr, c.table[i].len))
  }

  predicate Refused(c: Chain, i: u16) {
    i < |c.table| && !c.table[i].indirect && !c.maps(c.table[i].addr, c.table[i].len)
  }

  predicate Last(c: Chain, i: u16) { Usable(c, i) && !c.table[i].hasNext }

  function After(c: Chain, i: u16): u16 { if i < |c.table| then c.table[i].next else i }

  /** The descriptor reached after `k` hops. */
  function Nth(c: Chain, i: u16, k: nat): u16 { if k == 0 then i else After(c, Nth(c, i, k - 1)) }

  predicate AllPass(c: Chain, i: u16, n: nat) { forall k | 0 <= k < n :: Passes(c, Nth(c, i, k)) }

  lemma {:induction false} NthShift(c: Chain, i: u16, k: nat)
    ensures Nth(c, i, k + 1) == Nth(c, After(c, i), k)
  {
    if k > 0 { NthShift(c, i, k - 1); }
  }

  /** The walk is still going on after `n` descriptors exactly when it passed all of them. */
  lemma {:induction false} StillGoing(c: Chain, i: u16, n: nat)
    ensures WalkFor(c, i, n).Endless? <==> AllPass(c, i, n)
    decreases n
  {
    if n > 0 {
      assert Nth(c, i, 0) == i;
      StillGoing(c, After(c, i), n - 1);
      forall k: nat ensures Nth(c, i, k + 1) == Nth(c, After(c, i), k) { NthShift(c, i, k); }
      if !Passes(c, i) {
        assert !Passes(c, Nth(c, i, 0));
      } else if AllPass(c, i, n) {
        forall k | 0 <= k < n - 1 ensures Passes(c, Nth(c, After(c, i), k)) { assert Passes(c, Nth(c, i, k + 1)); }
      } else {
        var k :| 0 <= k < n && !Passes(c, Nth(c, i, k));
        var j := k - 1;
        assert 0 <= j < n - 1 && Nth(c, i, j + 1) == Nth(c, After(c, i), j);
        assert !Passes(c, Nth(c, After(c, i), j));
      }
    }
  }

  /** The first `n` descriptors met. */
  function Seen(c: Chain, i: u16, n: nat): set<u16> {
    if n == 0 then {} else Seen(c, i, n - 1) + {Nth(c, i, n - 1)}
  }

  lemma {:induction false} SeenAt(c: Chain, i: u16, n: nat, x: u16) returns (k: nat)
    requires x in Seen(c, i, n)
    ensures k < n && Nth(c, i, k) == x
  {
    if Nth(c, i, n - 1) == x { k := n - 1; } else { k := SeenAt(c, i, n - 1, x); }
  }

  /** Either one was met twice, or as many were seen as were met. */
  lemma {:induction false} TwiceOrAll(c: Chain, i: u16, n: nat) returns (twice: bool, a: nat, b: nat)
    ensures twice ==> a < b < n && Nth(c, i, a) == Nth(c, i, b)
    ensures !twice ==> |Seen(c, i, n)| == n
  {
    twice, a, b := false, 0, 0;
    if n > 0 {
      twice, a, b := TwiceOrAll(c, i, n - 1);
      if !twice && Nth(c, i, n - 1) in Seen(c, i, n - 1) {
        a := SeenAt(c, i, n - 1, Nth(c, i, n - 1));
        twice, b := true, n - 1;
      }
    }
  }

  /** More descriptors met than there are indices below `m`: one is met twice. */
  lemma MetTwice(c: Chain, i: u16, m: nat) returns (a: nat, b: nat)
    requires forall k | 0 <= k <= m :: Nth(c, i, k) < m
    ensures a < b <= m && Nth(c, i, a) == Nth(c, i, b)
  {
    var twice;
    twice, a, b := TwiceOrAll(c, i, m + 1);
    var seen := Seen(c, i, m + 1);
    forall x | x in seen ensures x < m { var _ := SeenAt(c, i, m + 1, x); }
    FewBelow(seen, m);
  }

  lemma {:induction false} FewBelow(s: set<u16>, m: nat)
    requires forall x | x in s :: x < m
    ensures |s| <= m
  {
    if m > 0 {
      if m <= WRAP16 {
        var top: u16 := m - 1;
        FewBelow(s - {top}, m - 1);
      } else {
        FewBelow(s, m - 1);
      }
    }
  }

  /** A walk that comes back to a descriptor passes for ever what it passed in between. */
  lemma {:induction false} Periodic(c: Chain, i: u16, a: nat, b: nat, k: nat)
    requires a < b && Nth(c, i, a) == Nth(c, i, b) && forall j | 0 <= j < b :: Passes(c, Nth(c, i, j))
    ensures Passes(c, Nth(c, i, k))
    decreases k
  {
    if k >= b {
      SamePeriod(c, i, a, b, k - b);
      Periodic(c, i, a, b, k - (b - a));
    }
  }

  lemma {:induction false} SamePeriod(c: Chain, i: u16, a: nat, b: nat, d: nat)
    requires a < b && Nth(c, i, a) == Nth(c, i, b)
    ensures Nth(c, i, a + d) == Nth(c, i, b + d)
  {
    if d > 0 { SamePeriod(c, i, a, b, d - 1); }
  }

  /** A walk that goes on past as many descriptors as the table has never returns. */
  lemma GoesOnForEver(c: Chain, head: u16, n: nat)
    requires WalkFor(c, head, |c.table| + 1).Endless?
    ensures WalkFor(c, head, n).Endless?
  {
    var m := |c.table|;
    StillGoing(c, head, m + 1);
    forall k | 0 <= k <= m ensures Nth(c, head, k) < m { assert Passes(c, Nth(c, head, k)); }
    var a, b := MetTwice(c, head, m);
    forall k | 0 <= k < n ensures Passes(c, Nth(c, head, k)) { Periodic(c, head, a, b, k); }
    StillGoing(c, head, n);
  }

  /** Once the walk has returned, looking longer changes nothing. */
  lemma {:induction false} FateIsFinal(c: Chain, i: u16, n: nat, m: nat)
    requires n <= m && !WalkFor(c, i, n).Endless?
    ensures WalkFor(c, i, m) == WalkFor(c, i, n)
    decreases n
  {
    if Passes(c, i) { FateIsFinal(c, After(c, i), n - 1, m - 1); }
  }

  /** The fate of a chain is the outcome of its walk, and Endless exactly when there is
      none, however long one waits. */
  lemma FateIsOutcome(c: Chain, head: u16)
    ensures FateOf(c, head).Endless? <==> forall n: nat :: WalkFor(c, head, n).Endless?
    ensures forall n: nat | !WalkFor(c, head, n).Endless? :: WalkFor(c, head, n) == FateOf(c, head)
  {
    hide WalkFor;
    if FateOf(c, head).Endless? {
      forall n: nat ensures WalkFor(c, head, n).Endless? { GoesOnForEver(c, head, n); }
    } else {
      var k := |c.table| + 1;
      assert !WalkFor(c, head, k).Endless?;
      forall n: nat | !WalkFor(c, head, n).Endless? ensures WalkFor(c, head, n) == FateOf(c, head) {
        if n <= k { FateIsFinal(c, head, n, k); } else { FateIsFinal(c, head, k, n); }
      }
    }
  }

  /** A chain never returns exactly if, before anything stops it, it comes back to a
      descriptor it has passed. */
  lemma EndlessMeansCycle(c: Chain, head: u16)
    ensures FateOf(c, head).Endless? <==>
            exists a, b :: 0 <= a < b && Nth(c, head, a) == Nth(c, head, b) && AllPass(c, head, b)
  {
    hide WalkFor;
    var m := |c.table|;
    StillGoing(c, head, m + 1);
    if FateOf(c, head).Endless? {
      forall k | 0 <= k <= m ensures Nth(c, head, k) < m { assert Passes(c, Nth(c, head, k)); }
      var a, b := MetTwice(c, head, m);
      assert AllPass(c, head, b);
    } else if exists a, b :: 0 <= a < b && Nth(c, head, a) == Nth(c, head, b) && AllPass(c, head, b) {
      var a, b :| 0 <= a < b && Nth(c, head, a) == Nth(c, head, b) && AllPass(c, head, b);
      forall k | 0 <= k < m + 1 ensures Passes(c, Nth(c, head, k)) { Periodic(c, head, a, b, k); }
    }
  }

  // ----- What a chain is collected to

  /** The ranges of the first `n` descriptors of a chain, in order, without the indirect ones. */
  function Ranges(c: Chain, head: u16, n: nat): seq<Segment> {
    if n == 0 then [] else Ranges(c, head, n - 1) + RangeAt(c, Nth(c, head, n - 1))
  }

  function RangeAt(c: Chain, i: u16): seq<Segment> {
    if i < |c.table| && !c.table[i].indirect then [Segment(c.table[i].addr, c.table[i].len)] else []
  }

  /** The descriptor after `n` hops is where the walk stops. */
  ghost predicate StopsAt(c: Chain, head: u16, n: nat) { AllPass(c, head, n) && !Passes(c, Nth(c, head, n)) }

  /** The outcome of a chain: all ranges up to a last descriptor, with the direction of
      the first; or the first range that cannot be mapped or index outside the table; or
      none if the walk never stops. */
  ghost predicate IsFate(c: Chain, head: u16, fate: Fate) {
    match fate
    case Sent(readonly, segments) =>
      exists n: nat :: && AllPass(c, head, n) && Last(c, Nth(c, head, n)) && head < |c.table|
                       && readonly == !c.table[head].isWrite && segments == Ranges(c, head, n + 1)
    case Unmapped => exists n: nat :: AllPass(c, head, n) && Refused(c, Nth(c, head, n))
    case Outside => exists n: nat :: AllPass(c, head, n) && Nth(c, head, n) >= |c.table|
    case Endless => forall n: nat :: AllPass(c, head, n)
  }

  lemma {:induction false} RangesShift(c: Chain, i: u16, n: nat)
    requires i < |c.table|
    ensures Ranges(c, i, n + 1) == Own(c.table[i]) + Ranges(c, After(c, i), n)
  {
    hide Ranges, Nth;
    RangesStep(c, i, n);
    if n == 0 {
      NoRanges(c, i);
      NoRanges(c, After(c, i));
    } else {
      RangesShift(c, i, n - 1);
      NthShift(c, i, n - 1);
      RangesStep(c, After(c, i), n - 1);
      hide RangeAt, Own;
      var own, rest, x := Own(c.table[i]), Ranges(c, After(c, i), n - 1), RangeAt(c, Nth(c, i, n));
      assert own + rest + x == own + (rest + x);
    }
  }

  lemma RangesStep(c: Chain, i: u16, n: nat)
    ensures Ranges(c, i, n + 1) == Ranges(c, i, n) + RangeAt(c, Nth(c, i, n))
  {
  }

  lemma NoRanges(c: Chain, i: u16)
    ensures Ranges(c, i, 0) == [] && Nth(c, i, 0) == i
  {
  }

  lemma {:induction false} AllPassShift(c: Chain, i: u16, n: nat)
    requires n > 0 && AllPass(c, i, n)
    ensures Passes(c, i) && AllPass(c, After(c, i), n - 1)
  {
    assert Nth(c, i, 0) == i;
    forall k | 0 <= k < n - 1 ensures Passes(c, Nth(c, After(c, i), k)) {
      NthShift(c, i, k);
      assert Passes(c, Nth(c, i, k + 1));
    }
  }

  /** A walk that stops after `n` hops yields what the last descriptor makes of it. */
  lemma {:induction false} WalkStops(c: Chain, i: u16, n: nat, m: nat)
    requires StopsAt(c, i, n) && m > n
    ensures var j := Nth(c, i, n);
            && (j >= |c.table| ==> WalkFor(c, i, m) == Outside)
            && (Refused(c, j) ==> WalkFor(c, i, m) == Unmapped)
            && (Last(c, j) ==> i < |c.table| && WalkFor(c, i, m) == Sent(!c.table[i].isWrite, Ranges(c, i, n + 1)))
    decreases n
  {
    if n > 0 {
      AllPassShift(c, i, n);
      NthShift(c, i, n - 1);
      WalkStops(c, After(c, i), n - 1, m - 1);
      RangesShift(c, i, n);
    } else {
      if i < |c.table| {
        RangesShift(c, i, 0);
        assert Own(c.table[i]) + Ranges(c, After(c, i), 0) == Own(c.table[i]);
      }
    }
  }

  /** The first descriptor that is not passed. */
  lemma {:induction false} FirstStop(c: Chain, i: u16, n: nat) returns (k: nat)
    requires !AllPass(c, i, n)
    ensures k < n && StopsAt(c, i, k)
  {
    if AllPass(c, i, n - 1) { k := n - 1; } else { k := FirstStop(c, i, n - 1); }
  }

  /** The fate of a chain, and no other, is its outcome. */
  lemma FateIsTheOutcome(c: Chain, head: u16, fate: Fate)
    ensures IsFate(c, head, fate) <==> fate == FateOf(c, head)
  {
    hide WalkFor, Passes;
    StillGoing(c, head, |c.table| + 1);
    if FateOf(c, head).Endless? {
      forall n: nat ensures AllPass(c, head, n) { GoesOnForEver(c, head, n); StillGoing(c, head, n); }
      EndlessIsAlone(c, head, fate);
    } else {
      var n := FirstStop(c, head, |c.table| + 1);
      WalkStops(c, head, n, |c.table| + 1);
      StopIsAlone(c, head, n, fate);
    }
  }

  lemma EndlessIsAlone(c: Chain, head: u16, fate: Fate)
    requires forall n: nat :: AllPass(c, head, n)
    ensures IsFate(c, head, fate) <==> fate.Endless?
  {
    forall n: nat ensures Passes(c, Nth(c, head, n)) { assert AllPass(c, head, n + 1); }
  }

  lemma OneStop(c: Chain, head: u16, k: nat, n: nat)
    requires StopsAt(c, head, k) && StopsAt(c, head, n)
    ensures k == n
  {
    hide Passes, Nth;
    assert k < n ==> Passes(c, Nth(c, head, k));
    assert n < k ==> Passes(c, Nth(c, head, n));
  }

  /** Walks stop in one place, and there for one reason. */
  lemma StopIsAlone(c: Chain, head: u16, n: nat, fate: Fate)
    requires StopsAt(c, head, n)
    ensures var j := Nth(c, head, n);
            IsFate(c, head, fate) <==>
              || (fate.Outside? && j >= |c.table|) || (fate.Unmapped? && Refused(c, j))
              || (Last(c, j) && head < |c.table| && fate == Sent(!c.table[head].isWrite, Ranges(c, head, n + 1)))
    ensures Nth(c, head, n) >= |c.table| || Refused(c, Nth(c, head, n)) || Last(c, Nth(c, head, n))
    ensures head >= |c.table| ==> n == 0
  {
    forall k: nat | StopsAt(c, head, k) ensures k == n {
      OneStop(c, head, k, n);
    }
    assert !AllPass(c, head, n + 1);
    assert Nth(c, head, 0) == head;
  }

  // ----- The walk itself

  function Prepend(readonly: bool, segments: seq<Segment>, rest: Fate): Fate {
    if rest.Sent? then Sent(readonly, segments + rest.segments) else rest
  }

  lemma WalkStep(c: Chain, i: u16, n: nat)
    requires n > 0
    ensures i >= |c.table| ==> WalkFor(c, i, n) == Outside
    ensures i < |c.table| && Blocks(c, c.table[i]) ==> WalkFor(c, i, n) == Unmapped
    ensures i < |c.table| && !Blocks(c, c.table[i]) ==>
              var d := c.table[i];
              WalkFor(c, i, n) == Prepend(!d.isWrite, Own(d), if d.hasNext then WalkFor(c, d.next, n - 1) else Sent(true, []))
  {
    if i < |c.table| { assert Own(c.table[i]) + [] == Own(c.table[i]); }
  }

  lemma PrependTwice(readonly: bool, a: seq<Segment>, other: bool, b: seq<Segment>, rest: Fate)
    ensures Prepend(readonly, a, Prepend(other, b, rest)) == Prepend(readonly, a + b, rest)
  {
    if rest.Sent? { assert a + (b + rest.segments) == a + b + rest.segments; }
  }

  /** Collect the segments of a chain, descriptor by descriptor.  A walk that has met more
      descriptors than the table has will never return. */
  method Collect(c: Chain, head: u16) returns (fate: Fate)
    ensures fate == FateOf(c, head) && IsFate(c, head, fate)
  {
    hide WalkFor, IsFate;
    FateIsTheOutcome(c, head, FateOf(c, head));
    var i: u16, n := head, 0;
    var segments, readonly := [], true;
    while n <= |c.table|
      invariant n <= |c.table| + 1
      invariant n == 0 ==> i == head && segments == []
      invariant n > 0 ==> FateOf(c, head) == Prepend(readonly, segments, WalkFor(c, i, |c.table| + 1 - n))
    {
      WalkStep(c, i, |c.table| + 1 - n);
      if i >= |c.table| { return Outside; }
      var d := c.table[i];
      if n == 0 { readonly := !d.isWrite; }
      ghost var before, rest := segments, if d.hasNext then WalkFor(c, d.next, |c.table| - n) else Sent(true, []);
      if !d.indirect {
        if !c.maps(d.addr, d.len) { return Unmapped; }
        segments := segments + [Segment(d.addr, d.len)];
      }
      assert segments == before + Own(d);
      PrependTwice(readonly, before, !d.isWrite, Own(d), rest);
      if !d.hasNext { return Sent(readonly, segments); }
      i, n := d.next, n + 1;
    }
    NotYet(c, i);
    return Endless;
  }

  lemma NotYet(c: Chain, i: u16)
    ensures WalkFor(c, i, 0) == Endless
  {
  }
}
