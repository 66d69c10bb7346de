/**
 The split ring as the device sees it: an available ring written by the guest and
 a used ring written by the device, both indexed by 16-bit counters that wrap.
 */
module Vring {
  import opened Words

  const NO_NOTIFY: u16 := 1
  const NO_INTERRUPT: u16 := 1

  /** The value of both rings and the fields around them. */
  datatype Rings = Rings(
    num: nat,
    availRing: seq<u16>, availIdx: u16,
    usedRing: seq<u16>, usedIdx: u16
  )

  predicate WellSized(r: Rings) {
    r.num > 0 && WRAP16 % r.num == 0 && |r.availRing| == r.num && |r.usedRing| == r.num
  }

  /** Guest side: put `head` in the next available slot and publish it. */
  function PublishHead(r: Rings, head: u16): Rings
    requires WellSized(r)
  {
    r.(availRing := r.availRing[r.availIdx % r.num := head], availIdx := Low16(r.availIdx + 1))
  }

  /** Device side: the head in the available slot that `consumed` selects. */
  function NextHead(r: Rings, consumed: u16): u16
    requires WellSized(r)
  {
    r.availRing[consumed % r.num]
  }

  /** Device side: put `head` in the next used slot and publish it. */
  function ReturnHead(r: Rings, head: u16): Rings
    requires WellSized(r)
  {
    r.(usedRing := r.usedRing[r.usedIdx % r.num := head], usedIdx := Low16(r.usedIdx + 1))
  }

  function ReturnAll(r: Rings, heads: seq<u16>): (t: Rings)
    requires WellSized(r)
    ensures WellSized(t) && t.usedIdx == Low16(r.usedIdx + |heads|)
  {
    if heads == [] then r else
      LowOfLow(r.usedIdx + |heads| - 1, 1);
      ReturnHead(ReturnAll(r, heads[..|heads| - 1]), heads[|heads| - 1])
  }

  /** The ring memory itself. */
  class Ring {
    const num: nat
    const availRing: array<u16>
    const usedRing: array<u16>
    const usedLen: array<u32>
    var availFlags: u16
    var availIdx: u16
    var usedEvent: u16
    var usedFlags: u16
    var usedIdx: u16
    var availEvent: u16

    ghost predicate Valid()
      reads this, availRing, usedRing
    {
      WellSized(View()) && usedLen.Length == num && availRing != usedRing
      && availRing as object != usedLen && usedRing as object != usedLen
    }

    ghost function View(): Rings
      reads this, availRing, usedRing
    {
      Rings(num, availRing[..], availIdx, usedRing[..], usedIdx)
    }

    constructor (size: nat)
      requires size > 0 && WRAP16 % size == 0
      ensures Valid() && num == size && availIdx == usedIdx == availEvent == usedFlags == 0
      ensures fresh(availRing) && fresh(usedRing) && fresh(usedLen)
    {
      num := size;
      availRing := new u16[size];
      usedRing := new u16[size];
      usedLen := new u32[size];
      availFlags, availIdx, usedEvent, usedFlags, usedIdx, availEvent := 0, 0, 0, 0, 0, 0;
    }

    /** Fetch the next head, and tell the guest whether to notify us of later ones.
        The comparison is on plain integers and does not wrap. */
    method GetBuf(consumed: u16) returns (found: bool, flags: u16, index: u16)
      requires Valid()
      modifies this`usedFlags, this`availEvent
      ensures Valid() && View() == old(View())
      ensures found <==> consumed != availIdx
      ensures found ==> index == NextHead(View(), consumed) && flags == availFlags
      ensures found && consumed + 1 < availIdx ==> usedFlags == NO_NOTIFY && availEvent == old(availEvent)
      ensures found && consumed + 1 >= availIdx ==> usedFlags == 0 && availEvent == Low16(consumed + 1)
      ensures !found ==> usedFlags == old(usedFlags) && availEvent == old(availEvent)
    {
      found, flags, index := false, 0, 0;
      if consumed != availIdx {
        if consumed + 1 < availIdx {
          usedFlags := NO_NOTIFY;
        } else {
          usedFlags := 0;
          availEvent := Low16(consumed + 1);
        }
        found, flags, index := true, availFlags, availRing[consumed % num];
      }
    }

    /** Return a head to the guest.  The suppression flag is read from the used side. */
    method PutBuf(index: u16, len: u32) returns (event: bool, suppressed: bool)
      requires Valid()
      modifies this`usedIdx, usedRing, usedLen
      ensures Valid() && View() == old(ReturnHead(View(), index))
      ensures usedLen[..] == old(usedLen[..])[old(usedIdx) % num := len]
      ensures event <==> usedEvent == old(usedIdx)
      ensures suppressed <==> usedFlags % 2 == NO_INTERRUPT
    {
      usedRing[usedIdx % num] := index;
      usedLen[usedIdx % num] := len;
      event := usedEvent == usedIdx;
      suppressed := usedFlags % 2 == NO_INTERRUPT;
      usedIdx := Low16(usedIdx + 1);
    }

    /** Return a batch; `raised` counts the calls that raised the event interrupt. */
    method PutAll(indices: seq<u16>, len: u32) returns (raised: nat)
      requires Valid() && |indices| < WRAP16
      modifies this`usedIdx, usedRing, usedLen
      ensures Valid() && View() == old(ReturnAll(View(), indices))
      ensures raised == if Low16(usedEvent - old(usedIdx)) < |indices| then 1 else 0
    {
      hide Low16;
      ghost var start := usedIdx;
      raised := 0;
      for i := 0 to |indices|
        invariant Valid() && View() == ReturnAll(old(View()), indices[..i])
        invariant raised == Raised(start, usedEvent, i)
      {
        var event, _ := PutBuf(indices[i], len);
        assert indices[..i + 1][..i] == indices[..i];
        if event { raised := raised + 1; }
      }
      assert indices[..|indices|] == indices;
      InterruptWindow(start, usedEvent, |indices|);
    }
  }

  /** How many of the `k` used indices from `start` on raise the event interrupt. */
  function Raised(start: u16, event: u16, k: nat): nat {
    if k == 0 then 0 else Raised(start, event, k - 1) + if Low16(start + k - 1) == event then 1 else 0
  }

  /** Of fewer than 2^16 returns with used_event fixed exactly one interrupts when
      used_event lies in the window of indices passed over, and none otherwise. */
  lemma {:induction false} InterruptWindow(start: u16, event: u16, k: nat)
    requires k <= WRAP16
    ensures Raised(start, event, k) == if Low16(event - start) < k then 1 else 0
  {
    hide Low16;
    if k > 0 {
      InterruptWindow(start, event, k - 1);
      HitsAtDistance(start, event, k - 1);
    }
  }

  /** The index `j` steps on is the event exactly when the event is `j` steps away. */
  lemma HitsAtDistance(start: u16, event: u16, j: nat)
    requires j < WRAP16
    ensures Low16(start + j) == event <==> Low16(event - start) == j
  {
    assert Low16(start + j) == if start + j < WRAP16 then start + j else start + j - WRAP16;
    assert Low16(event - start) == if event >= start then event - start else event - start + WRAP16;
  }

  /** The notification test of section 2.6.7.2 of VIRTIO 1.1, on 16-bit words. */
  predicate NeedEvent(event: u16, newIdx: u16, oldIdx: u16) {
    Low16(newIdx - event - 1) < Low16(newIdx - oldIdx)
  }

  /** It is the interval test on the unwrapped counters. */
  lemma NeedEventIsInterval(event: int, newIdx: int, oldIdx: int)
    requires oldIdx <= newIdx < oldIdx + WRAP16
    requires event <= newIdx < event + WRAP16
    ensures NeedEvent(Low16(event), Low16(newIdx), Low16(oldIdx)) <==> oldIdx <= event < newIdx
  {
    hide Low16;
    LowOfDifference(newIdx, event);
    LowOfDifference(newIdx, oldIdx);
    LowOfLow(Low16(newIdx) - Low16(event), -1);
    LowOfLow(newIdx - event, -1);
    LowOfDistance(newIdx - event - 1);
    LowOfDistance(newIdx - oldIdx);
  }

  lemma LowOfDistance(d: int)
    requires -1 <= d < WRAP16
    ensures Low16(d) == if d < 0 then WRAP16 - 1 else d
  {
  }

  /** A batch of returns interrupts the guest exactly when the standard says so. */
  lemma InterruptFollowsStandard(start: u16, event: u16, k: nat)
    requires k < WRAP16
    ensures Raised(start, event, k) > 0 <==> NeedEvent(event, Low16(start + k), start)
  {
    hide Raised, NeedEvent, Low16;
    InterruptWindow(start, event, k);
    var e := NearestBelow(start, event, k);
    NeedEventIsInterval(e, start + k, start);
    LowOfDistance(start);
  }

  /** The unwrapped counter that `event` stands for, at or below `start + k`. */
  lemma NearestBelow(start: u16, event: u16, k: nat) returns (e: int)
    requires k < WRAP16
    ensures e <= start + k < e + WRAP16 && Low16(e) == event
    ensures start <= e < start + k <==> Low16(event - start) < k
  {
    var d := if event >= start then event - start else event - start + WRAP16;
    assert Low16(event - start) == d;
    e := if d <= k then start + d else start + d - WRAP16;
  }
}
