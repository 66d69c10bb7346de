/**
 The lazily flushed register cache of one vcpu.

 KVM keeps the authoritative register file.  The monitor holds a copy that is
 valid when `cached` is set and has to be written back when `dirty` is set.
 General registers and special registers are two independent groups with the
 same discipline.
 */
module RegisterCache {

  type Regs = map<int, int>

  /** One register group.  `pending` records the writes made since the last
      flush; it is what a reader expects to see on top of KVM's own file. */
  datatype Group = Group(kvm: Regs, cache: Regs, cached: bool, dirty: bool, pending: Regs)
  {
    /** The value every register must appear to have. */
    function Current(): Regs { kvm + pending }
  }

  /** What every operation keeps, even when the guest ran behind a valid copy. */
  predicate WellFormed(g: Group) {
    (g.dirty ==> g.cached) && (!g.dirty ==> g.pending == map[])
  }

  predicate Coherent(g: Group) {
    WellFormed(g) && (g.cached ==> g.cache == g.Current())
  }

  /** Make the copy valid, optionally announcing a write. */
  function Refresh(g: Group, mark: bool): Group {
    g.(cache := if g.cached then g.cache else g.kvm, cached := true, dirty := g.dirty || mark)
  }

  /** An unknown register still refreshes and marks the group, and writes nothing. */
  function Write(g: Group, reg: int, val: int): Group {
    var r := Refresh(g, true);
    if reg in r.cache then r.(cache := r.cache[reg := val], pending := r.pending[reg := val]) else r
  }

  function Flush(g: Group): Group {
    if g.dirty then g.(kvm := g.cache, cached := false, dirty := false, pending := map[])
    else g.(cached := false)
  }

  /** Guest execution replaces KVM's register file and knows nothing of the copy. */
  function GuestRuns(g: Group, after: Regs): Group { g.(kvm := after) }

  /** Through a coherent cache a read sees KVM's file with the pending writes on top. */
  lemma ReadIsCurrent(g: Group)
    requires Coherent(g)
    ensures Coherent(Refresh(g, false)) && Refresh(g, false).cache == g.Current()
    ensures Refresh(g, false).Current() == g.Current()
  {
    assert g.kvm + map[] == g.kvm;
  }

  /** A write changes exactly the named register as later reads see it. */
  lemma WriteUpdatesCurrent(g: Group, reg: int, val: int)
    requires Coherent(g)
    ensures Coherent(Write(g, reg, val)) && Write(g, reg, val).dirty
    ensures Write(g, reg, val).Current() == if reg in g.Current() then g.Current()[reg := val] else g.Current()
  {
    assert g.kvm + map[] == g.kvm;
    assert Refresh(g, true).cache == g.Current();
  }

  /** Flushing restores coherence even after the copy went stale, and hands the
      pending writes of a coherent group to KVM. */
  lemma FlushSettles(g: Group)
    requires WellFormed(g)
    ensures Coherent(Flush(g)) && !Flush(g).dirty && !Flush(g).cached
    ensures Coherent(g) ==> Flush(g).kvm == g.Current() && Flush(g).Current() == g.Current()
  {
    assert g.kvm + map[] == g.kvm;
    assert g.cache + map[] == g.cache;
  }

  datatype Outcome = Done | IoctlFailed | UnknownRegister

  /** The cache as the monitor holds it.  `ok` stands for the answer of the ioctl. */
  class Registers {
    var kvm: Regs
    var cache: Regs
    var cached: bool
    var dirty: bool
    ghost var pending: Regs

    ghost function View(): Group reads this { Group(kvm, cache, cached, dirty, pending) }

    constructor (file: Regs)
      ensures View() == Group(file, file, false, false, map[]) && Coherent(View())
    {
      kvm, cache, cached, dirty, pending := file, file, false, false, map[];
    }

    method RefreshRegs(mark: bool, ok: bool) returns (r: Outcome)
      modifies this
      ensures r == if ok || old(cached) then Done else IoctlFailed
      ensures View() == if r.Done? then Refresh(old(View()), mark) else old(View())
    {
      if !cached {
        if !ok { return IoctlFailed; }
        cache := kvm;
        cached := true;
      }
      if mark { dirty := true; }
      return Done;
    }

    method FlushRegs(ok: bool) returns (r: Outcome)
      modifies this
      ensures r == if ok || !old(dirty) then Done else IoctlFailed
      ensures View() == if r.Done? then Flush(old(View())) else old(View())
    {
      if dirty {
        if !ok { return IoctlFailed; }
        kvm := cache;
        dirty := false;
        pending := map[];
      }
      cached := false;
      return Done;
    }

    method SetRegister(reg: int, val: int, ok: bool) returns (r: Outcome)
      modifies this
      ensures r == if !ok && !old(cached) then IoctlFailed
                   else if reg in Refresh(old(View()), true).cache then Done else UnknownRegister
      ensures View() == if r.IoctlFailed? then old(View()) else Write(old(View()), reg, val)
      ensures old(Coherent(View())) ==> Coherent(View())
    {
      WriteUpdatesCurrentIfCoherent(View(), reg, val);
      r := RefreshRegs(true, ok);
      if r.Done? {
        if reg in cache {
          cache, pending := cache[reg := val], pending[reg := val];
        } else {
          r := UnknownRegister;
        }
      }
    }

    method GetRegister(reg: int, ok: bool) returns (r: Outcome, val: int)
      modifies this
      ensures r == if !ok && !old(cached) then IoctlFailed
                   else if reg in Refresh(old(View()), false).cache then Done else UnknownRegister
      ensures View() == if r.IoctlFailed? then old(View()) else Refresh(old(View()), false)
      ensures r.Done? && old(Coherent(View())) ==>
                reg in old(View().Current()) && val == old(View().Current())[reg]
    {
      if Coherent(View()) { ReadIsCurrent(View()); }
      r := RefreshRegs(false, ok);
      val := 0;
      if r.Done? {
        if reg in cache { val := cache[reg]; } else { r := UnknownRegister; }
      }
    }
  }

  lemma WriteUpdatesCurrentIfCoherent(g: Group, reg: int, val: int)
    ensures Coherent(g) ==> Coherent(Write(g, reg, val))
  {
    if Coherent(g) { WriteUpdatesCurrent(g, reg, val); }
  }
}
