/** The channel object whose loop bodies are the device steps of the virtqueue model. */
module VirtioChannel {
  import opened Words
  import opened Vring
  import opened Virtqueue
  import opened DescriptorChain

  /** `order` visits every element of `s` once. */
  ghost predicate Enumerates(order: seq<u16>, s: set<u16>) {
    multiset(order) == multiset(s)
  }

  class Channel {
    const vring: Ring
    var consumed: u16
    var outstanding: set<u16>
    var incoming: seq<u16>
    var outgoing: seq<u16>

    ghost predicate Valid()
      reads this, vring, vring.availRing, vring.usedRing
    {
      vring.Valid()
    }

    ghost function View(): Device
      reads this, vring, vring.availRing, vring.usedRing
    {
      Device(vring.View(), consumed, outstanding, incoming, outgoing)
    }

    constructor (ring: Ring)
      requires ring.Valid()
      ensures Valid() && vring == ring && View() == Device(ring.View(), 0, {}, [], [])
    {
      vring := ring;
      consumed, outstanding, incoming, outgoing := 0, {}, [], [];
    }

    /** Hand the chain starting at `head` to the device.  One that does not map, or on
        which the walk does not return, is neither recorded nor sent. */
    method ProcessOne(head: u16, c: Chain) returns (fate: Fate)
      requires Valid()
      modifies this
      ensures Valid() && fate == FateOf(c, head)
      ensures View() == if fate.Sent? then Submit(old(View()), head) else old(View())
    {
      fate := Collect(c, head);
      if !fate.Sent? { return; }
      outstanding := outstanding + {head};
      incoming := incoming + [head];
    }

    /** One turn of the incoming worker; `c` is guest memory as it finds it. */
    method ConsumeOne(c: Chain) returns (found: bool, fate: Fate)
      requires Valid()
      modifies this, vring
      ensures Valid() && found == (old(consumed) != vring.availIdx)
      ensures found ==> fate == FateOf(c, old(NextHead(vring.View(), consumed)))
      ensures View() == if !found then old(View())
                        else if fate.Sent? then old(ConsumeHead(View()))
                        else old(View()).(consumed := Low16(old(consumed) + 1))
      ensures found ==> vring.usedFlags == (if old(consumed) + 1 < vring.availIdx then NO_NOTIFY else 0)
      ensures found && old(consumed) + 1 >= vring.availIdx ==> vring.availEvent == Low16(old(consumed) + 1)
    {
      hide FateOf;
      var has, flags, head := vring.GetBuf(consumed);
      found := has;
      fate := Outside;
      if found {
        consumed := Low16(consumed + 1);
        fate := ProcessOne(head, c);
      }
    }

    /** One turn of the outgoing worker: put on the used ring, maybe interrupt, forget. */
    method PutOne(len: u32, eventIdx: bool) returns (interrupt: bool)
      requires Valid() && outgoing != []
      modifies this, vring, vring.usedRing, vring.usedLen
      ensures Valid() && View() == old(PutHead(View()))
      ensures vring.usedLen[..] == old(vring.usedLen[..])[old(vring.usedIdx) % vring.num := len]
      ensures interrupt <==> if eventIdx then old(vring.usedEvent) == old(vring.usedIdx)
                             else old(vring.usedFlags) % 2 == 0
    {
      var head := outgoing[0];
      var event, suppressed := vring.PutBuf(head, len);
      interrupt := if eventIdx then event else !suppressed;
      outgoing := outgoing[1..];
      outstanding := outstanding - {head};
    }

    /** Resubmit what was outstanding, in the order the set happens to be walked, up to
        the first chain that no longer maps; that one ends the start with an error. */
    method ConsumeOutstanding(order: seq<u16>, c: Chain) returns (n: nat)
      requires Valid() && Enumerates(order, outstanding)
      modifies this
      ensures n <= |order| && (forall j | 0 <= j < n :: FateOf(c, order[j]).Sent?)
      ensures n < |order| ==> !FateOf(c, order[n]).Sent?
      ensures Valid() && View() == SubmitAll(old(View()), order[..n])
      ensures outstanding == old(outstanding) && incoming == old(incoming) + order[..n]
    {
      hide FateOf;
      for i := 0 to |order|
        invariant Valid() && View() == SubmitAll(old(View()), order[..i])
        invariant outstanding == old(outstanding) && incoming == old(incoming) + order[..i]
        invariant forall j | 0 <= j < i :: FateOf(c, order[j]).Sent?
      {
        assert order[i] in multiset(order);
        assert order[..i + 1][..i] == order[..i] && order[..i + 1] == order[..i] + [order[i]];
        var fate := ProcessOne(order[i], c);
        if !fate.Sent? { return i; }
      }
      assert order[..|order|] == order;
      return |order|;
    }

    /** The saved form of the outstanding set is a list without repetition. */
    method Save() returns (saved: u16, indices: seq<u16>)
      ensures saved == consumed && Enumerates(indices, outstanding)
    {
      saved, indices := consumed, [];
      var rest := outstanding;
      while rest != {}
        invariant multiset(indices) + multiset(rest) == multiset(outstanding)
        decreases rest
      {
        var x :| x in rest;
        assert multiset(rest) == multiset(rest - {x}) + multiset{x};
        rest, indices := rest - {x}, indices + [x];
      }
    }

    /** Loading fills an empty set from the list; channels start empty. */
    constructor Load(ring: Ring, saved: u16, indices: seq<u16>)
      requires ring.Valid()
      ensures Valid() && vring == ring
      ensures View() == Device(ring.View(), saved, set x | x in indices, [], [])
    {
      vring := ring;
      consumed, outstanding, incoming, outgoing := saved, {}, [], [];
      new;
      for i := 0 to |indices|
        invariant Valid() && View() == Device(ring.View(), saved, set x | x in indices[..i], [], [])
      {
        assert indices[..i + 1] == indices[..i] + [indices[i]];
        outstanding := outstanding + {indices[i]};
      }
      assert indices[..|indices|] == indices;
    }
  }

  /** Saving and loading give back the same set whatever order the list came in. */
  lemma SavedSetComesBack(indices: seq<u16>, outstanding: set<u16>)
    requires Enumerates(indices, outstanding)
    ensures (set x | x in indices) == outstanding
  {
    forall x ensures x in indices <==> x in outstanding { assert x in multiset(indices) <==> x in indices; }
  }

  function Resubmitted(s: State, order: seq<u16>): (t: State)
    requires WellSized(s.d.rings)
    ensures WellSized(t.d.rings)
  {
    if order == [] then s else Do(Resubmitted(s, order[..|order| - 1]), Resubmit(order[|order| - 1]))
  }

  lemma {:induction false} ResubmittedFields(s: State, order: seq<u16>)
    requires WellSized(s.d.rings)
    ensures Resubmitted(s, order).d == SubmitAll(s.d, order)
    ensures Resubmitted(s, order).w == s.w.(todo := s.w.todo - (set x | x in order), late := s.w.late - (set x | x in order))
  {
    if order != [] {
      var last, rest := order[|order| - 1], order[..|order| - 1];
      assert order == rest + [last];
      ResubmittedFields(s, rest);
      assert s.w.todo - (set x | x in order) == s.w.todo - (set x | x in rest) - {last};
      assert s.w.late - (set x | x in order) == s.w.late - (set x | x in rest) - {last};
    } else {
      assert s.w.todo - (set x | x in order) == s.w.todo && s.w.late - (set x | x in order) == s.w.late;
    }
  }

  /** The walk of the whole set, in any order, is the restart step followed by one
      resubmission for each head; then the walk can end, with all of them in the
      channel once. */
  lemma ResumeIsResubmissions(s: State, order: seq<u16>)
    requires WellSized(s.d.rings) && Enumerates(order, s.d.outstanding)
    ensures var r := Do(s, Restart);
            var t := Resubmitted(r, order);
            && t.d == SubmitAll(s.d.(incoming := [], outgoing := []), order)
            && t.w == r.w.(todo := {}) && Enabled(t, EndWalk) && Do(t, EndWalk).d == t.d
  {
    ResubmittedFields(Do(s, Restart), order);
    SavedSetComesBack(order, s.d.outstanding);
    assert s.d.outstanding - s.d.outstanding == {} && {} - s.d.outstanding == {};
  }
}
