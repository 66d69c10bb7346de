/**
 The life of a head on one virtqueue, across suspend and resume.

 The guest publishes heads and reaps used ones.  The incoming worker consumes a
 head, records it as outstanding and sends it on `incoming`.  The device takes
 buffers from there, finishes them in any order and sends them on `outgoing`.
 The outgoing worker puts them on the used ring and forgets them.  A restart
 keeps ring memory, `consumed` and `outstanding` and loses everything else; the
 start routine then walks the outstanding set and resubmits what it meets, with
 both workers already running and the guest not yet.

 Each loop body is one step.
 */
module Virtqueue {
  import opened Words
  import opened Vring

  /** What the device holds: ring memory, saved state and the two channels. */
  datatype Device = Device(
    rings: Rings, consumed: u16, outstanding: set<u16>,
    incoming: seq<u16>, outgoing: seq<u16>
  )

  /** The rest of the world, and the history the properties speak about. */
  datatype World = World(
    alive: bool,             // the incoming worker has not returned
    held: multiset<u16>,     // buffers inside the device driver
    walking: bool,           // the start routine has not finished its walk
    todo: set<u16>,          // heads saved as outstanding that the walk has yet to resubmit
    late: set<u16>,          // heads that became outstanding meanwhile, which it may meet too
    lastUsed: u16, out: set<u16>,
    published: seq<u16>, taken: seq<u16>, returned: seq<u16>, reaped: seq<u16>,
    lost: multiset<u16>      // heads whose descriptors could not be mapped
  )

  datatype State = State(d: Device, w: World)

  datatype Action =
    | Publish(head: u16) | Reap
    | Consume | ConsumeUnmapped
    | Accept | Finish(head: u16) | Put
    | Restart | Resubmit(head: u16) | EndWalk

  function Fresh(rings: Rings): State {
    State(Device(rings, 0, {}, [], []),
          World(true, multiset{}, false, {}, {}, 0, {}, [], [], [], [], multiset{}))
  }

  ghost predicate Init(s: State) {
    && WellSized(s.d.rings) && s.d.rings.num < WRAP16 && s.d.rings.availIdx == s.d.rings.usedIdx == 0
    && s == Fresh(s.d.rings)
  }

  // ----- Device steps, shared with the class below

  /** consumeOne with a descriptor chain that maps. */
  function ConsumeHead(d: Device): Device
    requires WellSized(d.rings)
  {
    Submit(d.(consumed := Low16(d.consumed + 1)), NextHead(d.rings, d.consumed))
  }

  /** processOne */
  function Submit(d: Device, head: u16): Device {
    d.(outstanding := d.outstanding + {head}, incoming := d.incoming + [head])
  }

  function SubmitAll(d: Device, heads: seq<u16>): Device {
    if heads == [] then d else Submit(SubmitAll(d, heads[..|heads| - 1]), heads[|heads| - 1])
  }

  /** One put-then-delete of the outgoing worker. */
  function PutHead(d: Device): Device
    requires WellSized(d.rings) && d.outgoing != []
  {
    var head := d.outgoing[0];
    d.(rings := ReturnHead(d.rings, head), outgoing := d.outgoing[1..], outstanding := d.outstanding - {head})
  }

  // ----- Steps

  /** The incoming worker may run during the walk; the guest may not, since its cpus
      are started after all devices. */
  predicate Enabled(s: State, a: Action) {
    && WellSized(s.d.rings)
    && match a
       case Publish(head) => !s.w.walking && head < s.d.rings.num && head !in s.w.out
       case Reap => !s.w.walking && s.w.lastUsed != s.d.rings.usedIdx
       case Consume => s.w.alive && s.d.consumed != s.d.rings.availIdx
       case ConsumeUnmapped => s.w.alive && s.d.consumed != s.d.rings.availIdx
       case Accept => s.d.incoming != []
       case Finish(head) => head in s.w.held
       case Put => s.d.outgoing != []
       case Restart => true
       case Resubmit(head) => s.w.walking && head in s.w.todo + s.w.late && head in s.d.outstanding
       case EndWalk => s.w.walking && s.w.todo == {}
  }

  function Do(s: State, a: Action): State
    requires WellSized(s.d.rings)
  {
    var d, w := s.d, s.w;
    match a
    case Publish(head) =>
      State(d.(rings := PublishHead(d.rings, head)), w.(out := w.out + {head}, published := w.published + [head]))
    case Reap =>
      var head := d.rings.usedRing[w.lastUsed % d.rings.num];
      State(d, w.(lastUsed := Low16(w.lastUsed + 1), out := w.out - {head}, reaped := w.reaped + [head]))
    case Consume =>
      var head := NextHead(d.rings, d.consumed);
      State(ConsumeHead(d), w.(taken := w.taken + [head], late := if w.walking then w.late + {head} else w.late))
    case ConsumeUnmapped =>
      var head := NextHead(d.rings, d.consumed);
      State(d.(consumed := Low16(d.consumed + 1)),
            w.(alive := false, taken := w.taken + [head], lost := w.lost + multiset{head}))
    case Accept =>
      if d.incoming == [] then s
      else State(d.(incoming := d.incoming[1..]), w.(held := w.held + multiset{d.incoming[0]}))
    case Finish(head) =>
      State(d.(outgoing := d.outgoing + [head]), w.(held := w.held - multiset{head}))
    case Put =>
      if d.outgoing == [] then s
      else State(PutHead(d), w.(returned := w.returned + [d.outgoing[0]]))
    case Restart =>
      State(d.(incoming := [], outgoing := []),
            w.(alive := true, held := multiset{}, walking := true, todo := d.outstanding, late := {}))
    case Resubmit(head) =>
      State(Submit(d, head), w.(todo := w.todo - {head}, late := w.late - {head}))
    case EndWalk =>
      State(d, w.(walking := false, late := {}))
  }

  // ----- What every step keeps

  ghost predicate Indices(s: State) {
    && WellSized(s.d.rings) && s.d.rings.num < WRAP16
    && s.d.rings.availIdx == Low16(|s.w.published|) && s.d.consumed == Low16(|s.w.taken|)
    && s.d.rings.usedIdx == Low16(|s.w.returned|) && s.w.lastUsed == Low16(|s.w.reaped|)
  }

  /** Reading a log through the ring: prefix consumed, rest still in its slots. */
  ghost predicate Window(ring: seq<u16>, log: seq<u16>, read: seq<u16>) {
    && |ring| > 0 && read <= log
    && (forall n {:trigger log[n]} | |read| <= n < |log| :: ring[n % |ring|] == log[n])
  }

  /** Outstanding is exactly the heads consumed and not yet returned. */
  ghost predicate Balanced(s: State) {
    multiset(s.w.taken) == multiset(s.w.returned) + multiset(s.d.outstanding) + s.w.lost
  }

  ghost predicate Accounts(s: State) {
    && Balanced(s)
    && multiset(s.w.published) == multiset(s.w.reaped) + multiset(s.w.out)
    && multiset(s.d.outstanding) ==
         multiset(s.d.incoming) + s.w.held + multiset(s.d.outgoing) + multiset(s.w.todo)
    && (forall head | head in s.w.out :: head < s.d.rings.num)
  }

  /** Nothing waits in the available ring. */
  predicate Drained(d: Device) { d.consumed == d.rings.availIdx }

  /** Heads are left to resubmit only during a walk. */
  predicate Calm(s: State) { s.w.walking || s.w.todo == {} }

  /** The walk has the outstanding set to itself. */
  predicate Alone(s: State) { s.w.walking ==> s.w.late == {} && Drained(s.d) }

  ghost predicate Inv(s: State) {
    && Indices(s) && Calm(s)
    && Window(s.d.rings.availRing, s.w.published, s.w.taken)
    && Window(s.d.rings.usedRing, s.w.returned, s.w.reaped)
    && Accounts(s)
  }

  lemma Cancel<T>(e: multiset<T>, x: multiset<T>, y: multiset<T>)
    requires e + x == e + y
    ensures x == y
  {
    forall k ensures x[k] == y[k] { assert (e + x)[k] == e[k] + x[k] && (e + y)[k] == e[k] + y[k]; }
  }

  /** Heads the guest has out are spread over ring slots and the device. */
  lemma Spread(s: State)
    requires Inv(s)
    ensures multiset(s.w.out) == multiset(s.w.published[|s.w.taken|..]) + multiset(s.w.returned[|s.w.reaped|..])
                                 + multiset(s.d.outstanding) + s.w.lost
  {
    var w := s.w;
    assert w.published == w.taken + w.published[|w.taken|..];
    assert w.returned == w.reaped + w.returned[|w.reaped|..];
    Cancel(multiset(w.reaped), multiset(w.out),
           multiset(w.published[|w.taken|..]) + multiset(w.returned[|w.reaped|..]) + multiset(s.d.outstanding) + w.lost);
  }

  lemma SpreadCount(s: State)
    requires Inv(s)
    ensures |s.w.out| <= s.d.rings.num
    ensures |s.w.published| - |s.w.taken| + |s.w.returned| - |s.w.reaped|
              + |s.d.incoming| + |s.w.held| + |s.d.outgoing| + |s.w.todo| + |s.w.lost| == |s.w.out|
  {
    Spread(s);
    var w := s.w;
    assert |multiset(w.out)| == |w.out| && |multiset(w.todo)| == |w.todo|;
    assert |multiset(s.d.outstanding)| == |s.d.incoming| + |w.held| + |s.d.outgoing| + |w.todo|;
    BoundedSet(w.out, s.d.rings.num);
  }

  lemma {:induction false} BoundedSet(s: set<u16>, n: nat)
    requires forall x | x in s :: x < n
    ensures |s| <= n
    ensures forall x: u16 | x < n && x !in s :: |s| < n
  {
    if n > 0 {
      if n <= WRAP16 {
        var m: u16 := n - 1;
        BoundedSet(s - {m}, n - 1);
        forall x: u16 | x < n && x !in s ensures |s| < n {
          if m in s { assert x !in s - {m}; }
        }
      } else {
        BoundedSet(s, n - 1);
      }
    }
  }

  /** Appending to a log through its ring leaves the unread entries alone. */
  lemma WindowPush(ring: seq<u16>, log: seq<u16>, read: seq<u16>, x: u16)
    requires Window(ring, log, read) && |log| - |read| < |ring|
    ensures Window(ring[|log| % |ring| := x], log + [x], read)
  {
    forall n | |read| <= n < |log| ensures n % |ring| != |log| % |ring| {
      SlotsDiffer(n, |log|, |ring|);
    }
  }

  /** Reading the oldest unread entry yields the next of the log. */
  lemma WindowPop(ring: seq<u16>, log: seq<u16>, read: seq<u16>)
    requires Window(ring, log, read) && |read| < |log|
    ensures ring[|read| % |ring|] == log[|read|]
    ensures Window(ring, log, read + [ring[|read| % |ring|]])
  {
    assert read + [log[|read|]] == log[..|read| + 1];
  }

  lemma PublishStep(s: State, head: u16)
    requires Inv(s) && Enabled(s, Publish(head))
    ensures Inv(Do(s, Publish(head)))
  {
    var n := |s.w.published|;
    SpreadCount(s);
    BoundedSet(s.w.out, s.d.rings.num);
    SlotOfWrapped(n, s.d.rings.num);
    LowOfLow(n, 1);
    WindowPush(s.d.rings.availRing, s.w.published, s.w.taken, head);
    assert multiset(s.w.out + {head}) == multiset(s.w.out) + multiset{head};
  }

  /** The index test sees a difference exactly when entries are waiting. */
  lemma Waiting(s: State)
    requires Inv(s)
    ensures s.d.consumed != s.d.rings.availIdx <==> |s.w.taken| < |s.w.published|
    ensures s.w.lastUsed != s.d.rings.usedIdx <==> |s.w.reaped| < |s.w.returned|
  {
    hide Low16, Accounts;
    SpreadCount(s);
    LowsDiffer(|s.w.taken|, |s.w.published|);
    LowsDiffer(|s.w.reaped|, |s.w.returned|);
  }

  lemma ReapStep(s: State)
    requires Inv(s) && Enabled(s, Reap)
    ensures Inv(Do(s, Reap))
  {
    hide Window, Accounts, Indices;
    NextReaped(s);
    ReapAccounts(s);
    ReapIndices(s);
  }

  /** The head the guest reads is the next returned one, and it has it out. */
  lemma NextReaped(s: State)
    requires Inv(s) && s.w.lastUsed != s.d.rings.usedIdx
    ensures WellSized(s.d.rings) && |s.w.reaped| < |s.w.returned|
    ensures s.d.rings.usedRing[s.w.lastUsed % s.d.rings.num] == s.w.returned[|s.w.reaped|]
    ensures s.w.returned[|s.w.reaped|] in s.w.out
    ensures Window(s.d.rings.usedRing, s.w.returned, s.w.reaped + [s.w.returned[|s.w.reaped|]])
  {
    hide Accounts;
    var n := |s.w.reaped|;
    Waiting(s);
    Spread(s);
    SlotOfWrapped(n, s.d.rings.num);
    WindowPop(s.d.rings.usedRing, s.w.returned, s.w.reaped);
    assert s.w.returned[n] in multiset(s.w.returned[n..]);
    assert s.w.returned[n] in multiset(s.w.out);
  }

  lemma ReapAccounts(s: State)
    requires Inv(s) && s.w.lastUsed != s.d.rings.usedIdx
    ensures WellSized(s.d.rings) && Accounts(Do(s, Reap))
  {
    hide Window;
    NextReaped(s);
    var head := s.w.returned[|s.w.reaped|];
    assert multiset(s.w.out) == multiset(s.w.out - {head}) + multiset{head};
  }

  lemma ReapIndices(s: State)
    requires Indices(s)
    ensures Indices(Do(s, Reap))
  {
    LowOfLow(|s.w.reaped|, 1);
  }

  /** The head the worker reads is the next published one, and it is not outstanding. */
  lemma NextIsNew(s: State)
    requires Inv(s) && s.d.consumed != s.d.rings.availIdx
    ensures |s.w.taken| < |s.w.published| && NextHead(s.d.rings, s.d.consumed) == s.w.published[|s.w.taken|]
    ensures NextHead(s.d.rings, s.d.consumed) !in s.d.outstanding
    ensures Window(s.d.rings.availRing, s.w.published, s.w.taken + [NextHead(s.d.rings, s.d.consumed)])
  {
    var n := |s.w.taken|;
    Waiting(s);
    SlotOfWrapped(n, s.d.rings.num);
    WindowPop(s.d.rings.availRing, s.w.published, s.w.taken);
    Spread(s);
    var head := s.w.published[n];
    assert head in multiset(s.w.published[n..]);
    assert multiset(s.w.out)[head] <= 1;
  }

  lemma ConsumeSteps(s: State, a: Action)
    requires Inv(s) && Enabled(s, a) && (a.Consume? || a.ConsumeUnmapped?)
    ensures Inv(Do(s, a))
  {
    hide Window, Accounts, Indices;
    NextIsNew(s);
    ConsumeAccounts(s, a);
    ConsumeIndices(s, a);
  }

  lemma ConsumeAccounts(s: State, a: Action)
    requires Inv(s) && Enabled(s, a) && (a.Consume? || a.ConsumeUnmapped?)
    ensures Accounts(Do(s, a))
  {
    hide Window, Accounts, Indices;
    NextIsNew(s);
    if a.Consume? { MappedAccounts(s); } else { UnmappedAccounts(s); }
  }

  lemma MappedAccounts(s: State)
    requires WellSized(s.d.rings) && Accounts(s) && NextHead(s.d.rings, s.d.consumed) !in s.d.outstanding
    ensures Accounts(Do(s, Consume))
  {
    var head := NextHead(s.d.rings, s.d.consumed);
    hide NextHead;
    assert multiset(s.d.outstanding + {head}) == multiset(s.d.outstanding) + multiset{head};
    assert multiset(s.d.incoming + [head]) == multiset(s.d.incoming) + multiset{head};
  }

  lemma UnmappedAccounts(s: State)
    requires WellSized(s.d.rings) && Accounts(s)
    ensures Accounts(Do(s, ConsumeUnmapped))
  {
    hide NextHead;
  }

  lemma ConsumeIndices(s: State, a: Action)
    requires Indices(s) && (a.Consume? || a.ConsumeUnmapped?)
    ensures Indices(Do(s, a))
  {
    LowOfLow(|s.w.taken|, 1);
  }

  lemma DeviceSteps(s: State, a: Action)
    requires Inv(s) && Enabled(s, a) && (a.Accept? || a.Finish? || a.Restart? || a.Resubmit? || a.EndWalk?)
    requires a.Resubmit? ==> a.head in s.w.todo
    ensures Inv(Do(s, a))
  {
    hide Window, Accounts;
    match a
    case Accept => AcceptAccounts(s);
    case Finish(head) => FinishAccounts(s, head);
    case Restart => RestartAccounts(s);
    case Resubmit(head) => ResubmitAccounts(s, head);
    case _ => EndWalkAccounts(s);
  }

  lemma AcceptAccounts(s: State)
    requires WellSized(s.d.rings) && Accounts(s) && s.d.incoming != []
    ensures Accounts(Do(s, Accept))
  {
    assert s.d.incoming == [s.d.incoming[0]] + s.d.incoming[1..];
  }

  lemma FinishAccounts(s: State, head: u16)
    requires WellSized(s.d.rings) && Accounts(s) && head in s.w.held
    ensures Accounts(Do(s, Finish(head)))
  {
    MoveOn(s.w.held, s.d.outgoing, head);
    var h, q, h', q' := s.w.held, multiset(s.d.outgoing), s.w.held - multiset{head}, multiset(s.d.outgoing + [head]);
    assert multiset(s.d.incoming) + h + q == multiset(s.d.incoming) + (h + q);
    assert multiset(s.d.incoming) + h' + q' == multiset(s.d.incoming) + (h' + q');
  }

  /** A buffer moves from the driver's hands to the end of a channel. */
  lemma MoveOn(held: multiset<u16>, q: seq<u16>, head: u16)
    requires head in held
    ensures held - multiset{head} + multiset(q + [head]) == held + multiset(q)
  {
    assert multiset(q + [head]) == multiset(q) + multiset{head};
  }

  lemma RestartAccounts(s: State)
    requires WellSized(s.d.rings) && Accounts(s)
    ensures Accounts(Do(s, Restart))
  {
  }

  lemma ResubmitAccounts(s: State, head: u16)
    requires WellSized(s.d.rings) && Accounts(s) && head in s.w.todo && head in s.d.outstanding
    ensures Accounts(Do(s, Resubmit(head)))
  {
    assert s.d.outstanding + {head} == s.d.outstanding;
    assert multiset(s.w.todo) == multiset(s.w.todo - {head}) + multiset{head};
  }

  lemma EndWalkAccounts(s: State)
    requires WellSized(s.d.rings) && Accounts(s)
    ensures Accounts(Do(s, EndWalk))
  {
  }

  lemma PutStep(s: State)
    requires Inv(s) && Enabled(s, Put)
    ensures Inv(Do(s, Put))
  {
    PutRings(s);
    PutAccounts(s);
  }

  lemma PutRings(s: State)
    requires Inv(s) && s.d.outgoing != []
    ensures Indices(Do(s, Put)) && Window(Do(s, Put).d.rings.usedRing, Do(s, Put).w.returned, s.w.reaped)
  {
    var n := |s.w.returned|;
    SpreadCount(s);
    SlotOfWrapped(n, s.d.rings.num);
    LowOfLow(n, 1);
    WindowPush(s.d.rings.usedRing, s.w.returned, s.w.reaped, s.d.outgoing[0]);
  }

  lemma PutAccounts(s: State)
    requires Inv(s) && s.d.outgoing != []
    ensures Accounts(Do(s, Put))
  {
    TakeOne(s.d.outstanding, multiset(s.d.incoming) + s.w.held, s.d.outgoing, multiset(s.w.todo));
  }

  lemma TakeOne(out: set<u16>, a: multiset<u16>, q: seq<u16>, b: multiset<u16>)
    requires multiset(out) == a + multiset(q) + b && q != []
    ensures multiset(out) == multiset(out - {q[0]}) + multiset{q[0]}
    ensures multiset(out - {q[0]}) == a + multiset(q[1..]) + b
  {
    var h := q[0];
    assert q == [h] + q[1..];
    assert h in multiset(out);
    assert multiset(out - {h}) == multiset(out) - multiset{h};
    Cancel(multiset{h}, multiset(out - {h}), a + multiset(q[1..]) + b);
  }

  /** Every step keeps the invariant, a resubmission if the head was saved as outstanding. */
  lemma InvStep(s: State, a: Action)
    requires Inv(s) && Enabled(s, a) && (a.Resubmit? ==> a.head in s.w.todo)
    ensures Inv(Do(s, a))
  {
    match a
    case Publish(head) => PublishStep(s, head);
    case Reap => ReapStep(s);
    case Consume => ConsumeSteps(s, a);
    case ConsumeUnmapped => ConsumeSteps(s, a);
    case Put => PutStep(s);
    case _ => DeviceSteps(s, a);
  }

  // ----- Runs

  ghost predicate IsRun(trace: seq<State>, acts: seq<Action>) {
    && |trace| == |acts| + 1
    && Init(trace[0])
    && (forall i | 0 <= i < |acts| :: Enabled(trace[i], acts[i]) && trace[i + 1] == Do(trace[i], acts[i]))
  }

  /** The walks resubmit nothing but what was saved as outstanding. */
  ghost predicate WalksSaved(trace: seq<State>, acts: seq<Action>)
    requires |trace| == |acts| + 1
  {
    forall i | 0 <= i < |acts| :: acts[i].Resubmit? ==> acts[i].head in trace[i].w.todo
  }

  /** Every state the device was saved in had consumed all that was published. */
  ghost predicate SavedDrained(trace: seq<State>, acts: seq<Action>)
    requires |trace| == |acts| + 1
  {
    forall i | 0 <= i < |acts| :: acts[i].Restart? ==> Drained(trace[i].d)
  }

  lemma {:induction false} RunKeepsInv(trace: seq<State>, acts: seq<Action>, i: nat)
    requires IsRun(trace, acts) && WalksSaved(trace, acts) && i < |trace|
    ensures Inv(trace[i])
  {
    if i > 0 {
      RunKeepsInv(trace, acts, i - 1);
      assert Enabled(trace[i - 1], acts[i - 1]);
      InvStep(trace[i - 1], acts[i - 1]);
    }
  }

  /** Through 16-bit indices and slots taken modulo the ring size, the n-th head the
      device consumes is the n-th the guest published, and the n-th the guest reaps
      is the n-th the device returned, for every n. */
  lemma Fifo(trace: seq<State>, acts: seq<Action>, i: nat, n: nat)
    requires IsRun(trace, acts) && WalksSaved(trace, acts) && i < |trace|
    ensures var w := trace[i].w;
            && (n < |w.taken| ==> n < |w.published| && w.taken[n] == w.published[n])
            && (n < |w.reaped| ==> n < |w.returned| && w.reaped[n] == w.returned[n])
  {
    RunKeepsInv(trace, acts, i);
  }

  /** Outstanding is exactly the heads consumed and not yet returned, counted with
      multiplicity, so every publication is returned at most once; and none is
      dropped: each is still in its slot, outstanding, returned, or was unmappable. */
  lemma ExactlyOnce(trace: seq<State>, acts: seq<Action>, i: nat)
    requires IsRun(trace, acts) && WalksSaved(trace, acts) && i < |trace|
    ensures var s := trace[i]; s.w.taken <= s.w.published
    ensures var s := trace[i];
            && multiset(s.w.taken) == multiset(s.w.returned) + multiset(s.d.outstanding) + s.w.lost
            && multiset(s.w.published) == multiset(s.w.returned) + multiset(s.d.outstanding) + s.w.lost
                                          + multiset(s.w.published[|s.w.taken|..])
  {
    RunKeepsInv(trace, acts, i);
    var w := trace[i].w;
    assert w.published == w.taken + w.published[|w.taken|..];
  }

  /** Only a chain that does not map loses a head, on every run. */
  lemma {:induction false} NothingLost(trace: seq<State>, acts: seq<Action>, i: nat)
    requires IsRun(trace, acts) && i < |trace|
    ensures (forall k | 0 <= k < i :: !acts[k].ConsumeUnmapped?) ==> trace[i].w.lost == multiset{}
  {
    if i > 0 {
      NothingLost(trace, acts, i - 1);
      assert Enabled(trace[i - 1], acts[i - 1]);
    }
  }

  /** No send on either channel ever finds it full: a worker is never blocked by it. */
  lemma ChannelsNeverFull(trace: seq<State>, acts: seq<Action>, i: nat)
    requires IsRun(trace, acts) && WalksSaved(trace, acts) && i < |acts|
    ensures var s := trace[i]; |s.d.outstanding| <= s.d.rings.num
    ensures acts[i].Consume? || acts[i].Resubmit? ==> |trace[i].d.incoming| < trace[i].d.rings.num
    ensures acts[i].Finish? ==> |trace[i].d.outgoing| < trace[i].d.rings.num
  {
    var s := trace[i];
    RunKeepsInv(trace, acts, i);
    SpreadCount(s);
    assert Enabled(s, acts[i]);
    assert |multiset(s.d.outstanding)| == |s.d.incoming| + |s.w.held| + |s.d.outgoing| + |s.w.todo|;
    if acts[i].Consume? { Waiting(s); }
    if acts[i].Finish? { assert s.w.held == s.w.held - multiset{acts[i].head} + multiset{acts[i].head}; }
  }

  lemma AloneStep(s: State, a: Action)
    requires Alone(s) && Enabled(s, a) && (a.Restart? ==> Drained(s.d))
    ensures Alone(Do(s, a))
  {
  }

  /** Devices saved with nothing waiting are enough: no walk then meets a new head. */
  lemma {:induction false} DrainedSavesWalkSaved(trace: seq<State>, acts: seq<Action>, n: nat)
    requires IsRun(trace, acts) && SavedDrained(trace, acts) && n <= |acts|
    ensures Alone(trace[n])
    ensures forall i | 0 <= i < n :: acts[i].Resubmit? ==> acts[i].head in trace[i].w.todo
  {
    if n > 0 {
      DrainedSavesWalkSaved(trace, acts, n - 1);
      assert Enabled(trace[n - 1], acts[n - 1]);
      AloneStep(trace[n - 1], acts[n - 1]);
    }
  }

  // ----- Resuming from one saved state

  /** The device is saved in `s`, started again, and runs on with its guest. */
  ghost predicate IsResume(s: State, trace: seq<State>, acts: seq<Action>) {
    && |trace| == |acts| + 1
    && WellSized(s.d.rings) && trace[0] == Do(s, Restart)
    && (forall i | 0 <= i < |acts| ::
          Enabled(trace[i], acts[i]) && !acts[i].Restart? && trace[i + 1] == Do(trace[i], acts[i]))
  }

  ghost predicate StaysBalanced(trace: seq<State>) {
    forall i | 0 <= i < |trace| :: Balanced(trace[i])
  }

  lemma {:induction false} ResumeKeepsInv(s: State, trace: seq<State>, acts: seq<Action>, i: nat)
    requires Inv(s) && Drained(s.d) && IsResume(s, trace, acts) && i < |trace|
    ensures Inv(trace[i]) && Alone(trace[i])
  {
    if i == 0 {
      InvStep(s, Restart);
    } else {
      ResumeKeepsInv(s, trace, acts, i - 1);
      assert Enabled(trace[i - 1], acts[i - 1]);
      InvStep(trace[i - 1], acts[i - 1]);
      AloneStep(trace[i - 1], acts[i - 1]);
    }
  }

  lemma One(s: State, trace: seq<State>, acts: seq<Action>, a: Action) returns (trace': seq<State>, acts': seq<Action>)
    requires IsResume(s, trace, acts) && Enabled(trace[|acts|], a) && !a.Restart?
    ensures IsResume(s, trace', acts') && WellSized(trace[|acts|].d.rings) && trace'[|acts'|] == Do(trace[|acts|], a)
  {
    trace', acts' := trace + [Do(trace[|acts|], a)], acts + [a];
    assert trace'[0] == trace[0];
  }

  /** Device and driver are empty but for these buffers, and the used ring and the
      outstanding set are as given. */
  ghost predicate Holding(t: State, s: State, h: u16, incoming: seq<u16>, held: multiset<u16>, returned: seq<u16>,
                          outstanding: set<u16>) {
    && WellSized(t.d.rings) && t.d.incoming == incoming && t.d.outgoing == [] && t.w.held == held
    && t.w.returned == s.w.returned + returned && t.d.outstanding == outstanding
    && t.w.taken == s.w.taken + [h] && t.w.published == s.w.published && t.w.lost == s.w.lost
  }

  /** The worker consumes a waiting head before the walk gets to it, and the walk
      submits it again. */
  lemma WalkMeetsNewHead(s: State) returns (trace: seq<State>, acts: seq<Action>)
    requires Inv(s) && !Drained(s.d)
    ensures IsResume(s, trace, acts)
    ensures var h := NextHead(s.d.rings, s.d.consumed);
            Holding(trace[|acts|], s, h, [h, h], multiset{}, [], s.d.outstanding + {h})
  {
    var h := NextHead(s.d.rings, s.d.consumed);
    trace, acts := [Do(s, Restart)], [];
    trace, acts := One(s, trace, acts, Consume);
    assert trace[|acts|].d.incoming == [h];
    trace, acts := One(s, trace, acts, Resubmit(h));
    assert trace[|acts|].d.incoming == [h, h] && s.d.outstanding + {h} + {h} == s.d.outstanding + {h};
    assert s.w.returned + [] == s.w.returned;
  }

  lemma AcceptBoth(s: State, trace: seq<State>, acts: seq<Action>, h: u16, o: set<u16>)
    returns (trace': seq<State>, acts': seq<Action>)
    requires IsResume(s, trace, acts) && Holding(trace[|acts|], s, h, [h, h], multiset{}, [], o)
    ensures IsResume(s, trace', acts') && Holding(trace'[|acts'|], s, h, [], multiset{h, h}, [], o)
  {
    trace', acts' := One(s, trace, acts, Accept);
    assert trace'[|acts'|].d.incoming == [h];
    trace', acts' := One(s, trace', acts', Accept);
  }

  lemma ReturnIt(s: State, trace: seq<State>, acts: seq<Action>, h: u16, held: multiset<u16>, r: seq<u16>, o: set<u16>)
    returns (trace': seq<State>, acts': seq<Action>)
    requires IsResume(s, trace, acts) && Holding(trace[|acts|], s, h, [], held, r, o) && h in held
    ensures IsResume(s, trace', acts') && Holding(trace'[|acts'|], s, h, [], held - multiset{h}, r + [h], o - {h})
  {
    trace', acts' := One(s, trace, acts, Finish(h));
    assert trace'[|acts'|].d.outgoing == [h];
    trace', acts' := One(s, trace', acts', Put);
    assert s.w.returned + r + [h] == s.w.returned + (r + [h]);
  }

  /** A head that waits in the available ring when the device is saved can be returned
      twice after the resume, though it was published once. */
  lemma WaitingHeadReturnsTwice(s: State) returns (trace: seq<State>, acts: seq<Action>)
    requires Inv(s) && !Drained(s.d)
    ensures IsResume(s, trace, acts)
    ensures var t, h := trace[|acts|], NextHead(s.d.rings, s.d.consumed);
            && t.w.published == s.w.published && t.w.taken == s.w.taken + [h] && t.w.returned == s.w.returned + [h, h]
            && !Balanced(t)
  {
    var h := NextHead(s.d.rings, s.d.consumed);
    NextIsNew(s);
    trace, acts := WalkMeetsNewHead(s);
    trace, acts := AcceptBoth(s, trace, acts, h, s.d.outstanding + {h});
    trace, acts := ReturnIt(s, trace, acts, h, multiset{h, h}, [], s.d.outstanding + {h});
    trace, acts := ReturnIt(s, trace, acts, h, multiset{h}, [h], s.d.outstanding);
    assert s.d.outstanding - {h} == s.d.outstanding && [h] + [h] == [h, h];
    assert multiset(s.w.taken + [h])[h] == multiset(s.w.taken)[h] + 1;
    assert multiset(s.w.returned + [h, h])[h] == multiset(s.w.returned)[h] + 2;
  }

  /** The exact condition: every run on from a saved state keeps the account of heads if
      and only if the device had consumed all heads when it was saved. */
  lemma ResumeSafeExactlyWhenDrained(s: State)
    requires Inv(s)
    ensures (forall trace, acts | IsResume(s, trace, acts) :: StaysBalanced(trace)) <==> Drained(s.d)
  {
    if Drained(s.d) {
      forall trace, acts | IsResume(s, trace, acts) ensures StaysBalanced(trace) {
        forall i | 0 <= i < |trace| ensures Balanced(trace[i]) {
          ResumeKeepsInv(s, trace, acts, i);
        }
      }
    } else {
      var trace, acts := WaitingHeadReturnsTwice(s);
      assert IsResume(s, trace, acts) && !StaysBalanced(trace);
    }
  }

  /** The failing case is reachable: one head published, the device saved before the
      worker takes it. */
  lemma RacedStartReturnsTwice() returns (init: State, s: State, trace: seq<State>, acts: seq<Action>)
    ensures IsRun([init, s], [Publish(0)]) && IsResume(s, trace, acts)
    ensures trace[|acts|].w.published == [0] && trace[|acts|].w.returned == [0, 0]
  {
    init := Fresh(Rings(2, [0, 0], 0, [0, 0], 0));
    s := Do(init, Publish(0));
    assert Inv(init);
    InvStep(init, Publish(0));
    trace, acts := WaitingHeadReturnsTwice(s);
  }
}
