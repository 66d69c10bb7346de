/**
 The wake-up handshake of one virtqueue.

 The guest driver publishes heads by advancing the available index and then
 decides from avail_event (or from the used flags) whether to write the notify
 register.  A register write does a compare-and-swap on `pending` and, if that
 succeeds, a blocking send on a one-slot channel.  The incoming worker receives,
 clears `pending`, and consumes until it sees no new head.

 Every read and write of shared memory is a step of its own, in particular the
 two reads of the available index in vring_get_buf; memory is sequentially
 consistent.  `published` and `consumed` count heads without wrapping and only
 serve to state what the 16-bit fields mean.
 */
module KickProtocol {
  import opened Words
  import opened Vring

  datatype Worker =
    | Blocked               // receiving on the channel
    | Received              // got a notification, `pending` not yet cleared
    | Looking               // about to read the available index
    | Seen                  // the index differed; about to read it again
    | Decided(more: bool)   // about to write the used flags
    | Cleared               // flags are zero; about to write avail_event
    | Taking                // about to bump Consumed and hand the head on
    | Dead                  // a descriptor could not be mapped; the worker returned

  datatype State = State(
    size: nat, eventIdx: bool,
    availIdx: u16, availEvent: u16, noNotify: bool,
    consumed16: u16, pending: bool, tokens: nat, worker: Worker,
    batchStart: u16,        // available index at the driver's previous kick decision
    kickers: nat,           // register writers before their compare-and-swap
    senders: nat,           // writers whose send has not completed
    published: nat, consumed: nat, decided: nat
  )

  datatype Action =
    | Publish(n: nat) | DecideKick | CompareAndSwap | Send | ExtraSend
    | Receive | ClearPending | Look | LookAgain | WriteFlags | WriteEvent | Take | TakeFails

  function Init(size: nat, eventIdx: bool): State {
    State(size, eventIdx, 0, 0, false, 0, false, 0, Blocked, 0, 0, 0, 0, 0, 0)
  }

  predicate WantsKick(s: State) {
    if s.eventIdx then NeedEvent(s.availEvent, s.availIdx, s.batchStart) else !s.noNotify
  }

  predicate Enabled(s: State, a: Action) {
    match a
    case Publish(n) => n > 0 && s.published + n <= s.consumed + s.size && s.published + n - s.decided < WRAP16
    case DecideKick => true
    case CompareAndSwap => s.kickers > 0
    case Send => s.senders > 0 && s.tokens == 0
    case ExtraSend => true
    case Receive => s.worker.Blocked? && s.tokens > 0
    case ClearPending => s.worker.Received?
    case Look => s.worker.Looking?
    case LookAgain => s.worker.Seen?
    case WriteFlags => s.worker.Decided?
    case WriteEvent => s.worker.Cleared?
    case Take => s.worker.Taking?
    case TakeFails => s.worker.Taking?
  }

  function Do(s: State, a: Action): State {
    match a
    case Publish(n) => s.(availIdx := Low16(s.availIdx + n), published := s.published + n)
    case DecideKick =>
      s.(kickers := s.kickers + (if WantsKick(s) then 1 else 0), batchStart := s.availIdx, decided := s.published)
    case CompareAndSwap =>
      if s.kickers == 0 then s
      else if s.pending then s.(kickers := s.kickers - 1)
      else s.(kickers := s.kickers - 1, pending := true, senders := s.senders + 1)
    case Send => if s.senders == 0 then s else s.(senders := s.senders - 1, tokens := s.tokens + 1)
    case ExtraSend => s.(senders := s.senders + 1)
    case Receive => if s.tokens == 0 then s else s.(tokens := s.tokens - 1, worker := Received)
    case ClearPending => s.(pending := false, worker := Looking)
    case Look => s.(worker := if s.consumed16 != s.availIdx then Seen else Blocked)
    case LookAgain => s.(worker := Decided(s.consumed16 + 1 < s.availIdx))
    case WriteFlags =>
      var more := s.worker.Decided? && s.worker.more;
      s.(noNotify := more, worker := if more then Taking else Cleared)
    case WriteEvent => s.(availEvent := Low16(s.consumed16 + 1), worker := Taking)
    case Take => s.(consumed16 := Low16(s.consumed16 + 1), consumed := s.consumed + 1, worker := Looking)
    case TakeFails => s.(consumed16 := Low16(s.consumed16 + 1), consumed := s.consumed + 1, worker := Dead)
  }

  // ----- What every step keeps

  predicate Indices(s: State) {
    && s.size < WRAP16
    && s.availIdx == Low16(s.published) && s.consumed16 == Low16(s.consumed) && s.batchStart == Low16(s.decided)
    && s.consumed <= s.published <= s.consumed + s.size
    && s.decided <= s.published < s.decided + WRAP16
  }

  /** The guest is asked to kick for the very next head. */
  predicate Listening(s: State, next: nat) { s.availEvent == Low16(next) && !s.noNotify }

  predicate Device(s: State) {
    match s.worker
    case Blocked => Listening(s, s.consumed)
    case Received => Listening(s, s.consumed)
    case Looking => s.published > s.consumed || Listening(s, s.consumed)
    case Seen => s.published > s.consumed
    case Decided(more) => s.published > s.consumed + if more then 1 else 0
    case Cleared => s.published > s.consumed && !s.noNotify
    case Taking => s.published > s.consumed + 1 || (s.published == s.consumed + 1 && Listening(s, s.consumed + 1))
    case Dead => true
  }

  predicate Channel(s: State) {
    s.tokens <= 1 && (s.pending ==> s.tokens > 0 || s.senders > 0 || s.worker.Received?)
  }

  /** A blocked worker that has work left will be woken. */
  predicate WillWake(s: State) {
    s.worker.Blocked? && s.consumed < s.published ==>
      s.tokens > 0 || s.senders > 0 || s.kickers > 0 || s.decided <= s.consumed
  }

  predicate Inv(s: State) { Indices(s) && Device(s) && Channel(s) && WillWake(s) }

  /** The plain comparison in vring_get_buf is not wrap-aware, yet it never claims
      that more heads are waiting when there are none. */
  lemma MoreIsSound(consumed: nat, published: nat)
    requires consumed < published < consumed + WRAP16
    ensures Low16(consumed) + 1 < Low16(published) ==> published > consumed + 1
  {
  }

  /** The index test tells a new head from none. */
  lemma DifferenceIsSound(consumed: nat, published: nat)
    requires consumed <= published < consumed + WRAP16
    ensures Low16(consumed) != Low16(published) <==> consumed < published
  {
  }

  lemma IndicesStep(s: State, a: Action)
    requires Indices(s) && Device(s) && Enabled(s, a)
    ensures Indices(Do(s, a))
  {
    match a
    case Publish(n) => LowOfLow(s.published, n);
    case Take => LowOfLow(s.consumed, 1);
    case TakeFails => LowOfLow(s.consumed, 1);
    case _ =>
  }

  lemma DeviceStep(s: State, a: Action)
    requires Indices(s) && Device(s) && Enabled(s, a)
    ensures Device(Do(s, a))
  {
    match a
    case Look => DifferenceIsSound(s.consumed, s.published);
    case LookAgain => MoreIsSound(s.consumed, s.published);
    case WriteEvent => LowOfLow(s.consumed, 1);
    case _ =>
  }

  lemma WakeStep(s: State, a: Action)
    requires Inv(s) && Enabled(s, a)
    ensures Channel(Do(s, a)) && WillWake(Do(s, a))
  {
    match a
    case DecideKick =>
      if s.eventIdx && s.worker.Blocked? { NeedEventIsInterval(s.consumed, s.published, s.decided); }
    case Look => DifferenceIsSound(s.consumed, s.published);
    case _ =>
  }

  lemma InvStep(s: State, a: Action)
    requires Inv(s) && Enabled(s, a)
    ensures Inv(Do(s, a))
  {
    hide Do, Enabled;
    IndicesStep(s, a);
    DeviceStep(s, a);
    WakeStep(s, a);
  }

  // ----- Runs

  ghost predicate IsRun(trace: seq<State>, acts: seq<Action>, size: nat) {
    && |trace| == |acts| + 1
    && (exists eventIdx :: trace[0] == Init(size, eventIdx))
    && (forall i | 0 <= i < |acts| :: Enabled(trace[i], acts[i]) && trace[i + 1] == Do(trace[i], acts[i]))
  }

  lemma {:induction false} RunKeepsInv(trace: seq<State>, acts: seq<Action>, size: nat, i: nat)
    requires IsRun(trace, acts, size) && i < |trace| && size < WRAP16
    ensures Inv(trace[i])
  {
    if i == 0 {
      var eventIdx :| trace[0] == Init(size, eventIdx);
    } else {
      RunKeepsInv(trace, acts, size, i - 1);
      assert Enabled(trace[i - 1], acts[i - 1]);
      InvStep(trace[i - 1], acts[i - 1]);
    }
  }

  /** Nothing is on its way to the worker. */
  predicate Quiet(s: State) {
    s.worker.Blocked? && s.tokens == 0 && s.senders == 0 && s.kickers == 0 && s.decided == s.published
  }

  /** No kick is lost: when the worker is blocked and nothing is on its way to it,
      every published head has been consumed; and a worker that went back to sleep
      always left the ring asking to be notified of the next head. */
  lemma NoLostKick(trace: seq<State>, acts: seq<Action>, size: nat, i: nat)
    requires IsRun(trace, acts, size) && i < |trace| && size < WRAP16
    ensures Quiet(trace[i]) ==> trace[i].consumed == trace[i].published && trace[i].consumed16 == trace[i].availIdx
    ensures trace[i].worker.Blocked? ==> trace[i].availEvent == trace[i].consumed16 && !trace[i].noNotify
  {
    RunKeepsInv(trace, acts, size, i);
  }

  lemma Extend(trace: seq<State>, acts: seq<Action>, size: nat, a: Action, after: State)
    requires IsRun(trace, acts, size) && Enabled(trace[|acts|], a) && after == Do(trace[|acts|], a)
    ensures IsRun(trace + [after], acts + [a], size)
  {
    assert (trace + [after])[0] == trace[0];
  }

  /** With 2^16 slots or more, which the start routine accepts, a full ring looks
      empty: the worker goes back to sleep on it and nobody will wake it. */
  lemma LostKickInOversizedRing(size: nat) returns (trace: seq<State>, acts: seq<Action>)
    requires size >= WRAP16
    ensures IsRun(trace, acts, size) && Quiet(trace[|acts|])
    ensures trace[|acts|].consumed == 0 && trace[|acts|].published == WRAP16
  {
    var s := Init(size, true);
    var nearlyFull := s.(availIdx := 65535, published := 65535);
    var decided := nearlyFull.(batchStart := 65535, decided := 65535);
    var full := decided.(availIdx := 0, published := WRAP16);
    var quiet := full.(batchStart := 0, decided := WRAP16);
    trace, acts := [s], [];
    var script := [
      (Publish(65535), nearlyFull),
      (DecideKick, decided.(kickers := 1)),
      (CompareAndSwap, decided.(pending := true, senders := 1)),
      (Send, decided.(pending := true, tokens := 1)),
      (Publish(1), full.(pending := true, tokens := 1)),
      (DecideKick, quiet.(pending := true, tokens := 1)),
      (Receive, quiet.(pending := true, worker := Received)),
      (ClearPending, quiet.(worker := Looking)),
      (Look, quiet)];
    for i := 0 to |script|
      invariant IsRun(trace, acts, size) && |acts| == i
      invariant trace[i] == if i == 0 then s else script[i - 1].1
    {
      Extend(trace, acts, size, script[i].0, script[i].1);
      trace, acts := trace + [script[i].1], acts + [script[i].0];
    }
  }

  ghost predicate KickLost(trace: seq<State>, acts: seq<Action>, size: nat) {
    IsRun(trace, acts, size) && Quiet(trace[|acts|]) && trace[|acts|].consumed != trace[|acts|].published
  }

  /** So 2^16 is the exact limit. */
  lemma KickSafeExactlyBelowWrap(size: nat)
    ensures (forall trace, acts :: !KickLost(trace, acts, size)) <==> size < WRAP16
  {
    if size < WRAP16 {
      forall trace, acts | IsRun(trace, acts, size) ensures !KickLost(trace, acts, size) {
        NoLostKick(trace, acts, size, |acts|);
      }
    } else {
      var trace, acts := LostKickInOversizedRing(size);
      assert KickLost(trace, acts, size);
    }
  }

  // ----- The work gets done

  /** Steps of the register writers and the worker; the guest does nothing. */
  predicate IsHostStep(a: Action) {
    a.CompareAndSwap? || a.Send? || a.Receive? || a.ClearPending? || a.Look? || a.LookAgain? || a.WriteFlags?
    || a.WriteEvent? || a.Take?
  }

  /** The host can take these steps from `s`, one after the other. */
  predicate CanTake(s: State, acts: seq<Action>)
    decreases |acts|
  {
    acts == [] || (Enabled(s, acts[0]) && IsHostStep(acts[0]) && CanTake(Do(s, acts[0]), acts[1..]))
  }

  function After(s: State, acts: seq<Action>): State
    decreases |acts|
  {
    if acts == [] then s else After(Do(s, acts[0]), acts[1..])
  }

  lemma First(s: State, a: Action, acts: seq<Action>) returns (more: seq<Action>)
    requires Enabled(s, a) && IsHostStep(a) && CanTake(Do(s, a), acts)
    ensures CanTake(s, more) && After(s, more) == After(Do(s, a), acts)
  {
    more := [a] + acts;
    assert more[1..] == acts;
  }

  /** How far the worker is from having looked at everything. */
  function Effort(w: Worker): nat {
    match w
    case Received => 7
    case Looking => 6
    case Seen => 5
    case Decided(_) => 4
    case Cleared => 3
    case Taking => 2
    case Blocked => 0
    case Dead => 0
  }

  /** The worker's own next step. */
  function OwnStep(w: Worker): Action
    requires !w.Blocked? && !w.Dead?
  {
    match w
    case Received => ClearPending
    case Looking => Look
    case Seen => LookAgain
    case Decided(_) => WriteFlags
    case Cleared => WriteEvent
    case Taking => Take
  }

  lemma OwnStepMoves(s: State)
    requires Inv(s) && !s.worker.Blocked? && !s.worker.Dead?
    ensures var t := Do(s, OwnStep(s.worker));
            && Enabled(s, OwnStep(s.worker)) && t.published == s.published && t.decided == s.decided && !t.worker.Dead?
            && (t.consumed == s.consumed + 1 || (t.consumed == s.consumed && Effort(t.worker) < Effort(s.worker)))
            && t.consumed <= s.published && (t.worker.Blocked? ==> t.consumed == t.published)
  {
    DifferenceIsSound(s.consumed, s.published);
  }

  /** A worker that is not blocked consumes everything by its own steps. */
  lemma {:induction false} Drains(s: State) returns (acts: seq<Action>)
    requires Inv(s) && !s.worker.Blocked? && !s.worker.Dead?
    ensures CanTake(s, acts)
    ensures var t := After(s, acts); t.worker.Blocked? && t.consumed == t.published == s.published
    decreases s.published - s.consumed, Effort(s.worker)
  {
    hide Inv, Do;
    OwnStepMoves(s);
    var a := OwnStep(s.worker);
    var t := Do(s, a);
    var rest := [];
    if !t.worker.Blocked? {
      InvStep(s, a);
      IndicesBound(s);
      rest := Drains(t);
    }
    acts := First(s, a, rest);
  }

  lemma IndicesBound(s: State)
    requires Inv(s)
    ensures s.consumed <= s.published
  {
  }

  /** Once the guest has decided about its kick, the host alone comes to a blocked worker
      that has consumed all that was published, unless the worker has returned. */
  lemma WorkGetsDone(s: State) returns (acts: seq<Action>)
    requires Inv(s) && !s.worker.Dead? && s.decided == s.published
    ensures CanTake(s, acts)
    ensures var t := After(s, acts); t.worker.Blocked? && t.consumed == t.published == s.published
  {
    if !s.worker.Blocked? {
      acts := Drains(s);
    } else if s.consumed == s.published {
      acts := [];
    } else {
      acts := Wakes(s);
    }
  }

  lemma Wakes(s: State) returns (acts: seq<Action>)
    requires Inv(s) && s.worker.Blocked? && s.consumed < s.published == s.decided
    ensures CanTake(s, acts)
    ensures var t := After(s, acts); t.worker.Blocked? && t.consumed == t.published == s.published
  {
    if s.tokens > 0 {
      InvStep(s, Receive);
      var rest := Drains(Do(s, Receive));
      acts := First(s, Receive, rest);
    } else if s.senders > 0 {
      var t := Do(s, Send);
      InvStep(s, Send);
      InvStep(t, Receive);
      var rest := Drains(Do(t, Receive));
      rest := First(t, Receive, rest);
      acts := First(s, Send, rest);
    } else {
      var t := Do(s, CompareAndSwap);
      InvStep(s, CompareAndSwap);
      var u := Do(t, Send);
      InvStep(t, Send);
      InvStep(u, Receive);
      var rest := Drains(Do(u, Receive));
      rest := First(u, Receive, rest);
      rest := First(t, Send, rest);
      acts := First(s, CompareAndSwap, rest);
    }
  }

  /** One undisturbed turn of the worker does to the shared fields what fetching a buffer
      from the ring does: nothing if there is none, and otherwise notifications off if
      more are known to wait, else on with the event at the next index. */
  lemma TurnIsGetBuf(s: State)
    requires s.worker.Looking?
    ensures var t := Do(s, Look);
            if s.consumed16 == s.availIdx then t == s.(worker := Blocked)
            else
              var u := Do(Do(t, LookAgain), WriteFlags);
              var v := if u.worker.Cleared? then Do(u, WriteEvent) else u;
              v == s.(worker := Taking, noNotify := s.consumed16 + 1 < s.availIdx,
                      availEvent := if s.consumed16 + 1 < s.availIdx then s.availEvent else Low16(s.consumed16 + 1))
  {
  }
}
