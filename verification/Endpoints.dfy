/**
 Channel endpoints: each direction has a generation, and moving an endpoint retires the
 old one.  A step is one atomic access or one critical section; in particular the test
 of the generation and the queue operation after it are separate steps under the lock,
 and `close` exchanges the generation without the lock.
 */
module Endpoints {
  import opened Wrappers
  import opened BoundedQueue

  type Thread = nat

  const MAX_GENERATION: nat := 0xFFFF_FFFF_FFFF_FFFF

  datatype Direction = Sender | Receiver

  /** The atomic generation (zero once closed), the newest wrapper ever issued, and the
      generations whose `transfer` or `close` won, in the order they won. */
  datatype Capability = Capability(generation: nat, issued: nat, winners: seq<nat>)

  /** A value with the generation of the endpoint that moved it. */
  datatype Moved<T> = Moved(generation: nat, value: T)

  /** Where a call stands between two steps. */
  datatype Call<T> =
    | SendChecked(generation: nat, value: T)
    | SendLocked(generation: nat, value: T)
    | SendLive(generation: nat, value: T)
    | ReceiveChecked(generation: nat)
    | ReceiveLocked(generation: nat)
    | ReceiveLive(generation: nat)
    | TransferLocked(direction: Direction, generation: nat)
    | Closing(direction: Direction)

  predicate Holds<T>(c: Call<T>)
  {
    c.SendLocked? || c.SendLive? || c.ReceiveLocked? || c.ReceiveLive? || c.TransferLocked?
  }

  datatype System<T> = System(
    queue: QueueState<T>, sender: Capability, receiver: Capability,
    lock: Option<Thread>, calls: map<Thread, Call<T>>, aborted: bool,
    accepted: seq<Moved<T>>, received: seq<Moved<T>>, discarded: seq<T>)

  /** `Endpoint::pair`. */
  function Pair<T>(): System<T>
  {
    System(QueueState([], 0, false), Capability(1, 1, []), Capability(1, 1, []),
           None, map[], false, [], [], [])
  }

  function Of<T>(s: System<T>, d: Direction): Capability { if d == Sender then s.sender else s.receiver }

  function With<T>(s: System<T>, d: Direction, c: Capability): System<T>
  {
    if d == Sender then s.(sender := c) else s.(receiver := c)
  }

  datatype Action<T> =
    | BeginSend(thread: Thread, generation: nat, value: T)
    | LockSend(thread: Thread)
    | RecheckSend(thread: Thread)
    | CommitSend(thread: Thread)
    | BeginReceive(thread: Thread, generation: nat)
    | LockReceive(thread: Thread)
    | RecheckReceive(thread: Thread)
    | CommitReceive(thread: Thread)
    | BeginTransfer(thread: Thread, direction: Direction, generation: nat)
    | CommitTransfer(thread: Thread)
    | Close(thread: Thread, direction: Direction, generation: nat)
    | FinishClose(thread: Thread)
    | Abort

  // ----- steps -----

  /** Some wrapper of this generation exists and the thread is free to use it. */
  predicate CanBegin<T>(s: System<T>, thread: Thread, d: Direction, generation: nat)
  {
    thread !in s.calls && 1 <= generation <= Of(s, d).issued
  }

  function Continue<T>(s: System<T>, thread: Thread, c: Call<T>): System<T>
  {
    s.(calls := s.calls[thread := c])
  }

  function Locked<T>(s: System<T>, thread: Thread, c: Call<T>): System<T>
  {
    s.(calls := s.calls[thread := c], lock := Some(thread))
  }

  function Unlocked<T>(s: System<T>, thread: Thread): System<T>
  {
    s.(calls := s.calls - {thread}, lock := None)
  }

  function Accept<T>(limits: Limits<T>, s: System<T>, generation: nat, value: T): System<T>
  {
    if s.queue.closed || !Fits(limits, s.queue, value) then s
    else s.(queue := Pushed(limits, s.queue, value), accepted := s.accepted + [Moved(generation, value)])
  }

  function Take<T>(limits: Limits<T>, s: System<T>, generation: nat): System<T>
  {
    if |s.queue.entries| == 0 then s
    else s.(queue := Popped(limits, s.queue), received := s.received + [Moved(generation, s.queue.entries[0])])
  }

  function Discard<T>(s: System<T>): System<T>
  {
    s.(queue := Discarded(s.queue), discarded := s.discarded + s.queue.entries)
  }

  /** A successful exchange of the generation. */
  function Won(c: Capability, next: nat): Capability
  {
    Capability(next, if next > c.issued then next else c.issued, c.winners + [c.generation])
  }

  /** The exchange `transfer` makes, when its generation is still live and has a successor. */
  function Transferred<T>(s: System<T>, d: Direction, generation: nat): System<T>
  {
    if generation < MAX_GENERATION && Of(s, d).generation == generation
    then With(s, d, Won(Of(s, d), generation + 1)) else s
  }

  ghost predicate Next<T>(limits: Limits<T>, s: System<T>, a: Action<T>, t: System<T>)
  {
    match a
    case BeginSend(thread, generation, value) =>
      && CanBegin(s, thread, Sender, generation)
      && t == if s.sender.generation == generation && limits.measure(value) <= limits.bytes
              then Continue(s, thread, SendChecked(generation, value)) else s
    case LockSend(thread) =>
      && thread in s.calls && s.calls[thread].SendChecked? && s.lock.None?
      && t == Locked(s, thread, SendLocked(s.calls[thread].generation, s.calls[thread].value))
    case RecheckSend(thread) =>
      && thread in s.calls && s.calls[thread].SendLocked?
      && t == if s.sender.generation == s.calls[thread].generation
              then Continue(s, thread, SendLive(s.calls[thread].generation, s.calls[thread].value))
              else Unlocked(s, thread)
    case CommitSend(thread) =>
      && thread in s.calls && s.calls[thread].SendLive?
      && t == Unlocked(Accept(limits, s, s.calls[thread].generation, s.calls[thread].value), thread)
    case BeginReceive(thread, generation) =>
      && CanBegin(s, thread, Receiver, generation)
      && t == if s.receiver.generation == generation
              then Continue(s, thread, ReceiveChecked(generation)) else s
    case LockReceive(thread) =>
      && thread in s.calls && s.calls[thread].ReceiveChecked? && s.lock.None?
      && t == Locked(s, thread, ReceiveLocked(s.calls[thread].generation))
    case RecheckReceive(thread) =>
      && thread in s.calls && s.calls[thread].ReceiveLocked?
      && t == if s.receiver.generation == s.calls[thread].generation
              then Continue(s, thread, ReceiveLive(s.calls[thread].generation))
              else Unlocked(s, thread)
    case CommitReceive(thread) =>
      && thread in s.calls && s.calls[thread].ReceiveLive?
      && t == Unlocked(Take(limits, s, s.calls[thread].generation), thread)
    case BeginTransfer(thread, direction, generation) =>
      && CanBegin(s, thread, direction, generation) && s.lock.None?
      && t == Locked(s, thread, TransferLocked(direction, generation))
    case CommitTransfer(thread) =>
      && thread in s.calls && s.calls[thread].TransferLocked?
      && t == Unlocked(Transferred(s, s.calls[thread].direction, s.calls[thread].generation), thread)
    case Close(thread, direction, generation) =>
      && CanBegin(s, thread, direction, generation)
      && t == if Of(s, direction).generation == generation
              then Continue(With(s, direction, Won(Of(s, direction), 0)), thread, Closing(direction)) else s
    case FinishClose(thread) =>
      && thread in s.calls && s.calls[thread].Closing? && s.lock.None?
      && var rest := s.(calls := s.calls - {thread});
         t == if s.calls[thread].direction == Sender then rest.(queue := Shut(s.queue)) else Discard(rest)
    case Abort => s.lock.None? && t == Discard(s).(aborted := true)
  }

  ghost predicate Run<T>(limits: Limits<T>, states: seq<System<T>>, actions: seq<Action<T>>)
  {
    && |states| == |actions| + 1 && states[0] == Pair<T>()
    && forall i :: 0 <= i < |actions| ==> Next(limits, states[i], actions[i], states[i + 1])
  }

  // ----- what every interleaving keeps -----

  /** At most one generation is live, it is the newest, and every older one was retired
      by exactly one winner. */
  ghost predicate OneLiveGeneration(c: Capability)
  {
    && 1 <= c.issued
    && (c.generation == 0 || c.generation == c.issued)
    && |c.winners| == (if c.generation == 0 then c.issued else c.issued - 1)
    && forall i :: 0 <= i < |c.winners| ==> c.winners[i] == i + 1
  }

  function Values<T>(moved: seq<Moved<T>>): (r: seq<T>)
    ensures |r| == |moved|
  {
    seq(|moved|, i requires 0 <= i < |moved| => moved[i].value)
  }

  /** Values were moved by generations in order, the last of them at most `newest`. */
  ghost predicate InOrder<T>(moved: seq<Moved<T>>, newest: nat)
  {
    && (forall i, j :: 0 <= i < j < |moved| ==> moved[i].generation <= moved[j].generation)
    && forall i :: 0 <= i < |moved| ==> moved[i].generation <= newest
  }

  /** Every accepted value is received, discarded or queued, in the order of acceptance. */
  ghost predicate Conserved<T>(s: System<T>)
  {
    && Values(s.accepted) == Values(s.received) + s.discarded + s.queue.entries
    && (s.discarded != [] ==> s.queue.closed && s.queue.entries == [])
  }

  /** The lock belongs to the one call that holds it. */
  ghost predicate LockOwned<T>(s: System<T>)
  {
    && (forall t :: t in s.calls && Holds(s.calls[t]) ==> s.lock == Some(t))
    && (s.lock.Some? ==> s.lock.value in s.calls && Holds(s.calls[s.lock.value]))
  }

  /** A call that has passed its second test has no successor yet; a call that is
      closing has already retired its direction. */
  ghost predicate CallCurrent<T>(s: System<T>, c: Call<T>)
  {
    && (c.Closing? || c.generation >= 1)
    && (c.SendLive? ==> c.generation == s.sender.issued)
    && (c.ReceiveLive? ==> c.generation == s.receiver.issued)
    && (c.Closing? ==> Of(s, c.direction).generation == 0)
  }

  ghost predicate Invariant<T>(limits: Limits<T>, s: System<T>)
  {
    && Accounted(limits, s.queue) && Conserved(s)
    && OneLiveGeneration(s.sender) && OneLiveGeneration(s.receiver)
    && InOrder(s.accepted, s.sender.issued) && InOrder(s.received, s.receiver.issued)
    && LockOwned(s)
    && (forall t :: t in s.calls ==> CallCurrent(s, s.calls[t]))
    && (s.queue.closed ==> s.sender.generation == 0 || s.receiver.generation == 0 || s.aborted)
  }

  lemma WonKeeps(c: Capability, next: nat)
    requires OneLiveGeneration(c) && c.generation != 0 && (next == 0 || next == c.generation + 1)
    ensures OneLiveGeneration(Won(c, next)) && Won(c, next).issued >= c.issued
  {
  }

  lemma AcceptKeeps<T>(limits: Limits<T>, s: System<T>, value: T)
    requires Invariant(limits, s)
    ensures Invariant(limits, Accept(limits, s, s.sender.issued, value))
  {
    var t := Accept(limits, s, s.sender.issued, value);
    if t != s {
      PushedAccounted(limits, s.queue, value);
      assert Values(t.accepted) == Values(s.accepted) + [value];
    }
  }

  lemma TakeKeeps<T>(limits: Limits<T>, s: System<T>)
    requires Invariant(limits, s)
    ensures Invariant(limits, Take(limits, s, s.receiver.issued))
  {
    var t := Take(limits, s, s.receiver.issued);
    if t != s {
      PoppedAccounted(limits, s.queue);
      assert Values(t.received) == Values(s.received) + [s.queue.entries[0]];
      assert s.queue.entries == [s.queue.entries[0]] + t.queue.entries;
    }
  }

  predicate HoldsNow<T>(s: System<T>, thread: Thread) { thread in s.calls && Holds(s.calls[thread]) }

  lemma ContinueKeeps<T>(limits: Limits<T>, s: System<T>, thread: Thread, c: Call<T>)
    requires Invariant(limits, s) && CallCurrent(s, c) && Holds(c) == HoldsNow(s, thread)
    ensures Invariant(limits, Continue(s, thread, c))
  {
  }

  lemma LockedKeeps<T>(limits: Limits<T>, s: System<T>, thread: Thread, c: Call<T>)
    requires Invariant(limits, s) && CallCurrent(s, c) && Holds(c) && s.lock.None?
    ensures Invariant(limits, Locked(s, thread, c))
  {
  }

  lemma UnlockedKeeps<T>(limits: Limits<T>, s: System<T>, thread: Thread)
    requires Invariant(limits, s) && HoldsNow(s, thread)
    ensures Invariant(limits, Unlocked(s, thread))
  {
  }

  /** Retiring a generation disturbs nobody who has passed the second test: with the lock
      held only that call may move the endpoint on, and a close issues no successor. */
  lemma WithKeeps<T>(limits: Limits<T>, s: System<T>, d: Direction, next: nat)
    requires Invariant(limits, s) && Of(s, d).generation != 0
    requires next == 0 || (next == Of(s, d).generation + 1 && s.lock.Some? && s.calls[s.lock.value].TransferLocked?)
    ensures Invariant(limits, With(s, d, Won(Of(s, d), next)))
  {
    WonKeeps(Of(s, d), next);
  }

  lemma DiscardKeeps<T>(limits: Limits<T>, s: System<T>, aborted: bool)
    requires Invariant(limits, s)
    requires s.sender.generation == 0 || s.receiver.generation == 0 || aborted
    ensures Invariant(limits, Discard(s).(aborted := aborted || s.aborted))
  {
  }

  lemma SendKeeps<T>(limits: Limits<T>, s: System<T>, a: Action<T>, t: System<T>)
    requires Invariant(limits, s) && Next(limits, s, a, t)
    requires a.BeginSend? || a.LockSend? || a.RecheckSend? || a.CommitSend?
    ensures Invariant(limits, t)
  {
    match a
    case BeginSend(thread, generation, value) =>
      if t != s { ContinueKeeps(limits, s, thread, SendChecked(generation, value)); }
    case LockSend(thread) =>
      LockedKeeps(limits, s, thread, SendLocked(s.calls[thread].generation, s.calls[thread].value));
    case RecheckSend(thread) =>
      var c := s.calls[thread];
      if s.sender.generation == c.generation {
        ContinueKeeps(limits, s, thread, SendLive(c.generation, c.value));
      } else {
        UnlockedKeeps(limits, s, thread);
      }
    case CommitSend(thread) =>
      AcceptKeeps(limits, s, s.calls[thread].value);
      UnlockedKeeps(limits, Accept(limits, s, s.sender.issued, s.calls[thread].value), thread);
  }

  lemma ReceiveKeeps<T>(limits: Limits<T>, s: System<T>, a: Action<T>, t: System<T>)
    requires Invariant(limits, s) && Next(limits, s, a, t)
    requires a.BeginReceive? || a.LockReceive? || a.RecheckReceive? || a.CommitReceive?
    ensures Invariant(limits, t)
  {
    match a
    case BeginReceive(thread, generation) =>
      if t != s { ContinueKeeps(limits, s, thread, ReceiveChecked(generation)); }
    case LockReceive(thread) => LockedKeeps(limits, s, thread, ReceiveLocked(s.calls[thread].generation));
    case RecheckReceive(thread) =>
      var c := s.calls[thread];
      if s.receiver.generation == c.generation {
        ContinueKeeps(limits, s, thread, ReceiveLive(c.generation));
      } else {
        UnlockedKeeps(limits, s, thread);
      }
    case CommitReceive(thread) =>
      TakeKeeps(limits, s);
      UnlockedKeeps(limits, Take(limits, s, s.receiver.issued), thread);
  }

  lemma TransferredKeeps<T>(limits: Limits<T>, s: System<T>, thread: Thread, d: Direction, generation: nat)
    requires Invariant(limits, s) && thread in s.calls && s.calls[thread] == TransferLocked(d, generation)
    ensures Invariant(limits, Transferred(s, d, generation)) && HoldsNow(Transferred(s, d, generation), thread)
  {
    assert CallCurrent(s, s.calls[thread]);
    if Transferred(s, d, generation) != s {
      WithKeeps(limits, s, d, generation + 1);
    }
  }

  lemma CloseKeeps<T>(limits: Limits<T>, s: System<T>, thread: Thread, d: Direction, generation: nat, t: System<T>)
    requires Invariant(limits, s) && Next(limits, s, Close(thread, d, generation), t)
    ensures Invariant(limits, t)
  {
    if Of(s, d).generation == generation {
      WithKeeps(limits, s, d, 0);
      ContinueKeeps(limits, With(s, d, Won(Of(s, d), 0)), thread, Closing(d));
    }
  }

  lemma FinishCloseKeeps<T>(limits: Limits<T>, s: System<T>, thread: Thread, t: System<T>)
    requires Invariant(limits, s) && Next(limits, s, FinishClose(thread), t)
    ensures Invariant(limits, t)
  {
    var rest := s.(calls := s.calls - {thread});
    assert CallCurrent(s, s.calls[thread]);
    assert Invariant(limits, rest);
    if s.calls[thread].direction == Receiver {
      DiscardKeeps(limits, rest, false);
    }
  }

  lemma MoveKeeps<T>(limits: Limits<T>, s: System<T>, a: Action<T>, t: System<T>)
    requires Invariant(limits, s) && Next(limits, s, a, t)
    requires a.BeginTransfer? || a.CommitTransfer? || a.Close? || a.FinishClose? || a.Abort?
    ensures Invariant(limits, t)
  {
    match a
    case BeginTransfer(thread, direction, generation) =>
      LockedKeeps(limits, s, thread, TransferLocked(direction, generation));
    case CommitTransfer(thread) =>
      var c := s.calls[thread];
      TransferredKeeps(limits, s, thread, c.direction, c.generation);
      UnlockedKeeps(limits, Transferred(s, c.direction, c.generation), thread);
    case Close(thread, direction, generation) => CloseKeeps(limits, s, thread, direction, generation, t);
    case FinishClose(thread) => FinishCloseKeeps(limits, s, thread, t);
    case Abort => DiscardKeeps(limits, s, true);
  }

  lemma NextKeeps<T>(limits: Limits<T>, s: System<T>, a: Action<T>, t: System<T>)
    requires Invariant(limits, s) && Next(limits, s, a, t)
    ensures Invariant(limits, t)
  {
    if a.BeginSend? || a.LockSend? || a.RecheckSend? || a.CommitSend? {
      SendKeeps(limits, s, a, t);
    } else if a.BeginReceive? || a.LockReceive? || a.RecheckReceive? || a.CommitReceive? {
      ReceiveKeeps(limits, s, a, t);
    } else {
      MoveKeeps(limits, s, a, t);
    }
  }

  /** Every reachable state keeps one live generation and one winner a direction, the
      byte count and both limits, and every accepted value exactly once. */
  lemma {:induction false} RunKeeps<T>(limits: Limits<T>, states: seq<System<T>>, actions: seq<Action<T>>, i: nat)
    requires Run(limits, states, actions) && i < |states|
    ensures Invariant(limits, states[i])
  {
    if i > 0 {
      RunKeeps(limits, states, actions, i - 1);
      assert Next(limits, states[i - 1], actions[i - 1], states[i]);
      NextKeeps(limits, states[i - 1], actions[i - 1], states[i]);
    }
  }

  /** Whatever a step moves, it moves for the newest generation of its direction. */
  ghost predicate MovesForNewest<T>(s: System<T>, t: System<T>)
  {
    && (t.accepted == s.accepted ||
        (|t.accepted| == |s.accepted| + 1 && t.accepted[..|s.accepted|] == s.accepted &&
         t.accepted[|s.accepted|].generation == s.sender.issued))
    && (t.received == s.received ||
        (s.queue.entries != [] && t.received == s.received + [Moved(s.receiver.issued, s.queue.entries[0])]))
  }

  /** A step that closes the queue is an abort, or belongs to a direction with no live
      generation. */
  ghost predicate ClosesForDead<T>(s: System<T>, a: Action<T>, t: System<T>)
  {
    t.queue.closed && !s.queue.closed && !a.Abort? ==>
      && a.FinishClose? && a.thread in s.calls && s.calls[a.thread].Closing?
      && Of(s, s.calls[a.thread].direction).generation == 0
  }

  /** Only the two commits move a value. */
  lemma OnlyCommitsMove<T>(limits: Limits<T>, s: System<T>, a: Action<T>, t: System<T>)
    requires Next(limits, s, a, t)
    ensures !a.CommitSend? ==> t.accepted == s.accepted
    ensures !a.CommitReceive? ==> t.received == s.received
  {
  }

  lemma StepForNewest<T>(limits: Limits<T>, s: System<T>, a: Action<T>, t: System<T>)
    requires Invariant(limits, s) && Next(limits, s, a, t)
    ensures MovesForNewest(s, t)
  {
    OnlyCommitsMove(limits, s, a, t);
    if a.CommitSend? || a.CommitReceive? {
      assert CallCurrent(s, s.calls[a.thread]);
    }
  }

  lemma StepClosesForDead<T>(limits: Limits<T>, s: System<T>, a: Action<T>, t: System<T>)
    requires Invariant(limits, s) && Next(limits, s, a, t)
    ensures ClosesForDead(s, a, t)
  {
    if a.FinishClose? {
      assert CallCurrent(s, s.calls[a.thread]);
    } else if !a.Abort? {
      assert t.queue.closed == s.queue.closed;
    }
  }

  /** In no run does a stale endpoint enqueue, dequeue or close its successor's queue. */
  lemma StaleNeverActs<T>(limits: Limits<T>, states: seq<System<T>>, actions: seq<Action<T>>, i: nat)
    requires Run(limits, states, actions) && i < |actions|
    ensures MovesForNewest(states[i], states[i + 1])
    ensures ClosesForDead(states[i], actions[i], states[i + 1])
  {
    assert Next(limits, states[i], actions[i], states[i + 1]);
    assert Invariant(limits, states[i]) by { RunKeeps(limits, states, actions, i); }
    StepForNewest(limits, states[i], actions[i], states[i + 1]);
    StepClosesForDead(limits, states[i], actions[i], states[i + 1]);
  }

  ghost predicate Ended<T>(s: System<T>) { s.queue.closed && s.queue.entries == [] }

  lemma StepAfterEnd<T>(limits: Limits<T>, s: System<T>, a: Action<T>, t: System<T>)
    requires Next(limits, s, a, t) && Ended(s)
    ensures Ended(t) && t.accepted == s.accepted
  {
  }

  lemma {:induction false} EndStays<T>(limits: Limits<T>, states: seq<System<T>>, actions: seq<Action<T>>, i: nat, j: nat)
    requires Run(limits, states, actions) && i <= j < |states| && Ended(states[i])
    ensures Ended(states[j]) && states[j].accepted == states[i].accepted
    decreases j
  {
    if i < j {
      EndStays(limits, states, actions, i, j - 1);
      assert Next(limits, states[j - 1], actions[j - 1], states[j]);
      StepAfterEnd(limits, states[j - 1], actions[j - 1], states[j]);
    }
  }

  lemma EndIsConserved<T>(s: System<T>)
    requires Conserved(s) && Ended(s)
    ensures Values(s.accepted) == Values(s.received) + s.discarded
  {
  }

  /** Nothing is accepted after the end of the stream, so a receiver told of it has missed
      no accepted value that was not discarded. */
  lemma EndOfStreamIsFinal<T>(limits: Limits<T>, states: seq<System<T>>, actions: seq<Action<T>>, i: nat, j: nat)
    requires Run(limits, states, actions) && i <= j < |states| && Ended(states[i])
    ensures Ended(states[j]) && states[j].accepted == states[i].accepted
    ensures Values(states[j].accepted) == Values(states[j].received) + states[j].discarded
  {
    EndStays(limits, states, actions, i, j);
    assert Conserved(states[j]) by { RunKeeps(limits, states, actions, j); }
    EndIsConserved(states[j]);
  }

  // ----- what each step does, as a caller sees it -----

  /** What callers of either endpoint can tell apart. */
  datatype View<T> = View(
    entries: seq<T>, bytes: nat, closed: bool, sender: nat, receiver: nat,
    accepted: seq<Moved<T>>, received: seq<Moved<T>>, discarded: seq<T>)

  function Seen<T>(s: System<T>): View<T>
  {
    View(s.queue.entries, s.queue.bytes, s.queue.closed, s.sender.generation, s.receiver.generation,
         s.accepted, s.received, s.discarded)
  }

  /** A send that reaches its end enqueues its value last, unless the queue is closed or
      the value is one message or some bytes too many. */
  ghost predicate SendDoes<T>(limits: Limits<T>, v: View<T>, generation: nat, value: T, w: View<T>)
  {
    if v.closed || |v.entries| >= limits.messages || v.bytes + limits.measure(value) > limits.bytes then w == v
    else w == v.(entries := v.entries + [value], bytes := v.bytes + limits.measure(value),
                 accepted := v.accepted + [Moved(generation, value)])
  }

  /** A receive that reaches its end takes the first entry, also from a closed queue. */
  ghost predicate ReceiveDoes<T>(limits: Limits<T>, v: View<T>, generation: nat, w: View<T>)
  {
    if v.entries == [] then w == v
    else w == v.(entries := v.entries[1..], bytes := w.bytes,
                 received := v.received + [Moved(generation, v.entries[0])])
         && v.bytes == w.bytes + limits.measure(v.entries[0])
  }

  /** An endpoint moves on to the next generation if it is the live one and there is a next. */
  ghost predicate TransferDoes<T>(v: View<T>, d: Direction, generation: nat, w: View<T>)
  {
    match d
    case Sender => w == if v.sender == generation < MAX_GENERATION then v.(sender := generation + 1) else v
    case Receiver => w == if v.receiver == generation < MAX_GENERATION then v.(receiver := generation + 1) else v
  }

  /** A close retires the live generation; a stale one does nothing. */
  ghost predicate CloseDoes<T>(v: View<T>, d: Direction, generation: nat, w: View<T>)
  {
    match d
    case Sender => w == if v.sender == generation then v.(sender := 0) else v
    case Receiver => w == if v.receiver == generation then v.(receiver := 0) else v
  }

  /** A sender's close leaves what is queued to be received; a receiver's throws it away. */
  ghost predicate FinishDoes<T>(v: View<T>, d: Direction, w: View<T>)
  {
    match d
    case Sender => w == v.(closed := true)
    case Receiver => w == v.(entries := [], bytes := 0, closed := true, discarded := v.discarded + v.entries)
  }

  ghost predicate Does<T>(limits: Limits<T>, s: System<T>, a: Action<T>, t: System<T>)
  {
    var v, w := Seen(s), Seen(t);
    match a
    case CommitSend(thread) =>
      thread in s.calls && s.calls[thread].SendLive? &&
      SendDoes(limits, v, s.calls[thread].generation, s.calls[thread].value, w)
    case CommitReceive(thread) =>
      thread in s.calls && s.calls[thread].ReceiveLive? && ReceiveDoes(limits, v, s.calls[thread].generation, w)
    case CommitTransfer(thread) =>
      thread in s.calls && s.calls[thread].TransferLocked? &&
      TransferDoes(v, s.calls[thread].direction, s.calls[thread].generation, w)
    case Close(_, direction, generation) => CloseDoes(v, direction, generation, w)
    case FinishClose(thread) =>
      thread in s.calls && s.calls[thread].Closing? && FinishDoes(v, s.calls[thread].direction, w)
    case Abort => FinishDoes(v, Receiver, w) && t.aborted
    case _ => w == v
  }

  lemma StepDoes<T>(limits: Limits<T>, s: System<T>, a: Action<T>, t: System<T>)
    requires Invariant(limits, s) && Next(limits, s, a, t)
    ensures Does(limits, s, a, t)
  {
    match a
    case CommitSend(thread) => CommitSendDoes(limits, s, thread, t);
    case CommitReceive(thread) => CommitReceiveDoes(limits, s, thread, t);
    case CommitTransfer(thread) => CommitTransferDoes(limits, s, thread, t);
    case Close(thread, direction, generation) => RetireDoes(limits, s, thread, direction, generation, t);
    case FinishClose(thread) => FinishCloseDoes(limits, s, thread, t);
    case _ =>
  }

  lemma CommitSendDoes<T>(limits: Limits<T>, s: System<T>, thread: Thread, t: System<T>)
    requires Next(limits, s, CommitSend(thread), t)
    ensures SendDoes(limits, Seen(s), s.calls[thread].generation, s.calls[thread].value, Seen(t))
  {
  }

  lemma CommitReceiveDoes<T>(limits: Limits<T>, s: System<T>, thread: Thread, t: System<T>)
    requires Accounted(limits, s.queue) && Next(limits, s, CommitReceive(thread), t)
    ensures ReceiveDoes(limits, Seen(s), s.calls[thread].generation, Seen(t))
  {
    if |s.queue.entries| > 0 {
      PoppedAccounted(limits, s.queue);
    }
  }

  lemma CommitTransferDoes<T>(limits: Limits<T>, s: System<T>, thread: Thread, t: System<T>)
    requires Next(limits, s, CommitTransfer(thread), t)
    ensures TransferDoes(Seen(s), s.calls[thread].direction, s.calls[thread].generation, Seen(t))
  {
  }

  lemma RetireDoes<T>(limits: Limits<T>, s: System<T>, thread: Thread, d: Direction, generation: nat, t: System<T>)
    requires Next(limits, s, Close(thread, d, generation), t)
    ensures CloseDoes(Seen(s), d, generation, Seen(t))
  {
  }

  lemma FinishCloseDoes<T>(limits: Limits<T>, s: System<T>, thread: Thread, t: System<T>)
    requires Next(limits, s, FinishClose(thread), t)
    ensures FinishDoes(Seen(s), s.calls[thread].direction, Seen(t))
  {
  }

  /** Every step of every run does to queue, generations and values what its call is for. */
  lemma RunDoes<T>(limits: Limits<T>, states: seq<System<T>>, actions: seq<Action<T>>, i: nat)
    requires Run(limits, states, actions) && i < |actions|
    ensures Does(limits, states[i], actions[i], states[i + 1])
  {
    assert Next(limits, states[i], actions[i], states[i + 1]);
    RunKeeps(limits, states, actions, i);
    StepDoes(limits, states[i], actions[i], states[i + 1]);
  }

  /** The step throws the queue away: an abort, or the end of a receiver's close. */
  ghost predicate ThrowsAway<T>(s: System<T>, a: Action<T>)
  {
    a.Abort? || (a.FinishClose? && a.thread in s.calls && s.calls[a.thread] == Closing(Receiver))
  }

  /** Nothing before `i` throws the queue away. */
  ghost predicate Untouched<T>(states: seq<System<T>>, actions: seq<Action<T>>, i: nat)
    requires i <= |actions| < |states|
  {
    forall k :: 0 <= k < i ==> !ThrowsAway(states[k], actions[k])
  }

  lemma StepDiscards<T>(limits: Limits<T>, s: System<T>, a: Action<T>, t: System<T>)
    requires Next(limits, s, a, t) && !ThrowsAway(s, a)
    ensures t.discarded == s.discarded
  {
  }

  /** While no receiver has finished closing and nothing was aborted, nothing is discarded. */
  lemma {:induction false} NothingDiscarded<T>(limits: Limits<T>, states: seq<System<T>>, actions: seq<Action<T>>, i: nat)
    requires Run(limits, states, actions) && i <= |actions| && Untouched(states, actions, i)
    ensures states[i].discarded == []
  {
    if i > 0 {
      NothingDiscarded(limits, states, actions, i - 1);
      assert Next(limits, states[i - 1], actions[i - 1], states[i]);
      StepDiscards(limits, states[i - 1], actions[i - 1], states[i]);
    }
  }

  /** So a sender's close loses nothing: at the end of the stream every accepted value has
      been received, in order. */
  lemma SenderCloseDrains<T>(limits: Limits<T>, states: seq<System<T>>, actions: seq<Action<T>>, i: nat)
    requires Run(limits, states, actions) && i <= |actions| && Untouched(states, actions, i) && Ended(states[i])
    ensures Values(states[i].received) == Values(states[i].accepted)
  {
    NothingDiscarded(limits, states, actions, i);
    EndOfStreamIsFinal(limits, states, actions, i, i);
    assert Values(states[i].received) + [] == Values(states[i].received);
  }

  // ----- what was accepted was sent -----

  /** The call is a send under way. */
  predicate Sending<T>(c: Call<T>) { c.SendChecked? || c.SendLocked? || c.SendLive? }

  /** The same send, perhaps at another point. */
  ghost predicate SameSend<T>(c: Call<T>, d: Call<T>)
    requires Sending(c)
  {
    Sending(d) && c.generation == d.generation && c.value == d.value
  }

  /** A send of this value by this generation began before `i`, and fits the byte limit. */
  ghost predicate Began<T>(limits: Limits<T>, actions: seq<Action<T>>, i: nat, generation: nat, value: T)
    requires i <= |actions|
  {
    && limits.measure(value) <= limits.bytes
    && exists k :: 0 <= k < i && actions[k].BeginSend? && actions[k].generation == generation && actions[k].value == value
  }

  /** Every send under way and every accepted value goes back to such a beginning. */
  ghost predicate AllBegan<T>(limits: Limits<T>, s: System<T>, actions: seq<Action<T>>, i: nat)
    requires i <= |actions|
  {
    && (forall c :: c in s.calls && Sending(s.calls[c]) ==> Began(limits, actions, i, s.calls[c].generation, s.calls[c].value))
    && (forall m :: m in s.accepted ==> Began(limits, actions, i, m.generation, m.value))
  }

  lemma BeganStays<T>(limits: Limits<T>, actions: seq<Action<T>>, i: nat, generation: nat, value: T)
    requires i < |actions| && Began(limits, actions, i, generation, value)
    ensures Began(limits, actions, i + 1, generation, value)
  {
  }

  /** A send under way after a step was under way before it, or has just begun. */
  lemma SendingComesFrom<T>(limits: Limits<T>, s: System<T>, a: Action<T>, t: System<T>, c: Thread)
    requires Next(limits, s, a, t) && c in t.calls && Sending(t.calls[c])
    ensures (c in s.calls && SameSend(t.calls[c], s.calls[c]))
         || (a == BeginSend(c, t.calls[c].generation, t.calls[c].value) && limits.measure(t.calls[c].value) <= limits.bytes)
  {
  }

  lemma AcceptedComesFrom<T>(limits: Limits<T>, s: System<T>, a: Action<T>, t: System<T>, m: Moved<T>)
    requires Next(limits, s, a, t) && m in t.accepted
    ensures m in s.accepted || (a.CommitSend? && a.thread in s.calls && s.calls[a.thread] == SendLive(m.generation, m.value))
  {
  }

  /** No value is accepted that was not sent, by the generation that sent it. */
  lemma {:induction false} AcceptedWasSent<T>(limits: Limits<T>, states: seq<System<T>>, actions: seq<Action<T>>, i: nat)
    requires Run(limits, states, actions) && i <= |actions|
    ensures AllBegan(limits, states[i], actions, i)
  {
    if i > 0 {
      var n := i - 1;
      AcceptedWasSent(limits, states, actions, n);
      var s, a, t := states[n], actions[n], states[i];
      assert Next(limits, s, a, t);
      forall c | c in t.calls && Sending(t.calls[c])
        ensures Began(limits, actions, i, t.calls[c].generation, t.calls[c].value)
      {
        SendingComesFrom(limits, s, a, t, c);
        if c in s.calls && SameSend(t.calls[c], s.calls[c]) {
          BeganStays(limits, actions, n, t.calls[c].generation, t.calls[c].value);
        }
      }
      forall m | m in t.accepted ensures Began(limits, actions, i, m.generation, m.value) {
        AcceptedComesFrom(limits, s, a, t, m);
        BeganStays(limits, actions, n, m.generation, m.value);
      }
    }
  }

  // ----- a call that nobody disturbs -----

  /** The actions lead from the first of these states to the last. */
  ghost predicate Leads<T>(limits: Limits<T>, states: seq<System<T>>, actions: seq<Action<T>>)
  {
    && |states| == |actions| + 1
    && forall i :: 0 <= i < |actions| ==> Next(limits, states[i], actions[i], states[i + 1])
  }

  lemma LeadsFour<T>(limits: Limits<T>, s: System<T>, a: Action<T>, s1: System<T>, b: Action<T>, s2: System<T>, c: Action<T>,
                     s3: System<T>, d: Action<T>, t: System<T>)
    requires Next(limits, s, a, s1) && Next(limits, s1, b, s2) && Next(limits, s2, c, s3) && Next(limits, s3, d, t)
    ensures Leads(limits, [s, s1, s2, s3, t], [a, b, c, d])
  {
  }

  /** The live sender's call goes through to its end; one with a value over the byte limit,
      or of a stale sender, ends at once and does nothing. */
  lemma SendAlone<T>(limits: Limits<T>, s: System<T>, thread: Thread, generation: nat, value: T) returns (states: seq<System<T>>)
    requires Invariant(limits, s) && CanBegin(s, thread, Sender, generation) && s.lock.None?
    ensures var live := s.sender.generation == generation && limits.measure(value) <= limits.bytes;
            && (live ==>
                  && Leads(limits, states, [BeginSend(thread, generation, value), LockSend(thread), RecheckSend(thread), CommitSend(thread)])
                  && SendDoes(limits, Seen(s), generation, value, Seen(states[4])))
            && (!live ==> Next(limits, s, BeginSend(thread, generation, value), s))
    ensures |states| > 0 && states[0] == s
    ensures var t := states[|states| - 1]; t.lock == None && t.calls == s.calls
  {
    states := [s];
    if s.sender.generation == generation && limits.measure(value) <= limits.bytes {
      var s1 := Continue(s, thread, SendChecked(generation, value));
      var s2 := Locked(s1, thread, SendLocked(generation, value));
      var s3 := Continue(s2, thread, SendLive(generation, value));
      var t := Unlocked(Accept(limits, s3, generation, value), thread);
      assert Next(limits, s, BeginSend(thread, generation, value), s1) && Next(limits, s1, LockSend(thread), s2);
      assert Next(limits, s2, RecheckSend(thread), s3) && Next(limits, s3, CommitSend(thread), t);
      LeadsFour(limits, s, BeginSend(thread, generation, value), s1, LockSend(thread), s2, RecheckSend(thread), s3, CommitSend(thread), t);
      CommitSendDoes(limits, s3, thread, t);
      assert Seen(s3) == Seen(s) && t.calls == s.calls;
      states := [s, s1, s2, s3, t];
    }
  }

  lemma ReceiveAlone<T>(limits: Limits<T>, s: System<T>, thread: Thread, generation: nat) returns (states: seq<System<T>>)
    requires Invariant(limits, s) && CanBegin(s, thread, Receiver, generation) && s.lock.None?
    ensures s.receiver.generation == generation ==>
              && Leads(limits, states, [BeginReceive(thread, generation), LockReceive(thread), RecheckReceive(thread), CommitReceive(thread)])
              && ReceiveDoes(limits, Seen(s), generation, Seen(states[4]))
    ensures s.receiver.generation != generation ==> Next(limits, s, BeginReceive(thread, generation), s)
    ensures |states| > 0 && states[0] == s
    ensures var t := states[|states| - 1]; t.lock == None && t.calls == s.calls
  {
    states := [s];
    if s.receiver.generation == generation {
      var s1 := Continue(s, thread, ReceiveChecked(generation));
      var s2 := Locked(s1, thread, ReceiveLocked(generation));
      var s3 := Continue(s2, thread, ReceiveLive(generation));
      var t := Unlocked(Take(limits, s3, generation), thread);
      assert Next(limits, s, BeginReceive(thread, generation), s1) && Next(limits, s1, LockReceive(thread), s2);
      assert Next(limits, s2, RecheckReceive(thread), s3) && Next(limits, s3, CommitReceive(thread), t);
      LeadsFour(limits, s, BeginReceive(thread, generation), s1, LockReceive(thread), s2, RecheckReceive(thread), s3, CommitReceive(thread), t);
      CommitReceiveDoes(limits, s3, thread, t);
      assert Seen(s3) == Seen(s) && t.calls == s.calls;
      states := [s, s1, s2, s3, t];
    }
  }

  lemma TransferAlone<T>(limits: Limits<T>, s: System<T>, thread: Thread, d: Direction, generation: nat) returns (states: seq<System<T>>)
    requires CanBegin(s, thread, d, generation) && s.lock.None?
    ensures Leads(limits, states, [BeginTransfer(thread, d, generation), CommitTransfer(thread)])
    ensures states[0] == s && TransferDoes(Seen(s), d, generation, Seen(states[2]))
    ensures states[2].lock == None && states[2].calls == s.calls
  {
    var s1 := Locked(s, thread, TransferLocked(d, generation));
    var t := Unlocked(Transferred(s1, d, generation), thread);
    assert Next(limits, s, BeginTransfer(thread, d, generation), s1) && Next(limits, s1, CommitTransfer(thread), t);
    CommitTransferDoes(limits, s1, thread, t);
    assert Seen(s1) == Seen(s) && t.calls == s.calls;
    states := [s, s1, t];
  }

  /** The live endpoint's close retires it and then drains or discards. */
  lemma CloseAlone<T>(limits: Limits<T>, s: System<T>, thread: Thread, d: Direction, generation: nat) returns (states: seq<System<T>>)
    requires CanBegin(s, thread, d, generation) && s.lock.None? && Of(s, d).generation == generation
    ensures Leads(limits, states, [Close(thread, d, generation), FinishClose(thread)])
    ensures states[0] == s && CloseDoes(Seen(s), d, generation, Seen(states[1])) && FinishDoes(Seen(states[1]), d, Seen(states[2]))
  {
    var s1 := Continue(With(s, d, Won(Of(s, d), 0)), thread, Closing(d));
    var rest := s1.(calls := s1.calls - {thread});
    var t := if d == Sender then rest.(queue := Shut(s1.queue)) else Discard(rest);
    assert Next(limits, s, Close(thread, d, generation), s1) && Next(limits, s1, FinishClose(thread), t);
    RetireDoes(limits, s, thread, d, generation, s1);
    FinishCloseDoes(limits, s1, thread, t);
    states := [s, s1, t];
  }
}
