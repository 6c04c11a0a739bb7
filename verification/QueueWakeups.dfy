/**
 Blocking `push_wait` and `pop` over the bounded queue, as every interleaving of their
 critical sections.  A thread asleep on a condition variable leaves it when notified,
 spuriously or on a timeout, and then runs its loop test again under the lock.
 */
module QueueWakeups {
  import opened BoundedQueue

  type Thread = nat

  /** Who sleeps un-notified and who has been notified but not yet run again. */
  datatype System<T> = System(
    queue: QueueState<T>,
    receiversAsleep: set<Thread>, receiversWoken: set<Thread>,
    sendersAsleep: map<Thread, T>, sendersWoken: map<Thread, T>)

  function Initial<T>(): System<T> { System(QueueState([], 0, false), {}, {}, map[], map[]) }

  datatype Action<T> =
    | TryPush(value: T)
    | ReceiverArrives(thread: Thread, waits: bool)  // `waits` unless its timeout is zero
    | ReceiverRuns(thread: Thread, waits: bool)     // `waits` unless its deadline has passed
    | SenderArrives(thread: Thread, value: T)
    | SenderRuns(thread: Thread)
    | CloseQueue
    | CloseAndDiscardQueue

  // ----- condition variables -----

  /** `arrived.notify_one`: some sleeping receiver, if there is one. */
  ghost predicate ReceiverNotified<T>(s: System<T>, t: System<T>)
  {
    if s.receiversAsleep == {} then t == s
    else exists r :: r in s.receiversAsleep &&
           t == s.(receiversAsleep := s.receiversAsleep - {r}, receiversWoken := s.receiversWoken + {r})
  }

  /** `space.notify_one`: some sleeping sender, if there is one. */
  ghost predicate SenderNotified<T>(s: System<T>, t: System<T>)
  {
    if s.sendersAsleep == map[] then t == s
    else exists r :: r in s.sendersAsleep &&
           t == s.(sendersAsleep := s.sendersAsleep - {r}, sendersWoken := s.sendersWoken[r := s.sendersAsleep[r]])
  }

  /** Both `notify_all`s. */
  function AllNotified<T>(s: System<T>): System<T>
  {
    s.(receiversAsleep := {}, receiversWoken := s.receiversWoken + s.receiversAsleep,
       sendersAsleep := map[], sendersWoken := s.sendersWoken + s.sendersAsleep)
  }

  // ----- critical sections -----

  ghost predicate Pushes<T>(limits: Limits<T>, s: System<T>, value: T, t: System<T>)
  {
    ReceiverNotified(s.(queue := Pushed(limits, s.queue, value)), t)
  }

  /** `pop` from its loop test on: sleeps, or takes the head and notifies a sender. */
  ghost predicate Receives<T>(limits: Limits<T>, s: System<T>, thread: Thread, waits: bool, t: System<T>)
  {
    if |s.queue.entries| == 0 then
      if !s.queue.closed && waits then t == s.(receiversAsleep := s.receiversAsleep + {thread}) else t == s
    else SenderNotified(s.(queue := Popped(limits, s.queue)), t)
  }

  /** `push_wait` from its loop test on: gives up, pushes, or sleeps. */
  ghost predicate Sends<T>(limits: Limits<T>, s: System<T>, thread: Thread, value: T, t: System<T>)
  {
    if s.queue.closed then t == s
    else if Fits(limits, s.queue, value) then Pushes(limits, s, value, t)
    else t == s.(sendersAsleep := s.sendersAsleep[thread := value])
  }

  function WithoutReceiver<T>(s: System<T>, thread: Thread): System<T>
  {
    s.(receiversAsleep := s.receiversAsleep - {thread}, receiversWoken := s.receiversWoken - {thread})
  }

  function WithoutSender<T>(s: System<T>, thread: Thread): System<T>
  {
    s.(sendersAsleep := s.sendersAsleep - {thread}, sendersWoken := s.sendersWoken - {thread})
  }

  ghost predicate Next<T>(limits: Limits<T>, s: System<T>, a: Action<T>, t: System<T>)
  {
    match a
    case TryPush(value) =>
      if s.queue.closed || !Fits(limits, s.queue, value) then t == s else Pushes(limits, s, value, t)
    case ReceiverArrives(thread, waits) =>
      && thread !in s.receiversAsleep + s.receiversWoken
      && Receives(limits, s, thread, waits, t)
    case ReceiverRuns(thread, waits) =>
      && thread in s.receiversAsleep + s.receiversWoken
      && Receives(limits, WithoutReceiver(s, thread), thread, waits, t)
    case SenderArrives(thread, value) =>
      && thread !in s.sendersAsleep.Keys + s.sendersWoken.Keys
      && if limits.measure(value) > limits.bytes then t == s else Sends(limits, s, thread, value, t)
    case SenderRuns(thread) =>
      && thread in s.sendersAsleep.Keys + s.sendersWoken.Keys
      && var value := if thread in s.sendersAsleep then s.sendersAsleep[thread] else s.sendersWoken[thread];
         Sends(limits, WithoutSender(s, thread), thread, value, t)
    case CloseQueue => t == AllNotified(s.(queue := Shut(s.queue)))
    case CloseAndDiscardQueue => t == AllNotified(s.(queue := Discarded(s.queue)))
  }

  /** A finite run from the empty queue: `states[i]` becomes `states[i + 1]` by `actions[i]`. */
  ghost predicate Run<T>(limits: Limits<T>, states: seq<System<T>>, actions: seq<Action<T>>)
  {
    && |states| == |actions| + 1 && states[0] == Initial<T>()
    && forall i :: 0 <= i < |actions| ==> Next(limits, states[i], actions[i], states[i + 1])
  }

  // ----- what every interleaving keeps -----

  ghost predicate NoLostReceiver<T>(s: System<T>)
  {
    s.receiversAsleep != {} ==> |s.queue.entries| <= |s.receiversWoken|
  }

  ghost predicate NoLostSender<T>(s: System<T>)
  {
    s.sendersAsleep != map[] ==> |s.queue.entries| > 0 || s.sendersWoken != map[]
  }

  ghost predicate Invariant<T>(limits: Limits<T>, s: System<T>)
  {
    && Accounted(limits, s.queue)
    && s.receiversAsleep !! s.receiversWoken
    && s.sendersAsleep.Keys !! s.sendersWoken.Keys
    && (forall r :: r in s.sendersAsleep ==> limits.measure(s.sendersAsleep[r]) <= limits.bytes)
    && (forall r :: r in s.sendersWoken ==> limits.measure(s.sendersWoken[r]) <= limits.bytes)
    && (if s.queue.closed then s.receiversAsleep == {} && s.sendersAsleep == map[]
        else NoLostReceiver(s) && NoLostSender(s))
  }

  lemma PushesKeeps<T>(limits: Limits<T>, s: System<T>, value: T, t: System<T>)
    requires Invariant(limits, s) && !s.queue.closed && Fits(limits, s.queue, value) && Pushes(limits, s, value, t)
    ensures Invariant(limits, t) && !t.queue.closed
  {
    PushedAccounted(limits, s.queue, value);
  }

  /** A receiver that has left the sleepers may account for one entry of its own. */
  lemma ReceivesKeeps<T>(limits: Limits<T>, s: System<T>, thread: Thread, waits: bool, t: System<T>)
    requires Receives(limits, s, thread, waits, t) && thread !in s.receiversAsleep + s.receiversWoken
    requires Invariant(limits, s.(receiversAsleep := {})) && (s.queue.closed ==> s.receiversAsleep == {})
    requires s.receiversAsleep !! s.receiversWoken
    requires s.receiversAsleep != {} ==> |s.queue.entries| <= |s.receiversWoken| + 1
    ensures Invariant(limits, t)
  {
    if |s.queue.entries| > 0 {
      PoppedAccounted(limits, s.queue);
      if s.sendersAsleep != map[] {
        var r :| r in s.sendersAsleep &&
          t == s.(queue := Popped(limits, s.queue), sendersAsleep := s.sendersAsleep - {r},
                  sendersWoken := s.sendersWoken[r := s.sendersAsleep[r]]);
        assert r in t.sendersWoken;
      }
    }
  }

  /** A sender that finds no room finds the queue non-empty, so a pop is still to come. */
  lemma SendsKeeps<T>(limits: Limits<T>, s: System<T>, thread: Thread, value: T, t: System<T>)
    requires limits.messages > 0 && limits.measure(value) <= limits.bytes
    requires Sends(limits, s, thread, value, t) && thread !in s.sendersAsleep.Keys + s.sendersWoken.Keys
    requires Invariant(limits, s.(sendersAsleep := map[])) && (s.queue.closed ==> s.sendersAsleep == map[])
    requires s.sendersAsleep.Keys !! s.sendersWoken.Keys
    requires forall r :: r in s.sendersAsleep ==> limits.measure(s.sendersAsleep[r]) <= limits.bytes
    ensures Invariant(limits, t)
  {
    if !s.queue.closed && Fits(limits, s.queue, value) {
      PushedAccounted(limits, s.queue, value);
    }
  }

  lemma ReceiverRunsKeeps<T>(limits: Limits<T>, s: System<T>, thread: Thread, waits: bool, t: System<T>)
    requires Invariant(limits, s) && thread in s.receiversAsleep + s.receiversWoken
    requires Receives(limits, WithoutReceiver(s, thread), thread, waits, t)
    ensures Invariant(limits, t)
  {
    var u := WithoutReceiver(s, thread);
    assert |u.receiversWoken| >= |s.receiversWoken| - 1;
    assert thread in s.receiversAsleep ==> u.receiversWoken == s.receiversWoken;
    assert u.receiversAsleep != {} ==> s.receiversAsleep != {};
    ReceivesKeeps(limits, u, thread, waits, t);
  }

  lemma SenderRunsKeeps<T>(limits: Limits<T>, s: System<T>, thread: Thread, value: T, t: System<T>)
    requires limits.messages > 0 && Invariant(limits, s)
    requires thread in s.sendersAsleep.Keys + s.sendersWoken.Keys
    requires value == if thread in s.sendersAsleep then s.sendersAsleep[thread] else s.sendersWoken[thread]
    requires Sends(limits, WithoutSender(s, thread), thread, value, t)
    ensures Invariant(limits, t)
  {
    SendsKeeps(limits, WithoutSender(s, thread), thread, value, t);
  }

  lemma CloseKeeps<T>(limits: Limits<T>, s: System<T>, q: QueueState<T>)
    requires Invariant(limits, s) && Accounted(limits, q) && q.closed
    ensures Invariant(limits, AllNotified(s.(queue := q)))
  {
  }

  lemma NextKeeps<T>(limits: Limits<T>, s: System<T>, a: Action<T>, t: System<T>)
    requires limits.messages > 0 && Invariant(limits, s) && Next(limits, s, a, t)
    ensures Invariant(limits, t)
  {
    match a
    case TryPush(value) =>
      if !s.queue.closed && Fits(limits, s.queue, value) { PushesKeeps(limits, s, value, t); }
    case ReceiverArrives(thread, waits) => ReceivesKeeps(limits, s, thread, waits, t);
    case ReceiverRuns(thread, waits) => ReceiverRunsKeeps(limits, s, thread, waits, t);
    case SenderArrives(thread, value) =>
      if limits.measure(value) <= limits.bytes { SendsKeeps(limits, s, thread, value, t); }
    case SenderRuns(thread) =>
      var value := if thread in s.sendersAsleep then s.sendersAsleep[thread] else s.sendersWoken[thread];
      SenderRunsKeeps(limits, s, thread, value, t);
    case CloseQueue => CloseKeeps(limits, s, Shut(s.queue));
    case CloseAndDiscardQueue => CloseKeeps(limits, s, Discarded(s.queue));
  }

  /** No wake-up is lost in any run, despite `notify_one`: while the queue is open, an
      un-notified receiver leaves no more entries than notified receivers, and an
      un-notified sender leaves an entry still to be popped or a notified sender; once
      it is closed nobody sleeps un-notified. */
  lemma {:induction false} NoWakeupLost<T>(limits: Limits<T>, states: seq<System<T>>, actions: seq<Action<T>>, i: nat)
    requires limits.messages > 0 && Run(limits, states, actions) && i < |states|
    ensures Invariant(limits, states[i])
  {
    if i > 0 {
      NoWakeupLost(limits, states, actions, i - 1);
      NextKeeps(limits, states[i - 1], actions[i - 1], states[i]);
    }
  }

  /** A receiver and a sender are never both asleep with nobody notified. */
  lemma NeverBothStuck<T>(limits: Limits<T>, states: seq<System<T>>, actions: seq<Action<T>>, i: nat)
    requires limits.messages > 0 && Run(limits, states, actions) && i < |states|
    requires states[i].receiversAsleep != {} && states[i].sendersAsleep != map[]
    ensures states[i].receiversWoken != {} || states[i].sendersWoken != map[]
  {
    NoWakeupLost(limits, states, actions, i);
  }

  // ----- what each call does -----

  /** A value is taken in, last, exactly when the queue is open and has room for one message
      more and for its bytes. */
  ghost predicate PushDoes<T>(limits: Limits<T>, q: QueueState<T>, value: T, r: QueueState<T>)
  {
    var room := !q.closed && |q.entries| < limits.messages && q.bytes + limits.measure(value) <= limits.bytes;
    && (room ==> r == QueueState(q.entries + [value], q.bytes + limits.measure(value), false))
    && (!room ==> r == q)
  }

  /** The first entry is taken out whenever there is one, also after a close. */
  ghost predicate PopDoes<T>(limits: Limits<T>, q: QueueState<T>, r: QueueState<T>)
  {
    && (q.entries != [] ==>
          && q.entries == [q.entries[0]] + r.entries && r.closed == q.closed
          && q.bytes == r.bytes + limits.measure(q.entries[0]))
    && (q.entries == [] ==> r == q)
  }

  /** The value a sender that runs again is waiting to push. */
  function Waiting<T>(s: System<T>, thread: Thread): T
    requires thread in s.sendersAsleep.Keys + s.sendersWoken.Keys
  {
    if thread in s.sendersAsleep then s.sendersAsleep[thread] else s.sendersWoken[thread]
  }

  /** A receiver goes to sleep exactly on an open empty queue, if it is to wait at all. */
  ghost predicate ReceiverDoes<T>(limits: Limits<T>, s: System<T>, thread: Thread, waits: bool, t: System<T>)
  {
    && PopDoes(limits, s.queue, t.queue)
    && (thread in t.receiversAsleep <==> s.queue.entries == [] && !s.queue.closed && waits)
    && thread !in t.receiversWoken
  }

  /** A sender goes to sleep exactly on an open queue without room for a value that could
      ever have room, and keeps that value. */
  ghost predicate SenderDoes<T>(limits: Limits<T>, s: System<T>, thread: Thread, value: T, t: System<T>)
  {
    && (limits.measure(value) <= limits.bytes ==> PushDoes(limits, s.queue, value, t.queue))
    && (limits.measure(value) > limits.bytes ==> t.queue == s.queue)
    && (thread in t.sendersAsleep <==>
          && limits.measure(value) <= limits.bytes && !s.queue.closed
          && (|s.queue.entries| >= limits.messages || s.queue.bytes + limits.measure(value) > limits.bytes))
    && (thread in t.sendersAsleep ==> t.sendersAsleep[thread] == value)
    && thread !in t.sendersWoken
  }

  ghost predicate Does<T>(limits: Limits<T>, s: System<T>, a: Action<T>, t: System<T>)
  {
    match a
    case TryPush(value) => PushDoes(limits, s.queue, value, t.queue)
    case ReceiverArrives(thread, waits) => ReceiverDoes(limits, s, thread, waits, t)
    case ReceiverRuns(thread, waits) => ReceiverDoes(limits, s, thread, waits, t)
    case SenderArrives(thread, value) => SenderDoes(limits, s, thread, value, t)
    case SenderRuns(thread) =>
      thread in s.sendersAsleep.Keys + s.sendersWoken.Keys && SenderDoes(limits, s, thread, Waiting(s, thread), t)
    case CloseQueue => t.queue.entries == s.queue.entries && t.queue.bytes == s.queue.bytes && t.queue.closed
    case CloseAndDiscardQueue => t.queue.entries == [] && t.queue.bytes == 0 && t.queue.closed
  }

  lemma TryPushDoes<T>(limits: Limits<T>, s: System<T>, value: T, t: System<T>)
    requires Invariant(limits, s) && Next(limits, s, TryPush(value), t)
    ensures PushDoes(limits, s.queue, value, t.queue)
  {
  }

  lemma ReceivesDoes<T>(limits: Limits<T>, s: System<T>, thread: Thread, waits: bool, t: System<T>)
    requires Accounted(limits, s.queue) && Receives(limits, s, thread, waits, t)
    requires thread !in s.receiversAsleep + s.receiversWoken
    ensures ReceiverDoes(limits, s, thread, waits, t)
  {
    if |s.queue.entries| > 0 {
      PoppedAccounted(limits, s.queue);
    }
  }

  lemma SendsDoes<T>(limits: Limits<T>, s: System<T>, thread: Thread, value: T, t: System<T>)
    requires limits.measure(value) <= limits.bytes && Sends(limits, s, thread, value, t)
    requires thread !in s.sendersAsleep.Keys + s.sendersWoken.Keys
    ensures SenderDoes(limits, s, thread, value, t)
  {
  }

  lemma StepDoes<T>(limits: Limits<T>, s: System<T>, a: Action<T>, t: System<T>)
    requires Invariant(limits, s) && Next(limits, s, a, t)
    ensures Does(limits, s, a, t)
  {
    match a
    case TryPush(value) => TryPushDoes(limits, s, value, t);
    case ReceiverArrives(thread, waits) => ReceivesDoes(limits, s, thread, waits, t);
    case ReceiverRuns(thread, waits) => ReceivesDoes(limits, WithoutReceiver(s, thread), thread, waits, t);
    case SenderArrives(thread, value) =>
      if limits.measure(value) <= limits.bytes { SendsDoes(limits, s, thread, value, t); }
    case SenderRuns(thread) => SendsDoes(limits, WithoutSender(s, thread), thread, Waiting(s, thread), t);
    case _ =>
  }

  /** Every call of every run pushes, pops, sleeps or closes exactly when it should. */
  lemma RunDoes<T>(limits: Limits<T>, states: seq<System<T>>, actions: seq<Action<T>>, i: nat)
    requires limits.messages > 0 && Run(limits, states, actions) && i < |actions|
    ensures Does(limits, states[i], actions[i], states[i + 1])
  {
    NoWakeupLost(limits, states, actions, i);
    assert Next(limits, states[i], actions[i], states[i + 1]);
    StepDoes(limits, states[i], actions[i], states[i + 1]);
  }

  // ----- no call is ever blocked -----

  lemma NotifiesSomeReceiver<T>(s: System<T>) returns (t: System<T>)
    ensures ReceiverNotified(s, t)
  {
    t := s;
    if s.receiversAsleep != {} {
      var r :| r in s.receiversAsleep;
      t := s.(receiversAsleep := s.receiversAsleep - {r}, receiversWoken := s.receiversWoken + {r});
    }
  }

  lemma NotifiesSomeSender<T>(s: System<T>) returns (t: System<T>)
    ensures SenderNotified(s, t)
  {
    t := s;
    if s.sendersAsleep != map[] {
      assert s.sendersAsleep.Keys != {} by { assert s.sendersAsleep.Keys == {} ==> s.sendersAsleep == map[]; }
      var r :| r in s.sendersAsleep;
      t := s.(sendersAsleep := s.sendersAsleep - {r}, sendersWoken := s.sendersWoken[r := s.sendersAsleep[r]]);
    }
  }

  lemma ReceivesGo<T>(limits: Limits<T>, s: System<T>, thread: Thread, waits: bool) returns (t: System<T>)
    ensures Receives(limits, s, thread, waits, t)
  {
    if |s.queue.entries| == 0 {
      t := if !s.queue.closed && waits then s.(receiversAsleep := s.receiversAsleep + {thread}) else s;
    } else {
      t := NotifiesSomeSender(s.(queue := Popped(limits, s.queue)));
    }
  }

  lemma SendsGo<T>(limits: Limits<T>, s: System<T>, thread: Thread, value: T) returns (t: System<T>)
    ensures Sends(limits, s, thread, value, t)
  {
    if s.queue.closed {
      t := s;
    } else if Fits(limits, s.queue, value) {
      t := NotifiesSomeReceiver(s.(queue := Pushed(limits, s.queue, value)));
    } else {
      t := s.(sendersAsleep := s.sendersAsleep[thread := value]);
    }
  }

  /** A thread arrives when it is in no call of its kind, and runs again when it is. */
  predicate May<T>(s: System<T>, a: Action<T>)
  {
    match a
    case ReceiverArrives(thread, _) => thread !in s.receiversAsleep && thread !in s.receiversWoken
    case ReceiverRuns(thread, _) => thread in s.receiversAsleep || thread in s.receiversWoken
    case SenderArrives(thread, _) => thread !in s.sendersAsleep && thread !in s.sendersWoken
    case SenderRuns(thread) => thread in s.sendersAsleep || thread in s.sendersWoken
    case _ => true
  }

  /** Whatever a thread may do in any state, it can. */
  lemma AlwaysGoesOn<T>(limits: Limits<T>, s: System<T>, a: Action<T>) returns (t: System<T>)
    requires May(s, a)
    ensures Next(limits, s, a, t)
  {
    match a
    case TryPush(value) =>
      if s.queue.closed || !Fits(limits, s.queue, value) {
        t := s;
      } else {
        t := NotifiesSomeReceiver(s.(queue := Pushed(limits, s.queue, value)));
      }
    case ReceiverArrives(thread, waits) => t := ReceivesGo(limits, s, thread, waits);
    case ReceiverRuns(thread, waits) => t := ReceivesGo(limits, WithoutReceiver(s, thread), thread, waits);
    case SenderArrives(thread, value) =>
      if limits.measure(value) > limits.bytes {
        t := s;
      } else {
        t := SendsGo(limits, s, thread, value);
      }
    case SenderRuns(thread) => t := SendsGo(limits, WithoutSender(s, thread), thread, Waiting(s, thread));
    case CloseQueue => t := AllNotified(s.(queue := Shut(s.queue)));
    case CloseAndDiscardQueue => t := AllNotified(s.(queue := Discarded(s.queue)));
  }
}
