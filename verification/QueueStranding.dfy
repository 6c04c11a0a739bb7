/**
 How far `space.notify_one` reaches: when one notification for each pop is enough to keep
 a sender from sleeping while its value would fit.
 */
module QueueStranding {
  import opened BoundedQueue
  import opened QueueWakeups

  /** A sleeping sender's value would fit, yet no sender has been told. */
  ghost predicate Stranded<T>(limits: Limits<T>, s: System<T>)
  {
    && !s.queue.closed && s.sendersWoken == map[]
    && exists r :: r in s.sendersAsleep && Fits(limits, s.queue, s.sendersAsleep[r])
  }

  ghost predicate Sendable<T>(limits: Limits<T>, value: T) { limits.measure(value) <= limits.bytes }

  /** Whatever the queue holds, any two values that can ever be sent fit alike. */
  ghost predicate Uniform<T(!new)>(limits: Limits<T>)
  {
    forall q, v, w :: Accounted(limits, q) && Sendable(limits, v) && Sendable(limits, w) ==>
      (Fits(limits, q, v) <==> Fits(limits, q, w))
  }

  // ----- a uniform queue holds a fixed number of values -----

  function Of<T>(limits: Limits<T>, entries: seq<T>): QueueState<T> { QueueState(entries, Size(limits, entries), false) }

  /** Accounting and fitting look at the number and the size of the entries only. */
  lemma Alike<T>(limits: Limits<T>, q: QueueState<T>, r: QueueState<T>)
    requires Accounted(limits, q) && |q.entries| == |r.entries| && q.bytes == r.bytes == Size(limits, r.entries)
    ensures Accounted(limits, r) && forall v :: Fits(limits, q, v) <==> Fits(limits, r, v)
  {
  }

  lemma SizeSwaps<T>(limits: Limits<T>, a: seq<T>, b: seq<T>, c: seq<T>)
    ensures Size(limits, a + b + c) == Size(limits, a + c) + Size(limits, b)
    ensures Size(limits, a + (b + c)) == Size(limits, a + c) + Size(limits, b)
  {
    SizeAppends(limits, a + b, c);
    SizeAppends(limits, a, b);
    SizeAppends(limits, a, c);
    assert a + (b + c) == a + b + c;
  }

  /** Exchanging one entry for another changes neither whether the queue is within its limits
      nor what fits. */
  lemma Exchange<T(!new)>(limits: Limits<T>, rest: seq<T>, x: T, y: T, v: T)
    requires Uniform(limits) && Accounted(limits, Of(limits, rest + [x])) && Sendable(limits, y) && Sendable(limits, v)
    ensures Accounted(limits, Of(limits, rest + [y]))
    ensures Fits(limits, Of(limits, rest + [x]), v) <==> Fits(limits, Of(limits, rest + [y]), v)
  {
    SizeAppends(limits, rest, [x]);
    SizeAppends(limits, rest, [y]);
    SizeOne(limits, x);
    SizeOne(limits, y);
    var r, p, q := Of(limits, rest), Of(limits, rest + [x]), Of(limits, rest + [y]);
    assert Accounted(limits, r) && Sendable(limits, x) && Fits(limits, r, x);
    assert Fits(limits, r, y);
    assert Fits(limits, p, v) <==> Fits(limits, p, y);
    assert Fits(limits, q, v) <==> Fits(limits, q, x);
  }

  /** Only the number of entries decides. */
  lemma {:induction false} CountDecides<T(!new)>(limits: Limits<T>, a: seq<T>, b: seq<T>, common: seq<T>, v: T)
    requires Uniform(limits) && |a| == |b| && Accounted(limits, Of(limits, a + common)) && Sendable(limits, v)
    requires forall i :: 0 <= i < |b| ==> Sendable(limits, b[i])
    ensures Accounted(limits, Of(limits, b + common))
    ensures Fits(limits, Of(limits, a + common), v) <==> Fits(limits, Of(limits, b + common), v)
    decreases |a|
  {
    if |a| == 0 {
      assert a == b;
    } else {
      var n := |a| - 1;
      var r, x, y := a[..n], a[n], b[n];
      assert a == r + [x] && b == b[..n] + [y];
      SizeSwaps(limits, r, [x], common);
      SizeSwaps(limits, r, [y], common);
      SizeAppends(limits, r + common, [x]);
      SizeAppends(limits, r + common, [y]);
      Alike(limits, Of(limits, a + common), Of(limits, r + common + [x]));
      Exchange(limits, r + common, x, y, v);
      Alike(limits, Of(limits, r + common + [y]), Of(limits, r + ([y] + common)));
      CountDecides(limits, r, b[..n], [y] + common, v);
      assert b[..n] + ([y] + common) == b + common;
    }
  }

  function Copies<T>(v: T, n: nat): (r: seq<T>)
    ensures |r| == n && forall i :: 0 <= i < n ==> r[i] == v
  {
    seq(n, _ => v)
  }

  lemma CopiesGrow<T>(limits: Limits<T>, v: T, n: nat)
    ensures Copies(v, n + 1) == Copies(v, n) + [v]
    ensures Size(limits, Copies(v, n + 1)) == Size(limits, Copies(v, n)) + limits.measure(v)
  {
    assert Copies(v, n + 1) == Copies(v, n) + [v];
    SizeAppends(limits, Copies(v, n), [v]);
    SizeOne(limits, v);
  }

  /** How many copies of a value the queue takes. */
  ghost function Room<T>(limits: Limits<T>, v: T, n: nat): (room: nat)
    ensures room >= n
    decreases limits.messages - n
  {
    if Fits(limits, Of(limits, Copies(v, n)), v) then Room(limits, v, n + 1) else n
  }

  lemma {:induction false} RoomDecides<T>(limits: Limits<T>, v: T, n: nat, k: nat)
    requires n <= k && Accounted(limits, Of(limits, Copies(v, k)))
    ensures Fits(limits, Of(limits, Copies(v, k)), v) <==> k < Room(limits, v, n)
    decreases k - n
  {
    if n < k {
      CopiesAccounted(limits, v, n + 1, k);
      CopiesGrow(limits, v, n);
      RoomDecides(limits, v, n + 1, k);
    }
  }

  lemma {:induction false} CopiesAccounted<T>(limits: Limits<T>, v: T, n: nat, k: nat)
    requires n <= k && Accounted(limits, Of(limits, Copies(v, k)))
    ensures Accounted(limits, Of(limits, Copies(v, n)))
    decreases k - n
  {
    if n < k {
      CopiesGrow(limits, v, k - 1);
      CopiesAccounted(limits, v, n, k - 1);
    }
  }

  /** The queue holds exactly `room` values that can be sent, whatever they are. */
  ghost predicate HasRoom<T(!new)>(limits: Limits<T>, room: nat)
  {
    forall q, value :: Accounted(limits, q) && Sendable(limits, value) ==> (Fits(limits, q, value) <==> |q.entries| < room)
  }

  lemma UniformHasRoom<T(!new)>(limits: Limits<T>, u: T)
    requires Uniform(limits) && Sendable(limits, u)
    ensures HasRoom(limits, Room(limits, u, 0))
  {
    forall q, v | Accounted(limits, q) && Sendable(limits, v)
      ensures Fits(limits, q, v) <==> |q.entries| < Room(limits, u, 0)
    {
      var n := |q.entries|;
      assert q.entries + [] == q.entries && Copies(u, n) + [] == Copies(u, n);
      CountDecides(limits, q.entries, Copies(u, n), [], v);
      assert Fits(limits, Of(limits, Copies(u, n)), v) <==> Fits(limits, Of(limits, Copies(u, n)), u);
      RoomDecides(limits, u, 0, n);
    }
  }

  // ----- then no run strands a sender -----

  /** While a sender sleeps, the entries and the senders told make up the whole room. */
  ghost predicate SpaceIsTold<T>(room: nat, s: System<T>)
  {
    !s.queue.closed && s.sendersAsleep != map[] ==> room <= |s.queue.entries| + |s.sendersWoken.Keys|
  }

  lemma SendsTells<T>(limits: Limits<T>, room: nat, s: System<T>, thread: Thread, value: T, t: System<T>)
    requires Fits(limits, s.queue, value) <==> |s.queue.entries| < room
    requires Sends(limits, s, thread, value, t)
    requires s.sendersAsleep != map[] && !s.queue.closed ==> room <= |s.queue.entries| + |s.sendersWoken.Keys| + 1
    ensures SpaceIsTold(room, t)
  {
  }

  lemma ReceivesTells<T>(limits: Limits<T>, room: nat, s: System<T>, thread: Thread, waits: bool, t: System<T>)
    requires SpaceIsTold(room, s) && s.sendersAsleep.Keys !! s.sendersWoken.Keys
    requires Receives(limits, s, thread, waits, t)
    ensures SpaceIsTold(room, t)
  {
    if |s.queue.entries| > 0 && s.sendersAsleep != map[] {
      var u := s.(queue := Popped(limits, s.queue));
      var r :| r in u.sendersAsleep &&
        t == u.(sendersAsleep := u.sendersAsleep - {r}, sendersWoken := u.sendersWoken[r := u.sendersAsleep[r]]);
      OneMoreKey(s.sendersWoken, r, s.sendersAsleep[r]);
    }
  }

  lemma OneMoreKey<T>(m: map<Thread, T>, r: Thread, value: T)
    requires r !in m
    ensures |m[r := value].Keys| == |m.Keys| + 1
  {
    assert m[r := value].Keys == m.Keys + {r};
  }

  lemma SenderRunsTells<T>(limits: Limits<T>, room: nat, s: System<T>, thread: Thread, value: T, t: System<T>)
    requires (Fits(limits, s.queue, value) <==> |s.queue.entries| < room) && SpaceIsTold(room, s)
    requires Sends(limits, WithoutSender(s, thread), thread, value, t)
    ensures SpaceIsTold(room, t)
  {
    var u := WithoutSender(s, thread);
    assert u.sendersWoken.Keys == s.sendersWoken.Keys - {thread};
    assert |u.sendersWoken.Keys| >= |s.sendersWoken.Keys| - 1;
    assert u.sendersAsleep != map[] ==> s.sendersAsleep != map[];
    SendsTells(limits, room, u, thread, value, t);
  }

  lemma NextTells<T(!new)>(limits: Limits<T>, room: nat, s: System<T>, a: Action<T>, t: System<T>)
    requires HasRoom(limits, room) && Invariant(limits, s) && Next(limits, s, a, t)
    requires SpaceIsTold(room, s)
    ensures SpaceIsTold(room, t)
  {
    match a
    case TryPush(value) =>
    case ReceiverArrives(thread, waits) => ReceivesTells(limits, room, s, thread, waits, t);
    case ReceiverRuns(thread, waits) => ReceivesTells(limits, room, WithoutReceiver(s, thread), thread, waits, t);
    case SenderArrives(thread, value) =>
      if limits.measure(value) <= limits.bytes { SendsTells(limits, room, s, thread, value, t); }
    case SenderRuns(thread) =>
      var value := if thread in s.sendersAsleep then s.sendersAsleep[thread] else s.sendersWoken[thread];
      SenderRunsTells(limits, room, s, thread, value, t);
    case CloseQueue =>
    case CloseAndDiscardQueue =>
  }

  lemma {:induction false} SpaceAlwaysTold<T(!new)>(limits: Limits<T>, room: nat,
      states: seq<System<T>>, actions: seq<Action<T>>, i: nat)
    requires limits.messages > 0 && HasRoom(limits, room) && Run(limits, states, actions) && i < |states|
    ensures SpaceIsTold(room, states[i])
  {
    if i == 0 {
      assert states[0].sendersAsleep == map[];
    } else {
      SpaceAlwaysTold(limits, room, states, actions, i - 1);
      assert Invariant(limits, states[i - 1]) by { NoWakeupLost(limits, states, actions, i - 1); }
      assert Next(limits, states[i - 1], actions[i - 1], states[i]);
      NextTells(limits, room, states[i - 1], actions[i - 1], states[i]);
    }
  }

  lemma UniformNeverStrands<T(!new)>(limits: Limits<T>, states: seq<System<T>>, actions: seq<Action<T>>, i: nat)
    requires limits.messages > 0 && Uniform(limits) && Run(limits, states, actions) && i < |states|
    ensures !Stranded(limits, states[i])
  {
    var s := states[i];
    NoWakeupLost(limits, states, actions, i);
    if r :| r in s.sendersAsleep {
      var u := s.sendersAsleep[r];
      UniformHasRoom(limits, u);
      SpaceAlwaysTold(limits, Room(limits, u, 0), states, actions, i);
    }
  }

  // ----- otherwise some run does -----

  lemma RunExtends<T>(limits: Limits<T>, states: seq<System<T>>, actions: seq<Action<T>>, a: Action<T>, t: System<T>)
    requires Run(limits, states, actions) && Next(limits, states[|states| - 1], a, t)
    ensures Run(limits, states + [t], actions + [a])
  {
    var more, done := states + [t], actions + [a];
    forall i | 0 <= i < |done| ensures Next(limits, more[i], done[i], more[i + 1]) {
      assert i < |actions| ==> Next(limits, states[i], actions[i], states[i + 1]);
    }
  }

  function Idle<T>(limits: Limits<T>, entries: seq<T>): System<T>
  {
    System(Of(limits, entries), {}, {}, map[], map[])
  }

  /** Any entries within the limits can be pushed one by one. */
  lemma {:induction false} PushAll<T>(limits: Limits<T>, entries: seq<T>) returns (states: seq<System<T>>, actions: seq<Action<T>>)
    requires Accounted(limits, Of(limits, entries))
    ensures Run(limits, states, actions) && states[|states| - 1] == Idle(limits, entries)
  {
    if |entries| == 0 {
      states, actions := [Initial<T>()], [];
    } else {
      var n := |entries| - 1;
      var first, last := entries[..n], entries[n];
      assert entries == first + [last];
      SizeAppends(limits, first, [last]);
      SizeOne(limits, last);
      states, actions := PushAll(limits, first);
      RunExtends(limits, states, actions, TryPush(last), Idle(limits, entries));
      states, actions := states + [Idle(limits, entries)], actions + [TryPush(last)];
    }
  }

  /** Copies of `v` put in front until it no longer fits; `w` fits none of the way. */
  lemma {:induction false} FillUp<T>(limits: Limits<T>, entries: seq<T>, v: T, w: T) returns (full: seq<T>)
    requires Accounted(limits, Of(limits, entries)) && Fits(limits, Of(limits, entries), v) && !Fits(limits, Of(limits, entries), w)
    ensures Accounted(limits, Of(limits, full)) && Fits(limits, Of(limits, full), v) && !Fits(limits, Of(limits, full), w)
    ensures Accounted(limits, Of(limits, [v] + full)) && !Fits(limits, Of(limits, [v] + full), v)
    decreases limits.messages - |entries|
  {
    assert ([v] + entries)[1..] == entries;
    assert Accounted(limits, Of(limits, [v] + entries));
    if Fits(limits, Of(limits, [v] + entries), v) {
      full := FillUp(limits, [v] + entries, v, w);
    } else {
      full := entries;
    }
  }

  /** Both senders sleep on the full queue, the one pop tells `w`, which still does not fit,
      and `v` sleeps on. */
  lemma StrandRun<T>(limits: Limits<T>, full: seq<T>, v: T, w: T) returns (states: seq<System<T>>, actions: seq<Action<T>>)
    requires Accounted(limits, Of(limits, full)) && Fits(limits, Of(limits, full), v) && !Fits(limits, Of(limits, full), w)
    requires Accounted(limits, Of(limits, [v] + full)) && !Fits(limits, Of(limits, [v] + full), v)
    requires Sendable(limits, w)
    ensures Run(limits, states, actions) && Stranded(limits, states[|states| - 1])
  {
    assert ([v] + full)[1..] == full;
    states, actions := PushAll(limits, [v] + full);
    var s0 := Idle(limits, [v] + full);
    var s1 := s0.(sendersAsleep := map[1 := v]);
    RunExtends(limits, states, actions, SenderArrives(1, v), s1);
    states, actions := states + [s1], actions + [SenderArrives(1, v)];
    var s2 := s1.(sendersAsleep := map[1 := v, 2 := w]);
    RunExtends(limits, states, actions, SenderArrives(2, w), s2);
    states, actions := states + [s2], actions + [SenderArrives(2, w)];
    var s3 := System(Of(limits, full), {}, {}, map[1 := v], map[2 := w]);
    assert SenderNotified(s2.(queue := Of(limits, full)), s3) by {
      assert 2 in s2.sendersAsleep;
      assert s2.sendersAsleep - {2} == map[1 := v];
    }
    assert Popped(limits, s2.queue) == Of(limits, full);
    RunExtends(limits, states, actions, ReceiverArrives(3, true), s3);
    states, actions := states + [s3], actions + [ReceiverArrives(3, true)];
    var s4 := s2.(queue := Of(limits, full));
    assert WithoutSender(s3, 2) == s3.(sendersWoken := map[]);
    RunExtends(limits, states, actions, SenderRuns(2), s4);
    states, actions := states + [s4], actions + [SenderRuns(2)];
    assert 1 in s4.sendersAsleep && s4.sendersAsleep[1] == v;
  }

  lemma OtherwiseStrands<T(!new)>(limits: Limits<T>) returns (states: seq<System<T>>, actions: seq<Action<T>>)
    requires !Uniform(limits)
    ensures Run(limits, states, actions) && Stranded(limits, states[|states| - 1])
  {
    var q, v, w :| Accounted(limits, q) && Sendable(limits, v) && Sendable(limits, w)
      && Fits(limits, q, v) && !Fits(limits, q, w);
    var full := FillUp(limits, q.entries, v, w);
    states, actions := StrandRun(limits, full, v, w);
  }

  ghost predicate CanStrand<T(!new)>(limits: Limits<T>)
  {
    exists states, actions, i :: Run(limits, states, actions) && 0 <= i < |states| && Stranded(limits, states[i])
  }

  /** No run of any length strands a sender exactly when values fit alike. */
  lemma StrandFreeIff<T(!new)>(limits: Limits<T>)
    requires limits.messages > 0
    ensures !CanStrand(limits) <==> Uniform(limits)
  {
    if Uniform(limits) && CanStrand(limits) {
      var states, actions, i :| Run(limits, states, actions) && 0 <= i < |states| && Stranded(limits, states[i]);
      UniformNeverStrands(limits, states, actions, i);
      assert false;
    }
    if !Uniform(limits) {
      var states, actions := OtherwiseStrands(limits);
      assert Stranded(limits, states[|states| - 1]);
    }
  }

  // ----- the same condition, in numbers -----

  /** How many values of this size the queue takes: both limits, whichever is met first. */
  function Capacity<T>(limits: Limits<T>, v: T): nat
  {
    var size := limits.measure(v);
    if size == 0 || limits.bytes / size > limits.messages then limits.messages else limits.bytes / size
  }

  /** Every value that can be sent at all fits the queue equally often. */
  ghost predicate EqualCapacity<T(!new)>(limits: Limits<T>)
  {
    forall v, w :: Sendable(limits, v) && Sendable(limits, w) ==> Capacity(limits, v) == Capacity(limits, w)
  }

  lemma Scales(a: nat, b: nat, k: nat)
    requires a <= b
    ensures a * k <= b * k
  {
  }

  lemma DivideIff(k: nat, size: nat, bytes: nat)
    requires size > 0
    ensures k <= bytes / size <==> k * size <= bytes
  {
    var q := bytes / size;
    assert q * size <= bytes < q * size + size;
    if k <= q {
      Scales(k, q, size);
    } else {
      Scales(q + 1, k, size);
      assert (q + 1) * size == q * size + size;
    }
  }

  /** `k` values of this size are within the limits iff `k` is at most the capacity. */
  lemma CapacityIff<T>(limits: Limits<T>, v: T, k: nat)
    ensures k <= Capacity(limits, v) <==> k <= limits.messages && limits.measure(v) * k <= limits.bytes
  {
    var size := limits.measure(v);
    if size > 0 {
      DivideIff(k, size, limits.bytes);
      Commutes(k, size);
    } else {
      assert size * k == 0;
    }
  }

  lemma {:induction false} CopiesSize<T>(limits: Limits<T>, v: T, n: nat)
    ensures Size(limits, Copies(v, n)) == limits.measure(v) * n
  {
    if n > 0 {
      CopiesSize(limits, v, n - 1);
      CopiesGrow(limits, v, n - 1);
      Steps(limits.measure(v), n - 1);
    } else {
      assert Copies(v, 0) == [];
    }
  }

  lemma CopiesFit<T>(limits: Limits<T>, v: T, n: nat)
    ensures Fits(limits, Of(limits, Copies(v, n)), v) <==> n < Capacity(limits, v)
    ensures Accounted(limits, Of(limits, Copies(v, n))) <==> n <= Capacity(limits, v)
  {
    CopiesSize(limits, v, n);
    CapacityIff(limits, v, n + 1);
    CapacityIff(limits, v, n);
    Steps(limits.measure(v), n);
  }

  lemma Steps(size: nat, n: nat)
    ensures size * (n + 1) == size * n + size
  {
  }

  /** Filling one queue with copies tells two capacities apart. */
  lemma UniformEqualCapacity<T(!new)>(limits: Limits<T>, v: T, w: T)
    requires Uniform(limits) && Sendable(limits, v) && Sendable(limits, w)
    ensures Capacity(limits, v) >= Capacity(limits, w)
  {
    var n := Capacity(limits, v);
    if n < Capacity(limits, w) {
      var q := Of(limits, Copies(w, n));
      CopiesFit(limits, w, n);
      assert Fits(limits, q, w) && Fits(limits, q, v);
      CopiesFit(limits, v, n);
      assert Copies(w, n) + [] == Copies(w, n) && Copies(v, n) + [] == Copies(v, n);
      CountDecides(limits, Copies(w, n), Copies(v, n), [], v);
      assert false;
    }
  }

  lemma Cancels(a: nat, b: nat, k: nat)
    requires k > 0 && a * k <= b * k
    ensures a <= b
  {
    Distributes(b, 1, k);
    if a > b {
      Scales(b + 1, a, k);
    }
  }

  lemma Distributes(a: nat, b: nat, k: nat)
    ensures (a + b) * k == a * k + b * k
  {
  }

  /** Entries of which `k` fit are no larger, on the whole, than their share. */
  lemma {:induction false} SizeAtMost<T>(limits: Limits<T>, entries: seq<T>, k: nat)
    requires forall i :: 0 <= i < |entries| ==> limits.measure(entries[i]) * k <= limits.bytes
    ensures Size(limits, entries) * k <= |entries| * limits.bytes
  {
    if |entries| > 0 {
      SizeAtMost(limits, entries[1..], k);
      Distributes(limits.measure(entries[0]), Size(limits, entries[1..]), k);
      Distributes(1, |entries| - 1, limits.bytes);
    }
  }

  lemma {:induction false} SizeAtLeast<T>(limits: Limits<T>, entries: seq<T>, k: nat)
    requires forall i :: 0 <= i < |entries| ==> limits.measure(entries[i]) * k > limits.bytes
    ensures Size(limits, entries) * k >= |entries| * (limits.bytes + 1)
  {
    if |entries| > 0 {
      SizeAtLeast(limits, entries[1..], k);
      Distributes(limits.measure(entries[0]), Size(limits, entries[1..]), k);
      Distributes(1, |entries| - 1, limits.bytes + 1);
    }
  }

  lemma {:induction false} EntriesSendable<T>(limits: Limits<T>, entries: seq<T>, i: nat)
    requires i < |entries| && Size(limits, entries) <= limits.bytes
    ensures Sendable(limits, entries[i])
  {
    if i > 0 {
      EntriesSendable(limits, entries[1..], i - 1);
    }
  }

  lemma Commutes(a: nat, b: nat)
    ensures a * b == b * a
  {
  }

  /** At most `k` entries, of each of which `k` fit, fit together. */
  lemma FewFit<T>(limits: Limits<T>, entries: seq<T>, k: nat)
    requires 0 < |entries| <= k
    requires forall i :: 0 <= i < |entries| ==> limits.measure(entries[i]) * k <= limits.bytes
    ensures Size(limits, entries) <= limits.bytes
  {
    SizeAtMost(limits, entries, k);
    Scales(|entries|, k, limits.bytes);
    Commutes(k, limits.bytes);
    Cancels(Size(limits, entries), limits.bytes, k);
  }

  /** At least `k` entries, of none of which `k` fit, do not fit together. */
  lemma ManyDoNot<T>(limits: Limits<T>, entries: seq<T>, k: nat)
    requires 0 < k <= |entries|
    requires forall i :: 0 <= i < |entries| ==> limits.measure(entries[i]) * k > limits.bytes
    ensures Size(limits, entries) > limits.bytes
  {
    SizeAtLeast(limits, entries, k);
    Scales(k, |entries|, limits.bytes + 1);
    Commutes(k, limits.bytes + 1);
    Cancels(limits.bytes + 1, Size(limits, entries), k);
  }

  lemma SameCapacity<T(!new)>(limits: Limits<T>, q: QueueState<T>, v: T, i: nat)
    requires EqualCapacity(limits) && Accounted(limits, q) && Sendable(limits, v) && i <= |q.entries|
    ensures Capacity(limits, (q.entries + [v])[i]) == Capacity(limits, v)
  {
    if i < |q.entries| {
      EntriesSendable(limits, q.entries, i);
      assert (q.entries + [v])[i] == q.entries[i];
    }
  }

  /** With one capacity, a queue takes a value iff it holds fewer than that. */
  lemma CapacityDecides<T(!new)>(limits: Limits<T>, q: QueueState<T>, v: T)
    requires EqualCapacity(limits) && Accounted(limits, q) && Sendable(limits, v)
    ensures Fits(limits, q, v) <==> |q.entries| < Capacity(limits, v)
  {
    var all, k := q.entries + [v], Capacity(limits, v);
    SizeAppends(limits, q.entries, [v]);
    SizeOne(limits, v);
    CapacityIff(limits, v, k);
    if |q.entries| < k {
      forall i | 0 <= i < |all| ensures limits.measure(all[i]) * k <= limits.bytes {
        SameCapacity(limits, q, v, i);
        CapacityIff(limits, all[i], k);
      }
      FewFit(limits, all, k);
    } else if |q.entries| < limits.messages {
      forall i | 0 <= i < |all| ensures limits.measure(all[i]) * (k + 1) > limits.bytes {
        SameCapacity(limits, q, v, i);
        CapacityIff(limits, all[i], k + 1);
      }
      ManyDoNot(limits, all, k + 1);
    }
  }

  /** Values fit alike in every queue iff they fit an empty one equally often. */
  lemma UniformIff<T(!new)>(limits: Limits<T>)
    ensures Uniform(limits) <==> EqualCapacity(limits)
  {
    if Uniform(limits) {
      forall v, w | Sendable(limits, v) && Sendable(limits, w) ensures Capacity(limits, v) == Capacity(limits, w) {
        UniformEqualCapacity(limits, v, w);
        UniformEqualCapacity(limits, w, v);
      }
    }
    if EqualCapacity(limits) {
      forall q, v, w | Accounted(limits, q) && Sendable(limits, v) && Sendable(limits, w)
        ensures Fits(limits, q, v) <==> Fits(limits, q, w)
      {
        CapacityDecides(limits, q, v);
        CapacityDecides(limits, q, w);
      }
    }
  }

  /** No run strands a sender iff every sendable value has the same capacity. */
  lemma StrandFreeIffCapacity<T(!new)>(limits: Limits<T>)
    requires limits.messages > 0
    ensures !CanStrand(limits) <==> EqualCapacity(limits)
  {
    StrandFreeIff(limits);
    UniformIff(limits);
  }

  /** Values of one size fit alike. */
  lemma EqualSizesNeverStrand<T(!new)>(limits: Limits<T>, size: nat)
    requires limits.messages > 0 && forall v :: limits.measure(v) == size
    ensures !CanStrand(limits)
  {
    StrandFreeIffCapacity(limits);
  }

  /** Values of mixed sizes need not: with five of ten bytes taken, one byte fits and eight
      do not. */
  lemma MixedSizesMayStrand() returns (limits: Limits<nat>, states: seq<System<nat>>, actions: seq<Action<nat>>)
    ensures limits == Limits(4, 10, limits.measure) && forall v: nat :: limits.measure(v) == v
    ensures Run(limits, states, actions) && Stranded(limits, states[|states| - 1])
  {
    limits := Limits(4, 10, (v: nat) => v);
    var q := Of(limits, [5]);
    SizeOne(limits, 5);
    assert Accounted(limits, q) && Fits(limits, q, 1) && !Fits(limits, q, 8) && Sendable(limits, 1) && Sendable(limits, 8);
    states, actions := OtherwiseStrands(limits);
  }
}
