/** The bounded FIFO behind worker and application channels: its critical sections. */
module BoundedQueue {
  import opened Wrappers

  datatype QueueState<T> = QueueState(entries: seq<T>, bytes: nat, closed: bool)

  /** The two limits and how an entry is measured. */
  datatype Limits<!T> = Limits(messages: nat, bytes: nat, measure: T -> nat)

  datatype PushResult<T> = Accepted | Closed(value: T) | Full(value: T)

  function Size<T>(limits: Limits<T>, entries: seq<T>): nat
  {
    if |entries| == 0 then 0 else limits.measure(entries[0]) + Size(limits, entries[1..])
  }

  lemma {:induction false} SizeAppends<T>(limits: Limits<T>, entries: seq<T>, more: seq<T>)
    ensures Size(limits, entries + more) == Size(limits, entries) + Size(limits, more)
  {
    if |entries| == 0 {
      assert entries + more == more;
    } else {
      assert (entries + more)[1..] == entries[1..] + more;
      SizeAppends(limits, entries[1..], more);
    }
  }

  lemma SizeOne<T>(limits: Limits<T>, value: T)
    ensures Size(limits, [value]) == limits.measure(value)
  {
    assert [value][1..] == [];
  }

  /** The byte count is exact and both limits hold. */
  predicate Accounted<T>(limits: Limits<T>, q: QueueState<T>)
  {
    && q.bytes == Size(limits, q.entries)
    && |q.entries| <= limits.messages && q.bytes <= limits.bytes
  }

  predicate Fits<T>(limits: Limits<T>, q: QueueState<T>, value: T)
  {
    |q.entries| < limits.messages && q.bytes + limits.measure(value) <= limits.bytes
  }

  function Pushed<T>(limits: Limits<T>, q: QueueState<T>, value: T): QueueState<T>
  {
    q.(entries := q.entries + [value], bytes := q.bytes + limits.measure(value))
  }

  function SaturatingSub(a: nat, b: nat): nat { if a < b then 0 else a - b }

  /** Takes the head; the byte count saturates at zero. */
  function Popped<T>(limits: Limits<T>, q: QueueState<T>): QueueState<T>
    requires |q.entries| > 0
  {
    q.(entries := q.entries[1..], bytes := SaturatingSub(q.bytes, limits.measure(q.entries[0])))
  }

  function Shut<T>(q: QueueState<T>): QueueState<T> { q.(closed := true) }

  function Discarded<T>(q: QueueState<T>): QueueState<T> { QueueState([], 0, true) }

  lemma PushedAccounted<T>(limits: Limits<T>, q: QueueState<T>, value: T)
    requires Accounted(limits, q) && Fits(limits, q, value)
    ensures Accounted(limits, Pushed(limits, q, value))
  {
    SizeAppends(limits, q.entries, [value]);
    SizeOne(limits, value);
  }

  /** An exact count never saturates: what comes out is what went in. */
  lemma PoppedAccounted<T>(limits: Limits<T>, q: QueueState<T>)
    requires Accounted(limits, q) && |q.entries| > 0
    ensures Accounted(limits, Popped(limits, q))
    ensures Popped(limits, q).bytes == q.bytes - limits.measure(q.entries[0])
  {
  }

  /** What the mutex protects, and the operations that hold it throughout. */
  class BoundedQueue<T> {
    const limits: Limits<T>
    var state: QueueState<T>

    constructor (limits: Limits<T>)
      requires limits.messages > 0 && limits.bytes > 0
      ensures this.limits == limits && state == QueueState([], 0, false) && Accounted(limits, state)
    {
      this.limits := limits;
      state := QueueState([], 0, false);
    }

    method TryPush(value: T) returns (r: PushResult<T>)
      requires Accounted(limits, state)
      modifies this
      ensures Accounted(limits, state)
      ensures r == if old(state.closed) then Closed(value)
                   else if Fits(limits, old(state), value) then Accepted else Full(value)
      ensures state == if r.Accepted? then Pushed(limits, old(state), value) else old(state)
    {
      var bytes := limits.measure(value);
      if state.closed {
        return Closed(value);
      }
      if |state.entries| >= limits.messages || state.bytes + bytes > limits.bytes {
        return Full(value);
      }
      PushedAccounted(limits, state, value);
      state := state.(bytes := state.bytes + bytes, entries := state.entries + [value]);
      return Accepted;
    }

    /** The end of `pop`: the head, if there is one. */
    method TakeHead() returns (r: Option<T>)
      requires Accounted(limits, state)
      modifies this
      ensures Accounted(limits, state)
      ensures r == if |old(state).entries| > 0 then Some(old(state).entries[0]) else None
      ensures state == if r.Some? then Popped(limits, old(state)) else old(state)
      ensures r.Some? ==> state.bytes + limits.measure(r.value) == old(state.bytes)
    {
      if |state.entries| == 0 {
        return None;
      }
      PoppedAccounted(limits, state);
      var answer := state.entries[0];
      state := state.(entries := state.entries[1..], bytes := SaturatingSub(state.bytes, limits.measure(answer)));
      return Some(answer);
    }

    method Close()
      requires Accounted(limits, state)
      modifies this
      ensures Accounted(limits, state) && state == Shut(old(state))
    {
      state := state.(closed := true);
    }

    method CloseAndDiscard() returns (discarded: seq<T>)
      modifies this
      ensures Accounted(limits, state) && state == Discarded(old(state))
      ensures discarded == old(state.entries)
    {
      discarded := state.entries;
      state := QueueState([], 0, true);
    }
  }
}
