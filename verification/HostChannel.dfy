/** Outstanding host requests, their settlement, and messages pushed by the application. */
module HostChannel {
  import opened Wrappers
  import opened Words

  datatype Owned = Nil | Boolean(boolean: bool) | Number(number: real) | Text(text: seq<byte>) | Bytes(bytes: seq<byte>)
  datatype Outcome = Waiting | Answered(values: seq<Owned>) | Failed(message: seq<byte>)
  datatype Request = Request(kind: seq<byte>, post: bool, cancelled: bool, state: Outcome)
  datatype Registration = Registration(handler: nat, cancel: Option<nat>)
  datatype Message = Message(kind: seq<byte>, values: seq<Owned>)
  datatype AnswerError = Unknown | AlreadyAnswered

  const MAX_PUSHES: nat := 4096

  // ----- requests -----

  /** One dispatch; its place in the list of all dispatches is its serial number. */
  datatype Issue = Issue(id: nat, kind: seq<byte>, post: bool)
  datatype Settlement = Settlement(serial: nat, outcome: Outcome)

  /** The history of a channel: every dispatch, every settled call in order, how many of those
      have left `ready`, the serials whose cancel callback was handed out, and which serial
      each outstanding id stands for. */
  datatype Past = Past(issued: seq<Issue>, settled: seq<Settlement>, taken: nat, cancels: seq<nat>, live: map<nat, nat>)

  predicate Settles(settled: seq<Settlement>, serial: nat)
  {
    exists i :: 0 <= i < |settled| && settled[i].serial == serial
  }

  /** Only calls settle, each at most once and with a real outcome. */
  ghost predicate SettledOnce(p: Past)
  {
    && (forall i :: 0 <= i < |p.settled| ==>
          p.settled[i].serial < |p.issued| && !p.issued[p.settled[i].serial].post && !p.settled[i].outcome.Waiting?)
    && (forall i, j :: 0 <= i < j < |p.settled| ==> p.settled[i].serial != p.settled[j].serial)
  }

  ghost predicate CancelledOnce(p: Past)
  {
    && (forall i :: 0 <= i < |p.cancels| ==> p.cancels[i] < |p.issued|)
    && (forall i, j :: 0 <= i < j < |p.cancels| ==> p.cancels[i] != p.cancels[j])
  }

  /** A stored request agrees with the history of its serial. */
  ghost predicate Stored(p: Past, id: nat, r: Request)
  {
    && id in p.live && p.live[id] < |p.issued| && p.issued[p.live[id]] == Issue(id, r.kind, r.post)
    && (r.state.Waiting? ==> !Settles(p.settled, p.live[id]))
    && (!r.state.Waiting? ==> Settlement(p.live[id], r.state) in p.settled)
    && (p.live[id] in p.cancels ==> r.cancelled)
  }

  ghost predicate Calls(requests: map<nat, Request>, p: Past)
  {
    && p.live.Keys == requests.Keys
    && (forall id :: id in requests ==> Stored(p, id, requests[id]))
    && SettledOnce(p) && CancelledOnce(p)
  }

  /** What waits in `ready` is the settled calls that have not left it, in order. */
  ghost predicate Queued(ready: seq<nat>, p: Past)
  {
    && SettledOnce(p) && p.taken <= |p.settled| && |ready| == |p.settled| - p.taken
    && (forall i :: 0 <= i < |ready| ==> ready[i] == p.issued[p.settled[p.taken + i].serial].id)
  }

  /** With fresh ids, an id is settled at most once, so it is in `ready` at most once ever. */
  lemma FreshIdsSettleOnce(p: Past, i: nat, j: nat)
    requires SettledOnce(p) && i < j < |p.settled|
    requires forall a, b :: 0 <= a < b < |p.issued| ==> p.issued[a].id != p.issued[b].id
    ensures p.issued[p.settled[i].serial].id != p.issued[p.settled[j].serial].id
  {
    var a, b := p.settled[i].serial, p.settled[j].serial;
    if a < b {
      assert p.issued[a].id != p.issued[b].id;
    } else {
      assert p.issued[b].id != p.issued[a].id;
    }
  }

  // ----- each change of the history -----

  function Dispatch(p: Past, id: nat, kind: seq<byte>, post: bool): Past
  {
    p.(issued := p.issued + [Issue(id, kind, post)], live := p.live[id := |p.issued|])
  }

  lemma DispatchKeeps(requests: map<nat, Request>, ready: seq<nat>, p: Past, id: nat, kind: seq<byte>, post: bool)
    requires Calls(requests, p) && Queued(ready, p) && id !in requests
    ensures Calls(requests[id := Request(kind, post, false, Waiting)], Dispatch(p, id, kind, post))
    ensures Queued(ready, Dispatch(p, id, kind, post))
  {
    var after, q := requests[id := Request(kind, post, false, Waiting)], Dispatch(p, id, kind, post);
    forall g | g in after ensures Stored(q, g, after[g]) {
      assert g != id ==> Stored(p, g, requests[g]);
    }
  }

  function Settle(p: Past, id: nat, outcome: Outcome): Past
    requires id in p.live
  {
    p.(settled := p.settled + [Settlement(p.live[id], outcome)])
  }

  lemma SettleKeepsCalls(requests: map<nat, Request>, p: Past, id: nat, outcome: Outcome)
    requires Calls(requests, p) && id in requests && requests[id].state.Waiting? && !requests[id].post && !outcome.Waiting?
    ensures Calls(requests[id := requests[id].(state := outcome)], Settle(p, id, outcome))
  {
    assert Stored(p, id, requests[id]);
    var after, q := requests[id := requests[id].(state := outcome)], Settle(p, id, outcome);
    assert q.settled[|p.settled|] == Settlement(p.live[id], outcome);
    forall g | g in after ensures Stored(q, g, after[g]) {
      assert Stored(p, g, requests[g]);
      if g != id && Settles(q.settled, p.live[g]) {
        var i :| 0 <= i < |q.settled| && q.settled[i].serial == p.live[g];
        assert i < |p.settled| ==> p.settled[i].serial == p.live[g];
      }
    }
  }

  lemma SettleKeepsReady(ready: seq<nat>, requests: map<nat, Request>, p: Past, id: nat, outcome: Outcome)
    requires Calls(requests, p) && Queued(ready, p)
    requires id in requests && requests[id].state.Waiting? && !requests[id].post && !outcome.Waiting?
    ensures Queued(ready + [id], Settle(p, id, outcome))
  {
    assert Stored(p, id, requests[id]);
    SettleKeepsCalls(requests, p, id, outcome);
  }

  function Forget(p: Past, id: nat): Past
  {
    p.(live := p.live - {id})
  }

  lemma ForgetKeeps(requests: map<nat, Request>, ready: seq<nat>, p: Past, id: nat)
    requires Calls(requests, p) && Queued(ready, p)
    ensures Calls(requests - {id}, Forget(p, id)) && Queued(ready, Forget(p, id))
  {
    forall g | g in requests - {id} ensures Stored(Forget(p, id), g, requests[g]) {
      assert Stored(p, g, requests[g]);
    }
  }

  /** The oldest id leaves `ready`. */
  lemma TakeKeeps(requests: map<nat, Request>, ready: seq<nat>, p: Past)
    requires Calls(requests, p) && Queued(ready, p) && |ready| > 0
    ensures Calls(requests, p.(taken := p.taken + 1)) && Queued(ready[1..], p.(taken := p.taken + 1))
  {
    var q := p.(taken := p.taken + 1);
    forall g | g in requests ensures Stored(q, g, requests[g]) {
      assert Stored(p, g, requests[g]);
    }
    forall i | 0 <= i < |ready[1..]| ensures ready[1..][i] == q.issued[q.settled[q.taken + i].serial].id {
      assert ready[1..][i] == ready[i + 1];
    }
  }

  /** Marking a request cancelled, and with it perhaps one callback handed out. */
  lemma CancelKeeps(requests: map<nat, Request>, ready: seq<nat>, p: Past, id: nat, handed: bool)
    requires Calls(requests, p) && Queued(ready, p) && id in requests && !requests[id].cancelled
    ensures var q := if handed then p.(cancels := p.cancels + [p.live[id]]) else p;
            Calls(requests[id := requests[id].(cancelled := true)], q) && Queued(ready, q)
  {
    assert Stored(p, id, requests[id]);
    var q := if handed then p.(cancels := p.cancels + [p.live[id]]) else p;
    var after := requests[id := requests[id].(cancelled := true)];
    forall g | g in after ensures Stored(q, g, after[g]) {
      assert Stored(p, g, requests[g]);
    }
  }

  // ----- pushed messages -----

  function Count(fate: seq<bool>, popped: bool): nat
  {
    if |fate| == 0 then 0 else Count(fate[..|fate| - 1], popped) + if fate[|fate| - 1] == popped then 1 else 0
  }

  /** The messages whose fate was to be popped. */
  function Chosen(pushed: seq<Message>, fate: seq<bool>): (r: seq<Message>)
    requires |fate| <= |pushed|
    ensures |r| == Count(fate, true) <= |fate|
  {
    if |fate| == 0 then []
    else
      var n := |fate| - 1;
      Chosen(pushed, fate[..n]) + if fate[n] then [pushed[n]] else []
  }

  lemma {:induction false} ChosenStable(pushed: seq<Message>, more: seq<Message>, fate: seq<bool>)
    requires |fate| <= |pushed|
    ensures Chosen(pushed + more, fate) == Chosen(pushed, fate)
  {
    if |fate| > 0 {
      ChosenStable(pushed, more, fate[..|fate| - 1]);
    }
  }

  lemma {:induction false} CountSplits(fate: seq<bool>)
    ensures Count(fate, true) + Count(fate, false) == |fate|
  {
    if |fate| > 0 {
      CountSplits(fate[..|fate| - 1]);
    }
  }

  /** Every message pushed was popped, dropped or still waits: those that wait are the last
      pushed, and those popped were popped in the order they were pushed. */
  datatype Mail = Mail(pushed: seq<Message>, fate: seq<bool>, popped: seq<Message>)

  ghost predicate Delivered(pushes: seq<Message>, dropped: nat, m: Mail)
  {
    && |m.fate| <= |m.pushed| && pushes == m.pushed[|m.fate|..]
    && m.popped == Chosen(m.pushed, m.fate) && dropped == Count(m.fate, false)
  }

  /** pushed = popped + dropped + waiting. */
  lemma Conserved(pushes: seq<Message>, dropped: nat, m: Mail)
    requires Delivered(pushes, dropped, m)
    ensures |m.pushed| == |m.popped| + dropped + |pushes|
  {
    CountSplits(m.fate);
  }

  lemma Arrives(pushes: seq<Message>, dropped: nat, m: Mail, message: Message)
    requires Delivered(pushes, dropped, m)
    ensures Delivered(pushes + [message], dropped, m.(pushed := m.pushed + [message]))
  {
    ChosenStable(m.pushed, [message], m.fate);
  }

  /** The oldest waiting message leaves, popped or dropped. */
  lemma Leaves(pushes: seq<Message>, dropped: nat, m: Mail, pop: bool)
    requires Delivered(pushes, dropped, m) && |pushes| > 0
    ensures Delivered(pushes[1..], if pop then dropped else dropped + 1,
                      m.(fate := m.fate + [pop], popped := if pop then m.popped + [pushes[0]] else m.popped))
  {
    var fate := m.fate + [pop];
    assert fate[..|fate| - 1] == m.fate;
    assert pushes[0] == m.pushed[|m.fate|];
  }

  class HostChannel {
    var handlers: map<seq<byte>, Registration>
    var requests: map<nat, Request>
    var ready: seq<nat>
    var pushes: seq<Message>
    /** The message the shim is copying out of. */
    var popped: Option<Message>
    var dropped: nat
    ghost var past: Past
    ghost var mail: Mail

    ghost predicate Valid()
      reads this
    {
      && Calls(requests, past) && Queued(ready, past)
      && Delivered(pushes, dropped, mail) && |pushes| <= MAX_PUSHES
    }

    constructor ()
      ensures Valid() && past == Past([], [], 0, [], map[]) && mail == Mail([], [], [])
    {
      handlers, requests, ready := map[], map[], [];
      pushes, popped, dropped := [], None, 0;
      past, mail := Past([], [], 0, [], map[]), Mail([], [], []);
    }

    method Register(kind: seq<byte>, registration: Option<Registration>)
      requires Valid()
      modifies this`handlers
      ensures Valid()
      ensures registration.Some? ==> handlers == old(handlers)[kind := registration.value]
      ensures registration.None? ==> handlers == old(handlers) - {kind}
    {
      handlers := if registration.Some? then handlers[kind := registration.value] else handlers - {kind};
    }

    /** Refused while the id is outstanding; otherwise a new serial. */
    method Dispatched(request: nat, post: bool, kind: seq<byte>) returns (ok: bool)
      requires Valid()
      modifies this`requests, this`past
      ensures Valid()
      ensures ok <==> request !in old(requests)
      ensures requests == if ok then old(requests)[request := Request(kind, post, false, Waiting)] else old(requests)
      ensures past == if ok then Dispatch(old(past), request, kind, post) else old(past)
    {
      if request in requests {
        return false;
      }
      DispatchKeeps(requests, ready, past, request, kind, post);
      requests := requests[request := Request(kind, post, false, Waiting)];
      past := Dispatch(past, request, kind, post);
      return true;
    }

    /** `answer` and `fail`: a waiting call settles and joins `ready`, a waiting post is
        forgotten, anything else is refused. */
    method Conclude(request: nat, outcome: Outcome) returns (r: Result<(), AnswerError>)
      requires Valid() && !outcome.Waiting?
      modifies this`requests, this`ready, this`past
      ensures Valid()
      ensures r == if request !in old(requests) then Err(Unknown)
                   else if !old(requests)[request].state.Waiting? then Err(AlreadyAnswered) else Ok(())
      ensures r.Err? ==> requests == old(requests) && ready == old(ready) && past == old(past)
      ensures r.Ok? && old(requests)[request].post ==>
                && requests == old(requests) - {request} && ready == old(ready) && past == Forget(old(past), request)
      ensures r.Ok? && !old(requests)[request].post ==>
                && requests == old(requests)[request := old(requests)[request].(state := outcome)]
                && ready == old(ready) + [request]
                && request in old(past).live && past == Settle(old(past), request, outcome)
    {
      if request !in requests {
        return Err(Unknown);
      }
      var entry := requests[request];
      if !entry.state.Waiting? {
        return Err(AlreadyAnswered);
      }
      if entry.post {
        ForgetKeeps(requests, ready, past, request);
        requests := requests - {request};
        past := Forget(past, request);
        return Ok(());
      }
      assert Stored(past, request, entry);
      SettleKeepsCalls(requests, past, request, outcome);
      SettleKeepsReady(ready, requests, past, request, outcome);
      requests := requests[request := entry.(state := outcome)];
      ready := ready + [request];
      past := Settle(past, request, outcome);
      return Ok(());
    }

    /** What the shim reads: nothing until the request settles, then the outcome it settled
        with. */
    method Answer(request: nat) returns (outcome: Option<Outcome>)
      requires Valid()
      ensures outcome.Some? <==> request in requests && !requests[request].state.Waiting?
      ensures outcome.Some? ==> request in past.live && Settlement(past.live[request], outcome.value) in past.settled
    {
      if request !in requests || requests[request].state.Waiting? {
        return None;
      }
      assert Stored(past, request, requests[request]);
      return Some(requests[request].state);
    }

    method Release(request: nat)
      requires Valid()
      modifies this`requests, this`past
      ensures Valid()
      ensures requests == old(requests) - {request} && past == Forget(old(past), request)
    {
      ForgetKeeps(requests, ready, past, request);
      requests := requests - {request};
      past := Forget(past, request);
    }

    method TakeFirst() returns (id: nat)
      requires Valid() && |ready| > 0
      modifies this`ready, this`past
      ensures Valid()
      ensures id == old(ready)[0] && ready == old(ready)[1..] && past == old(past).(taken := old(past).taken + 1)
    {
      TakeKeeps(requests, ready, past);
      id := ready[0];
      ready := ready[1..];
      past := past.(taken := past.taken + 1);
    }

    /** Takes the oldest settled ids, as many as there is room for. */
    method Ready(capacity: nat) returns (ids: seq<nat>)
      requires Valid()
      modifies this`ready, this`past
      ensures Valid()
      ensures |ids| == if capacity < |old(ready)| then capacity else |old(ready)|
      ensures ids + ready == old(ready)
      ensures past == old(past).(taken := old(past).taken + |ids|)
    {
      var taken := if capacity < |ready| then capacity else |ready|;
      ids := [];
      ghost var all, before := ready, past;
      for index := 0 to taken
        invariant Valid()
        invariant ids == all[..index] && ready == all[index..]
        invariant past == before.(taken := before.taken + index)
      {
        var id := TakeFirst();
        assert all[index..][1..] == all[index + 1..];
        ids := ids + [id];
      }
    }

    /** Hands out the kind's cancel callback on the first cancellation of a request that
        still waits, and never again. */
    method Cancelled(request: nat) returns (callback: Option<nat>)
      requires Valid()
      modifies this`requests, this`past
      ensures Valid()
      ensures callback.Some? ==>
                && request in old(requests) && old(requests)[request].state.Waiting? && !old(requests)[request].cancelled
                && request in old(past).live && old(past).live[request] !in old(past).cancels
                && past == old(past).(cancels := old(past).cancels + [old(past).live[request]])
                && old(requests)[request].kind in handlers && callback == handlers[old(requests)[request].kind].cancel
      ensures callback.None? ==> past == old(past)
      ensures requests == if request in old(requests) then old(requests)[request := old(requests)[request].(cancelled := true)] else old(requests)
      ensures (&& request in old(requests) && old(requests)[request].state.Waiting? && !old(requests)[request].cancelled
               && old(requests)[request].kind in handlers)
              ==> callback == handlers[old(requests)[request].kind].cancel
    {
      if request !in requests {
        return None;
      }
      var entry := requests[request];
      if entry.cancelled {
        return None;
      }
      callback := None;
      if entry.state.Waiting? && entry.kind in handlers {
        callback := handlers[entry.kind].cancel;
      }
      assert Stored(past, request, entry);
      CancelKeeps(requests, ready, past, request, callback.Some?);
      requests := requests[request := entry.(cancelled := true)];
      if callback.Some? {
        past := past.(cancels := past.cancels + [past.live[request]]);
      }
    }

    /** Appends the message and drops the oldest past the bound. */
    method Push(message: Message)
      requires Valid()
      modifies this`pushes, this`dropped, this`mail
      ensures Valid()
      ensures mail.pushed == old(mail).pushed + [message] && mail.popped == old(mail).popped
      ensures pushes == if |old(pushes)| < MAX_PUSHES then old(pushes) + [message] else old(pushes)[1..] + [message]
      ensures dropped == if |old(pushes)| < MAX_PUSHES then old(dropped) else old(dropped) + 1
    {
      Arrives(pushes, dropped, mail, message);
      pushes := pushes + [message];
      mail := mail.(pushed := mail.pushed + [message]);
      ghost var all, n := pushes, dropped;
      while |pushes| > MAX_PUSHES
        invariant Delivered(pushes, dropped, mail)
        invariant mail.pushed == old(mail).pushed + [message] && mail.popped == old(mail).popped
        invariant (pushes == all && dropped == n) || (|all| > MAX_PUSHES && pushes == all[1..] && dropped == n + 1)
        decreases |pushes|
      {
        DropOldest();
      }
    }

    method DropOldest()
      requires Delivered(pushes, dropped, mail) && |pushes| > 0
      modifies this`pushes, this`dropped, this`mail
      ensures Delivered(pushes, dropped, mail)
      ensures pushes == old(pushes)[1..] && dropped == old(dropped) + 1
      ensures mail.pushed == old(mail).pushed && mail.popped == old(mail).popped
    {
      Leaves(pushes, dropped, mail, false);
      pushes := pushes[1..];
      dropped := dropped + 1;
      mail := mail.(fate := mail.fate + [false]);
    }

    /** The oldest waiting message, kept until the next is asked for. */
    method Pop() returns (r: Option<Message>)
      requires Valid()
      modifies this`pushes, this`popped, this`mail
      ensures Valid() && popped == r && mail.pushed == old(mail).pushed
      ensures r == if |old(pushes)| == 0 then None else Some(old(pushes)[0])
      ensures pushes == if r.None? then [] else old(pushes)[1..]
      ensures mail.popped == if r.None? then old(mail).popped else old(mail).popped + [r.value]
    {
      if |pushes| == 0 {
        popped := None;
        return None;
      }
      Leaves(pushes, dropped, mail, true);
      popped := Some(pushes[0]);
      mail := mail.(fate := mail.fate + [true], popped := mail.popped + [pushes[0]]);
      pushes := pushes[1..];
      return popped;
    }
  }
}
