/**
 The whole-file lane: admission, workers, cancellation, polling and waiting, as every
 interleaving of their atomic accesses and critical sections.
 */
module FileLane {
  const MAX_REQUESTS: nat := 128
  const MAX_BYTES: nat := 256 * 1024 * 1024
  const MAX_REQUEST_BYTES: nat := 256 * 1024 * 1024

  /** The readiness generation is a 64-bit counter that wraps. */
  const WRAP: nat := 0x1_0000_0000_0000_0000

  datatype Outcome = Pending | Ready | Failed | Canceled

  /** Where a request's worker stands.  Its guard is held until `Released`. */
  datatype Worker =
    | Admitted(charge: nat)   // admitted, not yet handed to the executor
    | Working(charge: nat)
    | Released(ok: bool)      // guard dropped, outcome not yet published
    | Settled                 // outcome published, not yet counted
    | Counted                 // counted, waiters not yet notified
    | Finished
    | Refused                 // the executor did not take it; no caller ever saw it

  datatype Transfer = Transfer(outcome: Outcome, worker: Worker)

  /** A `wait_for_transfer` call; `seen` is how many notifications it had read. */
  datatype Waiter = ReadGeneration(seen: nat) | SawNone(seen: nat) | Asleep(seen: nat) | Awake

  /** `notifications` counts every notify; the generation is its remainder. `owed` are
      the cancellations that have still to notify; `polled` sums the answers of `poll`. */
  datatype System = System(
    requests: int, bytes: int, transfers: seq<Transfer>,
    settled: nat, polled: nat, notifications: nat, owed: nat,
    waiters: map<nat, Waiter>)

  const INITIAL := System(0, 0, [], 0, 0, 0, 0, map[])

  datatype Action =
    | Admit(charge: nat)
    | Spawn(id: nat)
    | SpawnFails(id: nat)
    | GrowTo(id: nat, size: nat)
    | WorkEnds(id: nat, success: bool)
    | Settle(id: nat)
    | CountSettled(id: nat)
    | Notify(id: nat)
    | Cancel(id: nat)
    | CancelNotifies
    | Poll
    | WaiterReads(waiter: nat)
    | WaiterTests(waiter: nat)
    | WaiterLocks(waiter: nat)
    | WaiterWakes(waiter: nat)
    | WaiterPolls(waiter: nat)

  predicate HoldsGuard(w: Worker) { w.Admitted? || w.Working? }

  function Charge(t: Transfer): nat { if HoldsGuard(t.worker) then t.worker.charge else 0 }

  // ----- steps -----

  function WithWorker(s: System, id: nat, w: Worker): System
    requires id < |s.transfers|
  {
    s.(transfers := s.transfers[id := s.transfers[id].(worker := w)])
  }

  /** Drops the guard: its request and its bytes go back. */
  function Release(s: System, id: nat, w: Worker): System
    requires id < |s.transfers| && HoldsGuard(s.transfers[id].worker)
  {
    WithWorker(s, id, w).(requests := s.requests - 1, bytes := s.bytes - s.transfers[id].worker.charge)
  }

  /** Counts one notification and wakes every sleeper. */
  function Notified(s: System): System
  {
    s.(notifications := s.notifications + 1,
       waiters := map w | w in s.waiters :: if s.waiters[w].Asleep? then Awake else s.waiters[w])
  }

  ghost predicate Next(s: System, a: Action, t: System)
  {
    match a
    case Admit(charge) =>
      t == if charge > MAX_REQUEST_BYTES || s.requests == MAX_REQUESTS || s.bytes + charge > MAX_BYTES then s
           else s.(requests := s.requests + 1, bytes := s.bytes + charge,
                   transfers := s.transfers + [Transfer(Pending, Admitted(charge))])
    case Spawn(id) =>
      && id < |s.transfers| && s.transfers[id].worker.Admitted?
      && t == WithWorker(s, id, Working(s.transfers[id].worker.charge))
    case SpawnFails(id) =>
      && id < |s.transfers| && s.transfers[id].worker.Admitted?
      && t == Release(s, id, Refused)
    case GrowTo(id, size) =>
      && id < |s.transfers| && s.transfers[id].worker.Working?
      && var charge := s.transfers[id].worker.charge;
         t == if size <= charge || size > MAX_REQUEST_BYTES || s.bytes + (size - charge) > MAX_BYTES then s
              else WithWorker(s, id, Working(size)).(bytes := s.bytes + (size - charge))
    case WorkEnds(id, success) =>
      && id < |s.transfers| && s.transfers[id].worker.Working?
      && t == Release(s, id, Released(success))
    case Settle(id) =>
      && id < |s.transfers| && s.transfers[id].worker.Released?
      && t == if s.transfers[id].outcome != Pending then WithWorker(s, id, Finished)
              else s.(transfers := s.transfers[id := Transfer(
                        if s.transfers[id].worker.ok then Ready else Failed, Settled)])
    case CountSettled(id) =>
      && id < |s.transfers| && s.transfers[id].worker.Settled?
      && t == WithWorker(s, id, Counted).(settled := s.settled + 1)
    case Notify(id) =>
      && id < |s.transfers| && s.transfers[id].worker.Counted?
      && t == Notified(WithWorker(s, id, Finished))
    case Cancel(id) =>
      && id < |s.transfers| && !s.transfers[id].worker.Admitted? && !s.transfers[id].worker.Refused?
      && t == if s.transfers[id].outcome != Pending then s
              else s.(transfers := s.transfers[id := s.transfers[id].(outcome := Canceled)], owed := s.owed + 1)
    case CancelNotifies => s.owed > 0 && t == Notified(s).(owed := s.owed - 1)
    case Poll => t == s.(settled := 0, polled := s.polled + s.settled)
    case WaiterReads(w) =>
      w !in s.waiters && t == s.(waiters := s.waiters[w := ReadGeneration(s.notifications)])
    case WaiterTests(w) =>
      && w in s.waiters && s.waiters[w].ReadGeneration?
      && t == s.(waiters := s.waiters[w := if s.settled == 0 then SawNone(s.waiters[w].seen) else Awake])
    case WaiterLocks(w) =>
      && w in s.waiters && s.waiters[w].SawNone?
      && t == s.(waiters := s.waiters[w :=
                   if s.notifications % WRAP == s.waiters[w].seen % WRAP then Asleep(s.waiters[w].seen) else Awake])
    case WaiterWakes(w) =>   // spuriously, or on its timeout
      w in s.waiters && s.waiters[w].Asleep? && t == s.(waiters := s.waiters[w := Awake])
    case WaiterPolls(w) =>
      && w in s.waiters && s.waiters[w].Awake?
      && t == s.(waiters := s.waiters - {w}, settled := 0, polled := s.polled + s.settled)
  }

  ghost predicate Run(states: seq<System>, actions: seq<Action>)
  {
    && |states| == |actions| + 1 && states[0] == INITIAL
    && forall i :: 0 <= i < |actions| ==> Next(states[i], actions[i], states[i + 1])
  }

  // ----- sums over the transfers -----

  function Sum(f: Transfer -> nat, ts: seq<Transfer>): nat
  {
    if |ts| == 0 then 0 else Sum(f, ts[..|ts| - 1]) + f(ts[|ts| - 1])
  }

  lemma {:induction false} SumUpdate(f: Transfer -> nat, ts: seq<Transfer>, i: nat, t: Transfer)
    requires i < |ts|
    ensures Sum(f, ts[i := t]) + f(ts[i]) == Sum(f, ts) + f(t)
  {
    var n := |ts| - 1;
    if i == n {
      assert ts[i := t][..n] == ts[..n];
    } else {
      assert ts[i := t][..n] == ts[..n][i := t];
      SumUpdate(f, ts[..n], i, t);
    }
  }

  function OneGuard(t: Transfer): nat { if HoldsGuard(t.worker) then 1 else 0 }

  predicate Completed(o: Outcome) { o == Ready || o == Failed }

  /** A settlement that has been counted. */
  function OneCounted(t: Transfer): nat
  {
    if t.worker.Counted? || (t.worker.Finished? && Completed(t.outcome)) then 1 else 0
  }

  // ----- what every interleaving keeps -----

  /** The admission counters are those of the live guards, within both limits. */
  ghost predicate Accounted(s: System)
  {
    && s.requests == Sum(OneGuard, s.transfers) && s.bytes == Sum(Charge, s.transfers)
    && s.requests <= MAX_REQUESTS && s.bytes <= MAX_BYTES
  }

  /** A published completion has let go of its guard; a cancellation may not have. */
  ghost predicate Consistent(t: Transfer)
  {
    match t.worker
    case Admitted(_) => t.outcome == Pending
    case Working(_) => t.outcome == Pending || t.outcome == Canceled
    case Released(_) => t.outcome == Pending || t.outcome == Canceled
    case Settled => Completed(t.outcome)
    case Counted => Completed(t.outcome)
    case Finished => t.outcome != Pending
    case Refused => t.outcome == Pending
  }

  /** A worker has counted a settlement and has still to notify. */
  ghost predicate NotificationDue(s: System)
  {
    exists id :: 0 <= id < |s.transfers| && s.transfers[id].worker.Counted?
  }

  /** A waiter that saw nothing settled, and has missed no notification since, still has
      a notification coming if something has settled. */
  ghost predicate WaiterSafe(s: System, w: Waiter)
  {
    && (w.ReadGeneration? || w.SawNone? || w.Asleep? ==> w.seen <= s.notifications)
    && (w.Asleep? ==> s.notifications % WRAP == w.seen % WRAP)
    && ((w.SawNone? || w.Asleep?) && w.seen == s.notifications && s.settled > 0 ==> NotificationDue(s))
  }

  ghost predicate Invariant(s: System)
  {
    && Accounted(s)
    && (forall i :: 0 <= i < |s.transfers| ==> Consistent(s.transfers[i]))
    && s.polled + s.settled == Sum(OneCounted, s.transfers)
    && (forall w :: w in s.waiters ==> WaiterSafe(s, s.waiters[w]))
  }

  /** Changing one transfer changes each sum by that transfer's share. */
  lemma TransferChanges(s: System, id: nat, t: Transfer)
    requires id < |s.transfers|
    ensures Sum(OneGuard, s.transfers[id := t]) == Sum(OneGuard, s.transfers) - OneGuard(s.transfers[id]) + OneGuard(t)
    ensures Sum(Charge, s.transfers[id := t]) == Sum(Charge, s.transfers) - Charge(s.transfers[id]) + Charge(t)
    ensures Sum(OneCounted, s.transfers[id := t])
         == Sum(OneCounted, s.transfers) - OneCounted(s.transfers[id]) + OneCounted(t)
  {
    SumUpdate(OneGuard, s.transfers, id, t);
    SumUpdate(Charge, s.transfers, id, t);
    SumUpdate(OneCounted, s.transfers, id, t);
  }

  /** The waiters stay safe when no counted worker disappears. */
  lemma DueStays(s: System, id: nat, t: Transfer, w: Waiter)
    requires id < |s.transfers| && WaiterSafe(s, w)
    requires s.transfers[id].worker.Counted? ==> t.worker.Counted?
    ensures WaiterSafe(s.(transfers := s.transfers[id := t]), w)
  {
    if NotificationDue(s) {
      var k :| 0 <= k < |s.transfers| && s.transfers[k].worker.Counted?;
      assert s.transfers[id := t][k].worker.Counted?;
    }
  }

  /** A step of one worker that publishes no count and owes no notification. */
  lemma WorkerKeeps(s: System, id: nat, t: Transfer, requests: int, bytes: int, owed: nat)
    requires Invariant(s) && id < |s.transfers|
    requires Consistent(t) && OneCounted(t) == OneCounted(s.transfers[id]) && !s.transfers[id].worker.Counted?
    requires requests == s.requests - OneGuard(s.transfers[id]) + OneGuard(t) <= MAX_REQUESTS
    requires bytes == s.bytes - Charge(s.transfers[id]) + Charge(t) <= MAX_BYTES
    ensures Invariant(s.(transfers := s.transfers[id := t], requests := requests, bytes := bytes, owed := owed))
  {
    TransferChanges(s, id, t);
    forall w | w in s.waiters
      ensures WaiterSafe(s.(transfers := s.transfers[id := t], requests := requests, bytes := bytes, owed := owed), s.waiters[w])
    {
      DueStays(s, id, t, s.waiters[w]);
      assert NotificationDue(s.(transfers := s.transfers[id := t])) ==>
             NotificationDue(s.(transfers := s.transfers[id := t], requests := requests, bytes := bytes, owed := owed));
    }
  }

  lemma NotifiedKeeps(s: System, owed: nat)
    requires Accounted(s) && (forall i :: 0 <= i < |s.transfers| ==> Consistent(s.transfers[i]))
    requires s.polled + s.settled == Sum(OneCounted, s.transfers)
    requires forall w :: w in s.waiters && !s.waiters[w].Awake? ==> s.waiters[w].seen <= s.notifications
    ensures Invariant(Notified(s).(owed := owed))
  {
  }

  lemma AdmitKeeps(s: System, charge: nat)
    requires Invariant(s) && s.requests != MAX_REQUESTS && s.bytes + charge <= MAX_BYTES
    ensures Invariant(s.(requests := s.requests + 1, bytes := s.bytes + charge,
                         transfers := s.transfers + [Transfer(Pending, Admitted(charge))]))
  {
    var ts := s.transfers + [Transfer(Pending, Admitted(charge))];
    assert ts[..|ts| - 1] == s.transfers;
    if NotificationDue(s) {
      var k :| 0 <= k < |s.transfers| && s.transfers[k].worker.Counted?;
      assert ts[k].worker.Counted?;
    }
  }

  lemma CountKeeps(s: System, id: nat)
    requires Invariant(s) && id < |s.transfers| && s.transfers[id].worker.Settled?
    ensures Invariant(WithWorker(s, id, Counted).(settled := s.settled + 1))
  {
    TransferChanges(s, id, s.transfers[id].(worker := Counted));
    assert WithWorker(s, id, Counted).transfers[id].worker.Counted?;
  }

  lemma NotifyKeeps(s: System, id: nat)
    requires Invariant(s) && id < |s.transfers| && s.transfers[id].worker.Counted?
    ensures Invariant(Notified(WithWorker(s, id, Finished)))
  {
    TransferChanges(s, id, s.transfers[id].(worker := Finished));
    NotifiedKeeps(WithWorker(s, id, Finished), s.owed);
  }

  lemma WorkerStepKeeps(s: System, a: Action, t: System)
    requires Invariant(s) && Next(s, a, t)
    requires a.Spawn? || a.SpawnFails? || a.GrowTo? || a.WorkEnds? || a.Settle? || a.Cancel?
    ensures Invariant(t)
  {
    var id := a.id;
    if t != s {
      WorkerKeeps(s, id, t.transfers[id], t.requests, t.bytes, t.owed);
    }
  }

  lemma WaiterStepKeeps(s: System, a: Action, t: System)
    requires Invariant(s) && Next(s, a, t)
    requires a.Poll? || a.WaiterReads? || a.WaiterTests? || a.WaiterLocks? || a.WaiterWakes? || a.WaiterPolls?
    ensures Invariant(t)
  {
    assert t.transfers == s.transfers;
    forall w | w in t.waiters ensures WaiterSafe(t, t.waiters[w]) {
      assert w in s.waiters ==> WaiterSafe(s, s.waiters[w]);
    }
  }

  lemma AdmitStepKeeps(s: System, a: Action, t: System)
    requires Invariant(s) && Next(s, a, t) && a.Admit?
    ensures Invariant(t)
  {
    if t != s {
      AdmitKeeps(s, a.charge);
    }
  }

  lemma NotifyStepKeeps(s: System, a: Action, t: System)
    requires Invariant(s) && Next(s, a, t) && (a.CountSettled? || a.Notify? || a.CancelNotifies?)
    ensures Invariant(t)
  {
    match a
    case CountSettled(id) => CountKeeps(s, id);
    case Notify(id) => NotifyKeeps(s, id);
    case CancelNotifies => NotifiedKeeps(s, s.owed - 1);
  }

  lemma NextKeeps(s: System, a: Action, t: System)
    requires Invariant(s) && Next(s, a, t)
    ensures Invariant(t)
  {
    if a.Admit? {
      AdmitStepKeeps(s, a, t);
    } else if a.CountSettled? || a.Notify? || a.CancelNotifies? {
      NotifyStepKeeps(s, a, t);
    } else if a.Spawn? || a.SpawnFails? || a.GrowTo? || a.WorkEnds? || a.Settle? || a.Cancel? {
      WorkerStepKeeps(s, a, t);
    } else {
      WaiterStepKeeps(s, a, t);
    }
  }

  /** In every reachable state admission is the count and the byte sum of the live guards
      within both limits, a published completion holds no guard, and the answers of
      `poll` with the counter are the completions counted. */
  lemma {:induction false} RunKeeps(states: seq<System>, actions: seq<Action>, i: nat)
    requires Run(states, actions) && i < |states|
    ensures Invariant(states[i])
  {
    if i > 0 {
      RunKeeps(states, actions, i - 1);
      assert Next(states[i - 1], actions[i - 1], states[i]);
      NextKeeps(states[i - 1], actions[i - 1], states[i]);
    }
  }

  /** The counters never go below zero, so no release underflows. */
  lemma NeverNegative(states: seq<System>, actions: seq<Action>, i: nat)
    requires Run(states, actions) && i < |states|
    ensures 0 <= states[i].requests <= MAX_REQUESTS && 0 <= states[i].bytes <= MAX_BYTES
  {
    RunKeeps(states, actions, i);
  }

  lemma StepLeavesPendingOnce(s: System, a: Action, t: System, id: nat)
    requires Next(s, a, t) && Invariant(s) && id < |s.transfers|
    ensures id < |t.transfers|
    ensures s.transfers[id].outcome != Pending ==> t.transfers[id].outcome == s.transfers[id].outcome
  {
  }

  /** A transfer leaves Pending at most once: whatever it then reads, it reads for ever. */
  lemma {:induction false} LeavesPendingOnce(states: seq<System>, actions: seq<Action>, i: nat, j: nat, id: nat)
    requires Run(states, actions) && i <= j < |states|
    requires id < |states[i].transfers| && states[i].transfers[id].outcome != Pending
    ensures id < |states[j].transfers| && states[j].transfers[id].outcome == states[i].transfers[id].outcome
    decreases j
  {
    if i < j {
      LeavesPendingOnce(states, actions, i, j - 1, id);
      RunKeeps(states, actions, j - 1);
      assert Next(states[j - 1], actions[j - 1], states[j]);
      StepLeavesPendingOnce(states[j - 1], actions[j - 1], states[j], id);
    }
  }

  // ----- what an outcome tells -----

  /** The work of `id` ended with this success before `i`. */
  ghost predicate Worked(actions: seq<Action>, i: nat, id: nat, success: bool)
    requires i <= |actions|
  {
    exists j :: 0 <= j < i && actions[j] == WorkEnds(id, success)
  }

  /** The outcome by what has happened alone: whichever comes first of the cancellation and
      the settlement decides, and a settlement says how the work ended. */
  ghost function Verdict(actions: seq<Action>, i: nat, id: nat): Outcome
    requires i <= |actions|
  {
    if i == 0 then Pending
    else
      var before := Verdict(actions, i - 1, id);
      if before != Pending then before
      else if actions[i - 1] == Cancel(id) then Canceled
      else if actions[i - 1] == Settle(id) then if Worked(actions, i - 1, id, true) then Ready else Failed
      else Pending
  }

  /** How far the history of a transfer has come, by where its worker stands. */
  ghost predicate WorkTold(worker: Worker, actions: seq<Action>, i: nat, id: nat)
    requires i <= |actions|
  {
    match worker
    case Admitted(_) => !Worked(actions, i, id, true) && !Worked(actions, i, id, false)
    case Working(_) => !Worked(actions, i, id, true) && !Worked(actions, i, id, false)
    case Refused => !Worked(actions, i, id, true) && !Worked(actions, i, id, false)
    case Released(ok) => Worked(actions, i, id, ok) && !Worked(actions, i, id, !ok)
    case _ => true
  }

  ghost predicate OutcomeTold(outcome: Outcome, actions: seq<Action>, i: nat, id: nat)
    requires i <= |actions|
  {
    && outcome == Verdict(actions, i, id)
    && (outcome == Ready ==> Worked(actions, i, id, true))
    && (outcome == Failed ==> Worked(actions, i, id, false))
  }

  /** The history tells of every transfer what the state does, and nothing of any other. */
  ghost predicate Told(s: System, actions: seq<Action>, i: nat, id: nat)
    requires i <= |actions|
  {
    if id < |s.transfers| then
      WorkTold(s.transfers[id].worker, actions, i, id) && OutcomeTold(s.transfers[id].outcome, actions, i, id)
    else !Worked(actions, i, id, true) && !Worked(actions, i, id, false) && Verdict(actions, i, id) == Pending
  }

  /** A step concerns at most the transfer it names. */
  predicate Names(a: Action, id: nat)
  {
    match a
    case Spawn(k) => k == id
    case SpawnFails(k) => k == id
    case GrowTo(k, _) => k == id
    case WorkEnds(k, _) => k == id
    case Settle(k) => k == id
    case CountSettled(k) => k == id
    case Notify(k) => k == id
    case Cancel(k) => k == id
    case _ => false
  }

  lemma WorkedGrows(actions: seq<Action>, i: nat, id: nat, success: bool)
    requires i < |actions|
    ensures Worked(actions, i + 1, id, success) <==> Worked(actions, i, id, success) || actions[i] == WorkEnds(id, success)
  {
  }

  lemma OthersStay(s: System, a: Action, t: System, id: nat)
    requires Next(s, a, t) && !Names(a, id)
    ensures id < |s.transfers| ==> id < |t.transfers| && t.transfers[id] == s.transfers[id]
    ensures |s.transfers| <= id < |t.transfers| ==> t.transfers[id].worker.Admitted? && t.transfers[id].outcome == Pending
  {
  }

  lemma ToldOn(s: System, a: Action, t: System, actions: seq<Action>, i: nat, id: nat)
    requires i < |actions| && actions[i] == a && Next(s, a, t) && Invariant(s) && Told(s, actions, i, id)
    ensures Told(t, actions, i + 1, id)
  {
    WorkedGrows(actions, i, id, true);
    WorkedGrows(actions, i, id, false);
    if Names(a, id) {
      assert Consistent(s.transfers[id]);
    } else {
      OthersStay(s, a, t, id);
    }
  }

  /** In every run the outcome of a transfer is the one its history calls for: Ready if its
      work had ended well when it settled, Failed if badly, Canceled if it was cancelled
      before it settled, and otherwise Pending. */
  lemma {:induction false} OutcomeIsVerdict(states: seq<System>, actions: seq<Action>, i: nat, id: nat)
    requires Run(states, actions) && i < |states|
    ensures Told(states[i], actions, i, id)
  {
    if i > 0 {
      OutcomeIsVerdict(states, actions, i - 1, id);
      RunKeeps(states, actions, i - 1);
      assert Next(states[i - 1], actions[i - 1], states[i]);
      ToldOn(states[i - 1], actions[i - 1], states[i], actions, i - 1, id);
    }
  }

  /** A transfer that settles before any cancellation gets the outcome its work calls for. */
  lemma SettlesAsWorked(states: seq<System>, actions: seq<Action>, j: nat, k: nat, i: nat, id: nat, success: bool)
    requires Run(states, actions) && j < k < i < |states|
    requires actions[j] == WorkEnds(id, success) && actions[k] == Settle(id)
    requires forall n :: 0 <= n < k ==> actions[n] != Cancel(id)
    ensures id < |states[i].transfers| && states[i].transfers[id].outcome == if success then Ready else Failed
  {
    assert Next(states[k], actions[k], states[k + 1]);
    OutcomeIsVerdict(states, actions, k, id);
    OutcomeIsVerdict(states, actions, k + 1, id);
    assert Worked(actions, k, id, success);
    RunKeeps(states, actions, k);
    NotCancelled(actions, k, id);
    assert Consistent(states[k].transfers[id]);
    LeavesPendingOnce(states, actions, k + 1, i, id);
  }

  lemma {:induction false} NotCancelled(actions: seq<Action>, i: nat, id: nat)
    requires i <= |actions| && forall n :: 0 <= n < i ==> actions[n] != Cancel(id)
    ensures Verdict(actions, i, id) != Canceled
  {
    if i > 0 {
      NotCancelled(actions, i - 1, id);
    }
  }

  // ----- what each step does -----

  /** A request is admitted exactly when it, the requests and the bytes in flight are
      within their limits, and a transfer grows exactly when it and they would be. */
  lemma AdmittedIff(states: seq<System>, actions: seq<Action>, i: nat)
    requires Run(states, actions) && i < |actions|
    ensures var s, t := states[i], states[i + 1];
            && (actions[i].Admit? ==>
                  t.transfers == if actions[i].charge <= MAX_REQUEST_BYTES
                                    && Sum(OneGuard, s.transfers) < MAX_REQUESTS
                                    && Sum(Charge, s.transfers) + actions[i].charge <= MAX_BYTES
                                 then s.transfers + [Transfer(Pending, Admitted(actions[i].charge))] else s.transfers)
            && (actions[i].GrowTo? ==>
                  && actions[i].id < |s.transfers| == |t.transfers|
                  && Charge(t.transfers[actions[i].id]) ==
                       var charge := Charge(s.transfers[actions[i].id]);
                       if charge < actions[i].size <= MAX_REQUEST_BYTES
                          && Sum(Charge, s.transfers) - charge + actions[i].size <= MAX_BYTES
                       then actions[i].size else charge)
  {
    RunKeeps(states, actions, i);
    assert Next(states[i], actions[i], states[i + 1]);
  }

  /** After a poll every completion counted so far has been answered by some poll. */
  lemma PollAnswersAll(states: seq<System>, actions: seq<Action>, i: nat)
    requires Run(states, actions) && i < |actions| && (actions[i].Poll? || actions[i].WaiterPolls?)
    ensures states[i + 1].settled == 0 && states[i + 1].polled == Sum(OneCounted, states[i].transfers)
  {
    RunKeeps(states, actions, i);
    assert Next(states[i], actions[i], states[i + 1]);
  }

  /** A cancellation, or a settlement that has been announced. */
  function OneNotified(t: Transfer): nat
  {
    if t.outcome == Canceled || (t.worker.Finished? && Completed(t.outcome)) then 1 else 0
  }

  lemma StepNotifies(s: System, a: Action, t: System)
    requires Invariant(s) && Next(s, a, t) && s.notifications + s.owed == Sum(OneNotified, s.transfers)
    ensures t.notifications + t.owed == Sum(OneNotified, t.transfers)
  {
    if a.Spawn? || a.SpawnFails? || a.GrowTo? || a.WorkEnds? || a.Settle? || a.CountSettled? || a.Notify? || a.Cancel? {
      var id := a.id;
      assert Consistent(s.transfers[id]);
      SumUpdate(OneNotified, s.transfers, id, t.transfers[id]);
      assert t.transfers == s.transfers[id := t.transfers[id]];
    } else if a.Admit? && t != s {
      assert t.transfers[..|s.transfers|] == s.transfers;
    }
  }

  /** Every completion and every cancellation notifies once: what has been notified, with
      what cancellations still owe, is the number of them. */
  lemma {:induction false} NotifiesOnce(states: seq<System>, actions: seq<Action>, i: nat)
    requires Run(states, actions) && i < |states|
    ensures states[i].notifications + states[i].owed == Sum(OneNotified, states[i].transfers)
  {
    if i > 0 {
      NotifiesOnce(states, actions, i - 1);
      RunKeeps(states, actions, i - 1);
      assert Next(states[i - 1], actions[i - 1], states[i]);
      StepNotifies(states[i - 1], actions[i - 1], states[i]);
    }
  }

  // ----- waiting -----

  /** How many notifications have passed since the waiter read the generation. */
  function Behind(s: System, w: Waiter): int
    requires !w.Awake?
  {
    s.notifications - w.seen
  }

  /** A sleeper is owed: unless a positive multiple of `2^64` notifications have passed
      since it read the generation, a settlement it has not been told of has a
      notification coming. */
  lemma SleeperIsOwed(states: seq<System>, actions: seq<Action>, i: nat, w: nat)
    requires Run(states, actions) && i < |states|
    requires w in states[i].waiters && states[i].waiters[w].Asleep?
    requires var gap := Behind(states[i], states[i].waiters[w]); !(gap > 0 && gap % WRAP == 0)
    requires states[i].settled > 0
    ensures NotificationDue(states[i])
  {
    RunKeeps(states, actions, i);
    assert WaiterSafe(states[i], states[i].waiters[w]);
  }

  /** One more step of a run. */
  lemma RunExtends(states: seq<System>, actions: seq<Action>, a: Action, t: System)
    requires Run(states, actions) && Next(states[|states| - 1], a, t)
    ensures Run(states + [t], actions + [a])
  {
    var ss, aa := states + [t], actions + [a];
    forall i | 0 <= i < |aa| ensures Next(ss[i], aa[i], ss[i + 1]) {
      assert i < |actions| ==> Next(states[i], actions[i], states[i + 1]);
    }
  }

  /** Nothing in flight, `n` notifications behind, and waiter 0 about to lock. */
  ghost predicate Quiet(s: System, n: nat)
  {
    s.requests == 0 && s.bytes == 0 && s.settled == 0 && s.owed == 0 && s.notifications == n
    && s.waiters == map[0 := SawNone(0)]
    && forall i :: 0 <= i < |s.transfers| ==> s.transfers[i].worker == Finished
  }

  /** A run of cancelled transfers notifies any number of times while a waiter stands still. */
  lemma {:induction false} QuietRun(n: nat) returns (states: seq<System>, actions: seq<Action>)
    ensures Run(states, actions) && Quiet(states[|states| - 1], n)
  {
    if n == 0 {
      var s1 := INITIAL.(waiters := map[0 := ReadGeneration(0)]);
      var s2 := INITIAL.(waiters := map[0 := SawNone(0)]);
      states, actions := [INITIAL, s1, s2], [WaiterReads(0), WaiterTests(0)];
    } else {
      states, actions := QuietRun(n - 1);
      states, actions := CancelledRun(states, actions, n - 1);
    }
  }

  lemma CancelledRun(before: seq<System>, done: seq<Action>, n: nat)
    returns (states: seq<System>, actions: seq<Action>)
    requires Run(before, done) && Quiet(before[|before| - 1], n)
    ensures Run(states, actions) && Quiet(states[|states| - 1], n + 1)
  {
    var s := before[|before| - 1];
    var id := |s.transfers|;
    var s1 := s.(requests := 1, transfers := s.transfers + [Transfer(Pending, Admitted(0))]);
    var s2 := WithWorker(s1, id, Working(0));
    var s3 := s2.(transfers := s2.transfers[id := Transfer(Canceled, Working(0))], owed := 1);
    var s4 := Notified(s3).(owed := 0);
    var s5 := Release(s4, id, Released(true));
    var s6 := WithWorker(s5, id, Finished);
    RunExtends(before, done, Admit(0), s1);
    RunExtends(before + [s1], done + [Admit(0)], Spawn(id), s2);
    states, actions := before + [s1] + [s2], done + [Admit(0)] + [Spawn(id)];
    RunExtends(states, actions, Cancel(id), s3);
    states, actions := states + [s3], actions + [Cancel(id)];
    RunExtends(states, actions, CancelNotifies, s4);
    states, actions := states + [s4], actions + [CancelNotifies];
    RunExtends(states, actions, WorkEnds(id, true), s5);
    states, actions := states + [s5], actions + [WorkEnds(id, true)];
    RunExtends(states, actions, Settle(id), s6);
    states, actions := states + [s6], actions + [Settle(id)];
    assert s6.waiters == s.waiters;
  }

  /** A waiter sleeps, something has settled, and nobody will announce it. */
  ghost predicate SleepsThrough(s: System, w: nat, gap: nat)
  {
    && w in s.waiters && s.waiters[w].Asleep? && Behind(s, s.waiters[w]) == gap
    && s.settled > 0 && !NotificationDue(s)
  }

  /** Some run leaves a waiter asleep on a settlement, exactly `gap` notifications behind. */
  ghost predicate CanSleepThrough(gap: nat)
  {
    exists states, actions, i, w ::
      Run(states, actions) && 0 <= i < |states| && SleepsThrough(states[i], w, gap)
  }

  /** After a multiple of `2^64` notifications the generation reads as it did, and a waiter
      goes to sleep on a settlement nobody will announce again. */
  lemma SleepsThroughAfterWrap(gap: nat) returns (states: seq<System>, actions: seq<Action>)
    requires gap > 0 && gap % WRAP == 0
    ensures Run(states, actions) && SleepsThrough(states[|states| - 1], 0, gap)
  {
    states, actions := QuietRun(gap - 1);
    var s := states[|states| - 1];
    var id := |s.transfers|;
    var s1 := s.(requests := 1, transfers := s.transfers + [Transfer(Pending, Admitted(0))]);
    var s2 := WithWorker(s1, id, Working(0));
    var s3 := Release(s2, id, Released(true));
    var s4 := s3.(transfers := s3.transfers[id := Transfer(Ready, Settled)]);
    var s5 := WithWorker(s4, id, Counted).(settled := 1);
    var s6 := Notified(WithWorker(s5, id, Finished));
    var s7 := s6.(waiters := s6.waiters[0 := Asleep(0)]);
    RunExtends(states, actions, Admit(0), s1);
    states, actions := states + [s1], actions + [Admit(0)];
    RunExtends(states, actions, Spawn(id), s2);
    states, actions := states + [s2], actions + [Spawn(id)];
    RunExtends(states, actions, WorkEnds(id, true), s3);
    states, actions := states + [s3], actions + [WorkEnds(id, true)];
    RunExtends(states, actions, Settle(id), s4);
    states, actions := states + [s4], actions + [Settle(id)];
    RunExtends(states, actions, CountSettled(id), s5);
    states, actions := states + [s5], actions + [CountSettled(id)];
    RunExtends(states, actions, Notify(id), s6);
    states, actions := states + [s6], actions + [Notify(id)];
    assert s6.waiters == map[0 := SawNone(0)];
    RunExtends(states, actions, WaiterLocks(0), s7);
    states, actions := states + [s7], actions + [WaiterLocks(0)];
  }

  /** A settlement can be slept through exactly a positive multiple of `2^64` notifications
      after the generation was read, and at no other distance. */
  lemma SleepsThroughIff(gap: nat)
    ensures CanSleepThrough(gap) <==> gap > 0 && gap % WRAP == 0
  {
    if CanSleepThrough(gap) {
      var states, actions, i, w :|
        Run(states, actions) && 0 <= i < |states| && SleepsThrough(states[i], w, gap);
      if !(gap > 0 && gap % WRAP == 0) {
        SleeperIsOwed(states, actions, i, w);
        assert false;
      }
    }
    if gap > 0 && gap % WRAP == 0 {
      var states, actions := SleepsThroughAfterWrap(gap);
      assert SleepsThrough(states[|states| - 1], 0, gap);
    }
  }
}
