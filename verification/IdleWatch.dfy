/** The idle helper: a caller that is told the device still works is woken after the helper
    that owes the wake has disarmed. */
module IdleWatch {
  /** A helper thread from its spawn to its wake. `Returned` has left the device wait and
      wants the lock. */
  datatype Helper = Waiting | Returned(failed: bool) | Disarmed | Woken

  /** The one caller of `submitted_work_done`; it holds the lock in `Holding`, having seen
      the watch disarmed, and in `Spawned`, before it sets `armed`. */
  datatype Caller = Outside | Polling | Busy | Holding | Spawned

  datatype Event = Began | Answered(done: bool) | Refused | Disarms(helper: nat) | Wakes(helper: nat)

  datatype State = State(caller: Caller, armed: bool, failure: bool, helpers: seq<Helper>, log: seq<Event>)

  const Initial := State(Outside, false, false, [], [])

  predicate Locked(s: State) { s.caller.Holding? || s.caller.Spawned? }

  /** The helper has not yet disarmed. */
  predicate Live(h: Helper) { h.Waiting? || h.Returned? }

  // ----- steps: each critical section, spawn and wake is one -----

  datatype Step =
    | TakeFailure                          // the call starts; an old failure ends it
    | PollDone | PollFails | PollBusy
    | FindArmed                            // locks, sees `armed`, unlocks, answers false
    | FindDisarmed                         // locks, sees it clear, keeps the lock
    | Spawn | SpawnFails
    | Arm                                  // sets `armed`, unlocks, answers false
    | WaitEnds(helper: nat, failed: bool)
    | Disarm(helper: nat)                  // one critical section of the helper
    | Wake(helper: nat)

  predicate Enabled(s: State, a: Step)
  {
    match a
    case TakeFailure => s.caller.Outside?
    case PollDone | PollFails | PollBusy => s.caller.Polling?
    case FindArmed => s.caller.Busy? && s.armed
    case FindDisarmed => s.caller.Busy? && !s.armed
    case Spawn | SpawnFails => s.caller.Holding?
    case Arm => s.caller.Spawned?
    case WaitEnds(k, _) => k < |s.helpers| && s.helpers[k].Waiting?
    case Disarm(k) => k < |s.helpers| && s.helpers[k].Returned? && !Locked(s)
    case Wake(k) => k < |s.helpers| && s.helpers[k].Disarmed?
  }

  /** What the step tells. */
  function Said(s: State, a: Step): seq<Event>
  {
    match a
    case TakeFailure => if s.failure then [Began, Refused] else [Began]
    case PollDone => [Answered(true)]
    case PollFails | SpawnFails => [Refused]
    case FindArmed | Arm => [Answered(false)]
    case Disarm(k) => [Disarms(k)]
    case Wake(k) => [Wakes(k)]
    case _ => []
  }

  function Moved(s: State, a: Step): State
    requires Enabled(s, a)
  {
    match a
    case TakeFailure => if s.failure then s.(failure := false) else s.(caller := Polling)
    case PollDone | PollFails | FindArmed | SpawnFails => s.(caller := Outside)
    case PollBusy => s.(caller := Busy)
    case FindDisarmed => s.(caller := Holding)
    case Spawn => s.(caller := Spawned, helpers := s.helpers + [Waiting])
    case Arm => s.(caller := Outside, armed := true)
    case WaitEnds(k, failed) => s.(helpers := s.helpers[k := Returned(failed)])
    case Disarm(k) => s.(armed := false, failure := s.failure || s.helpers[k].failed, helpers := s.helpers[k := Disarmed])
    case Wake(k) => s.(helpers := s.helpers[k := Woken])
  }

  function After(s: State, a: Step): State
    requires Enabled(s, a)
  {
    Moved(s, a).(log := s.log + Said(s, a))
  }

  // ----- what every step keeps -----

  /** Only the newest helper can be live, and it is exactly while the watch is armed or the
      caller is about to arm it. */
  predicate OneArmed(s: State)
  {
    var n := |s.helpers|;
    && (forall k :: 0 <= k < n - 1 ==> !Live(s.helpers[k]))
    && (s.armed || s.caller.Spawned? <==> n > 0 && Live(s.helpers[n - 1]))
    && !(s.armed && Locked(s))
  }

  /** The log tells which helpers have disarmed and which have woken the caller. */
  ghost predicate Told(s: State)
  {
    && (forall k: nat :: Disarms(k) in s.log <==> k < |s.helpers| && !Live(s.helpers[k]))
    && (forall k: nat :: Wakes(k) in s.log <==> k < |s.helpers| && s.helpers[k].Woken?)
    && (forall j :: 0 <= j < |s.log| && s.log[j].Wakes? ==> Disarms(s.log[j].helper) in s.log[..j])
  }

  /** This helper had not disarmed when the answer was given. */
  ghost predicate Owes(s: State, i: nat, k: nat)
    requires i < |s.log|
  {
    k < |s.helpers| && Disarms(k) !in s.log[..i + 1]
  }

  ghost predicate Owed(s: State, i: nat)
    requires i < |s.log|
  {
    exists k :: Owes(s, i, k)
  }

  /** Every false answer has a helper that had not disarmed. */
  ghost predicate AllOwed(s: State)
  {
    forall i :: 0 <= i < |s.log| && s.log[i] == Answered(false) ==> Owed(s, i)
  }

  ghost predicate Invariant(s: State)
  {
    OneArmed(s) && Told(s) && AllOwed(s)
  }

  /** The log after a step continues the log before it. */
  lemma Grows(s: State, a: Step)
    requires Enabled(s, a)
    ensures After(s, a).log[..|s.log|] == s.log && |s.log| <= |After(s, a).log|
    ensures |s.helpers| <= |After(s, a).helpers|
  {
  }

  lemma OwedStays(s: State, a: Step, i: nat)
    requires Enabled(s, a) && i < |s.log| && Owed(s, i)
    ensures i < |After(s, a).log| && Owed(After(s, a), i)
  {
    Grows(s, a);
    var t := After(s, a);
    var k :| Owes(s, i, k);
    assert t.log[..i + 1] == s.log[..i + 1];
    assert Owes(t, i, k);
  }

  lemma TellsWho(s: State, a: Step, k: nat)
    requires Enabled(s, a) && Told(s)
    ensures var t := After(s, a);
            && (Disarms(k) in t.log <==> k < |t.helpers| && !Live(t.helpers[k]))
            && (Wakes(k) in t.log <==> k < |t.helpers| && t.helpers[k].Woken?)
  {
    var t := Moved(s, a);
    assert Disarms(k) in s.log <==> k < |s.helpers| && !Live(s.helpers[k]);
    assert Wakes(k) in s.log <==> k < |s.helpers| && s.helpers[k].Woken?;
    assert Disarms(k) in Said(s, a) <==> a == Disarm(k);
    assert Wakes(k) in Said(s, a) <==> a == Wake(k);
  }

  lemma TellsInOrder(s: State, a: Step, j: nat)
    requires Enabled(s, a) && Told(s) && j < |After(s, a).log| && After(s, a).log[j].Wakes?
    ensures Disarms(After(s, a).log[j].helper) in After(s, a).log[..j]
  {
    var log := After(s, a).log;
    if j < |s.log| {
      assert log[..j] == s.log[..j];
      assert log[j] == s.log[j];
    } else {
      assert log[j] == Said(s, a)[j - |s.log|];
      assert log[..j] == s.log;
    }
  }

  lemma TellsStep(s: State, a: Step)
    requires Enabled(s, a) && Told(s)
    ensures Told(After(s, a))
  {
    var t := After(s, a);
    forall k: nat ensures Disarms(k) in t.log <==> k < |t.helpers| && !Live(t.helpers[k]) {
      TellsWho(s, a, k);
    }
    forall k: nat ensures Wakes(k) in t.log <==> k < |t.helpers| && t.helpers[k].Woken? {
      TellsWho(s, a, k);
    }
    forall j | 0 <= j < |t.log| && t.log[j].Wakes? ensures Disarms(t.log[j].helper) in t.log[..j] {
      TellsInOrder(s, a, j);
    }
  }

  lemma OwesStep(s: State, a: Step)
    requires Enabled(s, a) && Invariant(s)
    ensures AllOwed(After(s, a))
  {
    Grows(s, a);
    var t := After(s, a);
    forall i | 0 <= i < |t.log| && t.log[i] == Answered(false) ensures Owed(t, i) {
      if i < |s.log| {
        assert t.log[i] == s.log[i];
        OwedStays(s, a, i);
      } else {
        assert t.log[..i + 1] == t.log;
        assert Owes(t, i, |t.helpers| - 1);
      }
    }
  }

  lemma ArmsStep(s: State, a: Step)
    requires Enabled(s, a) && OneArmed(s)
    ensures OneArmed(After(s, a))
  {
    var t := Moved(s, a);
    forall k | 0 <= k < |t.helpers| - 1 ensures !Live(t.helpers[k]) {
      assert k < |s.helpers| - 1 ==> !Live(s.helpers[k]);
    }
  }

  lemma NextKeeps(s: State, a: Step)
    requires Enabled(s, a) && Invariant(s)
    ensures Invariant(After(s, a))
  {
    ArmsStep(s, a);
    TellsStep(s, a);
    OwesStep(s, a);
  }

  // ----- every run -----

  predicate Legal(s: State, steps: seq<Step>)
    decreases |steps|
  {
    |steps| > 0 ==> Enabled(s, steps[0]) && Legal(After(s, steps[0]), steps[1..])
  }

  function Final(s: State, steps: seq<Step>): State
    requires Legal(s, steps)
    decreases |steps|
  {
    if |steps| == 0 then s else Final(After(s, steps[0]), steps[1..])
  }

  lemma {:induction false} RunKeeps(s: State, steps: seq<Step>)
    requires Legal(s, steps) && Invariant(s)
    ensures Invariant(Final(s, steps))
    decreases |steps|
  {
    if |steps| > 0 {
      NextKeeps(s, steps[0]);
      RunKeeps(After(s, steps[0]), steps[1..]);
    }
  }

  /** In every reachable state at most one helper is live. */
  lemma AtMostOneArmed(steps: seq<Step>, j: nat, k: nat)
    requires Legal(Initial, steps)
    requires var s := Final(Initial, steps); j < k < |s.helpers| && Live(s.helpers[k])
    ensures !Live(Final(Initial, steps).helpers[j])
  {
    RunKeeps(Initial, steps);
  }

  /** Every false answer has a helper that had not disarmed when it was given, so that its
      disarming and its wake both come after: they are still to come, or the log has them
      in that order. */
  lemma FalseIsWoken(steps: seq<Step>, i: nat) returns (k: nat)
    requires Legal(Initial, steps)
    requires var s := Final(Initial, steps); i < |s.log| && s.log[i] == Answered(false)
    ensures var s := Final(Initial, steps);
            && k < |s.helpers| && Disarms(k) !in s.log[..i + 1]
            && (!Live(s.helpers[k]) ==> exists d :: i < d < |s.log| && s.log[d] == Disarms(k))
            && (s.helpers[k].Woken? ==>
                  exists d, w :: i < d < w < |s.log| && s.log[d] == Disarms(k) && s.log[w] == Wakes(k))
  {
    RunKeeps(Initial, steps);
    var s := Final(Initial, steps);
    assert Owed(s, i);
    k :| Owes(s, i, k);
    if !Live(s.helpers[k]) {
      var d := DisarmedAfter(s, i, k);
    }
    if s.helpers[k].Woken? {
      var d, w := WokenInOrder(s, i, k);
    }
  }

  lemma DisarmedAfter(s: State, i: nat, k: nat) returns (d: nat)
    requires Told(s) && i < |s.log| && Owes(s, i, k) && !Live(s.helpers[k])
    ensures i < d < |s.log| && s.log[d] == Disarms(k)
  {
    assert Disarms(k) in s.log;
    d :| 0 <= d < |s.log| && s.log[d] == Disarms(k);
  }

  lemma WokenInOrder(s: State, i: nat, k: nat) returns (d: nat, w: nat)
    requires Told(s) && i < |s.log| && Owes(s, i, k) && s.helpers[k].Woken?
    ensures i < d < w < |s.log| && s.log[d] == Disarms(k) && s.log[w] == Wakes(k)
  {
    assert Wakes(k) in s.log;
    w :| 0 <= w < |s.log| && s.log[w] == Wakes(k);
    assert Disarms(s.log[w].helper) in s.log[..w];
    d :| 0 <= d < w && s.log[d] == Disarms(k);
  }

  /** Nothing stands in the way of an owed wake: a helper that has not woken its caller can
      take its next step, or the caller that holds the lock can. */
  lemma NeverStuck(steps: seq<Step>, k: nat) returns (a: Step)
    requires Legal(Initial, steps)
    requires k < |Final(Initial, steps).helpers| && !Final(Initial, steps).helpers[k].Woken?
    ensures Enabled(Final(Initial, steps), a)
    ensures a == WaitEnds(k, false) || a == Disarm(k) || a == Wake(k) || (Locked(Final(Initial, steps)) && (a == SpawnFails || a == Arm))
  {
    var s := Final(Initial, steps);
    match s.helpers[k]
    case Waiting => a := WaitEnds(k, false);
    case Disarmed => a := Wake(k);
    case Returned(_) =>
      a := if s.caller.Holding? then SpawnFails else if s.caller.Spawned? then Arm else Disarm(k);
  }

  /** A caller that asks again once every helper has disarmed arms a new one if the work is
      still running. */
  lemma CanArmAgain(steps: seq<Step>)
    requires Legal(Initial, steps)
    requires var s := Final(Initial, steps);
             && s.caller.Busy? && forall k :: 0 <= k < |s.helpers| ==> !Live(s.helpers[k])
    ensures Legal(Final(Initial, steps), [FindDisarmed, Spawn, Arm])
    ensures Final(Final(Initial, steps), [FindDisarmed, Spawn, Arm]).armed
  {
    RunKeeps(Initial, steps);
    var s := Final(Initial, steps);
    var s1 := After(s, FindDisarmed);
    var s2 := After(s1, Spawn);
    var more: seq<Step> := [FindDisarmed, Spawn, Arm];
    assert more[1..] == [Spawn, Arm] && more[1..][1..] == [Arm] && more[1..][1..][1..] == [];
    assert Legal(s2, [Arm]) by { assert [Arm][1..] == []; }
    assert Legal(s1, [Spawn, Arm]);
  }

  // ----- a failed wait -----

  lemma {:induction false} FinalSnoc(s: State, steps: seq<Step>, a: Step)
    requires Legal(s, steps + [a])
    ensures Legal(s, steps) && Enabled(Final(s, steps), a)
    ensures Final(s, steps + [a]) == After(Final(s, steps), a)
    decreases |steps|
  {
    if |steps| == 0 {
      assert steps + [a] == [a];
      assert [a][1..] == [];
    } else {
      assert (steps + [a])[1..] == steps[1..] + [a];
      FinalSnoc(After(s, steps[0]), steps[1..], a);
    }
  }

  /** The step at `j` ended a helper whose wait had failed, and no call has started since. */
  ghost predicate FailedAt(steps: seq<Step>, j: nat)
  {
    && j < |steps| && steps[j].Disarm? && WaitEnds(steps[j].helper, true) in steps[..j]
    && forall i :: j < i < |steps| ==> steps[i] != TakeFailure
  }

  ghost predicate Unanswered(steps: seq<Step>) { exists j: nat :: FailedAt(steps, j) }

  /** What the steps tell of a helper's wait. */
  ghost predicate WaitTold(s: State, steps: seq<Step>, k: nat)
  {
    if k >= |s.helpers| || s.helpers[k].Waiting? then
      WaitEnds(k, true) !in steps && WaitEnds(k, false) !in steps
    else s.helpers[k].Returned? ==> (WaitEnds(k, true) in steps <==> s.helpers[k].failed)
  }

  lemma WaitToldOn(s: State, steps: seq<Step>, a: Step, k: nat)
    requires WaitTold(s, steps, k) && Enabled(s, a)
    ensures WaitTold(After(s, a), steps + [a], k)
  {
  }

  lemma {:induction false} WaitsTold(steps: seq<Step>, k: nat)
    requires Legal(Initial, steps)
    ensures WaitTold(Final(Initial, steps), steps, k)
    decreases |steps|
  {
    if |steps| > 0 {
      var less, a := steps[..|steps| - 1], steps[|steps| - 1];
      assert less + [a] == steps;
      FinalSnoc(Initial, less, a);
      WaitsTold(less, k);
      WaitToldOn(Final(Initial, less), less, a, k);
    }
  }

  /** One more step: a failed wait that ends is unanswered, a call that starts answers it. */
  lemma UnansweredSnoc(steps: seq<Step>, a: Step)
    ensures Unanswered(steps + [a]) <==>
              (a.Disarm? && WaitEnds(a.helper, true) in steps) || (Unanswered(steps) && a != TakeFailure)
  {
    var more := steps + [a];
    assert more[..|steps|] == steps;
    if a.Disarm? && WaitEnds(a.helper, true) in steps {
      assert FailedAt(more, |steps|);
    } else if Unanswered(steps) && a != TakeFailure {
      var j: nat :| FailedAt(steps, j);
      assert more[..j] == steps[..j];
      assert FailedAt(more, j);
    }
    if Unanswered(more) {
      var j: nat :| FailedAt(more, j);
      if j < |steps| {
        assert more[..j] == steps[..j];
        assert more[|steps|] == a;
        assert FailedAt(steps, j);
      }
    }
  }

  /** A failure is kept exactly while a failed wait has ended and no call has started since. */
  lemma {:induction false} FailureIsUnanswered(steps: seq<Step>)
    requires Legal(Initial, steps)
    ensures Final(Initial, steps).failure <==> Unanswered(steps)
    decreases |steps|
  {
    if |steps| > 0 {
      var less, a := steps[..|steps| - 1], steps[|steps| - 1];
      assert less + [a] == steps;
      FinalSnoc(Initial, less, a);
      FailureIsUnanswered(less);
      UnansweredSnoc(less, a);
      if a.Disarm? {
        WaitsTold(less, a.helper);
      }
    }
  }

  /** A wait that failed is answered by the next call, and only such a call is refused as it
      starts: the others go on to poll the device. */
  lemma NextCallAnswers(steps: seq<Step>)
    requires Legal(Initial, steps) && Enabled(Final(Initial, steps), TakeFailure)
    ensures var s, t := Final(Initial, steps), After(Final(Initial, steps), TakeFailure);
            && (Unanswered(steps) ==> t.log == s.log + [Began, Refused] && t.caller == Outside && !t.failure)
            && (!Unanswered(steps) ==> t.log == s.log + [Began] && t.caller == Polling)
  {
    FailureIsUnanswered(steps);
  }

  // ----- every call is answered once -----

  function Count(log: seq<Event>, f: Event -> bool): nat
  {
    if |log| == 0 then 0 else Count(log[..|log| - 1], f) + if f(log[|log| - 1]) then 1 else 0
  }

  lemma {:induction false} CountAppends(log: seq<Event>, more: seq<Event>, f: Event -> bool)
    ensures Count(log + more, f) == Count(log, f) + Count(more, f)
    decreases |more|
  {
    if |more| == 0 {
      assert log + more == log;
    } else {
      var n := |more| - 1;
      assert (log + more)[..|log| + n] == log + more[..n];
      CountAppends(log, more[..n], f);
    }
  }

  lemma CountFew(log: seq<Event>, f: Event -> bool)
    requires |log| <= 2
    ensures Count(log, f) == (if |log| > 0 && f(log[0]) then 1 else 0) + (if |log| > 1 && f(log[1]) then 1 else 0)
  {
    if |log| == 2 {
      assert log[..1] == [log[0]] && log[..1][..0] == [];
    } else if |log| == 1 {
      assert log[..0] == [];
    }
  }

  predicate Begins(e: Event) { e.Began? }
  predicate Ends(e: Event) { e.Answered? || e.Refused? }
  predicate SaysDone(e: Event) { e == Answered(true) }
  predicate SaysBusy(e: Event) { e == Answered(false) }

  /** Each call that began has been answered once, but for one under way, and that often
      with done and with busy. */
  ghost predicate AnsweredOnce(s: State, done: nat, busy: nat)
  {
    && Count(s.log, Begins) == Count(s.log, Ends) + (if s.caller.Outside? then 0 else 1)
    && Count(s.log, SaysDone) == done && Count(s.log, SaysBusy) == busy
  }

  lemma AnswersStep(s: State, a: Step, done: nat, busy: nat)
    requires Enabled(s, a) && AnsweredOnce(s, done, busy)
    ensures AnsweredOnce(After(s, a), done + (if a.PollDone? then 1 else 0), busy + (if a.FindArmed? || a.Arm? then 1 else 0))
  {
    SaidCounts(s, a, Begins);
    SaidCounts(s, a, Ends);
    SaidCounts(s, a, SaysDone);
    SaidCounts(s, a, SaysBusy);
  }

  lemma SaidCounts(s: State, a: Step, f: Event -> bool)
    requires Enabled(s, a)
    ensures |Said(s, a)| <= 2
    ensures var said := Said(s, a);
            Count(After(s, a).log, f) == Count(s.log, f) + (if |said| > 0 && f(said[0]) then 1 else 0)
                                                         + (if |said| > 1 && f(said[1]) then 1 else 0)
  {
    CountAppends(s.log, Said(s, a), f);
    CountFew(Said(s, a), f);
  }

  function PollsDone(steps: seq<Step>): nat
  {
    if |steps| == 0 then 0 else PollsDone(steps[..|steps| - 1]) + if steps[|steps| - 1].PollDone? then 1 else 0
  }

  /** How often a call found the watch armed or armed it. */
  function Armings(steps: seq<Step>): nat
  {
    if |steps| == 0 then 0
    else Armings(steps[..|steps| - 1]) + if steps[|steps| - 1].FindArmed? || steps[|steps| - 1].Arm? then 1 else 0
  }

  /** In every run each call is answered once: done exactly as often as the device was found
      idle, and busy as often as a call found the watch armed or armed it. */
  lemma {:induction false} EveryCallAnswered(steps: seq<Step>)
    requires Legal(Initial, steps)
    ensures AnsweredOnce(Final(Initial, steps), PollsDone(steps), Armings(steps))
    decreases |steps|
  {
    if |steps| > 0 {
      var less, a := steps[..|steps| - 1], steps[|steps| - 1];
      assert less + [a] == steps;
      FinalSnoc(Initial, less, a);
      EveryCallAnswered(less);
      AnswersStep(Final(Initial, less), a, PollsDone(less), Armings(less));
    }
  }
}
