// Schedules of the thread join: from which states GetResult can still return, that it can deadlock with
// any number of workers, and with how many of them a success can be lost
// (common/src/handler/UnlockHandler.cpp, lines 76-111).
module UnlockSchedules {
  import opened Options
  import opened UnlockStates
  import opened UnlockJoin

  // ---- runs between states ----

  /** Some run takes the first state to the second. */
  ghost predicate Leads(s: State, t: State) { exists actions :: Run(s, actions) == Some(t) }

  lemma LeadsSelf(s: State)
    ensures Leads(s, s)
  {
    assert Run(s, []) == Some(s);
  }

  lemma LeadsThen(s: State, t: State, a: Action, u: State)
    requires Leads(s, t) && Next(t, a) == Some(u)
    ensures Leads(s, u)
  {
    hide Next;
    var actions :| Run(s, actions) == Some(t);
    assert (actions + [a])[..|actions|] == actions;
    assert Run(s, actions + [a]) == Some(u);
  }

  lemma LeadsTrans(s: State, t: State, u: State)
    requires Leads(s, t) && Leads(t, u)
    ensures Leads(s, u)
  {
    var more :| Run(t, more) == Some(u);
    LeadsOn(s, t, more);
  }

  lemma {:induction false} LeadsOn(s: State, t: State, more: seq<Action>)
    requires Leads(s, t) && Run(t, more).Some?
    ensures Leads(s, Run(t, more).value)
  {
    hide Next, Leads;
    if more != [] {
      LeadsOn(s, t, more[..|more| - 1]);
      LeadsThen(s, Run(t, more[..|more| - 1]).value, more[|more| - 1], Run(t, more).value);
    }
  }

  lemma LeadsFirst(s: State, a: Action, t: State, u: State)
    requires Next(s, a) == Some(t) && Leads(t, u)
    ensures Leads(s, u)
  {
    hide Next, Leads;
    LeadsSelf(s);
    LeadsThen(s, s, a, t);
    LeadsTrans(s, t, u);
  }

  // ---- from where GetResult can still return ----

  /** Some run from this state ends with GetResult's return. */
  ghost predicate CanFinish(s: State) { exists t :: Leads(s, t) && t.main.Finished? }

  /** How many steps the main thread has left once all workers have finished. */
  function MainSteps(s: State): nat {
    var n := |s.workers|;
    match s.main
    case Starting => n + 7
    case Woken => n + 7
    case Testing => n + 6
    case Waiting => n + 5
    case Decided => n + 4
    case Cleanup(_) => n + 3
    case Joining(_, k) => if k <= n then n - k + 2 else 2
    case Deleting(_) => 1
    case Finished(_) => 0
  }

  /** The result the main thread has taken, or would take now. */
  function Taken(s: State): UnlockResult {
    if s.main.Cleanup? || s.main.Joining? || s.main.Deleting? || s.main.Finished? then s.main.result else s.current
  }

  lemma MainStepFacts(s: State, a: Action)
    requires Inv(s) && AllDone(s) && MainStep(s, a).Some?
    ensures var next := MainStep(s, a).value;
            Next(s, a) == Some(next) && Taken(next) == Taken(s) && next.returned == s.returned && AllDone(next)
    ensures s.completed == |s.workers| ==> MainSteps(MainStep(s, a).value) < MainSteps(s) || s.main.Waiting?
  {
  }

  /** With all workers finished the main thread runs to its end. */
  lemma {:induction false} AllDoneFinishes(s: State)
    requires Inv(s) && AllDone(s)
    ensures exists t :: Leads(s, t) && t.main == Finished(Taken(s)) && t.returned == s.returned
    decreases MainSteps(s)
  {
    hide Leads, MainStep, Next, NumPast;
    if s.main.Finished? {
      LeadsSelf(s);
    } else {
      AllPast(s.workers);
      MutexFreeOfWorkers(s);
      MainNotStuck(s);
      var a :| MainStep(s, a).Some?;
      MainKeepsInv(s, a);
      MainStepFacts(s, a);
      var next := MainStep(s, a).value;
      AllDoneFinishes(next);
      var t :| Leads(next, t) && t.main == Finished(Taken(next)) && t.returned == next.returned;
      LeadsFirst(s, a, next, t);
    }
  }

  /** How many steps a worker has left. */
  function WorkerSteps(w: Worker): nat {
    match w
    case Running => 9
    case Returned(_) => 8
    case Counted(_) => 7
    case Stored(_) => 6
    case SawAll(_) => 5
    case Overwriting(_) => 4
    case WantsLock => 3
    case HasLock => 2
    case Notified => 1
    case Done => 0
  }

  /** The next step of a worker. */
  function StepOf(w: Worker, i: nat): Action {
    match w
    case Running => RunServerReturns(i, NO_RESULT)
    case Returned(_) => Count(i)
    case Counted(_) => Store(i)
    case Stored(_) => Check(i)
    case SawAll(_) => CheckSuccess(i)
    case Overwriting(_) => Overwrite(i)
    case WantsLock => Acquire(i)
    case HasLock => Notify(i)
    case Notified => Release(i)
    case Done => Release(i)
  }

  /** The main thread is in the wait or before it, without the mutex. */
  predicate Outside(m: Main) { m.Starting? || m.Waiting? || m.Woken? }

  lemma WorkerMoves(s: State, i: nat)
    requires Inv(s) && i < |s.workers| && !s.workers[i].Done? && Outside(s.main)
    requires s.mutex.None? || s.mutex == Some(WorkerThread(i))
    ensures var a := StepOf(s.workers[i], i);
            && WorkerStep(s, a).Some? && Next(s, a) == WorkerStep(s, a)
            && var next := WorkerStep(s, a).value;
               |next.workers| == |s.workers| && Outside(next.main)
               && WorkerSteps(next.workers[i]) < WorkerSteps(s.workers[i])
               && (next.mutex.None? || next.mutex == Some(WorkerThread(i)))
               && forall j :: 0 <= j < |s.workers| && j != i ==> next.workers[j] == s.workers[j]
  {
    hide NumPast;
    assert WorkerOk(s, i);
  }

  /** While the main thread does not hold the mutex, a worker that can get it runs to its end. */
  lemma {:induction false} RunsToEnd(s: State, i: nat) returns (t: State)
    requires Inv(s) && i < |s.workers| && Outside(s.main)
    requires s.mutex.None? || s.mutex == Some(WorkerThread(i))
    ensures Leads(s, t) && Inv(t) && Outside(t.main) && t.mutex.None?
    ensures |t.workers| == |s.workers| && t.workers[i].Done?
    ensures forall j :: 0 <= j < |s.workers| && j != i ==> t.workers[j] == s.workers[j]
    decreases WorkerSteps(s.workers[i])
  {
    hide Leads, NumPast, WorkerStep, Next;
    if s.workers[i].Done? {
      assert WorkerOk(s, i);
      t := s;
      LeadsSelf(s);
    } else {
      WorkerMoves(s, i);
      var a := StepOf(s.workers[i], i);
      var next := WorkerStep(s, a).value;
      WorkerKeepsInv(s, a);
      t := RunsToEnd(next, i);
      LeadsFirst(s, a, next, t);
    }
  }

  lemma {:induction false} AllRunToEnd(s: State, k: nat) returns (t: State)
    requires Inv(s) && k <= |s.workers| && Outside(s.main) && s.mutex.None?
    requires forall j :: 0 <= j < k ==> s.workers[j].Done?
    ensures Leads(s, t) && Inv(t) && AllDone(t)
    decreases |s.workers| - k
  {
    hide Leads, Inv;
    if k == |s.workers| {
      t := s;
      LeadsSelf(s);
    } else {
      var u := RunsToEnd(s, k);
      t := AllRunToEnd(u, k + 1);
      LeadsTrans(s, u, t);
    }
  }

  lemma OutsideFinishes(s: State)
    requires Inv(s) && Outside(s.main)
    ensures CanFinish(s)
  {
    hide Leads, NumPast;
    var u := s;
    LeadsSelf(s);
    if s.mutex.Some? { u := RunsToEnd(s, s.mutex.value.i); }
    var t := AllRunToEnd(u, 0);
    AllDoneFinishes(t);
    var end :| Leads(t, end) && end.main == Finished(Taken(t));
    LeadsTrans(u, t, end);
    LeadsTrans(s, u, end);
  }

  lemma {:induction false} DoomedForever(s: State, actions: seq<Action>, i: nat)
    requires Doomed(s, i) && Run(s, actions).Some?
    ensures Doomed(Run(s, actions).value, i)
  {
    hide Next, Doomed;
    if actions != [] {
      var before := actions[..|actions| - 1];
      DoomedForever(s, before, i);
      DoomedStep(Run(s, before).value, actions[|actions| - 1], i);
    }
  }

  lemma DoomedNeverFinishes(s: State, i: nat)
    requires Doomed(s, i)
    ensures !CanFinish(s)
  {
    hide Inv;
    forall t | Leads(s, t)
      ensures !t.main.Finished?
    {
      var actions :| Run(s, actions) == Some(t);
      DoomedForever(s, actions, i);
    }
  }

  /**
   * In every reachable state GetResult can still return, unless the main thread holds the mutex with the
   * counter complete while some worker has not finished; and then it never returns.
   */
  lemma ReturnsExactly(n: nat, actions: seq<Action>)
    requires Run(Start(n), actions).Some?
    ensures var s := Run(Start(n), actions).value;
            CanFinish(s) <==> AllDone(s) || !(s.main.HoldsMutex() && s.completed == n)
  {
    RunKeepsInv(n, actions);
    var s := Run(Start(n), actions).value;
    hide Run, Start, NumPast, CanFinish, Leads;
    if AllDone(s) {
      AllDoneFinishes(s);
      var t :| Leads(s, t) && t.main == Finished(Taken(s));
      FinishingIs(s, t);
    } else if s.main.HoldsMutex() && s.completed == n {
      var i :| 0 <= i < |s.workers| && !s.workers[i].Done?;
      DoomedNeverFinishes(s, i);
    } else if s.main.Testing? {
      var next := MainStep(s, MainTest).value;
      MainKeepsInv(s, MainTest);
      OutsideFinishes(next);
      FinishesFirst(s, MainTest, next);
    } else {
      OutsideFinishes(s);
    }
  }

  lemma FinishingIs(s: State, t: State)
    requires Leads(s, t) && t.main.Finished?
    ensures CanFinish(s)
  {
  }

  lemma FinishesFirst(s: State, a: Action, next: State)
    requires Next(s, a) == Some(next) && CanFinish(next)
    ensures CanFinish(s)
  {
    hide Next, Leads;
    var t :| Leads(next, t) && t.main.Finished?;
    LeadsFirst(s, a, next, t);
  }

  // ---- pieces of schedules ----

  /** A worker's call returns and is counted. */
  lemma ReturnsAndCounts(s: State, i: nat, r: UnlockResult) returns (t: State)
    requires |s.returned| == |s.workers| && i < |s.workers| && s.workers[i].Running?
    ensures t == s.(workers := s.workers[i := Counted(r)], returned := s.returned[i := Some(r)],
            completed := s.completed + 1)
    ensures Leads(s, t)
  {
    hide Leads;
    LeadsSelf(s);
    var a := s.(workers := s.workers[i := Returned(r)], returned := s.returned[i := Some(r)]);
    LeadsThen(s, s, RunServerReturns(i, r), a);
    t := a.(workers := a.workers[i := Counted(r)], completed := s.completed + 1);
    LeadsThen(s, a, Count(i), t);
    assert t.workers == s.workers[i := Counted(r)];
  }

  /** A counted worker stores, sees that all have completed, and looks for a success. */
  lemma StoresAndChecks(s: State, i: nat) returns (t: State)
    requires |s.returned| == |s.workers| == s.completed && i < |s.workers| && s.workers[i].Counted?
    ensures var r := s.workers[i].r;
            var current := if r.state.SUCCESS? then r else s.current;
            t == s.(workers := s.workers[i := if current.state.SUCCESS? then WantsLock else Overwriting(r)],
              current := current)
    ensures Leads(s, t)
  {
    hide Leads;
    LeadsSelf(s);
    var r := s.workers[i].r;
    var a := s.(workers := s.workers[i := Stored(r)], current := if r.state.SUCCESS? then r else s.current);
    LeadsThen(s, s, Store(i), a);
    var b := a.(workers := a.workers[i := SawAll(r)]);
    LeadsThen(s, a, Check(i), b);
    t := b.(workers := b.workers[i := if b.current.state.SUCCESS? then WantsLock else Overwriting(r)]);
    LeadsThen(s, b, CheckSuccess(i), t);
    assert t.workers == s.workers[i := t.workers[i]];
  }

  /** A worker takes the free mutex, notifies and ends. */
  lemma NotifiesAndEnds(s: State, i: nat) returns (t: State)
    requires |s.returned| == |s.workers| && i < |s.workers| && s.workers[i].WantsLock? && s.mutex.None?
    ensures t == s.(workers := s.workers[i := Done], main := if s.main.Waiting? then Woken else s.main)
    ensures Leads(s, t)
  {
    hide Leads;
    LeadsSelf(s);
    var a := s.(workers := s.workers[i := HasLock], mutex := Some(WorkerThread(i)));
    LeadsThen(s, s, Acquire(i), a);
    var b := a.(workers := a.workers[i := Notified], main := if s.main.Waiting? then Woken else s.main);
    LeadsThen(s, a, Notify(i), b);
    t := b.(workers := b.workers[i := Done], mutex := None);
    LeadsThen(s, b, Release(i), t);
    assert t.workers == s.workers[i := Done];
  }

  /** The main thread takes the free mutex and tests the counter. */
  lemma LocksAndTests(s: State) returns (t: State)
    requires |s.returned| == |s.workers| && (s.main.Starting? || s.main.Woken?) && s.mutex.None?
    ensures t == if s.completed == |s.workers| then s.(main := Decided, mutex := Some(MainThread))
            else s.(main := Waiting)
    ensures Leads(s, t)
  {
    hide Leads;
    LeadsSelf(s);
    var a := s.(main := Testing, mutex := Some(MainThread));
    LeadsThen(s, s, if s.main.Starting? then MainLock else MainRelock, a);
    t := if s.completed == |s.workers| then a.(main := Decided) else a.(main := Waiting, mutex := None);
    LeadsThen(s, a, MainTest, t);
  }

  /** The calls of the first k workers return and are counted. */
  lemma {:induction false} CountAll(s: State, rs: seq<UnlockResult>, k: nat) returns (t: State)
    requires |s.workers| == |s.returned| == |rs| && k <= |rs| && s.completed == 0
    requires forall i :: 0 <= i < |rs| ==> s.workers[i].Running?
    ensures Leads(s, t) && |t.workers| == |t.returned| == |rs| && t.completed == k
    ensures t.main == s.main && t.mutex == s.mutex && t.current == s.current
    ensures forall i :: 0 <= i < k ==> t.workers[i] == Counted(rs[i]) && t.returned[i] == Some(rs[i])
    ensures forall i :: k <= i < |rs| ==> t.workers[i].Running?
  {
    hide Leads;
    if k == 0 {
      t := s;
      LeadsSelf(s);
    } else {
      var u := CountAll(s, rs, k - 1);
      t := ReturnsAndCounts(u, k - 1, rs[k - 1]);
      LeadsTrans(s, u, t);
    }
  }

  /** Workers that want the free mutex end one after the other. */
  lemma {:induction false} EndAll(s: State, k: nat) returns (t: State)
    requires |s.workers| == |s.returned| && k <= |s.workers| && s.mutex.None? && (s.main.Waiting? || s.main.Woken?)
    requires forall i :: 0 <= i < k ==> s.workers[i].Done?
    requires forall i :: k <= i < |s.workers| ==> s.workers[i].WantsLock?
    ensures Leads(s, t) && |t.workers| == |s.workers| && AllDone(t)
    ensures t.returned == s.returned && t.completed == s.completed && t.current == s.current && t.mutex.None?
    ensures t.main == if k < |s.workers| then Woken else s.main
    decreases |s.workers| - k
  {
    hide Leads;
    if k == |s.workers| {
      t := s;
      LeadsSelf(s);
    } else {
      var u := NotifiesAndEnds(s, k);
      t := EndAll(u, k + 1);
      LeadsTrans(s, u, t);
    }
  }

  // ---- with how many workers a success can be lost ----

  /** GetResult has returned something else than a success although some RunServer call had returned one. */
  ghost predicate LostSuccess(s: State) {
    && s.main.Finished? && !s.main.result.state.SUCCESS?
    && exists i :: 0 <= i < |s.returned| && s.returned[i].Some? && s.returned[i].value.state.SUCCESS?
  }

  /** Failing workers from k on store their failure behind the others. */
  lemma {:induction false} OverwriteAll(s: State, k: nat, late: UnlockResult) returns (t: State)
    requires |s.workers| == |s.returned| == s.completed && k <= |s.workers|
    requires s.current == late && !late.state.SUCCESS?
    requires forall i :: 0 <= i < k ==> s.workers[i].WantsLock?
    requires forall i :: k <= i < |s.workers| ==> s.workers[i] == Counted(late)
    ensures Leads(s, t) && |t.workers| == |s.workers| && forall i :: 0 <= i < |t.workers| ==> t.workers[i].WantsLock?
    ensures t == s.(workers := t.workers)
    decreases |s.workers| - k
  {
    hide Leads;
    if k == |s.workers| {
      t := s;
      LeadsSelf(s);
    } else {
      var u := StoresAndChecks(s, k);
      var v := u.(workers := u.workers[k := WantsLock], current := late);
      LeadsThen(s, u, Overwrite(k), v);
      t := OverwriteAll(v, k + 1, late);
      LeadsTrans(s, v, t);
    }
  }

  /** Worker 1 finds no success before worker 0 stores one, and stores its failure afterwards. */
  lemma OverwritesSuccess(s: State, ok: UnlockResult, late: UnlockResult) returns (t: State)
    requires |s.workers| == |s.returned| == s.completed && s.completed >= 2 && s.current == NO_RESULT
    requires ok.state.SUCCESS? && !late.state.SUCCESS?
    requires s.workers[0] == Counted(ok) && forall i :: 1 <= i < |s.workers| ==> s.workers[i] == Counted(late)
    ensures Leads(s, t) && |t.workers| == |s.workers| && forall i :: 0 <= i < |t.workers| ==> t.workers[i].WantsLock?
    ensures t == s.(workers := t.workers, current := late)
  {
    hide Leads;
    var a := StoresAndChecks(s, 1);
    var b := StoresAndChecks(a, 0);
    LeadsTrans(s, a, b);
    var c := b.(workers := b.workers[1 := WantsLock], current := late);
    LeadsThen(s, b, Overwrite(1), c);
    t := OverwriteAll(c, 2, late);
    LeadsTrans(s, c, t);
  }

  /**
   * With two or more workers a success can be lost: the first one succeeds, yet GetResult returns another one's
   * failure.
   */
  lemma SuccessCanBeLost(n: nat, ok: UnlockResult, late: UnlockResult)
    requires n >= 2 && ok.state.SUCCESS? && !late.state.SUCCESS?
    ensures exists t :: Leads(Start(n), t) && LostSuccess(t) && t.main == Finished(late)
  {
    hide Leads, Next, NumPast;
    var s := Start(n);
    var rs := seq(n, i => if i == 0 then ok else late);
    var a := LocksAndTests(s);
    var b := CountAll(a, rs, n);
    LeadsTrans(s, a, b);
    var c := OverwritesSuccess(b, ok, late);
    LeadsTrans(s, b, c);
    var d := EndAll(c, 0);
    LeadsTrans(s, c, d);
    LeadsKeepsInv(n, d);
    AllDoneFinishes(d);
    var t :| Leads(d, t) && t.main == Finished(Taken(d)) && t.returned == d.returned;
    LeadsTrans(s, d, t);
    assert t.returned[0] == Some(ok);
  }

  lemma LeadsKeepsInv(n: nat, s: State)
    requires Leads(Start(n), s)
    ensures Inv(s) && |s.workers| == n
  {
    hide Inv;
    var actions :| Run(Start(n), actions) == Some(s);
    RunKeepsInv(n, actions);
  }

  lemma OneWorkerKeepsSuccess(n: nat, t: State)
    requires n <= 1 && Leads(Start(n), t)
    ensures !LostSuccess(t)
  {
    hide Inv, Next;
    var actions :| Run(Start(n), actions) == Some(t);
    RunShape(n, actions);
    if n == 1 && t.main.Finished? { ResultIsSomeones(n, actions); }
  }

  lemma RunShape(n: nat, actions: seq<Action>)
    requires Run(Start(n), actions).Some?
    ensures |Run(Start(n), actions).value.returned| == n
  {
    RunKeepsInv(n, actions);
  }

  /** A success can be lost if and only if there are at least two connections. */
  lemma SuccessIsLostExactly(n: nat)
    ensures (exists t :: Leads(Start(n), t) && LostSuccess(t)) <==> n >= 2
  {
    hide Leads, LostSuccess, Start;
    if n >= 2 {
      SuccessCanBeLost(n, UnlockResult(SUCCESS, "", ""), UnlockResult(TIMEOUT, "", ""));
    } else {
      forall t | Leads(Start(n), t)
        ensures !LostSuccess(t)
      {
        OneWorkerKeepsSuccess(n, t);
      }
    }
  }

  // ---- deadlock ----

  /** Succeeding workers from k on store and then want the mutex. */
  lemma {:induction false} StoreAll(s: State, k: nat, r: UnlockResult) returns (t: State)
    requires |s.workers| == |s.returned| == s.completed && k <= |s.workers| && r.state.SUCCESS?
    requires forall i :: 0 <= i < k ==> s.workers[i].WantsLock?
    requires forall i :: k <= i < |s.workers| ==> s.workers[i] == Counted(r)
    ensures Leads(s, t) && |t.workers| == |s.workers| && forall i :: 0 <= i < |t.workers| ==> t.workers[i].WantsLock?
    ensures t == s.(workers := t.workers, current := t.current)
    decreases |s.workers| - k
  {
    hide Leads;
    if k == |s.workers| {
      t := s;
      LeadsSelf(s);
    } else {
      var u := StoresAndChecks(s, k);
      t := StoreAll(u, k + 1, r);
      LeadsTrans(s, u, t);
    }
  }

  /** Nobody can move. */
  ghost predicate Stuck(s: State) { forall a :: Next(s, a).None? }

  /**
   * With any number of workers: they count themselves, the main thread goes on to join them, and they want the
   * mutex.
   */
  lemma DeadlockIsReachable(n: nat)
    requires n >= 1
    ensures exists t :: Leads(Start(n), t) && !t.main.Finished? && Stuck(t)
  {
    hide Leads;
    var s, r := Start(n), UnlockResult(SUCCESS, "", "");
    var a := CountAll(s, seq(n, i => r), n);
    var b := LocksAndTests(a);
    LeadsTrans(s, a, b);
    var c := StoreAll(b, 0, r);
    LeadsTrans(s, b, c);
    var d := c.(main := Cleanup(c.current));
    LeadsThen(s, c, MainLoad, d);
    var t := c.(main := Joining(c.current, 0));
    LeadsThen(s, d, DeleteBroadcaster, t);
    JoiningIsStuck(t);
  }

  lemma JoiningIsStuck(s: State)
    requires |s.workers| > 0 && s.main.Joining? && s.main.k == 0 && s.mutex.Some?
    requires forall i :: 0 <= i < |s.workers| ==> s.workers[i].WantsLock?
    ensures Stuck(s)
  {
  }
}
