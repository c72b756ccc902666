// The thread join of UnlockHandler::GetResult (common/src/handler/UnlockHandler.cpp, lines 67-112): N
// workers, a completion counter, a mutex and a condition variable, as interleaved atomic steps.
module UnlockJoin {
  import opened Options
  import opened UnlockStates

  datatype UnlockResult = UnlockResult(state: UnlockState, device: string, password: string)

  const NO_RESULT := UnlockResult(UNKNOWN, "", "")

  /** Where a worker thread stands; `r` is what its RunServer call returned. */
  datatype Worker =
    | Running
    | Returned(r: UnlockResult)
    | Counted(r: UnlockResult)
    | Stored(r: UnlockResult)
    | SawAll(r: UnlockResult)
    | Overwriting(r: UnlockResult)
    | WantsLock
    | HasLock
    | Notified
    | Done
  {
    /** fetch_add has been executed. */
    predicate Past() { !Running? && !Returned? }

    predicate HoldsMutex() { HasLock? || Notified? }

    /** The worker has counted itself and may still store its result. */
    predicate MayStore() { Counted? || Stored? || SawAll? || Overwriting? }

    /** The worker has yet to call notify_one, if it finds that all have completed. */
    predicate MayNotify() { Past() && !Notified? && !Done? }
  }

  /** Where the main thread stands. From Decided on it holds the mutex until it returns. */
  datatype Main =
    | Starting | Testing | Waiting | Woken
    | Decided
    | Cleanup(result: UnlockResult)
    | Joining(result: UnlockResult, k: nat)
    | Deleting(result: UnlockResult)
    | Finished(result: UnlockResult)
  {
    predicate PastWait() { Decided? || Cleanup? || Joining? || Deleting? || Finished? }

    predicate HoldsMutex() { Testing? || (PastWait() && !Finished?) }
  }

  datatype Owner = MainThread | WorkerThread(i: nat)

  /** `returned` records what every RunServer call has returned so far. */
  datatype State = State(workers: seq<Worker>, returned: seq<Option<UnlockResult>>, main: Main,
                         mutex: Option<Owner>, completed: nat, current: UnlockResult)

  datatype Action =
    | RunServerReturns(i: nat, r: UnlockResult) | Count(i: nat) | Store(i: nat) | Check(i: nat)
    | CheckSuccess(i: nat) | Overwrite(i: nat) | Acquire(i: nat) | Notify(i: nat) | Release(i: nat)
    | MainLock | MainTest | SpuriousWakeup | MainRelock
    | MainLoad | DeleteBroadcaster | Join | DeleteConnections

  function Start(n: nat): State {
    State(seq(n, i => Running), seq(n, i => None), Starting, None, 0, NO_RESULT)
  }

  // ---- the steps ----

  predicate At(s: State, i: nat) { i < |s.workers| && |s.returned| == |s.workers| }

  function Moved(s: State, i: nat, w: Worker): State
    requires i < |s.workers|
  {
    s.(workers := s.workers[i := w])
  }

  /** One step of worker i; None when it is not at that point or has to wait. */
  function WorkerStep(s: State, a: Action): Option<State>
    requires |s.returned| == |s.workers|
  {
    match a
    case RunServerReturns(i, r) =>
      if At(s, i) && s.workers[i].Running? then Some(Moved(s, i, Returned(r)).(returned := s.returned[i := Some(r)]))
      else None
    case Count(i) =>
      if At(s, i) && s.workers[i].Returned?
      then Some(Moved(s, i, Counted(s.workers[i].r)).(completed := s.completed + 1)) else None
    case Store(i) =>
      if At(s, i) && s.workers[i].Counted? then
        var r := s.workers[i].r;
        Some(Moved(s, i, Stored(r)).(current := if r.state.SUCCESS? then r else s.current))
      else None
    case Check(i) =>
      if At(s, i) && s.workers[i].Stored? then
        Some(Moved(s, i, if s.completed == |s.workers| then SawAll(s.workers[i].r) else Done))
      else None
    case CheckSuccess(i) =>
      if At(s, i) && s.workers[i].SawAll? then
        Some(Moved(s, i, if !s.current.state.SUCCESS? then Overwriting(s.workers[i].r) else WantsLock))
      else None
    case Overwrite(i) =>
      if At(s, i) && s.workers[i].Overwriting? then Some(Moved(s, i, WantsLock).(current := s.workers[i].r)) else None
    case Acquire(i) =>
      if At(s, i) && s.workers[i].WantsLock? && s.mutex.None?
      then Some(Moved(s, i, HasLock).(mutex := Some(WorkerThread(i)))) else None
    case Notify(i) =>
      if At(s, i) && s.workers[i].HasLock? then
        Some(Moved(s, i, Notified).(main := if s.main.Waiting? then Woken else s.main))
      else None
    case Release(i) =>
      if At(s, i) && s.workers[i].Notified? then Some(Moved(s, i, Done).(mutex := None)) else None
    case _ => None
  }

  /** One step of the main thread; joining blocks until the worker's thread has ended. */
  function MainStep(s: State, a: Action): Option<State> {
    match a
    case MainLock => if s.main.Starting? && s.mutex.None? then Some(s.(main := Testing, mutex := Some(MainThread)))
      else None
    case MainTest =>
      if s.main.Testing? then
        Some(if s.completed == |s.workers| then s.(main := Decided) else s.(main := Waiting, mutex := None))
      else None
    case SpuriousWakeup => if s.main.Waiting? then Some(s.(main := Woken)) else None
    case MainRelock => if s.main.Woken? && s.mutex.None? then Some(s.(main := Testing, mutex := Some(MainThread)))
      else None
    case MainLoad => if s.main.Decided? then Some(s.(main := Cleanup(s.current))) else None
    case DeleteBroadcaster => if s.main.Cleanup? then Some(s.(main := Joining(s.main.result, 0))) else None
    case Join =>
      if !s.main.Joining? then None
      else if s.main.k >= |s.workers| then Some(s.(main := Deleting(s.main.result)))
      else if s.workers[s.main.k].Done? then Some(s.(main := Joining(s.main.result, s.main.k + 1)))
      else None
    case DeleteConnections => if s.main.Deleting? then Some(s.(main := Finished(s.main.result), mutex := None))
      else None
    case _ => None
  }

  function Next(s: State, a: Action): Option<State> {
    if |s.returned| != |s.workers| then None
    else if a.MainLock? || a.MainTest? || a.SpuriousWakeup? || a.MainRelock? || a.MainLoad? || a.DeleteBroadcaster?
            || a.Join?
            || a.DeleteConnections?
    then MainStep(s, a)
    else WorkerStep(s, a)
  }

  /** The state after a sequence of steps, if each of them can be taken. */
  function Run(s: State, actions: seq<Action>): Option<State> {
    if actions == [] then Some(s)
    else
      match Run(s, actions[..|actions| - 1])
      case None => None
      case Some(before) => Next(before, actions[|actions| - 1])
  }

  // ---- counting ----

  function NumPast(workers: seq<Worker>): (k: nat)
    ensures k <= |workers|
  {
    if workers == [] then 0
    else NumPast(workers[..|workers| - 1]) + if workers[|workers| - 1].Past() then 1 else 0
  }

  lemma {:induction false} NumPastMoved(workers: seq<Worker>, i: nat, w: Worker)
    requires i < |workers|
    ensures NumPast(workers[i := w])
            == NumPast(workers) + (if w.Past() then 1 else 0) - (if workers[i].Past() then 1 else 0)
  {
    var n := |workers| - 1;
    if i == n {
      assert workers[i := w][..n] == workers[..n];
    } else {
      NumPastMoved(workers[..n], i, w);
      assert workers[i := w][..n] == workers[..n][i := w];
    }
  }

  lemma {:induction false} AllPast(workers: seq<Worker>)
    ensures NumPast(workers) == |workers| <==> forall i :: 0 <= i < |workers| ==> workers[i].Past()
  {
    if workers != [] { AllPast(workers[..|workers| - 1]); }
  }

  lemma {:induction false} NonePast(n: nat)
    ensures NumPast(seq(n, i => Running)) == 0
  {
    if n > 0 {
      NonePast(n - 1);
      assert seq<Worker>(n, i => Running)[..n - 1] == seq<Worker>(n - 1, i => Running);
    }
  }

  // ---- the invariant ----

  /** What a worker carries is what its own RunServer call returned. */
  ghost predicate WorkerOk(s: State, i: int)
    requires |s.returned| == |s.workers| && 0 <= i < |s.workers|
  {
    var w := s.workers[i];
    && (w.Running? <==> s.returned[i].None?)
    && (w.Returned? || w.Counted? || w.Stored? || w.SawAll? || w.Overwriting? ==> s.returned[i] == Some(w.r))
    && (w.SawAll? || w.Overwriting? || w.WantsLock? || w.HoldsMutex() ==> s.completed == |s.workers|)
    && (w.HoldsMutex() <==> s.mutex == Some(WorkerThread(i)))
  }

  ghost predicate Inv(s: State) {
    && |s.returned| == |s.workers|
    && s.completed == NumPast(s.workers)
    && (forall i :: 0 <= i < |s.workers| ==> WorkerOk(s, i))
    && (s.main.HoldsMutex() <==> s.mutex == Some(MainThread))
    && (s.mutex.Some? && s.mutex.value.WorkerThread? ==> s.mutex.value.i < |s.workers|)
    && (s.main.PastWait() ==> s.completed == |s.workers|)
    && (s.main.Waiting? && s.completed == |s.workers| ==>
       |s.workers| > 0 && exists i :: 0 <= i < |s.workers| && s.workers[i].MayNotify())
    && (s.main.Joining? ==> s.main.k <= |s.workers| && forall i :: 0 <= i < s.main.k ==> s.workers[i].Done?)
    && (s.main.Deleting? || s.main.Finished? ==> forall i :: 0 <= i < |s.workers| ==> s.workers[i].Done?)
  }

  /** The stored result is the initial one or what some RunServer call returned; so is the one main took. */
  ghost predicate Sound(s: State) {
    && (s.current == NO_RESULT || FromSome(s, s.current))
    && (s.completed == |s.workers| > 0 ==>
       FromSome(s, s.current) || exists i :: 0 <= i < |s.workers| && s.workers[i].MayStore())
    && (s.main.Cleanup? || s.main.Joining? || s.main.Deleting? || s.main.Finished? ==>
       s.main.result == NO_RESULT || FromSome(s, s.main.result))
  }

  ghost predicate FromSome(s: State, r: UnlockResult) {
    exists i :: 0 <= i < |s.returned| && s.returned[i] == Some(r)
  }

  lemma StartInv(n: nat)
    ensures Inv(Start(n)) && Sound(Start(n))
  {
    NonePast(n);
  }

  /** A worker's step leaves every worker in order. */
  lemma WorkerStaysOk(s: State, a: Action, j: nat)
    requires Inv(s) && WorkerStep(s, a).Some? && j < |s.workers|
    ensures WorkerOk(WorkerStep(s, a).value, j)
  {
    hide NumPast;
    assert WorkerOk(s, j) && WorkerOk(s, a.i);
    AllPast(s.workers);
  }

  /** Whoever may still notify keeps a waiting main thread from being forgotten. */
  lemma SomeoneNotifies(s: State, a: Action)
    requires Inv(s) && WorkerStep(s, a).Some?
    ensures var next := WorkerStep(s, a).value;
            next.main.Waiting? && next.completed == |next.workers| ==>
              exists i :: 0 <= i < |next.workers| && next.workers[i].MayNotify()
  {
    hide NumPast;
    var next := WorkerStep(s, a).value;
    assert WorkerOk(s, a.i);
    if next.main.Waiting? && next.completed == |next.workers| {
      if a.Count? {
        assert next.workers[a.i].MayNotify();
      } else {
        var j :| 0 <= j < |s.workers| && s.workers[j].MayNotify();
        assert next.workers[j].MayNotify();
      }
    }
  }

  lemma MutexInOrder(s: State, a: Action)
    requires Inv(s) && WorkerStep(s, a).Some?
    ensures var next := WorkerStep(s, a).value;
            next.main.HoldsMutex() <==> next.mutex == Some(MainThread)
  {
    hide NumPast;
    assert WorkerOk(s, a.i);
  }

  lemma WorkerKeepsInv(s: State, a: Action)
    requires Inv(s) && WorkerStep(s, a).Some?
    ensures Inv(WorkerStep(s, a).value)
  {
    hide WorkerOk, NumPast;
    var next := WorkerStep(s, a).value;
    NumPastMoved(s.workers, a.i, next.workers[a.i]);
    forall j | 0 <= j < |s.workers|
      ensures WorkerOk(next, j)
    {
      WorkerStaysOk(s, a, j);
    }
    SomeoneNotifies(s, a);
    MutexInOrder(s, a);
    AllPast(s.workers);
    AllPast(next.workers);
  }

  lemma MainKeepsInv(s: State, a: Action)
    requires Inv(s) && MainStep(s, a).Some?
    ensures Inv(MainStep(s, a).value)
  {
    hide NumPast;
    var next := MainStep(s, a).value;
    forall j | 0 <= j < |s.workers|
      ensures WorkerOk(next, j)
    {
      assert WorkerOk(s, j);
    }
  }

  lemma FromSomeStays(s: State, a: Action, r: UnlockResult)
    requires Inv(s) && FromSome(s, r) && Next(s, a).Some?
    ensures FromSome(Next(s, a).value, r)
  {
    var next := Next(s, a).value;
    var i :| 0 <= i < |s.returned| && s.returned[i] == Some(r);
    assert WorkerOk(s, i);
    assert next.returned[i] == Some(r);
  }

  lemma StepKeepsSound(s: State, a: Action)
    requires Inv(s) && Sound(s) && Next(s, a).Some?
    ensures Sound(Next(s, a).value)
  {
    hide FromSome, NumPast;
    var next := Next(s, a).value;
    if FromSome(s, s.current) { FromSomeStays(s, a, s.current); }
    if (s.main.Cleanup? || s.main.Joining? || s.main.Deleting?) && FromSome(s, s.main.result) {
      FromSomeStays(s, a, s.main.result);
    }
    if a.Store? || a.Overwrite? {
      assert WorkerOk(s, a.i);
      CarriedIsReturned(next, a.i, s.workers[a.i].r);
    }
    LastOneStores(s, a);
  }

  /** Once all have completed, somebody's result is stored or is still going to be. */
  lemma LastOneStores(s: State, a: Action)
    requires Inv(s) && Sound(s) && Next(s, a).Some?
    ensures var next := Next(s, a).value;
            next.completed == |next.workers| > 0 ==>
              FromSome(next, next.current) || exists i :: 0 <= i < |next.workers| && next.workers[i].MayStore()
  {
    hide FromSome, NumPast;
    var next := Next(s, a).value;
    if FromSome(s, s.current) { FromSomeStays(s, a, s.current); }
    if WorkerStep(s, a).Some? { assert WorkerOk(s, a.i); }
    if a.Store? || a.Overwrite? { CarriedIsReturned(next, a.i, s.workers[a.i].r); }
    if a.Count? {
      assert next.workers[a.i].MayStore();
    } else if next.completed == |next.workers| > 0 && !FromSome(s, s.current) && !a.Overwrite? {
      var j :| 0 <= j < |s.workers| && s.workers[j].MayStore();
      assert next.workers[j].MayStore();
    }
  }

  lemma CarriedIsReturned(s: State, i: nat, r: UnlockResult)
    requires i < |s.returned| && s.returned[i] == Some(r)
    ensures FromSome(s, r)
  {
  }

  lemma {:induction false} RunKeepsInv(n: nat, actions: seq<Action>)
    requires Run(Start(n), actions).Some?
    ensures var s := Run(Start(n), actions).value; Inv(s) && Sound(s) && |s.workers| == n
  {
    if actions == [] {
      StartInv(n);
    } else {
      var before, a := actions[..|actions| - 1], actions[|actions| - 1];
      RunKeepsInv(n, before);
      var s := Run(Start(n), before).value;
      StepKeepsSound(s, a);
      if MainStep(s, a).Some? { MainKeepsInv(s, a); } else { WorkerKeepsInv(s, a); }
    }
  }

  // ---- the main results ----

  predicate AllDone(s: State) { forall i :: 0 <= i < |s.workers| ==> s.workers[i].Done? }

  /**
   * No lost wake-up: once all workers have finished, the main thread is not left waiting and can always take a
   * step.
   */
  lemma NoLostWakeup(n: nat, actions: seq<Action>)
    requires n > 0 && Run(Start(n), actions).Some? && AllDone(Run(Start(n), actions).value)
    ensures var s := Run(Start(n), actions).value;
            !s.main.Waiting? && (s.main.Finished? || exists a :: MainStep(s, a).Some?)
  {
    RunKeepsInv(n, actions);
    var s := Run(Start(n), actions).value;
    AllPast(s.workers);
    MutexFreeOfWorkers(s);
    if !s.main.Finished? { MainNotStuck(s); }
  }

  lemma MutexFreeOfWorkers(s: State)
    requires Inv(s) && AllDone(s)
    ensures s.mutex.None? || s.mutex == Some(MainThread)
  {
    hide NumPast;
    var owner := if s.mutex.Some? && s.mutex.value.WorkerThread? then s.mutex.value.i else 0;
    if owner < |s.workers| { assert WorkerOk(s, owner); }
  }

  lemma MainNotStuck(s: State)
    requires AllDone(s) && !s.main.Waiting? && !s.main.Finished?
    requires if s.main.HoldsMutex() then true else s.mutex.None?
    ensures exists a :: MainStep(s, a).Some?
  {
    var a := match s.main
      case Starting => MainLock
      case Testing => MainTest
      case Waiting => SpuriousWakeup
      case Woken => MainRelock
      case Decided => MainLoad
      case Cleanup(_) => DeleteBroadcaster
      case Joining(_, _) => Join
      case Deleting(_) => DeleteConnections
      case Finished(_) => MainLock;
    assert MainStep(s, a).Some?;
  }

  /**
   * The broadcaster goes only after every RunServer call has returned, the connections after every thread has
   * ended.
   */
  lemma Lifetimes(n: nat, actions: seq<Action>)
    requires Run(Start(n), actions).Some?
    ensures var s := Run(Start(n), actions).value;
            && (s.main.PastWait() ==> forall i :: 0 <= i < |s.returned| ==> s.returned[i].Some?)
            && (s.main.Deleting? || s.main.Finished? ==> AllDone(s))
  {
    RunKeepsInv(n, actions);
    var s := Run(Start(n), actions).value;
    AllPast(s.workers);
    forall i | 0 <= i < |s.workers|
      ensures s.main.PastWait() ==> s.returned[i].Some?
    {
      assert WorkerOk(s, i);
    }
  }

  // ---- no way out ----

  /** The main thread has left the wait, or is about to, while worker i has not finished. */
  ghost predicate Doomed(s: State, i: nat) {
    && Inv(s) && i < |s.workers| && !s.workers[i].Done?
    && ((s.main.Testing? && s.completed == |s.workers|) || s.main.Decided? || s.main.Cleanup? || s.main.Joining?)
  }

  /** The worker needs the mutex that the main thread holds, and the main thread waits for the worker. */
  lemma DoomedStep(s: State, a: Action, i: nat)
    requires Doomed(s, i) && Next(s, a).Some?
    ensures Doomed(Next(s, a).value, i)
  {
    hide NumPast;
    assert WorkerOk(s, i);
    AllPast(s.workers);
    if MainStep(s, a).Some? { MainKeepsInv(s, a); } else { WorkerKeepsInv(s, a); }
  }

  // ---- what GetResult returns ----

  /** A result taken after all workers have finished is the one stored last. */
  ghost predicate TookLast(s: State) {
    s.main.Cleanup? || s.main.Joining? || s.main.Deleting? || s.main.Finished? ==>
      s.main.result == s.current || !AllDone(s)
  }

  lemma {:induction false} ResultIsLast(n: nat, actions: seq<Action>)
    requires Run(Start(n), actions).Some?
    ensures TookLast(Run(Start(n), actions).value)
  {
    if actions != [] {
      var before, a := actions[..|actions| - 1], actions[|actions| - 1];
      ResultIsLast(n, before);
      RunKeepsInv(n, before);
      TookLastStep(Run(Start(n), before).value, a);
    }
  }

  lemma TookLastStep(s: State, a: Action)
    requires Inv(s) && TookLast(s) && Next(s, a).Some?
    ensures TookLast(Next(s, a).value)
  {
    hide NumPast;
    var next := Next(s, a).value;
    if !AllDone(s) {
      var i :| 0 <= i < |s.workers| && !s.workers[i].Done?;
      if Doomed(s, i) { DoomedStep(s, a, i); }
    }
  }

  /** The returned result, a success in particular, is what one of the RunServer calls returned. */
  lemma ResultIsSomeones(n: nat, actions: seq<Action>)
    requires n > 0 && Run(Start(n), actions).Some? && Run(Start(n), actions).value.main.Finished?
    ensures var s := Run(Start(n), actions).value;
            |s.returned| == n && exists i :: 0 <= i < n && s.returned[i] == Some(s.main.result)
  {
    RunKeepsInv(n, actions);
    ResultIsLast(n, actions);
    Lifetimes(n, actions);
    var s := Run(Start(n), actions).value;
    AllPast(s.workers);
    assert FromSome(s, s.current);
  }

  // ---- when a success survives ----

  /** The worker's success, if it had one, has been stored on line 80. */
  predicate PastStore(w: Worker) { w.Past() && !w.Counted? }

  ghost predicate SomeSuccessStored(s: State)
    requires |s.returned| == |s.workers|
  {
    exists i :: 0 <= i < |s.workers| && PastStore(s.workers[i]) && s.returned[i].Some?
      && s.returned[i].value.state.SUCCESS?
  }

  /** No stored success is lost, unless a worker is about to overwrite, and then there is none. */
  ghost predicate Kept(s: State)
    requires |s.returned| == |s.workers|
  {
    && (SomeSuccessStored(s) ==> s.current.state.SUCCESS?)
    && (forall i :: 0 <= i < |s.workers| && s.workers[i].Overwriting? ==> !s.current.state.SUCCESS?)
  }

  /** Whenever a worker has found no success on line 82, its store on line 83 is the next step. */
  ghost predicate AtomicStores(n: nat, actions: seq<Action>) {
    forall k, i :: 0 <= k < |actions| && 0 <= i < n && IsOverwriting(Run(Start(n), actions[..k]), i) ==>
      actions[k] == Overwrite(i)
  }

  predicate IsOverwriting(s: Option<State>, i: int) {
    s.Some? && 0 <= i < |s.value.workers| && s.value.workers[i].Overwriting?
  }

  lemma SuccessKeptStep(s: State, a: Action, i: nat)
    requires Inv(s) && Kept(s) && Next(s, a).Some? && i < |s.workers|
    requires forall j :: 0 <= j < |s.workers| && s.workers[j].Overwriting? ==> a == Overwrite(j)
    requires var next := Next(s, a).value;
             |next.workers| == |s.workers| == |next.returned| && PastStore(next.workers[i])
             && next.returned[i].Some? && next.returned[i].value.state.SUCCESS?
    ensures Next(s, a).value.current.state.SUCCESS?
  {
    hide NumPast;
    if WorkerStep(s, a).Some? { assert WorkerOk(s, a.i); }
    assert WorkerOk(s, i);
  }

  lemma OverwritingKeptStep(s: State, a: Action)
    requires Inv(s) && Kept(s) && Next(s, a).Some?
    requires forall i :: 0 <= i < |s.workers| && s.workers[i].Overwriting? ==> a == Overwrite(i)
    ensures var next := Next(s, a).value;
            forall i :: 0 <= i < |next.workers| && next.workers[i].Overwriting? ==> !next.current.state.SUCCESS?
  {
    hide NumPast, WorkerOk;
  }

  lemma KeptStep(s: State, a: Action)
    requires Inv(s) && Kept(s) && Next(s, a).Some?
    requires forall i :: 0 <= i < |s.workers| && s.workers[i].Overwriting? ==> a == Overwrite(i)
    ensures |Next(s, a).value.returned| == |Next(s, a).value.workers| == |s.workers| && Kept(Next(s, a).value)
  {
    StepShape(s, a);
    hide NumPast, WorkerOk, Next;
    var next := Next(s, a).value;
    OverwritingKeptStep(s, a);
    if SomeSuccessStored(next) {
      var i :| 0 <= i < |next.workers| && PastStore(next.workers[i]) && next.returned[i].Some?
        && next.returned[i].value.state.SUCCESS?;
      SuccessKeptStep(s, a, i);
    }
  }

  lemma StepShape(s: State, a: Action)
    requires Next(s, a).Some?
    ensures |Next(s, a).value.returned| == |Next(s, a).value.workers| == |s.workers|
  {
  }

  lemma KeptStart(n: nat)
    ensures |Start(n).returned| == |Start(n).workers| && Kept(Start(n))
  {
  }

  lemma AtomicPrefix(n: nat, actions: seq<Action>)
    requires AtomicStores(n, actions) && actions != []
    ensures AtomicStores(n, actions[..|actions| - 1])
  {
    hide Run, IsOverwriting;
    var before := actions[..|actions| - 1];
    assert forall j :: 0 <= j < |before| ==> before[..j] == actions[..j] && before[j] == actions[j];
  }

  lemma {:induction false} AtomicKeeps(n: nat, actions: seq<Action>)
    requires Run(Start(n), actions).Some? && AtomicStores(n, actions)
    ensures var s := Run(Start(n), actions).value; |s.returned| == |s.workers| && Kept(s)
  {
    hide Next, WorkerOk, NumPast, Sound, Kept, Start;
    KeptStart(n);
    if actions != [] {
      var k := |actions| - 1;
      var before := actions[..k];
      AtomicPrefix(n, actions);
      AtomicKeeps(n, before);
      RunKeepsInv(n, before);
      var s := Run(Start(n), before).value;
      assert forall i :: 0 <= i < |s.workers| && s.workers[i].Overwriting? ==>
             IsOverwriting(Run(Start(n), actions[..k]), i);
      KeptStep(s, actions[k]);
    }
  }

  /** If lines 82 and 83 were one step, a success of any worker would always be the result. */
  lemma SuccessSurvivesAtomicStores(n: nat, actions: seq<Action>, i: nat)
    requires Run(Start(n), actions).Some? && AtomicStores(n, actions) && i < n
    requires var s := Run(Start(n), actions).value;
             s.main.Finished? && |s.returned| == n && s.returned[i].Some? && s.returned[i].value.state.SUCCESS?
    ensures Run(Start(n), actions).value.main.result.state.SUCCESS?
  {
    RunKeepsInv(n, actions);
    AtomicKeeps(n, actions);
    ResultIsLast(n, actions);
    Lifetimes(n, actions);
    var s := Run(Start(n), actions).value;
    assert s.workers[i].Done? && PastStore(s.workers[i]);
  }
}
