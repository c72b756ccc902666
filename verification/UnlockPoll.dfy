// The poll loop of UnlockHandler::RunServer (common/src/handler/UnlockHandler.cpp, lines 114-187). What
// the loop observes in each turn is a parameter; two reads of the same flag in a turn may differ.
module UnlockPoll {
  import opened Options
  import opened UnlockStates
  import opened UnlockJoin

  const CRYPT_PACKET_TIMEOUT := 120000

  /** One turn's observations, in the order in which the loop makes them. */
  datatype Turn = Turn(otherSucceeded: bool, running: bool, clientAtStart: bool, polled: UnlockState,
                       clientAtTimeout: bool, elapsed: int, cancelKeys: bool, clientAtEnd: bool)

  /** The state a turn ends the loop with, if it does. */
  function Verdict(t: Turn): Option<UnlockState> {
    if t.otherSucceeded || !t.running then Some(CANCELED)
    else if t.polled != UNKNOWN then Some(t.polled)
    else if !t.clientAtTimeout && t.elapsed > CRYPT_PACKET_TIMEOUT then Some(TIMEOUT)
    else if t.cancelKeys then Some(CANCELED)
    else None
  }

  /** The password is the stored one decrypted with the key from the response, when that is possible. */
  function Result(state: UnlockState, device: string, password: Option<string>): UnlockResult {
    if password.None? && state.SUCCESS? then UnlockResult(DATA_ERROR, "", "")
    else UnlockResult(state, device, if password.Some? then password.value else "")
  }

  /** A call of udpBroadcaster->Start or ->Stop. */
  datatype Call = StartBroadcast | StopBroadcast

  /** Stop, start, stop, and so on. */
  ghost predicate Alternate(calls: seq<Call>) {
    forall k :: 0 <= k < |calls| ==> calls[k] == if k % 2 == 0 then StopBroadcast else StartBroadcast
  }

  /** Turn k is the first one with a verdict. */
  ghost predicate Decides(turns: seq<Turn>, k: int) {
    0 <= k < |turns| && Verdict(turns[k]).Some? && forall j :: 0 <= j < k ==> Verdict(turns[j]).None?
  }

  /** The turn that decides is one of a running handler without another success, and polls a success. */
  ghost predicate Succeeds(turns: seq<Turn>) {
    exists k :: Decides(turns, k) && turns[k].polled.SUCCESS? && turns[k].running && !turns[k].otherSucceeded
  }

  /** The handler was stopped, or another connection has succeeded. */
  predicate Stops(t: Turn) { t.otherSucceeded || !t.running }

  /** Nobody has been connected for more than two minutes since the start. */
  predicate Expires(t: Turn) { !t.clientAtTimeout && t.elapsed > 120000 }

  /** The turn shows nothing that ends the loop. */
  predicate GoesOn(t: Turn) { !Stops(t) && t.polled.UNKNOWN? && !Expires(t) && !t.cancelKeys }

  /** What the result says about the observations of the turn that ended the loop. */
  predicate Explains(t: Turn, r: UnlockResult, device: string, password: Option<string>) {
    var noState := !Stops(t) && t.polled.UNKNOWN?;
    var noPassword := !Stops(t) && t.polled.SUCCESS? && password.None?;
    && (r.state.TIMEOUT? <==> (noState && Expires(t)) || (!Stops(t) && t.polled.TIMEOUT?))
    && (r.state.CANCELED? <==>
          Stops(t) || (noState && !Expires(t) && t.cancelKeys) || (!Stops(t) && t.polled.CANCELED?))
    && (r.state.SUCCESS? <==> !Stops(t) && t.polled.SUCCESS? && password.Some?)
    && (r.state.DATA_ERROR? <==> noPassword || (!Stops(t) && t.polled.DATA_ERROR?))
    && (!Stops(t) && !noState && !noPassword ==> r.state == t.polled)
    && r.device == (if noPassword then "" else device)
    && r.password == (if password.Some? then password.value else "")
  }

  /** The loop ended with turn k, and this is why. */
  ghost predicate EndedBy(turns: seq<Turn>, k: int, r: UnlockResult, device: string, password: Option<string>) {
    && 0 <= k < |turns| && !GoesOn(turns[k]) && (forall j :: 0 <= j < k ==> GoesOn(turns[j]))
    && Explains(turns[k], r, device, password)
  }

  /** The observations that explain a verdict, and that there is none without them. */
  lemma VerdictIsExplained(t: Turn, device: string, password: Option<string>)
    ensures Verdict(t).None? <==> GoesOn(t)
    ensures Verdict(t).Some? ==> Explains(t, Result(Verdict(t).value, device, password), device, password)
  {
  }

  /** Whether the thread waits for a connection after the first n turns, when it did so before or not. */
  predicate WaitsAfter(before: bool, turns: seq<Turn>, n: nat)
    requires n <= |turns|
  {
    if n == 0 then before
    else !turns[n - 1].clientAtEnd || (WaitsAfter(before, turns, n - 1) && !turns[n - 1].clientAtStart)
  }

  class ServerLoop {
    var isWaitingForConnection: bool
    var calls: seq<Call>

    constructor ()
      ensures isWaitingForConnection && calls == []
    {
      isWaitingForConnection, calls := true, [];
    }

    /** The thread's own calls alternate, and the broadcast is on exactly while it waits for a connection. */
    ghost predicate Balanced()
      reads this
    {
      Alternate(calls) && (isWaitingForConnection <==> |calls| % 2 == 0)
    }

    method SeesClient(hasClient: bool)
      requires Balanced()
      modifies this
      ensures Balanced() && (isWaitingForConnection <==> old(isWaitingForConnection) && !hasClient)
      ensures calls == if old(isWaitingForConnection) && hasClient then old(calls) + [StopBroadcast] else old(calls)
    {
      if hasClient && isWaitingForConnection {
        isWaitingForConnection := false;
        calls := calls + [StopBroadcast];
      }
    }

    method MissesClient(hasClient: bool)
      requires Balanced()
      modifies this
      ensures Balanced() && (isWaitingForConnection <==> old(isWaitingForConnection) || !hasClient)
      ensures calls == if !old(isWaitingForConnection) && !hasClient then old(calls) + [StartBroadcast] else old(calls)
    {
      if !hasClient && !isWaitingForConnection {
        isWaitingForConnection := true;
        calls := calls + [StartBroadcast];
      }
    }

    /** The result of the first turn with a verdict; None when all given turns pass without one. */
    method RunServer(started: bool, turns: seq<Turn>, device: string, password: Option<string>)
                     returns (r: Option<UnlockResult>)
      requires Balanced()
      modifies this
      ensures Balanced()
      ensures !started ==> r == Some(UnlockResult(START_ERROR, "", ""))
      ensures started && r.None? ==> forall j :: 0 <= j < |turns| ==> Verdict(turns[j]).None?
      ensures started && r.Some? ==>
              exists k :: Decides(turns, k) && r.value == Result(Verdict(turns[k]).value, device, password)
      ensures r.Some? ==> (r.value.state.SUCCESS? <==> started && Succeeds(turns) && password.Some?)
      ensures r.Some? && r.value.state.SUCCESS? ==> r.value.device == device && password == Some(r.value.password)
      ensures started ==> (r.None? <==> forall j :: 0 <= j < |turns| ==> GoesOn(turns[j]))
      ensures started && r.Some? ==> exists k ::
                && EndedBy(turns, k, r.value, device, password)
                && isWaitingForConnection == (WaitsAfter(old(isWaitingForConnection), turns, k)
                                              && (Stops(turns[k]) || !turns[k].clientAtStart))
      ensures started && r.None? ==> isWaitingForConnection == WaitsAfter(old(isWaitingForConnection), turns, |turns|)
    {
      if !started {
        return Some(UnlockResult(START_ERROR, "", ""));
      }
      hide Explains, GoesOn;
      for k := 0 to |turns|
        invariant Balanced()
        invariant forall j :: 0 <= j < k ==> Verdict(turns[j]).None? && GoesOn(turns[j])
        invariant isWaitingForConnection == WaitsAfter(old(isWaitingForConnection), turns, k)
      {
        var t := turns[k];
        VerdictIsExplained(t, device, password);
        if t.otherSucceeded || !t.running {
          assert Decides(turns, k);
          assert EndedBy(turns, k, Result(CANCELED, device, password), device, password);
          return Some(Result(CANCELED, device, password));
        }
        SeesClient(t.clientAtStart);
        var state := t.polled;
        if state == UNKNOWN && !t.clientAtTimeout && t.elapsed > CRYPT_PACKET_TIMEOUT {
          state := TIMEOUT;
        } else if state == UNKNOWN && t.cancelKeys {
          state := CANCELED;
        }
        if state != UNKNOWN {
          assert Decides(turns, k);
          assert EndedBy(turns, k, Result(state, device, password), device, password);
          return Some(Result(state, device, password));
        }
        MissesClient(t.clientAtEnd);
      }
      r := None;
    }
  }
}
