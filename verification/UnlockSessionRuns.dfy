// What holds over every run of an unlock session, with any packets on any number of sockets
// (common/src/connection/unlock/BaseUnlockConnection.cpp, lines 41-224).
module UnlockSessionRuns {
  import Framing
  import opened Options
  import opened UnlockSession

  lemma NoEvents(s: Session, devices: map<string, Device>)
    ensures Run(s, devices, []) == s
  {
  }

  lemma RunThen(s: Session, devices: map<string, Device>, events: seq<Event>, e: Event)
    ensures Run(s, devices, events + [e]) == Step(Run(s, devices, events), devices, e)
  {
    assert (events + [e])[..|events|] == events;
  }

  // ---- success ----

  /** A success means: the stored token is this session's, and it came from a socket that had been sent a request. */
  ghost predicate Honest(s: Session) {
    && (s.unlockState.SUCCESS? ==>
          s.response.unlockToken == s.unlockToken && s.answeredOn.Some? && s.answeredOn.value in s.requests)
    && (forall socket :: StateOf(s, socket).HAS_UNLOCK_REQUEST? || InPhase(s, socket, Written) ==> socket in s.requests)
  }

  lemma StepKeepsHonest(s: Session, devices: map<string, Device>, e: Event)
    requires Honest(s)
    ensures Honest(Step(s, devices, e)) && Step(s, devices, e).unlockToken == s.unlockToken
  {
    RequestsGrow(s, devices, e);
    SuccessStep(s, devices, e);
    hide Step, StateOf, InPhase;
    var next := Step(s, devices, e);
    forall socket | StateOf(next, socket).HAS_UNLOCK_REQUEST? || InPhase(next, socket, Written)
      ensures socket in next.requests
    {
      RequestStep(s, devices, e, socket);
    }
    if next.unlockState.SUCCESS? {
      var socket := next.answeredOn.value;
      assert socket in s.requests;
    }
  }

  /** A success is an old one, or comes with the token from a socket in the last connection state. */
  lemma SuccessStep(s: Session, devices: map<string, Device>, e: Event)
    ensures var next := Step(s, devices, e);
            && next.unlockToken == s.unlockToken
            && (next.unlockState.SUCCESS? ==>
                  || (s.unlockState.SUCCESS? && next.response == s.response && next.answeredOn == s.answeredOn)
                  || (e.Receive? && next.response.unlockToken == s.unlockToken && next.answeredOn == Some(e.socket)
                      && StateOf(s, e.socket).HAS_UNLOCK_REQUEST?))
  {
  }

  lemma RequestStep(s: Session, devices: map<string, Device>, e: Event, socket: Socket)
    ensures var next := Step(s, devices, e);
            StateOf(next, socket).HAS_UNLOCK_REQUEST? || InPhase(next, socket, Written) ==>
              StateOf(s, socket).HAS_UNLOCK_REQUEST? || InPhase(s, socket, Written) || socket in next.requests
  {
    hide Decrypt, ErrorState, SendFailure;
  }

  lemma RequestsGrow(s: Session, devices: map<string, Device>, e: Event)
    ensures forall socket :: socket in s.requests ==> socket in Step(s, devices, e).requests
  {
  }

  lemma {:induction false} SuccessIsHonest(s: Session, devices: map<string, Device>, events: seq<Event>)
    requires Fresh(s)
    ensures Honest(Run(s, devices, events)) && Run(s, devices, events).unlockToken == s.unlockToken
  {
    hide Step;
    if events != [] {
      SuccessIsHonest(s, devices, events[..|events| - 1]);
      StepKeepsHonest(Run(s, devices, events[..|events| - 1]), devices, events[|events| - 1]);
    }
  }

  // ---- one flow on one socket ----

  /** A client flow that has not recorded its request is in the state it began in. */
  ghost predicate FlowsInOrder(s: Session) {
    forall socket :: InPhase(s, socket, Sending) || InPhase(s, socket, Written) ==> StateOf(s, socket).HAS_DEVICE_ID?
  }

  lemma StepKeepsFlows(s: Session, devices: map<string, Device>, e: Event)
    requires FlowsInOrder(s)
    ensures FlowsInOrder(Step(s, devices, e))
  {
    hide Decrypt, ErrorState, SendFailure, ReadFailure;
    var next := Step(s, devices, e);
    forall socket | InPhase(next, socket, Sending) || InPhase(next, socket, Written)
      ensures StateOf(next, socket).HAS_DEVICE_ID?
    {
      if socket != e.socket { OtherSockets(s, devices, e, socket); }
    }
  }

  /** A step on one socket leaves the others alone. */
  lemma OtherSockets(s: Session, devices: map<string, Device>, e: Event, socket: Socket)
    requires socket != e.socket
    ensures var next := Step(s, devices, e);
            && StateOf(next, socket) == StateOf(s, socket)
            && (forall phase :: InPhase(next, socket, phase) <==> InPhase(s, socket, phase))
            && (socket in next.flows <==> socket in s.flows)
  {
  }

  lemma {:induction false} RunKeepsFlows(s: Session, devices: map<string, Device>, events: seq<Event>)
    requires FlowsInOrder(s)
    ensures FlowsInOrder(Run(s, devices, events))
  {
    hide Step, FlowsInOrder;
    if events != [] {
      RunKeepsFlows(s, devices, events[..|events| - 1]);
      StepKeepsFlows(Run(s, devices, events[..|events| - 1]), devices, events[|events| - 1]);
    }
  }

  /** No event restarts this socket's flow. */
  predicate SameFlow(events: seq<Event>, socket: Socket) {
    forall k :: 0 <= k < |events| ==> !(events[k].Begin? && events[k].socket == socket)
  }

  function Count(sockets: seq<Socket>, socket: Socket): nat {
    multiset(sockets)[socket]
  }

  lemma OneMore(sockets: seq<Socket>, other: Socket, socket: Socket)
    ensures Count(sockets + [other], socket) == Count(sockets, socket) + if other == socket then 1 else 0
  {
  }

  /** The requests the current flow on this socket has written. */
  function WrittenBy(s: Session, socket: Socket): nat {
    if StateOf(s, socket).HAS_UNLOCK_REQUEST? || InPhase(s, socket, Written) then 1 else 0
  }

  /**
   * Within a flow the connection state never moves backwards, and a flow that has written a request writes no
   * other.
   */
  lemma FlowStep(s: Session, devices: map<string, Device>, e: Event, socket: Socket)
    requires FlowsInOrder(s) && !(e.Begin? && e.socket == socket)
    ensures var next := Step(s, devices, e);
            && StateOf(s, socket).Rank() <= StateOf(next, socket).Rank()
            && Count(next.requests, socket) + WrittenBy(s, socket) == Count(s.requests, socket)
               + WrittenBy(next, socket)
  {
    hide Count, Decrypt, ErrorState, SendFailure;
    OneMore(s.requests, e.socket, socket);
  }

  lemma {:induction false} FlowMovesForward(s: Session, devices: map<string, Device>, events: seq<Event>,
                                            socket: Socket)
    requires FlowsInOrder(s) && SameFlow(events, socket)
    ensures var later := Run(s, devices, events);
            && StateOf(s, socket).Rank() <= StateOf(later, socket).Rank()
            && Count(later.requests, socket) + WrittenBy(s, socket) == Count(s.requests, socket)
               + WrittenBy(later, socket)
  {
    hide Step, StateOf, Count, WrittenBy;
    if events != [] {
      var before := events[..|events| - 1];
      FlowMovesForward(s, devices, before, socket);
      RunKeepsFlows(s, devices, before);
      FlowStep(Run(s, devices, before), devices, events[|events| - 1], socket);
    }
  }

  /**
   * Whatever has happened before and happens on other sockets meanwhile, a flow writes at most one request to
   * its socket.
   */
  lemma OneRequestPerFlow(s: Session, devices: map<string, Device>, before: seq<Event>, begin: Event,
                          events: seq<Event>)
    requires Fresh(s) && begin.Begin? && SameFlow(events, begin.socket)
    ensures var start := Run(s, devices, before + [begin]);
            Count(Run(start, devices, events).requests, begin.socket) <= Count(start.requests, begin.socket) + 1
  {
    RunKeepsFlows(s, devices, before + [begin]);
    FlowMovesForward(Run(s, devices, before + [begin]), devices, events, begin.socket);
  }

  // ---- the paired device ----

  /** The event is a device id packet of a known device on a socket whose flow expects one. */
  predicate NamesDevice(s: Session, devices: map<string, Device>, e: Event) {
    e.Receive? && InPhase(s, e.socket, Reading) && e.packet.DeviceIdPacket? && StateOf(s, e.socket).NONE?
    && e.packet.deviceId in devices
  }

  lemma DeviceStep(s: Session, devices: map<string, Device>, e: Event)
    ensures Step(s, devices, e).device == if NamesDevice(s, devices, e) then devices[e.packet.deviceId] else s.device
  {
  }

  /** A new success is sealed under the key of the current device. */
  lemma SealedStep(s: Session, devices: map<string, Device>, e: Event)
    ensures var next := Step(s, devices, e);
            next.unlockState.SUCCESS? ==> (s.unlockState.SUCCESS? && next.sealedUnder == s.sealedUnder)
                                          || next.sealedUnder == next.device.encryptionKey
  {
  }

  /** All flows of a connection object are of one kind: a server's wait for a device id, a client's do not. */
  predicate OneKind(events: seq<Event>, server: bool) {
    forall k :: 0 <= k < |events| && events[k].Begin? ==> events[k].needsDeviceId == server
  }

  /** No flow of a client waits for a device id. */
  ghost predicate KnowsDevice(s: Session) {
    forall socket :: socket in s.flows ==> !StateOf(s, socket).NONE?
  }

  lemma ClientStep(s: Session, devices: map<string, Device>, e: Event)
    requires KnowsDevice(s) && (e.Begin? ==> !e.needsDeviceId)
    ensures KnowsDevice(Step(s, devices, e)) && Step(s, devices, e).device == s.device
  {
    hide Decrypt, ErrorState, SendFailure, ReadFailure;
  }

  lemma {:induction false} ClientRun(s: Session, devices: map<string, Device>, events: seq<Event>)
    requires Fresh(s) && OneKind(events, false)
    ensures var later := Run(s, devices, events);
            KnowsDevice(later) && later.device == s.device
            && (later.unlockState.SUCCESS? ==> later.sealedUnder == s.device.encryptionKey)
  {
    hide Step;
    if events != [] {
      var before := events[..|events| - 1];
      ClientRun(s, devices, before);
      hide KnowsDevice;
      ClientStep(Run(s, devices, before), devices, events[|events| - 1]);
      SealedStep(Run(s, devices, before), devices, events[|events| - 1]);
    }
  }

  /** In client flows the device never changes, and a success was sealed under that device's key. */
  lemma ClientSuccessIsTheDevices(s: Session, devices: map<string, Device>, events: seq<Event>)
    requires Fresh(s) && OneKind(events, false)
    ensures var later := Run(s, devices, events);
            later.device == s.device && (later.unlockState.SUCCESS? ==> later.sealedUnder == later.device.encryptionKey)
  {
    ClientRun(s, devices, events);
  }

  // ---- when a success can belong to another device ----

  /** The state says success, but the response was not sealed under the key of the device it is attributed to. */
  predicate Mismatch(s: Session) { s.unlockState.SUCCESS? && s.sealedUnder != s.device.encryptionKey }

  /** Every known device has this key. */
  predicate OneKey(devices: map<string, Device>, key: Key) {
    forall id :: id in devices ==> devices[id].encryptionKey == key
  }

  /**
   * A server writes no request until a phone has named itself, and from then on the current device has the one
   * key.
   */
  ghost predicate OneServerKey(s: Session, key: Key) {
    && (forall socket :: socket in s.flows ==> s.flows[socket].Reading? || s.flows[socket].Closing?)
    && (s.device.encryptionKey == key || forall socket :: !StateOf(s, socket).HAS_UNLOCK_REQUEST?)
    && (s.unlockState.SUCCESS? ==> s.sealedUnder == key && s.device.encryptionKey == key)
  }

  lemma OneServerKeyStep(s: Session, devices: map<string, Device>, e: Event, key: Key)
    requires OneServerKey(s, key) && OneKey(devices, key) && (e.Begin? ==> e.needsDeviceId)
    ensures OneServerKey(Step(s, devices, e), key)
  {
    hide ErrorState, SendFailure, ReadFailure;
    var next := Step(s, devices, e);
    DeviceStep(s, devices, e);
    if next.device.encryptionKey != key {
      forall socket
        ensures !StateOf(next, socket).HAS_UNLOCK_REQUEST?
      {
        assert !StateOf(s, socket).HAS_UNLOCK_REQUEST?;
      }
    }
    SuccessStep(s, devices, e);
    SealedStep(s, devices, e);
  }

  lemma {:induction false} OneServerKeyMatches(s: Session, devices: map<string, Device>, events: seq<Event>, key: Key)
    requires Fresh(s) && OneKey(devices, key) && OneKind(events, true)
    ensures OneServerKey(Run(s, devices, events), key)
  {
    hide Step;
    if events != [] {
      var before := events[..|events| - 1];
      OneServerKeyMatches(s, devices, before, key);
      hide OneServerKey;
      OneServerKeyStep(Run(s, devices, before), devices, events[|events| - 1], key);
    }
  }

  /** An answer with the session's token, sealed under the key. */
  function Answer(s: Session, key: Key): Response {
    Response("", Sealed(key, true, Some(ResponseData(s.unlockToken, "pw"))))
  }

  const SENT := WriteResult(Framing.NoError)

  /** Two phones connect to a new session; one names itself and is sent a request. */
  lemma FirstPhoneRequests(s: Session, devices: map<string, Device>, id: string)
    requires Fresh(s) && id in devices
    ensures var t := Step(Step(Step(s, devices, Begin(1, true)), devices, Begin(2, true)), devices,
                          Receive(1, DeviceIdPacket(id), SENT));
            && t.device == devices[id] && InPhase(t, 1, Reading) && InPhase(t, 2, Reading)
            && StateOf(t, 1).HAS_UNLOCK_REQUEST? && StateOf(t, 2).NONE?
  {
  }

  lemma AnswerSucceeds(s: Session, devices: map<string, Device>)
    requires InPhase(s, 1, Reading) && InPhase(s, 2, Reading)
    requires StateOf(s, 1).HAS_UNLOCK_REQUEST? && StateOf(s, 2).NONE?
    ensures var t := Step(s, devices, Receive(1, ResponsePacket(Answer(s, s.device.encryptionKey)), SENT));
            && t.unlockState.SUCCESS? && t.sealedUnder == s.device.encryptionKey
            && InPhase(t, 2, Reading) && StateOf(t, 2).NONE?
  {
  }

  lemma NamingMismatches(s: Session, devices: map<string, Device>, id: string)
    requires s.unlockState.SUCCESS? && InPhase(s, 2, Reading) && StateOf(s, 2).NONE?
    requires id in devices && devices[id].encryptionKey != s.sealedUnder
    ensures Mismatch(Step(s, devices, Receive(2, DeviceIdPacket(id), SENT)))
  {
  }

  /** Two phones connect, one names itself and succeeds, and then the other one names itself. */
  lemma TwoPhonesMismatch(s: Session, devices: map<string, Device>, a: string, b: string)
    requires Fresh(s) && a in devices && b in devices && devices[a].encryptionKey != devices[b].encryptionKey
    ensures exists events :: OneKind(events, true) && Mismatch(Run(s, devices, events))
  {
    hide Run, Answer, Step, StateOf, InPhase, Mismatch;
    var e0, e1, e2 := Begin(1, true), Begin(2, true), Receive(1, DeviceIdPacket(a), SENT);
    var s2 := Step(Step(Step(s, devices, e0), devices, e1), devices, e2);
    FirstPhoneRequests(s, devices, a);
    var e3 := Receive(1, ResponsePacket(Answer(s2, s2.device.encryptionKey)), SENT);
    AnswerSucceeds(s2, devices);
    var e4 := Receive(2, DeviceIdPacket(b), SENT);
    NamingMismatches(Step(s2, devices, e3), devices, b);
    RunOfFive(s, devices, e0, e1, e2, e3, e4);
    assert OneKind([e0, e1, e2, e3, e4], true);
  }

  lemma RunOfFive(s: Session, devices: map<string, Device>, e0: Event, e1: Event, e2: Event, e3: Event, e4: Event)
    ensures Run(s, devices, [e0, e1, e2, e3, e4]) ==
            Step(Step(Step(Step(Step(s, devices, e0), devices, e1), devices, e2), devices, e3), devices, e4)
  {
    hide Run, Step;
    NoEvents(s, devices);
    RunThen(s, devices, [], e0);
    RunThen(s, devices, [e0], e1);
    RunThen(s, devices, [e0, e1], e2);
    RunThen(s, devices, [e0, e1, e2], e3);
    RunThen(s, devices, [e0, e1, e2, e3], e4);
    assert [] + [e0] == [e0] && [e0] + [e1] == [e0, e1] && [e0, e1] + [e2] == [e0, e1, e2];
    assert [e0, e1, e2] + [e3] == [e0, e1, e2, e3] && [e0, e1, e2, e3] + [e4] == [e0, e1, e2, e3, e4];
  }

  /** The key of some known device, if there is one. */
  ghost function AnyKey(devices: map<string, Device>): Key {
    if exists a :: a in devices then var a :| a in devices; devices[a].encryptionKey else ""
  }

  /**
   * The success of a new connection object can come to belong to another device if and only if the object is a
   * server and two known devices have different keys.
   */
  lemma DeviceMismatchExactly(s: Session, devices: map<string, Device>, server: bool)
    requires Fresh(s)
    ensures (exists events :: OneKind(events, server) && Mismatch(Run(s, devices, events)))
            <==> server && exists a, b :: a in devices && b in devices
                                          && devices[a].encryptionKey != devices[b].encryptionKey
  {
    hide Run;
    if a, b :| server && a in devices && b in devices && devices[a].encryptionKey != devices[b].encryptionKey {
      TwoPhonesMismatch(s, devices, a, b);
    } else {
      forall events | OneKind(events, server)
        ensures !Mismatch(Run(s, devices, events))
      {
        if server { OneServerKeyMatches(s, devices, events, AnyKey(devices)); } else { ClientRun(s, devices, events); }
      }
    }
  }

  // ---- when the end of a flow overwrites a state ----

  /** A flow is about to store its error although a state is set by now. */
  ghost predicate Overwrites(s: Session) { !s.unlockState.UNKNOWN? && exists socket :: IsClosing(s, socket) }

  /** All events are on these sockets. */
  predicate On(events: seq<Event>, sockets: set<Socket>) {
    forall k :: 0 <= k < |events| ==> events[k].socket in sockets
  }

  /** Only one socket has a flow, and it does not overwrite. */
  ghost predicate Alone(s: Session, socket: Socket) {
    (forall other :: other in s.flows ==> other == socket) && (IsClosing(s, socket) ==> s.unlockState.UNKNOWN?)
  }

  lemma {:induction false} AloneNeverOverwrites(s: Session, devices: map<string, Device>, events: seq<Event>,
                                                socket: Socket)
    requires Fresh(s) && On(events, {socket})
    ensures Alone(Run(s, devices, events), socket)
  {
    hide Step;
    if events != [] {
      var before := events[..|events| - 1];
      AloneNeverOverwrites(s, devices, before, socket);
      hide Alone;
      AloneStep(Run(s, devices, before), devices, events[|events| - 1]);
    }
  }

  lemma AloneStep(s: Session, devices: map<string, Device>, e: Event)
    requires Alone(s, e.socket)
    ensures Alone(Step(s, devices, e), e.socket)
  {
    hide Decrypt, ErrorState, SendFailure, ReadFailure;
  }

  lemma {:induction false} RunConcat(s: Session, devices: map<string, Device>, first: seq<Event>, second: seq<Event>)
    ensures Run(s, devices, first + second) == Run(Run(s, devices, first), devices, second)
  {
    hide Step;
    if second == [] {
      assert first + second == first;
    } else {
      var n := |second| - 1;
      RunConcat(s, devices, first, second[..n]);
      assert (first + second)[..|first| + n] == first + second[..n];
    }
  }

  /** What brings a flow to its first read. */
  function Opening(socket: Socket, server: bool): seq<Event> {
    if server then [Begin(socket, true)] else [Begin(socket, false), SendFirst(socket, SENT), Mark(socket)]
  }

  lemma Opens(s: Session, devices: map<string, Device>, socket: Socket, server: bool)
    requires socket !in s.flows
    ensures var t := Run(s, devices, Opening(socket, server));
            && t.unlockState == s.unlockState && InPhase(t, socket, Reading)
            && forall other :: other != socket ==> (IsClosing(t, other) <==> IsClosing(s, other))
                                                    && (other in t.flows <==> other in s.flows)
  {
    hide Run, Handled;
    NoEvents(s, devices);
    if server {
      RunThen(s, devices, [], Begin(socket, true));
      assert [] + [Begin(socket, true)] == Opening(socket, server);
    } else {
      var e0, e1, e2 := Begin(socket, false), SendFirst(socket, SENT), Mark(socket);
      RunThen(s, devices, [], e0);
      RunThen(s, devices, [e0], e1);
      RunThen(s, devices, [e0, e1], e2);
      assert [] + [e0] == [e0] && [e0] + [e1] == [e0, e1] && [e0, e1] + [e2] == Opening(socket, server);
    }
  }

  /** One flow finds no state when its read fails, and before it stores its error the other one has stored one. */
  lemma TwoFlowsOverwrite(s: Session, devices: map<string, Device>, server: bool, a: Socket, b: Socket)
    requires Fresh(s) && a != b
    ensures exists events :: On(events, {a, b}) && OneKind(events, server) && Overwrites(Run(s, devices, events))
  {
    hide Run, Handled, Opening, On, OneKind;
    var x, y := Opening(a, server), Opening(b, server);
    var e0, e1, e2 := ReadFails(a, Framing.Timeout), ReadFails(b, Framing.Timeout), Finish(b);
    var s0 := Run(s, devices, x);
    Opens(s, devices, a, server);
    var s1 := Step(s0, devices, e0);
    RunThen(s, devices, x, e0);
    Opens(s1, devices, b, server);
    RunConcat(s, devices, x + [e0], y);
    var s2 := Run(s1, devices, y);
    var s3 := Step(s2, devices, e1);
    RunThen(s, devices, x + [e0] + y, e1);
    RunThen(s, devices, x + [e0] + y + [e1], e2);
    assert IsClosing(Step(s3, devices, e2), a);
    assert Overwrites(Run(s, devices, x + [e0] + y + [e1] + [e2]));
    TheirEvents(a, b, server, e0, e1, e2);
  }

  lemma TheirEvents(a: Socket, b: Socket, server: bool, e0: Event, e1: Event, e2: Event)
    requires e0.socket == a && e1.socket == e2.socket == b && !e0.Begin? && !e1.Begin? && !e2.Begin?
    ensures var events := Opening(a, server) + [e0] + Opening(b, server) + [e1] + [e2];
            On(events, {a, b}) && OneKind(events, server)
  {
    assert On(Opening(a, server), {a, b}) && On(Opening(b, server), {a, b});
    assert OneKind(Opening(a, server), server) && OneKind(Opening(b, server), server);
    hide Opening;
  }

  /**
   * The flow's last look at the state does not always keep a state that another flow sets: its error can
   * overwrite one if and only if the object has more than one socket.
   */
  lemma OverwritesExactly(s: Session, devices: map<string, Device>, server: bool, sockets: set<Socket>)
    requires Fresh(s)
    ensures (exists events :: On(events, sockets) && OneKind(events, server) && Overwrites(Run(s, devices, events)))
            <==> exists a, b :: a in sockets && b in sockets && a != b
  {
    hide Run;
    if a, b :| a in sockets && b in sockets && a != b {
      TwoFlowsOverwrite(s, devices, server, a, b);
    } else {
      forall events: seq<Event> | On(events, sockets)
        ensures !Overwrites(Run(s, devices, events))
      {
        var socket: Socket := if events == [] then 0 else events[0].socket;
        assert On(events, {socket});
        AloneNeverOverwrites(s, devices, events, socket);
      }
    }
  }
}
