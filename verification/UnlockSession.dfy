// One unlock session over any number of sockets (common/src/connection/unlock/BaseUnlockConnection.cpp).
// Encryption is an abstract inverse pair, and so is JSON: a packet arrives parsed or marked as unparsable.
module UnlockSession {
  import opened Options
  import opened UnlockStates
  import opened Framing

  type Socket = int
  type Key = string

  datatype Device = Device(id: string, encryptionKey: Key)

  datatype ResponseData = ResponseData(unlockToken: string, passwordKey: string)

  /** Data encrypted under a key, with a time stamp that is or is not recent. */
  datatype Sealed = Sealed(key: Key, recent: bool, plain: Option<ResponseData>)

  datatype Opened = Ok(plain: Option<ResponseData>) | InvalidTimestamp | CryptError

  function Decrypt(data: Sealed, key: Key): Opened {
    if data.key != key then CryptError else if !data.recent then InvalidTimestamp else Ok(data.plain)
  }

  datatype Response = Unparsable | Response(error: string, encData: Sealed)

  datatype Incoming = DeviceIdPacket(deviceId: string) | ResponsePacket(response: Response) | OtherPacket(id: int)

  datatype ConnectionState = NONE | HAS_DEVICE_ID | HAS_UNLOCK_REQUEST {
    function Rank(): nat {
      match this
      case NONE => 0
      case HAS_DEVICE_ID => 1
      case HAS_UNLOCK_REQUEST => 2
    }
  }

  /** What becomes of an attempt to send the unlock request. */
  datatype Send = EncryptFailed | WriteResult(error: PacketError) {
    predicate Sent() { WriteResult? && error.NoError? }
  }

  /**
   * Where the thread of a flow stands. A client flow first writes the request and then records that it has;
   * every flow reads packets until a read fails, and may then have an error to store.
   */
  datatype Phase = Sending | Written | Reading | Closing(error: PacketError)

  /**
   * The fields of a connection. `flows` is where the flows under way stand, `requests` lists the sockets to
   * which a request was written, in order; `answeredOn` and `sealedUnder` tell where the stored response came from and
   * the key that opened it.
   */
  datatype Session = Session(
    unlockToken: string,
    unlockState: UnlockState,
    device: Device,
    response: ResponseData,
    connections: map<Socket, ConnectionState>,
    flows: map<Socket, Phase>,
    requests: seq<Socket>,
    answeredOn: Option<Socket>,
    sealedUnder: Key)

  /** A new session has neither connections nor a response. */
  predicate Fresh(s: Session) {
    s.unlockState.UNKNOWN? && s.connections == map[] && s.flows == map[] && s.requests == []
  }

  function StateOf(s: Session, socket: Socket): ConnectionState {
    if socket in s.connections then s.connections[socket] else NONE
  }

  // ---- the steps ----

  /**
   * The steps of all threads. A flow takes the state lock for Begin, Mark and each Receive, and for no other
   * step; that it looks at the state when a read has failed and that it stores its error are two steps. A step
   * that no thread is about to take changes nothing.
   */
  datatype Event =
    | Begin(socket: Socket, needsDeviceId: bool)
    | SendFirst(socket: Socket, send: Send)
    | Mark(socket: Socket)
    | Receive(socket: Socket, packet: Incoming, send: Send)
    | ReadFails(socket: Socket, error: PacketError)
    | Finish(socket: Socket)

  function SendFailure(send: Send): UnlockState {
    match send
    case EncryptFailed => UNK_ERROR
    case WriteResult(error) => if error.ClosedConnection? then CONNECT_ERROR else if error.Timeout? then TIMEOUT
      else UNK_ERROR
  }

  /** Sending a request: logged when it is written, an error state when it is not. */
  function Requested(s: Session, socket: Socket, send: Send): Session {
    if send.Sent() then s.(requests := s.requests + [socket],
                           connections := s.connections[socket := HAS_UNLOCK_REQUEST])
    else s.(unlockState := SendFailure(send))
  }

  function ErrorState(error: string): UnlockState {
    if error == "CANCEL" then CANCELED
    else if error == "NOT_PAIRED" then NOT_PAIRED_ERROR
    else if error == "APP_ERROR" then APP_ERROR
    else if error == "TIME_ERROR" then TIME_ERROR
    else if error == "DATA_ERROR" then DATA_ERROR
    else if error == "PROTOCOL_ERROR" then PROTOCOL_ERROR
    else UNK_ERROR
  }

  function Answered(s: Session, socket: Socket, r: Response): Session {
    if r.Unparsable? then s.(unlockState := DATA_ERROR)
    else if r.error != "" then s.(unlockState := ErrorState(r.error))
    else
      match Decrypt(r.encData, s.device.encryptionKey)
      case InvalidTimestamp => s.(unlockState := TIME_ERROR)
      case CryptError => s.(unlockState := DATA_ERROR)
      case Ok(None) => s.(unlockState := DATA_ERROR)
      case Ok(Some(data)) =>
        s.(response := data, answeredOn := Some(socket), sealedUnder := r.encData.key,
           unlockState := if data.unlockToken == s.unlockToken then SUCCESS else UNK_ERROR)
  }

  /** A socket has one flow at a time. */
  /** The message could be opened: it is sealed under the key of the current device, recent, and parses. */
  predicate CanOpen(s: Session, data: Sealed) {
    data.key == s.device.encryptionKey && data.recent && data.plain.Some?
  }

  /** What the state after a response says about the response. */
  predicate Meant(s: Session, r: Response, state: UnlockState) {
    var data := if r.Response? then r.encData else Sealed("", false, None);
    var answers := r.Response? && r.error == "";
    && (state.SUCCESS? <==> answers && CanOpen(s, data) && data.plain.value.unlockToken == s.unlockToken)
    && (state.CANCELED? <==> r.Response? && r.error == "CANCEL")
    && (state.NOT_PAIRED_ERROR? <==> r.Response? && r.error == "NOT_PAIRED")
    && (state.APP_ERROR? <==> r.Response? && r.error == "APP_ERROR")
    && (state.PROTOCOL_ERROR? <==> r.Response? && r.error == "PROTOCOL_ERROR")
    && (state.TIME_ERROR? <==>
          (r.Response? && r.error == "TIME_ERROR")
          || (answers && data.key == s.device.encryptionKey && !data.recent))
    && (state.DATA_ERROR? <==>
          || r.Unparsable? || (r.Response? && r.error == "DATA_ERROR")
          || (answers && (data.key != s.device.encryptionKey || (data.recent && data.plain.None?))))
    && (state.UNK_ERROR? <==>
          || (answers && CanOpen(s, data) && data.plain.value.unlockToken != s.unlockToken)
          || (r.Response? && r.error !in {"", "CANCEL", "NOT_PAIRED", "APP_ERROR", "TIME_ERROR", "DATA_ERROR",
                                          "PROTOCOL_ERROR"}))
  }

  function Began(s: Session, socket: Socket, needsDeviceId: bool): Session {
    if socket in s.flows then s
    else if needsDeviceId then s.(connections := s.connections[socket := NONE], flows := s.flows[socket := Reading])
    else s.(connections := s.connections[socket := HAS_DEVICE_ID], flows := s.flows[socket := Sending])
  }

  predicate InPhase(s: Session, socket: Socket, phase: Phase) { socket in s.flows && s.flows[socket] == phase }

  /** A client flow writes its request without holding the state lock. */
  function SentFirst(s: Session, socket: Socket, send: Send): Session {
    if !InPhase(s, socket, Sending) then s
    else if send.Sent() then s.(requests := s.requests + [socket], flows := s.flows[socket := Written])
    else s.(unlockState := SendFailure(send), flows := s.flows - {socket})
  }

  function Marked(s: Session, socket: Socket): Session {
    if !InPhase(s, socket, Written) then s
    else s.(connections := s.connections[socket := HAS_UNLOCK_REQUEST], flows := s.flows[socket := Reading])
  }

  function Handled(s: Session, devices: map<string, Device>, socket: Socket, packet: Incoming, send: Send): Session {
    var known := s.(connections := s.connections[socket := StateOf(s, socket)]);
    if packet.DeviceIdPacket? && !StateOf(s, socket).NONE? then known
    else if packet.ResponsePacket? && !StateOf(s, socket).HAS_UNLOCK_REQUEST? then known
    else
      match packet
      case DeviceIdPacket(id) =>
        if id !in devices then known.(unlockState := DATA_ERROR)
        else Requested(known.(device := devices[id]), socket, send)
      case ResponsePacket(r) => Answered(known, socket, r)
      case OtherPacket(_) => known
  }

  /** The flow ends when a state is set, and has an error to store when none is. */
  function ReadFailed(s: Session, socket: Socket, error: PacketError): Session {
    if !InPhase(s, socket, Reading) then s
    else if s.unlockState.UNKNOWN? then s.(flows := s.flows[socket := Closing(error)])
    else s.(flows := s.flows - {socket})
  }

  predicate IsClosing(s: Session, socket: Socket) { socket in s.flows && s.flows[socket].Closing? }

  function ReadFailure(error: PacketError): UnlockState {
    match error
    case ClosedConnection => CONNECT_ERROR
    case Timeout => TIMEOUT
    case _ => DATA_ERROR
  }

  function Finished(s: Session, socket: Socket): Session {
    if !IsClosing(s, socket) then s
    else s.(unlockState := ReadFailure(s.flows[socket].error), flows := s.flows - {socket})
  }

  function Step(s: Session, devices: map<string, Device>, e: Event): Session {
    match e
    case Begin(socket, needsDeviceId) => Began(s, socket, needsDeviceId)
    case SendFirst(socket, send) => SentFirst(s, socket, send)
    case Mark(socket) => Marked(s, socket)
    case Receive(socket, packet, send) =>
      if InPhase(s, socket, Reading) then Handled(s, devices, socket, packet, send) else s
    case ReadFails(socket, error) => ReadFailed(s, socket, error)
    case Finish(socket) => Finished(s, socket)
  }

  function Run(s: Session, devices: map<string, Device>, events: seq<Event>): Session {
    if events == [] then s
    else Step(Run(s, devices, events[..|events| - 1]), devices, events[|events| - 1])
  }

  // ---- the connection object ----

  class UnlockConnection {
    const unlockToken: string
    const devices: map<string, Device>
    var unlockState: UnlockState
    var pairedDevice: Device
    var responseData: ResponseData
    var connectionStates: map<Socket, ConnectionState>
    ghost var flows: map<Socket, Phase>
    ghost var requests: seq<Socket>
    ghost var answeredOn: Option<Socket>
    ghost var sealedUnder: Key

    ghost function Now(): Session
      reads this
    {
      Session(unlockToken, unlockState, pairedDevice, responseData, connectionStates, flows, requests, answeredOn,
        sealedUnder)
    }

    constructor (token: string, storage: map<string, Device>, device: Device)
      ensures Fresh(Now()) && unlockToken == token && devices == storage && pairedDevice == device
    {
      unlockToken, devices, pairedDevice := token, storage, device;
      unlockState, responseData, connectionStates := UNKNOWN, ResponseData("", ""), map[];
      flows, requests, answeredOn, sealedUnder := map[], [], None, "";
    }

    /** The first step of an authentication flow, under the state lock. */
    method BeginAuthFlow(socket: Socket, needsDeviceId: bool)
      requires socket !in flows
      modifies this`connectionStates, this`flows
      ensures Now() == Step(old(Now()), devices, Begin(socket, needsDeviceId))
    {
      connectionStates := connectionStates[socket := if needsDeviceId then NONE else HAS_DEVICE_ID];
      flows := flows[socket := if needsDeviceId then Reading else Sending];
    }

    /** The second step of a client flow; without a request it ends here. */
    method SendFirstRequest(socket: Socket, send: Send) returns (goesOn: bool)
      requires InPhase(Now(), socket, Sending)
      modifies this`unlockState, this`requests, this`flows
      ensures Now() == Step(old(Now()), devices, SendFirst(socket, send))
      ensures goesOn <==> InPhase(Now(), socket, Written)
    {
      goesOn := SendUnlockRequest(socket, send);
      flows := if goesOn then flows[socket := Written] else flows - {socket};
    }

    /** The third step of a client flow, under the state lock again. */
    method MarkRequested(socket: Socket)
      requires InPhase(Now(), socket, Written)
      modifies this`connectionStates, this`flows
      ensures Now() == Step(old(Now()), devices, Mark(socket))
    {
      connectionStates := connectionStates[socket := HAS_UNLOCK_REQUEST];
      flows := flows[socket := Reading];
    }

    /** A read has failed: whether the flow goes on to store an error. */
    method CheckState(socket: Socket, ghost error: PacketError) returns (stores: bool)
      requires InPhase(Now(), socket, Reading)
      modifies this`flows
      ensures Now() == Step(old(Now()), devices, ReadFails(socket, error))
      ensures stores <==> IsClosing(Now(), socket)
    {
      stores := unlockState == UNKNOWN;
      flows := if stores then flows[socket := Closing(error)] else flows - {socket};
    }

    /** The last step of a flow, without the lock. */
    method StoreError(socket: Socket, error: PacketError)
      requires InPhase(Now(), socket, Closing(error))
      modifies this`unlockState, this`flows
      ensures Now() == Step(old(Now()), devices, Finish(socket))
      ensures (unlockState.CONNECT_ERROR? <==> error.ClosedConnection?) && (unlockState.TIMEOUT? <==> error.Timeout?)
              && (unlockState.DATA_ERROR? <==> !error.ClosedConnection? && !error.Timeout?)
    {
      match error {
        case ClosedConnection => unlockState := CONNECT_ERROR;
        case Timeout => unlockState := TIMEOUT;
        case _ => unlockState := DATA_ERROR;
      }
      flows := flows - {socket};
    }

    method SendUnlockRequest(socket: Socket, send: Send) returns (sent: bool)
      modifies this`unlockState, this`requests
      ensures sent == send.Sent()
      ensures unlockState == if sent then old(unlockState) else SendFailure(send)
      ensures !sent ==> (unlockState.CONNECT_ERROR? <==> send.WriteResult? && send.error.ClosedConnection?)
                        && (unlockState.TIMEOUT? <==> send.WriteResult? && send.error.Timeout?)
                        && (unlockState.UNK_ERROR? <==> send.EncryptFailed? || send.error.Unknown?)
      ensures requests == if sent then old(requests) + [socket] else old(requests)
    {
      if send.EncryptFailed? {
        unlockState := UNK_ERROR;
        return false;
      }
      if send.error != NoError {
        unlockState := if send.error.ClosedConnection? then CONNECT_ERROR else if send.error.Timeout? then TIMEOUT
          else UNK_ERROR;
        return false;
      }
      requests := requests + [socket];
      sent := true;
    }

    method OnPacketReceived(socket: Socket, packet: Incoming, send: Send)
      modifies this
      ensures Now() == Handled(old(Now()), devices, socket, packet, send)
      ensures packet.DeviceIdPacket? && old(StateOf(Now(), socket)).NONE? ==>
                if packet.deviceId in devices then pairedDevice == devices[packet.deviceId]
                else unlockState.DATA_ERROR? && pairedDevice == old(pairedDevice)
      ensures packet.ResponsePacket? && old(StateOf(Now(), socket)).HAS_UNLOCK_REQUEST? ==>
                Meant(old(Now()), packet.response, unlockState)
      ensures packet.OtherPacket?
              || (packet.DeviceIdPacket? && !old(StateOf(Now(), socket)).NONE?)
              || (packet.ResponsePacket? && !old(StateOf(Now(), socket)).HAS_UNLOCK_REQUEST?) ==>
                unlockState == old(unlockState) && pairedDevice == old(pairedDevice) && requests == old(requests)
                && StateOf(Now(), socket) == old(StateOf(Now(), socket))
    {
      if socket !in connectionStates {
        connectionStates := connectionStates[socket := NONE];
      }
      var connectionState := connectionStates[socket];
      assert connectionStates == old(connectionStates)[socket := StateOf(old(Now()), socket)];
      if packet.DeviceIdPacket? && connectionState != NONE {
        return;
      }
      if packet.ResponsePacket? && connectionState != HAS_UNLOCK_REQUEST {
        return;
      }
      match packet
      case DeviceIdPacket(deviceId) =>
        if deviceId !in devices {
          unlockState := DATA_ERROR;
          return;
        }
        pairedDevice := devices[deviceId];
        var sent := SendUnlockRequest(socket, send);
        if sent {
          connectionStates := connectionStates[socket := HAS_UNLOCK_REQUEST];
        }
      case ResponsePacket(response) =>
        ProcessUnlockResponse(socket, response);
      case OtherPacket(_) =>
    }

    method ProcessUnlockResponse(ghost socket: Socket, response: Response)
      modifies this`unlockState, this`responseData, this`answeredOn, this`sealedUnder
      ensures Now() == Answered(old(Now()), socket, response)
      ensures Meant(old(Now()), response, unlockState)
    {
      if response.Unparsable? {
        unlockState := DATA_ERROR;
        return;
      }
      if response.error != "" {
        unlockState := ErrorState(response.error);
        return;
      }
      var cryptResult := Decrypt(response.encData, pairedDevice.encryptionKey);
      if !cryptResult.Ok? {
        unlockState := if cryptResult.InvalidTimestamp? then TIME_ERROR else DATA_ERROR;
        return;
      }
      if cryptResult.plain.None? {
        unlockState := DATA_ERROR;
        return;
      }
      responseData := cryptResult.plain.value;
      answeredOn, sealedUnder := Some(socket), response.encData.key;
      unlockState := if responseData.unlockToken == unlockToken then SUCCESS else UNK_ERROR;
    }
  }
}
