// The blind relay as a transition system: every handler of cloud/src/index.ts (lines 65-121) is one
// atomic step over the devices and relay_messages tables (cloud/migrations/0001_init.sql).
module Relay {
  import opened Options

  type Id = string
  type User = string

  /** The hash of a bearer token. The tables hold nothing else, and a request carries the token hashed. */
  type TokenHash = string

  datatype Direction = PcToPhone | PhoneToPc

  datatype Message = Message(device: Id, direction: Direction, request: Option<Id>, payload: string,
                             created: int, expires: int, consumed: Option<int>)

  datatype Session = Session(user: User, expires: int)

  datatype Device = Device(user: User, name: string, created: int, lastSeen: int)

  /** The tables; `tokens` is the unique token_hash column of the devices table. */
  datatype Database = Database(sessions: map<TokenHash, Session>, devices: map<Id, Device>, tokens: map<TokenHash, Id>,
                               messages: map<Id, Message>)

  /** A request body: its payload field is absent when it is not JSON or not a text. */
  type Body = Option<string>

  predicate ValidPayload(body: Body) { body.Some? && 2 <= |body.value| <= 8192 }

  datatype Request =
    | Login(newToken: TokenHash, user: User, expires: int)
    | PostDevice(session: Option<TokenHash>, name: Body, newToken: TokenHash)
    | PostRequest(token: Option<TokenHash>, body: Body)
    | PostCommand(session: Option<TokenHash>, device: Id, body: Body)
    | GetCommand(token: Option<TokenHash>)
    | GetRequest(session: Option<TokenHash>, device: Id)
    | PostResponse(session: Option<TokenHash>, request: Id, body: Body)
    | GetResponse(token: Option<TokenHash>, request: Id)

  /** One call: the request, the random id drawn for it, and the clock at its successive readings. */
  datatype Event = Event(request: Request, id: Id, authTime: int, time: int, later: int)

  datatype Reply =
    | Done | Unauthorized | DeviceNotFound | RequestNotFound | Invalid | Conflict
    | Created(id: Id, expires: int)
    | Accepted
    | NoContent
    | Item(id: Id, payload: string)
    | Payload(payload: string)

  const LIFETIME := 120

  predicate ValidName(name: Body) { name.Some? && 1 <= |name.value| <= 80 }

  // ---- queries ----

  function UserOf(db: Database, session: Option<TokenHash>, now: int): Option<User> {
    if session.Some? && session.value in db.sessions && db.sessions[session.value].expires > now
    then Some(db.sessions[session.value].user) else None
  }

  function DeviceOf(db: Database, token: Option<TokenHash>): Option<Id> {
    if token.Some? && token.value in db.tokens then Some(db.tokens[token.value]) else None
  }

  predicate Owns(db: Database, user: User, device: Id) { device in db.devices && db.devices[device].user == user }

  predicate Live(m: Message, now: int) { m.consumed.None? && m.expires > now }

  predicate IsCommand(m: Message, device: Id, now: int) {
    m.device == device && m.direction.PhoneToPc? && m.request.None? && Live(m, now)
  }

  predicate IsRequest(m: Message, device: Id, now: int) {
    m.device == device && m.direction.PcToPhone? && Live(m, now)
  }

  predicate IsResponse(m: Message, device: Id, request: Id, now: int) {
    m.device == device && m.direction.PhoneToPc? && m.request == Some(request) && Live(m, now)
  }

  function Commands(db: Database, device: Id, now: int): set<Id> {
    set id | id in db.messages && IsCommand(db.messages[id], device, now)
  }

  function Requests(db: Database, device: Id, now: int): set<Id> {
    set id | id in db.messages && IsRequest(db.messages[id], device, now)
  }

  function Responses(db: Database, device: Id, request: Id, now: int): set<Id> {
    set id | id in db.messages && IsResponse(db.messages[id], device, request, now)
  }

  /** ORDER BY created_at LIMIT 1: any oldest row of a non-empty selection. */
  ghost predicate Oldest(db: Database, rows: set<Id>, pick: Option<Id>)
    requires rows <= db.messages.Keys
  {
    match pick
    case None => rows == {}
    case Some(id) => id in rows && forall other :: other in rows ==>
      db.messages[id].created <= db.messages[other].created
  }

  lemma NothingSelected(db: Database)
    ensures Oldest(db, {}, None)
  {
  }

  lemma OldestSoFar(db: Database, seen: set<Id>, pick: Option<Id>, id: Id)
    requires seen <= db.messages.Keys && id in db.messages && Oldest(db, seen, pick)
    ensures Oldest(db, seen + {id},
                   if pick.None? || db.messages[id].created < db.messages[pick.value].created then Some(id) else pick)
  {
  }

  // ---- updates ----

  function Purged(db: Database, now: int): Database {
    db.(messages := map id | id in db.messages && db.messages[id].expires > now :: db.messages[id])
  }

  function Inserted(db: Database, id: Id, m: Message): Database {
    db.(messages := db.messages[id := m])
  }

  /** UPDATE devices SET last_seen_at; a device that is not there stays away. */
  function Seen(db: Database, device: Id, now: int): Database {
    if device !in db.devices then db else db.(devices := db.devices[device := db.devices[device].(lastSeen := now)])
  }

  function Consumed(db: Database, id: Id, now: int): Database {
    if id !in db.messages then db else db.(messages := db.messages[id := db.messages[id].(consumed := Some(now))])
  }

  /** The unique index relay_one_response admits no second response row for a request. */
  predicate HasResponse(db: Database, request: Id) {
    exists id :: id in db.messages && db.messages[id].direction.PhoneToPc? && db.messages[id].request == Some(request)
  }

  // ---- the steps ----

  /** The row a successful post inserts. */
  function RowOf(device: Id, direction: Direction, request: Option<Id>, payload: string, now: int): Message {
    Message(device, direction, request, payload, now, now + LIFETIME, None)
  }

  /** What the handler for an event may do: reply, row picked by its query if any, and new tables. */
  ghost predicate Step(db: Database, e: Event, pick: Option<Id>, reply: Reply, next: Database) {
    match e.request
    case Login(newToken, user, expires) =>
      pick == None && reply == Done && next == db.(sessions := db.sessions[newToken := Session(user, expires)])
    case PostDevice(session, name, newToken) =>
      var user := UserOf(db, session, e.authTime);
      pick == None &&
      if user.None? then reply == Unauthorized && next == db
      else if !ValidName(name) then reply == Invalid && next == db
      else if newToken in db.tokens || e.id in db.devices then reply == Conflict && next == db
      else reply == Created(e.id, 0)
           && next == db.(devices := db.devices[e.id := Device(user.value, name.value, e.time, e.later)],
                          tokens := db.tokens[newToken := e.id])
    case PostRequest(token, body) =>
      var device := DeviceOf(db, token);
      pick == None &&
      if device.None? then reply == Unauthorized && next == db
      else if !ValidPayload(body) then reply == Invalid && next == db
      else reply == Created(e.id, e.time + LIFETIME)
           && next == Seen(Inserted(Purged(db, e.time), e.id, RowOf(device.value, PcToPhone, None, body.value, e.time)),
                           device.value, e.time)
    case PostCommand(session, device, body) =>
      var user := UserOf(db, session, e.authTime);
      pick == None &&
      if user.None? then reply == Unauthorized && next == db
      else if !Owns(db, user.value, device) then reply == DeviceNotFound && next == db
      else if !ValidPayload(body) then reply == Invalid && next == db
      else reply == Created(e.id, e.time + LIFETIME)
           && next == Inserted(Purged(db, e.time), e.id, RowOf(device, PhoneToPc, None, body.value, e.time))
    case GetCommand(token) =>
      var device := DeviceOf(db, token);
      if device.None? then pick == None && reply == Unauthorized && next == db
      else
        Oldest(db, Commands(db, device.value, e.time), pick) &&
        if pick.None? then reply == NoContent && next == db
        else reply == Item(pick.value, db.messages[pick.value].payload) && next == Consumed(db, pick.value, e.later)
    case GetRequest(session, device) =>
      var user := UserOf(db, session, e.authTime);
      if user.None? then pick == None && reply == Unauthorized && next == db
      else
        Oldest(db, if Owns(db, user.value, device) then Requests(db, device, e.time) else {}, pick) && next == db &&
        if pick.None? then reply == NoContent
        else reply == Item(pick.value, db.messages[pick.value].payload)
    case PostResponse(session, request, body) =>
      var user := UserOf(db, session, e.authTime);
      pick == None &&
      if user.None? then reply == Unauthorized && next == db
      else if !ValidPayload(body) then reply == Invalid && next == db
      else if !Answerable(db, user.value, request, e.time) then reply == RequestNotFound && next == db
      else if HasResponse(db, request) then reply == Conflict && next == db
      else reply == Accepted
           && next == Inserted(Consumed(db, request, e.time), e.id,
                               RowOf(db.messages[request].device, PhoneToPc, Some(request), body.value, e.time))
    case GetResponse(token, request) =>
      var device := DeviceOf(db, token);
      if device.None? then pick == None && reply == Unauthorized && next == db
      else
        Chosen(Responses(db, device.value, request, e.time), pick) &&
        if pick.None? then reply == NoContent && next == db
        else reply == Payload(db.messages[pick.value].payload) && next == Consumed(db, pick.value, e.later)
  }

  /** Any row of a non-empty selection. */
  ghost predicate Chosen(rows: set<Id>, pick: Option<Id>) {
    match pick
    case None => rows == {}
    case Some(id) => id in rows
  }

  /** A live, unanswered request to a device of the user. */
  predicate Answerable(db: Database, user: User, request: Id, now: int) {
    && request in db.messages
    && Owns(db, user, db.messages[request].device)
    && db.messages[request].direction.PcToPhone?
    && Live(db.messages[request], now)
  }

  // ---- the service ----

  class Service {
    var sessions: map<TokenHash, Session>
    var devices: map<Id, Device>
    var tokens: map<TokenHash, Id>
    var messages: map<Id, Message>

    function Db(): Database
      reads this
    {
      Database(sessions, devices, tokens, messages)
    }

    /** DELETE FROM relay_messages WHERE expires_at <= now. */
    method DeleteExpired(now: int)
      modifies this`messages
      ensures Db() == Purged(old(Db()), now)
    {
      messages := map id | id in messages && messages[id].expires > now :: messages[id];
    }

    /** UPDATE relay_messages SET consumed_at = now WHERE id = id. */
    method SetConsumed(id: Id, now: int)
      modifies this`messages
      ensures Db() == Consumed(old(Db()), id, now)
    {
      if id in messages {
        messages := messages[id := messages[id].(consumed := Some(now))];
      }
    }

    /** SELECT ... ORDER BY created_at LIMIT 1 over the selected rows. */
    method SelectOldest(rows: set<Id>) returns (pick: Option<Id>)
      requires rows <= messages.Keys
      ensures Oldest(Db(), rows, pick)
    {
      hide Oldest;
      pick := None;
      var rest := rows;
      NothingSelected(Db());
      assert rows - rest == {};
      while rest != {}
        invariant rest <= rows && Oldest(Db(), rows - rest, pick) && (pick.Some? ==> pick.value in rows)
        decreases |rest|
      {
        var id :| id in rest;
        OldestSoFar(Db(), rows - rest, pick, id);
        assert rows - (rest - {id}) == (rows - rest) + {id};
        if pick.None? || messages[id].created < messages[pick.value].created {
          pick := Some(id);
        }
        rest := rest - {id};
      }
      assert rows - {} == rows;
    }

    method HandlePostDevice(e: Event) returns (reply: Reply)
      requires e.request.PostDevice?
      modifies this
      ensures Step(old(Db()), e, None, reply, Db())
    {
      var user := UserOf(Db(), e.request.session, e.authTime);
      if user.None? {
        return Unauthorized;
      }
      if !ValidName(e.request.name) {
        return Invalid;
      }
      if e.request.newToken in tokens || e.id in devices {
        return Conflict;
      }
      devices := devices[e.id := Device(user.value, e.request.name.value, e.time, e.later)];
      tokens := tokens[e.request.newToken := e.id];
      reply := Created(e.id, 0);
    }

    method HandlePostRequest(e: Event) returns (reply: Reply)
      requires e.request.PostRequest?
      modifies this
      ensures Step(old(Db()), e, None, reply, Db())
    {
      var device := DeviceOf(Db(), e.request.token);
      if device.None? {
        return Unauthorized;
      }
      if !ValidPayload(e.request.body) {
        return Invalid;
      }
      DeleteExpired(e.time);
      messages := messages[e.id := RowOf(device.value, PcToPhone, None, e.request.body.value, e.time)];
      if device.value in devices {
        devices := devices[device.value := devices[device.value].(lastSeen := e.time)];
      }
      reply := Created(e.id, e.time + LIFETIME);
    }

    method HandlePostCommand(e: Event) returns (reply: Reply)
      requires e.request.PostCommand?
      modifies this
      ensures Step(old(Db()), e, None, reply, Db())
    {
      var user := UserOf(Db(), e.request.session, e.authTime);
      if user.None? {
        return Unauthorized;
      }
      if !Owns(Db(), user.value, e.request.device) {
        return DeviceNotFound;
      }
      if !ValidPayload(e.request.body) {
        return Invalid;
      }
      DeleteExpired(e.time);
      messages := messages[e.id := RowOf(e.request.device, PhoneToPc, None, e.request.body.value, e.time)];
      reply := Created(e.id, e.time + LIFETIME);
    }

    method HandleGetCommand(e: Event) returns (reply: Reply, pick: Option<Id>)
      requires e.request.GetCommand?
      modifies this
      ensures Step(old(Db()), e, pick, reply, Db())
    {
      var device := DeviceOf(Db(), e.request.token);
      if device.None? {
        return Unauthorized, None;
      }
      pick := SelectOldest(Commands(Db(), device.value, e.time));
      if pick.None? {
        return NoContent, pick;
      }
      reply := Item(pick.value, messages[pick.value].payload);
      SetConsumed(pick.value, e.later);
    }

    /** Reading a request does not consume it. */
    method HandleGetRequest(e: Event) returns (reply: Reply, pick: Option<Id>)
      requires e.request.GetRequest?
      ensures Step(Db(), e, pick, reply, Db())
    {
      var user := UserOf(Db(), e.request.session, e.authTime);
      if user.None? {
        return Unauthorized, None;
      }
      pick := SelectOldest(if Owns(Db(), user.value, e.request.device) then Requests(Db(), e.request.device, e.time)
        else {});
      reply := if pick.None? then NoContent else Item(pick.value, messages[pick.value].payload);
    }

    method HandlePostResponse(e: Event) returns (reply: Reply)
      requires e.request.PostResponse?
      modifies this
      ensures Step(old(Db()), e, None, reply, Db())
    {
      var request := e.request.request;
      var user := UserOf(Db(), e.request.session, e.authTime);
      if user.None? {
        return Unauthorized;
      }
      if !ValidPayload(e.request.body) {
        return Invalid;
      }
      if !Answerable(Db(), user.value, request, e.time) {
        return RequestNotFound;
      }
      if HasResponse(Db(), request) {
        return Conflict;
      }
      var row := RowOf(messages[request].device, PhoneToPc, Some(request), e.request.body.value, e.time);
      SetConsumed(request, e.time);
      messages := messages[e.id := row];
      reply := Accepted;
    }

    method HandleGetResponse(e: Event) returns (reply: Reply, pick: Option<Id>)
      requires e.request.GetResponse?
      modifies this
      ensures Step(old(Db()), e, pick, reply, Db())
    {
      var device := DeviceOf(Db(), e.request.token);
      if device.None? {
        return Unauthorized, None;
      }
      pick := SelectOldest(Responses(Db(), device.value, e.request.request, e.time));
      if pick.None? {
        return NoContent, pick;
      }
      reply := Payload(messages[pick.value].payload);
      SetConsumed(pick.value, e.later);
    }
  }
}
