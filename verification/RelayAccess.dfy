// Who may do what at the relay, and when a call is refused, in terms of the earlier calls of a run
// (cloud/src/index.ts, lines 17-29 and 53-121).
module RelayAccess {
  import opened Options
  import opened Relay
  import opened RelayRuns
  import opened RelayDelivery

  // ---- devices and their tokens ----

  /** The call registered the device under this token. */
  predicate Registers(e: Entry, token: TokenHash, device: Id) {
    e.event.request.PostDevice? && e.event.request.newToken == token && e.event.id == device && e.reply.Created?
  }

  ghost predicate Registered(es: seq<Entry>, j: nat, token: TokenHash, device: Id)
    requires j <= |es|
  {
    exists i :: 0 <= i < j && Registers(es[i], token, device)
  }

  lemma TokenStep(db: Database, e: Entry, next: Database, token: TokenHash, device: Id)
    requires Step(db, e.event, e.pick, e.reply, next)
    ensures DeviceOf(next, Some(token)) == Some(device) <==>
            DeviceOf(db, Some(token)) == Some(device) || Registers(e, token, device)
  {
  }

  /** A token stands for a device if and only if the device was registered with it. */
  lemma {:induction false} TokenIsRegistered(dbs: seq<Database>, es: seq<Entry>, j: nat, token: TokenHash, device: Id)
    requires Run(dbs, es) && j <= |es|
    ensures DeviceOf(dbs[j], Some(token)) == Some(device) <==> Registered(es, j, token, device)
  {
    hide Step, DeviceOf, Registers;
    if j == 0 {
      assert DeviceOf(dbs[0], Some(token)) == None by { NoTokens(dbs[0], token); }
    } else {
      TokenIsRegistered(dbs, es, j - 1, token, device);
      TokenStep(dbs[j - 1], es[j - 1], dbs[j], token, device);
    }
  }

  lemma NoTokens(db: Database, token: TokenHash)
    requires db.tokens == map[]
    ensures DeviceOf(db, Some(token)) == None
  {
  }

  /** The call registered the device for this user. */
  predicate RegistersFor(db: Database, e: Entry, user: User, device: Id) {
    && e.event.request.PostDevice? && e.event.id == device && e.reply.Created?
    && UserOf(db, e.event.request.session, e.event.authTime) == Some(user)
  }

  ghost predicate RegisteredFor(dbs: seq<Database>, es: seq<Entry>, j: nat, user: User, device: Id)
    requires |dbs| == |es| + 1 && j <= |es|
  {
    exists i :: 0 <= i < j && RegistersFor(dbs[i], es[i], user, device)
  }

  lemma OwnerStep(db: Database, e: Entry, next: Database, user: User, device: Id)
    requires Step(db, e.event, e.pick, e.reply, next)
    ensures Owns(next, user, device) <==> Owns(db, user, device) || RegistersFor(db, e, user, device)
  {
  }

  /** A user owns a device if and only if that user registered it. */
  lemma {:induction false} OwnerRegistered(dbs: seq<Database>, es: seq<Entry>, j: nat, user: User, device: Id)
    requires Run(dbs, es) && j <= |es|
    ensures Owns(dbs[j], user, device) <==> RegisteredFor(dbs, es, j, user, device)
  {
    hide Step, RegistersFor;
    if j > 0 {
      OwnerRegistered(dbs, es, j - 1, user, device);
      hide Owns;
      OwnerStep(dbs[j - 1], es[j - 1], dbs[j], user, device);
    }
  }

  /** A device is stored as it was sent, with the times of the call. */
  lemma DeviceAsSent(db: Database, e: Entry, next: Database)
    requires Step(db, e.event, e.pick, e.reply, next) && e.event.request.PostDevice? && e.reply.Created?
    ensures var user, name := UserOf(db, e.event.request.session, e.event.authTime), e.event.request.name;
            && user.Some? && name.Some? && e.reply.id == e.event.id
            && e.event.id in next.devices
            && next.devices[e.event.id] == Device(user.value, name.value, e.event.time, e.event.later)
  {
  }

  // ---- sessions ----

  /** The last login with this token was that of the user, and its session lasts beyond now. */
  ghost predicate LoggedIn(es: seq<Entry>, j: nat, token: TokenHash, user: User, now: int)
    requires j <= |es|
  {
    exists i :: 0 <= i < j && LogsIn(es[i], token, user, now) && forall k :: i < k < j ==> !UsesToken(es[k], token)
  }

  predicate LogsIn(e: Entry, token: TokenHash, user: User, now: int) {
    UsesToken(e, token) && e.event.request.user == user && now < e.event.request.expires
  }

  predicate UsesToken(e: Entry, token: TokenHash) {
    e.event.request.Login? && e.event.request.newToken == token
  }

  lemma SessionStep(db: Database, e: Entry, next: Database, token: TokenHash, user: User, now: int)
    requires Step(db, e.event, e.pick, e.reply, next)
    ensures UserOf(next, Some(token), now) == Some(user) <==>
            if UsesToken(e, token) then LogsIn(e, token, user, now) else UserOf(db, Some(token), now) == Some(user)
  {
  }

  /** A session token stands for a user if and only if the user has logged in with it and the session has not ended. */
  lemma {:induction false} SessionIsLogin(dbs: seq<Database>, es: seq<Entry>, j: nat, token: TokenHash, user: User,
                                          now: int)
    requires Run(dbs, es) && j <= |es|
    ensures UserOf(dbs[j], Some(token), now) == Some(user) <==> LoggedIn(es, j, token, user, now)
  {
    hide Step, LogsIn, UsesToken;
    if j > 0 {
      SessionIsLogin(dbs, es, j - 1, token, user, now);
      hide UserOf;
      SessionStep(dbs[j - 1], es[j - 1], dbs[j], token, user, now);
      if UsesToken(es[j - 1], token) {
        if LogsIn(es[j - 1], token, user, now) { assert LoggedIn(es, j, token, user, now); }
      } else if LoggedIn(es, j - 1, token, user, now) {
        var i :| 0 <= i < j - 1 && LogsIn(es[i], token, user, now)
                 && forall k :: i < k < j - 1 ==> !UsesToken(es[k], token);
        assert forall k :: i < k < j ==> !UsesToken(es[k], token);
      } else if LoggedIn(es, j, token, user, now) {
        var i :| 0 <= i < j && LogsIn(es[i], token, user, now) && forall k :: i < k < j ==> !UsesToken(es[k], token);
        LoginUses(es[i], token, user, now);
      }
    }
  }

  lemma LoginUses(e: Entry, token: TokenHash, user: User, now: int)
    requires LogsIn(e, token, user, now)
    ensures UsesToken(e, token)
  {
  }

  // ---- refusals ----

  /** A text of this length was sent. */
  predicate HasText(body: Body, least: nat, most: nat) { body.Some? && least <= |body.value| <= most }

  predicate BySession(r: Request) { r.PostDevice? || r.PostCommand? || r.GetRequest? || r.PostResponse? }

  predicate ByToken(r: Request) { r.PostRequest? || r.GetCommand? || r.GetResponse? }

  function SessionOf(r: Request): Option<TokenHash>
    requires BySession(r)
  {
    match r
    case PostDevice(session, _, _) => session
    case PostCommand(session, _, _) => session
    case GetRequest(session, _) => session
    case PostResponse(session, _, _) => session
  }

  function TokenOf(r: Request): Option<TokenHash>
    requires ByToken(r)
  {
    match r
    case PostRequest(token, _) => token
    case GetCommand(token) => token
    case GetResponse(token, _) => token
  }

  /** A call is unauthorized exactly if its session or its token stands for nobody. */
  lemma UnauthorizedExactly(db: Database, e: Entry, next: Database)
    requires Step(db, e.event, e.pick, e.reply, next)
    ensures BySession(e.event.request) ==>
              (e.reply.Unauthorized? <==> UserOf(db, SessionOf(e.event.request), e.event.authTime).None?)
    ensures ByToken(e.event.request) ==> (e.reply.Unauthorized? <==> DeviceOf(db, TokenOf(e.event.request)).None?)
  {
  }

  /** The text of a call that is refused for nothing else must have the right length. */
  lemma InvalidExactly(db: Database, e: Entry, next: Database)
    requires Step(db, e.event, e.pick, e.reply, next)
    ensures e.event.request.PostDevice? && !e.reply.Unauthorized? ==>
              (e.reply.Invalid? <==> !HasText(e.event.request.name, 1, 80))
    ensures e.event.request.PostRequest? && !e.reply.Unauthorized? ==>
              if HasText(e.event.request.body, 2, 8192) then e.reply == Created(e.event.id, e.event.time + 120)
              else e.reply.Invalid?
    ensures e.event.request.PostResponse? && !e.reply.Unauthorized? ==>
              (e.reply.Invalid? <==> !HasText(e.event.request.body, 2, 8192))
  {
  }

  /** A command is posted exactly if the device is the user's and the text has the right length. */
  lemma CommandExactly(db: Database, e: Entry, next: Database)
    requires Step(db, e.event, e.pick, e.reply, next) && e.event.request.PostCommand? && !e.reply.Unauthorized?
    ensures var r, user := e.event.request, UserOf(db, e.event.request.session, e.event.authTime);
            && user.Some?
            && e.reply == if !Owns(db, user.value, r.device) then DeviceNotFound
                          else if HasText(r.body, 2, 8192) then Created(e.event.id, e.event.time + 120)
                          else Invalid
  {
  }

  /** Call i posted the request that call j answers, it is due, and its device is the user's. */
  predicate AnswersDue(dbs: seq<Database>, es: seq<Entry>, i: int, j: int, user: User, device: Id)
    requires |dbs| == |es| + 1 && 0 <= j < |es| && es[j].event.request.PostResponse?
  {
    && 0 <= i < j && es[i].event.id == es[j].event.request.request
    && Due(dbs, es, i, j, RequestsOf(device)) && Owns(dbs[j], user, device)
  }

  lemma AnswerableWaits(db: Database, user: User, request: Id, now: int)
    ensures Answerable(db, user, request, now) <==>
            request in db.messages && Owns(db, user, db.messages[request].device)
            && Waits(db.messages[request], RequestsOf(db.messages[request].device), now)
  {
  }

  lemma ResponseStep(db: Database, e: Entry, next: Database)
    requires Step(db, e.event, e.pick, e.reply, next) && e.event.request.PostResponse?
    requires !e.reply.Unauthorized? && !e.reply.Invalid? && !e.reply.Conflict?
    ensures var user := UserOf(db, e.event.request.session, e.event.authTime);
            && user.Some?
            && e.reply == if Answerable(db, user.value, e.event.request.request, e.event.time) then Accepted
                          else RequestNotFound
  {
  }

  lemma WaitsForDevice(m: Message, device: Id, now: int)
    requires Waits(m, RequestsOf(device), now)
    ensures m.device == device
  {
  }

  /** A response with a valid text is accepted exactly if the request is due and its device is the user's. */
  lemma ResponseExactly(dbs: seq<Database>, es: seq<Entry>, j: nat)
    requires Run(dbs, es) && j < |es| && es[j].event.request.PostResponse?
    requires !es[j].reply.Unauthorized? && !es[j].reply.Invalid?
    ensures var user := UserOf(dbs[j], es[j].event.request.session, es[j].event.authTime);
            && user.Some?
            && es[j].reply == (if exists i, device :: AnswersDue(dbs, es, i, j, user.value, device) then Accepted
                               else RequestNotFound)
  {
    hide Step, Due, Owns, UserOf, Answerable, Waits;
    IndexNeverFires(dbs, es, j);
    ResponseStep(dbs[j], es[j], dbs[j + 1]);
    var user := UserOf(dbs[j], es[j].event.request.session, es[j].event.authTime).value;
    var q, now := es[j].event.request.request, es[j].event.time;
    AnswerableWaits(dbs[j], user, q, now);
    if Answerable(dbs[j], user, q, now) {
      var device := dbs[j].messages[q].device;
      var i := WaitingIsDue(dbs, es, j, q, RequestsOf(device));
      assert AnswersDue(dbs, es, i, j, user, device);
    } else if i, device :| AnswersDue(dbs, es, i, j, user, device) {
      DueWaits(dbs, es, i, j, RequestsOf(device));
      WaitsForDevice(dbs[j].messages[q], device, now);
    }
  }
}
