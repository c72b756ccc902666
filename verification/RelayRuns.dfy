// What holds over every run of the relay: answers and deliveries happen at most once, nothing reaches
// the wrong endpoint or device, nothing outlives its two minutes, and commands keep their order.
module RelayRuns {
  import opened Options
  import opened Relay

  /** One handled call: what came in, what its query picked, and what went out. */
  datatype Entry = Entry(event: Event, pick: Option<Id>, reply: Reply)

  /** A run from empty tables; every call draws a fresh random id. */
  ghost predicate Run(dbs: seq<Database>, es: seq<Entry>) {
    && |dbs| == |es| + 1
    && dbs[0] == Database(map[], map[], map[], map[])
    && (forall i :: 0 <= i < |es| ==> Step(dbs[i], es[i].event, es[i].pick, es[i].reply, dbs[i + 1]))
    && (forall i, j :: 0 <= i < j < |es| ==> es[i].event.id != es[j].event.id)
  }

  /** The entry, handled on tables db, inserted row m under this id. */
  ghost predicate Wrote(db: Database, e: Entry, id: Id, m: Message) {
    e.event.id == id &&
    match e.event.request
    case PostRequest(token, body) =>
      DeviceOf(db, token) == Some(m.device) && e.reply.Created? && ValidPayload(body)
      && m == RowOf(m.device, PcToPhone, None, body.value, e.event.time)
    case PostCommand(session, device, body) =>
      var user := UserOf(db, session, e.event.authTime);
      user.Some? && Owns(db, user.value, device) && e.reply.Created? && ValidPayload(body)
      && m == RowOf(device, PhoneToPc, None, body.value, e.event.time)
    case PostResponse(session, request, body) =>
      var user := UserOf(db, session, e.event.authTime);
      user.Some? && Answerable(db, user.value, request, e.event.time) && e.reply.Accepted? && ValidPayload(body)
      && m == RowOf(db.messages[request].device, PhoneToPc, Some(request), body.value, e.event.time)
    case _ => false
  }

  /** The same row, except that it may have been consumed since. */
  predicate Continues(m: Message, later: Message) {
    later.(consumed := m.consumed) == m && (m.consumed.Some? ==> later.consumed.Some?)
  }

  /** A row is either carried over from before the step or inserted by it. */
  lemma StepRows(db: Database, e: Entry, next: Database, id: Id)
    requires Step(db, e.event, e.pick, e.reply, next) && id in next.messages
    ensures || (id in db.messages && Continues(db.messages[id], next.messages[id]))
            || Wrote(db, e, id, next.messages[id])
  {
  }

  ghost predicate WrittenAt(dbs: seq<Database>, es: seq<Entry>, i: int, id: Id, m: Message)
    requires |dbs| == |es| + 1
  {
    0 <= i < |es| && Wrote(dbs[i], es[i], id, m.(consumed := None))
  }

  /** Every row was inserted by an earlier call. */
  lemma {:induction false} Origin(dbs: seq<Database>, es: seq<Entry>, k: nat, id: Id)
    requires Run(dbs, es) && k < |dbs| && id in dbs[k].messages
    ensures exists i :: i < k && WrittenAt(dbs, es, i, id, dbs[k].messages[id])
  {
    hide Step, Wrote;
    var m := dbs[k].messages[id];
    StepRows(dbs[k - 1], es[k - 1], dbs[k], id);
    if Wrote(dbs[k - 1], es[k - 1], id, m) {
      WroteUnconsumed(dbs[k - 1], es[k - 1], id, m);
      assert WrittenAt(dbs, es, k - 1, id, m);
    } else {
      Origin(dbs, es, k - 1, id);
      var i :| i < k - 1 && WrittenAt(dbs, es, i, id, dbs[k - 1].messages[id]);
      assert m.(consumed := None) == dbs[k - 1].messages[id].(consumed := None);
      assert WrittenAt(dbs, es, i, id, m);
    }
  }

  lemma WroteUnconsumed(db: Database, e: Entry, id: Id, m: Message)
    requires Wrote(db, e, id, m)
    ensures e.event.id == id && m.(consumed := None) == m
  {
  }

  /** Between its insertion and a later sighting a row is there, and unconsumed if it is so later. */
  lemma {:induction false} Persists(dbs: seq<Database>, es: seq<Entry>, i: nat, k: nat, n: nat, id: Id)
    requires Run(dbs, es) && i < k <= n < |dbs| && es[i].event.id == id && id in dbs[n].messages
    ensures id in dbs[k].messages && Continues(dbs[k].messages[id], dbs[n].messages[id])
    decreases n
  {
    hide Step, Wrote;
    if k < n {
      StepRows(dbs[n - 1], es[n - 1], dbs[n], id);
      if Wrote(dbs[n - 1], es[n - 1], id, dbs[n].messages[id]) {
        WroteUnconsumed(dbs[n - 1], es[n - 1], id, dbs[n].messages[id]);
        assert false;
      } else {
        Persists(dbs, es, i, k, n - 1, id);
      }
    }
  }

  // ---- at most once ----

  /** The call is accepted as the response to request q. */
  predicate Answers(e: Entry, q: Id) {
    e.event.request.PostResponse? && e.event.request.request == q && e.reply.Accepted?
  }

  lemma AnswerStep(db: Database, e: Entry, next: Database, q: Id)
    requires Step(db, e.event, e.pick, e.reply, next) && Answers(e, q) && e.event.id != q
    ensures q in db.messages && db.messages[q].consumed.None?
    ensures q in next.messages && next.messages[q].consumed.Some?
  {
  }

  lemma AnswerNeedsLive(db: Database, e: Entry, next: Database, q: Id)
    requires Step(db, e.event, e.pick, e.reply, next) && Answers(e, q)
    ensures q in db.messages && db.messages[q].consumed.None?
  {
  }

  /** Once answered, a request is never live again. */
  lemma AnsweredIsHidden(dbs: seq<Database>, es: seq<Entry>, q: Id, i: nat, n: nat)
    requires Run(dbs, es) && i < n < |dbs| && Answers(es[i], q)
    ensures q in dbs[n].messages ==> dbs[n].messages[q].consumed.Some?
  {
    hide Step, Wrote, Answers;
    if q in dbs[n].messages {
      AnswerNeedsLive(dbs[i], es[i], dbs[i + 1], q);
      Origin(dbs, es, i, q);
      var h :| h < i && WrittenAt(dbs, es, h, q, dbs[i].messages[q]);
      WroteUnconsumed(dbs[h], es[h], q, dbs[i].messages[q].(consumed := None));
      AnswerStep(dbs[i], es[i], dbs[i + 1], q);
      Persists(dbs, es, h, i + 1, n, q);
    }
  }

  /** Each request accepts at most one response in the whole run. */
  lemma OneResponse(dbs: seq<Database>, es: seq<Entry>, q: Id, i: nat, j: nat)
    requires Run(dbs, es) && i < j < |es| && Answers(es[i], q)
    ensures !Answers(es[j], q)
  {
    hide Step, Wrote, Answers;
    if Answers(es[j], q) {
      AnswerNeedsLive(dbs[j], es[j], dbs[j + 1], q);
      AnsweredIsHidden(dbs, es, q, i, j);
      assert false;
    }
  }

  /** The call hands out message id for good. */
  predicate Returns(e: Entry, id: Id) {
    (e.event.request.GetCommand? || e.event.request.GetResponse?) && e.pick == Some(id)
  }

  lemma ReturnStep(db: Database, e: Entry, next: Database, id: Id)
    requires Step(db, e.event, e.pick, e.reply, next) && Returns(e, id)
    ensures id in db.messages && db.messages[id].consumed.None?
    ensures id in next.messages && next.messages[id].consumed.Some?
  {
  }

  /** Each command and each response is returned at most once, even across expiry deletions. */
  lemma ReturnedOnce(dbs: seq<Database>, es: seq<Entry>, id: Id, i: nat, j: nat)
    requires Run(dbs, es) && i < j < |es| && Returns(es[i], id)
    ensures !Returns(es[j], id)
  {
    hide Step, Wrote, Returns;
    if Returns(es[j], id) {
      ReturnStep(dbs[i], es[i], dbs[i + 1], id);
      ReturnStep(dbs[j], es[j], dbs[j + 1], id);
      Origin(dbs, es, i, id);
      var h :| h < i && WrittenAt(dbs, es, h, id, dbs[i].messages[id]);
      WroteUnconsumed(dbs[h], es[h], id, dbs[i].messages[id].(consumed := None));
      Persists(dbs, es, h, i + 1, j, id);
      assert false;
    }
  }

  /** The call returns a response to request q. */
  predicate Fetches(e: Entry, q: Id) {
    e.event.request.GetResponse? && e.event.request.request == q && e.reply.Payload?
  }

  /** A fetched response is a row for its request, with a pick the query selects. */
  lemma FetchStep(db: Database, e: Entry, next: Database, q: Id)
    requires Step(db, e.event, e.pick, e.reply, next) && Fetches(e, q)
    ensures e.pick.Some? && Returns(e, e.pick.value) && e.pick.value in db.messages
    ensures DeviceOf(db, e.event.request.token).Some?
    ensures IsResponse(db.messages[e.pick.value], DeviceOf(db, e.event.request.token).value, q, e.event.time)
    ensures e.reply.payload == db.messages[e.pick.value].payload
  {
  }

  /** The row a fetch returns was inserted by an accepted response to that request. */
  lemma FetchOrigin(dbs: seq<Database>, es: seq<Entry>, q: Id, j: nat)
    requires Run(dbs, es) && j < |es| && Fetches(es[j], q)
    ensures es[j].pick.Some? && es[j].pick.value in dbs[j].messages
    ensures exists i ::
            i < j && WrittenAt(dbs, es, i, es[j].pick.value, dbs[j].messages[es[j].pick.value]) && Answers(es[i], q)
  {
    hide Step, Fetches;
    FetchStep(dbs[j], es[j], dbs[j + 1], q);
    var id := es[j].pick.value;
    Origin(dbs, es, j, id);
    var i :| i < j && WrittenAt(dbs, es, i, id, dbs[j].messages[id]);
    assert Answers(es[i], q);
  }

  /** At most one call in the whole run returns a response to request q. */
  lemma FetchedOnce(dbs: seq<Database>, es: seq<Entry>, q: Id, i: nat, j: nat)
    requires Run(dbs, es) && i < j < |es| && Fetches(es[i], q)
    ensures !Fetches(es[j], q)
  {
    hide Step, Wrote, Answers, Fetches, Returns;
    if Fetches(es[j], q) {
      FetchStep(dbs[i], es[i], dbs[i + 1], q);
      FetchStep(dbs[j], es[j], dbs[j + 1], q);
      FetchOrigin(dbs, es, q, i);
      FetchOrigin(dbs, es, q, j);
      var a :| a < i && WrittenAt(dbs, es, a, es[i].pick.value, dbs[i].messages[es[i].pick.value]) && Answers(es[a], q);
      var b :| b < j && WrittenAt(dbs, es, b, es[j].pick.value, dbs[j].messages[es[j].pick.value]) && Answers(es[b], q);
      WroteUnconsumed(dbs[a], es[a], es[i].pick.value, dbs[i].messages[es[i].pick.value].(consumed := None));
      WroteUnconsumed(dbs[b], es[b], es[j].pick.value, dbs[j].messages[es[j].pick.value].(consumed := None));
      if a < b { OneResponse(dbs, es, q, a, b); } else if b < a { OneResponse(dbs, es, q, b, a); }
      ReturnedOnce(dbs, es, es[i].pick.value, i, j);
      assert false;
    }
  }

  lemma ConflictStep(db: Database, e: Entry, next: Database)
    requires Step(db, e.event, e.pick, e.reply, next) && e.event.request.PostResponse? && e.reply.Conflict?
    ensures var q := e.event.request.request;
            q in db.messages && db.messages[q].consumed.None? && HasResponse(db, q)
  {
  }

  /** The unique index on responses never fires: the check for a live request comes first. */
  lemma IndexNeverFires(dbs: seq<Database>, es: seq<Entry>, j: nat)
    requires Run(dbs, es) && j < |es| && es[j].event.request.PostResponse?
    ensures !es[j].reply.Conflict?
  {
    hide Step, Answers;
    if es[j].reply.Conflict? {
      var q := es[j].event.request.request;
      ConflictStep(dbs[j], es[j], dbs[j + 1]);
      var id :| id in dbs[j].messages && dbs[j].messages[id].direction.PhoneToPc?
        && dbs[j].messages[id].request == Some(q);
      Origin(dbs, es, j, id);
      var i :| i < j && WrittenAt(dbs, es, i, id, dbs[j].messages[id]);
      assert Answers(es[i], q) by { WroteAnswer(dbs[i], es[i], id, dbs[j].messages[id], q); }
      AnsweredIsHidden(dbs, es, q, i, j);
      assert false;
    }
  }

  lemma WroteAnswer(db: Database, e: Entry, id: Id, m: Message, q: Id)
    requires Wrote(db, e, id, m.(consumed := None)) && m.direction.PhoneToPc? && m.request == Some(q)
    ensures Answers(e, q)
  {
  }

  // ---- nothing reaches the wrong device, user or endpoint, or comes too late ----

  /** Devices keep their owner. */
  lemma {:induction false} OwnersStay(dbs: seq<Database>, es: seq<Entry>, k: nat, n: nat, user: User, device: Id)
    requires Run(dbs, es) && k <= n < |dbs| && Owns(dbs[k], user, device)
    ensures Owns(dbs[n], user, device)
    decreases n
  {
    hide Step;
    if k < n {
      OwnersStay(dbs, es, k, n - 1, user, device);
      OwnerStep(dbs[n - 1], es[n - 1], dbs[n], user, device);
    }
  }

  lemma OwnerStep(db: Database, e: Entry, next: Database, user: User, device: Id)
    requires Step(db, e.event, e.pick, e.reply, next) && Owns(db, user, device)
    ensures Owns(next, user, device)
  {
  }

  /** Call i is an accepted response to q with this payload, by the user who owns the device of request q. */
  ghost predicate RespondedBy(dbs: seq<Database>, es: seq<Entry>, i: int, q: Id, device: Id, payload: string,
                              user: User)
    requires |dbs| == |es| + 1
  {
    && 0 <= i < |es| && Answers(es[i], q)
    && UserOf(dbs[i], es[i].event.request.session, es[i].event.authTime) == Some(user)
    && Owns(dbs[i], user, device)
    && es[i].event.request.body == Some(payload)
  }

  /** Call h is request q, posted by this device. */
  ghost predicate RequestedBy(dbs: seq<Database>, es: seq<Entry>, h: int, q: Id, device: Id)
    requires |dbs| == |es| + 1
  {
    && 0 <= h < |es| && es[h].event.request.PostRequest? && es[h].reply.Created? && es[h].event.id == q
    && DeviceOf(dbs[h], es[h].event.request.token) == Some(device)
  }

  /** What a device fetches for request q was posted, for that request, by its owner, less than 120 seconds before. */
  ghost predicate Genuine(dbs: seq<Database>, es: seq<Entry>, h: int, i: int, j: int)
    requires |dbs| == |es| + 1 && 0 <= j < |es| && es[j].event.request.GetResponse? && es[j].reply.Payload?
  {
    var q, device := es[j].event.request.request, DeviceOf(dbs[j], es[j].event.request.token);
    && h < i < j && device.Some?
    && RequestedBy(dbs, es, h, q, device.value)
    && (exists user ::
         Owns(dbs[j], user, device.value) && RespondedBy(dbs, es, i, q, device.value, es[j].reply.payload, user))
    && es[i].event.time < es[h].event.time + LIFETIME
    && es[j].event.time < es[i].event.time + LIFETIME
  }

  lemma WroteResponse(db: Database, e: Entry, id: Id, m: Message, q: Id)
    requires Wrote(db, e, id, m.(consumed := None)) && m.direction.PhoneToPc? && m.request == Some(q)
    ensures Answers(e, q) && m.expires == e.event.time + LIFETIME && e.event.request.body == Some(m.payload)
    ensures q in db.messages && db.messages[q].device == m.device && db.messages[q].direction.PcToPhone?
    ensures db.messages[q].expires > e.event.time
    ensures var user := UserOf(db, e.event.request.session, e.event.authTime);
            user.Some? && Owns(db, user.value, m.device)
  {
  }

  lemma WroteRequest(db: Database, e: Entry, id: Id, m: Message)
    requires Wrote(db, e, id, m.(consumed := None)) && m.direction.PcToPhone?
    ensures e.event.id == id && e.event.request.PostRequest? && e.reply.Created?
    ensures DeviceOf(db, e.event.request.token) == Some(m.device) && e.event.request.body == Some(m.payload)
    ensures m.expires == e.event.time + LIFETIME && m.created == e.event.time
  {
  }

  lemma WroteCommand(db: Database, e: Entry, id: Id, m: Message)
    requires Wrote(db, e, id, m.(consumed := None)) && m.direction.PhoneToPc? && m.request.None?
    ensures e.event.id == id && e.event.request.PostCommand? && e.reply.Created?
    ensures e.event.request.device == m.device && e.event.request.body == Some(m.payload)
    ensures m.expires == e.event.time + LIFETIME && m.created == e.event.time
    ensures var user := UserOf(db, e.event.request.session, e.event.authTime);
            user.Some? && Owns(db, user.value, m.device)
  {
  }

  /** Every delivered response is genuine. */
  lemma ResponsesAreGenuine(dbs: seq<Database>, es: seq<Entry>, j: nat)
    requires Run(dbs, es) && j < |es| && es[j].event.request.GetResponse? && es[j].reply.Payload?
    ensures exists h, i :: Genuine(dbs, es, h, i, j)
  {
    hide Step, Wrote, Answers;
    var q := es[j].event.request.request;
    FetchStep(dbs[j], es[j], dbs[j + 1], q);
    var id := es[j].pick.value;
    var m := dbs[j].messages[id];
    Origin(dbs, es, j, id);
    var i :| i < j && WrittenAt(dbs, es, i, id, m);
    WroteResponse(dbs[i], es[i], id, m, q);
    var user := UserOf(dbs[i], es[i].event.request.session, es[i].event.authTime).value;
    OwnersStay(dbs, es, i, j, user, m.device);
    Origin(dbs, es, i, q);
    var h :| h < i && WrittenAt(dbs, es, h, q, dbs[i].messages[q]);
    WroteRequest(dbs[h], es[h], q, dbs[i].messages[q]);
    assert RespondedBy(dbs, es, i, q, m.device, es[j].reply.payload, user);
    assert Genuine(dbs, es, h, i, j);
  }

  /** Call i is command id, posted to the device by its owner. */
  ghost predicate CommandedBy(dbs: seq<Database>, es: seq<Entry>, i: int, id: Id, device: Id, payload: string,
                              user: User)
    requires |dbs| == |es| + 1
  {
    && 0 <= i < |es| && es[i].event.request.PostCommand? && es[i].reply.Created? && es[i].event.id == id
    && es[i].event.request.device == device && es[i].event.request.body == Some(payload)
    && UserOf(dbs[i], es[i].event.request.session, es[i].event.authTime) == Some(user) && Owns(dbs[i], user, device)
  }

  lemma GetCommandStep(db: Database, e: Entry, next: Database)
    requires Step(db, e.event, e.pick, e.reply, next) && e.event.request.GetCommand? && e.reply.Item?
    ensures var device := DeviceOf(db, e.event.request.token);
            device.Some? && e.pick == Some(e.reply.id) && e.reply.id in Commands(db, device.value, e.event.time)
            && e.reply.payload == db.messages[e.reply.id].payload
            && Oldest(db, Commands(db, device.value, e.event.time), e.pick)
  {
  }

  /** Every delivered command was posted to this device by its owner less than 120 seconds before; never a response. */
  lemma CommandsAreGenuine(dbs: seq<Database>, es: seq<Entry>, j: nat)
    requires Run(dbs, es) && j < |es| && es[j].event.request.GetCommand? && es[j].reply.Item?
    ensures var device := DeviceOf(dbs[j], es[j].event.request.token);
            device.Some? && exists i, user ::
              i < j && CommandedBy(dbs, es, i, es[j].reply.id, device.value, es[j].reply.payload, user)
              && Owns(dbs[j], user, device.value) && es[j].event.time < es[i].event.time + LIFETIME
  {
    hide Step, Wrote, Oldest;
    GetCommandStep(dbs[j], es[j], dbs[j + 1]);
    var id := es[j].reply.id;
    var m := dbs[j].messages[id];
    Origin(dbs, es, j, id);
    var i :| i < j && WrittenAt(dbs, es, i, id, m);
    WroteCommand(dbs[i], es[i], id, m);
    var user := UserOf(dbs[i], es[i].event.request.session, es[i].event.authTime).value;
    OwnersStay(dbs, es, i, j, user, m.device);
    assert CommandedBy(dbs, es, i, id, m.device, es[j].reply.payload, user);
  }

  lemma GetRequestStep(db: Database, e: Entry, next: Database)
    requires Step(db, e.event, e.pick, e.reply, next) && e.event.request.GetRequest? && e.reply.Item?
    ensures var user := UserOf(db, e.event.request.session, e.event.authTime);
            user.Some? && Owns(db, user.value, e.event.request.device)
    ensures e.reply.id in Requests(db, e.event.request.device, e.event.time)
    ensures e.reply.payload == db.messages[e.reply.id].payload
  {
  }

  /**
   * A user sees only requests of own devices, posted by the device less than 120 seconds before and not yet
   * answered.
   */
  lemma RequestsAreGenuine(dbs: seq<Database>, es: seq<Entry>, j: nat)
    requires Run(dbs, es) && j < |es| && es[j].event.request.GetRequest? && es[j].reply.Item?
    ensures var user := UserOf(dbs[j], es[j].event.request.session, es[j].event.authTime);
            var device := es[j].event.request.device;
            user.Some? && Owns(dbs[j], user.value, device)
            && (exists i :: i < j && RequestedBy(dbs, es, i, es[j].reply.id, device)
                  && es[i].event.request.body == Some(es[j].reply.payload)
                  && es[j].event.time < es[i].event.time + LIFETIME)
    ensures forall i :: 0 <= i < j ==> !Answers(es[i], es[j].reply.id)
  {
    hide Step, Wrote, Answers;
    GetRequestStep(dbs[j], es[j], dbs[j + 1]);
    var id := es[j].reply.id;
    var m := dbs[j].messages[id];
    Origin(dbs, es, j, id);
    var i :| i < j && WrittenAt(dbs, es, i, id, m);
    WroteRequest(dbs[i], es[i], id, m);
    assert RequestedBy(dbs, es, i, id, m.device);
    forall a | 0 <= a < j
      ensures !Answers(es[a], id)
    {
      if Answers(es[a], id) { AnsweredIsHidden(dbs, es, id, a, j); }
    }
  }

  // ---- commands come in order ----

  predicate ClockAscends(es: seq<Entry>) {
    forall i, j :: 0 <= i < j < |es| ==> es[i].event.time <= es[j].event.time
  }

  /** With a clock that never runs backwards a device gets its commands in the order they were posted. */
  lemma CommandsInOrder(dbs: seq<Database>, es: seq<Entry>, i: nat, j: nat)
    requires Run(dbs, es) && ClockAscends(es) && i < j < |es|
    requires es[i].event.request.GetCommand? && es[i].reply.Item? && es[j].event.request.GetCommand?
             && es[j].reply.Item?
    requires DeviceOf(dbs[i], es[i].event.request.token) == DeviceOf(dbs[j], es[j].event.request.token)
    ensures es[i].reply.id in dbs[i].messages && es[j].reply.id in dbs[j].messages
    ensures dbs[i].messages[es[i].reply.id].created <= dbs[j].messages[es[j].reply.id].created
  {
    hide Step, Wrote, ClockAscends, Oldest;
    GetCommandStep(dbs[i], es[i], dbs[i + 1]);
    GetCommandStep(dbs[j], es[j], dbs[j + 1]);
    var first, second := es[i].reply.id, es[j].reply.id;
    var m := dbs[j].messages[second];
    Origin(dbs, es, i, first);
    Origin(dbs, es, j, second);
    var a :| a < i && WrittenAt(dbs, es, a, first, dbs[i].messages[first]);
    var b :| b < j && WrittenAt(dbs, es, b, second, m);
    WroteCommand(dbs[a], es[a], first, dbs[i].messages[first]);
    WroteCommand(dbs[b], es[b], second, m);
    ClockBetween(es, a, i);
    ClockBetween(es, i, j);
    if b < i {
      Persists(dbs, es, b, i, j, second);
      OldestFirst(dbs[i], DeviceOf(dbs[i], es[i].event.request.token).value, es[i].event.time, first, second);
    } else {
      ClockBetween(es, i, b);
    }
  }

  lemma ClockBetween(es: seq<Entry>, i: nat, j: nat)
    requires ClockAscends(es) && i <= j < |es|
    ensures es[i].event.time <= es[j].event.time
  {
  }

  lemma OldestFirst(db: Database, device: Id, now: int, first: Id, other: Id)
    requires Oldest(db, Commands(db, device, now), Some(first)) && other in Commands(db, device, now)
    ensures first in db.messages && db.messages[first].created <= db.messages[other].created
  {
  }
}
