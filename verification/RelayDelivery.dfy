// What the relay delivers: a message stays until it expires or is consumed, and every poll gets the oldest
// message that is due, or none exactly if there is none (cloud/src/index.ts, lines 65-121).
module RelayDelivery {
  import opened Options
  import opened Relay
  import opened RelayRuns

  /** The call inserts a message. */
  predicate Posts(e: Entry) {
    ((e.event.request.PostRequest? || e.event.request.PostCommand?) && e.reply.Created?)
    || (e.event.request.PostResponse? && e.reply.Accepted?)
  }

  /** The call deletes expired messages. */
  predicate Purges(e: Entry) { (e.event.request.PostRequest? || e.event.request.PostCommand?) && e.reply.Created? }

  /** The call marks this message as consumed: it hands it out, or it is the response to it. */
  predicate Consumes(e: Entry, id: Id) { Returns(e, id) || Answers(e, id) }

  /**
   * The message posted by call i is still there when call j comes: no call in between has consumed it, and none
   * has deleted expired messages 120 seconds after it or later.
   */
  predicate Pending(es: seq<Entry>, i: int, j: int) {
    && 0 <= i < j <= |es| && Posts(es[i])
    && (forall k :: i < k < j && Purges(es[k]) ==> es[k].event.time < es[i].event.time + 120)
    && (forall k :: i < k < j ==> !Consumes(es[k], es[i].event.id))
  }

  // ---- one step ----

  lemma StepInserts(db: Database, e: Entry, next: Database)
    requires Step(db, e.event, e.pick, e.reply, next) && Posts(e)
    ensures e.event.id in next.messages && next.messages[e.event.id].consumed.None?
    ensures next.messages[e.event.id].expires == e.event.time + 120
    ensures next.messages[e.event.id].created == e.event.time
    ensures Wrote(db, e, e.event.id, next.messages[e.event.id])
  {
  }

  lemma WroteIsPost(db: Database, e: Entry, id: Id, m: Message)
    requires Wrote(db, e, id, m)
    ensures Posts(e) && e.event.id == id
  {
  }

  /** A step keeps every unconsumed row that it neither consumes nor finds expired. */
  lemma StepKeeps(db: Database, e: Entry, next: Database, id: Id)
    requires Step(db, e.event, e.pick, e.reply, next)
    requires id in db.messages && db.messages[id].consumed.None? && e.event.id != id
    requires !Consumes(e, id) && (Purges(e) ==> e.event.time < db.messages[id].expires)
    ensures id in next.messages && next.messages[id] == db.messages[id]
  {
  }

  /** What is unconsumed after a step that did not insert it was so before, and was not expired. */
  lemma StepFound(db: Database, e: Entry, next: Database, id: Id)
    requires Step(db, e.event, e.pick, e.reply, next)
    requires id in next.messages && next.messages[id].consumed.None? && e.event.id != id
    ensures id in db.messages && db.messages[id] == next.messages[id]
    ensures !Consumes(e, id) && (Purges(e) ==> e.event.time < db.messages[id].expires)
  {
    hide Step, Wrote, Returns, Answers;
    StepRows(db, e, next, id);
    if Wrote(db, e, id, next.messages[id]) { WroteIsPost(db, e, id, next.messages[id]); }
    if Returns(e, id) { ReturnStep(db, e, next, id); }
    if Answers(e, id) { AnswerStep(db, e, next, id); }
    if Purges(e) { PurgeStep(db, e, next, id); }
  }

  /** When a message was consumed, and when a device was last seen, is noted. */
  lemma TimesAreNoted(db: Database, e: Entry, next: Database, id: Id, device: Id)
    requires Step(db, e.event, e.pick, e.reply, next) && e.event.id != id
    ensures Returns(e, id) ==> id in next.messages && next.messages[id].consumed == Some(e.event.later)
    ensures Answers(e, id) ==> id in next.messages && next.messages[id].consumed == Some(e.event.time)
    ensures device in db.devices && !(e.event.request.PostDevice? && e.event.id == device) ==>
              device in next.devices && next.devices[device] ==
              if e.event.request.PostRequest? && e.reply.Created? && DeviceOf(db, e.event.request.token) == Some(device)
              then db.devices[device].(lastSeen := e.event.time) else db.devices[device]
  {
  }

  lemma PurgeStep(db: Database, e: Entry, next: Database, id: Id)
    requires Step(db, e.event, e.pick, e.reply, next) && Purges(e) && id in next.messages && e.event.id != id
    ensures e.event.time < next.messages[id].expires
  {
  }

  // ---- whole runs ----

  /** A pending message is a row, as it was inserted. */
  lemma {:induction false} PendingIsRow(dbs: seq<Database>, es: seq<Entry>, i: nat, j: nat)
    requires Run(dbs, es) && Pending(es, i, j)
    ensures var id := es[i].event.id;
            && id in dbs[j].messages && dbs[j].messages[id].consumed.None?
            && dbs[j].messages[id].created == es[i].event.time && dbs[j].messages[id].expires == es[i].event.time + 120
            && Wrote(dbs[i], es[i], id, dbs[j].messages[id])
    decreases j
  {
    hide Step, Wrote, Posts, Purges, Consumes;
    if i == j - 1 {
      StepInserts(dbs[i], es[i], dbs[j]);
    } else {
      assert Pending(es, i, j - 1);
      PendingIsRow(dbs, es, i, j - 1);
      StepKeeps(dbs[j - 1], es[j - 1], dbs[j], es[i].event.id);
    }
  }

  /** An unconsumed row is a pending message. */
  lemma {:induction false} RowIsPending(dbs: seq<Database>, es: seq<Entry>, j: nat, id: Id) returns (i: nat)
    requires Run(dbs, es) && j < |dbs| && id in dbs[j].messages && dbs[j].messages[id].consumed.None?
    ensures i < j && Pending(es, i, j) && es[i].event.id == id
    decreases j
  {
    hide Step, Wrote, Posts, Purges, Consumes;
    Origin(dbs, es, j, id);
    var h :| h < j && WrittenAt(dbs, es, h, id, dbs[j].messages[id]);
    WroteIsPost(dbs[h], es[h], id, dbs[j].messages[id].(consumed := None));
    if h == j - 1 {
      i := h;
    } else {
      StepFound(dbs[j - 1], es[j - 1], dbs[j], id);
      i := RowIsPending(dbs, es, j - 1, id);
      PendingIsRow(dbs, es, i, j - 1);
      assert i == h;
    }
  }

  // ---- polling ----

  /** What a poll asks for: commands to a device, requests of a device, or the responses to a device's request. */
  datatype Queue = CommandsTo(device: Id) | RequestsOf(device: Id) | ResponsesTo(request: Id, device: Id)

  /** The queue that call i posted to. */
  predicate PostsTo(db: Database, e: Entry, q: Queue) {
    Posts(e) &&
    match e.event.request
    case PostCommand(_, device, _) => q == CommandsTo(device)
    case PostRequest(token, _) => q.RequestsOf? && DeviceOf(db, token) == Some(q.device)
    case PostResponse(_, request, _) =>
      q.ResponsesTo? && q.request == request && request in db.messages && db.messages[request].device == q.device
    case _ => false
  }

  /** The queue that a call polls: devices their own, users those of their devices. */
  predicate Polls(db: Database, e: Entry, q: Queue) {
    match e.event.request
    case GetCommand(token) => q.CommandsTo? && DeviceOf(db, token) == Some(q.device)
    case GetRequest(session, device) =>
      var user := UserOf(db, session, e.event.authTime);
      q == RequestsOf(device) && user.Some? && Owns(db, user.value, device)
    case GetResponse(token, request) => q.ResponsesTo? && q.request == request && DeviceOf(db, token) == Some(q.device)
    case _ => false
  }

  /** Call i posted to the queue, its message is pending at call j, and call j comes within its 120 seconds. */
  predicate Due(dbs: seq<Database>, es: seq<Entry>, i: int, j: int, q: Queue)
    requires |dbs| == |es| + 1 && 0 <= j < |es|
  {
    Pending(es, i, j) && PostsTo(dbs[i], es[i], q) && es[j].event.time < es[i].event.time + 120
  }

  /** The row belongs to the queue and has not been consumed and not expired. */
  predicate Waits(m: Message, q: Queue, now: int) {
    && m.device == q.device && m.consumed.None? && now < m.expires
    && match q
       case CommandsTo(_) => m.direction.PhoneToPc? && m.request.None?
       case RequestsOf(_) => m.direction.PcToPhone?
       case ResponsesTo(request, _) => m.direction.PhoneToPc? && m.request == Some(request)
  }

  lemma RowOfPost(db: Database, e: Entry, id: Id, m: Message, q: Queue, now: int)
    requires Wrote(db, e, id, m) && m.consumed.None?
    ensures Waits(m, q, now) <==> PostsTo(db, e, q) && now < m.expires
    ensures BodyOf(e.event.request) == Some(m.payload)
  {
  }

  function BodyOf(r: Request): Body {
    match r
    case PostRequest(_, body) => body
    case PostCommand(_, _, body) => body
    case PostResponse(_, _, body) => body
    case _ => None
  }

  /** The call hands out the message: its payload, and the id where the source sends it. */
  predicate HandsOut(e: Entry, id: Id, payload: string) {
    e.pick == Some(id) && e.reply == if e.event.request.GetResponse? then Payload(payload) else Item(id, payload)
  }

  lemma EmptyPoll(db: Database, e: Entry, next: Database, q: Queue)
    requires Step(db, e.event, e.pick, e.reply, next) && Polls(db, e, q)
    ensures e.reply.NoContent? <==> e.pick.None?
    ensures e.pick.None? ==> forall id :: id in db.messages ==> !Waits(db.messages[id], q, e.event.time)
  {
    if e.pick.None? {
      forall id | id in db.messages
        ensures !Waits(db.messages[id], q, e.event.time)
      {
        match q
        case CommandsTo(device) => assert id !in Commands(db, device, e.event.time);
        case RequestsOf(device) => assert id !in Requests(db, device, e.event.time);
        case ResponsesTo(request, device) => assert id !in Responses(db, device, request, e.event.time);
      }
    }
  }

  lemma FullPoll(db: Database, e: Entry, next: Database, q: Queue)
    requires Step(db, e.event, e.pick, e.reply, next) && Polls(db, e, q) && e.pick.Some?
    ensures e.pick.value in db.messages && Waits(db.messages[e.pick.value], q, e.event.time)
    ensures HandsOut(e, e.pick.value, db.messages[e.pick.value].payload)
    ensures !q.ResponsesTo? ==> forall id :: id in db.messages && Waits(db.messages[id], q, e.event.time) ==>
              db.messages[e.pick.value].created <= db.messages[id].created
  {
    if !q.ResponsesTo? {
      forall id | id in db.messages && Waits(db.messages[id], q, e.event.time)
        ensures db.messages[e.pick.value].created <= db.messages[id].created
      {
        match q
        case CommandsTo(device) => assert id in Commands(db, device, e.event.time);
        case RequestsOf(device) => assert id in Requests(db, device, e.event.time);
      }
    }
  }

  lemma DueWaits(dbs: seq<Database>, es: seq<Entry>, i: nat, j: nat, q: Queue)
    requires Run(dbs, es) && j < |es| && Due(dbs, es, i, j, q)
    ensures var id := es[i].event.id;
            id in dbs[j].messages && Waits(dbs[j].messages[id], q, es[j].event.time)
            && dbs[j].messages[id].created == es[i].event.time
  {
    hide Step, Wrote, Posts, Purges, Consumes, PostsTo, Waits, Pending;
    PendingRange(es, i, j);
    PendingIsRow(dbs, es, i, j);
    RowOfPost(dbs[i], es[i], es[i].event.id, dbs[j].messages[es[i].event.id], q, es[j].event.time);
  }

  lemma WaitingIsDue(dbs: seq<Database>, es: seq<Entry>, j: nat, id: Id, q: Queue) returns (i: nat)
    requires Run(dbs, es) && j < |es| && id in dbs[j].messages && Waits(dbs[j].messages[id], q, es[j].event.time)
    ensures i < j && Due(dbs, es, i, j, q) && es[i].event.id == id
    ensures dbs[j].messages[id].created == es[i].event.time
    ensures BodyOf(es[i].event.request) == Some(dbs[j].messages[id].payload)
  {
    hide Step, Wrote, Posts, Purges, Consumes, PostsTo, Pending;
    i := RowIsPending(dbs, es, j, id);
    PendingIsRow(dbs, es, i, j);
    RowOfPost(dbs[i], es[i], id, dbs[j].messages[id], q, es[j].event.time);
  }

  lemma PendingRange(es: seq<Entry>, i: int, j: int)
    requires Pending(es, i, j)
    ensures 0 <= i < j <= |es|
  {
  }

  /** A poll gets nothing if and only if nothing is due. */
  lemma PollFinds(dbs: seq<Database>, es: seq<Entry>, j: nat, q: Queue)
    requires Run(dbs, es) && j < |es| && Polls(dbs[j], es[j], q)
    ensures es[j].reply.NoContent? <==> forall i :: !Due(dbs, es, i, j, q)
  {
    hide Step, Wrote, Posts, Purges, Consumes, PostsTo, Waits, Pending, Polls, Due;
    EmptyPoll(dbs[j], es[j], dbs[j + 1], q);
    if es[j].pick.None? {
      forall i
        ensures !Due(dbs, es, i, j, q)
      {
        if Due(dbs, es, i, j, q) {
          DueRange(dbs, es, i, j, q);
          DueWaits(dbs, es, i, j, q);
        }
      }
    } else {
      FullPoll(dbs[j], es[j], dbs[j + 1], q);
      var i := WaitingIsDue(dbs, es, j, es[j].pick.value, q);
    }
  }

  lemma DueRange(dbs: seq<Database>, es: seq<Entry>, i: int, j: nat, q: Queue)
    requires |dbs| == |es| + 1 && j < |es| && Due(dbs, es, i, j, q)
    ensures 0 <= i < j
  {
  }

  /** Otherwise it gets a message that is due, with its payload, and of commands and requests an oldest one. */
  lemma PollDelivers(dbs: seq<Database>, es: seq<Entry>, j: nat, q: Queue)
    requires Run(dbs, es) && j < |es| && Polls(dbs[j], es[j], q) && !es[j].reply.NoContent?
    ensures exists i :: Due(dbs, es, i, j, q) && BodyOf(es[i].event.request).Some?
                        && HandsOut(es[j], es[i].event.id, BodyOf(es[i].event.request).value)
                        && (q.ResponsesTo? ||
                            forall k :: 0 <= k < j && Due(dbs, es, k, j, q) ==> es[i].event.time <= es[k].event.time)
  {
    hide Step, Wrote, Posts, Purges, Consumes, PostsTo, Waits, Pending, Polls, Due, HandsOut, BodyOf;
    EmptyPoll(dbs[j], es[j], dbs[j + 1], q);
    FullPoll(dbs[j], es[j], dbs[j + 1], q);
    var i := WaitingIsDue(dbs, es, j, es[j].pick.value, q);
    if !q.ResponsesTo? {
      forall k | 0 <= k < j && Due(dbs, es, k, j, q)
        ensures es[i].event.time <= es[k].event.time
      {
        DueWaits(dbs, es, k, j, q);
      }
    }
  }
}
