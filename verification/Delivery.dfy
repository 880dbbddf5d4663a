/**
 * Offline delivery as a protocol: the outbox handlers, the network that loses, repeats and
 * delays what is sent, and the client that asks for pending messages, takes them and acknowledges.
 */
module Delivery {
  import opened Text
  import opened Outbox

  /**
   * A client as the protocol sees it. `requests` counts the X-PENDING requests it sent and `served`
   * those the server answered; `last` is the latest batch it was answered with, and `log` every
   * message handed to `receiveText`, in order.
   */
  datatype Client = Client(requests: nat, served: nat, last: seq<Mid>, log: seq<Mid>)

  /**
   * Whatever was sent stays in the network: it may arrive any number of times, at any time, or never.
   * An answer carries which request of its client it answers, as its transaction does, and an
   * acknowledgement which answer made the client send it.
   */
  datatype Packet =
    | Push(to: Endpoint, mid: Mid)
    | Response(from: Endpoint, mid: Mid, status: int)
    | Reply(to: Endpoint, nth: nat, batch: seq<Mid>)
    | Ack(from: Endpoint, nth: nat)

  /** `texts` remembers the event each text message came with, `sent` every message ever stored. */
  datatype State = State(
    db: Tables, policy: string, clients: map<Endpoint, Client>, net: set<Packet>,
    texts: map<Mid, Event>, sent: map<Mid, Message>)

  datatype Action =
    | TextArrives(ev: Event, stored: bool)
    | AdminPosts(ev: Event, to: int, text: string, sender: int, display: string, expires: int, stored: bool)
    | AddEndpoint(e: Endpoint, row: EndpointRow)
    | Copy(source: Endpoint, target: Endpoint)
    | Sync(e: Endpoint)
    | TakePush(e: Endpoint, mid: Mid)
    | FailPush(e: Endpoint, mid: Mid, status: int)
    | TakeResponse(e: Endpoint, mid: Mid, status: int)
    | Request(e: Endpoint)
    | Serve(e: Endpoint, batch: seq<Mid>)
    | TakeReply(e: Endpoint, nth: nat, batch: seq<Mid>)
    | TakeAck(e: Endpoint, nth: nat)
    | DeleteMessages(mids: set<Mid>)
    | DeleteEndpoints(es: set<Endpoint>)

  type Clients = map<Endpoint, Client>

  function ClientOf(cs: Clients, e: Endpoint): Client {
    if e in cs then cs[e] else Client(0, 0, [], [])
  }

  function Handed(cs: Clients, e: Endpoint): set<Mid> { Elems(ClientOf(cs, e).log) }

  function Pushes(sends: set<Endpoint>, m: Mid): set<Packet> { set e | e in sends :: Push(e, m) }

  /** Tables after a post, and the packets and memories that come with it. */
  function AfterPost(s: State, p: Posting, text: Option<Event>): State {
    if p.tables == s.db then s
    else
      var m := s.db.nextMid;
      s.(db := p.tables, net := s.net + Pushes(p.sends, m),
         texts := if text.Some? then s.texts[m := text.value] else s.texts,
         sent := if m in p.tables.messages then s.sent[m := p.tables.messages[m]] else s.sent)
  }

  /** Deleted parents take their outbox rows with them. */
  function Without(t: Tables, mids: set<Mid>, es: set<Endpoint>): Tables {
    t.(messages := t.messages - mids, endpoints := t.endpoints - es,
       outboxes := map k | k in t.outboxes && k.0 !in es && k.1 !in mids :: t.outboxes[k])
  }

  /**
   * When a step may happen. Requests may be lost, late or overtake each other, and the server answers
   * each at most once. The one thing asked of the network: an acknowledgement that arrives does so
   * before a later request of its client is served.
   */
  predicate Enabled(s: State, a: Action) {
    match a
    case AddEndpoint(e, row) => e >= 1 && e !in s.db.endpoints && e !in s.clients &&
      forall f <- s.db.endpoints :: s.db.endpoints[f] != row
    case TakePush(e, m) => Push(e, m) in s.net
    case FailPush(e, m, status) => Push(e, m) in s.net && status > SIP_OK
    case TakeResponse(e, m, status) => Response(e, m, status) in s.net
    case Serve(e, batch) =>
      ClientOf(s.clients, e).served < ClientOf(s.clients, e).requests && Distinct(batch) && Elems(batch) == Pending(s.db, e)
    case TakeReply(e, nth, batch) => Reply(e, nth, batch) in s.net
    case TakeAck(e, nth) => Ack(e, nth) in s.net && nth == ClientOf(s.clients, e).served
    case _ => true
  }

  function Step(s: State, a: Action): State {
    match a
    case TextArrives(ev, stored) => AfterPost(s, LocalMessage(s.db, s.policy, ev, stored), Some(ev))
    case AdminPosts(ev, to, text, sender, display, expires, stored) =>
      AfterPost(s, AdminMessage(s.db, ev, to, text, sender, display, expires, stored), None)
    case AddEndpoint(e, row) => s.(db := s.db.(endpoints := s.db.endpoints[e := row]))
    case Copy(source, target) => s.(db := CopyOutbox(s.db, source, target))
    case Sync(e) => s.(db := SyncOutbox(s.db, e))
    case TakePush(e, m) =>
      var c := ClientOf(s.clients, e);
      s.(clients := s.clients[e := c.(log := c.log + [m])], net := s.net + {Response(e, m, SIP_OK)})
    case FailPush(e, m, status) => s.(net := s.net + {Response(e, m, status)})
    case TakeResponse(e, m, status) => s.(db := MessageResponse(s.db, m, e, status))
    case Request(e) =>
      var c := ClientOf(s.clients, e);
      s.(clients := s.clients[e := c.(requests := c.requests + 1)])
    case Serve(e, batch) =>
      var c := ClientOf(s.clients, e);
      s.(db := SendPending(s.db, e), clients := s.clients[e := c.(served := c.served + 1, last := batch)],
         net := s.net + {Reply(e, c.served + 1, batch)})
    case TakeReply(e, nth, batch) =>
      var c := ClientOf(s.clients, e);
      if batch == [] then s        // an answer without a body is not passed on, nor acknowledged
      else s.(clients := s.clients[e := c.(log := c.log + batch)], net := s.net + {Ack(e, nth)})
    case TakeAck(e, nth) => s.(db := ChangePending(s.db, e))
    case DeleteMessages(mids) => s.(db := Without(s.db, mids, {}))
    case DeleteEndpoints(es) => s.(db := Without(s.db, {}, es))
  }

  /**
   * The message is a text of a labelled sender and the endpoint the sender's own device or its
   * extension's unlabelled one.
   */
  predicate SendersOwn(endpoints: map<Endpoint, EndpointRow>, texts: map<Mid, Event>, k: (Endpoint, Mid)) {
    && k.0 in endpoints && k.1 in texts && Labelled(texts[k.1])
    && endpoints[k.0].extension == texts[k.1].number
    && endpoints[k.0].device in {texts[k.1].device, UNLABELLED}
  }

  /** The claim: a row is done only if the sender had the message or the client was handed it. */
  ghost predicate Safe(s: State) {
    forall k <- s.db.outboxes | s.db.outboxes[k] == SIP_OK :: SendersOwn(s.db.endpoints, s.texts, k) || k.1 in Handed(s.clients, k.0)
  }

  /** Rows being tried went out in the batch the latest request was answered with. */
  ghost predicate TriedRowsWereServed(s: State) {
    forall k <- s.db.outboxes | s.db.outboxes[k] == TRYING :: k.1 in ClientOf(s.clients, k.0).last
  }

  ghost predicate GoodPacket(cs: Clients, sent: map<Mid, Message>, p: Packet) {
    match p
    case Push(e, m) => m in sent
    case Response(e, m, status) => status >= SIP_OK && (status == SIP_OK ==> m in Handed(cs, e))
    case Reply(e, nth, batch) =>
      var c := ClientOf(cs, e);
      nth <= c.served && (nth == c.served ==> c.last == batch) && Elems(batch) <= sent.Keys
    case Ack(e, nth) =>
      var c := ClientOf(cs, e);
      nth <= c.served && (nth == c.served ==> Elems(c.last) <= Handed(cs, e))
  }

  /** What was ever stored is remembered, under ids that come before the next one. */
  ghost predicate Remembered(s: State) {
    && Sound(s.db)
    && (forall m <- s.db.messages :: m in s.sent && s.sent[m] == s.db.messages[m])
    && (forall m <- s.sent :: m < s.db.nextMid)
    && (forall m <- s.texts :: m in s.sent && Carries(s.sent[m], s.texts[m]))
  }

  ghost predicate Inv(s: State) {
    && Remembered(s)
    && (forall e <- s.clients :: Handed(s.clients, e) <= s.sent.Keys && s.clients[e].served <= s.clients[e].requests)
    && (forall p <- s.net :: GoodPacket(s.clients, s.sent, p))
    && TriedRowsWereServed(s)
    && Safe(s)
  }

  ghost predicate Init(s: State) {
    Sound(s.db) && s.db.outboxes == map[] && s.sent == s.db.messages &&
    s.clients == map[] && s.net == {} && s.texts == map[]
  }

  // ---- every step keeps the invariant ----

  /** Steps that only rewrite tables: no row may become tried, and none done unless handed over. */
  lemma TablesChange(s: State, t: Tables)
    requires Inv(s) && Sound(t) && t.nextMid == s.db.nextMid
    requires forall m <- t.messages :: m in s.db.messages && t.messages[m] == s.db.messages[m]
    requires forall k <- t.outboxes | t.outboxes[k] == TRYING :: k in s.db.outboxes && s.db.outboxes[k] == TRYING
    requires forall k <- t.outboxes | t.outboxes[k] == SIP_OK ::
      k.1 in Handed(s.clients, k.0) || (k in s.db.outboxes && s.db.outboxes[k] == SIP_OK)
    requires forall e <- t.endpoints | e in s.db.endpoints :: t.endpoints[e] == s.db.endpoints[e]
    ensures Inv(s.(db := t))
  {
    hide GoodPacket;
    forall k | k in t.outboxes && t.outboxes[k] == SIP_OK
      ensures SendersOwn(t.endpoints, s.texts, k) || k.1 in Handed(s.clients, k.0)
    {
    }
  }

  /** One client moves on without being served, and packets are added that are good afterwards. */
  lemma ClientChange(s: State, e: Endpoint, c: Client, more: set<Packet>)
    requires Inv(s)
    requires var was := ClientOf(s.clients, e);
      && Elems(was.log) <= Elems(c.log) <= s.sent.Keys && was.requests <= c.requests
      && c.served == was.served && c.last == was.last
    requires forall p <- more :: GoodPacket(s.clients[e := c], s.sent, p)
    ensures Inv(s.(clients := s.clients[e := c], net := s.net + more))
  {
    hide SendersOwn;
    var cs := s.clients[e := c];
    forall p | p in s.net
      ensures GoodPacket(cs, s.sent, p)
    {
      assert GoodPacket(s.clients, s.sent, p);
    }
  }

  /** Each row of a post: an older one keeps its status, a new one is done only on the sender's own devices. */
  lemma PostedRow(
    s: State, msg: Message, all: set<Endpoint>, done: set<Endpoint>, texts: map<Mid, Event>, k: (Endpoint, Mid))
    requires Remembered(s) && Safe(s) && TriedRowsWereServed(s) && all <= s.db.endpoints.Keys && done <= all
    requires k in Posted(s.db, msg, all, done).outboxes
    requires forall m <- s.texts :: m in texts && texts[m] == s.texts[m]
    requires forall e <- done :: SendersOwn(s.db.endpoints, texts, (e, s.db.nextMid))
    ensures var status := Posted(s.db, msg, all, done).outboxes[k];
      && (status == SIP_OK ==> SendersOwn(s.db.endpoints, texts, k) || k.1 in Handed(s.clients, k.0))
      && (status == TRYING ==> k.1 in ClientOf(s.clients, k.0).last)
  {
    PostedRows(s.db, msg, all, done);
    if k.1 == s.db.nextMid {
      assert k == (k.0, s.db.nextMid);
    }
  }

  lemma PostedIsRemembered(s: State, msg: Message, all: set<Endpoint>, done: set<Endpoint>, text: Option<Event>)
    requires Remembered(s) && all <= s.db.endpoints.Keys && (text.Some? ==> Carries(msg, text.value))
    ensures var t := Posted(s.db, msg, all, done);
      Remembered(s.(db := t, sent := s.sent[s.db.nextMid := msg],
                    texts := if text.Some? then s.texts[s.db.nextMid := text.value] else s.texts))
  {
    PostedRows(s.db, msg, all, done);
  }

  /** A post keeps the invariant if the rows it files as done are those of a labelled sender's own devices. */
  lemma PostKeepsInv(s: State, p: Posting, msg: Message, all: set<Endpoint>, done: set<Endpoint>, text: Option<Event>)
    requires Inv(s) && all <= s.db.endpoints.Keys && done <= all
    requires p.tables == Posted(s.db, msg, all, done) && (text.Some? ==> Carries(msg, text.value))
    requires done == if text.Some? then OwnCopies(s.db, text.value) else {}
    ensures Inv(AfterPost(s, p, text))
  {
    assert forall m <- s.sent :: m < s.db.nextMid;
    hide SendersOwn, GoodPacket, Remembered, Safe, TriedRowsWereServed;
    PostedIsRemembered(s, msg, all, done, text);
    PostedPackets(s, p, text);
    PostedRowsAreSafe(s, p, msg, all, done, text);
  }

  lemma PostedPackets(s: State, p: Posting, text: Option<Event>)
    requires forall q <- s.net :: GoodPacket(s.clients, s.sent, q)
    requires s.db.nextMid in p.tables.messages && forall m <- s.sent :: m < s.db.nextMid
    ensures var s' := AfterPost(s, p, text); forall q <- s'.net :: GoodPacket(s'.clients, s'.sent, q)
  {
    var s' := AfterPost(s, p, text);
    forall q | q in s'.net
      ensures GoodPacket(s'.clients, s'.sent, q)
    {
      assert (q.Push? && q.mid == s.db.nextMid) || GoodPacket(s.clients, s.sent, q);
    }
  }

  lemma PostedRowsAreSafe(s: State, p: Posting, msg: Message, all: set<Endpoint>, done: set<Endpoint>, text: Option<Event>)
    requires Inv(s) && all <= s.db.endpoints.Keys && done <= all
    requires p.tables == Posted(s.db, msg, all, done)
    requires done == if text.Some? then OwnCopies(s.db, text.value) else {}
    ensures Safe(AfterPost(s, p, text)) && TriedRowsWereServed(AfterPost(s, p, text))
  {
    hide GoodPacket;
    var s' := AfterPost(s, p, text);
    assert forall e <- done :: SendersOwn(s.db.endpoints, s'.texts, (e, s.db.nextMid));
    assert forall m <- s.texts :: m in s'.texts && s'.texts[m] == s.texts[m];
    hide SendersOwn;
    forall k | k in s'.db.outboxes
      ensures s'.db.outboxes[k] == SIP_OK ==> SendersOwn(s'.db.endpoints, s'.texts, k) || k.1 in Handed(s'.clients, k.0)
      ensures s'.db.outboxes[k] == TRYING ==> k.1 in ClientOf(s'.clients, k.0).last
    {
      PostedRow(s, msg, all, done, s'.texts, k);
    }
  }

  lemma ServedPackets(s: State, e: Endpoint, batch: seq<Mid>)
    requires Inv(s) && Elems(batch) == Pending(s.db, e)
    ensures var s' := Step(s, Serve(e, batch)); forall p <- s'.net :: GoodPacket(s'.clients, s'.sent, p)
  {
    var s' := Step(s, Serve(e, batch));
    assert forall f :: Handed(s'.clients, f) == Handed(s.clients, f);
    forall m | m in Pending(s.db, e)
      ensures m in s.sent
    {
      assert m in s.db.messages;
    }
    hide Remembered, Safe, TriedRowsWereServed;
    forall p | p in s'.net
      ensures GoodPacket(s'.clients, s'.sent, p)
    {
      assert p == Reply(e, ClientOf(s.clients, e).served + 1, batch) || GoodPacket(s.clients, s.sent, p);
    }
  }

  lemma ServedRows(s: State, e: Endpoint, batch: seq<Mid>)
    requires Remembered(s) && Safe(s) && TriedRowsWereServed(s) && Elems(batch) == Pending(s.db, e)
    ensures var s' := Step(s, Serve(e, batch)); Safe(s') && TriedRowsWereServed(s')
  {
    hide SendersOwn, GoodPacket;
    var s' := Step(s, Serve(e, batch));
    forall k | k in s'.db.outboxes && s'.db.outboxes[k] == TRYING
      ensures k.1 in ClientOf(s'.clients, k.0).last
    {
      if k.0 == e {
        assert k == (e, k.1);
        assert k.1 in Pending(s.db, e);
      }
    }
  }

  lemma ServeKeepsInv(s: State, e: Endpoint, batch: seq<Mid>)
    requires Inv(s) && Enabled(s, Serve(e, batch))
    ensures Inv(Step(s, Serve(e, batch)))
  {
    hide SendersOwn, GoodPacket, Safe, TriedRowsWereServed;
    ServedPackets(s, e, batch);
    ServedRows(s, e, batch);
  }

  /** An acknowledgement changes no row outside the batch it answers, all of which was handed over. */
  lemma AckMarksItsBatch(s: State, e: Endpoint, nth: nat)
    requires Inv(s) && Enabled(s, TakeAck(e, nth))
    ensures var c := ClientOf(s.clients, e);
      Elems(c.last) <= Handed(s.clients, e) &&
      forall k <- s.db.outboxes | Step(s, TakeAck(e, nth)).db.outboxes[k] != s.db.outboxes[k] ::
        k.0 == e && k.1 in c.last
  {
    assert GoodPacket(s.clients, s.sent, Ack(e, nth));
  }

  lemma TextKeepsInv(s: State, ev: Event, stored: bool)
    requires Inv(s)
    ensures Inv(Step(s, TextArrives(ev, stored)))
  {
    var p := LocalMessage(s.db, s.policy, ev, stored);
    if p.tables != s.db {
      PostKeepsInv(s, p, Compose(ev), Recipients(s.db, s.policy, ev), OwnCopies(s.db, ev), Some(ev));
    }
  }

  lemma AdminKeepsInv(s: State, a: Action)
    requires Inv(s) && a.AdminPosts?
    ensures Inv(Step(s, a))
  {
    if a.stored {
      var p := AdminMessage(s.db, a.ev, a.to, a.text, a.sender, a.display, a.expires, true);
      var msg := ComposeAdmin(a.ev, a.to, a.text, a.sender, a.display, a.expires);
      PostKeepsInv(s, p, msg, EndpointsOf(s.db, a.to), {}, None);
    }
  }

  // The steps in which only the tables change.

  lemma ParentStepKeepsInv(s: State, a: Action)
    requires Inv(s) && Enabled(s, a) && (a.AddEndpoint? || a.DeleteMessages? || a.DeleteEndpoints?)
    ensures Inv(Step(s, a))
  {
    hide GoodPacket, SendersOwn;
    TablesChange(s, Step(s, a).db);
  }

  lemma OutboxStepKeepsInv(s: State, a: Action)
    requires Inv(s) && Enabled(s, a) && (a.Copy? || a.Sync?)
    ensures Inv(Step(s, a))
  {
    hide GoodPacket, SendersOwn;
    if a.Copy? {
      CopiedRows(s.db, a.source, a.target);
    }
    TablesChange(s, Step(s, a).db);
  }

  lemma AnswerStepKeepsInv(s: State, a: Action)
    requires Inv(s) && Enabled(s, a) && (a.TakeResponse? || a.TakeAck?)
    ensures Inv(Step(s, a))
  {
    hide SendersOwn;
    if a.TakeResponse? {
      assert GoodPacket(s.clients, s.sent, Response(a.e, a.mid, a.status));
    } else {
      AckMarksItsBatch(s, a.e, a.nth);
    }
    TablesChange(s, Step(s, a).db);
  }

  // The steps of a client.

  lemma PushStepKeepsInv(s: State, a: Action)
    requires Inv(s) && Enabled(s, a) && (a.TakePush? || a.FailPush?)
    ensures Inv(Step(s, a))
  {
    hide SendersOwn;
    assert GoodPacket(s.clients, s.sent, Push(a.e, a.mid));
    if a.TakePush? {
      var c := ClientOf(s.clients, a.e);
      ClientChange(s, a.e, c.(log := c.log + [a.mid]), {Response(a.e, a.mid, SIP_OK)});
    }
  }

  lemma RequestStepKeepsInv(s: State, e: Endpoint)
    requires Inv(s)
    ensures Inv(Step(s, Request(e)))
  {
    hide SendersOwn, Remembered, GoodPacket;
    var c := ClientOf(s.clients, e);
    ClientChange(s, e, c.(requests := c.requests + 1), {});
    assert s.net + {} == s.net;
  }

  lemma ReplyStepKeepsInv(s: State, e: Endpoint, nth: nat, batch: seq<Mid>)
    requires Inv(s) && Enabled(s, TakeReply(e, nth, batch))
    ensures Inv(Step(s, TakeReply(e, nth, batch)))
  {
    hide SendersOwn, Remembered;
    if batch != [] {
      var c := ClientOf(s.clients, e);
      assert GoodPacket(s.clients, s.sent, Reply(e, nth, batch));
      ClientChange(s, e, c.(log := c.log + batch), {Ack(e, nth)});
    }
  }

  lemma StepKeepsInv(s: State, a: Action)
    requires Inv(s) && Enabled(s, a)
    ensures Inv(Step(s, a))
  {
    match a {
      case TextArrives(ev, stored) => TextKeepsInv(s, ev, stored);
      case AdminPosts(_, _, _, _, _, _, _) => AdminKeepsInv(s, a);
      case Serve(e, batch) => ServeKeepsInv(s, e, batch);
      case TakePush(_, _) => PushStepKeepsInv(s, a);
      case FailPush(_, _, _) => PushStepKeepsInv(s, a);
      case Request(e) => RequestStepKeepsInv(s, e);
      case TakeReply(e, nth, batch) => ReplyStepKeepsInv(s, e, nth, batch);
      case Copy(_, _) => OutboxStepKeepsInv(s, a);
      case Sync(_) => OutboxStepKeepsInv(s, a);
      case TakeResponse(_, _, _) => AnswerStepKeepsInv(s, a);
      case TakeAck(_, _) => AnswerStepKeepsInv(s, a);
      case _ => ParentStepKeepsInv(s, a);
    }
  }

  // ---- whole runs ----

  ghost predicate Runs(s: State, run: seq<Action>)
    decreases |run|
  {
    run == [] || (Enabled(s, run[0]) && Runs(Step(s, run[0]), run[1..]))
  }

  function After(s: State, run: seq<Action>): State
    decreases |run|
  {
    if run == [] then s else After(Step(s, run[0]), run[1..])
  }

  /**
   * No run, however the network behaves, marks a message done for an endpoint that is neither one of
   * its labelled sender's own two nor one whose client was handed the message.
   */
  lemma {:induction false} EveryRunIsSafe(s: State, run: seq<Action>)
    requires Inv(s) && Runs(s, run)
    ensures Inv(After(s, run)) && Safe(After(s, run))
    decreases |run|
  {
    if run != [] {
      StepKeepsInv(s, run[0]);
      EveryRunIsSafe(Step(s, run[0]), run[1..]);
    }
  }

  lemma EveryRunFromTheStartIsSafe(s: State, run: seq<Action>)
    requires Init(s) && Runs(s, run)
    ensures Inv(After(s, run)) && Safe(After(s, run))
  {
    assert forall e :: Handed(s.clients, e) == {};
    EveryRunIsSafe(s, run);
  }

  /** What a client is handed of a text is what its event said, in every reachable state. */
  lemma HandedCarries(s: State, run: seq<Action>, e: Endpoint, m: Mid)
    requires Init(s) && Runs(s, run)
    requires var t := After(s, run); m in Handed(t.clients, e) && m in t.texts
    ensures var t := After(s, run); m in t.sent && Carries(t.sent[m], t.texts[m])
  {
    hide Runs, After, Carries, GoodPacket;
    EveryRunFromTheStartIsSafe(s, run);
  }

  // ---- who gets a message ----

  /** The message is for the public lobby. */
  ghost predicate ForLobby(t: Tables, policy: string, ev: Event) {
    policy == "public" && forall x :: Addresses(t, ev, x) <==> x == 0
  }

  /** Whether a text message is for an endpoint, told by the tables alone. */
  ghost predicate IsFor(t: Tables, policy: string, ev: Event, e: Endpoint)
    requires e in t.endpoints
  {
    var row := t.endpoints[e];
    (ev.number > 0 && ev.device != "NONE" && row.extension == ev.number)
    || if ForLobby(t, policy, ev) then row.device != "NONE" else Addresses(t, ev, row.extension)
  }

  /** The sender's own device, and the unlabelled one of its extension, have the message already. */
  ghost predicate HasAlready(t: Tables, ev: Event, e: Endpoint)
    requires e in t.endpoints
  {
    var row := t.endpoints[e];
    ev.number > 0 && ev.device != "NONE" && row.extension == ev.number && (row.device == ev.device || row.device == "NONE")
  }

  lemma LobbyAre(t: Tables, policy: string, ev: Event)
    ensures ForLobby(t, policy, ev) <==> Targets(t, ev) == {0} && policy == "public"
  {
    hide Targets, Addresses;
    forall x
      ensures x in Targets(t, ev) <==> Addresses(t, ev, x)
    {
      TargetsAre(t, ev, x);
    }
    if forall x :: Addresses(t, ev, x) <==> x == 0 {
      assert forall x :: x in Targets(t, ev) <==> x in {0};
    } else {
      var x :| Addresses(t, ev, x) != (x == 0);
      assert x in Targets(t, ev) <==> x !in {0};
    }
  }

  /** The sets of the handler, endpoint by endpoint. */
  lemma RecipientsAre(t: Tables, policy: string, ev: Event)
    ensures forall e :: e in Recipients(t, policy, ev) <==> e in t.endpoints && IsFor(t, policy, ev, e)
    ensures forall e :: e in OwnCopies(t, ev) <==> e in t.endpoints && HasAlready(t, ev, e)
    ensures OwnCopies(t, ev) <= Recipients(t, policy, ev) <= t.endpoints.Keys
  {
    LobbyAre(t, policy, ev);
    forall e | e in t.endpoints
      ensures t.endpoints[e].extension in Targets(t, ev) <==> Addresses(t, ev, t.endpoints[e].extension)
    {
      TargetsAre(t, ev, t.endpoints[e].extension);
    }
    hide Targets, Addresses, ForLobby;
  }

  /** Pointwise: which endpoints a text message is filed for, as done or to be sent, and what is stored. */
  lemma FanOut(t: Tables, policy: string, ev: Event)
    requires Sound(t)
    requires LocalMessage(t, policy, ev, true).tables != t
    ensures var p := LocalMessage(t, policy, ev, true);
      var m := t.nextMid;
      && Sound(p.tables)
      && (forall e :: (e, m) in p.tables.outboxes <==> e in t.endpoints && IsFor(t, policy, ev, e))
      && (forall e <- t.endpoints | (e, m) in p.tables.outboxes ::
           if HasAlready(t, ev, e) then p.tables.outboxes[(e, m)] == 200 && e !in p.sends
           else p.tables.outboxes[(e, m)] == 0 && e in p.sends)
      && (forall e <- p.sends :: (e, m) in p.tables.outboxes)
      && (forall k: (Endpoint, Mid) | k.1 != m ::
           (k in p.tables.outboxes <==> k in t.outboxes) &&
           (k in t.outboxes ==> p.tables.outboxes[k] == t.outboxes[k]))
      && p.tables.messages.Keys == t.messages.Keys + {m} && Carries(p.tables.messages[m], ev)
  {
    assert Carries(Compose(ev), ev);
    hide Recipients, OwnCopies, Posted, Compose, Targets, Sound, IsFor, HasAlready, Carries;
    var all, own := Recipients(t, policy, ev), OwnCopies(t, ev);
    RecipientsAre(t, policy, ev);
    var p := LocalMessage(t, policy, ev, true);
    assert p.tables == Posted(t, Compose(ev), all, own) && p.sends == all - own;
    PostedRows(t, Compose(ev), all, own);
    PostedMessage(t, Compose(ev), all, own);
    hide LocalMessage;
    assert forall e | (e, t.nextMid) in p.tables.outboxes :: e in all;
    assert forall e <- p.sends :: (e, t.nextMid) in p.tables.outboxes;
  }

  lemma PostedMessage(t: Tables, msg: Message, all: set<Endpoint>, done: set<Endpoint>)
    ensures Posted(t, msg, all, done).messages == t.messages[t.nextMid := msg]
  {
  }

  /** A message is filed unless the sender's extension has no endpoint or the message is for no endpoint. */
  lemma FiledIff(t: Tables, policy: string, ev: Event)
    requires Sound(t)
    ensures LocalMessage(t, policy, ev, true).tables != t <==>
      (ev.number > 0 ==> exists e <- t.endpoints :: t.endpoints[e].extension == ev.number) &&
      (exists e <- t.endpoints :: IsFor(t, policy, ev, e))
    ensures LocalMessage(t, policy, ev, true).tables == t ==> LocalMessage(t, policy, ev, true).sends == {}
  {
    RecipientsAre(t, policy, ev);
    assert EndpointsOf(t, ev.number) != {} <==> exists e <- t.endpoints :: t.endpoints[e].extension == ev.number by {
      if e :| e in t.endpoints && t.endpoints[e].extension == ev.number {
        assert e in EndpointsOf(t, ev.number);
      } else {
        assert forall e :: e !in EndpointsOf(t, ev.number);
      }
    }
    hide IsFor, Recipients, EndpointsOf, Sound;
    if e :| e in t.endpoints && IsFor(t, policy, ev, e) {
      assert e in Recipients(t, policy, ev);
    } else {
      assert forall e :: e !in Recipients(t, policy, ev);
    }
  }
}
