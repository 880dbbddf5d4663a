/** The server's message tables and the database-thread handlers that write them. */
module Outbox {
  import opened Text

  type Endpoint = int
  type Mid = int

  const PENDING := 0
  const TRYING := 100
  const SIP_OK := 200
  const SIP_FORBIDDEN := 403
  const SIP_NOT_FOUND := 404
  const SIP_INTERNAL_SERVER_ERROR := 500
  const THIRTY_DAYS := 30 * 24 * 3600
  const UNLABELLED := "NONE"

  datatype EndpointRow = EndpointRow(extension: int, device: string)

  datatype Kind = TextKind | AdminKind

  datatype Message = Message(
    from: string, to: string, subject: string, display: string,
    posted: int, sequence: int, kind: Kind, text: string, expires: int)

  /** What the handlers read from an incoming SIP MESSAGE or topic request. */
  datatype Event = Event(
    number: int, device: string, to: string, user: string, from: string,
    subject: string, display: string, contentType: string, body: string,
    timestamp: int, sequence: int, expires: int)

  /** The database: tables as maps under their primary keys. */
  datatype Tables = Tables(
    endpoints: map<Endpoint, EndpointRow>,
    extensions: map<int, string>,
    groups: set<(int, int)>,
    messages: map<Mid, Message>,
    outboxes: map<(Endpoint, Mid), int>,
    nextMid: Mid)

  /** Keys and references as the schema declares them. */
  ghost predicate Sound(t: Tables) {
    && (forall e <- t.endpoints :: e >= 1)
    && (forall e <- t.endpoints, f <- t.endpoints :: t.endpoints[e] == t.endpoints[f] ==> e == f)
    && (forall m <- t.messages :: m < t.nextMid)
    && (forall k <- t.outboxes :: k.0 in t.endpoints && k.1 in t.messages)
  }

  lemma NextMidIsFresh(t: Tables)
    requires Sound(t)
    ensures t.nextMid !in t.messages && forall e :: (e, t.nextMid) !in t.outboxes
  {
  }

  // ---- queries ----

  function Elems<T>(q: seq<T>): set<T> { set x | x in q }

  predicate Distinct<T(==)>(q: seq<T>) { forall i, j :: 0 <= i < j < |q| ==> q[i] != q[j] }

  lemma Prefix<T>(q: seq<T>, i: nat)
    requires i < |q|
    ensures q[..i + 1] == q[..i] + [q[i]]
    ensures Elems(q[..i + 1]) == Elems(q[..i]) + {q[i]} <= Elems(q)
    ensures Distinct(q) ==> q[i] !in Elems(q[..i])
  {
    assert q[i] in q[..i + 1];
  }

  lemma Singleton<T>(q: seq<T>, x: T)
    requires Distinct(q)
    ensures Elems(q) == {x} <==> q == [x]
  {
    if |q| > 1 {
      var other := if q[0] == x then q[1] else q[0];
      assert other in Elems(q);
    } else if |q| == 1 {
      assert q[0] in Elems(q);
    }
  }

  function EndpointsOf(t: Tables, extension: int): set<Endpoint> {
    set e | e in t.endpoints && t.endpoints[e].extension == extension
  }

  function Members(t: Tables, group: int): set<int> {
    set p | p in t.groups && p.0 == group :: p.1
  }

  function Named(t: Tables, name: string): set<int> {
    set x | x in t.extensions && t.extensions[x] == name
  }

  function LabelledEndpoints(t: Tables): set<Endpoint> {
    set e | e in t.endpoints && t.endpoints[e].device != UNLABELLED
  }

  function Pending(t: Tables, e: Endpoint): set<Mid> {
    set m | m in t.messages && (e, m) in t.outboxes && t.outboxes[(e, m)] != SIP_OK
  }

  function Filings(t: Tables, e: Endpoint): set<Mid> {
    set m | m in t.messages && (e, m) in t.outboxes
  }

  // ---- what each handler leaves behind ----

  predicate Labelled(ev: Event) { ev.number > 0 && ev.device != UNLABELLED }

  /** The extensions a message is addressed to: a group without its sender, a number, or an authorising name. */
  function Targets(t: Tables, ev: Event): set<int> {
    if IsNumber(ev.to) then
      var members := Members(t, ToInt(ev.to));
      if members == {} then {ToInt(ev.to)} else members - {ev.number}
    else Named(t, ev.to)
  }

  function OwnEndpoints(t: Tables, ev: Event): set<Endpoint> {
    if Labelled(ev) then EndpointsOf(t, ev.number) else {}
  }

  /** The device the message came from and its extension's unlabelled endpoint need no copy. */
  function OwnCopies(t: Tables, ev: Event): set<Endpoint> {
    set e | e in OwnEndpoints(t, ev) && (t.endpoints[e].device == ev.device || t.endpoints[e].device == UNLABELLED)
  }

  function Addressed(t: Tables, policy: string, ev: Event): set<Endpoint> {
    if Targets(t, ev) == {0} && policy == "public" then LabelledEndpoints(t)
    else set e | e in t.endpoints && t.endpoints[e].extension in Targets(t, ev)
  }

  function Recipients(t: Tables, policy: string, ev: Event): set<Endpoint> {
    OwnEndpoints(t, ev) + Addressed(t, policy, ev)
  }

  function Expiry(posted: int, expires: int): int {
    if expires > 0 then posted + expires else posted + THIRTY_DAYS
  }

  function Compose(ev: Event): Message {
    Message(if ev.number < 1 then ev.from else ev.user, ev.to, ev.subject, ev.display,
            ev.timestamp, ev.sequence, TextKind,
            if ev.contentType == "text/plain" then ev.body else "",
            Expiry(ev.timestamp, ev.expires))
  }

  function Filed(m: Mid, recipients: set<Endpoint>, done: set<Endpoint>): map<(Endpoint, Mid), int> {
    map e | e in recipients :: (e, m) := if e in done then SIP_OK else PENDING
  }

  lemma FiledAdd(was: map<(Endpoint, Mid), int>, m: Mid, es: set<Endpoint>, e: Endpoint, done: set<Endpoint>)
    ensures was + Filed(m, es + {e}, done) == (was + Filed(m, es, done))[(e, m) := if e in done then SIP_OK else PENDING]
  {
  }

  /** One outbox row per recipient for the message that gets the next id. */
  function Posted(t: Tables, msg: Message, recipients: set<Endpoint>, done: set<Endpoint>): Tables {
    t.(messages := t.messages[t.nextMid := msg],
       outboxes := t.outboxes + Filed(t.nextMid, recipients, done),
       nextMid := t.nextMid + 1)
  }

  datatype Posting = Posting(tables: Tables, reply: Option<int>, sends: set<Endpoint>)

  /** A labelled sender has had its answer before the database sees the message. */
  function Answer(ev: Event, status: int): Option<int> {
    if Labelled(ev) then None else Some(status)
  }

  function LocalMessage(t: Tables, policy: string, ev: Event, stored: bool): Posting {
    if ev.number > 0 && EndpointsOf(t, ev.number) == {} then Posting(t, Some(SIP_FORBIDDEN), {})
    else if Recipients(t, policy, ev) == {} then Posting(t, Answer(ev, SIP_NOT_FOUND), {})
    else if !stored then Posting(t, Answer(ev, SIP_INTERNAL_SERVER_ERROR), {})
    else
      var own := OwnCopies(t, ev);
      var all := Recipients(t, policy, ev);
      Posting(Posted(t, Compose(ev), all, own), Answer(ev, SIP_OK), all - own)
  }

  function ComposeAdmin(ev: Event, to: int, text: string, from: int, display: string, expires: int): Message {
    Message(IntToString(from), IntToString(to), ev.subject, display,
            ev.timestamp, ev.sequence, AdminKind, text, Expiry(ev.timestamp, expires))
  }

  function AdminMessage(
    t: Tables, ev: Event, to: int, text: string, from: int, display: string, expires: int, stored: bool): Posting
  {
    if !stored then Posting(t, None, {})
    else Posting(Posted(t, ComposeAdmin(ev, to, text, from, display, expires), EndpointsOf(t, to), {}), None, EndpointsOf(t, to))
  }

  function Copies(target: Endpoint, mids: set<Mid>): map<(Endpoint, Mid), int> {
    map m | m in mids :: (target, m) := PENDING
  }

  lemma CopiesAdd(was: map<(Endpoint, Mid), int>, target: Endpoint, mids: set<Mid>, m: Mid)
    ensures Copies(target, mids + {m}) + was ==
      var w := Copies(target, mids) + was;
      if (target, m) in w then w else w[(target, m) := PENDING]
  {
  }

  function CopyOutbox(t: Tables, source: Endpoint, target: Endpoint): Tables {
    if target !in t.endpoints then t
    else
      t.(outboxes := Copies(target, Filings(t, source)) + t.outboxes)
  }

  function SetWhere(t: Tables, e: Endpoint, hit: int -> bool, status: int): Tables {
    t.(outboxes := map k | k in t.outboxes :: if k.0 == e && hit(t.outboxes[k]) then status else t.outboxes[k])
  }

  function SyncOutbox(t: Tables, e: Endpoint): Tables { SetWhere(t, e, s => true, PENDING) }

  function SendPending(t: Tables, e: Endpoint): Tables { SetWhere(t, e, s => s != SIP_OK, TRYING) }

  function ChangePending(t: Tables, e: Endpoint): Tables { SetWhere(t, e, s => s == TRYING, SIP_OK) }

  function MessageResponse(t: Tables, m: Mid, e: Endpoint, status: int): Tables {
    if (e, m) in t.outboxes then t.(outboxes := t.outboxes[(e, m) := status]) else t
  }

  // ---- what the handlers keep ----

  lemma PostedRows(t: Tables, msg: Message, all: set<Endpoint>, done: set<Endpoint>)
    requires Sound(t) && all <= t.endpoints.Keys
    ensures var p := Posted(t, msg, all, done);
      && Sound(p)
      && (forall e :: (e, t.nextMid) in p.outboxes <==> e in all)
      && (forall e <- all :: p.outboxes[(e, t.nextMid)] == if e in done then SIP_OK else PENDING)
      && (forall k: (Endpoint, Mid) :: k.1 != t.nextMid ==>
           (k in p.outboxes <==> k in t.outboxes) && (k in t.outboxes ==> p.outboxes[k] == t.outboxes[k]))
  {
    NextMidIsFresh(t);
    forall e
      ensures (e, t.nextMid) in Filed(t.nextMid, all, done) <==> e in all
    {
    }
  }

  lemma CopiedRows(t: Tables, source: Endpoint, target: Endpoint)
    requires Sound(t)
    ensures var c := CopyOutbox(t, source, target);
      && Sound(c)
      && (forall k <- t.outboxes :: k in c.outboxes && c.outboxes[k] == t.outboxes[k])
      && (forall k <- c.outboxes | k !in t.outboxes ::
           k.0 == target && c.outboxes[k] == PENDING && (source, k.1) in t.outboxes)
      && (target in t.endpoints ==> forall m | (source, m) in t.outboxes :: (target, m) in c.outboxes)
  {
    assert forall m | (source, m) in t.outboxes :: m in Filings(t, source);
    forall k | k in Copies(target, Filings(t, source))
      ensures k.0 == target && k.1 in Filings(t, source)
    {
    }
  }

  // ---- what a handler's effect means for the messages still to be delivered ----

  /** After a synchronisation the endpoint is owed every message it has a row for, and no other is owed more. */
  lemma SyncOwesAll(t: Tables, e: Endpoint)
    requires Sound(t)
    ensures var u := SyncOutbox(t, e);
      && Sound(u) && u.outboxes.Keys == t.outboxes.Keys
      && Pending(u, e) == Filings(t, e)
      && (forall f | f != e :: Pending(u, f) == Pending(t, f))
  {
  }

  /** The answer to one push: the message stays owed unless the answer is 200, and nothing else changes. */
  lemma ResponseSettlesOne(t: Tables, m: Mid, e: Endpoint, status: int)
    requires Sound(t)
    ensures var u := MessageResponse(t, m, e, status);
      && Sound(u) && u.outboxes.Keys == t.outboxes.Keys
      && Pending(u, e) == (if status == SIP_OK then Pending(t, e) - {m}
                           else Pending(t, e) + if (e, m) in t.outboxes then {m} else {})
      && (forall f | f != e :: Pending(u, f) == Pending(t, f))
  {
  }

  /** An acknowledgement settles what the last answer offered and nothing the endpoint came to be owed since. */
  lemma AckSettlesOffered(t: Tables, e: Endpoint)
    requires Sound(t)
    ensures var u := ChangePending(t, e);
      && Sound(u) && u.outboxes.Keys == t.outboxes.Keys
      && Pending(u, e) == (set m | m in Pending(t, e) && t.outboxes[(e, m)] != TRYING)
      && (forall f | f != e :: Pending(u, f) == Pending(t, f))
  {
  }

  /** An answer owes as much as before, and acknowledged at once it leaves nothing owed. */
  lemma OfferedThenAcknowledged(t: Tables, e: Endpoint)
    requires Sound(t)
    ensures Pending(SendPending(t, e), e) == Pending(t, e)
    ensures Pending(ChangePending(SendPending(t, e), e), e) == {}
  {
    assert forall m | m in Pending(t, e) :: SendPending(t, e).outboxes[(e, m)] == TRYING;
  }

  // ---- whom a message addresses, told by the tables alone ----

  /**
   * A dialled number addresses the members of its group other than the sender or, if the group table
   * has no row for it, itself; a name addresses every extension of that user.
   */
  ghost predicate Addresses(t: Tables, ev: Event, x: int) {
    if IsNumber(ev.to) then
      if exists y :: (ToInt(ev.to), y) in t.groups then (ToInt(ev.to), x) in t.groups && x != ev.number
      else x == ToInt(ev.to)
    else x in t.extensions && t.extensions[x] == ev.to
  }

  lemma TargetsAre(t: Tables, ev: Event, x: int)
    ensures x in Targets(t, ev) <==> Addresses(t, ev, x)
  {
    if IsNumber(ev.to) {
      MembersAre(t, ToInt(ev.to));
    }
  }

  lemma MembersAre(t: Tables, group: int)
    ensures forall y :: y in Members(t, group) <==> (group, y) in t.groups
    ensures Members(t, group) == {} <==> !exists y :: (group, y) in t.groups
  {
    forall y | (group, y) in t.groups
      ensures y in Members(t, group)
    {
      assert (group, y).1 == y;
    }
    if !exists y :: (group, y) in t.groups {
      assert forall y :: y !in Members(t, group);
    }
  }

  // ---- which numbers reach the public lobby ----

  /**
   * A dialled number without a group of its own is taken for the lobby, number 0, exactly when it is
   * 0 or too large for an int.
   */
  lemma LobbyIff(t: Tables, ev: Event)
    requires IsNumber(ev.to) && forall y :: (ToInt(ev.to), y) !in t.groups
    ensures Targets(t, ev) == {0} <==> DigitsValue(ev.to) == 0 || DigitsValue(ev.to) > INT_MAX
  {
    MembersAre(t, ToInt(ev.to));
    assert 0 in Targets(t, ev) <==> ToInt(ev.to) == 0;
  }

  /**
   * Where a message to a number too large for an int goes: to the operators, the members of group 0,
   * or, when there are none, to the lobby, which under the policy "public" is every labelled endpoint.
   */
  lemma HugeNumberGoesToGroupZero(t: Tables, policy: string, ev: Event, e: Endpoint)
    requires IsNumber(ev.to) && DigitsValue(ev.to) > INT_MAX && e in t.endpoints
    ensures (forall y :: (0, y) !in t.groups) && policy == "public" ==>
      (e in Addressed(t, policy, ev) <==> t.endpoints[e].device != UNLABELLED)
    ensures (exists y :: (0, y) in t.groups) && (0, 0) !in t.groups ==>
      (e in Addressed(t, policy, ev)
       <==> (0, t.endpoints[e].extension) in t.groups && t.endpoints[e].extension != ev.number)
  {
    assert ToInt(ev.to) == 0;
    MembersAre(t, 0);
    TargetsAre(t, ev, 0);
    TargetsAre(t, ev, t.endpoints[e].extension);
    if forall y :: (0, y) !in t.groups {
      LobbyIff(t, ev);
    }
  }

  // ---- what is answered, and what is stored ----

  /** The answer to a text message: a labelled sender had one before, unless its extension has no endpoint. */
  lemma AnswersAre(t: Tables, policy: string, ev: Event, stored: bool)
    ensures var reply := LocalMessage(t, policy, ev, stored).reply;
      if ev.number > 0 && (forall e <- t.endpoints :: t.endpoints[e].extension != ev.number) then reply == Some(403)
      else if ev.number > 0 && ev.device != "NONE" then reply == None
      else if Addressed(t, policy, ev) == {} then reply == Some(404)
      else reply == Some(if stored then 200 else 500)
  {
    if e :| e in t.endpoints && t.endpoints[e].extension == ev.number {
      assert e in EndpointsOf(t, ev.number);
    } else {
      assert forall e :: e !in EndpointsOf(t, ev.number);
    }
    if !Labelled(ev) {
      assert Recipients(t, policy, ev) == Addressed(t, policy, ev);
    }
  }

  /** A stored text carries what its event said; it expires when the sender asked or after thirty days. */
  ghost predicate Carries(msg: Message, ev: Event) {
    && msg.kind == TextKind && msg.to == ev.to && msg.subject == ev.subject && msg.display == ev.display
    && msg.posted == ev.timestamp && msg.sequence == ev.sequence
    && msg.from == (if ev.number < 1 then ev.from else ev.user)
    && msg.text == (if ev.contentType == "text/plain" then ev.body else "")
    && (ev.expires > 0 ==> msg.expires - msg.posted == ev.expires)
    && (ev.expires <= 0 ==> msg.expires - msg.posted == 2592000)
  }

  /** An admin message is stored under its numbers, with its own text, for every endpoint of the extension. */
  lemma AdminMessageIs(t: Tables, ev: Event, to: int, text: string, from: int, display: string, expires: int)
    requires Sound(t)
    ensures var p, m := AdminMessage(t, ev, to, text, from, display, expires, true), t.nextMid;
      && m in p.tables.messages
      && (forall e :: (e, m) in p.tables.outboxes <==> e in t.endpoints && t.endpoints[e].extension == to)
      && (forall e | (e, m) in p.tables.outboxes :: p.tables.outboxes[(e, m)] == 0 && e in p.sends)
      && (forall e <- p.sends :: (e, m) in p.tables.outboxes)
      && var msg := p.tables.messages[m];
      && msg.kind == AdminKind && msg.text == text && msg.display == display && msg.subject == ev.subject
      && ReadInteger(msg.from) == Some(from) && ReadInteger(msg.to) == Some(to)
      && msg.posted == ev.timestamp && msg.sequence == ev.sequence
      && msg.expires - msg.posted == if expires > 0 then expires else 2592000
  {
    PostedRows(t, ComposeAdmin(ev, to, text, from, display, expires), EndpointsOf(t, to), {});
    ReadPrinted(from);
    ReadPrinted(to);
  }
}
