/**
 * One conversation of the client: its message list, the rows it keeps in storage, and the contact
 * fields that the latest message decides.
 */
module Sessions {
  import opened Ordering

  const ALL_TOPICS := "*All*"

  /**
   * What the latest messages decide: `updated` is (contactUpdated, contactSequence) and `topicAt`
   * (topicUpdated, topicSequence) of the contact, `topics` every topic the session has seen.
   */
  datatype Heading = Heading(updated: Stamp, topic: string, topicAt: Stamp, topics: set<string>)

  /**
   * `recent` is (mostRecent, lastSequence). `rows` are the stored messages of this session under their
   * primary key. `passed` remembers which rows the last load left out, as expired or without a contact.
   */
  datatype Session = Session(
    messages: seq<Item>, filtered: seq<Item>, loaded: bool, recent: Stamp, heading: Heading,
    rows: map<Stamp, Item>, passed: set<Stamp>)

  // ---- the operations ----

  function SetTopic(h: Heading, topic: string, at: Stamp): Heading {
    if Before(h.topicAt, at) then h.(topics := h.topics + {topic}, topic := topic, topicAt := at)
    else h.(topics := h.topics + {topic})
  }

  /** The topic an added message sets: an admin message's, unless it is empty. */
  function AddTopic(h: Heading, x: Item): Heading {
    if x.admin && x.subject != "" then SetTopic(h, x.subject, x.stamp) else h
  }

  /** `MessageModel::add`. */
  function Add(s: Session, x: Item): Session {
    s.(messages := Insert(s.messages, x), filtered := Insert(s.filtered, x), heading := AddTopic(s.heading, x))
  }

  /** The rest of `SessionItem::addMessage`: it sets an admin message's topic once more. */
  function Note(h: Heading, x: Item): Heading {
    var t := if x.admin then SetTopic(h, x.subject, x.stamp) else h;
    t.(updated := Later(t.updated, x.stamp))
  }

  function AddMessage(s: Session, x: Item): Session {
    var t := Add(s, x);
    t.(heading := Note(t.heading, x))
  }

  /** `MessageItem::save`: a row under a key already taken is refused. */
  function Save(s: Session, x: Item): Session {
    if x.stamp in s.rows then s else s.(rows := s.rows[x.stamp := x])
  }

  /** `Sessions::receiveText`, once the session is known: a duplicate is dropped, an unloaded session only stores. */
  function Receive(s: Session, x: Item, active: bool): Session {
    var t := Save(s.(recent := Later(s.recent, x.stamp)), x);
    if x.stamp in s.rows then t
    else if s.loaded || active then AddMessage(t, x)
    else t
  }

  /** `Sessions::finishInput`: the text just sent is stored and shown, whether storing it succeeded or not. */
  function FinishInput(s: Session, x: Item): Session { AddMessage(Save(s, x), x) }

  function Selected(s: Session, now: int): set<Item> {
    set k | k in s.rows && s.rows[k].expires > now :: s.rows[k]
  }

  predicate Linked(x: Item, contacts: set<int>) { x.from in contacts && x.to in contacts }

  /** Adds the items of a list from its last to its first, passing over those without a contact. */
  function AddBackwards(s: Session, l: seq<Item>, contacts: set<int>): Session {
    if l == [] then s
    else
      var t := AddBackwards(s, l[1..], contacts);
      if Linked(l[0], contacts) then Add(t, l[0]) else t
  }

  /** `SessionItem::loadMessages`, given the selected rows in ascending order. */
  function Load(s: Session, selected: seq<Item>, contacts: set<int>): Session {
    if s.loaded then s
    else
      var t := AddBackwards(s, selected, contacts);
      t.(loaded := true, passed := set k | k in s.rows && s.rows[k] !in t.messages)
  }

  function ClearMessages(s: Session): Session {
    s.(loaded := false, messages := [], filtered := [], heading := s.heading.(topics := {ALL_TOPICS}), passed := {})
  }

  function Keeping(l: seq<Item>, keep: set<Stamp>): seq<Item> {
    if l == [] then []
    else if l[0].stamp in keep then [l[0]] + Keeping(l[1..], keep)
    else Keeping(l[1..], keep)
  }

  /** A search shows the matching messages only; an empty one shows them all again. */
  function Search(s: Session, keep: set<Stamp>): Session { s.(filtered := Keeping(s.messages, keep)) }

  function ShowAll(s: Session): Session { s.(filtered := s.messages) }

  // ---- what every operation keeps ----

  /** The list shows the stored rows except those passed over, and nothing else. */
  ghost predicate Agrees(messages: seq<Item>, rows: map<Stamp, Item>, passed: set<Stamp>) {
    && (forall x <- messages :: x.stamp in rows && x.stamp !in passed && rows[x.stamp] == x)
    && (forall k <- rows | k !in passed :: rows[k] in messages)
  }

  /** A loaded session lists exactly its stored rows but those its load passed over, an unloaded one nothing. */
  ghost predicate Inv(s: Session) {
    && (forall k <- s.rows :: s.rows[k].stamp == k)
    && Ascending(s.messages)
    && Within(s.filtered, s.messages)
    && s.passed <= s.rows.Keys
    && if s.loaded then Agrees(s.messages, s.rows, s.passed) else s.messages == [] && s.passed == {}
  }

  lemma InsertMembers(l: seq<Item>, x: Item)
    ensures forall y :: y in Insert(l, x) <==> y in l || y == x
  {
    InsertElems(l, x);
    forall y
      ensures y in Insert(l, x) <==> y in l || y == x
    {
      assert y in Elems(Insert(l, x)) <==> y in Elems(l) || y == x;
    }
  }

  lemma AgreesAfterInsert(messages: seq<Item>, rows: map<Stamp, Item>, passed: set<Stamp>, x: Item)
    requires Agrees(messages, rows, passed) && x.stamp !in rows && passed <= rows.Keys
    ensures Agrees(Insert(messages, x), rows[x.stamp := x], passed)
    ensures !HasStamp(messages, x.stamp)
  {
    InsertMembers(messages, x);
  }

  lemma StampIsKey(s: Session, k: Stamp)
    requires Inv(s) && s.loaded && k in s.rows && k !in s.passed
    ensures HasStamp(s.messages, k)
  {
    var i :| 0 <= i < |s.messages| && s.messages[i] == s.rows[k];
  }

  /** The second call for an admin message with a subject finds the topic already set. */
  lemma SecondSetTopicChangesNothing(h: Heading, topic: string, at: Stamp)
    ensures SetTopic(SetTopic(h, topic, at), topic, at) == SetTopic(h, topic, at)
  {
    assert h.topics + {topic} + {topic} == h.topics + {topic};
  }

  // ---- the latest message decides ----

  /** The last writer wins: a topic moves exactly to what was set later, by time and then by sequence. */
  lemma SetTopicTakesLatest(h: Heading, topic: string, at: Stamp)
    ensures var g := SetTopic(h, topic, at);
      var later := h.topicAt.posted < at.posted || (h.topicAt.posted == at.posted && h.topicAt.sequence < at.sequence);
      && (later ==> g.topic == topic && g.topicAt == at)
      && (!later ==> g.topic == h.topic && g.topicAt == h.topicAt)
      && topic in g.topics && h.topics <= g.topics && g.updated == h.updated
  {
  }

  /** The greatest of a stamp and those of a set. */
  ghost predicate Greatest(g: Stamp, start: Stamp, stamps: set<Stamp>) {
    (g == start || g in stamps) && !Before(g, start) && forall k <- stamps :: !Before(g, k)
  }

  /** The topic is that of the latest of the items, or the one before if none of them is later. */
  ghost predicate TopicIsLatest(g: Heading, h: Heading, xs: set<Item>) {
    && (forall x <- xs :: !Before(g.topicAt, x.stamp)) && !Before(g.topicAt, h.topicAt)
    && ((g.topicAt == h.topicAt && g.topic == h.topic)
        || exists x <- xs :: g.topicAt == x.stamp && g.topic == x.subject && Before(h.topicAt, x.stamp))
  }

  lemma LaterIsGreatest(g: Stamp, start: Stamp, stamps: set<Stamp>, k: Stamp)
    requires Greatest(g, start, stamps)
    ensures Greatest(Later(g, k), start, stamps + {k})
  {
  }

  lemma SetTopicIsLatest(g: Heading, h: Heading, xs: set<Item>, x: Item)
    requires TopicIsLatest(g, h, xs)
    ensures TopicIsLatest(SetTopic(g, x.subject, x.stamp), h, xs + {x})
  {
    if Before(g.topicAt, x.stamp) {
      assert x in xs + {x};
    } else if !(g.topicAt == h.topicAt && g.topic == h.topic) {
      var y :| y in xs && g.topicAt == y.stamp && g.topic == y.subject && Before(h.topicAt, y.stamp);
      assert y in xs + {x};
    }
  }

  lemma TopicSame(g: Heading, h: Heading, xs: set<Item>, g': Heading)
    requires TopicIsLatest(g, h, xs) && g'.topic == g.topic && g'.topicAt == g.topicAt
    ensures TopicIsLatest(g', h, xs)
  {
  }

  /** Loading sets the topic of the latest admin message that has a subject. */
  lemma {:induction false} LoadTakesLatestTopic(s: Session, l: seq<Item>, contacts: set<int>)
    ensures TopicIsLatest(AddBackwards(s, l, contacts).heading, s.heading,
                          set x | x in l && Linked(x, contacts) && x.admin && x.subject != "")
  {
    if l != [] {
      LoadTakesLatestTopic(s, l[1..], contacts);
      var t := AddBackwards(s, l[1..], contacts);
      var before := set x | x in l[1..] && Linked(x, contacts) && x.admin && x.subject != "";
      var all := set x | x in l && Linked(x, contacts) && x.admin && x.subject != "";
      if Linked(l[0], contacts) && l[0].admin && l[0].subject != "" {
        SetTopicIsLatest(t.heading, s.heading, before, l[0]);
        assert all == before + {l[0]};
      } else {
        assert all == before;
      }
    }
  }

  lemma ShowingKeepsInv(s: Session, t: Session, x: Item)
    requires Inv(s) && s.loaded && x.stamp !in s.rows
    requires t.messages == Insert(s.messages, x) && t.filtered == Insert(s.filtered, x)
    requires t.rows == s.rows[x.stamp := x] && t.passed == s.passed && t.loaded
    ensures Inv(t)
  {
    AgreesAfterInsert(s.messages, s.rows, s.passed, x);
    InsertAscending(s.messages, x);
    InsertWithin(s.filtered, s.messages, x);
  }

  lemma ReceiveKeepsInv(s: Session, x: Item, active: bool)
    requires Inv(s) && (active ==> s.loaded)
    ensures Inv(Receive(s, x, active)) && Receive(s, x, active).loaded == s.loaded
  {
    if x.stamp !in s.rows && s.loaded {
      ShowingKeepsInv(s, Receive(s, x, active), x);
    }
  }

  lemma ClearKeepsInv(s: Session)
    requires Inv(s)
    ensures Inv(ClearMessages(s))
  {
  }

  lemma {:induction false} KeepingWithin(l: seq<Item>, keep: set<Stamp>)
    ensures Within(Keeping(l, keep), l)
  {
    if l != [] {
      KeepingWithin(l[1..], keep);
      KeepingElems(l[1..], keep);
      if l[0].stamp !in keep && Keeping(l, keep) != [] {
        assert Keeping(l, keep)[0].stamp in keep;
      }
    }
  }

  lemma {:induction false} KeepingElems(l: seq<Item>, keep: set<Stamp>)
    ensures forall i :: 0 <= i < |Keeping(l, keep)| ==> Keeping(l, keep)[i].stamp in keep
  {
    if l != [] {
      KeepingElems(l[1..], keep);
    }
  }

  lemma {:induction false} KeepingMembers(l: seq<Item>, keep: set<Stamp>, x: Item)
    ensures x in Keeping(l, keep) <==> x in l && x.stamp in keep
  {
    if l != [] {
      KeepingMembers(l[1..], keep, x);
      assert x in l <==> x == l[0] || x in l[1..];
    }
  }

  /** A search shows every match and nothing else, in the order of the list. */
  lemma SearchKeepsInv(s: Session, keep: set<Stamp>)
    requires Inv(s)
    ensures Inv(Search(s, keep)) && Inv(ShowAll(s))
    ensures forall x :: x in Search(s, keep).filtered <==> x in s.messages && x.stamp in keep
  {
    forall x
      ensures x in Keeping(s.messages, keep) <==> x in s.messages && x.stamp in keep
    {
      KeepingMembers(s.messages, keep, x);
    }
    KeepingWithin(s.messages, keep);
    WithinItself(s.messages);
  }

  /** Rows arriving newest first are each prepended, so an empty list ends up as the linked rows in order. */
  lemma {:induction false} AddBackwardsLists(s: Session, l: seq<Item>, contacts: set<int>)
    requires s.messages == s.filtered == [] && Ascending(l)
    ensures var t := AddBackwards(s, l, contacts);
      && Ascending(t.messages)
      && (forall x :: x in t.messages <==> x in l && Linked(x, contacts))
      && t.filtered == t.messages
      && t == s.(messages := t.messages, filtered := t.filtered, heading := t.heading)
  {
    if l != [] {
      AddBackwardsLists(s, l[1..], contacts);
      TailLists(l);
      var t := AddBackwards(s, l[1..], contacts);
      forall x | x in t.messages
        ensures Before(l[0].stamp, x.stamp)
      {
        assert x in Elems(l[1..]);
      }
      assert Insert(t.messages, l[0]) == [l[0]] + t.messages;
      assert forall x :: x in l <==> x == l[0] || x in l[1..];
    }
  }

  lemma LoadKeepsInv(s: Session, now: int, selected: seq<Item>, contacts: set<int>)
    requires Inv(s) && Lists(selected, Selected(s, now))
    ensures Inv(Load(s, selected, contacts))
    ensures !s.loaded ==> forall k <- s.rows ::
      k in Load(s, selected, contacts).passed <==> s.rows[k].expires <= now || !Linked(s.rows[k], contacts)
  {
    if !s.loaded {
      assert s.filtered == [];
      AddBackwardsLists(s, selected, contacts);
      var t := AddBackwards(s, selected, contacts);
      forall k | k in s.rows
        ensures s.rows[k] in t.messages <==> s.rows[k].expires > now && Linked(s.rows[k], contacts)
      {
        assert s.rows[k] in selected <==> s.rows[k] in Elems(selected);
      }
      forall x | x in t.messages
        ensures x.stamp in s.rows && s.rows[x.stamp] == x
      {
        assert x in Elems(selected);
      }
      WithinItself(t.messages);
    }
  }

  /** Showing a sent text is right exactly when the session is loaded and the text's key is new. */
  lemma FinishInputKeepsInvIff(s: Session, x: Item)
    requires Inv(s)
    ensures Inv(FinishInput(s, x)) <==> s.loaded && x.stamp !in s.rows
  {
    InsertMembers(s.messages, x);
    if s.loaded && x.stamp !in s.rows {
      ShowingKeepsInv(s, FinishInput(s, x), x);
    } else if s.loaded && x.stamp !in s.passed {
      StampIsKey(s, x.stamp);
      InsertTwiceNotAscending(s.messages, x);
    }
  }
}
