/** The conversation objects of the client as they run: scans, insertions and field updates in place. */
module SessionWindow {
  import opened Ordering
  import opened Sessions

  type RowKey = (int, Stamp)

  /** The client's message table; its primary key is (sid, posted, seqid). */
  class Storage {
    var rows: map<RowKey, Item>
  }

  function RowsOf(all: map<RowKey, Item>, sid: int): map<Stamp, Item> {
    map p | p in all && p.0 == sid :: p.1 := all[p]
  }

  lemma RowsOfKeys(all: map<RowKey, Item>, sid: int, k: Stamp)
    ensures k in RowsOf(all, sid) <==> (sid, k) in all
    ensures (sid, k) in all ==> RowsOf(all, sid)[k] == all[(sid, k)]
  {
  }

  lemma RowsOfInsert(all: map<RowKey, Item>, sid: int, x: Item)
    ensures RowsOf(all[(sid, x.stamp) := x], sid) == RowsOf(all, sid)[x.stamp := x]
  {
  }

  ghost predicate OneEach(items: set<Item>) {
    forall x <- items, y <- items :: x.stamp == y.stamp ==> x == y
  }

  predicate IsNewest(x: Item, items: set<Item>) {
    x in items && forall y <- items :: y == x || Before(y.stamp, x.stamp)
  }

  lemma NewestExists(items: set<Item>)
    requires items != {} && OneEach(items)
    ensures exists x :: IsNewest(x, items)
  {
    var x :| x in items;
    var others := items - {x};
    assert forall y <- items :: y == x || y in others;
    if others == {} {
      assert IsNewest(x, items);
    } else {
      NewestExists(others);
      var z :| IsNewest(z, others);
      assert x.stamp != z.stamp;
      assert IsNewest(if Before(z.stamp, x.stamp) then x else z, items);
    }
  }

  lemma Prepend(x: Item, l: seq<Item>)
    requires Ascending(l) && (l != [] ==> Before(x.stamp, l[0].stamp))
    ensures Ascending([x] + l) && Elems([x] + l) == {x} + Elems(l)
  {
  }

  lemma ListsAreOrdered(s: Session)
    requires Inv(s)
    ensures Ascending(s.messages) && Within(s.filtered, s.messages)
  {
  }

  /** What `ORDER BY posted DESC, seqid DESC` yields, and the same items in ascending order. */
  method NewestFirst(items: set<Item>) returns (records: seq<Item>, ghost ascending: seq<Item>)
    requires OneEach(items)
    ensures Lists(ascending, items) && |records| == |ascending|
    ensures forall i :: 0 <= i < |records| ==> records[i] == ascending[|ascending| - 1 - i]
  {
    var left := items;
    records, ascending := [], [];
    while left != {}
      invariant left <= items && Lists(ascending, items - left)
      invariant ascending != [] ==> forall y <- left :: Before(y.stamp, ascending[0].stamp)
      invariant |records| == |ascending|
      invariant forall i :: 0 <= i < |records| ==> records[i] == ascending[|ascending| - 1 - i]
      decreases left
    {
      NewestExists(left);
      var x :| x in left && IsNewest(x, left);
      Prepend(x, ascending);
      left := left - {x};
      records := records + [x];
      ascending := [x] + ascending;
    }
  }

  class SessionItem {
    const sid: int
    const storage: Storage
    var messages: seq<Item>
    var filtered: seq<Item>
    var loaded: bool
    var mostRecent: int
    var lastSequence: int
    var contactUpdated: int
    var contactSequence: int
    var contactTopic: string
    var topicUpdated: int
    var topicSequence: int
    var topics: set<string>
    ghost var passed: set<Stamp>

    constructor (sid: int, storage: Storage, updated: Stamp, topic: string, topicAt: Stamp)
      requires forall p <- storage.rows :: storage.rows[p].stamp == p.1
      ensures this.sid == sid && this.storage == storage && Inv(View())
      ensures View() == Session([], [], false, Stamp(0, 0), Heading(updated, topic, topicAt, {"None", topic}),
                                RowsOf(storage.rows, sid), {})
    {
      this.sid, this.storage := sid, storage;
      messages, filtered, loaded, passed := [], [], false, {};
      mostRecent, lastSequence := 0, 0;
      contactUpdated, contactSequence := updated.posted, updated.sequence;
      contactTopic, topicUpdated, topicSequence := topic, topicAt.posted, topicAt.sequence;
      topics := {"None", topic};
    }

    function HeadingOf(): Heading
      reads this
    {
      Heading(Stamp(contactUpdated, contactSequence), contactTopic, Stamp(topicUpdated, topicSequence), topics)
    }

    ghost function View(): Session
      reads this, storage
    {
      Session(messages, filtered, loaded, Stamp(mostRecent, lastSequence), HeadingOf(),
              RowsOf(storage.rows, sid), passed)
    }

    method SetTopic(topic: string, posted: int, sequence: int)
      modifies this`topics, this`contactTopic, this`topicUpdated, this`topicSequence
      ensures HeadingOf() == Sessions.SetTopic(old(HeadingOf()), topic, Stamp(posted, sequence))
    {
      topics := topics + {topic};
      if posted < topicUpdated {
        return;
      }
      if posted == topicUpdated && sequence <= topicSequence {
        return;
      }
      contactTopic := topic;
      topicUpdated := posted;
      topicSequence := sequence;
    }

    /** Where a list takes the item, scanning from its end unless the item is older than all of it. */
    method RowFor(list: seq<Item>, x: Item) returns (row: nat)
      requires Ascending(list)
      ensures row <= |list| && Insert(list, x) == list[..row] + [x] + list[row..]
    {
      row := |list|;
      if |list| > 0 && x.stamp.posted < list[0].stamp.posted {
        row := 0;
      } else {
        while row > 0
          invariant row <= |list|
          invariant row < |list| ==> !Before(list[row].stamp, x.stamp)
        {
          var last := list[row - 1];
          if last.stamp.posted < x.stamp.posted {
            break;
          }
          if last.stamp.posted == x.stamp.posted && last.stamp.sequence < x.stamp.sequence {
            break;
          }
          row := row - 1;
        }
      }
      InsertSplit(list, x, row);
    }

    /** Puts the item into both lists; the result says whether the shown list grew at its head unannounced. */
    method Add(x: Item) returns (fast: bool)
      requires Ascending(messages) && Within(filtered, messages)
      modifies this`messages, this`filtered, this`topics, this`contactTopic, this`topicUpdated, this`topicSequence
      ensures messages == Insert(old(messages), x) && filtered == Insert(old(filtered), x)
      ensures HeadingOf() == AddTopic(old(HeadingOf()), x)
      ensures fast <==> old(filtered) == [] || x.stamp.posted < old(filtered)[0].stamp.posted
      ensures fast ==> filtered == [x] + old(filtered)
    {
      WithinAscending(filtered, messages);
      fast := |filtered| == 0 || x.stamp.posted < filtered[0].stamp.posted;
      var rowFiltered := RowFor(filtered, x);
      var rowMessages := RowFor(messages, x);
      messages := messages[..rowMessages] + [x] + messages[rowMessages..];
      if x.admin && x.subject != "" {
        SetTopic(x.subject, x.stamp.posted, x.stamp.sequence);
      }
      filtered := filtered[..rowFiltered] + [x] + filtered[rowFiltered..];
    }

    method AddMessage(x: Item)
      requires Ascending(messages) && Within(filtered, messages)
      modifies this`messages, this`filtered, this`topics, this`contactTopic, this`topicUpdated, this`topicSequence
      modifies this`contactUpdated, this`contactSequence
      ensures View() == Sessions.AddMessage(old(View()), x)
    {
      var fast := Add(x);
      if x.admin {
        SetTopic(x.subject, x.stamp.posted, x.stamp.sequence);
      }
      if contactUpdated > x.stamp.posted {
        return;
      }
      if contactUpdated == x.stamp.posted && contactSequence > x.stamp.sequence {
        return;
      }
      contactUpdated := x.stamp.posted;
      contactSequence := x.stamp.sequence;
    }

    method Save(x: Item) returns (saved: bool)
      modifies storage
      ensures saved <==> x.stamp !in old(View()).rows
      ensures View() == Sessions.Save(old(View()), x)
      ensures forall p: RowKey | p.0 != sid ::
        (p in storage.rows <==> p in old(storage.rows)) && (p in storage.rows ==> storage.rows[p] == old(storage.rows)[p])
    {
      RowsOfKeys(storage.rows, sid, x.stamp);
      RowsOfInsert(storage.rows, sid, x);
      saved := (sid, x.stamp) !in storage.rows;
      if saved {
        storage.rows := storage.rows[(sid, x.stamp) := x];
      }
    }

    /** A received message moves the session's latest stamp on, kept or not. */
    method Touch(at: Stamp)
      modifies this`mostRecent, this`lastSequence
      ensures View() == old(View()).(recent := Later(old(View()).recent, at))
    {
      if mostRecent < at.posted {
        mostRecent := at.posted;
        lastSequence := at.sequence;
      } else if mostRecent == at.posted && lastSequence < at.sequence {
        lastSequence := at.sequence;
      }
    }

    method ReceiveText(x: Item, active: bool) returns (shown: bool)
      requires Inv(View()) && (active ==> loaded)
      modifies this, storage
      ensures View() == Receive(old(View()), x, active) && Inv(View())
      ensures shown <==> (old(loaded) || active) && x.stamp !in old(View()).rows
    {
      ReceiveKeepsInv(View(), x, active);
      ListsAreOrdered(View());
      hide Inv;
      hide Later;
      shown := false;
      Touch(x.stamp);
      var saved := Save(x);
      if !saved {
        return;
      }
      if loaded || active {
        AddMessage(x);
        shown := true;
      }
    }

    method FinishInput(x: Item)
      requires Inv(View())
      modifies this, storage
      ensures View() == Sessions.FinishInput(old(View()), x)
      ensures multiset(messages) == multiset(old(messages)) + multiset{x}
      ensures x.stamp in View().rows && (View().rows[x.stamp] == x <==> x.stamp !in old(View()).rows || old(View()).rows[x.stamp] == x)
      ensures Inv(View()) <==> old(loaded) && x.stamp !in old(View()).rows
    {
      FinishInputKeepsInvIff(View(), x);
      InsertAddsOne(messages, x);
      var _ := Save(x);
      AddMessage(x);
    }

    method ClearMessages()
      modifies this
      ensures View() == Sessions.ClearMessages(old(View()))
      ensures old(Inv(View())) ==> Inv(View())
      ensures View().rows == old(View()).rows && !loaded && messages == []
    {
      loaded := false;
      messages, filtered, topics := [], [], {ALL_TOPICS};
      passed := {};
    }

    /** Shows the matching messages only. */
    method Search(keep: set<Stamp>)
      modifies this`filtered
      ensures View() == Sessions.Search(old(View()), keep)
    {
      var result := [];
      for i := 0 to |messages|
        invariant result + Keeping(messages[i..], keep) == Keeping(messages, keep)
      {
        if messages[i].stamp in keep {
          result := result + [messages[i]];
        }
      }
      filtered := result;
    }

    method ShowAll()
      modifies this`filtered
      ensures View() == Sessions.ShowAll(old(View()))
    {
      filtered := messages;
    }

    /** The unexpired rows of the session, newest first. */
    method Query(now: int) returns (records: seq<Item>, ghost selected: seq<Item>)
      requires Inv(View())
      ensures Lists(selected, Selected(View(), now)) && |records| == |selected|
      ensures forall i :: 0 <= i < |records| ==> records[i] == selected[|selected| - 1 - i]
    {
      var rows := RowsOf(storage.rows, sid);
      records, selected := NewestFirst(set k | k in rows && rows[k].expires > now :: rows[k]);
    }

    method LoadMessages(now: int, contacts: set<int>) returns (count: nat, ghost selected: seq<Item>)
      requires Inv(View())
      modifies this
      ensures !old(loaded) ==> Lists(selected, Selected(old(View()), now))
      ensures View() == Load(old(View()), selected, contacts)
    {
      count, selected := 0, [];
      if loaded {
        return;
      }
      ghost var was := View();
      var records;
      records, selected := Query(now);
      var i := 0;
      assert selected[|selected|..] == [];
      while i < |records|
        invariant i <= |records| == |selected|
        invariant View() == AddBackwards(was, selected[|selected| - i..], contacts)
        invariant unchanged(storage)
      {
        assert selected[|selected| - (i + 1)..] == [records[i]] + selected[|selected| - i..];
        var added := LoadRecord(records[i], contacts, was, selected[|selected| - i..]);
        if added {
          count := count + 1;
        }
        i := i + 1;
      }
      assert selected[|selected| - i..] == selected;
      passed := set k | k in was.rows && was.rows[k] !in messages;
      loaded := true;
    }

    /** One record of the query: added unless its contacts are unknown. */
    method LoadRecord(x: Item, contacts: set<int>, ghost was: Session, ghost rest: seq<Item>) returns (added: bool)
      requires was.messages == was.filtered == [] && Ascending([x] + rest)
      requires View() == AddBackwards(was, rest, contacts)
      modifies this`messages, this`filtered, this`topics, this`contactTopic, this`topicUpdated, this`topicSequence
      ensures View() == AddBackwards(was, [x] + rest, contacts)
    {
      assert ([x] + rest)[1..] == rest;
      added := x.from in contacts && x.to in contacts;
      if !added {
        return;
      }
      TailLists([x] + rest);
      AddBackwardsLists(was, rest, contacts);
      WithinItself(messages);
      var fast := Add(x);
    }
  }
}
