/** What the order, repetition and interleaving of arrivals can and cannot change. */
module Convergence {
  import opened Ordering
  import opened Sessions

  // ---- any interleaving keeps the list and the store in agreement ----

  datatype Event =
    | Arrive(x: Item, active: bool)
    | Send(x: Item)
    | LoadRows(now: int, selected: seq<Item>, contacts: set<int>)
    | Clear
    | Find(keep: set<Stamp>)
    | FindAll

  /**
   * Only a loaded session is the active one; the answer to a sent text finds its session loaded and
   * its key new; a load sees the unexpired rows, in order.
   */
  ghost predicate Possible(s: Session, ev: Event) {
    match ev
    case Arrive(x, active) => active ==> s.loaded
    case Send(x) => s.loaded && x.stamp !in s.rows
    case LoadRows(now, selected, contacts) => Lists(selected, Selected(s, now))
    case _ => true
  }

  function Apply(s: Session, ev: Event): Session {
    match ev
    case Arrive(x, active) => Receive(s, x, active)
    case Send(x) => FinishInput(s, x)
    case LoadRows(now, selected, contacts) => Load(s, selected, contacts)
    case Clear => ClearMessages(s)
    case Find(keep) => Search(s, keep)
    case FindAll => ShowAll(s)
  }

  ghost predicate Runs(s: Session, run: seq<Event>)
    decreases |run|
  {
    run == [] || (Possible(s, run[0]) && Runs(Apply(s, run[0]), run[1..]))
  }

  function After(s: Session, run: seq<Event>): Session
    decreases |run|
  {
    if run == [] then s else After(Apply(s, run[0]), run[1..])
  }

  lemma ApplyKeepsInv(s: Session, ev: Event)
    requires Inv(s) && Possible(s, ev)
    ensures Inv(Apply(s, ev))
  {
    match ev {
      case Arrive(x, active) => ReceiveKeepsInv(s, x, active);
      case Send(x) => FinishInputKeepsInvIff(s, x);
      case LoadRows(now, selected, contacts) => LoadKeepsInv(s, now, selected, contacts);
      case Clear => ClearKeepsInv(s);
      case Find(keep) => SearchKeepsInv(s, keep);
      case FindAll => SearchKeepsInv(s, {});
    }
  }

  /** A loaded list is the ascending list of all stored rows exactly when its load passed over none of them. */
  lemma CacheAgreesIff(s: Session)
    requires Inv(s) && s.loaded
    ensures Lists(s.messages, set k | k in s.rows && k !in s.passed :: s.rows[k])
    ensures Lists(s.messages, s.rows.Values) <==> s.passed == {}
  {
    forall x
      ensures x in Elems(s.messages) <==> x in (set k | k in s.rows && k !in s.passed :: s.rows[k])
    {
      if x in s.messages {
        assert x.stamp in s.rows;
      }
    }
    if s.passed != {} {
      var k :| k in s.passed;
      assert s.rows[k] in s.rows.Values;
      assert s.rows[k] !in Elems(s.messages);
    } else {
      assert (set k | k in s.rows && k !in s.passed :: s.rows[k]) == s.rows.Values;
    }
  }

  lemma {:induction false} EveryRunKeepsInv(s: Session, run: seq<Event>)
    requires Inv(s) && Runs(s, run)
    ensures Inv(After(s, run))
    decreases |run|
  {
    if run != [] {
      ApplyKeepsInv(s, run[0]);
      EveryRunKeepsInv(Apply(s, run[0]), run[1..]);
    }
  }

  // ---- which stored rows a loaded session lists, told by the run ----

  lemma {:induction false} RunSplits(s: Session, run: seq<Event>, i: nat)
    requires i <= |run|
    ensures Runs(s, run) <==> Runs(s, run[..i]) && Runs(After(s, run[..i]), run[i..])
    ensures After(s, run) == After(After(s, run[..i]), run[i..])
    decreases i
  {
    hide Possible, Apply;
    if i == 0 {
      assert run[..0] == [] && run[0..] == run;
    } else {
      RunSplits(Apply(s, run[0]), run[1..], i - 1);
      assert run[..i][1..] == run[1..][..i - 1] && run[1..][i - 1..] == run[i..];
    }
  }

  /** Position i is the load that filled the list the session has after the run. */
  ghost predicate LoadedAt(s: Session, run: seq<Event>, i: int) {
    && 0 <= i < |run| && run[i].LoadRows? && !After(s, run[..i]).loaded
    && forall j :: i < j < |run| ==> !run[j].Clear?
  }

  lemma ApplyUncleared(s: Session, ev: Event)
    requires Inv(s) && Possible(s, ev) && s.loaded && !ev.Clear?
    ensures var t := Apply(s, ev);
      && t.loaded && t.passed == s.passed && forall k <- s.rows :: k in t.rows && t.rows[k] == s.rows[k]
  {
  }

  lemma {:induction false} RunUncleared(s: Session, run: seq<Event>)
    requires Inv(s) && Runs(s, run) && s.loaded && forall j :: 0 <= j < |run| ==> !run[j].Clear?
    ensures var t := After(s, run);
      && t.loaded && t.passed == s.passed && forall k <- s.rows :: k in t.rows && t.rows[k] == s.rows[k]
    decreases |run|
  {
    if run != [] {
      ApplyKeepsInv(s, run[0]);
      ApplyUncleared(s, run[0]);
      hide Inv, Possible, Apply;
      RunUncleared(Apply(s, run[0]), run[1..]);
    }
  }

  /**
   * After any run, a loaded session lists a stored row exactly when the row came after the load that
   * filled its list or was unexpired, with both contacts known, at that load; and it lists nothing else.
   */
  lemma ListedIff(s: Session, run: seq<Event>, i: int)
    requires Inv(s) && Runs(s, run) && LoadedAt(s, run, i)
    ensures var b, t := After(s, run[..i]), After(s, run);
      && t.loaded && Ascending(t.messages) && (forall x <- t.messages :: x in t.rows.Values)
      && forall k <- t.rows :: t.rows[k] in t.messages
           <==> k !in b.rows || (b.rows[k].expires > run[i].now && Linked(b.rows[k], run[i].contacts))
  {
    var b, t := After(s, run[..i]), After(s, run);
    RunSplits(s, run, i);
    EveryRunKeepsInv(s, run[..i]);
    var load, rest := run[i], run[i..][1..];
    assert run[i..][0] == load && forall j | 0 <= j < |rest| :: rest[j] == run[i + 1 + j];
    LoadKeepsInv(b, load.now, load.selected, load.contacts);
    LoadKeepsRows(b, load.selected, load.contacts);
    var c := Apply(b, load);
    assert Inv(c) && c.loaded && c.rows == b.rows;
    assert Runs(c, rest) && After(c, rest) == t;
    RunUncleared(c, rest);
    EveryRunKeepsInv(c, rest);
    ListedUnlessPassed(t);
  }

  lemma LoadKeepsRows(s: Session, selected: seq<Item>, contacts: set<int>)
    requires Inv(s) && !s.loaded && Ascending(selected)
    ensures Load(s, selected, contacts).rows == s.rows && Load(s, selected, contacts).loaded
  {
    AddBackwardsLists(s, selected, contacts);
  }

  lemma ListedUnlessPassed(s: Session)
    requires Inv(s) && s.loaded
    ensures forall k <- s.rows :: s.rows[k] in s.messages <==> k !in s.passed
    ensures forall x <- s.messages :: x in s.rows.Values
  {
  }

  /** A session that a run loaded has such a load in the run. */
  lemma {:induction false} LoadedHasLoad(s: Session, run: seq<Event>)
    requires Inv(s) && Runs(s, run) && !s.loaded && After(s, run).loaded
    ensures exists i :: LoadedAt(s, run, i)
  {
    var n := |run| - 1;
    var before, ev := run[..n], run[n];
    RunSplits(s, run, n);
    EveryRunKeepsInv(s, before);
    assert run[n..] == [ev] && [ev][1..] == [];
    var b := After(s, before);
    assert After(s, run) == Apply(b, ev);
    if b.loaded {
      LoadedHasLoad(s, before);
      var i :| LoadedAt(s, before, i);
      assert before[..i] == run[..i];
      assert LoadedAt(s, run, i);
    } else {
      assert LoadedAt(s, run, n);
    }
  }

  /** Every load of the run finds only unexpired rows whose contacts are known. */
  ghost predicate LoadsSeeAll(s: Session, run: seq<Event>)
    decreases |run|
  {
    run == [] || (LoadsSeeAll(Apply(s, run[0]), run[1..])
                  && (run[0].LoadRows? && !s.loaded ==> forall k <- s.rows :: s.rows[k].expires > run[0].now && Linked(s.rows[k], run[0].contacts)))
  }

  lemma ApplyPassesNone(s: Session, ev: Event)
    requires Inv(s) && Possible(s, ev) && s.passed == {}
    requires ev.LoadRows? && !s.loaded ==> forall k <- s.rows :: s.rows[k].expires > ev.now && Linked(s.rows[k], ev.contacts)
    ensures Apply(s, ev).passed == {}
  {
    if ev.LoadRows? {
      LoadKeepsInv(s, ev.now, ev.selected, ev.contacts);
      if !s.loaded {
        LoadKeepsRows(s, ev.selected, ev.contacts);
      }
    }
  }

  /**
   * Cache agreement: under any interleaving of arrivals, sent texts, loads, clears and searches in
   * which no load meets an expired row or an unknown contact, a loaded list is exactly the stored
   * rows in ascending order, and what it shows is within it.
   */
  lemma {:induction false} EveryRunAgrees(s: Session, run: seq<Event>)
    requires Inv(s) && s.passed == {} && Runs(s, run) && LoadsSeeAll(s, run)
    ensures var t := After(s, run);
      t.loaded ==> Lists(t.messages, t.rows.Values) && Within(t.filtered, t.messages)
    decreases |run|
  {
    if run == [] {
      if s.loaded {
        CacheAgreesIff(s);
      }
    } else {
      ApplyKeepsInv(s, run[0]);
      ApplyPassesNone(s, run[0]);
      hide Possible, Apply;
      EveryRunAgrees(Apply(s, run[0]), run[1..]);
    }
  }

  // ---- what a run stores ----

  predicate Brings(ev: Event, x: Item) { (ev.Arrive? || ev.Send?) && ev.x == x }

  /** The run received the message or sent it. */
  predicate Brought(run: seq<Event>, x: Item) { exists i :: 0 <= i < |run| && Brings(run[i], x) }

  lemma BroughtCons(ev: Event, run: seq<Event>, x: Item)
    ensures Brought([ev] + run, x) <==> Brings(ev, x) || Brought(run, x)
  {
    hide Brings;
    var all := [ev] + run;
    assert all[0] == ev && forall i | 0 <= i < |run| :: all[i + 1] == run[i];
  }

  lemma ApplyStores(s: Session, ev: Event)
    requires Inv(s) && Possible(s, ev)
    ensures var t := Apply(s, ev);
      && (forall k <- s.rows :: k in t.rows && t.rows[k] == s.rows[k])
      && (forall k <- t.rows | k !in s.rows :: Brings(ev, t.rows[k]) && t.rows[k].stamp == k)
      && (forall x | Brings(ev, x) :: x.stamp in t.rows)
  {
    if ev.LoadRows? && !s.loaded {
      LoadKeepsRows(s, ev.selected, ev.contacts);
    }
  }

  /**
   * Whatever is loaded, cleared or searched in between: rows stay as they were first stored, every
   * message received or sent has its key stored, and every new row holds such a message.
   */
  lemma {:induction false} EveryRunStores(s: Session, run: seq<Event>)
    requires Inv(s) && Runs(s, run)
    ensures var t := After(s, run);
      && (forall k <- s.rows :: k in t.rows && t.rows[k] == s.rows[k])
      && (forall k <- t.rows | k !in s.rows :: Brought(run, t.rows[k]) && t.rows[k].stamp == k)
      && (forall x | Brought(run, x) :: x.stamp in t.rows)
    decreases |run|
  {
    if run != [] {
      var ev, rest := run[0], run[1..];
      var u, t := Apply(s, ev), After(s, run);
      ApplyKeepsInv(s, ev);
      ApplyStores(s, ev);
      EveryRunStores(u, rest);
      assert run == [ev] + rest;
      hide Inv, Possible, Apply, Brings, Brought, Runs;
      forall x
        ensures Brought(run, x) <==> Brings(ev, x) || Brought(rest, x)
      {
        BroughtCons(ev, rest, x);
      }
      assert t == After(u, rest);
    }
  }

  // ---- clearing and loading again ----

  /**
   * A session cleared and loaded again lists what it listed before exactly when the rows it left out
   * before are those now expired or without a known contact.
   */
  lemma ReloadShowsSameIff(s: Session, now: int, selected: seq<Item>, contacts: set<int>)
    requires Inv(s) && s.loaded && Lists(selected, Selected(s, now))
    ensures var t := Load(ClearMessages(s), selected, contacts);
      && t.rows == s.rows && t.loaded
      && (t.messages == s.messages
          <==> forall k <- s.rows :: k in s.passed <==> s.rows[k].expires <= now || !Linked(s.rows[k], contacts))
  {
    var c := ClearMessages(s);
    var t := Load(c, selected, contacts);
    assert Selected(c, now) == Selected(s, now);
    LoadKeepsInv(c, now, selected, contacts);
    LoadKeepsRows(c, selected, contacts);
    ListedUnlessPassed(s);
    ListedUnlessPassed(t);
    CacheAgreesIff(s);
    CacheAgreesIff(t);
    var left, now' := (set k | k in s.rows && k !in s.passed :: s.rows[k]), (set k | k in t.rows && k !in t.passed :: t.rows[k]);
    if forall k <- s.rows :: k in s.passed <==> k in t.passed {
      assert left == now';
      ListIsUnique(t.messages, s.messages, left);
    }
  }

  // ---- a text sent while its session is cleared ----

  lemma {:induction false} AddBackwardsAddsOne(s: Session, l: seq<Item>, contacts: set<int>, x: Item)
    requires x in l && Linked(x, contacts)
    ensures multiset(AddBackwards(s, l, contacts).messages)[x] >= multiset(s.messages)[x] + 1
  {
    var t := AddBackwards(s, l[1..], contacts);
    InsertAddsOne(t.messages, l[0]);
    if x in l[1..] {
      AddBackwardsAddsOne(s, l[1..], contacts, x);
    } else {
      AddBackwardsKeeps(s, l[1..], contacts, x);
    }
  }

  lemma {:induction false} AddBackwardsKeeps(s: Session, l: seq<Item>, contacts: set<int>, x: Item)
    ensures multiset(AddBackwards(s, l, contacts).messages)[x] >= multiset(s.messages)[x]
  {
    if l != [] {
      AddBackwardsKeeps(s, l[1..], contacts, x);
      InsertAddsOne(AddBackwards(s, l[1..], contacts).messages, l[0]);
    }
  }

  /** If the session is cleared before the answer to a sent text arrives, the next load shows the text twice. */
  lemma ClearedBeforeTheAnswerShowsTwice(s: Session, x: Item, now: int, selected: seq<Item>, contacts: set<int>)
    requires Inv(s) && x.stamp !in s.rows && x.expires > now && Linked(x, contacts)
    requires var t := FinishInput(ClearMessages(s), x); Lists(selected, Selected(t, now))
    ensures multiset(Load(FinishInput(ClearMessages(s), x), selected, contacts).messages)[x] >= 2
  {
    var t := FinishInput(ClearMessages(s), x);
    assert t.rows[x.stamp] == x && x in Elems(selected);
    assert t.messages == [x];
    AddBackwardsAddsOne(t, selected, contacts, x);
  }

  // ---- delivering messages to one session ----

  function Deliver(s: Session, arrivals: seq<Item>): Session {
    if arrivals == [] then s
    else Receive(Deliver(s, arrivals[..|arrivals| - 1]), arrivals[|arrivals| - 1], false)
  }

  /** Equal keys mean the same message, which is what a redelivery is. */
  ghost predicate Coherent(arrivals: set<Item>) {
    forall x <- arrivals, y <- arrivals :: x.stamp == y.stamp ==> x == y
  }

  lemma DeliverOne(s: Session, a: seq<Item>, x: Item)
    ensures Deliver(s, a + [x]) == Receive(Deliver(s, a), x, false)
  {
    assert (a + [x])[..|a|] == a;
  }

  lemma {:induction false} DeliverKeepsInv(s: Session, a: seq<Item>)
    requires Inv(s)
    ensures Inv(Deliver(s, a)) && Deliver(s, a).loaded == s.loaded && Deliver(s, a).passed == s.passed
  {
    if a != [] {
      DeliverKeepsInv(s, a[..|a| - 1]);
      ReceiveKeepsInv(Deliver(s, a[..|a| - 1]), a[|a| - 1], false);
    }
  }

  function Stamps(a: seq<Item>): set<Stamp> { set x | x in a :: x.stamp }

  lemma ReceiveRows(s: Session, x: Item)
    ensures var t := Receive(s, x, false);
      t.rows == (if x.stamp in s.rows then s.rows else s.rows[x.stamp := x]) && t.passed == s.passed
  {
  }

  lemma StampsOfOneMore(a: seq<Item>, x: Item)
    ensures Stamps(a + [x]) == Stamps(a) + {x.stamp}
  {
    forall k
      ensures k in Stamps(a + [x]) <==> k in Stamps(a) || k == x.stamp
    {
      if k in Stamps(a) {
        var y :| y in a && y.stamp == k;
        assert y in a + [x];
      }
      assert x in a + [x];
    }
  }

  /** Every key that arrived holds one message that arrived under it, and earlier rows stay. */
  lemma {:induction false} EachKeyIsStoredOnce(s: Session, a: seq<Item>)
    ensures var t := Deliver(s, a);
      && t.rows.Keys == s.rows.Keys + Stamps(a)
      && (forall k <- s.rows :: t.rows[k] == s.rows[k])
      && (forall k <- t.rows | k !in s.rows :: t.rows[k] in a && t.rows[k].stamp == k)
  {
    if a != [] {
      hide Receive;
      var b, x := a[..|a| - 1], a[|a| - 1];
      EachKeyIsStoredOnce(s, b);
      ReceiveRows(Deliver(s, b), x);
      StampsOfOneMore(b, x);
      assert a == b + [x];
    }
  }

  /** However often a message arrives, a loaded session lists it, and lists its key once. */
  lemma EachKeyIsListedOnce(s: Session, a: seq<Item>)
    requires Inv(s) && s.loaded
    ensures var l := Deliver(s, a).messages;
      && (forall i, j :: 0 <= i < j < |l| ==> l[i].stamp != l[j].stamp)
      && (forall x <- a | x.stamp !in s.passed :: HasStamp(l, x.stamp))
  {
    DeliverKeepsInv(s, a);
    EachKeyIsStoredOnce(s, a);
    var t := Deliver(s, a);
    forall x | x in a && x.stamp !in s.passed
      ensures HasStamp(t.messages, x.stamp)
    {
      assert x.stamp in Stamps(a);
      StampIsKey(t, x.stamp);
    }
  }

  // ---- arrivals commute, and repeating one changes nothing ----

  /** Both calls of `setTopic` together: the second changes nothing but for an empty subject. */
  lemma NotesOnce(h: Heading, x: Item)
    ensures Note(AddTopic(h, x), x) == Note(h, x)
  {
    SecondSetTopicChangesNothing(h, x.subject, x.stamp);
  }

  lemma NoteIsLatest(g: Heading, h: Heading, shown: set<Item>, x: Item)
    requires Greatest(g.updated, h.updated, StampsOf(shown)) && TopicIsLatest(g, h, Admins(shown))
    ensures Greatest(Note(g, x).updated, h.updated, StampsOf(shown + {x}))
    ensures TopicIsLatest(Note(g, x), h, Admins(shown + {x}))
  {
    LaterIsGreatest(g.updated, h.updated, StampsOf(shown), x.stamp);
    assert StampsOf(shown + {x}) == StampsOf(shown) + {x.stamp} by {
      StampsOfOne(shown, x);
    }
    var t := if x.admin then SetTopic(g, x.subject, x.stamp) else g;
    if x.admin {
      SetTopicIsLatest(g, h, Admins(shown), x);
      assert Admins(shown + {x}) == Admins(shown) + {x};
    } else {
      assert Admins(shown + {x}) == Admins(shown);
    }
    TopicSame(t, h, Admins(shown + {x}), Note(g, x));
  }

  function StampsOf(items: set<Item>): set<Stamp> { set x | x in items :: x.stamp }

  function Admins(items: set<Item>): set<Item> { set x | x in items && x.admin }

  lemma StampsOfOne(items: set<Item>, x: Item)
    ensures StampsOf(items + {x}) == StampsOf(items) + {x.stamp}
  {
    forall k
      ensures k in StampsOf(items + {x}) <==> k in StampsOf(items) || k == x.stamp
    {
      if k in StampsOf(items) {
        var y :| y in items && y.stamp == k;
        assert y in items + {x};
      }
      assert x in items + {x};
    }
  }

  /** The messages of a delivery that a session shows: a loaded one those under new keys, an unloaded one none. */
  function Shown(s: Session, a: seq<Item>): set<Item> {
    set x | x in a && s.loaded && x.stamp !in s.rows
  }

  ghost predicate LatestOf(t: Session, s: Session, a: seq<Item>) {
    && Greatest(t.recent, s.recent, StampsOf(Elems(a)))
    && Greatest(t.heading.updated, s.heading.updated, StampsOf(Shown(s, a)))
    && TopicIsLatest(t.heading, s.heading, Admins(Shown(s, a)))
  }

  lemma ReceiveIsLatest(s: Session, a: seq<Item>, t: Session, x: Item)
    requires LatestOf(t, s, a) && Coherent(Elems(a + [x])) && t.loaded == s.loaded
    requires t.rows.Keys == s.rows.Keys + Stamps(a)
    ensures LatestOf(Receive(t, x, false), s, a + [x])
  {
    LaterIsGreatest(t.recent, s.recent, StampsOf(Elems(a)), x.stamp);
    StampsOfOne(Elems(a), x);
    assert Elems(a + [x]) == Elems(a) + {x};
    if x.stamp !in t.rows && s.loaded {
      assert Shown(s, a + [x]) == Shown(s, a) + {x};
      NoteIsLatest(t.heading, s.heading, Shown(s, a), x);
      NotesOnce(t.heading, x);
    } else {
      assert Shown(s, a + [x]) == Shown(s, a) by {
        if x.stamp in Stamps(a) {
          var y :| y in a && y.stamp == x.stamp;
          assert y in Elems(a + [x]) && x in Elems(a + [x]);
        }
      }
    }
  }

  /**
   * The last writer wins over any delivery, in any order and with any repetitions: the session's
   * latest stamp is the greatest of all messages that arrived, the contact's the greatest of those
   * shown, and the topic is that of the latest admin message shown, if later than the one before.
   */
  lemma {:induction false} LatestMessageWins(s: Session, a: seq<Item>)
    requires Inv(s) && Coherent(Elems(a))
    ensures LatestOf(Deliver(s, a), s, a)
  {
    if a != [] {
      var b, x := a[..|a| - 1], a[|a| - 1];
      assert a == b + [x];
      CoherentLess(a, b, x, {});
      assert Elems(a) + {} == Elems(a) && Elems(b) + {} == Elems(b);
      LatestMessageWins(s, b);
      DeliverKeepsInv(s, b);
      EachKeyIsStoredOnce(s, b);
      hide Inv, Receive, LatestOf, Coherent;
      ReceiveIsLatest(s, b, Deliver(s, b), x);
    }
  }

  lemma NotesCommute(h: Heading, x: Item, y: Item)
    requires x.stamp != y.stamp
    ensures Note(Note(h, x), y) == Note(Note(h, y), x)
  {
    assert h.topics + {x.subject} + {y.subject} == h.topics + {y.subject} + {x.subject};
  }

  lemma ShownCommute(s: Session, x: Item, y: Item)
    requires Inv(s) && x.stamp != y.stamp
    ensures AddMessage(AddMessage(s, x), y) == AddMessage(AddMessage(s, y), x)
  {
    WithinAscending(s.filtered, s.messages);
    InsertCommutes(s.messages, x, y);
    InsertCommutes(s.filtered, x, y);
    NotesOnce(s.heading, x);
    NotesOnce(s.heading, y);
    NotesOnce(Note(s.heading, x), y);
    NotesOnce(Note(s.heading, y), x);
    NotesCommute(s.heading, x, y);
  }

  lemma ArrivalsCommute(s: Session, x: Item, y: Item)
    requires Inv(s) && x.stamp != y.stamp
    ensures Receive(Receive(s, x, false), y, false) == Receive(Receive(s, y, false), x, false)
  {
    assert Later(Later(s.recent, x.stamp), y.stamp) == Later(Later(s.recent, y.stamp), x.stamp);
    if x.stamp !in s.rows && y.stamp !in s.rows {
      assert s.rows[x.stamp := x][y.stamp := y] == s.rows[y.stamp := y][x.stamp := x];
      if s.loaded {
        ShownCommute(s, x, y);
        TwoShown(s, x, y);
        TwoShown(s, y, x);
      }
    }
  }

  lemma TwoShown(s: Session, x: Item, y: Item)
    requires s.loaded && x.stamp != y.stamp && x.stamp !in s.rows && y.stamp !in s.rows
    ensures Receive(Receive(s, x, false), y, false) == AddMessage(AddMessage(s, x), y).(
      rows := s.rows[x.stamp := x][y.stamp := y], recent := Later(Later(s.recent, x.stamp), y.stamp))
  {
  }

  lemma RepeatChangesNothing(s: Session, x: Item)
    ensures Receive(Receive(s, x, false), x, false) == Receive(s, x, false)
  {
    ReceiveRows(s, x);
  }

  // ---- convergence ----

  lemma {:induction false} Absorb(s: Session, a: seq<Item>, x: Item)
    requires Inv(s) && x in a && Coherent(Elems(a))
    ensures Deliver(s, a + [x]) == Deliver(s, a)
  {
    var b, y := a[..|a| - 1], a[|a| - 1];
    DeliverKeepsInv(s, b);
    DeliverOne(s, a, x);
    assert a == b + [y];
    DeliverOne(s, b, y);
    assert x in Elems(a) && y in Elems(a);
    if y == x {
      RepeatChangesNothing(Deliver(s, b), x);
    } else {
      assert Elems(b) <= Elems(a);
      ArrivalsCommute(Deliver(s, b), y, x);
      DeliverOne(s, b, x);
      Absorb(s, b, x);
    }
  }

  lemma {:induction false} AbsorbAll(s: Session, a: seq<Item>, b: seq<Item>)
    requires Inv(s) && Elems(b) <= Elems(a) && Coherent(Elems(a))
    ensures Deliver(s, a + b) == Deliver(s, a)
  {
    if b == [] {
      assert a + b == a;
    } else {
      var c, y := b[..|b| - 1], b[|b| - 1];
      assert y in Elems(b) && Elems(c) <= Elems(b);
      assert a + b == (a + c) + [y];
      assert Elems(a + c) == Elems(a);
      AbsorbAll(s, a, c);
      Absorb(s, a + c, y);
    }
  }

  lemma {:induction false} Chain(s: Session, a: seq<Item>, b: seq<Item>)
    ensures Deliver(s, a + b) == Deliver(Deliver(s, a), b)
  {
    if b == [] {
      assert a + b == a;
    } else {
      hide Receive, Deliver;
      var c, y := b[..|b| - 1], b[|b| - 1];
      Chain(s, a, c);
      assert a + b == (a + c) + [y] && b == c + [y];
      DeliverOne(s, a + c, y);
      DeliverOne(Deliver(s, a), c, y);
    }
  }

  lemma MoveStep(s: Session, b: seq<Item>, x: Item, y: Item)
    requires Inv(Deliver(s, b)) && (x.stamp == y.stamp ==> x == y)
    requires Deliver(s, b + [x]) == Deliver(s, [x] + b)
    ensures Deliver(s, (b + [y]) + [x]) == Deliver(s, ([x] + b) + [y])
  {
    hide Inv, Receive, Deliver;
    DeliverOne(s, b + [y], x);
    DeliverOne(s, b, y);
    DeliverOne(s, b, x);
    DeliverOne(s, [x] + b, y);
    if x != y {
      ArrivalsCommute(Deliver(s, b), x, y);
    }
  }

  lemma CoherentLess(a: seq<Item>, b: seq<Item>, y: Item, more: set<Item>)
    requires a == b + [y] && Coherent(Elems(a) + more)
    ensures Coherent(Elems(b) + more) && Elems(b) <= Elems(a) && y in Elems(a)
    ensures forall x <- more :: x.stamp == y.stamp ==> x == y
  {
    assert y in a;
    assert forall z | z in b :: z in a;
  }

  lemma {:induction false} MoveToFront(s: Session, a: seq<Item>, x: Item)
    requires Inv(s) && Coherent(Elems(a) + {x})
    ensures Deliver(s, a + [x]) == Deliver(s, [x] + a)
  {
    if a == [] {
      assert a + [x] == [x] + a;
    } else {
      hide Inv, Deliver, Coherent, Elems;
      var b, y := a[..|a| - 1], a[|a| - 1];
      assert a == b + [y] && [x] + a == ([x] + b) + [y];
      CoherentLess(a, b, y, {x});
      DeliverKeepsInv(s, b);
      MoveToFront(s, b, x);
      MoveStep(s, b, x, y);
    }
  }

  lemma {:induction false} BatchesCommute(s: Session, a: seq<Item>, b: seq<Item>)
    requires Inv(s) && Coherent(Elems(a) + Elems(b))
    ensures Deliver(s, a + b) == Deliver(s, b + a)
  {
    if b == [] {
      assert a + b == b + a;
    } else {
      var c, y := b[..|b| - 1], b[|b| - 1];
      assert b == c + [y];
      assert Elems(b) + Elems(a) == Elems(a) + Elems(b);
      CoherentLess(b, c, y, Elems(a));
      assert Elems(c) + Elems(a) == Elems(a) + Elems(c);
      assert Coherent(Elems(a) + {y});
      hide Inv, Deliver, Coherent, Elems;
      BatchesCommute(s, a, c);
      OneMore(s, a, c, y);
    }
  }

  lemma OneMore(s: Session, a: seq<Item>, c: seq<Item>, y: Item)
    requires Inv(s) && Coherent(Elems(a) + {y})
    requires Deliver(s, a + c) == Deliver(s, c + a)
    ensures Deliver(s, a + (c + [y])) == Deliver(s, (c + [y]) + a)
  {
    hide Inv, Receive, Deliver;
    assert a + (c + [y]) == (a + c) + [y] && (c + [y]) + a == c + ([y] + a);
    DeliverOne(s, a + c, y);
    DeliverOne(s, c + a, y);
    MoveIntoMiddle(s, c, a, y);
  }

  lemma MoveIntoMiddle(s: Session, c: seq<Item>, a: seq<Item>, y: Item)
    requires Inv(s) && Coherent(Elems(a) + {y})
    ensures Deliver(s, (c + a) + [y]) == Deliver(s, c + ([y] + a))
  {
    hide Inv, Deliver;
    DeliverKeepsInv(s, c);
    MoveToFront(Deliver(s, c), a, y);
    Chain(s, c, a + [y]);
    Chain(s, c, [y] + a);
    assert (c + a) + [y] == c + (a + [y]);
  }

  /**
   * Two deliveries of the same messages, in any two orders and with any repetitions, leave the same
   * session: list, filtered list, stamps, topic, topics and stored rows.
   */
  lemma Converges(s: Session, a: seq<Item>, b: seq<Item>)
    requires Inv(s) && Elems(a) == Elems(b) && Coherent(Elems(a))
    ensures Deliver(s, a) == Deliver(s, b)
  {
    AbsorbAll(s, a, b);
    AbsorbAll(s, b, a);
    BatchesCommute(s, a, b);
  }

  /** Without distinct keys the order does matter: the message that arrives first keeps the key. */
  lemma FirstUnderAKeyWins(s: Session, x: Item, y: Item)
    requires Inv(s) && x.stamp == y.stamp && x.stamp !in s.rows && x != y
    ensures Receive(Receive(s, x, false), y, false).rows[x.stamp] == x
    ensures Receive(Receive(s, y, false), x, false).rows[x.stamp] == y
  {
    ReceiveRows(s, x);
    ReceiveRows(s, y);
    ReceiveRows(Receive(s, x, false), y);
    ReceiveRows(Receive(s, y, false), x);
  }
}
