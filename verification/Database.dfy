/** The database thread: the handlers of the outbox tables as they run, row by row. */
module DatabaseThread {
  import opened Text
  import opened Outbox

  /** The rows of a finished query, in whatever order the driver yields them. */
  method Rows<T(==)>(found: set<T>) returns (q: seq<T>)
    ensures Distinct(q) && Elems(q) == found
  {
    q := [];
    var left := found;
    while left != {}
      invariant Distinct(q) && Elems(q) !! left && Elems(q) + left == found
      decreases left
    {
      var x :| x in left;
      left := left - {x};
      q := q + [x];
    }
  }

  method Append<T(==)>(q: seq<T>, x: T) returns (r: seq<T>)
    requires Distinct(q) && x !in Elems(q)
    ensures r == q + [x] && Distinct(r) && Elems(r) == Elems(q) + {x}
  {
    r := q + [x];
    assert forall y <- q :: y in Elems(q);
  }

  class Database {
    var endpoints: map<Endpoint, EndpointRow>
    var extensions: map<int, string>
    var groups: set<(int, int)>
    var messages: map<Mid, Message>
    var outboxes: map<(Endpoint, Mid), int>
    var nextMid: Mid
    var operatorPolicy: string

    function View(): Tables
      reads this
    {
      Tables(endpoints, extensions, groups, messages, outboxes, nextMid)
    }

    method InsertOutbox(e: Endpoint, m: Mid, status: int)
      modifies this`outboxes
      ensures outboxes == if (e, m) in old(outboxes) || e !in endpoints || m !in messages then old(outboxes)
        else old(outboxes)[(e, m) := status]
    {
      if (e, m) !in outboxes && e in endpoints && m in messages {
        outboxes := outboxes[(e, m) := status];
      }
    }

    method CopyOutbox(source: Endpoint, target: Endpoint)
      requires Sound(View())
      modifies this`outboxes
      ensures View() == Outbox.CopyOutbox(old(View()), source, target)
    {
      ghost var was := View();
      var rows := Rows(Filings(View(), source));
      for i := 0 to |rows|
        invariant outboxes == if target !in endpoints then was.outboxes else Copies(target, Elems(rows[..i])) + was.outboxes
      {
        Prefix(rows, i);
        CopiesAdd(was.outboxes, target, Elems(rows[..i]), rows[i]);
        assert rows[i] in Elems(rows);
        InsertOutbox(target, rows[i], PENDING);
      }
      assert rows[..|rows|] == rows;
    }

    method SyncOutbox(e: Endpoint)
      modifies this`outboxes
      ensures View() == Outbox.SyncOutbox(old(View()), e)
      ensures Pending(View(), e) == Filings(old(View()), e)
      ensures forall f | f != e :: Pending(View(), f) == Pending(old(View()), f)
    {
      outboxes := map k | k in outboxes :: if k.0 == e then PENDING else outboxes[k];
    }

    method MessageResponse(m: Mid, e: Endpoint, status: int)
      modifies this`outboxes
      ensures View() == Outbox.MessageResponse(old(View()), m, e, status)
      ensures (e, m) in outboxes && m in messages ==> (m in Pending(View(), e) <==> status != SIP_OK)
      ensures forall f, n | (f, n) != (e, m) :: n in Pending(View(), f) <==> n in Pending(old(View()), f)
    {
      if (e, m) in outboxes {
        outboxes := outboxes[(e, m) := status];
      }
    }

    method ChangePending(e: Endpoint)
      modifies this`outboxes
      ensures View() == Outbox.ChangePending(old(View()), e)
      ensures Pending(View(), e) == set m | m in Pending(old(View()), e) && old(outboxes)[(e, m)] != TRYING
      ensures forall f | f != e :: Pending(View(), f) == Pending(old(View()), f)
    {
      outboxes := map k | k in outboxes ::
        if k.0 == e && outboxes[k] == TRYING then SIP_OK else outboxes[k];
    }

    /** Answers with the unsent messages, newest row first, and marks them as being tried. */
    method SendPending(e: Endpoint) returns (list: seq<Mid>)
      modifies this`outboxes
      ensures Distinct(list) && Elems(list) == Pending(old(View()), e)
      ensures View() == Outbox.SendPending(old(View()), e)
    {
      var query := Rows(Pending(View(), e));
      list := [];
      for i := 0 to |query|
        invariant |list| == i && forall j :: 0 <= j < i ==> list[j] == query[i - 1 - j]
      {
        list := [query[i]] + list;
      }
      assert Elems(list) == Elems(query) by {
        forall j | 0 <= j < |query| ensures query[j] in list {
          assert list[|query| - 1 - j] == query[j];
        }
      }
      outboxes := map k | k in outboxes ::
        if k.0 == e && outboxes[k] != SIP_OK then TRYING else outboxes[k];
    }

    method InsertMessage(msg: Message) returns (mid: Mid)
      modifies this`messages, this`nextMid
      ensures mid == old(nextMid) && nextMid == mid + 1 && messages == old(messages)[mid := msg]
    {
      mid := nextMid;
      messages := messages[mid := msg];
      nextMid := nextMid + 1;
    }

    /** Files the message for every endpoint of the list and sends it to those not marked as done. */
    method Deliver(mid: Mid, list: seq<Endpoint>, self: Endpoint, none: Endpoint) returns (sends: seq<Endpoint>)
      requires mid in messages && Distinct(list)
      requires forall e <- Elems(list) :: e in endpoints && (e, mid) !in outboxes
      modifies this`outboxes
      ensures Distinct(sends) && Elems(sends) == Elems(list) - {self, none}
      ensures outboxes == old(outboxes) + Filed(mid, Elems(list), {self, none})
    {
      ghost var was := outboxes;
      sends := [];
      for i := 0 to |list|
        invariant Distinct(sends) && Elems(sends) == Elems(list[..i]) - {self, none}
        invariant outboxes == was + Filed(mid, Elems(list[..i]), {self, none})
      {
        Prefix(list, i);
        FiledAdd(was, mid, Elems(list[..i]), list[i], {self, none});
        assert list[i] in Elems(list) && (list[i], mid) !in was;
        var status := PENDING;
        if list[i] == self || list[i] == none {
          status := SIP_OK;
        }
        InsertOutbox(list[i], mid, status);
        if status == SIP_OK {
          continue;
        }
        sends := Append(sends, list[i]);
      }
      assert list[..|list|] == list;
    }

    /** Stores the message, files it for the recipients and lists those to send it to. */
    method Post(msg: Message, recipients: set<Endpoint>, self: Endpoint, none: Endpoint, ghost done: set<Endpoint>)
      returns (sends: seq<Endpoint>)
      requires Sound(View()) && recipients <= endpoints.Keys
      requires done <= recipients && forall e <- recipients :: e in done <==> e == self || e == none
      modifies this`messages, this`outboxes, this`nextMid
      ensures View() == Posted(old(View()), msg, recipients, done)
      ensures Distinct(sends) && Elems(sends) == recipients - done
    {
      NextMidIsFresh(View());
      var sendList := Rows(recipients);
      var mid := InsertMessage(msg);
      sends := Deliver(mid, sendList, self, none);
      assert Filed(mid, recipients, done) == Filed(mid, recipients, {self, none});
      forall e | e in recipients
        ensures e in recipients - {self, none} <==> e in recipients - done
      {
        assert e in done <==> e == self || e == none;
      }
    }

    method AdminMessage(
      ev: Event, to: int, text: string, from: int, display: string, expires: int, stored: bool)
      returns (ok: bool, sends: seq<Endpoint>)
      requires Sound(View())
      modifies this`messages, this`outboxes, this`nextMid
      ensures ok == stored
      ensures var p := Outbox.AdminMessage(old(View()), ev, to, text, from, display, expires, stored);
              View() == p.tables && Distinct(sends) && Elems(sends) == p.sends
    {
      var recipients := EndpointsOf(View(), to);
      if !stored { return false, []; }
      var msg := ComposeAdmin(ev, to, text, from, display, expires);
      sends := Post(msg, recipients, -1, -1, {});
      ok := true;
    }

    /** The sender's own endpoints, and which two of them hold the message already. */
    method OwnOutbox(ev: Event) returns (count: nat, own: set<Endpoint>, self: Endpoint, none: Endpoint)
      requires Sound(View()) && ev.number > 0
      ensures count == 0 <==> EndpointsOf(View(), ev.number) == {}
      ensures own == OwnEndpoints(View(), ev)
      ensures forall e :: 0 < e ==> (e in OwnCopies(View(), ev) <==> e == self || e == none)
    {
      count, own, self, none := 0, {}, -1, -1;
      var rows := Rows(EndpointsOf(View(), ev.number));
      for i := 0 to |rows|
        invariant count == i
        invariant own == if Labelled(ev) then Elems(rows[..i]) else {}
        invariant own <= EndpointsOf(View(), ev.number)
        invariant forall e <- own :: e == self <==> endpoints[e].device == ev.device
        invariant forall e <- own :: e == none <==> endpoints[e].device == UNLABELLED
        invariant forall e :: 0 < e && (e == self || e == none) ==> e in own
      {
        var e := rows[i];
        Prefix(rows, i);
        assert e in Elems(rows);
        count := count + 1;
        if Labelled(ev) && endpoints[e].device == ev.device {
          self := e;
        } else if !Labelled(ev) {
          continue;
        } else if endpoints[e].device == UNLABELLED {
          none := e;
        }
        own := own + {e};
      }
      assert rows[..|rows|] == rows;
      assert rows != [] ==> rows[0] in Elems(rows);
    }

    method GatherTargets(ev: Event) returns (targets: seq<int>)
      ensures Distinct(targets) && Elems(targets) == Targets(View(), ev)
      ensures forall x :: x in Elems(targets) <==> Addresses(View(), ev, x)
    {
      forall x
        ensures x in Targets(View(), ev) <==> Addresses(View(), ev, x)
      {
        TargetsAre(View(), ev, x);
      }
      targets := [];
      if IsNumber(ev.to) {
        var count := 0;
        var query := Rows(Members(View(), ToInt(ev.to)));
        for i := 0 to |query|
          invariant count == i && Distinct(targets) && (count == 0 ==> targets == [])
          invariant Elems(targets) == Elems(query[..i]) - {ev.number}
        {
          Prefix(query, i);
          if query[i] != ev.number {
            targets := Append(targets, query[i]);
          }
          count := count + 1;
        }
        assert query[..|query|] == query;
        assert query != [] ==> query[0] in Elems(query);
        if count == 0 {
          targets := targets + [ToInt(ev.to)];
        }
      } else {
        targets := Rows(Named(View(), ev.to));
      }
    }

    method GatherRecipients(ev: Event, own: set<Endpoint>, targets: seq<int>) returns (sendList: set<Endpoint>)
      requires Distinct(targets) && Elems(targets) == Targets(View(), ev)
      ensures sendList == own + Addressed(View(), operatorPolicy, ev)
    {
      sendList := own;
      Singleton(targets, 0);
      if |targets| == 1 && targets[0] == 0 && operatorPolicy == "public" {
        sendList := sendList + LabelledEndpoints(View());
      } else {
        for i := 0 to |targets|
          invariant sendList == own + set e | e in endpoints && endpoints[e].extension in Elems(targets[..i])
        {
          Prefix(targets, i);
          sendList := sendList + EndpointsOf(View(), targets[i]);
        }
        assert targets[..|targets|] == targets;
      }
    }

    method LocalMessage(ev: Event, stored: bool) returns (reply: Option<int>, sends: seq<Endpoint>)
      requires Sound(View())
      modifies this`messages, this`outboxes, this`nextMid
      ensures var p := Outbox.LocalMessage(old(View()), operatorPolicy, ev, stored);
              View() == p.tables && reply == p.reply && Distinct(sends) && Elems(sends) == p.sends
    {
      reply, sends := None, [];
      var isLabeled := Labelled(ev);
      var self, none, own := -1, -1, {};
      if ev.number > 0 {
        var count: nat;
        count, own, self, none := OwnOutbox(ev);
        if count == 0 {
          reply := Some(SIP_FORBIDDEN);
          return;
        }
      }
      var targets := GatherTargets(ev);
      if |targets| < 1 && !isLabeled {
        assert Targets(View(), ev) == {};
        reply := Some(SIP_NOT_FOUND);
        return;
      }
      var sendList := GatherRecipients(ev, own, targets);
      if |sendList| < 1 {
        if !isLabeled {
          reply := Some(SIP_NOT_FOUND);
        }
        return;
      }
      if !stored {
        if !isLabeled {
          reply := Some(SIP_INTERNAL_SERVER_ERROR);
        }
        return;
      }
      if !isLabeled {
        reply := Some(SIP_OK);
      }
      assert forall e :: 0 < e ==> (e in OwnCopies(View(), ev) <==> e == self || e == none);
      sends := Post(Compose(ev), sendList, self, none, OwnCopies(View(), ev));
    }
  }
}
