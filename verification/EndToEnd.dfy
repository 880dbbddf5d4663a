/** From the server's outbox to a client's store: what a row marked done means on the other side. */
module EndToEnd {
  import opened Text
  import Outbox
  import Delivery
  import Ordering
  import Sessions
  import Convergence

  /**
   * Where a client files a message: nowhere if its contacts are unknown or the session is another
   * one, and otherwise under the time and sequence number the message carries.
   */
  type Place = Outbox.Message -> Option<Ordering.Item>

  ghost predicate KeepsKey(place: Place) {
    forall msg | place(msg).Some? :: place(msg).value.stamp == Ordering.Stamp(msg.posted, msg.sequence)
  }

  /** The arrivals a log of hand-overs amounts to for one session of the client. */
  function Arrivals(log: seq<Outbox.Mid>, sent: map<Outbox.Mid, Outbox.Message>, place: Place): seq<Ordering.Item> {
    if log == [] then []
    else
      var m := log[|log| - 1];
      Arrivals(log[..|log| - 1], sent, place) +
        if m in sent && place(sent[m]).Some? then [place(sent[m]).value] else []
  }

  lemma {:induction false} HandedArrives(log: seq<Outbox.Mid>, sent: map<Outbox.Mid, Outbox.Message>, place: Place, m: Outbox.Mid)
    requires m in log && m in sent && place(sent[m]).Some?
    ensures place(sent[m]).value in Arrivals(log, sent, place)
  {
    if log[|log| - 1] != m {
      HandedArrives(log[..|log| - 1], sent, place, m);
    }
  }

  /** What a session was handed during a run, in order. */
  function Arrived(run: seq<Convergence.Event>): seq<Ordering.Item> {
    if run == [] then []
    else Arrived(run[..|run| - 1]) + if run[|run| - 1].Arrive? then [run[|run| - 1].x] else []
  }

  lemma {:induction false} ArrivedIsBrought(run: seq<Convergence.Event>, x: Ordering.Item)
    requires x in Arrived(run)
    ensures Convergence.Brought(run, x)
  {
    var n := |run| - 1;
    if run[n].Arrive? && run[n].x == x {
      assert Convergence.Brings(run[n], x);
    } else {
      ArrivedIsBrought(run[..n], x);
      var i :| 0 <= i < n && Convergence.Brings(run[..n][i], x);
      assert Convergence.Brings(run[i], x);
    }
  }

  /**
   * At-least-once delivery comes to exactly-once storage. Take any reachable state and any run of a
   * session of e's client, loads, clears and texts of its own included, in which it was handed what
   * the protocol handed to e. A message the server has marked done for e, and which is not its
   * sender's own copy, is stored under (posted, sequence), for a text the ones its event carried; and if nothing else came under that key,
   * the row holds that very message.
   */
  lemma DoneMeansStored(
    s: Delivery.State, e: Outbox.Endpoint, m: Outbox.Mid, place: Place, c: Sessions.Session, run: seq<Convergence.Event>)
    requires Delivery.Inv(s) && KeepsKey(place)
    requires Sessions.Inv(c) && Convergence.Runs(c, run)
    requires Arrived(run) == Arrivals(Delivery.ClientOf(s.clients, e).log, s.sent, place)
    requires (e, m) in s.db.outboxes && s.db.outboxes[(e, m)] == Outbox.SIP_OK
    requires !Delivery.SendersOwn(s.db.endpoints, s.texts, (e, m)) && place(s.sent[m]).Some?
    ensures var key := Ordering.Stamp(s.sent[m].posted, s.sent[m].sequence);
      var rows, x := Convergence.After(c, run).rows, place(s.sent[m]).value;
      && key in rows
      && (m in s.texts ==> key == Ordering.Stamp(s.texts[m].timestamp, s.texts[m].sequence))
      && (key !in c.rows && (forall y | Convergence.Brought(run, y) && y.stamp == key :: y == x) ==> rows[key] == x)
  {
    assert m in Delivery.Handed(s.clients, e);
    var log := Delivery.ClientOf(s.clients, e).log;
    HandedArrives(log, s.sent, place, m);
    var x := place(s.sent[m]).value;
    ArrivedIsBrought(run, x);
    hide Delivery.Inv, Convergence.Runs, Convergence.After, Convergence.Brought, Sessions.Inv, Arrivals, Arrived;
    Convergence.EveryRunStores(c, run);
  }
}
