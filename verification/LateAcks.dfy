/** Acknowledgements that arrive after a later request was served: which do harm, and that some do. */
module LateAcks {
  import opened Outbox
  import opened Delivery
  import opened Reachable

  /** The state if an acknowledgement of e were taken, whichever answer it belongs to. */
  function Acknowledged(s: State, e: Endpoint): State { s.(db := ChangePending(s.db, e)) }

  predicate Tried(s: State, e: Endpoint, m: Mid) {
    (e, m) in s.db.outboxes && s.db.outboxes[(e, m)] == TRYING
  }

  // ---- what a run shows of a message ----

  /** Some batch served to e during the run offered the message. */
  predicate ServedIn(run: seq<Action>, e: Endpoint, m: Mid) {
    exists i :: 0 <= i < |run| && run[i].Serve? && run[i].e == e && m in run[i].batch
  }

  predicate Hands(a: Action, e: Endpoint, m: Mid) {
    (a.TakePush? && a.e == e && a.mid == m) || (a.TakeReply? && a.e == e && m in a.batch)
  }

  /** Some step of the run handed the message to the client of e. */
  predicate TakenIn(run: seq<Action>, e: Endpoint, m: Mid) {
    exists i :: 0 <= i < |run| && Hands(run[i], e, m)
  }

  lemma ServedInCons(a: Action, run: seq<Action>, e: Endpoint, m: Mid)
    ensures ServedIn([a] + run, e, m) <==> (a.Serve? && a.e == e && m in a.batch) || ServedIn(run, e, m)
  {
    var all := [a] + run;
    assert forall i | 0 <= i < |run| :: all[i + 1] == run[i];
    assert all[0] == a;
  }

  lemma TakenInCons(a: Action, run: seq<Action>, e: Endpoint, m: Mid)
    ensures TakenIn([a] + run, e, m) <==> Hands(a, e, m) || TakenIn(run, e, m)
  {
    hide Hands;
    var all := [a] + run;
    assert forall i | 0 <= i < |run| :: all[i + 1] == run[i];
    assert all[0] == a;
  }

  lemma PostTries(s: State, a: Action, e: Endpoint, m: Mid)
    requires Sound(s.db) && (a.TextArrives? || a.AdminPosts? || a.Copy?) && Tried(Step(s, a), e, m)
    ensures Tried(s, e, m)
  {
    match a {
      case TextArrives(ev, stored) =>
        RecipientsAre(s.db, s.policy, ev);
        PostedRows(s.db, Compose(ev), Recipients(s.db, s.policy, ev), OwnCopies(s.db, ev));
      case AdminPosts(ev, to, text, sender, display, expires, stored) =>
        PostedRows(s.db, ComposeAdmin(ev, to, text, sender, display, expires), EndpointsOf(s.db, to), {});
      case Copy(source, target) => CopiedRows(s.db, source, target);
    }
  }

  lemma StepTries(s: State, a: Action, e: Endpoint, m: Mid)
    requires Sound(s.db) && Enabled(s, a) && Tried(Step(s, a), e, m)
    ensures Tried(s, e, m) || (a.Serve? && a.e == e && m in a.batch)
            || (a.TakeResponse? && a.status == TRYING)
  {
    if a.TextArrives? || a.AdminPosts? || a.Copy? {
      hide Enabled, Step;
      PostTries(s, a, e, m);
    } else if a.Serve? {
      assert a.e == e && (e, m) in s.db.outboxes && s.db.outboxes[(e, m)] != SIP_OK ==> m in Elems(a.batch);
    }
  }

  /** A row being tried after a run was being tried before it or went out in a batch served during it. */
  lemma {:induction false} TriedWasServed(s: State, run: seq<Action>, e: Endpoint, m: Mid)
    requires Inv(s) && Runs(s, run) && Tried(After(s, run), e, m)
    ensures Tried(s, e, m) || ServedIn(run, e, m)
    decreases |run|
  {
    if run != [] {
      var a := run[0];
      assert run == [a] + run[1..];
      StepKeepsInv(s, a);
      TriedWasServed(Step(s, a), run[1..], e, m);
      ServedInCons(a, run[1..], e, m);
      if Tried(Step(s, a), e, m) {
        StepTries(s, a, e, m);
        NoResponseTries(s, a);
      }
    }
  }

  lemma NoResponseTries(s: State, a: Action)
    requires Inv(s) && Enabled(s, a)
    ensures !(a.TakeResponse? && a.status == TRYING)
  {
    if a.TakeResponse? {
      assert GoodPacket(s.clients, s.sent, Response(a.e, a.mid, a.status));
    }
  }

  lemma StepHands(s: State, a: Action, e: Endpoint, m: Mid)
    ensures m in Handed(Step(s, a).clients, e) <==> m in Handed(s.clients, e) || Hands(a, e, m)
  {
    var log, after := ClientOf(s.clients, e).log, ClientOf(Step(s, a).clients, e).log;
    assert after == log || (a.TakePush? && after == log + [a.mid]) || (a.TakeReply? && after == log + a.batch);
  }

  /** What a client has been handed after a run is what the run's own steps handed it, and what it had. */
  lemma {:induction false} HandedIff(s: State, run: seq<Action>, e: Endpoint, m: Mid)
    ensures m in Handed(After(s, run).clients, e) <==> m in Handed(s.clients, e) || TakenIn(run, e, m)
    decreases |run|
  {
    if run != [] {
      assert run == [run[0]] + run[1..];
      StepHands(s, run[0], e, m);
      HandedIff(Step(s, run[0]), run[1..], e, m);
      TakenInCons(run[0], run[1..], e, m);
    }
  }

  /** An acknowledgement harms exactly the tried rows whose message was not handed over. */
  lemma HarmsUnhanded(s: State, e: Endpoint)
    requires Inv(s)
    ensures Safe(Acknowledged(s, e)) <==> forall m | Tried(s, e, m) ::
      m in Handed(s.clients, e) || SendersOwn(s.db.endpoints, s.texts, (e, m))
  {
    var t := Acknowledged(s, e);
    if Safe(t) {
      forall m | Tried(s, e, m)
        ensures m in Handed(s.clients, e) || SendersOwn(s.db.endpoints, s.texts, (e, m))
      {
        assert t.db.outboxes[(e, m)] == SIP_OK;
      }
    } else {
      var k :| k in t.db.outboxes && t.db.outboxes[k] == SIP_OK
               && !SendersOwn(s.db.endpoints, s.texts, k) && k.1 !in Handed(s.clients, k.0);
      assert k == (e, k.1);
      assert Tried(s, e, k.1);
    }
  }

  // ---- where an acknowledgement comes from ----

  lemma StepSendsAck(s: State, a: Action, e: Endpoint, nth: nat)
    requires Enabled(s, a) && nth <= ClientOf(s.clients, e).served
    ensures nth <= ClientOf(Step(s, a).clients, e).served
    ensures Ack(e, nth) in Step(s, a).net
            ==> Ack(e, nth) in s.net || (a.TakeReply? && a == TakeReply(e, nth, a.batch) && Reply(e, nth, a.batch) in s.net)
    ensures forall batch :: Reply(e, nth, batch) in Step(s, a).net ==> Reply(e, nth, batch) in s.net
  {
    hide LocalMessage, AdminMessage;
  }

  /** An acknowledgement of an answer already given was on its way, or the run took that very answer. */
  lemma {:induction false} AckComesFrom(s: State, run: seq<Action>, e: Endpoint, nth: nat)
    requires Runs(s, run) && nth <= ClientOf(s.clients, e).served && Ack(e, nth) in After(s, run).net
    ensures Ack(e, nth) in s.net || exists batch :: Reply(e, nth, batch) in s.net && TakeReply(e, nth, batch) in run
    decreases |run|
  {
    if run != [] {
      StepSendsAck(s, run[0], e, nth);
      hide Enabled, Step;
      AckComesFrom(Step(s, run[0]), run[1..], e, nth);
    }
  }

  /** Once an answer's acknowledgement is on its way, the client has been handed all of it. */
  lemma AckedIsHanded(s: State, run: seq<Action>, e: Endpoint, nth: nat, m: Mid)
    requires Inv(s) && Runs(s, run) && nth == ClientOf(s.clients, e).served && Ack(e, nth) in After(s, run).net
    requires m in ClientOf(s.clients, e).last
    ensures m in Handed(After(s, run).clients, e)
  {
    AckComesFrom(s, run, e, nth);
    HandedIff(s, run, e, m);
    if Ack(e, nth) in s.net {
      assert GoodPacket(s.clients, s.sent, Ack(e, nth));
    } else {
      var batch :| Reply(e, nth, batch) in s.net && TakeReply(e, nth, batch) in run;
      assert GoodPacket(s.clients, s.sent, Reply(e, nth, batch));
      var i :| 0 <= i < |run| && run[i] == TakeReply(e, nth, batch);
      assert Hands(run[i], e, m);
    }
  }

  /** A batch served in the run offered the message and no step of the run handed it over. */
  predicate OfferedOnly(run: seq<Action>, e: Endpoint, m: Mid) { ServedIn(run, e, m) && !TakenIn(run, e, m) }

  /**
   * How late is too late. Start where the nth answer is the last one given, and take any run after
   * which its acknowledgement is on its way, whenever in the run or before it the client took the
   * answer. Taking the acknowledgement then is safe exactly when the run served no batch with a
   * message that no step of the run handed over, that the client did not have before, and whose row
   * is still being tried. A run that serves nothing more to this client is always safe.
   */
  lemma LateAckIsSafeIff(s: State, run: seq<Action>, e: Endpoint, nth: nat)
    requires Inv(s) && Runs(s, run) && nth == ClientOf(s.clients, e).served && Ack(e, nth) in After(s, run).net
    ensures var t := After(s, run); Safe(Acknowledged(t, e)) <==>
      forall m | OfferedOnly(run, e, m) && Tried(t, e, m) ::
        m in Handed(s.clients, e) || SendersOwn(t.db.endpoints, t.texts, (e, m))
  {
    hide OfferedOnly, Runs, After, Inv, Tried, Acknowledged, SendersOwn, Handed;
    var t := After(s, run);
    assert Inv(t) by { EveryRunIsSafe(s, run); }
    HarmsUnhanded(t, e);
    forall m
      ensures m in Handed(t.clients, e) <==> m in Handed(s.clients, e) || TakenIn(run, e, m)
    {
      HandedIff(s, run, e, m);
    }
    forall m | Tried(t, e, m) && m !in Handed(t.clients, e)
      ensures OfferedOnly(run, e, m) && m !in Handed(s.clients, e)
    {
      UnhandedWasOffered(s, run, e, nth, m);
    }
    forall m | OfferedOnly(run, e, m) && m !in Handed(s.clients, e)
      ensures m !in Handed(t.clients, e)
    {
      OfferedIsNotTaken(run, e, m);
    }
  }

  lemma OfferedIsNotTaken(run: seq<Action>, e: Endpoint, m: Mid)
    ensures OfferedOnly(run, e, m) ==> !TakenIn(run, e, m)
  {
  }

  lemma TriedWasLast(s: State, e: Endpoint, m: Mid)
    requires Inv(s) && Tried(s, e, m)
    ensures m in ClientOf(s.clients, e).last
  {
    hide GoodPacket, SendersOwn;
  }

  lemma UnhandedWasOffered(s: State, run: seq<Action>, e: Endpoint, nth: nat, m: Mid)
    requires Inv(s) && Runs(s, run) && nth == ClientOf(s.clients, e).served && Ack(e, nth) in After(s, run).net
    ensures Tried(After(s, run), e, m) && m !in Handed(After(s, run).clients, e)
            ==> OfferedOnly(run, e, m) && m !in Handed(s.clients, e)
  {
    hide Inv, Runs, After, Tried, Handed, ServedIn, TakenIn;
    HandedIff(s, run, e, m);
    if Tried(After(s, run), e, m) {
      TriedWasServed(s, run, e, m);
      if Tried(s, e, m) {
        TriedWasLast(s, e, m);
        AckedIsHanded(s, run, e, nth, m);
      }
    }
  }

  // ---- such a run exists ----

  /** The state once a request of e has been answered with the batch. */
  function Answered(s: State, e: Endpoint, batch: seq<Mid>): State {
    Step(Step(s, Request(e)), Serve(e, batch))
  }

  ghost predicate Lists(batch: seq<Mid>, mids: set<Mid>) { Distinct(batch) && Elems(batch) == mids }

  /** Whatever happened before, a request can be answered with what is owed. */
  lemma RequestIsServed(s: State, e: Endpoint, batch: seq<Mid>)
    requires Inv(s) && Lists(batch, Pending(s.db, e))
    ensures Enabled(Step(s, Request(e)), Serve(e, batch))
  {
  }

  lemma AnsweredTries(s: State, e: Endpoint, batch: seq<Mid>)
    requires Inv(s) && Lists(batch, Pending(s.db, e))
    ensures var t := Answered(s, e, batch);
      && Inv(t) && t.net == s.net + {Reply(e, ClientOf(s.clients, e).served + 1, batch)}
      && Handed(t.clients, e) == Handed(s.clients, e) && ClientOf(t.clients, e).served == ClientOf(s.clients, e).served + 1
      && Pending(t.db, e) == Pending(s.db, e) && (forall m <- Pending(s.db, e) :: Tried(t, e, m))
      && t.texts == s.texts && t.db.endpoints == s.db.endpoints && t.db.nextMid == s.db.nextMid
  {
    hide Inv;
    RequestIsServed(s, e, batch);
    StepKeepsInv(s, Request(e));
    StepKeepsInv(Step(s, Request(e)), Serve(e, batch));
  }

  /** An acknowledgement overtaken by the next request marks a message nobody was handed. */
  lemma OvertakenAckLosesMessage(s: State, e: Endpoint, m: Mid, batch: seq<Mid>)
    requires Inv(s) && Ack(e, ClientOf(s.clients, e).served) in s.net && Lists(batch, Pending(s.db, e))
    requires m in Pending(s.db, e) && m !in Handed(s.clients, e) && m !in s.texts
    ensures var late := Answered(s, e, batch);
      && Ack(e, ClientOf(s.clients, e).served) in late.net && !Enabled(late, TakeAck(e, ClientOf(s.clients, e).served))
      && !Safe(Acknowledged(late, e))
  {
    hide Inv, GoodPacket;
    var late := Answered(s, e, batch);
    AnsweredTries(s, e, batch);
    HarmsUnhanded(late, e);
    assert Tried(late, e, m);
  }

  /** One undisturbed exchange up to the acknowledgement's being sent. */
  lemma ExchangeSendsAck(s: State, e: Endpoint, m: Mid)
    requires Inv(s) && Pending(s.db, e) == {m}
    ensures var n := ClientOf(s.clients, e).served + 1;
      var u := Step(Answered(s, e, [m]), TakeReply(e, n, [m]));
      && Enabled(Answered(s, e, [m]), TakeReply(e, n, [m]))
      && Inv(u) && Ack(e, n) in u.net && ClientOf(u.clients, e).served == n
      && u.db == Answered(s, e, [m]).db && Pending(u.db, e) == {m} && u.texts == s.texts
  {
    assert Lists([m], {m}) by {
      Singleton([m], m);
    }
    AnsweredTries(s, e, [m]);
    var n := ClientOf(s.clients, e).served + 1;
    StepKeepsInv(Answered(s, e, [m]), TakeReply(e, n, [m]));
  }

  lemma ReachesAnswered(s: State, t: State, e: Endpoint, batch: seq<Mid>)
    requires Reaches(s, t) && Inv(t) && Lists(batch, Pending(t.db, e))
    ensures Reaches(s, Answered(t, e, batch))
  {
    RequestIsServed(t, e, batch);
    hide Inv, Step, Pending;
    assert Enabled(t, Request(e));
    ReachesStep(s, t, Request(e));
    ReachesStep(s, Step(t, Request(e)), Serve(e, batch));
  }

  /** With nothing owed before: one message posted, offered, taken, and its acknowledgement on the way. */
  lemma FirstExchange(s: State, e: Endpoint, ev: Event)
    requires Init(s) && e in s.db.endpoints
    ensures exists u, m :: Reaches(s, u) && Inv(u) && e in u.db.endpoints && Pending(u.db, e) == {m}
                           && Ack(e, ClientOf(u.clients, e).served) in u.net
  {
    StartIsInv(s, e);
    hide Inv, Enabled, Step, Pending, Reaches, Init;
    var m, s1 := s.db.nextMid, Step(s, PostTo(s, e, ev));
    PostIsEnabled(s, e, ev);
    PostOwesOne(s, e, ev);
    assert Pending(s1.db, e) == {m};
    StartReachesItself(s);
    ReachesStep(s, s, PostTo(s, e, ev));
    assert Lists([m], {m}) by {
      Singleton([m], m);
    }
    ReachesAnswered(s, s1, e, [m]);
    ExchangeSendsAck(s1, e, m);
    AnsweredTries(s1, e, [m]);
    var reply := TakeReply(e, ClientOf(s1.clients, e).served + 1, [m]);
    ReachesStep(s, Answered(s1, e, [m]), reply);
    var u := Step(Answered(s1, e, [m]), reply);
    assert Reaches(s, u);
  }

  lemma PairLists(a: Mid, b: Mid)
    requires a != b
    ensures Lists([a, b], {a, b})
  {
  }

  /** A second message posted and offered before that acknowledgement arrives. */
  lemma SecondOvertakes(s: State, u: State, e: Endpoint, first: Mid, ev: Event)
    requires Reaches(s, u) && Inv(u) && e in u.db.endpoints && Pending(u.db, e) == {first}
    requires Ack(e, ClientOf(u.clients, e).served) in u.net
    ensures exists t, nth: nat :: Reaches(s, t) && Ack(e, nth) in t.net && !Safe(Acknowledged(t, e))
  {
    PostIsEnabled(u, e, ev);
    PostOwesOne(u, e, ev);
    hide Inv, Enabled, Step, Pending, Reaches, Safe, Acknowledged, Handed, Lists;
    var second, v := u.db.nextMid, Step(u, PostTo(u, e, ev));
    ReachesStep(s, u, PostTo(u, e, ev));
    var batch := [first, second];
    assert first != second;
    assert Lists(batch, {first, second}) by {
      PairLists(first, second);
    }
    assert Pending(v.db, e) == {first} + {second} == {first, second};
    ReachesAnswered(s, v, e, batch);
    OvertakenAckLosesMessage(v, e, second, batch);
    var t := Answered(v, e, batch);
    assert Reaches(s, t);
  }

  /**
   * The harm is real: from any start, for any endpoint, there is a run after which an acknowledgement
   * still on its way would mark a message done that the client was never handed.
   */
  lemma OvertakingHappens(s: State, e: Endpoint, ev: Event)
    requires Init(s) && e in s.db.endpoints
    ensures exists run, nth: nat :: Runs(s, run) && Ack(e, nth) in After(s, run).net && !Safe(Acknowledged(After(s, run), e))
  {
    hide Inv, Safe, Enabled, Pending, Acknowledged, Init, Runs, After;
    FirstExchange(s, e, ev);
    var u, m :| Reaches(s, u) && Inv(u) && e in u.db.endpoints && Pending(u.db, e) == {m}
                && Ack(e, ClientOf(u.clients, e).served) in u.net;
    SecondOvertakes(s, u, e, m, ev);
    var t, nth: nat :| Reaches(s, t) && Ack(e, nth) in t.net && !Safe(Acknowledged(t, e));
    var run :| Runs(s, run) && After(s, run) == t;
  }
}
