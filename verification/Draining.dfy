/** What one pending request achieves when other things happen around it. */
module Draining {
  import opened Text
  import opened Outbox
  import opened Delivery
  import opened Reachable

  /** A step that files nothing new for e, does not synchronize e and serves e no other request. */
  ghost predicate Quiet(s: State, a: Action, e: Endpoint) {
    && (forall m | (e, m) in Step(s, a).db.outboxes :: (e, m) in s.db.outboxes)
    && (a.Sync? ==> a.e != e)
    && (a.Serve? ==> a.e != e)
  }

  ghost predicate QuietRun(s: State, run: seq<Action>, e: Endpoint)
    decreases |run|
  {
    run == [] || (Quiet(s, run[0], e) && QuietRun(Step(s, run[0]), run[1..], e))
  }

  /** The last answer to a push of the message that the run took from e, if any. */
  function LastAnswer(run: seq<Action>, e: Endpoint, m: Mid): Option<int>
    decreases |run|
  {
    if run == [] then None
    else if LastAnswer(run[1..], e, m).Some? then LastAnswer(run[1..], e, m)
    else if run[0].TakeResponse? && run[0].e == e && run[0].mid == m then Some(run[0].status)
    else None
  }

  // ---- a quiet step changes a row by an answer or an acknowledgement only ----

  lemma PostLeavesRow(s: State, a: Action, k: (Endpoint, Mid))
    requires Inv(s) && (a.TextArrives? || a.AdminPosts? || a.Copy?) && k in s.db.outboxes
    ensures k in Step(s, a).db.outboxes && Step(s, a).db.outboxes[k] == s.db.outboxes[k]
  {
    hide GoodPacket, SendersOwn;
    match a {
      case TextArrives(ev, stored) =>
        PostedRows(s.db, Compose(ev), Recipients(s.db, s.policy, ev), OwnCopies(s.db, ev));
      case AdminPosts(ev, to, text, sender, display, expires, stored) =>
        PostedRows(s.db, ComposeAdmin(ev, to, text, sender, display, expires), EndpointsOf(s.db, to), {});
      case Copy(source, target) => CopiedRows(s.db, source, target);
    }
  }

  lemma QuietRow(s: State, a: Action, e: Endpoint, m: Mid)
    requires Inv(s) && Quiet(s, a, e) && (e, m) in Step(s, a).db.outboxes
    ensures var was, now := s.db.outboxes, Step(s, a).db.outboxes;
      && (e, m) in was
      && now[(e, m)] == if a.TakeResponse? && a.e == e && a.mid == m then a.status
                        else if a.TakeAck? && a.e == e && was[(e, m)] == TRYING then SIP_OK
                        else was[(e, m)]
  {
    if a.TextArrives? || a.AdminPosts? || a.Copy? {
      PostLeavesRow(s, a, (e, m));
    } else {
      hide Inv;
    }
  }

  /** The last answer decides a row over a quiet run; without one only an acknowledgement may settle it. */
  lemma {:induction false} QuietRunRow(s: State, run: seq<Action>, e: Endpoint, m: Mid)
    requires Inv(s) && Runs(s, run) && QuietRun(s, run, e) && (e, m) in After(s, run).db.outboxes
    ensures var was, now := s.db.outboxes, After(s, run).db.outboxes[(e, m)];
      && (e, m) in was
      && match LastAnswer(run, e, m)
         case Some(status) => now == status
         case None => now == was[(e, m)] || (was[(e, m)] == TRYING && now == SIP_OK)
    decreases |run|
  {
    if run != [] {
      StepKeepsInv(s, run[0]);
      QuietRunRow(Step(s, run[0]), run[1..], e, m);
      QuietRow(s, run[0], e, m);
      AnswerIsFinal(s, run[0]);
    }
  }

  /** Only final answers are in the network. */
  lemma AnswerIsFinal(s: State, a: Action)
    requires Inv(s) && Enabled(s, a)
    ensures a.TakeResponse? ==> a.status >= SIP_OK
  {
    if a.TakeResponse? {
      assert GoodPacket(s.clients, s.sent, Response(a.e, a.mid, a.status));
    }
  }

  lemma {:induction false} AnswersAreFinal(s: State, run: seq<Action>, e: Endpoint, m: Mid)
    requires Inv(s) && Runs(s, run) && LastAnswer(run, e, m).Some?
    ensures LastAnswer(run, e, m).value >= SIP_OK
    decreases |run|
  {
    StepKeepsInv(s, run[0]);
    AnswerIsFinal(s, run[0]);
    if LastAnswer(run[1..], e, m).Some? {
      AnswersAreFinal(Step(s, run[0]), run[1..], e, m);
    }
  }

  // ---- the answer taken during the run makes the acknowledgement possible ----

  lemma {:induction false} RunKeeps(s: State, run: seq<Action>, e: Endpoint)
    requires Runs(s, run) && QuietRun(s, run, e)
    ensures s.net <= After(s, run).net && ClientOf(After(s, run).clients, e).served == ClientOf(s.clients, e).served
    ensures Handed(s.clients, e) <= Handed(After(s, run).clients, e)
    decreases |run|
  {
    if run != [] {
      RunKeeps(Step(s, run[0]), run[1..], e);
      StepKeeps(s, run[0], e);
    }
  }

  lemma StepKeeps(s: State, a: Action, e: Endpoint)
    requires Quiet(s, a, e)
    ensures s.net <= Step(s, a).net && ClientOf(Step(s, a).clients, e).served == ClientOf(s.clients, e).served
    ensures Handed(s.clients, e) <= Handed(Step(s, a).clients, e)
  {
    hide LocalMessage, AdminMessage;
  }

  lemma {:induction false} TakenIsAcknowledged(s: State, run: seq<Action>, e: Endpoint, nth: nat, batch: seq<Mid>)
    requires Runs(s, run) && QuietRun(s, run, e) && TakeReply(e, nth, batch) in run && batch != []
    ensures Ack(e, nth) in After(s, run).net && Elems(batch) <= Handed(After(s, run).clients, e)
    decreases |run|
  {
    if run[0] == TakeReply(e, nth, batch) {
      var t := Step(s, run[0]);
      assert ClientOf(t.clients, e).log == ClientOf(s.clients, e).log + batch;
      RunKeeps(t, run[1..], e);
    } else {
      TakenIsAcknowledged(Step(s, run[0]), run[1..], e, nth, batch);
    }
  }

  // ---- one request, its answer and its acknowledgement ----

  lemma ServedTriesAll(s: State, e: Endpoint, batch: seq<Mid>)
    requires Inv(s) && Enabled(s, Serve(e, batch))
    ensures var t := Step(s, Serve(e, batch));
      && Inv(t) && ClientOf(t.clients, e).served == ClientOf(s.clients, e).served + 1
      && forall m | (e, m) in t.db.outboxes :: (e, m) in s.db.outboxes &&
           if s.db.outboxes[(e, m)] == SIP_OK then t.db.outboxes[(e, m)] == SIP_OK
           else m in batch && t.db.outboxes[(e, m)] == TRYING
  {
    ServeKeepsInv(s, e, batch);
    forall m | (e, m) in s.db.outboxes && s.db.outboxes[(e, m)] != SIP_OK
      ensures m in batch
    {
      assert m in Elems(batch);
    }
  }

  function Settled(answer: Option<int>): int { if answer.Some? then answer.value else SIP_OK }

  /**
   * From any reachable state in which a request of e is served: whatever happens until the
   * acknowledgement arrives, if the answer is taken meanwhile and nothing new is filed for e nor its
   * outbox synchronized or served again, then the acknowledgement can be taken, every message that
   * was not done has been handed over, and each row of e ends at the last answer taken for it, and at
   * 200 if there was none.
   */
  lemma EachRowSettles(s: State, e: Endpoint, batch: seq<Mid>, run: seq<Action>)
    requires Inv(s) && Enabled(s, Serve(e, batch)) && batch != []
    requires var t := Step(s, Serve(e, batch)); Runs(t, run) && QuietRun(t, run, e)
    requires TakeReply(e, ClientOf(s.clients, e).served + 1, batch) in run
    ensures var n := ClientOf(s.clients, e).served + 1;
      var u := After(Step(s, Serve(e, batch)), run);
      var v := Step(u, TakeAck(e, n));
      && Enabled(u, TakeAck(e, n))
      && (forall m | (e, m) in v.db.outboxes :: v.db.outboxes[(e, m)] == Settled(LastAnswer(run, e, m)))
      && (forall m | (e, m) in s.db.outboxes && s.db.outboxes[(e, m)] != SIP_OK :: m in Handed(v.clients, e))
  {
    hide Inv, Enabled, Runs, QuietRun, After, Handed, LastAnswer;
    var n, t := ClientOf(s.clients, e).served + 1, Step(s, Serve(e, batch));
    var u := After(t, run);
    ServedTriesAll(s, e, batch);
    assert Enabled(u, TakeAck(e, n)) && Elems(batch) <= Handed(u.clients, e) by {
      TakenIsAcknowledged(t, run, e, n, batch);
      RunKeeps(t, run, e);
      AckIsEnabled(u, e, n);
    }
    var v := Step(u, TakeAck(e, n));
    forall m | (e, m) in v.db.outboxes
      ensures v.db.outboxes[(e, m)] == Settled(LastAnswer(run, e, m))
    {
      QuietRunRow(t, run, e, m);
      if LastAnswer(run, e, m).Some? {
        AnswersAreFinal(t, run, e, m);
      }
    }
    forall m | (e, m) in s.db.outboxes && s.db.outboxes[(e, m)] != SIP_OK
      ensures m in Handed(v.clients, e)
    {
      ServeKeepsRow(s, e, batch, m);
      assert m in Elems(batch);
    }
  }

  lemma AckIsEnabled(u: State, e: Endpoint, n: nat)
    requires Ack(e, n) in u.net && ClientOf(u.clients, e).served == n
    ensures Enabled(u, TakeAck(e, n))
  {
  }

  lemma ServeKeepsRow(s: State, e: Endpoint, batch: seq<Mid>, m: Mid)
    requires (e, m) in s.db.outboxes
    ensures (e, m) in Step(s, Serve(e, batch)).db.outboxes
  {
  }

  ghost predicate AllDone(s: State, e: Endpoint) {
    forall m | (e, m) in s.db.outboxes :: s.db.outboxes[(e, m)] == SIP_OK
  }

  /** The endpoint is drained exactly when no row's last answer, taken during the exchange, was a failure. */
  lemma DrainedIff(s: State, e: Endpoint, batch: seq<Mid>, run: seq<Action>)
    requires Inv(s) && Enabled(s, Serve(e, batch)) && batch != []
    requires var t := Step(s, Serve(e, batch)); Runs(t, run) && QuietRun(t, run, e)
    requires TakeReply(e, ClientOf(s.clients, e).served + 1, batch) in run
    ensures var u := After(Step(s, Serve(e, batch)), run);
      AllDone(Step(u, TakeAck(e, ClientOf(s.clients, e).served + 1)), e)
      <==> forall m | (e, m) in u.db.outboxes :: Settled(LastAnswer(run, e, m)) == SIP_OK
  {
    hide Inv, Enabled, Runs, QuietRun, After, LastAnswer;
    EachRowSettles(s, e, batch, run);
    var u := After(Step(s, Serve(e, batch)), run);
    var v := Step(u, TakeAck(e, ClientOf(s.clients, e).served + 1));
    assert forall m :: (e, m) in v.db.outboxes <==> (e, m) in u.db.outboxes;
  }

  /** With nothing owed there is nothing to acknowledge, and every row is done already. */
  lemma NothingOwedIsDone(s: State, e: Endpoint)
    requires Inv(s) && Pending(s.db, e) == {}
    ensures AllDone(s, e)
  {
    forall m | (e, m) in s.db.outboxes
      ensures s.db.outboxes[(e, m)] == SIP_OK
    {
      assert m !in Pending(s.db, e);
    }
  }

  lemma StepThenRun(s: State, a: Action, run: seq<Action>, e: Endpoint)
    ensures Runs(s, [a] + run) <==> Enabled(s, a) && Runs(Step(s, a), run)
    ensures QuietRun(s, [a] + run, e) <==> Quiet(s, a, e) && QuietRun(Step(s, a), run, e)
    ensures After(s, [a] + run) == After(Step(s, a), run)
  {
    hide Enabled, Step, Quiet;
    assert ([a] + run)[1..] == run;
  }

  lemma OneStep(s: State, a: Action, e: Endpoint)
    ensures (Runs(s, [a]) <==> Enabled(s, a)) && (QuietRun(s, [a], e) <==> Quiet(s, a, e)) && After(s, [a]) == Step(s, a)
  {
    hide Enabled, Step, Quiet;
    StepThenRun(s, a, [], e);
    assert [a] + [] == [a];
  }

  lemma NoAnswerIn(a: Action, e: Endpoint)
    requires !a.TakeResponse?
    ensures forall m :: LastAnswer([a], e, m) == None
  {
  }

  /**
   * Undisturbed, one cycle drains: from any reachable state a request, its answer and the
   * acknowledgement hand over every message not done, those left behind by a lost answer included.
   * With nothing owed the answer is empty, is not acknowledged, and every row is done already.
   */
  lemma OneCycleDrains(s: State, e: Endpoint, batch: seq<Mid>)
    requires Inv(s) && Distinct(batch) && Elems(batch) == Pending(s.db, e)
    ensures var asked, n := Step(s, Request(e)), ClientOf(s.clients, e).served + 1;
      var served := Step(asked, Serve(e, batch));
      var taken := Step(served, TakeReply(e, n, batch));
      && Enabled(asked, Serve(e, batch)) && Enabled(served, TakeReply(e, n, batch))
      && Elems(batch) <= Handed(taken.clients, e)
      && if batch == [] then AllDone(taken, e)
         else Enabled(taken, TakeAck(e, n)) && AllDone(Step(taken, TakeAck(e, n)), e)
  {
    hide Inv, Enabled, Step, Quiet, AllDone, Pending;
    var asked, n := Step(s, Request(e)), ClientOf(s.clients, e).served + 1;
    var t, a := Step(asked, Serve(e, batch)), TakeReply(e, n, batch);
    CycleIsEnabled(s, e, batch);
    if batch == [] {
      NothingToAcknowledge(asked, e, n);
    } else {
      OneStep(t, a, e);
      NoAnswerIn(a, e);
      hide Runs, QuietRun, After, LastAnswer;
      EachRowSettles(asked, e, batch, [a]);
      DrainedIff(asked, e, batch, [a]);
      TakenIsAcknowledged(t, [a], e, n, batch);
    }
  }

  lemma CycleIsEnabled(s: State, e: Endpoint, batch: seq<Mid>)
    requires Inv(s) && Distinct(batch) && Elems(batch) == Pending(s.db, e)
    ensures var asked, n := Step(s, Request(e)), ClientOf(s.clients, e).served + 1;
      var t, a := Step(asked, Serve(e, batch)), TakeReply(e, n, batch);
      && Inv(asked) && Enabled(asked, Serve(e, batch)) && Pending(asked.db, e) == Pending(s.db, e)
      && ClientOf(asked.clients, e).served + 1 == n
      && Enabled(t, a) && Quiet(t, a, e)
  {
    RequestStepKeepsInv(s, e);
    hide Inv;
    assert Step(s, Request(e)).db == s.db;
  }

  lemma NothingToAcknowledge(s: State, e: Endpoint, n: nat)
    requires Inv(s) && Enabled(s, Serve(e, [])) && Pending(s.db, e) == {}
    ensures AllDone(Step(Step(s, Serve(e, [])), TakeReply(e, n, [])), e)
  {
    hide GoodPacket, SendersOwn;
    NothingOwedIsDone(s, e);
    ServedTriesAll(s, e, []);
  }

  lemma ThreeSteps(s: State, a: Action, b: Action, c: Action, e: Endpoint)
    ensures var run, s1, s2 := [a, b, c], Step(s, a), Step(Step(s, a), b);
      && (Runs(s, run) <==> Enabled(s, a) && Enabled(s1, b) && Enabled(s2, c))
      && (QuietRun(s, run, e) <==> Quiet(s, a, e) && Quiet(s1, b, e) && Quiet(s2, c, e))
      && After(s, run) == Step(s2, c)
  {
    hide Enabled, Step, Quiet, Runs, QuietRun, After;
    assert [a, b, c] == [a] + [b, c] && [b, c] == [b] + [c];
    StepThenRun(s, a, [b, c], e);
    StepThenRun(Step(s, a), b, [c], e);
    OneStep(Step(Step(s, a), b), c, e);
  }

  /** The run in which the failure of an earlier push is taken after the answer. */
  function LateFailure(e: Endpoint, n: nat, batch: seq<Mid>, m: Mid, status: int): seq<Action> {
    [TakeReply(e, n, batch), FailPush(e, m, status), TakeResponse(e, m, status)]
  }

  lemma LateFailureHappens(t: State, e: Endpoint, n: nat, batch: seq<Mid>, m: Mid, status: int)
    requires Reply(e, n, batch) in t.net && Push(e, m) in t.net && status > SIP_OK
    ensures var run := LateFailure(e, n, batch, m, status);
      && Runs(t, run) && QuietRun(t, run, e) && After(t, run).db == MessageResponse(t.db, m, e, status)
  {
    ThreeSteps(t, TakeReply(e, n, batch), FailPush(e, m, status), TakeResponse(e, m, status), e);
  }

  lemma LateFailureIsLast(e: Endpoint, n: nat, batch: seq<Mid>, m: Mid, status: int)
    ensures LastAnswer(LateFailure(e, n, batch, m, status), e, m) == Some(status)
  {
    var a, b, c := TakeReply(e, n, batch), FailPush(e, m, status), TakeResponse(e, m, status);
    assert [a, b, c][1..] == [b, c] && [b, c][1..] == [c] && [c][1..] == [];
    assert LastAnswer([c], e, m) == Some(status);
    assert LastAnswer([b, c], e, m) == Some(status);
  }

  /** A late failure of a push of m, taken around the answer, leaves e with a row that is not done. */
  ghost predicate Undone(s: State, e: Endpoint, batch: seq<Mid>, m: Mid, status: int) {
    var n := ClientOf(s.clients, e).served + 1;
    var t, run := Step(s, Serve(e, batch)), LateFailure(e, n, batch, m, status);
    && Enabled(s, Serve(e, batch)) && Runs(t, run) && QuietRun(t, run, e) && Enabled(After(t, run), TakeAck(e, n))
    && !AllDone(Step(After(t, run), TakeAck(e, n)), e)
  }

  /**
   * A late failure undoes a drain: with a push of an owed message still on its way, a run without
   * anything new for e takes its failure after the answer, and the acknowledgement leaves the row there.
   */
  lemma LateFailureUndoesDrain(s: State, e: Endpoint, m: Mid, batch: seq<Mid>, status: int)
    requires Inv(s) && Enabled(s, Serve(e, batch)) && m in batch && Push(e, m) in s.net && status > SIP_OK
    ensures Undone(s, e, batch, m, status)
  {
    hide Inv, Enabled, Step, Runs, QuietRun, After, LastAnswer, LateFailure, AllDone, ClientOf;
    var n := ClientOf(s.clients, e).served + 1;
    var t, run := Step(s, Serve(e, batch)), LateFailure(e, n, batch, m, status);
    OfferedRowStays(s, e, m, batch, status);
    LateFailureIsLast(e, n, batch, m, status);
    assert Enabled(After(t, run), TakeAck(e, n)) by {
      EachRowSettles(s, e, batch, run);
    }
    DrainedIff(s, e, batch, run);
    assert Settled(LastAnswer(run, e, m)) == status;
  }

  lemma OfferedRowStays(s: State, e: Endpoint, m: Mid, batch: seq<Mid>, status: int)
    requires Enabled(s, Serve(e, batch)) && m in batch && Push(e, m) in s.net && status > SIP_OK
    ensures var n := ClientOf(s.clients, e).served + 1;
      var t, run := Step(s, Serve(e, batch)), LateFailure(e, n, batch, m, status);
      Runs(t, run) && QuietRun(t, run, e) && (e, m) in After(t, run).db.outboxes && TakeReply(e, n, batch) in run
  {
    var n, t := ClientOf(s.clients, e).served + 1, Step(s, Serve(e, batch));
    assert LateFailure(e, n, batch, m, status)[0] == TakeReply(e, n, batch);
    assert (e, m) in t.db.outboxes by {
      assert m in Elems(batch);
    }
    hide Runs, QuietRun, After, LateFailure;
    LateFailureHappens(t, e, n, batch, m, status);
  }

  lemma OwedCanBeServed(s: State, e: Endpoint, m: Mid)
    requires Inv(s) && Pending(s.db, e) == {m} && Push(e, m) in s.net
    ensures var t := Step(s, Request(e));
      Enabled(s, Request(e)) && Inv(t) && Enabled(t, Serve(e, [m])) && Push(e, m) in t.net
  {
    hide GoodPacket, SendersOwn;
    RequestStepKeepsInv(s, e);
    Singleton([m], m);
  }

  /** And this happens: from any start, for any endpoint, a run leads to such a state. */
  lemma LateFailureIsReachable(s: State, e: Endpoint, ev: Event, status: int)
    requires Init(s) && e in s.db.endpoints && status > SIP_OK
    ensures exists t, m :: Reaches(s, t) && Undone(t, e, [m], m, status)
  {
    StartIsInv(s, e);
    hide Inv, Enabled, Step, Reaches, Init, Undone, Pending, Handed;
    PostIsEnabled(s, e, ev);
    PostOwesOne(s, e, ev);
    var m, posted := s.db.nextMid, Step(s, PostTo(s, e, ev));
    OwedCanBeServed(posted, e, m);
    var t := Step(posted, Request(e));
    StartReachesItself(s);
    ReachesStep(s, s, PostTo(s, e, ev));
    ReachesStep(s, posted, Request(e));
    LateFailureUndoesDrain(t, e, m, [m], status);
  }
}
