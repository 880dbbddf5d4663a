/** Runs put together step by step, to show that a state can be reached. */
module Reachable {
  import opened Outbox
  import opened Delivery

  lemma RunsSnoc(s: State, run: seq<Action>, a: Action)
    requires Runs(s, run) && Enabled(After(s, run), a)
    ensures Runs(s, run + [a]) && After(s, run + [a]) == Step(After(s, run), a)
    decreases |run|
  {
    hide Enabled, Step;
    if run == [] {
      assert [] + [a] == [a] && [a][1..] == [];
    } else {
      assert (run + [a])[0] == run[0] && (run + [a])[1..] == run[1..] + [a];
      RunsSnoc(Step(s, run[0]), run[1..], a);
    }
  }

  /** Some run leads from s to t. */
  ghost predicate Reaches(s: State, t: State) { exists run :: Runs(s, run) && After(s, run) == t }

  lemma ReachesStep(s: State, t: State, a: Action)
    requires Reaches(s, t) && Enabled(t, a)
    ensures Reaches(s, Step(t, a))
  {
    hide Enabled, Step;
    var run :| Runs(s, run) && After(s, run) == t;
    RunsSnoc(s, run, a);
  }

  lemma StartReachesItself(s: State)
    ensures Reaches(s, s)
  {
    assert Runs(s, []) && After(s, []) == s;
  }

  // ---- a run that owes an endpoint one message more ----

  function PostTo(s: State, e: Endpoint, ev: Event): Action
    requires e in s.db.endpoints
  {
    AdminPosts(ev, s.db.endpoints[e].extension, "", 0, "", 0, true)
  }

  lemma PostedOwes(t: Tables, msg: Message, all: set<Endpoint>, e: Endpoint)
    requires Sound(t) && e in all && all <= t.endpoints.Keys
    ensures Pending(Posted(t, msg, all, {}), e) == Pending(t, e) + {t.nextMid}
  {
    PostedRows(t, msg, all, {});
    var u := Posted(t, msg, all, {});
    forall m
      ensures m in Pending(u, e) <==> m in Pending(t, e) || m == t.nextMid
    {
      if m != t.nextMid {
        assert (e, m) in u.outboxes <==> (e, m) in t.outboxes;
      } else {
        assert (e, m) in u.outboxes;
      }
    }
  }

  lemma NextMidIsNew(s: State, e: Endpoint)
    requires Inv(s)
    ensures s.db.nextMid !in Pending(s.db, e) && s.db.nextMid !in Handed(s.clients, e) && s.db.nextMid !in s.texts
  {
    hide GoodPacket;
  }

  /** Posting an admin message to the extension of e owes e exactly one message more. */
  lemma PostOwesOne(s: State, e: Endpoint, ev: Event)
    requires Inv(s) && e in s.db.endpoints
    ensures var m, t := s.db.nextMid, Step(s, PostTo(s, e, ev));
      && Pending(t.db, e) == Pending(s.db, e) + {m} && m !in Pending(s.db, e)
      && t.clients == s.clients && s.net <= t.net && t.db.endpoints == s.db.endpoints
      && m !in Handed(t.clients, e) && m !in t.texts && Push(e, m) in t.net
  {
    NextMidIsNew(s, e);
    var msg := ComposeAdmin(ev, s.db.endpoints[e].extension, "", 0, "", 0);
    PostedOwes(s.db, msg, EndpointsOf(s.db, s.db.endpoints[e].extension), e);
    hide Inv, Pending, Handed, ComposeAdmin;
  }

  lemma PostIsEnabled(s: State, e: Endpoint, ev: Event)
    requires Inv(s) && e in s.db.endpoints
    ensures Enabled(s, PostTo(s, e, ev)) && Inv(Step(s, PostTo(s, e, ev)))
  {
    AdminKeepsInv(s, PostTo(s, e, ev));
  }

  lemma StartIsInv(s: State, e: Endpoint)
    requires Init(s)
    ensures Inv(s) && Pending(s.db, e) == {}
  {
    assert Runs(s, []) && After(s, []) == s;
    EveryRunFromTheStartIsSafe(s, []);
  }
}
