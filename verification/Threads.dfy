/** The server's threads: started in the order they were given and stopped in the opposite one. */
module Threads {

  /** The threads of one order, as positions in the list of created threads. */
  function At(orders: seq<nat>, order: nat, upto: nat): seq<nat>
    requires upto <= |orders|
  {
    if upto == 0 then []
    else At(orders, order, upto - 1) + if orders[upto - 1] == order then [upto - 1] else []
  }

  function Up(orders: seq<nat>, n: nat): seq<nat> {
    if n == 0 then [] else Up(orders, n - 1) + At(orders, n - 1, |orders|)
  }

  function Down(orders: seq<nat>, n: nat): seq<nat> {
    if n == 0 then [] else At(orders, n - 1, |orders|) + Down(orders, n - 1)
  }

  class Server {
    var orders: seq<nat>
    var maxOrder: nat

    /** Every order in use lies below the maximum. */
    predicate Valid()
      reads this
    {
      maxOrder > 0 && forall p :: 0 <= p < |orders| ==> orders[p] < maxOrder
    }

    constructor ()
      ensures Valid() && orders == []
    {
      orders, maxOrder := [], 1;
    }

    method CreateThread(order: nat)
      requires Valid()
      modifies this
      ensures Valid() && orders == old(orders) + [order]
    {
      orders := orders + [order];
      if order >= maxOrder {
        maxOrder := order + 1;
      }
    }

    /** Starts every created thread once, orders never falling. */
    method Startup() returns (started: seq<nat>)
      requires Valid()
      ensures started == Up(orders, maxOrder) && Started(orders, started)
      ensures forall p: nat :: p in started <==> p < |orders|
    {
      StartsInOrder(orders, maxOrder);
      forall p: nat
        ensures p in Up(orders, maxOrder) <==> p < |orders|
      {
        StartsAll(orders, maxOrder, p);
      }
      started := [];
      for order := 0 to maxOrder
        invariant started == Up(orders, order)
      {
        for pos := 0 to |orders|
          invariant started == Up(orders, order) + At(orders, order, pos)
        {
          if orders[pos] != order { continue; }
          started := started + [pos];
        }
      }
    }

    /** Stops every created thread once, orders never rising. */
    method Exit() returns (stopped: seq<nat>)
      requires Valid()
      modifies this`maxOrder
      ensures stopped == Down(orders, old(maxOrder)) && maxOrder == 0 && Stopped(orders, stopped)
      ensures forall p: nat :: p in stopped <==> p < |orders|
    {
      StopsInReverse(orders, maxOrder);
      forall p: nat
        ensures p in Down(orders, maxOrder) <==> p < |orders|
      {
        StopsAll(orders, maxOrder, p);
      }
      stopped := [];
      while maxOrder > 0
        invariant stopped + Down(orders, maxOrder) == Down(orders, old(maxOrder))
      {
        maxOrder := maxOrder - 1;
        ghost var before := stopped;
        for pos := 0 to |orders|
          invariant stopped == before + At(orders, maxOrder, pos)
        {
          if orders[pos] != maxOrder { continue; }
          stopped := stopped + [pos];
        }
      }
    }
  }

  /** Earlier in the start: a lower order or, within one order, created first. */
  predicate Starts(orders: seq<nat>, p: nat, q: nat) {
    p < |orders| && q < |orders| && (orders[p] < orders[q] || (orders[p] == orders[q] && p < q))
  }

  predicate Stops(orders: seq<nat>, p: nat, q: nat) {
    p < |orders| && q < |orders| && (orders[p] > orders[q] || (orders[p] == orders[q] && p < q))
  }

  ghost predicate Started(orders: seq<nat>, s: seq<nat>) {
    forall i, j :: 0 <= i < j < |s| ==> Starts(orders, s[i], s[j])
  }

  ghost predicate Stopped(orders: seq<nat>, s: seq<nat>) {
    forall i, j :: 0 <= i < j < |s| ==> Stops(orders, s[i], s[j])
  }

  lemma StartedJoin(orders: seq<nat>, a: seq<nat>, b: seq<nat>)
    requires Started(orders, a) && Started(orders, b) && forall p <- a, q <- b :: Starts(orders, p, q)
    ensures Started(orders, a + b)
  {
    hide Starts;
    forall i, j | 0 <= i < j < |a + b|
      ensures Starts(orders, (a + b)[i], (a + b)[j])
    {
      if i < |a| && |a| <= j {
        assert (a + b)[i] in a && (a + b)[j] in b;
      }
    }
  }

  lemma StoppedJoin(orders: seq<nat>, a: seq<nat>, b: seq<nat>)
    requires Stopped(orders, a) && Stopped(orders, b) && forall p <- a, q <- b :: Stops(orders, p, q)
    ensures Stopped(orders, a + b)
  {
    hide Stops;
    forall i, j | 0 <= i < j < |a + b|
      ensures Stops(orders, (a + b)[i], (a + b)[j])
    {
      if i < |a| && |a| <= j {
        assert (a + b)[i] in a && (a + b)[j] in b;
      }
    }
  }

  lemma {:induction false} AtHas(orders: seq<nat>, order: nat, upto: nat, p: nat)
    requires upto <= |orders|
    ensures p in At(orders, order, upto) <==> p < upto && orders[p] == order
  {
    if upto > 0 {
      AtHas(orders, order, upto - 1, p);
    }
  }

  lemma {:induction false} AtInOrder(orders: seq<nat>, order: nat, upto: nat)
    requires upto <= |orders|
    ensures Started(orders, At(orders, order, upto)) && Stopped(orders, At(orders, order, upto))
  {
    if upto > 0 {
      AtInOrder(orders, order, upto - 1);
      var before := At(orders, order, upto - 1);
      forall p | p in before
        ensures p < upto - 1 && orders[p] == order
      {
        AtHas(orders, order, upto - 1, p);
      }
      if orders[upto - 1] == order {
        StartedJoin(orders, before, [upto - 1]);
        StoppedJoin(orders, before, [upto - 1]);
      }
    }
  }

  /** Every thread of an order below n is started, and no other. */
  lemma {:induction false} StartsAll(orders: seq<nat>, n: nat, p: nat)
    ensures p in Up(orders, n) <==> p < |orders| && orders[p] < n
  {
    hide At;
    if n > 0 {
      StartsAll(orders, n - 1, p);
      AtHas(orders, n - 1, |orders|, p);
    }
  }

  lemma {:induction false} StopsAll(orders: seq<nat>, n: nat, p: nat)
    ensures p in Down(orders, n) <==> p < |orders| && orders[p] < n
  {
    hide At;
    if n > 0 {
      StopsAll(orders, n - 1, p);
      AtHas(orders, n - 1, |orders|, p);
    }
  }

  /** Started once each, orders never falling, threads of one order as they were created. */
  lemma {:induction false} StartsInOrder(orders: seq<nat>, n: nat)
    ensures Started(orders, Up(orders, n))
  {
    if n > 0 {
      StartsInOrder(orders, n - 1);
      AtInOrder(orders, n - 1, |orders|);
      var lower, these := Up(orders, n - 1), At(orders, n - 1, |orders|);
      forall p <- lower, q <- these
        ensures Starts(orders, p, q)
      {
        StartsAll(orders, n - 1, p);
        AtHas(orders, n - 1, |orders|, q);
      }
      StartedJoin(orders, lower, these);
    }
  }

  /** Stopped once each, orders never rising, threads of one order as they were created. */
  lemma {:induction false} StopsInReverse(orders: seq<nat>, n: nat)
    ensures Stopped(orders, Down(orders, n))
  {
    if n > 0 {
      StopsInReverse(orders, n - 1);
      AtInOrder(orders, n - 1, |orders|);
      var lower, these := Down(orders, n - 1), At(orders, n - 1, |orders|);
      forall p <- these, q <- lower
        ensures Stops(orders, p, q)
      {
        StopsAll(orders, n - 1, q);
        AtHas(orders, n - 1, |orders|, p);
      }
      StoppedJoin(orders, these, lower);
    }
  }
}
