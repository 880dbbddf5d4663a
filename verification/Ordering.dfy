/** Messages in the order a conversation shows them: by time posted, then by sequence number. */
module Ordering {

  datatype Stamp = Stamp(posted: int, sequence: int)

  datatype Item = Item(
    stamp: Stamp, admin: bool, subject: string, from: int, to: int, body: string, expires: int)

  predicate Before(a: Stamp, b: Stamp) {
    a.posted < b.posted || (a.posted == b.posted && a.sequence < b.sequence)
  }

  function Later(a: Stamp, b: Stamp): Stamp { if Before(a, b) then b else a }

  function Elems<T>(q: seq<T>): set<T> { set x | x in q }

  lemma NoElems<T>(q: seq<T>)
    ensures Elems(q) == {} <==> q == []
  {
    if q != [] {
      assert q[0] in Elems(q);
    }
  }

  /** Strictly ascending, so no two items share a stamp. */
  predicate Ascending(l: seq<Item>) {
    forall i, j :: 0 <= i < j < |l| ==> Before(l[i].stamp, l[j].stamp)
  }

  /** In other words: by time, messages of one time by their sequence numbers, and no two of one time and number. */
  lemma AscendingByTime(l: seq<Item>)
    ensures Ascending(l) <==> forall i, j :: 0 <= i < j < |l| ==>
      l[i].stamp.posted <= l[j].stamp.posted
      && (l[i].stamp.posted == l[j].stamp.posted ==> l[i].stamp.sequence < l[j].stamp.sequence)
  {
  }

  /** The list an insertion leaves: the item goes before the first one that is not older. */
  function Insert(l: seq<Item>, x: Item): seq<Item> {
    if l == [] || !Before(l[0].stamp, x.stamp) then [x] + l
    else [l[0]] + Insert(l[1..], x)
  }

  /** An insertion adds exactly one copy of the item. */
  lemma {:induction false} InsertAddsOne(l: seq<Item>, x: Item)
    ensures multiset(Insert(l, x)) == multiset(l) + multiset{x}
  {
    if l != [] && Before(l[0].stamp, x.stamp) {
      InsertAddsOne(l[1..], x);
      assert l == [l[0]] + l[1..];
    }
  }

  lemma InsertElems(l: seq<Item>, x: Item)
    ensures Elems(Insert(l, x)) == Elems(l) + {x}
  {
    InsertAddsOne(l, x);
    forall y
      ensures y in Insert(l, x) <==> y in l || y == x
    {
      assert y in multiset(Insert(l, x)) <==> y in multiset(l) || y == x;
    }
  }

  predicate HasStamp(l: seq<Item>, k: Stamp) { exists i :: 0 <= i < |l| && l[i].stamp == k }

  lemma {:induction false} InsertAscending(l: seq<Item>, x: Item)
    requires Ascending(l) && !HasStamp(l, x.stamp)
    ensures Ascending(Insert(l, x))
  {
    InsertElems(l, x);
    if l != [] && Before(l[0].stamp, x.stamp) {
      assert !HasStamp(l[1..], x.stamp);
      InsertAscending(l[1..], x);
      InsertElems(l[1..], x);
      var r := Insert(l[1..], x);
      forall j | 0 <= j < |r|
        ensures Before(l[0].stamp, r[j].stamp)
      {
        assert r[j] in Elems(r);
      }
    }
  }

  lemma {:induction false} InsertTwiceNotAscending(l: seq<Item>, x: Item)
    requires Ascending(l) && HasStamp(l, x.stamp)
    ensures !Ascending(Insert(l, x))
  {
    var r := Insert(l, x);
    if Before(l[0].stamp, x.stamp) {
      var i :| 0 <= i < |l| && l[i].stamp == x.stamp;
      assert l[1..][i - 1].stamp == x.stamp;
      InsertTwiceNotAscending(l[1..], x);
      assert r[1..] == Insert(l[1..], x);
      var a, b :| 0 <= a < b < |r[1..]| && !Before(r[1..][a].stamp, r[1..][b].stamp);
      assert !Before(r[a + 1].stamp, r[b + 1].stamp);
    } else {
      assert r[0] == x && r[1] == l[0];
    }
  }

  lemma {:induction false} InsertSplit(l: seq<Item>, x: Item, p: nat)
    requires p <= |l|
    requires forall i :: 0 <= i < p ==> Before(l[i].stamp, x.stamp)
    requires p < |l| ==> !Before(l[p].stamp, x.stamp)
    ensures Insert(l, x) == l[..p] + [x] + l[p..]
  {
    if p > 0 {
      var rest := l[1..];
      InsertSplit(rest, x, p - 1);
      assert l[..p] == [l[0]] + rest[..p - 1] && l[p..] == rest[p - 1..];
      assert Insert(l, x) == [l[0]] + (rest[..p - 1] + [x] + rest[p - 1..]);
    }
  }

  lemma {:induction false} InsertCommutes(l: seq<Item>, x: Item, y: Item)
    requires Ascending(l) && x.stamp != y.stamp
    ensures Insert(Insert(l, x), y) == Insert(Insert(l, y), x)
  {
    if l == [] {
    } else if Before(l[0].stamp, x.stamp) && Before(l[0].stamp, y.stamp) {
      InsertCommutes(l[1..], x, y);
      assert Insert(l, x)[1..] == Insert(l[1..], x);
      assert Insert(l, y)[1..] == Insert(l[1..], y);
    } else if Before(x.stamp, y.stamp) {
      assert Insert(l, x) == [x] + l;
      assert ([x] + l)[1..] == l;
      if Before(l[0].stamp, y.stamp) {
        assert Insert(l, y)[0] == l[0];
      }
    } else {
      assert Insert(l, y) == [y] + l;
      assert ([y] + l)[1..] == l;
    }
  }

  // ---- a list within a list ----

  predicate Within(part: seq<Item>, whole: seq<Item>)
    decreases |whole|
  {
    part == [] ||
    (whole != [] && if part[0] == whole[0] then Within(part[1..], whole[1..]) else Within(part, whole[1..]))
  }

  lemma {:induction false} WithinElems(part: seq<Item>, whole: seq<Item>)
    requires Within(part, whole)
    ensures Elems(part) <= Elems(whole)
    decreases |whole|
  {
    if part != [] {
      assert Elems(whole[1..]) <= Elems(whole);
      if part[0] == whole[0] {
        WithinElems(part[1..], whole[1..]);
        assert part[0] in Elems(whole);
        assert forall x <- part :: x == part[0] || x in Elems(part[1..]);
      } else {
        WithinElems(part, whole[1..]);
      }
    }
  }

  lemma {:induction false} WithinItself(l: seq<Item>)
    ensures Within(l, l)
  {
    if l != [] {
      WithinItself(l[1..]);
    }
  }

  lemma {:induction false} WithinAscending(part: seq<Item>, whole: seq<Item>)
    requires Within(part, whole) && Ascending(whole)
    ensures Ascending(part)
    decreases |whole|
  {
    if part != [] {
      if part[0] == whole[0] {
        WithinAscending(part[1..], whole[1..]);
        WithinElems(part[1..], whole[1..]);
        forall j | 1 <= j < |part|
          ensures Before(part[0].stamp, part[j].stamp)
        {
          assert part[j] == part[1..][j - 1];
          assert part[j] in Elems(whole[1..]);
        }
      } else {
        WithinAscending(part, whole[1..]);
      }
    }
  }

  /** Inserting one item into both lists keeps the one within the other. */
  lemma {:induction false} InsertWithin(part: seq<Item>, whole: seq<Item>, x: Item)
    requires Within(part, whole) && Ascending(whole)
    ensures Within(Insert(part, x), Insert(whole, x))
    decreases |whole|
  {
    if whole == [] {
    } else if Before(whole[0].stamp, x.stamp) {
      var rest := Insert(whole[1..], x);
      assert Insert(whole, x) == [whole[0]] + rest && ([whole[0]] + rest)[1..] == rest;
      if part != [] && part[0] == whole[0] {
        InsertWithin(part[1..], whole[1..], x);
        var tail := Insert(part[1..], x);
        assert Insert(part, x) == [part[0]] + tail && ([part[0]] + tail)[1..] == tail;
      } else {
        InsertWithin(part, whole[1..], x);
        assert Insert(part, x)[0] != whole[0];
      }
    } else {
      WithinElems(part, whole);
      assert part != [] ==> part[0] in Elems(part);
      assert Insert(part, x) == [x] + part && ([x] + part)[1..] == part;
      assert ([x] + whole)[1..] == whole;
    }
  }

  // ---- a set of items has one ascending list ----

  ghost predicate Lists(l: seq<Item>, items: set<Item>) { Ascending(l) && Elems(l) == items }

  lemma {:induction false} ListIsUnique(l: seq<Item>, r: seq<Item>, items: set<Item>)
    requires Lists(l, items) && Lists(r, items)
    ensures l == r
  {
    if l == [] || r == [] {
      NoElems(l);
      NoElems(r);
    } else {
      assert l[0] in Elems(l) && r[0] in Elems(r);
      TailLists(l);
      TailLists(r);
      assert l[0] == r[0];
      ListIsUnique(l[1..], r[1..], items - {l[0]});
    }
  }

  lemma TailLists(l: seq<Item>)
    requires l != [] && Ascending(l)
    ensures Lists(l[1..], Elems(l) - {l[0]})
    ensures forall x <- Elems(l) :: x == l[0] || Before(l[0].stamp, x.stamp)
  {
    assert l == [l[0]] + l[1..];
  }
}
