/** The indexes the registration's constructor and destructor keep over the live objects. */
module RegistryIndex {
  import opened Bitmap
  import opened Indexes
  import opened Registries

  const NUMBERS := 1000
  const BYTES := NUMBERS / 8

  /** The four hashes. */
  datatype Hashes = Hashes(
    extensions: multiset<(int, Registry)>, aliases: multiset<(string, Registry)>,
    registries: map<(int, string), Registry>, endpoints: map<int, Registry>)

  /** The hashes with the per-number reference counts and the online bits. */
  datatype Index = Index(hashes: Hashes, count: seq<int>, online: seq<bv8>)

  /** The dialing range: numbers the database lets register. */
  datatype Range = Range(first: int, last: int) {
    ghost predicate Valid() { 0 <= first <= last < NUMBERS }
    predicate Has(n: int) { first <= n <= last }
  }

  function OnNumber(live: set<Registry>, n: int): set<Registry> {
    set o | o in live && NumberOf(o) == n
  }

  // What each hash is keyed by.
  function KeyOf(o: Registry): (int, string) { (o.id.number, o.id.device) }
  function EndpointOf(o: Registry): int { o.id.endpoint }
  function NumberOf(o: Registry): int { o.id.number }
  function UserOf(o: Registry): string { o.id.user }

  /** The hashes hold exactly the live objects, each once under each of its keys. */
  ghost predicate Holds(h: Hashes, live: set<Registry>) {
    && Unique(h.registries, live, KeyOf) && Unique(h.endpoints, live, EndpointOf)
    && Grouped(h.extensions, live, NumberOf) && Grouped(h.aliases, live, UserOf)
  }

  ghost predicate Counted(count: seq<int>, live: set<Registry>) {
    |count| == NUMBERS && forall n :: 0 <= n < NUMBERS ==> count[n] == |OnNumber(live, n)|
  }

  /** Bit n - first is set just when n is counted, and no bit beyond the range is. */
  ghost predicate BitsShow(online: seq<bv8>, count: seq<int>, r: Range) {
    && |online| == BYTES && |count| == NUMBERS && r.Valid()
    && (forall n | r.Has(n) :: Bit(online, n - r.first) <==> count[n] > 0)
    && (forall j | r.last - r.first < j < NUMBERS :: !Bit(online, j))
  }

  ghost predicate Consistent(ix: Index, live: set<Registry>, r: Range) {
    && (forall o <- live :: r.Has(NumberOf(o)))
    && Holds(ix.hashes, live) && Counted(ix.count, live) && BitsShow(ix.online, ix.count, r)
  }

  predicate Fresh(h: Hashes, o: Registry) { KeyOf(o) !in h.registries && EndpointOf(o) !in h.endpoints }

  /** Registrations are looked up, and walked to clean up, through these two hashes only. */
  ghost predicate Findable(h: Hashes, o: Registry) {
    o in h.registries.Values || o in h.endpoints.Values
  }

  // ---- what the constructor and the destructor do to the indexes ----

  function Inserted(h: Hashes, o: Registry): Hashes {
    Hashes(h.extensions + multiset{(NumberOf(o), o)}, h.aliases + multiset{(UserOf(o), o)},
           h.registries[KeyOf(o) := o], h.endpoints[EndpointOf(o) := o])
  }

  function Removed(h: Hashes, o: Registry): Hashes {
    Hashes(h.extensions[(NumberOf(o), o) := 0], h.aliases[(UserOf(o), o) := 0],
           h.registries - {KeyOf(o)}, h.endpoints - {EndpointOf(o)})
  }

  predicate Fits(ix: Index, r: Range, n: int) {
    |ix.count| == NUMBERS && |ix.online| == BYTES && 0 <= r.first <= n < NUMBERS
  }

  function Created(ix: Index, o: Registry, r: Range): (t: Index)
    requires Fits(ix, r, NumberOf(o))
    ensures Fits(t, r, NumberOf(o))
  {
    var n := NumberOf(o);
    Index(Inserted(ix.hashes, o), ix.count[n := ix.count[n] + 1],
          if ix.count[n] + 1 == 1 then SetBit(ix.online, n - r.first) else ix.online)
  }

  function Destroyed(ix: Index, o: Registry, r: Range): (t: Index)
    requires Fits(ix, r, NumberOf(o))
    ensures Fits(t, r, NumberOf(o))
  {
    var n := NumberOf(o);
    Index(Removed(ix.hashes, o), ix.count[n := ix.count[n] - 1],
          if ix.count[n] - 1 == 0 then ClearBit(ix.online, n - r.first) else ix.online)
  }

  predicate ShownOnline(ix: Index, r: Range, n: int)
    requires Fits(ix, r, n)
  {
    ix.count[n] > 0 && Bit(ix.online, n - r.first)
  }

  function EmptyIndex(): Index {
    Index(Hashes(multiset{}, multiset{}, map[], map[]), seq(NUMBERS, _ => 0), seq(BYTES, _ => 0))
  }

  lemma EmptyIsConsistent(r: Range)
    requires r.Valid()
    ensures Consistent(EmptyIndex(), {}, r)
  {
    forall n | 0 <= n < NUMBERS
      ensures OnNumber({}, n) == {}
    {
    }
    forall j | 0 <= j < NUMBERS
      ensures !Bit(EmptyIndex().online, j)
    {
      ZeroByte(EmptyIndex().online, j);
    }
  }

  lemma ZeroByte(bytes: seq<bv8>, j: nat)
    requires j / 8 < |bytes| && bytes[j / 8] == 0
    ensures !Bit(bytes, j)
  {
  }

  lemma CountedAdd(count: seq<int>, live: set<Registry>, o: Registry)
    requires Counted(count, live) && o !in live && 0 <= NumberOf(o) < NUMBERS
    ensures Counted(count[NumberOf(o) := count[NumberOf(o)] + 1], live + {o})
  {
    forall n | 0 <= n < NUMBERS
      ensures OnNumber(live + {o}, n) == OnNumber(live, n) + if n == NumberOf(o) then {o} else {}
    {
    }
  }

  lemma CountedRemove(count: seq<int>, live: set<Registry>, o: Registry)
    requires Counted(count, live) && o in live && 0 <= NumberOf(o) < NUMBERS
    ensures count[NumberOf(o)] > 0 && Counted(count[NumberOf(o) := count[NumberOf(o)] - 1], live - {o})
  {
    forall n | 0 <= n < NUMBERS
      ensures OnNumber(live - {o}, n) == OnNumber(live, n) - if n == NumberOf(o) then {o} else {}
    {
    }
    assert o in OnNumber(live, NumberOf(o));
  }

  lemma BitsAdd(online: seq<bv8>, count: seq<int>, r: Range, n: int)
    requires BitsShow(online, count, r) && r.Has(n) && count[n] >= 0
    ensures BitsShow(if count[n] + 1 == 1 then SetBit(online, n - r.first) else online, count[n := count[n] + 1], r)
  {
    hide Bit, SetBit;
    if count[n] + 1 == 1 {
      var bits := SetBit(online, n - r.first);
      forall m | r.Has(m)
        ensures Bit(bits, m - r.first) <==> count[n := count[n] + 1][m] > 0
      {
        SetBitAt(online, n - r.first, m - r.first);
      }
      forall j | r.last - r.first < j < NUMBERS
        ensures !Bit(bits, j)
      {
        SetBitAt(online, n - r.first, j);
      }
    }
  }

  lemma BitsRemove(online: seq<bv8>, count: seq<int>, r: Range, n: int)
    requires BitsShow(online, count, r) && r.Has(n) && count[n] > 0
    ensures BitsShow(if count[n] - 1 == 0 then ClearBit(online, n - r.first) else online, count[n := count[n] - 1], r)
  {
    hide Bit, ClearBit;
    if count[n] - 1 == 0 {
      var bits := ClearBit(online, n - r.first);
      forall m | r.Has(m)
        ensures Bit(bits, m - r.first) <==> count[n := count[n] - 1][m] > 0
      {
        ClearBitAt(online, n - r.first, m - r.first);
      }
      forall j | r.last - r.first < j < NUMBERS
        ensures !Bit(bits, j)
      {
        ClearBitAt(online, n - r.first, j);
      }
    }
  }

  lemma InsertedHoldsIff(h: Hashes, live: set<Registry>, o: Registry)
    requires Holds(h, live) && o !in live
    ensures Holds(Inserted(h, o), live + {o}) <==> Fresh(h, o)
  {
    hide Unique, Grouped;
    UniqueAddIff(h.registries, live, KeyOf, o);
    UniqueAddIff(h.endpoints, live, EndpointOf, o);
    GroupedAdd(h.extensions, live, NumberOf, o);
    GroupedAdd(h.aliases, live, UserOf, o);
  }

  lemma RemovedHolds(h: Hashes, live: set<Registry>, o: Registry)
    requires Holds(h, live) && o in live
    ensures Holds(Removed(h, o), live - {o})
  {
    hide Unique, Grouped;
    UniqueRemove(h.registries, live, KeyOf, o);
    UniqueRemove(h.endpoints, live, EndpointOf, o);
    GroupedRemove(h.extensions, live, NumberOf, o);
    GroupedRemove(h.aliases, live, UserOf, o);
  }

  /**
   * The constructor inserts without looking. What it leaves is consistent exactly when neither the
   * (number, label) pair nor the endpoint id was registered already.
   */
  lemma CreatedIsConsistentIff(ix: Index, live: set<Registry>, r: Range, o: Registry)
    requires Consistent(ix, live, r) && r.Has(NumberOf(o)) && o !in live
    ensures Consistent(Created(ix, o, r), live + {o}, r) <==> Fresh(ix.hashes, o)
  {
    hide Holds, Counted, BitsShow, Inserted, Fresh;
    assert Fits(ix, r, NumberOf(o)) && ix.count[NumberOf(o)] >= 0 by {
      CountIsNatural(ix, live, r, NumberOf(o));
    }
    InsertedHoldsIff(ix.hashes, live, o);
    CountedAdd(ix.count, live, o);
    BitsAdd(ix.online, ix.count, r, NumberOf(o));
  }

  lemma CountIsNatural(ix: Index, live: set<Registry>, r: Range, n: int)
    requires Consistent(ix, live, r) && r.Has(n)
    ensures Fits(ix, r, n) && ix.count[n] >= 0
  {
  }

  lemma DestroyedIsConsistent(ix: Index, live: set<Registry>, r: Range, o: Registry)
    requires Consistent(ix, live, r) && o in live
    ensures Fits(ix, r, NumberOf(o)) && Consistent(Destroyed(ix, o, r), live - {o}, r)
  {
    hide Holds, Counted, BitsShow, Removed;
    assert Fits(ix, r, NumberOf(o)) by {
      CountIsNatural(ix, live, r, NumberOf(o));
    }
    RemovedHolds(ix.hashes, live, o);
    CountedRemove(ix.count, live, o);
    BitsRemove(ix.online, ix.count, r, NumberOf(o));
  }

  lemma BackToBits(online: seq<bv8>, n: nat)
    requires n < NUMBERS && |online| == BYTES && !Bit(online, n)
    ensures forall j :: 0 <= j < NUMBERS ==> (Bit(ClearBit(SetBit(online, n), n), j) <==> Bit(online, j))
  {
    hide Bit, SetBit, ClearBit;
    forall j | 0 <= j < NUMBERS
      ensures Bit(ClearBit(SetBit(online, n), n), j) <==> Bit(online, j)
    {
      SetBitAt(online, n, j);
      ClearBitAt(SetBit(online, n), n, j);
    }
  }

  /** Destroying an object just created leaves the hashes, the counts and every bit as they were. */
  lemma DestroyUndoesCreate(ix: Index, live: set<Registry>, r: Range, o: Registry)
    requires Consistent(ix, live, r) && r.Has(NumberOf(o)) && o !in live && Fresh(ix.hashes, o)
    ensures Removed(Inserted(ix.hashes, o), o) == ix.hashes
    ensures var back := Destroyed(Created(ix, o, r), o, r);
      && back.count == ix.count
      && (forall j :: 0 <= j < NUMBERS ==> (Bit(back.online, j) <==> Bit(ix.online, j)))
  {
    hide Unique, Grouped, Counted, Bit, SetBit, ClearBit;
    GroupedAddRemove(ix.hashes.extensions, live, NumberOf, o);
    GroupedAddRemove(ix.hashes.aliases, live, UserOf, o);
    CountIsNatural(ix, live, r, NumberOf(o));
    if ix.count[NumberOf(o)] == 0 {
      BackToBits(ix.online, NumberOf(o) - r.first);
    }
  }

  lemma CountedLive(count: seq<int>, live: set<Registry>, o: Registry)
    requires Counted(count, live) && o in live && 0 <= NumberOf(o) < NUMBERS
    ensures count[NumberOf(o)] > 0
  {
    assert o in OnNumber(live, NumberOf(o));
  }

  lemma StrandedIn<K>(m: map<K, Registry>, live: set<Registry>, key: Registry -> K, o: Registry, second: Registry)
    requires Unique(m, live, key) && o in live && key(second) == key(o)
    ensures o !in (m[key(second) := second] - {key(second)}).Values
  {
  }

  lemma BitOf(online: seq<bv8>, count: seq<int>, r: Range, n: int)
    requires BitsShow(online, count, r) && r.Has(n)
    ensures Bit(online, n - r.first) <==> count[n] > 0
  {
  }

  lemma SecondLeavesCountAndBits(ix: Index, r: Range, o: Registry)
    requires Fits(ix, r, NumberOf(o)) && ix.count[NumberOf(o)] > 0
    ensures var t := Destroyed(Created(ix, o, r), o, r);
      t.count == ix.count && t.online == ix.online && t.hashes == Removed(Inserted(ix.hashes, o), o)
  {
    hide SetBit, ClearBit, Inserted, Removed;
  }

  lemma SecondTakesTheKeys(h: Hashes, live: set<Registry>, first: Registry, second: Registry)
    requires Holds(h, live) && first in live
    requires KeyOf(second) == KeyOf(first) && EndpointOf(second) == EndpointOf(first)
    ensures var t := Removed(Inserted(h, second), second);
      !Findable(t, first)
  {
    hide Unique, Grouped;
    StrandedIn(h.registries, live, KeyOf, first, second);
    StrandedIn(h.endpoints, live, EndpointOf, first, second);
  }

  /**
   * Two registrations created for one device: once the second is gone, the first is in no hash by
   * which it could be found or cleaned up, yet its number still counts as online.
   */
  lemma DuplicateIsStranded(ix: Index, live: set<Registry>, r: Range, first: Registry, second: Registry)
    requires Consistent(ix, live, r) && first in live && second !in live
    requires NumberOf(second) == NumberOf(first) && second.id.device == first.id.device
    requires EndpointOf(second) == EndpointOf(first)
    ensures Fits(ix, r, NumberOf(second))
    ensures var t := Destroyed(Created(ix, second, r), second, r);
      !Findable(t.hashes, first) && ShownOnline(t, r, NumberOf(second))
  {
    hide Bit, Findable, Created, Destroyed, Inserted, Removed, Counted, Holds, BitsShow;
    CountIsNatural(ix, live, r, NumberOf(first));
    CountedLive(ix.count, live, first);
    SecondLeavesCountAndBits(ix, r, second);
    SecondTakesTheKeys(ix.hashes, live, first, second);
    BitOf(ix.online, ix.count, r, NumberOf(first));
  }

  // ---- over whole runs ----

  datatype Change = Made(o: Registry) | Deleted(o: Registry)

  function Live(live: set<Registry>, run: seq<Change>): set<Registry> {
    if run == [] then live
    else
      var before, c := Live(live, run[..|run| - 1]), run[|run| - 1];
      if c.Made? then before + {c.o} else before - {c.o}
  }

  function After(ix: Index, r: Range, run: seq<Change>): Index {
    if run == [] then ix
    else
      var before, c := After(ix, r, run[..|run| - 1]), run[|run| - 1];
      if !Fits(before, r, NumberOf(c.o)) then before
      else if c.Made? then Created(before, c.o, r) else Destroyed(before, c.o, r)
  }

  /** What a change needs: in range, new and under free keys to be made, live to be deleted. */
  ghost predicate Allowed(ix: Index, live: set<Registry>, r: Range, c: Change) {
    match c
    case Made(o) => r.Has(NumberOf(o)) && o !in live && Fresh(ix.hashes, o)
    case Deleted(o) => o in live
  }

  ghost predicate Runs(ix: Index, live: set<Registry>, r: Range, run: seq<Change>) {
    forall i | 0 <= i < |run| :: Allowed(After(ix, r, run[..i]), Live(live, run[..i]), r, run[i])
  }

  lemma ChangeKeepsConsistent(ix: Index, live: set<Registry>, r: Range, c: Change)
    requires Consistent(ix, live, r) && Allowed(ix, live, r, c)
    ensures Fits(ix, r, NumberOf(c.o))
    ensures if c.Made? then Consistent(Created(ix, c.o, r), live + {c.o}, r)
            else Consistent(Destroyed(ix, c.o, r), live - {c.o}, r)
  {
    match c {
      case Made(o) =>
        CountIsNatural(ix, live, r, NumberOf(o));
        hide Consistent, Fresh;
        CreatedIsConsistentIff(ix, live, r, o);
      case Deleted(o) =>
        hide Consistent;
        DestroyedIsConsistent(ix, live, r, o);
    }
  }

  /** After any run of allowed changes the indexes show exactly the objects made and not deleted. */
  lemma {:induction false} EveryRunIsConsistent(ix: Index, live: set<Registry>, r: Range, run: seq<Change>)
    requires Consistent(ix, live, r) && Runs(ix, live, r, run)
    ensures Consistent(After(ix, r, run), Live(live, run), r)
  {
    if run != [] {
      hide Consistent, Allowed, Fits;
      var before := run[..|run| - 1];
      assert Runs(ix, live, r, before) by {
        assert forall i | 0 <= i < |before| :: before[..i] == run[..i] && before[i] == run[i];
      }
      EveryRunIsConsistent(ix, live, r, before);
      ChangeKeepsConsistent(After(ix, r, before), Live(live, before), r, run[|run| - 1]);
    }
  }
}
