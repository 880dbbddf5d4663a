/** The manager's side of the registrations: every way one is created, looked up or deleted. */
module Registrars {
  import opened Bitmap
  import opened Digest
  import opened Indexes
  import opened Registries
  import opened RegistryIndex
  import opened Text
  import opened UStrings
  import Lifecycle

  datatype Outcome = Unknown | Challenged(challenge: Challenge) | Replied(result: int)

  predicate Is(o: Registry, number: int, device: string) { o.id.number == number && o.id.device == device }

  class Registrar {
    var extensions: multiset<(int, Registry)>
    var aliases: multiset<(string, Registry)>
    var registries: map<(int, string), Registry>
    var endpoints: map<int, Registry>
    const count: array<int>
    const online: array<bv8>
    const range: Range
    /** The objects created and not deleted. */
    ghost var live: set<Registry>

    ghost function View(): Index
      reads this, count, online
    {
      Index(Hashes(extensions, aliases, registries, endpoints), count[..], online[..])
    }

    ghost predicate Valid()
      reads this, count, online
    {
      range.Valid() && count.Length == NUMBERS && online.Length == BYTES && Consistent(View(), live, range)
    }

    constructor (range: Range)
      requires range.Valid()
      ensures Valid() && this.range == range && live == {} && fresh(count) && fresh(online)
    {
      this.range := range;
      extensions, aliases, registries, endpoints := multiset{}, multiset{}, map[], map[];
      count := new int[NUMBERS](_ => 0);
      online := new bv8[BYTES](_ => 0);
      live := {};
      new;
      EmptyIsConsistent(range);
      assert View() == EmptyIndex();
    }

    method Set(number: int)
      requires range.Valid() && range.Has(number) && online.Length == BYTES
      modifies online
      ensures online[..] == SetBit(old(online[..]), number - range.first)
    {
      hide SetBit;
      var n := number - range.first;
      SetBitIs(online[..], n);
      online[n / 8] := online[n / 8] | ((1 as bv8) << n % 8);
    }

    method Unset(number: int)
      requires range.Valid() && range.Has(number) && online.Length == BYTES
      modifies online
      ensures online[..] == ClearBit(old(online[..]), number - range.first)
    {
      hide ClearBit;
      var n := number - range.first;
      ClearBitIs(online[..], n);
      online[n / 8] := online[n / 8] & !((1 as bv8) << n % 8);
    }

    /** The constructor looks nothing up: the indexes stay right just when both keys were free. */
    method Create(ep: Identity, expires: int, now: int) returns (reg: Registry)
      requires Valid() && range.Has(ep.number)
      modifies this, count, online
      ensures fresh(reg) && reg.id == ep.(digest := Upper(ep.digest)) && reg.State() == Lifecycle.Created(expires, now)
      ensures live == old(live) + {reg}
      ensures Fits(old(View()), range, ep.number) && View() == Created(old(View()), reg, range)
      ensures Valid() <==> Fresh(old(View().hashes), reg)
    {
      hide Consistent, RegistryIndex.Created, Upper, Fresh, Lifecycle.Created;
      CountIsNatural(View(), live, range, ep.number);
      reg := new Registry(ep, expires, now);
      CreatedIsConsistentIff(View(), live, range, reg);
      Enlist(reg);
      live := live + {reg};
    }

    method Enlist(reg: Registry)
      requires range.Valid() && range.Has(NumberOf(reg)) && Fits(View(), range, NumberOf(reg))
      modifies this`extensions, this`aliases, this`registries, this`endpoints, count, online
      ensures View() == Created(old(View()), reg, range)
    {
      hide SetBit;
      var n := NumberOf(reg);
      ghost var before := View();
      count[n] := count[n] + 1;
      if count[n] == 1 {
        Set(n);
      }
      assert count[..] == before.count[n := before.count[n] + 1];
      extensions := extensions + multiset{(n, reg)};
      aliases := aliases + multiset{(UserOf(reg), reg)};
      registries := registries[KeyOf(reg) := reg];
      endpoints := endpoints[EndpointOf(reg) := reg];
    }

    /** The destructor. Requiring a live object is what rules out deleting one twice. */
    method Destroy(reg: Registry)
      requires Valid() && reg in live
      modifies this, count, online
      ensures Valid() && live == old(live) - {reg}
      ensures Fits(old(View()), range, NumberOf(reg)) && View() == Destroyed(old(View()), reg, range)
    {
      hide Consistent, ClearBit;
      ghost var before := View();
      DestroyedIsConsistent(before, live, range, reg);
      LiveInRange(before, live, range, reg);
      var n := NumberOf(reg);
      count[n] := count[n] - 1;
      if count[n] == 0 {
        Unset(n);
      }
      endpoints := endpoints - {EndpointOf(reg)};
      registries := registries - {KeyOf(reg)};
      extensions := extensions[(n, reg) := 0];
      aliases := aliases[(UserOf(reg), reg) := 0];
      live := live - {reg};
    }

    /** By endpoint id. An expired registration is deleted rather than returned. */
    method FindEndpoint(key: int, now: int) returns (reg: Registry?)
      requires Valid()
      modifies this, count, online
      ensures Valid()
      ensures reg != null ==> reg in live && reg.id.endpoint == key && !reg.Expired(now)
      ensures reg == null ==> forall o <- live :: o.id.endpoint != key
      ensures live == set o | o in old(live) && !(o.id.endpoint == key && o.Expired(now))
      ensures live == old(live) ==> View() == old(View())
    {
      hide Consistent;
      reg := null;
      EndpointLookup(View(), live, range, key);
      if key in endpoints {
        reg := endpoints[key];
        if reg.Expired(now) {
          Destroy(reg);
          reg := null;
        }
      }
    }

    /** By number and label, to find what a request is for. */
    method FindEvent(number: int, device: string, now: int) returns (reg: Registry?)
      requires Valid()
      modifies this, count, online
      ensures Valid()
      ensures reg != null ==> reg in live && Is(reg, number, device) && !reg.Expired(now)
      ensures reg == null ==> forall o <- live :: !Is(o, number, device)
      ensures live == set o | o in old(live) && !(Is(o, number, device) && o.Expired(now))
      ensures live == old(live) ==> View() == old(View())
    {
      hide Consistent;
      reg := null;
      EventLookup(View(), live, range, (number, device));
      if (number, device) in registries {
        reg := registries[(number, device)];
        if reg.Expired(now) {
          Destroy(reg);
          reg := null;
        }
      }
    }

    /** By number or, when no device has the number, by user name; expired ones included. */
    method FindTarget(target: string) returns (found: set<Registry>)
      requires Valid()
      ensures target == "" ==> found == {}
      ensures target != "" ==>
        if ToInt(target) > 0 && exists o <- live :: o.id.number == ToInt(target)
        then found == set o | o in live && o.id.number == ToInt(target)
        else found == set o | o in live && o.id.user == target
    {
      hide Consistent;
      found := {};
      if |target| < 1 { return; }
      NumberLookup(View(), live, range, ToInt(target));
      if ToInt(target) > 0 {
        found := set p | p in extensions && p.0 == ToInt(target) :: p.1;
        assert forall o <- live | o.id.number == ToInt(target) :: o in OnNumber(live, ToInt(target));
        if found != {} { return; }
      }
      UserLookup(View(), live, range, target);
      found := set p | p in aliases && p.0 == target :: p.1;
    }

    /** Deletes while walking a copy of the hash: every expired registration goes, every other stays. */
    method Cleanup(now: int)
      requires Valid()
      modifies this, count, online
      ensures Valid()
      ensures live == set o | o in old(live) && !o.Expired(now)
    {
      hide Valid, RegistryIndex.Destroyed, HasExpired;
      var snapshot := registries;
      var todo := snapshot.Keys;
      ghost var before := live;
      ghost var expired := set o | o in live && o.Expired(now);
      ListsAll(this);
      while todo != {}
        invariant Valid() && todo <= snapshot.Keys
        invariant before - expired <= live <= before
        invariant forall o <- live * expired :: KeyOf(o) in todo
        invariant forall k <- todo :: snapshot[k] in live && KeyOf(snapshot[k]) == k
        decreases |todo|
      {
        var key :| key in todo;
        todo := todo - {key};
        var reg := snapshot[key];
        SameKey(this, reg);
        if reg.Expired(now) {
          Destroy(reg);
        }
      }
    }

    method DropEndpoint(key: int, now: int)
      requires Valid()
      modifies this, count, online
      ensures Valid()
      ensures live == set o | o in old(live) && o.id.endpoint != key
    {
      hide Consistent;
      var reg := FindEndpoint(key, now);
      if reg != null {
        SameEndpoint(View(), live, range, reg);
        Destroy(reg);
      }
    }

    /**
     * A REGISTER: challenged with a fresh nonce, or judged by its answer. A registration that was
     * released is deleted as soon as the clock, read again, has moved on.
     */
    method Refresh(H: Hash, number: int, device: string, ev: Request, drawn: seq<Byte>, now: int, later: int)
      returns (out: Outcome)
      requires Valid()
      modifies this, count, online, live
      ensures Valid() && live <= old(live)
      ensures forall o | o in old(live) && !Is(o, number, device) :: o in live && o.State() == old(o.State())
      ensures forall o | o in old(live) && Is(o, number, device) && !old(o.Expired(now)) ::
        if ev.authorization.None?
        then o in live && out == Challenged(PrintChallenge(o.id, drawn)) && o.State() == WithNonce(old(o.State()), drawn)
        else && out == Replied(AuthorizeResult(H, o.id, old(o.State()), ev))
             && o.State() == Authorized(H, o.id, old(o.State()), ev, now)
             && (o in live <==> !HasExpired(o.State(), later))
      ensures (forall o | o in old(live) && Is(o, number, device) :: old(o.Expired(now)))
              ==> out == Unknown && forall o <- live :: !Is(o, number, device)
    {
      hide Consistent, PrintChallenge, Authorized, AuthorizeResult, HasExpired, RegistryIndex.Destroyed;
      SameKeyAll(View(), live, range);
      var reg := FindEvent(number, device, now);
      if reg == null { return Unknown; }
      if ev.authorization.None? {
        var c := reg.Challenge(drawn, false);
        return Challenged(c);
      }
      var result := reg.Authorize(H, ev, now);
      if reg.Expired(later) {
        Destroy(reg);
      }
      return Replied(result);
    }

    /**
     * Any request that acts for a device, an acknowledgement of its pending messages among them:
     * it goes ahead exactly when this returns 200.
     */
    method Confirm(H: Hash, number: int, device: string, ev: Request, now: int) returns (out: Outcome)
      requires Valid()
      modifies this, count, online, live
      ensures Valid() && live == set o | o in old(live) && !(Is(o, number, device) && old(o.Expired(now)))
      ensures forall o | o in old(live) :: o.State() == old(o.State())
      ensures forall o | o in old(live) && Is(o, number, device) && !old(o.Expired(now)) ::
        out == if ev.authorization.None? then Challenged(PrintChallenge(o.id, o.random))
               else Replied(AuthenticateResult(H, o.id, o.State(), ev, now))
      ensures (forall o | o in old(live) && Is(o, number, device) :: old(o.Expired(now))) ==> out == Replied(403)
      ensures out == Replied(SIP_OK)
              <==> ev.authorization.Some? && exists o <- live ::
                Is(o, number, device) && AuthenticateResult(H, o.id, o.State(), ev, now) == SIP_OK
    {
      hide Consistent, PrintChallenge, AuthenticateResult, HasExpired, RegistryIndex.Destroyed;
      SameKeyAll(View(), live, range);
      var reg := FindEvent(number, device, now);
      if reg == null { return Replied(SIP_FORBIDDEN); }
      if ev.authorization.None? {
        var c := reg.Challenge([], true);
        return Challenged(c);
      }
      var result := reg.Authenticate(H, ev, now);
      return Replied(result);
    }

    /** What the server tells a client: the bytes that cover the dialing range. */
    method Bitmask() returns (bits: seq<bv8>)
      requires Valid()
      ensures |bits| == (range.last - range.first) / 8 + 1 && bits == online[..(range.last - range.first) / 8 + 1]
      ensures forall n | range.Has(n) :: Bit(bits, n - range.first) <==> exists o <- live :: o.id.number == n
    {
      hide Consistent, Bit;
      var size := (range.last - range.first) / 8 + 1;
      bits := online[..size];
      forall n | range.Has(n)
        ensures Bit(bits, n - range.first) <==> exists o <- live :: o.id.number == n
      {
        BitMeansLive(View(), live, range, n);
        BitOfPrefix(online[..], size, n - range.first);
      }
    }
  }

  lemma LiveInRange(ix: Index, live: set<Registry>, r: Range, o: Registry)
    requires Consistent(ix, live, r) && o in live
    ensures r.Has(NumberOf(o))
  {
  }

  lemma SameKey(server: Registrar, o: Registry)
    requires server.Valid() && o in server.live
    ensures forall p <- server.live :: KeyOf(p) == KeyOf(o) ==> p == o
  {
    hide Grouped, Counted, BitsShow;
  }

  lemma SameKeyAll(ix: Index, live: set<Registry>, r: Range)
    requires Consistent(ix, live, r)
    ensures forall p <- live, q <- live :: KeyOf(p) == KeyOf(q) ==> p == q
  {
    hide Grouped, Counted, BitsShow;
  }

  lemma SameEndpoint(ix: Index, live: set<Registry>, r: Range, o: Registry)
    requires Consistent(ix, live, r) && o in live
    ensures forall p <- live :: EndpointOf(p) == EndpointOf(o) ==> p == o
  {
    hide Grouped, Counted, BitsShow;
  }

  lemma ListsAll(server: Registrar)
    requires server.Valid()
    ensures forall o <- server.live :: KeyOf(o) in server.registries
    ensures forall k <- server.registries :: server.registries[k] in server.live && KeyOf(server.registries[k]) == k
  {
    hide Grouped, Counted, BitsShow;
  }

  lemma EndpointLookup(ix: Index, live: set<Registry>, r: Range, key: int)
    requires Consistent(ix, live, r)
    ensures var h := ix.hashes.endpoints;
      forall o :: o in live && EndpointOf(o) == key <==> key in h && o == h[key]
  {
    hide Grouped, Counted, BitsShow;
  }

  lemma EventLookup(ix: Index, live: set<Registry>, r: Range, key: (int, string))
    requires Consistent(ix, live, r)
    ensures var h := ix.hashes.registries;
      forall o :: o in live && KeyOf(o) == key <==> key in h && o == h[key]
  {
    hide Grouped, Counted, BitsShow;
  }

  lemma NumberLookup(ix: Index, live: set<Registry>, r: Range, n: int)
    requires Consistent(ix, live, r)
    ensures (set p | p in ix.hashes.extensions && p.0 == n :: p.1) == OnNumber(live, n)
  {
    hide Unique, Counted, BitsShow;
    forall o <- OnNumber(live, n)
      ensures (n, o) in ix.hashes.extensions
    {
      assert (NumberOf(o), o) in ix.hashes.extensions;
    }
  }

  lemma UserLookup(ix: Index, live: set<Registry>, r: Range, user: string)
    requires Consistent(ix, live, r)
    ensures (set p | p in ix.hashes.aliases && p.0 == user :: p.1) == set o | o in live && UserOf(o) == user
  {
    hide Unique, Counted, BitsShow;
    forall o <- live | UserOf(o) == user
      ensures (user, o) in ix.hashes.aliases
    {
      assert (UserOf(o), o) in ix.hashes.aliases;
    }
  }

  lemma BitOfPrefix(bytes: seq<bv8>, size: nat, j: nat)
    requires j / 8 < size <= |bytes|
    ensures Bit(bytes[..size], j) == Bit(bytes, j)
  {
  }

  /** A number shows online just when some registration with it is live, registered in full or not. */
  lemma BitMeansLive(ix: Index, live: set<Registry>, r: Range, n: int)
    requires Consistent(ix, live, r) && r.Has(n)
    ensures Bit(ix.online, n - r.first) <==> exists o <- live :: NumberOf(o) == n
  {
    hide Unique, Grouped, Bit;
    assert ix.count[n] == |OnNumber(live, n)|;
    if ix.count[n] > 0 {
      var o :| o in OnNumber(live, n);
    } else {
      assert forall o <- live :: NumberOf(o) == n ==> o in OnNumber(live, n);
    }
  }
}
