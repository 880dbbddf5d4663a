/** The directory: what a device must be for a registration to be created for it. */
module Authorization {
  import opened Digest
  import opened Indexes
  import opened Registries
  import opened RegistryIndex
  import opened Uri

  const SIP_INTERNAL_SERVER_ERROR := 500
  const SIP_DOES_NOT_EXIST_ANYWHERE := 604
  const SIP_NOT_FOUND := 404

  datatype Extension = Extension(authname: string, display: string)

  datatype Account = Account(digest: string, realm: string, secret: string, fullname: string, kind: string, access: string)

  datatype Limits = Limits(natted: int, udp: int, tcp: int)

  /** A REGISTER no live registration was found for. */
  datatype Arrival = Arrival(number: int, device: string, expires: int, initialize: string, protocol: string, request: string)

  datatype Signal = CopyOutboxes(origin: int, endpoint: int) | SyncOutbox(endpoint: int)

  datatype Outcome = Reply(code: int) | CreateEndpoint(id: Identity, expires: int, origin: string)

  /** Under each endpoint id the device it stands for; a device has one id (the schema's unique index). */
  type Endpoints = map<int, (int, string)>

  ghost predicate Sound(endpoints: Endpoints) {
    (forall e <- endpoints :: e >= 1)
    && forall e <- endpoints, f <- endpoints :: endpoints[e] == endpoints[f] ==> e == f
  }

  function IdsOf(endpoints: Endpoints, device: (int, string)): set<int> {
    set e | e in endpoints && endpoints[e] == device
  }

  function Granted(limits: Limits, device: string, protocol: string, expires: int): int {
    if device != "NONE" && protocol == "udp" && expires > limits.natted then limits.natted
    else if protocol == "udp" && expires > limits.udp then limits.udp
    else if expires > limits.tcp then limits.tcp
    else expires
  }

  /**
   * Never more than was asked for, nor than the device's own kind may have. It is the lesser of the
   * two for every request exactly when the limits of the kinds do not get in each other's way.
   */
  lemma GrantedIsLeastIff(limits: Limits, device: string, protocol: string)
    ensures var own := if protocol != "udp" then limits.tcp else if device != "NONE" then limits.natted else limits.udp;
      && (forall asked :: Granted(limits, device, protocol, asked) <= asked)
      && (forall asked :: Granted(limits, device, protocol, asked) <= own)
      && ((forall asked :: Granted(limits, device, protocol, asked) == if asked <= own then asked else own)
          <==> (protocol == "udp" ==> own <= limits.tcp && own <= limits.udp))
  {
    var own := if protocol != "udp" then limits.tcp else if device != "NONE" then limits.natted else limits.udp;
    assert Granted(limits, device, protocol, own) == own ==> (protocol == "udp" ==> own <= limits.tcp && own <= limits.udp);
  }

  /** The server a request names: what follows its user, or its scheme if it names no user. */
  function Origin(request: string): string {
    if IndexOf(request, '@') > 0 then request[IndexOf(request, '@') + 1..]
    else if IndexOf(request, ':') > 0 then request[IndexOf(request, ':') + 1..]
    else request
  }

  /** Of a URI with a user the origin is the host part, and of one without all but the scheme. */
  lemma OriginOfUri(scheme: string, user: string, server: string)
    requires scheme != "" && ':' !in scheme && '@' !in scheme && '@' !in user && '@' !in server
    ensures Origin(scheme + ":" + user + "@" + server) == server && Origin(scheme + ":" + server) == server
  {
    var full, at := scheme + ":" + user + "@" + server, |scheme| + 1 + |user|;
    assert full[at] == '@' && full[..at] == scheme + ":" + user && full[at + 1..] == server;
    IndexIs(full, '@', at);
    var bare := scheme + ":" + server;
    assert bare[|scheme|] == ':' && bare[..|scheme|] == scheme && bare[|scheme| + 1..] == server;
    assert '@' !in bare;
    IndexIs(bare, ':', |scheme|);
  }

  /** An extension whose account exists, is not suspended and belongs to a user or a device. */
  ghost predicate MayRegister(extensions: map<int, Extension>, accounts: map<string, Account>, number: int) {
    && number in extensions && extensions[number].authname in accounts
    && accounts[extensions[number].authname].access != "SUSPEND"
    && accounts[extensions[number].authname].kind in {"USER", "DEVICE"}
  }

  class Authorize {
    var endpoints: Endpoints
    var extensions: map<int, Extension>
    var accounts: map<string, Account>
    var admins: set<(string, int)>
    var groups: set<(int, int)>
    const range: Range
    const limits: Limits

    constructor (range: Range, limits: Limits, extensions: map<int, Extension>, accounts: map<string, Account>)
      ensures this.range == range && this.limits == limits && Sound(endpoints)
    {
      this.range, this.limits, this.extensions, this.accounts := range, limits, extensions, accounts;
      endpoints, admins, groups := map[], {}, {};
    }

    method FindId(device: (int, string)) returns (id: int)
      requires Sound(endpoints)
      ensures if id == 0 then IdsOf(endpoints, device) == {} else IdsOf(endpoints, device) == {id}
    {
      id := 0;
      if e :| e in endpoints && endpoints[e] == device {
        id := e;
        assert forall x <- IdsOf(endpoints, device) :: x == e;
        assert e in IdsOf(endpoints, device);
      } else {
        assert forall e <- endpoints :: endpoints[e] != device;
        assert forall e :: e !in IdsOf(endpoints, device);
      }
    }

    /** A client asking to have its device set up, for an extension there is. */
    ghost predicate FirstContact(ev: Arrival)
      reads this
    {
      range.first >= 1 && ev.expires >= 1 && range.Has(ev.number) && ev.number in extensions && ev.initialize == "label"
    }

    /** The record of a device whose extension may register: every field from the row it belongs to. */
    ghost predicate Describes(out: Outcome, ev: Arrival, endpoint: int)
      requires MayRegister(extensions, accounts, ev.number)
      reads this
    {
      var extension := extensions[ev.number];
      var account := accounts[extension.authname];
      && out.CreateEndpoint? && out.id.number == ev.number && out.id.device == ev.device && out.id.endpoint == endpoint
      && out.id.user == extension.authname && out.id.secret == account.secret
      && out.id.realm == account.realm && out.id.digest == account.digest
      && (out.id.privs == "sysadmin" <==> ("system", ev.number) in admins)
      && (out.id.privs == "operator" <==> ("system", ev.number) !in admins && (0, ev.number) in groups)
      && (extension.display != "" ==> out.id.display == extension.display)
      && (extension.display == "" && account.fullname != "" ==> out.id.display == account.fullname)
      && (extension.display == account.fullname == "" ==> out.id.display == out.id.user)
      && out.origin == Origin(ev.request)
      && out.expires == Granted(limits, ev.device, ev.protocol, ev.expires)
    }

    method Describe(ev: Arrival, endpoint: int) returns (out: Outcome)
      requires MayRegister(extensions, accounts, ev.number)
      ensures Describes(out, ev, endpoint)
    {
      var extension := extensions[ev.number];
      var user := extension.authname;
      var account := accounts[user];
      var expires := Granted(limits, ev.device, ev.protocol, ev.expires);
      var offset := IndexOf(ev.request, '@');
      if offset < 1 {
        offset := IndexOf(ev.request, ':');
      }
      var origin := if offset > 0 then ev.request[offset + 1..] else ev.request;
      var display := if extension.display != "" then extension.display
                     else if account.fullname != "" then account.fullname else user;
      var privs := if ("system", ev.number) in admins then "sysadmin"
                   else if (0, ev.number) in groups then "operator" else "none";
      var id := Identity(ev.number, ev.device, user, endpoint, account.secret, account.realm, account.digest, display, privs);
      out := CreateEndpoint(id, expires, origin);
    }

    /** A client's first contact creates its row, or has the messages of the row there is synchronized. */
    method SetUp(device: (int, string), endpoint: int, newId: int) returns (id: int, signal: Signal)
      requires Sound(endpoints) && newId >= 1 && newId !in endpoints
      requires if endpoint == 0 then IdsOf(endpoints, device) == {} else IdsOf(endpoints, device) == {endpoint}
      modifies this`endpoints
      ensures Sound(endpoints) && id != 0 && IdsOf(endpoints, device) == {id}
      ensures endpoint == 0 ==>
        && endpoints == old(endpoints)[newId := device] && signal.CopyOutboxes? && signal.endpoint == newId
        && IdsOf(endpoints, (device.0, "NONE")) == if signal.origin == 0 then {} else {signal.origin}
      ensures endpoint != 0 ==> endpoints == old(endpoints) && signal == SyncOutbox(endpoint)
    {
      if endpoint != 0 { return endpoint, SyncOutbox(endpoint); }
      NewIdIs(endpoints, newId, device);
      endpoints := endpoints[newId := device];
      id := FindId(device);
      assert id in IdsOf(endpoints, device) || id == 0;
      var origin := FindId((device.0, "NONE"));
      signal := CopyOutboxes(origin, id);
    }

    /**
     * A device is registered only inside the dialing range, under the one id of its row, and only if
     * its extension may register. A client's first contact creates the row and has the messages of
     * the unlabelled device copied to it; a later first contact has its own messages synchronized.
     */
    method FindEndpoint(ev: Arrival, newId: int) returns (out: Outcome, signals: seq<Signal>)
      requires Sound(endpoints) && newId >= 1 && newId !in endpoints
      modifies this`endpoints
      ensures Sound(endpoints)
      ensures FirstContact(ev) && IdsOf(old(endpoints), (ev.number, ev.device)) == {} ==>
        && endpoints == old(endpoints)[newId := (ev.number, ev.device)]
        && |signals| == 1 && signals[0].CopyOutboxes? && signals[0].endpoint == newId
        && IdsOf(endpoints, (ev.number, "NONE")) == if signals[0].origin == 0 then {} else {signals[0].origin}
      ensures FirstContact(ev) && IdsOf(old(endpoints), (ev.number, ev.device)) != {} ==>
        && endpoints == old(endpoints) && |signals| == 1 && signals[0].SyncOutbox?
        && IdsOf(endpoints, (ev.number, ev.device)) == {signals[0].endpoint}
      ensures !FirstContact(ev) ==> endpoints == old(endpoints) && signals == []
      ensures out.CreateEndpoint? <==>
        && range.first >= 1 && ev.expires >= 1 && range.Has(ev.number) && MayRegister(extensions, accounts, ev.number)
        && (ev.initialize == "label" || IdsOf(old(endpoints), (ev.number, ev.device)) != {})
      ensures out.Reply? ==>
        (out.code == if range.first < 1 then SIP_INTERNAL_SERVER_ERROR
                     else if ev.expires < 1 then SIP_OK
                     else if !range.Has(ev.number) then SIP_DOES_NOT_EXIST_ANYWHERE
                     else if ev.number !in extensions then SIP_NOT_FOUND
                     else SIP_FORBIDDEN)
      ensures out.CreateEndpoint? ==>
        IdsOf(endpoints, (ev.number, ev.device)) == {out.id.endpoint} && Describes(out, ev, out.id.endpoint)
    {
      hide Sound, IdsOf, Granted, Origin;
      signals := [];
      if range.first < 1 { return Reply(SIP_INTERNAL_SERVER_ERROR), signals; }
      if ev.expires < 1 { return Reply(SIP_OK), signals; }
      if ev.number < range.first || ev.number > range.last { return Reply(SIP_DOES_NOT_EXIST_ANYWHERE), signals; }
      var endpoint := FindId((ev.number, ev.device));
      if ev.number !in extensions { return Reply(SIP_NOT_FOUND), signals; }
      if ev.initialize == "label" {
        var signal;
        endpoint, signal := SetUp((ev.number, ev.device), endpoint, newId);
        signals := [signal];
      } else if endpoint == 0 {
        return Reply(SIP_FORBIDDEN), signals;
      }
      var user := extensions[ev.number].authname;
      if user !in accounts { return Reply(SIP_FORBIDDEN), signals; }
      var account := accounts[user];
      if account.access == "SUSPEND" { return Reply(SIP_FORBIDDEN), signals; }
      if account.kind != "USER" && account.kind != "DEVICE" { return Reply(SIP_FORBIDDEN), signals; }
      out := Describe(ev, endpoint);
    }
  }

  lemma NewIdIs(endpoints: Endpoints, newId: int, device: (int, string))
    requires Sound(endpoints) && newId >= 1 && newId !in endpoints && IdsOf(endpoints, device) == {}
    ensures Sound(endpoints[newId := device]) && IdsOf(endpoints[newId := device], device) == {newId}
  {
    forall e <- endpoints
      ensures endpoints[e] != device
    {
      assert endpoints[e] == device ==> e in IdsOf(endpoints, device);
    }
  }

  /** Every live registration stands for the device its endpoint id stands for. */
  ghost predicate Agree(live: set<Registry>, endpoints: Endpoints) {
    forall o <- live :: EndpointOf(o) in endpoints && endpoints[EndpointOf(o)] == KeyOf(o)
  }

  /**
   * What the directory hands over never has just one of its two keys taken: the indexes stay right
   * exactly when the device has no live registration when its answer arrives.
   */
  lemma FreshIffUnregistered(
    h: Hashes, live: set<Registry>, endpoints: Endpoints, reg: Registry)
    requires Holds(h, live) && Agree(live, endpoints) && Sound(endpoints)
    requires IdsOf(endpoints, KeyOf(reg)) == {EndpointOf(reg)}
    ensures Fresh(h, reg) <==> forall o <- live :: KeyOf(o) != KeyOf(reg)
    ensures Agree(live + {reg}, endpoints)
  {
    hide Grouped;
    assert EndpointOf(reg) in IdsOf(endpoints, KeyOf(reg));
    if EndpointOf(reg) in h.endpoints {
      var o := h.endpoints[EndpointOf(reg)];
      assert o in live && KeyOf(o) == KeyOf(reg);
    }
    if KeyOf(reg) in h.registries {
      var o := h.registries[KeyOf(reg)];
      assert o in live && KeyOf(o) == KeyOf(reg);
    }
  }
}
