/** A registered device: its nonces, and how it registers and proves itself. */
module Registries {
  import opened Text
  import opened UStrings
  import opened Digest
  import Lifecycle

  /** One registered device. What identifies it never changes; the rest is its registration. */
  class Registry {
    const id: Identity
    var active: bool
    var timeout: int
    var updated: int
    var random: seq<Byte>
    var prior: seq<Byte>
    var serverContext: Option<int>
    var address: string

    constructor (ep: Identity, expires: int, now: int)
      ensures id == ep.(digest := Upper(ep.digest)) && Upper(id.digest) == id.digest
      ensures State() == Lifecycle.Created(expires, now)
    {
      id := ep.(digest := Upper(ep.digest));
      active, serverContext, address := false, None, "";
      timeout, updated := expires * 1000, now;
      random, prior := [], [];
      UpperTwice(ep.digest);
    }

    function State(): Registration
      reads this
    {
      Registration(active, timeout, updated, random, prior, serverContext, address)
    }

    /** `QElapsedTimer::hasExpired`: a negative timeout never passes. */
    predicate Expired(now: int)
      reads this
    {
      HasExpired(State(), now)
    }

    method SetNounce(value: seq<Byte>)
      modifies this
      ensures State() == WithNonce(old(State()), value)
    {
      prior := random;
      random := value;
    }

    /** Challenges the device, with a nonce just drawn or, to confirm a request, the current one. */
    method Challenge(drawn: seq<Byte>, reuse: bool) returns (c: Digest.Challenge)
      modifies this
      ensures State() == if reuse then old(State()) else WithNonce(old(State()), drawn)
      ensures c == PrintChallenge(id, random)
      ensures c.realm == "\"" + id.realm + "\"" && c.algorithm == "\"" + id.digest + "\""
      ensures c.nonce == "\"" + Lower(Hex(random)) + "\""
    {
      var value := if reuse then random else drawn;
      c := Digest.Challenge(Quote(id.realm), Quote(Lower(Hex(value))), Quote(id.digest));
      if !reuse {
        SetNounce(value);
      }
    }

    method Authorize(H: Hash, ev: Request, now: int) returns (result: int)
      modifies this
      ensures result == AuthorizeResult(H, id, old(State()), ev)
      ensures result == SIP_OK <==>
        && ev.Realm() == id.realm && ev.Id() == id.user && ev.Algorithm() == id.digest
        && ev.Once() == NonceText(old(random))
        && ev.Digest() == Hashed(H, id.digest,
             id.secret + ":" + ev.Once() + ":" + Hashed(H, id.digest, ev.verb + ":" + ev.uri))
      ensures State() == Authorized(H, id, old(State()), ev, now)
    {
      hide Unquoted, Hashed, Lower;
      var nonce := Lower(Hex(random));
      active := false;
      if ev.Realm() != id.realm { return SIP_FORBIDDEN; }
      if ev.Id() != id.user { return SIP_FORBIDDEN; }
      if ev.Algorithm() != id.digest { return SIP_FORBIDDEN; }
      if ev.Once() != nonce { return SIP_FORBIDDEN; }
      var ha2 := Hashed(H, id.digest, ev.verb + ":" + ev.uri);
      var expected := Hashed(H, id.digest, id.secret + ":" + nonce + ":" + ha2);
      if expected != ev.Digest() { return SIP_FORBIDDEN; }
      if ev.expires < 1 {
        timeout := 0;
        return SIP_OK;
      }
      if ev.protocol == "udp" {
        address := ev.source;
      } else {
        address := ev.contact;
      }
      serverContext := Some(ev.context);
      updated := now;
      active := true;
      return SIP_OK;
    }

    method Authenticate(H: Hash, ev: Request, now: int) returns (result: int)
      ensures result == AuthenticateResult(H, id, State(), ev, now)
      ensures result == SIP_OK ==> ev.Digest() == Hashed(H, id.digest,
        id.secret + ":" + ev.Once() + ":" + Hashed(H, id.digest, ev.verb + ":" + ev.uri))
    {
      hide Unquoted, Hashed, Lower;
      var nonce := Lower(Hex(random));
      var ponce := Lower(Hex(prior));
      if Expired(now) || serverContext.None? { return SIP_TEMPORARILY_UNAVAILABLE; }
      if ev.Realm() != id.realm { return SIP_FORBIDDEN; }
      if ev.Id() != id.user { return SIP_FORBIDDEN; }
      if ev.Algorithm() != id.digest { return SIP_FORBIDDEN; }
      if ev.Once() != nonce && ev.Once() != ponce { return SIP_FORBIDDEN; }
      var ha2 := Hashed(H, id.digest, ev.verb + ":" + ev.uri);
      var expected := Hashed(H, id.digest, id.secret + ":" + ev.Once() + ":" + ha2);
      if expected != ev.Digest() { return SIP_FORBIDDEN; }
      return SIP_OK;
    }
  }
}
