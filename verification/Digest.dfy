/**
 * Digest access to a registration (sections 3.2.2.1 to 3.2.2.3 of RFC 2617): what the server asks,
 * what the client answers, and which answers the server takes while it replaces its nonces.
 */
module Digest {
  import opened Text
  import opened UStrings

  const SIP_OK := 200
  const SIP_FORBIDDEN := 403
  const SIP_TEMPORARILY_UNAVAILABLE := 480

  datatype Algorithm = Md4 | Md5 | Sha1 | Sha256 | Sha512

  /** A hash is any function of an algorithm and a text. */
  type Hash = (Algorithm, string) -> seq<Byte>

  /** Server and client carry the same table; a name it lacks reads as the enumeration's first value. */
  function AlgorithmOf(name: string): Algorithm {
    if name == "MD5" then Md5
    else if name in {"SHA", "SHA1", "SHA-1"} then Sha1
    else if name in {"SHA2", "SHA256", "SHA-256"} then Sha256
    else if name in {"SHA512", "SHA-512"} then Sha512
    else Md4
  }

  function Hashed(H: Hash, name: string, text: string): string {
    Lower(Hex(H(AlgorithmOf(name), text)))
  }

  /** What the database keeps in place of a password. */
  function Secret(H: Hash, name: string, user: string, realm: string, password: string): string {
    Hashed(H, name, user + ":" + realm + ":" + password)
  }

  function Response(H: Hash, name: string, secret: string, nonce: string, verb: string, uri: string): string {
    Hashed(H, name, secret + ":" + nonce + ":" + Hashed(H, name, verb + ":" + uri))
  }

  // ---- entities ----

  /** What identifies a registration for as long as its object lives. */
  datatype Identity = Identity(
    number: int, device: string, user: string, endpoint: int, secret: string,
    realm: string, digest: string, display: string, privs: string)

  /** What changes. `random` and `prior` are the current nonce and the one before. */
  datatype Registration = Registration(
    active: bool, timeout: int, updated: int, random: seq<Byte>, prior: seq<Byte>,
    context: Option<int>, address: string)

  datatype Challenge = Challenge(realm: string, nonce: string, algorithm: string)

  datatype Credentials = Credentials(user: string, secret: string, realm: string, algorithm: string, nonce: string)

  /** The parameters of an Authorization header, still in their quotes. */
  datatype Authorization = Authorization(
    username: string, realm: string, response: string, nonce: string, algorithm: string)

  datatype Request = Request(
    verb: string, uri: string, expires: int, protocol: string, source: string, contact: string,
    context: int, authorization: Option<Authorization>)
  {
    function Id(): string { if authorization.Some? then Unquoted(authorization.value.username) else "" }
    function Realm(): string { if authorization.Some? then Unquoted(authorization.value.realm) else "" }
    function Once(): string { if authorization.Some? then Unquoted(authorization.value.nonce) else "" }
    function Digest(): string { if authorization.Some? then Lower(Unquoted(authorization.value.response)) else "" }
    function Algorithm(): string { if authorization.Some? then Upper(Unquoted(authorization.value.algorithm)) else "" }
  }

  // ---- the server ----

  function NonceText(random: seq<Byte>): string { Lower(Hex(random)) }

  function PrintChallenge(id: Identity, random: seq<Byte>): Challenge {
    Challenge(Quote(id.realm), Quote(NonceText(random)), Quote(id.digest))
  }

  predicate HasExpired(st: Registration, now: int) {
    st.timeout >= 0 && now - st.updated > st.timeout
  }

  predicate Names(id: Identity, ev: Request) {
    ev.Realm() == id.realm && ev.Id() == id.user && ev.Algorithm() == id.digest
  }

  predicate Answers(H: Hash, id: Identity, ev: Request) {
    ev.Digest() == Response(H, id.digest, id.secret, ev.Once(), ev.verb, ev.uri)
  }

  /** Registering takes the current nonce only. */
  function AuthorizeResult(H: Hash, id: Identity, st: Registration, ev: Request): int {
    if Names(id, ev) && ev.Once() == NonceText(st.random) && Answers(H, id, ev) then SIP_OK else SIP_FORBIDDEN
  }

  /** Any other request takes the current nonce or the one before, from a device that has registered. */
  function AuthenticateResult(H: Hash, id: Identity, st: Registration, ev: Request, now: int): int {
    if HasExpired(st, now) || st.context.None? then SIP_TEMPORARILY_UNAVAILABLE
    else if Names(id, ev) && (ev.Once() == NonceText(st.random) || ev.Once() == NonceText(st.prior))
         && Answers(H, id, ev) then SIP_OK
    else SIP_FORBIDDEN
  }

  function Authorized(H: Hash, id: Identity, st: Registration, ev: Request, now: int): Registration {
    if AuthorizeResult(H, id, st, ev) != SIP_OK then st.(active := false)
    else if ev.expires < 1 then st.(active := false, timeout := 0)
    else st.(active := true, updated := now, context := Some(ev.context),
             address := if ev.protocol == "udp" then ev.source else ev.contact)
  }

  function WithNonce(st: Registration, random: seq<Byte>): Registration {
    st.(prior := st.random, random := random)
  }

  // ---- the client ----

  function ReadChallenge(c: Challenge, user: string, password: string): Credentials {
    Credentials(user, password, Unquoted(c.realm), Upper(Unquoted(c.algorithm)), Unquoted(c.nonce))
  }

  function AddAuthorization(H: Hash, c: Credentials, verb: string, uri: string): Authorization {
    var secret := Hashed(H, c.algorithm, c.user + ":" + c.realm + ":" + c.secret);
    Authorization(Quote(c.user), Quote(c.realm), Quote(Response(H, c.algorithm, secret, c.nonce, verb, uri)),
                  Quote(c.nonce), Quote(c.algorithm))
  }

  /** The request a client sends again once it was challenged with `random`. */
  function Reply(H: Hash, id: Identity, random: seq<Byte>, password: string, plain: Request): Request {
    var creds := ReadChallenge(PrintChallenge(id, random), id.user, password);
    plain.(authorization := Some(AddAuthorization(H, creds, plain.verb, plain.uri)))
  }

  // ---- agreement ----

  lemma HashedIsLower(H: Hash, name: string, text: string)
    ensures Lower(Hashed(H, name, text)) == Hashed(H, name, text)
  {
    HexIsLower(H(AlgorithmOf(name), text));
  }

  /**
   * Through the quoting and the letter case of both sides, the answer keeps every parameter, and its
   * response is the hash of user, realm and password, of the nonce, and of verb and URI.
   */
  lemma ReplyReads(H: Hash, id: Identity, random: seq<Byte>, password: string, plain: Request)
    requires Upper(id.digest) == id.digest
    ensures var ev := Reply(H, id, random, password, plain);
      && ev.Realm() == id.realm && ev.Id() == id.user && ev.Algorithm() == id.digest
      && ev.Once() == NonceText(random) && ev.verb == plain.verb && ev.uri == plain.uri
      && ev.Digest() == Hashed(H, id.digest,
           Hashed(H, id.digest, id.user + ":" + id.realm + ":" + password) + ":" + NonceText(random) + ":"
           + Hashed(H, id.digest, plain.verb + ":" + plain.uri))
  {
    hide Unquoted, Quote, Lower, Upper, Hashed;
    var secret := Secret(H, id.digest, id.user, id.realm, password);
    var response := Response(H, id.digest, secret, NonceText(random), plain.verb, plain.uri);
    UnquoteQuote(id.realm);
    UnquoteQuote(id.user);
    UnquoteQuote(id.digest);
    UnquoteQuote(NonceText(random));
    UnquoteQuote(response);
    HashedIsLower(H, id.digest, secret + ":" + NonceText(random) + ":" + Hashed(H, id.digest, plain.verb + ":" + plain.uri));
  }

  lemma NonceTextInjective(a: seq<Byte>, b: seq<Byte>)
    ensures NonceText(a) == NonceText(b) <==> a == b
  {
    HexIsLower(a);
    HexIsLower(b);
    if NonceText(a) == NonceText(b) {
      HexInjective(a, b);
    }
  }

  /** With the right password: accepted for registration exactly for the current nonce. */
  lemma AuthorizeAcceptsIff(H: Hash, id: Identity, st: Registration, random: seq<Byte>, password: string, plain: Request)
    requires Upper(id.digest) == id.digest && id.secret == Secret(H, id.digest, id.user, id.realm, password)
    ensures AuthorizeResult(H, id, st, Reply(H, id, random, password, plain)) == SIP_OK <==> random == st.random
  {
    hide Reply, NonceText, Hashed, Unquoted, Lower, Upper;
    ReplyReads(H, id, random, password, plain);
    NonceTextInjective(random, st.random);
  }

  /** And for any other request exactly for the current or the prior nonce, registered and unexpired. */
  lemma AuthenticateAcceptsIff(
    H: Hash, id: Identity, st: Registration, random: seq<Byte>, password: string, plain: Request, now: int)
    requires Upper(id.digest) == id.digest && id.secret == Secret(H, id.digest, id.user, id.realm, password)
    ensures AuthenticateResult(H, id, st, Reply(H, id, random, password, plain), now) == SIP_OK
            <==> (random == st.random || random == st.prior) && st.context.Some? && !HasExpired(st, now)
  {
    hide Reply, NonceText, Hashed, Unquoted, Lower, Upper;
    ReplyReads(H, id, random, password, plain);
    NonceTextInjective(random, st.random);
    NonceTextInjective(random, st.prior);
  }

  /** What the server takes, written out: the digest binds the stored secret, the nonce, the verb and the URI. */
  lemma AuthorizeTakesIff(H: Hash, id: Identity, st: Registration, ev: Request)
    ensures AuthorizeResult(H, id, st, ev) in {200, 403}
    ensures AuthorizeResult(H, id, st, ev) == 200 <==>
      && ev.Realm() == id.realm && ev.Id() == id.user && ev.Algorithm() == id.digest
      && ev.Once() == Lower(Hex(st.random))
      && ev.Digest() == Hashed(H, id.digest,
           id.secret + ":" + ev.Once() + ":" + Hashed(H, id.digest, ev.verb + ":" + ev.uri))
  {
    hide Hashed, Unquoted, Lower, Hex, Upper;
  }

  lemma AuthenticateTakesIff(H: Hash, id: Identity, st: Registration, ev: Request, now: int)
    ensures AuthenticateResult(H, id, st, ev, now) in {200, 403, 480}
    ensures AuthenticateResult(H, id, st, ev, now) == 480 <==>
      st.context == None || (st.timeout >= 0 && now - st.updated > st.timeout)
    ensures AuthenticateResult(H, id, st, ev, now) == 200 <==>
      && st.context.Some? && (st.timeout < 0 || now - st.updated <= st.timeout)
      && ev.Realm() == id.realm && ev.Id() == id.user && ev.Algorithm() == id.digest
      && (ev.Once() == Lower(Hex(st.random)) || ev.Once() == Lower(Hex(st.prior)))
      && ev.Digest() == Hashed(H, id.digest,
           id.secret + ":" + ev.Once() + ":" + Hashed(H, id.digest, ev.verb + ":" + ev.uri))
  {
    hide Hashed, Unquoted, Lower, Hex, Upper;
  }

  ghost predicate Collides(H: Hash, name: string) {
    exists x, y :: x != y && H(AlgorithmOf(name), x) == H(AlgorithmOf(name), y)
  }

  lemma SameHashedCollides(H: Hash, name: string, x: string, y: string)
    requires x != y && Hashed(H, name, x) == Hashed(H, name, y)
    ensures Collides(H, name)
  {
    NonceTextInjective(H(AlgorithmOf(name), x), H(AlgorithmOf(name), y));
  }

  lemma AffixesCancel(prefix: string, a: string, b: string, suffix: string)
    ensures prefix + a == prefix + b ==> a == b
    ensures a + suffix == b + suffix ==> a == b
  {
    assert (prefix + a)[|prefix|..] == a && (prefix + b)[|prefix|..] == b;
    assert |a + suffix| - |suffix| == |a| && |b + suffix| - |suffix| == |b|;
    assert (a + suffix)[..|a|] == a && (b + suffix)[..|b|] == b;
  }

  lemma SameResponseCollides(
    H: Hash, name: string, a: string, b: string, nonce: string, verb: string, uri: string)
    requires a != b && Response(H, name, a, nonce, verb, uri) == Response(H, name, b, nonce, verb, uri)
    ensures Collides(H, name)
  {
    hide Hashed, Collides;
    var colon := ":";
    var suffix := colon + nonce + ":" + Hashed(H, name, verb + ":" + uri);
    AffixesCancel("", a, b, suffix);
    assert a + suffix == a + ":" + nonce + ":" + Hashed(H, name, verb + ":" + uri);
    assert b + suffix == b + ":" + nonce + ":" + Hashed(H, name, verb + ":" + uri);
    SameHashedCollides(H, name, a + suffix, b + suffix);
  }

  lemma SameSecretCollides(H: Hash, name: string, user: string, realm: string, a: string, b: string)
    requires a != b && Secret(H, name, user, realm, a) == Secret(H, name, user, realm, b)
    ensures Collides(H, name)
  {
    hide Hashed, Collides;
    AffixesCancel(user + ":" + realm + ":", a, b, "");
    SameHashedCollides(H, name, user + ":" + realm + ":" + a, user + ":" + realm + ":" + b);
  }

  /** A wrong password gets in only through two different texts with one hash. */
  lemma WrongPasswordNeedsCollision(
    H: Hash, id: Identity, st: Registration, password: string, wrong: string, plain: Request)
    requires Upper(id.digest) == id.digest && id.secret == Secret(H, id.digest, id.user, id.realm, password)
    requires wrong != password
    ensures AuthorizeResult(H, id, st, Reply(H, id, st.random, wrong, plain)) == SIP_OK ==> Collides(H, id.digest)
  {
    hide Reply, NonceText, Hashed, Unquoted, Lower, Upper, Collides;
    var other := Secret(H, id.digest, id.user, id.realm, wrong);
    ReplyReads(H, id, st.random, wrong, plain);
    if other == id.secret {
      SameSecretCollides(H, id.digest, id.user, id.realm, password, wrong);
    } else if Response(H, id.digest, id.secret, NonceText(st.random), plain.verb, plain.uri)
              == Response(H, id.digest, other, NonceText(st.random), plain.verb, plain.uri) {
      SameResponseCollides(H, id.digest, id.secret, other, NonceText(st.random), plain.verb, plain.uri);
    }
  }

  /** One answer to two requests: only through two different texts with one hash. */
  lemma OneAnswerTwoRequestsCollides(
    H: Hash, name: string, secret: string, nonce: string, verb: string, uri: string, verb': string, uri': string)
    requires verb + ":" + uri != verb' + ":" + uri'
    requires Response(H, name, secret, nonce, verb, uri) == Response(H, name, secret, nonce, verb', uri')
    ensures Collides(H, name)
  {
    hide Hashed, Collides;
    var prefix := secret + ":" + nonce + ":";
    var ha2, ha2' := Hashed(H, name, verb + ":" + uri), Hashed(H, name, verb' + ":" + uri');
    if ha2 == ha2' {
      SameHashedCollides(H, name, verb + ":" + uri, verb' + ":" + uri');
    } else {
      AffixesCancel(prefix, ha2, ha2', "");
      SameHashedCollides(H, name, prefix + ha2, prefix + ha2');
    }
  }

  /** An answer carried over to a request with another verb or URI is refused, but for such a collision. */
  lemma CarriedOverAnswerCollides(
    H: Hash, id: Identity, st: Registration, password: string, plain: Request, verb: string, uri: string)
    requires Upper(id.digest) == id.digest && id.secret == Secret(H, id.digest, id.user, id.realm, password)
    requires verb + ":" + uri != plain.verb + ":" + plain.uri
    ensures AuthorizeResult(H, id, st, Reply(H, id, st.random, password, plain).(verb := verb, uri := uri)) == SIP_OK
            ==> Collides(H, id.digest)
  {
    hide Hashed, Unquoted, Collides, Lower, Hex, Upper;
    ReplyReads(H, id, st.random, password, plain);
    var ev := Reply(H, id, st.random, password, plain);
    var other := ev.(verb := verb, uri := uri);
    assert other.Digest() == ev.Digest() && other.Once() == ev.Once();
    if Response(H, id.digest, id.secret, NonceText(st.random), plain.verb, plain.uri)
       == Response(H, id.digest, id.secret, NonceText(st.random), verb, uri) {
      OneAnswerTwoRequestsCollides(H, id.digest, id.secret, NonceText(st.random), plain.verb, plain.uri, verb, uri);
    }
  }
}
