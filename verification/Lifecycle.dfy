/** One registration over any run of challenges, registrations and other requests. */
module Lifecycle {
  import opened Text
  import opened UStrings
  import opened Digest

  /** `Fresh` is a challenge that issues a nonce, `Reuse` one that repeats the current nonce. */
  datatype Op = Fresh(nonce: seq<Byte>) | Reuse | Authorize(ev: Request, now: int) | Authenticate(ev: Request, now: int)

  function Created(expires: int, now: int): Registration {
    Registration(false, expires * 1000, now, [], [], None, "")
  }

  function Step(H: Hash, id: Identity, st: Registration, op: Op): Registration {
    match op
    case Fresh(nonce) => WithNonce(st, nonce)
    case Reuse => st
    case Authorize(ev, now) => Authorized(H, id, st, ev, now)
    case Authenticate(_, _) => st
  }

  function Run(H: Hash, id: Identity, st: Registration, ops: seq<Op>): Registration {
    if ops == [] then st else Step(H, id, Run(H, id, st, ops[..|ops| - 1]), ops[|ops| - 1])
  }

  /** The nonces issued, oldest first; the two empty ones the object starts with come before. */
  function Issued(ops: seq<Op>): seq<seq<Byte>> {
    if ops == [] then [[], []]
    else if ops[|ops| - 1].Fresh? then Issued(ops[..|ops| - 1]) + [ops[|ops| - 1].nonce]
    else Issued(ops[..|ops| - 1])
  }

  /** Current and prior nonce are the last two issued. */
  lemma {:induction false} HoldsLastTwo(H: Hash, id: Identity, expires: int, now: int, ops: seq<Op>)
    ensures var st, nonces := Run(H, id, Created(expires, now), ops), Issued(ops);
      |nonces| >= 2 && st.random == nonces[|nonces| - 1] && st.prior == nonces[|nonces| - 2]
  {
    if ops != [] {
      HoldsLastTwo(H, id, expires, now, ops[..|ops| - 1]);
    }
  }

  predicate AllDistinct(nonces: seq<seq<Byte>>) {
    forall i, j :: 2 <= i < j < |nonces| ==> nonces[i] != nonces[j]
  }

  /**
   * After any run whose nonces are distinct and not empty, the right answer to the k-th nonce
   * registers the device exactly when that nonce is the latest, and lets any other request through
   * exactly when it is the latest or the one before and the device is registered and unexpired.
   */
  lemma NonceWindow(
    H: Hash, id: Identity, expires: int, start: int, ops: seq<Op>, k: nat, password: string, plain: Request, now: int)
    requires Upper(id.digest) == id.digest && id.secret == Secret(H, id.digest, id.user, id.realm, password)
    requires AllDistinct(Issued(ops)) && 2 <= k < |Issued(ops)| && (forall i | 2 <= i < |Issued(ops)| :: Issued(ops)[i] != [])
    ensures var st, nonces := Run(H, id, Created(expires, start), ops), Issued(ops);
      var ev := Reply(H, id, nonces[k], password, plain);
      && (AuthorizeResult(H, id, st, ev) == SIP_OK <==> k == |nonces| - 1)
      && (AuthenticateResult(H, id, st, ev, now) == SIP_OK
          <==> k >= |nonces| - 2 && st.context.Some? && !HasExpired(st, now))
  {
    hide Reply, Secret, Run, AuthorizeResult, AuthenticateResult;
    var st, nonces := Run(H, id, Created(expires, start), ops), Issued(ops);
    HoldsLastTwo(H, id, expires, start, ops);
    AuthorizeAcceptsIff(H, id, st, nonces[k], password, plain);
    AuthenticateAcceptsIff(H, id, st, nonces[k], password, plain, now);
    IssuedStart(ops);
    assert k < |nonces| - 1 ==> nonces[k] != nonces[|nonces| - 1];
    assert k < |nonces| - 2 ==> nonces[k] != nonces[|nonces| - 2];
  }

  lemma {:induction false} IssuedStart(ops: seq<Op>)
    ensures |Issued(ops)| >= 2 && Issued(ops)[0] == Issued(ops)[1] == []
  {
    if ops != [] {
      IssuedStart(ops[..|ops| - 1]);
    }
  }

  // ---- when a registration is active ----

  /** Position i holds the most recent attempt to register, and it was one that succeeded. */
  predicate RegisteredAt(H: Hash, id: Identity, st: Registration, ops: seq<Op>, i: int) {
    && 0 <= i < |ops| && ops[i].Authorize? && (forall j :: i < j < |ops| ==> !ops[j].Authorize?)
    && AuthorizeResult(H, id, Run(H, id, st, ops[..i]), ops[i].ev) == SIP_OK && ops[i].ev.expires >= 1
  }

  ghost predicate Registered(H: Hash, id: Identity, st: Registration, ops: seq<Op>) {
    exists i :: RegisteredAt(H, id, st, ops, i)
  }

  /** Only a later attempt to register can change which attempt counts. */
  lemma RegisteredBefore(H: Hash, id: Identity, st: Registration, ops: seq<Op>, op: Op, i: int)
    requires !op.Authorize?
    ensures RegisteredAt(H, id, st, ops + [op], i) <==> RegisteredAt(H, id, st, ops, i)
  {
    hide Run, AuthorizeResult;
    if 0 <= i < |ops| {
      assert (ops + [op])[..i] == ops[..i];
      assert forall j | i < j < |ops| :: (ops + [op])[j] == ops[j];
    }
  }

  lemma RegisteredLast(H: Hash, id: Identity, st: Registration, ops: seq<Op>, op: Op, i: int)
    requires op.Authorize?
    ensures RegisteredAt(H, id, st, ops + [op], i)
            <==> i == |ops| && AuthorizeResult(H, id, Run(H, id, st, ops), op.ev) == SIP_OK && op.ev.expires >= 1
  {
    hide Run, AuthorizeResult;
    assert (ops + [op])[..|ops|] == ops && (ops + [op])[|ops|] == op;
  }

  lemma RegisteredSnoc(H: Hash, id: Identity, st: Registration, ops: seq<Op>, op: Op)
    ensures Registered(H, id, st, ops + [op])
            <==> if op.Authorize?
                 then AuthorizeResult(H, id, Run(H, id, st, ops), op.ev) == SIP_OK && op.ev.expires >= 1
                 else Registered(H, id, st, ops)
  {
    hide Run, AuthorizeResult, RegisteredAt;
    if op.Authorize? {
      forall i
        ensures RegisteredAt(H, id, st, ops + [op], i)
                <==> i == |ops| && AuthorizeResult(H, id, Run(H, id, st, ops), op.ev) == SIP_OK && op.ev.expires >= 1
      {
        RegisteredLast(H, id, st, ops, op, i);
      }
      assert RegisteredAt(H, id, st, ops + [op], |ops|)
             <==> AuthorizeResult(H, id, Run(H, id, st, ops), op.ev) == SIP_OK && op.ev.expires >= 1;
    } else {
      forall i
        ensures RegisteredAt(H, id, st, ops + [op], i) <==> RegisteredAt(H, id, st, ops, i)
      {
        RegisteredBefore(H, id, st, ops, op, i);
      }
    }
  }

  lemma RunSnoc(H: Hash, id: Identity, st: Registration, ops: seq<Op>, op: Op)
    ensures Run(H, id, st, ops + [op]) == Step(H, id, Run(H, id, st, ops), op)
  {
    hide Step;
    assert (ops + [op])[..|ops|] == ops;
  }

  /** Active just when the most recent attempt succeeded with an expiry of at least one second. */
  lemma {:induction false} ActiveIff(H: Hash, id: Identity, st: Registration, ops: seq<Op>)
    requires !st.active
    ensures Run(H, id, st, ops).active <==> Registered(H, id, st, ops)
  {
    if ops != [] {
      var before, op := ops[..|ops| - 1], ops[|ops| - 1];
      assert ops == before + [op];
      ActiveIff(H, id, st, before);
      StepActive(H, id, st, before, op);
    }
  }

  lemma StepActive(H: Hash, id: Identity, st: Registration, ops: seq<Op>, op: Op)
    requires Run(H, id, st, ops).active <==> Registered(H, id, st, ops)
    ensures Run(H, id, st, ops + [op]).active <==> Registered(H, id, st, ops + [op])
  {
    hide Run, AuthorizeResult, Registered;
    RunSnoc(H, id, st, ops, op);
    RegisteredSnoc(H, id, st, ops, op);
  }

  // ---- how long a registration lives, and where its device is ----

  /** An attempt that succeeds in the state the run has then. */
  predicate Succeeds(H: Hash, id: Identity, st: Registration, op: Op) {
    op.Authorize? && AuthorizeResult(H, id, st, op.ev) == SIP_OK
  }

  predicate SucceedsAt(H: Hash, id: Identity, st: Registration, ops: seq<Op>, i: int) {
    0 <= i < |ops| && Succeeds(H, id, Run(H, id, st, ops[..i]), ops[i])
  }

  /** Position i released the registration. */
  predicate ReleasesAt(H: Hash, id: Identity, st: Registration, ops: seq<Op>, i: int) {
    SucceedsAt(H, id, st, ops, i) && ops[i].ev.expires < 1
  }

  /** Position i is the last at which the device registered or registered again. */
  predicate RefreshedAt(H: Hash, id: Identity, st: Registration, ops: seq<Op>, i: int) {
    && SucceedsAt(H, id, st, ops, i) && ops[i].ev.expires >= 1
    && forall j :: i < j < |ops| ==> !(SucceedsAt(H, id, st, ops, j) && ops[j].ev.expires >= 1)
  }

  lemma SucceedsSnoc(H: Hash, id: Identity, st: Registration, ops: seq<Op>, op: Op, i: int)
    ensures SucceedsAt(H, id, st, ops + [op], i)
            <==> if i == |ops| then Succeeds(H, id, Run(H, id, st, ops), op) else SucceedsAt(H, id, st, ops, i)
  {
    hide Run, Succeeds;
    if 0 <= i < |ops| {
      assert (ops + [op])[..i] == ops[..i];
    }
    assert (ops + [op])[..|ops|] == ops;
  }

  lemma RefreshedSnoc(H: Hash, id: Identity, st: Registration, ops: seq<Op>, op: Op, i: int)
    ensures RefreshedAt(H, id, st, ops + [op], i) <==>
      var refreshes := Succeeds(H, id, Run(H, id, st, ops), op) && op.ev.expires >= 1;
      if i == |ops| then refreshes else RefreshedAt(H, id, st, ops, i) && !refreshes
  {
    hide Run, Succeeds, SucceedsAt;
    var all := ops + [op];
    forall j
      ensures SucceedsAt(H, id, st, all, j)
              <==> if j == |ops| then Succeeds(H, id, Run(H, id, st, ops), op) else SucceedsAt(H, id, st, ops, j)
    {
      SucceedsSnoc(H, id, st, ops, op, j);
    }
    assert all[|ops|] == op && forall j | 0 <= j < |ops| :: all[j] == ops[j];
    IsAttempt(H, id, st, ops);
  }

  lemma IsAttempt(H: Hash, id: Identity, st: Registration, ops: seq<Op>)
    ensures forall j :: SucceedsAt(H, id, st, ops, j) ==> 0 <= j < |ops| && ops[j].Authorize?
  {
  }

  /** What a run of requests says of a registration's clock and of its device's whereabouts. */
  ghost predicate Tells(H: Hash, id: Identity, st: Registration, ops: seq<Op>, now: Registration) {
    && ((exists i :: ReleasesAt(H, id, st, ops, i)) ==> now.timeout == 0)
    && ((forall i :: !ReleasesAt(H, id, st, ops, i)) ==> now.timeout == st.timeout)
    && (forall i :: RefreshedAt(H, id, st, ops, i) ==>
          && now.updated == ops[i].now && now.context == Some(ops[i].ev.context)
          && now.address == if ops[i].ev.protocol == "udp" then ops[i].ev.source else ops[i].ev.contact)
    && ((forall i :: !RefreshedAt(H, id, st, ops, i)) ==>
          now.updated == st.updated && now.context == st.context && now.address == st.address)
  }

  lemma ReleasesSnoc(H: Hash, id: Identity, st: Registration, ops: seq<Op>, op: Op, i: int)
    ensures ReleasesAt(H, id, st, ops + [op], i) <==>
      if i == |ops| then Succeeds(H, id, Run(H, id, st, ops), op) && op.ev.expires < 1 else ReleasesAt(H, id, st, ops, i)
  {
    hide Run, Succeeds, SucceedsAt;
    SucceedsSnoc(H, id, st, ops, op, i);
    IsAttempt(H, id, st, ops);
    assert (ops + [op])[|ops|] == op && forall j | 0 <= j < |ops| :: (ops + [op])[j] == ops[j];
  }

  lemma TellsSnoc(H: Hash, id: Identity, st: Registration, ops: seq<Op>, op: Op)
    requires Tells(H, id, st, ops, Run(H, id, st, ops))
    ensures Tells(H, id, st, ops + [op], Step(H, id, Run(H, id, st, ops), op))
  {
    hide Run, AuthorizeResult, SucceedsAt, RefreshedAt, ReleasesAt;
    var all, was := ops + [op], Run(H, id, st, ops);
    forall i
      ensures RefreshedAt(H, id, st, all, i) <==>
        var refreshes := Succeeds(H, id, was, op) && op.ev.expires >= 1;
        if i == |ops| then refreshes else RefreshedAt(H, id, st, ops, i) && !refreshes
    {
      RefreshedSnoc(H, id, st, ops, op, i);
    }
    forall i
      ensures ReleasesAt(H, id, st, all, i) <==>
        if i == |ops| then Succeeds(H, id, was, op) && op.ev.expires < 1 else ReleasesAt(H, id, st, ops, i)
    {
      ReleasesSnoc(H, id, st, ops, op, i);
    }
    assert all[|ops|] == op;
    RefreshedWithin(H, id, st, ops, op);
    assert ReleasesAt(H, id, st, all, |ops|) <==> Succeeds(H, id, was, op) && op.ev.expires < 1;
    assert RefreshedAt(H, id, st, all, |ops|) <==> Succeeds(H, id, was, op) && op.ev.expires >= 1;
    NeverAtEnd(H, id, st, ops);
  }

  lemma RefreshedWithin(H: Hash, id: Identity, st: Registration, ops: seq<Op>, op: Op)
    ensures forall i :: RefreshedAt(H, id, st, ops, i) ==> 0 <= i < |ops| && (ops + [op])[i] == ops[i]
  {
    hide SucceedsAt;
    IsAttempt(H, id, st, ops);
  }

  lemma NeverAtEnd(H: Hash, id: Identity, st: Registration, ops: seq<Op>)
    ensures !RefreshedAt(H, id, st, ops, |ops|) && !ReleasesAt(H, id, st, ops, |ops|)
  {
  }

  lemma {:induction false} RunTells(H: Hash, id: Identity, st: Registration, ops: seq<Op>)
    ensures Tells(H, id, st, ops, Run(H, id, st, ops))
  {
    if ops != [] {
      var before, op := ops[..|ops| - 1], ops[|ops| - 1];
      assert ops == before + [op];
      hide Tells, Run, Step;
      RunTells(H, id, st, before);
      TellsSnoc(H, id, st, before, op);
      RunSnoc(H, id, st, before, op);
    }
  }

  /**
   * When a registration that was created for a number of seconds counts as expired: that many seconds
   * after the device last registered, or after the creation if it never did, and at the next tick
   * once it was released.
   */
  lemma ExpiredIff(H: Hash, id: Identity, expires: int, start: int, ops: seq<Op>, i: int, later: int)
    requires expires >= 0
    requires var st := Created(expires, start);
      RefreshedAt(H, id, st, ops, i) || (i == -1 && forall j :: !RefreshedAt(H, id, st, ops, j))
    ensures var st := Created(expires, start);
      var since := if i == -1 then start else ops[i].now;
      var milliseconds := if exists j :: ReleasesAt(H, id, st, ops, j) then 0 else expires * 1000;
      HasExpired(Run(H, id, st, ops), later) <==> later - since > milliseconds
  {
    RunTells(H, id, Created(expires, start), ops);
    NotBefore(H, id, Created(expires, start), ops);
    hide Run, RefreshedAt, ReleasesAt;
  }

  lemma NotBefore(H: Hash, id: Identity, st: Registration, ops: seq<Op>)
    ensures !RefreshedAt(H, id, st, ops, -1)
  {
  }

  /**
   * The state that outlives a failed attempt: an unsuccessful registration leaves expiry, context,
   * address and both nonces alone, so other requests of the device go through as before.
   */
  lemma FailedAttemptKeepsSession(H: Hash, id: Identity, st: Registration, bad: Request, ev: Request, now: int, later: int)
    requires AuthorizeResult(H, id, st, bad) != SIP_OK
    ensures var after := Authorized(H, id, st, bad, now);
      !after.active && AuthenticateResult(H, id, after, ev, later) == AuthenticateResult(H, id, st, ev, later)
  {
    hide AuthorizeResult, Names, Answers;
  }

  /** A device that deregistered counts as expired from the next tick of the clock on. */
  lemma DeregisteredExpires(H: Hash, id: Identity, st: Registration, ev: Request, now: int, later: int)
    requires AuthorizeResult(H, id, st, ev) == SIP_OK && ev.expires < 1
    ensures HasExpired(Authorized(H, id, st, ev, now), later) <==> later > st.updated
  {
    hide AuthorizeResult;
  }
}
