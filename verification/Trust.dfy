/** What a device's report means: the history of verifications and listings behind it. */
module Trust {
  import opened Devices
  import opened UStrings

  datatype Op = Verify(name: string, key: seq<Byte>, agent: string) | Check(devices: seq<Device>)

  function Step(rows: Rows, op: Op): Rows {
    match op
    case Verify(name, key, agent) => VerifiedRows(rows, name, key, agent)
    case Check(devices) => CheckedRows(rows, Latest(devices))
  }

  function Run(ops: seq<Op>): Rows {
    if ops == [] then map[] else Step(Run(ops[..|ops| - 1]), ops[|ops| - 1])
  }

  predicate Verifies(op: Op, name: string) { op.Verify? && op.name == name }

  /** A listing without the device. */
  predicate Drops(op: Op, name: string) { op.Check? && !Listed(op.devices, name) }

  /** A listing of the device, by the entry that counts, under another, non-empty key. */
  ghost predicate Mismatches(op: Op, name: string, key: seq<Byte>) {
    op.Check? && exists i :: LastListed(op.devices, i) && op.devices[i].name == name
                             && op.devices[i].key != [] && op.devices[i].key != key
  }

  /** The walk over the table goes by the list. */
  lemma CheckIs(op: Op, name: string, key: seq<Byte>)
    requires op.Check?
    ensures Drops(op, name) <==> name !in Latest(op.devices)
    ensures Mismatches(op, name, key) <==>
      name in Latest(op.devices) && Latest(op.devices)[name].key != [] && Latest(op.devices)[name].key != key
  {
    LatestIs(op.devices);
    if Listed(op.devices, name) {
      var k :| 0 <= k < |op.devices| && op.devices[k].name == name;
      LastIsThere(op.devices, k);
    }
    forall i | LastListed(op.devices, i)
      ensures Listed(op.devices, op.devices[i].name)
    {
    }
  }

  /** Position i verified the device last, with this key, and no listing since has dropped it. */
  predicate VerifiedAt(ops: seq<Op>, name: string, key: seq<Byte>, i: int) {
    && 0 <= i < |ops| && Verifies(ops[i], name) && ops[i].key == key
    && forall j :: i < j < |ops| ==> !Verifies(ops[j], name) && !Drops(ops[j], name)
  }

  ghost predicate MismatchedSince(ops: seq<Op>, name: string, key: seq<Byte>, i: int) {
    exists j :: 0 <= j < |ops| && i < j && Mismatches(ops[j], name, key)
  }

  /** What the table says of a device after a run, told by the run alone. */
  ghost predicate Explains(ops: seq<Op>, name: string, rows: Rows) {
    && (name in rows ==> exists i :: VerifiedAt(ops, name, rows[name].key, i))
    && (forall i, key :: VerifiedAt(ops, name, key, i) ==>
          && name in rows && rows[name].key == key
          && rows[name].status == if MismatchedSince(ops, name, key, i) then MISMATCHED else VERIFIED)
  }

  lemma VerifiedSnoc(ops: seq<Op>, op: Op, name: string, key: seq<Byte>, i: int)
    ensures VerifiedAt(ops + [op], name, key, i)
            <==> if i == |ops| then Verifies(op, name) && op.key == key
                 else VerifiedAt(ops, name, key, i) && !Verifies(op, name) && !Drops(op, name)
  {
    hide Drops;
    var all := ops + [op];
    if 0 <= i < |ops| {
      assert all[i] == ops[i] && all[|ops|] == op;
      assert forall j | i < j < |ops| :: all[j] == ops[j];
    }
  }

  lemma MismatchedSnoc(ops: seq<Op>, op: Op, name: string, key: seq<Byte>, i: int)
    ensures MismatchedSince(ops + [op], name, key, i)
            <==> MismatchedSince(ops, name, key, i) || (i < |ops| && Mismatches(op, name, key))
  {
    hide Mismatches;
    var all := ops + [op];
    assert all[|ops|] == op;
    assert forall j | 0 <= j < |ops| :: all[j] == ops[j];
  }

  lemma Within(ops: seq<Op>, name: string, key: seq<Byte>, i: int)
    ensures VerifiedAt(ops, name, key, i) ==> 0 <= i < |ops|
    ensures i >= |ops| ==> !MismatchedSince(ops, name, key, i)
  {
  }

  lemma Attempted(op: Op, name: string, key: seq<Byte>)
    ensures op.Check? ==> (Drops(op, name) <==> name !in Latest(op.devices))
    ensures op.Check? ==> (Mismatches(op, name, key) <==>
      name in Latest(op.devices) && Latest(op.devices)[name].key != [] && Latest(op.devices)[name].key != key)
    ensures !op.Check? ==> !Drops(op, name) && !Mismatches(op, name, key)
  {
    if op.Check? {
      CheckIs(op, name, key);
    }
  }

  lemma StepKeepsRows(ops: seq<Op>, op: Op, name: string, rows: Rows, i: int, key: seq<Byte>)
    requires Explains(ops, name, rows) && VerifiedAt(ops + [op], name, key, i)
    ensures var after := Step(rows, op);
      && name in after && after[name].key == key
      && after[name].status == if MismatchedSince(ops + [op], name, key, i) then MISMATCHED else VERIFIED
  {
    hide VerifiedAt, MismatchedSince, Latest, Drops, Mismatches;
    VerifiedSnoc(ops, op, name, key, i);
    MismatchedSnoc(ops, op, name, key, i);
    Attempted(op, name, key);
    Within(ops, name, key, i);
    Within(ops + [op], name, key, i);
  }

  lemma StepNeedsVerifying(ops: seq<Op>, op: Op, name: string, rows: Rows)
    requires Explains(ops, name, rows) && name in Step(rows, op)
    ensures exists i :: VerifiedAt(ops + [op], name, Step(rows, op)[name].key, i)
  {
    hide VerifiedAt, MismatchedSince, Latest, Drops, Mismatches;
    var key := Step(rows, op)[name].key;
    Attempted(op, name, key);
    if Verifies(op, name) {
      VerifiedSnoc(ops, op, name, key, |ops|);
    } else {
      var i :| VerifiedAt(ops, name, rows[name].key, i);
      Within(ops, name, rows[name].key, i);
      VerifiedSnoc(ops, op, name, key, i);
    }
  }

  /** One more operation keeps the explanation. */
  lemma StepExplains(ops: seq<Op>, op: Op, name: string, rows: Rows)
    requires Explains(ops, name, rows)
    ensures Explains(ops + [op], name, Step(rows, op))
  {
    var all, after := ops + [op], Step(rows, op);
    if name in after {
      StepNeedsVerifying(ops, op, name, rows);
    }
    forall i, key | VerifiedAt(all, name, key, i)
      ensures name in after && after[name].key == key
      ensures after[name].status == if MismatchedSince(all, name, key, i) then MISMATCHED else VERIFIED
    {
      StepKeepsRows(ops, op, name, rows, i, key);
    }
  }

  lemma {:induction false} RunExplains(ops: seq<Op>, name: string)
    ensures Explains(ops, name, Run(ops))
  {
    if ops != [] {
      var before, op := ops[..|ops| - 1], ops[|ops| - 1];
      RunExplains(before, name);
      StepExplains(before, op, name, Run(before));
      assert ops == before + [op];
    }
  }

  /**
   * After any run, a listed device is reported verified exactly when it has a key, its last
   * verification was of that very key and no listing since has dropped it or shown another key.
   */
  lemma ReportedVerifiedIff(ops: seq<Op>, d: Device)
    ensures Reported(Run(ops), d).v == VERIFIED
            <==> d.key != [] && exists i :: VerifiedAt(ops, d.name, d.key, i) && !MismatchedSince(ops, d.name, d.key, i)
  {
    hide VerifiedAt, MismatchedSince, Run;
    RunExplains(ops, d.name);
  }

  /** It is reported mismatched exactly when, verified and listed ever since, it shows another key now or did before. */
  lemma ReportedMismatchedIff(ops: seq<Op>, d: Device)
    ensures Reported(Run(ops), d).v == MISMATCHED
            <==> d.key != [] && exists i, key :: VerifiedAt(ops, d.name, key, i)
                                                 && (key != d.key || MismatchedSince(ops, d.name, key, i))
  {
    hide VerifiedAt, MismatchedSince, Run;
    RunExplains(ops, d.name);
  }

  /** A mismatch sticks: shown the right key again, the device stays mismatched until verified anew. */
  lemma MismatchSticks(ops: seq<Op>, name: string, key: seq<Byte>, i: int, later: Op, d: Device)
    requires VerifiedAt(ops, name, key, i) && MismatchedSince(ops, name, key, i)
    requires !Verifies(later, name) && !Drops(later, name) && d.name == name && d.key != []
    ensures Reported(Run(ops), d).v == Reported(Run(ops + [later]), d).v == MISMATCHED
  {
    hide VerifiedAt, MismatchedSince, Run, Reported;
    Within(ops, name, key, i);
    VerifiedSnoc(ops, later, name, key, i);
    MismatchedSnoc(ops, later, name, key, i);
    ReportedMismatchedIff(ops, d);
    ReportedMismatchedIff(ops + [later], d);
  }
}
