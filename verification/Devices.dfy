/** Trust in a user's devices: keys verified once, watched from then on. */
module Devices {
  import opened Labels
  import opened UStrings

  /** A device as the server lists it, with its key read from hexadecimal, and how it is reported. */
  datatype Device = Device(name: string, key: seq<Byte>, agent: string, v: int)

  datatype Row = Row(key: seq<Byte>, agent: string, status: int)

  const UNKNOWN := 0
  const VERIFIED := 1
  const MISMATCHED := 2

  type Rows = map<string, Row>

  /** The last device listed under each label, reported as unknown to begin with. */
  function Latest(devices: seq<Device>): map<string, Device> {
    if devices == [] then map[]
    else
      var d := devices[|devices| - 1];
      Latest(devices[..|devices| - 1])[d.name := d.(v := UNKNOWN)]
  }

  predicate Listed(devices: seq<Device>, name: string) {
    exists i :: 0 <= i < |devices| && devices[i].name == name
  }

  /** The entry that counts for its name, should a list name a device twice. */
  predicate LastListed(devices: seq<Device>, i: int) {
    0 <= i < |devices| && forall j :: i < j < |devices| ==> devices[j].name != devices[i].name
  }

  /** Every device of the list is kept, and no other. */
  lemma {:induction false} LatestHas(devices: seq<Device>, name: string)
    ensures name in Latest(devices) <==> Listed(devices, name)
  {
    if devices != [] {
      var n := |devices| - 1;
      LatestHas(devices[..n], name);
      if Listed(devices[..n], name) {
        var i :| 0 <= i < n && devices[..n][i].name == name;
        assert devices[i].name == name;
      }
      if i :| 0 <= i < n && devices[i].name == name {
        assert devices[..n][i].name == name;
      }
    }
  }

  /** What is kept is the last entry of its name. */
  lemma {:induction false} LatestHolds(devices: seq<Device>, i: int)
    requires LastListed(devices, i)
    ensures devices[i].name in Latest(devices) && Latest(devices)[devices[i].name] == devices[i].(v := UNKNOWN)
  {
    var n := |devices| - 1;
    if i < n {
      assert devices[n].name != devices[i].name;
      assert LastListed(devices[..n], i);
      LatestHolds(devices[..n], i);
    }
  }

  lemma LatestIs(devices: seq<Device>)
    ensures forall name :: name in Latest(devices) <==> Listed(devices, name)
    ensures forall i | LastListed(devices, i) ::
      devices[i].name in Latest(devices) && Latest(devices)[devices[i].name] == devices[i].(v := UNKNOWN)
  {
    forall name
      ensures name in Latest(devices) <==> Listed(devices, name)
    {
      LatestHas(devices, name);
    }
    forall i | LastListed(devices, i)
      ensures devices[i].name in Latest(devices) && Latest(devices)[devices[i].name] == devices[i].(v := UNKNOWN)
    {
      LatestHolds(devices, i);
    }
  }

  function Status(row: Row, key: seq<Byte>): int {
    if row.status == MISMATCHED || row.key != key then MISMATCHED else VERIFIED
  }

  /** Unlisted rows are removed, rows of devices without a key are left, the others judged. */
  function CheckedRows(rows: Rows, listed: map<string, Device>): Rows {
    map name | name in rows && name in listed ::
      if listed[name].key == [] then rows[name] else rows[name].(status := Status(rows[name], listed[name].key))
  }

  function Reported(rows: Rows, d: Device): Device {
    if d.name !in rows || d.key == [] then d.(v := UNKNOWN) else d.(v := Status(rows[d.name], d.key))
  }

  function VerifiedRows(rows: Rows, name: string, key: seq<Byte>, agent: string): Rows {
    rows[name := Row(key, agent, VERIFIED)]
  }

  function ReportedAll(rows: Rows, listed: map<string, Device>): map<string, Device> {
    map name | name in listed :: Reported(rows, listed[name])
  }

  predicate Named(listed: map<string, Device>) {
    forall name <- listed :: listed[name].name == name
  }

  /** Each device of the map once, in the order labels are shown. */
  ghost predicate Lists(result: seq<Device>, labels: map<string, Device>) {
    && |result| == |labels| && (forall name <- labels :: labels[name] in result)
    && (forall i :: 0 <= i < |result| ==> result[i].name in labels && labels[result[i].name] == result[i])
    && (forall i, j :: 0 <= i < j < |result| ==> Leq(result[i].name, result[j].name) && result[i].name != result[j].name)
  }

  /** What a listed device is reported as: 1 verified, 2 mismatched, 0 neither. */
  function Verdict(rows: Rows, d: Device): int {
    if d.name !in rows || d.key == [] then 0
    else if rows[d.name].status == 2 || rows[d.name].key != d.key then 2
    else 1
  }

  /** What becomes of its row: the status is the verdict, unless there was no key to judge. */
  predicate Judged(rows: Rows, d: Device, row: Row) {
    d.name in rows && row == if d.key == [] then rows[d.name] else rows[d.name].(status := Verdict(rows, d))
  }

  /** The tables and reports after a check, told by the list. */
  lemma JudgesTheList(rows: Rows, devices: seq<Device>)
    ensures forall name :: name in CheckedRows(rows, Latest(devices)) <==> name in rows && Listed(devices, name)
    ensures forall i | LastListed(devices, i) && devices[i].name in CheckedRows(rows, Latest(devices)) ::
      Judged(rows, devices[i], CheckedRows(rows, Latest(devices))[devices[i].name])
    ensures forall i | LastListed(devices, i) ::
      devices[i].name in ReportedAll(rows, Latest(devices))
      && ReportedAll(rows, Latest(devices))[devices[i].name] == devices[i].(v := Verdict(rows, devices[i]))
    ensures forall name <- Latest(devices) :: exists i :: LastListed(devices, i) && devices[i].name == name
  {
    hide Latest, CheckedRows, ReportedAll, Judged, Verdict, Listed;
    forall name
      ensures name in CheckedRows(rows, Latest(devices)) <==> name in rows && Listed(devices, name)
    {
      KeepsListed(rows, devices, name);
    }
    forall i | LastListed(devices, i)
      ensures devices[i].name in ReportedAll(rows, Latest(devices))
      ensures ReportedAll(rows, Latest(devices))[devices[i].name] == devices[i].(v := Verdict(rows, devices[i]))
      ensures devices[i].name in CheckedRows(rows, Latest(devices)) ==>
        Judged(rows, devices[i], CheckedRows(rows, Latest(devices))[devices[i].name])
    {
      JudgesOne(rows, devices, i);
    }
    forall name | name in Latest(devices)
      ensures exists i :: LastListed(devices, i) && devices[i].name == name
    {
      LatestIsListed(devices, name);
    }
  }

  lemma KeepsListed(rows: Rows, devices: seq<Device>, name: string)
    ensures name in CheckedRows(rows, Latest(devices)) <==> name in rows && Listed(devices, name)
  {
    hide Latest;
    LatestHas(devices, name);
  }

  lemma JudgesOne(rows: Rows, devices: seq<Device>, i: int)
    requires LastListed(devices, i)
    ensures devices[i].name in ReportedAll(rows, Latest(devices))
    ensures ReportedAll(rows, Latest(devices))[devices[i].name] == devices[i].(v := Verdict(rows, devices[i]))
    ensures devices[i].name in CheckedRows(rows, Latest(devices)) ==>
      Judged(rows, devices[i], CheckedRows(rows, Latest(devices))[devices[i].name])
  {
    hide Latest;
    LatestHolds(devices, i);
  }

  lemma LatestIsListed(devices: seq<Device>, name: string)
    requires name in Latest(devices)
    ensures exists i :: LastListed(devices, i) && devices[i].name == name
  {
    hide Latest;
    LatestHas(devices, name);
    var k :| 0 <= k < |devices| && devices[k].name == name;
    LastIsThere(devices, k);
  }

  lemma {:induction false} LastIsThere(devices: seq<Device>, k: int)
    requires 0 <= k < |devices|
    ensures exists i :: LastListed(devices, i) && devices[i].name == devices[k].name
    decreases |devices| - k
  {
    if !LastListed(devices, k) {
      var j :| k < j < |devices| && devices[j].name == devices[k].name;
      LastIsThere(devices, j);
    }
  }

  class Storage {
    var rows: Rows

    constructor ()
      ensures rows == map[]
    {
      rows := map[];
    }

    method VerifyDevice(name: string, key: seq<Byte>, agent: string)
      modifies this
      ensures rows == VerifiedRows(old(rows), name, key, agent)
      ensures name in rows && rows[name] == Row(key, agent, 1)
      ensures forall other | other != name :: (other in rows <==> other in old(rows)) && (other in rows ==> rows[other] == old(rows)[other])
    {
      rows := rows - {name};
      rows := rows[name := Row(key, agent, VERIFIED)];
    }

    /** Judges the listed devices; the result has each label once, in the order labels are shown. */
    method VerifyDevices(devices: seq<Device>) returns (result: seq<Device>)
      modifies this
      ensures rows == CheckedRows(old(rows), Latest(devices))
      ensures Lists(result, ReportedAll(old(rows), Latest(devices)))
      ensures forall name :: name in rows <==> name in old(rows) && Listed(devices, name)
      ensures forall i | LastListed(devices, i) && devices[i].name in rows :: Judged(old(rows), devices[i], rows[devices[i].name])
      ensures forall i | LastListed(devices, i) :: devices[i].(v := Verdict(old(rows), devices[i])) in result
      ensures forall d <- result :: exists i :: LastListed(devices, i) && d == devices[i].(v := Verdict(old(rows), devices[i]))
    {
      JudgesTheList(rows, devices);
      hide CheckedRows, ReportedAll;
      LatestNamed(devices);
      var labels := Gather(devices);
      labels := Judge(labels);
      ReportedNamed(old(rows), Latest(devices));
      result := InOrder(labels);
      hide LastListed, Verdict, Judged, Listed, Latest;
      forall d | d in result
        ensures exists i :: LastListed(devices, i) && d == devices[i].(v := Verdict(old(rows), devices[i]))
      {
        var k :| 0 <= k < |result| && result[k] == d;
        assert d.name in labels && labels[d.name] == d;
        assert d.name in Latest(devices) by { ReportsListed(old(rows), Latest(devices)); }
        var i :| LastListed(devices, i) && devices[i].name == d.name;
      }
    }

    /** The walk over the table's rows. */
    method Judge(listed: map<string, Device>) returns (labels: map<string, Device>)
      requires Named(listed) && forall name <- listed :: listed[name].v == UNKNOWN
      modifies this
      ensures rows == CheckedRows(old(rows), listed) && labels == ReportedAll(old(rows), listed)
    {
      hide Partly, PartlyReported, StepRows, StepLabels;
      ghost var before := rows;
      labels := listed;
      var todo := rows.Keys;
      PartlyBegins(before, listed);
      while todo != {}
        invariant todo <= before.Keys && todo <= rows.Keys
        invariant rows == Partly(before, listed, todo) && labels == PartlyReported(before, listed, todo)
        decreases |todo|
      {
        var name :| name in todo;
        PartlySteps(before, listed, todo, name);
        todo := todo - {name};
        labels := JudgeRow(name, labels);
      }
      PartlyEnds(before, listed);
    }

    method JudgeRow(name: string, listed: map<string, Device>) returns (labels: map<string, Device>)
      requires name in rows
      modifies this
      ensures rows == StepRows(old(rows), listed, name) && labels == StepLabels(old(rows), listed, name)
    {
      labels := listed;
      var row := rows[name];
      if name !in labels {
        rows := rows - {name};
        return;
      }
      var json := labels[name];
      if |json.key| < 1 { return; }
      json := json.(v := if row.status == MISMATCHED || row.key != json.key then MISMATCHED else VERIFIED);
      rows := rows[name := row.(status := json.v)];
      labels := labels[name := json];
    }
  }

  function StepRows(rows: Rows, labels: map<string, Device>, name: string): Rows
    requires name in rows
  {
    if name !in labels then rows - {name}
    else if labels[name].key == [] then rows
    else rows[name := rows[name].(status := Status(rows[name], labels[name].key))]
  }

  function StepLabels(rows: Rows, labels: map<string, Device>, name: string): map<string, Device>
    requires name in rows
  {
    if name !in labels || labels[name].key == [] then labels
    else labels[name := labels[name].(v := Status(rows[name], labels[name].key))]
  }

  /** The table while the rows in todo are still to be walked. */
  ghost function Partly(before: Rows, listed: map<string, Device>, todo: set<string>): Rows {
    map name | name in before && (name in todo || name in listed) ::
      if name in todo then before[name] else CheckedRows(before, listed)[name]
  }

  ghost function PartlyReported(before: Rows, listed: map<string, Device>, todo: set<string>): map<string, Device> {
    map name | name in listed :: if name in todo then listed[name] else Reported(before, listed[name])
  }

  lemma PartlyBegins(before: Rows, listed: map<string, Device>)
    requires Named(listed) && forall name <- listed :: listed[name].v == UNKNOWN
    ensures Partly(before, listed, before.Keys) == before
    ensures PartlyReported(before, listed, before.Keys) == listed
  {
    hide Status;
  }

  lemma PartlySteps(before: Rows, listed: map<string, Device>, todo: set<string>, name: string)
    requires Named(listed) && (forall n <- listed :: listed[n].v == UNKNOWN)
    requires name in todo && todo <= before.Keys
    ensures var rows, labels := Partly(before, listed, todo), PartlyReported(before, listed, todo);
      && todo <= rows.Keys
      && Partly(before, listed, todo - {name}) == StepRows(rows, labels, name)
      && todo - {name} <= Partly(before, listed, todo - {name}).Keys
      && PartlyReported(before, listed, todo - {name}) == StepLabels(rows, labels, name)
  {
    hide Status;
  }

  lemma PartlyEnds(before: Rows, listed: map<string, Device>)
    ensures Partly(before, listed, {}) == CheckedRows(before, listed)
    ensures PartlyReported(before, listed, {}) == ReportedAll(before, listed)
  {
    hide Status;
  }

  method Gather(devices: seq<Device>) returns (labels: map<string, Device>)
    ensures labels == Latest(devices)
  {
    labels := map[];
    for i := 0 to |devices|
      invariant labels == Latest(devices[..i])
    {
      assert devices[..i + 1][..i] == devices[..i];
      labels := labels[devices[i].name := devices[i].(v := UNKNOWN)];
    }
    assert devices[..|devices|] == devices;
  }

  method InOrder(labels: map<string, Device>) returns (result: seq<Device>)
    requires Named(labels)
    ensures Lists(result, labels)
  {
    hide Leq;
    var index := SortedKeys(labels.Keys);
    KeysOnce(index, labels.Keys);
    result := [];
    for i := 0 to |index|
      invariant |result| == i && forall k :: 0 <= k < i ==> result[k] == labels[index[k]]
    {
      result := result + [labels[index[i]]];
    }
    forall name <- labels
      ensures labels[name] in result
    {
      var k :| 0 <= k < |index| && index[k] == name;
      assert result[k] == labels[name];
    }
  }

  lemma {:induction false} LatestNamed(devices: seq<Device>)
    ensures forall name <- Latest(devices) :: Latest(devices)[name].name == name && Latest(devices)[name].v == UNKNOWN
  {
    if devices != [] {
      LatestNamed(devices[..|devices| - 1]);
    }
  }

  lemma KeysOnce(s: seq<string>, keys: set<string>)
    requires multiset(s) == multiset(keys)
    ensures |s| == |keys| && (forall k :: 0 <= k < |s| ==> s[k] in keys) && (forall x <- keys :: x in s)
    ensures forall i, j :: 0 <= i < j < |s| ==> s[i] != s[j]
  {
    assert |multiset(s)| == |multiset(keys)|;
    forall k | 0 <= k < |s|
      ensures s[k] in keys
    {
      assert s[k] in multiset(s);
    }
    forall x <- keys
      ensures x in s
    {
      assert x in multiset(keys);
    }
    forall i, j | 0 <= i < j < |s|
      ensures s[i] != s[j]
    {
      assert s == s[..i] + [s[i]] + s[i + 1..j] + [s[j]] + s[j + 1..];
      assert multiset(s)[s[i]] <= 1;
    }
  }

  lemma ReportsListed(rows: Rows, listed: map<string, Device>)
    ensures ReportedAll(rows, listed).Keys == listed.Keys
  {
  }

  lemma ReportedNamed(rows: Rows, listed: map<string, Device>)
    requires Named(listed)
    ensures Named(ReportedAll(rows, listed))
  {
  }
}
