/** The database link: queries that reopen and retry, and a reopening that itself runs queries. */
module Reconnect {

  /** `Util::pragmaQuery`: only the file database has any. */
  const PRAGMAS: seq<string> := [
    "PRAGMA locking_mode = EXCLUSIVE;", "PRAGMA synchronous = OFF;", "PRAGMA temp_store = MEMORY;"]

  function PragmaQuery(isFile: bool): seq<string> { if isFile then PRAGMAS else [] }

  /** n executions of one statement. */
  function Times(request: string, n: nat): seq<string> { seq(n, _ => request) }

  lemma TimesOnce(request: string)
    ensures Times(request, 1) == [request] && Times(request, 0) == []
  {
  }

  lemma NoPragmas()
    ensures PragmaQuery(false) == []
  {
  }

  /** The first statements of a list, each executed so many times. */
  function Executed(list: seq<string>, tries: seq<nat>): seq<string>
    requires |tries| <= |list|
  {
    if tries == [] then []
    else Executed(list, tries[..|tries| - 1]) + Times(list[|tries| - 1], tries[|tries| - 1])
  }

  lemma ExecutedNone(list: seq<string>)
    ensures Executed(list, []) == []
  {
  }

  lemma ExecutedMore(list: seq<string>, tries: seq<nat>, times: nat)
    requires |tries| < |list|
    ensures Executed(list, tries + [times]) == Executed(list, tries) + Times(list[|tries|], times)
  {
    assert (tries + [times])[..|tries|] == tries;
  }

  lemma OneMore(request: string, n: nat)
    ensures Times(request, n + 1) == Times(request, n) + [request]
  {
  }

  datatype Call = Query(request: string) | Batch(list: seq<string>) | Timeout | Event

  class Link {
    const isFile: bool
    const validDriver: bool
    /** What the world does: whether the n-th statement executes and the n-th connection opens. */
    const executes: nat -> bool
    const connects: nat -> bool
    var open: bool
    var failed: bool
    var sent: seq<string>
    var attempts: nat

    constructor (isFile: bool, validDriver: bool, executes: nat -> bool, connects: nat -> bool)
      ensures Valid() && !open && !failed && sent == [] && attempts == 0
    {
      this.isFile, this.validDriver, this.executes, this.connects := isFile, validDriver, executes, connects;
      open, failed, sent, attempts := false, false, [], 0;
    }

    predicate Valid()
      reads this
    {
      !(open && failed) && (open ==> validDriver)
    }

    /** How far the recursion still is from an open file database, which needs no reopening. */
    function Depth(): nat
      reads this
    {
      if isFile && open then 0 else 1
    }

    method Close()
      modifies this`open, this`failed
      ensures !open && !failed
    {
      open := false;
      failed := false;
    }

    /** The idle timer lets go of a file database only. */
    method OnTimeout()
      requires Valid()
      modifies this
      ensures Valid() && sent == old(sent) && attempts == old(attempts)
      ensures if isFile then !open && !failed else Same(old(open), old(failed), old(sent), old(attempts))
    {
      if isFile {
        Close();
      }
    }

    method Execute(request: string) returns (ok: bool)
      modifies this`sent
      ensures sent == old(sent) + [request] && ok == executes(|old(sent)|)
    {
      ok := executes(|sent|);
      sent := sent + [request];
    }

    /**
     * Opens the link unless it is open or marked failed. A file database then gets its pragmas, up
     * to the first that fails. That the connection did not open is not remembered here.
     */
    method Reopen() returns (ok: bool)
      requires Valid()
      modifies this
      ensures Valid() && ok == open
      ensures old(failed || open) ==> Same(old(open), old(failed), old(sent), old(attempts))
      ensures !old(failed || open) && !validDriver ==> failed && attempts == old(attempts)
      ensures !old(failed || open) && validDriver ==>
        attempts == old(attempts) + 1 && open == connects(old(attempts)) && !failed
      ensures old(sent) <= sent && sent[|old(sent)|..] <= PragmaQuery(isFile) && (!open ==> sent == old(sent))
      decreases Depth(), 1, 0
    {
      if failed { return false; }
      if open { return true; }
      Close();
      if !validDriver {
        failed := true;
        return false;
      }
      attempts := attempts + 1;
      open := connects(attempts - 1);
      if !open { return false; }
      ghost var before := sent;
      var _, _ := RunQueries(PragmaQuery(isFile));
      assert sent[|before|..] <= PragmaQuery(isFile);
      return true;
    }

    predicate Same(open: bool, failed: bool, sent: seq<string>, attempts: nat)
      reads this
    {
      this.open == open && this.failed == failed && this.sent == sent && this.attempts == attempts
    }

    /** After a query failed: a file database stays as it is, any other is reopened or marked failed. */
    method Resume() returns (ok: bool)
      requires Valid() && open
      modifies this
      ensures Valid() && sent == old(sent)
      ensures isFile ==> !ok && Same(old(open), old(failed), old(sent), old(attempts))
      ensures !isFile ==> attempts == old(attempts) + 1 && ok == open == connects(old(attempts)) && failed == !open
      decreases Depth(), 2, 0
    {
      if isFile { return false; }
      if failed { return false; }
      Close();
      ok := Reopen();
      if !ok {
        failed := true;
      }
    }

    /**
     * Runs one statement. Its own executions number at most three, and one for a file database; it
     * succeeds just when the last of them does. A link marked failed is left alone. A link becomes
     * marked failed exactly when the last connection asked for was refused, and was not the one with
     * which the call began.
     */
    method RunQuery(request: string) returns (ok: bool, ghost tries: nat, ghost prelude: seq<string>)
      requires Valid()
      modifies this
      ensures Valid()
      ensures sent == old(sent) + prelude + Times(request, tries)
      ensures prelude <= if old(open) then [] else PragmaQuery(isFile)
      ensures tries <= (if isFile then 1 else 3) && (ok <==> tries > 0 && executes(|sent| - 1))
      ensures forall i | |sent| - tries <= i < |sent| - 1 :: !executes(i)
      ensures tries > 0 && !ok && !isFile ==> failed || tries == 3
      ensures old(open) ==> tries > 0
      ensures isFile && old(open) ==> open && attempts == old(attempts)
      ensures old(failed) ==> prelude == [] && tries == 0 && Same(old(open), old(failed), old(sent), old(attempts))
      ensures tries > 0 ==> attempts == old(attempts) + (if old(open) then 0 else 1)
                                        + (if isFile then 0 else if ok then tries - 1 else tries)
      ensures validDriver && !old(failed) ==>
        (failed <==> attempts > old(attempts) + (if old(open) then 0 else 1) && !connects(attempts - 1))
      ensures !old(open || failed) && validDriver && !connects(old(attempts))
              ==> Same(false, false, old(sent), old(attempts) + 1)
      ensures old(attempts) <= attempts <= old(attempts) + 4
      decreases Depth(), 3, 0
    {
      hide PragmaQuery;
      tries := 0;
      ok := Reopen();
      ghost var base, tried := sent, attempts;
      prelude := base[|old(sent)|..];
      TimesOnce(request);
      if !ok { return; }
      var retries := 0;
      while retries < 3
        invariant tries == retries <= 3 && open && !failed && Valid()
        invariant isFile ==> tries == 0
        invariant sent == base + Times(request, tries)
        invariant attempts == tried + tries
        invariant forall i | |base| <= i < |sent| :: !executes(i)
        invariant attempts > tried ==> connects(attempts - 1)
      {
        var done := Execute(request);
        OneMore(request, tries);
        tries := tries + 1;
        if done { return true, tries, prelude; }
        var resumed := Resume();
        if !resumed { break; }
        retries := retries + 1;
      }
      ok := false;
    }

    /** As much of a query as a batch of them relies on. */
    method RunOne(request: string) returns (ok: bool, ghost times: nat)
      requires Valid()
      modifies this
      ensures Valid() && (ok ==> times > 0) && old(attempts) <= attempts
      ensures if isFile && old(open) then open && attempts == old(attempts) && sent == old(sent) + [request]
              else !isFile ==> sent == old(sent) + Times(request, times)
      ensures old(failed) ==> !ok && times == 0 && Same(old(open), old(failed), old(sent), old(attempts))
      ensures validDriver && failed && !old(failed) ==> attempts > old(attempts) && !connects(attempts - 1)
      decreases Depth(), 3, 1
    {
      TimesOnce(request);
      NoPragmas();
      hide Times, PragmaQuery;
      ghost var prelude;
      ok, times, prelude := RunQuery(request);
      assert isFile && old(open) ==> times == 1;
      assert old(open) || !isFile ==> prelude == [];
    }

    /**
     * Runs statements up to the first that fails, and counts those that succeeded. On a server's link
     * each was executed as often as RunQuery tries, in order, and the rest never.
     */
    method RunQueries(list: seq<string>) returns (count: nat, ghost tries: seq<nat>)
      requires Valid()
      modifies this
      ensures Valid() && count <= |list| && |tries| <= |list|
      ensures list == [] || old(failed) ==> count == 0 && Same(old(open), old(failed), old(sent), old(attempts))
      ensures |tries| == if count < |list| then count + 1 else count
      ensures forall i :: 0 <= i < count ==> tries[i] > 0
      ensures !isFile ==> sent == old(sent) + Executed(list, tries)
      ensures old(attempts) <= attempts
      ensures validDriver && failed && !old(failed) ==> attempts > old(attempts) && !connects(attempts - 1)
      ensures isFile && old(open) ==> open && attempts == old(attempts)
      ensures isFile && old(open) ==> sent == old(sent) + if count < |list| then list[..count + 1] else list
      decreases if list == [] then 0 else Depth(), if list == [] then 0 else 4, |list|
    {
      hide Executed, Times, PragmaQuery;
      count, tries := 0, [];
      ExecutedNone(list);
      if |list| < 1 { return; }
      for i := 0 to |list|
        invariant count == i == |tries| && Valid() && old(attempts) <= attempts
        invariant forall k :: 0 <= k < i ==> tries[k] > 0
        invariant !isFile ==> sent == old(sent) + Executed(list, tries)
        invariant validDriver && failed && !old(failed) ==> attempts > old(attempts) && !connects(attempts - 1)
        invariant old(failed) ==> i == 0 && Same(old(open), old(failed), old(sent), old(attempts))
        invariant isFile && old(open) ==> open && attempts == old(attempts) && sent == old(sent) + list[..i]
      {
        var done, times := RunOne(list[i]);
        ExecutedMore(list, tries, times);
        tries := tries + [times];
        assert list[..i + 1] == list[..i] + [list[i]];
        if !done { break; }
        count := count + 1;
      }
    }

    /** New settings: whatever failed before may be tried again. */
    method ApplyConfig()
      requires Valid()
      modifies this`failed
      ensures Valid() && !failed && Same(old(open), false, old(sent), old(attempts))
    {
      failed := false;
    }

    /**
     * Any sequence of calls between two configurations. On a server's link marked failed nothing
     * more happens at all; and if the link ends marked failed, the connection that was refused is the
     * last one asked for, however many calls came after it.
     */
    method RunCalls(calls: seq<Call>)
      requires Valid() && validDriver && !isFile
      modifies this
      ensures Valid()
      ensures old(failed) ==> Same(old(open), old(failed), old(sent), old(attempts))
      ensures old(attempts) <= attempts
      ensures failed && !old(failed) ==> attempts > old(attempts) && !connects(attempts - 1)
    {
      for i := 0 to |calls|
        invariant Valid() && old(attempts) <= attempts
        invariant old(failed) ==> Same(old(open), old(failed), old(sent), old(attempts))
        invariant failed && !old(failed) ==> attempts > old(attempts) && !connects(attempts - 1)
      {
        match calls[i] {
          case Query(request) => var _, _, _ := RunQuery(request);
          case Batch(list) => var _, _ := RunQueries(list);
          case Timeout => OnTimeout();
          case Event => var _ := Reopen();
        }
      }
    }
  }
}
