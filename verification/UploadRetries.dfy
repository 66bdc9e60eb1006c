/** Exactly which retry leads to two uploads of one item at once. */
module UploadRetries {
  import opened Wrappers
  import opened Upload
  import opened UploadItems
  import opened UploadInvariants
  import opened UploadXhrs
  import opened UploadStages
  import opened UploadStops

  // ----- open XHRs and outstanding `sign` calls of an item -----

  function OpenCount(xhrs: seq<Xhr>, id: nat): nat {
    if xhrs == [] then 0
    else OpenCount(xhrs[..|xhrs| - 1], id) + if xhrs[|xhrs| - 1] == Xhr(id, None) then 1 else 0
  }

  predicate Signs(proc: Proc, id: nat) {
    proc.id == id && proc.pc.AwaitSign?
  }

  function SignCount(procs: seq<Proc>, id: nat): nat {
    if procs == [] then 0
    else SignCount(procs[..|procs| - 1], id) + if Signs(procs[|procs| - 1], id) then 1 else 0
  }

  lemma OpenCountAppend(xhrs: seq<Xhr>, xhr: Xhr, id: nat)
    ensures OpenCount(xhrs + [xhr], id) == OpenCount(xhrs, id) + if xhr == Xhr(id, None) then 1 else 0
  {
    assert (xhrs + [xhr])[..|xhrs|] == xhrs;
  }

  lemma SignCountAppend(procs: seq<Proc>, proc: Proc, id: nat)
    ensures SignCount(procs + [proc], id) == SignCount(procs, id) + if Signs(proc, id) then 1 else 0
  {
    assert (procs + [proc])[..|procs|] == procs;
  }

  lemma {:induction false} OpenXhrIsCounted(xhrs: seq<Xhr>, x: nat, id: nat)
    requires x < |xhrs| && xhrs[x] == Xhr(id, None)
    ensures OpenCount(xhrs, id) >= 1
  {
    if x < |xhrs| - 1 {
      OpenXhrIsCounted(xhrs[..|xhrs| - 1], x, id);
    }
  }

  lemma {:induction false} CountedXhrIsOpen(xhrs: seq<Xhr>, id: nat) returns (x: nat)
    requires OpenCount(xhrs, id) >= 1
    ensures x < |xhrs| && xhrs[x] == Xhr(id, None)
  {
    x := |xhrs| - 1;
    if xhrs[x] != Xhr(id, None) {
      x := CountedXhrIsOpen(xhrs[..|xhrs| - 1], id);
    }
  }

  lemma {:induction false} TwoOpenXhrsAreCounted(xhrs: seq<Xhr>, x: nat, y: nat, id: nat)
    requires x < y < |xhrs| && xhrs[x] == Xhr(id, None) && xhrs[y] == Xhr(id, None)
    ensures OpenCount(xhrs, id) >= 2
  {
    if y < |xhrs| - 1 {
      TwoOpenXhrsAreCounted(xhrs[..|xhrs| - 1], x, y, id);
    } else {
      OpenXhrIsCounted(xhrs[..|xhrs| - 1], x, id);
    }
  }

  lemma {:induction false} TwoCountedXhrsAreOpen(xhrs: seq<Xhr>, id: nat) returns (x: nat, y: nat)
    requires OpenCount(xhrs, id) >= 2
    ensures x < y < |xhrs| && xhrs[x] == Xhr(id, None) && xhrs[y] == Xhr(id, None)
  {
    y := |xhrs| - 1;
    if xhrs[y] == Xhr(id, None) {
      x := CountedXhrIsOpen(xhrs[..y], id);
    } else {
      x, y := TwoCountedXhrsAreOpen(xhrs[..y], id);
    }
  }

  lemma TwoOpenIsCounted(s: State, id: nat)
    ensures TwoOpen(s, id) <==> OpenCount(s.xhrs, id) >= 2
  {
    if TwoOpen(s, id) {
      var x: nat, y: nat :| 0 <= x < y < |s.xhrs| && OpenFor(s, x, id) && OpenFor(s, y, id);
      TwoOpenXhrsAreCounted(s.xhrs, x, y, id);
    }
    if OpenCount(s.xhrs, id) >= 2 {
      var x, y := TwoCountedXhrsAreOpen(s.xhrs, id);
      assert OpenFor(s, x, id) && OpenFor(s, y, id);
    }
  }

  lemma {:induction false} CountedSignIsOut(procs: seq<Proc>, id: nat) returns (p: nat)
    requires SignCount(procs, id) >= 1
    ensures p < |procs| && Signs(procs[p], id)
  {
    p := |procs| - 1;
    if !Signs(procs[p], id) {
      p := CountedSignIsOut(procs[..|procs| - 1], id);
    }
  }

  lemma {:induction false} OutSignIsCounted(procs: seq<Proc>, p: nat, id: nat)
    requires p < |procs| && Signs(procs[p], id)
    ensures SignCount(procs, id) >= 1
  {
    if p < |procs| - 1 {
      OutSignIsCounted(procs[..|procs| - 1], p, id);
    }
  }

  /** A call that is replaced counts as what it is now. */
  lemma {:induction false} SignCountUpdate(procs: seq<Proc>, p: nat, proc: Proc, id: nat)
    requires p < |procs|
    ensures SignCount(procs[p := proc], id) + (if Signs(procs[p], id) then 1 else 0)
         == SignCount(procs, id) + (if Signs(proc, id) then 1 else 0)
  {
    var last := |procs| - 1;
    if p < last {
      assert procs[p := proc][..last] == procs[..last][p := proc];
      SignCountUpdate(procs[..last], p, proc, id);
    } else {
      assert procs[p := proc][..last] == procs[..last];
    }
  }

  // ----- how many XHRs returning `sign` calls can open -----

  /** A `sign` call returns a descriptor or throws. */
  ghost predicate SignNext(s: State, r: State) {
    exists p: nat, result :: p < |s.procs| && s.procs[p].pc.AwaitSign? && r == SignSettles(s, p, result)
  }

  ghost predicate SignPath(s: State, path: seq<State>) {
    path != [] && path[0] == s && forall i :: 0 <= i < |path| - 1 ==> SignNext(path[i], path[i + 1])
  }

  /** Returning `sign` calls alone lead to two open XHRs of the item. */
  ghost predicate Doubles(s: State, id: nat) {
    exists path :: SignPath(s, path) && TwoOpen(path[|path| - 1], id)
  }

  /** The open XHRs and those that may join them; a canceled item costs one call, whose throwing revives it. */
  function Reachable(s: State, id: nat): nat {
    var signs := SignCount(s.procs, id);
    OpenCount(s.xhrs, id) +
    if Find(s.items, id).None? then 0 else if Wanted(s, id) then signs else if signs > 0 then signs - 1 else 0
  }

  lemma SignAtAnotherId(s: State, p: nat, result: Result<int, Thrown>, id: nat)
    requires p < |s.procs| && s.procs[p].pc.AwaitSign? && s.procs[p].id != id
    ensures Reachable(SignSettles(s, p, result), id) == Reachable(s, id)
  {
    var r, other := SignSettles(s, p, result), s.procs[p].id;
    SignShape(s, p, result);
    SignCountUpdate(s.procs, p, r.procs[p], id);
    SignLeavesOthers(s, p, result, id);
    hide SignSettles, Find;
    OpenCountAppend(s.xhrs, Xhr(other, None), id);
  }

  lemma SignLeavesOthers(s: State, p: nat, result: Result<int, Thrown>, id: nat)
    requires p < |s.procs| && s.procs[p].pc.AwaitSign? && s.procs[p].id != id
    ensures var r := SignSettles(s, p, result);
            Find(r.items, id) == Find(s.items, id) && (r.xhrs == s.xhrs || r.xhrs == s.xhrs + [Xhr(s.procs[p].id, None)])
  {
    var other := s.procs[p].id;
    match result
    case Err(e) => FindElsewhere(s.items, other, ToError(Failed, MapError(e, SignFailed)), id);
    case Ok(fileId) =>
      var t := Merge(s, other, WithFileId(fileId));
      FindElsewhere(s.items, other, WithFileId(fileId), id);
      FindElsewhere(t.items, other, ToUploading(if s.procs[p].resume then s.procs[p].progress else 0), id);
  }

  /** What a returning `sign` call does to its own item. */
  lemma SignAtOwnId(s: State, p: nat, result: Result<int, Thrown>)
    requires p < |s.procs| && s.procs[p].pc.AwaitSign?
    ensures var r, id := SignSettles(s, p, result), s.procs[p].id;
            && Find(r.items, id).Some? == Find(s.items, id).Some?
            && (if result.Ok? then
                  && r.xhrs == (if Wanted(s, id) then s.xhrs + [Xhr(id, None)] else s.xhrs)
                  && Wanted(r, id) == Wanted(s, id)
                else r.xhrs == s.xhrs && Wanted(r, id) == Find(s.items, id).Some?)
  {
    var id := s.procs[p].id;
    match result
    case Err(e) => FindUpdated(s.items, id, ToError(Failed, MapError(e, SignFailed)));
    case Ok(fileId) =>
      SignOpensExactlyIfWanted(s, p, fileId);
      FindUpdated(s.items, id, WithFileId(fileId));
      var t := Merge(s, id, WithFileId(fileId));
      FindUpdated(t.items, id, ToUploading(if s.procs[p].resume then s.procs[p].progress else 0));
  }

  lemma SignReaches(s: State, p: nat, result: Result<int, Thrown>, id: nat)
    requires p < |s.procs| && s.procs[p].pc.AwaitSign?
    ensures Reachable(SignSettles(s, p, result), id) <= Reachable(s, id)
    ensures s.procs[p].id == id && (result.Ok? <==> Wanted(s, id)) ==>
              Reachable(SignSettles(s, p, result), id) == Reachable(s, id)
    ensures s.procs[p].id == id ==> SignCount(SignSettles(s, p, result).procs, id) == SignCount(s.procs, id) - 1
  {
    if s.procs[p].id == id {
      var r := SignSettles(s, p, result);
      SignShape(s, p, result);
      SignAtOwnId(s, p, result);
      hide SignSettles, Find;
      SignCountUpdate(s.procs, p, r.procs[p], id);
      OpenCountAppend(s.xhrs, Xhr(id, None), id);
    } else {
      SignAtAnotherId(s, p, result, id);
    }
  }

  lemma {:induction false} PathReaches(s: State, path: seq<State>, k: nat, id: nat)
    requires SignPath(s, path) && k < |path|
    ensures Reachable(path[k], id) <= Reachable(s, id)
  {
    hide Reachable, SignSettles;
    if k > 0 {
      PathReaches(s, path, k - 1, id);
      assert SignNext(path[k - 1], path[k - 1 + 1]);
      var p: nat, result :| p < |path[k - 1].procs| && path[k - 1].procs[p].pc.AwaitSign?
                            && path[k] == SignSettles(path[k - 1], p, result);
      SignReaches(path[k - 1], p, result, id);
    }
  }

  /** Letting them all return, the first with an error if the item is canceled, opens as many. */
  lemma {:induction false} AllReturn(s: State, id: nat) returns (path: seq<State>)
    requires Reachable(s, id) >= 2
    ensures SignPath(s, path) && TwoOpen(path[|path| - 1], id)
    decreases SignCount(s.procs, id)
  {
    TwoOpenIsCounted(s, id);
    hide TwoOpen, SignSettles;
    if OpenCount(s.xhrs, id) >= 2 {
      path := [s];
    } else {
      var p := CountedSignIsOut(s.procs, id);
      var result := if Wanted(s, id) then Ok(0) else Err(Thrown.Thrown(None, None));
      SignReaches(s, p, result, id);
      hide Reachable;
      var rest := AllReturn(SignSettles(s, p, result), id);
      path := [s] + rest;
      PathFromStep(s, p, result, rest);
    }
  }

  lemma PathFromStep(s: State, p: nat, result: Result<int, Thrown>, rest: seq<State>)
    requires p < |s.procs| && s.procs[p].pc.AwaitSign? && SignPath(SignSettles(s, p, result), rest)
    ensures SignPath(s, [s] + rest)
  {
    hide SignSettles;
    var path := [s] + rest;
    forall i | 0 <= i < |path| - 1 ensures SignNext(path[i], path[i + 1]) {
      assert i > 0 ==> SignNext(rest[i - 1], rest[i - 1 + 1]);
    }
  }

  lemma DoublesExactly(s: State, id: nat)
    ensures Doubles(s, id) <==> Reachable(s, id) >= 2
  {
    if Reachable(s, id) >= 2 {
      var path := AllReturn(s, id);
    }
    forall path | SignPath(s, path) && TwoOpen(path[|path| - 1], id) ensures Reachable(s, id) >= 2 {
      var last := path[|path| - 1];
      PathReaches(s, path, |path| - 1, id);
      TwoOpenIsCounted(last, id);
      assert Reachable(last, id) >= OpenCount(last.xhrs, id);
    }
  }

  // ----- exactly which retry comes too early -----

  /** With a descriptor at hand, the retry of a canceled item gives up at once. */
  predicate RetryIsIdle(s: State, id: nat)
    requires Find(s.items, id).Some?
  {
    var it := Find(s.items, id).value;
    it.fileId.Some? && id in s.descriptors && it.status == Status.Canceled
  }

  lemma RetryReaches(s: State, id: nat)
    requires Find(s.items, id).Some? && IsRetryable(Find(s.items, id).value)
    ensures Reachable(Retry(s, id), id) ==
            if RetryIsIdle(s, id) then Reachable(s, id) else OpenCount(s.xhrs, id) + SignCount(s.procs, id) + 1
  {
    RetryEffect(s, id);
    RetryAddsCall(s, id);
    var r := Retry(s, id);
    hide Retry, IsRetryable, Find;
    SignCountAppend(s.procs, r.procs[|s.procs|], id);
    OpenCountAppend(s.xhrs, Xhr(id, None), id);
  }

  lemma RetryAddsCall(s: State, id: nat)
    requires Find(s.items, id).Some? && IsRetryable(Find(s.items, id).value)
    ensures var r, it := Retry(s, id), Find(s.items, id).value;
            && |r.procs| == |s.procs| + 1 && r.procs == s.procs + [r.procs[|s.procs|]]
            && (Signs(r.procs[|s.procs|], id) <==> !(it.fileId.Some? && id in s.descriptors))
  {
  }

  /**
   * Retrying a retryable item leads, through returning `sign` calls alone, to two open XHRs of it if and
   * only if it has an open XHR or a `sign` call out already; where the retry gives up at once, it takes
   * as many as would do without it.
   */
  lemma RetryDoublesExactly(s: State, id: nat)
    requires Find(s.items, id).Some? && IsRetryable(Find(s.items, id).value)
    ensures Doubles(Retry(s, id), id) <==>
            var open, signs := OpenCount(s.xhrs, id), SignCount(s.procs, id);
            if RetryIsIdle(s, id) then open + (if signs > 0 then signs - 1 else 0) >= 2 else open + signs >= 1
  {
    RetryReaches(s, id);
    DoublesExactly(Retry(s, id), id);
    hide Retry, IsRetryable, Doubles, OpenCount, SignCount;
  }

  /** In a run without such a retry before, the next one is the first that doubles. */
  lemma FirstRetryDoublesExactly(trace: seq<State>, k: nat, id: nat)
    requires Run(trace, true) && k < |trace|
    requires Find(trace[k].items, id).Some? && IsRetryable(Find(trace[k].items, id).value)
    ensures Doubles(Retry(trace[k], id), id) <==> !NoSignOut(trace[k], id)
  {
    var s := trace[k];
    PatientRunKeeps(trace, k);
    SoleHasOneOpen(s, id);
    TwoOpenIsCounted(s, id);
    hide Retry, Doubles, TwoOpen;
    RetryDoublesExactly(s, id);
    if !NoSignOut(s, id) {
      var p :| 0 <= p < |s.procs| && s.procs[p].id == id && s.procs[p].pc.AwaitSign?;
      OutSignIsCounted(s.procs, p, id);
      SigningIsNotIdle(s, p);
    } else {
      if SignCount(s.procs, id) >= 1 {
        var p := CountedSignIsOut(s.procs, id);
      }
      if OpenCount(s.xhrs, id) >= 1 {
        var x := CountedXhrIsOpen(s.xhrs, id);
        UploadingIsIdle(s, x);
      }
    }
  }

  lemma SigningIsNotIdle(s: State, p: nat)
    requires StagesOk(s) && p < |s.procs| && s.procs[p].pc.AwaitSign? && Find(s.items, s.procs[p].id).Some?
    ensures !RetryIsIdle(s, s.procs[p].id)
  {
    var id := s.procs[p].id;
    FoundIsItem(s.items, id);
    var i :| 0 <= i < |s.items| && s.items[i] == Find(s.items, id).value;
    assert StageOk(s.descriptors, s.items[i], s.procs[p]);
  }

  lemma UploadingIsIdle(s: State, x: nat)
    requires StagesOk(s) && Sole(s) && x < |s.xhrs| && s.xhrs[x].outcome.None? && ProcsOk(s)
    requires Find(s.items, s.xhrs[x].id).Some? && IsRetryable(Find(s.items, s.xhrs[x].id).value)
    ensures RetryIsIdle(s, s.xhrs[x].id)
  {
    var id := s.xhrs[x].id;
    FoundIsItem(s.items, id);
    var i :| 0 <= i < |s.items| && s.items[i] == Find(s.items, id).value;
    assert Reached(s, x);
    var p: nat :| Waits(s.procs, p, x);
    assert ProcOk(s, s.procs[p]);
    assert StageOk(s.descriptors, s.items[i], s.procs[p]);
  }
}
