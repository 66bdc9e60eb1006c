/** Whether the user's actions stop every upload, and exactly which uploads still start after unmounting. */
module UploadStops {
  import opened Wrappers
  import opened Upload
  import opened UploadInvariants
  import opened UploadRuns
  import opened UploadXhrs
  import opened UploadSole
  import opened UploadStages

  /**
   * When no item is retried while `sign` is out for it, an item has at most one open XHR, `cancel` and
   * `remove` leave it none, and `reset` and unmounting leave none at all.
   */
  lemma UploadsCanBeStopped(trace: seq<State>, k: nat, id: nat)
    requires Run(trace, true) && k < |trace|
    ensures var s := trace[k];
            && !TwoOpen(s, id)
            && NoneOpen(Cancel(s, id), id) && NoneOpen(Remove(s, id), id)
            && NoneOpen(Reset(s), id) && NoneOpen(Unmount(s), id)
  {
    PatientRunKeeps(trace, k);
    var s := trace[k];
    SoleHasOneOpen(s, id);
    CancelSole(s, id);
    RemoveSole(s, id);
    StopAllSole(s);
  }

  /** Two XHRs of the item are open at once. */
  ghost predicate TwoOpen(s: State, id: nat) {
    exists x, y :: 0 <= x < y < |s.xhrs| && OpenFor(s, x, id) && OpenFor(s, y, id)
  }

  predicate OpenFor(s: State, x: nat, id: nat) {
    x < |s.xhrs| && s.xhrs[x] == Xhr(id, None)
  }

  lemma SoleHasOneOpen(s: State, id: nat)
    requires Sole(s)
    ensures !TwoOpen(s, id)
  {
    forall x, y | 0 <= x < y < |s.xhrs| ensures !(OpenFor(s, x, id) && OpenFor(s, y, id)) {
      assert s.xhrs[x].outcome.None? ==> Reached(s, x);
      assert s.xhrs[y].outcome.None? ==> Reached(s, y);
    }
  }

  // ----- exactly what is still uploaded after unmounting -----

  /** What the call waits for may yet take its item out of the canceled state. */
  predicate Revives(xhrs: seq<Xhr>, proc: Proc) {
    match proc.pc
    case AwaitSign => true
    case AwaitXhr(x, _) => x < |xhrs| && xhrs[x].outcome != Some(Aborted)
    case AwaitComplete(_) => true
    case _ => false
  }

  /** Another call for the same item does. */
  ghost predicate OtherRevives(s: State, p: nat, q: nat) {
    p < |s.procs| && q < |s.procs| && q != p && s.procs[q].id == s.procs[p].id && Revives(s.xhrs, s.procs[q])
  }

  /** `sign` is out for an item that is present, and that is not canceled or may not remain so. */
  ghost predicate MayOpen(s: State, p: nat) {
    && p < |s.procs| && s.procs[p].pc.AwaitSign? && Find(s.items, s.procs[p].id).Some?
    && (Wanted(s, s.procs[p].id) || exists q :: OtherRevives(s, p, q))
  }

  ghost predicate SomeMayOpen(s: State) {
    exists p :: MayOpen(s, p)
  }

  /** A continuation of a run, from one of its states. */
  ghost predicate Continues(s: State, path: seq<State>) {
    path != [] && path[0] == s && forall i :: 0 <= i < |path| - 1 ==> Next(path[i], path[i + 1], false)
  }

  /** Some continuation opens another XHR. */
  ghost predicate StillUploads(s: State) {
    exists path: seq<State> :: Continues(s, path) && |path[|path| - 1].xhrs| > |s.xhrs|
  }

  // No settling step makes such a call, and only such a call opens an XHR.

  lemma {:induction false} FindElsewhere(items: seq<Item>, id: nat, patch: Patch, other: nat)
    requires other != id
    ensures Find(Update(items, id, patch), other) == Find(items, other)
  {
    if items != [] {
      assert Update(items, id, patch)[1..] == Update(items[1..], id, patch);
      FindElsewhere(items[1..], id, patch, other);
      assert Patched(items[0], patch).id == items[0].id;
    }
  }

  /** One call moves on, beyond `sign`, and patches its item: it was one that revives, or it leaves the item canceled. */
  ghost predicate MovesOn(s: State, r: State, p: nat, patch: Patch) {
    && p < |s.procs| && r.xhrs == s.xhrs && r.items == Update(s.items, s.procs[p].id, patch)
    && |r.procs| == |s.procs| && r.procs == s.procs[p := s.procs[p].(pc := r.procs[p].pc)] && !r.procs[p].pc.AwaitSign?
    && (Revives(s.xhrs, s.procs[p]) || (r.procs[p].pc.Ended? && patch.ToError? && patch.status == Status.Canceled))
  }

  lemma MayOpenBefore(s: State, r: State, p: nat, patch: Patch, k: nat)
    requires MovesOn(s, r, p, patch) && MayOpen(r, k)
    ensures MayOpen(s, k)
  {
    var id, other := s.procs[p].id, s.procs[k].id;
    FindUpdated(s.items, id, patch);
    if other != id {
      FindElsewhere(s.items, id, patch, other);
    }
    if other == id && Revives(s.xhrs, s.procs[p]) {
      assert OtherRevives(s, k, p);
    } else if !Wanted(s, other) {
      var q :| OtherRevives(r, k, q);
      assert OtherRevives(s, k, q);
    }
  }

  lemma SomeMayOpenBefore(s: State, r: State, p: nat, patch: Patch)
    requires MovesOn(s, r, p, patch)
    ensures SomeMayOpen(r) ==> SomeMayOpen(s)
  {
    hide MovesOn, MayOpen;
    if SomeMayOpen(r) {
      var k: nat :| MayOpen(r, k);
      MayOpenBefore(s, r, p, patch, k);
    }
  }

  /** Where the items' presence, their being wanted and the calls' chances are as before, nothing is new. */
  lemma SameChances(s: State, r: State)
    requires r.procs == s.procs && forall p :: 0 <= p < |s.procs| ==> Revives(r.xhrs, s.procs[p]) == Revives(s.xhrs, s.procs[p])
    requires forall id :: Find(r.items, id).Some? == Find(s.items, id).Some? && Wanted(r, id) == Wanted(s, id)
    ensures SomeMayOpen(r) ==> SomeMayOpen(s)
  {
    if SomeMayOpen(r) {
      var p: nat :| MayOpen(r, p);
      if !Wanted(r, r.procs[p].id) {
        var q :| OtherRevives(r, p, q);
        assert OtherRevives(s, p, q);
      }
      assert MayOpen(s, p);
    }
  }

  lemma SignGivesNoChance(s: State, p: nat, result: Result<int, Thrown>)
    requires p < |s.procs| && s.procs[p].pc.AwaitSign?
    ensures var r := SignSettles(s, p, result);
            (SomeMayOpen(r) || |r.xhrs| > |s.xhrs| ==> SomeMayOpen(s)) && r.mounted == s.mounted
  {
    var r, id := SignSettles(s, p, result), s.procs[p].id;
    SignShape(s, p, result);
    if Wanted(s, id) {
      assert MayOpen(s, p);
    } else {
      match result
      case Err(e) => SomeMayOpenBefore(s, r, p, ToError(Failed, MapError(e, SignFailed)));
      case Ok(fileId) =>
        SignOpensExactlyIfWanted(s, p, fileId);
        FindUpdated(s.items, id, WithFileId(fileId));
        assert r.items == Update(s.items, id, WithFileId(fileId));
        SomeMayOpenBefore(s, r, p, WithFileId(fileId));
    }
  }

  lemma UploadGivesNoChance(s: State, p: nat)
    requires Enabled(s, UploadReturns(p))
    ensures var r := UploadSettles(s, p); (SomeMayOpen(r) ==> SomeMayOpen(s)) && r.xhrs == s.xhrs && r.mounted == s.mounted
  {
    var proc, r := s.procs[p], UploadSettles(s, p);
    var outcome := s.xhrs[proc.pc.xhr].outcome.value;
    var patch :=
      if !Succeeded(outcome) then ToError(if CodeOf(outcome) == Code.Canceled then Status.Canceled else Failed, CodeOf(outcome))
      else if proc.hasComplete then ToCompleting else ToDone;
    assert r.items == Update(s.items, proc.id, patch);
    SomeMayOpenBefore(s, r, p, patch);
  }

  lemma CompleteGivesNoChance(s: State, p: nat, thrown: Option<Thrown>)
    requires p < |s.procs| && s.procs[p].pc.AwaitComplete?
    ensures var r := CompleteSettles(s, p, thrown);
            (SomeMayOpen(r) ==> SomeMayOpen(s)) && r.xhrs == s.xhrs && r.mounted == s.mounted
  {
    var patch := if thrown.Some? then ToError(Failed, MapError(thrown.value, MimeMismatch)) else ToDone;
    SomeMayOpenBefore(s, CompleteSettles(s, p, thrown), p, patch);
  }

  lemma ProgressGivesNoChance(s: State, id: nat, progress: int)
    ensures SomeMayOpen(Merge(s, id, WithProgress(progress))) ==> SomeMayOpen(s)
  {
    var r := Merge(s, id, WithProgress(progress));
    FindUpdated(s.items, id, WithProgress(progress));
    forall other | other != id ensures Find(r.items, other) == Find(s.items, other) {
      FindElsewhere(s.items, id, WithProgress(progress), other);
    }
    SameChances(s, r);
  }

  lemma SettlingGivesNoChance(s: State, step: Step)
    requires Enabled(s, step) && !IsAction(step)
    ensures var r := Apply(s, step);
            (SomeMayOpen(r) || |r.xhrs| > |s.xhrs| ==> SomeMayOpen(s)) && |r.xhrs| >= |s.xhrs| && r.mounted == s.mounted
  {
    hide SomeMayOpen;
    OpensOnlyForWantedItems(s, step);
    match step
    case SignReturns(p, result) => SignGivesNoChance(s, p, result);
    case UploadReturns(p) => UploadGivesNoChance(s, p);
    case CompleteReturns(p, thrown) => CompleteGivesNoChance(s, p, thrown);
    case XhrFires(x, outcome) => SameChances(s, Apply(s, step));
    case XhrProgress(x, loaded, total) =>
      if total > 0 {
        ProgressGivesNoChance(s, s.xhrs[x].id, Percent(loaded, total));
      }
  }

  lemma {:induction false} PathGivesNoChance(s: State, path: seq<State>, k: nat)
    requires !s.mounted && Continues(s, path) && k < |path|
    ensures (SomeMayOpen(path[k]) || |path[k].xhrs| > |s.xhrs| ==> SomeMayOpen(s)) && !path[k].mounted
  {
    hide SomeMayOpen, Apply;
    if k > 0 {
      PathGivesNoChance(s, path, k - 1);
      assert Next(path[k - 1], path[k - 1 + 1], false);
      var step :| Enabled(path[k - 1], step) && path[k] == Apply(path[k - 1], step);
      SettlingGivesNoChance(path[k - 1], step);
    }
  }

  // And such a call can be made to open one.

  lemma Goes(s: State, path: seq<State>, step: Step) returns (longer: seq<State>)
    requires Continues(s, path) && Enabled(path[|path| - 1], step)
    ensures Continues(s, longer) && longer == path + [Apply(path[|path| - 1], step)]
  {
    hide Apply;
    longer := path + [Apply(path[|path| - 1], step)];
    forall i | 0 <= i < |longer| - 1 ensures Next(longer[i], longer[i + 1], false) {
      assert i < |path| - 1 ==> Next(path[i], path[i + 1], false);
    }
  }

  /** A `sign` that throws, a `complete` or an upload that returns. */
  function RevivingStep(q: nat, pc: Pc): Step {
    match pc
    case AwaitSign => SignReturns(q, Err(Thrown.Thrown(None, None)))
    case AwaitComplete(_) => CompleteReturns(q, None)
    case _ => UploadReturns(q)
  }

  /** What a revived item's call leaves as it was. */
  ghost predicate RevivedBy(s: State, r: State, p: nat)
    requires p < |s.procs|
  {
    r.xhrs == s.xhrs && |r.procs| == |s.procs| && r.procs[p] == s.procs[p] && Wanted(r, s.procs[p].id)
  }

  lemma PatchRevives(s: State, r: State, p: nat, q: nat, patch: Patch)
    requires OtherRevives(s, p, q) && Find(s.items, s.procs[p].id).Some?
    requires r.xhrs == s.xhrs && |r.procs| == |s.procs| && r.procs == s.procs[q := s.procs[q].(pc := r.procs[q].pc)]
    requires r.items == Update(s.items, s.procs[q].id, patch)
    requires patch in {ToCompleting, ToDone} || (patch.ToError? && patch.status == Failed)
    ensures RevivedBy(s, r, p)
  {
    FindUpdated(s.items, s.procs[p].id, patch);
    hide Update, Find;
  }

  lemma RevivedByStep(s: State, p: nat, q: nat)
    requires OtherRevives(s, p, q) && Find(s.items, s.procs[p].id).Some?
    requires s.procs[q].pc.AwaitXhr? ==> s.xhrs[s.procs[q].pc.xhr].outcome.Some?
    ensures Enabled(s, RevivingStep(q, s.procs[q].pc))
    ensures RevivedBy(s, Apply(s, RevivingStep(q, s.procs[q].pc)), p)
  {
    hide Update, Find, RevivedBy;
    var r := Apply(s, RevivingStep(q, s.procs[q].pc));
    match s.procs[q].pc
    case AwaitSign => PatchRevives(s, r, p, q, ToError(Failed, MapError(Thrown.Thrown(None, None), SignFailed)));
    case AwaitComplete(_) => PatchRevives(s, r, p, q, ToDone);
    case AwaitXhr(x, _) =>
      var outcome := s.xhrs[x].outcome.value;
      PatchRevives(s, r, p, q, if !Succeeded(outcome) then ToError(Failed, CodeOf(outcome))
                               else if s.procs[q].hasComplete then ToCompleting else ToDone);
  }

  lemma RevivedByPath(s: State, p: nat, q: nat) returns (path: seq<State>)
    requires OtherRevives(s, p, q) && Find(s.items, s.procs[p].id).Some?
    ensures Continues(s, path)
    ensures var r := path[|path| - 1];
            |r.xhrs| == |s.xhrs| && |r.procs| == |s.procs| && r.procs[p] == s.procs[p] && Wanted(r, s.procs[p].id)
  {
    hide Wanted, Find, SignSettles, UploadSettles, CompleteSettles;
    path := [s];
    if s.procs[q].pc.AwaitXhr? && s.xhrs[s.procs[q].pc.xhr].outcome.None? {
      path := Goes(s, path, XhrFires(s.procs[q].pc.xhr, Broken));
    }
    var t := path[|path| - 1];
    assert OtherRevives(t, p, q);
    RevivedByStep(t, p, q);
    path := Goes(s, path, RevivingStep(q, t.procs[q].pc));
  }

  lemma OpensAtLast(s: State, p: nat) returns (path: seq<State>)
    requires MayOpen(s, p)
    ensures Continues(s, path) && |path[|path| - 1].xhrs| > |s.xhrs|
  {
    path := [s];
    if !Wanted(s, s.procs[p].id) {
      var q :| OtherRevives(s, p, q);
      path := RevivedByPath(s, p, q);
    }
    hide Continues, Wanted, OtherRevives, SignSettles;
    SignOpensExactlyIfWanted(path[|path| - 1], p, 0);
    path := Goes(s, path, SignReturns(p, Ok(0)));
  }

  /**
   * After unmounting, some continuation still opens an XHR if and only if a `sign` call is out for an
   * item that is present, and that is not canceled or that another call of it may yet revive.
   */
  lemma UploadsAfterUnmountExactly(s: State)
    requires !s.mounted
    ensures StillUploads(s) <==> SomeMayOpen(s)
  {
    if SomeMayOpen(s) {
      var p: nat :| MayOpen(s, p);
      hide MayOpen;
      var path := OpensAtLast(s, p);
    }
    hide SomeMayOpen;
    forall path: seq<State> | Continues(s, path) && |path[|path| - 1].xhrs| > |s.xhrs| ensures SomeMayOpen(s) {
      PathGivesNoChance(s, path, |path| - 1);
    }
  }

  /** When no item is retried while its `sign` is out, no call has another one to revive its item. */
  lemma PatientUploadsAfterUnmount(trace: seq<State>, k: nat)
    requires Run(trace, true) && k < |trace| && !trace[k].mounted
    ensures var s := trace[k];
            StillUploads(s) <==> exists p :: 0 <= p < |s.procs| && s.procs[p].pc.AwaitSign? && Wanted(s, s.procs[p].id)
  {
    var s := trace[k];
    PatientRunKeeps(trace, k);
    SoleIsOneLive(s);
    hide Inv, Sole, StagesOk;
    UploadsAfterUnmountExactly(s);
    forall p: nat | MayOpen(s, p) ensures Wanted(s, s.procs[p].id) {
      assert forall q :: !OtherRevives(s, p, q);
    }
    forall p | 0 <= p < |s.procs| && s.procs[p].pc.AwaitSign? && Wanted(s, s.procs[p].id) ensures MayOpen(s, p) {
    }
  }

  lemma SoleIsOneLive(s: State)
    requires Sole(s)
    ensures OneLive(s.procs)
  {
  }

  // ----- two runs that show it -----

  lemma Extended(trace: seq<State>, step: Step) returns (longer: seq<State>)
    requires Run(trace, false) && Enabled(trace[|trace| - 1], step)
    ensures Run(longer, false) && longer == trace + [Apply(trace[|trace| - 1], step)]
  {
    longer := trace + [Apply(trace[|trace| - 1], step)];
    forall i | 0 <= i < |longer| - 1 ensures Next(longer[i], longer[i + 1], false) {
      assert i < |trace| - 1 ==> Next(trace[i], trace[i + 1], false);
    }
  }

  const PLAIN := Options(false, true, false, [], 0, None, false)

  /** One file was added, and its `sign` call is out. */
  function OneSigning(): State {
    Initial(PLAIN).(
      items := [Item(0, File(1, ""), None, Signing, 0, None, None)],
      procs := [Proc(0, false, 0, false, AwaitSign)], nextId := 1, signed := {0})
  }

  lemma OneFileAdded() returns (trace: seq<State>)
    ensures Run(trace, false) && trace[|trace| - 1] == OneSigning()
  {
    var s := Initial(PLAIN);
    var files := [File(1, "")];
    var it := Item(0, File(1, ""), None, Idle, 0, None, None);
    assert files[..Room(s.opts, 0, 1)] == files && CreateAll(PLAIN, files, 0, 0) == [it];
    var t := s.(items := [it], nextId := 1);
    assert Rejected([it]) == {};
    assert Insert(s, files) == t;
    assert Find([it], 0) == Some(it);
    assert Start(t, 0, false) == OneSigning();
    assert StartAll(t, [it]) == StartAll(OneSigning(), [it][1..]) == OneSigning();
    trace := Extended([s], Adding(files));
  }

  /** Canceled and retried meanwhile: the item is signing again, with two calls out. */
  lemma RetriedAtOnce() returns (trace: seq<State>)
    ensures Run(trace, false)
    ensures trace[|trace| - 1] == OneSigning().(procs := OneSigning().procs + OneSigning().procs)
  {
    trace := OneFileAdded();
    trace := Extended(trace, Canceling(0));
    var canceled := trace[|trace| - 1];
    assert Find(canceled.items, 0) == Some(Item(0, File(1, ""), None, Status.Canceled, 0, None, Some(Code.Canceled)));
    trace := Extended(trace, Retrying(0));
  }

  lemma FirstSigned() returns (trace: seq<State>)
    ensures Run(trace, false)
    ensures var s := trace[|trace| - 1];
            && s.xhrs == [Xhr(0, None)] && Wanted(s, 0)
            && |s.procs| == 2 && s.procs[1] == Proc(0, false, 0, false, AwaitSign)
  {
    trace := RetriedAtOnce();
    var s := trace[|trace| - 1];
    assert Find(s.items, 0) == Some(s.items[0]);
    hide Run, Find;
    SignOpensExactlyIfWanted(s, 0, 7);
    assert |SignSettles(s, 0, Ok(7)).procs| == 2 && SignSettles(s, 0, Ok(7)).procs[1] == s.procs[1];
    trace := Extended(trace, SignReturns(0, Ok(7)));
  }

  lemma BothSigned() returns (trace: seq<State>)
    ensures Run(trace, false)
    ensures trace[|trace| - 1].xhrs == [Xhr(0, None), Xhr(0, None)] && trace[|trace| - 1].xhrMap == map[0 := 1]
  {
    trace := FirstSigned();
    var s := trace[|trace| - 1];
    RunKeeps(trace, false, |trace| - 1);
    assert forall id :: id in s.xhrMap ==> TrackedOk(s, id);
    assert s.xhrMap[0 := 1] == map[0 := 1];
    hide Run, Inv, SignSettles, Find;
    SignOpensExactlyIfWanted(s, 1, 8);
    SignTracks(s, 1, 8);
    trace := Extended(trace, SignReturns(1, Ok(8)));
  }

  lemma SignTracks(s: State, p: nat, fileId: int)
    requires p < |s.procs| && s.procs[p].pc.AwaitSign? && Wanted(s, s.procs[p].id)
    ensures SignSettles(s, p, Ok(fileId)).xhrMap == s.xhrMap[s.procs[p].id := |s.xhrs|]
  {
    FindUpdated(s.items, s.procs[p].id, WithFileId(fileId));
    hide Update, Find;
  }

  /**
   * Canceled while `sign` is out and retried at once, an item is uploaded twice, and neither
   * canceling, removing, resetting nor unmounting stops the first of the two XHRs.
   */
  lemma EarlyRetryUploadsTwice() returns (trace: seq<State>)
    ensures Run(trace, false)
    ensures var s := trace[|trace| - 1];
            && s.xhrs == [Xhr(0, None), Xhr(0, None)]
            && !NoneOpen(Cancel(s, 0), 0) && !NoneOpen(Remove(s, 0), 0) && !NoneOpen(Reset(s), 0) && !NoneOpen(Unmount(s), 0)
  {
    trace := BothSigned();
    var s := trace[|trace| - 1];
    assert AbortOf(s, 0).xhrs[0] == AbortAll(s).xhrs[0] == Xhr(0, None);
    assert !NoneOpen(AbortOf(s, 0), 0) && !NoneOpen(AbortAll(s), 0);
  }

  /** An upload whose `sign` returns after unmounting is still sent. */
  lemma UnmountMidSignStillUploads() returns (trace: seq<State>)
    ensures Run(trace, false)
    ensures !trace[|trace| - 1].mounted && trace[|trace| - 1].xhrs == [Xhr(0, None)]
  {
    trace := OneFileAdded();
    trace := Extended(trace, Unmounting);
    SignOpensExactlyIfWanted(trace[|trace| - 1], 0, 7);
    trace := Extended(trace, SignReturns(0, Ok(7)));
  }
}
