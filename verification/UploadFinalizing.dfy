/** Over every run: each call of `process` calls `complete` at most once, and nothing is done before it came back. */
module UploadFinalizing {
  import opened Wrappers
  import opened Upload
  import opened UploadItems
  import opened UploadOutcomes

  /** The `complete` calls of the `p`-th call of `process`. */
  function CallsOf(log: seq<Finalizing>, p: nat): seq<Finalizing> {
    if log == [] then []
    else CallsOf(log[..|log| - 1], p) + if log[|log| - 1].p == p then [log[|log| - 1]] else []
  }

  lemma OneMoreCall(log: seq<Finalizing>, e: Finalizing, p: nat)
    ensures CallsOf(log + [e], p) == CallsOf(log, p) + if e.p == p then [e] else []
  {
    assert (log + [e])[..|log|] == log;
  }

  /** Nothing was finalized yet: `sign` or the XHR is still ahead. */
  predicate Early(pc: Pc) {
    pc.AwaitSign? || pc.HasDescriptor? || pc.AwaitXhr?
  }

  /** A call has called `complete` as often as where it stands says: not yet, or once, or once and back. */
  ghost predicate LogAt(log: seq<Finalizing>, proc: Proc, p: nat) {
    var calls := CallsOf(log, p);
    match proc.pc
    case AwaitComplete(fileId) => calls == [Called(p, fileId)] && proc.hasComplete
    case Ended => calls == [] || (exists fileId, thrown :: calls == [Called(p, fileId), Returned(p, thrown)])
    case _ => calls == []
  }

  ghost predicate LogOk(s: State) {
    && (forall p :: 0 <= p < |s.procs| ==> LogAt(s.finalizing, s.procs[p], p))
    && (forall p: nat :: p >= |s.procs| ==> CallsOf(s.finalizing, p) == [])
  }

  /** The call has ended, and with `complete` it ended after that had returned without throwing. */
  ghost predicate Finished(s: State, p: nat) {
    && p < |s.procs| && s.procs[p].pc.Ended?
    && (s.procs[p].hasComplete ==> exists fileId :: CallsOf(s.finalizing, p) == [Called(p, fileId), Returned(p, None)])
  }

  ghost predicate DoneAfter(s: State, id: nat) {
    exists p: nat :: Finished(s, p) && s.procs[p].id == id
  }

  ghost predicate DonesOk(s: State) {
    forall i :: 0 <= i < |s.items| && s.items[i].status == Done ==> DoneAfter(s, s.items[i].id)
  }

  ghost predicate Final(s: State) {
    LogOk(s) && DonesOk(s)
  }

  // ----- steps that finalize nothing -----

  /** Calls only go on towards their XHR or end, new ones are not beyond it, and no item becomes done. */
  ghost predicate Advances(s: State, r: State) {
    && r.finalizing == s.finalizing && |r.procs| >= |s.procs|
    && (forall p :: 0 <= p < |s.procs| ==>
          && r.procs[p].id == s.procs[p].id && r.procs[p].hasComplete == s.procs[p].hasComplete
          && (if Early(s.procs[p].pc) then Early(r.procs[p].pc) || r.procs[p].pc.Ended? else r.procs[p].pc == s.procs[p].pc))
    && (forall p :: |s.procs| <= p < |r.procs| ==> Early(r.procs[p].pc) || r.procs[p].pc.Ended?)
    && (forall it :: it in r.items && it.status == Done ==> exists was :: was in s.items && was.status == Done && was.id == it.id)
  }

  lemma AdvancesKeeps(s: State, r: State)
    requires Final(s) && Advances(s, r)
    ensures Final(r)
  {
    forall p | 0 <= p < |r.procs| ensures LogAt(r.finalizing, r.procs[p], p) {
      assert p < |s.procs| ==> LogAt(s.finalizing, s.procs[p], p);
      assert p >= |s.procs| ==> CallsOf(s.finalizing, p) == [];
    }
    forall i | 0 <= i < |r.items| && r.items[i].status == Done ensures DoneAfter(r, r.items[i].id) {
      assert r.items[i] in r.items;
      var was :| was in s.items && was.status == Done && was.id == r.items[i].id;
      var k :| 0 <= k < |s.items| && s.items[k] == was;
      assert DoneAfter(s, was.id);
      var p: nat :| Finished(s, p) && s.procs[p].id == was.id;
      assert Finished(r, p);
    }
  }

  lemma AdvancesOn(s: State, t: State, r: State)
    requires Advances(s, t) && Advances(t, r)
    ensures Advances(s, r)
  {
    forall it | it in r.items && it.status == Done ensures exists was :: was in s.items && was.status == Done && was.id == it.id {
      var mid :| mid in t.items && mid.status == Done && mid.id == it.id;
      var was :| was in s.items && was.status == Done && was.id == mid.id;
    }
  }

  lemma SameAdvances(s: State, r: State)
    requires r.finalizing == s.finalizing && r.procs == s.procs && forall it :: it in r.items ==> it in s.items
    ensures Advances(s, r)
  {
  }

  lemma MergeAdvances(s: State, id: nat, patch: Patch)
    requires !patch.ToDone? && (patch.ToError? ==> patch.status != Done)
    ensures Advances(s, Merge(s, id, patch))
  {
    var r := Merge(s, id, patch);
    forall it | it in r.items && it.status == Done ensures exists was :: was in s.items && was.status == Done && was.id == it.id {
      var i :| 0 <= i < |r.items| && r.items[i] == it;
      assert s.items[i] in s.items && s.items[i].status == Done && s.items[i].id == it.id;
    }
  }

  lemma MoveAdvances(s: State, p: nat, pc: Pc)
    requires p < |s.procs| && Early(s.procs[p].pc) && (Early(pc) || pc.Ended?)
    ensures Advances(s, Move(s, p, pc))
  {
  }

  lemma AppendAdvances(s: State, proc: Proc)
    requires Early(proc.pc)
    ensures Advances(s, s.(procs := s.procs + [proc]))
  {
  }

  lemma BeginAdvances(s: State, p: nat)
    requires p < |s.procs| && s.procs[p].pc.HasDescriptor?
    ensures Advances(s, BeginUpload(s, p))
  {
    var proc := s.procs[p];
    var patch := ToUploading(if proc.resume then proc.progress else 0);
    MergeAdvances(s, proc.id, patch);
    MoveAdvances(s, p, Ended);
    var t := Merge(s, proc.id, patch);
    MoveAdvances(t, p, AwaitXhr(|t.xhrs|, proc.pc.fileId));
    var u := Move(t, p, AwaitXhr(|t.xhrs|, proc.pc.fileId));
    SameAdvances(u, OpenXhr(t, p));
    hide Advances, Update;
    AdvancesOn(s, t, u);
    AdvancesOn(s, u, OpenXhr(t, p));
  }

  lemma StartAdvances(s: State, id: nat, resume: bool)
    ensures Advances(s, Start(s, id, resume))
  {
    hide Advances, BeginUpload, Update;
    if Find(s.items, id).None? {
      SelfAdvances(s);
    } else {
      var proc := Proc(id, resume, Find(s.items, id).value.progress, s.opts.hasComplete, AwaitSign);
      if resume && id in s.descriptors {
        var got := proc.(pc := HasDescriptor(s.descriptors[id]));
        AppendAdvances(s, got);
        BeginAdvances(s.(procs := s.procs + [got]), |s.procs|);
        AdvancesOn(s, s.(procs := s.procs + [got]), BeginUpload(s.(procs := s.procs + [got]), |s.procs|));
      } else {
        var t := Merge(s, id, ToSigning);
        MergeAdvances(s, id, ToSigning);
        AppendAdvances(t, proc);
        AdvancesOn(s, t, t.(procs := t.procs + [proc]));
        SignedAdvances(s, t.(procs := t.procs + [proc]), id);
      }
    }
  }

  lemma SelfAdvances(s: State)
    ensures Advances(s, s)
  {
    SameAdvances(s, s);
  }

  lemma SignedAdvances(s: State, r: State, id: nat)
    requires Advances(s, r)
    ensures Advances(s, r.(signed := s.signed + {id}))
  {
  }

  lemma {:induction false} StartAllAdvances(s: State, created: seq<Item>)
    ensures Advances(s, StartAll(s, created))
    decreases |created|
  {
    hide Advances, Start;
    if created == [] {
      SelfAdvances(s);
    } else {
      var t := if created[0].error.None? then Start(s, created[0].id, false) else s;
      StartAdvances(s, created[0].id, false);
      SelfAdvances(s);
      StartAllAdvances(t, created[1..]);
      AdvancesOn(s, t, StartAll(t, created[1..]));
    }
  }

  lemma InsertAdvances(s: State, files: seq<File>)
    ensures Advances(s, Insert(s, files))
  {
    CreatedAreFresh(s.opts, files, s.nextId, s.nextUrl);
    hide CreateAll, Held;
  }

  lemma AddFilesAdvances(s: State, files: seq<File>)
    ensures Advances(s, AddFiles(s, files))
  {
    hide Advances, StartAll, CreateAll, DropAll, Insert;
    if s.opts.disabled || files == [] {
      SelfAdvances(s);
    } else {
      var taken := files[..Room(s.opts, |s.items|, |files|)];
      var ready := Ready(s);
      DropAllReleases(s, s.items);
      SameAdvances(s, ready);
      InsertAdvances(ready, taken);
      AdvancesOn(s, ready, Insert(ready, taken));
      var created := CreateAll(s.opts, taken, s.nextId, s.nextUrl);
      StartAllAdvances(Insert(ready, taken), created);
      AdvancesOn(s, Insert(ready, taken), StartAll(Insert(ready, taken), created));
    }
  }

  lemma {:induction false} WithoutIsFewer(items: seq<Item>, id: nat)
    ensures forall it :: it in Without(items, id) ==> it in items
  {
    if items != [] {
      WithoutIsFewer(items[1..], id);
    }
  }

  lemma ActionAdvances(s: State, step: Step)
    requires Enabled(s, step) && IsAction(step)
    ensures Advances(s, Apply(s, step))
  {
    hide Advances, Start, AddFiles, Without, Update;
    match step
    case Render(_) => SameAdvances(s, Apply(s, step));
    case Adding(files) => AddFilesAdvances(s, files);
    case Retrying(id) =>
      SelfAdvances(s);
      StartAdvances(s, id, Find(s.items, id).Some? && Find(s.items, id).value.fileId.Some? && id in s.descriptors);
    case Canceling(id) =>
      MergeAdvances(s, id, CancelIfActive);
      SameAdvances(s, AbortOf(s, id));
    case Removing(id) =>
      WithoutIsFewer(s.items, id);
      SameAdvances(s, Remove(s, id));
    case Resetting => SameAdvances(s, Reset(s));
    case Unmounting => SameAdvances(s, Unmount(s));
  }

  lemma SignAdvances(s: State, p: nat, result: Result<int, Thrown>)
    requires p < |s.procs| && s.procs[p].pc.AwaitSign?
    ensures Advances(s, SignSettles(s, p, result))
  {
    var id := s.procs[p].id;
    hide Advances, Update, BeginUpload;
    match result
    case Err(e) =>
      var t := Merge(s, id, ToError(Failed, MapError(e, SignFailed)));
      MergeAdvances(s, id, ToError(Failed, MapError(e, SignFailed)));
      MoveAdvances(t, p, Ended);
      AdvancesOn(s, t, Move(t, p, Ended));
    case Ok(fileId) =>
      var t := Merge(s, id, WithFileId(fileId));
      var u := Move(t, p, HasDescriptor(fileId));
      var v := u.(descriptors := s.descriptors[id := fileId]);
      MergeAdvances(s, id, WithFileId(fileId));
      MoveAdvances(t, p, HasDescriptor(fileId));
      AdvancesOn(s, t, u);
      SameAdvances(u, v);
      AdvancesOn(s, u, v);
      BeginAdvances(v, p);
      AdvancesOn(s, v, BeginUpload(v, p));
  }

  // ----- steps that finalize something -----

  /** The calls that the log gains are those of one call of `process`. */
  lemma LogGrows(s: State, r: State, p: nat, e: Finalizing)
    requires LogOk(s) && p < |s.procs| == |r.procs| && e.p == p && GoesTo(s, r, p, r.procs[p].pc)
    requires r.finalizing == s.finalizing + [e] && LogAt(r.finalizing, r.procs[p], p)
    ensures LogOk(r)
    ensures forall q: nat :: q != p && Finished(s, q) ==> Finished(r, q)
  {
    forall q: nat | q != p ensures CallsOf(r.finalizing, q) == CallsOf(s.finalizing, q) {
      OneMoreCall(s.finalizing, e, q);
    }
    hide CallsOf;
    forall q | 0 <= q < |r.procs| ensures LogAt(r.finalizing, r.procs[q], q) {
      assert LogAt(s.finalizing, s.procs[q], q);
    }
  }

  /** Only the items of one id may have become done, and their call has finished. */
  lemma DoneAtOne(s: State, r: State, p: nat)
    requires DonesOk(s) && p < |s.procs| && p < |r.procs| && r.procs[p].id == s.procs[p].id && OthersKept(s, r, s.procs[p].id)
    requires |r.procs| == |s.procs| && forall q: nat :: q < |s.procs| && q != p ==> r.procs[q] == s.procs[q]
    requires !s.procs[p].pc.Ended? && forall q: nat :: q != p && Finished(s, q) ==> Finished(r, q)
    requires Finished(r, p) || forall i :: 0 <= i < |r.items| && s.items[i].id == s.procs[p].id ==> r.items[i].status != Done
    requires forall i :: 0 <= i < |s.items| ==> r.items[i].id == s.items[i].id
    ensures DonesOk(r)
  {
    forall i | 0 <= i < |r.items| && r.items[i].status == Done ensures DoneAfter(r, r.items[i].id) {
      if s.items[i].id == s.procs[p].id {
        assert Finished(r, p);
      } else {
        assert DoneAfter(s, s.items[i].id);
        var q: nat :| Finished(s, q) && s.procs[q].id == s.items[i].id;
        assert Finished(r, q);
      }
    }
  }

  /** An upload that comes back goes on to `complete`, or ends; then the item is done only without `complete`. */
  lemma UploadGoesOn(s: State, p: nat)
    requires Enabled(s, UploadReturns(p))
    ensures var r, proc := Apply(s, UploadReturns(p)), s.procs[p];
            && OthersKept(s, r, proc.id) && |r.procs| == |s.procs|
            && (forall i :: 0 <= i < |s.items| ==> r.items[i].id == s.items[i].id)
            && if r.procs[p].pc.AwaitComplete? then
                 && proc.hasComplete && r.finalizing == s.finalizing + [Called(p, proc.pc.fileId)]
                 && GoesTo(s, r, p, AwaitComplete(proc.pc.fileId))
                 && forall i :: 0 <= i < |r.items| && s.items[i].id == proc.id ==> r.items[i].status != Done
               else
                 && GoesTo(s, r, p, Ended) && r.finalizing == s.finalizing
                 && (proc.hasComplete ==>
                       forall i :: 0 <= i < |r.items| && s.items[i].id == proc.id ==> r.items[i].status != Done)
  {
    UploadOutcome(s, p);
    hide Apply;
  }

  lemma UploadReturnsKeeps(s: State, p: nat)
    requires Final(s) && Enabled(s, UploadReturns(p))
    ensures Final(Apply(s, UploadReturns(p)))
  {
    var r, proc := Apply(s, UploadReturns(p)), s.procs[p];
    UploadGoesOn(s, p);
    assert LogAt(s.finalizing, proc, p);
    hide LogOk, DonesOk, Apply, OthersKept;
    if r.procs[p].pc.AwaitComplete? {
      OneMoreCall(s.finalizing, Called(p, proc.pc.fileId), p);
      LogGrows(s, r, p, Called(p, proc.pc.fileId));
    } else {
      LogStays(s, r, p);
    }
    DoneAtOne(s, r, p);
  }

  lemma LogStays(s: State, r: State, p: nat)
    requires LogOk(s) && p < |s.procs| && Early(s.procs[p].pc) && GoesTo(s, r, p, Ended) && r.finalizing == s.finalizing
    ensures LogOk(r) && CallsOf(r.finalizing, p) == []
    ensures forall q: nat :: q != p && Finished(s, q) ==> Finished(r, q)
  {
    assert LogAt(s.finalizing, s.procs[p], p);
    forall q | 0 <= q < |r.procs| ensures LogAt(r.finalizing, r.procs[q], q) {
      assert LogAt(s.finalizing, s.procs[q], q);
    }
  }

  lemma CompleteReturnsKeeps(s: State, p: nat, thrown: Option<Thrown>)
    requires Final(s) && Enabled(s, CompleteReturns(p, thrown))
    ensures Final(Apply(s, CompleteReturns(p, thrown)))
  {
    var r, proc := Apply(s, CompleteReturns(p, thrown)), s.procs[p];
    var code := CompleteOutcome(s, p, thrown);
    assert LogAt(s.finalizing, proc, p);
    hide LogOk, DonesOk, Apply;
    OneMoreCall(s.finalizing, Returned(p, thrown), p);
    assert CallsOf(r.finalizing, p) == [Called(p, proc.pc.fileId), Returned(p, thrown)];
    LogGrows(s, r, p, Returned(p, thrown));
    DoneAtOne(s, r, p);
  }

  lemma StepKeepsFinal(s: State, step: Step)
    requires Final(s) && Enabled(s, step)
    ensures Final(Apply(s, step))
  {
    hide Final, Advances, SignSettles, UploadSettles, CompleteSettles, Update;
    if IsAction(step) {
      ActionAdvances(s, step);
      AdvancesKeeps(s, Apply(s, step));
    } else {
      match step
      case SignReturns(p, result) =>
        SignAdvances(s, p, result);
        AdvancesKeeps(s, Apply(s, step));
      case UploadReturns(p) => UploadReturnsKeeps(s, p);
      case CompleteReturns(p, thrown) => CompleteReturnsKeeps(s, p, thrown);
      case XhrFires(x, outcome) =>
        SameAdvances(s, Apply(s, step));
        AdvancesKeeps(s, Apply(s, step));
      case XhrProgress(x, loaded, total) =>
        SelfAdvances(s);
        if total > 0 {
          MergeAdvances(s, s.xhrs[x].id, WithProgress(Percent(loaded, total)));
        }
        AdvancesKeeps(s, Apply(s, step));
    }
  }

  lemma {:induction false} RunIsFinal(trace: seq<State>, k: nat)
    requires Run(trace, false) && k < |trace|
    ensures Final(trace[k])
  {
    if k == 0 {
      assert forall p: nat :: CallsOf([], p) == [];
    } else {
      hide Final, Apply;
      RunIsFinal(trace, k - 1);
      assert Next(trace[k - 1], trace[k - 1 + 1], false);
      var step :| Enabled(trace[k - 1], step) && trace[k] == Apply(trace[k - 1], step);
      StepKeepsFinal(trace[k - 1], step);
    }
  }

  /**
   * In every run, an item is done only if some call of `process` for it has ended that either was started
   * without `complete`, or whose one `complete` has returned without throwing.
   */
  lemma DoneMeansFinalized(trace: seq<State>, k: nat, i: nat) returns (p: nat)
    requires Run(trace, false) && k < |trace| && i < |trace[k].items| && trace[k].items[i].status == Done
    ensures var s := trace[k];
            && p < |s.procs| && s.procs[p].id == s.items[i].id && s.procs[p].pc.Ended?
            && (s.procs[p].hasComplete ==> exists fileId :: CallsOf(s.finalizing, p) == [Called(p, fileId), Returned(p, None)])
  {
    RunIsFinal(trace, k);
    assert DoneAfter(trace[k], trace[k].items[i].id);
    p :| Finished(trace[k], p) && trace[k].procs[p].id == trace[k].items[i].id;
  }

  /** In every run, `complete` is called at most once by each call of `process`, and comes back at most once. */
  lemma CompleteIsCalledOnce(trace: seq<State>, k: nat, p: nat)
    requires Run(trace, false) && k < |trace|
    ensures var calls := CallsOf(trace[k].finalizing, p);
            && |calls| <= 2 && (|calls| > 0 ==> calls[0].Called? && p < |trace[k].procs|) && (|calls| > 1 ==> calls[1].Returned?)
  {
    RunIsFinal(trace, k);
    assert p < |trace[k].procs| ==> LogAt(trace[k].finalizing, trace[k].procs[p], p);
  }

  /** It is called only when an upload comes back with a 2xx answer, for the file that was uploaded. */
  lemma CompleteIsCalledAfterUpload(s: State, step: Step)
    requires Enabled(s, step)
    ensures var r := Apply(s, step);
            || r.finalizing == s.finalizing
            || (step.CompleteReturns? && r.finalizing == s.finalizing + [Returned(step.p, step.thrown)])
            || (&& step.UploadReturns? && r.finalizing == s.finalizing + [Called(step.p, s.procs[step.p].pc.fileId)]
                && s.procs[step.p].hasComplete && s.xhrs[s.procs[step.p].pc.xhr].outcome.value.Loaded?
                && 200 <= s.xhrs[s.procs[step.p].pc.xhr].outcome.value.status < 300)
  {
    hide SignSettles, Update, Start, AddFiles, Advances;
    if IsAction(step) {
      ActionAdvances(s, step);
      AdvancesLogsNothing(s, Apply(s, step));
    } else if step.SignReturns? {
      SignAdvances(s, step.p, step.result);
      AdvancesLogsNothing(s, Apply(s, step));
    }
  }

  lemma AdvancesLogsNothing(s: State, r: State)
    requires Advances(s, r)
    ensures r.finalizing == s.finalizing
  {
  }
}
