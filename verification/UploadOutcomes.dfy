/** What the calls that come back do to an item, and that a file is shown as done only once it is finalized. */
module UploadOutcomes {
  import opened Wrappers
  import opened Upload
  import opened UploadXhrs

  // ----- what each settling call does -----

  lemma UpdateIs(items: seq<Item>, id: nat, patch: Patch)
    ensures |Update(items, id, patch)| == |items|
    ensures forall i :: 0 <= i < |items| ==>
              Update(items, id, patch)[i] == if items[i].id == id then Patched(items[i], patch) else items[i]
  {
  }

  /** Items of other ids are as they were, and all are where they were. */
  ghost predicate OthersKept(s: State, r: State, id: nat) {
    && |r.items| == |s.items|
    && forall i :: 0 <= i < |s.items| && s.items[i].id != id ==> r.items[i] == s.items[i]
  }

  /** One call of `process` goes on to `pc`; all other calls stay where they are. */
  ghost predicate GoesTo(s: State, r: State, p: nat, pc: Pc) {
    p < |s.procs| && r.procs == s.procs[p := s.procs[p].(pc := pc)]
  }

  /** Items of the id end with this error. */
  ghost predicate Fails(s: State, r: State, id: nat, status: Status, code: Code) {
    && OthersKept(s, r, id)
    && forall i :: 0 <= i < |s.items| && s.items[i].id == id ==>
         r.items[i] == s.items[i].(status := status, error := Some(code))
  }

  ghost predicate ShownAsDone(s: State, r: State, id: nat) {
    && OthersKept(s, r, id)
    && forall i :: 0 <= i < |s.items| && s.items[i].id == id ==> r.items[i] == s.items[i].(status := Done, progress := 100)
  }

  ghost predicate ShownAsCompleting(s: State, r: State, id: nat) {
    && OthersKept(s, r, id)
    && forall i :: 0 <= i < |s.items| && s.items[i].id == id ==> r.items[i] == s.items[i].(status := Completing)
  }

  /**
   * An upload that comes back: after a 2xx answer the item is completing and `complete` is called for the
   * descriptor's file, or the item is done at once when there is no `complete`; anything else fails it.
   */
  lemma UploadOutcome(s: State, p: nat)
    requires Enabled(s, UploadReturns(p))
    ensures var r, proc := Apply(s, UploadReturns(p)), s.procs[p];
            && r.xhrs == s.xhrs && r.xhrMap == s.xhrMap && r.descriptors == s.descriptors
            && match s.xhrs[proc.pc.xhr].outcome.value
               case Loaded(status) =>
                 if 200 <= status < 300 && proc.hasComplete then
                   && ShownAsCompleting(s, r, proc.id) && GoesTo(s, r, p, AwaitComplete(proc.pc.fileId))
                   && r.finalizing == s.finalizing + [Called(p, proc.pc.fileId)]
                 else
                   && GoesTo(s, r, p, Ended) && r.finalizing == s.finalizing
                   && (if 200 <= status < 300 then ShownAsDone(s, r, proc.id)
                       else Fails(s, r, proc.id, Failed, if status == 413 then QuotaExceeded else Network))
               case Broken =>
                 GoesTo(s, r, p, Ended) && r.finalizing == s.finalizing && Fails(s, r, proc.id, Failed, Network)
               case Aborted =>
                 && GoesTo(s, r, p, Ended) && r.finalizing == s.finalizing
                 && Fails(s, r, proc.id, Status.Canceled, Code.Canceled)
  {
    var proc, outcome := s.procs[p], s.xhrs[s.procs[p].pc.xhr].outcome.value;
    UpdateIs(s.items, proc.id, if Succeeded(outcome) then if proc.hasComplete then ToCompleting else ToDone
                               else ToError(if CodeOf(outcome) == Code.Canceled then Status.Canceled else Failed, CodeOf(outcome)));
    hide Update;
  }

  /** The code that a thrown value is shown as: its own, or `QuotaExceeded` on status 413, or the given one. */
  ghost predicate ShownAs(e: Thrown, otherwise: Code, code: Code) {
    && (e.code.Some? ==> code == e.code.value)
    && (e.code.None? && e.status == Some(413) ==> code == QuotaExceeded)
    && (e.code.None? && e.status != Some(413) ==> code == otherwise)
  }

  /** A `complete` that comes back: only if it did not throw is the item done. */
  lemma CompleteOutcome(s: State, p: nat, thrown: Option<Thrown>) returns (code: Code)
    requires Enabled(s, CompleteReturns(p, thrown))
    ensures thrown.Some? ==> ShownAs(thrown.value, MimeMismatch, code)
    ensures var r, id := Apply(s, CompleteReturns(p, thrown)), s.procs[p].id;
            && GoesTo(s, r, p, Ended) && r.finalizing == s.finalizing + [Returned(p, thrown)]
            && r.xhrs == s.xhrs && r.xhrMap == s.xhrMap && r.descriptors == s.descriptors
            && (if thrown.Some? then Fails(s, r, id, Failed, code) else ShownAsDone(s, r, id))
  {
    code := if thrown.Some? then MapError(thrown.value, MimeMismatch) else MimeMismatch;
  }

  /** The item got its file id; while wanted it is uploading, from the progress it resumes at or from zero. */
  ghost predicate Uploads(s: State, r: State, id: nat, fileId: int, wanted: bool, progress: int) {
    && OthersKept(s, r, id)
    && forall i :: 0 <= i < |s.items| && s.items[i].id == id ==>
         r.items[i] == if wanted then s.items[i].(fileId := Some(fileId), status := Uploading, error := None, progress := progress)
                       else s.items[i].(fileId := Some(fileId))
  }

  /** A `sign` that comes back: an error is shown; a descriptor is kept, and opens an XHR if the item is still wanted. */
  lemma SignOutcome(s: State, p: nat, result: Result<int, Thrown>) returns (code: Code)
    requires Enabled(s, SignReturns(p, result))
    ensures result.Err? ==> ShownAs(result.error, SignFailed, code)
    ensures var r, proc := Apply(s, SignReturns(p, result)), s.procs[p];
            && r.finalizing == s.finalizing
            && match result
               case Err(_) =>
                 && Fails(s, r, proc.id, Failed, code) && GoesTo(s, r, p, Ended)
                 && r.xhrs == s.xhrs && r.xhrMap == s.xhrMap && r.descriptors == s.descriptors
               case Ok(fileId) =>
                 && r.descriptors == s.descriptors[proc.id := fileId]
                 && Uploads(s, r, proc.id, fileId, Wanted(s, proc.id), if proc.resume then proc.progress else 0)
                 && (if Wanted(s, proc.id) then
                       && GoesTo(s, r, p, AwaitXhr(|s.xhrs|, fileId))
                       && r.xhrs == s.xhrs + [Xhr(proc.id, None)] && r.xhrMap == s.xhrMap[proc.id := |s.xhrs|]
                     else GoesTo(s, r, p, Ended) && r.xhrs == s.xhrs && r.xhrMap == s.xhrMap)
  {
    code := SignFailed;
    var id := s.procs[p].id;
    match result
    case Err(e) =>
      code := MapError(e, SignFailed);
      UpdateIs(s.items, id, ToError(Failed, code));
      hide Update;
    case Ok(fileId) =>
      SignedShape(s, p, fileId);
      SignedItems(s, p, fileId);
      hide SignSettles, Update, Wanted;
  }

  function SignedList(s: State, proc: Proc, fileId: int): seq<Item> {
    var got := Update(s.items, proc.id, WithFileId(fileId));
    if Wanted(s, proc.id) then Update(got, proc.id, ToUploading(if proc.resume then proc.progress else 0)) else got
  }

  lemma SignedItems(s: State, p: nat, fileId: int)
    requires p < |s.procs|
    ensures var proc := s.procs[p];
            Uploads(s, s.(items := SignedList(s, proc, fileId)), proc.id, fileId, Wanted(s, proc.id),
                    if proc.resume then proc.progress else 0)
  {
    var id := s.procs[p].id;
    UpdateIs(s.items, id, WithFileId(fileId));
    UpdateIs(Update(s.items, id, WithFileId(fileId)), id, ToUploading(if s.procs[p].resume then s.procs[p].progress else 0));
    hide Update, Wanted;
  }

  lemma SignedShape(s: State, p: nat, fileId: int)
    requires p < |s.procs| && s.procs[p].pc.AwaitSign?
    ensures var proc := s.procs[p];
            var t := s.(items := SignedList(s, proc, fileId), descriptors := s.descriptors[proc.id := fileId]);
            SignSettles(s, p, Ok(fileId)) ==
            if Wanted(s, proc.id) then
              t.(procs := s.procs[p := proc.(pc := AwaitXhr(|s.xhrs|, fileId))], xhrs := s.xhrs + [Xhr(proc.id, None)],
                 xhrMap := s.xhrMap[proc.id := |s.xhrs|])
            else t.(procs := s.procs[p := proc.(pc := Ended)])
  {
    FindUpdated(s.items, s.procs[p].id, WithFileId(fileId));
    hide Update, Find;
  }

  /** Progress is shown in whole percent, a half rounded up. */
  lemma PercentIsRounded(loaded: nat, total: nat)
    requires total > 0
    ensures var n := Percent(loaded, total);
            (2 * n - 1) * total <= 200 * loaded < (2 * n + 1) * total
  {
    var x, y := 200 * loaded + total, 2 * total;
    assert x / y * y <= x < x / y * y + y;
  }

  /** An XHR event is remembered and untracks its item's XHR; progress shows on the item; nothing else changes. */
  lemma XhrEventOutcome(s: State, x: nat, outcome: Outcome, loaded: nat, total: nat)
    requires x < |s.xhrs|
    ensures Enabled(s, XhrFires(x, outcome)) ==>
              Apply(s, XhrFires(x, outcome))
              == s.(xhrs := s.xhrs[x := Xhr(s.xhrs[x].id, Some(outcome))], xhrMap := s.xhrMap - {s.xhrs[x].id})
    ensures Enabled(s, XhrProgress(x, loaded, total)) ==>
              var r := Apply(s, XhrProgress(x, loaded, total));
              && r == s.(items := r.items) && OthersKept(s, r, s.xhrs[x].id)
              && forall i :: 0 <= i < |s.items| && s.items[i].id == s.xhrs[x].id ==>
                   r.items[i] == if total == 0 then s.items[i] else s.items[i].(progress := Percent(loaded, total))
  {
  }
}
