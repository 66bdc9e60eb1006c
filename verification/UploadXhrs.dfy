/** When an XHR opens, and when the user can still stop it. */
module UploadXhrs {
  import opened Wrappers
  import opened Upload
  import opened UploadInvariants

  // ----- an XHR opens only for an item that is present and not canceled -----

  /** Present and not canceled. */
  predicate Wanted(s: State, id: nat) {
    Find(s.items, id).Some? && Find(s.items, id).value.status != Status.Canceled
  }

  lemma {:induction false} FindUpdated(items: seq<Item>, id: nat, patch: Patch)
    ensures Find(Update(items, id, patch), id) ==
            if Find(items, id).Some? then Some(Patched(Find(items, id).value, patch)) else None
  {
    if items != [] {
      assert Update(items, id, patch)[1..] == Update(items[1..], id, patch);
      FindUpdated(items[1..], id, patch);
      assert Patched(items[0], patch).id == items[0].id;
    }
  }

  lemma BeginOpens(s: State, p: nat)
    requires p < |s.procs| && s.procs[p].pc.HasDescriptor?
    ensures var r, id := BeginUpload(s, p), s.procs[p].id;
            && r.xhrs == (if Wanted(s, id) then s.xhrs + [Xhr(id, None)] else s.xhrs)
            && (Wanted(s, id) ==> Find(r.items, id).Some? && Find(r.items, id).value.status == Uploading)
            && (!Wanted(s, id) ==> r.items == s.items)
            && r.signed == s.signed && r.descriptors == s.descriptors
  {
    var proc := s.procs[p];
    FindUpdated(s.items, proc.id, ToUploading(if proc.resume then proc.progress else 0));
  }

  lemma {:induction false} StartAllOpensNone(s: State, created: seq<Item>)
    ensures StartAll(s, created).xhrs == s.xhrs
    decreases |created|
  {
    if created != [] {
      StartAllOpensNone(if created[0].error.None? then Start(s, created[0].id, false) else s, created[1..]);
    }
  }

  lemma {:induction false} DropAllOpensNone(s: State, olds: seq<Item>)
    ensures |DropAll(s, olds).xhrs| == |s.xhrs|
    decreases |olds|
  {
    if olds != [] {
      DropAllOpensNone(DropOne(s, olds[0]), olds[1..]);
    }
  }

  /** A returning `sign` opens an XHR exactly if the item is still there and was not canceled meanwhile. */
  lemma SignOpensExactlyIfWanted(s: State, p: nat, fileId: int)
    requires p < |s.procs| && s.procs[p].pc.AwaitSign?
    ensures var r, id := SignSettles(s, p, Ok(fileId)), s.procs[p].id;
            && r.xhrs == (if Wanted(s, id) then s.xhrs + [Xhr(id, None)] else s.xhrs)
            && (Wanted(s, id) ==> Find(r.items, id).Some? && Find(r.items, id).value.status == Uploading)
  {
    var id := s.procs[p].id;
    FindUpdated(s.items, id, WithFileId(fileId));
    BeginOpens(Move(Merge(s, id, WithFileId(fileId)), p, HasDescriptor(fileId)).(descriptors := s.descriptors[id := fileId]), p);
  }

  /**
   * What `retry` does. A failed item with a descriptor is uploaded again without a new `sign`; one
   * without is signed again. A canceled item is only ever signed again: with a descriptor at hand
   * the resumed `process` finds it canceled and gives up, so nothing happens.
   */
  lemma RetryEffect(s: State, id: nat)
    requires Find(s.items, id).Some? && IsRetryable(Find(s.items, id).value)
    ensures var r, it := Retry(s, id), Find(s.items, id).value;
            var resume := it.fileId.Some? && id in s.descriptors;
            && Find(r.items, id).Some?
            && (!resume ==> r.xhrs == s.xhrs && r.signed == s.signed + {id} && Find(r.items, id).value.status == Signing)
            && (resume && it.status == Failed ==>
                  r.xhrs == s.xhrs + [Xhr(id, None)] && r.signed == s.signed && Find(r.items, id).value.status == Uploading)
            && (resume && it.status == Status.Canceled ==> r.xhrs == s.xhrs && r.signed == s.signed && r.items == s.items)
  {
    var it := Find(s.items, id).value;
    FindUpdated(s.items, id, ToSigning);
    if it.fileId.Some? && id in s.descriptors {
      BeginOpens(s.(procs := s.procs + [Proc(id, true, it.progress, s.opts.hasComplete, HasDescriptor(s.descriptors[id]))]), |s.procs|);
    }
  }

  /** A step opens at most one XHR, for an item that is present and not canceled, and marks it uploading. */
  lemma OpensOnlyForWantedItems(s: State, step: Step)
    requires Enabled(s, step)
    ensures var r := Apply(s, step);
            && |s.xhrs| <= |r.xhrs| <= |s.xhrs| + 1
            && (|r.xhrs| > |s.xhrs| ==>
                  var id := r.xhrs[|s.xhrs|].id;
                  Wanted(s, id) && Find(r.items, id).Some? && Find(r.items, id).value.status == Uploading)
  {
    hide SignSettles, Retry, IsRetryable, StartAll, DropAll, BeginUpload;
    match step
    case SignReturns(p, result) => SignStep(s, p, result);
    case Retrying(id) => RetryStep(s, id);
    case Adding(files) => AddingStep(s, files);
    case _ =>
  }

  lemma SignStep(s: State, p: nat, result: Result<int, Thrown>)
    requires p < |s.procs| && s.procs[p].pc.AwaitSign?
    ensures var r, id := SignSettles(s, p, result), s.procs[p].id;
            || r.xhrs == s.xhrs
            || (r.xhrs == s.xhrs + [Xhr(id, None)] && Wanted(s, id)
                && Find(r.items, id).Some? && Find(r.items, id).value.status == Uploading)
  {
    if result.Ok? {
      SignOpensExactlyIfWanted(s, p, result.value);
    }
  }

  lemma RetryStep(s: State, id: nat)
    ensures var r := Retry(s, id);
            || r.xhrs == s.xhrs
            || (r.xhrs == s.xhrs + [Xhr(id, None)] && Wanted(s, id)
                && Find(r.items, id).Some? && Find(r.items, id).value.status == Uploading)
  {
    if Find(s.items, id).Some? && IsRetryable(Find(s.items, id).value) {
      RetryEffect(s, id);
    }
  }

  lemma AddingStep(s: State, files: seq<File>)
    ensures |AddFiles(s, files).xhrs| == |s.xhrs|
  {
    if !s.opts.disabled && files != [] {
      var taken := files[..Room(s.opts, |s.items|, |files|)];
      DropAllOpensNone(s, s.items);
      StartAllOpensNone(Insert(Ready(s), taken), CreateAll(s.opts, taken, s.nextId, s.nextUrl));
    }
  }

  // ----- stopping uploads -----

  ghost predicate OneLive(procs: seq<Proc>) {
    forall p, q :: 0 <= p < q < |procs| && !procs[p].pc.Ended? && !procs[q].pc.Ended? ==> procs[p].id != procs[q].id
  }

  ghost predicate Waits(procs: seq<Proc>, p: nat, x: nat) {
    p < |procs| && procs[p].pc.AwaitXhr? && procs[p].pc.xhr == x
  }

  /** The XHR is the one that the map holds for its item, and some `process` call waits for it. */
  ghost predicate Reached(s: State, x: nat)
    requires x < |s.xhrs|
  {
    && s.xhrs[x].id in s.xhrMap && s.xhrMap[s.xhrs[x].id] == x
    && exists p :: Waits(s.procs, p, x)
  }

  ghost predicate Sole(s: State) {
    OneLive(s.procs) && forall x :: 0 <= x < |s.xhrs| && s.xhrs[x].outcome.None? ==> Reached(s, x)
  }

  ghost predicate NoneOpen(s: State, id: nat) {
    forall x :: 0 <= x < |s.xhrs| && s.xhrs[x].id == id ==> s.xhrs[x].outcome.Some?
  }

  lemma FinishSole(s: State, x: nat, outcome: Outcome)
    requires Sole(s) && x < |s.xhrs| && s.xhrs[x].outcome.None?
    ensures var r := s.(xhrs := s.xhrs[x := s.xhrs[x].(outcome := Some(outcome))], xhrMap := s.xhrMap - {s.xhrs[x].id});
            Sole(r) && NoneOpen(r, s.xhrs[x].id)
  {
  }

  lemma AbortOfSole(s: State, id: nat)
    requires Sole(s) && Core(s)
    ensures Sole(AbortOf(s, id)) && NoneOpen(AbortOf(s, id), id) && AbortOf(s, id).procs == s.procs
  {
  }

  /** A call of `process` moves on; it is not one that waits for an open XHR. */
  lemma MoveSole(s: State, p: nat, pc: Pc)
    requires Sole(s) && p < |s.procs| && (s.procs[p].pc.Ended? ==> pc.Ended?)
    requires s.procs[p].pc.AwaitXhr? ==> s.procs[p].pc.xhr < |s.xhrs| && s.xhrs[s.procs[p].pc.xhr].outcome.Some?
    ensures Sole(Move(s, p, pc))
  {
    var r := Move(s, p, pc);
    forall x | 0 <= x < |r.xhrs| && r.xhrs[x].outcome.None? ensures Reached(r, x) {
      assert Reached(s, x);
      var q: nat :| Waits(s.procs, q, x);
      assert Waits(r.procs, q, x);
    }
  }

  lemma AppendSole(s: State, proc: Proc)
    requires Sole(s) && (Quiet(s, proc.id) || proc.pc.Ended?)
    ensures Sole(s.(procs := s.procs + [proc]))
  {
    var r := s.(procs := s.procs + [proc]);
    forall x | 0 <= x < |r.xhrs| && r.xhrs[x].outcome.None? ensures Reached(r, x) {
      assert Reached(s, x);
      var q: nat :| Waits(s.procs, q, x);
      assert Waits(r.procs, q, x);
    }
  }

  lemma OpenSole(s: State, p: nat)
    requires Sole(s) && ProcsOk(s) && p < |s.procs| && s.procs[p].pc.HasDescriptor?
    ensures Sole(OpenXhr(s, p))
  {
    var r, id := OpenXhr(s, p), s.procs[p].id;
    forall x | 0 <= x < |s.xhrs| && s.xhrs[x].outcome.None? ensures Reached(r, x) {
      assert Reached(s, x);
      var q: nat :| Waits(s.procs, q, x);
      assert ProcOk(s, s.procs[q]);
      assert q != p && s.procs[q].id != id;
      assert Waits(r.procs, q, x);
    }
    assert Waits(r.procs, p, |s.xhrs|);
  }

  lemma SoleIgnoresItems(s: State, r: State)
    requires Sole(s) && r.procs == s.procs && r.xhrs == s.xhrs && r.xhrMap == s.xhrMap
    ensures Sole(r)
  {
  }

  lemma BeginSole(s: State, p: nat)
    requires Sole(s) && ProcsOk(s) && p < |s.procs| && s.procs[p].pc.HasDescriptor?
    ensures Sole(BeginUpload(s, p))
  {
    var proc := s.procs[p];
    MoveSole(s, p, Ended);
    var t := Merge(s, proc.id, ToUploading(if proc.resume then proc.progress else 0));
    SoleIgnoresItems(s, t);
    assert ProcsOk(t) by {
      assert forall q :: 0 <= q < |s.procs| ==> ProcOk(s, s.procs[q]) ==> ProcOk(t, s.procs[q]);
    }
    OpenSole(t, p);
  }
}
