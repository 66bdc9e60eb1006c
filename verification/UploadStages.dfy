/** How far an item and the `process` call running for it have come, and what a patient retry does to them. */
module UploadStages {
  import opened Wrappers
  import opened Upload
  import opened UploadItems
  import opened UploadInvariants
  import opened UploadRuns
  import opened UploadXhrs
  import opened UploadSole

  /** While `sign` is out there is no file id; from the descriptor on both are there; nothing has failed yet. */
  ghost predicate StageOk(descriptors: map<nat, int>, it: Item, proc: Proc) {
    proc.id == it.id ==>
      match proc.pc
      case AwaitSign => it.fileId.None? && it.status in {Signing, Status.Canceled}
      case HasDescriptor(_) => false
      case AwaitXhr(_, _) => it.fileId.Some? && it.id in descriptors && it.status in {Uploading, Completing, Status.Canceled}
      case AwaitComplete(_) => it.fileId.Some? && it.id in descriptors && it.status in {Uploading, Completing, Status.Canceled}
      case Ended => true
  }

  ghost predicate StagesOk(s: State) {
    forall i, p :: 0 <= i < |s.items| && 0 <= p < |s.procs| ==> StageOk(s.descriptors, s.items[i], s.procs[p])
  }

  // ----- a change at one id -----

  /** Items, calls and descriptors of other ids are as they were. */
  ghost predicate ChangedAt(s: State, r: State, id: nat) {
    && |r.items| == |s.items|
    && (forall i :: 0 <= i < |s.items| ==> r.items[i].id == s.items[i].id && (s.items[i].id != id ==> r.items[i] == s.items[i]))
    && (forall p :: 0 <= p < |r.procs| ==> r.procs[p].id == id || (p < |s.procs| && r.procs[p] == s.procs[p]))
    && (forall other :: other in s.descriptors && other != id ==> other in r.descriptors)
  }

  ghost predicate StagesAt(s: State, id: nat) {
    forall i, p :: 0 <= i < |s.items| && 0 <= p < |s.procs| && s.items[i].id == id && s.procs[p].id == id ==>
      StageOk(s.descriptors, s.items[i], s.procs[p])
  }

  lemma StagesElsewhere(s: State, r: State, id: nat)
    requires StagesOk(s) && ChangedAt(s, r, id) && StagesAt(r, id)
    ensures StagesOk(r)
  {
    forall i, p | 0 <= i < |r.items| && 0 <= p < |r.procs| ensures StageOk(r.descriptors, r.items[i], r.procs[p]) {
      if r.items[i].id == r.procs[p].id != id {
        assert StageOk(s.descriptors, s.items[i], s.procs[p]);
      }
    }
  }

  /** The one call that runs for an id moves on to `pc`. */
  lemma StagesOfOne(s: State, r: State, p: nat)
    requires OneLive(s.procs) && p < |s.procs| && !s.procs[p].pc.Ended?
    requires |r.procs| == |s.procs| && r.procs == s.procs[p := s.procs[p].(pc := r.procs[p].pc)]
    requires forall i :: 0 <= i < |r.items| && r.items[i].id == s.procs[p].id ==> StageOk(r.descriptors, r.items[i], r.procs[p])
    ensures StagesAt(r, s.procs[p].id)
  {
  }

  lemma SignStages(s: State, p: nat, result: Result<int, Thrown>)
    requires StagesOk(s) && OneLive(s.procs) && p < |s.procs| && s.procs[p].pc.AwaitSign?
    ensures StagesOk(SignSettles(s, p, result))
  {
    var r, id := SignSettles(s, p, result), s.procs[p].id;
    SignShape(s, p, result);
    hide SignSettles, StagesOk;
    StagesOfOne(s, r, p);
    StagesElsewhere(s, r, id);
  }

  lemma BeginShape(s: State, p: nat)
    requires p < |s.procs| && s.procs[p].pc.HasDescriptor?
    ensures var r, proc := BeginUpload(s, p), s.procs[p];
            && r.descriptors == s.descriptors && r.mounted == s.mounted
            && |r.procs| == |s.procs| && r.procs == s.procs[p := proc.(pc := r.procs[p].pc)]
            && (if r.procs[p].pc.Ended? then r.items == s.items
                else r.procs[p].pc.AwaitXhr?
                     && r.items == Update(s.items, proc.id, ToUploading(if proc.resume then proc.progress else 0)))
  {
    hide Update;
  }

  lemma SignShape(s: State, p: nat, result: Result<int, Thrown>)
    requires p < |s.procs| && s.procs[p].pc.AwaitSign?
    ensures var r, id := SignSettles(s, p, result), s.procs[p].id;
            && |r.procs| == |s.procs| && r.procs == s.procs[p := s.procs[p].(pc := r.procs[p].pc)]
            && ChangedAt(s, r, id) && !r.procs[p].pc.AwaitSign? && r.mounted == s.mounted
            && forall i :: 0 <= i < |r.items| && r.items[i].id == id ==> StageOk(r.descriptors, r.items[i], r.procs[p])
  {
    if result.Ok? {
      var id := s.procs[p].id;
      var t := Move(Merge(s, id, WithFileId(result.value)), p, HasDescriptor(result.value))
                 .(descriptors := s.descriptors[id := result.value]);
      BeginShape(t, p);
      hide BeginUpload;
    }
  }

  lemma UploadStages(s: State, p: nat)
    requires StagesOk(s) && OneLive(s.procs) && Enabled(s, UploadReturns(p))
    ensures StagesOk(UploadSettles(s, p))
  {
    var r, id := UploadSettles(s, p), s.procs[p].id;
    assert ChangedAt(s, r, id) by {
      hide StageOk, Patched, StagesOk;
    }
    UploadedStage(s, p);
    hide UploadSettles, StagesOk;
    StagesOfOne(s, r, p);
    StagesElsewhere(s, r, id);
  }

  lemma UploadedStage(s: State, p: nat)
    requires StagesOk(s) && Enabled(s, UploadReturns(p))
    ensures var r := UploadSettles(s, p);
            && |r.procs| == |s.procs| && r.procs == s.procs[p := s.procs[p].(pc := r.procs[p].pc)]
            && forall i :: 0 <= i < |r.items| && r.items[i].id == s.procs[p].id ==> StageOk(r.descriptors, r.items[i], r.procs[p])
  {
    assert forall i :: 0 <= i < |s.items| ==> StageOk(s.descriptors, s.items[i], s.procs[p]);
  }

  lemma CompleteStages(s: State, p: nat, thrown: Option<Thrown>)
    requires StagesOk(s) && OneLive(s.procs) && p < |s.procs| && s.procs[p].pc.AwaitComplete?
    ensures StagesOk(CompleteSettles(s, p, thrown))
  {
    var r, id := CompleteSettles(s, p, thrown), s.procs[p].id;
    assert ChangedAt(s, r, id);
    StagesOfOne(s, r, p);
    StagesElsewhere(s, r, id);
  }

  /** Progress, and a cancel that finds no XHR, leave every stage where it is. */
  lemma MergeStages(s: State, id: nat, patch: Patch)
    requires StagesOk(s) && (patch.WithProgress? || patch.CancelIfActive?)
    ensures StagesOk(Merge(s, id, patch))
  {
    var r := Merge(s, id, patch);
    forall i, p | 0 <= i < |r.items| && 0 <= p < |r.procs| ensures StageOk(r.descriptors, r.items[i], r.procs[p]) {
      assert StageOk(s.descriptors, s.items[i], s.procs[p]);
    }
  }

  /** So does anything that only takes items out, and descriptors of items that are not there. */
  lemma FewerStages(s: State, r: State)
    requires StagesOk(s) && r.procs == s.procs && forall i :: 0 <= i < |r.items| ==> r.items[i] in s.items
    requires forall i :: 0 <= i < |r.items| && r.items[i].id in s.descriptors ==> r.items[i].id in r.descriptors
    ensures StagesOk(r)
  {
    forall i, p | 0 <= i < |r.items| && 0 <= p < |r.procs| ensures StageOk(r.descriptors, r.items[i], r.procs[p]) {
      assert r.items[i] in s.items;
      var k :| 0 <= k < |s.items| && s.items[k] == r.items[i];
      assert StageOk(s.descriptors, s.items[k], s.procs[p]);
    }
  }

  // ----- starting a call -----

  lemma StartStages(s: State, id: nat, resume: bool)
    requires StagesOk(s) && Quiet(s, id) && DistinctIds(s.items)
    requires resume ==> Find(s.items, id).Some? ==> Find(s.items, id).value.fileId.Some?
    ensures StagesOk(Start(s, id, resume)) && Start(s, id, resume).descriptors == s.descriptors
    ensures DistinctIds(Start(s, id, resume).items)
    ensures forall other :: other != id && Quiet(s, other) ==> Quiet(Start(s, id, resume), other)
  {
    FoundIsItem(s.items, id);
    if Find(s.items, id).Some? {
      var r := Start(s, id, resume);
      StartShape(s, id, resume);
      hide Start, StagesOk, Find;
      StagesElsewhere(s, r, id);
    }
  }

  /** What starting a call changes. */
  ghost predicate Started(s: State, r: State, id: nat) {
    && ChangedAt(s, r, id) && StagesAt(r, id) && r.descriptors == s.descriptors && DistinctIds(r.items)
    && |r.procs| == |s.procs| + 1 && r.procs[|s.procs|].id == id && r.procs[..|s.procs|] == s.procs
  }

  lemma StartShape(s: State, id: nat, resume: bool)
    requires Find(s.items, id).Some? && Quiet(s, id) && DistinctIds(s.items)
    requires resume ==> Find(s.items, id).value.fileId.Some?
    ensures Started(s, Start(s, id, resume), id)
  {
    hide Started, BeginUpload;
    if resume && id in s.descriptors {
      ResumeShape(s, Proc(id, resume, Find(s.items, id).value.progress, s.opts.hasComplete, HasDescriptor(s.descriptors[id])));
    } else {
      SignShapeOf(s, Proc(id, resume, Find(s.items, id).value.progress, s.opts.hasComplete, AwaitSign));
    }
  }

  lemma SignShapeOf(s: State, proc: Proc)
    requires Quiet(s, proc.id) && DistinctIds(s.items) && proc.pc.AwaitSign?
    ensures Started(s, Merge(s, proc.id, ToSigning).(procs := s.procs + [proc], signed := s.signed + {proc.id}), proc.id)
  {
  }

  lemma ResumeShape(s: State, proc: Proc)
    requires Find(s.items, proc.id).Some? && Find(s.items, proc.id).value.fileId.Some?
    requires Quiet(s, proc.id) && DistinctIds(s.items) && proc.pc.HasDescriptor? && proc.id in s.descriptors
    ensures Started(s, BeginUpload(s.(procs := s.procs + [proc]), |s.procs|), proc.id)
  {
    var r := BeginUpload(s.(procs := s.procs + [proc]), |s.procs|);
    var patch := ToUploading(if proc.resume then proc.progress else 0);
    HasFileId(s.items, proc.id);
    BeginShape(s.(procs := s.procs + [proc]), |s.procs|);
    UpdateAt(s.items, proc.id, patch);
    hide Find, BeginUpload, Update, DistinctIds;
    assert r.procs[..|s.procs|] == s.procs;
    OthersEnded(s, r, proc.id);
  }

  lemma HasFileId(items: seq<Item>, id: nat)
    requires DistinctIds(items) && Find(items, id).Some? && Find(items, id).value.fileId.Some?
    ensures forall i :: 0 <= i < |items| && items[i].id == id ==> items[i].fileId.Some?
    ensures forall i :: 0 <= i < |items| && items[i].id == id && Find(items, id).value.status == Status.Canceled ==>
              items[i].status == Status.Canceled
  {
    FoundIsItem(items, id);
  }

  lemma UpdateAt(items: seq<Item>, id: nat, patch: Patch)
    ensures var r := Update(items, id, patch);
            && |r| == |items| && (DistinctIds(items) ==> DistinctIds(r))
            && forall i :: 0 <= i < |items| ==>
                 r[i].id == items[i].id && r[i] == if items[i].id == id then Patched(items[i], patch) else items[i]
  {
  }

  lemma OthersEnded(s: State, r: State, id: nat)
    requires Quiet(s, id) && |r.procs| == |s.procs| + 1 && r.procs[..|s.procs|] == s.procs
    requires forall i :: 0 <= i < |r.items| && r.items[i].id == id ==> StageOk(r.descriptors, r.items[i], r.procs[|s.procs|])
    ensures StagesAt(r, id)
  {
    assert forall p :: 0 <= p < |s.procs| ==> r.procs[p] == s.procs[p];
  }

  lemma {:induction false} StartAllStages(s: State, created: seq<Item>)
    requires StagesOk(s) && DistinctIds(s.items) && DistinctIds(created)
    requires forall i :: 0 <= i < |created| ==> Quiet(s, created[i].id)
    ensures StagesOk(StartAll(s, created))
    decreases |created|
  {
    hide StagesOk, Start, Quiet;
    if created != [] {
      var t := if created[0].error.None? then Start(s, created[0].id, false) else s;
      if created[0].error.None? {
        StartStages(s, created[0].id, false);
      }
      StartAllStages(t, created[1..]);
    }
  }

  lemma KnownProcs(s: State)
    requires Core(s)
    ensures forall p :: 0 <= p < |s.procs| ==> s.procs[p].id < s.nextId
  {
    forall p | 0 <= p < |s.procs| ensures s.procs[p].id < s.nextId {
      assert ProcOk(s, s.procs[p]);
    }
  }

  lemma InsertStages(s: State, ready: State, files: seq<File>)
    requires StagesOk(s) && ready.procs == s.procs && ready.items == s.items && ready.opts == s.opts
    requires s.opts.multi ==> ready.descriptors == s.descriptors
    requires forall p :: 0 <= p < |s.procs| ==> s.procs[p].id < ready.nextId
    ensures StagesOk(Insert(ready, files))
    ensures forall i :: 0 <= i < |CreateAll(ready.opts, files, ready.nextId, ready.nextUrl)| ==>
              Quiet(Insert(ready, files), CreateAll(ready.opts, files, ready.nextId, ready.nextUrl)[i].id)
  {
    var created := CreateAll(ready.opts, files, ready.nextId, ready.nextUrl);
    CreatedAreFresh(ready.opts, files, ready.nextId, ready.nextUrl);
    hide CreateAll, Held;
    var r := Insert(ready, files);
    forall i, p | 0 <= i < |r.items| && 0 <= p < |r.procs| ensures StageOk(r.descriptors, r.items[i], r.procs[p]) {
      if s.opts.multi && i < |s.items| {
        assert StageOk(s.descriptors, s.items[i], s.procs[p]);
      } else {
        var k := if s.opts.multi then i - |s.items| else i;
        assert r.items[i] == created[k];
      }
    }
  }

  lemma AddFilesStages(s: State, files: seq<File>)
    requires Inv(s) && Sole(s) && StagesOk(s) && s.mounted
    ensures StagesOk(AddFiles(s, files))
  {
    if !s.opts.disabled && files != [] {
      var taken, ready := files[..Room(s.opts, |s.items|, |files|)], Ready(s);
      var r := Insert(ready, taken);
      KnownProcs(s);
      ReadyKeeps(s);
      DropAllSole(s, s.items);
      InsertKeepsCore(ready, taken);
      CreatedAreFresh(s.opts, taken, s.nextId, s.nextUrl);
      var created := CreateAll(s.opts, taken, s.nextId, s.nextUrl);
      assert created == CreateAll(ready.opts, taken, ready.nextId, ready.nextUrl);
      assert DistinctIds(r.items) && DistinctIds(created);
      hide Core, Accounted, CreateAll, StartAll, Room, DropAll, Held, FaultyAreRejected, Sole, Quiet, StagesOk, Insert;
      InsertStages(s, ready, taken);
      StartAllStages(r, created);
    }
  }

  // ----- retrying -----

  /** While a call runs beyond `sign`, a retryable item is a canceled one, and retrying it does nothing. */
  lemma LateRetryIsIdle(s: State, id: nat) returns (proc: Proc)
    requires StagesOk(s) && NoSignOut(s, id) && !Quiet(s, id)
    requires Find(s.items, id).Some? && IsRetryable(Find(s.items, id).value)
    ensures proc.pc.Ended? && Retry(s, id) == s.(procs := s.procs + [proc])
  {
    FoundIsItem(s.items, id);
    var it := Find(s.items, id).value;
    var p :| 0 <= p < |s.procs| && s.procs[p].id == id && !s.procs[p].pc.Ended?;
    var i :| 0 <= i < |s.items| && s.items[i] == it;
    assert StageOk(s.descriptors, s.items[i], s.procs[p]);
    proc := Proc(id, true, it.progress, s.opts.hasComplete, HasDescriptor(s.descriptors[id]));
    var t := s.(procs := s.procs + [proc]);
    assert BeginUpload(t, |s.procs|) == Move(t, |s.procs|, Ended);
    proc := proc.(pc := Ended);
    assert Move(t, |s.procs|, Ended).procs == s.procs + [proc];
  }

  lemma EndedStages(s: State, proc: Proc)
    requires StagesOk(s) && proc.pc.Ended?
    ensures StagesOk(s.(procs := s.procs + [proc]))
  {
    var r := s.(procs := s.procs + [proc]);
    forall i, p | 0 <= i < |r.items| && 0 <= p < |r.procs| ensures StageOk(r.descriptors, r.items[i], r.procs[p]) {
      assert p < |s.procs| ==> StageOk(s.descriptors, s.items[i], s.procs[p]);
    }
  }

  lemma RetrySole(s: State, id: nat)
    requires Core(s) && Sole(s) && StagesOk(s) && NoSignOut(s, id)
    ensures Sole(Retry(s, id)) && StagesOk(Retry(s, id))
  {
    var it := Find(s.items, id);
    if it.Some? && IsRetryable(it.value) {
      if Quiet(s, id) {
        hide Sole, StagesOk, Quiet, NoSignOut, Start;
        StartSole(s, id, it.value.fileId.Some? && id in s.descriptors);
        StartStages(s, id, it.value.fileId.Some? && id in s.descriptors);
      } else {
        hide Core, Retry, IsRetryable;
        var proc := LateRetryIsIdle(s, id);
        hide Sole, StagesOk;
        AppendSole(s, proc);
        EndedStages(s, proc);
      }
    }
  }

  // ----- every step, every patient run -----

  lemma SettlingStages(s: State, step: Step)
    requires StagesOk(s) && Sole(s) && Enabled(s, step) && !IsAction(step)
    ensures StagesOk(Apply(s, step))
  {
    hide StagesOk, Reached;
    match step
    case SignReturns(p, result) => SignStages(s, p, result);
    case UploadReturns(p) => UploadStages(s, p);
    case CompleteReturns(p, thrown) => CompleteStages(s, p, thrown);
    case XhrFires(x, outcome) => SameStages(s, Apply(s, step));
    case XhrProgress(x, loaded, total) =>
      if total > 0 {
        MergeStages(s, s.xhrs[x].id, WithProgress(Percent(loaded, total)));
      }
  }

  lemma SameStages(s: State, r: State)
    requires StagesOk(s) && r.items == s.items && r.procs == s.procs && r.descriptors == s.descriptors
    ensures StagesOk(r)
  {
    FewerStages(s, r);
  }

  lemma RemoveStages(s: State, id: nat)
    requires StagesOk(s) && DistinctIds(s.items)
    ensures StagesOk(Remove(s, id))
  {
    WithoutHas(s.items, id);
    hide Without, DistinctIds;
    var r := Remove(s, id);
    forall i | 0 <= i < |r.items| ensures r.items[i] in s.items && r.items[i].id != id {
      assert r.items[i] in r.items;
    }
    FewerStages(s, r);
  }

  lemma ActionKeeps(s: State, step: Step)
    requires Inv(s) && Sole(s) && StagesOk(s) && Enabled(s, step) && IsAction(step)
    requires step.Retrying? ==> NoSignOut(s, step.id)
    ensures Sole(Apply(s, step)) && StagesOk(Apply(s, step))
  {
    hide UrlsOk, Sole, StagesOk;
    match step
    case Render(opts) =>
      SoleIgnoresItems(s, Apply(s, step));
      SameStages(s, Apply(s, step));
    case Adding(files) =>
      AddFilesSole(s, files);
      AddFilesStages(s, files);
    case Retrying(id) => RetrySole(s, id);
    case Canceling(id) =>
      CancelSole(s, id);
      if id in s.xhrMap {
        SameStages(s, Cancel(s, id));
      } else {
        MergeStages(s, id, CancelIfActive);
      }
    case Removing(id) =>
      RemoveSole(s, id);
      RemoveStages(s, id);
    case Resetting =>
      StopAllSole(s);
      FewerStages(s, Reset(s));
    case Unmounting =>
      StopAllSole(s);
      SameStages(s, Unmount(s));
  }

  /** In a run without retries of items whose `sign` is out, every open XHR stays within reach. */
  lemma StepSole(s: State, step: Step)
    requires Inv(s) && Sole(s) && StagesOk(s) && Enabled(s, step) && (step.Retrying? ==> NoSignOut(s, step.id))
    ensures Sole(Apply(s, step)) && StagesOk(Apply(s, step))
  {
    hide Inv, Sole, StagesOk;
    if IsAction(step) {
      ActionKeeps(s, step);
    } else {
      SettlingSole(s, step);
      SettlingStages(s, step);
    }
  }

  lemma {:induction false} PatientRunKeeps(trace: seq<State>, k: nat)
    requires Run(trace, true) && k < |trace|
    ensures Inv(trace[k]) && Sole(trace[k]) && StagesOk(trace[k])
  {
    hide Inv, Apply;
    RunKeeps(trace, true, k);
    if k > 0 {
      PatientRunKeeps(trace, k - 1);
      assert Next(trace[k - 1], trace[k], true);
      var step :| Enabled(trace[k - 1], step) && (step.Retrying? ==> NoSignOut(trace[k - 1], step.id))
                  && trace[k] == Apply(trace[k - 1], step);
      RunKeeps(trace, true, k - 1);
      StepSole(trace[k - 1], step);
    }
  }
}
