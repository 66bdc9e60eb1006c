/** What keeps every open XHR within the user's reach, step by step. */
module UploadSole {
  import opened Wrappers
  import opened Upload
  import opened UploadItems
  import opened UploadInvariants
  import opened UploadRuns
  import opened UploadXhrs

  lemma SettlingSole(s: State, step: Step)
    requires Inv(s) && Sole(s) && Enabled(s, step) && !IsAction(step)
    ensures Sole(Apply(s, step))
  {
    hide UrlsOk, ItemsOk, XhrsOk, HistoryOk, Sole, Stored;
    match step
    case SignReturns(p, result) => SignSole(s, p, result);
    case UploadReturns(p) =>
      var pc := if Succeeded(s.xhrs[s.procs[p].pc.xhr].outcome.value) && s.procs[p].hasComplete
                then AwaitComplete(s.procs[p].pc.fileId) else Ended;
      MoveSole(s, p, pc);
      SoleIgnoresItems(Move(s, p, pc), Apply(s, step));
    case CompleteReturns(p, thrown) =>
      MoveSole(s, p, Ended);
      SoleIgnoresItems(Move(s, p, Ended), Apply(s, step));
    case XhrFires(x, outcome) => FinishSole(s, x, outcome);
    case XhrProgress(x, loaded, total) => SoleIgnoresItems(s, Apply(s, step));
  }

  lemma SignSole(s: State, p: nat, result: Result<int, Thrown>)
    requires Core(s) && Sole(s) && p < |s.procs| && s.procs[p].pc.AwaitSign?
    ensures Sole(SignSettles(s, p, result))
  {
    var id := s.procs[p].id;
    match result
    case Err(e) =>
      MoveSole(s, p, Ended);
      SoleIgnoresItems(Move(s, p, Ended), SignSettles(s, p, result));
    case Ok(fileId) =>
      MoveSole(s, p, HasDescriptor(fileId));
      var t := Move(Merge(s, id, WithFileId(fileId)), p, HasDescriptor(fileId)).(descriptors := s.descriptors[id := fileId]);
      SoleIgnoresItems(Move(s, p, HasDescriptor(fileId)), t);
      forall q | 0 <= q < |t.procs| ensures ProcOk(t, t.procs[q]) {
        assert ProcOk(s, s.procs[q]);
      }
      hide Sole, Core, ProcsOk;
      BeginSole(t, p);
  }

  lemma StartSole(s: State, id: nat, resume: bool)
    requires Core(s) && Sole(s) && Quiet(s, id)
    ensures Sole(Start(s, id, resume))
    ensures forall other :: other != id && Quiet(s, other) ==> Quiet(Start(s, id, resume), other)
  {
    if Find(s.items, id).Some? {
      var proc := Proc(id, resume, Find(s.items, id).value.progress, s.opts.hasComplete, AwaitSign);
      if resume && id in s.descriptors {
        var t := s.(procs := s.procs + [proc.(pc := HasDescriptor(s.descriptors[id]))]);
        AppendSole(s, proc.(pc := HasDescriptor(s.descriptors[id])));
        forall q | 0 <= q < |t.procs| ensures ProcOk(t, t.procs[q]) {
          assert q < |s.procs| ==> ProcOk(s, s.procs[q]);
        }
        hide Sole;
        BeginSole(t, |s.procs|);
      } else {
        AppendSole(s, proc);
        SoleIgnoresItems(s.(procs := s.procs + [proc]), Start(s, id, resume));
      }
    }
  }

  lemma {:induction false} StartAllSole(s: State, created: seq<Item>)
    requires Core(s) && Sole(s) && FaultyAreRejected(created, s.rejected) && DistinctIds(created)
    requires forall i :: 0 <= i < |created| ==> Quiet(s, created[i].id)
    ensures Sole(StartAll(s, created))
    decreases |created|
  {
    hide Core, Start, Sole, Quiet;
    if created != [] {
      var t := if created[0].error.None? then Start(s, created[0].id, false) else s;
      if created[0].error.None? {
        StartKeeps(s, created[0].id, false);
        StartSole(s, created[0].id, false);
      }
      StartAllSole(t, created[1..]);
    }
  }

  lemma {:induction false} DropAllSole(s: State, olds: seq<Item>)
    requires Core(s) && Sole(s)
    ensures Sole(DropAll(s, olds)) && DropAll(s, olds).procs == s.procs
    decreases |olds|
  {
    hide Core, Sole;
    if olds != [] {
      var t := DropOne(s, olds[0]);
      AbortOfSole(s, olds[0].id);
      SoleIgnoresItems(AbortOf(s, olds[0].id), t);
      DropOneKeeps(s, olds[0]);
      DropAllSole(t, olds[1..]);
    }
  }

  lemma AddFilesSole(s: State, files: seq<File>)
    requires Inv(s) && Sole(s) && s.mounted
    ensures Sole(AddFiles(s, files))
  {
    if !s.opts.disabled && files != [] {
      var taken, ready := files[..Room(s.opts, |s.items|, |files|)], Ready(s);
      var r := Insert(ready, taken);
      var created := CreateAll(s.opts, taken, s.nextId, s.nextUrl);
      ReadyKeeps(s);
      InsertKeepsCore(ready, taken);
      assert created == CreateAll(ready.opts, taken, ready.nextId, ready.nextUrl);
      hide Core, Accounted, CreateAll, StartAll, Room, DropAll, Held, FaultyAreRejected, Sole, Quiet;
      DropAllSole(s, s.items);
      SoleIgnoresItems(ready, r);
      CreatedAreFresh(s.opts, taken, s.nextId, s.nextUrl);
      forall i | 0 <= i < |created| ensures Quiet(r, created[i].id) {
      }
      StartAllSole(r, created);
    }
  }

  // ----- what the user's actions achieve -----

  lemma CancelSole(s: State, id: nat)
    requires Core(s) && Sole(s)
    ensures Sole(Cancel(s, id)) && NoneOpen(Cancel(s, id), id)
  {
  }

  lemma RemoveSole(s: State, id: nat)
    requires Core(s) && Sole(s)
    ensures Sole(Remove(s, id)) && NoneOpen(Remove(s, id), id)
  {
  }

  lemma StopAllSole(s: State)
    requires Sole(s)
    ensures Sole(Reset(s)) && Sole(Unmount(s))
    ensures forall id :: NoneOpen(Reset(s), id) && NoneOpen(Unmount(s), id)
  {
  }
}
