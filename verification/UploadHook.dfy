/** The hook as an object: its refs and maps, updated in place by the callbacks and by `process`. */
module UploadHooks {
  import opened Wrappers
  import opened Upload
  import opened UploadInvariants
  import opened UploadRuns

  /** Aborting one tracked XHR is part of aborting all of them. */
  lemma AbortOneOfAll(s: State, id: nat)
    requires Core(s) && id in s.xhrMap
    ensures AbortAll(AbortOf(s, id)) == AbortAll(s)
    ensures AbortOf(s, id).xhrMap.Keys == s.xhrMap.Keys - {id}
  {
    assert TrackedOk(s, id);
    var r := AbortOf(s, id);
    forall x | 0 <= x < |s.xhrs| && x != s.xhrMap[id] ensures x in r.xhrMap.Values <==> x in s.xhrMap.Values {
      if x in s.xhrMap.Values {
        var other :| other in s.xhrMap && s.xhrMap[other] == x;
        assert other in r.xhrMap && r.xhrMap[other] == x;
      }
    }
    assert AbortAll(r).xhrs == AbortAll(s).xhrs;
  }

  lemma NothingToAbort(s: State)
    requires s.xhrMap == map[]
    ensures AbortAll(s) == s
  {
  }

  class UploadHook {
    var opts: Options
    var items: seq<Item>
    var descriptors: map<nat, int>
    var xhrMap: map<nat, nat>
    var xhrs: seq<Xhr>
    var procs: seq<Proc>
    var nextId: nat
    var nextUrl: nat
    var mounted: bool
    ghost var revoked: seq<nat>
    ghost var signed: set<nat>
    ghost var rejected: set<nat>
    ghost var finalizing: seq<Finalizing>

    ghost function View(): State
      reads this
    {
      State(opts, items, descriptors, xhrMap, xhrs, procs, nextId, nextUrl, mounted, revoked, signed, rejected,
            finalizing)
    }

    ghost predicate Valid()
      reads this
    {
      Inv(View())
    }

    constructor (opts: Options)
      ensures Valid() && View() == Initial(opts)
    {
      this.opts := opts;
      items, descriptors, xhrMap, xhrs, procs := [], map[], map[], [], [];
      nextId, nextUrl, mounted := 0, 0, true;
      revoked, signed, rejected, finalizing := [], {}, {}, [];
    }

    // ----- helpers -----

    method Merge(id: nat, patch: Patch)
      modifies this`items
      ensures View() == Upload.Merge(old(View()), id, patch)
    {
      items := Update(items, id, patch);
    }

    method AbortOf(id: nat)
      modifies this`xhrs, this`xhrMap
      ensures View() == Upload.AbortOf(old(View()), id)
    {
      if id in xhrMap {
        var x := xhrMap[id];
        if x < |xhrs| && xhrs[x].outcome.None? {
          xhrMap := xhrMap - {xhrs[x].id};
          xhrs := xhrs[x := xhrs[x].(outcome := Some(Aborted))];
        }
      }
    }

    method AbortEvery()
      requires Core(View())
      modifies this`xhrs, this`xhrMap
      ensures View() == AbortAll(old(View()))
    {
      hide Core, AbortAll, Upload.AbortOf;
      while xhrMap != map[]
        invariant Core(View()) && AbortAll(View()) == AbortAll(old(View()))
        decreases |xhrMap.Keys|
      {
        var id :| id in xhrMap;
        AbortOneOfAll(View(), id);
        AbortOfKeeps(View(), id);
        AbortOf(id);
      }
      NothingToAbort(View());
    }

    method Revoke(it: Item)
      modifies this`revoked
      ensures View() == old(View()).(revoked := old(revoked) + PreviewOf(it))
    {
      if it.preview.Some? {
        revoked := revoked + [it.preview.value];
      }
    }

    method RevokeEvery()
      modifies this`revoked
      ensures View() == old(View()).(revoked := old(revoked) + Held(items))
    {
      for i := 0 to |items|
        invariant revoked + Held(items[i..]) == old(revoked) + Held(items)
      {
        assert items[i..][1..] == items[i + 1..];
        Revoke(items[i]);
      }
      assert items[|items|..] == [];
    }

    // ----- process -----

    method BeginUpload(p: nat)
      requires p < |procs| && procs[p].pc.HasDescriptor?
      modifies this
      ensures View() == Upload.BeginUpload(old(View()), p)
    {
      var proc := procs[p];
      var afterSign := Find(items, proc.id);
      if afterSign.None? || afterSign.value.status == Status.Canceled {
        procs := procs[p := proc.(pc := Ended)];
        return;
      }
      Merge(proc.id, ToUploading(if proc.resume then proc.progress else 0));
      xhrMap := xhrMap[proc.id := |xhrs|];
      procs := procs[p := proc.(pc := AwaitXhr(|xhrs|, proc.pc.fileId))];
      xhrs := xhrs + [Xhr(proc.id, None)];
    }

    method Process(id: nat, resume: bool)
      modifies this
      ensures View() == Start(old(View()), id, resume)
    {
      var current := Find(items, id);
      if current.None? {
        return;
      }
      var proc := Proc(id, resume, current.value.progress, opts.hasComplete, AwaitSign);
      if resume && id in descriptors {
        procs := procs + [proc.(pc := HasDescriptor(descriptors[id]))];
        BeginUpload(|procs| - 1);
      } else {
        Merge(id, ToSigning);
        procs, signed := procs + [proc], signed + {id};
      }
    }

    method SignReturned(p: nat, result: Result<int, Thrown>)
      requires Valid() && p < |procs| && procs[p].pc.AwaitSign?
      modifies this
      ensures Valid() && View() == Apply(old(View()), SignReturns(p, result))
    {
      StepKeeps(View(), SignReturns(p, result));
      hide Inv;
      var id := procs[p].id;
      match result {
        case Err(e) =>
          Merge(id, ToError(Failed, MapError(e, SignFailed)));
          procs := procs[p := procs[p].(pc := Ended)];
        case Ok(fileId) =>
          descriptors := descriptors[id := fileId];
          Merge(id, WithFileId(fileId));
          procs := procs[p := procs[p].(pc := HasDescriptor(fileId))];
          BeginUpload(p);
      }
    }

    method UploadReturned(p: nat)
      requires Valid() && Enabled(View(), UploadReturns(p))
      modifies this
      ensures Valid() && View() == Apply(old(View()), UploadReturns(p))
    {
      StepKeeps(View(), UploadReturns(p));
      hide Inv;
      var proc := procs[p];
      var outcome := xhrs[proc.pc.xhr].outcome.value;
      if !Succeeded(outcome) {
        var code := CodeOf(outcome);
        Merge(proc.id, ToError(if code == Code.Canceled then Status.Canceled else Failed, code));
        procs := procs[p := proc.(pc := Ended)];
      } else if proc.hasComplete {
        Merge(proc.id, ToCompleting);
        procs := procs[p := proc.(pc := AwaitComplete(proc.pc.fileId))];
        finalizing := finalizing + [Called(p, proc.pc.fileId)];
      } else {
        Merge(proc.id, ToDone);
        procs := procs[p := proc.(pc := Ended)];
      }
    }

    method CompleteReturned(p: nat, thrown: Option<Thrown>)
      requires Valid() && p < |procs| && procs[p].pc.AwaitComplete?
      modifies this
      ensures Valid() && View() == Apply(old(View()), CompleteReturns(p, thrown))
    {
      StepKeeps(View(), CompleteReturns(p, thrown));
      hide Inv;
      if thrown.Some? {
        Merge(procs[p].id, ToError(Failed, MapError(thrown.value, MimeMismatch)));
      } else {
        Merge(procs[p].id, ToDone);
      }
      procs := procs[p := procs[p].(pc := Ended)];
      finalizing := finalizing + [Returned(p, thrown)];
    }

    // ----- callbacks -----

    method AddFiles(files: seq<File>)
      requires Valid() && mounted
      modifies this
      ensures Valid() && View() == Upload.AddFiles(old(View()), files)
    {
      AddFilesKeeps(View(), files);
      ReadyKeeps(View());
      hide Inv, Core, DropAll, CreateAll, Start, Room;
      if opts.disabled || files == [] {
        return;
      }
      ghost var before := View();
      var room := Room(opts, |items|, |files|);
      var taken := files[..room];
      if !opts.multi {
        DropEvery();
        xhrMap := map[];
      }
      assert View() == Ready(before);
      var created := Insert(taken);
      hide Upload.Insert, Ready;
      for i := 0 to |created|
        invariant StartAll(View(), created[i..]) == StartAll(Upload.Insert(Ready(before), taken), created)
      {
        assert created[i..][0] == created[i] && created[i..][1..] == created[i + 1..];
        if created[i].error.None? {
          Process(created[i].id, false);
        }
      }
      assert created[|created|..] == [];
      assert View() == StartAll(Upload.Insert(Ready(before), taken), created);
    }

    method DropEvery()
      modifies this
      ensures View() == DropAll(old(View()), old(items))
    {
      var olds := items;
      for i := 0 to |olds|
        invariant DropAll(View(), olds[i..]) == DropAll(old(View()), olds)
      {
        assert olds[i..][0] == olds[i] && olds[i..][1..] == olds[i + 1..];
        AbortOf(olds[i].id);
        Revoke(olds[i]);
        descriptors := descriptors - {olds[i].id};
      }
    }

    static method CreateEvery(o: Options, files: seq<File>, id: nat, url: nat) returns (created: seq<Item>)
      ensures created == CreateAll(o, files, id, url)
    {
      hide Create;
      created := [];
      var nextId, nextUrl := id, url;
      for i := 0 to |files|
        invariant CreateAll(o, files, id, url) == created + CreateAll(o, files[i..], nextId, nextUrl)
      {
        assert files[i..][0] == files[i] && files[i..][1..] == files[i + 1..];
        var it := Create(o, files[i], nextId, nextUrl);
        created := created + [it];
        nextId := nextId + 1;
        if it.preview.Some? {
          nextUrl := nextUrl + 1;
        }
      }
    }

    method Insert(files: seq<File>) returns (created: seq<Item>)
      modifies this
      ensures View() == Upload.Insert(old(View()), files)
      ensures created == CreateAll(old(opts), files, old(nextId), old(nextUrl))
    {
      created := CreateEvery(opts, files, nextId, nextUrl);
      nextId := nextId + |created|;
      nextUrl := nextUrl + |Held(created)|;
      items := if opts.multi then items + created else created;
      rejected := rejected + Rejected(created);
    }

    method Retry(id: nat)
      requires Valid() && mounted
      modifies this
      ensures Valid() && View() == Upload.Retry(old(View()), id)
    {
      RetryKeeps(View(), id);
      hide Inv, Start;
      var it := Find(items, id);
      if it.None? || !IsRetryable(it.value) {
        return;
      }
      Process(id, it.value.fileId.Some? && id in descriptors);
    }

    method Cancel(id: nat)
      requires Valid() && mounted
      modifies this
      ensures Valid() && View() == Upload.Cancel(old(View()), id)
    {
      CancelKeeps(View(), id);
      hide Inv;
      if id in xhrMap {
        AbortOf(id);
      } else {
        Merge(id, CancelIfActive);
      }
    }

    method Remove(id: nat)
      requires Valid() && mounted
      modifies this
      ensures Valid() && View() == Upload.Remove(old(View()), id)
    {
      RemoveKeeps(View(), id);
      hide Inv, Upload.AbortOf, Find, Without, PreviewOf;
      ghost var before := View();
      AbortOf(id);
      assert View() == Upload.AbortOf(before, id);
      xhrMap := xhrMap - {id};
      descriptors := descriptors - {id};
      var target := Find(items, id);
      if target.Some? {
        Revoke(target.value);
      }
      assert revoked == before.revoked + if target.Some? then PreviewOf(target.value) else [];
      items := Without(items, id);
      assert View() == Upload.Remove(before, id);
    }

    method Reset()
      requires Valid() && mounted
      modifies this
      ensures Valid() && View() == Upload.Reset(old(View()))
    {
      ResetKeeps(View());
      hide Inv;
      AbortEvery();
      descriptors := map[];
      RevokeEvery();
      items := [];
    }

    method Unmount()
      requires Valid() && mounted
      modifies this
      ensures Valid() && View() == Upload.Unmount(old(View()))
    {
      UnmountKeeps(View());
      hide Inv;
      AbortEvery();
      RevokeEvery();
      mounted := false;
    }
  }
}
