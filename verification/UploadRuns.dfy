/** Every run of the upload hook: object URLs, rejected items, XHRs. */
module UploadRuns {
  import opened Upload
  import opened UploadItems
  import opened UploadInvariants

  // ----- the steps that create and release object URLs -----

  lemma TimesAdds(a: seq<nat>, b: seq<nat>)
    ensures forall u :: Times(a + b, u) == Times(a, u) + Times(b, u)
  {
  }

  lemma AccountedMore(held: seq<nat>, more: seq<nat>, revoked: seq<nat>, n: nat)
    requires Accounted(held, revoked, n) && forall i :: 0 <= i < |more| ==> more[i] == n + i
    ensures Accounted(held + more, revoked, n + |more|)
  {
    TimesAdds(held, more);
    forall u: nat ensures Times(more, u) == if n <= u < n + |more| then 1 else 0 {
      CountRange(more, n, u);
    }
  }

  lemma {:induction false} CountRange(more: seq<nat>, n: nat, u: nat)
    requires forall i :: 0 <= i < |more| ==> more[i] == n + i
    ensures Times(more, u) == if n <= u < n + |more| then 1 else 0
  {
    if more != [] {
      CountRange(more[..|more| - 1], n, u);
      assert more == more[..|more| - 1] + [more[|more| - 1]];
    }
  }

  lemma Moved(held: seq<nat>, kept: seq<nat>, released: seq<nat>, revoked: seq<nat>, n: nat)
    requires Accounted(held, revoked, n) && multiset(kept) + multiset(released) == multiset(held)
    ensures Accounted(kept, revoked + released, n)
  {
    TimesAdds(revoked, released);
    forall u ensures Times(held, u) == Times(kept, u) + Times(released, u) {
      assert (multiset(kept) + multiset(released))[u] == Times(held, u);
    }
  }

  /** The created items are well-formed, their ids are new, and `rejected` tells the faulty ones. */
  lemma InsertedItems(s: State, files: seq<File>)
    requires HistoryOk(s) && ItemsOk(s)
    ensures var r, created := Insert(s, files), CreateAll(s.opts, files, s.nextId, s.nextUrl);
            HistoryOk(r) && ItemsOk(r) && FaultyAreRejected(created, r.rejected)
  {
    var created := CreateAll(s.opts, files, s.nextId, s.nextUrl);
    CreatedAreFresh(s.opts, files, s.nextId, s.nextUrl);
    var r := Insert(s, files);
    hide CreateAll, Held, Stored;
    forall i | 0 <= i < |s.items| ensures ItemOk(s, s.items[i]) && ItemOk(r, s.items[i]) {
    }
    forall i | 0 <= i < |created| ensures ItemOk(r, created[i]) {
      assert created[i].id !in s.rejected && created[i].error == Check(s.opts, files[i]);
    }
  }

  lemma InsertKeepsCore(s: State, files: seq<File>)
    requires Core(s) && (s.opts.multi || s.xhrMap == map[])
    ensures var r, created := Insert(s, files), CreateAll(s.opts, files, s.nextId, s.nextUrl);
            Core(r) && FaultyAreRejected(created, r.rejected)
  {
    var r := Insert(s, files);
    InsertedItems(s, files);
    hide CreateAll, Held, ItemsOk, HistoryOk, FaultyAreRejected;
    forall id | id in r.xhrMap ensures TrackedOk(r, id) {
      assert TrackedOk(s, id);
      var i :| 0 <= i < |s.items| && s.items[i].id == id;
      assert r.items[i].id == id;
    }
    forall p | 0 <= p < |r.procs| ensures ProcOk(r, r.procs[p]) {
      assert ProcOk(s, r.procs[p]);
    }
  }

  lemma ReadyKeeps(s: State)
    requires Inv(s) && s.mounted
    ensures Core(Ready(s)) && (s.opts.multi || Ready(s).xhrMap == map[]) && Ready(s).opts == s.opts
    ensures Accounted(if s.opts.multi then Held(s.items) else [], Ready(s).revoked, s.nextUrl)
    ensures Ready(s).items == s.items && Ready(s).nextId == s.nextId && Ready(s).nextUrl == s.nextUrl && Ready(s).mounted
    ensures !s.opts.multi ==> Ready(s) == DropAll(s, s.items)
  {
    if !s.opts.multi {
      var r := DropAll(s, s.items);
      DropAllKeeps(s, s.items);
      DropAllReleases(s, s.items);
      assert r.xhrMap.Keys == {};
      assert r.xhrMap == map[];
      Moved(Held(s.items), [], Held(s.items), s.revoked, s.nextUrl);
    }
  }

  lemma InsertKeepsUrls(s: State, files: seq<File>)
    requires Accounted(if s.opts.multi then Held(s.items) else [], s.revoked, s.nextUrl) && s.mounted
    ensures UrlsOk(Insert(s, files))
  {
    var created := CreateAll(s.opts, files, s.nextId, s.nextUrl);
    var kept := if s.opts.multi then Held(s.items) else [];
    CreatedAreFresh(s.opts, files, s.nextId, s.nextUrl);
    HeldAppends(s.items, created);
    assert Accounted(kept, s.revoked, s.nextUrl);
    hide Accounted, CreateAll, Held;
    AccountedMore(kept, Held(created), s.revoked, s.nextUrl);
    assert Held(Insert(s, files).items) == kept + Held(created);
  }

  lemma AddFilesKeeps(s: State, files: seq<File>)
    requires Inv(s) && s.mounted
    ensures Inv(AddFiles(s, files)) && AddFiles(s, files).mounted
  {
    if !s.opts.disabled && files != [] {
      var taken := files[..Room(s.opts, |s.items|, |files|)];
      var ready := Ready(s);
      ReadyKeeps(s);
      InsertKeepsCore(ready, taken);
      InsertKeepsUrls(ready, taken);
      hide Core, Accounted, CreateAll, StartAll, Room, DropAll, Held, FaultyAreRejected;
      var created := CreateAll(s.opts, taken, s.nextId, s.nextUrl);
      assert created == CreateAll(ready.opts, taken, ready.nextId, ready.nextUrl);
      assert Insert(ready, taken).mounted && UrlsOk(Insert(ready, taken));
      StartAllKeeps(Insert(ready, taken), created);
    }
  }

  lemma RetryKeeps(s: State, id: nat)
    requires Inv(s)
    ensures Inv(Retry(s, id)) && Retry(s, id).mounted == s.mounted
  {
    FoundIsItem(s.items, id);
    var it := Find(s.items, id);
    if it.Some? && IsRetryable(it.value) {
      var i :| 0 <= i < |s.items| && s.items[i] == it.value;
      assert ItemOk(s, s.items[i]);
      StartKeeps(s, id, it.value.fileId.Some? && id in s.descriptors);
    }
  }

  lemma RemoveKeepsCore(t: State, r: State, id: nat)
    requires Core(t) && id !in t.xhrMap
    requires r == t.(items := Without(t.items, id), descriptors := t.descriptors - {id}, revoked := r.revoked)
    ensures Core(r)
  {
    WithoutHas(t.items, id);
    hide Without;
    forall i | 0 <= i < |r.items| ensures r.items[i] in t.items {
      assert r.items[i] in r.items;
    }
    forall other | other in t.xhrMap ensures Has(r.items, other) {
      assert TrackedOk(t, other);
      var i :| 0 <= i < |t.items| && t.items[i].id == other;
      assert t.items[i] in r.items;
    }
    LessKeeps(t, r);
  }

  lemma RemoveKeeps(s: State, id: nat)
    requires Inv(s) && s.mounted
    ensures Inv(Remove(s, id))
  {
    AbortOfKeeps(s, id);
    var t, r := AbortOf(s, id), Remove(s, id);
    var target := Find(s.items, id);
    assert t.xhrMap - {id} == t.xhrMap;
    WithoutReleases(s.items, id);
    Moved(Held(s.items), Held(r.items), if target.Some? then PreviewOf(target.value) else [], s.revoked, s.nextUrl);
    hide Accounted, Core, AbortOf, Without, Find;
    RemoveKeepsCore(t, r, id);
  }

  lemma ResetKeeps(s: State)
    requires Inv(s) && s.mounted
    ensures Inv(Reset(s))
  {
    AbortAllKeeps(s);
    Moved(Held(s.items), [], Held(s.items), s.revoked, s.nextUrl);
    hide Accounted;
    LessKeeps(AbortAll(s), Reset(s));
  }

  lemma UnmountKeeps(s: State)
    requires Inv(s) && s.mounted
    ensures Inv(Unmount(s))
  {
    AbortAllKeeps(s);
    Moved(Held(s.items), [], Held(s.items), s.revoked, s.nextUrl);
    hide Accounted;
    LessKeeps(AbortAll(s), Unmount(s));
  }

  // ----- every step, every run -----

  lemma SettlingKeeps(s: State, step: Step)
    requires Inv(s) && Enabled(s, step) && !IsAction(step)
    ensures Inv(Apply(s, step)) && SameBooks(s, Apply(s, step))
  {
    hide Accounted, Held, SignSettles, UploadSettles, CompleteSettles;
    match step
    case SignReturns(p, result) => SignSettlesKeeps(s, p, result);
    case UploadReturns(p) => UploadSettlesKeeps(s, p);
    case CompleteReturns(p, thrown) => CompleteSettlesKeeps(s, p, thrown);
    case XhrFires(x, outcome) => FinishKeeps(s, x, outcome);
    case XhrProgress(x, loaded, total) =>
      if total > 0 {
        MergeKeeps(s, s.xhrs[x].id, WithProgress(Percent(loaded, total)));
      }
  }

  lemma RenderKeeps(s: State, opts: Options)
    requires Inv(s)
    ensures Inv(s.(opts := opts))
  {
  }

  lemma StepKeeps(s: State, step: Step)
    requires Inv(s) && Enabled(s, step)
    ensures Inv(Apply(s, step))
  {
    if !IsAction(step) {
      SettlingKeeps(s, step);
    } else {
      hide Inv;
      match step
      case Render(opts) => RenderKeeps(s, opts);
      case Adding(files) => AddFilesKeeps(s, files);
      case Retrying(id) => RetryKeeps(s, id);
      case Canceling(id) => CancelKeeps(s, id);
      case Removing(id) => RemoveKeeps(s, id);
      case Resetting => ResetKeeps(s);
      case Unmounting => UnmountKeeps(s);
    }
  }

  lemma CancelKeeps(s: State, id: nat)
    requires Inv(s)
    ensures Inv(Cancel(s, id))
  {
    AbortOfKeeps(s, id);
    MergeKeeps(s, id, CancelIfActive);
  }

  lemma {:induction false} RunKeeps(trace: seq<State>, patient: bool, k: nat)
    requires Run(trace, patient) && k < |trace|
    ensures Inv(trace[k])
  {
    if k > 0 {
      RunKeeps(trace, patient, k - 1);
      assert Next(trace[k - 1], trace[k], patient);
      var step :| Enabled(trace[k - 1], step) && trace[k] == Apply(trace[k - 1], step);
      StepKeeps(trace[k - 1], step);
    }
  }

  /** While mounted, each object URL ever created is held by one item or was revoked once, never both; afterwards each was revoked once. */
  lemma UrlsAreNeverLost(trace: seq<State>, k: nat, u: nat)
    requires Run(trace, false) && k < |trace| && u < trace[k].nextUrl
    ensures var s := trace[k];
            if s.mounted then Times(Held(s.items), u) + Times(s.revoked, u) == 1
            else Times(s.revoked, u) == 1
  {
    RunKeeps(trace, false, k);
    var s := trace[k];
    assert Accounted(if s.mounted then Held(s.items) else [], s.revoked, s.nextUrl);
  }

  /** An item that failed the size or type check is never passed to `sign`, retried or uploaded. */
  lemma RejectedIsNeverSigned(trace: seq<State>, k: nat, id: nat)
    requires Run(trace, false) && k < |trace| && id in trace[k].rejected
    ensures id !in trace[k].signed
    ensures forall x :: 0 <= x < |trace[k].xhrs| ==> trace[k].xhrs[x].id != id
    ensures forall i :: 0 <= i < |trace[k].items| && trace[k].items[i].id == id ==> !IsRetryable(trace[k].items[i])
  {
    RunKeeps(trace, false, k);
    forall i | 0 <= i < |trace[k].items| ensures ItemOk(trace[k], trace[k].items[i]) {}
  }

  /** Only a file whose upload answered 2xx is shown as completing or done. */
  lemma DoneMeansStored(trace: seq<State>, k: nat, i: nat)
    requires Run(trace, false) && k < |trace| && i < |trace[k].items| && trace[k].items[i].status in {Completing, Done}
    ensures Stored(trace[k].xhrs, trace[k].items[i].id) && trace[k].items[i].id !in trace[k].rejected
  {
    RunKeeps(trace, false, k);
    assert ItemOk(trace[k], trace[k].items[i]);
  }
}
