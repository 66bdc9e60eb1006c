/** What every step of the upload hook keeps. */
module UploadInvariants {
  import opened Wrappers
  import opened Upload
  import opened UploadItems

  /** Some upload of the item's file has answered 2xx. */
  ghost predicate Stored(xhrs: seq<Xhr>, id: nat) {
    exists x :: 0 <= x < |xhrs| && xhrs[x].id == id && xhrs[x].outcome.Some? && Succeeded(xhrs[x].outcome.value)
  }

  /** A rejected item keeps its terminal error; only a stored file is finalized. */
  ghost predicate ItemOk(s: State, it: Item) {
    && it.id < s.nextId
    && (it.id in s.rejected ==> it.status == Failed && it.error in {Some(Oversize), Some(WrongMime)})
    && (it.status in {Completing, Done} ==> Stored(s.xhrs, it.id))
  }

  ghost predicate ProcOk(s: State, proc: Proc) {
    && proc.id in s.signed
    && (proc.pc.AwaitXhr? ==> proc.pc.xhr < |s.xhrs| && s.xhrs[proc.pc.xhr].id == proc.id)
    && (proc.pc.AwaitComplete? ==> Stored(s.xhrs, proc.id))
  }

  /** The map holds open XHRs of items that are present. */
  ghost predicate TrackedOk(s: State, id: nat)
    requires id in s.xhrMap
  {
    var x := s.xhrMap[id];
    x < |s.xhrs| && s.xhrs[x].id == id && s.xhrs[x].outcome.None? && Has(s.items, id)
  }

  ghost predicate HistoryOk(s: State) {
    && (forall id :: id in s.signed || id in s.rejected ==> id < s.nextId)
    && s.signed !! s.rejected && s.descriptors.Keys <= s.signed
  }

  ghost predicate ItemsOk(s: State) {
    DistinctIds(s.items) && forall i :: 0 <= i < |s.items| ==> ItemOk(s, s.items[i])
  }

  ghost predicate ProcsOk(s: State) {
    forall p :: 0 <= p < |s.procs| ==> ProcOk(s, s.procs[p])
  }

  ghost predicate XhrsOk(s: State) {
    && (forall x :: 0 <= x < |s.xhrs| ==> s.xhrs[x].id in s.signed)
    && (forall id :: id in s.xhrMap ==> TrackedOk(s, id))
  }

  ghost predicate Core(s: State) {
    HistoryOk(s) && ItemsOk(s) && ProcsOk(s) && XhrsOk(s)
  }

  function Times(urls: seq<nat>, u: nat): nat {
    multiset(urls)[u]
  }

  /** Each of the first `n` object URLs is held once or was revoked once, and no other URL is either. */
  ghost predicate Accounted(held: seq<nat>, revoked: seq<nat>, n: nat) {
    forall u: nat :: Times(held, u) + Times(revoked, u) == if u < n then 1 else 0
  }

  ghost predicate UrlsOk(s: State) {
    Accounted(if s.mounted then Held(s.items) else [], s.revoked, s.nextUrl)
  }

  ghost predicate Inv(s: State) {
    Core(s) && UrlsOk(s)
  }

  /** Nothing that the URL count or the id supply looks at. */
  ghost predicate SameBooks(s: State, r: State) {
    && Held(r.items) == Held(s.items) && r.revoked == s.revoked && r.nextUrl == s.nextUrl
    && r.mounted == s.mounted && r.nextId == s.nextId && r.rejected == s.rejected
  }

  ghost predicate XhrsGrow(a: seq<Xhr>, b: seq<Xhr>) {
    && |a| <= |b|
    && forall x :: 0 <= x < |a| ==> b[x].id == a[x].id && (a[x].outcome.Some? ==> b[x] == a[x])
  }

  // ----- the four kinds of change -----

  ghost predicate PatchAllowed(s: State, id: nat, patch: Patch) {
    && (id in s.signed || patch.CancelIfActive?)
    && (patch.ToCompleting? || patch.ToDone? ==> Stored(s.xhrs, id))
    && (patch.ToError? ==> patch.status in {Failed, Status.Canceled})
  }

  lemma MergeKeeps(s: State, id: nat, patch: Patch)
    requires Core(s) && PatchAllowed(s, id, patch)
    ensures Core(Merge(s, id, patch)) && SameBooks(s, Merge(s, id, patch))
    ensures forall other :: Has(Merge(s, id, patch).items, other) <==> Has(s.items, other)
  {
    var r := Merge(s, id, patch);
    UpdateKeepsHeld(s.items, id, patch);
    SameIdsHave(s.items, r.items);
    MergeKeepsItems(s, id, patch);
    hide Has, Held, Update, ItemsOk, Stored;
    forall other | other in r.xhrMap ensures TrackedOk(r, other) {
      assert TrackedOk(s, other);
    }
    assert forall p :: 0 <= p < |s.procs| ==> ProcOk(s, s.procs[p]) ==> ProcOk(r, s.procs[p]);
  }

  lemma MergeKeepsItems(s: State, id: nat, patch: Patch)
    requires Core(s) && PatchAllowed(s, id, patch)
    ensures ItemsOk(Merge(s, id, patch))
  {
    hide ProcsOk, XhrsOk, Stored;
    var r := Merge(s, id, patch);
    forall i | 0 <= i < |r.items| ensures ItemOk(r, r.items[i]) {
      assert ItemOk(s, s.items[i]);
    }
  }

  lemma SameIdsHave(a: seq<Item>, b: seq<Item>)
    requires |a| == |b| && forall i :: 0 <= i < |a| ==> a[i].id == b[i].id
    ensures forall id :: Has(b, id) <==> Has(a, id)
  {
    forall id | Has(a, id) ensures Has(b, id) {
      var i :| 0 <= i < |a| && a[i].id == id;
      assert b[i].id == id;
    }
    forall id | Has(b, id) ensures Has(a, id) {
      var i :| 0 <= i < |b| && b[i].id == id;
      assert a[i].id == id;
    }
  }

  lemma ProcKeeps(s: State, r: State)
    requires Core(s) && r == s.(procs := r.procs)
    requires forall p :: 0 <= p < |r.procs| ==> ProcOk(s, r.procs[p])
    ensures Core(r) && SameBooks(s, r)
  {
  }

  lemma MoveKeeps(s: State, p: nat, pc: Pc)
    requires Core(s) && p < |s.procs| && ProcOk(s, s.procs[p].(pc := pc))
    ensures Core(Move(s, p, pc)) && SameBooks(s, Move(s, p, pc))
  {
  }

  lemma XhrsKeep(s: State, r: State)
    requires Core(s) && r == s.(xhrs := r.xhrs, xhrMap := r.xhrMap)
    requires XhrsGrow(s.xhrs, r.xhrs) && XhrsOk(r)
    ensures Core(r) && SameBooks(s, r)
  {
  }

  /** An XHR ends, by an event or by being aborted. */
  lemma FinishKeeps(s: State, x: nat, outcome: Outcome)
    requires Core(s) && x < |s.xhrs| && s.xhrs[x].outcome.None?
    ensures var r := s.(xhrs := s.xhrs[x := s.xhrs[x].(outcome := Some(outcome))], xhrMap := s.xhrMap - {s.xhrs[x].id});
            Core(r) && SameBooks(s, r)
  {
    var r := s.(xhrs := s.xhrs[x := s.xhrs[x].(outcome := Some(outcome))], xhrMap := s.xhrMap - {s.xhrs[x].id});
    forall id | id in r.xhrMap ensures TrackedOk(r, id) {
      assert TrackedOk(s, id);
    }
    XhrsKeep(s, r);
  }

  lemma AbortOfKeeps(s: State, id: nat)
    requires Core(s)
    ensures Core(AbortOf(s, id)) && SameBooks(s, AbortOf(s, id))
    ensures id !in AbortOf(s, id).xhrMap && AbortOf(s, id).xhrMap.Keys <= s.xhrMap.Keys
    ensures AbortOf(s, id) == s.(xhrs := AbortOf(s, id).xhrs, xhrMap := AbortOf(s, id).xhrMap)
  {
    if id in s.xhrMap {
      assert TrackedOk(s, id);
      FinishKeeps(s, s.xhrMap[id], Aborted);
    }
  }

  lemma AbortAllKeeps(s: State)
    requires Core(s)
    ensures Core(AbortAll(s)) && SameBooks(s, AbortAll(s))
  {
    XhrsKeep(s, AbortAll(s));
  }

  // ----- process -----

  lemma OpenKeeps(s: State, p: nat)
    requires Core(s) && p < |s.procs| && s.procs[p].pc.HasDescriptor? && Has(s.items, s.procs[p].id)
    ensures Core(OpenXhr(s, p)) && SameBooks(s, OpenXhr(s, p))
  {
    var id := s.procs[p].id;
    assert ProcOk(s, s.procs[p]);
    var grown := s.(xhrs := s.xhrs + [Xhr(id, None)], xhrMap := s.xhrMap[id := |s.xhrs|]);
    forall other | other in grown.xhrMap ensures TrackedOk(grown, other) {
      assert other != id ==> TrackedOk(s, other);
    }
    XhrsKeep(s, grown);
    MoveKeeps(grown, p, AwaitXhr(|s.xhrs|, s.procs[p].pc.fileId));
  }

  lemma BeginKeeps(s: State, p: nat)
    requires Core(s) && p < |s.procs| && s.procs[p].pc.HasDescriptor?
    ensures Core(BeginUpload(s, p)) && SameBooks(s, BeginUpload(s, p))
  {
    var proc := s.procs[p];
    FoundIsItem(s.items, proc.id);
    assert ProcOk(s, proc);
    if Find(s.items, proc.id).None? || Find(s.items, proc.id).value.status == Status.Canceled {
      MoveKeeps(s, p, Ended);
    } else {
      var patch := ToUploading(if proc.resume then proc.progress else 0);
      MergeKeeps(s, proc.id, patch);
      OpenKeeps(Merge(s, proc.id, patch), p);
    }
  }

  lemma {:induction false} StartKeeps(s: State, id: nat, resume: bool)
    requires Core(s) && id !in s.rejected
    ensures Core(Start(s, id, resume)) && SameBooks(s, Start(s, id, resume))
    ensures Start(s, id, resume).signed <= s.signed + {id}
  {
    hide HistoryOk, ItemsOk, ProcsOk, XhrsOk, ProcOk, Merge, BeginUpload;
    FoundIsItem(s.items, id);
    if Find(s.items, id).Some? {
      var current := Find(s.items, id).value;
      var proc := Proc(id, resume, current.progress, s.opts.hasComplete, AwaitSign);
      if resume && id in s.descriptors {
        ResumeKeeps(s, proc.(pc := HasDescriptor(s.descriptors[id])));
      } else {
        SignKeeps(s, proc);
      }
    }
  }

  lemma ResumeKeeps(s: State, proc: Proc)
    requires Core(s) && proc.id in s.descriptors && proc.pc.HasDescriptor?
    ensures var r := BeginUpload(s.(procs := s.procs + [proc]), |s.procs|);
            Core(r) && SameBooks(s, r) && r.signed == s.signed
  {
    var t := s.(procs := s.procs + [proc]);
    ProcKeeps(s, t);
    BeginKeeps(t, |s.procs|);
  }

  lemma SignKeeps(s: State, proc: Proc)
    requires Core(s) && Has(s.items, proc.id) && proc.id !in s.rejected && proc.pc.AwaitSign?
    ensures var r := Merge(s, proc.id, ToSigning).(procs := s.procs + [proc], signed := s.signed + {proc.id});
            Core(r) && SameBooks(s, r) && r.signed == s.signed + {proc.id}
  {
    var i :| 0 <= i < |s.items| && s.items[i].id == proc.id;
    assert ItemOk(s, s.items[i]);
    var t := s.(signed := s.signed + {proc.id});
    forall i | 0 <= i < |t.items| ensures ItemOk(t, t.items[i]) {
      assert ItemOk(s, s.items[i]);
    }
    forall other | other in t.xhrMap ensures TrackedOk(t, other) {
      assert TrackedOk(s, other);
    }
    forall p | 0 <= p < |t.procs| ensures ProcOk(t, t.procs[p]) {
      assert ProcOk(s, s.procs[p]);
    }
    var u := t.(procs := s.procs + [proc]);
    ProcKeeps(t, u);
    MergeKeeps(u, proc.id, ToSigning);
  }

  lemma SignSettlesKeeps(s: State, p: nat, result: Result<int, Thrown>)
    requires Core(s) && p < |s.procs| && s.procs[p].pc.AwaitSign?
    ensures Core(SignSettles(s, p, result)) && SameBooks(s, SignSettles(s, p, result))
  {
    var id := s.procs[p].id;
    assert ProcOk(s, s.procs[p]);
    match result
    case Err(e) =>
      MergeKeeps(s, id, ToError(Failed, MapError(e, SignFailed)));
      MoveKeeps(Merge(s, id, ToError(Failed, MapError(e, SignFailed))), p, Ended);
    case Ok(fileId) =>
      var t := s.(descriptors := s.descriptors[id := fileId]);
      forall i | 0 <= i < |t.items| ensures ItemOk(t, t.items[i]) {
        assert ItemOk(s, s.items[i]);
      }
      forall other | other in t.xhrMap ensures TrackedOk(t, other) {
        assert TrackedOk(s, other);
      }
      forall q | 0 <= q < |t.procs| ensures ProcOk(t, t.procs[q]) {
        assert ProcOk(s, s.procs[q]);
      }
      MergeKeeps(t, id, WithFileId(fileId));
      MoveKeeps(Merge(t, id, WithFileId(fileId)), p, HasDescriptor(fileId));
      BeginKeeps(Move(Merge(t, id, WithFileId(fileId)), p, HasDescriptor(fileId)), p);
  }

  lemma LogKeeps(s: State, log: seq<Finalizing>)
    requires Core(s)
    ensures Core(s.(finalizing := log))
  {
  }

  lemma UploadSettlesKeeps(s: State, p: nat)
    requires Core(s) && Enabled(s, UploadReturns(p))
    ensures Core(UploadSettles(s, p)) && SameBooks(s, UploadSettles(s, p))
  {
    var proc := s.procs[p];
    var x := proc.pc.xhr;
    var outcome := s.xhrs[x].outcome.value;
    assert ProcOk(s, proc);
    assert Succeeded(outcome) ==> Stored(s.xhrs, proc.id);
    var code := CodeOf(outcome);
    var patch :=
      if !Succeeded(outcome) then ToError(if code == Code.Canceled then Status.Canceled else Failed, code)
      else if proc.hasComplete then ToCompleting else ToDone;
    MergeKeeps(s, proc.id, patch);
    var pc := if Succeeded(outcome) && proc.hasComplete then AwaitComplete(proc.pc.fileId) else Ended;
    assert ProcOk(Merge(s, proc.id, patch), proc.(pc := pc));
    hide HistoryOk, ItemsOk, ProcsOk, XhrsOk, ProcOk, Update, Held, Stored, Has;
    MoveKeeps(Merge(s, proc.id, patch), p, pc);
    LogKeeps(Move(Merge(s, proc.id, patch), p, pc), UploadSettles(s, p).finalizing);
  }

  lemma CompleteSettlesKeeps(s: State, p: nat, thrown: Option<Thrown>)
    requires Core(s) && p < |s.procs| && s.procs[p].pc.AwaitComplete?
    ensures Core(CompleteSettles(s, p, thrown)) && SameBooks(s, CompleteSettles(s, p, thrown))
  {
    var id := s.procs[p].id;
    assert ProcOk(s, s.procs[p]);
    var patch := if thrown.Some? then ToError(Failed, MapError(thrown.value, MimeMismatch)) else ToDone;
    MergeKeeps(s, id, patch);
    assert ProcOk(Merge(s, id, patch), s.procs[p].(pc := Ended));
    hide HistoryOk, ItemsOk, ProcsOk, XhrsOk, ProcOk, Update, Held, Stored, Has;
    MoveKeeps(Merge(s, id, patch), p, Ended);
    LogKeeps(Move(Merge(s, id, patch), p, Ended), CompleteSettles(s, p, thrown).finalizing);
  }

  // ----- user actions -----

  ghost predicate FaultyAreRejected(created: seq<Item>, rejected: set<nat>) {
    forall i :: 0 <= i < |created| ==> (created[i].error.Some? <==> created[i].id in rejected)
  }

  lemma {:induction false} StartAllKeeps(s: State, created: seq<Item>)
    requires Core(s) && FaultyAreRejected(created, s.rejected)
    ensures Core(StartAll(s, created)) && SameBooks(s, StartAll(s, created))
    decreases |created|
  {
    hide Core, Start;
    if created != [] {
      var t := if created[0].error.None? then Start(s, created[0].id, false) else s;
      if created[0].error.None? {
        StartKeeps(s, created[0].id, false);
      }
      StartAllKeeps(t, created[1..]);
    }
  }

  lemma DropOneKeeps(s: State, it: Item)
    requires Core(s)
    ensures Core(DropOne(s, it))
    ensures DropOne(s, it).xhrMap.Keys <= s.xhrMap.Keys && it.id !in DropOne(s, it).xhrMap
  {
    AbortOfKeeps(s, it.id);
    var r := AbortOf(s, it.id);
    assert forall id :: id in r.xhrMap ==> TrackedOk(r, id);
    hide AbortOf;
    LessKeeps(r, DropOne(s, it));
  }

  lemma {:induction false} DropAllKeeps(s: State, olds: seq<Item>)
    requires Core(s)
    ensures Core(DropAll(s, olds))
    ensures DropAll(s, olds).xhrMap.Keys <= s.xhrMap.Keys
    ensures forall i :: 0 <= i < |olds| ==> olds[i].id !in DropAll(s, olds).xhrMap
    decreases |olds|
  {
    hide Core, DropOne;
    if olds != [] {
      DropOneKeeps(s, olds[0]);
      DropAllKeeps(DropOne(s, olds[0]), olds[1..]);
    }
  }

  /** Taking out items and descriptors, as long as no open XHR that is tracked loses its item. */
  lemma LessKeeps(s: State, r: State)
    requires Core(s)
    requires r == s.(opts := r.opts, items := r.items, descriptors := r.descriptors, mounted := r.mounted, revoked := r.revoked)
    requires DistinctIds(r.items) && (forall i :: 0 <= i < |r.items| ==> r.items[i] in s.items)
    requires r.descriptors.Keys <= s.descriptors.Keys && forall id :: id in s.xhrMap ==> Has(r.items, id)
    ensures Core(r)
  {
  }
}
