/** What the user's actions do, item by item, call by call and XHR by XHR. */
module UploadActions {
  import opened Wrappers
  import opened Texts
  import opened Upload
  import opened UploadItems
  import opened UploadInvariants
  import opened UploadRuns
  import opened UploadXhrs
  import opened UploadOutcomes

  // ----- the checks before sign -----

  /** An entry of the allow-list, trimmed and in lower case, admits a type: all of a kind, or itself. */
  ghost predicate Admits(entry: string, mime: string) {
    && entry != ""
    && if exists kind :: entry == kind + "/*" then exists kind, rest :: entry == kind + "/*" && mime == kind + "/" + rest
       else mime == entry
  }

  lemma AdmitsExactly(mime: string, entry: string)
    ensures Satisfies(mime, entry) <==> Admits(entry, mime)
  {
    var n := |entry| - 2;
    if n >= 0 && entry[n..] == "/*" {
      assert entry == entry[..n] + "/*" && entry[..n + 1] == entry[..n] + "/";
      forall kind | entry == kind + "/*" ensures kind == entry[..n] {
        assert |kind| == n && (kind + "/*")[..n] == kind;
      }
      if entry[..n + 1] <= mime {
        assert mime == entry[..n] + "/" + mime[n + 1..];
      }
    } else {
      forall kind ensures entry != kind + "/*" {
        assert |kind| == n ==> (kind + "/*")[n..] == "/*";
      }
    }
  }

  /** The entries as the checks see them. */
  ghost predicate Cleaned(accept: seq<string>, entries: seq<string>) {
    && |entries| == |accept|
    && forall i :: 0 <= i < |accept| ==> exists t :: TrimmedTo(accept[i], t) && entries[i] == Lower(t)
  }

  /** A file is too large for a limit that is set, or else of a type that no entry of a list admits. */
  ghost predicate Rejects(o: Options, entries: seq<string>, file: File, error: Option<Code>) {
    var large := o.maxByteSize > 0 && file.size > o.maxByteSize;
    var admitted := entries == [] || exists i :: 0 <= i < |entries| && Admits(entries[i], Lower(file.mime));
    error == if large then Some(Oversize) else if admitted then None else Some(WrongMime)
  }

  lemma CheckRejectsExactly(o: Options, file: File, entries: seq<string>)
    requires Cleaned(o.accept, entries)
    ensures Rejects(o, entries, file, Check(o, file))
  {
    forall i | 0 <= i < |entries|
      ensures entries[i] == Lower(TrimEnd(TrimStart(o.accept[i])))
      ensures Satisfies(Lower(file.mime), entries[i]) <==> Admits(entries[i], Lower(file.mime))
    {
      var t :| TrimmedTo(o.accept[i], t) && entries[i] == Lower(t);
      TrimIsExact(o.accept[i]);
      TrimmedToOne(o.accept[i], t, TrimEnd(TrimStart(o.accept[i])));
      AdmitsExactly(Lower(file.mime), entries[i]);
    }
    hide Satisfies, Admits, TrimmedTo, Lower;
  }

  /** Multi mode takes files as long as there is room, ten by default; single mode takes the first. */
  lemma RoomIsExact(o: Options, present: nat, n: nat)
    ensures var taken := Room(o, present, n);
            if o.multi then
              var max := if o.maxFiles.Some? then o.maxFiles.value else 10;
              && taken <= n && (taken > 0 ==> present + taken <= max) && (taken < n ==> present + taken >= max)
            else taken == (if n > 0 then 1 else 0)
  {
  }

  // ----- starting a call -----

  /** A new call of `process`, behind the old ones. */
  ghost predicate Adds(s: State, r: State, proc: Proc) {
    r.procs == s.procs + [proc]
  }

  /** Every item of the id is being signed, from the start. */
  ghost predicate ShownAsSigning(s: State, r: State, id: nat) {
    && OthersKept(s, r, id)
    && forall i :: 0 <= i < |s.items| && s.items[i].id == id ==>
         r.items[i] == s.items[i].(status := Signing, error := None, progress := 0, fileId := None)
  }

  ghost predicate ShownAsUploading(s: State, r: State, id: nat, progress: int) {
    && OthersKept(s, r, id)
    && forall i :: 0 <= i < |s.items| && s.items[i].id == id ==>
         r.items[i] == s.items[i].(status := Uploading, error := None, progress := progress)
  }

  /** Retrying: again from the upload with a descriptor at hand, else from `sign`; for anything else nothing. */
  lemma RetryOutcome(s: State, id: nat)
    requires Find(s.items, id).Some?
    ensures var r, it := Retry(s, id), Find(s.items, id).value;
            && it in s.items && it.id == id && r.finalizing == s.finalizing && r.descriptors == s.descriptors
            && var proc := Proc(id, true, it.progress, s.opts.hasComplete, Ended);
               if !(it.status == Status.Canceled
                    || (it.status == Failed && it.error in {Some(Network), Some(SignFailed), Some(QuotaExceeded)})) then
                 r == s
               else if it.fileId.None? || id !in s.descriptors then
                 && ShownAsSigning(s, r, id) && Adds(s, r, proc.(resume := false, pc := AwaitSign))
                 && r.signed == s.signed + {id} && r.xhrs == s.xhrs && r.xhrMap == s.xhrMap
               else if it.status == Status.Canceled then
                 r == s.(procs := r.procs) && Adds(s, r, proc)
               else
                 && ShownAsUploading(s, r, id, it.progress)
                 && Adds(s, r, proc.(pc := AwaitXhr(|s.xhrs|, s.descriptors[id]))) && r.signed == s.signed
                 && r.xhrs == s.xhrs + [Xhr(id, None)] && r.xhrMap == s.xhrMap[id := |s.xhrs|]
  {
    FoundIsItem(s.items, id);
    var it := Find(s.items, id).value;
    if IsRetryable(it) && it.fileId.Some? && id in s.descriptors {
      ResumeOutcome(s, Proc(id, true, it.progress, s.opts.hasComplete, HasDescriptor(s.descriptors[id])));
    }
    hide BeginUpload, Find;
  }

  lemma ResumeOutcome(s: State, proc: Proc)
    requires proc.pc.HasDescriptor? && proc.resume
    ensures var r := BeginUpload(s.(procs := s.procs + [proc]), |s.procs|);
            if Wanted(s, proc.id) then
              && ShownAsUploading(s, r, proc.id, proc.progress)
              && Adds(s, r, proc.(pc := AwaitXhr(|s.xhrs|, proc.pc.fileId))) && r.signed == s.signed
              && r.xhrs == s.xhrs + [Xhr(proc.id, None)] && r.xhrMap == s.xhrMap[proc.id := |s.xhrs|]
              && r.finalizing == s.finalizing && r.descriptors == s.descriptors
            else r == s.(procs := r.procs) && Adds(s, r, proc.(pc := Ended))
  {
    var t := s.(procs := s.procs + [proc]);
    assert forall pc :: t.procs[|s.procs| := proc.(pc := pc)] == s.procs + [proc.(pc := pc)];
    hide Find;
  }

  // ----- stopping -----

  /** One tracked XHR ends by being aborted, or nothing does. */
  ghost predicate AbortsOnly(s: State, r: State, id: nat) {
    && |r.xhrs| == |s.xhrs|
    && (forall x :: 0 <= x < |s.xhrs| ==>
          r.xhrs[x] == if id in s.xhrMap && s.xhrMap[id] == x then Xhr(id, Some(Aborted)) else s.xhrs[x])
    && r.xhrMap == s.xhrMap - {id}
  }

  /** Canceling aborts the item's XHR; without one, an item that is being signed, uploaded or completed is marked canceled. */
  lemma CancelOutcome(s: State, id: nat)
    requires Core(s)
    ensures var r := Cancel(s, id);
            && r == s.(items := r.items, xhrs := r.xhrs, xhrMap := r.xhrMap)
            && AbortsOnly(s, r, id)
            && (id in s.xhrMap ==> r.items == s.items)
            && (id !in s.xhrMap ==>
                  && OthersKept(s, r, id)
                  && forall i :: 0 <= i < |s.items| && s.items[i].id == id ==>
                       r.items[i] == if s.items[i].status in {Signing, Uploading, Completing}
                                     then s.items[i].(status := Status.Canceled, error := Some(Code.Canceled)) else s.items[i])
  {
    if id in s.xhrMap {
      assert TrackedOk(s, id);
    }
  }

  lemma {:induction false} WithoutIsCutOut(items: seq<Item>, id: nat, k: nat)
    requires DistinctIds(items) && k < |items| && items[k].id == id
    ensures Without(items, id) == items[..k] + items[k + 1..]
  {
    if k > 0 {
      WithoutIsCutOut(items[1..], id, k - 1);
      assert items[..k] == [items[0]] + items[1..][..k - 1] && items[1..][k..] == items[k + 1..];
    } else {
      assert items[0].id == id;
      forall i | 0 <= i < |items[1..]| ensures items[1..][i].id != id {
        assert items[i + 1].id != items[0].id;
      }
      WithoutAbsent(items[1..], id);
    }
  }

  /** Removing takes the item out, releases what it holds and aborts its XHR. */
  lemma RemoveOutcome(s: State, k: nat)
    requires Core(s) && k < |s.items|
    ensures var r, id := Remove(s, s.items[k].id), s.items[k].id;
            && r.items == s.items[..k] + s.items[k + 1..] && AbortsOnly(s, r, id)
            && r.descriptors == s.descriptors - {id} && r.procs == s.procs && r.finalizing == s.finalizing
            && r.revoked == s.revoked + if s.items[k].preview.Some? then [s.items[k].preview.value] else []
  {
    var id := s.items[k].id;
    assert Has(s.items, id);
    FoundIsItem(s.items, id);
    assert Find(s.items, id).value == s.items[k];
    WithoutIsCutOut(s.items, id, k);
    if id in s.xhrMap {
      assert TrackedOk(s, id);
    }
    hide Find, Without;
    assert s.xhrMap - {id} - {id} == s.xhrMap - {id};
  }

  /** Every tracked XHR is aborted, no other, and none stays tracked. */
  ghost predicate AbortsTracked(s: State, r: State) {
    && |r.xhrs| == |s.xhrs| && r.xhrMap == map[]
    && forall x :: 0 <= x < |s.xhrs| ==>
         r.xhrs[x] == if s.xhrs[x].id in s.xhrMap && s.xhrMap[s.xhrs[x].id] == x then Xhr(s.xhrs[x].id, Some(Aborted)) else s.xhrs[x]
  }

  /** `reset` lets go of everything; unmounting does too, and keeps the list for nobody. */
  lemma ResetAndUnmountOutcome(s: State)
    requires Core(s)
    ensures var r := Reset(s);
            && r.items == [] && r.descriptors == map[] && r.procs == s.procs && r.mounted == s.mounted
            && AbortsTracked(s, r) && r.revoked == s.revoked + Held(s.items)
    ensures var r := Unmount(s);
            && r.items == s.items && r.procs == s.procs && !r.mounted
            && AbortsTracked(s, r) && r.revoked == s.revoked + Held(s.items)
  {
    AbortAllTracked(s);
    hide AbortAll, Held, AbortsTracked;
    AbortsIgnores(s, AbortAll(s));
  }

  lemma AbortAllTracked(s: State)
    requires Core(s)
    ensures AbortsTracked(s, AbortAll(s))
    ensures AbortAll(s) == s.(xhrs := AbortAll(s).xhrs, xhrMap := map[])
  {
    forall x | 0 <= x < |s.xhrs|
      ensures s.xhrs[x].outcome.None? && x in s.xhrMap.Values <==> s.xhrs[x].id in s.xhrMap && s.xhrMap[s.xhrs[x].id] == x
    {
      if x in s.xhrMap.Values {
        var id :| id in s.xhrMap && s.xhrMap[id] == x;
        assert TrackedOk(s, id);
      }
      if s.xhrs[x].id in s.xhrMap && s.xhrMap[s.xhrs[x].id] == x {
        assert TrackedOk(s, s.xhrs[x].id);
      }
    }
  }

  lemma AbortsIgnores(s: State, t: State)
    requires AbortsTracked(s, t)
    ensures forall r: State :: r.xhrs == t.xhrs && r.xhrMap == t.xhrMap ==> AbortsTracked(s, r)
  {
  }

  // ----- adding files -----

  /** The calls started for the files that pass the checks, in order. */
  function Signers(created: seq<Item>, hasComplete: bool): seq<Proc> {
    if created == [] then []
    else (if created[0].error.None? then [Proc(created[0].id, false, 0, hasComplete, AwaitSign)] else [])
         + Signers(created[1..], hasComplete)
  }

  function Started(it: Item): Item {
    if it.error.None? then it.(status := Signing) else it
  }

  /** The last items of the list are those just created. */
  ghost predicate AtEnd(items: seq<Item>, created: seq<Item>) {
    |created| <= |items| && items[|items| - |created|..] == created
  }

  ghost predicate StartedAtEnd(s: State, r: State, created: seq<Item>) {
    && |r.items| == |s.items| && |created| <= |s.items|
    && (forall i :: 0 <= i < |s.items| - |created| ==> r.items[i] == s.items[i])
    && (forall k :: 0 <= k < |created| ==> r.items[|s.items| - |created| + k] == Started(created[k]))
    && r.procs == s.procs + Signers(created, s.opts.hasComplete)
    && (forall id :: id in r.signed <==> id in s.signed || exists k :: 0 <= k < |created| && created[k].error.None? && created[k].id == id)
    && r == s.(items := r.items, procs := r.procs, signed := r.signed)
  }

  lemma StartedFirst(s: State, it: Item, k: nat)
    requires DistinctIds(s.items) && k < |s.items| && s.items[k] == it && it.error.None?
    requires it.progress == 0 && it.fileId.None?
    ensures var r := Start(s, it.id, false);
            && r == s.(items := s.items[k := it.(status := Signing)],
                       procs := s.procs + [Proc(it.id, false, 0, s.opts.hasComplete, AwaitSign)], signed := s.signed + {it.id})
  {
    assert Has(s.items, it.id);
    FoundIsItem(s.items, it.id);
    assert Find(s.items, it.id).value == it;
    assert Update(s.items, it.id, ToSigning) == s.items[k := it.(status := Signing)];
  }

  lemma {:induction false} StartAllStarts(s: State, created: seq<Item>)
    requires DistinctIds(s.items) && AtEnd(s.items, created)
    requires forall k :: 0 <= k < |created| ==> created[k].progress == 0 && created[k].fileId.None?
    ensures StartedAtEnd(s, StartAll(s, created), created)
    decreases |created|
  {
    if created != [] {
      var k, it := |s.items| - |created|, created[0];
      assert s.items[k] == it;
      var t := if it.error.None? then Start(s, it.id, false) else s;
      if it.error.None? {
        StartedFirst(s, it, k);
      }
      hide Start;
      NextAtEnd(s.items, t.items, created);
      StartAllStarts(t, created[1..]);
      hide StartAll, DistinctIds, AtEnd;
      StartedOn(s, t, StartAll(t, created[1..]), created);
    }
  }

  lemma NextAtEnd(items: seq<Item>, next: seq<Item>, created: seq<Item>)
    requires DistinctIds(items) && AtEnd(items, created) && created != []
    requires next == items || next == items[|items| - |created| := created[0].(status := Signing)]
    ensures DistinctIds(next) && AtEnd(next, created[1..])
  {
    var k := |items| - |created|;
    assert items[k] == created[0];
    assert next[k + 1..] == items[k + 1..] == items[k..][1..];
  }

  lemma StartedOn(s: State, t: State, r: State, created: seq<Item>)
    requires created != [] && StartedAtEnd(t, r, created[1..]) && |created| <= |s.items|
    requires var k, it := |s.items| - |created|, created[0];
             && s.items[k] == it
             && t == if it.error.None? then
                       s.(items := s.items[k := it.(status := Signing)],
                          procs := s.procs + [Proc(it.id, false, 0, s.opts.hasComplete, AwaitSign)], signed := s.signed + {it.id})
                     else s
    ensures StartedAtEnd(s, r, created)
  {
    var k := |s.items| - |created|;
    forall j | 0 <= j < |created| ensures r.items[k + j] == Started(created[j]) {
      if j == 0 {
        assert r.items[k] == t.items[k];
      } else {
        assert created[1..][j - 1] == created[j] && r.items[k + 1 + (j - 1)] == Started(created[1..][j - 1]);
      }
    }
    forall id ensures id in r.signed <==>
                      id in s.signed || exists j :: 0 <= j < |created| && created[j].error.None? && created[j].id == id {
      if j :| 0 <= j < |created| && created[j].error.None? && created[j].id == id {
        assert j > 0 ==> created[1..][j - 1] == created[j];
      }
      if j :| 0 <= j < |created[1..]| && created[1..][j].error.None? && created[1..][j].id == id {
        assert created[j + 1] == created[1..][j];
      }
    }
    assert r.procs == s.procs + Signers(created, s.opts.hasComplete);
  }

  // Single mode first lets go of the old items.

  ghost predicate Tracked(s: State, x: nat) {
    x < |s.xhrs| && s.xhrs[x].id in s.xhrMap && s.xhrMap[s.xhrs[x].id] == x
  }

  ghost predicate AbortsOf(s: State, r: State, olds: seq<Item>) {
    && |r.xhrs| == |s.xhrs|
    && (forall x :: 0 <= x < |s.xhrs| ==>
          r.xhrs[x] == if Tracked(s, x) && Has(olds, s.xhrs[x].id) then Xhr(s.xhrs[x].id, Some(Aborted)) else s.xhrs[x])
    && (forall id :: id in r.xhrMap <==> id in s.xhrMap && !Has(olds, id))
    && (forall id :: id in r.xhrMap ==> r.xhrMap[id] == s.xhrMap[id])
  }

  lemma OneAborted(s: State, it: Item)
    requires Core(s)
    ensures AbortsOf(s, DropOne(s, it), [it])
  {
    if it.id in s.xhrMap {
      assert TrackedOk(s, it.id);
    }
    forall id ensures Has([it], id) <==> id == it.id {
      assert [it][0] == it;
    }
  }

  lemma AbortsOn(s: State, t: State, r: State, olds: seq<Item>)
    requires olds != [] && AbortsOf(s, t, [olds[0]]) && AbortsOf(t, r, olds[1..])
    ensures AbortsOf(s, r, olds)
  {
    forall id ensures Has(olds, id) <==> Has([olds[0]], id) || Has(olds[1..], id) {
      HasSplits(olds, id);
    }
    hide Has;
    forall x | 0 <= x < |s.xhrs|
      ensures r.xhrs[x] == if Tracked(s, x) && Has(olds, s.xhrs[x].id) then Xhr(s.xhrs[x].id, Some(Aborted)) else s.xhrs[x]
    {
      assert t.xhrs[x].id == s.xhrs[x].id;
      assert Tracked(t, x) <==> Tracked(s, x) && !Has([olds[0]], s.xhrs[x].id);
    }
  }

  lemma HasSplits(items: seq<Item>, id: nat)
    requires items != []
    ensures Has(items, id) <==> Has([items[0]], id) || Has(items[1..], id)
  {
    assert [items[0]][0] == items[0];
    if i :| 0 <= i < |items| && items[i].id == id {
      assert i > 0 ==> items[1..][i - 1] == items[i];
    }
    if i :| 0 <= i < |items[1..]| && items[1..][i].id == id {
      assert items[i + 1] == items[1..][i];
    }
  }

  lemma {:induction false} AllAborted(s: State, olds: seq<Item>)
    requires Core(s)
    ensures AbortsOf(s, DropAll(s, olds), olds)
    decreases |olds|
  {
    hide Core, DropOne;
    if olds == [] {
      NoneAborted(s);
    } else {
      OneAborted(s, olds[0]);
      DropOneKeeps(s, olds[0]);
      AllAborted(DropOne(s, olds[0]), olds[1..]);
      hide AbortsOf;
      AbortsOn(s, DropOne(s, olds[0]), DropAll(DropOne(s, olds[0]), olds[1..]), olds);
    }
  }

  lemma NoneAborted(s: State)
    ensures AbortsOf(s, s, [])
  {
  }

  /** What single mode lets go of: every tracked XHR, every object URL and every descriptor. */
  lemma ReadyOutcome(s: State)
    requires Core(s)
    ensures var r := Ready(s);
            if s.opts.multi then r == s
            else
              && r == s.(xhrs := r.xhrs, xhrMap := map[], revoked := s.revoked + Held(s.items), descriptors := r.descriptors)
              && AbortsTracked(s, r)
              && forall i :: 0 <= i < |s.items| ==> s.items[i].id !in r.descriptors
  {
    if !s.opts.multi {
      AllAborted(s, s.items);
      DropAllReleases(s, s.items);
      DescriptorsDropped(s, s.items);
      forall id | id in s.xhrMap ensures Has(s.items, id) {
        assert TrackedOk(s, id);
      }
      hide Core, DropAll, Has, Held;
    }
  }

  lemma {:induction false} DescriptorsDropped(s: State, olds: seq<Item>)
    ensures forall i :: 0 <= i < |olds| ==> olds[i].id !in DropAll(s, olds).descriptors
    decreases |olds|
  {
    hide AbortOf;
    if olds != [] {
      DescriptorsDropped(DropOne(s, olds[0]), olds[1..]);
      DropAllReleases(DropOne(s, olds[0]), olds[1..]);
    }
  }

  lemma {:induction false} CreatedItems(o: Options, files: seq<File>, id: nat, url: nat, i: nat)
    requires i < |files|
    ensures var it := CreateAll(o, files, id, url)[i];
            && it == Item(id + i, files[i], it.preview, if it.error.Some? then Failed else Idle, 0, None, Check(o, files[i]))
            && (it.preview.Some? <==> o.preview && "image/" <= files[i].mime)
  {
    hide Check;
    var first := Create(o, files[0], id, url);
    if i > 0 {
      CreatedItems(o, files[1..], id + 1, if first.preview.Some? then url + 1 else url, i - 1);
    }
  }

  lemma AllCreatedItems(o: Options, files: seq<File>, id: nat, url: nat)
    ensures var created := CreateAll(o, files, id, url);
            forall i :: 0 <= i < |created| ==>
              && created[i] == Item(id + i, files[i], created[i].preview, if created[i].error.Some? then Failed else Idle, 0, None,
                                    Check(o, files[i]))
              && (created[i].preview.Some? <==> o.preview && "image/" <= files[i].mime)
  {
    hide Check, CreateAll;
    forall i | 0 <= i < |files|
      ensures var created := CreateAll(o, files, id, url);
              && created[i] == Item(id + i, files[i], created[i].preview, if created[i].error.Some? then Failed else Idle, 0, None,
                                    Check(o, files[i]))
              && (created[i].preview.Some? <==> o.preview && "image/" <= files[i].mime)
    {
      CreatedItems(o, files, id, url, i);
    }
  }

  /** A file that was taken, as its item is then shown: being signed, or with the error of its check. */
  ghost predicate ShownAsAdded(o: Options, it: Item, file: File, id: nat) {
    && it.id == id && it.file == file && it.error == Check(o, file)
    && it.status == (if it.error.None? then Signing else Failed) && it.progress == 0 && it.fileId.None?
    && (it.preview.Some? <==> o.preview && "image/" <= file.mime)
  }

  /** Items for these files stand behind the kept ones, and the checked ones among them are being signed in order. */
  ghost predicate AddsFiles(s: State, r: State, taken: seq<File>) {
    var kept := if s.opts.multi then s.items else [];
    && |r.items| == |kept| + |taken| && r.items[..|kept|] == kept && r.nextId == s.nextId + |taken|
    && (forall i :: 0 <= i < |taken| ==> ShownAsAdded(s.opts, r.items[|kept| + i], taken[i], s.nextId + i))
    && r.procs == s.procs + Signers(r.items[|kept|..], s.opts.hasComplete)
    && r.xhrs == Ready(s).xhrs && r.xhrMap == Ready(s).xhrMap && r.revoked == Ready(s).revoked
    && r.descriptors == Ready(s).descriptors && r.finalizing == s.finalizing
  }

  /**
   * Adding files: as many as there is room for, from the front, become items behind the old ones, or in
   * their place in single mode. Each that passes the checks is being signed, by a call of its own; the
   * others are shown with their error.
   */
  lemma AddFilesOutcome(s: State, files: seq<File>)
    requires Inv(s) && s.mounted
    ensures if s.opts.disabled || files == [] then AddFiles(s, files) == s
            else AddsFiles(s, AddFiles(s, files), files[..Room(s.opts, |s.items|, |files|)])
  {
    hide Inv, Room, Ready, AddsFiles, Insert, CreateAll, StartAll;
    if !s.opts.disabled && files != [] {
      AddedFiles(s, files[..Room(s.opts, |s.items|, |files|)]);
    }
  }

  lemma AddedFiles(s: State, taken: seq<File>)
    requires Inv(s) && s.mounted
    ensures AddsFiles(s, StartAll(Insert(Ready(s), taken), CreateAll(s.opts, taken, s.nextId, s.nextUrl)), taken)
  {
    hide Inv, CreateAll, StartAll, Held, Check, StartedAtEnd, AtEnd, Signers, DistinctIds, Ready, Started, ShownAsAdded, Insert;
    var t, created := Insert(Ready(s), taken), CreateAll(s.opts, taken, s.nextId, s.nextUrl);
    var kept := if s.opts.multi then s.items else [];
    InsertedAtEnd(s, taken);
    CreatedAreNew(s.opts, taken, s.nextId, s.nextUrl);
    StartAllStarts(t, created);
    ListAfter(t, StartAll(t, created), kept, created);
  }

  lemma CreatedAreNew(o: Options, files: seq<File>, id: nat, url: nat)
    ensures var created := CreateAll(o, files, id, url);
            && |created| == |files|
            && (forall i :: 0 <= i < |created| ==> created[i].progress == 0 && created[i].fileId.None?)
            && (forall i :: 0 <= i < |created| ==> ShownAsAdded(o, Started(created[i]), files[i], id + i))
  {
    hide CreateAll, Check;
    AllCreatedItems(o, files, id, url);
  }

  lemma ListAfter(t: State, r: State, kept: seq<Item>, created: seq<Item>)
    requires StartedAtEnd(t, r, created) && t.items == kept + created
    ensures |r.items| == |kept| + |created| && r.items[..|kept|] == kept
    ensures forall i :: 0 <= i < |created| ==> r.items[|kept| + i] == Started(created[i])
    ensures r.procs == t.procs + Signers(r.items[|kept|..], t.opts.hasComplete)
    ensures r == t.(items := r.items, procs := r.procs, signed := r.signed)
  {
    StartedSigners(created, r.items[|kept|..], t.opts.hasComplete);
    hide Signers, Started;
  }

  lemma InsertedAtEnd(s: State, taken: seq<File>)
    requires Inv(s) && s.mounted
    ensures var ready, t, created := Ready(s), Insert(Ready(s), taken), CreateAll(s.opts, taken, s.nextId, s.nextUrl);
            && DistinctIds(t.items) && AtEnd(t.items, created) && t.opts == s.opts
            && t.items == (if s.opts.multi then s.items else []) + created && t.nextId == s.nextId + |created|
            && ready.procs == s.procs && ready.finalizing == s.finalizing
            && t.xhrs == ready.xhrs && t.xhrMap == ready.xhrMap && t.revoked == ready.revoked && t.procs == s.procs
            && t.descriptors == ready.descriptors && t.finalizing == s.finalizing
  {
    ReadyKeeps(s);
    DropAllReleases(s, s.items);
    hide CreateAll, Held, Inv, Accounted, DropAll, FaultyAreRejected;
    InsertKeepsCore(Ready(s), taken);
  }

  lemma {:induction false} StartedSigners(created: seq<Item>, started: seq<Item>, hasComplete: bool)
    requires |started| == |created| && forall k :: 0 <= k < |created| ==> started[k] == Started(created[k])
    ensures Signers(started, hasComplete) == Signers(created, hasComplete)
  {
    if created != [] {
      assert started[0] == Started(created[0]);
      StartedSigners(created[1..], started[1..], hasComplete);
    }
  }
}
