/**
 * The upload hook as a step machine. User actions and settling sign, XHR and complete calls are the
 * steps; `process` is cut at its awaits, and each `Proc` is one call of it.
 */
module Upload {
  import opened Wrappers

  datatype File = File(size: nat, mime: string)

  /** `Foreign` is any other code string that `sign` or `complete` may throw. */
  datatype Code =
    | Oversize | WrongMime | QuotaExceeded | Network | MimeMismatch | SignFailed | Canceled | Unknown
    | Foreign(text: string)

  datatype Status = Idle | Signing | Uploading | Completing | Done | Failed | Canceled

  datatype Item = Item(
    id: nat, file: File, preview: Option<nat>, status: Status, progress: int, fileId: Option<int>, error: Option<Code>)

  datatype Options = Options(
    disabled: bool, multi: bool, preview: bool, accept: seq<string>,
    maxByteSize: nat,         // 0: no limit
    maxFiles: Option<int>, hasComplete: bool)

  datatype Outcome = Loaded(status: int) | Broken | Aborted

  datatype Xhr = Xhr(id: nat, outcome: Option<Outcome>)

  datatype Pc =
    | AwaitSign
    | HasDescriptor(fileId: int)
    | AwaitXhr(xhr: nat, fileId: int)
    | AwaitComplete(fileId: int)
    | Ended

  datatype Proc = Proc(id: nat, resume: bool, progress: int, hasComplete: bool, pc: Pc)

  /** What a rejected call threw, as far as the hook looks at it. */
  datatype Thrown = Thrown(code: Option<Code>, status: Option<int>)

  /** A call of `complete` is made, or comes back, for the `p`-th call of `process`. */
  datatype Finalizing = Called(p: nat, fileId: int) | Returned(p: nat, thrown: Option<Thrown>)

  datatype State = State(
    opts: Options,
    items: seq<Item>,
    descriptors: map<nat, int>,
    xhrMap: map<nat, nat>,
    xhrs: seq<Xhr>,           // every XHR ever opened
    procs: seq<Proc>,
    nextId: nat,              // ids and object URLs are never handed out twice
    nextUrl: nat,
    mounted: bool,
    revoked: seq<nat>,        // history: the revocations,
    signed: set<nat>,         //          the ids `sign` was called for,
    rejected: set<nat>,       //          the ids that failed the check before it,
    finalizing: seq<Finalizing>) //       and the `complete` calls

  function Initial(opts: Options): State {
    State(opts, [], map[], map[], [], [], 0, 0, true, [], {}, {}, [])
  }

  // ----- what is retried, and how errors are named -----

  predicate IsActive(status: Status) {
    status in {Signing, Uploading, Completing}
  }

  predicate IsRetryable(it: Item) {
    || it.status == Status.Canceled
    || (it.status == Failed && it.error in {Some(Network), Some(SignFailed), Some(QuotaExceeded)})
  }

  function MapError(e: Thrown, otherwise: Code): Code {
    if e.code.Some? then e.code.value else if e.status == Some(413) then QuotaExceeded else otherwise
  }

  // ----- checks before sign -----

  predicate Satisfies(mime: string, pattern: string) {
    && pattern != ""
    && if |pattern| >= 2 && pattern[|pattern| - 2..] == "/*" then pattern[..|pattern| - 1] <= mime else mime == pattern
  }

  predicate MatchesAccept(mime: string, accept: seq<string>) {
    accept == [] || exists i :: 0 <= i < |accept| && Satisfies(Lower(mime), Lower(TrimEnd(TrimStart(accept[i]))))
  }

  function Check(o: Options, file: File): Option<Code> {
    if o.maxByteSize != 0 && file.size > o.maxByteSize then Some(Oversize)
    else if !MatchesAccept(file.mime, o.accept) then Some(WrongMime)
    else None
  }

  function Create(o: Options, file: File, id: nat, url: nat): Item {
    Item(id, file, if o.preview && "image/" <= file.mime then Some(url) else None,
         if Check(o, file).Some? then Failed else Idle, 0, None, Check(o, file))
  }

  function CreateAll(o: Options, files: seq<File>, id: nat, url: nat): (created: seq<Item>)
    ensures |created| == |files|
  {
    if files == [] then []
    else
      var it := Create(o, files[0], id, url);
      [it] + CreateAll(o, files[1..], id + 1, if it.preview.Some? then url + 1 else url)
  }

  // ----- items -----

  function Find(items: seq<Item>, id: nat): Option<Item> {
    if items == [] then None
    else if items[0].id == id then Some(items[0])
    else Find(items[1..], id)
  }

  /** The object URLs that the items hold. */
  function Held(items: seq<Item>): seq<nat> {
    if items == [] then [] else PreviewOf(items[0]) + Held(items[1..])
  }

  function PreviewOf(it: Item): seq<nat> {
    if it.preview.Some? then [it.preview.value] else []
  }

  function Without(items: seq<Item>, id: nat): seq<Item> {
    if items == [] then []
    else if items[0].id == id then Without(items[1..], id)
    else [items[0]] + Without(items[1..], id)
  }

  /** The patches that the hook merges into an item. */
  datatype Patch =
    | ToSigning | WithFileId(fileId: int) | ToUploading(progress: int) | WithProgress(progress: int)
    | ToCompleting | ToDone | ToError(status: Status, code: Code) | CancelIfActive

  function Patched(it: Item, patch: Patch): Item {
    match patch
    case ToSigning => it.(status := Signing, error := None, progress := 0, fileId := None)
    case WithFileId(f) => it.(fileId := Some(f))
    case ToUploading(n) => it.(status := Uploading, error := None, progress := n)
    case WithProgress(n) => it.(progress := n)
    case ToCompleting => it.(status := Completing)
    case ToDone => it.(status := Done, progress := 100)
    case ToError(status, code) => it.(status := status, error := Some(code))
    case CancelIfActive =>
      if IsActive(it.status) then it.(status := Status.Canceled, error := Some(Code.Canceled)) else it
  }

  function Update(items: seq<Item>, id: nat, patch: Patch): seq<Item> {
    seq(|items|, i requires 0 <= i < |items| => if items[i].id == id then Patched(items[i], patch) else items[i])
  }

  // ----- XHRs -----

  /** `xhr.abort()`: its handler drops the map entry and rejects; a finished XHR ignores it. */
  function Abort(s: State, x: nat): State {
    if x < |s.xhrs| && s.xhrs[x].outcome.None? then
      s.(xhrs := s.xhrs[x := s.xhrs[x].(outcome := Some(Aborted))], xhrMap := s.xhrMap - {s.xhrs[x].id})
    else s
  }

  function AbortOf(s: State, id: nat): State {
    if id in s.xhrMap then Abort(s, s.xhrMap[id]) else s
  }

  function AbortAll(s: State): State {
    s.(xhrs := seq(|s.xhrs|, x requires 0 <= x < |s.xhrs| =>
                 if s.xhrs[x].outcome.None? && x in s.xhrMap.Values then s.xhrs[x].(outcome := Some(Aborted)) else s.xhrs[x]),
       xhrMap := map[])
  }

  // ----- process, await by await -----

  function Move(s: State, p: nat, pc: Pc): State
    requires p < |s.procs|
  {
    s.(procs := s.procs[p := s.procs[p].(pc := pc)])
  }

  function Merge(s: State, id: nat, patch: Patch): State {
    s.(items := Update(s.items, id, patch))
  }

  /** Looks the item up again, and opens the XHR unless it was canceled or removed meanwhile. */
  function BeginUpload(s: State, p: nat): State
    requires p < |s.procs| && s.procs[p].pc.HasDescriptor?
  {
    var proc := s.procs[p];
    var item := Find(s.items, proc.id);
    if item.None? || item.value.status == Status.Canceled then Move(s, p, Ended)
    else OpenXhr(Merge(s, proc.id, ToUploading(if proc.resume then proc.progress else 0)), p)
  }

  function OpenXhr(s: State, p: nat): State
    requires p < |s.procs| && s.procs[p].pc.HasDescriptor?
  {
    var proc := s.procs[p];
    Move(s, p, AwaitXhr(|s.xhrs|, proc.pc.fileId))
      .(xhrs := s.xhrs + [Xhr(proc.id, None)], xhrMap := s.xhrMap[proc.id := |s.xhrs|])
  }

  /** Up to the first await: `sign` is called, or skipped when resuming with a descriptor at hand. */
  function Start(s: State, id: nat, resume: bool): State {
    match Find(s.items, id)
    case None => s
    case Some(current) =>
      var proc := Proc(id, resume, current.progress, s.opts.hasComplete, AwaitSign);
      if resume && id in s.descriptors then
        BeginUpload(s.(procs := s.procs + [proc.(pc := HasDescriptor(s.descriptors[id]))]), |s.procs|)
      else
        Merge(s, id, ToSigning).(procs := s.procs + [proc], signed := s.signed + {id})
  }

  function SignSettles(s: State, p: nat, result: Result<int, Thrown>): State
    requires p < |s.procs| && s.procs[p].pc.AwaitSign?
  {
    var id := s.procs[p].id;
    match result
    case Err(e) => Move(Merge(s, id, ToError(Failed, MapError(e, SignFailed))), p, Ended)
    case Ok(fileId) =>
      BeginUpload(Move(Merge(s, id, WithFileId(fileId)), p, HasDescriptor(fileId)).(descriptors := s.descriptors[id := fileId]), p)
  }

  predicate Succeeded(outcome: Outcome) {
    outcome.Loaded? && 200 <= outcome.status < 300
  }

  function CodeOf(outcome: Outcome): Code {
    match outcome
    case Loaded(status) => if status == 413 then QuotaExceeded else Network
    case Broken => Network
    case Aborted => Code.Canceled
  }

  function UploadSettles(s: State, p: nat): State
    requires p < |s.procs| && s.procs[p].pc.AwaitXhr?
    requires s.procs[p].pc.xhr < |s.xhrs| && s.xhrs[s.procs[p].pc.xhr].outcome.Some?
  {
    var proc := s.procs[p];
    var outcome := s.xhrs[proc.pc.xhr].outcome.value;
    if !Succeeded(outcome) then
      var code := CodeOf(outcome);
      Move(Merge(s, proc.id, ToError(if code == Code.Canceled then Status.Canceled else Failed, code)), p, Ended)
    else if proc.hasComplete then
      Move(Merge(s, proc.id, ToCompleting), p, AwaitComplete(proc.pc.fileId))
        .(finalizing := s.finalizing + [Called(p, proc.pc.fileId)])
    else Move(Merge(s, proc.id, ToDone), p, Ended)
  }

  function CompleteSettles(s: State, p: nat, thrown: Option<Thrown>): State
    requires p < |s.procs| && s.procs[p].pc.AwaitComplete?
  {
    var id := s.procs[p].id;
    var r := s.(finalizing := s.finalizing + [Returned(p, thrown)]);
    match thrown
    case Some(e) => Move(Merge(r, id, ToError(Failed, MapError(e, MimeMismatch))), p, Ended)
    case None => Move(Merge(r, id, ToDone), p, Ended)
  }

  // ----- user actions -----

  /** What single mode does to each item that it replaces. */
  function DropOne(s: State, it: Item): State {
    var r := AbortOf(s, it.id);
    r.(revoked := r.revoked + PreviewOf(it), descriptors := r.descriptors - {it.id})
  }

  function DropAll(s: State, olds: seq<Item>): State
    decreases |olds|
  {
    if olds == [] then s else DropAll(DropOne(s, olds[0]), olds[1..])
  }

  function StartAll(s: State, created: seq<Item>): State
    decreases |created|
  {
    if created == [] then s
    else StartAll(if created[0].error.None? then Start(s, created[0].id, false) else s, created[1..])
  }

  function Rejected(created: seq<Item>): set<nat> {
    set i | 0 <= i < |created| && created[i].error.Some? :: created[i].id
  }

  /** How many of `n` chosen files are taken when `present` items are there. */
  function Room(o: Options, present: nat, n: nat): (taken: nat)
    ensures taken <= n
  {
    if o.multi then
      var room := (if o.maxFiles.Some? then o.maxFiles.value else 10) - present;
      if room <= 0 then 0 else if room < n then room else n
    else if n == 0 then 0 else 1
  }

  function Insert(s: State, files: seq<File>): State {
    var created := CreateAll(s.opts, files, s.nextId, s.nextUrl);
    s.(items := if s.opts.multi then s.items + created else created,
       nextId := s.nextId + |created|,
       nextUrl := s.nextUrl + |Held(created)|,
       rejected := s.rejected + Rejected(created))
  }

  /** Single mode first lets go of every item it replaces. */
  function Ready(s: State): State {
    if s.opts.multi then s else DropAll(s, s.items).(xhrMap := map[])
  }

  function AddFiles(s: State, files: seq<File>): State {
    if s.opts.disabled || files == [] then s
    else
      var taken := files[..Room(s.opts, |s.items|, |files|)];
      StartAll(Insert(Ready(s), taken), CreateAll(s.opts, taken, s.nextId, s.nextUrl))
  }

  function Retry(s: State, id: nat): State {
    match Find(s.items, id)
    case Some(it) => if IsRetryable(it) then Start(s, id, it.fileId.Some? && id in s.descriptors) else s
    case None => s
  }

  function Cancel(s: State, id: nat): State {
    if id in s.xhrMap then AbortOf(s, id) else Merge(s, id, CancelIfActive)
  }

  function Remove(s: State, id: nat): State {
    var r := AbortOf(s, id);
    var target := Find(s.items, id);
    r.(xhrMap := r.xhrMap - {id}, descriptors := r.descriptors - {id},
       revoked := r.revoked + (if target.Some? then PreviewOf(target.value) else []),
       items := Without(s.items, id))
  }

  function Reset(s: State): State {
    AbortAll(s).(descriptors := map[], revoked := s.revoked + Held(s.items), items := [])
  }

  function Unmount(s: State): State {
    AbortAll(s).(revoked := s.revoked + Held(s.items), mounted := false)
  }

  // ----- steps -----

  datatype Step =
    | Render(opts: Options)
    | Adding(files: seq<File>)
    | Retrying(id: nat)
    | Canceling(id: nat)
    | Removing(id: nat)
    | Resetting
    | Unmounting
    | SignReturns(p: nat, result: Result<int, Thrown>)
    | XhrProgress(x: nat, loaded: nat, total: nat)
    | XhrFires(x: nat, outcome: Outcome)
    | UploadReturns(p: nat)
    | CompleteReturns(p: nat, thrown: Option<Thrown>)

  predicate IsAction(step: Step) {
    step.Render? || step.Adding? || step.Retrying? || step.Canceling? || step.Removing? || step.Resetting? || step.Unmounting?
  }

  ghost predicate Enabled(s: State, step: Step) {
    match step
    case SignReturns(p, _) => p < |s.procs| && s.procs[p].pc.AwaitSign?
    case XhrProgress(x, loaded, total) => x < |s.xhrs| && s.xhrs[x].outcome.None? && loaded <= total
    case XhrFires(x, outcome) => x < |s.xhrs| && s.xhrs[x].outcome.None? && outcome != Aborted
    case UploadReturns(p) =>
      && p < |s.procs| && s.procs[p].pc.AwaitXhr?
      && s.procs[p].pc.xhr < |s.xhrs| && s.xhrs[s.procs[p].pc.xhr].outcome.Some?
    case CompleteReturns(p, _) => p < |s.procs| && s.procs[p].pc.AwaitComplete?
    case _ => s.mounted
  }

  /** `Math.round` of a fraction of 100. */
  function Percent(loaded: nat, total: nat): nat
    requires total > 0
  {
    (200 * loaded + total) / (2 * total)
  }

  function Apply(s: State, step: Step): State
    requires Enabled(s, step)
  {
    match step
    case Render(opts) => s.(opts := opts)
    case Adding(files) => AddFiles(s, files)
    case Retrying(id) => Retry(s, id)
    case Canceling(id) => Cancel(s, id)
    case Removing(id) => Remove(s, id)
    case Resetting => Reset(s)
    case Unmounting => Unmount(s)
    case SignReturns(p, result) => SignSettles(s, p, result)
    case XhrProgress(x, loaded, total) =>
      if total > 0 then Merge(s, s.xhrs[x].id, WithProgress(Percent(loaded, total))) else s
    case XhrFires(x, outcome) =>
      s.(xhrs := s.xhrs[x := s.xhrs[x].(outcome := Some(outcome))], xhrMap := s.xhrMap - {s.xhrs[x].id})
    case UploadReturns(p) => UploadSettles(s, p)
    case CompleteReturns(p, thrown) => CompleteSettles(s, p, thrown)
  }

  /** No `process` call for the id is still running. */
  ghost predicate Quiet(s: State, id: nat) {
    forall p :: 0 <= p < |s.procs| && s.procs[p].id == id ==> s.procs[p].pc.Ended?
  }

  /** No `sign` call for the id is out. */
  ghost predicate NoSignOut(s: State, id: nat) {
    forall p :: 0 <= p < |s.procs| && s.procs[p].id == id ==> !s.procs[p].pc.AwaitSign?
  }

  /** With `patient`, an item is not retried while a `sign` call for it is out. */
  ghost predicate Next(s: State, r: State, patient: bool) {
    exists step :: Enabled(s, step) && (patient && step.Retrying? ==> NoSignOut(s, step.id)) && r == Apply(s, step)
  }

  ghost predicate Run(trace: seq<State>, patient: bool) {
    && trace != [] && (exists opts :: trace[0] == Initial(opts))
    && forall i :: 0 <= i < |trace| - 1 ==> Next(trace[i], trace[i + 1], patient)
  }
}
