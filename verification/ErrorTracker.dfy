/** The error tracker decorator: a buffer of entry objects with an index from dedup key to position. */
module ErrorTracker {
  import opened Wrappers
  import opened Redact
  import opened ScrubWalk
  import opened ScrubPii
  import opened RecentErrors

  const MAX_MESSAGE_LEN := 500
  const MAX_FRAME_LEN := 200

  /** What was thrown; an Error's stack comes split into lines. */
  datatype Thrown = Error(message: string, stack: seq<string>) | NotAnError(text: string)

  // ----- from a thrown value to a capture -----

  predicate Includes(line: string, part: string) {
    exists i :: 0 <= i <= |line| && StartsAt(line, i, part)
  }

  predicate StartsAt(line: string, i: nat, part: string) {
    i + |part| <= |line| && line[i..i + |part|] == part
  }

  /** The first line outside node_modules, or the empty string. */
  function FirstOwnLine(lines: seq<string>): string {
    if lines == [] then ""
    else if !Includes(lines[0], "node_modules") then lines[0]
    else FirstOwnLine(lines[1..])
  }

  function RawMessage(err: Thrown): string {
    if err.Error? then err.message else err.text
  }

  function RawFirstFrame(err: Thrown): string {
    if err.Error? && err.stack != [] then TrimEnd(TrimStart(FirstOwnLine(err.stack[1..]))) else ""
  }

  function Cut(s: string, max: nat): string {
    if |s| <= max then s else s[..max]
  }

  /** A leaf as the scrubber leaves it under the given key. */
  function ScrubbedLeaf(deny: set<string>, key: string, raw: string): string {
    if Denied(deny, false, key) then Marker(Lower(key)) else Redacted(raw)
  }

  function ToCapture(deny: set<string>, err: Thrown, source: Source, now: string): Capture {
    Capture(Cut(ScrubbedLeaf(deny, "message", RawMessage(err)), MAX_MESSAGE_LEN),
            Cut(ScrubbedLeaf(deny, "firstFrame", RawFirstFrame(err)), MAX_FRAME_LEN),
            source, now)
  }

  /** The two leaves go through the shared scrubber as one little event. */
  method ScrubLeaves(deny: set<string>, message: string, firstFrame: string) returns (m: string, f: string)
    ensures m == ScrubbedLeaf(deny, "message", message)
    ensures f == ScrubbedLeaf(deny, "firstFrame", firstFrame)
  {
    var slots := [Slot("message", Text(message)), Slot("firstFrame", Text(firstFrame))];
    var heap := map[0 := Object(false, slots)];
    LittleEvent(heap, deny, slots);
    var result := ScrubEvent(heap, deny, Some(Ref(0)));
    hide ScrubbedLeaf, Scrub;
    GetOfTwo(result.value.slots[0], result.value.slots[1]);
    assert result.value.slots == [result.value.slots[0], result.value.slots[1]];
    m := Get(result.value.slots, "message").value.s;
    f := Get(result.value.slots, "firstFrame").value.s;
  }

  lemma LittleEvent(heap: Heap, deny: set<string>, slots: seq<Slot<Value>>)
    requires |slots| == 2 && slots[0].key == "message" && slots[1].key == "firstFrame"
    requires slots[0].value.Text? && slots[1].value.Text?
    requires heap == map[0 := Object(false, slots)]
    ensures Closed(heap)
    ensures Scrub(heap, deny, Some(Ref(0))) == Some(Branch(false, [
                Slot("message", Leaf(ScrubbedLeaf(deny, "message", slots[0].value.s))),
                Slot("firstFrame", Leaf(ScrubbedLeaf(deny, "firstFrame", slots[1].value.s)))]))
  {
    hide ScrubbedLeaf, WalkSlots, Denied, Redacted;
    TextSlots(heap, deny, slots, {0});
    var out := WalkSlots(heap, deny, false, slots, {0}).out;
    assert {} + {0} == {0};
    assert Walk(heap, deny, Ref(0), {}).out == Branch(false, out);
    NothingToDrop(out);
  }

  /** Two string leaves are scrubbed one after the other. */
  lemma TextSlots(heap: Heap, deny: set<string>, slots: seq<Slot<Value>>, seen: set<nat>)
    requires Closed(heap) && |slots| == 2 && slots[0].value.Text? && slots[1].value.Text?
    ensures WalkSlots(heap, deny, false, slots, seen).out == [
              Slot(slots[0].key, Leaf(ScrubbedLeaf(deny, slots[0].key, slots[0].value.s))),
              Slot(slots[1].key, Leaf(ScrubbedLeaf(deny, slots[1].key, slots[1].value.s)))]
  {
    hide ScrubbedLeaf, WalkSlot, Walk, Redacted, Denied;
    TextSlot(heap, deny, slots[0], seen);
    TextSlot(heap, deny, slots[1], seen);
    var rest := slots[1..];
    assert rest == [slots[1]];
    assert WalkSlots(heap, deny, false, rest[1..], seen) == Walked([], seen, []);
    assert WalkSlots(heap, deny, false, rest, seen).out
        == [Slot(rest[0].key, WalkSlot(heap, deny, false, rest[0], seen).out)];
  }

  lemma TextSlot(heap: Heap, deny: set<string>, slot: Slot<Value>, seen: set<nat>)
    requires Closed(heap) && slot.value.Text?
    ensures WalkSlot(heap, deny, false, slot, seen)
         == Walked(Leaf(ScrubbedLeaf(deny, slot.key, slot.value.s)), seen, [])
  {
  }

  lemma {:induction false} NothingToDrop(slots: seq<Slot<Tree>>)
    requires forall i :: 0 <= i < |slots| ==> slots[i].key != "request"
    ensures DropBodyIn(slots) == slots
  {
    if slots != [] {
      NothingToDrop(slots[1..]);
    }
  }

  lemma GetOfTwo(first: Slot<Tree>, second: Slot<Tree>)
    requires first.key != second.key
    ensures Get([first, second], first.key) == Some(first.value)
    ensures Get([first, second], second.key) == Some(second.value)
  {
  }

  lemma LeafIsClean(deny: set<string>, key: string, raw: string)
    requires Harmless(Lower(key))
    ensures Clean(ScrubbedLeaf(deny, key, raw))
  {
    hide Clean, Redacted, Denied, Marker, Lower, Harmless;
    HarmlessMarker(Lower(key));
    NothingSensitiveRemains(raw);
  }

  lemma KeysAreHarmless()
    ensures Harmless(Lower("message")) && Harmless(Lower("firstFrame"))
  {
  }

  lemma CutStaysClean(s: string, max: nat)
    requires Clean(s)
    ensures Clean(Cut(s, max)) && |Cut(s, max)| <= max
  {
    hide Clean;
    if |s| > max {
      CutIsClean(s, max);
    }
  }

  /** What is stored is clean: scrubbing first and cutting after cannot uncover a pattern. */
  lemma StoredTextIsClean(deny: set<string>, err: Thrown, source: Source, now: string)
    ensures var c := ToCapture(deny, err, source, now);
            Clean(c.message) && Clean(c.firstFrame) && |c.message| <= MAX_MESSAGE_LEN && |c.firstFrame| <= MAX_FRAME_LEN
  {
    hide Clean, ScrubbedLeaf, RawMessage, RawFirstFrame, Cut, Harmless, Lower;
    KeysAreHarmless();
    LeafIsClean(deny, "message", RawMessage(err));
    LeafIsClean(deny, "firstFrame", RawFirstFrame(err));
    CutStaysClean(ScrubbedLeaf(deny, "message", RawMessage(err)), MAX_MESSAGE_LEN);
    CutStaysClean(ScrubbedLeaf(deny, "firstFrame", RawFirstFrame(err)), MAX_FRAME_LEN);
  }

  // ----- the buffer -----

  class RingBufferEntry {
    var timestamp: string
    const message: string
    const source: Source
    var count: nat
    const firstFrame: string

    constructor (timestamp: string, message: string, source: Source, firstFrame: string)
      ensures Value() == Entry(timestamp, message, source, 1, firstFrame)
    {
      this.timestamp, this.message, this.source, this.count, this.firstFrame := timestamp, message, source, 1, firstFrame;
    }

    ghost function Value(): Entry
      reads this
    {
      Entry(timestamp, message, source, count, firstFrame)
    }
  }

  ghost function Values(entries: seq<RingBufferEntry>): seq<Entry>
    reads entries
  {
    seq(|entries|, i requires 0 <= i < |entries| reads entries => entries[i].Value())
  }

  class RingBufferingErrorTracker {
    const capacity: nat
    const deny: set<string>
    var buffer: seq<RingBufferEntry>
    var dedupIndex: map<string, nat>
    ghost var captures: seq<Capture>

    ghost function Contents(): seq<Entry>
      reads this`buffer, buffer
    {
      Values(buffer)
    }

    /** The index maps exactly the key of each buffered entry to its position. */
    ghost predicate IndexAgrees()
      reads this`buffer, this`dedupIndex
    {
      && (forall i :: 0 <= i < |buffer| ==>
            var key := DedupKey(buffer[i].message, buffer[i].firstFrame);
            key in dedupIndex && dedupIndex[key] == i)
      && (forall key :: key in dedupIndex ==>
            && dedupIndex[key] < |buffer|
            && DedupKey(buffer[dedupIndex[key]].message, buffer[dedupIndex[key]].firstFrame) == key)
    }

    /** Each position holds an entry object of its own. */
    ghost predicate NoAliases()
      reads this`buffer
    {
      forall i, j :: 0 <= i < j < |buffer| ==> buffer[i] != buffer[j]
    }

    ghost predicate Valid()
      reads this, buffer
    {
      && 1 <= capacity
      && IndexAgrees()
      && NoAliases()
      && Contents() == RecordAll(capacity, captures)
    }

    constructor (capacity: nat, deny: set<string>)
      requires 1 <= capacity
      ensures Valid() && captures == [] && buffer == [] && this.capacity == capacity && this.deny == deny
    {
      this.capacity, this.deny := capacity, deny;
      buffer, dedupIndex, captures := [], map[], [];
    }

    /** Every buffer position dropped by one, so every index does. */
    method Reindex()
      requires forall key :: key in dedupIndex ==> dedupIndex[key] >= 1
      modifies `dedupIndex
      ensures dedupIndex.Keys == old(dedupIndex).Keys
      ensures forall key :: key in dedupIndex ==> dedupIndex[key] == old(dedupIndex)[key] - 1
    {
      var todo := dedupIndex.Keys;
      while todo != {}
        invariant todo <= dedupIndex.Keys == old(dedupIndex).Keys
        invariant forall key :: key in todo ==> dedupIndex[key] == old(dedupIndex)[key]
        invariant forall key :: key in dedupIndex.Keys - todo ==> dedupIndex[key] == old(dedupIndex)[key] - 1
        decreases todo
      {
        var key :| key in todo;
        dedupIndex := dedupIndex[key := dedupIndex[key] - 1];
        todo := todo - {key};
      }
    }

    /** Drops the oldest entry, its key, and one from every remaining index. */
    method EvictOldest()
      requires IndexAgrees() && buffer != []
      modifies this`buffer, this`dedupIndex
      ensures IndexAgrees() && buffer == old(buffer)[1..] && Contents() == old(Contents())[1..]
      ensures dedupIndex.Keys <= old(dedupIndex).Keys
    {
      hide DedupKey;
      var evicted := buffer[0];
      buffer := buffer[1..];
      var evictedKey := DedupKey(evicted.message, evicted.firstFrame);
      dedupIndex := dedupIndex - {evictedKey};
      assert forall i :: 0 <= i < |buffer| ==> buffer[i] == old(buffer)[i + 1];
      Reindex();
    }

    /** Appends one capture, deduplicating through the index. */
    method Append(c: Capture)
      requires Valid()
      modifies this, buffer
      ensures Valid() && captures == old(captures) + [c]
      ensures Contents() == Record(old(Contents()), capacity, c)
      ensures forall e :: e in buffer ==> e in old(buffer) || fresh(e)
    {
      hide DedupKey, Find, RecordAll, IndexAgrees, NoAliases;
      ghost var before := Contents();
      var key := DedupKey(c.message, c.firstFrame);
      IndexIsScan(before, key);
      RecordOneMore(capacity, captures, c);
      captures := captures + [c];
      if key in dedupIndex && dedupIndex[key] < |buffer| {
        Bump(dedupIndex[key], c.timestamp);
      } else {
        Insert(c, key);
      }
    }

    /** A new error enters at the end, after the oldest has made room for it. */
    method Insert(c: Capture, key: string)
      requires 1 <= capacity && IndexAgrees() && NoAliases()
      requires key == DedupKey(c.message, c.firstFrame) && key !in dedupIndex
      modifies this`buffer, this`dedupIndex
      ensures IndexAgrees() && NoAliases()
      ensures Contents() == (if |old(Contents())| >= capacity then old(Contents())[1..] else old(Contents()))
                            + [Entry(c.timestamp, c.message, c.source, 1, c.firstFrame)]
      ensures forall e :: e in buffer ==> e in old(buffer) || fresh(e)
    {
      if |buffer| >= capacity {
        EvictOldest();
      }
      var entry := new RingBufferEntry(c.timestamp, c.message, c.source, c.firstFrame);
      Push(entry, key);
    }

    /** Another capture of a buffered error updates its entry object in place. */
    method Bump(i: nat, timestamp: string)
      requires i < |buffer| && NoAliases()
      modifies buffer[i]
      ensures var e := old(Contents())[i];
              Contents() == old(Contents())[i := e.(count := e.count + 1, timestamp := timestamp)]
    {
      buffer[i].count := buffer[i].count + 1;
      buffer[i].timestamp := timestamp;
    }

    method Push(entry: RingBufferEntry, key: string)
      requires IndexAgrees() && entry !in buffer
      requires key == DedupKey(entry.message, entry.firstFrame) && key !in dedupIndex
      modifies this`buffer, this`dedupIndex
      ensures IndexAgrees() && buffer == old(buffer) + [entry]
      ensures Contents() == old(Contents()) + [entry.Value()]
    {
      buffer := buffer + [entry];
      dedupIndex := dedupIndex[key := |buffer| - 1];
    }

    /** The index lookup finds what a linear scan of the buffer would find. */
    lemma IndexIsScan(list: seq<Entry>, key: string)
      requires IndexAgrees() && list == Contents()
      ensures Find(list, key) == if key in dedupIndex then Some(dedupIndex[key]) else None
      ensures key in dedupIndex ==> dedupIndex[key] < |buffer| == |list|
    {
      assert forall i :: 0 <= i < |list| ==> KeyOf(list[i]) == DedupKey(buffer[i].message, buffer[i].firstFrame);
      hide DedupKey;
      FindFinds(list, key);
    }

    method CaptureException(err: Thrown, source: Source, now: string)
      requires Valid()
      modifies this, buffer
      ensures Valid() && captures == old(captures) + [ToCapture(deny, err, source, now)]
    {
      var message, firstFrame := ScrubLeaves(deny, RawMessage(err), RawFirstFrame(err));
      Append(Capture(Cut(message, MAX_MESSAGE_LEN), Cut(firstFrame, MAX_FRAME_LEN), source, now));
    }

    /** A message is captured as a new Error, whose stack the runtime supplies, under the global source. */
    method CaptureMessage(message: string, stack: seq<string>, now: string)
      requires Valid()
      modifies this, buffer
      ensures Valid() && captures == old(captures) + [ToCapture(deny, Error(message, stack), Global, now)]
    {
      CaptureException(Error(message, stack), Global, now);
    }

    /** A new array each time; the entries in it are the live ones. */
    method Snapshot() returns (copy: array<RingBufferEntry>)
      requires Valid()
      ensures Valid() && fresh(copy) && copy[..] == buffer
    {
      copy := new RingBufferEntry[|buffer|](i requires 0 <= i < |buffer| reads this => buffer[i]);
    }
  }
}
