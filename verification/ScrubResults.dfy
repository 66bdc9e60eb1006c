/** What a scrubbed copy looks like, and that scrubbing it again changes nothing. */
module ScrubResults {
  import opened Wrappers
  import opened Redact
  import opened ScrubWalk

  // ----- every copy mirrors its input and is clean -----

  /** `t` is a copy of `v` with strings redacted, denied values masked and some objects cut off. */
  ghost predicate Mirrors(heap: Heap, deny: set<string>, v: Value, t: Tree)
    requires Closed(heap) && Known(heap, v)
    decreases t
  {
    match v
    case Text(s) => t == Leaf(Redacted(s))
    case Other(tag) => t == Plain(tag)
    case Ref(id) =>
      || t == Leaf(CIRCULAR)
      || (&& t.Branch? && t.isList == heap[id].isList && |t.slots| == |heap[id].slots|
          && forall i :: 0 <= i < |t.slots| ==> MirrorsSlot(heap, deny, t.isList, heap[id].slots[i], t.slots[i]))
  }

  ghost predicate MirrorsSlot(heap: Heap, deny: set<string>, isList: bool, slot: Slot<Value>, copy: Slot<Tree>)
    requires Closed(heap) && Known(heap, slot.value)
    decreases copy
  {
    && copy.key == slot.key
    && if Denied(deny, isList, slot.key) then copy.value == Leaf(Marker(Lower(slot.key)))
       else Mirrors(heap, deny, slot.value, copy.value)
  }

  /** Denied keys hold their marker, at every depth, and every other string is clean. */
  ghost predicate Scrubbed(deny: set<string>, t: Tree)
    decreases t
  {
    match t
    case Leaf(s) => Clean(s)
    case Plain(_) => true
    case Branch(isList, slots) => forall i :: 0 <= i < |slots| ==> ScrubbedSlot(deny, isList, slots[i])
  }

  ghost predicate ScrubbedSlot(deny: set<string>, isList: bool, slot: Slot<Tree>)
    decreases slot
  {
    if Denied(deny, isList, slot.key) then slot.value == Leaf(Marker(Lower(slot.key)))
    else Scrubbed(deny, slot.value)
  }

  lemma CircularIsClean()
    ensures Clean(CIRCULAR)
  {
    HarmlessIsUntouched(CIRCULAR);
  }

  lemma {:induction false} WalkMirrorsAndScrubs(heap: Heap, deny: set<string>, v: Value, seen: set<nat>)
    requires Closed(heap) && Known(heap, v)
    ensures var t := Walk(heap, deny, v, seen).out; Mirrors(heap, deny, v, t) && Scrubbed(deny, t)
    decreases heap.Keys - seen, 0, 0
  {
    hide Walk, Mirrors, Scrubbed, MirrorsSlot, ScrubbedSlot, WalkSlots;
    if !v.Ref? {
      LeafMirrors(heap, deny, v, seen);
    } else if v.id in seen {
      CutOffMirrors(heap, deny, v.id, seen);
    } else {
      WalkSlotsMirrorAndScrub(heap, deny, heap[v.id].isList, heap[v.id].slots, seen + {v.id});
      BranchMirrors(heap, deny, v.id, seen);
    }
  }

  lemma LeafMirrors(heap: Heap, deny: set<string>, v: Value, seen: set<nat>)
    requires Closed(heap) && !v.Ref?
    ensures var t := Walk(heap, deny, v, seen).out; Mirrors(heap, deny, v, t) && Scrubbed(deny, t)
  {
    hide Clean, Redacted;
    if v.Text? {
      NothingSensitiveRemains(v.s);
    }
  }

  lemma BranchMirrors(heap: Heap, deny: set<string>, id: nat, seen: set<nat>)
    requires Closed(heap) && id in heap && id !in seen
    requires var obj, out := heap[id], WalkSlots(heap, deny, heap[id].isList, heap[id].slots, seen + {id}).out;
             && |out| == |obj.slots|
             && forall i :: 0 <= i < |out| ==>
                  MirrorsSlot(heap, deny, obj.isList, obj.slots[i], out[i]) && ScrubbedSlot(deny, obj.isList, out[i])
    ensures var t := Walk(heap, deny, Ref(id), seen).out; Mirrors(heap, deny, Ref(id), t) && Scrubbed(deny, t)
  {
    hide WalkSlots, MirrorsSlot, ScrubbedSlot, Clean, Redacted;
  }

  lemma CutOffMirrors(heap: Heap, deny: set<string>, id: nat, seen: set<nat>)
    requires Closed(heap) && id in heap && id in seen
    ensures var t := Walk(heap, deny, Ref(id), seen).out; Mirrors(heap, deny, Ref(id), t) && Scrubbed(deny, t)
  {
    hide Clean, Redacted, MirrorsSlot, WalkSlots;
    CircularIsClean();
  }

  lemma {:induction false} WalkSlotsMirrorAndScrub(heap: Heap, deny: set<string>, isList: bool,
                                                   slots: seq<Slot<Value>>, seen: set<nat>)
    requires Closed(heap) && AllKnown(heap, slots)
    ensures var out := WalkSlots(heap, deny, isList, slots, seen).out;
            && |out| == |slots|
            && forall i :: 0 <= i < |out| ==>
                 MirrorsSlot(heap, deny, isList, slots[i], out[i]) && ScrubbedSlot(deny, isList, out[i])
    decreases heap.Keys - seen, 1, |slots|
  {
    hide Clean, Redacted, Lower, Denied;
    if slots != [] {
      var first := WalkSlot(heap, deny, isList, slots[0], seen);
      if !Denied(deny, isList, slots[0].key) {
        WalkMirrorsAndScrubs(heap, deny, slots[0].value, seen);
      }
      assert heap.Keys - first.seen <= heap.Keys - seen;
      WalkSlotsMirrorAndScrub(heap, deny, isList, slots[1..], first.seen);
      var rest := WalkSlots(heap, deny, isList, slots[1..], first.seen);
      var out := [Slot(slots[0].key, first.out)] + rest.out;
      forall i | 0 <= i < |out|
        ensures MirrorsSlot(heap, deny, isList, slots[i], out[i]) && ScrubbedSlot(deny, isList, out[i])
      {
        if i > 0 {
          assert out[i] == rest.out[i - 1] && slots[i] == slots[1..][i - 1];
        }
      }
    }
  }

  /** What stands in place of a denied value, and of an object met before. */
  lemma MasksAre(heap: Heap, deny: set<string>, id: nat, i: nat, seen: set<nat>)
    requires Closed(heap) && id in heap && i < |heap[id].slots|
    ensures id in seen ==> Walk(heap, deny, Ref(id), seen).out == Leaf("[circular]")
    ensures var t, slot := Walk(heap, deny, Ref(id), seen).out, heap[id].slots[i];
            id !in seen && !heap[id].isList && Lower(slot.key) in deny ==>
              t.Branch? && |t.slots| == |heap[id].slots| && t.slots[i] == Slot(slot.key, Leaf("[redacted:" + Lower(slot.key) + "]"))
  {
    if id !in seen {
      WalkSlotsMirrorAndScrub(heap, deny, heap[id].isList, heap[id].slots, seen + {id});
      WalkOfUnseen(heap, deny, id, seen);
    }
    hide WalkSlots, Walk, Scrubbed, Mirrors, Lower;
  }

  // ----- sharing is taken for a cycle -----

  /** A reference to an object that was met before is cut off, wherever it stands among the slots. */
  lemma {:induction false} SeenIsCutOff(heap: Heap, deny: set<string>, isList: bool, slots: seq<Slot<Value>>,
                                        seen: set<nat>, j: nat, id: nat)
    requires Closed(heap) && AllKnown(heap, slots) && j < |slots|
    requires slots[j].value == Ref(id) && !Denied(deny, isList, slots[j].key) && id in seen
    ensures var out := WalkSlots(heap, deny, isList, slots, seen).out;
            |out| == |slots| && out[j] == Slot(slots[j].key, Leaf(CIRCULAR))
    decreases |slots|
  {
    hide Redacted, Denied;
    var first := WalkSlot(heap, deny, isList, slots[0], seen);
    SlotsKeepLength(heap, deny, isList, slots, seen);
    if j > 0 {
      SeenIsCutOff(heap, deny, isList, slots[1..], first.seen, j - 1, id);
    } else {
      assert Walk(heap, deny, Ref(id), seen) == Walked(Leaf(CIRCULAR), seen, []);
    }
  }

  lemma SlotsKeepLength(heap: Heap, deny: set<string>, isList: bool, slots: seq<Slot<Value>>, seen: set<nat>)
    requires Closed(heap) && AllKnown(heap, slots)
    ensures |WalkSlots(heap, deny, isList, slots, seen).out| == |slots|
  {
    hide MirrorsSlot, ScrubbedSlot, WalkSlots;
    WalkSlotsMirrorAndScrub(heap, deny, isList, slots, seen);
  }

  lemma FollowedIsSeen(heap: Heap, deny: set<string>, isList: bool, slot: Slot<Value>, seen: set<nat>)
    requires Closed(heap) && Known(heap, slot.value) && slot.value.Ref? && !Denied(deny, isList, slot.key)
    ensures slot.value.id in WalkSlot(heap, deny, isList, slot, seen).seen
  {
    hide Denied, WalkSlots;
  }

  lemma {:induction false} RepeatedIsCutOff(heap: Heap, deny: set<string>, isList: bool, slots: seq<Slot<Value>>,
                                            seen: set<nat>, i: nat, j: nat)
    requires Closed(heap) && AllKnown(heap, slots) && i < j < |slots|
    requires slots[i].value.Ref? && slots[j].value == slots[i].value
    requires !Denied(deny, isList, slots[i].key) && !Denied(deny, isList, slots[j].key)
    ensures var out := WalkSlots(heap, deny, isList, slots, seen).out;
            |out| == |slots| && out[j] == Slot(slots[j].key, Leaf(CIRCULAR))
    decreases |slots|
  {
    hide Denied, WalkSlot;
    var first := WalkSlot(heap, deny, isList, slots[0], seen);
    SlotsKeepLength(heap, deny, isList, slots, seen);
    if i > 0 {
      RepeatedIsCutOff(heap, deny, isList, slots[1..], first.seen, i - 1, j - 1);
    } else {
      FollowedIsSeen(heap, deny, isList, slots[0], seen);
      SeenIsCutOff(heap, deny, isList, slots[1..], first.seen, j - 1, slots[i].value.id);
    }
  }

  /** Any list or record that holds one object twice, on a cycle or not, keeps its first copy at most. */
  lemma SharedObjectIsCutOff(heap: Heap, deny: set<string>, id: nat, i: nat, j: nat, seen: set<nat>)
    requires Closed(heap) && id in heap && id !in seen && i < j < |heap[id].slots|
    requires heap[id].slots[i].value.Ref? && heap[id].slots[j].value == heap[id].slots[i].value
    requires !Denied(deny, heap[id].isList, heap[id].slots[i].key) && !Denied(deny, heap[id].isList, heap[id].slots[j].key)
    ensures var t := Walk(heap, deny, Ref(id), seen).out;
            t.Branch? && |t.slots| == |heap[id].slots| && t.slots[j] == Slot(heap[id].slots[j].key, Leaf(CIRCULAR))
  {
    WalkOfUnseen(heap, deny, id, seen);
    hide Denied, WalkSlots, Walk;
    RepeatedIsCutOff(heap, deny, heap[id].isList, heap[id].slots, seen + {id}, i, j);
  }

  lemma WalkOfUnseen(heap: Heap, deny: set<string>, id: nat, seen: set<nat>)
    requires Closed(heap) && id in heap && id !in seen
    ensures Walk(heap, deny, Ref(id), seen).out
         == Branch(heap[id].isList, WalkSlots(heap, deny, heap[id].isList, heap[id].slots, seen + {id}).out)
  {
    hide WalkSlots;
  }

  // ----- scrubbing a tree -----

  /** What the walk does to a graph without sharing. */
  ghost function ScrubTree(deny: set<string>, t: Tree): Tree
    decreases t
  {
    match t
    case Leaf(s) => Leaf(Redacted(s))
    case Plain(_) => t
    case Branch(isList, slots) =>
      Branch(isList, ScrubSlots(deny, isList, slots))
  }

  ghost function ScrubSlots(deny: set<string>, isList: bool, slots: seq<Slot<Tree>>): seq<Slot<Tree>>
    decreases slots, 0
  {
    seq(|slots|, i requires 0 <= i < |slots| => ScrubSlot(deny, isList, slots[i]))
  }

  ghost function ScrubSlot(deny: set<string>, isList: bool, slot: Slot<Tree>): Slot<Tree>
    decreases slot
  {
    if Denied(deny, isList, slot.key) then Slot(slot.key, Leaf(Marker(Lower(slot.key))))
    else Slot(slot.key, ScrubTree(deny, slot.value))
  }

  /** Scrubbing leaves a tree as it is if and only if the tree is scrubbed. */
  lemma {:induction false} FixedIffScrubbed(deny: set<string>, t: Tree)
    ensures ScrubTree(deny, t) == t <==> Scrubbed(deny, t)
    decreases t
  {
    hide Clean, Redacted, Denied, Lower, Marker;
    match t
    case Leaf(s) => RedactsExactlyWhatIsSensitive(s);
    case Plain(_) =>
    case Branch(isList, slots) =>
      forall i | 0 <= i < |slots|
        ensures ScrubSlot(deny, isList, slots[i]) == slots[i] <==> ScrubbedSlot(deny, isList, slots[i])
      {
        FixedIffScrubbed(deny, slots[i].value);
      }
      var scrubbed := ScrubSlots(deny, isList, slots);
      assert ScrubTree(deny, t) == Branch(isList, scrubbed);
      assert forall i :: 0 <= i < |slots| ==> scrubbed[i] == ScrubSlot(deny, isList, slots[i]);
      if scrubbed == slots {
        assert forall i :: 0 <= i < |slots| ==> ScrubSlot(deny, isList, slots[i]) == scrubbed[i] == slots[i];
      }
      if Scrubbed(deny, t) {
        assert forall i :: 0 <= i < |slots| ==> scrubbed[i] == slots[i];
        assert scrubbed == slots;
      }
  }

  /** The value `v` reads, object by object, as the tree `t`; what stands under denied keys is not read. */
  ghost predicate ReadsAs(heap: Heap, deny: set<string>, v: Value, t: Tree)
    decreases t
  {
    match t
    case Leaf(s) => v == Text(s)
    case Plain(tag) => v == Other(tag)
    case Branch(isList, slots) =>
      v.Ref? && v.id in heap && heap[v.id].isList == isList && ReadsAsSlots(heap, deny, isList, heap[v.id].slots, slots)
  }

  ghost predicate ReadsAsSlots(heap: Heap, deny: set<string>, isList: bool, slots: seq<Slot<Value>>, copies: seq<Slot<Tree>>)
    decreases copies
  {
    && |slots| == |copies|
    && (copies != [] ==>
          ReadsAsSlot(heap, deny, isList, slots[0], copies[0]) && ReadsAsSlots(heap, deny, isList, slots[1..], copies[1..]))
  }

  ghost predicate ReadsAsSlot(heap: Heap, deny: set<string>, isList: bool, slot: Slot<Value>, copy: Slot<Tree>)
    decreases copy
  {
    slot.key == copy.key && (Denied(deny, isList, slot.key) || ReadsAs(heap, deny, slot.value, copy.value))
  }

  /** The references that a walk follows, in order: those below denied keys are not among them. */
  ghost function Met(heap: Heap, deny: set<string>, v: Value, t: Tree): seq<nat>
    requires ReadsAs(heap, deny, v, t)
    decreases t
  {
    if t.Branch? then [v.id] + MetIn(heap, deny, t.isList, heap[v.id].slots, t.slots) else []
  }

  ghost function MetIn(heap: Heap, deny: set<string>, isList: bool, slots: seq<Slot<Value>>, copies: seq<Slot<Tree>>): seq<nat>
    requires ReadsAsSlots(heap, deny, isList, slots, copies)
    decreases copies
  {
    if copies == [] then []
    else
      MetAt(heap, deny, isList, slots[0], copies[0]) + MetIn(heap, deny, isList, slots[1..], copies[1..])
  }

  ghost function MetAt(heap: Heap, deny: set<string>, isList: bool, slot: Slot<Value>, copy: Slot<Tree>): seq<nat>
    requires ReadsAsSlot(heap, deny, isList, slot, copy)
    decreases copy
  {
    if Denied(deny, isList, slot.key) then [] else Met(heap, deny, slot.value, copy.value)
  }

  /** No reference leads to an object that was met before. */
  ghost predicate Fresh(met: seq<nat>, seen: set<nat>) {
    Distinct(met) && forall i :: 0 <= i < |met| ==> met[i] !in seen
  }

  lemma FreshSplits(a: seq<nat>, b: seq<nat>, seen: set<nat>)
    ensures Fresh(a + b, seen) <==> Fresh(a, seen) && Fresh(b, seen + Elements(a))
  {
    var all := a + b;
    forall i | 0 <= i < |a| ensures a[i] == all[i] && a[i] in Elements(a) {}
    forall i | 0 <= i < |b| ensures b[i] == all[|a| + i] {}
    if Fresh(all, seen) {
      forall i, j | 0 <= i < |b| && 0 <= j < |a| ensures a[j] != b[i] {
        assert all[j] != all[|a| + i];
      }
    }
  }

  /**
   * Of a value that reads as a tree the walk makes the scrubbed tree if and only if it follows no two
   * references to one object; otherwise something is cut off.
   */
  lemma {:induction false} WalkIsWholeExactly(heap: Heap, deny: set<string>, v: Value, t: Tree, seen: set<nat>)
    requires Closed(heap) && Known(heap, v) && ReadsAs(heap, deny, v, t)
    ensures Walk(heap, deny, v, seen).out == ScrubTree(deny, t) <==> Fresh(Met(heap, deny, v, t), seen)
    ensures Fresh(Met(heap, deny, v, t), seen) ==> Walk(heap, deny, v, seen).seen == seen + Elements(Met(heap, deny, v, t))
    decreases t
  {
    hide Redacted, WalkSlots, ScrubSlots, Fresh, Elements;
    if t.Branch? {
      var id, slots := v.id, heap[v.id].slots;
      var below := MetIn(heap, deny, t.isList, slots, t.slots);
      FreshAfter(id, below, seen);
      if id !in seen {
        hide Walk, ScrubTree;
        SlotsAreWholeExactly(heap, deny, t.isList, slots, t.slots, seen + {id});
        BranchOfSlots(heap, deny, v, t, seen);
      }
    } else {
      NothingMet(seen);
    }
  }

  lemma NothingMet(seen: set<nat>)
    ensures Fresh([], seen) && seen + Elements([]) == seen
  {
  }

  lemma FreshAfter(id: nat, below: seq<nat>, seen: set<nat>)
    ensures Fresh([id] + below, seen) <==> id !in seen && Fresh(below, seen + {id})
    ensures seen + {id} + Elements(below) == seen + Elements([id] + below)
  {
    assert Elements([id]) == {id} && (Fresh([id], seen) <==> id !in seen);
    hide Fresh, Elements;
    JoinMet([id], below, seen);
  }

  lemma BranchOfSlots(heap: Heap, deny: set<string>, v: Value, t: Tree, seen: set<nat>)
    requires Closed(heap) && Known(heap, v) && t.Branch? && ReadsAs(heap, deny, v, t) && v.id !in seen
    ensures var w := WalkSlots(heap, deny, t.isList, heap[v.id].slots, seen + {v.id});
            && Walk(heap, deny, v, seen).seen == w.seen
            && (Walk(heap, deny, v, seen).out == ScrubTree(deny, t) <==> w.out == ScrubSlots(deny, t.isList, t.slots))
  {
    hide WalkSlots, ScrubSlots;
  }

  lemma {:induction false} SlotsAreWholeExactly(heap: Heap, deny: set<string>, isList: bool, slots: seq<Slot<Value>>,
                                                copies: seq<Slot<Tree>>, seen: set<nat>)
    requires Closed(heap) && AllKnown(heap, slots) && ReadsAsSlots(heap, deny, isList, slots, copies)
    ensures var w, met := WalkSlots(heap, deny, isList, slots, seen), MetIn(heap, deny, isList, slots, copies);
            && (w.out == ScrubSlots(deny, isList, copies) <==> Fresh(met, seen))
            && (Fresh(met, seen) ==> w.seen == seen + Elements(met))
    decreases copies
  {
    hide ScrubSlot, ScrubSlots, Fresh, Elements, MetAt, WalkSlot;
    ScrubSlotsFirst(deny, isList, copies);
    if copies == [] {
      NothingMet(seen);
    } else {
      var first := WalkSlot(heap, deny, isList, slots[0], seen);
      SlotIsWholeExactly(heap, deny, isList, slots[0], copies[0], seen);
      SlotsAreWholeExactly(heap, deny, isList, slots[1..], copies[1..], first.seen);
      JoinMet(MetAt(heap, deny, isList, slots[0], copies[0]), MetIn(heap, deny, isList, slots[1..], copies[1..]), seen);
      SameHeadAndTail([Slot(slots[0].key, first.out)], WalkSlots(heap, deny, isList, slots[1..], first.seen).out,
                      [ScrubSlot(deny, isList, copies[0])], ScrubSlots(deny, isList, copies[1..]));
    }
  }

  lemma JoinMet(a: seq<nat>, b: seq<nat>, seen: set<nat>)
    ensures Fresh(a + b, seen) <==> Fresh(a, seen) && Fresh(b, seen + Elements(a))
    ensures seen + Elements(a) + Elements(b) == seen + Elements(a + b)
  {
    hide Fresh, Elements;
    FreshSplits(a, b, seen);
    ElementsOfBoth(a, b);
  }

  lemma SameHeadAndTail<T>(a: seq<T>, b: seq<T>, c: seq<T>, d: seq<T>)
    requires |a| == |c|
    ensures a + b == c + d <==> a == c && b == d
  {
    if a + b == c + d {
      assert (a + b)[..|a|] == a && (c + d)[..|a|] == c;
      assert (a + b)[|a|..] == b && (c + d)[|a|..] == d;
    }
  }

  lemma {:induction false} SlotIsWholeExactly(heap: Heap, deny: set<string>, isList: bool, slot: Slot<Value>,
                                              copy: Slot<Tree>, seen: set<nat>)
    requires Closed(heap) && Known(heap, slot.value) && ReadsAsSlot(heap, deny, isList, slot, copy)
    ensures var w, met := WalkSlot(heap, deny, isList, slot, seen), MetAt(heap, deny, isList, slot, copy);
            && ([Slot(slot.key, w.out)] == [ScrubSlot(deny, isList, copy)] <==> Fresh(met, seen))
            && (Fresh(met, seen) ==> w.seen == seen + Elements(met))
    decreases copy
  {
    var w, whole := WalkSlot(heap, deny, isList, slot, seen), ScrubSlot(deny, isList, copy);
    assert [Slot(slot.key, w.out)][0] == Slot(slot.key, w.out) && [whole][0] == whole;
    hide Fresh, Elements;
    if Denied(deny, isList, slot.key) {
      NothingMet(seen);
    } else {
      WalkIsWholeExactly(heap, deny, slot.value, copy.value, seen);
    }
  }

  lemma ScrubSlotsFirst(deny: set<string>, isList: bool, copies: seq<Slot<Tree>>)
    ensures copies == [] ==> ScrubSlots(deny, isList, copies) == []
    ensures copies != [] ==>
      ScrubSlots(deny, isList, copies) == [ScrubSlot(deny, isList, copies[0])] + ScrubSlots(deny, isList, copies[1..])
  {
    hide ScrubSlot;
  }

  lemma ElementsOfBoth(a: seq<nat>, b: seq<nat>)
    ensures Elements(a + b) == Elements(a) + Elements(b)
  {
  }

  /** Walking a copy, in which no object is met twice, gives the same copy again. */
  lemma WalkIsIdempotent(heap: Heap, deny: set<string>, v: Value, heap2: Heap, v2: Value)
    requires Closed(heap) && Known(heap, v) && Closed(heap2) && Known(heap2, v2)
    requires var t := Walk(heap, deny, v, {}).out; ReadsAs(heap2, deny, v2, t) && Distinct(Met(heap2, deny, v2, t))
    ensures Walk(heap2, deny, v2, {}).out == Walk(heap, deny, v, {}).out
  {
    var t := Walk(heap, deny, v, {}).out;
    WalkMirrorsAndScrubs(heap, deny, v, {});
    FixedIffScrubbed(deny, t);
    WalkIsWholeExactly(heap2, deny, v2, t, {});
  }
}
