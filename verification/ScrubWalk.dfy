/**
 * The PII scrubber: a walk over an arbitrary, possibly cyclic object graph that builds a scrubbed
 * copy, and the webhook rule applied to that copy.
 */
module ScrubWalk {
  import opened Wrappers
  import opened Redact

  /** `Other` stands for every value that is neither a string nor an object: null, numbers, booleans. */
  datatype Value = Text(s: string) | Other(tag: int) | Ref(id: nat)

  /** A property of an object, or an element of an array under its index. */
  datatype Slot<+V> = Slot(key: string, value: V)

  datatype Object = Object(isList: bool, slots: seq<Slot<Value>>)

  type Heap = map<nat, Object>

  /** What the walk builds: freshly allocated, so a tree. */
  datatype Tree = Leaf(s: string) | Plain(tag: int) | Branch(isList: bool, slots: seq<Slot<Tree>>)

  ghost predicate Known(heap: Heap, v: Value) {
    v.Ref? ==> v.id in heap
  }

  ghost predicate AllKnown(heap: Heap, slots: seq<Slot<Value>>) {
    forall i :: 0 <= i < |slots| ==> Known(heap, slots[i].value)
  }

  /** No reference points outside the heap; cycles and sharing are allowed. */
  ghost predicate Closed(heap: Heap) {
    forall id :: id in heap ==> AllKnown(heap, heap[id].slots)
  }

  const CIRCULAR := "[circular]"

  const DEFAULT_DENY_KEYS := [
    "password", "passwd", "secret", "token", "authorization", "cookie", "x-api-key", "sessionId", "session", "csrf",
    "stripeCustomerId", "stripe_secret", "pagarme_secret", "apiKey", "email", "cpf", "cnpj"]

  /** The deny set: the built-in keys and any extra ones, all lower-cased. */
  function DenySet(extra: seq<string>): set<string> {
    set key | key in DEFAULT_DENY_KEYS + extra :: Lower(key)
  }

  predicate Denied(deny: set<string>, isList: bool, key: string) {
    !isList && Lower(key) in deny
  }

  /** Extra keys only add to the built-in ones, and case does not matter in either. */
  lemma DenySetIsAdditive(extra: seq<string>, key: string, isList: bool)
    ensures Denied(DenySet(extra), isList, key) <==>
            !isList && (Denied(DenySet([]), false, key) || exists k :: k in extra && Lower(k) == Lower(key))
    ensures Denied(DenySet(extra), isList, Lower(key)) <==> Denied(DenySet(extra), isList, key)
  {
    assert Lower(Lower(key)) == Lower(key);
    assert DEFAULT_DENY_KEYS + [] == DEFAULT_DENY_KEYS;
    hide Lower;
    assert forall k :: k in DEFAULT_DENY_KEYS + extra <==> k in DEFAULT_DENY_KEYS || k in extra;
  }

  lemma LowerIs(s: string, t: string)
    requires |t| == |s| && forall i :: 0 <= i < |s| ==> LowerChar(s[i]) == t[i]
    ensures Lower(s) == t
  {
  }

  const LOWERED_KEYS := [
    "password", "passwd", "secret", "token", "authorization", "cookie", "x-api-key", "sessionid", "session", "csrf",
    "stripecustomerid", "stripe_secret", "pagarme_secret", "apikey", "email", "cpf", "cnpj"]

  lemma KeyIsLowered(i: nat)
    requires i < |DEFAULT_DENY_KEYS|
    ensures |DEFAULT_DENY_KEYS| == |LOWERED_KEYS| && Lower(DEFAULT_DENY_KEYS[i]) == LOWERED_KEYS[i]
  {
    LowerIs(DEFAULT_DENY_KEYS[i], LOWERED_KEYS[i]);
    hide Lower;
  }

  /** Without extra keys, exactly these are denied, in any letter case. */
  lemma DefaultKeysAre(key: string)
    ensures Denied(DenySet([]), false, key) <==> Lower(key) in LOWERED_KEYS
  {
    assert DEFAULT_DENY_KEYS + [] == DEFAULT_DENY_KEYS;
    var n := |DEFAULT_DENY_KEYS|;
    KeyIsLowered(0);
    hide Lower, DEFAULT_DENY_KEYS, LOWERED_KEYS;
    if k: string :| k in DEFAULT_DENY_KEYS && Lower(k) == Lower(key) {
      var i :| 0 <= i < n && DEFAULT_DENY_KEYS[i] == k;
      KeyIsLowered(i);
    }
    if i :| 0 <= i < |LOWERED_KEYS| && LOWERED_KEYS[i] == Lower(key) {
      KeyIsLowered(i);
      assert DEFAULT_DENY_KEYS[i] in DEFAULT_DENY_KEYS;
    }
  }

  // ----- the walk -----

  /** A result together with the objects seen so far and the objects expanded on the way, in order. */
  datatype Walked<+T> = Walked(out: T, seen: set<nat>, order: seq<nat>)

  ghost function Walk(heap: Heap, deny: set<string>, v: Value, seen: set<nat>): (w: Walked<Tree>)
    requires Closed(heap) && Known(heap, v)
    ensures seen <= w.seen
    decreases heap.Keys - seen, 0, 0
  {
    match v
    case Text(s) => Walked(Leaf(Redacted(s)), seen, [])
    case Other(tag) => Walked(Plain(tag), seen, [])
    case Ref(id) =>
      if id in seen then Walked(Leaf(CIRCULAR), seen, [])
      else
        assert id in heap.Keys - seen;
        var w := WalkSlots(heap, deny, heap[id].isList, heap[id].slots, seen + {id});
        Walked(Branch(heap[id].isList, w.out), w.seen, [id] + w.order)
  }

  ghost function WalkSlots(heap: Heap, deny: set<string>, isList: bool, slots: seq<Slot<Value>>, seen: set<nat>)
    : (w: Walked<seq<Slot<Tree>>>)
    requires Closed(heap) && AllKnown(heap, slots)
    ensures seen <= w.seen
    decreases heap.Keys - seen, 1, |slots|
  {
    if slots == [] then Walked([], seen, [])
    else
      var first := WalkSlot(heap, deny, isList, slots[0], seen);
      assert heap.Keys - first.seen <= heap.Keys - seen;
      var rest := WalkSlots(heap, deny, isList, slots[1..], first.seen);
      Walked([Slot(slots[0].key, first.out)] + rest.out, rest.seen, first.order + rest.order)
  }

  /** One property: masked if its key is denied, else walked. */
  ghost function WalkSlot(heap: Heap, deny: set<string>, isList: bool, slot: Slot<Value>, seen: set<nat>)
    : (w: Walked<Tree>)
    requires Closed(heap) && Known(heap, slot.value)
    ensures seen <= w.seen
    decreases heap.Keys - seen, 1, 0
  {
    if Denied(deny, isList, slot.key) then Walked(Leaf(Marker(Lower(slot.key))), seen, [])
    else Walk(heap, deny, slot.value, seen)
  }

  // ----- the walk expands each object once -----

  ghost predicate Distinct(order: seq<nat>) {
    forall i, j :: 0 <= i < j < |order| ==> order[i] != order[j]
  }

  function Elements(order: seq<nat>): set<nat> {
    set id | id in order
  }

  function Size(t: Tree): nat {
    if t.Branch? then 1 + SizeAll(t.slots) else 1
  }

  function SizeAll(slots: seq<Slot<Tree>>): nat {
    if slots == [] then 0 else Size(slots[0].value) + SizeAll(slots[1..])
  }

  ghost function SlotSum(heap: Heap, order: seq<nat>): nat
    requires forall id :: id in order ==> id in heap
  {
    if order == [] then 0 else |heap[order[0]].slots| + SlotSum(heap, order[1..])
  }

  lemma {:induction false} SlotSumAppend(heap: Heap, a: seq<nat>, b: seq<nat>)
    requires forall id :: id in a + b ==> id in heap
    requires (forall id :: id in a ==> id in heap) && forall id :: id in b ==> id in heap
    ensures SlotSum(heap, a + b) == SlotSum(heap, a) + SlotSum(heap, b)
  {
    if a == [] {
      assert a + b == b;
    } else {
      assert (a + b)[1..] == a[1..] + b;
      SlotSumAppend(heap, a[1..], b);
    }
  }

  /** `order` lists, without repetition, exactly the objects of the heap that became seen. */
  ghost predicate ExpandedOnce(heap: Heap, seen: set<nat>, after: set<nat>, order: seq<nat>) {
    && Distinct(order)
    && Elements(order) == after - seen
    && (forall id :: id in order ==> id in heap)
  }

  lemma ExpandedOnceJoin(heap: Heap, a: set<nat>, b: set<nat>, c: set<nat>, first: seq<nat>, rest: seq<nat>)
    requires a <= b <= c && ExpandedOnce(heap, a, b, first) && ExpandedOnce(heap, b, c, rest)
    ensures ExpandedOnce(heap, a, c, first + rest)
    ensures SlotSum(heap, first + rest) == SlotSum(heap, first) + SlotSum(heap, rest)
  {
    var all := first + rest;
    forall i, j | 0 <= i < j < |all| ensures all[i] != all[j] {
      if i < |first| && j >= |first| {
        assert all[i] in Elements(first) && all[j] in Elements(rest);
      }
    }
    assert Elements(all) == Elements(first) + Elements(rest);
    assert forall id :: id in all ==> id in first || id in rest;
    SlotSumAppend(heap, first, rest);
  }

  /** Each object is expanded at most once, and the copy has one node per slot expanded, plus its root. */
  lemma {:induction false} WalkExpandsOnce(heap: Heap, deny: set<string>, v: Value, seen: set<nat>)
    requires Closed(heap) && Known(heap, v)
    ensures var w := Walk(heap, deny, v, seen);
            ExpandedOnce(heap, seen, w.seen, w.order) && Size(w.out) == 1 + SlotSum(heap, w.order)
    decreases heap.Keys - seen, 0, 0
  {
    if v.Ref? && v.id !in seen {
      var id := v.id;
      OneExpanded(heap, seen, id);
      hide ExpandedOnce, SlotSum;
      WalkSlotsExpandOnce(heap, deny, heap[id].isList, heap[id].slots, seen + {id});
      var w := WalkSlots(heap, deny, heap[id].isList, heap[id].slots, seen + {id});
      ExpandedOnceJoin(heap, seen, seen + {id}, w.seen, [id], w.order);
    } else {
      NothingExpanded(heap, seen);
    }
  }

  lemma OneExpanded(heap: Heap, seen: set<nat>, id: nat)
    requires id in heap && id !in seen
    ensures ExpandedOnce(heap, seen, seen + {id}, [id]) && SlotSum(heap, [id]) == |heap[id].slots|
  {
  }

  lemma {:induction false} WalkSlotsExpandOnce(heap: Heap, deny: set<string>, isList: bool, slots: seq<Slot<Value>>,
                                               seen: set<nat>)
    requires Closed(heap) && AllKnown(heap, slots)
    ensures var w := WalkSlots(heap, deny, isList, slots, seen);
            && ExpandedOnce(heap, seen, w.seen, w.order)
            && SizeAll(w.out) == |slots| + SlotSum(heap, w.order)
    decreases heap.Keys - seen, 1, |slots|
  {
    if slots == [] {
      NothingExpanded(heap, seen);
    } else {
      hide ExpandedOnce, SlotSum;
      var first := WalkSlot(heap, deny, isList, slots[0], seen);
      WalkSlotExpandsOnce(heap, deny, isList, slots[0], seen);
      hide WalkSlot;
      assert heap.Keys - first.seen <= heap.Keys - seen;
      WalkSlotsExpandOnce(heap, deny, isList, slots[1..], first.seen);
      var rest := WalkSlots(heap, deny, isList, slots[1..], first.seen);
      ExpandedOnceJoin(heap, seen, first.seen, rest.seen, first.order, rest.order);
      assert ([Slot(slots[0].key, first.out)] + rest.out)[1..] == rest.out;
    }
  }

  lemma {:induction false} WalkSlotExpandsOnce(heap: Heap, deny: set<string>, isList: bool, slot: Slot<Value>, seen: set<nat>)
    requires Closed(heap) && Known(heap, slot.value)
    ensures var w := WalkSlot(heap, deny, isList, slot, seen);
            ExpandedOnce(heap, seen, w.seen, w.order) && Size(w.out) == 1 + SlotSum(heap, w.order)
    decreases heap.Keys - seen, 1, 0
  {
    if Denied(deny, isList, slot.key) {
      NothingExpanded(heap, seen);
    } else {
      WalkExpandsOnce(heap, deny, slot.value, seen);
    }
  }

  lemma NothingExpanded(heap: Heap, seen: set<nat>)
    ensures ExpandedOnce(heap, seen, seen, []) && SlotSum(heap, []) == 0
  {
  }

  /** All slots of the given objects together. */
  ghost function SlotsOf(heap: Heap, ids: set<nat>): nat
    requires ids <= heap.Keys
    decreases ids
  {
    if ids == {} then 0
    else
      var id :| id in ids;
      |heap[id].slots| + SlotsOf(heap, ids - {id})
  }

  lemma {:induction false} SlotsOfOne(heap: Heap, ids: set<nat>, id: nat)
    requires id in ids && ids <= heap.Keys
    ensures SlotsOf(heap, ids) == |heap[id].slots| + SlotsOf(heap, ids - {id})
    decreases ids
  {
    var picked :| picked in ids && SlotsOf(heap, ids) == |heap[picked].slots| + SlotsOf(heap, ids - {picked});
    if picked != id {
      SlotsOfOne(heap, ids - {picked}, id);
      SlotsOfOne(heap, ids - {id}, picked);
      assert ids - {picked} - {id} == ids - {id} - {picked};
    }
  }

  lemma {:induction false} DistinctSumIsBounded(heap: Heap, order: seq<nat>, ids: set<nat>)
    requires Distinct(order) && ids <= heap.Keys && forall id :: id in order ==> id in ids
    ensures SlotSum(heap, order) <= SlotsOf(heap, ids)
  {
    if order != [] {
      SlotsOfOne(heap, ids, order[0]);
      forall i | 0 <= i < |order[1..]| ensures order[1..][i] in ids - {order[0]} {
        assert order[1..][i] == order[i + 1];
      }
      DistinctSumIsBounded(heap, order[1..], ids - {order[0]});
    }
  }

  /** For every finite graph, cyclic or not, the copy has at most one node per slot of the graph, plus its root. */
  lemma CopyIsNoLargerThanGraph(heap: Heap, deny: set<string>, v: Value)
    requires Closed(heap) && Known(heap, v)
    ensures Size(Walk(heap, deny, v, {}).out) <= 1 + SlotsOf(heap, heap.Keys)
  {
    WalkExpandsOnce(heap, deny, v, {});
    DistinctSumIsBounded(heap, Walk(heap, deny, v, {}).order, heap.Keys);
  }
}
