/** `scrubPii`: the walk over an event, then the webhook rule; and both as the code runs them. */
module ScrubPii {
  import opened Wrappers
  import opened Pattern
  import opened Redact
  import opened ScrubWalk
  import opened ScrubResults

  // ----- the webhook rule -----

  function Get<V>(slots: seq<Slot<V>>, key: string): Option<V> {
    if slots == [] then None
    else if slots[0].key == key then Some(slots[0].value)
    else Get(slots[1..], key)
  }

  function Without(slots: seq<Slot<Tree>>, key: string): seq<Slot<Tree>> {
    if slots == [] then []
    else (if slots[0].key == key then [] else [slots[0]]) + Without(slots[1..], key)
  }

  const SEGMENT := "/webhooks"

  /** `/\/webhooks\b/` matches at `i`. */
  predicate SegmentAt(url: string, i: nat) {
    && i + |SEGMENT| <= |url|
    && url[i..i + |SEGMENT|] == SEGMENT
    && (i + |SEGMENT| == |url| || !IsWord(url[i + |SEGMENT|]))
  }

  predicate HasWebhooks(url: string) {
    exists i :: 0 <= i <= |url| && SegmentAt(url, i)
  }

  predicate IsWebhookRequest(req: Tree) {
    && req.Branch? && !req.isList
    && var url := Get(req.slots, "url");
       url.Some? && url.value.Leaf? && HasWebhooks(url.value.s)
  }

  function DropBody(req: Tree): Tree {
    if IsWebhookRequest(req) then Branch(false, Without(req.slots, "data")) else req
  }

  function DropBodyIn(slots: seq<Slot<Tree>>): seq<Slot<Tree>> {
    if slots == [] then []
    else if slots[0].key == "request" then [Slot("request", DropBody(slots[0].value))] + slots[1..]
    else [slots[0]] + DropBodyIn(slots[1..])
  }

  function ApplyWebhookRule(event: Tree): Tree {
    if event.Branch? && !event.isList then Branch(false, DropBodyIn(event.slots)) else event
  }

  /** The scrubbed copy of an event; nothing in, nothing out. */
  ghost function Scrub(heap: Heap, deny: set<string>, event: Option<Value>): Option<Tree>
    requires Closed(heap) && (event.Some? ==> Known(heap, event.value))
  {
    if event.None? then None else Some(ApplyWebhookRule(Walk(heap, deny, event.value, {}).out))
  }

  // ----- what the rule achieves -----

  lemma {:induction false} GetAfterWithout(slots: seq<Slot<Tree>>, key: string, other: string)
    ensures Get(Without(slots, key), key).None?
    ensures other != key ==> Get(Without(slots, key), other) == Get(slots, other)
    ensures Without(Without(slots, key), key) == Without(slots, key)
    ensures forall slot :: slot in Without(slots, key) ==> slot in slots
  {
    if slots != [] {
      GetAfterWithout(slots[1..], key, other);
      var rest := Without(slots[1..], key);
      if slots[0].key != key {
        assert ([slots[0]] + rest)[1..] == rest;
      } else {
        assert [] + rest == rest;
      }
    }
  }

  /** Dropping the body leaves the URL in place, so the rule has nothing left to do. */
  lemma DropBodyIsIdempotent(req: Tree)
    ensures DropBody(DropBody(req)) == DropBody(req)
  {
    if IsWebhookRequest(req) {
      GetAfterWithout(req.slots, "data", "url");
    }
  }

  lemma {:induction false} DropBodyInIsIdempotent(slots: seq<Slot<Tree>>)
    ensures DropBodyIn(DropBodyIn(slots)) == DropBodyIn(slots)
  {
    if slots != [] {
      if slots[0].key == "request" {
        DropBodyIsIdempotent(slots[0].value);
        assert DropBodyIn(slots)[1..] == slots[1..];
      } else {
        DropBodyInIsIdempotent(slots[1..]);
        assert DropBodyIn(slots)[1..] == DropBodyIn(slots[1..]);
      }
    }
  }

  lemma {:induction false} DropBodyInFinds(slots: seq<Slot<Tree>>, key: string)
    ensures Get(DropBodyIn(slots), key)
         == if key == "request" && Get(slots, key).Some? then Some(DropBody(Get(slots, key).value)) else Get(slots, key)
  {
    if slots != [] {
      if slots[0].key == "request" {
        assert DropBodyIn(slots)[1..] == slots[1..];
      } else {
        DropBodyInFinds(slots[1..], key);
        assert DropBodyIn(slots)[1..] == DropBodyIn(slots[1..]);
      }
    }
  }

  /** In no scrubbed event does a request with a webhook URL carry a body; all else, in it and beside it, is as the walk left it. */
  lemma WebhookBodyIsDropped(heap: Heap, deny: set<string>, event: Value, key: string, other: string)
    requires Closed(heap) && Known(heap, event)
    requires Walk(heap, deny, event, {}).out.Branch? && !Walk(heap, deny, event, {}).out.isList
    ensures var before := Walk(heap, deny, event, {}).out;
            var after := Scrub(heap, deny, Some(event)).value;
            && after.Branch?
            && (key != "request" ==> Get(after.slots, key) == Get(before.slots, key))
            && var was, req := Get(before.slots, "request"), Get(after.slots, "request");
               && (req.Some? <==> was.Some?)
               && (req.Some? && !IsWebhookRequest(req.value) ==> was == req)
               && (req.Some? && IsWebhookRequest(req.value) ==>
                     && was.value.Branch? && !was.value.isList && Get(req.value.slots, "data").None?
                     && (other != "data" ==> Get(req.value.slots, other) == Get(was.value.slots, other)))
  {
    var before := Walk(heap, deny, event, {}).out;
    hide Walk;
    DropBodyInFinds(before.slots, key);
    DropBodyInFinds(before.slots, "request");
    var was := Get(before.slots, "request");
    if was.Some? {
      BodyDropped(was.value, other);
    }
    hide IsWebhookRequest, DropBody, Get, DropBodyIn;
  }

  lemma BodyDropped(req: Tree, other: string)
    ensures var r := DropBody(req);
            && (!IsWebhookRequest(r) ==> r == req)
            && (IsWebhookRequest(r) ==>
                  && req.Branch? && !req.isList && Get(r.slots, "data").None?
                  && (other != "data" ==> Get(r.slots, other) == Get(req.slots, other)))
  {
    if IsWebhookRequest(req) {
      GetAfterWithout(req.slots, "data", "url");
      GetAfterWithout(req.slots, "data", other);
    }
  }

  /** A webhook URL has the segment, and behind it its end or no letter, digit or underscore. */
  predicate WebhookParts(url: string, front: string, back: string) {
    url == front + "/webhooks" + back && (back == "" || !IsWord(back[0]))
  }

  lemma WebhooksAre(url: string)
    ensures HasWebhooks(url) <==> exists front, back :: WebhookParts(url, front, back)
  {
    if HasWebhooks(url) {
      var i :| 0 <= i <= |url| && SegmentAt(url, i);
      assert WebhookParts(url, url[..i], url[i + 9..]);
    }
    if front, back :| WebhookParts(url, front, back) {
      assert url[|front|..|front| + 9] == "/webhooks";
      assert SegmentAt(url, |front|);
    }
  }

  // ----- scrubbing twice -----

  lemma DropBodyKeepsScrubbed(deny: set<string>, req: Tree)
    requires Scrubbed(deny, req)
    ensures Scrubbed(deny, DropBody(req))
  {
    if IsWebhookRequest(req) {
      var kept := Without(req.slots, "data");
      GetAfterWithout(req.slots, "data", "url");
      forall i | 0 <= i < |kept| ensures ScrubbedSlot(deny, false, kept[i]) {
        assert kept[i] in kept;
        assert kept[i] in req.slots;
      }
    }
  }

  lemma {:induction false} DropBodyInKeepsScrubbed(deny: set<string>, slots: seq<Slot<Tree>>)
    requires forall i :: 0 <= i < |slots| ==> ScrubbedSlot(deny, false, slots[i])
    ensures forall i :: 0 <= i < |DropBodyIn(slots)| ==> ScrubbedSlot(deny, false, DropBodyIn(slots)[i])
  {
    hide Clean;
    if slots != [] {
      var rest := slots[1..];
      assert forall i :: 0 <= i < |rest| ==> rest[i] == slots[i + 1];
      if slots[0].key == "request" {
        if !Denied(deny, false, "request") {
          DropBodyKeepsScrubbed(deny, slots[0].value);
        }
      } else {
        DropBodyInKeepsScrubbed(deny, rest);
      }
    }
  }

  /** A scrubbed event is clean at every depth, and stays so under the webhook rule. */
  lemma ScrubbedEventIsClean(heap: Heap, deny: set<string>, event: Value)
    requires Closed(heap) && Known(heap, event)
    ensures Scrubbed(deny, Scrub(heap, deny, Some(event)).value)
  {
    WalkMirrorsAndScrubs(heap, deny, event, {});
    var t := Walk(heap, deny, event, {}).out;
    if t.Branch? && !t.isList {
      DropBodyInKeepsScrubbed(deny, t.slots);
    }
  }

  /** Scrubbing a scrubbed event, in which no object is met twice, changes nothing. */
  lemma ScrubIsIdempotent(heap: Heap, deny: set<string>, event: Value, heap2: Heap, event2: Value)
    requires Closed(heap) && Known(heap, event) && Closed(heap2) && Known(heap2, event2)
    requires var t := Scrub(heap, deny, Some(event)).value; ReadsAs(heap2, deny, event2, t) && Distinct(Met(heap2, deny, event2, t))
    ensures Scrub(heap2, deny, Some(event2)) == Scrub(heap, deny, Some(event))
  {
    var t := Scrub(heap, deny, Some(event)).value;
    ScrubbedEventIsClean(heap, deny, event);
    FixedIffScrubbed(deny, t);
    WalkIsWholeExactly(heap2, deny, event2, t, {});
    var before := Walk(heap, deny, event, {}).out;
    if before.Branch? {
      DropBodyInIsIdempotent(before.slots);
    }
  }

  // ----- the code -----

  /** The `WeakSet` shared by one whole walk. */
  class SeenSet {
    var ids: set<nat>

    constructor ()
      ensures ids == {}
    {
      ids := {};
    }
  }

  method WalkValue(heap: Heap, deny: set<string>, v: Value, seen: SeenSet) returns (out: Tree)
    requires Closed(heap) && Known(heap, v)
    modifies seen
    ensures out == Walk(heap, deny, v, old(seen.ids)).out && seen.ids == Walk(heap, deny, v, old(seen.ids)).seen
    decreases heap.Keys - seen.ids
  {
    hide Redacted, Denied;
    match v
    case Text(s) =>
      var redacted := RedactString(s);
      out := Leaf(redacted);
    case Other(tag) =>
      out := Plain(tag);
    case Ref(id) =>
      if id in seen.ids {
        out := Leaf(CIRCULAR);
        return;
      }
      assert id in heap.Keys - seen.ids;
      seen.ids := seen.ids + {id};
      ghost var start := seen.ids;
      var obj := heap[id];
      var slots: seq<Slot<Tree>> := [];
      for i := 0 to |obj.slots|
        invariant start <= seen.ids
        invariant var rest := WalkSlots(heap, deny, obj.isList, obj.slots[i..], seen.ids);
                  var all := WalkSlots(heap, deny, obj.isList, obj.slots, start);
                  slots + rest.out == all.out && rest.seen == all.seen
      {
        var slot := obj.slots[i];
        assert slot == obj.slots[i..][0] && obj.slots[i..][1..] == obj.slots[i + 1..];
        var copy: Tree;
        if Denied(deny, obj.isList, slot.key) {
          copy := Leaf(Marker(Lower(slot.key)));
        } else {
          copy := WalkValue(heap, deny, slot.value, seen);
        }
        slots := slots + [Slot(slot.key, copy)];
      }
      out := Branch(obj.isList, slots);
  }

  method ScrubEvent(heap: Heap, deny: set<string>, event: Option<Value>) returns (result: Option<Tree>)
    requires Closed(heap) && (event.Some? ==> Known(heap, event.value))
    ensures result == Scrub(heap, deny, event)
  {
    if event.None? {
      return None;
    }
    var seen := new SeenSet();
    var scrubbed := WalkValue(heap, deny, event.value, seen);
    result := Some(ApplyWebhookRule(scrubbed));
  }
}
