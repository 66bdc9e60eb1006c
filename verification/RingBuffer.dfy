/** The error tracker's rolling window of recent errors, as a plain list of values. */
module RecentErrors {
  import opened Wrappers

  datatype Source = Cqrs | Http | Worker | Global

  datatype Entry = Entry(timestamp: string, message: string, source: Source, count: nat, firstFrame: string)

  /** One capture, already scrubbed and truncated. */
  datatype Capture = Capture(message: string, firstFrame: string, source: Source, timestamp: string)

  function DedupKey(message: string, firstFrame: string): string {
    message + "::" + firstFrame
  }

  function KeyOf(e: Entry): string {
    DedupKey(e.message, e.firstFrame)
  }

  function CaptureKey(c: Capture): string {
    DedupKey(c.message, c.firstFrame)
  }

  /** Linear scan for the entry with the given key. */
  function Find(list: seq<Entry>, key: string): Option<nat> {
    if list == [] then None
    else if KeyOf(list[0]) == key then Some(0)
    else
      var rest := Find(list[1..], key);
      if rest.Some? then Some(rest.value + 1) else None
  }

  /** The reference behaviour: bump the entry that has the key, else append, evicting the oldest when full. */
  function Record(list: seq<Entry>, capacity: nat, c: Capture): seq<Entry> {
    var found := Find(list, CaptureKey(c));
    if found.Some? && found.value < |list| then
      var e := list[found.value];
      list[found.value := e.(count := e.count + 1, timestamp := c.timestamp)]
    else
      (if |list| >= capacity && list != [] then list[1..] else list)
      + [Entry(c.timestamp, c.message, c.source, 1, c.firstFrame)]
  }

  function RecordAll(capacity: nat, captures: seq<Capture>): seq<Entry> {
    if captures == [] then []
    else Record(RecordAll(capacity, captures[..|captures| - 1]), capacity, captures[|captures| - 1])
  }

  lemma RecordOneMore(capacity: nat, captures: seq<Capture>, c: Capture)
    ensures RecordAll(capacity, captures + [c]) == Record(RecordAll(capacity, captures), capacity, c)
  {
  }

  // ----- the scan -----

  ghost predicate DistinctKeys(list: seq<Entry>) {
    forall i, j :: 0 <= i < j < |list| ==> KeyOf(list[i]) != KeyOf(list[j])
  }

  lemma {:induction false} FindFinds(list: seq<Entry>, key: string)
    ensures var f := Find(list, key);
            && (f.Some? ==> f.value < |list| && KeyOf(list[f.value]) == key)
            && (f.None? ==> forall i :: 0 <= i < |list| ==> KeyOf(list[i]) != key)
  {
    if list != [] {
      FindFinds(list[1..], key);
    }
  }

  /** With distinct keys, the position of a key is what the scan returns. */
  lemma FindIs(list: seq<Entry>, i: nat)
    requires DistinctKeys(list) && i < |list|
    ensures Find(list, KeyOf(list[i])) == Some(i)
  {
    hide DedupKey;
    FindFinds(list, KeyOf(list[i]));
  }

  // ----- what recording keeps -----

  lemma RecordKeeps(list: seq<Entry>, capacity: nat, c: Capture)
    requires 1 <= capacity && DistinctKeys(list) && |list| <= capacity
    ensures DistinctKeys(Record(list, capacity, c)) && 1 <= |Record(list, capacity, c)| <= capacity
    ensures Find(Record(list, capacity, c), CaptureKey(c)).Some?
  {
    FindFinds(list, CaptureKey(c));
    FindFinds(Record(list, capacity, c), CaptureKey(c));
    var found := Find(list, CaptureKey(c));
    if found.Some? {
      assert KeyOf(Record(list, capacity, c)[found.value]) == CaptureKey(c);
    } else {
      var r := Record(list, capacity, c);
      KeysAfterAppend(if |list| >= capacity && list != [] then list[1..] else list, r[|r| - 1]);
    }
  }

  lemma {:induction false} WindowIsSound(capacity: nat, captures: seq<Capture>)
    requires 1 <= capacity
    ensures DistinctKeys(RecordAll(capacity, captures)) && |RecordAll(capacity, captures)| <= capacity
  {
    if captures != [] {
      var before := captures[..|captures| - 1];
      WindowIsSound(capacity, before);
      RecordKeeps(RecordAll(capacity, before), capacity, captures[|captures| - 1]);
    }
  }

  // ----- conservation -----

  function Total(list: seq<Entry>): nat {
    if list == [] then 0 else Total(list[..|list| - 1]) + list[|list| - 1].count
  }

  /** What one capture pushes out of the window. */
  function Evicted(list: seq<Entry>, capacity: nat, c: Capture): nat {
    if Find(list, CaptureKey(c)).None? && |list| >= capacity && list != [] then list[0].count else 0
  }

  function EvictedAll(capacity: nat, captures: seq<Capture>): nat {
    if captures == [] then 0
    else
      var before := captures[..|captures| - 1];
      EvictedAll(capacity, before) + Evicted(RecordAll(capacity, before), capacity, captures[|captures| - 1])
  }

  lemma {:induction false} TotalFromFront(list: seq<Entry>)
    requires list != []
    ensures Total(list) == list[0].count + Total(list[1..])
  {
    if |list| > 1 {
      TotalFromFront(list[..|list| - 1]);
      assert list[..|list| - 1][1..] == list[1..][..|list| - 2];
    }
  }

  lemma {:induction false} TotalAfterBump(list: seq<Entry>, i: nat, e: Entry)
    requires i < |list| && e.count == list[i].count + 1
    ensures Total(list[i := e]) == Total(list) + 1
  {
    var last := |list| - 1;
    if i < last {
      TotalAfterBump(list[..last], i, e);
      assert list[i := e][..last] == list[..last][i := e];
    } else {
      assert list[i := e][..last] == list[..last];
    }
  }

  /** Counts in the window plus evicted counts are the number of captures: none is lost or counted twice. */
  lemma {:induction false} EveryCaptureIsCounted(capacity: nat, captures: seq<Capture>)
    requires 1 <= capacity
    ensures Total(RecordAll(capacity, captures)) + EvictedAll(capacity, captures) == |captures|
  {
    if captures != [] {
      var before := captures[..|captures| - 1];
      var list, c := RecordAll(capacity, before), captures[|captures| - 1];
      EveryCaptureIsCounted(capacity, before);
      TotalAfterRecord(list, capacity, c);
    }
  }

  lemma TotalAfterRecord(list: seq<Entry>, capacity: nat, c: Capture)
    ensures Total(Record(list, capacity, c)) + Evicted(list, capacity, c) == Total(list) + 1
  {
    hide DedupKey, Find, KeyOf, CaptureKey;
    FindFinds(list, CaptureKey(c));
    var found := Find(list, CaptureKey(c));
    if found.Some? {
      var e := list[found.value];
      TotalAfterBump(list, found.value, e.(count := e.count + 1, timestamp := c.timestamp));
    } else {
      var kept := if |list| >= capacity && list != [] then list[1..] else list;
      if |list| >= capacity && list != [] {
        TotalFromFront(list);
      }
      var entry := Entry(c.timestamp, c.message, c.source, 1, c.firstFrame);
      assert (kept + [entry])[..|kept|] == kept;
    }
  }

  // ----- order -----

  function Keys(list: seq<Entry>): seq<string> {
    seq(|list|, i requires 0 <= i < |list| => KeyOf(list[i]))
  }

  /** The keys in the order in which they entered the window, re-entries after eviction included. */
  function Insertions(capacity: nat, captures: seq<Capture>): seq<string> {
    if captures == [] then []
    else
      var before := captures[..|captures| - 1];
      var key := CaptureKey(captures[|captures| - 1]);
      Insertions(capacity, before) + if Find(RecordAll(capacity, before), key).None? then [key] else []
  }

  function LastOf(keys: seq<string>, n: nat): seq<string> {
    if |keys| <= n then keys else keys[|keys| - n..]
  }

  /** The window is the latest `capacity` insertions, oldest first; a repeated error does not move. */
  lemma {:induction false} WindowIsFirstInsertionOrder(capacity: nat, captures: seq<Capture>)
    requires 1 <= capacity
    ensures Keys(RecordAll(capacity, captures)) == LastOf(Insertions(capacity, captures), capacity)
  {
    hide Record, Find, CaptureKey, KeyOf;
    if captures != [] {
      var before := captures[..|captures| - 1];
      var list, c := RecordAll(capacity, before), captures[|captures| - 1];
      WindowIsFirstInsertionOrder(capacity, before);
      WindowIsSound(capacity, before);
      KeysAfterRecord(list, capacity, c);
    }
  }

  lemma KeysAfterAppend(kept: seq<Entry>, e: Entry)
    ensures Keys(kept + [e]) == Keys(kept) + [KeyOf(e)]
  {
  }

  lemma KeysAfterBump(list: seq<Entry>, i: nat, e: Entry)
    requires i < |list| && KeyOf(e) == KeyOf(list[i])
    ensures Keys(list[i := e]) == Keys(list)
  {
    hide KeyOf;
  }

  lemma KeysAfterRecord(list: seq<Entry>, capacity: nat, c: Capture)
    ensures Keys(Record(list, capacity, c)) ==
            if Find(list, CaptureKey(c)).Some? then Keys(list)
            else (if |list| >= capacity && list != [] then Keys(list)[1..] else Keys(list)) + [CaptureKey(c)]
  {
    if Find(list, CaptureKey(c)).Some? {
      KeysWhenFound(list, capacity, c);
    } else {
      hide Find, Keys, CaptureKey, KeyOf;
      var e := Entry(c.timestamp, c.message, c.source, 1, c.firstFrame);
      SameKey(e, c);
      KeysOfTail(list);
      KeysAfterAppend(if |list| >= capacity && list != [] then list[1..] else list, e);
    }
  }

  lemma KeysWhenFound(list: seq<Entry>, capacity: nat, c: Capture)
    requires Find(list, CaptureKey(c)).Some?
    ensures Keys(Record(list, capacity, c)) == Keys(list)
  {
    hide Find, Keys, CaptureKey, KeyOf;
    FindFinds(list, CaptureKey(c));
    var i := Find(list, CaptureKey(c)).value;
    SameKey(list[i], c);
    KeysAfterBump(list, i, list[i].(count := list[i].count + 1, timestamp := c.timestamp));
  }

  lemma SameKey(e: Entry, c: Capture)
    ensures e.message == c.message && e.firstFrame == c.firstFrame ==> KeyOf(e) == CaptureKey(c)
    ensures KeyOf(e.(count := e.count + 1, timestamp := c.timestamp)) == KeyOf(e)
  {
  }

  lemma KeysOfTail(list: seq<Entry>)
    ensures list != [] ==> Keys(list[1..]) == Keys(list)[1..]
  {
  }

  // ----- which errors share a key -----

  /** Two different pairs of these messages and any frames join to the same key. */
  ghost predicate Collide(m1: string, m2: string) {
    exists f1, f2 :: (m1, f1) != (m2, f2) && DedupKey(m1, f1) == DedupKey(m2, f2)
  }

  lemma KeyOfEqualLength(m1: string, f1: string, m2: string, f2: string)
    requires |m1| == |m2| && DedupKey(m1, f1) == DedupKey(m2, f2)
    ensures m1 == m2 && f1 == f2
  {
    var k := DedupKey(m1, f1);
    assert k[..|m1|] == m1 && k[..|m2|] == m2;
    assert k[|m1| + 2..] == f1 && k[|m2| + 2..] == f2;
  }

  lemma ShorterReadsAsPrefix(m1: string, f1: string, m2: string, f2: string)
    requires |m1| < |m2| && DedupKey(m1, f1) == DedupKey(m2, f2)
    ensures m1 + "::" <= m2 + "::"
  {
    var k, a, b := DedupKey(m1, f1), m1 + "::", m2 + "::";
    assert k == a + f1 && k == b + f2;
    assert k[..|a|] == a && k[..|b|] == b;
    assert b[..|a|] == k[..|b|][..|a|];
  }

  /**
   * With frames of any length, the key is ambiguous for exactly the messages of which one, closed by the
   * separator, is a proper beginning of the other closed by the separator.
   */
  lemma MessagesCollideExactly(m1: string, m2: string)
    requires |m1| <= |m2|
    ensures Collide(m1, m2) <==> m1 != m2 && m1 + "::" <= m2 + "::"
  {
    if Collide(m1, m2) {
      var f1, f2 :| (m1, f1) != (m2, f2) && DedupKey(m1, f1) == DedupKey(m2, f2);
      if |m1| == |m2| {
        KeyOfEqualLength(m1, f1, m2, f2);
      } else {
        ShorterReadsAsPrefix(m1, f1, m2, f2);
      }
    }
    if m1 != m2 && m1 + "::" <= m2 + "::" {
      var a, b := m1 + "::", m2 + "::";
      assert b == a + b[|a|..];
      assert DedupKey(m1, b[|a|..]) == DedupKey(m2, "");
    }
  }
}
