/** What each entry of the window says about the captures. */
module ErrorWindow {
  import opened RecentErrors

  function Occurrences(captures: seq<Capture>, key: string): nat {
    if captures == [] then 0
    else Occurrences(captures[..|captures| - 1], key) + if CaptureKey(captures[|captures| - 1]) == key then 1 else 0
  }

  /** Some entry of the window has the key. */
  ghost predicate Shows(capacity: nat, captures: seq<Capture>, key: string) {
    exists k :: 0 <= k < |RecordAll(capacity, captures)| && KeyOf(RecordAll(capacity, captures)[k]) == key
  }

  /** The entry came in with the i-th capture, whose texts and source it shows, and has been there ever since. */
  ghost predicate CameIn(capacity: nat, captures: seq<Capture>, e: Entry, i: nat) {
    && i < |captures|
    && captures[i].message == e.message && captures[i].firstFrame == e.firstFrame && captures[i].source == e.source
    && !Shows(capacity, captures[..i], KeyOf(e))
    && forall n :: i < n <= |captures| ==> Shows(capacity, captures[..n], KeyOf(e))
  }

  /** The last capture with the entry's key gave it its timestamp. */
  ghost predicate LastSeen(captures: seq<Capture>, e: Entry, j: nat) {
    && j < |captures| && CaptureKey(captures[j]) == KeyOf(e) && captures[j].timestamp == e.timestamp
    && forall m :: j < m < |captures| ==> CaptureKey(captures[m]) != KeyOf(e)
  }

  ghost predicate Tells(capacity: nat, captures: seq<Capture>, e: Entry, i: nat, j: nat) {
    && CameIn(capacity, captures, e, i) && i <= j && LastSeen(captures, e, j)
    && e.count == Occurrences(captures[i..], KeyOf(e))
  }

  lemma ShowsIsFound(capacity: nat, captures: seq<Capture>, key: string)
    ensures Shows(capacity, captures, key) <==> Find(RecordAll(capacity, captures), key).Some?
  {
    FindFinds(RecordAll(capacity, captures), key);
  }

  /** An entry that another capture leaves alone tells the same of one capture more. */
  lemma TellsOn(capacity: nat, before: seq<Capture>, c: Capture, e: Entry, i: nat, j: nat)
    requires Tells(capacity, before, e, i, j) && CaptureKey(c) != KeyOf(e)
    requires Shows(capacity, before + [c], KeyOf(e))
    ensures Tells(capacity, before + [c], e, i, j)
  {
    hide Shows, RecordAll, KeyOf, CaptureKey;
    CameInOn(capacity, before, c, e, i);
    OneMoreOccurrence(before, c, i, KeyOf(e));
  }

  lemma CameInOn(capacity: nat, before: seq<Capture>, c: Capture, e: Entry, i: nat)
    requires CameIn(capacity, before, e, i) && Shows(capacity, before + [c], KeyOf(e))
    ensures CameIn(capacity, before + [c], e, i)
  {
    hide Shows;
    var all := before + [c];
    assert all[..i] == before[..i];
    forall n | i < n <= |all| ensures Shows(capacity, all[..n], KeyOf(e)) {
      if n <= |before| {
        assert all[..n] == before[..n];
      } else {
        assert all[..n] == all;
      }
    }
  }

  lemma OneMoreOccurrence(before: seq<Capture>, c: Capture, i: nat, key: string)
    requires i <= |before|
    ensures Occurrences((before + [c])[i..], key) == Occurrences(before[i..], key) + if CaptureKey(c) == key then 1 else 0
  {
    var more := (before + [c])[i..];
    assert more == before[i..] + [c] && more[..|more| - 1] == before[i..];
  }

  /** Another capture of the entry's error. */
  lemma TellsMore(capacity: nat, before: seq<Capture>, c: Capture, e: Entry, i: nat, j: nat)
    requires Tells(capacity, before, e, i, j) && CaptureKey(c) == KeyOf(e)
    requires Shows(capacity, before + [c], KeyOf(e))
    ensures Tells(capacity, before + [c], e.(count := e.count + 1, timestamp := c.timestamp), i, |before|)
  {
    var bumped := e.(count := e.count + 1, timestamp := c.timestamp);
    assert KeyOf(bumped) == KeyOf(e);
    hide Shows, RecordAll, KeyOf, CaptureKey;
    CameInOn(capacity, before, c, e, i);
    OneMoreOccurrence(before, c, i, KeyOf(e));
  }

  lemma TellsFirst(capacity: nat, before: seq<Capture>, c: Capture)
    requires !Shows(capacity, before, CaptureKey(c)) && Shows(capacity, before + [c], CaptureKey(c))
    ensures Tells(capacity, before + [c], Entry(c.timestamp, c.message, c.source, 1, c.firstFrame), |before|, |before|)
  {
    var e := Entry(c.timestamp, c.message, c.source, 1, c.firstFrame);
    var all := before + [c];
    assert KeyOf(e) == CaptureKey(c);
    assert all[..|before|] == before && all[..|all|] == all;
    hide Shows, KeyOf, CaptureKey;
    OneMoreOccurrence(before, c, |before|, KeyOf(e));
    assert before[|before|..] == [];
  }

  /** How an entry of the window after a capture relates to the window before it. */
  lemma EntryBefore(list: seq<Entry>, capacity: nat, c: Capture, k: nat)
    requires 1 <= capacity && DistinctKeys(list) && k < |Record(list, capacity, c)|
    ensures var e, found := Record(list, capacity, c)[k], Find(list, CaptureKey(c));
            if found.Some? && k == found.value then
              && k < |list| && KeyOf(list[k]) == CaptureKey(c)
              && e == list[k].(count := list[k].count + 1, timestamp := c.timestamp)
            else if found.None? && k == |Record(list, capacity, c)| - 1 then
              e == Entry(c.timestamp, c.message, c.source, 1, c.firstFrame)
            else KeyOf(e) != CaptureKey(c) && e in list
  {
    hide DedupKey, Find;
    FindFinds(list, CaptureKey(c));
  }

  /**
   * Every entry of the window shows the texts and the source of the capture it came in with, counts the
   * captures with its key since then, and carries the timestamp of the last of them.
   */
  lemma {:induction false} EntryTellsItsCaptures(capacity: nat, captures: seq<Capture>, k: nat) returns (i: nat, j: nat)
    requires 1 <= capacity && k < |RecordAll(capacity, captures)|
    ensures Tells(capacity, captures, RecordAll(capacity, captures)[k], i, j)
    decreases |captures|
  {
    hide Record, Find, Tells, KeyOf, CaptureKey, Shows;
    assert captures != [];
    var before, c := captures[..|captures| - 1], captures[|captures| - 1];
    var list, e := RecordAll(capacity, before), RecordAll(capacity, captures)[k];
    assert captures == before + [c];
    WindowIsSound(capacity, before);
    EntryBefore(list, capacity, c, k);
    EntryIsShown(capacity, captures, k);
    ShowsIsFound(capacity, before, CaptureKey(c));
    var found := Find(list, CaptureKey(c));
    if found.Some? && k == found.value {
      i, j := EntryTellsItsCaptures(capacity, before, k);
      SameKey(list[k], c);
      TellsMore(capacity, before, c, list[k], i, j);
      j := |before|;
    } else if found.None? && k == |RecordAll(capacity, captures)| - 1 {
      SameKey(e, c);
      TellsFirst(capacity, before, c);
      i, j := |before|, |before|;
    } else {
      var m :| 0 <= m < |list| && list[m] == e;
      i, j := EntryTellsItsCaptures(capacity, before, m);
      TellsOn(capacity, before, c, e, i, j);
    }
  }

  lemma EntryIsShown(capacity: nat, captures: seq<Capture>, k: nat)
    requires k < |RecordAll(capacity, captures)|
    ensures Shows(capacity, captures, KeyOf(RecordAll(capacity, captures)[k]))
  {
  }
}
