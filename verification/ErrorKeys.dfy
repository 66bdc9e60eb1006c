/** Which different errors the tracker takes for one: their stored texts join to the same key. */
module ErrorKeys {
  import opened Wrappers
  import opened Texts
  import opened Pattern
  import opened Redact
  import opened ScrubWalk
  import opened RecentErrors
  import opened ErrorTracker

  // ----- what redaction cannot make -----

  lemma ModulesHaveUnderscore(line: string, i: nat)
    requires StartsAt(line, i, "node_modules")
    ensures '_' in line
  {
    assert line[i..i + 12][4] == line[i + 4];
  }

  lemma StartsLater(front: string, s: string, k: nat, w: string)
    ensures StartsAt(front + s, |front| + k, w) <==> StartsAt(s, k, w)
  {
    if k + |w| <= |s| {
      assert (front + s)[|front| + k..|front| + k + |w|] == s[k..k + |w|];
    }
  }

  lemma StartsInFront(front: string, s: string, k: nat, w: string)
    requires k + |w| <= |front|
    ensures StartsAt(front + s, k, w) <==> StartsAt(front, k, w)
  {
    assert (front + s)[k..k + |w|] == front[k..k + |w|];
  }

  /** A word without brackets that no marker holds stands in the result only where it stood before. */
  lemma {:induction false} WordComesFrom(p: Pattern, marker: string, s: string, w: string, k: nat) returns (i: nat)
    requires Bracketed(marker) && w != [] && '[' !in w && ']' !in w && !Includes(marker, w)
    requires StartsAt(ReplaceAll(p, marker, s), k, w)
    ensures StartsAt(s, i, w)
    decreases |s|
  {
    hide MatchAtStart, Includes;
    var out, n := ReplaceAll(p, marker, s), MatchAtStart(p, s);
    if s == [] {
      assert false;
    } else if n.Some? && 0 < n.value <= |s| {
      var rest := ReplaceAll(p, marker, s[n.value..]);
      WordBehindMarker(marker, rest, w, k);
      StartsLater(marker, rest, k - |marker|, w);
      i := WordComesFrom(p, marker, s[n.value..], w, k - |marker|);
      StartsInWhole(s, n.value, i, w);
      i := n.value + i;
    } else if k == 0 {
      assert out[..|w|] == out[0..0 + |w|] == w;
      PlainPrefixIsOriginal(p, marker, s, |w|);
      assert s[0..0 + |w|] == s[..|w|];
      i := 0;
    } else {
      StartsLater([s[0]], ReplaceAll(p, marker, s[1..]), k - 1, w);
      i := WordComesFrom(p, marker, s[1..], w, k - 1);
      StartsInWhole(s, 1, i, w);
      i := 1 + i;
    }
  }

  lemma StartsInWhole(s: string, n: nat, i: nat, w: string)
    requires n <= |s| && StartsAt(s[n..], i, w)
    ensures StartsAt(s, n + i, w)
  {
    assert s == s[..n] + s[n..];
    StartsLater(s[..n], s[n..], i, w);
  }

  lemma WordBehindMarker(marker: string, rest: string, w: string, k: nat)
    requires Bracketed(marker) && w != [] && ']' !in w && !Includes(marker, w) && StartsAt(marker + rest, k, w)
    ensures k >= |marker|
  {
    var all := marker + rest;
    assert all[|marker| - 1] == ']';
    assert forall j :: k <= j < k + |w| ==> all[j] == all[k..k + |w|][j - k] == w[j - k];
    if k + |w| <= |marker| {
      StartsInFront(marker, rest, k, w);
    }
  }

  lemma {:induction false} WordComesFromAll(passes: seq<Pass>, s: string, w: string)
    requires forall p :: p in passes ==> Bracketed(p.marker) && !Includes(p.marker, w)
    requires w != [] && '[' !in w && ']' !in w && Includes(ApplyAll(passes, s), w)
    ensures Includes(s, w)
    decreases |passes|
  {
    hide ReplaceAll;
    if passes != [] {
      var out := ReplaceAll(passes[0].pattern, passes[0].marker, s);
      WordComesFromAll(passes[1..], out, w);
      var k :| 0 <= k <= |out| && StartsAt(out, k, w);
      var i := WordComesFrom(passes[0].pattern, passes[0].marker, s, w, k);
    }
  }

  lemma {:induction false} HeadAfterAll(passes: seq<Pass>, s: string)
    requires forall p :: p in passes ==> Bracketed(p.marker)
    ensures s == [] ==> ApplyAll(passes, s) == []
    ensures ApplyAll(passes, s) != [] ==> s != [] && ApplyAll(passes, s)[0] in {s[0], '['}
    decreases |passes|
  {
    if passes != [] {
      HeadAfterAll(passes[1..], ReplaceAll(passes[0].pattern, passes[0].marker, s));
    }
  }

  lemma MarkersHoldNeither()
    ensures forall p :: p in Passes() ==>
              Bracketed(p.marker) && !Includes(p.marker, "node_modules") && !Includes(p.marker, "\n")
  {
    hide Marker, Includes, Email, Cnpj, Cpf, StripeKey, Bearer, Bracketed;
    PlainMarker("email");
    PlainMarker("cnpj");
    PlainMarker("cpf");
    PlainMarker("stripe-key");
    PlainMarker("bearer");
  }

  lemma HarmlessHoldsNeither(s: string)
    requires Harmless(s)
    ensures !Includes(s, "\n") && !Includes(s, "node_modules")
  {
    forall i | 0 <= i <= |s| ensures !StartsAt(s, i, "\n") && !StartsAt(s, i, "node_modules") {
      if StartsAt(s, i, "node_modules") {
        ModulesHaveUnderscore(s, i);
      }
      assert i < |s| ==> s[i..i + 1] == [s[i]];
    }
  }

  lemma PlainMarker(name: string)
    requires Harmless(name)
    ensures Bracketed(Marker(name)) && !Includes(Marker(name), "node_modules") && !Includes(Marker(name), "\n")
  {
    MarkerIsHarmless(name);
    hide Harmless, Includes;
    HarmlessHoldsNeither(Marker(name));
  }

  // ----- what a stored frame can be -----

  /** The lines of a stack hold no line break. */
  ghost predicate WellSplit(err: Thrown) {
    err.Error? ==> forall i :: 0 <= i < |err.stack| ==> !Includes(err.stack[i], "\n")
  }

  /** Text that can stand at the front of a stored frame. */
  predicate FrameText(x: string) {
    x != "" && !IsSpace(x[0]) && !Includes(x, "\n") && !Includes(x, "node_modules")
  }

  lemma IncludedInPart(s: string, a: nat, b: nat, w: string)
    requires a <= b <= |s| && Includes(s[a..b], w)
    ensures Includes(s, w)
  {
    var t := s[a..b];
    var i :| 0 <= i <= |t| && StartsAt(t, i, w);
    assert t == s[..b][a..];
    StartsInWhole(s[..b], a, i, w);
    assert s == s[..b] + s[b..];
    StartsInFront(s[..b], s[b..], a + i, w);
  }

  lemma TrimmedIsFrameText(line: string)
    requires !Includes(line, "\n") && !Includes(line, "node_modules")
    ensures var t := TrimEnd(TrimStart(line)); t != "" ==> FrameText(t)
  {
    var t := TrimEnd(TrimStart(line));
    TrimIsExact(line);
    hide Includes, TrimStart, TrimEnd;
    var front, back :| line == front + t + back && AllSpace(front) && AllSpace(back);
    var a := |front|;
    assert t == line[a..a + |t|];
    if Includes(t, "\n") {
      IncludedInPart(line, a, a + |t|, "\n");
    }
    if Includes(t, "node_modules") {
      IncludedInPart(line, a, a + |t|, "node_modules");
    }
  }

  lemma {:induction false} OwnLine(lines: seq<string>)
    requires forall i :: 0 <= i < |lines| ==> !Includes(lines[i], "\n")
    ensures var l := FirstOwnLine(lines); l != "" ==> !Includes(l, "\n") && !Includes(l, "node_modules")
  {
    hide Includes;
    if lines != [] {
      OwnLine(lines[1..]);
    }
  }

  lemma IncludesExactly(line: string, part: string)
    ensures Includes(line, part) <==> exists front, back :: line == front + part + back
  {
    if Includes(line, part) {
      var i :| 0 <= i <= |line| && StartsAt(line, i, part);
      assert line == line[..i] + part + line[i + |part|..];
    }
    if front, back :| line == front + part + back {
      assert line[|front|..|front| + |part|] == part;
      assert StartsAt(line, |front|, part);
    }
  }

  lemma {:induction false} FirstOwnIs(lines: seq<string>, i: nat)
    requires i <= |lines| && forall k :: 0 <= k < i ==> Includes(lines[k], "node_modules")
    requires i < |lines| ==> !Includes(lines[i], "node_modules")
    ensures FirstOwnLine(lines) == if i < |lines| then lines[i] else ""
    decreases i
  {
    hide Includes;
    if i > 0 {
      FirstOwnIs(lines[1..], i - 1);
    }
  }

  /**
   * The frame of an error is the first line of its stack, behind the top one, that does not mention
   * node_modules, without the white space around it; there is none without such a line.
   */
  lemma FirstFrameIsExact(err: Thrown, i: nat)
    requires err.Error? && 1 <= i <= |err.stack|
    requires forall k :: 1 <= k < i ==> exists front, back :: err.stack[k] == front + "node_modules" + back
    requires i < |err.stack| ==> !exists front, back :: err.stack[i] == front + "node_modules" + back
    ensures if i < |err.stack| then TrimmedTo(err.stack[i], RawFirstFrame(err)) else RawFirstFrame(err) == ""
  {
    forall k | 1 <= k < |err.stack|
      ensures Includes(err.stack[k], "node_modules") <==> exists front, back :: err.stack[k] == front + "node_modules" + back
    {
      IncludesExactly(err.stack[k], "node_modules");
    }
    hide Includes, TrimmedTo, TrimStart, TrimEnd;
    FirstOwnIs(err.stack[1..], i - 1);
    if i < |err.stack| {
      TrimIsExact(err.stack[i]);
    } else {
      TrimOfNothing();
    }
  }

  lemma TrimOfNothing()
    ensures TrimEnd(TrimStart("")) == ""
  {
  }

  lemma RawFrameIsFrameText(err: Thrown)
    requires WellSplit(err)
    ensures RawFirstFrame(err) != "" ==> FrameText(RawFirstFrame(err))
  {
    hide Includes, FrameText;
    if err.Error? && err.stack != [] {
      assert forall i :: 0 <= i < |err.stack[1..]| ==> err.stack[1..][i] == err.stack[i + 1];
      OwnLine(err.stack[1..]);
      if FirstOwnLine(err.stack[1..]) != "" {
        TrimmedIsFrameText(FirstOwnLine(err.stack[1..]));
      }
    }
  }

  lemma RedactedIsFrameText(raw: string)
    requires raw != "" ==> FrameText(raw)
    ensures Redacted(raw) != "" ==> FrameText(Redacted(raw))
  {
    hide Includes, Passes, ApplyAll;
    MarkersHoldNeither();
    HeadAfterAll(Passes(), raw);
    WordStays(raw, "\n");
    WordStays(raw, "node_modules");
  }

  lemma WordStays(raw: string, w: string)
    requires w in {"\n", "node_modules"}
    ensures Includes(Redacted(raw), w) ==> Includes(raw, w)
  {
    hide Includes, Passes, ApplyAll, Bracketed;
    MarkersHoldNeither();
    if Includes(Redacted(raw), w) {
      WordComesFromAll(Passes(), raw, w);
    }
  }

  lemma FrontIsFrameText(s: string, n: nat)
    requires FrameText(s) && 0 < n <= |s|
    ensures FrameText(s[..n])
  {
    hide Includes;
    assert s[..n] == s[0..n];
    if Includes(s[..n], "\n") {
      IncludedInPart(s, 0, n, "\n");
    }
    if Includes(s[..n], "node_modules") {
      IncludedInPart(s, 0, n, "node_modules");
    }
  }

  /** Every stored frame is empty or starts like a frame. */
  lemma StoredFrameIsFrameText(deny: set<string>, err: Thrown, source: Source, now: string)
    requires WellSplit(err) && !Denied(deny, false, "firstFrame")
    ensures var f := ToCapture(deny, err, source, now).firstFrame; f != "" ==> FrameText(f)
  {
    hide FrameText, Redacted, RawFirstFrame, Denied;
    RawFrameIsFrameText(err);
    RedactedIsFrameText(RawFirstFrame(err));
    var f := Redacted(RawFirstFrame(err));
    if |f| > MAX_FRAME_LEN {
      FrontIsFrameText(f, MAX_FRAME_LEN);
    }
  }

  /** As much of a text as fits. */
  predicate FrontOf(s: string, max: nat, t: string) {
    t <= s && |t| == if |s| <= max then |s| else max
  }

  /** What is stored: the front of each redacted text, up to 500 and 200 characters, or the marker of a denied key. */
  lemma StoredTextsAre(deny: set<string>, err: Thrown, source: Source, now: string)
    ensures var c := ToCapture(deny, err, source, now);
            && c.source == source && c.timestamp == now
            && (if Denied(deny, false, "message") then c.message == "[redacted:message]"
                else FrontOf(Redacted(RawMessage(err)), 500, c.message))
            && (if Denied(deny, false, "firstFrame") then c.firstFrame == "[redacted:firstframe]"
                else FrontOf(Redacted(RawFirstFrame(err)), 200, c.firstFrame))
  {
    hide Lower, Denied, Redacted, RawMessage, RawFirstFrame, Cut, Marker, FrontOf;
    MarkersOfLeaves();
    CutIsFront(Redacted(RawMessage(err)), 500);
    CutIsFront(Redacted(RawFirstFrame(err)), 200);
  }

  lemma CutIsFront(s: string, max: nat)
    ensures FrontOf(s, max, Cut(s, max))
  {
  }

  lemma MarkersOfLeaves()
    ensures Cut(Marker(Lower("message")), 500) == "[redacted:message]"
    ensures Cut(Marker(Lower("firstFrame")), 200) == "[redacted:firstframe]"
  {
    assert Lower("message") == "message" && Lower("firstFrame") == "firstframe";
  }

  // ----- errors that are stored as they were thrown -----

  /** Text that `trim` leaves alone and that is not taken for a library frame. */
  predicate KeptFrame(frame: string) {
    frame == "" || (FrameText(frame) && !IsSpace(frame[|frame| - 1]))
  }

  lemma FrameIsKept(message: string, first: string, frame: string)
    requires KeptFrame(frame)
    ensures RawFirstFrame(Error(message, [first, frame])) == frame
  {
    assert [first, frame][1..] == [frame];
    assert frame == "" ==> FirstOwnLine([frame]) == "";
    hide Includes;
    assert FirstOwnLine([frame]) == frame;
    assert TrimStart(frame) == frame && TrimEnd(frame) == frame;
  }

  lemma CleanIsKept(deny: set<string>, key: string, s: string, max: nat)
    requires Clean(s) && |s| <= max && !Denied(deny, false, key)
    ensures Cut(ScrubbedLeaf(deny, key, s), max) == s
  {
    hide Clean, Redacted, Denied;
    RedactsExactlyWhatIsSensitive(s);
  }

  lemma CleanCapture(deny: set<string>, message: string, first: string, frame: string, source: Source, now: string)
    requires Clean(message) && |message| <= MAX_MESSAGE_LEN && !Denied(deny, false, "message")
    requires Clean(frame) && |frame| <= MAX_FRAME_LEN && !Denied(deny, false, "firstFrame") && KeptFrame(frame)
    ensures ToCapture(deny, Error(message, [first, frame]), source, now) == Capture(message, frame, source, now)
  {
    hide Clean, Denied, Cut, ScrubbedLeaf, RawFirstFrame, KeptFrame;
    FrameIsKept(message, first, frame);
    CleanIsKept(deny, "message", message, MAX_MESSAGE_LEN);
    CleanIsKept(deny, "firstFrame", frame, MAX_FRAME_LEN);
  }

  // ----- messages that can collide -----

  /** Two different stored errors with these messages share a key. */
  ghost predicate CapturesCollide(deny: set<string>, m1: string, m2: string) {
    exists one, two :: Collision(deny, m1, m2, one, two)
  }

  ghost predicate Collision(deny: set<string>, m1: string, m2: string, one: Thrown, two: Thrown) {
    && WellSplit(one) && WellSplit(two)
    && var c, d := ToCapture(deny, one, Global, ""), ToCapture(deny, two, Global, "");
       && c.message == m1 && d.message == m2 && c != d && CaptureKey(c) == CaptureKey(d)
  }

  /** What the frame of the shorter message must start with. */
  function RestOf(m1: string, m2: string): string
    requires |m1| <= |m2|
  {
    (m2 + "::")[|m1| + 2..]
  }

  ghost predicate ColonFree(p: Pattern) {
    forall r :: r in p ==> Avoids(r, ':')
  }

  lemma ColonIsAvoided(k: nat)
    requires k < 5
    ensures ColonFree(Passes()[k].pattern)
  {
    hide ColonFree, Email, Cnpj, Cpf, StripeKey, Bearer, Marker;
    EmailAvoidsColon();
    NumbersAvoidColon();
    KeysAvoidColon();
    BearerAvoidsColon();
  }

  lemma EmailAvoidsColon()
    ensures ColonFree(Email())
  {
  }

  lemma BearerAvoidsColon()
    ensures ColonFree(Bearer())
  {
    AnyCaseAvoids("bearer", Plus(Space, Plus(WordOr(".-"), Done)), ':');
    hide LiteralAnyCase;
  }

  lemma NumbersAvoidColon()
    ensures ColonFree(Cnpj()) && ColonFree(Cpf())
  {
    forall n: nat, next ensures Avoids(Times(Digit, n, next), ':') == Avoids(next, ':') {
      TimesIsSafe(Digit, n, next, ':', Digit);
    }
  }

  lemma KeysAvoidColon()
    ensures ColonFree(StripeKey())
  {
    LiveKeyAvoidsColon();
    TestKeyAvoidsColon();
    hide Avoids, Literal;
  }

  lemma LiveKeyAvoidsColon()
    ensures Avoids(Literal("sk_live_", Plus(Word, Done)), ':')
  {
    LiteralAvoids("sk_live_", Plus(Word, Done), ':');
  }

  lemma TestKeyAvoidsColon()
    ensures Avoids(Literal("sk_test_", Plus(Word, Done)), ':')
  {
    LiteralAvoids("sk_test_", Plus(Word, Done), ':');
  }

  /** A match takes no ':', so one that reaches beyond `s` would be empty, and would match in `s` too. */
  lemma OccursWithoutColons(p: Pattern, s: string)
    requires ColonFree(p)
    ensures Occurs(p, s + "::") ==> Occurs(p, s)
  {
    var all := s + "::";
    assert forall i, j :: 0 <= i < j <= |all| && |s| < j ==> all[i..j][j - 1 - i] == ':';
    if Occurs(p, all) {
      var i, j :| 0 <= i <= j <= |all| && Describes(p, all[i..j]);
      NoColonMatched(p, all[i..j]);
      assert all[i..j] == if j <= |s| then s[i..j] else s[0..0];
    }
  }

  lemma NoColonMatched(p: Pattern, w: string)
    requires ColonFree(p) && Describes(p, w)
    ensures ':' !in w
  {
    var k :| 0 <= k < |p| && Matches(p[k], w);
    assert p[k] in p;
    AvoidedCharIsAbsent(p[k], w, ':');
  }

  lemma ShorterIsFront(m1: string, m2: string)
    requires |m1| <= |m2| && m1 + "::" <= m2 + "::"
    ensures m1 == m2[..|m1|] && (|m1| == |m2| ==> m1 == m2)
  {
    assert m1 == (m1 + "::")[..|m1|] == (m2 + "::")[..|m1|] == m2[..|m1|];
  }

  lemma PartsAreClean(m1: string, m2: string)
    requires m1 + "::" <= m2 + "::" && |m1| < |m2| && Clean(m2)
    ensures Clean(m1) && Clean(RestOf(m1, m2))
  {
    var all := m2 + "::";
    ShorterIsFront(m1, m2);
    CutIsClean(m2, |m1|);
    forall k: nat | k < 5 ensures !Occurs(Passes()[k].pattern, RestOf(m1, m2)) {
      ColonIsAvoided(k);
      hide Passes, Occurs;
      OccursWithoutColons(Passes()[k].pattern, m2);
      OccursLater(Passes()[k].pattern, all, |m1| + 2);
    }
  }

  /** The frame that completes the shorter message to the key of the longer one. */
  lemma FrameOfShorter(m1: string, f1: string, m2: string, f2: string)
    requires |m1| <= |m2| && DedupKey(m1, f1) == DedupKey(m2, f2)
    ensures f1 == RestOf(m1, m2) + f2
  {
    var k := DedupKey(m1, f1);
    assert f1 == k[|m1| + 2..] && f2 == k[|m2| + 2..];
    assert k == (m2 + "::") + f2;
  }

  lemma RestIsKept(m1: string, m2: string)
    requires |m1| <= |m2| && m1 != m2 && m1 + "::" <= m2 + "::" && FrameText(RestOf(m1, m2))
    ensures |m1| < |m2| && KeptFrame(RestOf(m1, m2)) && |RestOf(m1, m2)| == |m2| - |m1|
    ensures DedupKey(m1, RestOf(m1, m2)) == DedupKey(m2, "")
  {
    ShorterIsFront(m1, m2);
    var rest := RestOf(m1, m2);
    hide FrameText;
    assert (m1 + "::") + rest == (m2 + "::") + "" && rest[|rest| - 1] == ':';
  }

  lemma TheyCollide(deny: set<string>, m1: string, m2: string)
    requires !Denied(deny, false, "message") && !Denied(deny, false, "firstFrame")
    requires |m1| <= |m2| <= MAX_MESSAGE_LEN && m1 != m2 && m1 + "::" <= m2 + "::" && Clean(m2)
    requires |m2| - |m1| <= MAX_FRAME_LEN && FrameText(RestOf(m1, m2))
    ensures CapturesCollide(deny, m1, m2)
  {
    hide Clean, FrameText, Denied, ToCapture, RestOf, KeptFrame, DedupKey, WellSplit;
    var rest := RestOf(m1, m2);
    RestIsKept(m1, m2);
    PartsAreClean(m1, m2);
    EmptyIsClean(m2);
    NoFrameIsKept();
    CleanCapture(deny, m1, "", rest, Global, "");
    CleanCapture(deny, m2, "", "", Global, "");
    TheyAreSplit(m1, rest);
    TheyAreSplit(m2, "");
    assert Collision(deny, m1, m2, Error(m1, ["", rest]), Error(m2, ["", ""]));
  }

  lemma NoFrameIsKept()
    ensures KeptFrame("")
  {
  }

  lemma TheyAreSplit(message: string, frame: string)
    requires KeptFrame(frame)
    ensures WellSplit(Error(message, ["", frame]))
  {
    assert !Includes("", "\n");
    hide Includes;
  }

  lemma EmptyIsClean(s: string)
    requires Clean(s)
    ensures Clean("")
  {
    CutIsClean(s, 0);
    assert s[..0] == "";
  }

  lemma WhenTheyCollide(deny: set<string>, m1: string, m2: string)
    requires |m1| <= |m2| && CapturesCollide(deny, m1, m2)
    ensures !Denied(deny, false, "message") && !Denied(deny, false, "firstFrame")
    ensures m1 != m2 && m1 + "::" <= m2 + "::" && Clean(m2) && |m2| <= MAX_MESSAGE_LEN
    ensures |m2| - |m1| <= MAX_FRAME_LEN && FrameText(RestOf(m1, m2))
  {
    var one, two :| Collision(deny, m1, m2, one, two);
    var f1, f2 := ToCapture(deny, one, Global, "").firstFrame, ToCapture(deny, two, Global, "").firstFrame;
    DeniedIsShared(deny, one, two);
    StoredTextIsClean(deny, one, Global, "");
    StoredTextIsClean(deny, two, Global, "");
    hide Clean, FrameText, Denied, WellSplit, ScrubbedLeaf;
    if |m1| == |m2| {
      KeyOfEqualLength(m1, f1, m2, f2);
    }
    FrameOfShorter(m1, f1, m2, f2);
    if |f1| == |f2| {
      KeyOfEqualLength(m1, f1, m2, f2);
    }
    ShorterReadsAsPrefix(m1, f1, m2, f2);
    StoredFrameIsFrameText(deny, one, Global, "");
    FrontIsFrameText(f1, |m2| - |m1|);
    assert f1[..|m2| - |m1|] == RestOf(m1, m2);
  }

  /** Under a denied key every error stores the same marker. */
  lemma DeniedIsShared(deny: set<string>, one: Thrown, two: Thrown)
    ensures var c, d := ToCapture(deny, one, Global, ""), ToCapture(deny, two, Global, "");
            && (Denied(deny, false, "message") ==> c.message == d.message)
            && (Denied(deny, false, "firstFrame") ==> c.firstFrame == d.firstFrame)
  {
    hide Denied, Redacted, RawMessage, RawFirstFrame, Cut;
  }

  /** Errors with these stored messages are taken for one another in exactly these cases. */
  lemma CapturesCollideExactly(deny: set<string>, m1: string, m2: string)
    requires |m1| <= |m2|
    ensures CapturesCollide(deny, m1, m2) <==>
            && !Denied(deny, false, "message") && !Denied(deny, false, "firstFrame")
            && m1 != m2 && m1 + "::" <= m2 + "::"
            && Clean(m2) && |m2| <= MAX_MESSAGE_LEN
            && |m2| - |m1| <= MAX_FRAME_LEN && FrameText(RestOf(m1, m2))
  {
    hide CapturesCollide, Denied, Clean, FrameText, RestOf;
    if CapturesCollide(deny, m1, m2) {
      WhenTheyCollide(deny, m1, m2);
    }
    if && !Denied(deny, false, "message") && !Denied(deny, false, "firstFrame")
       && m1 != m2 && m1 + "::" <= m2 + "::" && Clean(m2) && |m2| <= MAX_MESSAGE_LEN
       && |m2| - |m1| <= MAX_FRAME_LEN && FrameText(RestOf(m1, m2)) {
      TheyCollide(deny, m1, m2);
    }
  }

  lemma HarmlessIsKept(frame: string)
    requires Harmless(frame)
    ensures Clean(frame) && KeptFrame(frame)
  {
    HarmlessIsUntouched(frame);
    HarmlessHoldsNeither(frame);
    hide Clean, Includes;
  }

  lemma RestIsHarmless(m1: string, m2: string)
    requires |m1| < |m2| && Harmless(m2)
    ensures Harmless(RestOf(m1, m2)) && RestOf(m1, m2) != ""
  {
  }

  /** For harmless messages only the separator and the length of the rest matter. */
  lemma HarmlessMessagesCollideExactly(deny: set<string>, m1: string, m2: string)
    requires |m1| <= |m2| <= MAX_MESSAGE_LEN && Harmless(m2)
    requires !Denied(deny, false, "message") && !Denied(deny, false, "firstFrame")
    ensures CapturesCollide(deny, m1, m2) <==>
            m1 != m2 && m1 + "::" <= m2 + "::" && |m2| - |m1| <= MAX_FRAME_LEN
  {
    hide CapturesCollide, Denied, Clean, FrameText, RestOf, Harmless;
    HarmlessIsKept(m2);
    CapturesCollideExactly(deny, m1, m2);
    if m1 + "::" <= m2 + "::" {
      ShorterIsFront(m1, m2);
      if |m1| < |m2| {
        RestIsHarmless(m1, m2);
        HarmlessIsKept(RestOf(m1, m2));
      }
    }
  }

  // ----- two errors counted as one -----

  /** Any two errors whose stored texts give one key are one entry with count 2, under the first one's texts. */
  lemma ErrorsAreMerged(capacity: nat, deny: set<string>, one: Thrown, source: Source, now: string,
                        two: Thrown, source2: Source, now2: string)
    requires 1 <= capacity
    requires CaptureKey(ToCapture(deny, one, source, now)) == CaptureKey(ToCapture(deny, two, source2, now2))
    ensures var c, d := ToCapture(deny, one, source, now), ToCapture(deny, two, source2, now2);
            RecordAll(capacity, [c, d]) == [Entry(now2, c.message, source, 2, c.firstFrame)]
  {
    hide RecordAll;
    SameKeyIsMerged(capacity, ToCapture(deny, one, source, now), ToCapture(deny, two, source2, now2));
  }

  lemma HarmlessCapture(deny: set<string>, message: string, first: string, frame: string, source: Source, now: string)
    requires Harmless(message) && Harmless(frame) && |message| <= MAX_MESSAGE_LEN && |frame| <= MAX_FRAME_LEN
    requires !Denied(deny, false, "message") && !Denied(deny, false, "firstFrame")
    ensures ToCapture(deny, Error(message, [first, frame]), source, now) == Capture(message, frame, source, now)
  {
    hide Harmless, Clean, Denied, ToCapture, KeptFrame;
    HarmlessIsKept(message);
    HarmlessIsKept(frame);
    CleanCapture(deny, message, first, frame, source, now);
  }

  /** So "m::x" thrown at "f" and "m" thrown at "x::f", different errors for all harmless texts, are counted as one. */
  lemma DifferentErrorsAreMerged(capacity: nat, deny: set<string>, m: string, x: string, f: string,
                                 first: string, source: Source, now: string, source2: Source, now2: string)
    requires 1 <= capacity && !Denied(deny, false, "message") && !Denied(deny, false, "firstFrame")
    requires Harmless(m) && Harmless(x) && Harmless(f)
    requires |m| + 2 + |x| <= MAX_MESSAGE_LEN && |x| + 2 + |f| <= MAX_FRAME_LEN
    ensures var one, two := Error(m + ("::" + x), [first, f]), Error(m, [first, x + ("::" + f)]);
            && one != two
            && RecordAll(capacity, [ToCapture(deny, one, source, now), ToCapture(deny, two, source2, now2)])
               == [Entry(now2, m + ("::" + x), source, 2, f)]
  {
    var m1, f2 := m + ("::" + x), x + ("::" + f);
    hide Harmless, Denied, ToCapture, RecordAll;
    SeparatorMoves(m, x, f);
    HarmlessAround(m, x);
    HarmlessAround(x, f);
    HarmlessCapture(deny, m1, first, f, source, now);
    HarmlessCapture(deny, m, first, f2, source2, now2);
    ErrorsAreMerged(capacity, deny, Error(m1, [first, f]), source, now, Error(m, [first, f2]), source2, now2);
  }

  lemma SeparatorMoves(m: string, x: string, f: string)
    ensures DedupKey(m + ("::" + x), f) == DedupKey(m, x + ("::" + f))
  {
    assert m + ("::" + x) + "::" + f == m + "::" + (x + ("::" + f));
  }

  lemma HarmlessAround(a: string, b: string)
    requires Harmless(a) && Harmless(b)
    ensures Harmless(a + ("::" + b))
  {
    assert Harmless("::");
    hide Harmless;
    HarmlessJoins("::", b);
    HarmlessJoins(a, "::" + b);
  }

  lemma SameKeyIsMerged(capacity: nat, c: Capture, d: Capture)
    requires 1 <= capacity && CaptureKey(c) == CaptureKey(d)
    ensures RecordAll(capacity, [c, d]) == [Entry(d.timestamp, c.message, c.source, 2, c.firstFrame)]
  {
    RecordOneMore(capacity, [], c);
    RecordOneMore(capacity, [c], d);
    assert [] + [c] == [c] && [c] + [d] == [c, d];
    assert RecordAll(capacity, [c]) == [Entry(c.timestamp, c.message, c.source, 1, c.firstFrame)];
  }
}
