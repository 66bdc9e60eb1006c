/**
 * The webhook rule looks at the URL after redaction. For which URLs it still sees a `/webhooks`
 * segment there: those whose segment does not read as a mailbox, and some that get one by redaction.
 */
module WebhookUrl {
  import opened Wrappers
  import opened Pattern
  import opened Redact
  import opened RedactOrder
  import opened ScrubWalk
  import opened ScrubResults
  import opened ScrubPii

  /** The segment's text stands at `i`, whatever follows it. */
  predicate TextAt(s: string, i: nat) {
    i + |SEGMENT| <= |s| && s[i..i + |SEGMENT|] == SEGMENT
  }

  function Behind(s: string, i: nat): string
    requires TextAt(s, i)
  {
    s[i + |SEGMENT|..]
  }

  /** `\b`, seen from the segment's last letter. */
  predicate Bounds(x: string) {
    x == [] || !IsWord(x[0])
  }

  lemma SegmentIsBoundedText(s: string)
    ensures HasWebhooks(s) <==> exists i :: TextAt(s, i) && Bounds(Behind(s, i))
  {
    if HasWebhooks(s) {
      var i :| 0 <= i <= |s| && SegmentAt(s, i);
      assert TextAt(s, i) && Bounds(Behind(s, i));
    }
    if i: nat :| TextAt(s, i) && Bounds(Behind(s, i)) {
      assert SegmentAt(s, i);
    }
  }

  // ----- one pass -----

  /** No match starts in the text. */
  ghost predicate NoMatchWithin(p: Pattern, s: string, i: nat)
    requires TextAt(s, i)
  {
    forall j :: i <= j < i + |SEGMENT| ==> MatchAtStart(p, s[j..]).None?
  }

  /** No match runs into the text from before. */
  ghost predicate NotCrossed(p: Pattern, s: string, i: nat) {
    forall a, b :: 0 <= a < i < b <= |s| ==> !Describes(p, s[a..b])
  }

  /** Where no match starts in the first `k` characters, they are copied. */
  lemma {:induction false} PrefixIsCopied(p: Pattern, marker: string, s: string, k: nat)
    requires k <= |s| && forall j :: 0 <= j < k ==> MatchAtStart(p, s[j..]).None?
    ensures ReplaceAll(p, marker, s) == s[..k] + ReplaceAll(p, marker, s[k..])
    decreases k
  {
    if k > 0 {
      assert s[0..] == s;
      forall j | 0 <= j < k - 1 ensures MatchAtStart(p, s[1..][j..]).None? {
        assert s[1..][j..] == s[j + 1..];
      }
      PrefixIsCopied(p, marker, s[1..], k - 1);
      assert s[1..][k - 1..] == s[k..];
    } else {
      assert s[0..] == s;
    }
  }

  /** And a result without a marker in its first `k` characters was copied there. */
  lemma {:induction false} PlainPrefixIsCopied(p: Pattern, marker: string, s: string, k: nat)
    requires BracketFree(p) && Bracketed(marker) && k <= |ReplaceAll(p, marker, s)|
    requires '[' !in ReplaceAll(p, marker, s)[..k]
    ensures k <= |s| && forall j :: 0 <= j < k ==> MatchAtStart(p, s[j..]).None?
    decreases |s|
  {
    if k > 0 {
      assert s != [];
      var out := ReplaceAll(p, marker, s);
      assert out[..k][0] == out[0];
      SomeIsPositive(p, s);
      assert MatchAtStart(p, s).None?;
      assert out[1..] == ReplaceAll(p, marker, s[1..]);
      assert out[1..][..k - 1] == out[..k][1..];
      PlainPrefixIsCopied(p, marker, s[1..], k - 1);
      forall j | 0 <= j < k ensures MatchAtStart(p, s[j..]).None? {
        assert s[0..] == s && (j > 0 ==> s[1..][j - 1..] == s[j..]);
      }
    }
  }

  lemma SomeIsPositive(p: Pattern, s: string)
    requires BracketFree(p)
    ensures MatchAtStart(p, s).Some? ==> 0 < MatchAtStart(p, s).value <= |s|
  {
    MatchesExactlyTheLanguage(p, s);
  }

  lemma HeadOfReplaced(p: Pattern, marker: string, s: string)
    requires BracketFree(p) && Bracketed(marker)
    ensures var out := ReplaceAll(p, marker, s);
            && (s == [] ==> out == [])
            && (s != [] && MatchAtStart(p, s).None? ==> out != [] && out[0] == s[0])
            && (MatchAtStart(p, s).Some? ==> s != [] && out != [] && out[0] == '[')
  {
    SomeIsPositive(p, s);
  }

  lemma TextInTail(s: string, i: nat, n: nat)
    requires n <= |s|
    ensures n <= i ==> (TextAt(s, i) <==> TextAt(s[n..], i - n))
    ensures n <= i && TextAt(s, i) ==> Behind(s[n..], i - n) == Behind(s, i)
  {
    if n <= i && i + |SEGMENT| <= |s| {
      assert s[n..][i - n..i - n + |SEGMENT|] == s[i..i + |SEGMENT|];
    }
  }

  lemma NoneInTail(p: Pattern, s: string, i: nat, n: nat)
    requires n <= i && TextAt(s, i)
    ensures TextAt(s[n..], i - n) && (NoMatchWithin(p, s, i) <==> NoMatchWithin(p, s[n..], i - n))
    ensures NotCrossed(p, s, i) ==> NotCrossed(p, s[n..], i - n)
  {
    TextInTail(s, i, n);
    assert forall j :: i <= j < i + |SEGMENT| ==> s[n..][j - n..] == s[j..];
    if NoMatchWithin(p, s[n..], i - n) {
      forall j | i <= j < i + |SEGMENT| ensures MatchAtStart(p, s[j..]).None? {
        assert MatchAtStart(p, s[n..][j - n..]).None?;
      }
    }
    if NoMatchWithin(p, s, i) {
      forall j | i - n <= j < i - n + |SEGMENT| ensures MatchAtStart(p, s[n..][j..]).None? {
        assert s[n..][j..] == s[n + j..];
      }
    }
    if NotCrossed(p, s, i) {
      forall a, b | 0 <= a < i - n < b <= |s[n..]| ensures !Describes(p, s[n..][a..b]) {
        assert s[n..][a..b] == s[n + a..n + b];
      }
    }
  }

  lemma TextMoves(front: string, s: string, i: nat)
    requires TextAt(s, i)
    ensures TextAt(front + s, |front| + i) && Behind(front + s, |front| + i) == Behind(s, i)
  {
    assert (front + s)[|front|..] == s;
    TextInTail(front + s, |front| + i, |front|);
  }

  /** Text that no match touches is still there after the pass, before what the pass makes of the rest. */
  lemma {:induction false} TextSurvives(p: Pattern, marker: string, s: string, i: nat) returns (k: nat)
    requires BracketFree(p) && TextAt(s, i) && NoMatchWithin(p, s, i) && NotCrossed(p, s, i)
    ensures var out := ReplaceAll(p, marker, s); TextAt(out, k) && Behind(out, k) == ReplaceAll(p, marker, Behind(s, i))
    decreases |s|
  {
    var n := MatchAtStart(p, s);
    SomeIsPositive(p, s);
    if i == 0 {
      TextStaysInFront(p, marker, s);
      k := 0;
    } else if n.Some? {
      MatchEndsBefore(p, s, i);
      k := SurvivesInTail(p, marker, s, i, marker, n.value);
    } else {
      k := SurvivesInTail(p, marker, s, i, [s[0]], 1);
    }
  }

  lemma MatchEndsBefore(p: Pattern, s: string, i: nat)
    requires BracketFree(p) && 0 < i < |s| && NotCrossed(p, s, i) && MatchAtStart(p, s).Some?
    ensures 0 < MatchAtStart(p, s).value <= i
  {
    SomeIsPositive(p, s);
    MatchesExactlyTheLanguage(p, s);
    var n := MatchAtStart(p, s).value;
    assert s[..n] == s[0..n];
  }

  lemma TextStaysInFront(p: Pattern, marker: string, s: string)
    requires TextAt(s, 0) && NoMatchWithin(p, s, 0)
    ensures var out := ReplaceAll(p, marker, s); TextAt(out, 0) && Behind(out, 0) == ReplaceAll(p, marker, Behind(s, 0))
  {
    PrefixIsCopied(p, marker, s, |SEGMENT|);
    hide ReplaceAll, MatchAtStart;
    var out := ReplaceAll(p, marker, s);
    assert out[0..0 + |SEGMENT|] == s[..|SEGMENT|] == s[0..0 + |SEGMENT|];
  }

  lemma {:induction false} SurvivesInTail(p: Pattern, marker: string, s: string, i: nat, front: string, n: nat) returns (k: nat)
    requires BracketFree(p) && TextAt(s, i) && NoMatchWithin(p, s, i) && NotCrossed(p, s, i) && 0 < n <= i
    requires ReplaceAll(p, marker, s) == front + ReplaceAll(p, marker, s[n..])
    ensures var out := ReplaceAll(p, marker, s); TextAt(out, k) && Behind(out, k) == ReplaceAll(p, marker, Behind(s, i))
    decreases |s|, 0
  {
    hide NoMatchWithin, NotCrossed, ReplaceAll, BracketFree;
    NoneInTail(p, s, i, n);
    TextInTail(s, i, n);
    k := TextSurvives(p, marker, s[n..], i - n);
    TextMoves(front, ReplaceAll(p, marker, s[n..]), k);
    k := |front| + k;
  }

  lemma PlainText(s: string)
    requires TextAt(s, 0)
    ensures '[' !in s[..|SEGMENT|]
  {
    assert s[..|SEGMENT|] == s[0..0 + |SEGMENT|] == SEGMENT;
  }

  lemma TextAtFront(p: Pattern, marker: string, s: string)
    requires BracketFree(p) && Bracketed(marker) && TextAt(ReplaceAll(p, marker, s), 0)
    ensures var out := ReplaceAll(p, marker, s);
            TextAt(s, 0) && NoMatchWithin(p, s, 0) && Behind(out, 0) == ReplaceAll(p, marker, Behind(s, 0))
  {
    var out := ReplaceAll(p, marker, s);
    PlainText(out);
    PlainPrefixIsCopied(p, marker, s, |SEGMENT|);
    PrefixIsCopied(p, marker, s, |SEGMENT|);
    hide ReplaceAll, MatchAtStart;
    assert out[..|SEGMENT|] == s[..|SEGMENT|];
    assert s[0..0 + |SEGMENT|] == s[..|SEGMENT|] && out[0..0 + |SEGMENT|] == out[..|SEGMENT|];
  }

  /** Text in the result comes from text that no match has touched. */
  lemma {:induction false} TextComesFrom(p: Pattern, marker: string, s: string, k: nat) returns (i: nat)
    requires BracketFree(p) && Bracketed(marker) && '/' !in marker && TextAt(ReplaceAll(p, marker, s), k)
    ensures TextAt(s, i) && NoMatchWithin(p, s, i)
    ensures Behind(ReplaceAll(p, marker, s), k) == ReplaceAll(p, marker, Behind(s, i))
    decreases |s|
  {
    var out, n := ReplaceAll(p, marker, s), MatchAtStart(p, s);
    SomeIsPositive(p, s);
    SlashFirst(out, k);
    if n.Some? {
      var rest := ReplaceAll(p, marker, s[n.value..]);
      assert out == marker + rest && forall j :: 0 <= j < |marker| ==> out[j] == marker[j];
      i := FromTail(p, marker, s, marker, k, n.value);
    } else if k == 0 {
      TextAtFront(p, marker, s);
      i := 0;
    } else {
      assert out == [s[0]] + ReplaceAll(p, marker, s[1..]);
      i := FromTail(p, marker, s, [s[0]], k, 1);
    }
  }

  lemma SlashFirst(s: string, k: nat)
    requires TextAt(s, k)
    ensures s[k] == '/'
  {
    assert s[k..k + |SEGMENT|][0] == s[k];
  }

  lemma {:induction false} FromTail(p: Pattern, marker: string, s: string, front: string, k: nat, n: nat) returns (i: nat)
    requires BracketFree(p) && Bracketed(marker) && '/' !in marker && 0 < n <= |s| && |front| <= k
    requires ReplaceAll(p, marker, s) == front + ReplaceAll(p, marker, s[n..]) && TextAt(ReplaceAll(p, marker, s), k)
    ensures TextAt(s, i) && NoMatchWithin(p, s, i)
    ensures Behind(ReplaceAll(p, marker, s), k) == ReplaceAll(p, marker, Behind(s, i))
    decreases |s|, 0
  {
    var out, rest := ReplaceAll(p, marker, s), ReplaceAll(p, marker, s[n..]);
    assert out[|front|..] == rest;
    TextInTail(out, k, |front|);
    var j := TextComesFrom(p, marker, s[n..], k - |front|);
    i := n + j;
    TextInTail(s, i, n);
    NoneInTail(p, s, i, n);
  }

  // ----- the passes -----

  /** Every match ends with a character of the class. */
  predicate EndsIn(r: Regex, cls: Class) {
    !r.Done? && ((r.next.Done? && !r.Maybe? && r.cls == cls) || EndsIn(r.next, cls))
  }

  lemma {:induction false} LastIsIn(r: Regex, w: string, cls: Class)
    requires Matches(r, w) && EndsIn(r, cls)
    ensures w != [] && In(cls, w[|w| - 1])
    decreases |w|, r
  {
    if r.Maybe? && Matches(r.next, w) {
      LastIsIn(r.next, w, cls);
    } else if r.Plus? && Matches(r, w[1..]) {
      LastIsIn(r, w[1..], cls);
    } else if !r.next.Done? {
      LastIsIn(r.next, w[1..], cls);
    }
  }

  lemma {:induction false} TimesEnds(cls: Class, n: nat, next: Regex)
    requires EndsIn(next, cls) || (next.Done? && n > 0)
    ensures EndsIn(Times(cls, n, next), cls)
  {
    if n > 1 || (n == 1 && !next.Done?) {
      TimesEnds(cls, n - 1, next);
    }
  }

  lemma SegmentLetters(s: string, i: nat)
    requires TextAt(s, i)
    ensures s[i] == '/' && s[i + 1] == 'w' && s[i + 2] == 'e' && s[i + 3] == 'b' && s[i + 4] == 'h'
    ensures s[i + 5] == 'o' && s[i + 6] == 'o' && s[i + 7] == 'k' && s[i + 8] == 's'
  {
    var t := s[i..i + |SEGMENT|];
    assert t[0] == s[i] && t[1] == s[i + 1] && t[2] == s[i + 2] && t[3] == s[i + 3] && t[4] == s[i + 4];
    assert t[5] == s[i + 5] && t[6] == s[i + 6] && t[7] == s[i + 7] && t[8] == s[i + 8];
  }

  lemma NumbersEndInDigits()
    ensures forall n: nat, next ::
              var r := Times(Digit, n, next);
              && (n > 0 ==> r.One? && r.cls == Digit)
              && (EndsIn(next, Digit) || (next.Done? && n > 0) ==> EndsIn(r, Digit))
              && Avoids(r, 'w') == Avoids(next, 'w')
  {
    forall n: nat, next
      ensures var r := Times(Digit, n, next);
              && (n > 0 ==> r.One? && r.cls == Digit)
              && (EndsIn(next, Digit) || (next.Done? && n > 0) ==> EndsIn(r, Digit))
              && Avoids(r, 'w') == Avoids(next, 'w')
    {
      TimesIsSafe(Digit, n, next, 'w', Digit);
      if EndsIn(next, Digit) || (next.Done? && n > 0) {
        TimesEnds(Digit, n, next);
      }
    }
  }

  lemma FirstTwo(literal: string, next: Regex, w: string)
    requires |literal| >= 2 && Matches(Literal(literal, next), w)
    ensures |w| >= 2 && w[0] == literal[0] && w[1] == literal[1]
  {
    assert Literal(literal, next).next == Literal(literal[1..], next);
    assert Matches(Literal(literal[1..], next), w[1..]);
  }

  // ----- what no match of a pass can touch -----

  lemma SlashFreeIsNotCrossed(p: Pattern, s: string, i: nat)
    requires TextAt(s, i) && forall r :: r in p ==> Avoids(r, '/')
    ensures NotCrossed(p, s, i)
  {
    SlashFirst(s, i);
    forall a, b | 0 <= a < i < b <= |s| ensures !Describes(p, s[a..b]) {
      var w := s[a..b];
      assert w[i - a] == '/';
      if Describes(p, w) {
        var k :| 0 <= k < |p| && Matches(p[k], w);
        assert p[k] in p;
        AvoidedCharIsAbsent(p[k], w, '/');
      }
    }
  }

  /** A match that ends in a digit and holds no letter of the segment does not run into it. */
  lemma NumberIsNotCrossed(r: Regex, s: string, i: nat)
    requires TextAt(s, i) && EndsIn(r, Digit) && Avoids(r, 'w')
    ensures NotCrossed([r], s, i)
  {
    SegmentLetters(s, i);
    forall a, b | 0 <= a < i < b <= |s| ensures !Describes([r], s[a..b]) {
      var w := s[a..b];
      assert w[|w| - 1] == s[b - 1] && (b > i + 1 ==> w[i + 1 - a] == s[i + 1]);
      if Describes([r], w) {
        assert Matches(r, w);
        LastIsIn(r, w, Digit);
        AvoidedCharIsAbsent(r, w, 'w');
      }
    }
  }

  lemma NumberPatterns()
    ensures Cnpj() == [Cnpj()[0]] && EndsIn(Cnpj()[0], Digit) && Avoids(Cnpj()[0], 'w')
    ensures Cpf() == [Cpf()[0]] && EndsIn(Cpf()[0], Digit) && Avoids(Cpf()[0], 'w')
    ensures Cnpj()[0].One? && Cnpj()[0].cls == Digit && Cpf()[0].One? && Cpf()[0].cls == Digit
  {
    NumbersEndInDigits();
  }

  lemma LiveKeyIsSlashFree()
    ensures Avoids(Literal("sk_live_", Plus(Word, Done)), '/')
  {
    LiteralAvoids("sk_live_", Plus(Word, Done), '/');
  }

  lemma TestKeyIsSlashFree()
    ensures Avoids(Literal("sk_test_", Plus(Word, Done)), '/')
  {
    LiteralAvoids("sk_test_", Plus(Word, Done), '/');
  }

  lemma StripeKeyIsSlashFree()
    ensures forall r :: r in StripeKey() ==> Avoids(r, '/')
  {
    hide Avoids, Literal;
    LiveKeyIsSlashFree();
    TestKeyIsSlashFree();
  }

  lemma OthersAreSlashFree()
    ensures forall r :: r in Email() + Bearer() ==> Avoids(r, '/')
  {
    AnyCaseAvoids("bearer", Plus(Space, Plus(WordOr(".-"), Done)), '/');
    hide LiteralAnyCase;
  }

  lemma PassIsNotCrossed(k: nat, s: string, i: nat)
    requires k < 5 && TextAt(s, i)
    ensures NotCrossed(Passes()[k].pattern, s, i)
  {
    NumberPatterns();
    StripeKeyIsSlashFree();
    OthersAreSlashFree();
    hide TextAt, NotCrossed, Email, Cnpj, Cpf, StripeKey, Bearer, EndsIn, Avoids, Marker;
    if k == 1 {
      NumberIsNotCrossed(Cnpj()[0], s, i);
    } else if k == 2 {
      NumberIsNotCrossed(Cpf()[0], s, i);
    } else {
      assert forall r :: r in Email() || r in Bearer() ==> r in Email() + Bearer();
      SlashFreeIsNotCrossed(Passes()[k].pattern, s, i);
    }
  }

  // ----- the e-mail pass -----

  lemma {:induction false} RunExtends(cls: Class, next: Regex, run: string, w: string)
    requires Matches(Plus(cls, next), w) && forall c :: c in run ==> In(cls, c)
    ensures Matches(Plus(cls, next), run + w)
    decreases |run|
  {
    if run == [] {
      assert run + w == w;
    } else {
      assert run[0] in run;
      RunExtends(cls, next, run[1..], w);
      assert (run + w)[1..] == run[1..] + w;
    }
  }

  /** A mailbox behind letters starts with them. */
  lemma MailboxStartsEarlier(run: string, t: string)
    requires MatchAtStart(Email(), t).Some? && forall c :: c in run ==> In(WordOr(".+-"), c)
    ensures MatchAtStart(Email(), run + t).Some?
  {
    var r := Email()[0];
    assert Email() == [r];
    MatchesExactlyTheLanguage(Email(), t);
    MatchesExactlyTheLanguage(Email(), run + t);
    var n := MatchAtStart(Email(), t).value;
    assert Matches(r, t[..n]);
    RunExtends(WordOr(".+-"), r.next, run, t[..n]);
    assert (run + t)[..|run| + n] == run + t[..n];
    assert Describes(Email(), (run + t)[..|run| + n]);
  }

  lemma NoMailboxAt(t: string)
    ensures t != [] && t[0] in {'/', '['} ==> MatchAtStart(Email(), t).None?
  {
    var r := Email()[0];
    assert Email() == [r] && Email()[1..] == [];
  }

  /** The e-mail pass touches the text exactly if a mailbox starts right behind its slash. */
  lemma MailboxCovers(s: string, i: nat)
    requires TextAt(s, i)
    ensures NoMatchWithin(Email(), s, i) <==> MatchAtStart(Email(), s[i + 1..]).None?
    ensures MatchAtStart(Email(), s[i + 1..]).None? ==> MatchAtStart(Email(), Behind(s, i)).None?
  {
    SegmentLetters(s, i);
    forall j | i < j <= i + |SEGMENT| && MatchAtStart(Email(), s[j..]).Some?
      ensures MatchAtStart(Email(), s[i + 1..]).Some?
    {
      assert s[i + 1..] == s[i + 1..j] + s[j..];
      MailboxStartsEarlier(s[i + 1..j], s[j..]);
    }
    NoMailboxAt(s[i..]);
  }

  lemma PassMarker(k: nat)
    requires k < 5
    ensures BracketFree(Passes()[k].pattern) && Bracketed(Passes()[k].marker) && '/' !in Passes()[k].marker
  {
    EveryPassIsSafe(k);
    SafeIsBracketFree(Passes()[k].pattern, Telltale(k));
    MarkerStarts(["email", "cnpj", "cpf", "stripe-key", "bearer"][k]);
  }

  lemma BoundsAfter(k: nat, x: string)
    requires k < 5
    ensures Bounds(ReplaceAll(Passes()[k].pattern, Passes()[k].marker, x))
            <==> Bounds(x) || MatchAtStart(Passes()[k].pattern, x).Some?
  {
    hide ReplaceAll, MatchAtStart, Email, Cnpj, Cpf, StripeKey, Bearer, Marker;
    PassMarker(k);
    HeadOfReplaced(Passes()[k].pattern, Passes()[k].marker, x);
  }

  /** A segment is left by the e-mail pass if and only if no mailbox starts right behind its slash; none is made. */
  lemma SegmentOutlivesEmailExactly(url: string)
    ensures HasWebhooks(ReplaceAll(Email(), Marker("email"), url))
            <==> exists i :: TextAt(url, i) && Bounds(Behind(url, i)) && MatchAtStart(Email(), url[i + 1..]).None?
  {
    var out := ReplaceAll(Email(), Marker("email"), url);
    assert Passes()[0] == Pass(Email(), Marker("email"));
    PassMarker(0);
    SegmentIsBoundedText(out);
    hide TextAt, Bounds, ReplaceAll, MatchAtStart, Email, Marker, NoMatchWithin;
    if k: nat :| TextAt(out, k) && Bounds(Behind(out, k)) {
      var i := TextComesFrom(Email(), Marker("email"), url, k);
      MailboxCovers(url, i);
      BoundsAfter(0, Behind(url, i));
    }
    if i: nat :| TextAt(url, i) && Bounds(Behind(url, i)) && MatchAtStart(Email(), url[i + 1..]).None? {
      MailboxCovers(url, i);
      PassIsNotCrossed(0, url, i);
      var k := TextSurvives(Email(), Marker("email"), url, i);
      BoundsAfter(0, Behind(url, i));
    }
  }

  // ----- the later passes -----

  /** The boundary is there, or one of the passes from `done` on makes it. */
  predicate OpensFrom(done: nat, x: string)
    requires done <= 5
    decreases 5 - done
  {
    Bounds(x) || (done < 5 && OpensFrom(done + 1, ReplaceAll(Passes()[done].pattern, Passes()[done].marker, x)))
  }

  lemma NumberStarts(r: Regex, t: string)
    requires r.One? && r.cls == Digit && MatchAtStart([r], t).Some?
    ensures t != [] && IsDigit(t[0])
  {
    assert [r][1..] == [];
  }

  lemma StripeKeyStarts(t: string)
    requires MatchAtStart(StripeKey(), t).Some?
    ensures |t| >= 2 && t[0] == 's' && t[1] == 'k'
  {
    MatchesExactlyTheLanguage(StripeKey(), t);
    var w := t[..MatchAtStart(StripeKey(), t).value];
    var k :| 0 <= k < 2 && Matches(StripeKey()[k], w);
    FirstTwo(if k == 0 then "sk_live_" else "sk_test_", Plus(Word, Done), w);
  }

  lemma BearerStarts(t: string)
    requires MatchAtStart(Bearer(), t).Some?
    ensures |t| >= 2 && t[0] in {'b', 'B'} && t[1] in {'e', 'E'}
  {
    var tail := Plus(Space, Plus(WordOr(".-"), Done));
    MatchesExactlyTheLanguage(Bearer(), t);
    var w := t[..MatchAtStart(Bearer(), t).value];
    assert Matches(LiteralAnyCase("bearer", tail), w);
    assert LiteralAnyCase("bearer", tail).next == LiteralAnyCase("earer", tail);
    assert Matches(LiteralAnyCase("earer", tail), w[1..]);
  }

  lemma LaterPassStarts(k: nat, t: string)
    requires 1 <= k < 5 && MatchAtStart(Passes()[k].pattern, t).Some?
    ensures t != [] && (k <= 2 ==> IsDigit(t[0]))
    ensures k == 3 ==> |t| >= 2 && t[0] == 's' && t[1] == 'k'
    ensures k == 4 ==> |t| >= 2 && t[0] in {'b', 'B'} && t[1] in {'e', 'E'}
  {
    NumberPatterns();
    hide MatchAtStart, Email, Cnpj, Cpf, StripeKey, Bearer, EndsIn, Avoids, Marker;
    if k == 1 {
      NumberStarts(Cnpj()[0], t);
    } else if k == 2 {
      NumberStarts(Cpf()[0], t);
    } else if k == 3 {
      StripeKeyStarts(t);
    } else {
      BearerStarts(t);
    }
  }

  lemma LaterPassStartsAt(k: nat, s: string, j: nat)
    requires 1 <= k < 5 && j < |s| && MatchAtStart(Passes()[k].pattern, s[j..]).Some?
    ensures k <= 2 ==> IsDigit(s[j])
    ensures k == 3 ==> j + 1 < |s| && s[j] == 's' && s[j + 1] == 'k'
    ensures k == 4 ==> j + 1 < |s| && s[j] in {'b', 'B'} && s[j + 1] in {'e', 'E'}
  {
    hide MatchAtStart, Email, Cnpj, Cpf, StripeKey, Bearer, Marker;
    LaterPassStarts(k, s[j..]);
    assert s[j..][0] == s[j] && (j + 1 < |s| ==> s[j..][1] == s[j + 1]);
  }

  /** Only a Stripe key can start in the text, with its last letter, and then the boundary is not there. */
  lemma LaterMatchInText(k: nat, s: string, i: nat, j: nat)
    requires 1 <= k < 5 && TextAt(s, i) && i <= j < i + |SEGMENT| && MatchAtStart(Passes()[k].pattern, s[j..]).Some?
    ensures k == 3 && Behind(s, i) != [] && Behind(s, i)[0] == 'k'
  {
    hide MatchAtStart, Email, Cnpj, Cpf, StripeKey, Bearer, Marker;
    LaterPassStartsAt(k, s, j);
    SegmentLetters(s, i);
  }

  lemma LaterPassLeavesText(k: nat, s: string, i: nat)
    requires 1 <= k < 5 && TextAt(s, i) && (k == 3 ==> Behind(s, i) == [] || Behind(s, i)[0] != 'k')
    ensures NoMatchWithin(Passes()[k].pattern, s, i)
  {
    hide MatchAtStart, Email, Cnpj, Cpf, StripeKey, Bearer, Marker;
    forall j | i <= j < i + |SEGMENT| ensures MatchAtStart(Passes()[k].pattern, s[j..]).None? {
      if MatchAtStart(Passes()[k].pattern, s[j..]).Some? {
        LaterMatchInText(k, s, i, j);
      }
    }
  }

  lemma {:induction false} LetterStays(done: nat, x: string)
    requires 3 <= done <= 5 && x != [] && x[0] == 'k'
    ensures !OpensFrom(done, x)
    decreases 5 - done
  {
    hide MatchAtStart, ReplaceAll, Email, Cnpj, Cpf, StripeKey, Bearer, Marker;
    if done < 5 {
      var p := Passes()[done];
      PassMarker(done);
      HeadOfReplaced(p.pattern, p.marker, x);
      if MatchAtStart(p.pattern, x).Some? {
        LaterPassStarts(done, x);
      } else {
        LetterStays(done + 1, ReplaceAll(p.pattern, p.marker, x));
      }
    }
  }

  ghost predicate SeenFrom(done: nat, s: string)
    requires done <= 5
  {
    exists i :: TextAt(s, i) && OpensFrom(done, Behind(s, i))
  }

  lemma SeenBefore(done: nat, s: string)
    requires 1 <= done < 5 && SeenFrom(done + 1, ReplaceAll(Passes()[done].pattern, Passes()[done].marker, s))
    ensures SeenFrom(done, s)
  {
    hide TextAt, MatchAtStart, ReplaceAll, Email, Cnpj, Cpf, StripeKey, Bearer, Marker, Bounds, NoMatchWithin;
    var p := Passes()[done];
    var out := ReplaceAll(p.pattern, p.marker, s);
    var k: nat :| TextAt(out, k) && OpensFrom(done + 1, Behind(out, k));
    PassMarker(done);
    var i := TextComesFrom(p.pattern, p.marker, s, k);
    assert OpensFrom(done, Behind(s, i));
  }

  lemma SeenAfter(done: nat, s: string)
    requires 1 <= done < 5 && SeenFrom(done, s)
    ensures SeenFrom(done + 1, ReplaceAll(Passes()[done].pattern, Passes()[done].marker, s))
  {
    hide TextAt, MatchAtStart, ReplaceAll, Email, Cnpj, Cpf, StripeKey, Bearer, Marker, Bounds, NoMatchWithin;
    var p := Passes()[done];
    var i: nat :| TextAt(s, i) && OpensFrom(done, Behind(s, i));
    var x := Behind(s, i);
    if done == 3 && x != [] && x[0] == 'k' {
      LetterStays(done, x);
    }
    LaterPassLeavesText(done, s, i);
    PassIsNotCrossed(done, s, i);
    PassMarker(done);
    var k := TextSurvives(p.pattern, p.marker, s, i);
    BoundsAfter(done, x);
    assert OpensFrom(done + 1, ReplaceAll(p.pattern, p.marker, x));
  }

  lemma {:induction false} LaterPassesShow(done: nat, s: string)
    requires 1 <= done <= 5
    ensures HasWebhooks(ApplyAll(Passes()[done..], s)) <==> SeenFrom(done, s)
    decreases 5 - done
  {
    hide TextAt, ReplaceAll, Email, Cnpj, Cpf, StripeKey, Bearer, Marker, HasWebhooks, Bounds;
    if done == 5 {
      SegmentIsBoundedText(s);
    } else {
      var out := ReplaceAll(Passes()[done].pattern, Passes()[done].marker, s);
      assert Passes()[done..][1..] == Passes()[done + 1..];
      LaterPassesShow(done + 1, out);
      if SeenFrom(done, s) {
        SeenAfter(done, s);
      }
      if SeenFrom(done + 1, out) {
        SeenBefore(done, s);
      }
    }
  }

  // ----- the condition on the URL itself -----

  /** A match of a later pass starts the text, and the passes before it leave those characters in place. */
  ghost predicate MatchIsLeft(k: nat, x: string)
    requires k < 5
  {
    exists n :: LeftMatch(k, x, n)
  }

  ghost predicate LeftMatch(k: nat, x: string, n: nat)
    requires k < 5
  {
    && n <= |x| && Describes(Passes()[k].pattern, x[..n])
    && x[..n] <= ApplyAll(Passes()[..k], x)
  }

  /** Before its first bracket, text that went through some passes is the original. */
  lemma {:induction false} PlainPrefixOfAll(passes: seq<Pass>, x: string, n: nat)
    requires (forall p :: p in passes ==> Bracketed(p.marker))
    requires n <= |ApplyAll(passes, x)| && '[' !in ApplyAll(passes, x)[..n]
    ensures n <= |x| && ApplyAll(passes, x)[..n] == x[..n]
    decreases |passes|
  {
    hide ReplaceAll;
    if passes != [] {
      var y := ReplaceAll(passes[0].pattern, passes[0].marker, x);
      PlainPrefixOfAll(passes[1..], y, n);
      PlainPrefixIsOriginal(passes[0].pattern, passes[0].marker, x, n);
    }
  }

  lemma MarkersAreBracketed(k: nat)
    requires k <= 5
    ensures forall p :: p in Passes()[..k] ==> Bracketed(p.marker)
  {
    forall p | p in Passes()[..k] ensures Bracketed(p.marker) {
      var j :| 0 <= j < k && p == Passes()[j];
      PassMarker(j);
    }
  }

  lemma MatchIsLeftExactly(k: nat, x: string)
    requires k < 5
    ensures MatchAtStart(Passes()[k].pattern, ApplyAll(Passes()[..k], x)).Some? <==> MatchIsLeft(k, x)
  {
    var p, y := Passes()[k].pattern, ApplyAll(Passes()[..k], x);
    MatchesExactlyTheLanguage(p, y);
    PassMarker(k);
    MarkersAreBracketed(k);
    hide MatchAtStart, Passes, ApplyAll, Marker;
    if MatchAtStart(p, y).Some? {
      var n := MatchAtStart(p, y).value;
      assert '[' !in y[..n];
      PlainPrefixOfAll(Passes()[..k], x, n);
      assert LeftMatch(k, x, n);
    }
    if n: nat :| LeftMatch(k, x, n) {
      assert y[..n] == x[..n];
    }
  }

  lemma {:induction false} OpensExactly(done: nat, x: string)
    requires done <= 5
    ensures OpensFrom(done, x) <==>
            Bounds(x) || exists k :: done <= k < 5 && MatchAtStart(Passes()[k].pattern, ApplyAll(Passes()[done..k], x)).Some?
    decreases 5 - done
  {
    hide Bounds, MatchAtStart, ReplaceAll, Email, Cnpj, Cpf, StripeKey, Bearer, Marker;
    if done < 5 {
      var y := ReplaceAll(Passes()[done].pattern, Passes()[done].marker, x);
      OpensExactly(done + 1, y);
      BoundsAfter(done, x);
      forall k | done <= k < 5
        ensures ApplyAll(Passes()[done..k], x) == if k == done then x else ApplyAll(Passes()[done + 1..k], y)
      {
        OnePassLess(done, k, x);
      }
    }
  }

  lemma OnePassLess(done: nat, k: nat, x: string)
    requires done <= k < 5
    ensures ApplyAll(Passes()[done..k], x) ==
            if k == done then x
            else ApplyAll(Passes()[done + 1..k], ReplaceAll(Passes()[done].pattern, Passes()[done].marker, x))
  {
    hide ReplaceAll, Email, Cnpj, Cpf, StripeKey, Bearer, Marker;
    if k > done {
      assert Passes()[done..k][0] == Passes()[done] && Passes()[done..k][1..] == Passes()[done + 1..k];
    }
  }

  /** The boundary behind the text is there, or a match of a later pass starts there, which leaves a marker. */
  ghost predicate Opens(x: string) {
    Bounds(x) || exists k :: 1 <= k < 5 && MatchIsLeft(k, x)
  }

  lemma OpensBehindEmail(x: string)
    requires MatchAtStart(Email(), x).None?
    ensures OpensFrom(1, ReplaceAll(Email(), Marker("email"), x)) <==> Opens(x)
  {
    assert Passes()[0] == Pass(Email(), Marker("email"));
    hide Bounds, MatchAtStart, ReplaceAll, Email, Cnpj, Cpf, StripeKey, Bearer, Marker, MatchIsLeft, OpensFrom;
    var y := ReplaceAll(Email(), Marker("email"), x);
    OpensExactly(1, y);
    BoundsAfter(0, x);
    forall k | 1 <= k < 5
      ensures MatchAtStart(Passes()[k].pattern, ApplyAll(Passes()[1..k], y)).Some? <==> MatchIsLeft(k, x)
    {
      OnePassLess(0, k, x);
      assert Passes()[0..k] == Passes()[..k];
      MatchIsLeftExactly(k, x);
    }
  }

  /** The text stands at `i`, no mailbox starts behind its slash, and a boundary follows or is made. */
  ghost predicate Shown(url: string, i: nat) {
    TextAt(url, i) && MatchAtStart(Email(), url[i + 1..]).None? && Opens(Behind(url, i))
  }

  /** For every URL: the rule sees a webhook segment after redaction if and only if the URL shows one. */
  lemma RuleSeesExactly(url: string)
    ensures HasWebhooks(Redacted(url)) <==> exists i :: Shown(url, i)
  {
    hide TextAt, ReplaceAll, MatchAtStart, Email, Cnpj, Cpf, StripeKey, Bearer, Marker, HasWebhooks, Bounds, NoMatchWithin, Opens;
    var out := ReplaceAll(Email(), Marker("email"), url);
    assert Passes()[0] == Pass(Email(), Marker("email"));
    assert Redacted(url) == ApplyAll(Passes()[1..], out);
    LaterPassesShow(1, out);
    PassMarker(0);
    if SeenFrom(1, out) {
      var k: nat :| TextAt(out, k) && OpensFrom(1, Behind(out, k));
      var i := TextComesFrom(Email(), Marker("email"), url, k);
      MailboxCovers(url, i);
      OpensBehindEmail(Behind(url, i));
      assert Shown(url, i);
    }
    if i: nat :| Shown(url, i) {
      MailboxCovers(url, i);
      OpensBehindEmail(Behind(url, i));
      PassIsNotCrossed(0, url, i);
      var k := TextSurvives(Email(), Marker("email"), url, i);
      assert SeenFrom(1, out);
    }
  }

  /** In particular, every segment without a mailbox behind its slash is seen, so every one in a URL without an at sign. */
  lemma SegmentIsSeen(url: string, i: nat)
    requires SegmentAt(url, i) && (MatchAtStart(Email(), url[i + 1..]).None? || '@' !in url)
    ensures HasWebhooks(Redacted(url))
  {
    if '@' !in url {
      var t := url[i + 1..];
      EmailIsSafe();
      AbsentWithoutClass(Email(), Exactly('@'), t);
      MatchesExactlyTheLanguage(Email(), t);
      assert forall n :: 0 <= n <= |t| ==> t[..n] == t[0..n];
    }
    assert Shown(url, i);
    RuleSeesExactly(url);
  }

  // ----- the body of a request -----

  /** The copy has the same keys, and under each the marker or a copy of the value. */
  lemma {:induction false} GetMirrored(heap: Heap, deny: set<string>, isList: bool, slots: seq<Slot<Value>>,
                                       out: seq<Slot<Tree>>, key: string)
    requires Closed(heap) && AllKnown(heap, slots) && |out| == |slots|
    requires forall i :: 0 <= i < |out| ==> MirrorsSlot(heap, deny, isList, slots[i], out[i])
    ensures Get(out, key).Some? <==> Get(slots, key).Some?
    ensures Get(slots, key).Some? ==>
              && Known(heap, Get(slots, key).value)
              && if Denied(deny, isList, key) then Get(out, key) == Some(Leaf(Marker(Lower(key))))
                 else Mirrors(heap, deny, Get(slots, key).value, Get(out, key).value)
    decreases |slots|
  {
    hide Mirrors, Denied, Marker, Lower;
    if slots != [] {
      assert MirrorsSlot(heap, deny, isList, slots[0], out[0]);
      forall i | 0 <= i < |out[1..]| ensures MirrorsSlot(heap, deny, isList, slots[1..][i], out[1..][i]) {
        assert MirrorsSlot(heap, deny, isList, slots[i + 1], out[i + 1]);
      }
      GetMirrored(heap, deny, isList, slots[1..], out[1..], key);
    }
  }

  /** A copied record that was not cut off, property by property. */
  lemma RecordMirrored(heap: Heap, deny: set<string>, id: nat, t: Tree, key: string)
    requires Closed(heap) && id in heap && !heap[id].isList && Mirrors(heap, deny, Ref(id), t) && t.Branch?
    ensures !t.isList && (Get(t.slots, key).Some? <==> Get(heap[id].slots, key).Some?)
    ensures Get(heap[id].slots, key).Some? ==>
              && Known(heap, Get(heap[id].slots, key).value)
              && if Denied(deny, false, key) then Get(t.slots, key) == Some(Leaf(Marker(Lower(key))))
                 else Mirrors(heap, deny, Get(heap[id].slots, key).value, Get(t.slots, key).value)
  {
    hide MirrorsSlot, Denied, Marker, Lower;
    GetMirrored(heap, deny, false, heap[id].slots, t.slots, key);
  }

  lemma EventMirrored(heap: Heap, deny: set<string>, event: nat)
    requires Closed(heap) && event in heap
    ensures var before := Walk(heap, deny, Ref(event), {}).out;
            && before.Branch? && before.isList == heap[event].isList && Mirrors(heap, deny, Ref(event), before)
            && |before.slots| == |heap[event].slots|
            && forall i :: 0 <= i < |before.slots| ==>
                 MirrorsSlot(heap, deny, before.isList, heap[event].slots[i], before.slots[i])
  {
    WalkOfUnseen(heap, deny, event, {});
    hide Walk, WalkSlots, MirrorsSlot;
    WalkMirrorsAndScrubs(heap, deny, Ref(event), {});
  }

  lemma MarkerIsNoWebhook(key: string)
    requires '/' !in key
    ensures !HasWebhooks(Marker(key))
  {
    MarkerStarts(key);
    forall i | 0 <= i <= |Marker(key)| ensures !SegmentAt(Marker(key), i) {
      if SegmentAt(Marker(key), i) {
        SlashFirst(Marker(key), i);
      }
    }
  }

  /** Whether the rule recognises a copied request, from the request itself. */
  lemma RuleOnRequest(heap: Heap, deny: set<string>, id: nat, t: Tree, url: string)
    requires Closed(heap) && id in heap && !heap[id].isList && Mirrors(heap, deny, Ref(id), t) && t.Branch?
    requires Get(heap[id].slots, "url") == Some(Text(url))
    ensures IsWebhookRequest(t) <==> !Denied(deny, false, "url") && exists i :: Shown(url, i)
  {
    hide HasWebhooks, Redacted, Shown, Marker, Lower, Denied, Mirrors;
    CopiedUrl(heap, deny, id, t, url);
    UrlMarkerIsNoWebhook();
    RuleSeesExactly(url);
  }

  lemma UrlMarkerIsNoWebhook()
    ensures !HasWebhooks(Marker(Lower("url")))
  {
    assert '/' !in Lower("url");
    MarkerIsNoWebhook(Lower("url"));
  }

  lemma CopiedUrl(heap: Heap, deny: set<string>, id: nat, t: Tree, url: string)
    requires Closed(heap) && id in heap && !heap[id].isList && Mirrors(heap, deny, Ref(id), t) && t.Branch?
    requires Get(heap[id].slots, "url") == Some(Text(url))
    ensures !t.isList
    ensures Get(t.slots, "url") == Some(Leaf(if Denied(deny, false, "url") then Marker(Lower("url")) else Redacted(url)))
  {
    hide Redacted, Marker, Lower, Denied, MirrorsSlot;
    RecordMirrored(heap, deny, id, t, "url");
  }

  /**
   * For every event and deny list: unless nothing is left of the request in its place, because its key is
   * denied or it was copied before, its body is dropped if and only if "url" is no deny key and the URL
   * shows a webhook segment, and is otherwise kept as the walk left it.
   */
  lemma WebhookBodyIsDroppedExactly(heap: Heap, deny: set<string>, event: nat, request: nat, url: string)
    requires Closed(heap) && event in heap && !heap[event].isList && request in heap && !heap[request].isList
    requires Get(heap[event].slots, "request") == Some(Ref(request)) && Get(heap[request].slots, "url") == Some(Text(url))
    ensures var before, after := Walk(heap, deny, Ref(event), {}).out, Scrub(heap, deny, Some(Ref(event))).value;
            && before.Branch? && after.Branch? && Get(before.slots, "request").Some? && Get(after.slots, "request").Some?
            && var copy, req := Get(before.slots, "request").value, Get(after.slots, "request").value;
               && (!copy.Branch? ==> req == copy && copy in {Leaf(CIRCULAR), Leaf(Marker(Lower("request")))})
               && (copy.Branch? ==>
                     && req.Branch?
                     && Get(req.slots, "data") ==
                        (if !Denied(deny, false, "url") && exists i :: Shown(url, i) then None else Get(copy.slots, "data")))
  {
    hide Walk, Denied, Shown, IsWebhookRequest, Mirrors, Marker, Lower, DropBody, Get, DropBodyIn;
    EventMirrored(heap, deny, event);
    var before := Walk(heap, deny, Ref(event), {}).out;
    RecordMirrored(heap, deny, event, before, "request");
    DropBodyInFinds(before.slots, "request");
    var copy := Get(before.slots, "request").value;
    DroppedBody(copy);
    if copy.Branch? {
      RuleOnRequest(heap, deny, request, copy, url);
    } else if !Denied(deny, false, "request") {
      LeafIsCutOff(heap, deny, request, copy);
    }
  }

  lemma DroppedBody(t: Tree)
    ensures !t.Branch? ==> DropBody(t) == t
    ensures t.Branch? ==>
              && DropBody(t).Branch?
              && Get(DropBody(t).slots, "data") == if IsWebhookRequest(t) then None else Get(t.slots, "data")
  {
    if IsWebhookRequest(t) {
      GetAfterWithout(t.slots, "data", "url");
    }
  }

  lemma LeafIsCutOff(heap: Heap, deny: set<string>, id: nat, t: Tree)
    requires Closed(heap) && id in heap && Mirrors(heap, deny, Ref(id), t) && !t.Branch?
    ensures t == Leaf(CIRCULAR)
  {
  }

  /**
   * A request that the event holds under another key first keeps its body in that copy, whatever its
   * URL: the copy in its place is cut off, and the rule has nothing to look at.
   */
  lemma EarlierCopyKeepsBody(heap: Heap, deny: set<string>, event: nat, request: nat, key: string)
    requires Closed(heap) && event in heap && !heap[event].isList && request in heap && !heap[request].isList && request != event
    requires heap[event].slots != [] && heap[event].slots[0] == Slot(key, Ref(request)) && key != "request"
    requires Get(heap[event].slots, "request") == Some(Ref(request)) && Get(heap[request].slots, "data").Some?
    requires !Denied(deny, false, key) && !Denied(deny, false, "request")
    ensures var after := Scrub(heap, deny, Some(Ref(event))).value;
            && after.Branch? && Get(after.slots, "request") == Some(Leaf(CIRCULAR))
            && Get(after.slots, key).Some? && Get(after.slots, key).value.Branch?
            && Get(Get(after.slots, key).value.slots, "data").Some?
  {
    hide Walk, WalkSlots, Denied, Mirrors, MirrorsSlot, Marker, Lower, Get, DropBodyIn;
    var slots := heap[event].slots;
    var before := Walk(heap, deny, Ref(event), {}).out;
    var j := PlaceOfKey(slots, "request");
    SharedObjectIsCutOff(heap, deny, event, 0, j, {});
    EventMirrored(heap, deny, event);
    SameKeysSamePlace(heap, deny, slots, before.slots, "request", j);
    FirstCopy(heap, deny, event, request, key);
    DropBodyInFinds(before.slots, "request");
    DropBodyInFinds(before.slots, key);
    RecordMirrored(heap, deny, request, Get(before.slots, key).value, "data");
  }

  lemma {:induction false} PlaceOfKey<V>(slots: seq<Slot<V>>, key: string) returns (j: nat)
    requires Get(slots, key).Some?
    ensures j < |slots| && slots[j] == Slot(key, Get(slots, key).value)
    ensures forall i :: 0 <= i < j ==> slots[i].key != key
    decreases |slots|
  {
    if slots[0].key == key {
      j := 0;
    } else {
      j := PlaceOfKey(slots[1..], key);
      j := j + 1;
    }
  }

  lemma {:induction false} GetAt<V>(slots: seq<Slot<V>>, key: string, j: nat)
    requires j < |slots| && slots[j].key == key && forall i :: 0 <= i < j ==> slots[i].key != key
    ensures Get(slots, key) == Some(slots[j].value)
    decreases j
  {
    if j > 0 {
      GetAt(slots[1..], key, j - 1);
    }
  }

  lemma SameKeysSamePlace(heap: Heap, deny: set<string>, slots: seq<Slot<Value>>, out: seq<Slot<Tree>>, key: string, j: nat)
    requires Closed(heap) && AllKnown(heap, slots) && |out| == |slots|
    requires forall i :: 0 <= i < |out| ==> MirrorsSlot(heap, deny, false, slots[i], out[i])
    requires j < |slots| && slots[j].key == key && forall i :: 0 <= i < j ==> slots[i].key != key
    ensures Get(out, key) == Some(out[j].value)
  {
    forall i | 0 <= i <= j ensures out[i].key == slots[i].key {
      assert MirrorsSlot(heap, deny, false, slots[i], out[i]);
    }
    GetAt(out, key, j);
  }

  /** What the event holds first is copied in full. */
  lemma FirstCopy(heap: Heap, deny: set<string>, event: nat, request: nat, key: string)
    requires Closed(heap) && event in heap && !heap[event].isList && request in heap && request != event
    requires heap[event].slots != [] && heap[event].slots[0] == Slot(key, Ref(request)) && !Denied(deny, false, key)
    ensures var before := Walk(heap, deny, Ref(event), {}).out;
            && before.Branch? && Get(before.slots, key).Some? && Get(before.slots, key).value.Branch?
            && Mirrors(heap, deny, Ref(request), Get(before.slots, key).value)
  {
    hide Walk, Mirrors, Scrubbed, Denied, WalkSlots, Get;
    assert {} + {event} == {event};
    WalkOfUnseen(heap, deny, event, {});
    WalkOfUnseen(heap, deny, request, {event});
    WalkMirrorsAndScrubs(heap, deny, Ref(request), {event});
    FirstSlot(heap, deny, heap[event].slots, {event});
  }

  lemma FirstSlot(heap: Heap, deny: set<string>, slots: seq<Slot<Value>>, seen: set<nat>)
    requires Closed(heap) && AllKnown(heap, slots) && slots != [] && !Denied(deny, false, slots[0].key)
    ensures Get(WalkSlots(heap, deny, false, slots, seen).out, slots[0].key)
         == Some(Walk(heap, deny, slots[0].value, seen).out)
  {
    hide Walk, Denied;
    assert WalkSlot(heap, deny, false, slots[0], seen) == Walk(heap, deny, slots[0].value, seen);
  }

  // ----- a segment that reads as a mailbox -----

  lemma {:induction false} PlusTakesRun(cls: Class, next: Regex, s: string, k: nat, m: nat)
    requires 0 < k <= |s| && (forall j :: 0 <= j < k ==> In(cls, s[j])) && (k < |s| ==> !In(cls, s[k]))
    requires Backtrack(next, s[k..]) == Some(m)
    ensures Backtrack(Plus(cls, next), s) == Some(k + m)
    decreases k
  {
    if k > 1 {
      assert s[1..][k - 1..] == s[k..];
      PlusTakesRun(cls, next, s[1..], k - 1, m);
    }
  }

  lemma RunThen(cls: Class, next: Regex, run: string, rest: string, m: nat)
    requires run != [] && (forall c :: c in run ==> In(cls, c)) && (rest != [] ==> !In(cls, rest[0]))
    requires Backtrack(next, rest) == Some(m)
    ensures Backtrack(Plus(cls, next), run + rest) == Some(|run| + m)
  {
    assert (run + rest)[|run|..] == rest;
    PlusTakesRun(cls, next, run + rest, |run|, m);
  }

  lemma CharThen(c: char, next: Regex, rest: string, m: nat)
    requires Backtrack(next, rest) == Some(m)
    ensures Backtrack(One(Exactly(c), next), [c] + rest) == Some(1 + m)
  {
  }

  ghost predicate IsHost(host: string) {
    host != [] && forall c :: c in host ==> In(WordOr("-"), c)
  }

  ghost predicate IsDomain(domain: string) {
    domain != [] && forall c :: c in domain ==> In(WordOr(".-"), c)
  }

  /** To the e-mail pass the segment's name is a user name like any other. */
  lemma MailboxIsMatched(host: string, domain: string)
    requires IsHost(host) && IsDomain(domain)
    ensures var s := "webhooks" + (['@'] + (host + (['.'] + domain)));
            Backtrack(Email()[0], s) == Some(|s|)
  {
    var r3 := Plus(WordOr(".-"), Done);
    var r2 := Plus(WordOr("-"), One(Exactly('.'), r3));
    assert domain + [] == domain;
    RunThen(WordOr(".-"), Done, domain, [], 0);
    hide Backtrack;
    CharThen('.', r3, domain, |domain|);
    RunThen(WordOr("-"), One(Exactly('.'), r3), host, ['.'] + domain, 1 + |domain|);
    CharThen('@', r2, host + (['.'] + domain), |host| + 1 + |domain|);
    RunThen(WordOr(".+-"), One(Exactly('@'), r2), "webhooks", ['@'] + (host + (['.'] + domain)), |host| + |domain| + 2);
  }

  lemma CharIsCopied(r: Regex, marker: string, c: char, s: string)
    requires Backtrack(r, [c] + s).None?
    ensures ReplaceAll([r], marker, [c] + s) == [c] + ReplaceAll([r], marker, s)
  {
    var all := [c] + s;
    assert all[1..] == s && all[0] == c;
    assert [r][1..] == [] && MatchAtStart([], all).None?;
    assert MatchAtStart([r], all).None?;
    hide Backtrack;
  }

  lemma NoMailboxAtSlash(s: string)
    ensures Email() == [Email()[0]] && Backtrack(Email()[0], ['/'] + s).None?
  {
  }

  lemma MailboxIsReplaced(s: string)
    requires s != [] && Backtrack(Email()[0], s) == Some(|s|)
    ensures ReplaceAll(Email(), Marker("email"), ['/'] + s) == ['/'] + Marker("email")
  {
    NoMailboxAtSlash(s);
    EmailIsSafe();
    hide Email, Backtrack, Marker, ReplaceAll;
    AbsentWithoutClass(Email(), Exactly('@'), []);
    FirstMatch(Email()[0], Marker("email"), s, |s|);
    CharIsCopied(Email()[0], Marker("email"), '/', s);
    assert Marker("email") + s[|s|..] == Marker("email");
  }

  /** A webhook URL whose segment reads as a mailbox loses it, and the rule no longer sees a webhook. */
  lemma MailboxHidesSegment(host: string, domain: string)
    requires IsHost(host) && IsDomain(domain)
    ensures var url := ['/'] + ("webhooks" + (['@'] + (host + (['.'] + domain))));
            HasWebhooks(url) && Redacted(url) == ['/'] + Marker("email") && !HasWebhooks(Redacted(url))
  {
    hide ReplaceAll, ApplyAll, Redacted, Passes, Email, Clean, HasWebhooks, Backtrack, IsHost, IsDomain, Marker;
    var rest := host + (['.'] + domain);
    SegmentBeforeAt(rest);
    MailboxIsMatched(host, domain);
    MailboxIsReplaced("webhooks" + (['@'] + rest));
    EmailMarkerHasNoSegment();
    CleanIsKept(1, ['/'] + Marker("email"));
    FirstPassIsEmail(['/'] + ("webhooks" + (['@'] + rest)));
  }

  lemma EmailMarkerHasNoSegment()
    ensures Clean(['/'] + Marker("email")) && !HasWebhooks(['/'] + Marker("email"))
  {
    hide Clean, HasWebhooks, Marker;
    assert Harmless("email") && '/' !in "email";
    MarkerHasNoSegment("email");
  }

  lemma FirstPassIsEmail(url: string)
    ensures |Passes()| == 5 && Redacted(url) == ApplyAll(Passes()[1..], ReplaceAll(Email(), Marker("email"), url))
  {
    hide ReplaceAll, Email, Cnpj, Cpf, StripeKey, Bearer, Marker;
  }

  lemma SegmentBeforeAt(rest: string)
    ensures HasWebhooks(['/'] + ("webhooks" + (['@'] + rest)))
  {
    var url := ['/'] + ("webhooks" + (['@'] + rest));
    assert url[0..9] == SEGMENT && url[9] == '@';
    assert SegmentAt(url, 0);
  }

  lemma MarkerStarts(name: string)
    requires '/' !in name
    ensures Marker(name) != [] && Marker(name)[0] == '[' && '/' !in Marker(name)
  {
    assert '/' !in "[redacted:" && '/' !in "]";
  }

  lemma MarkerHasNoSegment(name: string)
    requires Harmless(name) && '/' !in name
    ensures Clean(['/'] + Marker(name)) && !HasWebhooks(['/'] + Marker(name))
  {
    assert Harmless(['/']);
    hide Clean, HasWebhooks, Harmless, Marker;
    HarmlessMarker(name);
    MarkerStarts(name);
    HarmlessJoins(['/'], Marker(name));
    HarmlessIsUntouched(['/'] + Marker(name));
    NoSegmentAfter(Marker(name));
  }

  lemma NoSegmentAfter(m: string)
    requires '/' !in m && m != [] && m[0] != 'w'
    ensures !HasWebhooks(['/'] + m)
  {
    var all := ['/'] + m;
    assert forall k :: 1 <= k < |all| ==> all[k] == m[k - 1] && all[k] != '/';
    forall i | 0 <= i <= |all| ensures !SegmentAt(all, i) {
      if SegmentAt(all, i) {
        SegmentLetters(all, i);
      }
    }
  }
}
