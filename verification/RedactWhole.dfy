/** Which part of a text a pass replaces, and when a sensitive text disappears as a whole. */
module RedactWhole {
  import opened Wrappers
  import opened Pattern
  import opened Redact
  import opened RedactShapes

  // ----- greedy matching takes the longest match -----

  /** Whether a match can begin with `ch`; no match of these patterns is empty. */
  predicate Begins(r: Regex, ch: char) {
    !r.Done? && (In(r.cls, ch) || (r.Maybe? && Begins(r.next, ch)))
  }

  /** What follows an optional or repeated class cannot be taken for it, so a text is matched in one way only. */
  ghost predicate OneWay(r: Regex) {
    match r
    case Done => true
    case One(_, next) => OneWay(next)
    case Maybe(cls, next) => OneWay(next) && !next.Done? && forall ch: char :: In(cls, ch) ==> !Begins(next, ch)
    case Plus(cls, next) => OneWay(next) && forall ch: char :: In(cls, ch) ==> !Begins(next, ch)
  }

  lemma {:induction false} BeginsWithFirst(r: Regex, w: string)
    requires Matches(r, w) && OneWay(r) && !r.Done?
    ensures w != [] && Begins(r, w[0])
    decreases r
  {
    if r.Maybe? && Matches(r.next, w) {
      BeginsWithFirst(r.next, w);
    }
  }

  lemma {:induction false} LongestIsTaken(r: Regex, s: string, k: nat)
    requires OneWay(r) && k <= |s| && Matches(r, s[..k])
    ensures Backtrack(r, s).Some? && k <= Backtrack(r, s).value
    decreases |s|, r
  {
    BacktrackIsComplete(r, s, k);
    if k > 0 {
      assert s[..k][1..] == s[1..][..k - 1] && s[..k][0] == s[0];
    }
    match r
    case Done =>
    case One(_, next) => LongestIsTaken(next, s[1..], k - 1);
    case Maybe(_, next) =>
      if Matches(next, s[..k]) {
        BeginsWithFirst(next, s[..k]);
        LongestIsTaken(next, s, k);
      } else {
        LongestIsTaken(next, s[1..], k - 1);
      }
    case Plus(_, next) =>
      if Matches(r, s[1..][..k - 1]) {
        LongestIsTaken(r, s[1..], k - 1);
      } else {
        LongestIsTaken(next, s[1..], k - 1);
        if !next.Done? {
          BeginsWithFirst(next, s[1..][..k - 1]);
        }
      }
  }

  lemma {:induction false} RunBegins(cls: Class, n: nat, next: Regex, ch: char)
    requires n > 0
    ensures Begins(Times(cls, n, next), ch) == In(cls, ch)
  {
  }

  lemma {:induction false} RunIsOneWay(cls: Class, n: nat, next: Regex)
    ensures OneWay(Times(cls, n, next)) == OneWay(next) && (n > 0 ==> !Times(cls, n, next).Done?)
  {
    if n > 0 {
      RunIsOneWay(cls, n - 1, next);
    }
  }

  lemma {:induction false} LiteralIsOneWay(literal: string, next: Regex)
    ensures OneWay(Literal(literal, next)) == OneWay(next) && OneWay(LiteralAnyCase(literal, next)) == OneWay(next)
  {
    if literal != [] {
      LiteralIsOneWay(literal[1..], next);
    }
  }

  lemma GroupIsOneWay(n: nat, separator: char, m: nat, next: Regex)
    requires n > 0 && m > 0 && !IsDigit(separator) && OneWay(Times(Digit, m, next))
    ensures OneWay(Times(Digit, n, Maybe(Exactly(separator), Times(Digit, m, next))))
  {
    var rest := Times(Digit, m, next);
    RunIsOneWay(Digit, m, next);
    forall ch: char ensures Begins(rest, ch) == IsDigit(ch) {
      RunBegins(Digit, m, next, ch);
    }
    RunIsOneWay(Digit, n, Maybe(Exactly(separator), rest));
  }

  lemma NumbersAreOneWay()
    ensures OneWay(CNPJ) && OneWay(CPF)
  {
    hide Times, OneWay;
    CheckIsOneWay();
    GroupIsOneWay(4, '-', 2, Done);
    GroupIsOneWay(3, '/', 4, Maybe(Exactly('-'), CHECK));
    GroupIsOneWay(3, '.', 3, Maybe(Exactly('/'), BRANCH));
    GroupIsOneWay(2, '.', 3, Maybe(Exactly('.'), CNPJ_THIRD));
    GroupIsOneWay(3, '-', 2, Done);
    GroupIsOneWay(3, '.', 3, Maybe(Exactly('-'), CHECK));
    GroupIsOneWay(3, '.', 3, Maybe(Exactly('.'), CPF_THIRD));
  }

  lemma CheckIsOneWay()
    ensures OneWay(CHECK)
  {
    RunIsOneWay(Digit, 2, Done);
  }

  lemma EmailIsOneWay()
    ensures OneWay(Email()[0])
  {
  }

  lemma KeysAreOneWay()
    ensures forall r :: r in StripeKey() ==> OneWay(r)
  {
    LiteralIsOneWay("sk_live_", KEY);
    LiteralIsOneWay("sk_test_", KEY);
    assert OneWay(KEY);
    hide Literal;
  }

  lemma BearerIsOneWay()
    ensures OneWay(Bearer()[0])
  {
    LiteralIsOneWay("bearer", SPACE_TOKEN);
    assert OneWay(SPACE_TOKEN);
    hide LiteralAnyCase;
  }

  ghost predicate TakesLongest(p: Pattern, s: string, n: nat)
    requires n <= |s|
  {
    Describes(p, s[..n]) ==> MatchAtStart(p, s).Some? && n <= MatchAtStart(p, s).value
  }

  lemma OnlyWayTakesLongest(r: Regex, s: string, n: nat)
    requires OneWay(r) && n <= |s|
    ensures TakesLongest([r], s, n)
  {
    if Describes([r], s[..n]) {
      LongestIsTaken(r, s, n);
    }
  }

  lemma TwoAlternatives(one: Regex, two: Regex, s: string)
    ensures MatchAtStart([one, two], s) == if Backtrack(one, s).Some? then Backtrack(one, s) else Backtrack(two, s)
  {
    assert [one, two][1..] == [two] && [two][1..] == [];
    assert MatchAtStart([two], s) == Backtrack(two, s);
  }

  lemma KeysTakeLongest(s: string, n: nat)
    requires n <= |s|
    ensures TakesLongest(StripeKey(), s, n)
  {
    var live, test := Literal("sk_live_", KEY), Literal("sk_test_", KEY);
    KeysAreOneWay();
    assert StripeKey() == [live, test];
    hide StripeKey, Literal, MatchAtStart, Backtrack, OneWay;
    TwoAlternatives(live, test, s);
    if Describes(StripeKey(), s[..n]) {
      if Matches(live, s[..n]) {
        LongestIsTaken(live, s, n);
      } else {
        LongestIsTaken(test, s, n);
        FourthOfTest(s[..n]);
        FourthOfLive(s);
        assert s[3] == s[..n][3];
      }
    }
  }

  lemma FourthOfTest(w: string)
    requires Matches(Literal("sk_test_", KEY), w)
    ensures |w| > 3 && w[3] == 't'
  {
    KeyMatches("sk_test_", w);
    hide Literal;
    assert w[3] == "sk_test_"[3];
  }

  lemma FourthOfLive(s: string)
    ensures Backtrack(Literal("sk_live_", KEY), s).Some? ==> |s| > 3 && s[3] == 'l'
  {
    hide Literal;
    if Backtrack(Literal("sk_live_", KEY), s).Some? {
      BacktrackIsSound(Literal("sk_live_", KEY), s);
      var w := s[..Backtrack(Literal("sk_live_", KEY), s).value];
      KeyMatches("sk_live_", w);
      assert w[3] == "sk_live_"[3];
    }
  }

  lemma PassTakesLongest(k: nat, s: string, n: nat)
    requires k < 5 && n <= |s|
    ensures TakesLongest(Passes()[k].pattern, s, n)
  {
    assert Email() == [Email()[0]] && Bearer() == [Bearer()[0]] && Cnpj() == [CNPJ] && Cpf() == [CPF];
    hide Email, Cnpj, Cpf, StripeKey, Bearer, Marker, OneWay, TakesLongest, Times;
    EmailIsOneWay();
    NumbersAreOneWay();
    BearerIsOneWay();
    match k
    case 0 => OnlyWayTakesLongest(Email()[0], s, n);
    case 1 => OnlyWayTakesLongest(CNPJ, s, n);
    case 2 => OnlyWayTakesLongest(CPF, s, n);
    case 3 => KeysTakeLongest(s, n);
    case _ => OnlyWayTakesLongest(Bearer()[0], s, n);
  }

  // ----- a pass as a division of its text -----

  /** A character that stays, or a text that is hidden behind the marker. */
  datatype Part = Kept(c: char) | Hidden(w: string)

  function Original(parts: seq<Part>): string {
    if parts == [] then ""
    else (if parts[0].Kept? then [parts[0].c] else parts[0].w) + Original(parts[1..])
  }

  function Visible(parts: seq<Part>, marker: string): string {
    if parts == [] then ""
    else (if parts[0].Kept? then [parts[0].c] else marker) + Visible(parts[1..], marker)
  }

  /** From left to right, the longest text of the k-th shape is hidden wherever one starts, and the rest stays. */
  ghost predicate LeftmostLongest(k: nat, parts: seq<Part>)
    decreases |parts|
  {
    parts != [] ==>
      var left := Original(parts);
      && (match parts[0]
          case Kept(_) => forall n :: 0 <= n <= |left| ==> !HasShape(k, left[..n])
          case Hidden(w) => w != "" && HasShape(k, w) && forall n :: 0 <= n <= |left| && HasShape(k, left[..n]) ==> n <= |w|)
      && LeftmostLongest(k, parts[1..])
  }

  const MARKERS := ["[redacted:email]", "[redacted:cnpj]", "[redacted:cpf]", "[redacted:stripe-key]", "[redacted:bearer]"]

  lemma MarkersAre(k: nat)
    requires k < 5
    ensures Passes()[k].marker == MARKERS[k]
  {
    hide Email, Cnpj, Cpf, StripeKey, Bearer;
  }

  lemma FirstPart(k: nat, s: string) returns (n: nat)
    requires k < 5 && s != []
    ensures n <= |s|
    ensures var m := MatchAtStart(Passes()[k].pattern, s);
            if n == 0 then !(m.Some? && 0 < m.value <= |s|) && forall i :: 0 <= i <= |s| ==> !HasShape(k, s[..i])
            else m == Some(n) && HasShape(k, s[..n]) && forall i :: 0 <= i <= |s| && HasShape(k, s[..i]) ==> i <= n
  {
    hide Email, Cnpj, Cpf, StripeKey, Bearer, Marker, HasShape, MatchAtStart, Describes;
    var p := Passes()[k].pattern;
    MatchesExactlyTheLanguage(p, s);
    forall i | 0 <= i <= |s|
      ensures Describes(p, s[..i]) <==> HasShape(k, s[..i])
      ensures TakesLongest(p, s, i)
    {
      PassIsExact(k, s[..i]);
      PassTakesLongest(k, s, i);
    }
    EveryPassIsSafe(k);
    SafeIsBracketFree(p, Telltale(k));
    n := if MatchAtStart(p, s).Some? then MatchAtStart(p, s).value else 0;
    assert Describes(p, s[..n]) ==> s[..n] != [];
  }

  lemma {:induction false} PassParts(k: nat, s: string) returns (parts: seq<Part>)
    requires k < 5
    ensures Original(parts) == s && LeftmostLongest(k, parts)
    ensures Visible(parts, MARKERS[k]) == ReplaceAll(Passes()[k].pattern, Passes()[k].marker, s)
    decreases |s|
  {
    hide Passes, MatchAtStart, HasShape;
    MarkersAre(k);
    if s == [] {
      parts := [];
    } else {
      var n := FirstPart(k, s);
      var rest := if n == 0 then s[1..] else s[n..];
      var more := PassParts(k, rest);
      var first := if n == 0 then Kept(s[0]) else Hidden(s[..n]);
      parts := [first] + more;
      assert parts[1..] == more;
      assert s == (if n == 0 then [s[0]] else s[..n]) + rest;
    }
  }

  /** There is one such division only. */
  lemma {:induction false} PartsAreUnique(k: nat, a: seq<Part>, b: seq<Part>)
    requires Original(a) == Original(b) && LeftmostLongest(k, a) && LeftmostLongest(k, b)
    ensures a == b
    decreases |a|
  {
    hide HasShape;
    var left := Original(a);
    if a != [] && b != [] {
      SameFirst(k, a, b);
      PartsAreUnique(k, a[1..], b[1..]);
      assert a == [a[0]] + a[1..] && b == [b[0]] + b[1..];
    } else {
      NothingLeft(k, a);
      NothingLeft(k, b);
    }
  }

  lemma NothingLeft(k: nat, parts: seq<Part>)
    requires LeftmostLongest(k, parts)
    ensures Original(parts) == "" <==> parts == []
  {
  }

  lemma SameFirst(k: nat, a: seq<Part>, b: seq<Part>)
    requires Original(a) == Original(b) && LeftmostLongest(k, a) && LeftmostLongest(k, b) && a != [] && b != []
    ensures a[0] == b[0] && Original(a[1..]) == Original(b[1..])
  {
    hide HasShape;
    var left := Original(a);
    var m := if a[0].Kept? then 0 else |a[0].w|;
    var n := if b[0].Kept? then 0 else |b[0].w|;
    assert a[0].Hidden? ==> left[..m] == a[0].w && left[m..] == Original(a[1..]);
    assert b[0].Hidden? ==> left[..n] == b[0].w && left[n..] == Original(b[1..]);
    assert a[0].Kept? ==> left[0] == a[0].c && left[1..] == Original(a[1..]);
    assert b[0].Kept? ==> left[0] == b[0].c && left[1..] == Original(b[1..]);
  }

  /**
   * Redaction as a whole: five passes, for e-mail addresses, CNPJs, CPFs, Stripe keys and bearer tokens in
   * this order, each hiding from left to right the longest text of its shape behind its marker.
   */
  lemma RedactedInFivePasses(s: string) returns (passes: seq<seq<Part>>)
    ensures |passes| == 5 && Original(passes[0]) == s && Visible(passes[4], MARKERS[4]) == Redacted(s)
    ensures forall k: nat :: k < 5 ==> LeftmostLongest(k, passes[k])
    ensures forall k: nat :: k < 4 ==> Original(passes[k + 1]) == Visible(passes[k], MARKERS[k])
  {
    hide LeftmostLongest, Original, Visible, ReplaceAll, Marker;
    var p0 := PassParts(0, s);
    var p1 := PassParts(1, Visible(p0, MARKERS[0]));
    var p2 := PassParts(2, Visible(p1, MARKERS[1]));
    var p3 := PassParts(3, Visible(p2, MARKERS[2]));
    var p4 := PassParts(4, Visible(p3, MARKERS[3]));
    passes := [p0, p1, p2, p3, p4];
    FiveInARow(s);
  }

  lemma FiveInARow(s: string)
    ensures var p := Passes();
            Redacted(s) ==
            ReplaceAll(p[4].pattern, p[4].marker, ReplaceAll(p[3].pattern, p[3].marker,
              ReplaceAll(p[2].pattern, p[2].marker, ReplaceAll(p[1].pattern, p[1].marker,
                ReplaceAll(p[0].pattern, p[0].marker, s)))))
  {
    hide Email, Cnpj, Cpf, StripeKey, Bearer, Marker, ReplaceAll;
    OnePassFirst(0, s);
    OnePassFirst(1, ReplaceAll(Passes()[0].pattern, Passes()[0].marker, s));
    var s1 := ReplaceAll(Passes()[0].pattern, Passes()[0].marker, s);
    var s2 := ReplaceAll(Passes()[1].pattern, Passes()[1].marker, s1);
    OnePassFirst(2, s2);
    var s3 := ReplaceAll(Passes()[2].pattern, Passes()[2].marker, s2);
    OnePassFirst(3, s3);
    var s4 := ReplaceAll(Passes()[3].pattern, Passes()[3].marker, s3);
    OnePassFirst(4, s4);
    assert Passes()[0..] == Passes() && Passes()[5..] == [];
  }

  lemma OnePassFirst(k: nat, s: string)
    requires k < 5
    ensures ApplyAll(Passes()[k..], s)
         == ApplyAll(Passes()[k + 1..], ReplaceAll(Passes()[k].pattern, Passes()[k].marker, s))
    ensures ApplyAll(Passes()[5..], s) == s
  {
    hide Email, Cnpj, Cpf, StripeKey, Bearer, Marker, ReplaceAll;
    assert Passes()[k..][1..] == Passes()[k + 1..];
    assert Passes()[5..] == [];
  }

  // ----- when a sensitive text is hidden as a whole -----

  function Brackets(s: string): nat {
    if s == [] then 0 else Brackets(s[1..]) + if s[0] == '[' then 1 else 0
  }

  lemma {:induction false} BracketsAdd(a: string, b: string)
    ensures Brackets(a + b) == Brackets(a) + Brackets(b)
  {
    if a == [] {
      assert a + b == b;
    } else {
      BracketsAdd(a[1..], b);
      assert (a + b)[1..] == a[1..] + b;
    }
  }

  lemma {:induction false} NoBrackets(s: string)
    requires '[' !in s
    ensures Brackets(s) == 0
  {
    if s != [] {
      NoBrackets(s[1..]);
    }
  }

  /** A pass never takes a bracket away, and each replacement adds one. */
  lemma {:induction false} ReplacingAddsBrackets(p: Pattern, marker: string, s: string)
    requires BracketFree(p) && Brackets(marker) == 1
    ensures Brackets(ReplaceAll(p, marker, s)) >= Brackets(s)
    ensures Brackets(ReplaceAll(p, marker, s)) == Brackets(s) ==> ReplaceAll(p, marker, s) == s
    decreases |s|
  {
    if s != [] {
      var n := MatchAtStart(p, s);
      if n.Some? && 0 < n.value <= |s| {
        MatchesExactlyTheLanguage(p, s);
        NoBrackets(s[..n.value]);
        assert s == s[..n.value] + s[n.value..];
        BracketsAdd(s[..n.value], s[n.value..]);
        ReplacingAddsBrackets(p, marker, s[n.value..]);
        BracketsAdd(marker, ReplaceAll(p, marker, s[n.value..]));
      } else {
        ReplacingAddsBrackets(p, marker, s[1..]);
        BracketsAdd([s[0]], ReplaceAll(p, marker, s[1..]));
        assert s == [s[0]] + s[1..];
        BracketsAdd([s[0]], s[1..]);
      }
    }
  }

  lemma MarkersHaveOne(k: nat)
    requires k < 5
    ensures Brackets(MARKERS[k]) == 1 && Bracketed(MARKERS[k])
  {
    assert MARKERS[k] == "[" + MARKERS[k][1..];
    NoBrackets(MARKERS[k][1..]);
    BracketsAdd("[", MARKERS[k][1..]);
  }

  lemma {:induction false} PassesAddBrackets(k: nat, s: string)
    requires k <= 5
    ensures Brackets(ApplyAll(Passes()[k..], s)) >= Brackets(s)
    ensures Brackets(ApplyAll(Passes()[k..], s)) == Brackets(s) ==> ApplyAll(Passes()[k..], s) == s
    decreases 5 - k
  {
    hide Email, Cnpj, Cpf, StripeKey, Bearer, Marker, ReplaceAll, Brackets, ApplyAll;
    OnePassFirst(if k < 5 then k else 0, s);
    if k < 5 {
      var p := Passes()[k];
      EveryPassIsSafe(k);
      SafeIsBracketFree(p.pattern, Telltale(k));
      MarkersAre(k);
      MarkersHaveOne(k);
      ReplacingAddsBrackets(p.pattern, p.marker, s);
      PassesAddBrackets(k + 1, ReplaceAll(p.pattern, p.marker, s));
    }
  }

  lemma {:induction false} EarlierPassesSkip(k: nat, w: string)
    requires k <= 5 && forall j: nat :: j < k ==> !Occurs(Passes()[j].pattern, w)
    ensures ApplyAll(Passes(), w) == ApplyAll(Passes()[k..], w)
  {
    if k == 0 {
      assert Passes()[0..] == Passes();
    } else {
      hide Email, Cnpj, Cpf, StripeKey, Bearer, Marker, ReplaceAll, ApplyAll;
      EarlierPassesSkip(k - 1, w);
      NothingToReplace(Passes()[k - 1].pattern, Passes()[k - 1].marker, w);
      OnePassFirst(k - 1, w);
    }
  }

  /** Some part of the text has the k-th shape. */
  ghost predicate Contains(k: nat, w: string) {
    exists i, j :: 0 <= i <= j <= |w| && HasShape(k, w[i..j])
  }

  lemma ContainsIsOccurs(k: nat, w: string)
    requires k < 5
    ensures Contains(k, w) <==> Occurs(Passes()[k].pattern, w)
  {
    hide Email, Cnpj, Cpf, StripeKey, Bearer, Marker, HasShape, Describes;
    forall i, j | 0 <= i <= j <= |w| ensures HasShape(k, w[i..j]) <==> Describes(Passes()[k].pattern, w[i..j]) {
      PassIsExact(k, w[i..j]);
    }
  }

  lemma WholeIsReplaced(k: nat, w: string)
    requires k < 5 && HasShape(k, w)
    ensures ReplaceAll(Passes()[k].pattern, Passes()[k].marker, w) == MARKERS[k] && '[' !in w && w != []
  {
    hide HasShape;
    EveryPassIsSafe(k);
    SafeIsBracketFree(Passes()[k].pattern, Telltale(k));
    PassIsExact(k, w);
    assert w[..|w|] == w;
    PassTakesLongest(k, w, |w|);
    MatchesExactlyTheLanguage(Passes()[k].pattern, w);
    MarkersAre(k);
    assert w[|w|..] == [];
    hide MatchAtStart, Describes, Email, Cnpj, Cpf, StripeKey, Bearer, Marker;
    assert MARKERS[k] + [] == MARKERS[k];
  }

  lemma MarkersDiffer(j: nat, k: nat, rest: string)
    requires j < k < 5
    ensures MARKERS[j] + rest != MARKERS[k]
  {
    assert (MARKERS[j] + rest)[10] == MARKERS[j][10] && (MARKERS[j] + rest)[11] == MARKERS[j][11];
  }

  lemma StartsWithMarker(k: nat, w: string)
    requires k < 5 && '[' !in w
    requires var out := ReplaceAll(Passes()[k].pattern, Passes()[k].marker, w); out != [] && out[0] == '['
    ensures MARKERS[k] <= ReplaceAll(Passes()[k].pattern, Passes()[k].marker, w)
  {
    MarkersAre(k);
    hide MatchAtStart, Email, Cnpj, Cpf, StripeKey, Bearer, Marker;
  }

  /** The first pass that finds something leaves a bracket too many, or the wrong marker. */
  lemma EarlierShapeShows(j: nat, k: nat, w: string)
    requires j < k < 5 && HasShape(k, w) && Contains(j, w) && forall i: nat :: i < j ==> !Contains(i, w)
    ensures Redacted(w) != MARKERS[k]
  {
    hide HasShape, Email, Cnpj, Cpf, StripeKey, Bearer, Marker, ReplaceAll, Brackets, ApplyAll, Contains, Occurs;
    WholeIsReplaced(k, w);
    forall i: nat | i < j ensures !Occurs(Passes()[i].pattern, w) {
      ContainsIsOccurs(i, w);
    }
    EarlierPassesSkip(j, w);
    OnePassFirst(j, w);
    var out := ReplaceAll(Passes()[j].pattern, Passes()[j].marker, w);
    PassesAddBrackets(j + 1, out);
    NoBrackets(w);
    MarkersHaveOne(k);
    ShapeIsReplaced(j, w);
    if out == MARKERS[k] {
      StartsWithMarker(j, w);
      MarkersDiffer(j, k, out[|MARKERS[j]|..]);
    }
  }

  lemma ShapeIsReplaced(j: nat, w: string)
    requires j < 5 && Contains(j, w)
    ensures var out := ReplaceAll(Passes()[j].pattern, Passes()[j].marker, w); Brackets(out) > Brackets(w)
  {
    hide Email, Cnpj, Cpf, StripeKey, Bearer, Marker, ReplaceAll, Brackets, Contains;
    var p := Passes()[j];
    ContainsIsOccurs(j, w);
    EveryPassIsSafe(j);
    SafeIsBracketFree(p.pattern, Telltale(j));
    MarkersAre(j);
    MarkersHaveOne(j);
    MarkersAreClean(j);
    ReplacingAddsBrackets(p.pattern, p.marker, w);
    NothingRemains(p.pattern, p.pattern, p.marker, w);
  }

  /**
   * A text of some shape vanishes behind its marker alone if and only if no part of it has a shape that an
   * earlier pass looks for.
   */
  lemma HiddenAsWholeExactly(k: nat, w: string)
    requires k < 5 && HasShape(k, w)
    ensures Redacted(w) == MARKERS[k] <==> forall j: nat :: j < k ==> !Contains(j, w)
  {
    hide HasShape, Email, Cnpj, Cpf, StripeKey, Bearer, Marker, ReplaceAll, Brackets, ApplyAll, Contains, Occurs, Clean;
    if forall j: nat :: j < k ==> !Contains(j, w) {
      forall j: nat | j < k ensures !Occurs(Passes()[j].pattern, w) {
        ContainsIsOccurs(j, w);
      }
      EarlierPassesSkip(k, w);
      OnePassFirst(k, w);
      WholeIsReplaced(k, w);
      MarkersAre(k);
      MarkersAreClean(k);
      CleanIsKept(k + 1, MARKERS[k]);
    } else {
      var j := FirstContained(k, w);
      EarlierShapeShows(j, k, w);
    }
  }

  lemma {:induction false} FirstContained(k: nat, w: string) returns (j: nat)
    requires exists i: nat :: i < k && Contains(i, w)
    ensures j < k && Contains(j, w) && forall i: nat :: i < j ==> !Contains(i, w)
  {
    hide Contains;
    if i: nat :| i < k - 1 && Contains(i, w) {
      j := FirstContained(k - 1, w);
    } else {
      j := k - 1;
    }
  }

  // ----- in particular -----

  lemma EmailNeedsAt(w: string)
    requires IsEmail(w)
    ensures '@' in w
  {
    var user, host, domain :| EmailOf(w, user, host, domain);
    assert w[|user|] == '@';
  }

  lemma NoEmailWithoutAt(w: string)
    requires '@' !in w
    ensures !Contains(0, w)
  {
    hide IsEmail;
    forall i, j | 0 <= i <= j <= |w| ensures !HasShape(0, w[i..j]) {
      if IsEmail(w[i..j]) {
        EmailNeedsAt(w[i..j]);
      }
    }
  }

  /** How long a number is, and what it consists of. */
  lemma CnpjSize(w: string)
    requires IsCnpj(w)
    ensures |w| >= 14 && '@' !in w && (|w| == 14 ==> AreDigits(w, 14))
  {
    var a, p, b, q, c, r, d, t, e :| CnpjOf(w, a, p, b, q, c, r, d, t, e);
    var w4, w3, w2 := d + (t + e), c + (r + (d + (t + e))), b + (q + (c + (r + (d + (t + e)))));
    hide IsCnpj;
    GroupSize(w4, d, t, e, 4, 2, '-');
    GroupSize(w3, c, r, w4, 3, |w4|, '/');
    GroupSize(w2, b, q, w3, 3, |w3|, '.');
    GroupSize(w, a, p, w2, 2, |w2|, '.');
  }

  lemma GroupSize(w: string, a: string, p: string, rest: string, n: nat, m: nat, separator: char)
    requires w == a + (p + rest) && AreDigits(a, n) && Optional(p, separator) && |rest| == m
    requires '@' !in rest && separator != '@'
    ensures n + m <= |w| <= n + m + 1 && '@' !in w && (|w| == n + m && AreDigits(rest, m) ==> AreDigits(w, n + m))
  {
    assert forall i :: 0 <= i < |p| ==> p[i] == separator;
  }

  lemma CpfSize(w: string)
    requires IsCpf(w)
    ensures 11 <= |w| <= 14 && '@' !in w && (|w| == 14 ==> w[3] == '.')
  {
    var a, p, b, q, c, r, d :| CpfOf(w, a, p, b, q, c, r, d);
    assert |w| == 11 + |p| + |q| + |r|;
    assert p != "" ==> w[3] == (p + (b + (q + (c + (r + d)))))[0];
  }

  /** A CPF is too short to hold a CNPJ. */
  lemma CpfHoldsNoCnpj(w: string)
    requires IsCpf(w)
    ensures !Contains(1, w)
  {
    CpfSize(w);
    assert w[0..|w|] == w;
    hide IsCpf, IsCnpj;
    forall i, j | 0 <= i <= j <= |w| ensures !HasShape(1, w[i..j]) {
      if IsCnpj(w[i..j]) {
        CnpjSize(w[i..j]);
      }
    }
  }

  /** Every e-mail address, CNPJ and CPF, with any choice of separators, becomes its marker and nothing else. */
  lemma AddressesAndNumbersAreHidden(w: string)
    ensures IsEmail(w) ==> Redacted(w) == "[redacted:email]"
    ensures IsCnpj(w) ==> Redacted(w) == "[redacted:cnpj]"
    ensures IsCpf(w) ==> Redacted(w) == "[redacted:cpf]"
  {
    hide IsEmail, IsCnpj, IsCpf, Contains, Redacted;
    if IsEmail(w) {
      HiddenAsWholeExactly(0, w);
    }
    if IsCnpj(w) {
      CnpjSize(w);
      NoEmailWithoutAt(w);
      HiddenAsWholeExactly(1, w);
    }
    if IsCpf(w) {
      CpfSize(w);
      NoEmailWithoutAt(w);
      CpfHoldsNoCnpj(w);
      HiddenAsWholeExactly(2, w);
    }
  }

  lemma SecretsHaveNoAt(w: string)
    requires IsStripeKey(w) || IsBearer(w)
    ensures '@' !in w
  {
    if IsStripeKey(w) {
      var kind, key :| StripeKeyOf(w, kind, key);
    } else {
      var word, space, token :| BearerOf(w, word, space, token);
      assert forall i :: 0 <= i < |word| ==> LowerChar(word[i]) == Lower(word)[i];
    }
  }

  /** A Stripe key or a bearer token becomes its marker and nothing else if and only if no part of it looks like a number or, for a token, a key. */
  lemma SecretsAreHiddenExactly(w: string)
    ensures IsStripeKey(w) ==>
              (Redacted(w) == "[redacted:stripe-key]" <==> !Contains(1, w) && !Contains(2, w))
    ensures IsBearer(w) ==>
              (Redacted(w) == "[redacted:bearer]" <==> !Contains(1, w) && !Contains(2, w) && !Contains(3, w))
  {
    hide IsStripeKey, IsBearer, Contains, Redacted;
    if IsStripeKey(w) || IsBearer(w) {
      SecretsHaveNoAt(w);
      NoEmailWithoutAt(w);
    }
    if IsStripeKey(w) {
      HiddenAsWholeExactly(3, w);
    }
    if IsBearer(w) {
      HiddenAsWholeExactly(4, w);
    }
  }

  // ----- a token of which the rest stays -----

  ghost predicate AreLetters(s: string) {
    forall i :: 0 <= i < |s| ==> 'a' <= s[i] <= 'z'
  }

  lemma NumberStartsWithDigit(w: string)
    ensures IsCpf(w) || IsCnpj(w) ==> w != "" && IsDigit(w[0])
  {
    if IsCpf(w) {
      var a, p, b, q, c, r, d :| CpfOf(w, a, p, b, q, c, r, d);
      assert w[0] == a[0];
    }
    if IsCnpj(w) {
      var a, p, b, q, c, r, d, t, e :| CnpjOf(w, a, p, b, q, c, r, d, t, e);
      assert w[0] == a[0];
    }
  }

  lemma NumberEndsInDigit(w: string)
    ensures IsCpf(w) || IsCnpj(w) ==> w != "" && IsDigit(w[|w| - 1])
  {
    if IsCpf(w) {
      var a, p, b, q, c, r, d :| CpfOf(w, a, p, b, q, c, r, d);
      assert w[|w| - 1] == d[1];
    }
    if IsCnpj(w) {
      var a, p, b, q, c, r, d, t, e :| CnpjOf(w, a, p, b, q, c, r, d, t, e);
      assert w[|w| - 1] == e[1];
    }
  }

  function KeptAll(x: string): seq<Part> {
    if x == [] then [] else [Kept(x[0])] + KeptAll(x[1..])
  }

  lemma OneKept(c: char, parts: seq<Part>)
    requires LeftmostLongest(2, parts) && !IsDigit(c)
    ensures LeftmostLongest(2, [Kept(c)] + parts) && Original([Kept(c)] + parts) == [c] + Original(parts)
    ensures Visible([Kept(c)] + parts, MARKERS[2]) == [c] + Visible(parts, MARKERS[2])
  {
    hide IsCpf;
    var all := [Kept(c)] + parts;
    assert all[1..] == parts;
    var left := Original(all);
    forall n | 0 <= n <= |left| ensures !HasShape(2, left[..n]) {
      NumberStartsWithDigit(left[..n]);
    }
  }

  /** Text without a digit stays in front of whatever follows. */
  lemma {:induction false} KeptInFront(x: string, parts: seq<Part>)
    requires LeftmostLongest(2, parts) && forall i :: 0 <= i < |x| ==> !IsDigit(x[i])
    ensures LeftmostLongest(2, KeptAll(x) + parts) && Original(KeptAll(x) + parts) == x + Original(parts)
    ensures Visible(KeptAll(x) + parts, MARKERS[2]) == x + Visible(parts, MARKERS[2])
    decreases |x|
  {
    hide LeftmostLongest, Original, Visible;
    if x == [] {
      assert KeptAll(x) + parts == parts && x + Original(parts) == Original(parts);
      assert x + Visible(parts, MARKERS[2]) == Visible(parts, MARKERS[2]);
    } else {
      KeptInFront(x[1..], parts);
      OneKept(x[0], KeptAll(x[1..]) + parts);
      assert KeptAll(x) + parts == [Kept(x[0])] + (KeptAll(x[1..]) + parts);
      assert [x[0]] + (x[1..] + Original(parts)) == x + Original(parts);
      assert [x[0]] + (x[1..] + Visible(parts, MARKERS[2])) == x + Visible(parts, MARKERS[2]);
    }
  }

  lemma BareCpf(c: string)
    requires AreDigits(c, 11)
    ensures IsCpf(c)
  {
    assert CpfOf(c, c[..3], "", c[3..6], "", c[6..9], "", c[9..]);
  }

  lemma HiddenInFront(c: string, y: string)
    requires AreDigits(c, 11) && AreLetters(y)
    ensures LeftmostLongest(2, [Hidden(c)] + KeptAll(y)) && Original([Hidden(c)] + KeptAll(y)) == c + y
    ensures Visible([Hidden(c)] + KeptAll(y), MARKERS[2]) == MARKERS[2] + y
  {
    var parts := [Hidden(c)] + KeptAll(y);
    KeptInFront(y, []);
    assert KeptAll(y) + [] == KeptAll(y) && y + "" == y && parts[1..] == KeptAll(y);
    BareCpf(c);
    hide IsCpf;
    var left := Original(parts);
    assert left == c + y;
    forall n | 0 <= n <= |left| && HasShape(2, left[..n]) ensures n <= |c| {
      NumberEndsInDigit(left[..n]);
      assert n > 0 && left[..n][n - 1] == left[n - 1];
    }
  }

  lemma CpfPassOfToken(x: string, c: string, y: string)
    requires (forall i :: 0 <= i < |x| ==> !IsDigit(x[i])) && AreDigits(c, 11) && AreLetters(y)
    ensures ReplaceAll(Passes()[2].pattern, Passes()[2].marker, x + (c + y)) == x + (MARKERS[2] + y)
  {
    hide LeftmostLongest, Original, Visible, ReplaceAll, Passes, KeptAll, AreDigits, AreLetters;
    HiddenInFront(c, y);
    KeptInFront(x, [Hidden(c)] + KeptAll(y));
    var parts := PassParts(2, x + (c + y));
    PartsAreUnique(2, parts, KeptAll(x) + ([Hidden(c)] + KeptAll(y)));
  }

  lemma NoCnpjInToken(c: string, y: string)
    requires AreDigits(c, 11) && AreLetters(y)
    ensures !Contains(1, "Bearer " + (c + y))
  {
    var s := "Bearer " + (c + y);
    assert forall i :: 18 <= i < |s| ==> s[i] == y[i - 18];
    hide IsCnpj;
    forall i, j | 0 <= i <= j <= |s| ensures !HasShape(1, s[i..j]) {
      if IsCnpj(s[i..j]) {
        CnpjSize(s[i..j]);
        NumberStartsWithDigit(s[i..j]);
        NumberEndsInDigit(s[i..j]);
      }
    }
  }

  lemma SpaceThenToken(w: string)
    requires IsBearer(w)
    ensures |w| > 7 && IsSpace(w[6]) && (IsSpace(w[7]) || IsWordChar(w[7]) || w[7] in ".-")
  {
    var word, space, token :| BearerOf(w, word, space, token);
    LowerKeepsLength(word);
    assert w[6] == space[0] && w[7] == (space + token)[1];
  }

  lemma NoTokenBehindBracket(y: string)
    requires AreLetters(y)
    ensures !Contains(4, "Bearer " + (MARKERS[2] + y))
  {
    var s := "Bearer " + (MARKERS[2] + y);
    assert forall i :: 21 <= i < |s| ==> s[i] == y[i - 21];
    assert s[7] == '[' && forall i :: 0 <= i < |s| && IsSpace(s[i]) ==> i == 6;
    hide IsBearer;
    forall i, j | 0 <= i <= j <= |s| ensures !HasShape(4, s[i..j]) {
      if IsBearer(s[i..j]) {
        SpaceThenToken(s[i..j]);
      }
    }
  }

  /** So of a token that starts with eleven digits the rest stays: the CPF pass leaves a bracket where the token would begin. */
  lemma RestOfTokenStays(c: string, y: string)
    requires AreDigits(c, 11) && AreLetters(y) && y != ""
    ensures IsBearer("Bearer " + (c + y)) && Redacted("Bearer " + (c + y)) == "Bearer " + ("[redacted:cpf]" + y)
  {
    var s, t := "Bearer " + (c + y), "Bearer " + (MARKERS[2] + y);
    hide IsBearer, Contains, Redacted, AreDigits, AreLetters, Occurs, StripeKey, Safe, In, ReplaceAll;
    TokenIsBearer(c, y);
    TokenHolds(c, y);
    NoEmailWithoutAt(s);
    NoCnpjInToken(c, y);
    CpfPassOfToken("Bearer ", c, y);
    NoTokenBehindBracket(y);
    StripeKeyIsSafe();
    AbsentWithoutClass(StripeKey(), Exactly('_'), t);
    TokenPasses(s, t);
  }

  lemma TokenIsBearer(c: string, y: string)
    requires AreDigits(c, 11) && AreLetters(y)
    ensures IsBearer("Bearer " + (c + y))
  {
    assert Lower("Bearer") == "bearer";
    assert AreWordsOr(c + y, ".-");
    assert BearerOf("Bearer " + (c + y), "Bearer", " ", c + y);
  }

  lemma TokenHolds(c: string, y: string)
    requires AreDigits(c, 11) && AreLetters(y)
    ensures '@' !in "Bearer " + (c + y)
    ensures var t := "Bearer " + (MARKERS[2] + y); forall i :: 0 <= i < |t| ==> !In(Exactly('_'), t[i])
    ensures forall i :: 0 <= i < |"Bearer "| ==> !IsDigit("Bearer "[i])
  {
  }

  lemma TokenPasses(s: string, t: string)
    requires !Contains(0, s) && !Contains(1, s) && !Occurs(StripeKey(), t) && !Contains(4, t)
    requires ReplaceAll(Passes()[2].pattern, Passes()[2].marker, s) == t
    ensures Redacted(s) == t
  {
    hide Email, Cnpj, Cpf, StripeKey, Bearer, Marker, ReplaceAll, ApplyAll, Contains, Occurs;
    assert Passes()[3].pattern == StripeKey();
    ContainsIsOccurs(0, s);
    ContainsIsOccurs(1, s);
    ContainsIsOccurs(4, t);
    EarlierPassesSkip(2, s);
    OnePassFirst(2, s);
    NothingToReplace(Passes()[3].pattern, Passes()[3].marker, t);
    OnePassFirst(3, t);
    NothingToReplace(Passes()[4].pattern, Passes()[4].marker, t);
    OnePassFirst(4, t);
  }
}
