/** `redactString`: the ordered redaction passes over one string leaf. */
module Redact {
  import opened Wrappers
  import opened Pattern

  datatype Pass = Pass(pattern: Pattern, marker: string)

  function Times(cls: Class, n: nat, next: Regex): Regex {
    if n == 0 then next else One(cls, Times(cls, n - 1, next))
  }

  function Literal(s: string, next: Regex): Regex {
    if s == [] then next else One(Exactly(s[0]), Literal(s[1..], next))
  }

  function LiteralAnyCase(s: string, next: Regex): Regex {
    if s == [] then next else One(AnyCase(s[0]), LiteralAnyCase(s[1..], next))
  }

  function Email(): Pattern {
    [Plus(WordOr(".+-"), One(Exactly('@'), Plus(WordOr("-"), One(Exactly('.'), Plus(WordOr(".-"), Done)))))]
  }

  function Cnpj(): Pattern {
    [Times(Digit, 2, Maybe(Exactly('.'), Times(Digit, 3, Maybe(Exactly('.'), Times(Digit, 3,
           Maybe(Exactly('/'), Times(Digit, 4, Maybe(Exactly('-'), Times(Digit, 2, Done)))))))))]
  }

  function Cpf(): Pattern {
    [Times(Digit, 3, Maybe(Exactly('.'), Times(Digit, 3, Maybe(Exactly('.'), Times(Digit, 3,
           Maybe(Exactly('-'), Times(Digit, 2, Done)))))))]
  }

  function StripeKey(): Pattern {
    [Literal("sk_live_", Plus(Word, Done)), Literal("sk_test_", Plus(Word, Done))]
  }

  function Bearer(): Pattern {
    [LiteralAnyCase("bearer", Plus(Space, Plus(WordOr(".-"), Done)))]
  }

  function Marker(name: string): string {
    "[redacted:" + name + "]"
  }

  /** The passes in the order they are applied: CNPJ before CPF. */
  function Passes(): seq<Pass> {
    [Pass(Email(), Marker("email")), Pass(Cnpj(), Marker("cnpj")), Pass(Cpf(), Marker("cpf")),
     Pass(StripeKey(), Marker("stripe-key")), Pass(Bearer(), Marker("bearer"))]
  }

  function ApplyAll(passes: seq<Pass>, s: string): string {
    if passes == [] then s
    else ApplyAll(passes[1..], ReplaceAll(passes[0].pattern, passes[0].marker, s))
  }

  function Redacted(s: string): string {
    ApplyAll(Passes(), s)
  }

  method RedactString(s: string) returns (out: string)
    ensures out == Redacted(s)
  {
    out := s;
    var passes := Passes();
    for i := 0 to |passes|
      invariant ApplyAll(passes[i..], out) == Redacted(s)
    {
      out := ReplaceAll(passes[i].pattern, passes[i].marker, out);
      assert passes[i..][1..] == passes[i + 1..];
    }
  }

  // ----- reading properties of a language off its pattern -----

  /** No class of the pattern admits `ch`. */
  predicate Avoids(r: Regex, ch: char) {
    r.Done? || (!In(r.cls, ch) && Avoids(r.next, ch))
  }

  /** Every match takes at least one character of the class. */
  predicate Needs(r: Regex, cls: Class) {
    !r.Done? && ((!r.Maybe? && r.cls == cls) || Needs(r.next, cls))
  }

  function MinLength(r: Regex): nat {
    if r.Done? then 0 else MinLength(r.next) + if r.Maybe? then 0 else 1
  }

  lemma {:induction false} AvoidedCharIsAbsent(r: Regex, w: string, ch: char)
    requires Matches(r, w) && Avoids(r, ch)
    ensures ch !in w
    decreases |w|, r
  {
    if !r.Done? {
      if r.Maybe? && Matches(r.next, w) {
        AvoidedCharIsAbsent(r.next, w, ch);
      } else if r.Plus? && Matches(r, w[1..]) {
        AvoidedCharIsAbsent(r, w[1..], ch);
        assert w == [w[0]] + w[1..];
      } else {
        AvoidedCharIsAbsent(r.next, w[1..], ch);
        assert w == [w[0]] + w[1..];
      }
    }
  }

  lemma {:induction false} NeededClassIsPresent(r: Regex, w: string, cls: Class)
    requires Matches(r, w) && Needs(r, cls)
    ensures exists i :: 0 <= i < |w| && In(cls, w[i])
    decreases |w|, r
  {
    if r.cls == cls && !r.Maybe? {
      assert In(cls, w[0]);
    } else if r.Maybe? && Matches(r.next, w) {
      NeededClassIsPresent(r.next, w, cls);
    } else {
      var q := if r.Plus? && Matches(r, w[1..]) then r else r.next;
      NeededClassIsPresent(q, w[1..], cls);
      var i :| 0 <= i < |w[1..]| && In(cls, w[1..][i]);
      assert In(cls, w[i + 1]);
    }
  }

  lemma {:induction false} MatchesAreLong(r: Regex, w: string)
    requires Matches(r, w)
    ensures |w| >= MinLength(r)
    decreases |w|, r
  {
    if !r.Done? {
      if r.Maybe? && Matches(r.next, w) {
        MatchesAreLong(r.next, w);
      } else if r.Plus? && Matches(r, w[1..]) {
        MatchesAreLong(r, w[1..]);
      } else {
        MatchesAreLong(r.next, w[1..]);
      }
    }
  }

  /** Patterns of this kind never match across a marker, and never inside text that lacks the class. */
  ghost predicate Safe(p: Pattern, cls: Class) {
    forall r :: r in p ==> Avoids(r, '[') && Avoids(r, ']') && Needs(r, cls)
  }

  lemma SafeIsBracketFree(p: Pattern, cls: Class)
    requires Safe(p, cls)
    ensures BracketFree(p)
  {
    forall w | Describes(p, w) ensures w != [] && '[' !in w && ']' !in w {
      var i :| 0 <= i < |p| && Matches(p[i], w);
      assert p[i] in p;
      AvoidedCharIsAbsent(p[i], w, '[');
      AvoidedCharIsAbsent(p[i], w, ']');
      NeededClassIsPresent(p[i], w, cls);
    }
  }

  lemma AbsentWithoutClass(p: Pattern, cls: Class, s: string)
    requires Safe(p, cls) && forall i :: 0 <= i < |s| ==> !In(cls, s[i])
    ensures !Occurs(p, s)
  {
    forall i, j | 0 <= i <= j <= |s| ensures !Describes(p, s[i..j]) {
      if Describes(p, s[i..j]) {
        var k :| 0 <= k < |p| && Matches(p[k], s[i..j]);
        assert p[k] in p;
        NeededClassIsPresent(p[k], s[i..j], cls);
      }
    }
  }

  lemma {:induction false} TimesIsSafe(cls: Class, n: nat, next: Regex, ch: char, needed: Class)
    requires !In(cls, ch)
    ensures Avoids(Times(cls, n, next), ch) == Avoids(next, ch)
    ensures Needs(Times(cls, n, next), needed) == (Needs(next, needed) || (n > 0 && cls == needed))
    ensures MinLength(Times(cls, n, next)) == n + MinLength(next)
  {
    if n > 0 {
      TimesIsSafe(cls, n - 1, next, ch, needed);
    }
  }

  /** The class that every match of the i-th pass needs, and that no marker contains. */
  function Telltale(i: nat): Class
    requires i < 5
  {
    [Exactly('@'), Digit, Digit, Exactly('_'), Space][i]
  }

  lemma CnpjIsSafe()
    ensures Safe(Cnpj(), Digit) && MinLength(Cnpj()[0]) == 14
  {
    DigitsAreSafe();
  }

  lemma CpfIsSafe()
    ensures Safe(Cpf(), Digit) && MinLength(Cpf()[0]) == 11
  {
    DigitsAreSafe();
  }

  lemma DigitsAreSafe()
    ensures forall n: nat, next ::
              var r := Times(Digit, n, next);
              && Avoids(r, '[') == Avoids(next, '[') && Avoids(r, ']') == Avoids(next, ']')
              && Needs(r, Digit) == (Needs(next, Digit) || n > 0)
              && MinLength(r) == n + MinLength(next)
  {
    forall n: nat, next
      ensures var r := Times(Digit, n, next);
              && Avoids(r, '[') == Avoids(next, '[') && Avoids(r, ']') == Avoids(next, ']')
              && Needs(r, Digit) == (Needs(next, Digit) || n > 0)
              && MinLength(r) == n + MinLength(next)
    {
      TimesIsSafe(Digit, n, next, '[', Digit);
      TimesIsSafe(Digit, n, next, ']', Digit);
    }
  }

  lemma EmailIsSafe()
    ensures Safe(Email(), Exactly('@'))
  {
  }

  lemma StripeKeyIsSafe()
    ensures Safe(StripeKey(), Exactly('_'))
  {
    LiveKeyIsSafe();
    TestKeyIsSafe();
    hide Avoids, Needs, Literal;
  }

  lemma LiveKeyIsSafe()
    ensures var r := Literal("sk_live_", Plus(Word, Done)); Avoids(r, '[') && Avoids(r, ']') && Needs(r, Exactly('_'))
  {
  }

  lemma TestKeyIsSafe()
    ensures var r := Literal("sk_test_", Plus(Word, Done)); Avoids(r, '[') && Avoids(r, ']') && Needs(r, Exactly('_'))
  {
  }

  lemma BearerIsSafe()
    ensures Safe(Bearer(), Space)
  {
    AnyCaseIsSafe("bearer", Plus(Space, Plus(WordOr(".-"), Done)));
  }

  lemma {:induction false} LiteralIsSafe(s: string, next: Regex, i: nat)
    requires forall k :: 0 <= k < |s| ==> s[k] != '[' && s[k] != ']'
    requires Avoids(next, '[') && Avoids(next, ']')
    ensures Avoids(Literal(s, next), '[') && Avoids(Literal(s, next), ']')
    ensures i < |s| ==> Needs(Literal(s, next), Exactly(s[i]))
  {
    if s != [] {
      LiteralIsSafe(s[1..], next, if i == 0 then 0 else i - 1);
    }
  }

  lemma {:induction false} AnyCaseIsSafe(s: string, next: Regex)
    requires forall i :: 0 <= i < |s| ==> 'a' <= s[i] <= 'z'
    requires Avoids(next, '[') && Avoids(next, ']') && Needs(next, Space)
    ensures Avoids(LiteralAnyCase(s, next), '[') && Avoids(LiteralAnyCase(s, next), ']')
    ensures Needs(LiteralAnyCase(s, next), Space)
  {
    if s != [] {
      AnyCaseIsSafe(s[1..], next);
    }
  }

  lemma {:induction false} LiteralAvoids(literal: string, next: Regex, ch: char)
    requires Avoids(next, ch) && ch !in literal
    ensures Avoids(Literal(literal, next), ch)
  {
    if literal != [] {
      LiteralAvoids(literal[1..], next, ch);
    }
  }

  lemma {:induction false} AnyCaseAvoids(literal: string, next: Regex, ch: char)
    requires Avoids(next, ch) && (forall k :: 0 <= k < |literal| ==> 'a' <= literal[k] <= 'z') && !IsWord(ch)
    ensures Avoids(LiteralAnyCase(literal, next), ch)
  {
    if literal != [] {
      AnyCaseAvoids(literal[1..], next, ch);
    }
  }

  lemma EveryPassIsSafe(i: nat)
    requires i < 5
    ensures Safe(Passes()[i].pattern, Telltale(i)) && Bracketed(Passes()[i].marker)
  {
    EmailIsSafe();
    CnpjIsSafe();
    CpfIsSafe();
    StripeKeyIsSafe();
    BearerIsSafe();
    hide Safe, Email, Cnpj, Cpf, StripeKey, Bearer;
  }

  /** Text without a digit, white space, '@' or '_' is of no interest to any pass. */
  predicate Harmless(s: string) {
    forall i :: 0 <= i < |s| ==> s[i] != '@' && s[i] != '_' && !IsDigit(s[i]) && !IsSpace(s[i])
  }

  lemma HarmlessIsUntouched(s: string)
    requires Harmless(s)
    ensures Clean(s)
  {
    forall i: nat | i < 5 ensures !Occurs(Passes()[i].pattern, s) {
      EveryPassIsSafe(i);
      AbsentWithoutClass(Passes()[i].pattern, Telltale(i), s);
    }
  }

  // ----- the passes together -----

  /** Nothing that any pass looks for occurs in `s`. */
  ghost predicate Clean(s: string) {
    forall i: nat :: i < 5 ==> !Occurs(Passes()[i].pattern, s)
  }

  lemma HarmlessJoins(a: string, b: string)
    requires Harmless(a) && Harmless(b)
    ensures Harmless(a + b)
  {
  }

  lemma MarkerIsHarmless(name: string)
    requires Harmless(name)
    ensures Harmless(Marker(name))
  {
    assert Harmless("[redacted:") && Harmless("]");
    hide Harmless;
    HarmlessJoins("[redacted:", name);
    HarmlessJoins("[redacted:" + name, "]");
  }

  lemma HarmlessMarker(name: string)
    requires Harmless(name)
    ensures Harmless(Marker(name)) && Clean(Marker(name))
  {
    MarkerIsHarmless(name);
    hide Clean, Harmless, Marker;
    HarmlessIsUntouched(Marker(name));
  }

  lemma MarkersAreClean(i: nat)
    requires i < 5
    ensures Clean(Passes()[i].marker)
  {
    hide Clean, Marker, Email, Cnpj, Cpf, StripeKey, Bearer;
    HarmlessMarker("email");
    HarmlessMarker("cnpj");
    HarmlessMarker("cpf");
    HarmlessMarker("stripe-key");
    HarmlessMarker("bearer");
  }

  lemma {:induction false} LaterPassesKeepEarlierResults(done: nat, s: string)
    requires done <= 5 && forall i: nat :: i < done ==> !Occurs(Passes()[i].pattern, s)
    ensures Clean(ApplyAll(Passes()[done..], s))
    decreases 5 - done
  {
    if done < 5 {
      var pass := Passes()[done];
      var out := ReplaceAll(pass.pattern, pass.marker, s);
      MarkersAreClean(done);
      forall i: nat | i <= done ensures !Occurs(Passes()[i].pattern, out) {
        EveryPassIsSafe(i);
        EveryPassIsSafe(done);
        SafeIsBracketFree(Passes()[i].pattern, Telltale(i));
        NothingRemains(Passes()[i].pattern, pass.pattern, pass.marker, s);
      }
      LaterPassesKeepEarlierResults(done + 1, out);
      assert Passes()[done..][1..] == Passes()[done + 1..];
    }
  }

  /** After redaction no string holds anything e-mail-, CNPJ-, CPF-, key- or token-shaped. */
  lemma NothingSensitiveRemains(s: string)
    ensures Clean(Redacted(s))
  {
    LaterPassesKeepEarlierResults(0, s);
    assert Passes()[0..] == Passes();
  }

  lemma {:induction false} CleanIsKept(done: nat, s: string)
    requires done <= 5 && Clean(s)
    ensures ApplyAll(Passes()[done..], s) == s
    decreases 5 - done
  {
    if done < 5 {
      NothingToReplace(Passes()[done].pattern, Passes()[done].marker, s);
      CleanIsKept(done + 1, s);
      assert Passes()[done..][1..] == Passes()[done + 1..];
    }
  }

  /** Redaction changes a string if and only if something sensitive occurs in it. */
  lemma RedactsExactlyWhatIsSensitive(s: string)
    ensures Redacted(s) == s <==> Clean(s)
  {
    NothingSensitiveRemains(s);
    if Clean(s) {
      CleanIsKept(0, s);
      assert Passes()[0..] == Passes();
    }
  }

  /** Redacting twice is redacting once. */
  lemma RedactionIsIdempotent(s: string)
    ensures Redacted(Redacted(s)) == Redacted(s)
  {
    NothingSensitiveRemains(s);
    RedactsExactlyWhatIsSensitive(Redacted(s));
  }

  /** Cutting a redacted string short, as the error tracker does, cannot uncover anything. */
  lemma CutIsClean(s: string, n: nat)
    requires Clean(s) && n <= |s|
    ensures Clean(s[..n])
  {
    forall i: nat | i < 5 ensures !Occurs(Passes()[i].pattern, s[..n]) {
      forall a, b | 0 <= a <= b <= n ensures !Describes(Passes()[i].pattern, s[..n][a..b]) {
        assert s[..n][a..b] == s[a..b];
      }
    }
  }
}
