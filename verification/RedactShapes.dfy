/** What the five patterns describe, in terms of strings alone, and what redaction guarantees in those terms. */
module RedactShapes {
  import opened Wrappers
  import opened Pattern
  import opened Redact

  // ----- the shapes -----

  predicate AreDigits(s: string, n: nat) {
    |s| == n && forall i :: 0 <= i < |s| ==> '0' <= s[i] <= '9'
  }

  /** The separator, or nothing in its place. */
  predicate Optional(s: string, separator: char) {
    s == "" || s == [separator]
  }

  predicate IsWordChar(c: char) {
    '0' <= c <= '9' || 'a' <= c <= 'z' || 'A' <= c <= 'Z' || c == '_'
  }

  predicate AreWordsOr(s: string, extra: string) {
    s != "" && forall i :: 0 <= i < |s| ==> IsWordChar(s[i]) || s[i] in extra
  }

  predicate EmailOf(w: string, user: string, host: string, domain: string) {
    && w == user + ("@" + (host + ("." + domain)))
    && AreWordsOr(user, ".+-") && AreWordsOr(host, "-") && AreWordsOr(domain, ".-")
  }

  /** 12.345.678/0001-95, each separator present or not. */
  predicate CnpjOf(w: string, a: string, p: string, b: string, q: string, c: string, r: string, d: string, t: string, e: string) {
    && w == a + (p + (b + (q + (c + (r + (d + (t + e)))))))
    && AreDigits(a, 2) && Optional(p, '.') && AreDigits(b, 3) && Optional(q, '.') && AreDigits(c, 3)
    && Optional(r, '/') && AreDigits(d, 4) && Optional(t, '-') && AreDigits(e, 2)
  }

  /** 123.456.789-01, each separator present or not. */
  predicate CpfOf(w: string, a: string, p: string, b: string, q: string, c: string, r: string, d: string) {
    && w == a + (p + (b + (q + (c + (r + d)))))
    && AreDigits(a, 3) && Optional(p, '.') && AreDigits(b, 3) && Optional(q, '.') && AreDigits(c, 3)
    && Optional(r, '-') && AreDigits(d, 2)
  }

  predicate StripeKeyOf(w: string, kind: string, key: string) {
    w == kind + key && kind in {"sk_live_", "sk_test_"} && AreWordsOr(key, "")
  }

  predicate BearerOf(w: string, word: string, space: string, token: string) {
    && w == word + (space + token) && Lower(word) == "bearer"
    && space != "" && (forall i :: 0 <= i < |space| ==> IsSpace(space[i])) && AreWordsOr(token, ".-")
  }

  ghost predicate IsEmail(w: string) {
    exists user, host, domain :: EmailOf(w, user, host, domain)
  }

  ghost predicate IsCnpj(w: string) {
    exists a, p, b, q, c, r, d, t, e :: CnpjOf(w, a, p, b, q, c, r, d, t, e)
  }

  ghost predicate IsCpf(w: string) {
    exists a, p, b, q, c, r, d :: CpfOf(w, a, p, b, q, c, r, d)
  }

  ghost predicate IsStripeKey(w: string) {
    exists kind, key :: StripeKeyOf(w, kind, key)
  }

  ghost predicate IsBearer(w: string) {
    exists word, space, token :: BearerOf(w, word, space, token)
  }

  // ----- what the building blocks of a pattern describe -----

  lemma {:induction false} RunMatches(cls: Class, n: nat, next: Regex, w: string)
    ensures Matches(Times(cls, n, next), w)
       <==> n <= |w| && (forall i :: 0 <= i < n ==> In(cls, w[i])) && Matches(next, w[n..])
  {
    if n > 0 {
      if w != [] {
        RunMatches(cls, n - 1, next, w[1..]);
        assert n <= |w| ==> w[1..][n - 1..] == w[n..];
        assert forall i :: 1 <= i < |w| ==> w[i] == w[1..][i - 1];
      }
    } else {
      assert w[0..] == w;
    }
  }

  /** A group of digits, an optional separator, and what matches the rest. */
  ghost predicate GroupOf(w: string, n: nat, separator: char, next: Regex, a: string, p: string, rest: string) {
    w == a + (p + rest) && AreDigits(a, n) && Optional(p, separator) && Matches(next, rest)
  }

  lemma GroupMatches(n: nat, separator: char, next: Regex, w: string) returns (a: string, p: string, rest: string)
    requires Matches(Times(Digit, n, Maybe(Exactly(separator), next)), w)
    ensures GroupOf(w, n, separator, next, a, p, rest)
  {
    RunMatches(Digit, n, Maybe(Exactly(separator), next), w);
    a, rest := w[..n], w[n..];
    p := "";
    assert w == a + ("" + rest);
    if !Matches(next, rest) {
      p, rest := [separator], rest[1..];
      assert w[n..] == [separator] + rest;
      assert w == a + (p + rest);
    }
  }

  lemma GroupIsMatched(n: nat, separator: char, next: Regex, w: string, a: string, p: string, rest: string)
    requires GroupOf(w, n, separator, next, a, p, rest)
    ensures Matches(Times(Digit, n, Maybe(Exactly(separator), next)), w)
  {
    var tail := p + rest;
    assert w[..n] == a && w[n..] == tail;
    assert forall i :: 0 <= i < n ==> w[i] == a[i];
    assert p == "" ==> tail == rest;
    assert p != "" ==> tail[0] == separator && tail[1..] == rest;
    RunMatches(Digit, n, Maybe(Exactly(separator), next), w);
  }

  lemma LastGroup(n: nat, w: string)
    ensures Matches(Times(Digit, n, Done), w) <==> AreDigits(w, n)
  {
    RunMatches(Digit, n, Done, w);
    assert |w| == n ==> w[n..] == [];
  }

  lemma {:induction false} PlusMatches(cls: Class, next: Regex, w: string) returns (run: string, rest: string)
    requires Matches(Plus(cls, next), w)
    ensures w == run + rest && run != "" && (forall i :: 0 <= i < |run| ==> In(cls, run[i])) && Matches(next, rest)
    decreases |w|
  {
    if Matches(next, w[1..]) {
      run, rest := [w[0]], w[1..];
    } else {
      run, rest := PlusMatches(cls, next, w[1..]);
      run := [w[0]] + run;
    }
    assert w == [w[0]] + w[1..];
  }

  lemma {:induction false} PlusIsMatched(cls: Class, next: Regex, run: string, rest: string)
    requires run != "" && (forall i :: 0 <= i < |run| ==> In(cls, run[i])) && Matches(next, rest)
    ensures Matches(Plus(cls, next), run + rest)
    decreases |run|
  {
    var w := run + rest;
    if |run| > 1 {
      PlusIsMatched(cls, next, run[1..], rest);
      assert w[1..] == run[1..] + rest;
    } else {
      assert w[1..] == rest;
    }
  }

  lemma {:induction false} LiteralMatches(literal: string, next: Regex, w: string)
    ensures Matches(Literal(literal, next), w) <==> literal <= w && Matches(next, w[|literal|..])
  {
    if literal == [] {
      assert w[0..] == w;
    } else if w != [] {
      LiteralMatches(literal[1..], next, w[1..]);
      assert literal == [literal[0]] + literal[1..] && w == [w[0]] + w[1..];
      assert literal <= w <==> literal[0] == w[0] && literal[1..] <= w[1..];
      assert literal <= w ==> w[1..][|literal| - 1..] == w[|literal|..];
    }
  }

  lemma {:induction false} AnyCaseMatches(literal: string, next: Regex, w: string)
    requires forall i :: 0 <= i < |literal| ==> 'a' <= literal[i] <= 'z'
    ensures Matches(LiteralAnyCase(literal, next), w)
       <==> |literal| <= |w| && Lower(w[..|literal|]) == literal && Matches(next, w[|literal|..])
  {
    if literal == [] {
      assert w[0..] == w && Lower(w[..0]) == [];
    } else if w != [] {
      AnyCaseMatches(literal[1..], next, w[1..]);
      LowerOfFront(literal, w);
      assert |literal| <= |w| ==> w[1..][|literal| - 1..] == w[|literal|..];
    }
  }

  lemma LowerOfFront(literal: string, w: string)
    requires literal != [] && w != []
    ensures |literal| <= |w| ==>
              (Lower(w[..|literal|]) == literal <==>
               LowerChar(w[0]) == literal[0] && Lower(w[1..][..|literal| - 1]) == literal[1..])
  {
    if |literal| <= |w| {
      assert w[..|literal|] == [w[0]] + w[1..][..|literal| - 1];
      assert Lower(w[..|literal|]) == [LowerChar(w[0])] + Lower(w[1..][..|literal| - 1]);
      assert literal == [literal[0]] + literal[1..];
    }
  }

  lemma WordsAre(s: string, extra: string)
    ensures AreWordsOr(s, extra) <==> s != "" && forall i :: 0 <= i < |s| ==> In(WordOr(extra), s[i])
    ensures AreWordsOr(s, "") <==> s != "" && forall i :: 0 <= i < |s| ==> In(Word, s[i])
  {
  }

  // ----- each pattern describes its shape -----

  const DOMAIN := Plus(WordOr(".-"), Done)
  const DOT_DOMAIN := One(Exactly('.'), DOMAIN)
  const HOST := Plus(WordOr("-"), DOT_DOMAIN)
  const AT_HOST := One(Exactly('@'), HOST)

  lemma {:induction false} RunMatchesDone(cls: Class, w: string)
    ensures Matches(Plus(cls, Done), w) <==> w != "" && forall i :: 0 <= i < |w| ==> In(cls, w[i])
  {
    if Matches(Plus(cls, Done), w) {
      var run, rest := PlusMatches(cls, Done, w);
      assert w == run;
    }
    if w != "" && forall i :: 0 <= i < |w| ==> In(cls, w[i]) {
      PlusIsMatched(cls, Done, w, "");
      assert w + "" == w;
    }
  }

  lemma EmailIsExact(w: string)
    ensures Describes(Email(), w) <==> IsEmail(w)
  {
    assert Email() == [Plus(WordOr(".+-"), AT_HOST)];
    hide Email;
    if Describes(Email(), w) {
      var user, host, domain := EmailParts(w);
    }
    if IsEmail(w) {
      var user, host, domain :| EmailOf(w, user, host, domain);
      EmailFromParts(w, user, host, domain);
      assert Matches([Plus(WordOr(".+-"), AT_HOST)][0], w);
    }
  }

  lemma EmailParts(w: string) returns (user: string, host: string, domain: string)
    requires Matches(Plus(WordOr(".+-"), AT_HOST), w)
    ensures EmailOf(w, user, host, domain)
  {
    var rest;
    user, rest := PlusMatches(WordOr(".+-"), AT_HOST, w);
    var more;
    host, more := PlusMatches(WordOr("-"), DOT_DOMAIN, rest[1..]);
    domain := more[1..];
    RunMatchesDone(WordOr(".-"), domain);
    assert rest == "@" + rest[1..] && more == "." + domain;
    WordsAre(user, ".+-");
    WordsAre(host, "-");
    WordsAre(domain, ".-");
  }

  lemma EmailFromParts(w: string, user: string, host: string, domain: string)
    requires EmailOf(w, user, host, domain)
    ensures Matches(Plus(WordOr(".+-"), AT_HOST), w)
  {
    WordsAre(user, ".+-");
    WordsAre(host, "-");
    WordsAre(domain, ".-");
    RunMatchesDone(WordOr(".-"), domain);
    var dotted := "." + domain;
    assert dotted[1..] == domain;
    PlusIsMatched(WordOr("-"), DOT_DOMAIN, host, dotted);
    var at := "@" + (host + dotted);
    assert at[1..] == host + dotted;
    PlusIsMatched(WordOr(".+-"), AT_HOST, user, at);
  }

  const CHECK := Times(Digit, 2, Done)

  lemma CnpjIsExact(w: string)
    ensures Describes(Cnpj(), w) <==> IsCnpj(w)
  {
    assert Cnpj() == [CNPJ];
    hide Cnpj, Times;
    if Describes(Cnpj(), w) {
      var a, p, b, q, c, r, d, t, e := CnpjParts(w);
    }
    if IsCnpj(w) {
      var a, p, b, q, c, r, d, t, e :| CnpjOf(w, a, p, b, q, c, r, d, t, e);
      CnpjFromParts(w, a, p, b, q, c, r, d, t, e);
      assert Matches([CNPJ][0], w);
    }
  }

  const BRANCH := Times(Digit, 4, Maybe(Exactly('-'), CHECK))
  const CNPJ_THIRD := Times(Digit, 3, Maybe(Exactly('/'), BRANCH))
  const CNPJ_SECOND := Times(Digit, 3, Maybe(Exactly('.'), CNPJ_THIRD))
  const CNPJ := Times(Digit, 2, Maybe(Exactly('.'), CNPJ_SECOND))

  lemma CnpjParts(w: string)
    returns (a: string, p: string, b: string, q: string, c: string, r: string, d: string, t: string, e: string)
    requires Matches(CNPJ, w)
    ensures CnpjOf(w, a, p, b, q, c, r, d, t, e)
  {
    hide Times, AreDigits, Optional;
    var w1, w2, w3;
    a, p, w1 := GroupMatches(2, '.', CNPJ_SECOND, w);
    b, q, w2 := GroupMatches(3, '.', CNPJ_THIRD, w1);
    c, r, w3 := GroupMatches(3, '/', BRANCH, w2);
    d, t, e := GroupMatches(4, '-', CHECK, w3);
    LastGroup(2, e);
  }

  lemma CnpjFromParts(w: string, a: string, p: string, b: string, q: string, c: string, r: string, d: string, t: string,
                      e: string)
    requires CnpjOf(w, a, p, b, q, c, r, d, t, e)
    ensures Matches(CNPJ, w)
  {
    hide Times, AreDigits, Optional;
    LastGroup(2, e);
    var w3 := d + (t + e);
    GroupIsMatched(4, '-', CHECK, w3, d, t, e);
    var w2 := c + (r + w3);
    GroupIsMatched(3, '/', BRANCH, w2, c, r, w3);
    var w1 := b + (q + w2);
    GroupIsMatched(3, '.', CNPJ_THIRD, w1, b, q, w2);
    GroupIsMatched(2, '.', CNPJ_SECOND, w, a, p, w1);
  }

  const CPF_THIRD := Times(Digit, 3, Maybe(Exactly('-'), CHECK))
  const CPF_SECOND := Times(Digit, 3, Maybe(Exactly('.'), CPF_THIRD))
  const CPF := Times(Digit, 3, Maybe(Exactly('.'), CPF_SECOND))

  lemma CpfIsExact(w: string)
    ensures Describes(Cpf(), w) <==> IsCpf(w)
  {
    assert Cpf() == [CPF];
    hide Cpf, Times;
    if Describes(Cpf(), w) {
      var a, p, b, q, c, r, d := CpfParts(w);
    }
    if IsCpf(w) {
      var a, p, b, q, c, r, d :| CpfOf(w, a, p, b, q, c, r, d);
      CpfFromParts(w, a, p, b, q, c, r, d);
      assert Matches([CPF][0], w);
    }
  }

  lemma CpfParts(w: string) returns (a: string, p: string, b: string, q: string, c: string, r: string, d: string)
    requires Matches(CPF, w)
    ensures CpfOf(w, a, p, b, q, c, r, d)
  {
    hide Times, AreDigits, Optional;
    var w1, w2;
    a, p, w1 := GroupMatches(3, '.', CPF_SECOND, w);
    b, q, w2 := GroupMatches(3, '.', CPF_THIRD, w1);
    c, r, d := GroupMatches(3, '-', CHECK, w2);
    LastGroup(2, d);
  }

  lemma CpfFromParts(w: string, a: string, p: string, b: string, q: string, c: string, r: string, d: string)
    requires CpfOf(w, a, p, b, q, c, r, d)
    ensures Matches(CPF, w)
  {
    hide Times, AreDigits, Optional;
    LastGroup(2, d);
    var w2 := c + (r + d);
    GroupIsMatched(3, '-', CHECK, w2, c, r, d);
    var w1 := b + (q + w2);
    GroupIsMatched(3, '.', CPF_THIRD, w1, b, q, w2);
    GroupIsMatched(3, '.', CPF_SECOND, w, a, p, w1);
  }

  const KEY := Plus(Word, Done)

  lemma KeyMatches(kind: string, w: string)
    ensures Matches(Literal(kind, KEY), w) <==> kind <= w && AreWordsOr(w[|kind|..], "")
  {
    LiteralMatches(kind, KEY, w);
    if kind <= w {
      RunMatchesDone(Word, w[|kind|..]);
      WordsAre(w[|kind|..], "");
    }
  }

  lemma StripeKeyIsExact(w: string)
    ensures Describes(StripeKey(), w) <==> IsStripeKey(w)
  {
    hide Literal, AreWordsOr;
    KeyMatches("sk_live_", w);
    KeyMatches("sk_test_", w);
    assert StripeKey() == [Literal("sk_live_", KEY), Literal("sk_test_", KEY)];
    hide StripeKey;
    if Describes(StripeKey(), w) {
      var kind := if Matches(Literal("sk_live_", KEY), w) then "sk_live_" else "sk_test_";
      assert w == kind + w[8..];
      assert StripeKeyOf(w, kind, w[8..]);
    }
    if IsStripeKey(w) {
      var kind, key :| StripeKeyOf(w, kind, key);
      assert w[8..] == key && kind <= w;
      assert Matches(StripeKey()[if kind == "sk_live_" then 0 else 1], w);
    }
  }

  const TOKEN := Plus(WordOr(".-"), Done)
  const SPACE_TOKEN := Plus(Space, TOKEN)

  lemma BearerIsExact(w: string)
    ensures Describes(Bearer(), w) <==> IsBearer(w)
  {
    AnyCaseMatches("bearer", SPACE_TOKEN, w);
    assert Bearer() == [LiteralAnyCase("bearer", SPACE_TOKEN)];
    hide Bearer, LiteralAnyCase, Lower;
    if Describes(Bearer(), w) {
      var space, token := PlusMatches(Space, TOKEN, w[6..]);
      RunMatchesDone(WordOr(".-"), token);
      WordsAre(token, ".-");
      assert BearerOf(w, w[..6], space, token);
    }
    if IsBearer(w) {
      var word, space, token :| BearerOf(w, word, space, token);
      LowerKeepsLength(word);
      assert w[..6] == word && w[6..] == space + token;
      RunMatchesDone(WordOr(".-"), token);
      WordsAre(token, ".-");
      PlusIsMatched(Space, TOKEN, space, token);
      assert Matches(Bearer()[0], w);
    }
  }

  lemma LowerKeepsLength(s: string)
    ensures |Lower(s)| == |s|
  {
  }

  // ----- what redaction guarantees -----

  /** The shape that the k-th pass removes. */
  ghost predicate HasShape(k: nat, w: string) {
    match k
    case 0 => IsEmail(w)
    case 1 => IsCnpj(w)
    case 2 => IsCpf(w)
    case 3 => IsStripeKey(w)
    case _ => IsBearer(w)
  }

  lemma PassIsExact(k: nat, w: string)
    requires k < 5
    ensures Describes(Passes()[k].pattern, w) <==> HasShape(k, w)
  {
    hide Email, Cnpj, Cpf, StripeKey, Bearer, Marker, Describes, IsEmail, IsCnpj, IsCpf, IsStripeKey, IsBearer;
    match k
    case 0 => EmailIsExact(w);
    case 1 => CnpjIsExact(w);
    case 2 => CpfIsExact(w);
    case 3 => StripeKeyIsExact(w);
    case _ => BearerIsExact(w);
  }

  ghost predicate IsSensitive(w: string) {
    IsEmail(w) || IsCnpj(w) || IsCpf(w) || IsStripeKey(w) || IsBearer(w)
  }

  lemma SomeShape(w: string)
    ensures IsSensitive(w) <==> exists k: nat :: k < 5 && HasShape(k, w)
  {
    hide IsEmail, IsCnpj, IsCpf, IsStripeKey, IsBearer;
    if IsSensitive(w) {
      var k := if IsEmail(w) then 0 else if IsCnpj(w) then 1 else if IsCpf(w) then 2 else if IsStripeKey(w) then 3 else 4;
      assert HasShape(k, w);
    }
  }

  lemma CleanMeansNoShape(s: string)
    ensures Clean(s) <==> forall i, j :: 0 <= i <= j <= |s| ==> !IsSensitive(s[i..j])
  {
    hide IsSensitive, HasShape, Describes, Email, Cnpj, Cpf, StripeKey, Bearer, Marker;
    if Clean(s) {
      forall i, j | 0 <= i <= j <= |s| ensures !IsSensitive(s[i..j]) {
        forall k: nat | k < 5 ensures !HasShape(k, s[i..j]) {
          PassIsExact(k, s[i..j]);
          assert !Occurs(Passes()[k].pattern, s);
        }
        SomeShape(s[i..j]);
      }
    }
    if forall i, j :: 0 <= i <= j <= |s| ==> !IsSensitive(s[i..j]) {
      forall k: nat, i, j | k < 5 && 0 <= i <= j <= |s| ensures !Describes(Passes()[k].pattern, s[i..j]) {
        assert !IsSensitive(s[i..j]);
        SomeShape(s[i..j]);
        PassIsExact(k, s[i..j]);
      }
    }
  }

  /** In no redacted string does any part look like an e-mail address, a CNPJ, a CPF, a Stripe key or a bearer token. */
  lemma NoShapeRemains(s: string, i: nat, j: nat)
    requires i <= j <= |Redacted(s)|
    ensures !IsSensitive(Redacted(s)[i..j])
  {
    hide IsSensitive, Clean, Redacted;
    NothingSensitiveRemains(s);
    CleanMeansNoShape(Redacted(s));
  }

  /** A string is left as it is if and only if no part of it looks like one. */
  lemma RedactsExactlyShapes(s: string)
    ensures Redacted(s) == s <==> forall i, j :: 0 <= i <= j <= |s| ==> !IsSensitive(s[i..j])
  {
    hide IsSensitive, Clean, Redacted;
    RedactsExactlyWhatIsSensitive(s);
    CleanMeansNoShape(s);
  }
}
