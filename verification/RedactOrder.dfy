/** Why the CNPJ pass comes before the CPF pass. */
module RedactOrder {
  import opened Wrappers
  import opened Pattern
  import opened Redact

  predicate AllDigits(s: string) {
    forall i :: 0 <= i < |s| ==> IsDigit(s[i])
  }

  lemma {:induction false} BacktrackOverDigits(n: nat, next: Regex, s: string)
    requires AllDigits(s) && n <= |s|
    ensures Backtrack(Times(Digit, n, next), s)
         == if Backtrack(next, s[n..]).Some? then Some(n + Backtrack(next, s[n..]).value) else None
  {
    if n > 0 {
      BacktrackOverDigits(n - 1, next, s[1..]);
      assert s[1..][n - 1..] == s[n..];
    } else {
      assert s[0..] == s;
    }
  }

  /** A run of digits passes an optional separator that is not there. */
  lemma DigitsThenRest(n: nat, separator: char, next: Regex, s: string, k: nat)
    requires AllDigits(s) && n <= |s| && !IsDigit(separator)
    requires Backtrack(next, s[n..]) == Some(k)
    ensures Backtrack(Times(Digit, n, Maybe(Exactly(separator), next)), s) == Some(n + k)
  {
    hide Backtrack, Times;
    BacktrackOverDigits(n, Maybe(Exactly(separator), next), s);
    SeparatorIsSkipped(separator, next, s[n..]);
  }

  lemma SeparatorIsSkipped(separator: char, next: Regex, t: string)
    requires t == [] || t[0] != separator
    ensures Backtrack(Maybe(Exactly(separator), next), t) == Backtrack(next, t)
  {
  }

  /** Without separators, a CPF is eleven digits. */
  lemma BareCpfMatches(s: string)
    requires AllDigits(s) && |s| >= 11
    ensures Backtrack(Cpf()[0], s) == Some(11)
  {
    assert s[3..][3..] == s[6..] && s[6..][3..] == s[9..];
    BacktrackOverDigits(2, Done, s[9..]);
    var check := Times(Digit, 2, Done);
    DigitsThenRest(3, '-', check, s[6..], 2);
    var third := Times(Digit, 3, Maybe(Exactly('-'), check));
    DigitsThenRest(3, '.', third, s[3..], 5);
    var second := Times(Digit, 3, Maybe(Exactly('.'), third));
    DigitsThenRest(3, '.', second, s, 8);
    hide Times, Backtrack;
    assert Cpf()[0] == Times(Digit, 3, Maybe(Exactly('.'), second));
  }

  /** Without separators, a CNPJ is fourteen digits. */
  lemma BareCnpjMatches(s: string)
    requires AllDigits(s) && |s| >= 14
    ensures Backtrack(Cnpj()[0], s) == Some(14)
  {
    assert s[2..][3..] == s[5..] && s[5..][3..] == s[8..] && s[8..][4..] == s[12..];
    BacktrackOverDigits(2, Done, s[12..]);
    var check := Times(Digit, 2, Done);
    DigitsThenRest(4, '-', check, s[8..], 2);
    var branch := Times(Digit, 4, Maybe(Exactly('-'), check));
    DigitsThenRest(3, '/', branch, s[5..], 6);
    var third := Times(Digit, 3, Maybe(Exactly('/'), branch));
    DigitsThenRest(3, '.', third, s[2..], 9);
    var second := Times(Digit, 3, Maybe(Exactly('.'), third));
    DigitsThenRest(2, '.', second, s, 12);
    hide Times, Backtrack;
    assert Cnpj()[0] == Times(Digit, 2, Maybe(Exactly('.'), second));
  }

  lemma TooShort(p: Pattern, s: string)
    requires forall r :: r in p ==> |s| < MinLength(r)
    ensures !Occurs(p, s)
  {
    forall i, j | 0 <= i <= j <= |s| ensures !Describes(p, s[i..j]) {
      if Describes(p, s[i..j]) {
        var k :| 0 <= k < |p| && Matches(p[k], s[i..j]);
        assert p[k] in p;
        MatchesAreLong(p[k], s[i..j]);
      }
    }
  }

  lemma FirstMatch(r: Regex, marker: string, s: string, n: nat)
    requires 0 < n <= |s| && Backtrack(r, s) == Some(n) && !Occurs([r], s[n..])
    ensures ReplaceAll([r], marker, s) == marker + s[n..]
  {
    NothingToReplace([r], marker, s[n..]);
    hide Backtrack;
  }

  lemma CnpjPass(cnpj: string)
    requires |cnpj| == 14 && AllDigits(cnpj)
    ensures ReplaceAll(Cnpj(), Marker("cnpj"), cnpj) == Marker("cnpj")
  {
    BareCnpjMatches(cnpj);
    CnpjIsSafe();
    TooShort(Cnpj(), cnpj[14..]);
    assert Cnpj() == [Cnpj()[0]];
    hide Cnpj, Backtrack, Marker, AllDigits, Safe;
    FirstMatch(Cnpj()[0], Marker("cnpj"), cnpj, 14);
    assert Marker("cnpj") + cnpj[14..] == Marker("cnpj");
  }

  lemma EmailPass(cnpj: string)
    requires AllDigits(cnpj)
    ensures ReplaceAll(Email(), Marker("email"), cnpj) == cnpj
  {
    EmailIsSafe();
    AbsentWithoutClass(Email(), Exactly('@'), cnpj);
    NothingToReplace(Email(), Marker("email"), cnpj);
  }

  lemma CpfPass(cnpj: string)
    requires |cnpj| == 14 && AllDigits(cnpj)
    ensures ReplaceAll(Cpf(), Marker("cpf"), cnpj) == Marker("cpf") + cnpj[11..]
  {
    BareCpfMatches(cnpj);
    CpfIsSafe();
    TooShort(Cpf(), cnpj[11..]);
    assert Cpf() == [Cpf()[0]];
    hide Cpf, Backtrack, Marker, AllDigits, Safe;
    FirstMatch(Cpf()[0], Marker("cpf"), cnpj, 11);
  }

  lemma NoCnpjLeft(rest: string)
    requires |rest| == 3
    ensures ReplaceAll(Cnpj(), Marker("cnpj"), Marker("cpf") + rest) == Marker("cpf") + rest
  {
    CnpjIsSafe();
    TooShort(Cnpj(), rest);
    SafeIsBracketFree(Cnpj(), Digit);
    hide Cnpj, Marker, Safe, BracketFree;
    OccursInOnePart(Cnpj(), Marker("cpf"), rest);
    NothingToReplace(Cnpj(), Marker("cnpj"), Marker("cpf") + rest);
  }

  lemma TwoPasses(passes: seq<Pass>, s: string, t: string)
    requires |passes| >= 2 && ReplaceAll(passes[0].pattern, passes[0].marker, s) == s
    requires ReplaceAll(passes[1].pattern, passes[1].marker, s) == t
    ensures ApplyAll(passes, s) == ApplyAll(passes[2..], t)
  {
  }

  /** In the order used, fourteen digits in a row vanish behind the CNPJ marker. */
  lemma BareCnpjIsHidden(cnpj: string)
    requires |cnpj| == 14 && AllDigits(cnpj)
    ensures Redacted(cnpj) == Marker("cnpj")
  {
    hide ReplaceAll, AllDigits, Clean, Marker, Email, Cnpj, Cpf, StripeKey, Bearer, ApplyAll;
    EmailPass(cnpj);
    CnpjPass(cnpj);
    TwoPasses(Passes(), cnpj, Marker("cnpj"));
    MarkersAreClean(1);
    CleanIsKept(2, Marker("cnpj"));
  }

  /** In the other order, the last three digits of every such CNPJ would survive. */
  lemma SwappedOrderLeaks(cnpj: string)
    requires |cnpj| == 14 && AllDigits(cnpj)
    ensures ApplyAll([Pass(Cpf(), Marker("cpf")), Pass(Cnpj(), Marker("cnpj"))], cnpj)
         == Marker("cpf") + cnpj[11..]
  {
    CpfPass(cnpj);
    NoCnpjLeft(cnpj[11..]);
    hide Cnpj, Cpf, Marker, ReplaceAll, AllDigits;
    var first, second := Pass(Cpf(), Marker("cpf")), Pass(Cnpj(), Marker("cnpj"));
    assert [first, second][1..] == [second];
    assert [second][1..] == [];
    assert ApplyAll([second], Marker("cpf") + cnpj[11..]) == Marker("cpf") + cnpj[11..];
  }
}
