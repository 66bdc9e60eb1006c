/**
 * Regular expressions as the redaction patterns use them: matched by greedy backtracking, and
 * applied by global replacement. What a pattern means is given separately, as a language.
 */
module Pattern {
  import opened Wrappers

  datatype Class =
    | Digit                 // \d
    | Word                  // \w
    | WordOr(extra: string) // [\w...]
    | Exactly(c: char)
    | AnyCase(c: char)      // a lower-case letter under the i flag
    | Space                 // \s

  predicate IsDigit(ch: char) { '0' <= ch <= '9' }

  predicate IsWord(ch: char) {
    IsDigit(ch) || 'a' <= ch <= 'z' || 'A' <= ch <= 'Z' || ch == '_'
  }

  predicate In(cls: Class, ch: char) {
    match cls
    case Digit => IsDigit(ch)
    case Word => IsWord(ch)
    case WordOr(extra) => IsWord(ch) || ch in extra
    case Exactly(c) => ch == c
    case AnyCase(c) => ch == c || ('A' <= ch <= 'Z' && (ch as int) + 32 == c as int)
    case Space => IsSpace(ch)
  }

  /** A sequence of character classes, each taken once, at most once, or once or more. */
  datatype Regex =
    | Done
    | One(cls: Class, next: Regex)
    | Maybe(cls: Class, next: Regex)
    | Plus(cls: Class, next: Regex)

  /** Alternatives, tried in order. */
  type Pattern = seq<Regex>

  // ----- what a pattern means -----

  /** `w` as a whole belongs to the language of `r`. */
  predicate Matches(r: Regex, w: string)
    decreases |w|, r
  {
    match r
    case Done => w == []
    case One(cls, next) => w != [] && In(cls, w[0]) && Matches(next, w[1..])
    case Maybe(cls, next) => Matches(next, w) || (w != [] && In(cls, w[0]) && Matches(next, w[1..]))
    case Plus(cls, next) => w != [] && In(cls, w[0]) && (Matches(next, w[1..]) || Matches(r, w[1..]))
  }

  predicate Describes(p: Pattern, w: string) {
    exists i :: 0 <= i < |p| && Matches(p[i], w)
  }

  /** Some substring of `s` belongs to the language of `p`. */
  ghost predicate Occurs(p: Pattern, s: string) {
    exists i, j :: 0 <= i <= j <= |s| && Describes(p, s[i..j])
  }

  // ----- how a pattern is matched -----

  /** The length matched at the start of `s`: greedy first, backing off when the rest fails. */
  function Backtrack(r: Regex, s: string): Option<nat>
    decreases |s|, r
  {
    match r
    case Done => Some(0)
    case One(cls, next) =>
      if s != [] && In(cls, s[0]) then Longer(Backtrack(next, s[1..])) else None
    case Maybe(cls, next) =>
      if s != [] && In(cls, s[0]) && Backtrack(next, s[1..]).Some?
      then Longer(Backtrack(next, s[1..]))
      else Backtrack(next, s)
    case Plus(cls, next) =>
      if s == [] || !In(cls, s[0]) then None
      else if Backtrack(r, s[1..]).Some? then Longer(Backtrack(r, s[1..]))
      else Longer(Backtrack(next, s[1..]))
  }

  function Longer(n: Option<nat>): Option<nat> {
    if n.Some? then Some(n.value + 1) else None
  }

  function MatchAtStart(p: Pattern, s: string): Option<nat> {
    if p == [] then None
    else if Backtrack(p[0], s).Some? then Backtrack(p[0], s)
    else MatchAtStart(p[1..], s)
  }

  /** `s.replace(/p/g, marker)`: leftmost matches, scanning on after each one. */
  function ReplaceAll(p: Pattern, marker: string, s: string): string
    decreases |s|
  {
    if s == [] then []
    else
      var n := MatchAtStart(p, s);
      if n.Some? && 0 < n.value <= |s| then marker + ReplaceAll(p, marker, s[n.value..])
      else [s[0]] + ReplaceAll(p, marker, s[1..])
  }

  // ----- backtracking finds exactly the language -----

  lemma {:induction false} BacktrackIsSound(r: Regex, s: string)
    requires Backtrack(r, s).Some?
    ensures Backtrack(r, s).value <= |s| && Matches(r, s[..Backtrack(r, s).value])
    decreases |s|, r
  {
    var k := Backtrack(r, s).value;
    if s != [] {
      if r.Plus? && Backtrack(r, s[1..]).Some? {
        BacktrackIsSound(r, s[1..]);
      } else if !r.Done? && In(r.cls, s[0]) && Backtrack(r.next, s[1..]).Some? {
        BacktrackIsSound(r.next, s[1..]);
      } else if r.Maybe? {
        BacktrackIsSound(r.next, s);
      }
      if 0 < k <= |s| {
        assert s[..k][1..] == s[1..][..k - 1];
      }
    } else if r.Maybe? {
      BacktrackIsSound(r.next, s);
    }
  }

  lemma {:induction false} BacktrackIsComplete(r: Regex, s: string, k: nat)
    requires k <= |s| && Matches(r, s[..k])
    ensures Backtrack(r, s).Some?
    decreases |s|, r
  {
    if k > 0 {
      assert s[..k][1..] == s[1..][..k - 1];
    }
    match r
    case Done =>
    case One(_, next) => BacktrackIsComplete(next, s[1..], k - 1);
    case Maybe(_, next) =>
      if Matches(next, s[..k]) {
        BacktrackIsComplete(next, s, k);
      } else {
        BacktrackIsComplete(next, s[1..], k - 1);
      }
    case Plus(_, next) =>
      if Matches(next, s[..k][1..]) {
        BacktrackIsComplete(next, s[1..], k - 1);
      } else {
        BacktrackIsComplete(r, s[1..], k - 1);
      }
  }

  /** A pattern matches at the start of a string if and only if some prefix is in its language. */
  lemma {:induction false} MatchesExactlyTheLanguage(p: Pattern, s: string)
    ensures MatchAtStart(p, s).Some? <==> exists k :: 0 <= k <= |s| && Describes(p, s[..k])
    ensures MatchAtStart(p, s).Some? ==>
              MatchAtStart(p, s).value <= |s| && Describes(p, s[..MatchAtStart(p, s).value])
  {
    if p != [] {
      MatchesExactlyTheLanguage(p[1..], s);
      assert forall w :: Describes(p[1..], w) ==> Describes(p, w) by {
        forall w | Describes(p[1..], w) ensures Describes(p, w) {
          var i :| 0 <= i < |p[1..]| && Matches(p[1..][i], w);
          assert Matches(p[i + 1], w);
        }
      }
      if Backtrack(p[0], s).Some? {
        BacktrackIsSound(p[0], s);
        assert Describes(p, s[..Backtrack(p[0], s).value]);
      } else if exists k :: 0 <= k <= |s| && Describes(p, s[..k]) {
        var k :| 0 <= k <= |s| && Describes(p, s[..k]);
        var i :| 0 <= i < |p| && Matches(p[i], s[..k]);
        if i == 0 {
          BacktrackIsComplete(p[0], s, k);
        } else {
          assert Matches(p[1..][i - 1], s[..k]);
          assert Describes(p[1..], s[..k]);
        }
      }
    }
  }

  // ----- replacement -----

  /** No string of the language is empty or holds a square bracket. */
  ghost predicate BracketFree(p: Pattern) {
    forall w :: Describes(p, w) ==> w != [] && '[' !in w && ']' !in w
  }

  predicate Bracketed(marker: string) {
    |marker| >= 2 && marker[0] == '[' && marker[|marker| - 1] == ']'
  }

  /** Up to its first bracket, the replaced string is the original one. */
  lemma {:induction false} PlainPrefixIsOriginal(p: Pattern, marker: string, s: string, k: nat)
    requires Bracketed(marker) && k <= |ReplaceAll(p, marker, s)|
    requires '[' !in ReplaceAll(p, marker, s)[..k]
    ensures k <= |s| && ReplaceAll(p, marker, s)[..k] == s[..k]
    decreases |s|
  {
    if k > 0 {
      var n := MatchAtStart(p, s);
      var out := ReplaceAll(p, marker, s);
      assert out[0] != '[' by {
        assert out[0] == out[..k][0];
        assert out[..k][0] in out[..k];
      }
      if n.Some? && 0 < n.value <= |s| {
        assert false;
      } else {
        var rest := ReplaceAll(p, marker, s[1..]);
        assert out[..k] == [s[0]] + rest[..k - 1];
        PlainPrefixIsOriginal(p, marker, s[1..], k - 1);
        assert s[..k] == [s[0]] + s[1..][..k - 1];
      }
    }
  }

  /** An occurrence in a concatenation whose left part ends in a bracket lies in one of the parts. */
  lemma OccursInOnePart(p: Pattern, marker: string, rest: string)
    requires BracketFree(p) && Bracketed(marker)
    requires !Occurs(p, marker) && !Occurs(p, rest)
    ensures !Occurs(p, marker + rest)
  {
    var all := marker + rest;
    forall i, j | 0 <= i <= j <= |all| ensures !Describes(p, all[i..j]) {
      if j <= |marker| {
        assert all[i..j] == marker[i..j];
      } else if i >= |marker| {
        assert all[i..j] == rest[i - |marker|..j - |marker|];
      } else {
        assert all[i..j][|marker| - 1 - i] == ']';
      }
    }
  }

  lemma OccursInTail(p: Pattern, c: char, rest: string)
    requires !Occurs(p, rest)
    requires forall k :: 0 <= k <= |rest| + 1 ==> !Describes(p, ([c] + rest)[..k])
    ensures !Occurs(p, [c] + rest)
  {
    var all := [c] + rest;
    forall i, j | 0 <= i <= j <= |all| ensures !Describes(p, all[i..j]) {
      if i == 0 {
        assert all[i..j] == all[..j];
      } else {
        assert all[i..j] == rest[i - 1..j - 1];
      }
    }
  }

  lemma OccursLater(p: Pattern, s: string, n: nat)
    requires n <= |s| && !Occurs(p, s)
    ensures !Occurs(p, s[n..])
  {
    forall i, j | 0 <= i <= j <= |s[n..]| ensures !Describes(p, s[n..][i..j]) {
      assert s[n..][i..j] == s[n + i..n + j];
    }
  }

  /**
   * Replacing `q` everywhere leaves no occurrence of `p`, when `p` is `q` itself or did not occur
   * before, and the marker holds no occurrence of `p` either.
   */
  lemma {:induction false} NothingRemains(p: Pattern, q: Pattern, marker: string, s: string)
    requires BracketFree(p) && Bracketed(marker) && !Occurs(p, marker)
    requires p == q || !Occurs(p, s)
    ensures !Occurs(p, ReplaceAll(q, marker, s))
    decreases |s|
  {
    if s != [] {
      var n := MatchAtStart(q, s);
      if n.Some? && 0 < n.value <= |s| {
        if p != q {
          OccursLater(p, s, n.value);
        }
        NothingRemains(p, q, marker, s[n.value..]);
        OccursInOnePart(p, marker, ReplaceAll(q, marker, s[n.value..]));
      } else {
        if p != q {
          OccursLater(p, s, 1);
        }
        NothingRemains(p, q, marker, s[1..]);
        var out := [s[0]] + ReplaceAll(q, marker, s[1..]);
        forall k | 0 <= k <= |out| ensures !Describes(p, out[..k]) {
          if Describes(p, out[..k]) {
            PlainPrefixIsOriginal(q, marker, s, k);
            assert s[..k] == s[0..k];
            MatchesExactlyTheLanguage(q, s);
          }
        }
        OccursInTail(p, s[0], ReplaceAll(q, marker, s[1..]));
      }
    }
  }

  /** Where the pattern does not occur, replacement changes nothing. */
  lemma {:induction false} NothingToReplace(p: Pattern, marker: string, s: string)
    requires !Occurs(p, s)
    ensures ReplaceAll(p, marker, s) == s
    decreases |s|
  {
    if s != [] {
      MatchesExactlyTheLanguage(p, s);
      forall k | 0 <= k <= |s| ensures !Describes(p, s[..k]) {
        assert s[..k] == s[0..k];
      }
      OccursLater(p, s, 1);
      NothingToReplace(p, marker, s[1..]);
      assert [s[0]] + s[1..] == s;
    }
  }
}
