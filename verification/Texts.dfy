/** What the shared string operations do, character by character. */
module Texts {
  import opened Wrappers

  predicate AllSpace(s: string) {
    forall i :: 0 <= i < |s| ==> IsSpace(s[i])
  }

  /** `t` is `s` without the white space around it: all of it, and nothing else. */
  ghost predicate TrimmedTo(s: string, t: string) {
    && (exists front, back :: s == front + t + back && AllSpace(front) && AllSpace(back))
    && (t != "" ==> !IsSpace(t[0]) && !IsSpace(t[|t| - 1]))
  }

  lemma {:induction false} TrimStartSplits(s: string) returns (front: string)
    ensures s == front + TrimStart(s) && AllSpace(front)
    ensures TrimStart(s) != "" ==> !IsSpace(TrimStart(s)[0])
  {
    if s != [] && IsSpace(s[0]) {
      front := TrimStartSplits(s[1..]);
      front := [s[0]] + front;
    } else {
      front := "";
    }
  }

  lemma {:induction false} TrimEndSplits(s: string) returns (back: string)
    ensures s == TrimEnd(s) + back && AllSpace(back)
    ensures TrimEnd(s) != "" ==> !IsSpace(TrimEnd(s)[|TrimEnd(s)| - 1])
  {
    if s != [] && IsSpace(s[|s| - 1]) {
      back := TrimEndSplits(s[..|s| - 1]);
      back := back + [s[|s| - 1]];
    } else {
      back := "";
    }
  }

  /** `trim` takes away exactly the white space at both ends. */
  lemma TrimIsExact(s: string)
    ensures TrimmedTo(s, TrimEnd(TrimStart(s)))
  {
    var front := TrimStartSplits(s);
    var back := TrimEndSplits(TrimStart(s));
    var t := TrimEnd(TrimStart(s));
    assert s == front + t + back;
    assert t != "" ==> t[0] == TrimStart(s)[0];
  }

  /** There is only one such text. */
  lemma TrimmedToOne(s: string, t: string, u: string)
    requires TrimmedTo(s, t) && TrimmedTo(s, u)
    ensures t == u
  {
    var a, b :| s == a + t + b && AllSpace(a) && AllSpace(b);
    var c, d :| s == c + u + d && AllSpace(c) && AllSpace(d);
    SameCut(s, a, t, b, c, u, d);
  }

  lemma SameCut(s: string, a: string, t: string, b: string, c: string, u: string, d: string)
    requires s == a + t + b && AllSpace(a) && AllSpace(b) && s == c + u + d && AllSpace(c) && AllSpace(d)
    requires t != "" ==> !IsSpace(t[0]) && !IsSpace(t[|t| - 1])
    requires u != "" ==> !IsSpace(u[0]) && !IsSpace(u[|u| - 1])
    ensures t == u
  {
    assert t != "" ==> s[|a|] == t[0] && s[|a| + |t| - 1] == t[|t| - 1];
    assert u != "" ==> s[|c|] == u[0] && s[|c| + |u| - 1] == u[|u| - 1];
    SpaceOutside(s, a, t, b);
    SpaceOutside(s, c, u, d);
    assert t == s[|a|..|a| + |t|] && u == s[|c|..|c| + |u|];
  }

  lemma SpaceOutside(s: string, a: string, t: string, b: string)
    requires s == a + t + b && AllSpace(a) && AllSpace(b)
    ensures forall i :: 0 <= i < |s| && !(|a| <= i < |a| + |t|) ==> IsSpace(s[i])
  {
    assert forall i :: 0 <= i < |a| ==> s[i] == a[i];
    assert forall i :: |a| + |t| <= i < |s| ==> s[i] == b[i - |a| - |t|];
  }

  /** Lower-casing turns the letters A to Z into a to z and leaves all else in place. */
  lemma LowerIsExact(s: string, i: nat)
    requires i < |s|
    ensures |Lower(s)| == |s|
    ensures 'A' <= s[i] <= 'Z' ==> 'a' <= Lower(s)[i] <= 'z' && Lower(s)[i] as int - 'a' as int == s[i] as int - 'A' as int
    ensures !('A' <= s[i] <= 'Z') ==> Lower(s)[i] == s[i]
  {
  }
}
