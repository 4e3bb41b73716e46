/** The string operations of Python the modelled code relies on: stripping, cutting, first occurrences. */
module PyText {
  import opened Wrappers

  /** `str.isspace` for one character. */
  predicate IsSpace(c: char) {
    || '\t' <= c <= '\r' || '\U{1C}' <= c <= ' '
    || c == '\U{85}' || c == '\U{A0}' || c == '\U{1680}' || '\U{2000}' <= c <= '\U{200A}'
    || c == '\U{2028}' || c == '\U{2029}' || c == '\U{202F}' || c == '\U{205F}' || c == '\U{3000}'
  }

  /** `str.lstrip()` */
  function StripLeft(s: string): string {
    if s != [] && IsSpace(s[0]) then StripLeft(s[1..]) else s
  }

  /** `str.rstrip()` */
  function StripRight(s: string): string {
    if s != [] && IsSpace(s[|s| - 1]) then StripRight(s[..|s| - 1]) else s
  }

  /** `str.strip()` */
  function Strip(s: string): string {
    StripRight(StripLeft(s))
  }

  lemma {:induction false} StripLeftFacts(s: string)
    ensures var r := StripLeft(s);
      && |r| <= |s| && r == s[|s| - |r|..] && (r != [] ==> !IsSpace(r[0]))
      && forall i :: 0 <= i < |s| - |r| ==> IsSpace(s[i])
  {
    if s != [] && IsSpace(s[0]) {
      StripLeftFacts(s[1..]);
      assert forall i :: 0 < i < |s| ==> s[i] == s[1..][i - 1];
    }
  }

  lemma {:induction false} StripRightFacts(s: string)
    ensures var r := StripRight(s);
      && r <= s && (r != [] ==> !IsSpace(r[|r| - 1]))
      && forall i :: |r| <= i < |s| ==> IsSpace(s[i])
  {
    if s != [] && IsSpace(s[|s| - 1]) {
      StripRightFacts(s[..|s| - 1]);
      assert forall i :: 0 <= i < |s| - 1 ==> s[i] == s[..|s| - 1][i];
    }
  }

  function Take(s: string, n: nat): string {
    if |s| <= n then s else s[..n]
  }

  function Decimal(n: nat): string {
    if n < 10 then [['0', '1', '2', '3', '4', '5', '6', '7', '8', '9'][n]] else Decimal(n / 10) + Decimal(n % 10)
  }

  predicate At(s: string, sub: string, i: int) {
    0 <= i <= |s| - |sub| && s[i..i + |sub|] == sub
  }

  /** `s.find(sub)`, None for -1. */
  function Find(s: string, sub: string): (r: Option<nat>)
    ensures r.Some? ==> r.value + |sub| <= |s|
  {
    FindFrom(s, sub, 0)
  }

  function FindFrom(s: string, sub: string, i: nat): (r: Option<nat>)
    ensures r.Some? ==> i <= r.value && r.value + |sub| <= |s|
    decreases |s| - i
  {
    if |s| < i + |sub| then None
    else if s[i..i + |sub|] == sub then Some(i)
    else FindFrom(s, sub, i + 1)
  }

  lemma {:induction false} FindFromFacts(s: string, sub: string, i: nat)
    ensures var r := FindFrom(s, sub, i);
      && (r.Some? ==> At(s, sub, r.value) && forall k :: i <= k < r.value ==> !At(s, sub, k))
      && (r.None? ==> forall k :: i <= k ==> !At(s, sub, k))
    decreases |s| - i
  {
    if i + |sub| <= |s| && s[i..i + |sub|] != sub {
      FindFromFacts(s, sub, i + 1);
    }
  }

  /** The first occurrence, or none at all. */
  lemma FindFacts(s: string, sub: string)
    ensures var r := Find(s, sub);
      r.Some? ==> At(s, sub, r.value) && forall i :: 0 <= i < r.value ==> !At(s, sub, i)
    ensures Find(s, sub).None? ==> forall i :: !At(s, sub, i)
  {
    FindFromFacts(s, sub, 0);
  }

  /** An occurrence with none before it is the one found. */
  lemma FindIs(s: string, sub: string, p: nat)
    requires At(s, sub, p) && forall i :: 0 <= i < p ==> !At(s, sub, i)
    ensures Find(s, sub) == Some(p)
  {
    FindFacts(s, sub);
  }

  lemma FindNothing(s: string, sub: string)
    requires forall i :: 0 <= i <= |s| - |sub| ==> !At(s, sub, i)
    ensures Find(s, sub) == None
  {
    FindFacts(s, sub);
  }
}
