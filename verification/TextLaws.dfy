/** Stripping, cutting, counting. */
module TextLaws {
  import opened PyText

  predicate AllSpace(s: string) { forall i :: 0 <= i < |s| ==> IsSpace(s[i]) }

  /** Neither end is a space. */
  predicate Trim(r: string) { r != "" ==> !IsSpace(r[0]) && !IsSpace(r[|r| - 1]) }

  predicate SplitsAround(s: string, a: string, r: string, b: string) {
    s == a + r + b && AllSpace(a) && AllSpace(b) && Trim(r)
  }

  /** r is s without the spaces at its ends. */
  ghost predicate StripsTo(s: string, r: string) {
    exists a, b :: SplitsAround(s, a, r, b)
  }

  /** r is s, or the first n characters of a longer s. */
  predicate IsCut(s: string, r: string, n: nat) {
    r <= s && |r| <= n && (r == s || |r| == n)
  }

  lemma {:induction false} LeftSplits(s: string) returns (a: string)
    ensures s == a + StripLeft(s) && AllSpace(a)
    ensures StripLeft(s) != "" ==> !IsSpace(StripLeft(s)[0])
  {
    StripLeftFacts(s);
    a := s[..|s| - |StripLeft(s)|];
  }

  lemma {:induction false} RightSplits(s: string) returns (b: string)
    ensures s == StripRight(s) + b && AllSpace(b)
    ensures var r := StripRight(s); r != "" ==> !IsSpace(r[|r| - 1]) && r[0] == s[0]
  {
    StripRightFacts(s);
    b := s[|StripRight(s)|..];
  }

  lemma Joins(s: string, a: string, left: string, r: string, b: string)
    requires s == a + left && left == r + b
    ensures s == a + r + b
  {
  }

  lemma {:induction false} StripSplits(s: string)
    ensures StripsTo(s, Strip(s))
  {
    var a := LeftSplits(s);
    var b := RightSplits(StripLeft(s));
    Joins(s, a, StripLeft(s), Strip(s), b);
    assert SplitsAround(s, a, Strip(s), b);
  }

  lemma {:induction false} SplitIsOne(s: string, a: string, r: string, b: string, a': string, r': string, b': string)
    requires SplitsAround(s, a, r, b) && SplitsAround(s, a', r', b')
    ensures r == r'
  {
    FirstIsNoLater(s, a, r, b, a', r', b');
    FirstIsNoLater(s, a', r', b', a, r, b);
    if r != "" && r' != "" {
      assert r == s[|a|..|a| + |r|] && r' == s[|a'|..|a'| + |r'|];
    }
  }

  lemma {:induction false} FirstIsNoLater(s: string, a: string, r: string, b: string, a': string, r': string,
                                          b': string)
    requires SplitsAround(s, a, r, b) && SplitsAround(s, a', r', b')
    ensures r != "" ==> r' != "" && |a'| <= |a| && |a| + |r| <= |a'| + |r'|
  {
    if r != "" {
      var first, last := |a|, |a| + |r| - 1;
      assert s[first] == r[0] && s[last] == r[|r| - 1];
      assert forall i :: 0 <= i < |a'| ==> s[i] == a'[i];
      assert forall i :: |a'| + |r'| <= i < |s| ==> s[i] == b'[i - |a'| - |r'|];
    }
  }

  /** `strip` takes the spaces off both ends and nothing else. */
  lemma {:induction false} StripsExactly(s: string, r: string)
    ensures Strip(s) == r <==> StripsTo(s, r)
  {
    StripSplits(s);
    var a, b :| SplitsAround(s, a, Strip(s), b);
    if a', b' :| SplitsAround(s, a', r, b') { SplitIsOne(s, a, Strip(s), b, a', r, b'); }
  }

  lemma BlankExactly(s: string)
    ensures Strip(s) == "" <==> AllSpace(s)
  {
    StripsExactly(s, "");
    if AllSpace(s) { assert SplitsAround(s, s, "", ""); }
  }

  lemma CutsExactly(s: string, r: string, n: nat)
    ensures Take(s, n) == r <==> IsCut(s, r, n)
  {
  }

  // ---- decimals ---------------------------------------------------------------

  function ValueOf(s: string): int {
    if s == "" then 0 else 10 * ValueOf(s[..|s| - 1]) + (s[|s| - 1] as int - '0' as int)
  }

  /** Digits alone, no zero in front, and the value they have. */
  predicate Spells(s: string, n: nat) {
    && s != "" && (forall i :: 0 <= i < |s| ==> '0' <= s[i] <= '9')
    && (|s| > 1 ==> s[0] != '0') && ValueOf(s) == n
  }

  /** `str(n)` is the decimal notation of n. */
  lemma {:induction false} DecimalSpells(n: nat)
    ensures Spells(Decimal(n), n)
    ensures n > 0 ==> Decimal(n)[0] != '0'
  {
    if n >= 10 {
      DecimalSpells(n / 10);
      DecimalSpells(n % 10);
      var head, last := Decimal(n / 10), Decimal(n % 10);
      assert |last| == 1;
      assert Decimal(n)[..|head|] == head && Decimal(n)[|head|] == last[0];
      assert ValueOf(last) == 10 * ValueOf(last[..0]) + (last[0] as int - '0' as int);
    } else {
      assert ValueOf(Decimal(n)[..0]) == 0;
    }
  }
}
