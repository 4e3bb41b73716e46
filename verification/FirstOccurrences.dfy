/** Lists in the order of another. */
module FirstOccurrences {
  import opened Dicts

  /** Where x first occurs; the length when it does not. */
  function FirstAt<T(==)>(s: seq<T>, x: T): (i: nat)
    ensures i <= |s|
    ensures x in s <==> i < |s|
    ensures i < |s| ==> s[i] == x
  {
    if s == [] || s[0] == x then 0 else 1 + FirstAt(s[1..], x)
  }

  /** What is in r follows the order of first occurrence in s. */
  predicate InOrderOf<T(==)>(s: seq<T>, r: seq<T>) {
    forall i, j :: 0 <= i < j < |r| ==> FirstAt(s, r[i]) < FirstAt(s, r[j])
  }

  /** r holds what s holds, each once, in the order of first occurrence. */
  ghost predicate KeepsFirsts(s: seq<string>, r: seq<string>) {
    InOrderOf(s, r) && forall x :: x in r <==> x in s
  }

  /** r holds what s holds but x, in the order of s. */
  ghost predicate LosesOnly<T(!new)>(s: seq<T>, r: seq<T>, x: T) {
    InOrderOf(s, r) && forall y :: y in r <==> y in s && y != x
  }

  lemma {:induction false} FirstAtAppend<T>(s: seq<T>, y: T, x: T)
    ensures FirstAt(s + [y], x) == if x in s then FirstAt(s, x) else if x == y then |s| else |s| + 1
  {
    if s == [] {
      assert s + [y] == [y] && [y][1..] == [];
    } else {
      assert (s + [y])[1..] == s[1..] + [y];
      if s[0] != x { FirstAtAppend(s[1..], y, x); }
    }
  }

  /** One more element at both ends, or at the end of the longer list alone, keeps the order. */
  lemma {:induction false} OrderGrows<T>(s: seq<T>, r: seq<T>, y: T)
    requires InOrderOf(s, r) && forall x :: x in r ==> x in s
    ensures InOrderOf(s + [y], r)
    ensures y !in s ==> InOrderOf(s + [y], r + [y])
  {
    forall i | 0 <= i < |r| ensures FirstAt(s + [y], r[i]) == FirstAt(s, r[i]) < |s| {
      assert r[i] in r;
      FirstAtAppend(s, y, r[i]);
    }
    if y !in s {
      FirstAtAppend(s, y, y);
      var q := r + [y];
      forall i, j | 0 <= i < j < |q| ensures FirstAt(s + [y], q[i]) < FirstAt(s + [y], q[j]) {
        assert q[i] == r[i];
        assert j < |r| ==> q[j] == r[j];
      }
    }
  }

  /** Dropping repeats keeps the first occurrences. */
  lemma {:induction false} DedupKeepsFirsts(s: seq<string>)
    ensures KeepsFirsts(s, Dedup(s))
  {
    DedupFacts(s);
    if s != [] {
      var init, last := s[..|s| - 1], s[|s| - 1];
      assert s == init + [last];
      DedupKeepsFirsts(init);
      OrderGrows(init, Dedup(init), last);
    }
  }

  /** A list without repeats stays as it is, and a new name goes to its end. */
  lemma {:induction false} OneMoreName(s: seq<string>, x: string)
    requires NoDup(s)
    ensures Dedup(s + [x]) == if x in s then s else s + [x]
  {
    DedupFacts(s);
    assert (s + [x])[..|s|] == s;
  }
}
