/** Text cut at every occurrence of one character. */
module Splits {
  /** `s.split(c)` */
  function Split(s: string, c: char): (r: seq<string>)
    ensures r != []
  {
    if s == "" then [""]
    else
      var rest := Split(s[1..], c);
      if s[0] == c then [""] + rest else [[s[0]] + rest[0]] + rest[1..]
  }

  lemma {:induction false} PiecesHoldNone(s: string, c: char)
    ensures forall k :: 0 <= k < |Split(s, c)| ==> c !in Split(s, c)[k]
  {
    if s != "" { PiecesHoldNone(s[1..], c); }
  }

  lemma {:induction false} SplitFirst(piece: string, c: char, rest: string)
    requires c !in piece
    ensures Split(piece + ([c] + rest), c) == [piece] + Split(rest, c)
    ensures Split(piece, c) == [piece]
  {
    if piece == "" {
      assert piece + ([c] + rest) == [c] + rest;
      assert ([c] + rest)[1..] == rest;
    } else {
      SplitFirst(piece[1..], c, rest);
      assert (piece + ([c] + rest))[1..] == piece[1..] + ([c] + rest);
      assert [piece[0]] + piece[1..] == piece;
    }
  }

  /** A text is one piece, or its first piece, the character and the rest. */
  lemma {:induction false} SplitCases(s: string, c: char) returns (first: string, rest: string)
    ensures c !in first
    ensures if c in s then s == first + ([c] + rest) && Split(s, c) == [first] + Split(rest, c) && |rest| < |s|
            else first == s && rest == "" && Split(s, c) == [s]
  {
    if s == "" {
      first, rest := "", "";
    } else if s[0] == c {
      first, rest := "", s[1..];
      assert s == [c] + rest;
    } else {
      first, rest := SplitCases(s[1..], c);
      assert s == [s[0]] + s[1..];
      first := [s[0]] + first;
    }
  }

  /** Where a piece stands in the text. */
  lemma {:induction false} PieceIsInside(s: string, c: char, k: nat) returns (at: nat)
    requires k < |Split(s, c)|
    ensures at + |Split(s, c)[k]| <= |s| && s[at..at + |Split(s, c)[k]|] == Split(s, c)[k]
    decreases |s|
  {
    var first, rest := SplitCases(s, c);
    if k == 0 { return 0; }
    var i := PieceIsInside(rest, c, k - 1);
    at := |first| + 1 + i;
    Shifted(first + [c], rest, i, |Split(s, c)[k]|);
    assert s == first + [c] + rest;
  }

  lemma Shifted(a: string, b: string, i: nat, n: nat)
    requires i + n <= |b|
    ensures (a + b)[|a| + i..|a| + i + n] == b[i..i + n]
  {
  }
}
