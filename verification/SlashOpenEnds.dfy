/** Lines that end inside a token. */
module SlashOpenEnds {
  import opened Wrappers
  import opened SlashTokens
  import opened SlashProofs

  /** How the last token can break off: not at all, behind a backslash, or within a group that is never closed,
      between double quotes also behind a backslash. */
  datatype Break = Whole | Backslash | InDouble(raw: string) | InDoubleBackslash(raw: string) | InSingle(body: string)

  predicate BreakOk(b: Break) {
    match b
    case Whole => true
    case Backslash => true
    case InDouble(raw) => RawOk(raw)
    case InDoubleBackslash(raw) => RawOk(raw)
    case InSingle(body) => '\'' !in body
  }

  function Broken(b: Break): string {
    match b
    case Whole => ""
    case Backslash => "\\"
    case InDouble(raw) => ['"'] + raw
    case InDoubleBackslash(raw) => ['"'] + (raw + ['\\'])
    case InSingle(body) => ['\''] + body
  }

  /** A group reads to the end of the line, and a last backslash stands for itself. */
  function Left(b: Break): string {
    match b
    case Whole => ""
    case Backslash => "\\"
    case InDouble(raw) => Unescaped(raw)
    case InDoubleBackslash(raw) => Unescaped(raw) + ['\\']
    case InSingle(body) => body
  }

  // ---- reading a broken end ---------------------------------------------------

  lemma Regroup(a: string, b: string, c: string)
    ensures (a + b) + c == a + (b + c)
  {
  }

  lemma {:induction false} ScanOpenDouble(raw: string, last: string)
    requires RawOk(raw) && (last == "" || last == "\\")
    ensures Scan(raw + last, Some('"')) == Prefixed(Unescaped(raw), Scanned(last, ""))
    decreases |raw|
  {
    var s := raw + last;
    if raw == "" {
      assert s == last;
      if last != "" { assert s[1..] == ""; }
    } else if raw[0] == '\\' {
      assert s[0] == '\\' && s[1] == raw[1] && s[2..] == raw[2..] + last;
      ScanOpenDouble(raw[2..], last);
      Grow(raw[1], Unescaped(raw[2..]), Scanned(last, ""));
    } else {
      assert s[0] == raw[0] && s[1..] == raw[1..] + last;
      ScanOpenDouble(raw[1..], last);
      Grow(raw[0], Unescaped(raw[1..]), Scanned(last, ""));
    }
  }

  lemma {:induction false} ScanOpenSingle(body: string)
    requires '\'' !in body
    ensures Scan(body, Some('\'')) == Scanned(body, "")
  {
    if body != "" {
      ScanOpenSingle(body[1..]);
      assert body == [body[0]] + body[1..];
    }
  }

  lemma {:induction false} ScanBreak(b: Break)
    requires BreakOk(b)
    ensures Scan(Broken(b), None) == Scanned(Left(b), "")
  {
    match b
    case Whole =>
    case Backslash => assert "\\"[1..] == "";
    case InDouble(raw) =>
      assert Broken(b)[1..] == raw && raw + "" == raw && Unescaped(raw) + "" == Unescaped(raw);
      ScanOpenDouble(raw, "");
    case InDoubleBackslash(raw) =>
      assert Broken(b)[1..] == raw + "\\";
      ScanOpenDouble(raw, "\\");
    case InSingle(body) =>
      assert Broken(b)[1..] == body;
      ScanOpenSingle(body);
  }

  lemma {:induction false} ScanToBreak(ps: seq<Piece>, b: Break)
    requires PiecesOk(ps) && BreakOk(b)
    ensures Scan(Spelled(ps) + Broken(b), None) == Scanned(Meaning(ps) + Left(b), "")
  {
    ScanBreak(b);
    if ps == [] {
      assert Spelled(ps) + Broken(b) == Broken(b) && Meaning(ps) + Left(b) == Left(b);
    } else {
      ScanToBreak(ps[1..], b);
      ScanPieceFirst(ps[0], Spelled(ps[1..]), Broken(b), Meaning(ps[1..]), Left(b));
    }
  }

  lemma {:induction false} ScanPieceFirst(p: Piece, later: string, broken: string, meaning: string, left: string)
    requires PieceOk(p) && Scan(later + broken, None) == Scanned(meaning + left, "")
    ensures Scan(Written(p) + later + broken, None) == Scanned(Meant(p) + meaning + left, "")
  {
    ScanPiece(p, later + broken);
    Regroup(Written(p), later, broken);
    Regroup(Meant(p), meaning, left);
  }

  // ---- finding the pieces of any line -----------------------------------------

  datatype Group = Group(inner: string, closed: bool, backslash: bool, rest: string)

  /** What follows an opening double quote: the group, and whether and how it is closed. */
  predicate SplitsDouble(s: string, g: Group) {
    && RawOk(g.inner) && (g.closed ==> !g.backslash) && (!g.closed ==> g.rest == "")
    && s == g.inner + (if g.closed then "\"" else if g.backslash then "\\" else "") + g.rest
  }

  lemma {:induction false} SplitDouble(s: string) returns (g: Group)
    ensures SplitsDouble(s, g) && |g.rest| <= |s|
    decreases |s|
  {
    if s == "" {
      g := Group("", false, false, "");
    } else if s[0] == '"' {
      g := Group("", true, false, s[1..]);
    } else if s == "\\" {
      g := Group("", false, true, "");
    } else {
      var n := if s[0] == '\\' then 2 else 1;
      var later := SplitDouble(s[n..]);
      g := later.(inner := s[..n] + later.inner);
      assert g.inner[n..] == later.inner;
      assert s == s[..n] + s[n..];
    }
  }

  predicate SplitsSingle(s: string, g: Group) {
    && '\'' !in g.inner && !g.backslash && (!g.closed ==> g.rest == "")
    && s == g.inner + (if g.closed then "'" else "") + g.rest
  }

  lemma {:induction false} SplitSingle(s: string) returns (g: Group)
    ensures SplitsSingle(s, g) && |g.rest| <= |s|
  {
    if s == "" {
      g := Group("", false, false, "");
    } else if s[0] == '\'' {
      g := Group("", true, false, s[1..]);
    } else {
      var later := SplitSingle(s[1..]);
      g := later.(inner := [s[0]] + later.inner);
    }
  }

  /** The text is these pieces, this break, and the rest, which a blank begins when nothing is broken. */
  predicate SplitsToken(s: string, ps: seq<Piece>, b: Break, rest: string) {
    && PiecesOk(ps) && BreakOk(b) && (if b.Whole? then Ends(rest) else rest == "")
    && s == Spelled(ps) + (Broken(b) + rest)
  }

  lemma {:induction false} OnePieceMore(p: Piece, later: string, ps: seq<Piece>, b: Break, rest: string)
    requires PieceOk(p) && SplitsToken(later, ps, b, rest)
    ensures SplitsToken(Written(p) + later, [p] + ps, b, rest)
  {
    assert ([p] + ps)[1..] == ps;
    Regroup(Written(p), Spelled(ps), Broken(b) + rest);
  }

  lemma NoPieces(s: string, b: Break, rest: string)
    requires BreakOk(b) && (if b.Whole? then Ends(rest) else rest == "") && s == Broken(b) + rest
    ensures SplitsToken(s, [], b, rest)
  {
    assert "" + s == s;
  }

  lemma {:induction false} SplitToken(s: string) returns (ps: seq<Piece>, b: Break, rest: string)
    ensures SplitsToken(s, ps, b, rest) && |rest| <= |s|
    ensures s != "" && !IsBlank(s[0]) ==> (ps != [] || !b.Whole?) && |rest| < |s|
    decreases |s|, 1
  {
    if s == "" || IsBlank(s[0]) {
      ps, b, rest := [], Whole, s;
      NoPieces(s, b, rest);
    } else if s == "\\" {
      ps, b, rest := [], Backslash, "";
      NoPieces(s, b, rest);
    } else if s[0] == '"' {
      ps, b, rest := SplitAtDouble(s);
    } else if s[0] == '\'' {
      ps, b, rest := SplitAtSingle(s);
    } else {
      var n := if s[0] == '\\' then 2 else 1;
      var p := if s[0] == '\\' then Escaped(s[1]) else Plain(s[0]);
      var later;
      later, b, rest := SplitToken(s[n..]);
      OnePieceMore(p, s[n..], later, b, rest);
      assert s == Written(p) + s[n..];
      ps := [p] + later;
    }
  }

  function OpenDouble(g: Group): Break { if g.backslash then InDoubleBackslash(g.inner) else InDouble(g.inner) }

  lemma DoubleText(s: string, g: Group)
    requires SplitsDouble(s, g)
    ensures g.closed ==> ['"'] + s == Written(Double(g.inner)) + g.rest
    ensures !g.closed ==> ['"'] + s == Broken(OpenDouble(g)) + ""
  {
    if g.closed {
      assert s == g.inner + ['"'] + g.rest;
    } else {
      assert s == if g.backslash then g.inner + ['\\'] else g.inner;
    }
  }

  lemma SingleText(s: string, g: Group)
    requires SplitsSingle(s, g)
    ensures g.closed ==> ['\''] + s == Written(Single(g.inner)) + g.rest
    ensures !g.closed ==> ['\''] + s == Broken(InSingle(g.inner)) + ""
  {
    if g.closed {
      assert s == g.inner + ['\''] + g.rest;
    } else {
      assert s == g.inner;
    }
  }

  lemma {:induction false} SplitAtDouble(s: string) returns (ps: seq<Piece>, b: Break, rest: string)
    requires s != "" && s[0] == '"'
    ensures SplitsToken(s, ps, b, rest) && |rest| < |s| && (ps != [] || !b.Whole?)
    decreases |s|, 0
  {
    assert s == ['"'] + s[1..];
    var g := SplitDouble(s[1..]);
    DoubleText(s[1..], g);
    ps, b, rest := SplitAtQuote(s, g, Double(g.inner), OpenDouble(g));
  }

  lemma {:induction false} SplitAtSingle(s: string) returns (ps: seq<Piece>, b: Break, rest: string)
    requires s != "" && s[0] == '\''
    ensures SplitsToken(s, ps, b, rest) && |rest| < |s| && (ps != [] || !b.Whole?)
    decreases |s|, 0
  {
    assert s == ['\''] + s[1..];
    var g := SplitSingle(s[1..]);
    SingleText(s[1..], g);
    ps, b, rest := SplitAtQuote(s, g, Single(g.inner), InSingle(g.inner));
  }

  /** A group in front, closed or not. */
  lemma {:induction false} SplitAtQuote(s: string, g: Group, p: Piece, open: Break)
      returns (ps: seq<Piece>, b: Break, rest: string)
    requires |g.rest| < |s| && (if g.closed then PieceOk(p) else BreakOk(open) && !open.Whole?)
    requires if g.closed then s == Written(p) + g.rest else s == Broken(open) + ""
    ensures SplitsToken(s, ps, b, rest) && |rest| < |s| && (ps != [] || !b.Whole?)
    decreases |g.rest|, 2
  {
    if g.closed {
      var later;
      later, b, rest := SplitToken(g.rest);
      OnePieceMore(p, g.rest, later, b, rest);
      ps := [p] + later;
    } else {
      ps, b, rest := [], open, "";
      NoPieces(s, b, rest);
    }
  }

  // ---- whole lines ------------------------------------------------------------

  /** The end of a line: blanks, and behind them a token that breaks off, or none. */
  datatype Tail = Tail(gap: string, pieces: seq<Piece>, end: Break)

  function TailText(t: Tail): string { t.gap + (Spelled(t.pieces) + Broken(t.end)) }

  function TailMeaning(t: Tail): seq<string> {
    if t.end.Whole? then [] else [Meaning(t.pieces) + Left(t.end)]
  }

  predicate TailOk(t: Tail) {
    AllBlank(t.gap) && PiecesOk(t.pieces) && BreakOk(t.end) && (t.end.Whole? ==> t.pieces == [])
  }

  predicate Spells(ws: seq<Word>, t: Tail, line: string) {
    && WordsOk(ws) && TailOk(t) && (ws != [] && !t.end.Whole? ==> t.gap != "") && line == Line(ws, TailText(t))
  }

  predicate Says(ws: seq<Word>, t: Tail, line: string, tokens: seq<string>) {
    Spells(ws, t, line) && tokens == Meanings(ws) + TailMeaning(t)
  }

  lemma {:induction false} TailReads(t: Tail)
    requires TailOk(t)
    ensures Tokens(TailText(t)) == TailMeaning(t)
  {
    var s := Spelled(t.pieces) + Broken(t.end);
    SkipGap(t.gap, s);
    if t.end.Whole? {
      assert s == "";
    } else {
      ScanToBreak(t.pieces, t.end);
      BreakStarts(t.pieces, t.end);
    }
  }

  lemma BreakStarts(ps: seq<Piece>, b: Break)
    requires PiecesOk(ps) && !b.Whole?
    ensures var s := Spelled(ps) + Broken(b); s != "" && !IsBlank(s[0])
  {
    if ps != [] {
      assert PieceOk(ps[0]);
      assert (Spelled(ps) + Broken(b))[0] == Written(ps[0])[0];
    }
  }

  lemma RegroupTokens(a: seq<string>, b: seq<string>, c: seq<string>)
    ensures (a + b) + c == a + (b + c) && [] + c == c
  {
  }

  /** Words in front are read one by one. */
  lemma {:induction false} WordsThenRest(ws: seq<Word>, rest: string)
    requires WordsOk(ws) && (ws != [] ==> Ends(rest))
    ensures Tokens(Line(ws, rest)) == Meanings(ws) + Tokens(rest)
    decreases |ws|
  {
    if ws == [] {
      RegroupTokens([], [], Tokens(rest));
    } else {
      var gap, ps, later := ws[0].gap, ws[0].pieces, Line(ws[1..], rest);
      LineEnds(ws, rest);
      WordsThenRest(ws[1..], rest);
      FirstWord(gap, ps, later);
      RegroupTokens([Meaning(ps)], Meanings(ws[1..]), Tokens(rest));
    }
  }

  lemma LineEnds(ws: seq<Word>, rest: string)
    requires ws != [] && WordsOk(ws) && Ends(rest)
    ensures WordsOk(ws[1..]) && Ends(Line(ws[1..], rest))
  {
    if |ws| > 1 {
      assert ws[1..][0] == ws[1];
      assert Line(ws[1..], rest)[0] == ws[1].gap[0];
    }
  }

  lemma {:induction false} FirstWord(gap: string, ps: seq<Piece>, later: string)
    requires AllBlank(gap) && ps != [] && PiecesOk(ps) && Ends(later)
    ensures Tokens(gap + Spelled(ps) + later) == [Meaning(ps)] + Tokens(later)
  {
    var s := Spelled(ps) + later;
    Regroup(gap, Spelled(ps), later);
    SkipGap(gap, s);
    assert PieceOk(ps[0]) && s[0] == Written(ps[0])[0];
    assert SkipBlanks(s) == s;
    ScanSpelling(ps, later);
  }

  /** A spelled line reads as it says, whether or not its last token is complete. */
  lemma {:induction false} SpelledReads(ws: seq<Word>, t: Tail, line: string)
    requires Spells(ws, t, line)
    ensures Tokens(line) == Meanings(ws) + TailMeaning(t)
  {
    TailReads(t);
    if ws != [] {
      assert Ends(TailText(t)) by {
        if t.gap != "" { assert TailText(t)[0] == t.gap[0]; } else { assert TailText(t) == ""; }
      }
    }
    WordsThenRest(ws, TailText(t));
  }

  // ---- every line -------------------------------------------------------------

  lemma {:induction false} SplitGap(s: string) returns (gap: string)
    ensures s == gap + SkipBlanks(s) && AllBlank(gap)
  {
    if s != "" && IsBlank(s[0]) {
      var later := SplitGap(s[1..]);
      gap := [s[0]] + later;
    } else {
      gap := "";
    }
  }

  lemma {:induction false} SplitLine(line: string) returns (ws: seq<Word>, t: Tail)
    ensures Spells(ws, t, line)
    ensures line != "" && IsBlank(line[0]) && ws != [] ==> ws[0].gap != ""
    ensures line != "" && IsBlank(line[0]) && ws == [] ==> t.gap != ""
    decreases |line|
  {
    var gap := SplitGap(line);
    var s := SkipBlanks(line);
    if s == "" {
      ws, t := [], Tail(gap, [], Whole);
      assert TailText(t) == line;
    } else {
      var ps, b, rest := SplitToken(s);
      if b.Whole? {
        var later;
        later, t := SplitLine(rest);
        ws := [Word(gap, ps)] + later;
        assert "" + rest == rest;
        WordInFront(gap, ps, later, t, rest);
        Regroup(gap, Spelled(ps), rest);
      } else {
        ws, t := [], Tail(gap, ps, b);
        assert Broken(b) + "" == Broken(b);
      }
    }
  }

  lemma {:induction false} WordInFront(gap: string, ps: seq<Piece>, later: seq<Word>, t: Tail, rest: string)
    requires AllBlank(gap) && PiecesOk(ps) && ps != [] && Spells(later, t, rest)
    requires later != [] ==> later[0].gap != ""
    requires later == [] && !t.end.Whole? ==> t.gap != ""
    ensures Spells([Word(gap, ps)] + later, t, gap + Spelled(ps) + rest)
  {
    assert ([Word(gap, ps)] + later)[1..] == later;
  }

  /** The tokens of any line are those that a spelling of it says; every line has one. */
  lemma {:induction false} TokensExactly(line: string, tokens: seq<string>)
    ensures Tokens(line) == tokens <==> exists ws, t :: Says(ws, t, line, tokens)
  {
    var ws, t := SplitLine(line);
    SpelledReads(ws, t, line);
    assert Says(ws, t, line, Tokens(line));
    if a, b :| Says(a, b, line, tokens) { SpelledReads(a, b, line); }
  }
}
