/** Every spelling of tokens reads back as those tokens. */
module SlashProofs {
  import opened Wrappers
  import opened Dicts
  import opened SlashTokens

  // ---- spellings --------------------------------------------------------------

  /** A piece of a written token: a plain or escaped character, or a group between quotes, as it is typed. */
  datatype Piece = Plain(c: char) | Escaped(c: char) | Double(raw: string) | Single(body: string)

  /** Between double quotes: no quote without a backslash, and no backslash at the very end. */
  predicate RawOk(raw: string) {
    raw == "" || (if raw[0] == '\\' then |raw| > 1 && RawOk(raw[2..]) else raw[0] != '"' && RawOk(raw[1..]))
  }

  /** Every backslash goes and the character behind it stays, whatever it is. */
  function Unescaped(raw: string): string {
    if raw == "" then ""
    else if raw[0] == '\\' && |raw| > 1 then [raw[1]] + Unescaped(raw[2..])
    else [raw[0]] + Unescaped(raw[1..])
  }

  predicate PieceOk(p: Piece) {
    match p
    case Plain(c) => !IsBlank(c) && !IsQuote(c) && c != '\\'
    case Escaped(_) => true
    case Double(raw) => RawOk(raw)
    case Single(body) => '\'' !in body
  }

  function Written(p: Piece): string {
    match p
    case Plain(c) => [c]
    case Escaped(c) => ['\\', c]
    case Double(raw) => ['"'] + raw + ['"']
    case Single(body) => ['\''] + body + ['\'']
  }

  function Meant(p: Piece): string {
    match p
    case Plain(c) => [c]
    case Escaped(c) => [c]
    case Double(raw) => Unescaped(raw)
    case Single(body) => body
  }

  function Spelled(ps: seq<Piece>): string {
    if ps == [] then "" else Written(ps[0]) + Spelled(ps[1..])
  }

  function Meaning(ps: seq<Piece>): string {
    if ps == [] then "" else Meant(ps[0]) + Meaning(ps[1..])
  }

  predicate PiecesOk(ps: seq<Piece>) {
    forall i :: 0 <= i < |ps| ==> PieceOk(ps[i])
  }

  /** A token is over at the end of the line or at a blank. */
  predicate Ends(rest: string) {
    rest == "" || IsBlank(rest[0])
  }

  function Prefixed(s: string, r: Scanned): Scanned { Scanned(s + r.token, r.rest) }

  lemma Grow(c: char, body: string, r: Scanned)
    ensures Cons(c, Prefixed(body, r)) == Prefixed([c] + body, r)
  {
    assert [c] + (body + r.token) == [c] + body + r.token;
  }

  lemma {:induction false} ScanDouble(raw: string, rest: string)
    requires RawOk(raw)
    ensures Scan(raw + ['"'] + rest, Some('"')) == Prefixed(Unescaped(raw), Scan(rest, None))
    decreases |raw|
  {
    var s := raw + ['"'] + rest;
    if raw == "" {
      assert s[1..] == rest;
      assert "" + Scan(rest, None).token == Scan(rest, None).token;
    } else if raw[0] == '\\' {
      assert s[0] == '\\' && s[1] == raw[1] && s[2..] == raw[2..] + ['"'] + rest;
      ScanDouble(raw[2..], rest);
      Grow(raw[1], Unescaped(raw[2..]), Scan(rest, None));
    } else {
      assert s[0] == raw[0] && s[1..] == raw[1..] + ['"'] + rest;
      ScanDouble(raw[1..], rest);
      Grow(raw[0], Unescaped(raw[1..]), Scan(rest, None));
    }
  }

  lemma {:induction false} ScanSingle(body: string, rest: string)
    requires '\'' !in body
    ensures Scan(body + ['\''] + rest, Some('\'')) == Prefixed(body, Scan(rest, None))
    decreases |body|
  {
    var s := body + ['\''] + rest;
    if body == "" {
      assert s[1..] == rest;
    } else {
      ScanSingle(body[1..], rest);
      assert body == [body[0]] + body[1..];
      assert s[0] == body[0] && s[1..] == body[1..] + ['\''] + rest;
      assert [body[0]] + (body[1..] + Scan(rest, None).token) == body + Scan(rest, None).token;
    }
  }

  lemma {:induction false} ScanPiece(p: Piece, rest: string)
    requires PieceOk(p)
    ensures Scan(Written(p) + rest, None) == Prefixed(Meant(p), Scan(rest, None))
  {
    var s := Written(p) + rest;
    match p
    case Plain(c) => assert s[0] == c && s[1..] == rest;
    case Escaped(c) => assert s[0] == '\\' && s[1] == c && s[2..] == rest;
    case Double(raw) => ScanQuoted('"', raw, rest); ScanDouble(raw, rest);
    case Single(body) => ScanQuoted('\'', body, rest); ScanSingle(body, rest);
  }

  /** An opening quote leads into the text it quotes. */
  lemma {:induction false} ScanQuoted(quote: char, body: string, rest: string)
    requires quote in {'"', '\''}
    ensures Scan([quote] + body + [quote] + rest, None) == Scan(body + [quote] + rest, Some(quote))
  {
    var s := [quote] + body + [quote] + rest;
    assert s[0] == quote && s[1..] == body + [quote] + rest;
  }

  lemma {:induction false} ScanSpelling(ps: seq<Piece>, rest: string)
    requires PiecesOk(ps) && Ends(rest)
    ensures Scan(Spelled(ps) + rest, None) == Scanned(Meaning(ps), rest)
  {
    if ps == [] {
      assert Spelled(ps) + rest == rest;
    } else {
      ScanSpelling(ps[1..], rest);
      ScanPiece(ps[0], Spelled(ps[1..]) + rest);
      assert Spelled(ps) + rest == Written(ps[0]) + (Spelled(ps[1..]) + rest);
    }
  }

  // ---- lines ------------------------------------------------------------------

  /** One written token behind its gap of blanks. */
  datatype Word = Word(gap: string, pieces: seq<Piece>)

  predicate AllBlank(s: string) {
    forall i :: 0 <= i < |s| ==> IsBlank(s[i])
  }

  predicate WordsOk(ws: seq<Word>) {
    forall i :: 0 <= i < |ws| ==>
      ws[i].pieces != [] && PiecesOk(ws[i].pieces) && AllBlank(ws[i].gap) && (i > 0 ==> ws[i].gap != "")
  }

  function Line(ws: seq<Word>, end: string): string {
    if ws == [] then end else ws[0].gap + Spelled(ws[0].pieces) + Line(ws[1..], end)
  }

  function Meanings(ws: seq<Word>): seq<string> {
    if ws == [] then [] else [Meaning(ws[0].pieces)] + Meanings(ws[1..])
  }

  lemma {:induction false} SkipGap(gap: string, rest: string)
    requires AllBlank(gap)
    ensures SkipBlanks(gap + rest) == SkipBlanks(rest)
  {
    if gap == "" {
      assert gap + rest == rest;
    } else {
      assert (gap + rest)[1..] == gap[1..] + rest;
      SkipGap(gap[1..], rest);
    }
  }

  /** Tokenizing any spelling of any tokens, with any blanks between and around, yields those tokens. */
  lemma {:induction false} SpellingsReadBack(ws: seq<Word>, end: string)
    requires WordsOk(ws) && AllBlank(end)
    ensures Tokens(Line(ws, end)) == Meanings(ws)
    decreases |ws|
  {
    if ws == [] {
      SkipGap(end, "");
      assert end + "" == end;
    } else {
      var gap, ps, later := ws[0].gap, ws[0].pieces, Line(ws[1..], end);
      var front := Spelled(ps) + later;
      if |ws| > 1 {
        assert ws[1..][0] == ws[1];
        assert later[0] == ws[1].gap[0];
      }
      assert Ends(later);
      assert Line(ws, end) == gap + front;
      SkipGap(gap, front);
      assert SkipBlanks(front) == front;
      ScanSpelling(ps, later);
      SpellingsReadBack(ws[1..], end);
    }
  }

  // ---- what stands between double quotes --------------------------------------

  lemma {:induction false} UnescapedIsShorter(raw: string)
    requires RawOk(raw)
    ensures |Unescaped(raw)| <= |raw|
    ensures '\\' in raw ==> |Unescaped(raw)| < |raw|
    ensures '\\' !in raw ==> Unescaped(raw) == raw
  {
    if raw != "" {
      assert raw == [raw[0]] + raw[1..];
      if raw[0] == '\\' { UnescapedIsShorter(raw[2..]); } else { UnescapedIsShorter(raw[1..]); }
    }
  }

  /** A double-quoted text reads as it is typed exactly when it holds no backslash. */
  lemma ReadsVerbatimExactlyWhen(raw: string)
    requires RawOk(raw)
    ensures Unescaped(raw) == raw <==> '\\' !in raw
  {
    UnescapedIsShorter(raw);
  }

  /** The documented reading: only a quote or a backslash behind a backslash is an escape. */
  function AsDocumented(raw: string): string {
    if raw == "" then ""
    else if raw[0] == '\\' && |raw| > 1 && (raw[1] == '"' || raw[1] == '\\') then [raw[1]] + AsDocumented(raw[2..])
    else [raw[0]] + AsDocumented(raw[1..])
  }

  /** Every backslash that escapes does so in front of a quote or a backslash. */
  predicate OnlyDocumentedEscapes(raw: string) {
    raw != "" ==>
      if raw[0] == '\\' && |raw| > 1 then (raw[1] == '"' || raw[1] == '\\') && OnlyDocumentedEscapes(raw[2..])
      else OnlyDocumentedEscapes(raw[1..])
  }

  /** The tokenizer reads a double-quoted text as documented exactly when it only holds documented escapes. */
  lemma {:induction false} ReadsAsDocumentedExactlyWhen(raw: string)
    requires RawOk(raw)
    ensures Unescaped(raw) == AsDocumented(raw) <==> OnlyDocumentedEscapes(raw)
  {
    if raw != "" {
      if raw[0] == '\\' {
        ReadsAsDocumentedExactlyWhen(raw[2..]);
        assert raw[1..][1..] == raw[2..];
        if raw[1] != '"' && raw[1] != '\\' {
          assert AsDocumented(raw)[0] == '\\' && Unescaped(raw)[0] == raw[1];
        } else {
          assert Unescaped(raw)[1..] == Unescaped(raw[2..]) && AsDocumented(raw)[1..] == AsDocumented(raw[2..]);
        }
      } else {
        ReadsAsDocumentedExactlyWhen(raw[1..]);
        assert Unescaped(raw)[1..] == Unescaped(raw[1..]) && AsDocumented(raw)[1..] == AsDocumented(raw[1..]);
      }
    }
  }

  // ---- printing ---------------------------------------------------------------

  /** Quotes and backslashes with a backslash in front, everything else as it is. */
  function EscapeDouble(body: string): string {
    if body == "" then ""
    else (if body[0] == '"' || body[0] == '\\' then ['\\', body[0]] else [body[0]]) + EscapeDouble(body[1..])
  }

  lemma {:induction false} EscapeReadsBack(body: string)
    ensures RawOk(EscapeDouble(body)) && Unescaped(EscapeDouble(body)) == body
  {
    if body != "" {
      EscapeReadsBack(body[1..]);
      var raw := EscapeDouble(body);
      assert body == [body[0]] + body[1..];
      if body[0] == '"' || body[0] == '\\' {
        assert raw[0] == '\\' && raw[1] == body[0] && raw[2..] == EscapeDouble(body[1..]);
      } else {
        assert raw[0] == body[0] && raw[1..] == EscapeDouble(body[1..]);
      }
    }
  }


  /** Each token as one double-quoted group, one space between tokens. */
  function Quoted(tokens: seq<string>): seq<Word> {
    seq(|tokens|, i requires 0 <= i < |tokens| => Word(if i == 0 then "" else " ", [Double(EscapeDouble(tokens[i]))]))
  }

  function Print(tokens: seq<string>): string {
    Line(Quoted(tokens), "")
  }

  lemma {:induction false} MeaningsAt(ws: seq<Word>)
    ensures |Meanings(ws)| == |ws| && forall i :: 0 <= i < |ws| ==> Meanings(ws)[i] == Meaning(ws[i].pieces)
  {
    if ws != [] { MeaningsAt(ws[1..]); }
  }

  /** Tokenizing a printed list gives the list back: empty tokens, blanks, quotes, backslashes and all. */
  lemma {:induction false} PrintReadsBack(tokens: seq<string>)
    ensures Tokens(Print(tokens)) == tokens
  {
    QuotedMeanings(tokens);
    SpellingsReadBack(Quoted(tokens), "");
  }

  // ---- commands ---------------------------------------------------------------

  function FlagToken(key: string, v: FlagValue): string {
    "--" + key + if v.On? then "" else "=" + v.text
  }

  function FlagTokens(flags: Dict<FlagValue>): seq<string> {
    if flags == [] then [] else [FlagToken(flags[0].0, flags[0].1)] + FlagTokens(flags[1..])
  }

  function AsMap(flags: Dict<FlagValue>): map<string, FlagValue> {
    if flags == [] then map[] else AsMap(flags[..|flags| - 1])[flags[|flags| - 1].0 := flags[|flags| - 1].1]
  }

  predicate KeyOk(key: string) { '=' !in key && key != "__proto__" }

  lemma {:induction false} EqualsAtFirst(key: string, more: string)
    ensures '=' !in key ==> EqualsAt(key + ("=" + more)) == |key| && EqualsAt(key) == |key|
    ensures '=' in key ==> EqualsAt(key) < |key| && EqualsAt(key + more) == EqualsAt(key)
  {
    if key != "" {
      assert (key + ("=" + more))[1..] == key[1..] + ("=" + more) && (key + more)[1..] == key[1..] + more;
      assert key == [key[0]] + key[1..];
      EqualsAtFirst(key[1..], more);
    } else {
      assert key + ("=" + more) == "=" + more;
    }
  }

  lemma {:induction false} FlagSplits(key: string, v: FlagValue)
    ensures IsFlag(FlagToken(key, v))
    ensures '=' !in key ==> FlagKey(FlagToken(key, v)) == key && FlagOf(FlagToken(key, v)) == v
    ensures '=' in key ==> |FlagKey(FlagToken(key, v))| < |key|
  {
    var token := FlagToken(key, v);
    var body := token[2..];
    if v.On? {
      assert body == key;
      EqualsAtFirst(key, "");
    } else {
      assert body == key + ("=" + v.text);
      EqualsAtFirst(key, v.text);
      EqualsAtFirst(key, "=" + v.text);
      if '=' !in key { assert body[..|key|] == key && body[|key| + 1..] == v.text; }
    }
  }

  /** A printed flag is stored under its key with its value exactly when the key has no `=` and is not `__proto__`. */
  lemma {:induction false} FlagReadsBackExactlyWhen(flags: map<string, FlagValue>, key: string, v: FlagValue)
    requires key !in flags
    ensures IsFlag(FlagToken(key, v))
    ensures SetFlag(flags, FlagToken(key, v)) == flags[key := v] <==> KeyOk(key)
  {
    FlagSplits(key, v);
    var token := FlagToken(key, v);
    assert key in flags[key := v];
    if '=' in key {
      assert FlagKey(token) != key;
      assert key !in SetFlag(flags, token);
    }
  }

  lemma {:induction false} PlainArgs(args: seq<string>)
    requires forall i :: 0 <= i < |args| ==> !IsFlag(args[i])
    ensures Args(args) == args && Flags(args) == map[]
  {
    if args != [] { PlainArgs(args[..|args| - 1]); }
  }

  lemma {:induction false} FlagTokensAppend(flags: Dict<FlagValue>)
    requires flags != []
    ensures FlagTokens(flags)
      == FlagTokens(flags[..|flags| - 1]) + [FlagToken(flags[|flags| - 1].0, flags[|flags| - 1].1)]
  {
    if |flags| > 1 {
      FlagTokensAppend(flags[1..]);
      assert flags[1..][..|flags| - 2] == flags[..|flags| - 1][1..];
    } else {
      assert flags[..0] == [] && flags[1..] == [];
    }
  }

  lemma {:induction false} FlagsReadBack(args: seq<string>, flags: Dict<FlagValue>)
    requires forall i :: 0 <= i < |args| ==> !IsFlag(args[i])
    requires forall i :: 0 <= i < |flags| ==> KeyOk(flags[i].0)
    ensures Args(args + FlagTokens(flags)) == args && Flags(args + FlagTokens(flags)) == AsMap(flags)
  {
    if flags == [] {
      assert args + FlagTokens(flags) == args;
      PlainArgs(args);
    } else {
      var init := flags[..|flags| - 1];
      var (key, v) := flags[|flags| - 1];
      FlagsReadBack(args, init);
      FlagTokensAppend(flags);
      FlagSplits(key, v);
      assert args + FlagTokens(flags) == args + FlagTokens(init) + [FlagToken(key, v)];
    }
  }

  /** The printed form of a command with its arguments and flags. */
  function PrintCommand(command: string, args: seq<string>, flags: Dict<FlagValue>): string {
    "/" + Print([command] + args + FlagTokens(flags))
  }

  /** A line of spelled tokens parses to the classification of their meanings. */
  lemma {:induction false} SpelledCommandParses(ws: seq<Word>, end: string)
    requires WordsOk(ws) && AllBlank(end) && ws != []
    requires IsSlashLine("/" + Line(ws, end)) && !AllJsSpace(Line(ws, end))
    ensures Parse("/" + Line(ws, end)) == Some(Parsed(Meanings(ws)))
  {
    var line := "/" + Line(ws, end);
    assert line[1..] == Line(ws, end);
    SpellingsReadBack(ws, end);
  }

  lemma {:induction false} QuotedMeanings(tokens: seq<string>)
    ensures Meanings(Quoted(tokens)) == tokens && WordsOk(Quoted(tokens))
  {
    MeaningsAt(Quoted(tokens));
    forall i | 0 <= i < |tokens|
      ensures Meaning(Quoted(tokens)[i].pieces) == tokens[i] && PiecesOk(Quoted(tokens)[i].pieces)
    {
      EscapeReadsBack(tokens[i]);
      assert Quoted(tokens)[i].pieces[1..] == [];
    }
  }

  lemma {:induction false} PrintedListParses(tokens: seq<string>)
    requires tokens != []
    ensures Parse("/" + Print(tokens)) == Some(Parsed(tokens))
  {
    QuotedMeanings(tokens);
    assert IsSlashLine("/" + Print(tokens)) by { assert ("/" + Print(tokens))[1] == '"'; }
    SpelledCommandParses(Quoted(tokens), "");
  }

  /** Parsing a printed command gives the same descriptor. */
  lemma {:induction false} CommandReadsBack(command: string, args: seq<string>, flags: Dict<FlagValue>)
    requires Lower(command) == command
    requires forall i :: 0 <= i < |args| ==> !IsFlag(args[i])
    requires forall i :: 0 <= i < |flags| ==> KeyOk(flags[i].0)
    ensures Parse(PrintCommand(command, args, flags)) == Some(Command(command, args, AsMap(flags)))
  {
    var tokens := [command] + args + FlagTokens(flags);
    PrintedListParses(tokens);
    FlagsReadBack(args, flags);
    ParsedIs(command, args, FlagTokens(flags));
  }

  lemma {:induction false} ParsedIs(command: string, args: seq<string>, flags: seq<string>)
    requires Lower(command) == command
    ensures Parsed([command] + args + flags) == Command(command, Args(args + flags), Flags(args + flags))
  {
    assert ([command] + args + flags)[1..] == args + flags;
  }

  /** Flag token i names the key and no later one does. */
  ghost predicate LastOf(tokens: seq<string>, key: string, i: int) {
    && 0 <= i < |tokens| && IsFlag(tokens[i]) && FlagKey(tokens[i]) == key
    && forall j :: i < j < |tokens| && IsFlag(tokens[j]) ==> FlagKey(tokens[j]) != key
  }

  lemma {:induction false} SameLast(init: seq<string>, last: string, key: string)
    requires !IsFlag(last) || FlagKey(last) != key
    ensures forall i :: LastOf(init + [last], key, i) <==> LastOf(init, key, i)
    ensures forall i :: LastOf(init, key, i) ==> (init + [last])[i] == init[i]
  {
    var tokens := init + [last];
    assert forall j :: 0 <= j < |init| ==> tokens[j] == init[j];
  }

  /** Whatever the order, the last flag of a key wins, and `__proto__` is never stored. */
  lemma {:induction false} LastFlagWins(tokens: seq<string>, key: string)
    ensures key in Flags(tokens) <==> key != "__proto__" && exists i :: LastOf(tokens, key, i)
    ensures forall i :: LastOf(tokens, key, i) && key in Flags(tokens) ==> Flags(tokens)[key] == FlagOf(tokens[i])
  {
    if tokens != [] {
      var n := |tokens| - 1;
      var init, last := tokens[..n], tokens[n];
      LastFlagWins(init, key);
      if IsFlag(last) && FlagKey(last) == key {
        assert LastOf(tokens, key, n);
      } else {
        SameLast(init, last, key);
        assert tokens == init + [last];
      }
    }
  }
}
