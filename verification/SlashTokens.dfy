/** The shell-style tokenizer and the slash-command parser of the composer. */
module SlashTokens {
  import opened Wrappers

  predicate IsBlank(c: char) { c == ' ' || c == '\t' || c == '\n' || c == '\r' }

  predicate IsQuote(c: char) { c == '"' || c == '\'' }

  // ---- tokenizing -------------------------------------------------------------

  function SkipBlanks(s: string): (r: string)
    ensures |r| <= |s| && (r != "" ==> !IsBlank(r[0]))
  {
    if s != "" && IsBlank(s[0]) then SkipBlanks(s[1..]) else s
  }

  datatype Scanned = Scanned(token: string, rest: string)

  function Cons(c: char, r: Scanned): Scanned { Scanned([c] + r.token, r.rest) }

  /** The token at the front of s, begun inside the given quote, and what follows it. */
  function Scan(s: string, quote: Option<char>): (r: Scanned)
    ensures |r.rest| <= |s|
    ensures s != "" && (quote.Some? || !IsBlank(s[0])) ==> |r.rest| < |s|
  {
    if s == "" then Scanned("", "")
    else
      var ch := s[0];
      if quote.None? && IsQuote(ch) then Scan(s[1..], Some(ch))
      else if quote == Some(ch) then Scan(s[1..], None)
      else if quote.None? && IsBlank(ch) then Scanned("", s)
      else if ch == '\\' && |s| > 1 && quote != Some('\'') then Cons(s[1], Scan(s[2..], quote))
      else Cons(ch, Scan(s[1..], quote))
  }

  function Tokens(s: string): seq<string>
    decreases |s|
  {
    var t := SkipBlanks(s);
    if t == "" then []
    else
      var r := Scan(t, None);
      [r.token] + Tokens(r.rest)
  }

  /** The inner loop over one token that starts at i. */
  method ReadToken(input: string, start: nat) returns (token: string, i: nat)
    requires start < |input| && !IsBlank(input[start])
    ensures start < i <= |input| && Scan(input[start..], None) == Scanned(token, input[i..])
  {
    token, i := "", start;
    var quote: Option<char> := None;
    ghost var goal := Scan(input[start..], None);
    NothingBehind(goal);
    var more := true;
    while more && i < |input|
      invariant start <= i <= |input| && (i == start ==> quote.None? && more)
      invariant Behind(token, Scan(input[i..], quote)) == goal
      invariant !more ==> goal == Scanned(token, input[i..])
      decreases |input| - i, more
    {
      more, token, i, quote := ReadChar(input, token, i, quote);
    }
  }

  /** One turn of the inner loop: take a character, or stop at a blank. */
  method ReadChar(input: string, before: string, at: nat, quote: Option<char>)
      returns (more: bool, token: string, i: nat, open: Option<char>)
    requires at < |input|
    ensures at <= i <= |input| && (at < i <==> more) && (!more ==> quote.None? && IsBlank(input[at]))
    ensures Behind(token, Scan(input[i..], open)) == Behind(before, Scan(input[at..], quote))
    ensures !more ==> Behind(before, Scan(input[at..], quote)) == Scanned(token, input[i..])
  {
    var ch := input[at];
    more, token, i, open := true, before, at + 1, quote;
    if quote.None? && IsQuote(ch) {
      ScanQuote(input, at, quote);
      open := Some(ch);
    } else if quote == Some(ch) {
      ScanQuote(input, at, quote);
      open := None;
    } else if quote.None? && IsBlank(ch) {
      ScanEnd(input, at, before);
      more, i := false, at;
    } else if ch == '\\' && at + 1 < |input| && quote != Some('\'') {
      ScanEscaped(input, at, quote, before);
      token, i := before + [input[at + 1]], at + 2;
    } else {
      ScanPlain(input, at, quote, before);
      token := before + [ch];
    }
  }

  /** What is read so far in front of what is still to be read. */
  function Behind(token: string, r: Scanned): Scanned { Scanned(token + r.token, r.rest) }

  lemma NothingBehind(r: Scanned)
    ensures Behind("", r) == r
  {
    assert "" + r.token == r.token;
  }

  lemma {:induction false} ScanQuote(input: string, i: nat, quote: Option<char>)
    requires i < |input| && if quote.None? then IsQuote(input[i]) else quote.value == input[i]
    ensures Scan(input[i..], quote) == Scan(input[i + 1..], if quote.None? then Some(input[i]) else None)
  {
    assert input[i..][0] == input[i] && input[i..][1..] == input[i + 1..];
  }

  lemma {:induction false} ScanEnd(input: string, i: nat, token: string)
    requires i < |input| && IsBlank(input[i])
    ensures Behind(token, Scan(input[i..], None)) == Scanned(token, input[i..])
  {
    assert input[i..][0] == input[i] && token + "" == token;
  }

  lemma {:induction false} ScanEscaped(input: string, i: nat, quote: Option<char>, token: string)
    requires i + 1 < |input| && input[i] == '\\' && quote != Some('\'') && quote != Some('\\')
    ensures Behind(token, Scan(input[i..], quote)) == Behind(token + [input[i + 1]], Scan(input[i + 2..], quote))
  {
    var s := input[i..];
    assert s[0] == input[i] && s[1] == input[i + 1] && s[2..] == input[i + 2..];
    Prepend(token, input[i + 1], Scan(input[i + 2..], quote));
  }

  lemma {:induction false} ScanPlain(input: string, i: nat, quote: Option<char>, token: string)
    requires i < |input| && quote != Some(input[i]) && (quote.None? ==> !IsQuote(input[i]) && !IsBlank(input[i]))
    requires input[i] == '\\' && i + 1 < |input| ==> quote == Some('\'')
    ensures Behind(token, Scan(input[i..], quote)) == Behind(token + [input[i]], Scan(input[i + 1..], quote))
  {
    assert input[i..][0] == input[i] && input[i..][1..] == input[i + 1..];
    Prepend(token, input[i], Scan(input[i + 1..], quote));
  }

  lemma Prepend(token: string, c: char, r: Scanned)
    ensures Behind(token, Cons(c, r)) == Behind(token + [c], r)
  {
  }

  method Tokenize(input: string) returns (tokens: seq<string>)
    ensures tokens == Tokens(input)
  {
    tokens := [];
    var i := 0;
    assert input[0..] == input;
    while i < |input|
      invariant 0 <= i <= |input|
      invariant tokens + Tokens(input[i..]) == Tokens(input)
    {
      ghost var begin := input[i..];
      while i < |input| && IsBlank(input[i])
        invariant 0 <= i <= |input| && SkipBlanks(input[i..]) == SkipBlanks(begin)
      {
        assert input[i..][1..] == input[i + 1..];
        i := i + 1;
      }
      if i >= |input| {
        assert Tokens(begin) == [];
        return;
      }
      var token, next := ReadToken(input, i);
      assert SkipBlanks(begin) == input[i..];
      assert Tokens(begin) == [token] + Tokens(input[next..]);
      tokens, i := tokens + [token], next;
    }
  }

  // ---- parsing ----------------------------------------------------------------

  datatype FlagValue = On | Given(text: string)

  datatype Command = Command(command: string, args: seq<string>, flags: map<string, FlagValue>)

  /** Whitespace as JavaScript's `trim` and `\s` see it. */
  predicate IsJsSpace(c: char) {
    || '\t' <= c <= '\r' || c == ' ' || c == '\U{A0}' || c == '\U{1680}' || '\U{2000}' <= c <= '\U{200A}'
    || c == '\U{2028}' || c == '\U{2029}' || c == '\U{202F}' || c == '\U{205F}' || c == '\U{3000}' || c == '\U{FEFF}'
  }

  predicate AllJsSpace(s: string) {
    forall i :: 0 <= i < |s| ==> IsJsSpace(s[i])
  }

  function LowerChar(c: char): char {
    if 'A' <= c <= 'Z' then c - 'A' + 'a' else c
  }

  function Lower(s: string): string {
    seq(|s|, i requires 0 <= i < |s| => LowerChar(s[i]))
  }

  predicate IsFlag(token: string) {
    |token| >= 2 && token[0] == '-' && token[1] == '-'
  }

  /** Offset of the first `=`, the length when there is none. */
  function EqualsAt(s: string): (i: nat)
    ensures i <= |s|
  {
    if s == "" || s[0] == '=' then 0 else 1 + EqualsAt(s[1..])
  }

  function FlagKey(token: string): string
    requires IsFlag(token)
  {
    token[2..][..EqualsAt(token[2..])]
  }

  function FlagOf(token: string): FlagValue
    requires IsFlag(token)
  {
    var body := token[2..];
    if EqualsAt(body) == |body| then On else Given(body[EqualsAt(body) + 1..])
  }

  /** Assigning `__proto__` on a plain object stores nothing. */
  function SetFlag(flags: map<string, FlagValue>, token: string): map<string, FlagValue>
    requires IsFlag(token)
  {
    if FlagKey(token) == "__proto__" then flags else flags[FlagKey(token) := FlagOf(token)]
  }

  function Args(tokens: seq<string>): seq<string> {
    if tokens == [] then []
    else
      var init, last := Args(tokens[..|tokens| - 1]), tokens[|tokens| - 1];
      if IsFlag(last) then init else init + [last]
  }

  function Flags(tokens: seq<string>): map<string, FlagValue> {
    if tokens == [] then map[]
    else
      var init, last := Flags(tokens[..|tokens| - 1]), tokens[|tokens| - 1];
      if IsFlag(last) then SetFlag(init, last) else init
  }

  function Parsed(tokens: seq<string>): Command
    requires tokens != []
  {
    Command(Lower(tokens[0]), Args(tokens[1..]), Flags(tokens[1..]))
  }

  predicate IsSlashLine(line: string) {
    line != "" && line[0] == '/' && !(|line| > 1 && line[1] == '/')
  }

  function Parse(line: string): Option<Command> {
    if !IsSlashLine(line) || AllJsSpace(line[1..]) || Tokens(line[1..]) == [] then None
    else Some(Parsed(Tokens(line[1..])))
  }

  method ParseSlashCommand(line: string) returns (r: Option<Command>)
    ensures r == Parse(line)
  {
    if !IsSlashLine(line) { return None; }
    var rest := line[1..];
    if AllJsSpace(rest) { return None; }
    var tokens := Tokenize(rest);
    if tokens == [] { return None; }
    var args: seq<string>, flags: map<string, FlagValue> := [], map[];
    var tail := tokens[1..];
    for i := 0 to |tail|
      invariant args == Args(tail[..i]) && flags == Flags(tail[..i])
    {
      assert tail[..i + 1][..i] == tail[..i];
      if IsFlag(tail[i]) {
        flags := SetFlag(flags, tail[i]);
      } else {
        args := args + [tail[i]];
      }
    }
    assert tail[..|tail|] == tail;
    r := Some(Command(Lower(tokens[0]), args, flags));
  }
}
