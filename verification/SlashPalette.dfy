/** The composer's completion palette, and its agreement with the parser. */
module SlashPalette {
  import opened Wrappers
  import opened SlashTokens
  import opened SlashProofs

  datatype Entry = Entry(command: string, flags: seq<string>)

  datatype Mode = Commands | FlagNames

  /** Matches are the names to offer: commands without their slash, flags without their dashes. */
  datatype Palette = Palette(shown: bool, mode: Mode, matches: seq<string>, from: nat, to: nat, command: string,
                             query: string)

  const CLOSED := Palette(false, Commands, [], 0, 0, "", "")

  // ---- searching --------------------------------------------------------------

  /** `s.search(/\s/)`, the length when there is none. */
  function SpaceAt(s: string): (i: nat)
    ensures i <= |s|
  {
    if s == "" || IsJsSpace(s[0]) then 0 else 1 + SpaceAt(s[1..])
  }

  /** `\S+\s*$` matches at the front of s. */
  predicate TailMatches(s: string) {
    s != "" && !IsJsSpace(s[0]) && AllJsSpace(s[SpaceAt(s)..])
  }

  /** `s.search(/\S+\s*$/)`: the leftmost match, the length when there is none. */
  function TailAt(s: string): (i: nat)
    ensures i <= |s|
  {
    if s == "" || TailMatches(s) then 0 else 1 + TailAt(s[1..])
  }

  function StartingWith(names: seq<string>, query: string): (r: seq<string>) {
    if names == [] then []
    else (if query <= names[0] then [names[0]] else []) + StartingWith(names[1..], query)
  }

  function CommandNames(entries: seq<Entry>): seq<string> {
    seq(|entries|, i requires 0 <= i < |entries| => entries[i].command)
  }

  function FindEntry(entries: seq<Entry>, command: string): Option<Entry> {
    if entries == [] then None
    else if entries[0].command == command then Some(entries[0])
    else FindEntry(entries[1..], command)
  }

  /** `token.replace(/^--?/, "")` */
  function WithoutDashes(token: string): string {
    if |token| >= 2 && token[0] == '-' && token[1] == '-' then token[2..]
    else if |token| >= 1 && token[0] == '-' then token[1..]
    else token
  }

  // ---- the palette ------------------------------------------------------------

  function Clamp(value: string, caret: Option<int>): (at: nat)
    ensures at <= |value|
  {
    if caret.None? || caret.value > |value| then |value|
    else if caret.value < 0 then 0
    else caret.value
  }

  /** `slashPaletteState` for a text and a caret. */
  function State(catalog: seq<Entry>, value: string, caret: Option<int>): Palette {
    AtCaret(catalog, value, Clamp(value, caret))
  }

  function AtCaret(catalog: seq<Entry>, value: string, at: nat): Palette
    requires at <= |value|
  {
    StateAt(catalog, value, at, at + SpaceAt(value[at..]))
  }

  /** The caret is in a word that goes on to wordEnd. */
  function StateAt(catalog: seq<Entry>, value: string, at: nat, wordEnd: nat): Palette
    requires at <= wordEnd <= |value|
  {
    var prefix := value[..at];
    if !IsSlashLine(prefix) then CLOSED
    else
      var firstBreak := SpaceAt(prefix);
      if firstBreak == |prefix| then
        var query := Lower(prefix[1..]);
        var matches := StartingWith(CommandNames(catalog), query);
        Palette(matches != [], Commands, matches, 0, wordEnd, "", query)
      else
        FlagState(catalog, value, prefix, wordEnd, Lower(prefix[..firstBreak][1..]))
  }

  /** The part for a finished command word. */
  function FlagState(catalog: seq<Entry>, value: string, prefix: string, wordEnd: nat, command: string): Palette
    requires |prefix| <= wordEnd <= |value|
  {
    var entry := FindEntry(catalog, command);
    if entry.None? || entry.value.flags == [] then CLOSED
    else
      var tokenStart := TailAt(prefix);
      var token := value[tokenStart..wordEnd];
      if token == "" || token[0] != '-' || '=' in token then CLOSED
      else
        var query := Lower(WithoutDashes(token));
        var matches := StartingWith(entry.value.flags, query);
        Palette(matches != [], FlagNames, matches, tokenStart, wordEnd, command, query)
  }

  datatype Accepted = Accepted(value: string, caret: nat)

  /** `applySlashSuggestion` for an offered name. */
  function Accept(value: string, p: Palette, name: Option<string>): Option<Accepted>
    requires p.from <= p.to <= |value|
  {
    if !p.shown || name.None? then None
    else
      var text := if p.mode.FlagNames? then "--" + name.value + "=" else "/" + name.value + " ";
      Some(Accepted(value[..p.from] + text + value[p.to..], p.from + |text|))
  }

  // ---- offsets ----------------------------------------------------------------

  /** The replaced range lies in the text and ends no earlier than it starts. */
  lemma {:induction false} RangeIsInside(catalog: seq<Entry>, value: string, caret: Option<int>)
    ensures 0 <= State(catalog, value, caret).from <= State(catalog, value, caret).to <= |value|
  {
  }

  // ---- the catalog ------------------------------------------------------------

  /** Lower-case letters and dashes: needs no quoting and is its own lower case. */
  predicate SimpleName(s: string) {
    forall i :: 0 <= i < |s| ==> 'a' <= s[i] <= 'z' || s[i] == '-'
  }

  predicate SimpleEntry(e: Entry) {
    e.command != "" && SimpleName(e.command) && forall i :: 0 <= i < |e.flags| ==> SimpleName(e.flags[i])
  }

  predicate SimpleCatalog(catalog: seq<Entry>) {
    forall i :: 0 <= i < |catalog| ==> SimpleEntry(catalog[i])
  }

  lemma {:induction false} FoundIsEntry(entries: seq<Entry>, command: string)
    ensures FindEntry(entries, command).Some? ==>
      FindEntry(entries, command).value in entries && FindEntry(entries, command).value.command == command
  {
    if entries != [] { FoundIsEntry(entries[1..], command); }
  }

  lemma {:induction false} MatchIsOffered(names: seq<string>, query: string, name: string)
    ensures name in StartingWith(names, query) <==> name in names && query <= name
  {
    if names != [] {
      MatchIsOffered(names[1..], query, name);
      assert names == [names[0]] + names[1..];
    }
  }

  lemma {:induction false} NamedEntry(entries: seq<Entry>, name: string)
    ensures name in CommandNames(entries) <==> exists e :: e in entries && e.command == name
  {
    var names := CommandNames(entries);
    if name in names {
      var i :| 0 <= i < |names| && names[i] == name;
      assert entries[i] in entries;
    }
    if exists e :: e in entries && e.command == name {
      var i :| 0 <= i < |entries| && entries[i].command == name;
      assert names[i] == name;
    }
  }

  lemma {:induction false} SimpleLower(s: string)
    requires SimpleName(s)
    ensures Lower(s) == s
  {
    assert forall i :: 0 <= i < |s| ==> LowerChar(s[i]) == s[i];
  }

  function AsPieces(s: string): (r: seq<Piece>)
    ensures |r| == |s| && forall i :: 0 <= i < |s| ==> r[i] == Plain(s[i])
  {
    seq(|s|, i requires 0 <= i < |s| => Plain(s[i]))
  }

  lemma {:induction false} PiecesSpell(s: string)
    ensures Spelled(AsPieces(s)) == s && Meaning(AsPieces(s)) == s
  {
    if s != "" {
      PiecesSpell(s[1..]);
      assert AsPieces(s)[1..] == AsPieces(s[1..]);
      assert s == [s[0]] + s[1..];
    }
  }

  // ---- accepting a command ----------------------------------------------------

  lemma {:induction false} TokensAfterName(name: string, tail: string)
    requires name != "" && SimpleName(name)
    ensures Tokens(name + " " + tail) == [name] + Tokens(tail)
  {
    var s := name + " " + tail;
    PiecesSpell(name);
    ScanSpelling(AsPieces(name), " " + tail);
    assert s == name + (" " + tail) && SkipBlanks(s) == s;
    assert (" " + tail)[1..] == tail;
    assert SkipBlanks(" " + tail) == SkipBlanks(tail);
  }

  /** Accepting an offered command yields a line that parses to it, with the tokens of the untouched tail. */
  lemma {:induction false} AcceptedCommandParses(catalog: seq<Entry>, value: string, caret: Option<int>, name: string)
    requires SimpleCatalog(catalog) && State(catalog, value, caret).shown
      && State(catalog, value, caret).mode.Commands? && name in State(catalog, value, caret).matches
    ensures var p := State(catalog, value, caret);
      var tail := value[p.to..];
      Parse(Accept(value, p, Some(name)).value.value)
        == Some(Command(name, Args(Tokens(tail)), Flags(Tokens(tail))))
  {
    var p := State(catalog, value, caret);
    var tail := value[p.to..];
    OfferedCommandIsSimple(catalog, value, caret, name);
    assert Accept(value, p, Some(name)).value.value == "/" + (name + " " + tail);
    CommandLineParses(name, tail);
  }

  lemma {:induction false} CommandLineParses(name: string, tail: string)
    requires name != "" && SimpleName(name)
    ensures Parse("/" + (name + " " + tail)) == Some(Command(name, Args(Tokens(tail)), Flags(Tokens(tail))))
  {
    var line := "/" + (name + " " + tail);
    TokensAfterName(name, tail);
    assert line[1..] == name + " " + tail;
    assert line[1] == name[0] && !IsJsSpace(line[1..][0]);
    SimpleLower(name);
    assert ([name] + Tokens(tail))[1..] == Tokens(tail);
  }

  lemma {:induction false} OfferedCommandIsSimple(catalog: seq<Entry>, value: string, caret: Option<int>, name: string)
    requires SimpleCatalog(catalog) && State(catalog, value, caret).shown
      && State(catalog, value, caret).mode.Commands? && name in State(catalog, value, caret).matches
    ensures name != "" && SimpleName(name) && State(catalog, value, caret).from == 0
  {
    MatchIsOffered(CommandNames(catalog), State(catalog, value, caret).query, name);
    NamedEntry(catalog, name);
  }

  // ---- the palette after accepting --------------------------------------------

  lemma {:induction false} SpaceAtAppend(s: string, more: string)
    ensures SpaceAt(s) < |s| ==> SpaceAt(s + more) == SpaceAt(s)
    ensures SpaceAt(s) == |s| ==> SpaceAt(s + more) == |s| + SpaceAt(more)
  {
    if s == "" {
      assert s + more == more;
    } else {
      assert (s + more)[1..] == s[1..] + more;
      SpaceAtAppend(s[1..], more);
    }
  }

  lemma {:induction false} NoSpaceInName(name: string)
    requires forall i :: 0 <= i < |name| ==> !IsJsSpace(name[i])
    ensures SpaceAt(name) == |name|
  {
    if name != "" { NoSpaceInName(name[1..]); }
  }

  /** One word and a final space: the tail match starts at the word. */
  lemma {:induction false} WordThenSpace(word: string)
    requires word != "" && forall i :: 0 <= i < |word| ==> !IsJsSpace(word[i])
    ensures TailAt(word + " ") == 0 && SpaceAt(word + " ") == |word|
  {
    NoSpaceInName(word);
    SpaceAtAppend(word, " ");
    assert (word + " ")[|word|..] == " ";
  }

  /** After accepting a command the palette at the returned caret is closed. */
  lemma {:induction false} ClosedAfterCommand(catalog: seq<Entry>, value: string, caret: Option<int>, name: string)
    requires SimpleCatalog(catalog) && State(catalog, value, caret).shown
      && State(catalog, value, caret).mode.Commands? && name in State(catalog, value, caret).matches
    ensures var r := Accept(value, State(catalog, value, caret), Some(name)).value;
      !State(catalog, r.value, Some(r.caret)).shown
  {
    var p := State(catalog, value, caret);
    OfferedCommandIsSimple(catalog, value, caret, name);
    var word, tail := "/" + name, value[p.to..];
    assert Accept(value, p, Some(name)).value == Accepted(word + " " + tail, |word + " "|);
    CommandCloses(catalog, name, tail);
  }

  lemma {:induction false} CommandCloses(catalog: seq<Entry>, name: string, tail: string)
    requires name != "" && SimpleName(name)
    ensures !State(catalog, "/" + name + " " + tail, Some(|"/" + name + " "|)).shown
  {
    var word := "/" + name;
    var line := word + " " + tail;
    assert line[..|word + " "|] == word + " " && line[0] == '/';
    assert forall i :: 0 < i < |word| ==> word[i] == name[i - 1];
    WordThenSpace(word);
  }

  lemma {:induction false} TailIsWordStart(s: string)
    requires TailAt(s) > 0 && TailAt(s) < |s|
    ensures IsJsSpace(s[TailAt(s) - 1]) && TailMatches(s[TailAt(s)..])
  {
    if TailAt(s[1..]) > 0 {
      TailIsWordStart(s[1..]);
      assert s[1..][TailAt(s[1..])..] == s[TailAt(s)..];
    } else {
      assert s[1..][0..] == s[1..];
      assert TailMatches(s[1..]);
      assert s[1 + SpaceAt(s[1..])..] == s[1..][SpaceAt(s[1..])..];
    }
  }

  /** Behind a space a word without spaces is the tail match. */
  lemma {:induction false} LastWordAt(before: string, word: string)
    requires before != "" && IsJsSpace(before[|before| - 1])
    requires word != "" && forall i :: 0 <= i < |word| ==> !IsJsSpace(word[i])
    ensures TailAt(before + word) == |before|
  {
    var s := before + word;
    NoSpaceInName(word);
    SpaceAtAppend(before, word);
    var k := SpaceAt(before);
    SpaceInside(before);
    assert s[k..][|before| - k] == word[0];
    assert !AllJsSpace(s[k..]);
    assert !TailMatches(s);
    assert s[1..] == before[1..] + word;
    if |before| == 1 {
      assert s[1..] == word && word[|word|..] == "";
      assert TailMatches(word);
    } else {
      LastWordAt(before[1..], word);
    }
  }

  lemma {:induction false} SpaceInside(s: string)
    requires s != "" && IsJsSpace(s[|s| - 1])
    ensures SpaceAt(s) < |s|
  {
    if |s| > 1 { SpaceInside(s[1..]); }
  }

  lemma {:induction false} TailNotFirst(catalog: seq<Entry>, value: string, prefix: string, wordEnd: nat,
                                        command: string)
    requires prefix <= value && |prefix| <= wordEnd <= |value| && IsSlashLine(prefix)
    requires FlagState(catalog, value, prefix, wordEnd, command).shown
    ensures var from := FlagState(catalog, value, prefix, wordEnd, command).from;
      0 < from <= |prefix| && from == TailAt(prefix)
  {
    assert value[0..wordEnd][0] == prefix[0];
  }

  lemma {:induction false} OfferedFlagIsSimple(catalog: seq<Entry>, value: string, prefix: string, wordEnd: nat,
                                               command: string, name: string)
    requires |prefix| <= wordEnd <= |value|
    requires SimpleCatalog(catalog) && name in FlagState(catalog, value, prefix, wordEnd, command).matches
    ensures SimpleName(name)
  {
    FoundIsEntry(catalog, command);
    var flags := FindEntry(catalog, command).value.flags;
    MatchIsOffered(flags, FlagState(catalog, value, prefix, wordEnd, command).query, name);
  }

  /** An offered flag replaces the text behind a space, and its name has no space. */
  lemma {:induction false} OfferedFlagShape(catalog: seq<Entry>, value: string, at: nat, wordEnd: nat, p: Palette,
                                            name: string)
    requires SimpleCatalog(catalog) && at <= wordEnd <= |value| && p == StateAt(catalog, value, at, wordEnd)
    requires p.shown && p.mode.FlagNames? && name in p.matches
    ensures 0 < p.from <= p.to <= |value| && IsJsSpace(value[p.from - 1]) && SimpleName(name)
  {
    FlagShape(catalog, value, at, wordEnd, Lower(value[..at][..SpaceAt(value[..at])][1..]), p, name);
  }

  lemma {:induction false} FlagShape(
    catalog: seq<Entry>, value: string, at: nat, wordEnd: nat, command: string, p: Palette, name: string)
    requires at <= wordEnd <= |value| && IsSlashLine(value[..at]) && SimpleCatalog(catalog)
    requires p == FlagState(catalog, value, value[..at], wordEnd, command) && p.shown && name in p.matches
    ensures 0 < p.from <= p.to <= |value| && IsJsSpace(value[p.from - 1]) && SimpleName(name)
  {
    TailNotFirst(catalog, value, value[..at], wordEnd, command);
    OfferedFlagIsSimple(catalog, value, value[..at], wordEnd, command, name);
    TailBehindSpace(value[..at]);
  }

  /** After accepting a flag the palette at the returned caret is closed: the value is the user's. */
  lemma {:induction false} ClosedAfterFlag(catalog: seq<Entry>, value: string, caret: Option<int>, p: Palette,
                                           name: string)
    requires SimpleCatalog(catalog) && p == State(catalog, value, caret)
    requires p.shown && p.mode.FlagNames? && name in p.matches
    ensures var r := Accept(value, p, Some(name)).value; !State(catalog, r.value, Some(r.caret)).shown
  {
    OfferedAtCaret(catalog, value, Clamp(value, caret), p, name);
    AcceptedFlagCloses(catalog, value, p, name);
  }

  lemma {:induction false} OfferedAtCaret(catalog: seq<Entry>, value: string, at: nat, p: Palette, name: string)
    requires SimpleCatalog(catalog) && at <= |value| && p == AtCaret(catalog, value, at)
    requires p.shown && p.mode.FlagNames? && name in p.matches
    ensures 0 < p.from <= p.to <= |value| && IsJsSpace(value[p.from - 1]) && SimpleName(name)
  {
    OfferedFlagShape(catalog, value, at, at + SpaceAt(value[at..]), p, name);
  }

  lemma {:induction false} AcceptedFlagCloses(catalog: seq<Entry>, value: string, p: Palette, name: string)
    requires 0 < p.from <= p.to <= |value| && IsJsSpace(value[p.from - 1]) && SimpleName(name)
    requires p.shown && p.mode.FlagNames? && name in p.matches
    ensures var r := Accept(value, p, Some(name)).value; !State(catalog, r.value, Some(r.caret)).shown
  {
    var word, before, rest := "--" + name + "=", value[..p.from], value[p.to..];
    assert Accept(value, p, Some(name)).value == Accepted(before + word + rest, |before + word|);
    assert forall i :: 0 <= i < |word| ==> !IsJsSpace(word[i]);
    LastWordAt(before, word);
    AcceptedTokenHasEquals(catalog, before, word, rest);
  }

  lemma {:induction false} TailBehindSpace(prefix: string)
    requires IsSlashLine(prefix) && TailAt(prefix) > 0
    ensures IsJsSpace(prefix[TailAt(prefix) - 1])
  {
    TailExists(prefix);
    TailIsWordStart(prefix);
  }

  lemma {:induction false} TailExists(s: string)
    requires exists i :: 0 <= i < |s| && !IsJsSpace(s[i])
    ensures TailAt(s) < |s|
  {
    if !TailMatches(s) {
      if IsJsSpace(s[0]) {
        var i :| 0 <= i < |s| && !IsJsSpace(s[i]);
        assert !IsJsSpace(s[1..][i - 1]);
      } else {
        var k := SpaceAt(s);
        var i :| 0 <= i < |s[k..]| && !IsJsSpace(s[k..][i]);
        SpaceAtIsSpace(s);
        assert !IsJsSpace(s[1..][k + i - 1]);
      }
      TailExists(s[1..]);
    }
  }

  lemma {:induction false} SpaceAtIsSpace(s: string)
    requires s != "" && !IsJsSpace(s[0])
    ensures SpaceAt(s) > 0
  {
  }

  lemma {:induction false} AcceptedTokenHasEquals(catalog: seq<Entry>, before: string, word: string, rest: string)
    requires before != "" && IsJsSpace(before[|before| - 1]) && word != "" && word[|word| - 1] == '='
    requires TailAt(before + word) == |before|
    ensures !State(catalog, before + word + rest, Some(|before + word|)).shown
  {
    AcceptedShape(before, word, rest);
    AssignedCloses(catalog, before + word + rest, |before + word|);
    assert Clamp(before + word + rest, Some(|before + word|)) == |before + word|;
  }

  lemma {:induction false} AcceptedShape(before: string, word: string, rest: string)
    requires before != "" && IsJsSpace(before[|before| - 1]) && word != "" && word[|word| - 1] == '='
    requires TailAt(before + word) == |before|
    ensures var value, at := before + word + rest, |before + word|;
      && SpaceAt(value[..at]) < at && TailAt(value[..at]) == |before|
      && '=' in value[|before|..at + SpaceAt(value[at..])]
  {
    var value, at := before + word + rest, |before + word|;
    assert value[..at] == before + word;
    SpaceBefore(before, word);
    EqualsInToken(before, word, rest, at + SpaceAt(value[at..]));
  }

  lemma {:induction false} FlagCloses(catalog: seq<Entry>, value: string, prefix: string, wordEnd: nat, command: string)
    requires |prefix| <= wordEnd <= |value| && '=' in value[TailAt(prefix)..wordEnd]
    ensures !FlagState(catalog, value, prefix, wordEnd, command).shown
  {
  }

  lemma {:induction false} AssignedCloses(catalog: seq<Entry>, value: string, at: nat)
    requires at <= |value| && SpaceAt(value[..at]) < at
    requires '=' in value[TailAt(value[..at])..at + SpaceAt(value[at..])]
    ensures !AtCaret(catalog, value, at).shown
  {
    var prefix := value[..at];
    if IsSlashLine(prefix) {
      FlagCloses(catalog, value, prefix, at + SpaceAt(value[at..]), Lower(prefix[..SpaceAt(prefix)][1..]));
    }
  }

  lemma {:induction false} SpaceBefore(before: string, word: string)
    requires before != "" && IsJsSpace(before[|before| - 1]) && word != ""
    ensures SpaceAt(before + word) < |before + word|
  {
    SpaceInside(before);
    SpaceAtAppend(before, word);
  }

  lemma EqualsInToken(before: string, word: string, rest: string, wordEnd: nat)
    requires word != "" && word[|word| - 1] == '=' && |before + word| <= wordEnd <= |before + word + rest|
    ensures '=' in (before + word + rest)[|before|..wordEnd]
  {
    assert (before + word + rest)[|before|..wordEnd][|word| - 1] == '=';
  }
}
