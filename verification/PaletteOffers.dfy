/** What the palette offers. */
module PaletteOffers {
  import opened Wrappers
  import opened SlashTokens
  import opened SlashParses
  import opened SlashPalette

  // ---- places in a text -------------------------------------------------------

  predicate NoSpace(s: string) { forall i :: 0 <= i < |s| ==> !IsJsSpace(s[i]) }

  /** Inside the text the caret is where it is, outside at the nearer end, and at the end when not given. */
  predicate IsCaret(value: string, caret: Option<int>, at: int) {
    match caret
    case None => at == |value|
    case Some(c) => if c < 0 then at == 0 else if c > |value| then at == |value| else at == c
  }

  /** The word that starts or goes on at one place ends at the other. */
  predicate EndsWord(value: string, at: int, to: int) {
    0 <= at <= to <= |value| && NoSpace(value[at..to]) && (to < |value| ==> IsJsSpace(value[to]))
  }

  predicate LastWordTo(s: string, from: int, end: int) {
    && 0 <= from < end <= |s| && NoSpace(s[from..end]) && AllJsSpace(s[end..])
    && (from > 0 ==> IsJsSpace(s[from - 1]))
  }

  /** The last word of the text starts there. */
  ghost predicate IsLastWord(s: string, from: int) {
    exists end :: LastWordTo(s, from, end)
  }

  // ---- offers -----------------------------------------------------------------

  /** The name goes on from what is typed, in lower case. */
  predicate Completes(typed: string, name: string) {
    |typed| <= |name| && IsLowerOf(typed, name[..|typed|])
  }

  predicate StartsCommand(s: string) { "/" <= s && !("//" <= s) }

  /** The first command of that name has the parameter. */
  predicate FirstHas(catalog: seq<Entry>, typed: string, flag: string, i: int) {
    && 0 <= i < |catalog| && IsLowerOf(typed, catalog[i].command) && flag in catalog[i].flags
    && forall k :: 0 <= k < i ==> !IsLowerOf(typed, catalog[k].command)
  }

  /** In the command word: every command that completes it, for the whole word. */
  ghost predicate OffersCommand(catalog: seq<Entry>, before: string, name: string, from: int) {
    && StartsCommand(before) && NoSpace(before) && from == 0
    && Completes(before[1..], name) && exists e :: e in catalog && e.command == name
  }

  function Dashes(token: string): nat { if "--" <= token then 2 else 1 }

  /** A dashed word without `=`, and the parameters of the command that complete it. */
  ghost predicate OffersParameter(catalog: seq<Entry>, typed: string, token: string, name: string) {
    "-" <= token && '=' !in token && Completes(token[Dashes(token)..], name)
    && exists i :: FirstHas(catalog, typed, name, i)
  }

  ghost predicate OffersBehind(catalog: seq<Entry>, before: string, token: string, name: string, end: int) {
    0 < end < |before| && EndsWord(before, 0, end) && OffersParameter(catalog, before[1..end], token, name)
  }

  ghost predicate OffersToken(catalog: seq<Entry>, before: string, token: string, name: string) {
    exists end :: OffersBehind(catalog, before, token, name, end)
  }

  /** Behind the command word: the parameters that complete the last word, for the whole of it. */
  ghost predicate OffersFlag(catalog: seq<Entry>, value: string, before: string, name: string, from: int, to: int) {
    && StartsCommand(before) && IsLastWord(before, from) && 0 <= from <= to <= |value|
    && OffersToken(catalog, before, value[from..to], name)
  }

  // ---- searching finds these places -------------------------------------------

  lemma {:induction false} SpaceExactly(s: string, k: nat)
    ensures SpaceAt(s) == k <==> EndsWord(s, 0, k)
  {
    if s != "" && !IsJsSpace(s[0]) && k > 0 {
      SpaceExactly(s[1..], k - 1);
      if k <= |s| {
        assert s[0..k] == [s[0]] + s[1..][0..k - 1];
        if k < |s| { assert s[k] == s[1..][k - 1]; }
      }
    }
  }

  lemma {:induction false} WordEndExactly(value: string, at: nat, to: int)
    requires at <= |value|
    ensures to == at + SpaceAt(value[at..]) <==> EndsWord(value, at, to)
  {
    if at <= to <= |value| {
      SpaceExactly(value[at..], to - at);
      assert value[at..][0..to - at] == value[at..to];
    }
  }

  lemma {:induction false} TailStarts(s: string)
    requires TailAt(s) < |s|
    ensures IsLastWord(s, TailAt(s))
  {
    var from := TailAt(s);
    if from > 0 { TailIsWordStart(s); }
    var rest := s[from..];
    SpaceExactly(rest, SpaceAt(rest));
    var end := from + SpaceAt(rest);
    assert TailMatches(rest) && s[end..] == rest[SpaceAt(rest)..] && s[from..end] == rest[0..SpaceAt(rest)];
    assert LastWordTo(s, from, end);
  }

  lemma LastWordChars(s: string, from: int, end: int)
    requires LastWordTo(s, from, end)
    ensures !IsJsSpace(s[from]) && forall i :: from <= i < end ==> !IsJsSpace(s[i])
    ensures forall i :: end <= i < |s| ==> IsJsSpace(s[i])
  {
    assert forall i :: from <= i < end ==> s[i] == s[from..end][i - from];
    assert forall i :: end <= i < |s| ==> s[i] == s[end..][i - end];
  }

  lemma {:induction false} LastWordIsOne(s: string, from: int, end: int, other: int, end': int)
    requires LastWordTo(s, from, end) && LastWordTo(s, other, end')
    ensures from <= other
  {
    LastWordChars(s, from, end);
    LastWordChars(s, other, end');
    assert from > 0 ==> IsJsSpace(s[from - 1]);
  }

  lemma {:induction false} TailExactly(s: string, from: int)
    ensures from == TailAt(s) && TailAt(s) < |s| <==> IsLastWord(s, from)
  {
    if TailAt(s) < |s| { TailStarts(s); }
    if end :| LastWordTo(s, from, end) {
      assert s[from..end][0] == s[from];
      TailExists(s);
      var end' :| LastWordTo(s, TailAt(s), end');
      LastWordIsOne(s, from, end, TailAt(s), end');
      LastWordIsOne(s, TailAt(s), end', from, end);
    }
  }

  // ---- the state offers just these --------------------------------------------

  lemma CompletesExactly(typed: string, name: string)
    ensures Lower(typed) <= name <==> Completes(typed, name)
  {
    if |typed| <= |name| { LowerExactly(typed, name[..|typed|]); }
  }

  lemma {:induction false} EntryIsFirst(catalog: seq<Entry>, typed: string, flag: string)
    ensures (FindEntry(catalog, Lower(typed)).Some? && flag in FindEntry(catalog, Lower(typed)).value.flags)
       <==> exists i :: FirstHas(catalog, typed, flag, i)
  {
    if catalog != [] {
      LowerExactly(typed, catalog[0].command);
      EntryIsFirst(catalog[1..], typed, flag);
      if i :| FirstHas(catalog, typed, flag, i) && i > 0 {
        assert catalog[1..][i - 1] == catalog[i];
        forall k | 0 <= k < i - 1 ensures !IsLowerOf(typed, catalog[1..][k].command) {
          assert catalog[1..][k] == catalog[k + 1];
        }
        assert FirstHas(catalog[1..], typed, flag, i - 1);
      }
      if i :| FirstHas(catalog[1..], typed, flag, i) && catalog[0].command != Lower(typed) {
        assert FirstHas(catalog, typed, flag, i + 1);
      }
      if catalog[0].command == Lower(typed) && flag in catalog[0].flags { assert FirstHas(catalog, typed, flag, 0); }
    }
  }

  predicate Offered(p: Palette, mode: Mode, name: string, from: int, to: int) {
    p.shown && p.mode == mode && name in p.matches && p.from == from && p.to == to
  }

  lemma {:induction false} CommandsBefore(catalog: seq<Entry>, value: string, at: nat, wordEnd: nat, name: string,
                                          from: int)
    requires at <= wordEnd <= |value|
    ensures Offered(StateAt(catalog, value, at, wordEnd), Commands, name, from, wordEnd)
      <==> OffersCommand(catalog, value[..at], name, from)
  {
    var before := value[..at];
    SpaceExactly(before, |before|);
    assert before[0..|before|] == before;
    if IsSlashLine(before) && SpaceAt(before) == |before| {
      MatchIsOffered(CommandNames(catalog), Lower(before[1..]), name);
      CompletesExactly(before[1..], name);
      NamedEntry(catalog, name);
    }
  }

  lemma {:induction false} ParameterExactly(catalog: seq<Entry>, value: string, before: string, to: nat, typed: string,
                                            name: string, from: int)
    requires before <= value && |before| <= to <= |value| && StartsCommand(before)
    ensures Offered(FlagState(catalog, value, before, to, Lower(typed)), FlagNames, name, from, to)
      <==> IsLastWord(before, from) && 0 <= from <= to && OffersParameter(catalog, typed, value[from..to], name)
  {
    TailExactly(before, from);
    SlashIsWord(before);
    EntryIsFirst(catalog, typed, name);
    var entry := FindEntry(catalog, Lower(typed));
    if from == TailAt(before) {
      var token := value[from..to];
      if token != "" && token[0] == '-' {
        assert WithoutDashes(token) == token[Dashes(token)..];
        CompletesExactly(token[Dashes(token)..], name);
        if entry.Some? { MatchIsOffered(entry.value.flags, Lower(WithoutDashes(token)), name); }
      }
    }
  }

  lemma SlashIsWord(before: string)
    requires StartsCommand(before)
    ensures TailAt(before) < |before|
  {
    assert !IsJsSpace(before[0]);
    TailExists(before);
  }

  lemma {:induction false} BehindExactly(catalog: seq<Entry>, before: string, token: string, name: string)
    requires StartsCommand(before)
    ensures 0 < SpaceAt(before)
    ensures OffersToken(catalog, before, token, name)
      <==> SpaceAt(before) < |before| && OffersParameter(catalog, before[1..SpaceAt(before)], token, name)
  {
    var end := SpaceAt(before);
    SpaceExactly(before, end);
    assert before[0] == '/';
    if end < |before| && OffersParameter(catalog, before[1..end], token, name) {
      assert OffersBehind(catalog, before, token, name, end);
    }
    if k :| OffersBehind(catalog, before, token, name, k) { SpaceExactly(before, k); }
  }

  /** Behind the command word the state is that of a parameter. */
  lemma {:induction false} StateIs(catalog: seq<Entry>, value: string, at: nat, before: string, wordEnd: nat, cut: nat)
    requires at <= wordEnd <= |value| && before == value[..at] && cut == SpaceAt(before)
    ensures !(StartsCommand(before) && cut < |before|) ==> StateAt(catalog, value, at, wordEnd).mode.Commands?
    ensures StartsCommand(before) && 0 < cut < |before| ==>
      StateAt(catalog, value, at, wordEnd) == FlagState(catalog, value, before, wordEnd, Lower(before[1..cut]))
  {
    if 0 < cut { assert before[..cut][1..] == before[1..cut]; }
  }

  lemma {:induction false} FlagsBefore(catalog: seq<Entry>, value: string, at: nat, before: string, wordEnd: nat,
                                       name: string, from: int)
    requires at <= wordEnd <= |value| && before == value[..at]
    ensures Offered(StateAt(catalog, value, at, wordEnd), FlagNames, name, from, wordEnd)
      <==> OffersFlag(catalog, value, before, name, from, wordEnd)
  {
    var cut := SpaceAt(before);
    StateIs(catalog, value, at, before, wordEnd, cut);
    if StartsCommand(before) {
      var token := if 0 <= from <= wordEnd then value[from..wordEnd] else "";
      BehindExactly(catalog, before, token, name);
      if cut < |before| { ParameterExactly(catalog, value, before, wordEnd, before[1..cut], name, from); }
    }
  }

  lemma CaretExactly(value: string, caret: Option<int>, at: int)
    ensures Clamp(value, caret) == at <==> IsCaret(value, caret, at)
  {
  }

  lemma {:induction false} CommandsHere(catalog: seq<Entry>, value: string, at: nat, name: string, from: int)
    requires at <= |value|
    ensures Offered(AtCaret(catalog, value, at), Commands, name, from, at + SpaceAt(value[at..]))
      <==> OffersCommand(catalog, value[..at], name, from)
  {
    CommandsBefore(catalog, value, at, at + SpaceAt(value[at..]), name, from);
  }

  lemma {:induction false} FlagsHere(catalog: seq<Entry>, value: string, at: nat, name: string, from: int)
    requires at <= |value|
    ensures Offered(AtCaret(catalog, value, at), FlagNames, name, from, at + SpaceAt(value[at..]))
      <==> OffersFlag(catalog, value, value[..at], name, from, at + SpaceAt(value[at..]))
  {
    FlagsBefore(catalog, value, at, value[..at], at + SpaceAt(value[at..]), name, from);
  }

  /** The palette offers exactly the commands that complete the word typed before the caret, for the whole word. */
  lemma {:induction false} CommandsOfferedExactly(catalog: seq<Entry>, value: string, caret: Option<int>, name: string,
                                                  from: int)
    ensures var at := Clamp(value, caret);
      Offered(State(catalog, value, caret), Commands, name, from, at + SpaceAt(value[at..]))
      <==> OffersCommand(catalog, value[..at], name, from)
  {
    CommandsHere(catalog, value, Clamp(value, caret), name, from);
  }

  /** And exactly the parameters of the command in front that complete the dashed word at the caret. */
  lemma {:induction false} FlagsOfferedExactly(catalog: seq<Entry>, value: string, caret: Option<int>, name: string,
                                               from: int)
    ensures var at := Clamp(value, caret);
      Offered(State(catalog, value, caret), FlagNames, name, from, at + SpaceAt(value[at..]))
      <==> OffersFlag(catalog, value, value[..at], name, from, at + SpaceAt(value[at..]))
  {
    FlagsHere(catalog, value, Clamp(value, caret), name, from);
  }

  /** It is open exactly when it offers something, and what it offers is for the word at the caret. */
  lemma {:induction false} OpenExactlyWhen(catalog: seq<Entry>, value: string, caret: Option<int>)
    ensures State(catalog, value, caret).shown <==> State(catalog, value, caret).matches != []
    ensures State(catalog, value, caret).shown ==>
      EndsWord(value, Clamp(value, caret), State(catalog, value, caret).to)
  {
    WordEndExactly(value, Clamp(value, caret), Clamp(value, caret) + SpaceAt(value[Clamp(value, caret)..]));
  }

  /** Names are offered in the order of the catalog. */
  lemma {:induction false} OfferedInOrder(names: seq<string>, more: seq<string>, query: string)
    ensures StartingWith(names + more, query) == StartingWith(names, query) + StartingWith(more, query)
    ensures |names| == 1 ==> StartingWith(names, query) == if query <= names[0] then names else []
  {
    if names == [] {
      assert names + more == more;
    } else {
      assert (names + more)[1..] == names[1..] + more;
      OfferedInOrder(names[1..], more, query);
    }
  }

  /** Accepting a name puts it, as a command or as a parameter, where the word was, and the caret behind it. */
  lemma {:induction false} AcceptedInPlace(value: string, p: Palette, name: string)
    requires p.shown && p.from <= p.to <= |value|
    ensures var a := Accept(value, p, Some(name)).value;
      && p.from <= a.caret <= |a.value|
      && a.value[..p.from] == value[..p.from] && a.value[a.caret..] == value[p.to..]
      && a.value[p.from..a.caret] == if p.mode.Commands? then "/" + name + " " else "--" + name + "="
  {
    var text := if p.mode.Commands? then "/" + name + " " else "--" + name + "=";
    var a := Accept(value, p, Some(name)).value;
    assert a == Accepted(value[..p.from] + text + value[p.to..], p.from + |text|);
  }
}
