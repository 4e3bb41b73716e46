/** What a line says. */
module SlashParses {
  import opened Wrappers
  import opened SlashTokens
  import opened SlashProofs

  /** The same text with A to Z in lower case. */
  predicate IsLowerOf(s: string, r: string) {
    |r| == |s| && forall i :: 0 <= i < |s| ==> r[i] == if 'A' <= s[i] <= 'Z' then s[i] + ' ' else s[i]
  }

  predicate Dashed(token: string) { "--" <= token }

  /** The tokens that are no flags, in order. */
  predicate AreArgs(tokens: seq<string>, args: seq<string>) {
    if tokens == [] then args == []
    else if Dashed(tokens[0]) then AreArgs(tokens[1..], args)
    else args != [] && args[0] == tokens[0] && AreArgs(tokens[1..], args[1..])
  }

  /** The token sets the key: to what follows its first `=`, or on when there is none. */
  predicate Sets(token: string, key: string, v: FlagValue) {
    '=' !in key && match v case On => token == "--" + key case Given(t) => token == "--" + key + "=" + t
  }

  predicate Names(token: string, key: string) {
    '=' !in key && "--" + key <= token && (token == "--" + key || token[|key| + 2] == '=')
  }

  ghost predicate SetLast(tokens: seq<string>, key: string, v: FlagValue, i: int) {
    0 <= i < |tokens| && Sets(tokens[i], key, v) && forall j :: i < j < |tokens| ==> !Names(tokens[j], key)
  }

  predicate Has(flags: map<string, FlagValue>, key: string, v: FlagValue) { key in flags && flags[key] == v }

  ghost predicate LastSays(tokens: seq<string>, key: string, v: FlagValue) {
    key != "__proto__" && exists i :: SetLast(tokens, key, v, i)
  }

  ghost predicate IsFlagMap(tokens: seq<string>, flags: map<string, FlagValue>) {
    forall key, v :: Has(flags, key, v) <==> LastSays(tokens, key, v)
  }

  /** A slash, no second one, and behind it more than spaces. */
  predicate IsCommandLine(line: string) {
    "/" <= line && !("//" <= line) && exists i :: 0 < i < |line| && !IsJsSpace(line[i])
  }

  ghost predicate Says(line: string, c: Command) {
    && IsCommandLine(line)
    && (var tokens := Tokens(line[1..]);
        tokens != [] && IsLowerOf(tokens[0], c.command) && AreArgs(tokens[1..], c.args)
        && IsFlagMap(tokens[1..], c.flags))
  }

  // ---- the parts --------------------------------------------------------------

  lemma LowerExactly(s: string, r: string)
    ensures Lower(s) == r <==> IsLowerOf(s, r)
  {
  }

  lemma {:induction false} ArgsSplit(a: seq<string>, b: seq<string>)
    ensures Args(a + b) == Args(a) + Args(b)
  {
    if b == [] {
      assert a + b == a;
    } else {
      assert (a + b)[..|a + b| - 1] == a + b[..|b| - 1];
      ArgsSplit(a, b[..|b| - 1]);
    }
  }

  lemma {:induction false} ArgsExactly(tokens: seq<string>, args: seq<string>)
    ensures Args(tokens) == args <==> AreArgs(tokens, args)
  {
    if tokens != [] {
      assert tokens == [tokens[0]] + tokens[1..];
      ArgsSplit([tokens[0]], tokens[1..]);
      assert Args([tokens[0]]) == if Dashed(tokens[0]) then [] else [tokens[0]] by {
        assert [tokens[0]][..0] == [];
      }
      if Dashed(tokens[0]) {
        ArgsExactly(tokens[1..], args);
      } else if args != [] {
        ArgsExactly(tokens[1..], args[1..]);
        assert args == [args[0]] + args[1..];
      }
    }
  }

  lemma {:induction false} EqualsIsFirst(s: string)
    ensures '=' !in s[..EqualsAt(s)] && (EqualsAt(s) < |s| ==> s[EqualsAt(s)] == '=')
  {
    if s != "" && s[0] != '=' {
      EqualsIsFirst(s[1..]);
      assert s[..EqualsAt(s)] == [s[0]] + s[1..][..EqualsAt(s[1..])];
    }
  }

  lemma {:induction false} FlagSets(token: string)
    requires IsFlag(token)
    ensures Sets(token, FlagKey(token), FlagOf(token))
  {
    var body := token[2..];
    var k := EqualsAt(body);
    EqualsIsFirst(body);
    assert token == "--" + body;
    if k < |body| {
      assert body == body[..k] + "=" + body[k + 1..];
      assert "--" + (body[..k] + "=" + body[k + 1..]) == "--" + body[..k] + "=" + body[k + 1..];
    }
  }

  lemma {:induction false} SetsExactly(token: string, key: string, v: FlagValue)
    ensures Sets(token, key, v) <==> IsFlag(token) && FlagKey(token) == key && FlagOf(token) == v
  {
    if IsFlag(token) { FlagSets(token); }
    if Sets(token, key, v) {
      FlagSplits(key, v);
      assert token == FlagToken(key, v);
    }
  }

  lemma {:induction false} NamesExactly(token: string, key: string)
    ensures Names(token, key) <==> IsFlag(token) && FlagKey(token) == key
  {
    if IsFlag(token) { SetsExactly(token, FlagKey(token), FlagOf(token)); }
    if Names(token, key) {
      if token == "--" + key {
        SetsExactly(token, key, On);
      } else {
        assert token == "--" + key + "=" + token[|key| + 3..];
        SetsExactly(token, key, Given(token[|key| + 3..]));
      }
    }
  }

  lemma {:induction false} SetLastExactly(tokens: seq<string>, key: string, v: FlagValue, i: int)
    ensures SetLast(tokens, key, v, i) <==> LastOf(tokens, key, i) && FlagOf(tokens[i]) == v
  {
    if 0 <= i < |tokens| {
      SetsExactly(tokens[i], key, v);
      forall j | i < j < |tokens|
        ensures Names(tokens[j], key) <==> IsFlag(tokens[j]) && FlagKey(tokens[j]) == key
      {
        NamesExactly(tokens[j], key);
      }
    }
  }

  lemma {:induction false} FlagsAreMap(tokens: seq<string>)
    ensures IsFlagMap(tokens, Flags(tokens))
  {
    var flags := Flags(tokens);
    forall key: string, v: FlagValue
      ensures Has(flags, key, v) <==> LastSays(tokens, key, v)
    {
      LastFlagWins(tokens, key);
      forall i ensures SetLast(tokens, key, v, i) <==> LastOf(tokens, key, i) && FlagOf(tokens[i]) == v {
        SetLastExactly(tokens, key, v, i);
      }
    }
  }

  lemma {:induction false} FlagsExactly(tokens: seq<string>, flags: map<string, FlagValue>)
    ensures Flags(tokens) == flags <==> IsFlagMap(tokens, flags)
  {
    FlagsAreMap(tokens);
    if IsFlagMap(tokens, flags) { MapsAgree(tokens, Flags(tokens), flags); }
  }

  lemma MapsAgree(tokens: seq<string>, a: map<string, FlagValue>, b: map<string, FlagValue>)
    requires IsFlagMap(tokens, a) && IsFlagMap(tokens, b)
    ensures a == b
  {
    forall key: string, v: FlagValue ensures Has(a, key, v) <==> Has(b, key, v) {
      assert Has(a, key, v) <==> LastSays(tokens, key, v);
    }
    forall key | key in a ensures key in b && b[key] == a[key] { assert Has(a, key, a[key]); }
    forall key | key in b ensures key in a { assert Has(b, key, b[key]); }
  }

  /** A line parses to a command exactly when it says that command. */
  lemma {:induction false} ParsesExactlyWhen(line: string, c: Command)
    ensures Parse(line) == Some(c) <==> Says(line, c)
  {
    assert IsCommandLine(line) <==> IsSlashLine(line) && !AllJsSpace(line[1..]);
    if IsCommandLine(line) && Tokens(line[1..]) != [] {
      var tokens := Tokens(line[1..]);
      LowerExactly(tokens[0], c.command);
      ArgsExactly(tokens[1..], c.args);
      FlagsExactly(tokens[1..], c.flags);
    }
  }
}
