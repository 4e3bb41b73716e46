/** When each rule is reported. */
module SqlFindings {
  import opened Wrappers
  import opened PyText
  import opened SqlScope
  import opened SqlChecker
  import opened SqlMeaning
  import opened SqlWays

  // ---- statements without rules -----------------------------------------------

  predicate NoSpaceIn(s: string) { forall i :: 0 <= i < |s| ==> !IsSpace(s[i]) }

  /** The text begins with this word, and more follows behind whitespace. */
  predicate BeginsWith(s: string, word: string) {
    NoSpaceIn(word) && word < s && IsSpace(s[|word|])
  }

  lemma {:induction false} FirstWordFacts(s: string)
    ensures NoSpaceIn(FirstWord(s)) && FirstWord(s) <= s
    ensures |FirstWord(s)| < |s| ==> IsSpace(s[|FirstWord(s)|])
  {
    if s != "" && !IsSpace(s[0]) {
      FirstWordFacts(s[1..]);
      assert s == [s[0]] + s[1..];
    }
  }

  lemma {:induction false} FirstWordIs(s: string, word: string)
    requires BeginsWith(s, word)
    ensures FirstWord(s) == word
  {
    if word != "" {
      assert s[0] == word[0];
      FirstWordIs(s[1..], word[1..]);
    }
  }

  const LEADERS: set<string> := {"BEGIN", "COMMIT", "END", "PRAGMA", "RELEASE", "ROLLBACK", "SAVEPOINT"}

  /** The rules are not applied to blank text, to a text with a space that begins with a known keyword, and to
      a text without a space that is one. */
  lemma {:induction false} ExemptExactlyWhen(lx: Lexer, sql: string)
    ensures var body := Strip(sql);
      Exempt(lx, sql) <==>
      || body == ""
      || (' ' !in body && lx.upper(body) in LEADERS)
      || (' ' in body && exists word :: BeginsWith(body, word) && lx.upper(word) in LEADERS)
  {
    var body := Strip(sql);
    FirstWordFacts(body);
    if ' ' in body {
      assert BeginsWith(body, FirstWord(body));
      forall word | BeginsWith(body, word) ensures FirstWord(body) == word { FirstWordIs(body, word); }
    }
  }

  // ---- statements with rules --------------------------------------------------

  /** Behind the INSERT match comes something else than a parenthesis. */
  ghost predicate LacksColumns(lx: Lexer, code: string) {
    lx.afterInsert(code).Some? && !(exists i :: Opens(lx.afterInsert(code).value, i))
  }

  /** Position i is the first that is not whitespace, and holds a parenthesis. */
  predicate Opens(s: string, i: int) {
    0 <= i < |s| && s[i] == '(' && forall j :: 0 <= j < i ==> IsSpace(s[j])
  }

  lemma {:induction false} NamesColumnsExactlyWhen(lx: Lexer, code: string)
    ensures NamesColumns(lx, code) <==> !LacksColumns(lx, code)
  {
    if lx.afterInsert(code).Some? {
      var s := lx.afterInsert(code).value;
      StripLeftFacts(s);
      var r := StripLeft(s);
      if r != "" && r[0] == '(' { assert Opens(s, |s| - |r|); }
      if i :| Opens(s, i) {
        assert !IsSpace(s[i]);
        assert |s| - |r| <= i;
      }
    }
  }

  /** Each rule is reported exactly when it is broken. */
  lemma {:induction false} EachFindingExactlyWhen(lx: Lexer, sql: string, kind: Kind)
    requires !Exempt(lx, sql)
    ensures var fs, code := StatementFindings(lx, sql, kind), lx.strip(sql);
      && (InsertWithoutColumns in fs <==> LacksColumns(lx, code))
      && (PositionalPlaceholder in fs <==> '?' in code)
      && (MissingParameters in fs <==> kind.Absent? && HasNamed(code))
      && (UnusedParameters in fs <==> !kind.Absent? && !HasNamed(code) && '?' !in code)
      && (SequenceBinding in fs <==> kind.SequenceKind? && HasNamed(code))
      && (UnverifiedBinding in fs <==> kind.UnknownKind? && HasNamed(code))
  {
    NamesColumnsExactlyWhen(lx, lx.strip(sql));
  }

  /** Where named placeholders are filled, a sequence is reported exactly when every way through the parameters
      ends at one, and an unverified binding exactly when they end neither all at dicts nor all at sequences. */
  lemma {:induction false} BindingsReportedExactlyWhen(lx: Lexer, sql: string, params: Node, scope: Scope)
    requires !Exempt(lx, sql) && HasNamed(lx.strip(sql))
    ensures var fs := StatementFindings(lx, sql, ParamKind(Some(params), scope));
      && (SequenceBinding in fs <==> AllEndsAre(params, scope, {}, SequenceKind))
      && (UnverifiedBinding in fs <==>
            !AllEndsAre(params, scope, {}, SequenceKind) && !AllEndsAre(params, scope, {}, DictKind))
  {
    EachFindingExactlyWhen(lx, sql, ParamKind(Some(params), scope));
    KindExactly(params, scope, {}, SequenceKind);
    KindExactly(params, scope, {}, DictKind);
    KindIsNeverAbsent(params, scope, {});
  }

  /** A call of another name is never reported, and one without a statement only for that. */
  lemma OtherCallsAreSilent(lx: Lexer, call: Node, scope: Scope)
    ensures !SqlCall(call) ==> CallFindings(lx, call, scope) == []
    ensures SqlCall(call) && call.args == [] ==> CallFindings(lx, call, scope) == [NoSqlArgument]
  {
  }
}
