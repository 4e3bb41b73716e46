/** Texts of several statements. */
module SqlScripts {
  import opened Wrappers
  import opened PyText
  import opened MarkedText
  import opened Splits
  import opened SqlChecker
  import opened SqlSoundness

  // ---- statements one by one --------------------------------------------------

  function Statements(lx: Lexer, sql: string): seq<string> { Split(lx.strip(sql), ';') }

  predicate Leads(lx: Lexer, statement: string) {
    lx.upper(FirstWord(Strip(statement))) in UNBOUND_LEADERS
  }

  predicate HasNoRules(lx: Lexer, statement: string) { Strip(statement) == "" || Leads(lx, statement) }

  /** A single statement that is issued without parameters keeps the rules. */
  predicate StatementKeeps(lx: Lexer, statement: string) {
    HasNoRules(lx, statement) || (NamesColumns(lx, statement) && '?' !in statement && !HasNamed(statement))
  }

  predicate AllKeep(lx: Lexer, statements: seq<string>) {
    forall k :: 0 <= k < |statements| ==> StatementKeeps(lx, statements[k])
  }

  predicate Inserts(lx: Lexer, statement: string) { lx.afterInsert(statement).Some? }

  predicate BehindAnInsert(lx: Lexer, statements: seq<string>, k: int) {
    exists j :: 0 <= j < k < |statements| && Inserts(lx, statements[j])
  }

  /** Each statement behind one that inserts names its columns, if it inserts too. */
  predicate LaterInsertsNameColumns(lx: Lexer, statements: seq<string>) {
    forall k :: 0 <= k < |statements| && BehindAnInsert(lx, statements, k) ==>
      HasNoRules(lx, statements[k]) || NamesColumns(lx, statements[k])
  }

  // ---- what is asked of the patterns ------------------------------------------

  /** The INSERT pattern matches no semicolon, so a match lies in one statement and the first one counts. */
  ghost predicate InsertsStayInside(lx: Lexer) {
    forall a: string, b: string :: ';' !in a ==> lx.afterInsert(a + ([';'] + b)) == FirstMatch(lx, a, b)
  }

  function FirstMatch(lx: Lexer, a: string, b: string): Option<string> {
    if Inserts(lx, a) then Some(lx.afterInsert(a).value + ([';'] + b)) else lx.afterInsert(b)
  }

  /** Noise removal leaves a leading keyword in front, and blank text blank. */
  ghost predicate LeadersStay(lx: Lexer) {
    forall sql: string :: Exempt(lx, sql) ==> HasNoRules(lx, Statements(lx, sql)[0])
  }

  // ---- the first INSERT decides -----------------------------------------------

  lemma ParenthesisIsEarly(v: string, b: string)
    requires StripLeft(v + ([';'] + b)) != "" && StripLeft(v + ([';'] + b))[0] == '('
    ensures StripLeft(v) != "" && StripLeft(v)[0] == '('
  {
    StripsAgree(v);
    assert StripLeft([';'] + b) == [';'] + b;
    if StripLeft(v) == "" {
      StripLeftBlank(v, [';'] + b);
    } else {
      StripLeftInk(v, [';'] + b);
    }
  }

  /** When the text names columns, so does every statement with no INSERT before it. */
  lemma {:induction false} FirstInsertDecides(lx: Lexer, code: string, k: nat)
    requires InsertsStayInside(lx) && NamesColumns(lx, code)
    requires k < |Split(code, ';')| && !BehindAnInsert(lx, Split(code, ';'), k)
    ensures NamesColumns(lx, Split(code, ';')[k])
    decreases |code|
  {
    var ps := Split(code, ';');
    var first, rest := SplitCases(code, ';');
    if ';' in code {
      assert lx.afterInsert(first + ([';'] + rest)) == FirstMatch(lx, first, rest);
      if k == 0 {
        if Inserts(lx, first) { ParenthesisIsEarly(lx.afterInsert(first).value, rest); }
      } else {
        assert !Inserts(lx, ps[0]);
        var later := Split(rest, ';');
        forall j | 0 <= j < k - 1 ensures !Inserts(lx, later[j]) { assert later[j] == ps[j + 1]; }
        FirstInsertDecides(lx, rest, k - 1);
      }
    }
  }

  /** A placeholder of a statement is one of the text. */
  lemma {:induction false} NoPlaceholders(code: string, k: nat)
    requires k < |Split(code, ';')| && '?' !in code && !HasNamed(code)
    ensures '?' !in Split(code, ';')[k] && !HasNamed(Split(code, ';')[k])
  {
    var p := Split(code, ';')[k];
    var i := PieceIsInside(code, ';', k);
    assert forall j :: 0 <= j < |p| ==> p[j] == code[i + j];
  }

  // ---- scripts ----------------------------------------------------------------

  /** The checker reads a text as one statement. When it is silent about one without parameters, each of its
      statements keeps the rules exactly when, behind a leading keyword it knows, the others do; and otherwise
      when each statement behind the first INSERT names its columns. */
  lemma {:induction false} ScriptKeepsExactlyWhen(lx: Lexer, sql: string)
    requires InsertsStayInside(lx) && LeadersStay(lx) && Keeps(lx, sql, false, false)
    ensures var ps := Statements(lx, sql);
      AllKeep(lx, ps) <==> if Exempt(lx, sql) then AllKeep(lx, ps[1..]) else LaterInsertsNameColumns(lx, ps)
  {
    var code, ps := lx.strip(sql), Statements(lx, sql);
    if Exempt(lx, sql) {
      assert StatementKeeps(lx, ps[0]);
      assert forall k :: 1 <= k < |ps| ==> ps[k] == ps[1..][k - 1];
    } else {
      forall k | 0 <= k < |ps| ensures StatementKeeps(lx, ps[k]) <==> HasNoRules(lx, ps[k]) || NamesColumns(lx, ps[k]) {
        NoPlaceholders(code, k);
      }
      forall k | 0 <= k < |ps| && !BehindAnInsert(lx, ps, k) ensures NamesColumns(lx, ps[k]) {
        FirstInsertDecides(lx, code, k);
      }
    }
  }

  /** A text without a semicolon is covered. */
  lemma OneStatementIsCovered(lx: Lexer, sql: string)
    requires InsertsStayInside(lx) && LeadersStay(lx) && Keeps(lx, sql, false, false) && ';' !in lx.strip(sql)
    ensures AllKeep(lx, Statements(lx, sql))
  {
    ScriptKeepsExactlyWhen(lx, sql);
    SplitFirst(lx.strip(sql), ';', "");
  }

  /** A pragma, or an INSERT that names its columns, in front of an INSERT that does not: the checker is silent. */
  lemma {:induction false} SecondStatementEscapes(lx: Lexer, first: string, second: string)
    requires var sql := first + ([';'] + second); lx.strip(sql) == sql && (Exempt(lx, sql) || NamesNoneAsked(lx, sql))
    requires ';' !in first && ';' !in second && !HasNoRules(lx, second) && !NamesColumns(lx, second)
    ensures var sql := first + ([';'] + second); Keeps(lx, sql, false, false) && !AllKeep(lx, Statements(lx, sql))
  {
    var sql := first + ([';'] + second);
    SplitFirst(first, ';', second);
    SplitFirst(second, ';', "");
    assert Statements(lx, sql)[1] == second;
  }

  predicate NamesNoneAsked(lx: Lexer, code: string) {
    NamesColumns(lx, code) && '?' !in code && !HasNamed(code)
  }
}
