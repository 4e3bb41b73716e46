/** A clean file issues only safe SQL. */
module SqlSoundness {
  import opened Wrappers
  import opened SqlScope
  import opened SqlChecker
  import opened SqlVisits
  import opened SqlMeaning

  // ---- the rules --------------------------------------------------------------

  /** A statement that keeps the rules, given whether parameters are passed and only dicts are bound. */
  predicate Keeps(lx: Lexer, sql: string, given: bool, dicts: bool) {
    Exempt(lx, sql) ||
    (var code := lx.strip(sql);
     && NamesColumns(lx, code)
     && '?' !in code
     && (HasNamed(code) <==> given)
     && (given ==> dicts))
  }

  /** The rule checker is silent about a statement exactly when it keeps the rules. */
  lemma {:induction false} SilentExactlyWhenKept(lx: Lexer, sql: string, kind: Kind)
    ensures StatementFindings(lx, sql, kind) == [] <==> Keeps(lx, sql, !kind.Absent?, kind.DictKind?)
  {
  }

  lemma {:induction false} EveryTextIsChecked(lx: Lexer, texts: seq<string>, done: set<string>, kind: Kind, sql: string)
    requires TextFindings(lx, texts, done, kind) == [] && sql in texts && sql !in done
    ensures StatementFindings(lx, sql, kind) == []
  {
    assert texts == [texts[0]] + texts[1..];
    if texts[0] in done {
      EveryTextIsChecked(lx, texts[1..], done, kind, sql);
    } else if texts[0] != sql {
      EveryTextIsChecked(lx, texts[1..], done + {texts[0]}, kind, sql);
    }
  }

  // ---- what a call passes -----------------------------------------------------

  predicate NamesParameters(k: Node) {
    k.KeywordArg? && k.arg.Some? && k.arg.value in PARAMETER_KEYWORDS
  }

  predicate SpreadsMapping(k: Node) { k.KeywordArg? && k.arg.None? }

  /** Without a second argument a `**mapping` may pass parameters of any kind. */
  predicate Spreads(call: Node)
    requires call.Call?
  {
    |call.args| <= 1 && exists k :: 0 <= k < |call.keywords| && SpreadsMapping(call.keywords[k])
  }

  ghost predicate PassesByName(keywords: seq<Node>, scope: Scope, v: Value) {
    exists k :: 0 <= k < |keywords| && NamesParameters(keywords[k]) && MayBe(keywords[k].value, scope, v)
  }

  predicate NamesNone(keywords: seq<Node>) {
    forall k :: 0 <= k < |keywords| ==> !NamesParameters(keywords[k])
  }

  /** What the call may pass as its parameters, None for nothing: the second argument; else the value of
      any parameter keyword; else nothing; and anything at all when a mapping is spread. */
  ghost predicate MayPass(call: Node, scope: Scope, passed: Option<Value>)
    requires call.Call?
  {
    if |call.args| > 1 then passed.Some? && MayBe(call.args[1], scope, passed.value)
    else
      || Spreads(call)
      || (if passed.Some? then PassesByName(call.keywords, scope, passed.value) else NamesNone(call.keywords))
  }

  /** The call may issue this statement with these parameters. */
  ghost predicate Issues(call: Node, scope: Scope, sql: string, passed: Option<Value>)
    requires call.Call? && call.args != []
  {
    MayBe(call.args[0], scope, Text(sql)) && MayPass(call, scope, passed)
  }

  predicate KeepsWith(lx: Lexer, sql: string, passed: Option<Value>) {
    Keeps(lx, sql, passed.Some?, passed.Some? ==> OnlyDicts(passed.value))
  }

  /** Every statement the call can issue keeps the rules with whatever it can pass. */
  ghost predicate SafeCall(lx: Lexer, call: Node, scope: Scope) {
    SqlCall(call) ==>
      && call.args != []
      && forall sql: string, passed: Option<Value> :: Issues(call, scope, sql, passed) ==> KeepsWith(lx, sql, passed)
  }

  /** The parameters are where the checker looks: in the second argument, or in a lone parameter keyword
      with no mapping spread beside it. */
  predicate ParametersInSight(call: Node) {
    SqlCall(call) && |call.args| <= 1 ==>
      && !Spreads(call)
      && forall j, k :: 0 <= j < k < |call.keywords| && NamesParameters(call.keywords[j]) ==>
           !NamesParameters(call.keywords[k])
  }

  /** It can only issue statements without rules. */
  ghost predicate OnlyExempt(lx: Lexer, call: Node, scope: Scope)
    requires call.Call? && call.args != []
  {
    forall sql: string :: MayBe(call.args[0], scope, Text(sql)) ==> Exempt(lx, sql)
  }

  /** Whichever parameter keyword counts, it passes dicts. */
  ghost predicate NamedAreDicts(call: Node, scope: Scope)
    requires call.Call?
  {
    |call.args| <= 1 ==> forall v: Value :: PassesByName(call.keywords, scope, v) ==> OnlyDicts(v)
  }

  ghost predicate Covered(lx: Lexer, call: Node, scope: Scope) {
    SqlCall(call) && call.args != [] ==> OnlyExempt(lx, call, scope) || (!Spreads(call) && NamedAreDicts(call, scope))
  }

  // ---- a call without findings ------------------------------------------------

  lemma {:induction false} KeywordIsFound(keywords: seq<Node>)
    ensures KeywordParams(keywords).None? <==> NamesNone(keywords)
    ensures KeywordParams(keywords).Some? ==> exists k ::
      0 <= k < |keywords| && NamesParameters(keywords[k]) && keywords[k].value == KeywordParams(keywords).value
  {
    if keywords != [] {
      var init, last := keywords[..|keywords| - 1], keywords[|keywords| - 1];
      KeywordIsFound(init);
      assert NamesParameters(last) <==> NamesParameters(keywords[|keywords| - 1]);
      if !NamesParameters(last) && KeywordParams(init).Some? {
        var k :| 0 <= k < |init| && NamesParameters(init[k]) && init[k].value == KeywordParams(init).value;
        assert keywords[k] == init[k];
      }
      if NamesNone(keywords) {
        forall k | 0 <= k < |init| ensures !NamesParameters(init[k]) { assert init[k] == keywords[k]; }
      }
    }
  }

  /** The checker sees parameters exactly when some are passed, unless a mapping is spread. */
  lemma {:induction false} PassedIsSeen(call: Node, scope: Scope, passed: Option<Value>)
    requires call.Call? && !Spreads(call) && MayPass(call, scope, passed)
    ensures Params(call).Some? <==> passed.Some?
  {
    if |call.args| <= 1 { KeywordIsFound(call.keywords); }
  }

  /** Each statement of a silent call keeps the rules for parameters of the kind seen. */
  lemma {:induction false} SilentStatement(lx: Lexer, call: Node, scope: Scope, sql: string)
    requires SqlCall(call) && CallFindings(lx, call, scope) == []
    requires call.args != [] && MayBe(call.args[0], scope, Text(sql))
    ensures var kind := ParamKind(Params(call), scope); Keeps(lx, sql, Params(call).Some?, kind.DictKind?)
  {
    var r, kind := Resolve(call.args[0], scope, {}), ParamKind(Params(call), scope);
    var depth: nat :| Denotes(call.args[0], scope, Text(sql), depth);
    ResolveCovers(call.args[0], scope, {}, Text(sql), depth, sql);
    EveryTextIsChecked(lx, r.texts, {}, kind, sql);
    SilentExactlyWhenKept(lx, sql, kind);
    if Params(call).Some? { KindIsNeverAbsent(Params(call).value, scope, {}); }
  }

  lemma {:induction false} KindBindsDicts(n: Node, scope: Scope, v: Value)
    requires KindOf(n, scope, {}) == DictKind && MayBe(n, scope, v)
    ensures OnlyDicts(v)
  {
    var depth: nat :| Denotes(n, scope, v, depth);
    DictKindBindsDicts(n, scope, {}, v, depth);
  }

  lemma {:induction false} PassedIsKept(lx: Lexer, call: Node, scope: Scope, sql: string, passed: Option<Value>)
    requires SqlCall(call) && !Spreads(call) && NamedAreDicts(call, scope) && MayPass(call, scope, passed)
    requires !Exempt(lx, sql)
    requires var kind := ParamKind(Params(call), scope); Keeps(lx, sql, Params(call).Some?, kind.DictKind?)
    ensures Keeps(lx, sql, passed.Some?, passed.Some? ==> OnlyDicts(passed.value))
  {
    PassedIsSeen(call, scope, passed);
    if passed.Some? { PassedAreDicts(lx, call, scope, sql, passed.value); }
    KeptWithDicts(lx, sql, passed, ParamKind(Params(call), scope));
  }

  lemma {:induction false} CoveredStatementIsKept(lx: Lexer, call: Node, scope: Scope, sql: string,
                                                  passed: Option<Value>)
    requires SqlCall(call) && CallFindings(lx, call, scope) == [] && call.args != []
    requires OnlyExempt(lx, call, scope) || (!Spreads(call) && NamedAreDicts(call, scope))
    requires Issues(call, scope, sql, passed)
    ensures KeepsWith(lx, sql, passed)
  {
    if !Exempt(lx, sql) {
      SilentStatement(lx, call, scope, sql);
      PassedIsKept(lx, call, scope, sql, passed);
    }
  }

  lemma SilentHasAStatement(lx: Lexer, call: Node, scope: Scope)
    requires SqlCall(call) && CallFindings(lx, call, scope) == []
    ensures call.args != []
  {
  }

  lemma {:induction false} CoveredIsSafe(lx: Lexer, call: Node, scope: Scope)
    requires SqlCall(call) && CallFindings(lx, call, scope) == [] && Covered(lx, call, scope)
    ensures SafeCall(lx, call, scope)
  {
    SilentHasAStatement(lx, call, scope);
    forall sql: string, passed: Option<Value> | Issues(call, scope, sql, passed) ensures KeepsWith(lx, sql, passed) {
      CoveredStatementIsKept(lx, call, scope, sql, passed);
    }
  }

  lemma {:induction false} PassedAreDicts(lx: Lexer, call: Node, scope: Scope, sql: string, v: Value)
    requires SqlCall(call) && !Spreads(call) && NamedAreDicts(call, scope) && MayPass(call, scope, Some(v))
    requires !Exempt(lx, sql) && Params(call).Some?
    requires var kind := ParamKind(Params(call), scope); Keeps(lx, sql, true, kind.DictKind?)
    ensures OnlyDicts(v)
  {
    if |call.args| > 1 { KindBindsDicts(call.args[1], scope, v); }
  }

  lemma KeptWithDicts(lx: Lexer, sql: string, passed: Option<Value>, kind: Kind)
    requires Keeps(lx, sql, passed.Some?, kind.DictKind?) && (passed.Some? ==> OnlyDicts(passed.value))
    ensures Keeps(lx, sql, passed.Some?, passed.Some? ==> OnlyDicts(passed.value))
  {
  }

  lemma {:induction false} SafeIsCovered(lx: Lexer, call: Node, scope: Scope)
    requires SqlCall(call) && SafeCall(lx, call, scope)
    ensures Covered(lx, call, scope)
  {
    if !OnlyExempt(lx, call, scope) {
      var sql: string :| MayBe(call.args[0], scope, Text(sql)) && !Exempt(lx, sql);
      forall v: Value | MayPass(call, scope, Some(v)) ensures OnlyDicts(v) {
        assert Issues(call, scope, sql, Some(v)) && KeepsWith(lx, sql, Some(v));
      }
      assert Spreads(call) ==> MayPass(call, scope, Some(Opaque));
      assert !OnlyDicts(Opaque);
      forall v: Value | |call.args| <= 1 && PassesByName(call.keywords, scope, v) ensures OnlyDicts(v) {
        assert MayPass(call, scope, Some(v));
      }
    }
  }

  /** A call without findings is safe, for every statement it can denote and everything it can pass, exactly
      when no mapping is spread and every parameter keyword passes dicts, or its statements have no rules. */
  lemma {:induction false} SilentCallIsSafeExactlyWhen(lx: Lexer, call: Node, scope: Scope)
    requires SqlCall(call) && CallFindings(lx, call, scope) == []
    ensures SafeCall(lx, call, scope) <==> Covered(lx, call, scope)
  {
    if Covered(lx, call, scope) { CoveredIsSafe(lx, call, scope); }
    if SafeCall(lx, call, scope) { SafeIsCovered(lx, call, scope); }
  }

  /** With its parameters in sight a call without findings is safe. */
  lemma {:induction false} SilentCallIsSafe(lx: Lexer, call: Node, scope: Scope)
    requires call.Call? && CallFindings(lx, call, scope) == [] && ParametersInSight(call)
    ensures SafeCall(lx, call, scope)
  {
    if SqlCall(call) {
      if !OnlyExempt(lx, call, scope) && |call.args| <= 1 { LoneKeywordPassesDicts(lx, call, scope); }
      CoveredIsSafe(lx, call, scope);
    }
  }

  lemma {:induction false} LoneKeywordPassesDicts(lx: Lexer, call: Node, scope: Scope)
    requires SqlCall(call) && CallFindings(lx, call, scope) == [] && ParametersInSight(call) && |call.args| == 1
    requires !OnlyExempt(lx, call, scope)
    ensures NamedAreDicts(call, scope)
  {
    var sql: string :| MayBe(call.args[0], scope, Text(sql)) && !Exempt(lx, sql);
    SilentStatement(lx, call, scope, sql);
    KeywordIsFound(call.keywords);
    forall v: Value | PassesByName(call.keywords, scope, v) ensures OnlyDicts(v) {
      var k :| 0 <= k < |call.keywords| && NamesParameters(call.keywords[k]) && MayBe(call.keywords[k].value, scope, v);
      var j :| 0 <= j < |call.keywords| && NamesParameters(call.keywords[j])
        && call.keywords[j].value == KeywordParams(call.keywords).value;
      assert j == k;
      KindBindsDicts(call.keywords[k].value, scope, v);
    }
  }

  // ---- whole files ------------------------------------------------------------

  predicate ReportedAt(vs: seq<Violation>, line: int) {
    exists i :: 0 <= i < |vs| && vs[i].line == line
  }

  lemma {:induction false} ReportingOnlyAdds(vs: seq<Violation>, line: int, fs: seq<Finding>)
    ensures vs <= Reported(vs, line, fs)
    ensures fs != [] ==> ReportedAt(Reported(vs, line, fs), line)
    decreases |fs|
  {
    if fs != [] {
      var v := Violation(line, Rule(fs[0]), fs[0]);
      var next := if v in vs then vs else vs + [v];
      assert v in next;
      var k :| 0 <= k < |next| && next[k] == v;
      ReportingOnlyAdds(next, line, fs[1..]);
      assert Reported(vs, line, fs)[k].line == line;
    }
  }

  lemma {:induction false} SitesOnlyAdd(lx: Lexer, vs: seq<Violation>, sites: seq<Site>)
    ensures vs <= ReportedSites(lx, vs, sites)
    decreases |sites|
  {
    if sites != [] {
      var fs := CallFindings(lx, sites[0].call, sites[0].scope);
      ReportingOnlyAdds(vs, sites[0].call.line, fs);
      SitesOnlyAdd(lx, Reported(vs, sites[0].call.line, fs), sites[1..]);
    }
  }

  /** Each visited call is safe or its line is reported, also where equal findings are kept once. */
  lemma {:induction false} VisitedIsSilentOrReported(lx: Lexer, vs: seq<Violation>, sites: seq<Site>, k: nat)
    requires k < |sites|
    ensures CallFindings(lx, sites[k].call, sites[k].scope) == []
      || ReportedAt(ReportedSites(lx, vs, sites), sites[k].call.line)
    decreases |sites|
  {
    var fs := CallFindings(lx, sites[0].call, sites[0].scope);
    var next := Reported(vs, sites[0].call.line, fs);
    if k > 0 {
      VisitedIsSilentOrReported(lx, next, sites[1..], k - 1);
    } else if fs != [] {
      ReportingOnlyAdds(vs, sites[0].call.line, fs);
      SitesOnlyAdd(lx, next, sites[1..]);
      var i :| 0 <= i < |next| && next[i].line == sites[0].call.line;
      assert ReportedSites(lx, vs, sites)[i].line == sites[0].call.line;
    }
  }

  /** Each visited call with its parameters in sight is safe or its line is reported, also where equal
      findings are kept once. */
  lemma {:induction false} VisitedIsSafeOrReported(lx: Lexer, vs: seq<Violation>, sites: seq<Site>, k: nat)
    requires k < |sites| && sites[k].call.Call? && ParametersInSight(sites[k].call)
    ensures SafeCall(lx, sites[k].call, sites[k].scope) || ReportedAt(ReportedSites(lx, vs, sites), sites[k].call.line)
  {
    VisitedIsSilentOrReported(lx, vs, sites, k);
    if CallFindings(lx, sites[k].call, sites[k].scope) == [] {
      SilentCallIsSafe(lx, sites[k].call, sites[k].scope);
    }
  }

  ghost predicate Clean(lx: Lexer, suite: seq<Node>) {
    ReportedSites(lx, [], SitesAll(suite, FileScope(suite))) == []
  }

  /** The call at this place of the file keeps the rules, judged in the scope it is in. */
  ghost predicate SafeAt(lx: Lexer, suite: seq<Node>, path: Path)
    requires NodeAt(File(suite), path).Some?
  {
    SafeCall(lx, NodeAt(File(suite), path).value, ScopeAt(File(suite), FileScope(suite), path))
  }

  lemma {:induction false} CleanIsSilent(lx: Lexer, suite: seq<Node>, path: Path)
    requires Clean(lx, suite) && NodeAt(File(suite), path).Some? && !Skips(path)
    requires SqlCall(NodeAt(File(suite), path).value)
    ensures CallFindings(lx, NodeAt(File(suite), path).value, ScopeAt(File(suite), FileScope(suite), path)) == []
  {
    var sites := SitesAll(suite, FileScope(suite));
    var s := Site(NodeAt(File(suite), path).value, ScopeAt(File(suite), FileScope(suite), path));
    assert VisitedAt(File(suite), FileScope(suite), path, s);
    VisitedExactly(File(suite), FileScope(suite), s);
    FileSites(suite, FileScope(suite));
    var k :| 0 <= k < |sites| && sites[k] == s;
    VisitedIsSilentOrReported(lx, [], sites, k);
  }

  ghost predicate CoveredAt(lx: Lexer, suite: seq<Node>, path: Path)
    requires NodeAt(File(suite), path).Some?
  {
    Covered(lx, NodeAt(File(suite), path).value, ScopeAt(File(suite), FileScope(suite), path))
  }

  /** Outside skipped places a file reported clean is safe at exactly the covered calls, and at every call
      with its parameters in sight. */
  lemma {:induction false} CleanOutsideSkipped(lx: Lexer, suite: seq<Node>, path: Path)
    requires Clean(lx, suite) && NodeAt(File(suite), path).Some? && !Skips(path)
    ensures SafeAt(lx, suite, path) <==> CoveredAt(lx, suite, path)
    ensures ParametersInSight(NodeAt(File(suite), path).value) ==> SafeAt(lx, suite, path)
  {
    var call, scope := NodeAt(File(suite), path).value, ScopeAt(File(suite), FileScope(suite), path);
    if SqlCall(call) {
      CleanIsSilent(lx, suite, path);
      SilentCallIsSafeExactlyWhen(lx, call, scope);
      if ParametersInSight(call) { SilentCallIsSafe(lx, call, scope); }
    }
  }

  /** Every call of SQL in the file has its parameters in sight. */
  ghost predicate AllInSight(n: Node) {
    forall path :: NodeAt(n, path).Some? ==> ParametersInSight(NodeAt(n, path).value)
  }

  /** A clean file is safe at every call it contains, provided no call of SQL sits in a skipped place and each
      has its parameters in sight. */
  lemma {:induction false} CleanFileIsSafe(lx: Lexer, suite: seq<Node>)
    requires Clean(lx, suite) && NothingHidden(File(suite)) && AllInSight(File(suite))
    ensures forall path :: NodeAt(File(suite), path).Some? ==> SafeAt(lx, suite, path)
  {
    forall path | NodeAt(File(suite), path).Some? ensures SafeAt(lx, suite, path) {
      if !Skips(path) { CleanOutsideSkipped(lx, suite, path); }
    }
  }
}
