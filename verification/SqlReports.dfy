/** What is reported of a file. */
module SqlReports {
  import opened Wrappers
  import opened SqlScope
  import opened SqlChecker
  import opened SqlVisits

  /** INSERT lists are rule 1, assembled statements rule 2, interpolated identifiers rule 4, bindings rule 3. */
  predicate IsRule(f: Finding, rule: int) {
    (f == InsertWithoutColumns <==> rule == 1) && (f.Assembled? <==> rule == 2)
    && (f == InterpolatedIdentifier <==> rule == 4) && rule in {1, 2, 3, 4}
  }

  /** The violation is that finding at that line. */
  predicate IsViolation(v: Violation, line: int, f: Finding) {
    v.line == line && v.finding == f && IsRule(f, v.rule)
  }

  predicate AmongFindings(v: Violation, line: int, fs: seq<Finding>) {
    v.finding in fs && IsViolation(v, line, v.finding)
  }

  lemma RuleExactly(f: Finding, rule: int)
    ensures Rule(f) == rule <==> IsRule(f, rule)
  {
  }

  lemma {:induction false} ReportsExactly(vs: seq<Violation>, line: int, fs: seq<Finding>, v: Violation)
    ensures v in Reported(vs, line, fs) <==> v in vs || AmongFindings(v, line, fs)
    decreases |fs|
  {
    if fs != [] {
      var first := Violation(line, Rule(fs[0]), fs[0]);
      ReportsExactly(if first in vs then vs else vs + [first], line, fs[1..], v);
      RuleExactly(fs[0], v.rule);
      assert fs == [fs[0]] + fs[1..];
    }
  }

  /** Each violation once. */
  predicate Once(vs: seq<Violation>) { forall i, j :: 0 <= i < j < |vs| ==> vs[i] != vs[j] }

  lemma {:induction false} ReportedOnce(vs: seq<Violation>, line: int, fs: seq<Finding>)
    requires Once(vs)
    ensures Once(Reported(vs, line, fs))
    decreases |fs|
  {
    if fs != [] {
      var first := Violation(line, Rule(fs[0]), fs[0]);
      ReportedOnce(if first in vs then vs else vs + [first], line, fs[1..]);
    }
  }

  predicate AtSite(lx: Lexer, sites: seq<Site>, i: int, v: Violation) {
    0 <= i < |sites| && AmongFindings(v, sites[i].call.line, CallFindings(lx, sites[i].call, sites[i].scope))
  }

  lemma {:induction false} SitesReport(lx: Lexer, vs: seq<Violation>, sites: seq<Site>, v: Violation)
    ensures v in ReportedSites(lx, vs, sites) <==> v in vs || exists i :: AtSite(lx, sites, i, v)
    ensures Once(vs) ==> Once(ReportedSites(lx, vs, sites))
    decreases |sites|
  {
    if sites != [] {
      var s, later := sites[0], sites[1..];
      var fs := CallFindings(lx, s.call, s.scope);
      ReportsExactly(vs, s.call.line, fs, v);
      if Once(vs) { ReportedOnce(vs, s.call.line, fs); }
      SitesReport(lx, Reported(vs, s.call.line, fs), later, v);
      assert AtSite(lx, sites, 0, v) <==> AmongFindings(v, s.call.line, fs);
      if i :| AtSite(lx, sites, i, v) && i > 0 { assert AtSite(lx, later, i - 1, v); }
      if i :| AtSite(lx, later, i, v) { assert AtSite(lx, sites, i + 1, v); }
    }
  }

  ghost predicate OccursAt(ns: seq<Node>, scope: Scope, i: int, path: Path, s: Site) {
    0 <= i < |ns| && VisitedAt(ns[i], scope, path, s)
  }

  /** The call occurs in the file in this scope, in a place that is not skipped. */
  ghost predicate Occurs(ns: seq<Node>, scope: Scope, s: Site) {
    exists i, path :: OccursAt(ns, scope, i, path, s)
  }

  predicate HasViolation(lx: Lexer, s: Site, v: Violation) {
    AmongFindings(v, s.call.line, CallFindings(lx, s.call, s.scope))
  }

  lemma {:induction false} SitesOccur(ns: seq<Node>, scope: Scope, s: Site)
    ensures s in SitesAll(ns, scope) <==> Occurs(ns, scope, s)
  {
    if s in SitesAll(ns, scope) {
      var i := SiteIn(ns, scope, s);
      VisitedExactly(ns[i], scope, s);
      var path :| VisitedAt(ns[i], scope, path, s);
      assert OccursAt(ns, scope, i, path, s);
    }
    if i, path :| OccursAt(ns, scope, i, path, s) {
      VisitedExactly(ns[i], scope, s);
      SiteAmong(ns, scope, i, s);
    }
  }

  lemma SiteHas(lx: Lexer, sites: seq<Site>, v: Violation)
    ensures (exists k :: AtSite(lx, sites, k, v)) <==> exists s :: s in sites && HasViolation(lx, s, v)
  {
    if k :| AtSite(lx, sites, k, v) { assert sites[k] in sites && HasViolation(lx, sites[k], v); }
    if s :| s in sites && HasViolation(lx, s, v) {
      var k :| 0 <= k < |sites| && sites[k] == s;
      assert AtSite(lx, sites, k, v);
    }
  }

  /** A violation is reported exactly when a call occurs outside the skipped places that has it, and once. */
  lemma {:induction false} FileReportsExactly(lx: Lexer, ns: seq<Node>, scope: Scope, v: Violation)
    ensures v in ReportedSites(lx, [], SitesAll(ns, scope))
      <==> exists s :: Occurs(ns, scope, s) && HasViolation(lx, s, v)
    ensures Once(ReportedSites(lx, [], SitesAll(ns, scope)))
  {
    var sites := SitesAll(ns, scope);
    SitesReport(lx, [], sites, v);
    SiteHas(lx, sites, v);
    forall s ensures s in sites <==> Occurs(ns, scope, s) { SitesOccur(ns, scope, s); }
  }

  // ---- which calls and which parameters ---------------------------------------

  predicate NamesParameters(n: Node) {
    n.KeywordArg? && n.arg in {Some("parameters"), Some("params"), Some("seq_of_parameters")}
  }

  predicate LastNamed(keywords: seq<Node>, k: int) {
    0 <= k < |keywords| && NamesParameters(keywords[k])
    && forall j :: k < j < |keywords| ==> !NamesParameters(keywords[j])
  }

  /** The second argument, else the value of the last keyword that names parameters. */
  ghost predicate AreParameters(call: Node, p: Option<Node>)
    requires call.Call?
  {
    if |call.args| > 1 then p == Some(call.args[1])
    else if p.None? then forall k :: 0 <= k < |call.keywords| ==> !NamesParameters(call.keywords[k])
    else exists k :: LastNamed(call.keywords, k) && call.keywords[k].value == p.value
  }

  lemma {:induction false} KeywordsExactly(keywords: seq<Node>)
    ensures KeywordParams(keywords).None? ==> forall k :: 0 <= k < |keywords| ==> !NamesParameters(keywords[k])
    ensures KeywordParams(keywords).Some? ==>
      exists k :: LastNamed(keywords, k) && keywords[k].value == KeywordParams(keywords).value
  {
    if keywords != [] {
      var n := |keywords| - 1;
      var init := keywords[..n];
      KeywordsExactly(init);
      if NamesParameters(keywords[n]) {
        assert LastNamed(keywords, n);
      } else if KeywordParams(init).Some? {
        var k :| LastNamed(init, k) && init[k].value == KeywordParams(init).value;
        assert LastNamed(keywords, k);
      }
    }
  }

  lemma {:induction false} ParametersExactly(call: Node, p: Option<Node>)
    requires call.Call?
    ensures Params(call) == p <==> AreParameters(call, p)
  {
    KeywordsExactly(call.keywords);
    if |call.args| <= 1 && p.Some? && AreParameters(call, p) {
      var k :| LastNamed(call.keywords, k) && call.keywords[k].value == p.value;
      assert NamesParameters(call.keywords[k]);
    }
  }

  /** Calls of the three methods are looked at, whatever they are called on. */
  lemma SqlCallExactly(n: Node)
    ensures SqlCall(n) <==>
      n.Call? && n.func.Attribute? && n.func.attr in {"execute", "executemany", "executescript"}
  {
  }

  /** A colon with a letter or an underscore behind it. */
  predicate Placeholder(code: string, i: int) {
    0 < i < |code| && code[i - 1] == ':' && (code[i] == '_' || 'a' <= code[i] <= 'z' || 'A' <= code[i] <= 'Z')
  }

  lemma NamedExactly(code: string)
    ensures HasNamed(code) <==> exists i :: Placeholder(code, i)
  {
    if i :| Placeholder(code, i) { assert code[i - 1 + 1] == code[i]; }
    if i :| 0 <= i < |code| - 1 && code[i] == ':' && IsIdentifierStart(code[i + 1]) { assert Placeholder(code, i + 1); }
  }
}
