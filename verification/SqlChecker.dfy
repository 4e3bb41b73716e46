/** The SQL binding checker: statement resolution, parameter classification, rules, traversal. */
module SqlChecker {
  import opened Wrappers
  import opened PyText
  import opened SqlScope

  /** The checker's regular expressions and case mapping, kept abstract: noise removal, the text
      after an `INSERT INTO table` match, upper-casing, and the interpolated-identifier pattern. */
  datatype Lexer = Lexer(
    strip: string -> string, afterInsert: string -> Option<string>, upper: string -> string, slot: string -> bool)

  const CALL_ATTRIBUTES: set<string> := {"execute", "executemany", "executescript"}
  const UNBOUND_LEADERS: set<string> := {"BEGIN", "COMMIT", "END", "ROLLBACK", "SAVEPOINT", "RELEASE", "PRAGMA"}
  const PARAMETER_KEYWORDS: set<string> := {"parameters", "params", "seq_of_parameters"}

  datatype Reason =
    | AnFString | Concatenation | PercentFormatting | Arithmetic | FormatCall | JoinCall | Computed
    | SelfReference(name: string) | UnresolvedName(name: string) | NonLiteral

  datatype Finding =
    | InsertWithoutColumns | Assembled(reason: Reason) | InterpolatedIdentifier
    | NoSqlArgument | PositionalPlaceholder | MissingParameters | UnusedParameters | SequenceBinding | UnverifiedBinding

  function Rule(f: Finding): int {
    match f
    case InsertWithoutColumns => 1
    case Assembled(_) => 2
    case InterpolatedIdentifier => 4
    case _ => 3
  }

  datatype Violation = Violation(line: int, rule: int, finding: Finding)

  // ---- statement resolution ---------------------------------------------------

  datatype Resolution = Resolution(texts: seq<string>, reasons: seq<Reason>)

  function Unknown(r: Reason): Resolution { Resolution([], [r]) }

  function BoundNames(scope: Scope): set<string> {
    scope.table.Keys + if scope.parent.Some? then BoundNames(scope.parent.value) else {}
  }

  lemma {:induction false} ScanNeedsEntries(scope: Scope, name: string, line: int)
    requires Lookup(scope, name, line).Some?
    ensures name in BoundNames(scope)
    decreases scope
  {
    if Scan(Entries(scope.table, name), line).None? { ScanNeedsEntries(scope.parent.value, name, line); }
  }

  /** `_resolve`: every text the expression may stand for, and every way it is not a literal. */
  function Resolve(n: Node, scope: Scope, seen: set<string>): Resolution
    decreases BoundNames(scope) - seen, n, 1
  {
    match n
    case StrLit(_, text) => Resolution([text], [])
    case OtherLit(_) => Resolution([], [])
    case FString(_, _) => Unknown(AnFString)
    case BinOp(_, _, op, _) =>
      Unknown(match op case Plus => Concatenation case Percent => PercentFormatting case OtherOperator => Arithmetic)
    case Call(_, func, _, _) =>
      Unknown(if func.Attribute? && func.attr == "format" then FormatCall
              else if func.Attribute? && func.attr == "join" then JoinCall
              else Computed)
    case IfExp(_, _, body, orelse) => Joined(Resolve(body, scope, seen), Resolve(orelse, scope, seen))
    case BoolOp(_, values) => ResolveAll(values, scope, seen)
    case DictLit(_, _, values) => ResolveAll(values, scope, seen)
    case Subscript(_, container, _) => Resolve(container, scope, seen)
    case Name(line, id) =>
      if id in seen then Unknown(SelfReference(id))
      else
        var bound := Lookup(scope, id, line);
        if bound.None? then Unknown(UnresolvedName(id))
        else
          ScanNeedsEntries(scope, id, line);
          Resolve(bound.value, scope, seen + {id})
    case _ => Unknown(NonLiteral)
  }

  function ResolveAll(ns: seq<Node>, scope: Scope, seen: set<string>): Resolution
    decreases BoundNames(scope) - seen, ns, 0
  {
    if ns == [] then Resolution([], [])
    else Joined(Resolve(ns[0], scope, seen), ResolveAll(ns[1..], scope, seen))
  }

  function Joined(a: Resolution, b: Resolution): Resolution {
    Resolution(a.texts + b.texts, a.reasons + b.reasons)
  }

  // ---- parameter classification -----------------------------------------------

  datatype Kind = Absent | DictKind | SequenceKind | UnknownKind

  predicate DictNode(n: Node) { n.DictLit? || n.DictComp? }

  /** `_param_kind` of an expression that is there. */
  function KindOf(n: Node, scope: Scope, seen: set<string>): Kind
    decreases BoundNames(scope) - seen, n, 1
  {
    match n
    case DictLit(_, _, _) => DictKind
    case DictComp(_, _, _, _) => DictKind
    case Call(_, func, _, _) => if func.Name? && func.id == "dict" then DictKind else UnknownKind
    case Comprehension(_, elt, _) => if DictNode(elt) then DictKind else SequenceKind
    case Collection(_, elts) =>
      if forall i :: 0 <= i < |elts| ==> DictNode(elts[i]) then DictKind else SequenceKind
    case IfExp(_, _, body, orelse) => Agreed({KindOf(body, scope, seen)} + {KindOf(orelse, scope, seen)})
    case BoolOp(_, values) => Agreed(KindsOf(values, scope, seen))
    case Name(line, id) =>
      if id in seen then UnknownKind
      else
        var bound := Lookup(scope, id, line);
        if bound.None? then UnknownKind
        else
          ScanNeedsEntries(scope, id, line);
          KindOf(bound.value, scope, seen + {id})
    case _ => UnknownKind
  }

  function KindsOf(ns: seq<Node>, scope: Scope, seen: set<string>): set<Kind>
    decreases BoundNames(scope) - seen, ns, 0
  {
    if ns == [] then {} else {KindOf(ns[0], scope, seen)} + KindsOf(ns[1..], scope, seen)
  }

  /** The one kind all branches share, else unknown. */
  function Agreed(kinds: set<Kind>): Kind {
    if kinds == {Absent} then Absent
    else if kinds == {DictKind} then DictKind
    else if kinds == {SequenceKind} then SequenceKind
    else UnknownKind
  }

  function ParamKind(params: Option<Node>, scope: Scope): Kind {
    if params.None? then Absent else KindOf(params.value, scope, {})
  }

  // ---- the rules --------------------------------------------------------------

  function FirstWord(s: string): string {
    if s == [] || IsSpace(s[0]) then [] else [s[0]] + FirstWord(s[1..])
  }

  /** The leading keyword; a body without a blank is taken whole. */
  function Head(lx: Lexer, body: string): string {
    lx.upper(if ' ' in body then FirstWord(body) else body)
  }

  predicate Exempt(lx: Lexer, sql: string) {
    Strip(sql) == "" || Head(lx, Strip(sql)) in UNBOUND_LEADERS
  }

  predicate NamesColumns(lx: Lexer, code: string) {
    var rest := lx.afterInsert(code);
    rest.Some? ==> StripLeft(rest.value) != "" && StripLeft(rest.value)[0] == '('
  }

  predicate IsIdentifierStart(c: char) { 'a' <= c <= 'z' || 'A' <= c <= 'Z' || c == '_' }

  /** A `:name` placeholder occurs. */
  predicate HasNamed(code: string) {
    exists i :: 0 <= i < |code| - 1 && code[i] == ':' && IsIdentifierStart(code[i + 1])
  }

  /** `_apply_sql_rules` on one statement. */
  function StatementFindings(lx: Lexer, sql: string, kind: Kind): seq<Finding> {
    if Exempt(lx, sql) then []
    else
      var code := lx.strip(sql);
      (if NamesColumns(lx, code) then [] else [InsertWithoutColumns])
      + (if '?' in code then [PositionalPlaceholder] else [])
      + (if kind.Absent? then (if HasNamed(code) then [MissingParameters] else [])
         else if !HasNamed(code) then (if '?' in code then [] else [UnusedParameters])
         else if kind.SequenceKind? then [SequenceBinding]
         else if kind.UnknownKind? then [UnverifiedBinding]
         else [])
  }

  function FStringText(parts: seq<Node>): string {
    if parts == [] then ""
    else (if parts[0].StrLit? then parts[0].text else "{...}") + FStringText(parts[1..])
  }

  function ReasonFindings(lx: Lexer, sqlNode: Node, reasons: seq<Reason>): seq<Finding> {
    if reasons == [] then []
    else
      [Assembled(reasons[0])]
      + (if sqlNode.FString? && lx.slot(FStringText(sqlNode.parts)) then [InterpolatedIdentifier] else [])
      + ReasonFindings(lx, sqlNode, reasons[1..])
  }

  /** Each distinct text once, in order. */
  function TextFindings(lx: Lexer, texts: seq<string>, done: set<string>, kind: Kind): seq<Finding> {
    if texts == [] then []
    else if texts[0] in done then TextFindings(lx, texts[1..], done, kind)
    else StatementFindings(lx, texts[0], kind) + TextFindings(lx, texts[1..], done + {texts[0]}, kind)
  }

  /** The last keyword naming the parameters wins. */
  function KeywordParams(keywords: seq<Node>): Option<Node> {
    if keywords == [] then None
    else
      var last := keywords[|keywords| - 1];
      if last.KeywordArg? && last.arg.Some? && last.arg.value in PARAMETER_KEYWORDS then Some(last.value)
      else KeywordParams(keywords[..|keywords| - 1])
  }

  function Params(call: Node): Option<Node>
    requires call.Call?
  {
    if |call.args| > 1 then Some(call.args[1]) else KeywordParams(call.keywords)
  }

  predicate SqlCall(n: Node) {
    n.Call? && n.func.Attribute? && n.func.attr in CALL_ATTRIBUTES
  }

  /** `_inspect_call`: everything reported about one call. */
  function CallFindings(lx: Lexer, call: Node, scope: Scope): seq<Finding> {
    if !SqlCall(call) then []
    else if call.args == [] then [NoSqlArgument]
    else
      var r := Resolve(call.args[0], scope, {});
      ReasonFindings(lx, call.args[0], r.reasons)
      + TextFindings(lx, r.texts, {}, ParamKind(Params(call), scope))
  }

  // ---- reporting --------------------------------------------------------------

  /** Record findings at a line; an identical violation is kept once. */
  function Reported(vs: seq<Violation>, line: int, fs: seq<Finding>): seq<Violation>
    decreases |fs|
  {
    if fs == [] then vs
    else
      var v := Violation(line, Rule(fs[0]), fs[0]);
      Reported(if v in vs then vs else vs + [v], line, fs[1..])
  }

  datatype Site = Site(call: Node, scope: Scope)

  /** The scope in which the body of a definition is judged. */
  function InnerScope(n: Node, scope: Scope): Scope {
    if n.FunctionDef? then Scope(Collect(n.suite), Some(scope)) else scope
  }

  /** The calls `_walk` visits under a node, each with the scope it is judged in. */
  function Sites(n: Node, scope: Scope): seq<Site>
    decreases Size(n), 1
  {
    PartsAreSmaller(n);
    (if n.Call? then [Site(n, scope)] else []) + SitesAll(Outer(n), scope) + SitesAll(Inner(n), InnerScope(n, scope))
  }

  function SitesAll(ns: seq<Node>, scope: Scope): seq<Site>
    decreases Total(ns), 2, |ns|
  {
    if ns == [] then [] else Sites(ns[0], scope) + SitesAll(ns[1..], scope)
  }

  function ReportedSites(lx: Lexer, vs: seq<Violation>, sites: seq<Site>): seq<Violation>
    decreases |sites|
  {
    if sites == [] then vs
    else
      var s := sites[0];
      ReportedSites(lx, Reported(vs, s.call.line, CallFindings(lx, s.call, s.scope)), sites[1..])
  }

  /** What `_walk_signature` visits. */
  function Signature(n: Node): seq<Node>
    requires n.FunctionDef? || n.ClassDef?
  {
    if n.ClassDef? then n.decorators + n.bases else n.decorators + n.defaults + Maybe(n.returns_)
  }

  lemma {:induction false} SignatureIsSmaller(n: Node)
    requires n.FunctionDef? || n.ClassDef?
    ensures Total(Signature(n)) < Size(n)
    ensures Total(n.decorators) < Size(n) && Total(n.suite) < Size(n)
    ensures n.ClassDef? ==> Total(n.bases) < Size(n)
    ensures n.FunctionDef? ==> Total(n.defaults) < Size(n) && Total(Maybe(n.returns_)) < Size(n)
  {
    if n.ClassDef? {
      TotalAppend(n.decorators, n.bases);
    } else {
      TotalParts(n.decorators, n.defaults, Maybe(n.returns_));
      TotalMaybe(n.returns_);
    }
  }

  lemma {:induction false} BodyIsSmaller(n: Node)
    requires Barrier(n)
    ensures if n.Lambda? then Size(n.result) < Size(n) else Total(n.suite) < Size(n)
  {
  }

  class FileChecker {
    const lexer: Lexer
    const module_: seq<Node>
    var violations: seq<Violation>

    constructor (lexer: Lexer, suite: seq<Node>)
      ensures this.lexer == lexer && module_ == suite && violations == []
    {
      this.lexer, module_, violations := lexer, suite, [];
    }

    method Fail(line: int, finding: Finding)
      modifies this
      ensures violations == Reported(old(violations), line, [finding])
    {
      var v := Violation(line, Rule(finding), finding);
      assert [finding][1..] == [];
      if v !in violations { violations := violations + [v]; }
    }

    method ApplySqlRules(line: int, sql: string, params: Option<Node>, scope: Scope)
      modifies this
      ensures violations == Reported(old(violations), line, StatementFindings(lexer, sql, ParamKind(params, scope)))
    {
      if Exempt(lexer, sql) { return; }
      var code, kind := lexer.strip(sql), ParamKind(params, scope);
      ghost var start, done: seq<Finding> := violations, [];
      if !NamesColumns(lexer, code) {
        Fail(line, InsertWithoutColumns);
        done := done + [InsertWithoutColumns];
      }
      if '?' in code {
        ReportedAppend(start, line, done, [PositionalPlaceholder]);
        Fail(line, PositionalPlaceholder);
        done := done + [PositionalPlaceholder];
      }
      var last: Option<Finding> :=
        if kind.Absent? then (if HasNamedPlaceholder(code) then Some(MissingParameters) else None)
        else if !HasNamedPlaceholder(code) then (if '?' in code then None else Some(UnusedParameters))
        else if kind.SequenceKind? then Some(SequenceBinding)
        else if kind.UnknownKind? then Some(UnverifiedBinding)
        else None;
      if last.Some? {
        ReportedAppend(start, line, done, [last.value]);
        Fail(line, last.value);
        done := done + [last.value];
      }
      assert done == StatementFindings(lexer, sql, kind);
    }

    method InspectCall(node: Node, scope: Scope)
      requires node.Call?
      modifies this
      ensures violations == Reported(old(violations), node.line, CallFindings(lexer, node, scope))
    {
      if !SqlCall(node) { return; }
      if node.args == [] {
        Fail(node.line, NoSqlArgument);
        return;
      }
      var sqlNode, params := node.args[0], Params(node);
      var r := Resolve(sqlNode, scope, {});
      ghost var start := violations;
      assert r.reasons[..0] == [];
      for i := 0 to |r.reasons|
        invariant violations == Reported(start, node.line, ReasonFindings(lexer, sqlNode, r.reasons[..i]))
      {
        var slot := sqlNode.FString? && lexer.slot(FStringText(sqlNode.parts));
        ghost var soFar, one := ReasonFindings(lexer, sqlNode, r.reasons[..i]), [Assembled(r.reasons[i])];
        ReasonsGrow(lexer, sqlNode, r.reasons, i);
        ReportedAppend(start, node.line, soFar, one);
        ReportedAppend(start, node.line, soFar + one, if slot then [InterpolatedIdentifier] else []);
        Fail(node.line, Assembled(r.reasons[i]));
        if slot { Fail(node.line, InterpolatedIdentifier); }
      }
      assert r.reasons[..|r.reasons|] == r.reasons;
      ghost var kind, middle := ParamKind(params, scope), violations;
      var done: set<string>, k := {}, 0;
      while k < |r.texts|
        invariant 0 <= k <= |r.texts|
        invariant Reported(violations, node.line, TextFindings(lexer, r.texts[k..], done, kind))
               == Reported(middle, node.line, TextFindings(lexer, r.texts, {}, kind))
      {
        var sql := r.texts[k];
        assert r.texts[k..][1..] == r.texts[k + 1..];
        if sql !in done {
          ReportedAppend(violations, node.line, StatementFindings(lexer, sql, kind),
                         TextFindings(lexer, r.texts[k + 1..], done + {sql}, kind));
          done := done + {sql};
          ApplySqlRules(node.line, sql, params, scope);
        }
        k := k + 1;
      }
      ReportedAppend(start, node.line, ReasonFindings(lexer, sqlNode, r.reasons),
                     TextFindings(lexer, r.texts, {}, kind));
    }

    method Walk(node: Node, scope: Scope)
      modifies this
      ensures violations == ReportedSites(lexer, old(violations), Sites(node, scope))
      decreases Size(node), 1
    {
      ghost var start := violations;
      if Barrier(node) { BodyIsSmaller(node); } else { ChildrenAreSmaller(node); }
      if node.FunctionDef? {
        WalkSignature(node, scope);
        var table := CollectAssignments(node.suite);
        WalkAll(node.suite, Scope(table, Some(scope)));
        NestedPass(lexer, start, node, scope);
        return;
      }
      if node.Lambda? {
        Walk(node.result, scope);
        LambdaPass(node, scope);
        return;
      }
      if node.ClassDef? {
        WalkSignature(node, scope);
        WalkAll(node.suite, scope);
        ClassPass(lexer, start, node, scope);
        return;
      }
      if node.Call? { InspectCall(node, scope); }
      WalkAll(Children(node), scope);
      GenericPass(lexer, start, node, scope);
    }

    /** `_walk_signature`: decorators, then the bases of a class, or defaults and the return annotation. */
    method WalkSignature(node: Node, scope: Scope)
      requires node.FunctionDef? || node.ClassDef?
      modifies this
      ensures violations == ReportedSites(lexer, old(violations), SitesAll(Signature(node), scope))
      decreases Size(node), 0
    {
      ghost var start := violations;
      SignatureIsSmaller(node);
      if node.ClassDef? {
        WalkAll(node.decorators, scope);
        WalkAll(node.bases, scope);
        ThreePasses(lexer, start, node.decorators, node.bases, [], scope);
        assert node.decorators + node.bases + [] == Signature(node);
        return;
      }
      WalkAll(node.decorators, scope);
      WalkAll(node.defaults, scope);
      WalkAll(Maybe(node.returns_), scope);
      ThreePasses(lexer, start, node.decorators, node.defaults, Maybe(node.returns_), scope);
    }

    method WalkAll(nodes: seq<Node>, scope: Scope)
      modifies this
      ensures violations == ReportedSites(lexer, old(violations), SitesAll(nodes, scope))
      decreases Total(nodes), 2, |nodes|
    {
      if nodes == [] { return; }
      ghost var start := violations;
      Walk(nodes[0], scope);
      WalkAll(nodes[1..], scope);
      SitesAppend(lexer, start, Sites(nodes[0], scope), SitesAll(nodes[1..], scope));
    }

    /** Check the whole module. */
    method Run()
      modifies this
      ensures violations == ReportedSites(lexer, old(violations), SitesAll(module_, Scope(Collect(module_), None)))
    {
      var table := CollectAssignments(module_);
      WalkAll(module_, Scope(table, None));
    }
  }

  function HasNamedPlaceholder(code: string): (r: bool)
    ensures r == HasNamed(code)
  {
    HasNamed(code)
  }

  lemma {:induction false} ReportedAppend(vs: seq<Violation>, line: int, a: seq<Finding>, b: seq<Finding>)
    ensures Reported(vs, line, a + b) == Reported(Reported(vs, line, a), line, b)
    decreases |a|
  {
    if a == [] {
      assert a + b == b;
    } else {
      var v := Violation(line, Rule(a[0]), a[0]);
      assert (a + b)[1..] == a[1..] + b;
      ReportedAppend(if v in vs then vs else vs + [v], line, a[1..], b);
    }
  }

  lemma {:induction false} ReasonsGrow(lx: Lexer, sqlNode: Node, reasons: seq<Reason>, i: nat)
    requires i < |reasons|
    ensures ReasonFindings(lx, sqlNode, reasons[..i + 1])
         == ReasonFindings(lx, sqlNode, reasons[..i]) + [Assembled(reasons[i])]
            + if sqlNode.FString? && lx.slot(FStringText(sqlNode.parts)) then [InterpolatedIdentifier] else []
  {
    if i == 0 {
      assert reasons[..1][1..] == [];
    } else {
      assert reasons[..i + 1][1..] == reasons[1..][..i] && reasons[..i][1..] == reasons[1..][..i - 1];
      ReasonsGrow(lx, sqlNode, reasons[1..], i - 1);
    }
  }

  lemma {:induction false} SitesAppend(lx: Lexer, vs: seq<Violation>, a: seq<Site>, b: seq<Site>)
    ensures ReportedSites(lx, vs, a + b) == ReportedSites(lx, ReportedSites(lx, vs, a), b)
    decreases |a|
  {
    if a == [] {
      assert a + b == b;
    } else {
      assert (a + b)[1..] == a[1..] + b;
      SitesAppend(lx, Reported(vs, a[0].call.line, CallFindings(lx, a[0].call, a[0].scope)), a[1..], b);
    }
  }

  lemma {:induction false} SitesAllAppend(a: seq<Node>, b: seq<Node>, scope: Scope)
    ensures SitesAll(a + b, scope) == SitesAll(a, scope) + SitesAll(b, scope)
  {
    if a == [] {
      assert a + b == b;
    } else {
      assert (a + b)[1..] == a[1..] + b;
      SitesAllAppend(a[1..], b, scope);
    }
  }

  lemma {:induction false} ThreePasses(lx: Lexer, vs: seq<Violation>, a: seq<Node>, b: seq<Node>, c: seq<Node>,
                                       scope: Scope)
    ensures ReportedSites(lx, ReportedSites(lx, ReportedSites(lx, vs, SitesAll(a, scope)), SitesAll(b, scope)),
                          SitesAll(c, scope))
         == ReportedSites(lx, vs, SitesAll(a + b + c, scope))
  {
    SitesAllAppend(a + b, c, scope);
    SitesAllAppend(a, b, scope);
    SitesAppend(lx, vs, SitesAll(a + b, scope), SitesAll(c, scope));
    SitesAppend(lx, vs, SitesAll(a, scope), SitesAll(b, scope));
  }

  lemma {:induction false} NestedPass(lx: Lexer, vs: seq<Violation>, n: Node, scope: Scope)
    requires n.FunctionDef?
    ensures ReportedSites(lx, vs, Sites(n, scope))
         == ReportedSites(lx, ReportedSites(lx, vs, SitesAll(Signature(n), scope)),
                          SitesAll(n.suite, InnerScope(n, scope)))
  {
    SitesAppend(lx, vs, SitesAll(Signature(n), scope), SitesAll(n.suite, InnerScope(n, scope)));
    NestedSites(n, scope);
  }

  lemma {:induction false} NestedSites(n: Node, scope: Scope)
    requires n.FunctionDef?
    ensures Sites(n, scope) == SitesAll(Signature(n), scope) + SitesAll(n.suite, InnerScope(n, scope))
  {
    assert [] + SitesAll(Outer(n), scope) == SitesAll(Outer(n), scope);
  }

  lemma {:induction false} LambdaPass(n: Node, scope: Scope)
    requires n.Lambda?
    ensures Sites(n, scope) == Sites(n.result, scope)
  {
    SitesOne(n.result, scope);
    JustMiddle(SitesAll([n.result], scope));
  }

  lemma {:induction false} SitesOne(n: Node, scope: Scope)
    ensures SitesAll([n], scope) == Sites(n, scope)
  {
    assert [n][1..] == [];
    assert SitesAll([], scope) == [];
  }

  lemma JustMiddle(a: seq<Site>)
    ensures [] + a + [] == a
  {
  }

  lemma {:induction false} ClassPass(lx: Lexer, vs: seq<Violation>, n: Node, scope: Scope)
    requires n.ClassDef?
    ensures ReportedSites(lx, vs, Sites(n, scope))
         == ReportedSites(lx, ReportedSites(lx, vs, SitesAll(Signature(n), scope)), SitesAll(n.suite, scope))
  {
    ClassSites(n, scope);
    SitesAppend(lx, vs, SitesAll(Signature(n), scope), SitesAll(n.suite, scope));
  }

  lemma {:induction false} ClassSites(n: Node, scope: Scope)
    requires n.ClassDef?
    ensures Sites(n, scope) == SitesAll(Signature(n), scope) + SitesAll(n.suite, scope)
  {
    SitesAllAppend(Signature(n), n.suite, scope);
    assert Sites(n, scope) == SitesAll(Outer(n), scope);
  }

  lemma {:induction false} GenericPass(lx: Lexer, vs: seq<Violation>, n: Node, scope: Scope)
    requires !Barrier(n)
    ensures ReportedSites(lx, vs, Sites(n, scope))
         == ReportedSites(lx, if n.Call? then Reported(vs, n.line, CallFindings(lx, n, scope)) else vs,
                          SitesAll(Children(n), scope))
  {
    var below := SitesAll(Children(n), scope);
    assert Sites(n, scope) == (if n.Call? then [Site(n, scope)] else []) + below;
    if n.Call? { assert Sites(n, scope)[1..] == below; } else { assert Sites(n, scope) == below; }
  }
}
