/** Clean yet unsafe. */
module SqlEscapes {
  import opened Wrappers
  import opened SqlScope
  import opened SqlChecker
  import opened SqlVisits
  import opened SqlMeaning
  import opened SqlSoundness

  // ---- what a clean file can hide ---------------------------------------------

  datatype Place = LambdaDefault | ArgumentAnnotation | ClassKeyword | FunctionTypeParameter | ClassTypeParameter

  /** A statement with an expression in a place the walk does not enter. */
  function Hiding(place: Place, e: Node): Node {
    match place
    case LambdaDefault => Lambda(1, [e], OtherLit(1))
    case ArgumentAnnotation => FunctionDef(1, [], [], [], [e], None, [])
    case ClassKeyword => ClassDef(1, [], [], [], [e], [])
    case FunctionTypeParameter => FunctionDef(1, [], [e], [], [], None, [])
    case ClassTypeParameter => ClassDef(1, [], [e], [], [], [])
  }

  const ASIDE: Path := [Along(0), Aside(0)]

  lemma {:induction false} HidingHides(place: Place, e: Node, scope: Scope)
    ensures Skipped(Hiding(place, e)) == [e]
    ensures SitesAll([Hiding(place, e)], scope) == []
    ensures |Outer(Hiding(place, e))| + |Inner(Hiding(place, e))| <= 1
  {
    var n, lit := Hiding(place, e), OtherLit(1);
    assert [n][1..] == [] && [lit][1..] == [];
    assert SitesAll([], scope) == [] && SitesAll([], InnerScope(n, scope)) == [];
    assert Sites(lit, scope) == [];
    assert SitesAll([lit], scope) == [];
    assert Outer(n) == [] || Outer(n) == [lit];
    assert Inner(n) == [];
    assert Sites(n, scope) == [];
  }

  /** The file is clean although it holds this reported call there. */
  ghost predicate Escapes(lx: Lexer, place: Place, call: Node) {
    var suite := [Hiding(place, call)];
    && NodeAt(File(suite), ASIDE) == Some(call) && Skips(ASIDE)
    && SqlCall(call) && CallFindings(lx, call, FileScope(suite)) != [] && Clean(lx, suite)
  }

  /** In each of these places a clean file can hold a call that executes an f-string. */
  lemma HiddenCallEscapes(lx: Lexer, place: Place)
    ensures exists call: Node :: Escapes(lx, place, call)
  {
    var call := Call(1, Attribute(1, Name(1, "db"), "execute"), [FString(1, [])], []);
    HidingHides(place, call, FileScope([Hiding(place, call)]));
    HiddenAt(place, call);
    FStringIsReported(lx, call, FileScope([Hiding(place, call)]));
    assert Escapes(lx, place, call);
  }

  lemma {:induction false} FStringIsReported(lx: Lexer, call: Node, scope: Scope)
    requires SqlCall(call) && call.args != [] && call.args[0].FString?
    ensures CallFindings(lx, call, scope) != []
  {
    assert Resolve(call.args[0], scope, {}).reasons == [AnFString];
  }

  lemma {:induction false} HiddenAt(place: Place, call: Node)
    ensures NodeAt(File([Hiding(place, call)]), ASIDE) == Some(call) && Skips(ASIDE)
  {
    var n := Hiding(place, call);
    assert Child(File([n]), Along(0)) == Some(n);
    assert Child(n, Aside(0)) == Some(call) by { HidingHides(place, call, FileScope([n])); }
    TwoSteps(File([n]), Along(0), n, Aside(0), call);
    assert ASIDE[1].Aside?;
  }

  lemma {:induction false} TwoSteps(n: Node, first: Step, child: Node, second: Step, leaf: Node)
    requires Child(n, first) == Some(child) && Child(child, second) == Some(leaf)
    ensures NodeAt(n, [first, second]) == Some(leaf)
  {
    assert [first, second][1..] == [second] && [second][1..] == [];
    assert NodeAt(leaf, []) == Some(leaf);
    assert NodeAt(child, [second]) == Some(leaf);
  }

  // ---- what a call without findings can pass ----------------------------------

  /** `db.execute("...", ...)` */
  function Execute(sql: string, keywords: seq<Node>): Node {
    Call(1, Attribute(1, Name(1, "db"), "execute"), [StrLit(1, sql)], keywords)
  }

  /** `[1]` */
  function ListOfOne(): Node { Collection(1, [OtherLit(1)]) }

  /** `**{"parameters": [1]}` */
  function SpreadList(): Node {
    KeywordArg(1, None, DictLit(1, [StrLit(1, "parameters")], [ListOfOne()]))
  }

  /** A statement with rules that asks for no parameters. */
  predicate TakesNone(lx: Lexer, sql: string) { !Exempt(lx, sql) && Keeps(lx, sql, false, false) }

  /** A statement with rules that asks for named parameters. */
  predicate TakesNamed(lx: Lexer, sql: string) { !Exempt(lx, sql) && Keeps(lx, sql, true, true) }

  lemma {:induction false} LiteralFindings(lx: Lexer, call: Node, scope: Scope, sql: string)
    requires SqlCall(call) && call.args != [] && call.args[0] == StrLit(1, sql)
    ensures CallFindings(lx, call, scope) == StatementFindings(lx, sql, ParamKind(Params(call), scope))
    ensures MayBe(call.args[0], scope, Text(sql))
  {
    var kind := ParamKind(Params(call), scope);
    assert Resolve(call.args[0], scope, {}) == Resolution([sql], []);
    assert [sql][1..] == [] && TextFindings(lx, [], {} + {sql}, kind) == [];
    assert TextFindings(lx, [sql], {}, kind) == StatementFindings(lx, sql, kind) + [];
    assert ReasonFindings(lx, call.args[0], []) == [];
    assert Denotes(call.args[0], scope, Text(sql), 1);
  }

  lemma {:induction false} SpreadPasses(lx: Lexer, sql: string, scope: Scope)
    requires TakesNone(lx, sql)
    ensures var call := Execute(sql, [SpreadList()]);
      SqlCall(call) && CallFindings(lx, call, scope) == [] && !SafeCall(lx, call, scope)
  {
    var call := Execute(sql, [SpreadList()]);
    LiteralFindings(lx, call, scope, sql);
    assert KeywordParams([SpreadList()]) == None by { assert [SpreadList()][..0] == []; }
    SilentExactlyWhenKept(lx, sql, Absent);
    assert SpreadsMapping(call.keywords[0]);
    if SafeCall(lx, call, scope) { SafeIsCovered(lx, call, scope); }
  }

  lemma {:induction false} ListOfOneIsAList(scope: Scope)
    ensures MayBe(ListOfOne(), scope, Rows([Opaque])) && !OnlyDicts(Rows([Opaque]))
  {
    assert Denotes(OtherLit(1), scope, Opaque, 1);
    var elts, v := ListOfOne().elts, Rows([Opaque]);
    assert elts[0] == OtherLit(1);
    assert Denotes(ListOfOne(), scope, v, 2);
    assert !v.rows[0].Table_?;
  }

  /** Of two parameter keywords the checker judges the last, and the first may pass a list. */
  lemma {:induction false} TwoKeywordsEscape(lx: Lexer, sql: string, scope: Scope)
    requires TakesNamed(lx, sql)
    ensures var call := Execute(sql, [KeywordArg(1, Some("params"), ListOfOne()),
                                      KeywordArg(1, Some("parameters"), DictLit(1, [], []))]);
      SqlCall(call) && CallFindings(lx, call, scope) == [] && !SafeCall(lx, call, scope)
  {
    var first := KeywordArg(1, Some("params"), ListOfOne());
    var last := KeywordArg(1, Some("parameters"), DictLit(1, [], []));
    var call := Execute(sql, [first, last]);
    LiteralFindings(lx, call, scope, sql);
    assert call.keywords[1] == last;
    LastKeywordIsADict(call, scope);
    SilentExactlyWhenKept(lx, sql, DictKind);
    FirstKeywordPassesAList(call, scope);
    if SafeCall(lx, call, scope) { SafeIsCovered(lx, call, scope); }
  }

  lemma LastKeywordIsADict(call: Node, scope: Scope)
    requires call.Call? && |call.args| <= 1 && |call.keywords| == 2
    requires call.keywords[1] == KeywordArg(1, Some("parameters"), DictLit(1, [], []))
    ensures ParamKind(Params(call), scope) == DictKind
  {
  }

  lemma {:induction false} FirstKeywordPassesAList(call: Node, scope: Scope)
    requires call.Call? && |call.args| <= 1 && call.keywords != []
    requires call.keywords[0] == KeywordArg(1, Some("params"), ListOfOne())
    ensures !NamedAreDicts(call, scope)
  {
    ListOfOneIsAList(scope);
    assert NamesParameters(call.keywords[0]) && PassesByName(call.keywords, scope, Rows([Opaque]));
  }

  /** Nothing is skipped below the node, and it holds no call but this one. */
  ghost predicate Only(n: Node, call: Node, d: nat)
    decreases d
  {
    && d > 0 && Skipped(n) == [] && Inner(n) == [] && (n.Call? ==> n == call)
    && forall i :: 0 <= i < |Outer(n)| ==> Only(Outer(n)[i], call, d - 1)
  }

  lemma {:induction false} OnlyAt(n: Node, call: Node, d: nat, path: Path)
    requires Only(n, call, d) && NodeAt(n, path).Some?
    ensures !Skips(path) && (NodeAt(n, path).value.Call? ==> NodeAt(n, path).value == call)
    decreases |path|
  {
    if path != [] {
      assert path[0].Along?;
      OnlyAt(Outer(n)[path[0].i], call, d - 1, path[1..]);
      forall k | 0 <= k < |path| ensures !path[k].Aside? { if k > 0 { assert path[k] == path[1..][k - 1]; } }
    }
  }

  lemma {:induction false} OnlyOne(n: Node, child: Node, call: Node, d: nat)
    requires Skipped(n) == [] && Inner(n) == [] && Outer(n) == [child] && (n.Call? ==> n == call)
    requires Only(child, call, d)
    ensures Only(n, call, d + 1)
  {
  }

  lemma {:induction false} LeavesAreOnly(call: Node, name: string, text: string, d: nat)
    requires d > 0
    ensures Only(Name(1, name), call, d) && Only(StrLit(1, text), call, d) && Only(OtherLit(1), call, d)
  {
  }

  lemma {:induction false} SpreadIsOnly(call: Node)
    ensures Only(SpreadList(), call, 4)
  {
    LeavesAreOnly(call, "", "parameters", 1);
    LeavesAreOnly(call, "", "parameters", 2);
    assert Outer(ListOfOne()) == [OtherLit(1)];
    OnlyOne(ListOfOne(), OtherLit(1), call, 1);
    var dict := SpreadList().value;
    SpreadDict(dict);
    assert Only(dict, call, 3);
    assert Outer(SpreadList()) == [dict];
    OnlyOne(SpreadList(), dict, call, 3);
  }

  lemma SpreadDict(dict: Node)
    requires dict == SpreadList().value
    ensures Outer(dict) == [StrLit(1, "parameters"), ListOfOne()]
  {
    assert RealKeys([]) == [] && [StrLit(1, "parameters")][1..] == [];
    assert RealKeys(dict.keys) == [StrLit(1, "parameters")];
  }

  lemma {:induction false} CallIsOnly(sql: string)
    ensures var call := Execute(sql, [SpreadList()]); Only(call, call, 5)
  {
    var call := Execute(sql, [SpreadList()]);
    SpreadIsOnly(call);
    LeavesAreOnly(call, "db", sql, 3);
    LeavesAreOnly(call, "db", sql, 4);
    assert Outer(call.func) == [Name(1, "db")];
    OnlyOne(call.func, Name(1, "db"), call, 3);
    assert Outer(call) == [call.func, StrLit(1, sql), SpreadList()];
  }

  lemma {:induction false} SilentSites(lx: Lexer, sites: seq<Site>)
    requires forall k :: 0 <= k < |sites| ==> CallFindings(lx, sites[k].call, sites[k].scope) == []
    ensures ReportedSites(lx, [], sites) == []
  {
    if sites != [] { SilentSites(lx, sites[1..]); }
  }

  const STRAIGHT: Path := [Along(0), Along(0)]

  /** A file that consists of this one call. */
  function Lone(call: Node): seq<Node> { [Other(1, [call])] }

  lemma {:induction false} LoneIsClean(lx: Lexer, call: Node)
    requires Only(call, call, 5) && forall scope :: CallFindings(lx, call, scope) == []
    ensures Clean(lx, Lone(call)) && NothingHidden(File(Lone(call)))
    ensures NodeAt(File(Lone(call)), STRAIGHT) == Some(call)
  {
    var suite := Lone(call);
    assert Outer(suite[0]) == [call] && Outer(File(suite)) == [suite[0]];
    OnlyOne(suite[0], call, call, 5);
    OnlyOne(File(suite), suite[0], call, 6);
    forall path | NodeAt(File(suite), path).Some? ensures !Skips(path) {
      OnlyAt(File(suite), call, 7, path);
    }
    FileSites(suite, FileScope(suite));
    var sites := SitesAll(suite, FileScope(suite));
    forall k | 0 <= k < |sites| ensures CallFindings(lx, sites[k].call, sites[k].scope) == [] {
      assert sites[k] in Sites(File(suite), FileScope(suite));
      var path := VisitedOccurs(File(suite), FileScope(suite), sites[k]);
      OnlyAt(File(suite), call, 7, path);
    }
    SilentSites(lx, sites);
    TwoSteps(File(suite), Along(0), suite[0], Along(0), call);
  }

  /** `db.execute("...", **{"parameters": [1]})`: the file is clean and hides nothing, and binds a list. */
  lemma {:induction false} SpreadMappingEscapes(lx: Lexer, sql: string)
    requires TakesNone(lx, sql)
    ensures var call := Execute(sql, [SpreadList()]); var suite := Lone(call);
      && Clean(lx, suite) && NothingHidden(File(suite))
      && NodeAt(File(suite), STRAIGHT) == Some(call) && !SafeAt(lx, suite, STRAIGHT)
      && MayBe(ListOfOne(), FileScope(suite), Rows([Opaque])) && !OnlyDicts(Rows([Opaque]))
  {
    var call := Execute(sql, [SpreadList()]);
    CallIsOnly(sql);
    forall scope ensures CallFindings(lx, call, scope) == [] && !SafeCall(lx, call, scope) {
      SpreadPasses(lx, sql, scope);
    }
    LoneIsClean(lx, call);
    ListOfOneIsAList(FileScope(Lone(call)));
  }
}
