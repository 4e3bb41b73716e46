/** How the checker reads expressions. */
module SqlWays {
  import opened Wrappers
  import opened SqlScope
  import opened SqlChecker

  // ---- ways through an expression ---------------------------------------------

  /** The expressions one reading step away: the arms of a conditional, the operands of `and` and `or`, what a
      name is bound to; and, when texts are read, the values of a dict and what is subscripted. */
  function Next(n: Node, scope: Scope, texts: bool): seq<Node> {
    match n
    case IfExp(_, _, body, orelse) => [body, orelse]
    case BoolOp(_, values) => values
    case DictLit(_, _, values) => if texts then values else []
    case Subscript(_, container, _) => if texts then [container] else []
    case Name(line, id) => Maybe(Lookup(scope, id, line))
    case _ => []
  }

  function Passed(n: Node, names: set<string>): set<string> {
    if n.Name? then names + {n.id} else names
  }

  predicate Repeats(n: Node, names: set<string>) { n.Name? && n.id in names }

  /** Where a way leads: choices among the next expressions, never on from a name met before. */
  datatype Arrival = Arrival(node: Node, names: set<string>)

  function Arrive(n: Node, scope: Scope, texts: bool, names: set<string>, way: seq<nat>): Option<Arrival>
    decreases |way|
  {
    if way == [] then Some(Arrival(n, names))
    else if Repeats(n, names) || way[0] >= |Next(n, scope, texts)| then None
    else Arrive(Next(n, scope, texts)[way[0]], scope, texts, Passed(n, names), way[1..])
  }

  // ---- texts and obstacles ----------------------------------------------------

  /** What stops a way from ending at a literal. */
  function Obstacle(n: Node, scope: Scope, names: set<string>): Option<Reason> {
    match n
    case FString(_, _) => Some(AnFString)
    case BinOp(_, _, op, _) =>
      Some(if op.Plus? then Concatenation else if op.Percent? then PercentFormatting else Arithmetic)
    case Call(_, func, _, _) =>
      Some(if func.Attribute? && func.attr == "format" then FormatCall
           else if func.Attribute? && func.attr == "join" then JoinCall
           else Computed)
    case Name(line, id) =>
      if id in names then Some(SelfReference(id))
      else if Lookup(scope, id, line).None? then Some(UnresolvedName(id))
      else None
    case _ =>
      if n.StrLit? || n.OtherLit? || n.IfExp? || n.BoolOp? || n.DictLit? || n.Subscript? then None else Some(NonLiteral)
  }

  /** What reading can come upon. */
  datatype Find = Read(text: string) | Stop(reason: Reason)

  predicate Ends(a: Arrival, scope: Scope, f: Find) {
    match f
    case Read(s) => a.node.StrLit? && a.node.text == s
    case Stop(r) => Obstacle(a.node, scope, a.names) == Some(r)
  }

  predicate LeadsBy(n: Node, scope: Scope, names: set<string>, way: seq<nat>, f: Find) {
    var a := Arrive(n, scope, true, names, way); a.Some? && Ends(a.value, scope, f)
  }

  /** Some way from the expression leads to it. */
  ghost predicate LeadsTo(n: Node, scope: Scope, names: set<string>, f: Find) {
    exists way :: LeadsBy(n, scope, names, way, f)
  }

  predicate Holds(r: Resolution, f: Find) {
    match f
    case Read(s) => s in r.texts
    case Stop(x) => x in r.reasons
  }

  // ---- one reading step -------------------------------------------------------

  /** Where reading goes on from a node. */
  function Onward(n: Node, scope: Scope, texts: bool, names: set<string>): seq<Node> {
    if Repeats(n, names) then [] else Next(n, scope, texts)
  }

  function Own(n: Node, scope: Scope, names: set<string>): Resolution {
    var o := Obstacle(n, scope, names);
    Resolution(if n.StrLit? then [n.text] else [], if o.Some? then [o.value] else [])
  }

  lemma JoinedNothing(r: Resolution)
    ensures Joined(r, Resolution([], [])) == r && Joined(Resolution([], []), r) == r
  {
    assert r.texts + [] == r.texts && r.reasons + [] == r.reasons;
    assert [] + r.texts == r.texts && [] + r.reasons == r.reasons;
  }

  lemma {:induction false} ResolveOne(n: Node, scope: Scope, seen: set<string>)
    ensures ResolveAll([n], scope, seen) == Resolve(n, scope, seen)
  {
    assert [n][1..] == [];
    assert ResolveAll([], scope, seen) == Resolution([], []);
    JoinedNothing(Resolve(n, scope, seen));
  }

  lemma {:induction false} ResolveTwo(a: Node, b: Node, scope: Scope, seen: set<string>)
    ensures ResolveAll([a, b], scope, seen) == Joined(Resolve(a, scope, seen), Resolve(b, scope, seen))
  {
    assert [a, b][1..] == [b];
    ResolveOne(b, scope, seen);
  }

  lemma {:induction false} ResolveEnd(n: Node, scope: Scope, seen: set<string>)
    requires Onward(n, scope, true, seen) == []
    ensures Resolve(n, scope, seen) == Own(n, scope, seen)
  {
    if n.BoolOp? || n.DictLit? { assert ResolveAll([], scope, seen) == Resolution([], []); }
  }

  lemma {:induction false} ResolveName(n: Node, scope: Scope, seen: set<string>)
    requires n.Name? && Onward(n, scope, true, seen) != []
    ensures Resolve(n, scope, seen) == ResolveAll(Onward(n, scope, true, seen), scope, Passed(n, seen))
  {
    ResolveOne(Lookup(scope, n.id, n.line).value, scope, seen + {n.id});
  }

  lemma {:induction false} ResolveInner(n: Node, scope: Scope, seen: set<string>)
    requires !n.Name? && Onward(n, scope, true, seen) != []
    ensures Resolve(n, scope, seen) == ResolveAll(Onward(n, scope, true, seen), scope, seen)
  {
    if n.IfExp? { ResolveTwo(n.body, n.orelse, scope, seen); }
    if n.Subscript? { ResolveOne(n.container, scope, seen); }
  }

  lemma OwnIsNothing(n: Node, scope: Scope, seen: set<string>)
    requires Onward(n, scope, true, seen) != []
    ensures Own(n, scope, seen) == Resolution([], [])
  {
  }

  /** Resolution gathers what is at the node and what lies onward. */
  lemma {:induction false} ResolveStep(n: Node, scope: Scope, seen: set<string>)
    ensures Resolve(n, scope, seen)
      == Joined(Own(n, scope, seen), ResolveAll(Onward(n, scope, true, seen), scope, Passed(n, seen)))
  {
    var later := ResolveAll(Onward(n, scope, true, seen), scope, Passed(n, seen));
    if Onward(n, scope, true, seen) == [] {
      ResolveEnd(n, scope, seen);
      assert later == Resolution([], []);
      JoinedNothing(Own(n, scope, seen));
    } else {
      OwnIsNothing(n, scope, seen);
      if n.Name? { ResolveName(n, scope, seen); } else { ResolveInner(n, scope, seen); }
      JoinedNothing(later);
    }
  }

  predicate HeldAt(ns: seq<Node>, scope: Scope, seen: set<string>, i: int, f: Find) {
    0 <= i < |ns| && Holds(Resolve(ns[i], scope, seen), f)
  }

  lemma {:induction false} JoinedHolds(a: Resolution, b: Resolution, f: Find)
    ensures Holds(Joined(a, b), f) <==> Holds(a, f) || Holds(b, f)
  {
  }

  lemma {:induction false} AllHold(ns: seq<Node>, scope: Scope, seen: set<string>, f: Find)
    ensures Holds(ResolveAll(ns, scope, seen), f) <==> exists i :: HeldAt(ns, scope, seen, i, f)
  {
    if ns != [] {
      AllHold(ns[1..], scope, seen, f);
      JoinedHolds(Resolve(ns[0], scope, seen), ResolveAll(ns[1..], scope, seen), f);
      assert HeldAt(ns, scope, seen, 0, f) <==> Holds(Resolve(ns[0], scope, seen), f);
      if i :| HeldAt(ns, scope, seen, i, f) && i > 0 { assert HeldAt(ns[1..], scope, seen, i - 1, f); }
      if i :| HeldAt(ns[1..], scope, seen, i, f) { assert HeldAt(ns, scope, seen, i + 1, f); }
    }
  }

  /** What is resolved is found at the node or onward. */
  lemma {:induction false} HeldStep(n: Node, scope: Scope, seen: set<string>, f: Find)
    ensures Holds(Resolve(n, scope, seen), f) <==>
      Ends(Arrival(n, seen), scope, f) || exists i :: HeldAt(Onward(n, scope, true, seen), scope, Passed(n, seen), i, f)
  {
    ResolveStep(n, scope, seen);
    JoinedHolds(Own(n, scope, seen), ResolveAll(Onward(n, scope, true, seen), scope, Passed(n, seen)), f);
    AllHold(Onward(n, scope, true, seen), scope, Passed(n, seen), f);
  }

  // ---- a step makes progress --------------------------------------------------

  lemma {:induction false} NextIsSmaller(n: Node, scope: Scope, texts: bool, i: nat)
    requires i < |Next(n, scope, texts)| && !n.Name?
    ensures Size(Next(n, scope, texts)[i]) < Size(n)
  {
    if n.BoolOp? || n.DictLit? { MemberIsSmaller(n.values, i); }
  }

  lemma {:induction false} NameUsesUp(n: Node, scope: Scope, texts: bool, seen: set<string>)
    requires n.Name? && Onward(n, scope, texts, seen) != []
    ensures BoundNames(scope) - Passed(n, seen) < BoundNames(scope) - seen
  {
    ScanNeedsEntries(scope, n.id, n.line);
    assert n.id in BoundNames(scope) - seen;
  }

  // ---- resolution is reading --------------------------------------------------

  lemma {:induction false} FoundOnAWay(n: Node, scope: Scope, seen: set<string>, f: Find) returns (way: seq<nat>)
    requires Holds(Resolve(n, scope, seen), f)
    ensures LeadsBy(n, scope, seen, way, f)
    decreases BoundNames(scope) - seen, Size(n)
  {
    HeldStep(n, scope, seen, f);
    way := [];
    if !Ends(Arrival(n, seen), scope, f) {
      var onward := Onward(n, scope, true, seen);
      var i: int :| HeldAt(onward, scope, Passed(n, seen), i, f);
      if n.Name? { NameUsesUp(n, scope, true, seen); } else { NextIsSmaller(n, scope, true, i); }
      var rest := FoundOnAWay(onward[i], scope, Passed(n, seen), f);
      way := [i] + rest;
      assert way[1..] == rest;
    }
  }

  lemma {:induction false} WayIsFound(n: Node, scope: Scope, seen: set<string>, way: seq<nat>, f: Find)
    requires LeadsBy(n, scope, seen, way, f)
    ensures Holds(Resolve(n, scope, seen), f)
    decreases |way|
  {
    HeldStep(n, scope, seen, f);
    if way != [] {
      var onward := Onward(n, scope, true, seen);
      WayIsFound(onward[way[0]], scope, Passed(n, seen), way[1..], f);
      assert HeldAt(onward, scope, Passed(n, seen), way[0], f);
    }
  }

  /** Resolution yields exactly the texts and the obstacles that some way through the expression leads to. */
  lemma {:induction false} ResolvesExactly(n: Node, scope: Scope, seen: set<string>, f: Find)
    ensures Holds(Resolve(n, scope, seen), f) <==> LeadsTo(n, scope, seen, f)
  {
    if Holds(Resolve(n, scope, seen), f) {
      var way := FoundOnAWay(n, scope, seen, f);
    }
    if way :| LeadsBy(n, scope, seen, way, f) { WayIsFound(n, scope, seen, way, f); }
  }

  // ---- judgement of a call ----------------------------------------------------

  /** Every way from the expression ends at a literal, or at nothing. */
  ghost predicate BuiltOfLiterals(n: Node, scope: Scope) {
    forall r: Reason :: !LeadsTo(n, scope, {}, Stop(r))
  }

  lemma {:induction false} ReasonsReport(lx: Lexer, sqlNode: Node, reasons: seq<Reason>, r: Reason)
    ensures Assembled(r) in ReasonFindings(lx, sqlNode, reasons) <==> r in reasons
  {
    if reasons != [] {
      ReasonsReport(lx, sqlNode, reasons[1..], r);
      assert reasons == [reasons[0]] + reasons[1..];
    }
  }

  lemma {:induction false} FindingsOfCall(lx: Lexer, call: Node, scope: Scope, f: Finding)
    requires SqlCall(call) && call.args != []
    ensures var r, kind := Resolve(call.args[0], scope, {}), ParamKind(Params(call), scope);
      f in CallFindings(lx, call, scope) <==>
      f in ReasonFindings(lx, call.args[0], r.reasons) || f in TextFindings(lx, r.texts, {}, kind)
  {
  }

  /** A call is reported as assembled in some way exactly when a way through its statement leads to that. */
  lemma {:induction false} AssembledExactlyWhen(lx: Lexer, call: Node, scope: Scope, r: Reason)
    requires SqlCall(call) && call.args != []
    ensures Assembled(r) in CallFindings(lx, call, scope) <==> LeadsTo(call.args[0], scope, {}, Stop(r))
  {
    ResolvesExactly(call.args[0], scope, {}, Stop(r));
    ReasonsOfCall(lx, call, scope, r);
  }

  lemma {:induction false} ReasonsOfCall(lx: Lexer, call: Node, scope: Scope, r: Reason)
    requires SqlCall(call) && call.args != []
    ensures Assembled(r) in CallFindings(lx, call, scope) <==> r in Resolve(call.args[0], scope, {}).reasons
  {
    var resolved := Resolve(call.args[0], scope, {});
    FindingsOfCall(lx, call, scope, Assembled(r));
    ReasonsReport(lx, call.args[0], resolved.reasons, r);
    TextsAssembleNothing(lx, resolved.texts, ParamKind(Params(call), scope), r);
  }

  lemma NothingAssembled(lx: Lexer, text: string, kind: Kind, r: Reason)
    ensures Assembled(r) !in StatementFindings(lx, text, kind)
  {
  }

  lemma {:induction false} TextsAssembleNothing(lx: Lexer, texts: seq<string>, kind: Kind, r: Reason)
    ensures Assembled(r) !in TextFindings(lx, texts, {}, kind)
  {
    TextsReport(lx, texts, {}, kind, Assembled(r));
    forall s: string ensures Assembled(r) !in StatementFindings(lx, s, kind) { NothingAssembled(lx, s, kind, r); }
  }

  /** No assembly is reported exactly for statements built of literals. */
  lemma {:induction false} LiteralsAreAccepted(lx: Lexer, call: Node, scope: Scope)
    requires SqlCall(call) && call.args != []
    ensures BuiltOfLiterals(call.args[0], scope) <==>
      forall r: Reason :: Assembled(r) !in CallFindings(lx, call, scope)
  {
    forall r: Reason
      ensures Assembled(r) in CallFindings(lx, call, scope) <==> LeadsTo(call.args[0], scope, {}, Stop(r))
    {
      AssembledExactlyWhen(lx, call, scope, r);
    }
  }

  /** Looking a literal up in a dict of literals, the recommended form, is built of literals. */
  lemma {:induction false} DispatchIsAccepted(n: Node, scope: Scope)
    requires n.Subscript? && n.container.DictLit?
    requires forall i :: 0 <= i < |n.container.values| ==> n.container.values[i].StrLit?
    ensures BuiltOfLiterals(n, scope)
  {
    LiteralsHaveNoReasons(n.container.values, scope);
    assert Resolve(n, scope, {}) == ResolveAll(n.container.values, scope, {});
    forall r: Reason ensures !LeadsTo(n, scope, {}, Stop(r)) { ResolvesExactly(n, scope, {}, Stop(r)); }
  }

  lemma {:induction false} LiteralsHaveNoReasons(ns: seq<Node>, scope: Scope)
    requires forall i :: 0 <= i < |ns| ==> ns[i].StrLit?
    ensures ResolveAll(ns, scope, {}).reasons == []
  {
    if ns != [] { LiteralsHaveNoReasons(ns[1..], scope); }
  }

  /** A rule is reported broken exactly when a text the statement leads to breaks it. */
  lemma {:induction false} JudgedExactlyWhen(lx: Lexer, call: Node, scope: Scope, f: Finding)
    requires SqlCall(call) && call.args != [] && !f.Assembled? && !f.InterpolatedIdentifier?
    ensures f in CallFindings(lx, call, scope) <==> exists s: string ::
      LeadsTo(call.args[0], scope, {}, Read(s)) && f in StatementFindings(lx, s, ParamKind(Params(call), scope))
  {
    var resolved, kind := Resolve(call.args[0], scope, {}), ParamKind(Params(call), scope);
    FindingsOfCall(lx, call, scope, f);
    ReasonsReportAssembly(lx, call.args[0], resolved.reasons, f);
    TextsReport(lx, resolved.texts, {}, kind, f);
    forall s: string ensures s in resolved.texts <==> LeadsTo(call.args[0], scope, {}, Read(s)) {
      ResolvesExactly(call.args[0], scope, {}, Read(s));
    }
  }

  lemma {:induction false} ReasonsReportAssembly(lx: Lexer, sqlNode: Node, reasons: seq<Reason>, f: Finding)
    requires !f.Assembled? && !f.InterpolatedIdentifier?
    ensures f !in ReasonFindings(lx, sqlNode, reasons)
  {
    if reasons != [] { ReasonsReportAssembly(lx, sqlNode, reasons[1..], f); }
  }

  lemma {:induction false} TextsReport(lx: Lexer, texts: seq<string>, done: set<string>, kind: Kind, f: Finding)
    ensures f in TextFindings(lx, texts, done, kind) <==>
      exists s: string :: s in texts && s !in done && f in StatementFindings(lx, s, kind)
  {
    if texts != [] {
      assert texts == [texts[0]] + texts[1..];
      TextsReport(lx, texts[1..], if texts[0] in done then done else done + {texts[0]}, kind, f);
    }
  }

  /** An f-string with an identifier slot is reported so exactly when it is the statement itself. */
  lemma {:induction false} SlotReportedExactlyWhen(lx: Lexer, call: Node, scope: Scope)
    requires SqlCall(call) && call.args != []
    ensures InterpolatedIdentifier in CallFindings(lx, call, scope) <==>
      call.args[0].FString? && lx.slot(FStringText(call.args[0].parts))
  {
    var n, kind := call.args[0], ParamKind(Params(call), scope);
    var resolved := Resolve(n, scope, {});
    FindingsOfCall(lx, call, scope, InterpolatedIdentifier);
    SlotsReport(lx, n, resolved.reasons);
    TextsReport(lx, resolved.texts, {}, kind, InterpolatedIdentifier);
    assert n.FString? ==> resolved.reasons == [AnFString];
  }

  lemma {:induction false} SlotsReport(lx: Lexer, n: Node, reasons: seq<Reason>)
    ensures InterpolatedIdentifier in ReasonFindings(lx, n, reasons) <==>
      reasons != [] && n.FString? && lx.slot(FStringText(n.parts))
  {
    if reasons != [] { SlotsReport(lx, n, reasons[1..]); }
  }

  // ---- kinds of parameters ----------------------------------------------------

  /** What the checker takes an expression for where it looks no further. */
  function EndKind(n: Node): Kind {
    match n
    case DictLit(_, _, _) => DictKind
    case DictComp(_, _, _, _) => DictKind
    case Call(_, func, _, _) => if func.Name? && func.id == "dict" then DictKind else UnknownKind
    case Comprehension(_, elt, _) => if DictNode(elt) then DictKind else SequenceKind
    case Collection(_, elts) => if forall i :: 0 <= i < |elts| ==> DictNode(elts[i]) then DictKind else SequenceKind
    case _ => UnknownKind
  }

  /** Every way ends at an expression of this kind. */
  ghost predicate AllEndsAre(n: Node, scope: Scope, names: set<string>, k: Kind) {
    forall way: seq<nat> :: EndsAs(n, scope, names, way, k)
  }

  predicate EndsAs(n: Node, scope: Scope, names: set<string>, way: seq<nat>, k: Kind) {
    var a := Arrive(n, scope, false, names, way);
    a.Some? && Onward(a.value.node, scope, false, a.value.names) == [] ==> EndKind(a.value.node) == k
  }

  lemma {:induction false} KindsOfTwo(a: Node, b: Node, scope: Scope, seen: set<string>)
    ensures KindsOf([a, b], scope, seen) == {KindOf(a, scope, seen)} + {KindOf(b, scope, seen)}
    ensures KindsOf([a], scope, seen) == {KindOf(a, scope, seen)}
  {
    assert [a, b][1..] == [b] && [b][1..] == [] && [a][1..] == [];
    assert KindsOf([], scope, seen) == {};
    assert KindsOf([b], scope, seen) == {KindOf(b, scope, seen)};
  }

  lemma {:induction false} KindStep(n: Node, scope: Scope, seen: set<string>)
    ensures var onward := Onward(n, scope, false, seen);
      KindOf(n, scope, seen) == if onward == [] then EndKind(n) else Agreed(KindsOf(onward, scope, Passed(n, seen)))
  {
    if n.IfExp? {
      KindsOfTwo(n.body, n.orelse, scope, seen);
    } else if n.Name? && n.id !in seen && Lookup(scope, n.id, n.line).Some? {
      var bound := Lookup(scope, n.id, n.line).value;
      KindsOfTwo(bound, bound, scope, seen + {n.id});
    } else if n.BoolOp? {
      assert KindsOf([], scope, seen) == {};
    }
  }

  lemma {:induction false} KindsAre(ns: seq<Node>, scope: Scope, seen: set<string>, x: Kind)
    ensures x in KindsOf(ns, scope, seen) <==> exists i :: KindAt(ns, scope, seen, i, x)
  {
    if ns != [] {
      KindsAre(ns[1..], scope, seen, x);
      if i :| KindAt(ns, scope, seen, i, x) && i > 0 { assert KindAt(ns[1..], scope, seen, i - 1, x); }
      if i :| KindAt(ns[1..], scope, seen, i, x) { assert KindAt(ns, scope, seen, i + 1, x); }
      assert KindAt(ns, scope, seen, 0, x) <==> KindOf(ns[0], scope, seen) == x;
    }
  }

  lemma {:induction false} KindsAgree(ns: seq<Node>, scope: Scope, seen: set<string>, k: Kind)
    requires ns != []
    ensures KindsOf(ns, scope, seen) == {k} <==> forall i :: 0 <= i < |ns| ==> KindAt(ns, scope, seen, i, k)
  {
    forall x ensures x in KindsOf(ns, scope, seen) <==> exists i :: KindAt(ns, scope, seen, i, x) {
      KindsAre(ns, scope, seen, x);
    }
    forall i | 0 <= i < |ns| ensures KindOf(ns[i], scope, seen) in KindsOf(ns, scope, seen) {
      assert KindAt(ns, scope, seen, i, KindOf(ns[i], scope, seen));
    }
    if forall i :: 0 <= i < |ns| ==> KindAt(ns, scope, seen, i, k) {
      assert KindAt(ns, scope, seen, 0, k);
      forall x | x in KindsOf(ns, scope, seen) ensures x == k {
        var i :| KindAt(ns, scope, seen, i, x);
        assert KindAt(ns, scope, seen, i, k);
      }
    }
  }

  predicate KindAt(ns: seq<Node>, scope: Scope, seen: set<string>, i: int, k: Kind) {
    0 <= i < |ns| && KindOf(ns[i], scope, seen) == k
  }

  lemma {:induction false} KindAgrees(n: Node, scope: Scope, seen: set<string>, k: Kind)
    requires k in {DictKind, SequenceKind} && Onward(n, scope, false, seen) != []
    ensures KindOf(n, scope, seen) == k <==>
      forall i :: 0 <= i < |Onward(n, scope, false, seen)| ==>
        KindAt(Onward(n, scope, false, seen), scope, Passed(n, seen), i, k)
  {
    KindStep(n, scope, seen);
    KindsAgree(Onward(n, scope, false, seen), scope, Passed(n, seen), k);
  }

  lemma {:induction false} OtherBranch(n: Node, scope: Scope, seen: set<string>, k: Kind) returns (i: nat)
    requires k in {DictKind, SequenceKind} && Onward(n, scope, false, seen) != [] && KindOf(n, scope, seen) != k
    ensures i < |Onward(n, scope, false, seen)|
    ensures KindOf(Onward(n, scope, false, seen)[i], scope, Passed(n, seen)) != k
  {
    KindAgrees(n, scope, seen, k);
    i :| i < |Onward(n, scope, false, seen)| && !KindAt(Onward(n, scope, false, seen), scope, Passed(n, seen), i, k);
  }

  lemma {:induction false} OtherEnd(n: Node, scope: Scope, seen: set<string>, k: Kind) returns (way: seq<nat>)
    requires k in {DictKind, SequenceKind} && KindOf(n, scope, seen) != k
    ensures !EndsAs(n, scope, seen, way, k)
    decreases BoundNames(scope) - seen, Size(n)
  {
    way := [];
    var onward := Onward(n, scope, false, seen);
    if onward == [] {
      KindStep(n, scope, seen);
    } else {
      var i := OtherBranch(n, scope, seen, k);
      if n.Name? { NameUsesUp(n, scope, false, seen); } else { NextIsSmaller(n, scope, false, i); }
      var rest := OtherEnd(onward[i], scope, Passed(n, seen), k);
      way := [i] + rest;
      EndsFurther(n, scope, seen, i, rest, k);
    }
  }

  lemma {:induction false} EndsFurther(n: Node, scope: Scope, seen: set<string>, i: nat, rest: seq<nat>, k: Kind)
    requires i < |Onward(n, scope, false, seen)|
    ensures EndsAs(n, scope, seen, [i] + rest, k)
      <==> EndsAs(Onward(n, scope, false, seen)[i], scope, Passed(n, seen), rest, k)
  {
    assert ([i] + rest)[1..] == rest;
  }

  lemma {:induction false} EveryEnd(n: Node, scope: Scope, seen: set<string>, k: Kind, way: seq<nat>)
    requires k in {DictKind, SequenceKind} && KindOf(n, scope, seen) == k
    ensures EndsAs(n, scope, seen, way, k)
    decreases |way|
  {
    var onward := Onward(n, scope, false, seen);
    if onward == [] {
      KindStep(n, scope, seen);
    } else if way != [] && way[0] < |onward| {
      KindAgrees(n, scope, seen, k);
      assert KindAt(onward, scope, Passed(n, seen), way[0], k);
      EveryEnd(onward[way[0]], scope, Passed(n, seen), k, way[1..]);
    }
  }

  /** Parameters are taken for dicts, or for sequences, exactly when every way through conditionals, `and`,
      `or` and names ends at one; for anything else they are unverified. */
  lemma {:induction false} KindExactly(n: Node, scope: Scope, seen: set<string>, k: Kind)
    requires k in {DictKind, SequenceKind}
    ensures KindOf(n, scope, seen) == k <==> AllEndsAre(n, scope, seen, k)
  {
    if KindOf(n, scope, seen) == k {
      forall way: seq<nat> ensures EndsAs(n, scope, seen, way, k) { EveryEnd(n, scope, seen, k, way); }
    } else {
      var way := OtherEnd(n, scope, seen, k);
    }
  }
}
