/** Python syntax and the name bindings visible at a line. */
module SqlScope {
  import opened Wrappers

  datatype Operator = Plus | Percent | OtherOperator

  datatype Node =
    | StrLit(line: int, text: string)
    | OtherLit(line: int)
    | FString(line: int, parts: seq<Node>)
    | BinOp(line: int, left: Node, op: Operator, right: Node)
    | Call(line: int, func: Node, args: seq<Node>, keywords: seq<Node>)
    | KeywordArg(line: int, arg: Option<string>, value: Node)
    | Attribute(line: int, object_: Node, attr: string)
    | IfExp(line: int, test: Node, body: Node, orelse: Node)
    | BoolOp(line: int, values: seq<Node>)
    | DictLit(line: int, keys: seq<Node>, values: seq<Node>)
    | NoKey(line: int)                                              // the key of a `**spread` entry
    | DictComp(line: int, key: Node, value: Node, generators: seq<Node>)
    | Collection(line: int, elts: seq<Node>)                        // list, tuple, set
    | Comprehension(line: int, elt: Node, generators: seq<Node>)    // list, set, generator
    | Subscript(line: int, container: Node, index: Node)
    | Name(line: int, id: string)
    | Lambda(line: int, defaults: seq<Node>, result: Node)
    | FunctionDef(line: int, decorators: seq<Node>, typeParams: seq<Node>, defaults: seq<Node>, annotations: seq<Node>,
                  returns_: Option<Node>, suite: seq<Node>)
    | ClassDef(line: int, decorators: seq<Node>, typeParams: seq<Node>, bases: seq<Node>, keywords: seq<Node>,
               suite: seq<Node>)
    | Assign(line: int, targets: seq<Node>, bound: Node)
    | AnnAssign(line: int, target: Node, annotation: Node, initial: Option<Node>)
    | Other(line: int, children: seq<Node>)

  function Maybe(n: Option<Node>): seq<Node> {
    if n.Some? then [n.value] else []
  }

  function RealKeys(keys: seq<Node>): seq<Node> {
    if keys == [] then [] else (if keys[0].NoKey? then [] else [keys[0]]) + RealKeys(keys[1..])
  }

  /** `ast.iter_child_nodes` for the nodes whose children the checker visits generically. */
  function Children(n: Node): seq<Node> {
    match n
    case FString(_, parts) => parts
    case BinOp(_, left, _, right) => [left, right]
    case Call(_, func, args, keywords) => [func] + args + keywords
    case KeywordArg(_, _, value) => [value]
    case Attribute(_, o, _) => [o]
    case IfExp(_, test, body, orelse) => [test, body, orelse]
    case BoolOp(_, values) => values
    case DictLit(_, keys, values) => RealKeys(keys) + values
    case DictComp(_, key, value, generators) => [key, value] + generators
    case Collection(_, elts) => elts
    case Comprehension(_, elt, generators) => [elt] + generators
    case Subscript(_, container, index) => [container, index]
    case Assign(_, targets, bound) => targets + [bound]
    case AnnAssign(_, target, annotation, initial) => [target, annotation] + Maybe(initial)
    case Other(_, children) => children
    case _ => []
  }

  function Size(n: Node): nat
    decreases n, 1
  {
    1 + match n
    case FString(_, parts) => Total(parts)
    case BinOp(_, left, _, right) => Size(left) + Size(right)
    case Call(_, func, args, keywords) => Size(func) + Total(args) + Total(keywords)
    case KeywordArg(_, _, value) => Size(value)
    case Attribute(_, o, _) => Size(o)
    case IfExp(_, test, body, orelse) => Size(test) + Size(body) + Size(orelse)
    case BoolOp(_, values) => Total(values)
    case DictLit(_, keys, values) => Total(keys) + Total(values)
    case DictComp(_, key, value, generators) => Size(key) + Size(value) + Total(generators)
    case Collection(_, elts) => Total(elts)
    case Comprehension(_, elt, generators) => Size(elt) + Total(generators)
    case Subscript(_, container, index) => Size(container) + Size(index)
    case Lambda(_, defaults, result) => Total(defaults) + Size(result)
    case FunctionDef(_, decorators, typeParams, defaults, annotations, returns_, suite) =>
      Total(decorators) + Total(typeParams) + Total(defaults) + Total(annotations)
      + (if returns_.Some? then Size(returns_.value) else 0) + Total(suite)
    case ClassDef(_, decorators, typeParams, bases, keywords, suite) =>
      Total(decorators) + Total(typeParams) + Total(bases) + Total(keywords) + Total(suite)
    case Assign(_, targets, bound) => Total(targets) + Size(bound)
    case AnnAssign(_, target, annotation, initial) =>
      Size(target) + Size(annotation) + (if initial.Some? then Size(initial.value) else 0)
    case Other(_, children) => Total(children)
    case _ => 0
  }

  function Total(ns: seq<Node>): nat
    decreases ns, 0
  {
    if ns == [] then 0 else Size(ns[0]) + Total(ns[1..])
  }

  lemma {:induction false} MemberIsSmaller(ns: seq<Node>, i: nat)
    requires i < |ns|
    ensures Size(ns[i]) <= Total(ns)
  {
    if i > 0 { MemberIsSmaller(ns[1..], i - 1); }
  }

  lemma {:induction false} TotalAppend(a: seq<Node>, b: seq<Node>)
    ensures Total(a + b) == Total(a) + Total(b)
  {
    if a == [] {
      assert a + b == b;
    } else {
      assert (a + b)[1..] == a[1..] + b;
      TotalAppend(a[1..], b);
    }
  }

  lemma {:induction false} RealKeysAreFewer(keys: seq<Node>)
    ensures Total(RealKeys(keys)) <= Total(keys)
  {
    if keys != [] {
      RealKeysAreFewer(keys[1..]);
      if !keys[0].NoKey? {
        TotalAppend([keys[0]], RealKeys(keys[1..]));
        TotalOne(keys[0]);
      } else {
        assert RealKeys(keys) == RealKeys(keys[1..]);
      }
    }
  }

  lemma {:induction false} TotalMaybe(n: Option<Node>)
    ensures Total(Maybe(n)) == if n.Some? then Size(n.value) else 0
  {
    if n.Some? { TotalOne(n.value); }
  }

  lemma {:induction false} TotalOne(n: Node)
    ensures Total([n]) == Size(n)
  {
    assert [n][1..] == [];
  }

  lemma {:induction false} TotalTwo(a: Node, b: Node)
    ensures Total([a, b]) == Size(a) + Size(b)
  {
    assert [a, b] == [a] + [b];
    TotalAppend([a], [b]);
    TotalOne(a);
    TotalOne(b);
  }

  lemma {:induction false} TotalThree(a: Node, b: Node, c: Node)
    ensures Total([a, b, c]) == Size(a) + Size(b) + Size(c)
  {
    assert [a, b, c] == [a] + [b, c];
    TotalAppend([a], [b, c]);
    TotalOne(a);
    TotalTwo(b, c);
  }

  lemma {:induction false} TotalOneAnd(a: Node, rest: seq<Node>)
    ensures Total([a] + rest) == Size(a) + Total(rest)
  {
    TotalAppend([a], rest);
    TotalOne(a);
  }

  lemma {:induction false} TotalTwoAnd(a: Node, b: Node, rest: seq<Node>)
    ensures Total([a, b] + rest) == Size(a) + Size(b) + Total(rest)
  {
    TotalAppend([a, b], rest);
    TotalTwo(a, b);
  }

  lemma {:induction false} TotalCall(func: Node, args: seq<Node>, keywords: seq<Node>)
    ensures Total([func] + args + keywords) == Size(func) + Total(args) + Total(keywords)
  {
    TotalAppend([func] + args, keywords);
    TotalOneAnd(func, args);
  }

  lemma {:induction false} ChildrenAreSmaller(n: Node)
    ensures Total(Children(n)) < Size(n)
  {
    match n
    case BinOp(_, left, _, right) => TotalTwo(left, right);
    case Call(_, func, args, keywords) => TotalCall(func, args, keywords);
    case KeywordArg(_, _, value) => TotalOne(value);
    case Attribute(_, o, _) => TotalOne(o);
    case IfExp(_, test, body, orelse) => TotalThree(test, body, orelse);
    case Subscript(_, container, index) => TotalTwo(container, index);
    case _ => ManyChildrenAreSmaller(n);
  }

  lemma {:induction false} ManyChildrenAreSmaller(n: Node)
    requires !n.BinOp? && !n.Call? && !n.KeywordArg? && !n.Attribute? && !n.IfExp? && !n.Subscript?
    ensures Total(Children(n)) < Size(n)
  {
    match n
    case DictLit(_, keys, values) =>
      TotalAppend(RealKeys(keys), values);
      RealKeysAreFewer(keys);
    case DictComp(_, key, value, generators) => TotalTwoAnd(key, value, generators);
    case Comprehension(_, elt, generators) => TotalOneAnd(elt, generators);
    case Assign(_, targets, bound) =>
      TotalAppend(targets, [bound]);
      TotalOne(bound);
    case AnnAssign(_, target, annotation, initial) =>
      TotalTwoAnd(target, annotation, Maybe(initial));
      TotalMaybe(initial);
    case _ =>
  }

  // ---- what the walk enters ---------------------------------------------------

  /** The children `_walk` visits in the scope it is in. */
  function Outer(n: Node): seq<Node> {
    match n
    case FunctionDef(_, decorators, _, defaults, _, returns_, _) => decorators + defaults + Maybe(returns_)
    case Lambda(_, _, result) => [result]
    case ClassDef(_, decorators, _, bases, _, suite) => decorators + bases + suite
    case _ => Children(n)
  }

  /** The children it visits in a scope of their own. */
  function Inner(n: Node): seq<Node> {
    if n.FunctionDef? then n.suite else []
  }

  /** The children it never visits: defaults of lambdas, argument annotations, class keywords, type parameters. */
  function Skipped(n: Node): seq<Node> {
    match n
    case FunctionDef(_, _, typeParams, _, annotations, _, _) => typeParams + annotations
    case Lambda(_, defaults, _) => defaults
    case ClassDef(_, _, typeParams, _, keywords, _) => typeParams + keywords
    case _ => []
  }

  lemma {:induction false} TotalParts(a: seq<Node>, b: seq<Node>, c: seq<Node>)
    ensures Total(a + b + c) == Total(a) + Total(b) + Total(c)
  {
    TotalAppend(a + b, c);
    TotalAppend(a, b);
  }

  lemma {:induction false} PartsAreSmaller(n: Node)
    ensures Total(Outer(n)) + Total(Inner(n)) + Total(Skipped(n)) < Size(n)
  {
    match n
    case FunctionDef(_, decorators, typeParams, defaults, annotations, returns_, _) =>
      TotalParts(decorators, defaults, Maybe(returns_));
      TotalMaybe(returns_);
      TotalAppend(typeParams, annotations);
    case Lambda(_, _, result) => TotalOne(result);
    case ClassDef(_, decorators, typeParams, bases, keywords, suite) =>
      TotalParts(decorators, bases, suite);
      TotalAppend(typeParams, keywords);
    case _ => ChildrenAreSmaller(n);
  }

  // ---- collecting bindings ----------------------------------------------------

  datatype Binding = Binding(name: string, line: int, value: Node)

  /** Function, class and lambda bodies own their names. */
  predicate Barrier(n: Node) {
    n.FunctionDef? || n.ClassDef? || n.Lambda?
  }

  function TargetBindings(targets: seq<Node>, line: int, value: Node): seq<Binding> {
    if targets == [] then []
    else
      (if targets[0].Name? then [Binding(targets[0].id, line, value)] else [])
      + TargetBindings(targets[1..], line, value)
  }

  /** The bindings a node makes by itself. */
  function Own(n: Node): seq<Binding> {
    match n
    case Assign(line, targets, value) => TargetBindings(targets, line, value)
    case AnnAssign(line, target, _, Some(value)) =>
      if target.Name? then [Binding(target.id, line, value)] else []
    case _ => []
  }

  /** Bindings in the order the worklist meets them: last node first, children pushed on top. */
  function Drain(pending: seq<Node>): seq<Binding>
    decreases Total(pending)
  {
    if pending == [] then []
    else
      var node, rest := pending[|pending| - 1], pending[..|pending| - 1];
      assert pending == rest + [node];
      TotalAppend(rest, [node]);
      TotalOne(node);
      TotalAppend(rest, Children(node));
      ChildrenAreSmaller(node);
      if Barrier(node) then Drain(rest) else Own(node) + Drain(rest + Children(node))
  }

  function Named(bs: seq<Binding>, name: string): seq<Binding> {
    if bs == [] then []
    else (if bs[0].name == name then [bs[0]] else []) + Named(bs[1..], name)
  }

  /** Insert behind every entry that is not on a later line. */
  function Insert(sorted: seq<Binding>, b: Binding): seq<Binding> {
    if sorted != [] && sorted[|sorted| - 1].line > b.line
    then Insert(sorted[..|sorted| - 1], b) + [sorted[|sorted| - 1]]
    else sorted + [b]
  }

  /** The stable sort by line. */
  function ByLine(bs: seq<Binding>): seq<Binding> {
    if bs == [] then [] else Insert(ByLine(bs[..|bs| - 1]), bs[|bs| - 1])
  }

  type Table = map<string, seq<Binding>>

  function NamesIn(bs: seq<Binding>): set<string> {
    set i | 0 <= i < |bs| :: bs[i].name
  }

  /** `_collect_assignments` */
  function Collect(nodes: seq<Node>): Table {
    var bs := Drain(nodes);
    map name | name in NamesIn(bs) :: ByLine(Named(bs, name))
  }

  function Group(bs: seq<Binding>): Table {
    map name | name in NamesIn(bs) :: Named(bs, name)
  }

  lemma {:induction false} NamedAppend(a: seq<Binding>, b: seq<Binding>, name: string)
    ensures Named(a + b, name) == Named(a, name) + Named(b, name)
  {
    if a == [] {
      assert a + b == b;
    } else {
      assert (a + b)[1..] == a[1..] + b;
      NamedAppend(a[1..], b, name);
      var head := if a[0].name == name then [a[0]] else [];
      assert head + (Named(a[1..], name) + Named(b, name)) == head + Named(a[1..], name) + Named(b, name);
    }
  }

  lemma {:induction false} NamedAbsent(bs: seq<Binding>, name: string)
    ensures name !in NamesIn(bs) <==> Named(bs, name) == []
  {
    if bs != [] {
      NamedAbsent(bs[1..], name);
      assert forall i :: 0 <= i < |bs[1..]| ==> bs[1..][i] == bs[i + 1];
      if bs[0].name == name { assert bs[0].name in NamesIn(bs); }
      if name in NamesIn(bs[1..]) {
        var i :| 0 <= i < |bs[1..]| && bs[1..][i].name == name;
        assert bs[i + 1].name in NamesIn(bs);
      }
    }
  }

  /** `found.setdefault(name, []).append(...)` */
  function Record(found: Table, b: Binding): Table {
    found[b.name := (if b.name in found then found[b.name] else []) + [b]]
  }

  lemma {:induction false} RecordGroups(bs: seq<Binding>, b: Binding)
    ensures Record(Group(bs), b) == Group(bs + [b])
  {
    var more := bs + [b];
    NamesGrow(bs, b);
    forall name | name in NamesIn(more) ensures Record(Group(bs), b)[name] == Named(more, name) {
      NamedMore(bs, b, name);
      NamedAbsent(bs, name);
    }
  }

  lemma {:induction false} NamesGrow(bs: seq<Binding>, b: Binding)
    ensures NamesIn(bs + [b]) == NamesIn(bs) + {b.name}
  {
    var more := bs + [b];
    assert more[|bs|] == b;
    assert forall i :: 0 <= i < |bs| ==> more[i] == bs[i];
  }

  lemma {:induction false} NamedMore(bs: seq<Binding>, b: Binding, name: string)
    ensures Named(bs + [b], name) == Named(bs, name) + if b.name == name then [b] else []
  {
    NamedAppend(bs, [b], name);
    assert [b][1..] == [];
  }

  /** Every plain name among the targets of one assignment. */
  method RecordTargets(before: Table, ghost bs: seq<Binding>, targets: seq<Node>, line: int, value: Node)
      returns (found: Table)
    requires before == Group(bs)
    ensures found == Group(bs + TargetBindings(targets, line, value))
  {
    found := before;
    assert bs + TargetBindings(targets[..0], line, value) == bs;
    for i := 0 to |targets|
      invariant found == Group(bs + TargetBindings(targets[..i], line, value))
    {
      ghost var done := bs + TargetBindings(targets[..i], line, value);
      TargetsGrow(targets, i, line, value);
      if targets[i].Name? {
        var b := Binding(targets[i].id, line, value);
        RecordGroups(done, b);
        found := Record(found, b);
        assert bs + TargetBindings(targets[..i + 1], line, value) == done + [b];
      } else {
        assert bs + TargetBindings(targets[..i + 1], line, value) == done;
      }
    }
    assert targets[..|targets|] == targets;
  }

  method RecordOwn(before: Table, ghost bs: seq<Binding>, node: Node) returns (found: Table)
    requires before == Group(bs)
    ensures found == Group(bs + Own(node))
  {
    found := before;
    if node.Assign? {
      found := RecordTargets(before, bs, node.targets, node.line, node.bound);
    } else if node.AnnAssign? && node.initial.Some? && node.target.Name? {
      var b := Binding(node.target.id, node.line, node.initial.value);
      RecordGroups(bs, b);
      found := Record(found, b);
    } else {
      assert bs + Own(node) == bs;
    }
  }

  lemma {:induction false} PopShrinks(rest: seq<Node>, node: Node)
    ensures Total(rest) < Total(rest + [node]) && Total(rest + Children(node)) < Total(rest + [node])
  {
    TotalAppend(rest, [node]);
    TotalOne(node);
    TotalAppend(rest, Children(node));
    ChildrenAreSmaller(node);
  }

  /** One step of the worklist. */
  lemma {:induction false} DrainPop(rest: seq<Node>, node: Node)
    ensures Drain(rest + [node]) == if Barrier(node) then Drain(rest) else Own(node) + Drain(rest + Children(node))
  {
    assert (rest + [node])[..|rest|] == rest;
  }

  lemma {:induction false} DrainPops(seen: seq<Binding>, rest: seq<Node>, node: Node)
    ensures seen + Drain(rest + [node])
      == if Barrier(node) then seen + Drain(rest) else (seen + Own(node)) + Drain(rest + Children(node))
  {
    DrainPop(rest, node);
    BindingsRegroup(seen, Own(node), Drain(rest + Children(node)));
  }

  lemma BindingsRegroup(a: seq<Binding>, b: seq<Binding>, c: seq<Binding>)
    ensures a + (b + c) == (a + b) + c
  {
  }

  /** One turn of the worklist loop: take the last node, record what it binds, push its children. */
  method Turn(before: Table, ghost seen: seq<Binding>, pending: seq<Node>)
    returns (found: Table, ghost bs: seq<Binding>, more: seq<Node>)
    requires pending != [] && before == Group(seen)
    ensures found == Group(bs) && bs + Drain(more) == seen + Drain(pending) && Total(more) < Total(pending)
  {
    var node := pending[|pending| - 1];
    found, bs, more := before, seen, pending[..|pending| - 1];
    assert pending == more + [node];
    PopShrinks(more, node);
    DrainPops(seen, more, node);
    if Barrier(node) { return; }
    found := RecordOwn(found, seen, node);
    bs := seen + Own(node);
    more := more + Children(node);
  }

  lemma GroupNothing()
    ensures Group([]) == map[]
  {
    assert NamesIn([]) == {};
  }

  /** The worklist loop: every visible binding, by name. */
  method GroupAssignments(nodes: seq<Node>) returns (found: Table)
    ensures found == Group(Drain(nodes))
  {
    found := map[];
    var pending := nodes;
    ghost var seen: seq<Binding> := [];
    GroupNothing();
    while pending != []
      invariant found == Group(seen) && seen + Drain(pending) == Drain(nodes)
      decreases Total(pending)
    {
      found, seen, pending := Turn(found, seen, pending);
    }
    assert seen + [] == seen;
  }

  method CollectAssignments(nodes: seq<Node>) returns (found: Table)
    ensures found == Collect(nodes)
  {
    found := GroupAssignments(nodes);
    found := map name | name in found :: ByLine(found[name]);
  }

  lemma {:induction false} TargetsGrow(targets: seq<Node>, i: nat, line: int, value: Node)
    requires i < |targets|
    ensures TargetBindings(targets[..i + 1], line, value)
         == TargetBindings(targets[..i], line, value)
            + if targets[i].Name? then [Binding(targets[i].id, line, value)] else []
  {
    if i == 0 {
      assert targets[..1][1..] == [];
    } else {
      assert targets[..i + 1][1..] == targets[1..][..i] && targets[..i][1..] == targets[1..][..i - 1];
      TargetsGrow(targets[1..], i - 1, line, value);
    }
  }

  // ---- lookup -----------------------------------------------------------------

  datatype Scope = Scope(table: Table, parent: Option<Scope>)

  /** The last entry before the first later line. */
  function Scan(entries: seq<Binding>, line: int): Option<Node> {
    if entries == [] || entries[0].line > line then None
    else
      var later := Scan(entries[1..], line);
      if later.Some? then later else Some(entries[0].value)
  }

  function Entries(table: Table, name: string): seq<Binding> {
    if name in table then table[name] else []
  }

  function Lookup(scope: Scope, name: string, line: int): Option<Node> {
    var chosen := Scan(Entries(scope.table, name), line);
    if chosen.Some? then chosen
    else if scope.parent.Some? then Lookup(scope.parent.value, name, line)
    else None
  }

  /** The loop with its early exit, then the enclosing scope. */
  method LookupName(scope: Scope, name: string, line: int) returns (chosen: Option<Node>)
    ensures chosen == Lookup(scope, name, line)
    decreases scope
  {
    var entries := Entries(scope.table, name);
    chosen := None;
    var i := 0;
    while i < |entries| && entries[i].line <= line
      invariant 0 <= i <= |entries|
      invariant Scan(entries, line) == if Scan(entries[i..], line).Some? then Scan(entries[i..], line) else chosen
    {
      chosen := Some(entries[i].value);
      i := i + 1;
    }
    if chosen.None? && scope.parent.Some? { chosen := LookupName(scope.parent.value, name, line); }
  }
}
