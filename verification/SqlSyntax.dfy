/** Which parts syntax has. */
module SqlSyntax {
  import opened Wrappers
  import opened SqlScope

  // ---- bindings ---------------------------------------------------------------

  predicate NamesTarget(targets: seq<Node>, name: string) {
    exists i :: 0 <= i < |targets| && targets[i].Name? && targets[i].id == name
  }

  /** `name = value`, the name among the targets, or `name: annotation = value`. */
  predicate Binds(n: Node, b: Binding) {
    || (n.Assign? && b.line == n.line && b.value == n.bound
        && NamesTarget(n.targets, b.name))
    || (n.AnnAssign? && b.line == n.line && n.initial == Some(b.value) && n.target.Name? && n.target.id == b.name)
  }

  lemma {:induction false} TargetsBind(targets: seq<Node>, line: int, value: Node, b: Binding)
    ensures b in TargetBindings(targets, line, value)
      <==> b.line == line && b.value == value && NamesTarget(targets, b.name)
  {
    if targets != [] {
      TargetsBind(targets[1..], line, value, b);
      if i :| 0 <= i < |targets| && targets[i].Name? && targets[i].id == b.name {
        if i > 0 { assert targets[1..][i - 1] == targets[i]; }
      }
      if i :| 0 <= i < |targets[1..]| && targets[1..][i].Name? && targets[1..][i].id == b.name {
        assert targets[i + 1] == targets[1..][i];
      }
    }
  }

  /** A statement binds plain names to its value, and nothing else binds. */
  lemma OwnExactly(n: Node, b: Binding)
    ensures b in Own(n) <==> Binds(n, b)
  {
    if n.Assign? { TargetsBind(n.targets, n.line, n.bound, b); }
  }

  /** Functions, classes and lambdas keep the names of their parts to themselves. */
  lemma {:induction false} BodiesOwnTheirNames(n: Node)
    ensures n.FunctionDef? || n.ClassDef? || n.Lambda? ==> Drain([n]) == []
    ensures !n.FunctionDef? && !n.ClassDef? && !n.Lambda? ==> Drain([n]) == Own(n) + Drain(Children(n))
  {
    assert [n][..0] == [] && [] + Children(n) == Children(n);
  }

  // ---- parts ------------------------------------------------------------------

  function Given(n: Option<Node>): seq<Node> {
    match n case None => [] case Some(x) => [x]
  }

  /** Every part of a node, in the order of its fields. */
  function Parts(n: Node): seq<Node> {
    match n
    case StrLit(_, _) => []
    case OtherLit(_) => []
    case NoKey(_) => []
    case Name(_, _) => []
    case FString(_, parts) => parts
    case BinOp(_, left, _, right) => [left, right]
    case Call(_, func, args, keywords) => [func] + args + keywords
    case KeywordArg(_, _, value) => [value]
    case Attribute(_, o, _) => [o]
    case IfExp(_, test, body, orelse) => [test, body, orelse]
    case BoolOp(_, values) => values
    case DictLit(_, keys, values) => RealKeys(keys) + values
    case DictComp(_, key, value, generators) => [key, value] + generators
    case Collection(_, elts) => elts
    case Comprehension(_, elt, generators) => [elt] + generators
    case Subscript(_, container, index) => [container, index]
    case Lambda(_, defaults, result) => defaults + [result]
    case FunctionDef(_, decorators, typeParams, defaults, annotations, returns_, suite) =>
      decorators + typeParams + defaults + annotations + Given(returns_) + suite
    case ClassDef(_, decorators, typeParams, bases, keywords, suite) =>
      decorators + typeParams + bases + keywords + suite
    case Assign(_, targets, bound) => targets + [bound]
    case AnnAssign(_, target, annotation, initial) => [target, annotation] + Given(initial)
    case Other(_, children) => children
  }

  lemma {:induction false} RealKeysAre(keys: seq<Node>, k: Node)
    ensures k in RealKeys(keys) <==> k in keys && !k.NoKey?
  {
    if keys != [] { RealKeysAre(keys[1..], k); }
  }

  /** Parts that the walk never visits. */
  predicate NeverVisited(n: Node, x: Node) {
    || (n.FunctionDef? && (x in n.typeParams || x in n.annotations))
    || (n.Lambda? && x in n.defaults)
    || (n.ClassDef? && (x in n.typeParams || x in n.keywords))
  }

  /** Parts that it visits in a scope of their own. */
  predicate InOwnScope(n: Node, x: Node) { n.FunctionDef? && x in n.suite }

  lemma PlainParts(n: Node)
    requires !n.FunctionDef? && !n.ClassDef? && !n.Lambda?
    ensures Outer(n) == Parts(n) && Inner(n) == [] && Skipped(n) == []
  {
  }

  lemma FunctionParts(a: seq<Node>, b: seq<Node>, c: seq<Node>, d: seq<Node>, e: seq<Node>, f: seq<Node>)
    ensures multiset(a + c + e) + multiset(f) + multiset(b + d) == multiset(a + b + c + d + e + f)
  {
  }

  lemma ClassParts(a: seq<Node>, b: seq<Node>, c: seq<Node>, d: seq<Node>, e: seq<Node>)
    ensures multiset(a + c + e) + multiset(b + d) == multiset(a + b + c + d + e)
  {
  }

  predicate HasParts(outer: seq<Node>, inner: seq<Node>, skipped: seq<Node>, parts: seq<Node>) {
    multiset(outer) + multiset(inner) + multiset(skipped) == multiset(parts)
  }

  lemma FunctionHasParts(n: Node)
    requires n.FunctionDef?
    ensures HasParts(Outer(n), Inner(n), Skipped(n), Parts(n))
  {
    assert Maybe(n.returns_) == Given(n.returns_);
    FunctionParts(n.decorators, n.typeParams, n.defaults, n.annotations, Given(n.returns_), n.suite);
  }

  lemma ClassHasParts(n: Node)
    requires n.ClassDef?
    ensures HasParts(Outer(n), Inner(n), Skipped(n), Parts(n))
  {
    ClassParts(n.decorators, n.typeParams, n.bases, n.keywords, n.suite);
  }

  lemma LambdaHasParts(n: Node)
    requires n.Lambda?
    ensures HasParts(Outer(n), Inner(n), Skipped(n), Parts(n))
  {
  }

  /** Every part is visited in the same scope, visited in its own, or never visited. */
  lemma {:induction false} PartsAreAll(n: Node)
    ensures HasParts(Outer(n), Inner(n), Skipped(n), Parts(n))
  {
    if n.FunctionDef? {
      FunctionHasParts(n);
    } else if n.ClassDef? {
      ClassHasParts(n);
    } else if n.Lambda? {
      LambdaHasParts(n);
    } else {
      PlainParts(n);
    }
  }

  /** Which parts are visited in a scope of their own, and which never. */
  lemma {:induction false} PlacesExactly(n: Node, x: Node)
    ensures x in Skipped(n) <==> NeverVisited(n, x)
    ensures x in Inner(n) <==> InOwnScope(n, x)
  {
  }
}
