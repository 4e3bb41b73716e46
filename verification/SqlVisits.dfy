/** Which calls of a file the checker visits. */
module SqlVisits {
  import opened Wrappers
  import opened SqlScope
  import opened SqlChecker

  // ---- occurrences ------------------------------------------------------------

  /** One step down: to a child visited in the same scope, to one in the body of a function, or to one in a
      default of a lambda, an argument annotation, a class keyword or a type parameter. */
  datatype Step = Along(i: nat) | Into(i: nat) | Aside(i: nat)

  function Child(n: Node, step: Step): Option<Node> {
    match step
    case Along(i) => if i < |Outer(n)| then Some(Outer(n)[i]) else None
    case Into(i) => if i < |Inner(n)| then Some(Inner(n)[i]) else None
    case Aside(i) => if i < |Skipped(n)| then Some(Skipped(n)[i]) else None
  }

  /** Steps lead from the root to one occurrence of a node; every child can be reached. */
  type Path = seq<Step>

  function NodeAt(n: Node, path: Path): Option<Node>
    decreases |path|
  {
    if path == [] then Some(n)
    else
      var child := Child(n, path[0]);
      if child.None? then None else NodeAt(child.value, path[1..])
  }

  /** The way leads through a place the walk skips. */
  predicate Skips(path: Path) {
    exists k :: 0 <= k < |path| && path[k].Aside?
  }

  /** The scope the occurrence is in: the bodies of functions open one of their own. */
  function ScopeAt(n: Node, scope: Scope, path: Path): Scope
    decreases |path|
  {
    if path == [] then scope
    else
      var child := Child(n, path[0]);
      if child.None? then scope else ScopeAt(child.value, ChildScope(n, scope, path[0]), path[1..])
  }

  function ChildScope(n: Node, scope: Scope, step: Step): Scope {
    if step.Into? then InnerScope(n, scope) else scope
  }

  predicate VisitedAt(n: Node, scope: Scope, path: Path, s: Site) {
    NodeAt(n, path) == Some(s.call) && s.call.Call? && !Skips(path) && ScopeAt(n, scope, path) == s.scope
  }

  // ---- the walk reaches exactly the occurrences outside skipped places --------

  function Flat(f: Node -> seq<Site>, ns: seq<Node>): seq<Site> {
    if ns == [] then [] else f(ns[0]) + Flat(f, ns[1..])
  }

  lemma {:induction false} SitesAllIsFlat(ns: seq<Node>, scope: Scope)
    ensures SitesAll(ns, scope) == Flat((n: Node) => Sites(n, scope), ns)
  {
    if ns != [] { SitesAllIsFlat(ns[1..], scope); }
  }

  lemma {:induction false} FlatMembers(f: Node -> seq<Site>, ns: seq<Node>, s: Site)
    ensures s in Flat(f, ns) <==> exists i :: 0 <= i < |ns| && s in f(ns[i])
  {
    if ns != [] {
      FlatMembers(f, ns[1..], s);
      if s in Flat(f, ns[1..]) {
        var k :| 0 <= k < |ns[1..]| && s in f(ns[1..][k]);
        assert s in f(ns[k + 1]);
      }
      if exists i :: 0 <= i < |ns| && s in f(ns[i]) {
        var i :| 0 <= i < |ns| && s in f(ns[i]);
        if i > 0 { assert s in f(ns[1..][i - 1]); }
      }
    }
  }

  ghost predicate VisitedIn(ns: seq<Node>, scope: Scope, i: int, s: Site) {
    0 <= i < |ns| && s in Sites(ns[i], scope)
  }

  lemma {:induction false} SitesAllMembers(ns: seq<Node>, scope: Scope, s: Site)
    ensures s in SitesAll(ns, scope) <==> exists i :: VisitedIn(ns, scope, i, s)
  {
    var f := (n: Node) => Sites(n, scope);
    SitesAllIsFlat(ns, scope);
    FlatMembers(f, ns, s);
    if exists i :: 0 <= i < |ns| && s in f(ns[i]) {
      var i :| 0 <= i < |ns| && s in f(ns[i]);
      assert VisitedIn(ns, scope, i, s);
    }
    if exists i :: VisitedIn(ns, scope, i, s) {
      var i :| VisitedIn(ns, scope, i, s);
      assert s in f(ns[i]);
    }
  }

  lemma {:induction false} NodeSites(n: Node, scope: Scope, s: Site)
    ensures s in Sites(n, scope) <==>
      || (n.Call? && s == Site(n, scope))
      || s in SitesAll(Outer(n), scope)
      || s in SitesAll(Inner(n), InnerScope(n, scope))
  {
    var own: seq<Site> := if n.Call? then [Site(n, scope)] else [];
    InThree(own, SitesAll(Outer(n), scope), SitesAll(Inner(n), InnerScope(n, scope)), s);
    assert Sites(n, scope) == own + SitesAll(Outer(n), scope) + SitesAll(Inner(n), InnerScope(n, scope));
  }

  lemma InThree(a: seq<Site>, b: seq<Site>, c: seq<Site>, s: Site)
    ensures s in a + b + c <==> s in a || s in b || s in c
  {
    assert s in a + b + c <==> s in a + b || s in c;
  }

  /** The first step of a path that is not skipped. */
  lemma {:induction false} StepInto(n: Node, scope: Scope, path: Path, s: Site) returns (child: Node)
    requires path != [] && VisitedAt(n, scope, path, s)
    ensures !path[0].Aside? && Child(n, path[0]) == Some(child)
    ensures VisitedAt(child, ChildScope(n, scope, path[0]), path[1..], s)
  {
    child := Child(n, path[0]).value;
    forall k | 0 <= k < |path[1..]| ensures !path[1..][k].Aside? { assert path[1..][k] == path[k + 1]; }
  }

  /** One more step in front of a path that is not skipped. */
  lemma {:induction false} Below(n: Node, scope: Scope, step: Step, child: Node, rest: Path, s: Site)
    requires !step.Aside? && Child(n, step) == Some(child) && VisitedAt(child, ChildScope(n, scope, step), rest, s)
    ensures VisitedAt(n, scope, [step] + rest, s)
  {
    var path := [step] + rest;
    assert path[1..] == rest;
    forall k | 0 <= k < |path| ensures !path[k].Aside? { if k > 0 { assert path[k] == rest[k - 1]; } }
  }

  /** A site of a visited child is a site of the node. */
  lemma {:induction false} SiteOfChild(n: Node, scope: Scope, step: Step, child: Node, s: Site)
    requires !step.Aside? && Child(n, step) == Some(child) && s in Sites(child, ChildScope(n, scope, step))
    ensures s in Sites(n, scope)
  {
    if step.Along? { OuterSite(n, scope, step.i, s); } else { InnerSite(n, scope, step.i, s); }
  }

  lemma {:induction false} OuterSite(n: Node, scope: Scope, i: nat, s: Site)
    requires i < |Outer(n)| && s in Sites(Outer(n)[i], scope)
    ensures s in Sites(n, scope)
  {
    SiteAmong(Outer(n), scope, i, s);
    NodeSites(n, scope, s);
  }

  lemma {:induction false} InnerSite(n: Node, scope: Scope, i: nat, s: Site)
    requires i < |Inner(n)| && s in Sites(Inner(n)[i], InnerScope(n, scope))
    ensures s in Sites(n, scope)
  {
    SiteAmong(Inner(n), InnerScope(n, scope), i, s);
    NodeSites(n, scope, s);
  }

  lemma {:induction false} SiteAmong(ns: seq<Node>, scope: Scope, i: nat, s: Site)
    requires i < |ns| && s in Sites(ns[i], scope)
    ensures s in SitesAll(ns, scope)
  {
    SitesAllMembers(ns, scope, s);
    assert VisitedIn(ns, scope, i, s);
  }

  lemma {:induction false} SiteIn(ns: seq<Node>, scope: Scope, s: Site) returns (i: nat)
    requires s in SitesAll(ns, scope)
    ensures i < |ns| && s in Sites(ns[i], scope) && Size(ns[i]) <= Total(ns)
  {
    SitesAllMembers(ns, scope, s);
    i :| VisitedIn(ns, scope, i, s);
    MemberIsSmaller(ns, i);
  }

  /** A site of the node is the node itself or a site of a visited child. */
  lemma {:induction false} ChildOfSite(n: Node, scope: Scope, s: Site) returns (step: Step, child: Node)
    requires s in Sites(n, scope) && !(n.Call? && s == Site(n, scope))
    ensures !step.Aside? && Child(n, step) == Some(child) && s in Sites(child, ChildScope(n, scope, step))
    ensures Size(child) < Size(n)
  {
    PartsAreSmaller(n);
    NodeSites(n, scope, s);
    if s in SitesAll(Outer(n), scope) {
      var i := SiteIn(Outer(n), scope, s);
      step, child := Along(i), Outer(n)[i];
    } else {
      var i := SiteIn(Inner(n), InnerScope(n, scope), s);
      step, child := Into(i), Inner(n)[i];
    }
  }

  lemma {:induction false} OccurrenceIsVisited(n: Node, scope: Scope, path: Path, s: Site)
    requires VisitedAt(n, scope, path, s)
    ensures s in Sites(n, scope)
    decreases |path|
  {
    if path == [] {
      NodeSites(n, scope, s);
    } else {
      var child := StepInto(n, scope, path, s);
      OccurrenceIsVisited(child, ChildScope(n, scope, path[0]), path[1..], s);
      SiteOfChild(n, scope, path[0], child, s);
    }
  }

  lemma {:induction false} VisitedOccurs(n: Node, scope: Scope, s: Site) returns (path: Path)
    requires s in Sites(n, scope)
    ensures VisitedAt(n, scope, path, s)
    decreases Size(n)
  {
    path := [];
    if !(n.Call? && s == Site(n, scope)) {
      var step, child := ChildOfSite(n, scope, s);
      var rest := VisitedOccurs(child, ChildScope(n, scope, step), s);
      Below(n, scope, step, child, rest, s);
      path := [step] + rest;
    }
  }

  /** A call is visited, and judged in this scope, exactly when it occurs there outside all skipped places. */
  lemma {:induction false} VisitedExactly(n: Node, scope: Scope, s: Site)
    ensures s in Sites(n, scope) <==> exists path :: VisitedAt(n, scope, path, s)
  {
    if s in Sites(n, scope) {
      var path := VisitedOccurs(n, scope, s);
    }
    if exists path :: VisitedAt(n, scope, path, s) {
      var path :| VisitedAt(n, scope, path, s);
      OccurrenceIsVisited(n, scope, path, s);
    }
  }

  // ---- whole files ------------------------------------------------------------

  /** The module node of a file. */
  function File(suite: seq<Node>): Node { Other(0, suite) }

  function FileScope(suite: seq<Node>): Scope { Scope(Collect(suite), None) }

  lemma {:induction false} FileSites(suite: seq<Node>, scope: Scope)
    ensures Sites(File(suite), scope) == SitesAll(suite, scope)
  {
    assert [] + SitesAll(suite, scope) + [] == SitesAll(suite, scope);
  }

  /** No call of SQL sits in a skipped place. */
  ghost predicate NothingHidden(n: Node) {
    forall path :: NodeAt(n, path).Some? && Skips(path) ==> !SqlCall(NodeAt(n, path).value)
  }
}
