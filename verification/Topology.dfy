/** Edits of the session graph and what they keep. */
module Topology {
  import opened Wrappers
  import opened Dicts
  import opened Blueprints

  // ---- paths, cycles, orders ------------------------------------------------

  ghost predicate IsPath(edges: seq<Edge>, p: seq<string>) {
    p != [] && forall i :: 0 <= i < |p| - 1 ==> Edge(p[i], p[i + 1]) in edges
  }

  ghost predicate Reaches(edges: seq<Edge>, a: string, b: string) {
    exists p :: IsPath(edges, p) && p[0] == a && p[|p| - 1] == b
  }

  /** A numbering that every edge climbs: a topological order. */
  ghost predicate Climbs(edges: seq<Edge>, rank: string -> nat) {
    forall e :: e in edges ==> rank(e.source) < rank(e.target)
  }

  ghost predicate Ordered(edges: seq<Edge>) {
    exists rank: string -> nat :: Climbs(edges, rank)
  }

  /** No path of one edge or more returns to its start. */
  ghost predicate Acyclic(edges: seq<Edge>) {
    forall p :: IsPath(edges, p) && |p| > 1 ==> p[0] != p[|p| - 1]
  }

  lemma ReachesSelf(edges: seq<Edge>, a: string)
    ensures Reaches(edges, a, a)
  {
    assert IsPath(edges, [a]);
  }

  lemma ReachesStep(edges: seq<Edge>, a: string, b: string, c: string)
    requires Reaches(edges, a, b) && Edge(b, c) in edges
    ensures Reaches(edges, a, c)
  {
    var p :| IsPath(edges, p) && p[0] == a && p[|p| - 1] == b;
    var q := p + [c];
    assert IsPath(edges, q) && q[0] == a && q[|q| - 1] == c;
  }

  lemma {:induction false} ClimbsPath(edges: seq<Edge>, rank: string -> nat, p: seq<string>)
    requires Climbs(edges, rank) && IsPath(edges, p) && |p| > 1
    ensures rank(p[0]) < rank(p[|p| - 1])
  {
    var q := p[..|p| - 1];
    assert IsPath(edges, q);
    assert Edge(p[|p| - 2], p[|p| - 1]) in edges;
    if |q| > 1 { ClimbsPath(edges, rank, q); }
  }

  lemma OrderedIsAcyclic(edges: seq<Edge>)
    requires Ordered(edges)
    ensures Acyclic(edges)
  {
    var rank: string -> nat :| Climbs(edges, rank);
    forall p | IsPath(edges, p) && |p| > 1 ensures p[0] != p[|p| - 1] {
      ClimbsPath(edges, rank, p);
    }
  }

  /** Adding s -> t keeps an order exactly when t does not already lead back to s. */
  lemma OrderSurvivesEdge(edges: seq<Edge>, s: string, t: string)
    requires Ordered(edges)
    ensures Ordered(edges + [Edge(s, t)]) <==> !Reaches(edges, t, s)
  {
    if Reaches(edges, t, s) {
      var p :| IsPath(edges, p) && p[0] == t && p[|p| - 1] == s;
      var q := p + [t];
      assert IsPath(edges + [Edge(s, t)], q);
      if Ordered(edges + [Edge(s, t)]) {
        OrderedIsAcyclic(edges + [Edge(s, t)]);
      }
    } else {
      var rank: string -> nat :| Climbs(edges, rank);
      var lifted := Lifted(edges, rank, s, t);
      ReachesSelf(edges, t);
      forall e | e in edges + [Edge(s, t)] ensures lifted(e.source) < lifted(e.target) {
        if e in edges && Reaches(edges, t, e.source) {
          ReachesStep(edges, t, e.source, e.target);
        }
      }
      assert Climbs(edges + [Edge(s, t)], lifted);
    }
  }

  /** Everything t reaches moves above s; relative order on either side stays. */
  ghost function Lifted(edges: seq<Edge>, rank: string -> nat, s: string, t: string): string -> nat {
    x => rank(x) + if Reaches(edges, t, x) then rank(s) + 1 else 0
  }

  lemma OrderSurvivesRemoval(edges: seq<Edge>, fewer: seq<Edge>)
    requires Ordered(edges) && forall e :: e in fewer ==> e in edges
    ensures Ordered(fewer)
  {
    var rank: string -> nat :| Climbs(edges, rank);
    assert Climbs(fewer, rank);
  }

  /** A set closed under successors that holds a holds everything a reaches. */
  lemma {:induction false} ClosedHoldsPath(edges: seq<Edge>, closed: set<string>, p: seq<string>)
    requires IsPath(edges, p) && p[0] in closed
    requires forall e :: e in edges && e.source in closed ==> e.target in closed
    ensures p[|p| - 1] in closed
  {
    if |p| > 1 {
      var q := p[..|p| - 1];
      ClosedHoldsPath(edges, closed, q);
      assert Edge(q[|q| - 1], p[|p| - 1]) in edges;
    }
  }

  // ---- the invariant ----------------------------------------------------------

  ghost predicate WorkersOk(b: Blueprint) {
    && Distinct(b.workers)
    && COORDINATOR !in Keys(b.workers)
    && forall i :: 0 <= i < |b.workers| ==>
         IsName(b.workers[i].0) && b.workers[i].1.name == b.workers[i].0
  }

  ghost predicate EdgesOk(b: Blueprint) {
    && NoDup(b.connections)
    && Ordered(b.connections)
    && forall e :: e in b.connections ==> e.source in Nodes(b) && e.target in Nodes(b)
  }

  ghost predicate MappersOk(b: Blueprint) {
    && Distinct(b.mappers)
    && forall i :: 0 <= i < |b.mappers| ==> b.mappers[i].0 in Nodes(b) && b.mappers[i].1 in MAPPER_MODES
  }

  ghost predicate RouteOk(nodes: set<string>, targets: seq<string>) {
    NoDup(targets) && forall t :: t in targets ==> t in nodes
  }

  ghost predicate RoutersOk(b: Blueprint) {
    && Distinct(b.routers)
    && forall i :: 0 <= i < |b.routers| ==> b.routers[i].0 in Nodes(b) && RouteOk(Nodes(b), b.routers[i].1)
  }

  ghost predicate Valid(b: Blueprint) {
    WorkersOk(b) && EdgesOk(b) && MappersOk(b) && RoutersOk(b)
  }

  lemma EmptyIsValid()
    ensures Valid(EMPTY)
  {
    assert Climbs([], (_: string) => 0 as nat);
  }

  // ---- the edits --------------------------------------------------------------

  function AddWorker(b: Blueprint, name: string, prompt: string): Result<Blueprint, DomainError> {
    if !IsName(name) || name == COORDINATOR then Err(InvalidName)
    else if name in Keys(b.workers) then Err(AgentExists)
    else Ok(b.(workers := Put(b.workers, name, Worker(name, prompt, "worker"))))
  }

  function RemoveWorker(b: Blueprint, name: string): Result<Blueprint, DomainError> {
    if name == COORDINATOR then Err(CoordinatorFixed)
    else if name !in Keys(b.workers) then Err(UnknownAgent)
    else Ok(b.(workers := Remove(b.workers, name),
               connections := WithoutNode(b.connections, name),
               mappers := Remove(b.mappers, name),
               routers := Scrub(Remove(b.routers, name), name)))
  }

  /** Refuses in the order the program checks; the cycle test is stated by its meaning. */
  ghost function AddConnection(b: Blueprint, source: string, target: string): Result<Blueprint, DomainError> {
    if source !in Nodes(b) || target !in Nodes(b) then Err(UnknownEndpoint)
    else if source == target then Err(SelfLink)
    else if Edge(source, target) in b.connections then Err(ConnectionExists)
    else if Reaches(b.connections, target, source) then Err(WouldCycle)
    else Ok(b.(connections := b.connections + [Edge(source, target)]))
  }

  function RemoveConnection(b: Blueprint, source: string, target: string): Result<Blueprint, DomainError> {
    if Edge(source, target) !in b.connections then Err(ConnectionMissing)
    else Ok(b.(connections := WithoutFirst(b.connections, Edge(source, target))))
  }

  function SetMapper(b: Blueprint, agent: string, mode: string): Result<Blueprint, DomainError> {
    if mode !in MAPPER_MODES then Err(InvalidMode)
    else if agent !in Nodes(b) then Err(UnknownAgent)
    else Ok(b.(mappers := Put(b.mappers, agent, mode)))
  }

  function SetRouter(b: Blueprint, agent: string, targets: seq<string>): Result<Blueprint, DomainError> {
    if agent !in Nodes(b) || exists i :: 0 <= i < |targets| && targets[i] !in Nodes(b) then Err(UnknownRouterAgent)
    else Ok(b.(routers := Put(b.routers, agent, Dedup(targets))))
  }

  /** The edges that do not touch the node. */
  function WithoutNode(edges: seq<Edge>, name: string): seq<Edge> {
    if edges == [] then []
    else
      var init, last := WithoutNode(edges[..|edges| - 1], name), edges[|edges| - 1];
      if last.source != name && last.target != name then init + [last] else init
  }

  /** `list.remove(x)`: the first occurrence goes, the rest keeps its order. */
  function WithoutFirst(s: seq<Edge>, x: Edge): seq<Edge> {
    if s == [] then []
    else if s[0] == x then s[1..]
    else [s[0]] + WithoutFirst(s[1..], x)
  }

  function Without(targets: seq<string>, name: string): seq<string> {
    if targets == [] then []
    else
      var init, last := Without(targets[..|targets| - 1], name), targets[|targets| - 1];
      if last != name then init + [last] else init
  }

  lemma {:induction false} WithoutNodeFacts(edges: seq<Edge>, name: string)
    ensures forall e :: e in WithoutNode(edges, name) <==> e in edges && e.source != name && e.target != name
    ensures NoDup(edges) ==> NoDup(WithoutNode(edges, name))
  {
    if edges != [] {
      WithoutNodeFacts(edges[..|edges| - 1], name);
      assert edges == edges[..|edges| - 1] + [edges[|edges| - 1]];
    }
  }

  lemma {:induction false} WithoutFirstFacts(s: seq<Edge>, x: Edge)
    ensures forall e :: e in WithoutFirst(s, x) ==> e in s
    ensures forall e :: e in s && e != x ==> e in WithoutFirst(s, x)
    ensures NoDup(s) ==> NoDup(WithoutFirst(s, x)) && x !in WithoutFirst(s, x)
  {
    if s != [] {
      WithoutFirstFacts(s[1..], x);
      assert NoDup(s) ==> s[0] !in s[1..];
      assert s == [s[0]] + s[1..];
    }
  }

  lemma {:induction false} WithoutFacts(targets: seq<string>, name: string)
    ensures forall t :: t in Without(targets, name) <==> t in targets && t != name
    ensures NoDup(targets) ==> NoDup(Without(targets, name))
  {
    if targets != [] {
      WithoutFacts(targets[..|targets| - 1], name);
      assert targets == targets[..|targets| - 1] + [targets[|targets| - 1]];
      assert NoDup(targets) ==> targets[|targets| - 1] !in targets[..|targets| - 1];
    }
  }

  /** Every router row keeps its key and its order and loses the name as a target. */
  function Scrub(routers: Dict<seq<string>>, name: string): (r: Dict<seq<string>>)
    ensures |r| == |routers|
    ensures forall i :: 0 <= i < |r| ==> r[i] == (routers[i].0, Without(routers[i].1, name))
  {
    seq(|routers|, i requires 0 <= i < |routers| => (routers[i].0, Without(routers[i].1, name)))
  }

  // ---- what every edit keeps --------------------------------------------------

  datatype Edit =
    | AddAgent(name: string, prompt: string)
    | RemoveAgent(name: string)
    | Connect(source: string, target: string)
    | Disconnect(source: string, target: string)
    | MapWith(agent: string, mode: string)
    | RouteTo(agent: string, targets: seq<string>)

  ghost function Apply(b: Blueprint, e: Edit): Result<Blueprint, DomainError> {
    match e
    case AddAgent(n, p) => AddWorker(b, n, p)
    case RemoveAgent(n) => RemoveWorker(b, n)
    case Connect(s, t) => AddConnection(b, s, t)
    case Disconnect(s, t) => RemoveConnection(b, s, t)
    case MapWith(a, m) => SetMapper(b, a, m)
    case RouteTo(a, ts) => SetRouter(b, a, ts)
  }

  /** A refused edit changes nothing. */
  ghost function Run(b: Blueprint, edits: seq<Edit>): Blueprint
    decreases |edits|
  {
    if edits == [] then b
    else
      var before := Run(b, edits[..|edits| - 1]);
      match Apply(before, edits[|edits| - 1])
      case Ok(after) => after
      case Err(_) => before
  }

  lemma RemoveEntries<V>(d: Dict<V>, k: string, i: nat)
    requires Distinct(d) && i < |Remove(d, k)|
    ensures Remove(d, k)[i].0 != k && Remove(d, k)[i] in d
  {
    var r := Remove(d, k);
    if d == [] {
    } else if d[0].0 == k {
      KeysByIndex(d[1..], d[1..][i].0);
    } else if i > 0 {
      RemoveEntries(d[1..], k, i - 1);
      assert r[1..] == Remove(d[1..], k);
    }
  }

  lemma ScrubDistinct(routers: Dict<seq<string>>, name: string)
    ensures Keys(Scrub(routers, name)) == Keys(routers)
    ensures Distinct(routers) ==> Distinct(Scrub(routers, name))
  {
    if routers != [] {
      ScrubDistinct(routers[1..], name);
      assert Scrub(routers, name)[1..] == Scrub(routers[1..], name);
    }
  }

  lemma {:induction false} AddKeepsValid(b: Blueprint, name: string, prompt: string)
    requires Valid(b) && AddWorker(b, name, prompt).Ok?
    ensures Valid(AddWorker(b, name, prompt).value)
  {
    var a := AddWorker(b, name, prompt).value;
    assert Nodes(b) <= Nodes(a);
    assert a.workers == b.workers + [(name, Worker(name, prompt, "worker"))];
  }

  lemma {:induction false} RemoveKeepsValid(b: Blueprint, name: string)
    requires Valid(b) && RemoveWorker(b, name).Ok?
    ensures Valid(RemoveWorker(b, name).value)
  {
    var a := RemoveWorker(b, name).value;
    assert Nodes(a) == Nodes(b) - {name};
    assert WorkersOk(a) by {
      forall i | 0 <= i < |a.workers|
        ensures IsName(a.workers[i].0) && a.workers[i].1.name == a.workers[i].0
      {
        RemoveEntries(b.workers, name, i);
      }
    }
    WithoutNodeFacts(b.connections, name);
    OrderSurvivesRemoval(b.connections, a.connections);
    assert MappersOk(a) by {
      forall i | 0 <= i < |a.mappers|
        ensures a.mappers[i].0 in Nodes(a) && a.mappers[i].1 in MAPPER_MODES
      {
        RemoveEntries(b.mappers, name, i);
      }
    }
    ScrubDistinct(Remove(b.routers, name), name);
    forall i | 0 <= i < |a.routers|
      ensures a.routers[i].0 in Nodes(a) && RouteOk(Nodes(a), a.routers[i].1)
    {
      RemoveEntries(b.routers, name, i);
      WithoutFacts(Remove(b.routers, name)[i].1, name);
    }
  }

  lemma {:induction false} RouteKeepsValid(b: Blueprint, agent: string, targets: seq<string>)
    requires Valid(b) && SetRouter(b, agent, targets).Ok?
    ensures Valid(SetRouter(b, agent, targets).value)
  {
    var a := SetRouter(b, agent, targets).value;
    DedupFacts(targets);
    assert RouteOk(Nodes(a), Dedup(targets));
    forall i | 0 <= i < |a.routers|
      ensures a.routers[i].0 in Nodes(a) && RouteOk(Nodes(a), a.routers[i].1)
    {
      PutEntries(b.routers, agent, Dedup(targets), i);
    }
  }

  lemma {:induction false} MapKeepsValid(b: Blueprint, agent: string, mode: string)
    requires Valid(b) && SetMapper(b, agent, mode).Ok?
    ensures Valid(SetMapper(b, agent, mode).value)
  {
    var a := SetMapper(b, agent, mode).value;
    forall i | 0 <= i < |a.mappers|
      ensures a.mappers[i].0 in Nodes(a) && a.mappers[i].1 in MAPPER_MODES
    {
      PutEntries(b.mappers, agent, mode, i);
    }
  }

  lemma {:induction false} ConnectKeepsValid(b: Blueprint, source: string, target: string)
    requires Valid(b) && AddConnection(b, source, target).Ok?
    ensures Valid(AddConnection(b, source, target).value)
  {
    OrderSurvivesEdge(b.connections, source, target);
  }

  lemma {:induction false} DisconnectKeepsValid(b: Blueprint, source: string, target: string)
    requires Valid(b) && RemoveConnection(b, source, target).Ok?
    ensures Valid(RemoveConnection(b, source, target).value)
  {
    WithoutFirstFacts(b.connections, Edge(source, target));
    OrderSurvivesRemoval(b.connections, RemoveConnection(b, source, target).value.connections);
  }

  /** Each accepted edit keeps edges duplicate-free, ordered and between known agents. */
  lemma {:induction false} ApplyKeepsValid(b: Blueprint, e: Edit)
    requires Valid(b) && Apply(b, e).Ok?
    ensures Valid(Apply(b, e).value)
  {
    match e
    case AddAgent(n, p) => AddKeepsValid(b, n, p);
    case RemoveAgent(n) => RemoveKeepsValid(b, n);
    case Connect(s, t) => ConnectKeepsValid(b, s, t);
    case Disconnect(s, t) => DisconnectKeepsValid(b, s, t);
    case MapWith(a, m) => MapKeepsValid(b, a, m);
    case RouteTo(a, ts) => RouteKeepsValid(b, a, ts);
  }

  /** Every blueprint reachable from the empty one satisfies the invariant and is acyclic. */
  lemma {:induction false} ReachableIsValid(edits: seq<Edit>)
    ensures Valid(Run(EMPTY, edits))
    ensures Acyclic(Run(EMPTY, edits).connections)
    decreases |edits|
  {
    if edits == [] {
      EmptyIsValid();
    } else {
      ReachableIsValid(edits[..|edits| - 1]);
      var before := Run(EMPTY, edits[..|edits| - 1]);
      if Apply(before, edits[|edits| - 1]).Ok? {
        ApplyKeepsValid(before, edits[|edits| - 1]);
      }
    }
    OrderedIsAcyclic(Run(EMPTY, edits).connections);
  }

  /** A cycle error is reported exactly for the edges that would close a cycle. */
  lemma RefusedExactlyWhenCyclic(b: Blueprint, s: string, t: string)
    requires Valid(b) && s in Nodes(b) && t in Nodes(b) && s != t
    requires Edge(s, t) !in b.connections
    ensures AddConnection(b, s, t) == Err(WouldCycle) <==> !Acyclic(b.connections + [Edge(s, t)])
  {
    OrderSurvivesEdge(b.connections, s, t);
    var more := b.connections + [Edge(s, t)];
    if Reaches(b.connections, t, s) {
      var p :| IsPath(b.connections, p) && p[0] == t && p[|p| - 1] == s;
      var q := p + [t];
      assert IsPath(more, q) && |q| > 1 && q[0] == q[|q| - 1];
    } else {
      OrderedIsAcyclic(more);
    }
  }

  /** Removal leaves no trace in the graph, keeps every other setting, and leaves plans alone. */
  lemma RemovalIsComplete(b: Blueprint, name: string)
    requires Valid(b) && RemoveWorker(b, name).Ok?
    ensures var a := RemoveWorker(b, name).value;
      && name !in Nodes(a) && Nodes(a) == Nodes(b) - {name}
      && (forall e :: e in a.connections <==> e in b.connections && e.source != name && e.target != name)
      && Keys(a.mappers) == Keys(b.mappers) - {name}
      && Keys(a.routers) == Keys(b.routers) - {name}
      && (forall i :: 0 <= i < |a.routers| ==> name !in a.routers[i].1)
      && (forall q :: q != name ==> Get(a.mappers, q) == Get(b.mappers, q))
      && (forall q :: q in Keys(a.routers) ==> Get(a.routers, q) == Some(Without(Get(b.routers, q).value, name)))
      && a.plans == b.plans
  {
    var kept := Remove(b.routers, name);
    ScrubDistinct(kept, name);
    WithoutNodeFacts(b.connections, name);
    forall i | 0 <= i < |kept| ensures name !in Scrub(kept, name)[i].1 { WithoutFacts(kept[i].1, name); }
    forall q | q != name ensures Get(RemoveWorker(b, name).value.mappers, q) == Get(b.mappers, q) {
      GetRemove(b.mappers, name, q);
    }
    forall q | q in Keys(Scrub(kept, name))
      ensures Get(Scrub(kept, name), q) == Some(Without(Get(b.routers, q).value, name))
    {
      GetScrub(kept, name, q);
      GetRemove(b.routers, name, q);
    }
  }

  lemma {:induction false} GetScrub(routers: Dict<seq<string>>, name: string, q: string)
    requires q in Keys(routers)
    ensures Get(Scrub(routers, name), q) == Some(Without(Get(routers, q).value, name))
  {
    assert Scrub(routers, name)[1..] == Scrub(routers[1..], name);
    if routers[0].0 != q { GetScrub(routers[1..], name, q); }
  }
}
