/** What each graph edit does. */
module EditEffects {
  import opened Wrappers
  import opened Dicts
  import opened Blueprints
  import opened FirstOccurrences
  import T = Topology

  predicate Letter(c: char) { 'a' <= c <= 'z' || 'A' <= c <= 'Z' }

  /** A letter, then up to 63 letters, digits, underscores and dashes. */
  predicate NameMatches(s: string) {
    s != "" && Letter(s[0]) && |s[1..]| <= 63
    && forall i :: 0 <= i < |s[1..]| ==> Letter(s[1..][i]) || '0' <= s[1..][i] <= '9' || s[1..][i] in "_-"
  }

  lemma NameExactly(s: string)
    ensures IsName(s) <==> NameMatches(s)
  {
    if NameMatches(s) {
      forall i | 0 <= i < |s| ensures IsNameChar(s[i]) { if i > 0 { assert s[i] == s[1..][i - 1]; } }
    }
    if IsName(s) {
      forall i | 0 <= i < |s[1..]| ensures IsNameChar(s[1..][i]) { assert s[1..][i] == s[i + 1]; }
    }
  }

  /** Which edits the console accepts. */
  ghost predicate Acceptable(b: Blueprint, e: T.Edit) {
    match e
    case AddAgent(n, _) => NameMatches(n) && n != "coordinator" && n !in Keys(b.workers)
    case RemoveAgent(n) => n in Keys(b.workers) && n != "coordinator"
    case Connect(s, t) =>
      && s in Nodes(b) && t in Nodes(b) && s != t && Edge(s, t) !in b.connections
      && !T.Reaches(b.connections, t, s)
    case Disconnect(s, t) => Edge(s, t) in b.connections
    case MapWith(a, m) => m in {"concat", "json", "labelled"} && a in Nodes(b)
    case RouteTo(a, ts) => a in Nodes(b) && forall t :: t in ts ==> t in Nodes(b)
  }

  /** What a refused edit is refused for, the first of what speaks against it. */
  ghost predicate Against(b: Blueprint, e: T.Edit, why: DomainError) {
    match e
    case AddAgent(n, _) =>
      var bad := !NameMatches(n) || n == "coordinator";
      (bad && why == InvalidName) || (!bad && n in Keys(b.workers) && why == AgentExists)
    case RemoveAgent(n) =>
      || (n == "coordinator" && why == CoordinatorFixed)
      || (n != "coordinator" && n !in Keys(b.workers) && why == UnknownAgent)
    case Connect(s, t) =>
      var known := s in Nodes(b) && t in Nodes(b);
      || (!known && why == UnknownEndpoint) || (known && s == t && why == SelfLink)
      || (known && s != t && Edge(s, t) in b.connections && why == ConnectionExists)
      || (known && s != t && Edge(s, t) !in b.connections && T.Reaches(b.connections, t, s) && why == WouldCycle)
    case Disconnect(s, t) => Edge(s, t) !in b.connections && why == ConnectionMissing
    case MapWith(a, m) =>
      var mode := m in {"concat", "json", "labelled"};
      (!mode && why == InvalidMode) || (mode && a !in Nodes(b) && why == UnknownAgent)
    case RouteTo(a, ts) => (a !in Nodes(b) || exists t :: t in ts && t !in Nodes(b)) && why == UnknownRouterAgent
  }

  lemma WorkerRefused(b: Blueprint, e: T.Edit, why: DomainError)
    requires e.AddAgent? || e.RemoveAgent?
    ensures T.Apply(b, e) == Err(why) <==> Against(b, e, why)
  {
    NameExactly(e.name);
  }

  lemma EdgeRefused(b: Blueprint, e: T.Edit, why: DomainError)
    requires e.Connect? || e.Disconnect?
    ensures T.Apply(b, e) == Err(why) <==> Against(b, e, why)
  {
  }

  lemma RouteRefused(b: Blueprint, e: T.Edit, why: DomainError)
    requires e.MapWith? || e.RouteTo?
    ensures T.Apply(b, e) == Err(why) <==> Against(b, e, why)
  {
    if e.RouteTo? {
      if i :| 0 <= i < |e.targets| && e.targets[i] !in Nodes(b) { assert e.targets[i] in e.targets; }
      if t :| t in e.targets && t !in Nodes(b) {
        var i :| 0 <= i < |e.targets| && e.targets[i] == t;
      }
    }
  }

  lemma RefusedExactlyFor(b: Blueprint, e: T.Edit, why: DomainError)
    ensures T.Apply(b, e) == Err(why) <==> Against(b, e, why)
  {
    match e
    case AddAgent(_, _) => WorkerRefused(b, e, why);
    case RemoveAgent(_) => WorkerRefused(b, e, why);
    case Connect(_, _) => EdgeRefused(b, e, why);
    case Disconnect(_, _) => EdgeRefused(b, e, why);
    case MapWith(_, _) => RouteRefused(b, e, why);
    case RouteTo(_, _) => RouteRefused(b, e, why);
  }

  lemma AcceptedExactlyWhen(b: Blueprint, e: T.Edit)
    ensures T.Apply(b, e).Ok? <==> Acceptable(b, e)
  {
    NameExactly(match e case AddAgent(n, _) => n case _ => "");
    if e.RouteTo? {
      if i :| 0 <= i < |e.targets| && e.targets[i] !in Nodes(b) { assert e.targets[i] in e.targets; }
    }
  }

  /** The same entries but at one key. */
  ghost predicate SameBut<V>(a: Dict<V>, b: Dict<V>, k: string) {
    forall q :: q != k ==> Get(a, q) == Get(b, q)
  }

  /** The blueprint after an accepted edit. */
  ghost predicate Effect(b: Blueprint, e: T.Edit, a: Blueprint) {
    && a.plans == b.plans && a.schemaVersion == b.schemaVersion
    && match e
       case AddAgent(n, p) =>
         && a.workers == b.workers + [(n, Worker(n, p, "worker"))]
         && a.connections == b.connections && a.mappers == b.mappers && a.routers == b.routers
       case RemoveAgent(n) =>
         && Get(a.workers, n).None? && SameBut(a.workers, b.workers, n)
         && InOrderOf(b.connections, a.connections)
         && (forall x :: x in a.connections <==> x in b.connections && x.source != n && x.target != n)
         && Get(a.mappers, n).None? && SameBut(a.mappers, b.mappers, n)
         && Get(a.routers, n).None? && Keys(a.routers) == Keys(b.routers) - {n}
         && forall k :: k in Keys(a.routers) ==> LosesOnly(Get(b.routers, k).value, Get(a.routers, k).value, n)
       case Connect(s, t) =>
         && a.connections == b.connections + [Edge(s, t)]
         && a.workers == b.workers && a.mappers == b.mappers && a.routers == b.routers
       case Disconnect(s, t) =>
         && LosesOnly(b.connections, a.connections, Edge(s, t))
         && a.workers == b.workers && a.mappers == b.mappers && a.routers == b.routers
       case MapWith(n, m) =>
         && Get(a.mappers, n) == Some(m) && SameBut(a.mappers, b.mappers, n)
         && a.workers == b.workers && a.connections == b.connections && a.routers == b.routers
       case RouteTo(n, ts) =>
         && Get(a.routers, n).Some? && KeepsFirsts(ts, Get(a.routers, n).value) && SameBut(a.routers, b.routers, n)
         && a.workers == b.workers && a.connections == b.connections && a.mappers == b.mappers
  }

  lemma {:induction false} NodeLessInOrder(edges: seq<Edge>, n: string)
    requires NoDup(edges)
    ensures InOrderOf(edges, T.WithoutNode(edges, n))
    ensures forall x :: x in T.WithoutNode(edges, n) <==> x in edges && x.source != n && x.target != n
  {
    T.WithoutNodeFacts(edges, n);
    if edges != [] {
      var init, last := edges[..|edges| - 1], edges[|edges| - 1];
      assert edges == init + [last];
      assert last !in init;
      NodeLessInOrder(init, n);
      OrderGrows(init, T.WithoutNode(init, n), last);
    }
  }

  lemma {:induction false} NameLessInOrder(names: seq<string>, n: string)
    requires NoDup(names)
    ensures LosesOnly(names, T.Without(names, n), n)
  {
    T.WithoutFacts(names, n);
    if names != [] {
      var init, last := names[..|names| - 1], names[|names| - 1];
      assert names == init + [last];
      assert last !in init;
      NameLessInOrder(init, n);
      OrderGrows(init, T.Without(init, n), last);
    }
  }

  lemma {:induction false} SelfInOrder<X>(s: seq<X>)
    requires NoDup(s)
    ensures InOrderOf(s, s)
  {
    if s != [] {
      var init, last := s[..|s| - 1], s[|s| - 1];
      assert s == init + [last];
      assert last !in init;
      SelfInOrder(init);
      OrderGrows(init, init, last);
    }
  }

  lemma {:induction false} OrderBehind<X>(s: seq<X>, r: seq<X>)
    requires s != [] && InOrderOf(s[1..], r) && s[0] !in s[1..] && forall x :: x in r ==> x in s[1..]
    ensures InOrderOf(s, r) && InOrderOf(s, [s[0]] + r)
  {
    forall i | 0 <= i < |r| ensures FirstAt(s, r[i]) == 1 + FirstAt(s[1..], r[i]) { assert r[i] in r; }
    var q := [s[0]] + r;
    forall i, j | 0 <= i < j < |q| ensures FirstAt(s, q[i]) < FirstAt(s, q[j]) {
      assert q[j] == r[j - 1];
      if i > 0 { assert q[i] == r[i - 1]; }
    }
  }

  lemma {:induction false} FirstLessInOrder(s: seq<Edge>, x: Edge)
    requires NoDup(s)
    ensures LosesOnly(s, T.WithoutFirst(s, x), x)
  {
    T.WithoutFirstFacts(s, x);
    if s != [] {
      assert s[0] !in s[1..];
      if s[0] == x {
        SelfInOrder(s[1..]);
        OrderBehind(s, s[1..]);
      } else {
        FirstLessInOrder(s[1..], x);
        OrderBehind(s, T.WithoutFirst(s[1..], x));
      }
    }
  }

  lemma {:induction false} RemovedAt<V>(d: Dict<V>, n: string)
    requires Distinct(d)
    ensures Get(Remove(d, n), n).None? && SameBut(Remove(d, n), d, n)
  {
    forall q | q != n ensures Get(Remove(d, n), q) == Get(d, q) { GetRemove(d, n, q); }
  }

  lemma {:induction false} PutAtKey<V>(d: Dict<V>, k: string, v: V)
    ensures Get(Put(d, k, v), k) == Some(v) && SameBut(Put(d, k, v), d, k)
  {
    forall q ensures Get(Put(d, k, v), q) == if q == k then Some(v) else Get(d, q) { GetPut(d, k, v, q); }
  }

  lemma {:induction false} RemovalEffect(b: Blueprint, n: string)
    requires T.Valid(b) && T.Apply(b, T.RemoveAgent(n)).Ok?
    ensures Effect(b, T.RemoveAgent(n), T.Apply(b, T.RemoveAgent(n)).value)
  {
    var a := T.Apply(b, T.RemoveAgent(n)).value;
    T.RemovalIsComplete(b, n);
    RemovedAt(b.workers, n);
    RemovedAt(b.mappers, n);
    NodeLessInOrder(b.connections, n);
    forall k | k in Keys(a.routers) ensures LosesOnly(Get(b.routers, k).value, Get(a.routers, k).value, n) {
      GetIsEntry(b.routers, k);
      NameLessInOrder(Get(b.routers, k).value, n);
    }
  }

  lemma {:induction false} RouteEffect(b: Blueprint, n: string, ts: seq<string>)
    requires T.Apply(b, T.RouteTo(n, ts)).Ok?
    ensures Effect(b, T.RouteTo(n, ts), T.Apply(b, T.RouteTo(n, ts)).value)
  {
    PutAtKey(b.routers, n, Dedup(ts));
    DedupKeepsFirsts(ts);
  }

  /** An accepted edit has exactly its effect. */
  lemma {:induction false} EffectIsExact(b: Blueprint, e: T.Edit)
    requires T.Valid(b) && T.Apply(b, e).Ok?
    ensures Effect(b, e, T.Apply(b, e).value)
  {
    match e
    case AddAgent(n, p) =>
    case RemoveAgent(n) => RemovalEffect(b, n);
    case Connect(s, t) =>
    case Disconnect(s, t) => FirstLessInOrder(b.connections, Edge(s, t));
    case MapWith(n, m) => PutAtKey(b.mappers, n, m);
    case RouteTo(n, ts) => RouteEffect(b, n, ts);
  }
}
