/** What edits keep. */
module GatewayProofs {
  import opened Wrappers
  import opened Dicts
  import opened Blueprints
  import opened Gateway
  import T = Topology

  /** A materialized swarm runs exactly the durable graph, with exactly its agents. */
  predicate Agrees(s: State) {
    s.swarm.Some? ==>
      s.coordinator && s.swarm.value == Live(s.durable) && s.agents == [COORDINATOR] + Names(s.durable.workers)
  }

  // ---- the mirror -------------------------------------------------------------

  lemma {:induction false} WithoutAppend(a: seq<string>, b: seq<string>, n: string)
    ensures T.Without(a + b, n) == T.Without(a, n) + T.Without(b, n)
  {
    if b == [] {
      assert a + b == a;
    } else {
      assert (a + b)[..|a + b| - 1] == a + b[..|b| - 1];
      WithoutAppend(a, b[..|b| - 1], n);
    }
  }

  lemma {:induction false} WithoutAbsent(a: seq<string>, n: string)
    requires n !in a
    ensures T.Without(a, n) == a
  {
    if a != [] { WithoutAbsent(a[..|a| - 1], n); }
  }

  lemma {:induction false} NamesKeys(workers: Dict<Worker>, n: string)
    ensures n in Names(workers) <==> n in Keys(workers)
  {
    KeysByIndex(workers, n);
    if n in Keys(workers) {
      var i :| 0 <= i < |workers| && workers[i].0 == n;
      assert Names(workers)[i] == n;
    }
  }

  lemma {:induction false} WithoutFirst(head: string, rest: seq<string>, n: string)
    ensures T.Without([head] + rest, n) == (if head == n then [] else [head]) + T.Without(rest, n)
  {
    WithoutAppend([head], rest, n);
    assert T.Without([head], n) == if head == n then [] else [head];
  }

  lemma {:induction false} RemovedNames(workers: Dict<Worker>, n: string)
    requires Distinct(workers)
    ensures Names(Remove(workers, n)) == T.Without(Names(workers), n)
  {
    if workers != [] {
      var head, rest := workers[0].0, workers[1..];
      assert Names(workers) == [head] + Names(rest);
      WithoutFirst(head, Names(rest), n);
      if head == n {
        NamesKeys(rest, n);
        WithoutAbsent(Names(rest), n);
      } else {
        RemovedNames(rest, n);
        assert Names(Remove(workers, n)) == [head] + Names(Remove(rest, n));
      }
    }
  }

  /** An accepted edit means the same on both sides. */
  lemma {:induction false} MirrorMatches(b: Blueprint, e: T.Edit)
    requires T.Valid(b) && T.Apply(b, e).Ok?
    ensures Mirror(Live(b), e) == Live(T.Apply(b, e).value)
  {
    match e
    case AddAgent(n, p) => assert Names(Put(b.workers, n, Worker(n, p, "worker"))) == Names(b.workers) + [n];
    case RemoveAgent(n) => RemovedNames(b.workers, n);
    case _ =>
  }

  lemma {:induction false} NodelessEdges(edges: seq<Edge>, n: string)
    requires forall e :: e in edges ==> e.source != n && e.target != n
    ensures T.WithoutNode(edges, n) == edges
  {
    if edges != [] {
      NodelessEdges(edges[..|edges| - 1], n);
      assert edges[|edges| - 1] in edges;
    }
  }

  lemma {:induction false} NamelessRoutes(routers: Dict<seq<string>>, n: string)
    requires forall i :: 0 <= i < |routers| ==> n !in routers[i].1
    ensures T.Scrub(routers, n) == routers
  {
    forall i | 0 <= i < |routers| ensures T.Without(routers[i].1, n) == routers[i].1 {
      WithoutAbsent(routers[i].1, n);
    }
  }

  /** Removing a name the graph does not hold, or has just gained, gives the graph back. */
  lemma {:induction false} UndoAdd(b: Blueprint, n: string, p: string)
    requires T.Valid(b) && n !in Nodes(b)
    ensures Mirror(Live(b), T.RemoveAgent(n)) == Live(b)
    ensures Mirror(Mirror(Live(b), T.AddAgent(n, p)), T.RemoveAgent(n)) == Live(b)
  {
    NamesKeys(b.workers, n);
    WithoutAbsent(Names(b.workers), n);
    WithoutAppend(Names(b.workers), [n], n);
    assert T.Without([n], n) == [];
    NodelessEdges(b.connections, n);
    KeysByIndex(b.mappers, n);
    KeysByIndex(b.routers, n);
    NamelessRoutes(b.routers, n);
  }

  // ---- rebuilding -------------------------------------------------------------

  function Replay(g: LiveGraph, steps: seq<T.Edit>): LiveGraph {
    if steps == [] then g else Mirror(Replay(g, steps[..|steps| - 1]), steps[|steps| - 1])
  }

  lemma {:induction false} ReplayAppend(g: LiveGraph, a: seq<T.Edit>, b: seq<T.Edit>)
    ensures Replay(g, a + b) == Replay(Replay(g, a), b)
  {
    if b == [] {
      assert a + b == a;
    } else {
      assert (a + b)[..|a + b| - 1] == a + b[..|b| - 1];
      ReplayAppend(g, a, b[..|b| - 1]);
    }
  }

  lemma {:induction false} ReplayAdds(g: LiveGraph, ws: Dict<Worker>)
    ensures Replay(g, AddSteps(ws)) == g.(workers := g.workers + Names(ws))
  {
    if ws != [] {
      var init := ws[..|ws| - 1];
      ReplayAdds(g, init);
      assert AddSteps(ws)[..|ws| - 1] == AddSteps(init);
      assert Names(ws) == Names(init) + [ws[|ws| - 1].0];
    } else {
      assert g.workers + Names(ws) == g.workers;
    }
  }

  lemma {:induction false} ReplayConnects(g: LiveGraph, es: seq<Edge>)
    ensures Replay(g, ConnectSteps(es)) == g.(edges := g.edges + es)
  {
    if es != [] {
      var init := es[..|es| - 1];
      ReplayConnects(g, init);
      assert ConnectSteps(es)[..|es| - 1] == ConnectSteps(init);
      assert es == init + [es[|es| - 1]];
    } else {
      assert g.edges + es == g.edges;
    }
  }

  lemma LastKeyIsNew<V>(d: Dict<V>)
    requires Distinct(d) && d != []
    ensures Distinct(d[..|d| - 1]) && d[|d| - 1].0 !in Keys(d[..|d| - 1]) && d == d[..|d| - 1] + [d[|d| - 1]]
  {
    var last := [d[|d| - 1]];
    assert d == d[..|d| - 1] + last;
    DistinctAppend(d[..|d| - 1], last);
    assert last[0].0 in Keys(last);
  }

  lemma {:induction false} ReplayMaps(g: LiveGraph, ms: Dict<string>)
    requires Distinct(ms) && g.mappers == []
    ensures Replay(g, MapSteps(ms)) == g.(mappers := ms)
  {
    if ms != [] {
      LastKeyIsNew(ms);
      ReplayMaps(g, ms[..|ms| - 1]);
      assert MapSteps(ms)[..|ms| - 1] == MapSteps(ms[..|ms| - 1]);
    }
  }

  lemma {:induction false} ReplayRoutes(g: LiveGraph, rs: Dict<seq<string>>)
    requires Distinct(rs) && g.routers == [] && forall i :: 0 <= i < |rs| ==> NoDup(rs[i].1)
    ensures Replay(g, RouteSteps(rs)) == g.(routers := rs)
  {
    if rs != [] {
      LastKeyIsNew(rs);
      ReplayRoutes(g, rs[..|rs| - 1]);
      DedupFacts(rs[|rs| - 1].1);
      assert RouteSteps(rs)[..|rs| - 1] == RouteSteps(rs[..|rs| - 1]);
    }
  }

  lemma {:induction false} ReplayBuilds(b: Blueprint)
    requires T.Valid(b)
    ensures Replay(NO_GRAPH, BuildSteps(b)) == Live(b)
  {
    var adds, connects, maps, routes :=
      AddSteps(b.workers), ConnectSteps(b.connections), MapSteps(b.mappers), RouteSteps(b.routers);
    assert BuildSteps(b) == adds + connects + maps + routes;
    ReplayAppend(NO_GRAPH, adds + connects + maps, routes);
    ReplayAppend(NO_GRAPH, adds + connects, maps);
    ReplayAppend(NO_GRAPH, adds, connects);
    ReplayAdds(NO_GRAPH, b.workers);
    var g1 := LiveGraph(Names(b.workers), [], [], []);
    assert [] + Names(b.workers) == Names(b.workers);
    ReplayConnects(g1, b.connections);
    assert [] + b.connections == b.connections;
    var g2 := g1.(edges := b.connections);
    ReplayMaps(g2, b.mappers);
    ReplayRoutes(g2.(mappers := b.mappers), b.routers);
  }

  function Size(g: LiveGraph): nat {
    |g.workers| + |g.edges| + |g.mappers| + |g.routers|
  }

  predicate IsBuildStep(e: T.Edit) {
    !e.RemoveAgent? && !e.Disconnect?
  }

  lemma {:induction false} PutSize<V>(d: Dict<V>, k: string, v: V)
    ensures |Put(d, k, v)| <= |d| + 1
  {
    if d != [] && d[0].0 != k { PutSize(d[1..], k, v); }
  }

  lemma {:induction false} StepSize(g: LiveGraph, e: T.Edit)
    requires IsBuildStep(e)
    ensures Size(Mirror(g, e)) <= Size(g) + 1
  {
    match e {
      case MapWith(a, m) => PutSize(g.mappers, a, m);
      case RouteTo(a, ts) => PutSize(g.routers, a, Dedup(ts));
      case _ =>
    }
  }

  predicate AllApplied(n: nat, replies: nat -> Reply) {
    forall i :: 0 <= i < n ==> Applied(replies(i))
  }

  /** Each step that did not take leaves the new swarm one item short. */
  lemma {:induction false} BuiltSize(steps: seq<T.Edit>, replies: nat -> Reply)
    requires Built(steps, replies).Some? && forall i :: 0 <= i < |steps| ==> IsBuildStep(steps[i])
    ensures Size(Built(steps, replies).value) <= |steps|
    ensures !AllApplied(|steps|, replies) ==> Size(Built(steps, replies).value) < |steps|
    ensures AllApplied(|steps|, replies) ==> Built(steps, replies).value == Replay(NO_GRAPH, steps)
  {
    if steps != [] {
      var last := |steps| - 1;
      BuiltSize(steps[..last], replies);
      StepSize(Built(steps[..last], replies).value, steps[last]);
    }
  }

  /** A rebuilt swarm is the durable graph exactly when no step was silently dropped. */
  lemma {:induction false} BuiltIsLiveExactlyWhen(b: Blueprint, replies: nat -> Reply)
    requires T.Valid(b) && Built(BuildSteps(b), replies).Some?
    ensures Built(BuildSteps(b), replies).value == Live(b) <==> AllApplied(|BuildSteps(b)|, replies)
  {
    BuiltSize(BuildSteps(b), replies);
    ReplayBuilds(b);
    assert Size(Live(b)) == |BuildSteps(b)|;
  }

  // ---- agreement of one call --------------------------------------------------

  /** The answers under which an edit leaves the two sides in agreement. */
  ghost predicate InStep(s: State, e: T.Edit, env: Env) {
    match T.Apply(s.durable, e)
    case Err(_) => true
    case Ok(b) =>
      if !env.write then s.swarm.None? || Live(b) == Live(s.durable)
      else if !s.running then IdleInStep(s, b, env)
      else LiveInStep(s, b, e, env)
  }

  predicate IdleInStep(s: State, b: Blueprint, env: Env) {
    !s.coordinator || !env.setup || Built(BuildSteps(b), env.rebuild).None?
    || AllApplied(|BuildSteps(b)|, env.rebuild)
  }

  /** A refusal that took effect all the same is repaired only where an add is undone. */
  predicate LiveInStep(s: State, b: Blueprint, e: T.Edit, env: Env) {
    if s.swarm.None? || (e.AddAgent? && !env.build) || env.reply.Accept? || !env.reply.applied then true
    else if e.AddAgent? then Applied(env.cleanup)
    else Live(b) == Live(s.durable)
  }

  lemma {:induction false} IdlePropagation(s: State, b: Blueprint, e: T.Edit, env: Env)
    requires T.Valid(s.durable) && Agrees(s) && T.Apply(s.durable, e) == Ok(b) && env.write && !s.running
    ensures Agrees(Edit(s, e, env).0) <==> InStep(s, e, env)
  {
    T.ApplyKeepsValid(s.durable, e);
    var saved := s.(durable := b, disk := b);
    if s.coordinator && env.setup && Built(BuildSteps(b), env.rebuild).Some? {
      BuiltIsLiveExactlyWhen(b, env.rebuild);
    } else {
    }
  }

  lemma {:induction false} LiveAddCore(s: State, b: Blueprint, name: string, prompt: string, env: Env)
    requires Agrees(s) && s.running
    requires Mirror(Live(s.durable), T.AddAgent(name, prompt)) == Live(b)
    requires Mirror(Live(b), T.RemoveAgent(name)) == Live(s.durable)
    requires Mirror(Live(s.durable), T.RemoveAgent(name)) == Live(s.durable)
    ensures var e := T.AddAgent(name, prompt);
      Agrees(Propagate(s.(durable := b, disk := b), s.durable, e, env).0) <==> LiveInStep(s, b, e, env)
  {
    assert Names(b.workers) == Names(s.durable.workers) + [name];
    assert [COORDINATOR] + Names(b.workers) == [COORDINATOR] + Names(s.durable.workers) + [name];
  }

  lemma {:induction false} LiveRemoveCore(s: State, b: Blueprint, name: string, env: Env)
    requires Agrees(s) && s.running
    requires Mirror(Live(s.durable), T.RemoveAgent(name)) == Live(b)
    requires name in Names(s.durable.workers)
    requires T.Without([COORDINATOR] + Names(s.durable.workers), name) == [COORDINATOR] + Names(b.workers)
    ensures var e := T.RemoveAgent(name);
      Agrees(Propagate(s.(durable := b, disk := b), s.durable, e, env).0) <==> LiveInStep(s, b, e, env)
  {
  }

  lemma {:induction false} LiveMutateCore(s: State, b: Blueprint, e: T.Edit, env: Env)
    requires Agrees(s) && s.running && !e.AddAgent? && !e.RemoveAgent?
    requires Mirror(Live(s.durable), e) == Live(b) && b.workers == s.durable.workers
    ensures Agrees(Propagate(s.(durable := b, disk := b), s.durable, e, env).0) <==> LiveInStep(s, b, e, env)
  {
  }

  lemma {:induction false} LiveRemoval(s: State, b: Blueprint, name: string, env: Env)
    requires T.Valid(s.durable) && Agrees(s) && T.RemoveWorker(s.durable, name) == Ok(b) && s.running
    ensures var e := T.RemoveAgent(name);
      Agrees(Propagate(s.(durable := b, disk := b), s.durable, e, env).0) <==> LiveInStep(s, b, e, env)
  {
    MirrorMatches(s.durable, T.RemoveAgent(name));
    RemovedNames(s.durable.workers, name);
    NamesKeys(s.durable.workers, name);
    WithoutAppend([COORDINATOR], Names(s.durable.workers), name);
    assert T.Without([COORDINATOR], name) == [COORDINATOR];
    LiveRemoveCore(s, b, name, env);
  }

  lemma {:induction false} LivePropagation(s: State, b: Blueprint, e: T.Edit, env: Env)
    requires T.Valid(s.durable) && Agrees(s) && T.Apply(s.durable, e) == Ok(b) && env.write && s.running
    ensures Agrees(Propagate(s.(durable := b, disk := b), s.durable, e, env).0) <==> LiveInStep(s, b, e, env)
  {
    match e
    case AddAgent(name, prompt) =>
      MirrorMatches(s.durable, e);
      UndoAdd(s.durable, name, prompt);
      LiveAddCore(s, b, name, prompt, env);
    case RemoveAgent(name) => LiveRemoval(s, b, name, env);
    case _ =>
      MirrorMatches(s.durable, e);
      LiveMutateCore(s, b, e, env);
  }

  /** After any edit from agreement the sides agree exactly under the stated answers. */
  lemma {:induction false} EditAgreesExactlyWhen(s: State, e: T.Edit, env: Env)
    requires T.Valid(s.durable) && Agrees(s)
    ensures Agrees(Edit(s, e, env).0) <==> InStep(s, e, env)
  {
    var r := T.Apply(s.durable, e);
    if r.Ok? && env.write {
      if !s.running { IdlePropagation(s, r.value, e, env); }
      else { LivePropagation(s, r.value, e, env); }
    }
  }

  // ---- agreement of a dispatch ------------------------------------------------

  ghost predicate DispatchInStep(s: State, name: string, prompt: string, binding: Option<Binding>, env: Env) {
    match T.AddWorker(s.durable, name, prompt)
    case Err(_) => true
    case Ok(b) => if !env.write then s.swarm.None? else SpawnInStep(s, b, binding, env)
  }

  predicate SpawnInStep(s: State, b: Blueprint, binding: Option<Binding>, env: Env) {
    if !s.running || !env.build || s.swarm.None? then true
    else if env.reply.Accept? && BindDispatched(s.(durable := b, disk := b), binding).1 then true
    else !Applied(env.reply) || Applied(env.cleanup)
  }

  /** The three facts about adding one new worker that the proofs below use. */
  ghost predicate AddsOne(before: Blueprint, after: Blueprint, name: string, prompt: string) {
    && Names(after.workers) == Names(before.workers) + [name]
    && Mirror(Live(before), T.AddAgent(name, prompt)) == Live(after)
    && Mirror(Live(after), T.RemoveAgent(name)) == Live(before)
    && Mirror(Live(before), T.RemoveAgent(name)) == Live(before)
  }

  lemma {:induction false} AddWorkerAddsOne(b: Blueprint, name: string, prompt: string)
    requires T.Valid(b) && T.AddWorker(b, name, prompt).Ok?
    ensures AddsOne(b, T.AddWorker(b, name, prompt).value, name, prompt)
  {
    MirrorMatches(b, T.AddAgent(name, prompt));
    UndoAdd(b, name, prompt);
    assert Names(T.AddWorker(b, name, prompt).value.workers) == Names(b.workers) + [name];
  }

  lemma {:induction false} SpawnRefused(s: State, b: Blueprint, name: string, prompt: string,
                                        binding: Option<Binding>, env: Env)
    requires Agrees(s) && AddsOne(s.durable, b, name, prompt)
    requires s.running && env.build && s.swarm.Some? && !env.reply.Accept?
    ensures var r := DispatchLive(s.(durable := b, disk := b), s.durable, name, prompt, binding, env);
      && !r.1.Committed?
      && r.0 == s.(disk := if env.restore then s.durable else b,
                   swarm := Some(if env.reply.applied && !Applied(env.cleanup) then Live(b) else Live(s.durable)))
  {
  }

  lemma {:induction false} SpawnSent(s: State, b: Blueprint, name: string, prompt: string, binding: Option<Binding>,
                                     env: Env)
    requires Agrees(s) && AddsOne(s.durable, b, name, prompt)
    requires s.running && env.build && s.swarm.Some? && env.reply.Accept?
    ensures var r := DispatchLive(s.(durable := b, disk := b), s.durable, name, prompt, binding, env);
      var bound := BindDispatched(s.(durable := b, disk := b, swarm := Some(Live(b))), binding);
      && (bound.1 ==> r == (bound.0.(agents := s.agents + [name], controls := Register(s.controls, name)), Committed))
      && (!bound.1 ==> !r.1.Committed?)
      && (!bound.1 ==> r.0 == s.(disk := if env.restore then s.durable else bound.0.disk,
                                 swarm := Some(if Applied(env.cleanup) then Live(s.durable) else Live(b))))
  {
  }

  lemma {:induction false} SpawnCore(s: State, b: Blueprint, name: string, prompt: string, binding: Option<Binding>,
                                     env: Env)
    requires Agrees(s) && AddsOne(s.durable, b, name, prompt)
    ensures Agrees(DispatchLive(s.(durable := b, disk := b), s.durable, name, prompt, binding, env).0)
       <==> SpawnInStep(s, b, binding, env)
  {
    if !s.running || !env.build || s.swarm.None? {
    } else if !env.reply.Accept? {
      SpawnRefused(s, b, name, prompt, binding, env);
    } else {
      SpawnSent(s, b, name, prompt, binding, env);
      assert [COORDINATOR] + Names(b.workers) == [COORDINATOR] + Names(s.durable.workers) + [name];
    }
  }

  /** A dispatch leaves the sides in agreement exactly under the stated answers. */
  lemma {:induction false} DispatchAgreesExactlyWhen(s: State, name: string, prompt: string,
                                                     binding: Option<Binding>, env: Env)
    requires T.Valid(s.durable) && Agrees(s)
    ensures Agrees(Dispatch(s, name, prompt, binding, env).0) <==> DispatchInStep(s, name, prompt, binding, env)
  {
    var r := T.AddWorker(s.durable, name, prompt);
    if r.Ok? {
      AddWorkerAddsOne(s.durable, name, prompt);
      if env.write { SpawnCore(s, r.value, name, prompt, binding, env); }
    }
  }

  // ---- all or nothing, and whole runs -----------------------------------------

  /** The state file answers, failed live calls have no effect, and no rebuild step is silently dropped. */
  ghost predicate Atomic(env: Env) {
    && env.write && env.restore
    && (env.reply.Accept? || !env.reply.applied)
    && forall i: nat :: env.rebuild(i) != ErrorText(false)
  }

  ghost predicate InSync(s: State) {
    T.Valid(s.durable) && Agrees(s) && s.disk == s.durable
  }

  lemma {:induction false} BuiltAppliesAll(steps: seq<T.Edit>, replies: nat -> Reply)
    requires Built(steps, replies).Some? && forall i: nat :: replies(i) != ErrorText(false)
    ensures AllApplied(|steps|, replies)
  {
    if steps != [] { BuiltAppliesAll(steps[..|steps| - 1], replies); }
  }

  lemma {:induction false} RollBackRestores(s: State, b: Blueprint, undo: Option<string>, env: Env)
    requires s.disk == s.durable && env.restore
    requires undo.Some? && s.swarm.Some? ==> Mirror(s.swarm.value, T.RemoveAgent(undo.value)) == s.swarm.value
    ensures RollBack(s.(durable := b, disk := b), s.durable, undo, env).0 == s
  {
  }

  lemma {:induction false} FailedEditRestores(s: State, b: Blueprint, e: T.Edit, env: Env)
    requires InSync(s) && T.Apply(s.durable, e) == Ok(b) && Atomic(env)
    requires !Propagate(s.(durable := b, disk := b), s.durable, e, env).1.Committed?
    ensures Propagate(s.(durable := b, disk := b), s.durable, e, env).0 == s
  {
    if e.AddAgent? { FailedAddRestores(s, b, e, env); } else { RollBackRestores(s, b, None, env); }
  }

  lemma {:induction false} FailedAddRestores(s: State, b: Blueprint, e: T.Edit, env: Env)
    requires InSync(s) && e.AddAgent? && T.Apply(s.durable, e) == Ok(b) && Atomic(env)
    requires !Propagate(s.(durable := b, disk := b), s.durable, e, env).1.Committed?
    ensures Propagate(s.(durable := b, disk := b), s.durable, e, env).0 == s
  {
    RollBackRestores(s, b, None, env);
    UndoAdd(s.durable, e.name, e.prompt);
    RollBackRestores(s, b, Some(e.name), env);
  }

  /** Under atomic answers an edit either commits on both sides or leaves everything as it was. */
  lemma {:induction false} EditIsAllOrNothing(s: State, e: T.Edit, env: Env)
    requires InSync(s) && Atomic(env)
    ensures var (after, ending) := Edit(s, e, env);
      && InSync(after)
      && (ending.Committed? ==> T.Apply(s.durable, e) == Ok(after.durable))
      && (!ending.Committed? ==> after == s)
  {
    var r := T.Apply(s.durable, e);
    if r.Ok? {
      T.ApplyKeepsValid(s.durable, e);
      EditAgreesExactlyWhen(s, e, env);
      var steps := BuildSteps(r.value);
      if Built(steps, env.rebuild).Some? { BuiltAppliesAll(steps, env.rebuild); }
      var out := Propagate(s.(durable := r.value, disk := r.value), s.durable, e, env);
      if !out.1.Committed? {
        FailedEditRestores(s, r.value, e, env);
      } else {
        CommittedKeeps(s, r.value, e, env);
      }
    }
  }

  lemma {:induction false} CommittedKeeps(s: State, b: Blueprint, e: T.Edit, env: Env)
    requires Propagate(s.(durable := b, disk := b), s.durable, e, env).1.Committed?
    ensures var after := Propagate(s.(durable := b, disk := b), s.durable, e, env).0;
      after.durable == b && after.disk == b
  {
  }

  /** A dispatch too, when the removal that undoes an accepted worker takes effect. */
  lemma {:induction false} DispatchIsAllOrNothing(s: State, name: string, prompt: string, binding: Option<Binding>,
                                                  env: Env)
    requires InSync(s) && Atomic(env) && Applied(env.cleanup)
    ensures var (after, ending) := Dispatch(s, name, prompt, binding, env);
      && InSync(after)
      && (ending.Committed? ==> s.running && name in Keys(after.durable.workers))
      && (!ending.Committed? ==> after == s)
  {
    var r := T.AddWorker(s.durable, name, prompt);
    if r.Ok? {
      T.AddKeepsValid(s.durable, name, prompt);
      AddWorkerAddsOne(s.durable, name, prompt);
      SpawnIsAllOrNothing(s, r.value, name, prompt, binding, env);
    }
  }

  lemma {:induction false} SpawnIsAllOrNothing(s: State, b: Blueprint, name: string, prompt: string,
                                               binding: Option<Binding>, env: Env)
    requires InSync(s) && Atomic(env) && Applied(env.cleanup) && AddsOne(s.durable, b, name, prompt)
    requires T.Valid(b) && name in Keys(b.workers)
    ensures var (after, ending) := DispatchLive(s.(durable := b, disk := b), s.durable, name, prompt, binding, env);
      && InSync(after)
      && (ending.Committed? ==> s.running && name in Keys(after.durable.workers))
      && (!ending.Committed? ==> after == s)
  {
    if !s.running || !env.build || s.swarm.None? {
    } else if !env.reply.Accept? {
      SpawnRefused(s, b, name, prompt, binding, env);
    } else {
      SpawnSent(s, b, name, prompt, binding, env);
      SpawnCore(s, b, name, prompt, binding, env);
      var bound := BindDispatched(s.(durable := b, disk := b, swarm := Some(Live(b))), binding);
      if bound.1 {
        PlansDoNotMatter(b, bound.0.durable.plans);
      }
    }
  }

  lemma {:induction false} PlansDoNotMatter(b: Blueprint, plans: Dict<Plan>)
    requires T.Valid(b)
    ensures T.Valid(b.(plans := plans))
  {
    assert Nodes(b.(plans := plans)) == Nodes(b);
  }

  /** What can happen to one session over its life. */
  datatype Event =
    | Edited(edit: T.Edit, env: Env)
    | Dispatched(name: string, prompt: string, binding: Option<Binding>, env: Env)
    | Rebuilt(env: Env)
    | CoordinatorReady
    | AttemptStarted
    | AttemptEnded

  ghost function Next(s: State, event: Event): State {
    match event
    case Edited(e, env) => Edit(s, e, env).0
    case Dispatched(name, prompt, binding, env) => Dispatch(s, name, prompt, binding, env).0
    case Rebuilt(env) => (var r := Materialize(s, env); if r.Some? then r.value else s)
    case CoordinatorReady => s.(coordinator := true)
    case AttemptStarted => s.(running := true, controls := Some({}))
    case AttemptEnded => s.(running := false, controls := None)
  }

  ghost function Run(s: State, events: seq<Event>): State {
    if events == [] then s else Next(Run(s, events[..|events| - 1]), events[|events| - 1])
  }

  ghost predicate Reliable(event: Event) {
    match event
    case Edited(_, env) => Atomic(env)
    case Dispatched(_, _, _, env) => Atomic(env) && Applied(env.cleanup)
    case Rebuilt(env) => Atomic(env)
    case _ => true
  }

  lemma {:induction false} RebuildKeepsSync(s: State, env: Env)
    requires InSync(s) && Atomic(env)
    ensures Materialize(s, env).Some? ==> InSync(Materialize(s, env).value)
  {
    var steps := BuildSteps(s.durable);
    if Built(steps, env.rebuild).Some? {
      BuiltAppliesAll(steps, env.rebuild);
      BuiltIsLiveExactlyWhen(s.durable, env.rebuild);
    }
  }

  const START := State(EMPTY, EMPTY, None, [], None, false, false)

  /** Over every run of edits, dispatches, rebuilds and attempts the two sides stay equal and valid. */
  lemma {:induction false} SidesStayEqual(events: seq<Event>)
    requires forall i :: 0 <= i < |events| ==> Reliable(events[i])
    ensures InSync(Run(START, events))
  {
    if events == [] {
      T.EmptyIsValid();
    } else {
      SidesStayEqual(events[..|events| - 1]);
      var s := Run(START, events[..|events| - 1]);
      match events[|events| - 1]
      case Edited(e, env) => EditIsAllOrNothing(s, e, env);
      case Dispatched(name, prompt, binding, env) => DispatchIsAllOrNothing(s, name, prompt, binding, env);
      case Rebuilt(env) => RebuildKeepsSync(s, env);
      case _ =>
    }
  }

  // ---- runs under any answers -------------------------------------------------

  predicate RebuildInStep(s: State, env: Env) {
    var steps := BuildSteps(s.durable);
    !s.coordinator || !env.setup || Built(steps, env.rebuild).None? || AllApplied(|steps|, env.rebuild)
  }

  /** The answers under which one event keeps the sides in agreement. */
  ghost predicate EventInStep(s: State, event: Event) {
    match event
    case Edited(e, env) => InStep(s, e, env)
    case Dispatched(name, prompt, binding, env) => DispatchInStep(s, name, prompt, binding, env)
    case Rebuilt(env) => RebuildInStep(s, env)
    case _ => true
  }

  ghost predicate AllInStep(events: seq<Event>) {
    events != [] ==>
      var last := |events| - 1;
      AllInStep(events[..last]) && EventInStep(Run(START, events[..last]), events[last])
  }

  lemma {:induction false} NextAgreesExactlyWhen(s: State, event: Event)
    requires T.Valid(s.durable) && Agrees(s)
    ensures Agrees(Next(s, event)) <==> EventInStep(s, event)
  {
    match event
    case Edited(e, env) => EditAgreesExactlyWhen(s, e, env);
    case Dispatched(name, prompt, binding, env) => DispatchAgreesExactlyWhen(s, name, prompt, binding, env);
    case Rebuilt(env) =>
      if s.coordinator && env.setup && Built(BuildSteps(s.durable), env.rebuild).Some? {
        BuiltIsLiveExactlyWhen(s.durable, env.rebuild);
      }
    case _ =>
  }

  lemma {:induction false} DurableAfterDispatch(s: State, previous: Blueprint, name: string, prompt: string,
                                                binding: Option<Binding>, env: Env)
    ensures var d := DispatchLive(s, previous, name, prompt, binding, env).0.durable;
      d == previous || d == s.durable.(plans := d.plans)
  {
  }

  lemma {:induction false} DispatchKeepsValid(s: State, name: string, prompt: string, binding: Option<Binding>,
                                              env: Env)
    requires T.Valid(s.durable)
    ensures T.Valid(Dispatch(s, name, prompt, binding, env).0.durable)
  {
    var r := T.AddWorker(s.durable, name, prompt);
    if r.Ok? {
      T.AddKeepsValid(s.durable, name, prompt);
      DurableAfterDispatch(s.(durable := r.value, disk := r.value), s.durable, name, prompt, binding, env);
      PlansDoNotMatter(r.value, Dispatch(s, name, prompt, binding, env).0.durable.plans);
    }
  }

  lemma {:induction false} DurableAfterEdit(s: State, previous: Blueprint, e: T.Edit, env: Env)
    ensures var d := Propagate(s, previous, e, env).0.durable; d == previous || d == s.durable
  {
  }

  lemma {:induction false} EditKeepsValid(s: State, e: T.Edit, env: Env)
    requires T.Valid(s.durable)
    ensures T.Valid(Edit(s, e, env).0.durable)
  {
    var r := T.Apply(s.durable, e);
    if r.Ok? {
      T.ApplyKeepsValid(s.durable, e);
      DurableAfterEdit(s.(durable := r.value, disk := r.value), s.durable, e, env);
    }
  }

  /** Whatever the world answers, the durable graph stays valid. */
  lemma {:induction false} NextKeepsValid(s: State, event: Event)
    requires T.Valid(s.durable)
    ensures T.Valid(Next(s, event).durable)
  {
    match event
    case Edited(e, env) => EditKeepsValid(s, e, env);
    case Dispatched(name, prompt, binding, env) => DispatchKeepsValid(s, name, prompt, binding, env);
    case _ =>
  }

  lemma {:induction false} RunKeepsValid(events: seq<Event>)
    ensures T.Valid(Run(START, events).durable)
  {
    if events == [] {
      T.EmptyIsValid();
    } else {
      RunKeepsValid(events[..|events| - 1]);
      NextKeepsValid(Run(START, events[..|events| - 1]), events[|events| - 1]);
    }
  }

  /** Over a run under any answers the sides agree after every event exactly when every event is in step. */
  lemma {:induction false} RunAgreesExactlyWhile(events: seq<Event>)
    ensures (forall k :: 0 <= k <= |events| ==> Agrees(Run(START, events[..k]))) <==> AllInStep(events)
  {
    if events == [] {
      assert events[..0] == [];
    } else {
      var last := |events| - 1;
      var init := events[..last];
      RunAgreesExactlyWhile(init);
      RunKeepsValid(init);
      assert forall k :: 0 <= k <= last ==> init[..k] == events[..k];
      assert events[..|events|] == events && init[..last] == init;
      if Agrees(Run(START, init)) { NextAgreesExactlyWhen(Run(START, init), events[last]); }
    }
  }

  /** An error text a rebuild ignores leaves the new swarm without the step it was about. */
  lemma SilentRejectionDiverges()
    ensures exists s: State, e: T.Edit, env: Env ::
      InSync(s) && env.write && env.restore && Edit(s, e, env).1.Committed? && !Agrees(Edit(s, e, env).0)
  {
    var s := START.(coordinator := true);
    var e := T.MapWith(COORDINATOR, "json");
    var env := Env(true, true, true, true, Accept, Accept, (i: nat) => ErrorText(false));
    T.EmptyIsValid();
    var b := EMPTY.(mappers := [(COORDINATOR, "json")]);
    assert T.Apply(s.durable, e) == Ok(b);
    assert BuildSteps(b) == [e];
    assert Built([], env.rebuild) == Some(NO_GRAPH);
    assert [e][..0] == [];
    assert !Applied(env.rebuild(0));
    assert Built([e], env.rebuild) == Some(NO_GRAPH);
    EditAgreesExactlyWhen(s, e, env);
    assert !AllApplied(1, env.rebuild);
    assert Edit(s, e, env).1.Committed?;
  }
}
