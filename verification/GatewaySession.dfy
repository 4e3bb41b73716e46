/** The gateway's methods over one session object, step by step as they mutate it and undo it. */
module GatewaySessions {
  import opened Wrappers
  import opened Dicts
  import opened Blueprints
  import opened ConsoleStates
  import opened Gateway
  import T = Topology

  class Session {
    const console: ConsoleState
    var swarm: Option<LiveGraph>
    var agents: seq<string>
    var controls: Option<set<string>>
    var running: bool
    var coordinator: bool

    constructor (console: ConsoleState)
      ensures this.console == console
      ensures swarm == None && agents == [] && controls == None && !running && !coordinator
    {
      this.console := console;
      swarm, agents, controls, running, coordinator := None, [], None, false, false;
    }

    function View(): State
      reads this, console
    {
      State(console.Snapshot(), console.disk, swarm, agents, controls, running, coordinator)
    }

    /** `rebuild_swarm`: nothing of the session changes unless the fresh swarm is complete. */
    method RebuildSwarm(env: Env) returns (ok: bool)
      modifies this
      ensures ok == Materialize(old(View()), env).Some?
      ensures View() == if ok then Materialize(old(View()), env).value else old(View())
    {
      if !coordinator { return true; }
      if !env.setup { return false; }
      var g, names := FreshSwarm(console.Snapshot(), env.rebuild);
      if g.None? { return false; }
      agents, swarm := names, g;
      ok := true;
    }

    /** `_rollback_failures`: restore the snapshot, then undo a live add, whatever fails. */
    method Undo(previous: Blueprint, undo: Option<string>, env: Env) returns (end: Ending)
      modifies this, console
      ensures (View(), end) == RollBack(old(View()), previous, undo, env)
    {
      var restored := console.Replace(previous, env.restore);
      end := if restored.Done? then RolledBack else RollbackFailed;
      if undo.Some? && swarm.Some? {
        swarm := Some(Answered(swarm.value, T.RemoveAgent(undo.value), env.cleanup));
        if env.cleanup.Raise? { end := RollbackFailed; }
      }
    }

    method AddAgent(name: string, prompt: string, env: Env) returns (end: Ending)
      modifies this, console
      ensures (View(), end) == Edit(old(View()), T.AddAgent(name, prompt), env)
    {
      var previous := console.Snapshot();
      var added := console.AddWorker(name, prompt, env.write);
      if added.Refused? { return Ending.Refused(added.reason); }
      if added.WriteFailed? { return Unsaved; }
      if !running {
        var ok := RebuildSwarm(env);
        if ok { return Committed; }
        end := Undo(previous, None, env);
        return;
      }
      if swarm.None? || !env.build {
        end := Undo(previous, None, env);
        return;
      }
      swarm := Some(Answered(swarm.value, T.AddAgent(name, prompt), env.reply));
      if !env.reply.Accept? {
        end := Undo(previous, Some(name), env);
        return;
      }
      agents := agents + [name];
      controls := Register(controls, name);
      end := Committed;
    }

    method RemoveAgent(name: string, env: Env) returns (end: Ending)
      requires Distinct(console.routers)
      modifies this, console
      ensures (View(), end) == Edit(old(View()), T.RemoveAgent(name), env)
    {
      var previous := console.Snapshot();
      var known := swarm.Some? && name in swarm.value.workers;
      var removed := console.RemoveWorker(name, env.write);
      if removed.Refused? { return Ending.Refused(removed.reason); }
      if removed.WriteFailed? { return Unsaved; }
      if !running {
        var ok := RebuildSwarm(env);
        if ok { return Committed; }
        end := Undo(previous, None, env);
        return;
      }
      if swarm.None? {
        end := Undo(previous, None, env);
        return;
      }
      swarm := Some(Answered(swarm.value, T.RemoveAgent(name), env.reply));
      if !env.reply.Accept? {
        end := Undo(previous, None, env);
        return;
      }
      if known { agents := T.Without(agents, name); }
      controls := Forget(controls, name);
      end := Committed;
    }

    /** `_mutate` with the console mutator chosen by the edit. */
    method Mutate(e: T.Edit, env: Env) returns (end: Ending)
      requires !e.AddAgent? && !e.RemoveAgent?
      modifies this, console
      ensures (View(), end) == Edit(old(View()), e, env)
    {
      var previous := console.Snapshot();
      var changed: Outcome;
      match e {
        case Connect(source, target) => changed := console.AddConnection(source, target, env.write);
        case Disconnect(source, target) => changed := console.RemoveConnection(source, target, env.write);
        case MapWith(agent, mode) => changed := console.SetMapper(agent, mode, env.write);
        case RouteTo(agent, targets) => changed := console.SetRouter(agent, targets, env.write);
      }
      if changed.Refused? { return Ending.Refused(changed.reason); }
      if changed.WriteFailed? { return Unsaved; }
      if !running {
        var ok := RebuildSwarm(env);
        if ok { return Committed; }
        end := Undo(previous, None, env);
        return;
      }
      if swarm.None? {
        end := Undo(previous, None, env);
        return;
      }
      swarm := Some(Answered(swarm.value, e, env.reply));
      if env.reply.Accept? { return Committed; }
      end := Undo(previous, None, env);
    }

    /** `dispatch_agent` with the tool layer's callback: dispatch, then bind the plan leaf. */
    method DispatchAgent(name: string, prompt: string, binding: Option<Binding>, env: Env) returns (end: Ending)
      requires Distinct(console.plans)
      modifies this, console
      ensures (View(), end) == Dispatch(old(View()), name, prompt, binding, env)
    {
      var previous := console.Snapshot();
      var added := console.AddWorker(name, prompt, env.write);
      if added.Refused? { return Ending.Refused(added.reason); }
      if added.WriteFailed? { return Unsaved; }
      if !running || !env.build {
        end := Undo(previous, None, env);
        return;
      }
      if swarm.None? {
        end := Undo(previous, Some(name), env);
        return;
      }
      swarm := Some(Answered(swarm.value, T.AddAgent(name, prompt), env.reply));
      if !env.reply.Accept? {
        end := Undo(previous, Some(name), env);
        return;
      }
      if binding.Some? {
        var bound := console.BindExecution(binding.value.task, binding.value.assignment, binding.value.now,
                                           binding.value.write);
        if !bound.Done? {
          end := Undo(previous, Some(name), env);
          return;
        }
      }
      agents := agents + [name];
      controls := Register(controls, name);
      end := Committed;
    }
  }

  /** The calls a rebuild makes: workers, connections, mappers and routers, each in order. */
  ghost predicate StepsOf(b: Blueprint, steps: seq<T.Edit>) {
    && |steps| == |b.workers| + |b.connections| + |b.mappers| + |b.routers|
    && (forall i :: 0 <= i < |b.workers| ==> steps[i] == T.AddAgent(b.workers[i].0, b.workers[i].1.systemPrompt))
    && (forall i :: 0 <= i < |b.connections| ==>
          steps[|b.workers| + i] == T.Connect(b.connections[i].source, b.connections[i].target))
    && (forall i :: 0 <= i < |b.mappers| ==>
          steps[|b.workers| + |b.connections| + i] == T.MapWith(b.mappers[i].0, b.mappers[i].1))
    && (forall i :: 0 <= i < |b.routers| ==>
          steps[|b.workers| + |b.connections| + |b.mappers| + i] == T.RouteTo(b.routers[i].0, b.routers[i].1))
  }

  lemma BuildStepsAre(b: Blueprint)
    ensures StepsOf(b, BuildSteps(b))
  {
  }

  /** The loops of `rebuild_swarm` over workers, connections, mappers and routers. */
  method FreshSwarm(b: Blueprint, replies: nat -> Reply) returns (g: Option<LiveGraph>, names: seq<string>)
    ensures g == Built(BuildSteps(b), replies)
    ensures g.Some? ==> names == [COORDINATOR] + Names(b.workers)
  {
    BuildStepsAre(b);
    g, names := Replayed(b, BuildSteps(b), replies);
  }

  method Replayed(b: Blueprint, ghost steps: seq<T.Edit>, replies: nat -> Reply)
      returns (g: Option<LiveGraph>, names: seq<string>)
    requires StepsOf(b, steps)
    ensures g == Built(steps, replies)
    ensures g.Some? ==> names == [COORDINATOR] + Names(b.workers)
  {
    NothingReached(steps, replies);
    var ok, graph;
    ok, graph, names := AddAll(b, steps, NO_GRAPH, replies);
    if ok { ok, graph := ConnectAll(b, steps, graph, replies); }
    if ok { ok, graph := MapAll(b, steps, graph, replies); }
    if ok { ok, graph := RouteAll(b, steps, graph, replies); }
    if !ok { return None, names; }
    AllReached(steps, graph, replies);
    g := Some(graph);
  }

  method AddAll(b: Blueprint, ghost steps: seq<T.Edit>, start: LiveGraph, replies: nat -> Reply)
      returns (ok: bool, g: LiveGraph, names: seq<string>)
    requires StepsOf(b, steps) && Reached(steps, 0, start, replies)
    ensures if ok then Reached(steps, |b.workers|, g, replies) else Built(steps, replies).None?
    ensures ok ==> names == [COORDINATOR] + Names(b.workers)
  {
    ok, g, names := true, start, [COORDINATOR];
    for i := 0 to |b.workers|
      invariant ok && Reached(steps, i, g, replies) && names == [COORDINATOR] + Names(b.workers)[..i]
    {
      var (name, worker) := b.workers[i];
      ok, g := Try(steps, i, T.AddAgent(name, worker.systemPrompt), g, replies);
      if !ok { return; }
      names := names + [name];
    }
    assert Names(b.workers)[..|b.workers|] == Names(b.workers);
  }

  method ConnectAll(b: Blueprint, ghost steps: seq<T.Edit>, start: LiveGraph, replies: nat -> Reply)
      returns (ok: bool, g: LiveGraph)
    requires StepsOf(b, steps) && Reached(steps, |b.workers|, start, replies)
    ensures if ok then Reached(steps, |b.workers| + |b.connections|, g, replies) else Built(steps, replies).None?
  {
    ok, g := true, start;
    for i := 0 to |b.connections|
      invariant ok && Reached(steps, |b.workers| + i, g, replies)
    {
      ok, g := Try(steps, |b.workers| + i, T.Connect(b.connections[i].source, b.connections[i].target), g, replies);
      if !ok { return; }
    }
  }

  method MapAll(b: Blueprint, ghost steps: seq<T.Edit>, start: LiveGraph, replies: nat -> Reply)
      returns (ok: bool, g: LiveGraph)
    requires StepsOf(b, steps) && Reached(steps, |b.workers| + |b.connections|, start, replies)
    ensures if ok then Reached(steps, |b.workers| + |b.connections| + |b.mappers|, g, replies)
            else Built(steps, replies).None?
  {
    ok, g := true, start;
    for i := 0 to |b.mappers|
      invariant ok && Reached(steps, |b.workers| + |b.connections| + i, g, replies)
    {
      ok, g := Try(steps, |b.workers| + |b.connections| + i, T.MapWith(b.mappers[i].0, b.mappers[i].1), g, replies);
      if !ok { return; }
    }
  }

  method RouteAll(b: Blueprint, ghost steps: seq<T.Edit>, start: LiveGraph, replies: nat -> Reply)
      returns (ok: bool, g: LiveGraph)
    requires StepsOf(b, steps) && Reached(steps, |b.workers| + |b.connections| + |b.mappers|, start, replies)
    ensures if ok then Reached(steps, |steps|, g, replies) else Built(steps, replies).None?
  {
    ok, g := true, start;
    for i := 0 to |b.routers|
      invariant ok && Reached(steps, |b.workers| + |b.connections| + |b.mappers| + i, g, replies)
    {
      var e := T.RouteTo(b.routers[i].0, b.routers[i].1);
      ok, g := Try(steps, |b.workers| + |b.connections| + |b.mappers| + i, e, g, replies);
      if !ok { return; }
    }
  }

  /** One call on the fresh graph: it is answered, or it raises and the rebuild is over. */
  method Try(ghost steps: seq<T.Edit>, n: nat, e: T.Edit, g: LiveGraph, replies: nat -> Reply)
      returns (ok: bool, after: LiveGraph)
    requires n < |steps| && steps[n] == e && Reached(steps, n, g, replies)
    ensures if ok then Reached(steps, n + 1, after, replies) else Built(steps, replies).None?
  {
    StepUp(steps, n, e, g, replies);
    ok, after := !replies(n).Raise?, Answered(g, e, replies(n));
  }

  /** The first n steps of a rebuild give this graph. */
  predicate Reached(steps: seq<T.Edit>, n: nat, g: LiveGraph, replies: nat -> Reply) {
    n <= |steps| && Built(steps[..n], replies) == Some(g)
  }

  lemma NothingReached(steps: seq<T.Edit>, replies: nat -> Reply)
    ensures Reached(steps, 0, NO_GRAPH, replies)
  {
    assert steps[..0] == [];
  }

  lemma AllReached(steps: seq<T.Edit>, g: LiveGraph, replies: nat -> Reply)
    requires Reached(steps, |steps|, g, replies)
    ensures Built(steps, replies) == Some(g)
  {
    assert steps[..|steps|] == steps;
  }

  lemma {:induction false} StepUp(steps: seq<T.Edit>, n: nat, e: T.Edit, g: LiveGraph, replies: nat -> Reply)
    requires n < |steps| && steps[n] == e && Reached(steps, n, g, replies)
    ensures !replies(n).Raise? ==> Reached(steps, n + 1, Answered(g, e, replies(n)), replies)
    ensures replies(n).Raise? ==> Built(steps, replies).None?
  {
    assert steps[..n + 1][..n] == steps[..n];
    if replies(n).Raise? { StaysNone(steps, n + 1, replies); }
  }

  lemma {:induction false} StaysNone(steps: seq<T.Edit>, n: nat, replies: nat -> Reply)
    requires n <= |steps| && Built(steps[..n], replies).None?
    ensures Built(steps, replies).None?
  {
    if n == |steps| {
      assert steps[..n] == steps;
    } else {
      assert steps[..|steps| - 1][..n] == steps[..n];
      StaysNone(steps[..|steps| - 1], n, replies);
    }
  }
}
