/** The single write path combining the durable blueprint with the live swarm. */
module Gateway {
  import opened Wrappers
  import opened Dicts
  import opened Blueprints
  import opened Plans
  import T = Topology

  /** The live swarm as the graph it runs. */
  datatype LiveGraph = LiveGraph(workers: seq<string>, edges: seq<Edge>, mappers: Dict<string>,
                                 routers: Dict<seq<string>>)

  /** Answer to one live call. Failures are an "Error:" text or an exception; `applied` says
      whether the change happened all the same. */
  datatype Reply = Accept | ErrorText(applied: bool) | Raise(applied: bool)

  datatype State = State(
    durable: Blueprint, disk: Blueprint, swarm: Option<LiveGraph>, agents: seq<string>,
    controls: Option<set<string>>, running: bool, coordinator: bool)

  /** Everything the outside world answers during one gateway call. */
  datatype Env = Env(
    write: bool,             // the state file takes the edit
    restore: bool,           // the state file takes the rollback
    setup: bool,             // profile, connector and coordinator are available to a rebuild
    build: bool,             // the runtime worker can be built
    reply: Reply,            // live swarm on the mirrored edit
    cleanup: Reply,          // live swarm on the removal that undoes an add
    rebuild: nat -> Reply)   // live swarm on each step of a rebuild

  datatype Ending =
    | Refused(reason: DomainError) // nothing was touched
    | Unsaved                      // the state file refused the edit
    | Committed
    | RolledBack
    | RollbackFailed

  // ---- the live graph ---------------------------------------------------------

  function Names(workers: Dict<Worker>): (r: seq<string>)
    ensures |r| == |workers|
  {
    seq(|workers|, i requires 0 <= i < |workers| => workers[i].0)
  }

  function Live(b: Blueprint): LiveGraph {
    LiveGraph(Names(b.workers), b.connections, b.mappers, b.routers)
  }

  const NO_GRAPH := LiveGraph([], [], [], [])

  /** The same edit on the live graph; a router keeps each target once. */
  function Mirror(g: LiveGraph, e: T.Edit): LiveGraph {
    match e
    case AddAgent(n, _) => g.(workers := g.workers + [n])
    case RemoveAgent(n) =>
      LiveGraph(T.Without(g.workers, n), T.WithoutNode(g.edges, n), Remove(g.mappers, n),
                T.Scrub(Remove(g.routers, n), n))
    case Connect(s, t) => g.(edges := g.edges + [Edge(s, t)])
    case Disconnect(s, t) => g.(edges := T.WithoutFirst(g.edges, Edge(s, t)))
    case MapWith(a, m) => g.(mappers := Put(g.mappers, a, m))
    case RouteTo(a, ts) => g.(routers := Put(g.routers, a, Dedup(ts)))
  }

  predicate Applied(r: Reply) {
    r.Accept? || r.applied
  }

  function Answered(g: LiveGraph, e: T.Edit, r: Reply): LiveGraph {
    if Applied(r) then Mirror(g, e) else g
  }

  // ---- rebuild_swarm ----------------------------------------------------------

  function AddSteps(ws: Dict<Worker>): seq<T.Edit> {
    seq(|ws|, i requires 0 <= i < |ws| => T.AddAgent(ws[i].0, ws[i].1.systemPrompt))
  }

  function ConnectSteps(es: seq<Edge>): seq<T.Edit> {
    seq(|es|, i requires 0 <= i < |es| => T.Connect(es[i].source, es[i].target))
  }

  function MapSteps(ms: Dict<string>): seq<T.Edit> {
    seq(|ms|, i requires 0 <= i < |ms| => T.MapWith(ms[i].0, ms[i].1))
  }

  function RouteSteps(rs: Dict<seq<string>>): seq<T.Edit> {
    seq(|rs|, i requires 0 <= i < |rs| => T.RouteTo(rs[i].0, rs[i].1))
  }

  /** The calls that materialize a blueprint into a fresh swarm, in order. */
  function BuildSteps(b: Blueprint): seq<T.Edit> {
    AddSteps(b.workers) + ConnectSteps(b.connections) + MapSteps(b.mappers) + RouteSteps(b.routers)
  }

  /** Error texts are ignored here; only an exception abandons the new swarm. */
  function Built(steps: seq<T.Edit>, replies: nat -> Reply): Option<LiveGraph> {
    if steps == [] then Some(NO_GRAPH)
    else
      var last := |steps| - 1;
      var g := Built(steps[..last], replies);
      if g.None? || replies(last).Raise? then None
      else Some(Answered(g.value, steps[last], replies(last)))
  }

  /** None when an exception escapes; without a coordinator nothing happens. */
  function Materialize(s: State, env: Env): Option<State> {
    if !s.coordinator then Some(s)
    else if !env.setup then None
    else
      var g := Built(BuildSteps(s.durable), env.rebuild);
      if g.None? then None
      else Some(s.(swarm := g, agents := [COORDINATOR] + Names(s.durable.workers)))
  }

  // ---- the edits --------------------------------------------------------------

  /** Put the earlier snapshot back; the undo of a live add runs whatever the disk said. */
  function RollBack(s: State, previous: Blueprint, undo: Option<string>, env: Env): (State, Ending) {
    var restored := s.(durable := previous, disk := if env.restore then previous else s.disk);
    if undo.Some? && s.swarm.Some? then
      (restored.(swarm := Some(Answered(s.swarm.value, T.RemoveAgent(undo.value), env.cleanup))),
       if env.restore && !env.cleanup.Raise? then RolledBack else RollbackFailed)
    else (restored, if env.restore then RolledBack else RollbackFailed)
  }

  function Register(controls: Option<set<string>>, name: string): Option<set<string>> {
    if controls.Some? then Some(controls.value + {name}) else None
  }

  function Forget(controls: Option<set<string>>, name: string): Option<set<string>> {
    if controls.Some? then Some(controls.value - {name}) else None
  }

  /** After the blueprint is saved: mirror the edit to a running swarm, or rebuild an idle one. */
  function Propagate(s: State, previous: Blueprint, e: T.Edit, env: Env): (State, Ending) {
    if !s.running then
      var rebuilt := Materialize(s, env);
      if rebuilt.Some? then (rebuilt.value, Committed) else RollBack(s, previous, None, env)
    else if s.swarm.None? then RollBack(s, previous, None, env)
    else if e.AddAgent? && !env.build then RollBack(s, previous, None, env)
    else
      var mirrored := s.(swarm := Some(Answered(s.swarm.value, e, env.reply)));
      if !env.reply.Accept? then
        RollBack(mirrored, previous, if e.AddAgent? then Some(e.name) else None, env)
      else match e
        case AddAgent(name, _) =>
          (mirrored.(agents := s.agents + [name], controls := Register(s.controls, name)), Committed)
        case RemoveAgent(name) =>
          (mirrored.(agents := if name in s.swarm.value.workers then T.Without(s.agents, name) else s.agents,
                     controls := Forget(s.controls, name)), Committed)
        case _ => (mirrored, Committed)
  }

  /** `add_agent`, `remove_agent` and `_mutate`. */
  ghost function Edit(s: State, e: T.Edit, env: Env): (State, Ending) {
    match T.Apply(s.durable, e)
    case Err(reason) => (s, Refused(reason))
    case Ok(b) =>
      if !env.write then (s.(durable := b), Unsaved)
      else Propagate(s.(durable := b, disk := b), s.durable, e, env)
  }

  /** The plan leaf a dispatched worker is bound to, with the answer of the disk to that write. */
  datatype Binding = Binding(task: string, assignment: string, now: string, write: bool)

  /** `dispatch_agent`: durable add, live dispatch of the new worker, optional plan binding. */
  ghost function Dispatch(s: State, name: string, prompt: string, binding: Option<Binding>, env: Env): (State, Ending) {
    match T.AddWorker(s.durable, name, prompt)
    case Err(reason) => (s, Refused(reason))
    case Ok(b) =>
      if !env.write then (s.(durable := b), Unsaved)
      else DispatchLive(s.(durable := b, disk := b), s.durable, name, prompt, binding, env)
  }

  function DispatchLive(s: State, previous: Blueprint, name: string, prompt: string, binding: Option<Binding>,
                        env: Env): (State, Ending) {
    if !s.running || !env.build then RollBack(s, previous, None, env)
    else if s.swarm.None? then RollBack(s, previous, Some(name), env)
    else
      var sent := s.(swarm := Some(Answered(s.swarm.value, T.AddAgent(name, prompt), env.reply)));
      if !env.reply.Accept? then RollBack(sent, previous, Some(name), env)
      else
        var bound := BindDispatched(sent, binding);
        if !bound.1 then RollBack(bound.0, previous, Some(name), env)
        else (bound.0.(agents := s.agents + [name], controls := Register(s.controls, name)), Committed)
  }

  function BindDispatched(s: State, binding: Option<Binding>): (State, bool) {
    if binding.None? then (s, true)
    else match Bind(s.durable.plans, binding.value.task, binding.value.assignment, binding.value.now)
      case Err(_) => (s, false)
      case Ok(plans) =>
        var b := s.durable.(plans := plans);
        (s.(durable := b, disk := if binding.value.write then b else s.disk), binding.value.write)
  }
}
