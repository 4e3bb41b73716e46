/** When a gateway edit commits. */
module GatewayCommits {
  import opened Wrappers
  import opened Blueprints
  import P = Plans
  import opened Gateway
  import opened GatewayProofs
  import T = Topology

  // ---- rebuilding -------------------------------------------------------------

  predicate NoneRaises(n: nat, replies: nat -> Reply) { forall i :: 0 <= i < n ==> !replies(i).Raise? }

  lemma {:induction false} BuiltExactlyWhen(steps: seq<T.Edit>, replies: nat -> Reply)
    ensures Built(steps, replies).Some? <==> NoneRaises(|steps|, replies)
  {
    if steps != [] { BuiltExactlyWhen(steps[..|steps| - 1], replies); }
  }

  /** How many calls materialize a blueprint. */
  function StepCount(b: Blueprint): nat { |b.workers| + |b.connections| + |b.mappers| + |b.routers| }

  lemma StepsAreCounted(b: Blueprint)
    ensures |BuildSteps(b)| == StepCount(b)
  {
  }

  /** An idle session takes the edit: without a coordinator there is nothing to do, else the swarm can be set up
      and no call on the fresh one raises. */
  predicate IdleTakes(s: State, b: Blueprint, env: Env) {
    !s.coordinator || (env.setup && NoneRaises(StepCount(b), env.rebuild))
  }

  /** A running session takes it: there is a swarm, an added worker can be built, and the swarm accepts. */
  predicate LiveTakes(s: State, adds: bool, env: Env) {
    s.swarm.Some? && (adds ==> env.build) && env.reply.Accept?
  }

  // ---- edits ------------------------------------------------------------------

  ghost predicate Commits(s: State, e: T.Edit, env: Env) {
    && T.Apply(s.durable, e).Ok? && env.write
    && if s.running then LiveTakes(s, e.AddAgent?, env) else IdleTakes(s, T.Apply(s.durable, e).value, env)
  }

  lemma {:induction false} IdleEnds(s: State, previous: Blueprint, e: T.Edit, env: Env)
    requires !s.running
    ensures Propagate(s, previous, e, env).1 == Committed <==> IdleTakes(s, s.durable, env)
  {
    BuiltExactlyWhen(BuildSteps(s.durable), env.rebuild);
    StepsAreCounted(s.durable);
  }

  lemma {:induction false} LiveEnds(s: State, previous: Blueprint, e: T.Edit, env: Env)
    requires s.running
    ensures Propagate(s, previous, e, env).1 == Committed <==> LiveTakes(s, e.AddAgent?, env)
  {
  }

  /** An edit commits exactly when the console accepts it, it is written, and the session takes it. */
  lemma {:induction false} EditCommitsExactlyWhen(s: State, e: T.Edit, env: Env)
    ensures Edit(s, e, env).1 == Committed <==> Commits(s, e, env)
  {
    var r := T.Apply(s.durable, e);
    if r.Ok? && env.write {
      var written := s.(durable := r.value, disk := r.value);
      if s.running { LiveEnds(written, s.durable, e, env); } else { IdleEnds(written, s.durable, e, env); }
    }
  }

  /** Refusals and unwritten edits end as such, and everything else that does not commit is taken back. */
  lemma {:induction false} OtherEndings(s: State, e: T.Edit, env: Env)
    ensures var (after, end) := Edit(s, e, env); var r := T.Apply(s.durable, e);
      && (r.Err? ==> end == Refused(r.error) && after == s)
      && (r.Ok? && !env.write ==> end == Unsaved && after == s.(durable := r.value))
      && (r.Ok? && env.write && !Commits(s, e, env) ==>
            && (end == RolledBack || end == RollbackFailed) && (end == RolledBack ==> env.restore)
            && after.durable == s.durable && after.disk == (if env.restore then s.durable else r.value))
  {
    EditCommitsExactlyWhen(s, e, env);
  }

  /** Which agents and stop controls a committed live edit leaves. */
  ghost predicate AgentsFollow(s: State, e: T.Edit, after: State) {
    match e
    case AddAgent(n, _) =>
      && after.agents == s.agents + [n]
      && (after.controls == if s.controls.Some? then Some(s.controls.value + {n}) else None)
    case RemoveAgent(n) =>
      && n !in after.agents && (forall a :: a in after.agents <==> a in s.agents && a != n)
      && (after.controls == if s.controls.Some? then Some(s.controls.value - {n}) else None)
    case _ => after.agents == s.agents && after.controls == s.controls
  }

  /** After a committed live edit memory, disk and swarm hold the edited graph. */
  lemma {:induction false} CommittedLiveEditHolds(s: State, e: T.Edit, env: Env)
    requires T.Valid(s.durable) && Agrees(s) && s.running && Commits(s, e, env)
    ensures var after, b := Edit(s, e, env).0, T.Apply(s.durable, e).value;
      && after.durable == b && after.disk == b && after.swarm == Some(Live(b))
      && after.running && after.coordinator == s.coordinator && AgentsFollow(s, e, after)
  {
    var b := T.Apply(s.durable, e).value;
    MirrorMatches(s.durable, e);
    if e.RemoveAgent? { LiveRemovalAgents(s, e.name, env); }
  }

  lemma {:induction false} LiveRemovalAgents(s: State, n: string, env: Env)
    requires T.Valid(s.durable) && Agrees(s) && s.running && Commits(s, T.RemoveAgent(n), env)
    ensures AgentsFollow(s, T.RemoveAgent(n), Edit(s, T.RemoveAgent(n), env).0)
  {
    T.WithoutFacts(s.agents, n);
    NamesKeys(s.durable.workers, n);
  }

  /** After a committed idle edit memory and disk hold it; with a coordinator the swarm is rebuilt for its
      agents, and runs the edited graph when no call was silently dropped. */
  lemma {:induction false} CommittedIdleEditHolds(s: State, e: T.Edit, env: Env)
    requires T.Valid(s.durable) && !s.running && Commits(s, e, env)
    ensures var after, b := Edit(s, e, env).0, T.Apply(s.durable, e).value;
      && after.durable == b && after.disk == b && after.controls == s.controls && !after.running
      && (!s.coordinator ==> after.swarm == s.swarm && after.agents == s.agents)
      && (s.coordinator ==> after.swarm.Some? && after.agents == [COORDINATOR] + Names(b.workers))
      && (s.coordinator && (forall i :: 0 <= i < StepCount(b) ==> Applied(env.rebuild(i))) ==>
            after.swarm == Some(Live(b)))
  {
    var b := T.Apply(s.durable, e).value;
    T.ApplyKeepsValid(s.durable, e);
    BuiltExactlyWhen(BuildSteps(b), env.rebuild);
    StepsAreCounted(b);
    if s.coordinator { BuiltIsLiveExactlyWhen(b, env.rebuild); }
  }

  // ---- dispatches -------------------------------------------------------------

  /** The plan leaf a dispatch names is bound, and the binding written. */
  predicate BindingTakes(b: Blueprint, binding: Option<Binding>) {
    binding.Some? ==>
      P.Bind(b.plans, binding.value.task, binding.value.assignment, binding.value.now).Ok? && binding.value.write
  }

  ghost predicate DispatchCommits(s: State, name: string, prompt: string, binding: Option<Binding>, env: Env) {
    && T.AddWorker(s.durable, name, prompt).Ok? && env.write
    && s.running && LiveTakes(s, true, env) && BindingTakes(s.durable, binding)
  }

  /** A dispatch commits exactly when the worker is accepted and written, a running swarm takes it, and the
      plan leaf, if one is named, is bound and written. */
  lemma {:induction false} DispatchCommitsExactlyWhen(s: State, name: string, prompt: string,
                                                      binding: Option<Binding>, env: Env)
    ensures Dispatch(s, name, prompt, binding, env).1 == Committed <==>
      DispatchCommits(s, name, prompt, binding, env)
  {
  }

  lemma {:induction false} OtherDispatchEndings(s: State, name: string, prompt: string, binding: Option<Binding>,
                                                env: Env)
    ensures var (after, end) := Dispatch(s, name, prompt, binding, env); var r := T.AddWorker(s.durable, name, prompt);
      && (r.Err? ==> end == Refused(r.error) && after == s)
      && (r.Ok? && !env.write ==> end == Unsaved && after == s.(durable := r.value))
      && (r.Ok? && env.write && !DispatchCommits(s, name, prompt, binding, env) ==>
            && (end == RolledBack || end == RollbackFailed) && (end == RolledBack ==> env.restore)
            && after.durable == s.durable && (env.restore ==> after.disk == s.durable))
  {
  }

  /** After a committed dispatch memory and disk hold the worker and the bound plans, and the swarm runs it. */
  lemma {:induction false} CommittedDispatchHolds(s: State, name: string, prompt: string,
                                                  binding: Option<Binding>, env: Env)
    requires T.Valid(s.durable) && Agrees(s) && DispatchCommits(s, name, prompt, binding, env)
    ensures var after, added := Dispatch(s, name, prompt, binding, env).0, T.AddWorker(s.durable, name, prompt).value;
      var q := binding;
      && after.durable == (if q.None? then added
           else added.(plans := P.Bind(s.durable.plans, q.value.task, q.value.assignment, q.value.now).value))
      && after.disk == after.durable && after.swarm == Some(Live(after.durable))
      && AgentsFollow(s, T.AddAgent(name, prompt), after)
  {
    var added := T.AddWorker(s.durable, name, prompt).value;
    MirrorMatches(s.durable, T.AddAgent(name, prompt));
    assert T.Apply(s.durable, T.AddAgent(name, prompt)) == Ok(added);
    assert added.plans == s.durable.plans;
  }
}
