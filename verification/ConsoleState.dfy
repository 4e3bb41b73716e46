/** The durable console state of one session, edited in place and saved. */
module ConsoleStates {
  import opened Wrappers
  import opened Dicts
  import opened JsonValues
  import opened Blueprints
  import opened PlanTree
  import opened Plans
  import T = Topology

  /** How one call ends: saved, refused before any change, or changed in memory and not on disk. */
  datatype Outcome = Done | Refused(reason: DomainError) | WriteFailed

  /** A call that computes `spec`, keeps it in memory, and writes it when the disk answers. */
  predicate Lands(spec: Result<Blueprint, DomainError>, before: Blueprint, stored: Blueprint, write: bool,
                  out: Outcome, after: Blueprint, storedAfter: Blueprint) {
    match spec
    case Err(e) => out == Refused(e) && after == before && storedAfter == stored
    case Ok(b) =>
      after == b && if write then out == Done && storedAfter == b else out == WriteFailed && storedAfter == stored
  }

  function WithPlans(b: Blueprint, r: Planned<Dict<Plan>>): Result<Blueprint, DomainError> {
    match r
    case Ok(plans) => Ok(b.(plans := plans))
    case Err(e) => Err(e)
  }

  /** The elements of a set in some order. */
  method Elements(s: set<string>) returns (q: seq<string>)
    ensures forall x :: x in q <==> x in s
  {
    q := [];
    var rest := s;
    while rest != {}
      invariant rest <= s
      invariant forall x :: x in q <==> x in s - rest
      decreases rest
    {
      var x :| x in rest;
      q, rest := q + [x], rest - {x};
    }
  }

  class ConsoleState {
    var workers: Dict<Worker>
    var connections: seq<Edge>
    var mappers: Dict<string>
    var routers: Dict<seq<string>>
    var plans: Dict<Plan>
    var schemaVersion: int
    var disk: Blueprint

    /** `blueprint()`: an isolated snapshot. */
    function Snapshot(): Blueprint
      reads this
    {
      Blueprint(workers, connections, mappers, routers, plans, schemaVersion)
    }

    constructor ()
      ensures Snapshot() == EMPTY && disk == EMPTY
    {
      workers, connections, mappers, routers, plans := [], [], [], [], [];
      schemaVersion, disk := SCHEMA_VERSION, EMPTY;
    }

    method Save(write: bool) returns (out: Outcome)
      modifies this`disk
      ensures out == (if write then Done else WriteFailed)
      ensures disk == if write then Snapshot() else old(disk)
    {
      if !write { return WriteFailed; }
      disk := Snapshot();
      out := Done;
    }

    /** Restore a captured snapshot. */
    method Replace(blueprint: Blueprint, write: bool) returns (out: Outcome)
      modifies this
      ensures Lands(Ok(blueprint), old(Snapshot()), old(disk), write, out, Snapshot(), disk)
    {
      workers, connections, mappers := blueprint.workers, blueprint.connections, blueprint.mappers;
      routers, plans, schemaVersion := blueprint.routers, blueprint.plans, blueprint.schemaVersion;
      out := Save(write);
    }

    method AddWorker(name: string, prompt: string, write: bool) returns (out: Outcome)
      modifies this
      ensures Lands(T.AddWorker(old(Snapshot()), name, prompt), old(Snapshot()), old(disk), write, out,
                    Snapshot(), disk)
    {
      if !IsName(name) || name == COORDINATOR { return Refused(InvalidName); }
      if name in Keys(workers) { return Refused(AgentExists); }
      workers := Put(workers, name, Worker(name, prompt, "worker"));
      out := Save(write);
    }

    method RemoveWorker(name: string, write: bool) returns (out: Outcome)
      requires Distinct(routers)
      modifies this
      ensures Lands(T.RemoveWorker(old(Snapshot()), name), old(Snapshot()), old(disk), write, out, Snapshot(), disk)
    {
      if name == COORDINATOR { return Refused(CoordinatorFixed); }
      if name !in Keys(workers) { return Refused(UnknownAgent); }
      workers := Remove(workers, name);
      connections := T.WithoutNode(connections, name);
      mappers := Remove(mappers, name);
      routers := Remove(routers, name);
      var rows := routers;
      for i := 0 to |rows|
        invariant workers == old(Remove(workers, name)) && mappers == old(Remove(mappers, name))
        invariant connections == old(T.WithoutNode(connections, name))
        invariant plans == old(plans) && schemaVersion == old(schemaVersion) && disk == old(disk)
        invariant Distinct(routers) && |routers| == |rows|
        invariant forall k :: 0 <= k < i ==> routers[k] == (rows[k].0, T.Without(rows[k].1, name))
        invariant forall k :: i <= k < |rows| ==> routers[k] == rows[k]
      {
        var (source, targets) := rows[i];
        PutAt(routers, i, T.Without(targets, name));
        routers := Put(routers, source, T.Without(targets, name));
      }
      assert routers == T.Scrub(rows, name);
      out := Save(write);
    }

    /** Whether target already leads back to source, by depth-first search over the edges. */
    method Adjacency() returns (adjacency: map<string, set<string>>)
      ensures forall a, b :: a in adjacency && b in adjacency[a] <==> Edge(a, b) in connections
    {
      adjacency := map[];
      for i := 0 to |connections|
        invariant forall a, b :: a in adjacency && b in adjacency[a] <==> Edge(a, b) in connections[..i]
      {
        var e := connections[i];
        var known := if e.source in adjacency then adjacency[e.source] else {};
        adjacency := adjacency[e.source := known + {e.target}];
      }
      assert connections[..|connections|] == connections;
    }

    method LeadsBack(source: string, target: string) returns (cyclic: bool)
      ensures cyclic <==> T.Reaches(connections, target, source)
    {
      var adjacency := Adjacency();
      ghost var nodes := {target} + set i | 0 <= i < |connections| :: connections[i].target;
      var stack, seen: set<string> := [target], {};
      T.ReachesSelf(connections, target);
      while stack != []
        invariant forall x :: x in stack || x in seen ==> x in nodes && T.Reaches(connections, target, x)
        invariant target in stack || target in seen
        invariant source !in seen
        invariant forall e :: e in connections && e.source in seen ==> e.target in seen || e.target in stack
        decreases nodes - seen, |stack|
      {
        var current := stack[|stack| - 1];
        assert stack == stack[..|stack| - 1] + [current];
        stack := stack[..|stack| - 1];
        if current == source { return true; }
        if current !in seen {
          seen := seen + {current};
          var next := Elements(if current in adjacency then adjacency[current] else {});
          forall x | x in next ensures x in nodes && T.Reaches(connections, target, x) {
            assert Edge(current, x) in connections;
            T.ReachesStep(connections, target, current, x);
          }
          stack := stack + next;
        }
      }
      if T.Reaches(connections, target, source) {
        ghost var p :| T.IsPath(connections, p) && p[0] == target && p[|p| - 1] == source;
        T.ClosedHoldsPath(connections, seen, p);
      }
      cyclic := false;
    }

    method AddConnection(source: string, target: string, write: bool) returns (out: Outcome)
      modifies this
      ensures Lands(T.AddConnection(old(Snapshot()), source, target), old(Snapshot()), old(disk), write, out,
                    Snapshot(), disk)
    {
      var nodes := Nodes(Snapshot());
      if source !in nodes || target !in nodes { return Refused(UnknownEndpoint); }
      if source == target { return Refused(SelfLink); }
      var edge := Edge(source, target);
      if edge in connections { return Refused(ConnectionExists); }
      var cyclic := LeadsBack(source, target);
      if cyclic { return Refused(WouldCycle); }
      connections := connections + [edge];
      out := Save(write);
    }

    method RemoveConnection(source: string, target: string, write: bool) returns (out: Outcome)
      modifies this
      ensures Lands(T.RemoveConnection(old(Snapshot()), source, target), old(Snapshot()), old(disk), write, out,
                    Snapshot(), disk)
    {
      var edge := Edge(source, target);
      if edge !in connections { return Refused(ConnectionMissing); }
      connections := T.WithoutFirst(connections, edge);
      out := Save(write);
    }

    method SetMapper(agent: string, mode: string, write: bool) returns (out: Outcome)
      modifies this
      ensures Lands(T.SetMapper(old(Snapshot()), agent, mode), old(Snapshot()), old(disk), write, out, Snapshot(), disk)
    {
      if mode !in MAPPER_MODES { return Refused(InvalidMode); }
      if agent !in Nodes(Snapshot()) { return Refused(UnknownAgent); }
      mappers := Put(mappers, agent, mode);
      out := Save(write);
    }

    method SetRouter(agent: string, targets: seq<string>, write: bool) returns (out: Outcome)
      modifies this
      ensures Lands(T.SetRouter(old(Snapshot()), agent, targets), old(Snapshot()), old(disk), write, out,
                    Snapshot(), disk)
    {
      var nodes := Nodes(Snapshot());
      if agent !in nodes || exists i :: 0 <= i < |targets| && targets[i] !in nodes {
        return Refused(UnknownRouterAgent);
      }
      routers := Put(routers, agent, Dedup(targets));
      out := Save(write);
    }

    method SetPlan(h: Host, agent: string, goal: string, summary: string, tasks: Json, now: string, write: bool)
      returns (out: Outcome)
      modifies this
      ensures Lands(WithPlans(old(Snapshot()), Plans.SetPlan(h, old(plans), agent, goal, summary, tasks, now)),
                    old(Snapshot()), old(disk), write, out, Snapshot(), disk)
    {
      var checked := Plans.SetPlan(h, plans, agent, goal, summary, tasks, now);
      if checked.Err? { return Refused(checked.error); }
      plans := checked.value;
      out := Save(write);
    }

    method UpdateTaskStatus(agent: string, task: string, status: string, now: string, write: bool)
        returns (out: Outcome)
      modifies this
      ensures Lands(WithPlans(old(Snapshot()), UpdateTask(old(plans), agent, task, status, now)),
                    old(Snapshot()), old(disk), write, out, Snapshot(), disk)
    {
      var s := ParseStatus(status);
      if s.None? { return Refused(InvalidStatus); }
      var plan := Get(plans, agent);
      if plan.None? { return Refused(PlanMissing); }
      var walked := EditAll(plan.value.tasks, task, SetStatus(s.value));
      if walked.Err? { return Refused(walked.error); }
      var (tasks, found) := walked.value;
      if !found { return Refused(UnknownTask); }
      plans := Put(plans, agent, plan.value.(tasks := tasks, updatedAt := now));
      out := Save(write);
    }

    method BindExecution(task: string, assignment: string, now: string, write: bool) returns (out: Outcome)
      requires Distinct(plans)
      modifies this
      ensures Lands(WithPlans(old(Snapshot()), Bind(old(plans), task, assignment, now)),
                    old(Snapshot()), old(disk), write, out, Snapshot(), disk)
    {
      if PyText.Strip(assignment) == "" { return Refused(AssignmentRequired); }
      var i := Owner(task);
      if i == |plans| { return Refused(UnknownTask); }
      var (owner, plan) := plans[i];
      BindIs(plans, task, assignment, now, i);
      var walked := EditAll(plan.tasks, task, BindTo(assignment, now));
      if walked.Err? { return Refused(walked.error); }
      plans := Put(plans, owner, plan.(tasks := walked.value.0, updatedAt := now));
      out := Save(write);
    }

    /** The search of `bind_execution` for the first plan that holds the task. */
    method Owner(task: string) returns (i: nat)
      ensures i == OwnerOf(plans, task)
    {
      i := 0;
      while i < |plans| && FindTask(plans[i].1.tasks, task).None?
        invariant 0 <= i <= |plans|
        invariant forall k :: 0 <= k < i ==> task !in Ids(plans[k].1.tasks)
      {
        i := i + 1;
      }
      OwnerIs(plans, task, i);
    }

    /** A report no plan listens to neither changes nor writes anything. */
    method UpdateAssignmentStatus(assignment: string, status: string, now: string, write: bool) returns (out: Outcome)
      requires Distinct(plans)
      modifies this
      ensures ParseStatus(status).Some?
        && ReportedPlan(old(plans), assignment, ParseStatus(status).value, now) == |old(plans)|
        ==> out == Done && Snapshot() == old(Snapshot()) && disk == old(disk)
      ensures ParseStatus(status).None?
        || ReportedPlan(old(plans), assignment, ParseStatus(status).value, now) < |old(plans)|
        ==> Lands(WithPlans(old(Snapshot()), UpdateAssignment(old(plans), assignment, status, now)),
                  old(Snapshot()), old(disk), write, out, Snapshot(), disk)
    {
      var s := ParseStatus(status);
      if s.None? { return Refused(InvalidStatus); }
      for i := 0 to |plans|
        invariant plans == old(plans) && Snapshot() == old(Snapshot()) && disk == old(disk)
        invariant forall k :: 0 <= k < i ==> !ReportAll(plans[k].1.tasks, assignment, s.value, now).1
      {
        var (owner, plan) := plans[i];
        var (tasks, changed) := ReportAll(plan.tasks, assignment, s.value, now);
        if changed {
          ReportedIs(plans, assignment, s.value, now, i);
          PutAt(plans, i, plan.(tasks := tasks, updatedAt := now));
          plans := Put(plans, owner, plan.(tasks := tasks, updatedAt := now));
          out := Save(write);
          return;
        }
      }
      ReportedIs(plans, assignment, s.value, now, |plans|);
      out := Done;
    }

    method HasTask(task: string) returns (found: bool)
      ensures found <==> exists i :: 0 <= i < |plans| && task in Ids(plans[i].1.tasks)
    {
      for i := 0 to |plans|
        invariant forall k :: 0 <= k < i ==> task !in Ids(plans[k].1.tasks)
      {
        if FindTask(plans[i].1.tasks, task).Some? { return true; }
      }
      found := false;
    }

    method IsBindableLeaf(task: string) returns (found: bool)
      ensures found <==> Bindable(plans, task)
    {
      for i := 0 to |plans|
        invariant forall k :: 0 <= k < i ==> !FindsLeaf(plans[k].1.tasks, task)
      {
        var item := FindTask(plans[i].1.tasks, task);
        if item.Some? && item.value.subtasks == [] { return true; }
      }
      found := false;
    }
  }

  lemma {:induction false} OwnerIs(plans: Dict<Plan>, task: string, i: nat)
    requires i <= |plans| && (i < |plans| ==> task in Ids(plans[i].1.tasks))
    requires forall k :: 0 <= k < i ==> task !in Ids(plans[k].1.tasks)
    ensures OwnerOf(plans, task) == i
  {
  }

  lemma {:induction false} BindIs(plans: Dict<Plan>, task: string, assignment: string, now: string, i: nat)
    requires Distinct(plans) && i < |plans| && OwnerOf(plans, task) == i && PyText.Strip(assignment) != ""
    ensures var (owner, plan) := plans[i];
      var walked := EditAll(plan.tasks, task, BindTo(assignment, now));
      Bind(plans, task, assignment, now)
      == if walked.Err? then Err(walked.error)
         else Ok(Put(plans, owner, plan.(tasks := walked.value.0, updatedAt := now)))
  {
    var (_, plan) := plans[i];
    var walked := EditAll(plan.tasks, task, BindTo(assignment, now));
    if walked.Ok? { PutAt(plans, i, plan.(tasks := walked.value.0, updatedAt := now)); }
  }

  lemma {:induction false} ReportedIs(plans: Dict<Plan>, assignment: string, s: Status, now: string, i: nat)
    requires i <= |plans| && (i < |plans| ==> ReportAll(plans[i].1.tasks, assignment, s, now).1)
    requires forall k :: 0 <= k < i ==> !ReportAll(plans[k].1.tasks, assignment, s, now).1
    ensures ReportedPlan(plans, assignment, s, now) == i
  {
  }
}
