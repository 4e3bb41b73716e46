/** Steering queues and stop requests of running agents. */
module Steering {
  import opened Wrappers
  import opened PyText
  import opened Names

  datatype Instruction = Instruction(message: string, id: string)

  datatype Stop = Stop(force: bool, reason: string)

  /** What one agent has drained, what it will drain next, and its own stop request. */
  datatype Box = Box(drained: seq<Instruction>, pending: seq<Instruction>, stop: Option<Stop>)

  const NEW_BOX := Box([], [], None)

  type Boxes = map<string, Box>

  datatype ControlError = EmptyMessage | UnknownAgent

  const ALL := "all"

  /** A stop request stays; only force replaces a graceful one. */
  function Latched(current: Option<Stop>, s: Stop): Option<Stop> {
    if current.None? || (s.force && !current.value.force) then Some(s) else current
  }

  /** The effective request of an agent: force from either side wins, then global, then local. */
  function Effective(global_: Option<Stop>, own: Option<Stop>): Option<Stop> {
    if global_.Some? && global_.value.force then global_
    else if own.Some? && own.value.force then own
    else if global_.Some? then global_
    else own
  }

  // ---- the registry as values -------------------------------------------------

  function Registered(boxes: Boxes, agent: string): Boxes {
    if agent in boxes then boxes else boxes[agent := NEW_BOX]
  }

  function Queued(b: Box, s: Instruction): Box { b.(pending := b.pending + [s]) }

  /** The agents a submission reaches, fixed when it is made. */
  function Recipients(boxes: Boxes, target: string): set<string> {
    if target == ALL then boxes.Keys else {target} * boxes.Keys
  }

  function Refusal(boxes: Boxes, target: string, message: string): Option<ControlError> {
    if Strip(message) == "" then Some(EmptyMessage)
    else if target != ALL && target !in boxes then Some(UnknownAgent)
    else None
  }

  function Submitted(boxes: Boxes, target: string, s: Instruction): Boxes {
    map a | a in boxes :: if a in Recipients(boxes, target) then Queued(boxes[a], s) else boxes[a]
  }

  function Drained(boxes: Boxes, agent: string): Boxes {
    if agent !in boxes then boxes
    else boxes[agent := boxes[agent].(drained := boxes[agent].drained + boxes[agent].pending, pending := [])]
  }

  function Stopped(boxes: Boxes, agent: string, s: Stop): Boxes {
    if agent !in boxes then boxes else boxes[agent := boxes[agent].(stop := Latched(boxes[agent].stop, s))]
  }

  // ---- the objects ------------------------------------------------------------

  class AgentView {
    var pending: seq<Instruction>
    var stop: Option<Stop>
    ghost var drained: seq<Instruction>

    constructor ()
      ensures Contents() == NEW_BOX
    {
      pending, stop, drained := [], None, [];
    }

    ghost function Contents(): Box
      reads this
    {
      Box(drained, pending, stop)
    }

    method Steer(message: string, id: string)
      modifies this
      ensures Contents() == Queued(old(Contents()), Instruction(message, id))
    {
      pending := pending + [Instruction(message, id)];
    }

    /** Pending instructions in the order they were queued. */
    method DrainSteers() returns (out: seq<Instruction>)
      modifies this
      ensures out == old(pending)
      ensures Contents() == old(Contents()).(drained := old(drained) + out, pending := [])
    {
      out, drained, pending := pending, drained + pending, [];
    }

    method RequestStop(s: Stop)
      modifies this
      ensures Contents() == old(Contents()).(stop := Latched(old(stop), s))
    {
      stop := Latched(stop, s);
    }
  }

  class SessionRunControl {
    var agents: map<string, AgentView>
    var globalStop: Option<Stop>

    ghost predicate Valid()
      reads this
    {
      forall a, b :: a in agents && b in agents && a != b ==> agents[a] != agents[b]
    }

    ghost function Model(): Boxes
      reads this, agents.Values
    {
      map a | a in agents :: agents[a].Contents()
    }

    constructor ()
      ensures Valid() && Model() == map[] && globalStop == None
    {
      agents, globalStop := map[], None;
    }

    method ForAgent(agent: string) returns (view: AgentView)
      requires Valid()
      modifies this`agents
      ensures Valid() && Model() == Registered(old(Model()), agent)
      ensures agent in agents && agents[agent] == view
      ensures forall a :: a in old(agents) ==> a in agents && agents[a] == old(agents)[a]
    {
      if agent in agents { return agents[agent]; }
      view := new AgentView();
      agents := agents[agent := view];
    }

    method ForgetAgent(agent: string)
      requires Valid()
      modifies this`agents
      ensures Valid() && Model() == old(Model()) - {agent}
    {
      agents := agents - {agent};
    }

    /** Polling an agent that is not registered registers it. */
    method ShouldStop(agent: string) returns (stop: bool)
      requires Valid()
      modifies this`agents
      ensures Valid() && globalStop == old(globalStop)
      ensures agent == ALL ==> Model() == old(Model()) && stop == globalStop.Some?
      ensures agent != ALL ==> Model() == Registered(old(Model()), agent)
      ensures agent != ALL ==> stop == Effective(globalStop, Model()[agent].stop).Some?
    {
      if agent == ALL { return globalStop.Some?; }
      var view := ForAgent(agent);
      stop := Effective(globalStop, view.stop).Some?;
    }

    method Steer(target: string, message: string, id: string) returns (r: Result<seq<string>, ControlError>)
      requires Valid()
      modifies agents.Values
      ensures Valid() && agents == old(agents)
      ensures Refusal(old(Model()), target, message).Some? ==>
        r == Err(Refusal(old(Model()), target, message).value) && Model() == old(Model())
      ensures Refusal(old(Model()), target, message).None? ==>
        && r.Ok? && Ascending(r.value) && (forall a :: a in r.value <==> a in Recipients(old(Model()), target))
        && Model() == Submitted(old(Model()), target, Instruction(message, id))
    {
      if Strip(message) == "" { return Err(EmptyMessage); }
      if target != ALL {
        if target !in agents { return Err(UnknownAgent); }
        Deliver(target, message, id);
        return Ok([target]);
      }
      var targets := SortedNames(agents.Keys);
      Broadcast(targets, message, id);
      r := Ok(targets);
    }

    method Deliver(target: string, message: string, id: string)
      requires Valid() && target in agents && target != ALL
      modifies agents.Values
      ensures Valid() && agents == old(agents)
      ensures Model() == Submitted(old(Model()), target, Instruction(message, id))
    {
      agents[target].Steer(message, id);
    }

    /** One instruction to every registered agent. */
    method Broadcast(targets: seq<string>, message: string, id: string)
      requires Valid() && Ascending(targets) && forall a :: a in targets <==> a in agents
      modifies agents.Values
      ensures Valid() && agents == old(agents)
      ensures Model() == Submitted(old(Model()), ALL, Instruction(message, id))
    {
      for i := 0 to |targets|
        invariant agents == old(agents) && Valid()
        invariant forall a :: a in targets[..i] ==>
          agents[a].Contents() == Queued(old(agents[a].Contents()), Instruction(message, id))
        invariant forall a :: a in agents && a !in targets[..i] ==> agents[a].Contents() == old(agents[a].Contents())
      {
        assert targets[i] in targets;
        AscendingIsFresh(targets, i);
        assert targets[..i + 1] == targets[..i] + [targets[i]];
        agents[targets[i]].Steer(message, id);
      }
      assert targets[..|targets|] == targets;
    }

    method Stop(target: string, s: Stop) returns (r: Result<seq<string>, ControlError>)
      requires Valid()
      modifies this`globalStop, agents.Values
      ensures Valid() && agents == old(agents)
      ensures target == ALL ==> globalStop == Latched(old(globalStop), s) && Model() == old(Model())
      ensures target != ALL ==> globalStop == old(globalStop) && Model() == Stopped(old(Model()), target, s)
      ensures r.Err? <==> target != ALL && target !in agents
      ensures r.Ok? ==> Ascending(r.value) && forall a :: a in r.value <==> a in Recipients(old(Model()), target)
    {
      if target == ALL {
        globalStop := Latched(globalStop, s);
        var names := SortedNames(agents.Keys);
        return Ok(names);
      }
      if target !in agents { return Err(UnknownAgent); }
      agents[target].RequestStop(s);
      r := Ok([target]);
    }

    /** A registered agent reads its queue. */
    method Drain(agent: string) returns (out: seq<Instruction>)
      requires Valid() && agent in agents
      modifies agents[agent]
      ensures Valid() && agents == old(agents)
      ensures out == old(Model())[agent].pending && Model() == Drained(old(Model()), agent)
    {
      out := agents[agent].DrainSteers();
    }
  }

  // ---- whole runs -------------------------------------------------------------

  datatype Event =
    | Enter(agent: string)                                // for_agent, and every poll of one agent
    | Leave(agent: string)
    | Submit(target: string, message: string, id: string)
    | Read(agent: string)
    | Halt(agent: string, stop: Stop)

  function Next(boxes: Boxes, e: Event): Boxes {
    match e
    case Enter(a) => Registered(boxes, a)
    case Leave(a) => boxes - {a}
    case Submit(target, message, id) =>
      if Refusal(boxes, target, message).Some? then boxes else Submitted(boxes, target, Instruction(message, id))
    case Read(a) => Drained(boxes, a)
    case Halt(a, s) => Stopped(boxes, a, s)
  }

  function Run(events: seq<Event>): Boxes {
    if events == [] then map[] else Next(Run(events[..|events| - 1]), events[|events| - 1])
  }

  /** The agent has entered and not left since. */
  predicate Present(events: seq<Event>, agent: string) {
    events != [] &&
    (var last, init := events[|events| - 1], events[..|events| - 1];
     if last == Enter(agent) then true
     else if last == Leave(agent) then false
     else Present(init, agent))
  }

  /** The submission is accepted and its recipient snapshot holds the agent. */
  predicate Reaches(before: seq<Event>, e: Event, agent: string) {
    e.Submit? && Strip(e.message) != "" && Present(before, agent) && (e.target == ALL || e.target == agent)
  }

  /** The submissions meant for the agent since it entered, in order. */
  function Addressed(events: seq<Event>, agent: string): seq<Instruction> {
    if events == [] then []
    else
      var last, init := events[|events| - 1], events[..|events| - 1];
      if last == Leave(agent) then []
      else if Reaches(init, last, agent) then Addressed(init, agent) + [Instruction(last.message, last.id)]
      else Addressed(init, agent)
  }

  /** What an agent drained, then what is pending, is exactly what was addressed to it since it entered. */
  lemma {:induction false} DeliveryIsExact(events: seq<Event>, agent: string)
    ensures agent in Run(events) <==> Present(events, agent)
    ensures agent in Run(events) ==> Run(events)[agent].drained + Run(events)[agent].pending == Addressed(events, agent)
    ensures agent !in Run(events) ==> Addressed(events, agent) == []
  {
    if events != [] {
      var last, init := events[|events| - 1], events[..|events| - 1];
      DeliveryIsExact(init, agent);
      var before := Run(init);
      if agent in before {
        var b := before[agent];
        assert b.drained + b.pending + [] == b.drained + b.pending;
        if last.Submit? {
          var s := Instruction(last.message, last.id);
          assert b.drained + (b.pending + [s]) == b.drained + b.pending + [s];
        }
      } else if last == Enter(agent) {
        assert Run(events)[agent] == NEW_BOX;
      }
    }
  }

  /** Force wins from either side, and an agent goes on only while nobody stopped it. */
  lemma ForceWins(global_: Option<Stop>, own: Option<Stop>)
    ensures Effective(global_, own).None? <==> global_.None? && own.None?
    ensures (Effective(global_, own).Some? && Effective(global_, own).value.force)
       <==> (global_.Some? && global_.value.force) || (own.Some? && own.value.force)
    ensures Effective(global_, own) in {global_, own}
  {
  }
}
