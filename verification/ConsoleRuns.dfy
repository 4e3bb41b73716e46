/** Whole runs of console calls. */
module ConsoleRuns {
  import opened Wrappers
  import opened Dicts
  import opened JsonValues
  import opened Blueprints
  import opened PlanTree
  import opened Plans
  import opened PlanProofs
  import opened CodecProofs
  import opened ConsoleStates
  import Codec
  import F = StateFile
  import T = Topology
  import R = PlanRuns

  datatype Call =
    | GraphEdit(edit: T.Edit)
    | NewPlan(host: Host, agent: string, goal: string, summary: string, tasks: Json, now: string)
    | PlanOp(op: R.Op)

  /** Memory and state file. */
  datatype Memory = Memory(live: Blueprint, disk: Blueprint)

  ghost function Spec(b: Blueprint, call: Call): Result<Blueprint, DomainError> {
    match call
    case GraphEdit(e) => T.Apply(b, e)
    case NewPlan(h, agent, goal, summary, tasks, now) =>
      WithPlans(b, Plans.SetPlan(h, b.plans, agent, goal, summary, tasks, now))
    case PlanOp(op) => WithPlans(b, R.Outcome(b.plans, op))
  }

  /** A report no plan listens to returns without writing. */
  ghost predicate Writes(b: Blueprint, call: Call) {
    call.PlanOp? && call.op.ReportOp? && ParseStatus(call.op.status).Some? ==>
      ReportedPlan(b.plans, call.op.assignment, ParseStatus(call.op.status).value, call.op.now) < |b.plans|
  }

  /** A call, whose write may fail, or a restart from the state file. */
  datatype Event = Called(call: Call, write: bool) | Restarted

  /** A refused call changes nothing; an unwritten one stays in memory only. */
  ghost function Step(m: Memory, e: Event): Memory {
    match e
    case Called(call, write) =>
      (match Spec(m.live, call)
       case Err(_) => m
       case Ok(b) => Memory(b, if write && Writes(m.live, call) then b else m.disk))
    case Restarted =>
      match Codec.Decode(F.Stored(m.disk))
      case Ok(b) => m.(live := b)
      case Err(_) => m
  }

  ghost function Run(m: Memory, events: seq<Event>): Memory
    decreases |events|
  {
    if events == [] then m else Run(Step(m, events[0]), events[1..])
  }

  ghost predicate PlanFit(p: Plan) { Unique(p.tasks) && ItemsOk(p.tasks) }

  ghost predicate AllFit(plans: Dict<Plan>) {
    Distinct(plans) && forall k :: 0 <= k < |plans| ==> PlanFit(plans[k].1)
  }

  ghost predicate AllSettled(plans: Dict<Plan>) {
    forall k :: 0 <= k < |plans| ==> Settled(plans[k].1.tasks)
  }

  /** What every reachable console satisfies. */
  ghost predicate Fit(b: Blueprint) { T.Valid(b) && Storable(b) && AllFit(b.plans) }

  /** And every parent has the state its leaves give it. */
  ghost predicate Good(b: Blueprint) { Fit(b) && AllSettled(b.plans) }

  /** In the plan a report changes, no root that is a parent and listens disagrees with the reported state. */
  ghost predicate Harmless(b: Blueprint, call: Call) {
    call.PlanOp? && call.op.ReportOp? && ParseStatus(call.op.status).Some? ==>
      var a, s := call.op.assignment, ParseStatus(call.op.status).value;
      var i := ReportedPlan(b.plans, a, s, call.op.now);
      i < |b.plans| ==> RootsAgree(b.plans[i].1.tasks, a, s)
  }

  /** Only calls can do harm, and only when they are accepted. */
  ghost predicate HarmlessStep(m: Memory, e: Event) {
    e.Called? && Spec(m.live, e.call).Ok? ==> Harmless(m.live, e.call)
  }

  ghost predicate HarmlessRun(m: Memory, events: seq<Event>)
    decreases |events|
  {
    events != [] ==> HarmlessStep(m, events[0]) && HarmlessRun(Step(m, events[0]), events[1..])
  }

  lemma {:induction false} EditKeepsItems(items: seq<Item>, id: string, e: LeafEdit)
    requires ItemsOk(items) && EditAll(items, id, e).Ok?
    ensures ItemsOk(EditAll(items, id, e).value.0)
    ensures Unique(items) ==> Unique(EditAll(items, id, e).value.0)
    ensures Settled(EditAll(items, id, e).value.0)
  {
    EditIsMapLeaves(items, id, e);
    MapLeavesItemsOk(items, EditOf(id, e));
    MapLeavesKeepsTree(items, EditOf(id, e));
    SameTreeKeepsFacts(items, MapLeaves(items, EditOf(id, e)));
  }

  lemma {:induction false} DeriveKeepsNames(item: Item)
    ensures Derive(item).id == item.id && Ids(Derive(item).subtasks) == Ids(item.subtasks)
    ensures Unique(item.subtasks) ==> Unique(Derive(item).subtasks)
  {
    DeriveSettles(item.subtasks);
    SameTreeKeepsFacts(item.subtasks, DeriveAll(item.subtasks));
  }

  lemma {:induction false} ReportKeepsNames(items: seq<Item>, a: string, s: Status, now: string)
    ensures Ids(ReportAll(items, a, s, now).0) == Ids(items)
    ensures Unique(items) ==> Unique(ReportAll(items, a, s, now).0)
  {
    if items != [] {
      var head, after := items[0], ReportAll(items, a, s, now).0;
      ReportKeepsNames(head.subtasks, a, s, now);
      ReportKeepsNames(items[1..], a, s, now);
      DeriveKeepsNames(head.(subtasks := ReportAll(head.subtasks, a, s, now).0));
      assert after[0] == Report(head, a, s, now).0 && after[1..] == ReportAll(items[1..], a, s, now).0;
    }
  }

  lemma {:induction false} ReportKeepsItems(items: seq<Item>, a: string, s: Status, now: string)
    requires ItemsOk(items)
    ensures ItemsOk(ReportAll(items, a, s, now).0)
  {
    if items != [] {
      var head, after := items[0], ReportAll(items, a, s, now).0;
      ReportKeepsItems(head.subtasks, a, s, now);
      ReportKeepsItems(items[1..], a, s, now);
      DerivedItemsOk(ReportAll(head.subtasks, a, s, now).0);
      assert after[0] == Report(head, a, s, now).0 && after[1..] == ReportAll(items[1..], a, s, now).0;
    }
  }

  lemma {:induction false} OnePlanChanged(plans: Dict<Plan>, i: nat, p: Plan)
    requires AllFit(plans) && i < |plans| && PlanFit(p)
    ensures var after := plans[i := (plans[i].0, p)];
      && AllFit(after)
      && (AllSettled(plans) ==> (AllSettled(after) <==> Settled(p.tasks)))
  {
    R.RenamedKeys(plans, plans[i := (plans[i].0, p)]);
  }

  lemma {:induction false} PlanPut(plans: Dict<Plan>, agent: string, p: Plan)
    requires AllFit(plans) && PlanFit(p)
    ensures var after := Put(plans, agent, p);
      && AllFit(after)
      && (AllSettled(plans) && Settled(p.tasks) ==> AllSettled(after))
  {
    forall k | 0 <= k < |Put(plans, agent, p)|
      ensures Put(plans, agent, p)[k].1 == p || (k < |plans| && Put(plans, agent, p)[k].1 == plans[k].1)
    {
      PutEntries(plans, agent, p, k);
    }
  }

  lemma {:induction false} EditKeepsPlans(plans: Dict<Plan>, i: nat, task: string, e: LeafEdit, now: string)
    requires AllFit(plans) && i < |plans| && EditAll(plans[i].1.tasks, task, e).Ok?
    ensures var p := plans[i].1.(tasks := EditAll(plans[i].1.tasks, task, e).value.0, updatedAt := now);
      var after := plans[i := (plans[i].0, p)];
      AllFit(after) && PlanFit(p) && Settled(p.tasks) && (AllSettled(plans) ==> AllSettled(after))
  {
    EditKeepsItems(plans[i].1.tasks, task, e);
    OnePlanChanged(plans, i, plans[i].1.(tasks := EditAll(plans[i].1.tasks, task, e).value.0, updatedAt := now));
  }

  lemma {:induction false} ReportKeepsPlans(plans: Dict<Plan>, i: nat, a: string, s: Status, now: string)
    requires AllFit(plans) && i < |plans|
    ensures var p := plans[i].1.(tasks := ReportAll(plans[i].1.tasks, a, s, now).0, updatedAt := now);
      var after := plans[i := (plans[i].0, p)];
      && AllFit(after)
      && (AllSettled(plans) ==> (AllSettled(after) <==> RootsAgree(plans[i].1.tasks, a, s)))
  {
    var tasks := plans[i].1.tasks;
    ReportKeepsNames(tasks, a, s, now);
    ReportKeepsItems(tasks, a, s, now);
    if AllSettled(plans) { ReportSettlesExactlyWhen(tasks, a, s, now); }
    OnePlanChanged(plans, i, plans[i].1.(tasks := ReportAll(tasks, a, s, now).0, updatedAt := now));
  }

  lemma {:induction false} PlanOpKeepsPlans(b: Blueprint, op: R.Op)
    requires Fit(b) && R.Outcome(b.plans, op).Ok?
    ensures AllFit(R.Outcome(b.plans, op).value)
    ensures AllSettled(b.plans) ==> (AllSettled(R.Outcome(b.plans, op).value) <==> Harmless(b, PlanOp(op)))
  {
    var plans := b.plans;
    match op {
      case BindOp(task, assignment, now) =>
        EditKeepsPlans(plans, OwnerOf(plans, task), task, BindTo(assignment, now), now);
      case ReportOp(assignment, status, now) =>
        var i := ReportedPlan(plans, assignment, ParseStatus(status).value, now);
        if i < |plans| { ReportKeepsPlans(plans, i, assignment, ParseStatus(status).value, now); }
      case UpdateOp(agent, task, status, now) => UpdateKeepsPlans(plans, agent, task, ParseStatus(status).value, now);
    }
  }

  lemma {:induction false} UpdateKeepsPlans(plans: Dict<Plan>, agent: string, task: string, s: Status, now: string)
    requires AllFit(plans) && Get(plans, agent).Some?
    requires EditAll(Get(plans, agent).value.tasks, task, SetStatus(s)).Ok?
    ensures var plan := Get(plans, agent).value;
      var after := Put(plans, agent, plan.(tasks := EditAll(plan.tasks, task, SetStatus(s)).value.0, updatedAt := now));
      AllFit(after) && (AllSettled(plans) ==> AllSettled(after))
  {
    var plan := Get(plans, agent).value;
    GetIsEntry(plans, agent);
    EditKeepsItems(plan.tasks, task, SetStatus(s));
    PlanPut(plans, agent, plan.(tasks := EditAll(plan.tasks, task, SetStatus(s)).value.0, updatedAt := now));
  }

  lemma {:induction false} NewPlanKeepsPlans(h: Host, plans: Dict<Plan>, agent: string, goal: string, summary: string,
                                             tasks: Json, now: string)
    requires AllFit(plans) && Plans.SetPlan(h, plans, agent, goal, summary, tasks, now).Ok?
    ensures var after := Plans.SetPlan(h, plans, agent, goal, summary, tasks, now).value;
      AllFit(after) && (AllSettled(plans) ==> AllSettled(after))
  {
    var after := Plans.SetPlan(h, plans, agent, goal, summary, tasks, now).value;
    SetPlanIsGood(h, plans, agent, goal, summary, tasks, now);
    forall k | 0 <= k < |after| ensures PlanFit(after[k].1) && (AllSettled(plans) ==> Settled(after[k].1.tasks)) {
      GetAt(after, k);
      if after[k].0 != agent { GetIsEntry(plans, after[k].0); }
    }
  }

  lemma {:induction false} FitWithPlans(b: Blueprint, plans: Dict<Plan>)
    requires Fit(b) && AllFit(plans)
    ensures Fit(b.(plans := plans))
  {
    var after := b.(plans := plans);
    assert Nodes(after) == Nodes(b);
    assert T.Valid(after);
  }

  lemma {:induction false} GraphEditKeepsFit(b: Blueprint, e: T.Edit)
    requires Fit(b) && T.Apply(b, e).Ok?
    ensures Fit(T.Apply(b, e).value) && T.Apply(b, e).value.plans == b.plans
  {
    T.ApplyKeepsValid(b, e);
    var after := T.Apply(b, e).value;
    assert T.WorkersOk(after) && T.MappersOk(after) && T.RoutersOk(after);
    assert after.plans == b.plans && after.schemaVersion == b.schemaVersion;
  }

  /** Every accepted call keeps the graph invariant, unique names and storable fields; and it keeps every
      derived state correct exactly when it is harmless. */
  lemma {:induction false} CallKeepsFit(b: Blueprint, call: Call)
    requires Fit(b) && Spec(b, call).Ok?
    ensures Fit(Spec(b, call).value)
    ensures AllSettled(b.plans) ==> (AllSettled(Spec(b, call).value.plans) <==> Harmless(b, call))
  {
    match call
    case GraphEdit(e) => GraphEditKeepsFit(b, e);
    case NewPlan(h, agent, goal, summary, tasks, now) =>
      NewPlanKeepsPlans(h, b.plans, agent, goal, summary, tasks, now);
      FitWithPlans(b, Plans.SetPlan(h, b.plans, agent, goal, summary, tasks, now).value);
    case PlanOp(op) =>
      PlanOpKeepsPlans(b, op);
      FitWithPlans(b, R.Outcome(b.plans, op).value);
  }

  lemma EmptyIsGood()
    ensures Good(EMPTY)
  {
    T.EmptyIsValid();
  }

  lemma {:induction false} EntriesOf<V>(d: Dict<V>)
    requires Distinct(d)
    ensures |F.SortDict(d)| == |d| && forall i :: 0 <= i < |d| ==> F.SortDict(d)[i] in d
  {
    F.SortFacts(d);
    forall i | 0 <= i < |d| ensures F.SortDict(d)[i] in d { F.SortedEntry(d, i); }
  }

  lemma {:induction false} ReloadKeepsValid(b: Blueprint)
    requires T.Valid(b)
    ensures T.Valid(F.Reloaded(b))
  {
    var r := F.Reloaded(b);
    F.SortFacts(b.workers);
    F.SortFacts(b.mappers);
    F.SortFacts(b.routers);
    EntriesOf(b.workers);
    EntriesOf(b.mappers);
    EntriesOf(b.routers);
    assert Nodes(r) == Nodes(b) && r.connections == b.connections;
  }

  lemma {:induction false} ReloadKeepsPlans(b: Blueprint)
    requires Storable(b)
    ensures Storable(F.Reloaded(b))
    ensures AllFit(b.plans) ==> AllFit(F.Reloaded(b).plans)
    ensures AllSettled(b.plans) ==> AllSettled(F.Reloaded(b).plans)
  {
    F.SortFacts(b.workers);
    F.SortFacts(b.mappers);
    F.SortFacts(b.routers);
    F.SortFacts(b.plans);
    EntriesOf(b.workers);
    EntriesOf(b.plans);
  }

  /** So does a restart, which keeps derived states too. */
  lemma {:induction false} ReloadKeepsFit(b: Blueprint)
    requires Fit(b)
    ensures Codec.Decode(F.Stored(b)) == Ok(F.Reloaded(b)) && Fit(F.Reloaded(b))
    ensures Good(b) ==> Good(F.Reloaded(b))
  {
    F.ReloadSorts(b);
    ReloadKeepsValid(b);
    ReloadKeepsPlans(b);
  }

  lemma {:induction false} StepKeepsFit(m: Memory, e: Event)
    requires Fit(m.live) && Fit(m.disk)
    ensures Fit(Step(m, e).live) && Fit(Step(m, e).disk)
    ensures Good(m.live) && Good(m.disk) && HarmlessStep(m, e) ==> Good(Step(m, e).live) && Good(Step(m, e).disk)
    ensures Good(m.live) && !HarmlessStep(m, e) ==> !Good(Step(m, e).live)
  {
    match e
    case Called(call, _) => if Spec(m.live, call).Ok? { CallKeepsFit(m.live, call); }
    case Restarted => ReloadKeepsFit(m.disk);
  }

  lemma {:induction false} RunKeepsFit(m: Memory, events: seq<Event>)
    requires Fit(m.live) && Fit(m.disk)
    ensures Fit(Run(m, events).live) && Fit(Run(m, events).disk)
    decreases |events|
  {
    if events != [] {
      StepKeepsFit(m, events[0]);
      RunKeepsFit(Step(m, events[0]), events[1..]);
    }
  }

  lemma {:induction false} RunPrefix(m: Memory, events: seq<Event>, k: nat)
    requires k < |events|
    ensures Run(m, events[..k + 1]) == Run(Step(m, events[0]), events[1..][..k])
  {
    assert events[..k + 1][0] == events[0] && events[..k + 1][1..] == events[1..][..k];
  }

  ghost predicate GoodAfter(m: Memory, events: seq<Event>, k: nat)
    requires k <= |events|
  {
    Good(Run(m, events[..k]).live)
  }

  /** Over a run the console is good after every event exactly when every event is harmless. */
  lemma {:induction false} RunIsGoodExactlyWhile(m: Memory, events: seq<Event>)
    requires Good(m.live) && Good(m.disk)
    ensures (forall k :: 0 <= k <= |events| ==> GoodAfter(m, events, k)) <==> HarmlessRun(m, events)
    decreases |events|
  {
    assert events[..0] == [];
    if events != [] {
      var next := Step(m, events[0]);
      StepKeepsFit(m, events[0]);
      forall k: nat | k < |events| ensures GoodAfter(m, events, k + 1) <==> GoodAfter(next, events[1..], k) {
        RunPrefix(m, events, k);
      }
      if HarmlessStep(m, events[0]) {
        RunIsGoodExactlyWhile(next, events[1..]);
        AllFromFirst(m, events);
      } else {
        assert events[1..][..0] == [];
        assert !GoodAfter(next, events[1..], 0) && !GoodAfter(m, events, 0 + 1);
      }
    }
  }

  lemma {:induction false} AllFromFirst(m: Memory, events: seq<Event>)
    requires events != [] && Good(m.live)
    requires forall k: nat :: k < |events| ==>
      (GoodAfter(m, events, k + 1) <==> GoodAfter(Step(m, events[0]), events[1..], k))
    ensures (forall k :: 0 <= k <= |events| ==> GoodAfter(m, events, k))
      <==> forall k :: 0 <= k <= |events[1..]| ==> GoodAfter(Step(m, events[0]), events[1..], k)
  {
    assert events[..0] == [];
    var next, rest := Step(m, events[0]), events[1..];
    if forall k :: 0 <= k <= |rest| ==> GoodAfter(next, rest, k) {
      forall k | 0 <= k <= |events| ensures GoodAfter(m, events, k) {
        if k > 0 { assert GoodAfter(next, rest, k - 1); assert GoodAfter(m, events, (k - 1) + 1); }
      }
    }
    if forall k :: 0 <= k <= |events| ==> GoodAfter(m, events, k) {
      forall k | 0 <= k <= |rest| ensures GoodAfter(next, rest, k) {
        assert GoodAfter(m, events, k + 1);
      }
    }
  }

  /** After any run, restarts included, the state file decodes to what was last written with its dicts in
      key order, which is a fit console again; and the graph in memory has no cycle. */
  lemma {:induction false} ReachableReloads(events: seq<Event>)
    ensures var m := Run(Memory(EMPTY, EMPTY), events);
      && Fit(m.live) && Fit(m.disk)
      && Codec.Decode(F.Stored(m.disk)) == Ok(F.Reloaded(m.disk)) && Fit(F.Reloaded(m.disk))
      && T.Acyclic(m.live.connections)
  {
    EmptyIsGood();
    RunKeepsFit(Memory(EMPTY, EMPTY), events);
    var m := Run(Memory(EMPTY, EMPTY), events);
    ReloadKeepsFit(m.disk);
    T.OrderedIsAcyclic(m.live.connections);
  }
}
