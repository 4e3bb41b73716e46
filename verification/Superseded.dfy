/** Assignments nobody listens to any more. */
module Superseded {
  import opened Wrappers
  import opened Dicts
  import opened PyText
  import opened JsonValues
  import opened Blueprints
  import opened PlanTree
  import opened Plans
  import opened ConsoleRuns
  import F = StateFile
  import R = PlanRuns

  // ---- silence ----------------------------------------------------------------

  /** No task at any depth has this assignment as its active one. */
  predicate Hushed(items: seq<Item>, a: string) {
    items != [] ==> !Active(items[0], a) && Hushed(items[0].subtasks, a) && Hushed(items[1..], a)
  }

  predicate AllHushed(plans: Dict<Plan>, a: string) {
    forall i :: 0 <= i < |plans| ==> Hushed(plans[i].1.tasks, a)
  }

  /** A report is noticed exactly by plans that are not hushed. */
  lemma {:induction false} HushedExactlyWhenUnchanged(items: seq<Item>, a: string, s: Status, now: string)
    ensures Hushed(items, a) <==> !ReportAll(items, a, s, now).1
  {
    if items != [] {
      HushedExactlyWhenUnchanged(items[0].subtasks, a, s, now);
      HushedExactlyWhenUnchanged(items[1..], a, s, now);
    }
  }

  lemma {:induction false} DeriveKeepsSilence(items: seq<Item>, a: string)
    ensures Hushed(DeriveAll(items), a) <==> Hushed(items, a)
  {
    if items != [] {
      DeriveKeepsSilence(items[0].subtasks, a);
      DeriveKeepsSilence(items[1..], a);
      assert DeriveAll(items)[1..] == DeriveAll(items[1..]);
    }
  }

  /** Deriving a task keeps who listens at it and below it. */
  lemma {:induction false} DerivedTask(item: Item, a: string)
    ensures Active(Derive(item), a) <==> Active(item, a)
    ensures Hushed(Derive(item).subtasks, a) <==> Hushed(item.subtasks, a)
  {
    DeriveKeepsSilence(item.subtasks, a);
  }

  lemma {:induction false} ReportKeepsSilence(items: seq<Item>, b: string, s: Status, now: string, a: string)
    ensures Hushed(ReportAll(items, b, s, now).0, a) <==> Hushed(items, a)
  {
    if items != [] {
      var head, after := items[0], ReportAll(items, b, s, now).0;
      ReportKeepsSilence(head.subtasks, b, s, now, a);
      ReportKeepsSilence(items[1..], b, s, now, a);
      DerivedTask(head.(subtasks := ReportAll(head.subtasks, b, s, now).0), a);
      assert after[0] == Report(head, b, s, now).0 && after[1..] == ReportAll(items[1..], b, s, now).0;
    }
  }

  /** Whoever listens is the named task. */
  predicate OnlyHears(items: seq<Item>, id: string, a: string) {
    items != [] ==>
      && (Active(items[0], a) ==> items[0].id == id)
      && OnlyHears(items[0].subtasks, id, a) && OnlyHears(items[1..], id, a)
  }

  lemma {:induction false} HushedHearsNothing(items: seq<Item>, id: string, a: string)
    requires Hushed(items, a)
    ensures OnlyHears(items, id, a)
  {
    if items != [] {
      HushedHearsNothing(items[0].subtasks, id, a);
      HushedHearsNothing(items[1..], id, a);
    }
  }

  /** Binding the only listener to another assignment silences the first one. */
  lemma {:induction false} RebindSilences(items: seq<Item>, id: string, newer: string, now: string, a: string)
    requires newer != a && OnlyHears(items, id, a) && EditAll(items, id, BindTo(newer, now)).Ok?
    ensures Hushed(EditAll(items, id, BindTo(newer, now)).value.0, a)
  {
    if items != [] {
      var head, e := items[0], BindTo(newer, now);
      var after := EditAll(items, id, e).value.0;
      assert after[0] == Edit(head, id, e).value.0 && after[1..] == EditAll(items[1..], id, e).value.0;
      RebindSilences(items[1..], id, newer, now, a);
      if head.id != id {
        RebindSilences(head.subtasks, id, newer, now, a);
        DerivedTask(head.(subtasks := EditAll(head.subtasks, id, e).value.0), a);
      }
    }
  }

  /** An edit keeps silence, except that a bind that finds its task wakes what it binds. */
  lemma {:induction false} EditKeepsSilence(items: seq<Item>, id: string, e: LeafEdit, a: string)
    requires Hushed(items, a) && EditAll(items, id, e).Ok?
    ensures var (after, found) := EditAll(items, id, e).value;
      Hushed(after, a) <==> !(found && e.BindTo? && e.assignment == a)
  {
    if items != [] {
      var head := items[0];
      var after := EditAll(items, id, e).value.0;
      assert after[0] == Edit(head, id, e).value.0 && after[1..] == EditAll(items[1..], id, e).value.0;
      EditKeepsSilence(items[1..], id, e, a);
      if head.id != id {
        EditKeepsSilence(head.subtasks, id, e, a);
        DerivedTask(head.(subtasks := EditAll(head.subtasks, id, e).value.0), a);
      }
    }
  }

  // ---- submitted plans --------------------------------------------------------

  predicate ActiveIn(e: Option<Execution>, a: string) { e.Some? && e.value.active == a }

  /** The submitted task, or one below it, names the assignment as its active one. */
  predicate Submits(h: Host, j: Json, a: string)
    decreases j, 1
  {
    j.Obj? &&
      (|| ActiveIn(GivenExecution(h, Get(j.fields, "execution")), a)
       || (var children := Children(j.fields);
           children.Ok? && children.value != [] && SubmitsAny(h, children.value, a)))
  }

  predicate SubmitsAny(h: Host, js: seq<Json>, a: string)
    decreases js, 0
  {
    js != [] && (Submits(h, js[0], a) || SubmitsAny(h, js[1..], a))
  }

  lemma {:induction false} NormalizedTask(h: Host, j: Json, seen: set<string>, a: string)
    requires Normalize(h, j, seen).Ok?
    ensures var item := Normalize(h, j, seen).value.0;
      Submits(h, j, a) <==> Active(item, a) || !Hushed(item.subtasks, a)
    decreases j, 1
  {
    var raw, head := Children(j.fields).value, Header(h, j.fields, seen).value;
    if raw != [] { NormalizedTasks(h, raw, seen + {head.id}, a); }
  }

  lemma {:induction false} NormalizedTasks(h: Host, js: seq<Json>, seen: set<string>, a: string)
    requires NormalizeAll(h, js, seen).Ok?
    ensures SubmitsAny(h, js, a) <==> !Hushed(NormalizeAll(h, js, seen).value.0, a)
    decreases js, 0
  {
    if js != [] {
      var (head, taken) := Normalize(h, js[0], seen).value;
      NormalizedTask(h, js[0], seen, a);
      NormalizedTasks(h, js[1..], taken, a);
      var items := NormalizeAll(h, js, seen).value.0;
      assert items[0] == head && items[1..] == NormalizeAll(h, js[1..], taken).value.0;
    }
  }

  lemma {:induction false} NewPlanSilence(h: Host, plans: Dict<Plan>, agent: string, goal: string, summary: string,
                                          tasks: Json, now: string, a: string)
    requires AllHushed(plans, a) && SetPlan(h, plans, agent, goal, summary, tasks, now).Ok?
    ensures tasks.Arr?
    ensures AllHushed(SetPlan(h, plans, agent, goal, summary, tasks, now).value, a) <==> !SubmitsAny(h, tasks.items, a)
  {
    var items := NormalizeAll(h, tasks.items, {}).value.0;
    var p := SetPlanPuts(h, plans, agent, goal, summary, tasks, now);
    NormalizedTasks(h, tasks.items, {}, a);
    DeriveKeepsSilence(items, a);
    PutSilence(plans, agent, p, a);
  }

  lemma {:induction false} SetPlanPuts(h: Host, plans: Dict<Plan>, agent: string, goal: string, summary: string,
                                       tasks: Json, now: string) returns (p: Plan)
    requires SetPlan(h, plans, agent, goal, summary, tasks, now).Ok?
    ensures tasks.Arr? && NormalizeAll(h, tasks.items, {}).Ok?
    ensures p.tasks == DeriveAll(NormalizeAll(h, tasks.items, {}).value.0)
    ensures SetPlan(h, plans, agent, goal, summary, tasks, now).value == Put(plans, agent, p)
  {
    var items := NormalizeAll(h, tasks.items, {}).value.0;
    p := Plan(Take(Strip(goal), 4_000), Take(Strip(summary), 12_000), DeriveAll(items), now);
  }

  lemma {:induction false} PutSilence(plans: Dict<Plan>, agent: string, p: Plan, a: string)
    requires AllHushed(plans, a)
    ensures AllHushed(Put(plans, agent, p), a) <==> Hushed(p.tasks, a)
  {
    var after := Put(plans, agent, p);
    forall k | 0 <= k < |after| ensures after[k].1 == p || (k < |plans| && after[k].1 == plans[k].1) {
      PutEntries(plans, agent, p, k);
    }
    PutHas(plans, agent, p);
  }

  lemma {:induction false} PutHas(plans: Dict<Plan>, agent: string, p: Plan)
    ensures exists k :: 0 <= k < |Put(plans, agent, p)| && Put(plans, agent, p)[k].1 == p
  {
    if plans == [] || plans[0].0 == agent {
      assert Put(plans, agent, p)[0].1 == p;
    } else {
      PutHas(plans[1..], agent, p);
      var k :| 0 <= k < |Put(plans[1..], agent, p)| && Put(plans[1..], agent, p)[k].1 == p;
      assert Put(plans, agent, p)[k + 1].1 == p;
    }
  }

  // ---- console events ---------------------------------------------------------

  /** The accepted call makes some task listen to the assignment. */
  ghost predicate Wakes(b: Blueprint, call: Call, a: string) {
    Spec(b, call).Ok? &&
    match call
    case NewPlan(h, _, _, _, tasks, _) => tasks.Arr? && SubmitsAny(h, tasks.items, a)
    case PlanOp(op) => op.BindOp? && op.assignment == a
    case GraphEdit(_) => false
  }

  ghost predicate StepWakes(m: Memory, e: Event, a: string) { e.Called? && Wakes(m.live, e.call, a) }

  ghost predicate NeverWakes(m: Memory, events: seq<Event>, a: string)
    decreases |events|
  {
    events != [] ==> !StepWakes(m, events[0], a) && NeverWakes(Step(m, events[0]), events[1..], a)
  }

  lemma {:induction false} OneChanged(plans: Dict<Plan>, i: nat, p: Plan, a: string)
    requires AllHushed(plans, a) && i < |plans|
    ensures AllHushed(plans[i := (plans[i].0, p)], a) <==> Hushed(p.tasks, a)
  {
    assert plans[i := (plans[i].0, p)][i].1 == p;
  }

  /** A task with the name is found by an edit that is not refused. */
  lemma {:induction false} EditFinds(items: seq<Item>, id: string, e: LeafEdit)
    requires id in Ids(items) && EditAll(items, id, e).Ok?
    ensures EditAll(items, id, e).value.1
  {
    if items[0].id != id {
      if id in Ids(items[0].subtasks) { EditFinds(items[0].subtasks, id, e); } else { EditFinds(items[1..], id, e); }
    }
  }

  lemma {:induction false} PlanOpSilence(plans: Dict<Plan>, op: R.Op, a: string)
    requires AllHushed(plans, a) && R.Outcome(plans, op).Ok?
    ensures AllHushed(R.Outcome(plans, op).value, a) <==> !(op.BindOp? && op.assignment == a)
  {
    match op
    case BindOp(task, assignment, now) =>
      var i, e := OwnerOf(plans, task), BindTo(assignment, now);
      EditFinds(plans[i].1.tasks, task, e);
      EditKeepsSilence(plans[i].1.tasks, task, e, a);
      OneChanged(plans, i, plans[i].1.(tasks := EditAll(plans[i].1.tasks, task, e).value.0, updatedAt := now), a);
    case ReportOp(assignment, status, now) =>
      var s := ParseStatus(status).value;
      var i := ReportedPlan(plans, assignment, s, now);
      if i < |plans| {
        ReportKeepsSilence(plans[i].1.tasks, assignment, s, now, a);
        OneChanged(plans, i,
          plans[i].1.(tasks := ReportAll(plans[i].1.tasks, assignment, s, now).0, updatedAt := now), a);
      }
    case UpdateOp(agent, task, status, now) =>
      var plan, e := Get(plans, agent).value, SetStatus(ParseStatus(status).value);
      GetIsEntry(plans, agent);
      EditKeepsSilence(plan.tasks, task, e, a);
      PutSilence(plans, agent, plan.(tasks := EditAll(plan.tasks, task, e).value.0, updatedAt := now), a);
  }

  lemma {:induction false} CallSilence(b: Blueprint, call: Call, a: string)
    requires Fit(b) && AllHushed(b.plans, a) && Spec(b, call).Ok?
    ensures AllHushed(Spec(b, call).value.plans, a) <==> !Wakes(b, call, a)
  {
    match call
    case GraphEdit(e) => GraphEditKeepsFit(b, e);
    case NewPlan(h, agent, goal, summary, tasks, now) =>
      NewPlanSilence(h, b.plans, agent, goal, summary, tasks, now, a);
    case PlanOp(op) => PlanOpSilence(b.plans, op, a);
  }

  lemma {:induction false} ReloadKeepsSilence(b: Blueprint, a: string)
    requires Distinct(b.plans) && AllHushed(b.plans, a)
    ensures AllHushed(F.Reloaded(b).plans, a)
  {
    EntriesOf(b.plans);
  }

  ghost predicate Silent(m: Memory, a: string) { AllHushed(m.live.plans, a) && AllHushed(m.disk.plans, a) }

  lemma {:induction false} StepSilence(m: Memory, e: Event, a: string)
    requires Fit(m.live) && Fit(m.disk) && Silent(m, a)
    ensures AllHushed(Step(m, e).live.plans, a) <==> !StepWakes(m, e, a)
    ensures !StepWakes(m, e, a) ==> Silent(Step(m, e), a)
  {
    match e
    case Called(call, _) => if Spec(m.live, call).Ok? { CallSilence(m.live, call, a); }
    case Restarted =>
      ReloadKeepsFit(m.disk);
      ReloadKeepsSilence(m.disk, a);
  }

  ghost predicate HushedAfter(m: Memory, events: seq<Event>, a: string, k: nat)
    requires k <= |events|
  {
    AllHushed(Run(m, events[..k]).live.plans, a)
  }

  /** Over a run, restarts and failing writes included, no task listens to a silenced assignment after any
      event exactly when no event binds it and no submitted plan names it as active. */
  lemma {:induction false} SilentExactlyWhile(m: Memory, events: seq<Event>, a: string)
    requires Fit(m.live) && Fit(m.disk) && Silent(m, a)
    ensures (forall k :: 0 <= k <= |events| ==> HushedAfter(m, events, a, k)) <==> NeverWakes(m, events, a)
    decreases |events|
  {
    assert events[..0] == [];
    if events != [] {
      var next, rest := Step(m, events[0]), events[1..];
      StepKeepsFit(m, events[0]);
      StepSilence(m, events[0], a);
      forall k: nat | k < |events| ensures HushedAfter(m, events, a, k + 1) <==> HushedAfter(next, rest, a, k) {
        RunPrefix(m, events, k);
      }
      if StepWakes(m, events[0], a) {
        assert rest[..0] == [];
        assert !HushedAfter(next, rest, a, 0) && !HushedAfter(m, events, a, 0 + 1);
      } else {
        SilentExactlyWhile(next, rest, a);
        HushedFromFirst(m, events, a);
      }
    }
  }

  lemma {:induction false} HushedFromFirst(m: Memory, events: seq<Event>, a: string)
    requires events != [] && AllHushed(m.live.plans, a)
    requires forall k: nat :: k < |events| ==>
      (HushedAfter(m, events, a, k + 1) <==> HushedAfter(Step(m, events[0]), events[1..], a, k))
    ensures (forall k :: 0 <= k <= |events| ==> HushedAfter(m, events, a, k))
      <==> forall k :: 0 <= k <= |events[1..]| ==> HushedAfter(Step(m, events[0]), events[1..], a, k)
  {
    assert events[..0] == [];
    var next, rest := Step(m, events[0]), events[1..];
    if forall k :: 0 <= k <= |rest| ==> HushedAfter(next, rest, a, k) {
      forall k | 0 <= k <= |events| ensures HushedAfter(m, events, a, k) {
        if k > 0 { assert HushedAfter(next, rest, a, k - 1); assert HushedAfter(m, events, a, (k - 1) + 1); }
      }
    }
    if forall k :: 0 <= k <= |events| ==> HushedAfter(m, events, a, k) {
      forall k | 0 <= k <= |rest| ensures HushedAfter(next, rest, a, k) { assert HushedAfter(m, events, a, k + 1); }
    }
  }

  /** A report in a known state changes and writes nothing exactly when no task listens. */
  lemma {:induction false} ReportIsIgnoredExactlyWhen(b: Blueprint, a: string, status: string, now: string)
    requires ParseStatus(status).Some?
    ensures var report := PlanOp(R.ReportOp(a, status, now));
      && (AllHushed(b.plans, a) <==> !Writes(b, report))
      && (AllHushed(b.plans, a) ==> Spec(b, report) == Ok(b))
  {
    var s := ParseStatus(status).value;
    forall k | 0 <= k < |b.plans|
      ensures Hushed(b.plans[k].1.tasks, a) <==> !ReportAll(b.plans[k].1.tasks, a, s, now).1
    {
      HushedExactlyWhenUnchanged(b.plans[k].1.tasks, a, s, now);
    }
    var i := ReportedPlan(b.plans, a, s, now);
  }

  /** Only the task of that name, in the plan a bind would pick, listens. */
  ghost predicate OnlyListener(plans: Dict<Plan>, task: string, a: string) {
    forall i :: 0 <= i < |plans| ==>
      if i == OwnerOf(plans, task) then OnlyHears(plans[i].1.tasks, task, a) else Hushed(plans[i].1.tasks, a)
  }

  /** Once its only task is rebound and written, every report for the older assignment is ignored over any
      later run, restarts and failing writes included, as long as no event binds it or submits it as active. */
  lemma {:induction false} SupersededIsIgnored(m: Memory, task: string, older: string, newer: string, bound: string,
                                               later: seq<Event>, status: string, now: string, write: bool)
    requires Fit(m.live) && Fit(m.disk) && newer != older && OnlyListener(m.live.plans, task, older)
    requires Bind(m.live.plans, task, newer, bound).Ok?
    requires NeverWakes(Step(m, Called(PlanOp(R.BindOp(task, newer, bound)), true)), later, older)
    ensures var reached := Run(Step(m, Called(PlanOp(R.BindOp(task, newer, bound)), true)), later);
      Step(reached, Called(PlanOp(R.ReportOp(older, status, now)), write)) == reached
  {
    var e := Called(PlanOp(R.BindOp(task, newer, bound)), true);
    var next := Step(m, e);
    BindSilences(m.live.plans, task, older, newer, bound);
    StepKeepsFit(m, e);
    SilenceLasts(next, later, older, status, now, write);
  }

  lemma {:induction false} SilenceLasts(m: Memory, later: seq<Event>, a: string, status: string, now: string,
                                        write: bool)
    requires Fit(m.live) && Fit(m.disk) && Silent(m, a) && NeverWakes(m, later, a)
    ensures Step(Run(m, later), Called(PlanOp(R.ReportOp(a, status, now)), write)) == Run(m, later)
  {
    SilentExactlyWhile(m, later, a);
    assert HushedAfter(m, later, a, |later|) && later[..|later|] == later;
    if ParseStatus(status).Some? { ReportIsIgnoredExactlyWhen(Run(m, later).live, a, status, now); }
  }

  lemma {:induction false} BindSilences(plans: Dict<Plan>, task: string, older: string, newer: string, now: string)
    requires newer != older && OnlyListener(plans, task, older) && Bind(plans, task, newer, now).Ok?
    ensures AllHushed(Bind(plans, task, newer, now).value, older)
  {
    var i := OwnerOf(plans, task);
    RebindSilences(plans[i].1.tasks, task, newer, now, older);
  }
}
