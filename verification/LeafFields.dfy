/** What edits and reports store. */
module LeafFields {
  import opened Wrappers
  import opened Dicts
  import opened PyText
  import opened Blueprints
  import opened FirstOccurrences
  import opened PlanTree
  import opened Plans
  import opened PlanProofs

  // ---- one task, field by field -----------------------------------------------

  /** Nothing but the state and the execution may differ. */
  predicate SameText(a: Item, b: Item) {
    && a.id == b.id && a.title == b.title && a.description == b.description
    && a.priority == b.priority && a.estimate == b.estimate && a.subtasks == b.subtasks
  }

  /** The task is told its state. */
  predicate IsSet(before: Item, after: Item, s: Status) {
    SameText(before, after) && after.status == s && after.execution == before.execution
  }

  function EarlierIds(item: Item): seq<string> {
    if item.execution.Some? then item.execution.value.assignmentIds else []
  }

  /** The task is bound: it is in progress, the assignment is active, and the list of assignments holds the
      earlier ones and it, each once, in the order in which they came. */
  ghost predicate IsBound(before: Item, after: Item, assignment: string, now: string) {
    && SameText(before, after) && after.status == InProgress && after.execution.Some?
    && after.execution.value.active == assignment && after.execution.value.updatedAt == now
    && KeepsFirsts(EarlierIds(before) + [assignment], after.execution.value.assignmentIds)
  }

  /** The task is reported on: state and time are new, the assignments are the same. */
  predicate IsReported(before: Item, after: Item, s: Status, now: string) {
    && SameText(before, after) && after.status == s && before.execution.Some? && after.execution.Some?
    && after.execution.value.active == before.execution.value.active
    && after.execution.value.assignmentIds == before.execution.value.assignmentIds
    && after.execution.value.updatedAt == now
  }

  predicate Listening(item: Item, assignment: string) {
    item.execution.Some? && item.execution.value.active == assignment
  }

  // ---- all leaves -------------------------------------------------------------

  ghost predicate LeavesSet(before: seq<Item>, after: seq<Item>, id: string, s: Status) {
    && |before| == |after|
    && forall k :: 0 <= k < |before| ==>
         if before[k].id == id then IsSet(before[k], after[k], s) else after[k] == before[k]
  }

  ghost predicate LeavesBound(before: seq<Item>, after: seq<Item>, id: string, assignment: string, now: string) {
    && |before| == |after|
    && forall k :: 0 <= k < |before| ==>
         if before[k].id == id then IsBound(before[k], after[k], assignment, now) else after[k] == before[k]
  }

  ghost predicate LeavesReported(before: seq<Item>, after: seq<Item>, assignment: string, s: Status, now: string) {
    && |before| == |after|
    && forall k :: 0 <= k < |before| ==>
         if Listening(before[k], assignment) then IsReported(before[k], after[k], s, now) else after[k] == before[k]
  }

  lemma {:induction false} EditedLeaves(items: seq<Item>, id: string, e: LeafEdit)
    requires EditAll(items, id, e).Ok?
    ensures Leaves(EditAll(items, id, e).value.0) == Each(EditOf(id, e), Leaves(items))
    ensures EditAll(items, id, e).value.1 <==> id in Ids(items)
    ensures EditAll(items, id, e).value.1 ==> HasLeaf(items, id)
    ensures Settled(EditAll(items, id, e).value.0) && SameTree(items, EditAll(items, id, e).value.0)
  {
    EditIsMapLeaves(items, id, e);
    IdsAreParentsAndLeaves(items, id);
    MapLeavesMapsLeaves(items, EditOf(id, e));
    MapLeavesKeepsTree(items, EditOf(id, e));
  }

  /** A successful update of a state sets it on the leaves of that name, of which there is one. */
  lemma {:induction false} UpdateSets(items: seq<Item>, id: string, s: Status)
    requires EditAll(items, id, SetStatus(s)).Ok? && EditAll(items, id, SetStatus(s)).value.1
    ensures LeavesSet(Leaves(items), Leaves(EditAll(items, id, SetStatus(s)).value.0), id, s)
    ensures HasLeaf(items, id)
  {
    EditedLeaves(items, id, SetStatus(s));
    LeavesAreLeaves(items);
  }

  lemma {:induction false} OneIsBound(x: Item, assignment: string, now: string)
    ensures IsBound(x, EditLeaf(x, BindTo(assignment, now)), assignment, now)
  {
    DedupKeepsFirsts(EarlierIds(x) + [assignment]);
  }

  lemma {:induction false} BindBinds(items: seq<Item>, id: string, assignment: string, now: string)
    requires var e := BindTo(assignment, now); EditAll(items, id, e).Ok? && EditAll(items, id, e).value.1
    ensures var after := EditAll(items, id, BindTo(assignment, now)).value.0;
      LeavesBound(Leaves(items), Leaves(after), id, assignment, now) && HasLeaf(items, id)
  {
    EditedLeaves(items, id, BindTo(assignment, now));
    var before := Leaves(items);
    forall k | 0 <= k < |before| && before[k].id == id
      ensures IsBound(before[k], EditLeaf(before[k], BindTo(assignment, now)), assignment, now)
    {
      OneIsBound(before[k], assignment, now);
    }
  }

  lemma {:induction false} OneIsReported(x: Item, assignment: string, s: Status, now: string)
    ensures if Listening(x, assignment) then IsReported(x, ReportOf(assignment, s, now)(x), s, now)
            else ReportOf(assignment, s, now)(x) == x
  {
  }

  lemma {:induction false} ReportReports(items: seq<Item>, assignment: string, s: Status, now: string)
    requires LeafExecutions(items)
    ensures LeavesReported(Leaves(items), Leaves(ReportAll(items, assignment, s, now).0), assignment, s, now)
  {
    ReportIsMapLeaves(items, assignment, s, now);
    MapLeavesMapsLeaves(items, ReportOf(assignment, s, now));
    var before, after := Leaves(items), Leaves(ReportAll(items, assignment, s, now).0);
    forall k | 0 <= k < |before|
      ensures if Listening(before[k], assignment) then IsReported(before[k], after[k], s, now)
              else after[k] == before[k]
    {
      OneIsReported(before[k], assignment, s, now);
    }
  }

  /** A root that listens is reported on as it stands, wherever executions sit. */
  lemma {:induction false} ListeningRootIsReported(items: seq<Item>, assignment: string, s: Status, now: string, k: nat)
    requires k < |items| && Listening(items[k], assignment)
    ensures var after := ReportAll(items, assignment, s, now).0;
      |after| == |items| && IsReported(items[k], after[k], s, now) && ReportAll(items, assignment, s, now).1
  {
    ReportKeepsCount(items, assignment, s, now);
    if k > 0 { ListeningRootIsReported(items[1..], assignment, s, now, k - 1); }
  }

  lemma {:induction false} ReportKeepsCount(items: seq<Item>, assignment: string, s: Status, now: string)
    ensures |ReportAll(items, assignment, s, now).0| == |items|
  {
    if items != [] { ReportKeepsCount(items[1..], assignment, s, now); }
  }

  // ---- whole plans ------------------------------------------------------------

  /** Goal and summary stay, the time is new. */
  predicate SamePlan(before: Plan, after: Plan, now: string) {
    after.goal == before.goal && after.summary == before.summary && after.updatedAt == now
  }

  /** An accepted update sets the state on that leaf of the agent's plan and changes no other leaf or plan. */
  lemma {:induction false} UpdateIsStored(plans: Dict<Plan>, agent: string, id: string, status: string, now: string)
    requires UpdateTask(plans, agent, id, status, now).Ok?
    ensures var after := UpdateTask(plans, agent, id, status, now).value;
      && Get(plans, agent).Some? && Get(after, agent).Some? && ParseStatus(status).Some?
      && (forall q :: q != agent ==> Get(after, q) == Get(plans, q))
      && var (p, r) := (Get(plans, agent).value, Get(after, agent).value);
      && SamePlan(p, r, now) && HasLeaf(p.tasks, id)
      && LeavesSet(Leaves(p.tasks), Leaves(r.tasks), id, ParseStatus(status).value)
  {
    var p, s := Get(plans, agent).value, ParseStatus(status).value;
    UpdateSets(p.tasks, id, s);
    var r := p.(tasks := EditAll(p.tasks, id, SetStatus(s)).value.0, updatedAt := now);
    forall q ensures Get(Put(plans, agent, r), q) == if q == agent then Some(r) else Get(plans, q) {
      GetPut(plans, agent, r, q);
    }
  }

  /** An accepted bind binds that leaf of the first plan that holds the task, and changes nothing else. */
  lemma {:induction false} BindIsStored(plans: Dict<Plan>, task: string, assignment: string, now: string)
    requires Bind(plans, task, assignment, now).Ok?
    ensures var after, i := Bind(plans, task, assignment, now).value, OwnerOf(plans, task);
      && i < |plans| && |after| == |plans| && after[i].0 == plans[i].0
      && (forall k :: 0 <= k < |plans| && k != i ==> after[k] == plans[k])
      && SamePlan(plans[i].1, after[i].1, now) && HasLeaf(plans[i].1.tasks, task)
      && LeavesBound(Leaves(plans[i].1.tasks), Leaves(after[i].1.tasks), task, assignment, now)
  {
    var tasks := plans[OwnerOf(plans, task)].1.tasks;
    EditedLeaves(tasks, task, BindTo(assignment, now));
    BindBinds(tasks, task, assignment, now);
  }

  /** On plans with unique names an update is accepted exactly for a known state and a leaf of the agent's plan. */
  lemma {:induction false} UpdateAcceptedExactlyWhen(plans: Dict<Plan>, agent: string, id: string, status: string,
                                                     now: string)
    requires Get(plans, agent).Some? ==> Unique(Get(plans, agent).value.tasks)
    ensures UpdateTask(plans, agent, id, status, now).Ok? <==>
      ParseStatus(status).Some? && Get(plans, agent).Some? && HasLeaf(Get(plans, agent).value.tasks, id)
  {
    var p, s := Get(plans, agent), ParseStatus(status);
    if p.Some? && s.Some? { EditSucceedsExactlyOnLeaves(p.value.tasks, id, SetStatus(s.value)); }
  }

  /** A bind is accepted exactly for an assignment that is not blank and a task that some plan holds, the first
      of which does not hold it as a parent. */
  lemma {:induction false} BindAcceptedExactlyWhen(plans: Dict<Plan>, task: string, assignment: string, now: string)
    ensures Bind(plans, task, assignment, now).Ok? <==>
      && Strip(assignment) != "" && OwnerOf(plans, task) < |plans|
      && task !in ParentIds(plans[OwnerOf(plans, task)].1.tasks)
  {
    var i := OwnerOf(plans, task);
    if i < |plans| { EditIsMapLeaves(plans[i].1.tasks, task, BindTo(assignment, now)); }
  }

  /** A report in a known state reports on the listening leaves of the first plan that has one, and changes
      nothing else; where none listens, nothing. */
  lemma {:induction false} ReportIsStored(plans: Dict<Plan>, assignment: string, status: string, now: string)
    requires ParseStatus(status).Some? && forall k :: 0 <= k < |plans| ==> LeafExecutions(plans[k].1.tasks)
    ensures var s := ParseStatus(status).value; var i := ReportedPlan(plans, assignment, s, now);
      var r := UpdateAssignment(plans, assignment, status, now);
      && r.Ok? && |r.value| == |plans|
      && (forall k :: 0 <= k < i ==> forall x <- Leaves(plans[k].1.tasks) :: !Listening(x, assignment))
      && (forall k :: 0 <= k < |plans| && k != i ==> r.value[k] == plans[k])
      && (i < |plans| ==>
            && r.value[i].0 == plans[i].0 && SamePlan(plans[i].1, r.value[i].1, now)
            && (exists x <- Leaves(plans[i].1.tasks) :: Listening(x, assignment))
            && LeavesReported(Leaves(plans[i].1.tasks), Leaves(r.value[i].1.tasks), assignment, s, now))
  {
    var s := ParseStatus(status).value;
    forall k | 0 <= k < |plans|
      ensures ReportAll(plans[k].1.tasks, assignment, s, now).1 <==>
        exists x <- Leaves(plans[k].1.tasks) :: Listening(x, assignment)
    {
      ReportIsMapLeaves(plans[k].1.tasks, assignment, s, now);
      if x :| x in Leaves(plans[k].1.tasks) && Active(x, assignment) { assert Listening(x, assignment); }
      if x :| x in Leaves(plans[k].1.tasks) && Listening(x, assignment) { assert Active(x, assignment); }
    }
    var i := ReportedPlan(plans, assignment, s, now);
    if i < |plans| { ReportReports(plans[i].1.tasks, assignment, s, now); }
  }
}
