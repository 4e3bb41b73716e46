/** Task plans: validated replacement, leaf edits, and the assignment correlation. */
module Plans {
  import opened Wrappers
  import opened Dicts
  import opened PyText
  import opened JsonValues
  import opened Blueprints
  import opened PlanTree

  type Planned<T> = Result<T, DomainError>

  /** What the host supplies: `str()` of a non-string value and generated task names. */
  datatype Host = Host(str: Json -> string, generated: nat -> string)

  // ---- set_plan ---------------------------------------------------------------

  function Text(h: Host, j: Json): string {
    if j.Str? then j.text else h.str(j)
  }

  predicate Truthy(j: Json) {
    match j
    case Null => false
    case Bool(b) => b
    case Int(n) => n != 0
    case Real(x) => x != 0.0
    case Str(s) => s != ""
    case Arr(items) => items != []
    case Obj(fields) => fields != []
  }

  /** `str(value.get(key, default))` */
  function TextOf(h: Host, fields: Dict<Json>, key: string, default: string): string {
    var j := Get(fields, key);
    if j.None? then default else Text(h, j.value)
  }

  /** The first truthy of `id` and `task_id`, else a generated name, stripped. */
  function TaskId(h: Host, fields: Dict<Json>, taken: nat): string {
    var id, alias := Get(fields, "id"), Get(fields, "task_id");
    Strip(if id.Some? && Truthy(id.value) then Text(h, id.value)
          else if alias.Some? && Truthy(alias.value) then Text(h, alias.value)
          else h.generated(taken))
  }

  function Estimate(j: Option<Json>): Planned<Option<real>> {
    if j.None? then Ok(None)
    else match j.value
      case Null => Ok(None)
      case Bool(b) => Ok(Some(if b then 1.0 else 0.0))
      case Int(n) => if n < 0 then Err(BadEstimate) else Ok(Some(n as real))
      case Real(x) => if x < 0.0 then Err(BadEstimate) else Ok(Some(x))
      case _ => Err(BadEstimate)
  }

  function NonEmptyTexts(h: Host, js: seq<Json>): seq<string> {
    if js == [] then []
    else
      var s := Text(h, js[0]);
      (if s == "" then [] else [s]) + NonEmptyTexts(h, js[1..])
  }

  function GivenExecution(h: Host, j: Option<Json>): Option<Execution> {
    if j.None? || !j.value.Obj? then None
    else
      var fields := j.value.fields;
      var ids := Get(fields, "assignment_ids");
      Some(Execution(if ids.Some? && ids.value.Arr? then NonEmptyTexts(h, ids.value.items) else [],
                     TextOf(h, fields, "active_assignment_id", ""),
                     TextOf(h, fields, "updated_at", "")))
  }

  function Children(fields: Dict<Json>): (r: Planned<seq<Json>>)
    ensures r.Ok? && r.value != [] ==> exists i :: 0 <= i < |fields| && fields[i].1 == Arr(r.value)
  {
    var j := Get(fields, "subtasks");
    if j.None? then Ok([])
    else if j.value.Arr? then
      GetIsEntry(fields, "subtasks");
      Ok(j.value.items)
    else Err(SubtasksNotAList)
  }

  datatype Labels = Labels(status: Status, priority: string)

  function ReadLabels(h: Host, fields: Dict<Json>): (r: Planned<Labels>)
    ensures r.Ok? ==> r.value.priority in PRIORITIES
  {
    var status := ParseStatus(TextOf(h, fields, "status", "not_started"));
    var priority := TextOf(h, fields, "priority", "medium");
    if status.None? || priority !in PRIORITIES then Err(BadStatusOrPriority)
    else Ok(Labels(status.value, priority))
  }

  function ReadTitle(h: Host, fields: Dict<Json>): Planned<string> {
    var title := Strip(TextOf(h, fields, "title", ""));
    if title == "" then Err(TitleRequired) else Ok(Take(title, 1_000))
  }

  /** Everything `_normalize_item` checks and reads before it turns to the subtasks, in its order. */
  function Header(h: Host, fields: Dict<Json>, seen: set<string>): (r: Planned<Item>)
    ensures r.Ok? ==> r.value.id == TaskId(h, fields, |seen|) && r.value.id != "" && r.value.id !in seen
    ensures r.Ok? ==> r.value.subtasks == [] && r.value.priority in PRIORITIES
    ensures r.Ok? && r.value.estimate.Some? ==> r.value.estimate.value >= 0.0
    ensures r.Ok? ==> Children(fields).Ok?
  {
    var id := TaskId(h, fields, |seen|);
    if id == "" || id in seen then Err(BadTaskId)
    else
      var labels :- ReadLabels(h, fields);
      var _ :- Children(fields);
      var estimate :- Estimate(Get(fields, "estimated_minutes"));
      var title :- ReadTitle(h, fields);
      Ok(Item(id, title, Take(TextOf(h, fields, "description", ""), 12_000),
              labels.status, labels.priority, estimate, [], GivenExecution(h, Get(fields, "execution"))))
  }

  /** `_normalize_item`, threading the set of names already taken. */
  function Normalize(h: Host, j: Json, seen: set<string>): Planned<(Item, set<string>)>
    decreases j, 1
  {
    if !j.Obj? then Err(TaskNotAnObject)
    else
      var head :- Header(h, j.fields, seen);
      var raw :- Children(j.fields);
      var (subtasks, taken) :-
        if raw == [] then Ok(([], seen + {head.id})) else NormalizeAll(h, raw, seen + {head.id});
      Ok((head.(subtasks := subtasks), taken))
  }

  function NormalizeAll(h: Host, js: seq<Json>, seen: set<string>): Planned<(seq<Item>, set<string>)>
    decreases js, 0
  {
    if js == [] then Ok(([], seen))
    else
      var (head, taken) :- Normalize(h, js[0], seen);
      var (rest, all) :- NormalizeAll(h, js[1..], taken);
      Ok(([head] + rest, all))
  }

  function SetPlan(h: Host, plans: Dict<Plan>, agent: string, goal: string, summary: string,
                   tasks: Json, now: string): Planned<Dict<Plan>> {
    if !tasks.Arr? then Err(TasksNotAList)
    else if Strip(goal) == "" then Err(GoalRequired)
    else
      var (items, _) :- NormalizeAll(h, tasks.items, {});
      Ok(Put(plans, agent, Plan(Take(Strip(goal), 4_000), Take(Strip(summary), 12_000), DeriveAll(items), now)))
  }

  // ---- edits of one leaf ------------------------------------------------------

  datatype LeafEdit = SetStatus(status: Status) | BindTo(assignment: string, now: string)

  function EditLeaf(item: Item, e: LeafEdit): Item {
    match e
    case SetStatus(s) => item.(status := s)
    case BindTo(a, now) =>
      var ids := if item.execution.Some? then item.execution.value.assignmentIds else [];
      item.(status := InProgress, execution := Some(Execution(Dedup(ids + [a]), a, now)))
  }

  function NotALeaf(e: LeafEdit): DomainError {
    if e.SetStatus? then ParentStatusDerived else OnlyLeafBindable
  }

  /** The recursive `change`/`bind` walk: rewrite the named leaf, re-derive every parent, note a hit. */
  function Edit(item: Item, id: string, e: LeafEdit): Planned<(Item, bool)>
    decreases item, 1
  {
    if item.id == id then
      if item.subtasks != [] then Err(NotALeaf(e)) else Ok((EditLeaf(item, e), true))
    else
      var (children, found) :- EditAll(item.subtasks, id, e);
      Ok((Derive(item.(subtasks := children)), found))
  }

  function EditAll(items: seq<Item>, id: string, e: LeafEdit): Planned<(seq<Item>, bool)>
    decreases items, 0
  {
    if items == [] then Ok(([], false))
    else
      var (head, here) :- Edit(items[0], id, e);
      var (rest, later) :- EditAll(items[1..], id, e);
      Ok(([head] + rest, here || later))
  }

  function UpdateTask(plans: Dict<Plan>, agent: string, id: string, status: string, now: string): Planned<Dict<Plan>> {
    var s := ParseStatus(status);
    if s.None? then Err(InvalidStatus)
    else
      var plan := Get(plans, agent);
      if plan.None? then Err(PlanMissing)
      else
        var (tasks, found) :- EditAll(plan.value.tasks, id, SetStatus(s.value));
        if !found then Err(UnknownTask)
        else Ok(Put(plans, agent, plan.value.(tasks := tasks, updatedAt := now)))
  }

  /** Position of the first plan, in dict order, holding the task; the length when none does. */
  function OwnerOf(plans: Dict<Plan>, id: string): (i: nat)
    ensures i <= |plans|
    ensures i < |plans| ==> id in Ids(plans[i].1.tasks)
    ensures forall k :: 0 <= k < i ==> id !in Ids(plans[k].1.tasks)
  {
    if plans == [] then 0
    else if FindTask(plans[0].1.tasks, id).Some? then 0
    else 1 + OwnerOf(plans[1..], id)
  }

  function Bind(plans: Dict<Plan>, id: string, assignment: string, now: string): Planned<Dict<Plan>> {
    if Strip(assignment) == "" then Err(AssignmentRequired)
    else if OwnerOf(plans, id) == |plans| then Err(UnknownTask)
    else BindAt(plans, OwnerOf(plans, id), id, assignment, now)
  }

  function BindAt(plans: Dict<Plan>, i: nat, id: string, assignment: string, now: string): Planned<Dict<Plan>>
    requires i < |plans|
  {
    var (name, plan) := plans[i];
    var (tasks, _) :- EditAll(plan.tasks, id, BindTo(assignment, now));
    Ok(plans[i := (name, plan.(tasks := tasks, updatedAt := now))])
  }

  // ---- reports ----------------------------------------------------------------

  predicate Active(item: Item, assignment: string) {
    item.execution.Some? && item.execution.value.active == assignment
  }

  function Reported(item: Item, s: Status, now: string): Item
    requires item.execution.Some?
  {
    item.(status := s, execution := Some(item.execution.value.(updatedAt := now)))
  }

  /** The recursive `update` walk: a matching task is rewritten as it stands, any other re-derives. */
  function Report(item: Item, assignment: string, s: Status, now: string): (Item, bool)
    decreases item, 1
  {
    if Active(item, assignment) then (Reported(item, s, now), true)
    else
      var (children, changed) := ReportAll(item.subtasks, assignment, s, now);
      (Derive(item.(subtasks := children)), changed)
  }

  function ReportAll(items: seq<Item>, assignment: string, s: Status, now: string): (seq<Item>, bool)
    decreases items, 0
  {
    if items == [] then ([], false)
    else
      var (head, here) := Report(items[0], assignment, s, now);
      var (rest, later) := ReportAll(items[1..], assignment, s, now);
      ([head] + rest, here || later)
  }

  /** Whether `_find_task` yields a leaf. */
  predicate FindsLeaf(items: seq<Item>, id: string) {
    FindTask(items, id).Some? && FindTask(items, id).value.subtasks == []
  }

  /** First plan, in dict order, in which the report changes something. */
  function ReportedPlan(plans: Dict<Plan>, assignment: string, s: Status, now: string): (i: nat)
    ensures i <= |plans|
    ensures i < |plans| ==> ReportAll(plans[i].1.tasks, assignment, s, now).1
    ensures forall k :: 0 <= k < i ==> !ReportAll(plans[k].1.tasks, assignment, s, now).1
  {
    if plans == [] then 0
    else if ReportAll(plans[0].1.tasks, assignment, s, now).1 then 0
    else 1 + ReportedPlan(plans[1..], assignment, s, now)
  }

  function UpdateAssignment(plans: Dict<Plan>, assignment: string, status: string, now: string): Planned<Dict<Plan>> {
    var s := ParseStatus(status);
    if s.None? then Err(InvalidStatus)
    else
      var i := ReportedPlan(plans, assignment, s.value, now);
      if i == |plans| then Ok(plans)
      else
        var (name, plan) := plans[i];
        Ok(plans[i := (name, plan.(tasks := ReportAll(plan.tasks, assignment, s.value, now).0, updatedAt := now))])
  }

  /** The guard of a dispatch: some plan finds the task as a leaf. */
  predicate Bindable(plans: Dict<Plan>, task: string) {
    exists i :: 0 <= i < |plans| && FindsLeaf(plans[i].1.tasks, task)
  }
}
