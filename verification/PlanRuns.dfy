/** Runs of plan operations, on trees and on leaves. */
module PlanRuns {
  import opened Wrappers
  import opened Dicts
  import opened PyText
  import opened Blueprints
  import opened PlanTree
  import opened Plans
  import opened PlanProofs

  datatype Op =
    | BindOp(task: string, assignment: string, now: string)
    | ReportOp(assignment: string, status: string, now: string)
    | UpdateOp(agent: string, task: string, status: string, now: string)

  function Outcome(plans: Dict<Plan>, op: Op): Planned<Dict<Plan>> {
    match op
    case BindOp(task, assignment, now) => Bind(plans, task, assignment, now)
    case ReportOp(assignment, status, now) => UpdateAssignment(plans, assignment, status, now)
    case UpdateOp(agent, task, status, now) => UpdateTask(plans, agent, task, status, now)
  }

  /** A failed operation changes nothing. */
  function Step(plans: Dict<Plan>, op: Op): Dict<Plan> {
    match Outcome(plans, op)
    case Ok(after) => after
    case Err(_) => plans
  }

  function Run(plans: Dict<Plan>, ops: seq<Op>): Dict<Plan>
    decreases |ops|
  {
    if ops == [] then plans else Run(Step(plans, ops[0]), ops[1..])
  }

  predicate AllSound(plans: Dict<Plan>) {
    Distinct(plans) && forall i :: 0 <= i < |plans| ==> Sound(plans[i].1.tasks)
  }

  // ---- the flat view: leaves only ---------------------------------------------

  datatype FlatPlan = FlatPlan(owner: string, names: set<string>, leaves: seq<Item>)

  function FlattenOne(owner: string, plan: Plan): FlatPlan {
    FlatPlan(owner, Ids(plan.tasks), Leaves(plan.tasks))
  }

  function Flatten(plans: Dict<Plan>): (r: seq<FlatPlan>)
    ensures |r| == |plans|
    ensures forall i :: 0 <= i < |r| ==> r[i] == FlattenOne(plans[i].0, plans[i].1)
  {
    seq(|plans|, i requires 0 <= i < |plans| => FlattenOne(plans[i].0, plans[i].1))
  }

  predicate Names(leaves: seq<Item>, id: string) {
    exists i :: 0 <= i < |leaves| && leaves[i].id == id
  }

  predicate Listens(leaves: seq<Item>, assignment: string) {
    exists i :: 0 <= i < |leaves| && Active(leaves[i], assignment)
  }

  /** Index of the first plan satisfying p; the length when none does. */
  function First(flat: seq<FlatPlan>, p: FlatPlan -> bool): (i: nat)
    ensures i <= |flat|
    ensures i < |flat| ==> p(flat[i])
    ensures forall k :: 0 <= k < i ==> !p(flat[k])
  {
    if flat == [] || p(flat[0]) then 0
    else
      var i := First(flat[1..], p);
      assert forall k :: 0 < k < 1 + i ==> flat[k] == flat[1..][k - 1];
      1 + i
  }

  function Rewrite(flat: seq<FlatPlan>, i: nat, f: Item -> Item): seq<FlatPlan>
    requires i < |flat|
  {
    flat[i := flat[i].(leaves := Each(f, flat[i].leaves))]
  }

  /** The same operations on plain lists of leaves, with no tree and no derived state. */
  function FlatStep(flat: seq<FlatPlan>, op: Op): seq<FlatPlan> {
    match op
    case BindOp(task, assignment, now) =>
      var i := First(flat, (p: FlatPlan) => task in p.names);
      if Strip(assignment) == "" || i == |flat| || !Names(flat[i].leaves, task) then flat
      else Rewrite(flat, i, EditOf(task, BindTo(assignment, now)))
    case ReportOp(assignment, status, now) =>
      var i := First(flat, (p: FlatPlan) => Listens(p.leaves, assignment));
      if ParseStatus(status).None? || i == |flat| then flat
      else Rewrite(flat, i, ReportOf(assignment, ParseStatus(status).value, now))
    case UpdateOp(agent, task, status, _) =>
      var i := First(flat, (p: FlatPlan) => p.owner == agent);
      if ParseStatus(status).None? || i == |flat| || !Names(flat[i].leaves, task) then flat
      else Rewrite(flat, i, EditOf(task, SetStatus(ParseStatus(status).value)))
  }

  function FlatRun(flat: seq<FlatPlan>, ops: seq<Op>): seq<FlatPlan>
    decreases |ops|
  {
    if ops == [] then flat else FlatRun(FlatStep(flat, ops[0]), ops[1..])
  }

  // ---- refinement -------------------------------------------------------------

  lemma FirstIs(flat: seq<FlatPlan>, p: FlatPlan -> bool, i: nat)
    requires i <= |flat| && (i < |flat| ==> p(flat[i])) && forall k :: 0 <= k < i ==> !p(flat[k])
    ensures First(flat, p) == i
  {
  }

  /** Same owners, same trees, sound again. */
  ghost predicate SameShape(a: Dict<Plan>, b: Dict<Plan>) {
    && |a| == |b|
    && forall i :: 0 <= i < |a| ==> a[i].0 == b[i].0 && SameTree(a[i].1.tasks, b[i].1.tasks)
  }

  lemma {:induction false} SameTreeRefl(items: seq<Item>)
    ensures SameTree(items, items)
  {
    if items != [] {
      SameTreeRefl(items[0].subtasks);
      SameTreeRefl(items[1..]);
    }
  }

  lemma {:induction false} SameTreeTrans(a: seq<Item>, b: seq<Item>, c: seq<Item>)
    requires SameTree(a, b) && SameTree(b, c)
    ensures SameTree(a, c)
  {
    if a != [] {
      SameTreeTrans(a[0].subtasks, b[0].subtasks, c[0].subtasks);
      SameTreeTrans(a[1..], b[1..], c[1..]);
    }
  }

  lemma SameShapeRefl(plans: Dict<Plan>)
    ensures SameShape(plans, plans)
  {
    forall i | 0 <= i < |plans| ensures SameTree(plans[i].1.tasks, plans[i].1.tasks) {
      SameTreeRefl(plans[i].1.tasks);
    }
  }

  lemma {:induction false} RenamedKeys(a: Dict<Plan>, b: Dict<Plan>)
    requires |a| == |b| && forall i :: 0 <= i < |a| ==> a[i].0 == b[i].0
    ensures Keys(a) == Keys(b)
    ensures Distinct(a) ==> Distinct(b)
  {
    if a != [] { RenamedKeys(a[1..], b[1..]); }
  }

  /** Replacing one plan by a sound one of the same tree whose leaves are the rewritten leaves. */
  lemma {:induction false} Replaced(plans: Dict<Plan>, i: nat, plan: Plan, f: Item -> Item)
    requires AllSound(plans) && i < |plans|
    requires Sound(plan.tasks) && SameTree(plans[i].1.tasks, plan.tasks)
    requires Leaves(plan.tasks) == Each(f, Leaves(plans[i].1.tasks))
    ensures var after := plans[i := (plans[i].0, plan)];
      && AllSound(after) && SameShape(plans, after)
      && Flatten(after) == Rewrite(Flatten(plans), i, f)
  {
    var after := plans[i := (plans[i].0, plan)];
    RenamedKeys(plans, after);
    SameTreeKeepsFacts(plans[i].1.tasks, plan.tasks);
    forall k | 0 <= k < |plans| ensures SameTree(plans[k].1.tasks, after[k].1.tasks) {
      SameTreeRefl(plans[k].1.tasks);
    }
    assert Flatten(after) == Rewrite(Flatten(plans), i, f);
  }

  lemma NamesIsHasLeaf(items: seq<Item>, id: string)
    ensures Names(Leaves(items), id) <==> HasLeaf(items, id)
  {
    if HasLeaf(items, id) {
      var x :| x in Leaves(items) && x.id == id;
    }
  }

  lemma {:induction false} BindRefines(plans: Dict<Plan>, task: string, assignment: string, now: string)
    requires AllSound(plans)
    ensures var op := BindOp(task, assignment, now);
      && AllSound(Step(plans, op)) && SameShape(plans, Step(plans, op))
      && Flatten(Step(plans, op)) == FlatStep(Flatten(plans), op)
  {
    SameShapeRefl(plans);
    var i, e := OwnerOf(plans, task), BindTo(assignment, now);
    FirstIs(Flatten(plans), (p: FlatPlan) => task in p.names, i);
    if Strip(assignment) != "" && i < |plans| {
      var plan := plans[i].1;
      NamesIsHasLeaf(plan.tasks, task);
      EditSucceedsExactlyOnLeaves(plan.tasks, task, e);
      IdsAreParentsAndLeaves(plan.tasks, task);
      if HasLeaf(plan.tasks, task) {
        EditIsExact(plan.tasks, task, e);
        Replaced(plans, i, plan.(tasks := EditAll(plan.tasks, task, e).value.0, updatedAt := now), EditOf(task, e));
      }
    }
  }

  lemma {:induction false} ReportRefines(plans: Dict<Plan>, assignment: string, status: string, now: string)
    requires AllSound(plans)
    ensures var op := ReportOp(assignment, status, now);
      && AllSound(Step(plans, op)) && SameShape(plans, Step(plans, op))
      && Flatten(Step(plans, op)) == FlatStep(Flatten(plans), op)
  {
    SameShapeRefl(plans);
    var s := ParseStatus(status);
    if s.Some? {
      var i := ReportedPlan(plans, assignment, s.value, now);
      forall k | 0 <= k < |plans|
        ensures ReportAll(plans[k].1.tasks, assignment, s.value, now).1
          <==> Listens(Flatten(plans)[k].leaves, assignment)
      {
        ReportIsMapLeaves(plans[k].1.tasks, assignment, s.value, now);
      }
      FirstIs(Flatten(plans), (p: FlatPlan) => Listens(p.leaves, assignment), i);
      if i < |plans| {
        var plan := plans[i].1;
        ReportIsExact(plan.tasks, assignment, s.value, now);
        Replaced(plans, i, plan.(tasks := ReportAll(plan.tasks, assignment, s.value, now).0, updatedAt := now),
                 ReportOf(assignment, s.value, now));
      }
    }
  }

  lemma {:induction false} UpdateOne(plans: Dict<Plan>, i: nat, task: string, s: Status, now: string)
    requires AllSound(plans) && i < |plans| && HasLeaf(plans[i].1.tasks, task)
    requires EditAll(plans[i].1.tasks, task, SetStatus(s)).Ok?
    ensures var plan := plans[i].1;
      var changed := plan.(tasks := EditAll(plan.tasks, task, SetStatus(s)).value.0, updatedAt := now);
      var after := Put(plans, plans[i].0, changed);
      && AllSound(after) && SameShape(plans, after)
      && Flatten(after) == Rewrite(Flatten(plans), i, EditOf(task, SetStatus(s)))
  {
    var plan, e := plans[i].1, SetStatus(s);
    EditIsExact(plan.tasks, task, e);
    var changed := plan.(tasks := EditAll(plan.tasks, task, e).value.0, updatedAt := now);
    PutAt(plans, i, changed);
    Replaced(plans, i, changed, EditOf(task, e));
  }

  lemma {:induction false} OwnerFound(plans: Dict<Plan>, agent: string)
    requires AllSound(plans)
    ensures var i := First(Flatten(plans), (p: FlatPlan) => p.owner == agent);
      if i < |plans| then plans[i].0 == agent && Get(plans, agent) == Some(plans[i].1) else Get(plans, agent).None?
  {
    var i := First(Flatten(plans), (p: FlatPlan) => p.owner == agent);
    KeysByIndex(plans, agent);
    if i < |plans| {
      assert Flatten(plans)[i].owner == agent;
      GetAt(plans, i);
    } else {
      assert forall k :: 0 <= k < |plans| ==> Flatten(plans)[k].owner != agent;
    }
  }

  lemma {:induction false} UpdateRefines(plans: Dict<Plan>, agent: string, task: string, status: string, now: string)
    requires AllSound(plans)
    ensures var op := UpdateOp(agent, task, status, now);
      && AllSound(Step(plans, op)) && SameShape(plans, Step(plans, op))
      && Flatten(Step(plans, op)) == FlatStep(Flatten(plans), op)
  {
    SameShapeRefl(plans);
    OwnerFound(plans, agent);
    var s, i := ParseStatus(status), First(Flatten(plans), (p: FlatPlan) => p.owner == agent);
    if s.Some? && i < |plans| {
      NamesIsHasLeaf(plans[i].1.tasks, task);
      EditSucceedsExactlyOnLeaves(plans[i].1.tasks, task, SetStatus(s.value));
      if HasLeaf(plans[i].1.tasks, task) { UpdateOne(plans, i, task, s.value, now); }
    }
  }

  lemma {:induction false} SameShapeTrans(a: Dict<Plan>, b: Dict<Plan>, c: Dict<Plan>)
    requires SameShape(a, b) && SameShape(b, c)
    ensures SameShape(a, c)
  {
    forall i | 0 <= i < |a| ensures SameTree(a[i].1.tasks, c[i].1.tasks) {
      SameTreeTrans(a[i].1.tasks, b[i].1.tasks, c[i].1.tasks);
    }
  }

  /** Over any run the tree operations act as their flat forms do on the leaves; everything else stays. */
  lemma {:induction false} RunRefinesFlat(plans: Dict<Plan>, ops: seq<Op>)
    requires AllSound(plans)
    ensures AllSound(Run(plans, ops)) && SameShape(plans, Run(plans, ops))
    ensures Flatten(Run(plans, ops)) == FlatRun(Flatten(plans), ops)
    decreases |ops|
  {
    if ops == [] {
      SameShapeRefl(plans);
    } else {
      match ops[0] {
        case BindOp(task, assignment, now) => BindRefines(plans, task, assignment, now);
        case ReportOp(assignment, status, now) => ReportRefines(plans, assignment, status, now);
        case UpdateOp(agent, task, status, now) => UpdateRefines(plans, agent, task, status, now);
      }
      var next := Step(plans, ops[0]);
      RunRefinesFlat(next, ops[1..]);
      SameShapeTrans(plans, next, Run(plans, ops));
    }
  }

  // ---- superseded assignments -------------------------------------------------

  /** No leaf of any plan listens to the assignment. */
  predicate Quiet(flat: seq<FlatPlan>, assignment: string) {
    forall i, j :: 0 <= i < |flat| && 0 <= j < |flat[i].leaves| ==> !Active(flat[i].leaves[j], assignment)
  }

  /** A report for an assignment no leaf listens to changes nothing at all. */
  lemma {:induction false} QuietReportIsNoOp(plans: Dict<Plan>, assignment: string, status: string, now: string)
    requires AllSound(plans) && Quiet(Flatten(plans), assignment)
    ensures Step(plans, ReportOp(assignment, status, now)) == plans
  {
    var s := ParseStatus(status);
    if s.Some? {
      forall k | 0 <= k < |plans| ensures !ReportAll(plans[k].1.tasks, assignment, s.value, now).1 {
        ReportIsMapLeaves(plans[k].1.tasks, assignment, s.value, now);
        assert Flatten(plans)[k].leaves == Leaves(plans[k].1.tasks);
      }
    }
  }

  lemma {:induction false} QuietStep(flat: seq<FlatPlan>, op: Op, assignment: string)
    requires Quiet(flat, assignment) && !(op.BindOp? && op.assignment == assignment)
    ensures Quiet(FlatStep(flat, op), assignment)
  {
  }

  lemma {:induction false} QuietRun(flat: seq<FlatPlan>, ops: seq<Op>, assignment: string)
    requires Quiet(flat, assignment)
    requires forall k :: 0 <= k < |ops| ==> !(ops[k].BindOp? && ops[k].assignment == assignment)
    ensures Quiet(FlatRun(flat, ops), assignment)
    decreases |ops|
  {
    if ops != [] {
      QuietStep(flat, ops[0], assignment);
      QuietRun(FlatStep(flat, ops[0]), ops[1..], assignment);
    }
  }

  /** The bound leaf is the only one listening to the assignment. */
  predicate OnlyListener(flat: seq<FlatPlan>, task: string, assignment: string) {
    forall i, j :: 0 <= i < |flat| && 0 <= j < |flat[i].leaves| && Active(flat[i].leaves[j], assignment) ==>
      && flat[i].leaves[j].id == task
      && i == First(flat, (p: FlatPlan) => task in p.names)
  }

  /** Once its only leaf is rebound, an assignment is ignored until it is bound again. */
  lemma {:induction false} SupersededIsIgnored(plans: Dict<Plan>, task: string, older: string, newer: string,
                                               bound: string, later: seq<Op>, status: string, now: string)
    requires AllSound(plans) && newer != older && OnlyListener(Flatten(plans), task, older)
    requires Bind(plans, task, newer, bound).Ok?
    requires forall k :: 0 <= k < |later| ==> !(later[k].BindOp? && later[k].assignment == older)
    ensures var reached := Run(Bind(plans, task, newer, bound).value, later);
      Step(reached, ReportOp(older, status, now)) == reached
  {
    var op := BindOp(task, newer, bound);
    var after := Step(plans, op);
    BindRefines(plans, task, newer, bound);
    BindRebinds(plans, task, older, newer, bound);
    RunRefinesFlat(after, later);
    QuietRun(Flatten(after), later, older);
    QuietReportIsNoOp(Run(after, later), older, status, now);
  }

  lemma {:induction false} BindRebinds(plans: Dict<Plan>, task: string, older: string, newer: string, now: string)
    requires AllSound(plans) && newer != older && OnlyListener(Flatten(plans), task, older)
    requires Bind(plans, task, newer, now).Ok?
    ensures Quiet(Flatten(Bind(plans, task, newer, now).value), older)
  {
    var flat, op := Flatten(plans), BindOp(task, newer, now);
    BindRefines(plans, task, newer, now);
    var i := OwnerOf(plans, task);
    FirstIs(flat, (p: FlatPlan) => task in p.names, i);
    EditSucceedsExactlyOnLeaves(plans[i].1.tasks, task, BindTo(newer, now));
    IdsAreParentsAndLeaves(plans[i].1.tasks, task);
    NamesIsHasLeaf(plans[i].1.tasks, task);
    var after := FlatStep(flat, op);
    assert after == Rewrite(flat, i, EditOf(task, BindTo(newer, now)));
    forall k, j | 0 <= k < |after| && 0 <= j < |after[k].leaves| ensures !Active(after[k].leaves[j], older) {
      if Active(flat[k].leaves[j], older) { assert k == i && flat[k].leaves[j].id == task; }
    }
  }
}
