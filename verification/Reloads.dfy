/** What a restart changes. */
module Reloads {
  import opened Wrappers
  import opened Dicts
  import opened Names
  import opened Blueprints
  import opened PlanTree
  import opened Plans
  import opened StateFile

  /** Plan i comes first by name among those that satisfy the test. */
  predicate LeastOf(plans: Dict<Plan>, i: nat, test: Plan -> bool)
    requires i < |plans|
  {
    forall k :: 0 <= k < |plans| && test(plans[k].1) ==> plans[k].0 == plans[i].0 || Before(plans[i].0, plans[k].0)
  }

  predicate FirstOf(plans: Dict<Plan>, i: nat, test: Plan -> bool) {
    i < |plans| && test(plans[i].1) && forall k :: 0 <= k < i ==> !test(plans[k].1)
  }

  /** The first plan stays the first exactly when its name is the least. */
  lemma {:induction false} FirstStaysExactlyWhen(plans: Dict<Plan>, i: nat, j: nat, test: Plan -> bool)
    requires Distinct(plans) && FirstOf(plans, i, test) && FirstOf(SortDict(plans), j, test)
    ensures SortDict(plans)[j] == plans[i] <==> LeastOf(plans, i, test)
  {
    if SortDict(plans)[j] == plans[i] { FirstIsLeast(plans, i, j, test); }
    if LeastOf(plans, i, test) { LeastStaysFirst(plans, i, j, test); }
  }

  lemma {:induction false} LeastStaysFirst(plans: Dict<Plan>, i: nat, j: nat, test: Plan -> bool)
    requires Distinct(plans) && FirstOf(plans, i, test) && FirstOf(SortDict(plans), j, test) && LeastOf(plans, i, test)
    ensures SortDict(plans)[j] == plans[i]
  {
    var s := SortDict(plans);
    SortFacts(plans);
    SortedEntry(plans, i);
    SortedEntry(plans, j);
    var m :| 0 <= m < |s| && s[m] == plans[i];
    var n :| 0 <= n < |plans| && plans[n] == s[j];
    BeforeIsStrict(s[j].0);
    if j < m && Before(s[m].0, s[j].0) { BeforeChains(s[j].0, s[m].0, s[j].0); }
  }

  lemma {:induction false} FirstIsLeast(plans: Dict<Plan>, i: nat, j: nat, test: Plan -> bool)
    requires Distinct(plans) && i < |plans| && FirstOf(SortDict(plans), j, test) && SortDict(plans)[j] == plans[i]
    ensures LeastOf(plans, i, test)
  {
    var s := SortDict(plans);
    SortFacts(plans);
    forall k | 0 <= k < |plans| && test(plans[k].1)
      ensures plans[k].0 == plans[i].0 || Before(plans[i].0, plans[k].0)
    {
      SortedEntry(plans, k);
      var q :| 0 <= q < |s| && s[q] == plans[k];
    }
  }

  lemma {:induction false} SortedFindsSome(plans: Dict<Plan>, i: nat, test: Plan -> bool)
    requires Distinct(plans) && i < |plans| && test(plans[i].1)
    ensures exists j :: 0 <= j < |SortDict(plans)| && test(SortDict(plans)[j].1)
  {
    SortedEntry(plans, i);
  }

  // ---- binding ----------------------------------------------------------------

  function HoldsTask(task: string): Plan -> bool { (p: Plan) => task in Ids(p.tasks) }

  /** After a reload a bind goes to the same plan exactly when no plan of a lesser name holds the task. */
  lemma {:induction false} BindFindsSamePlanExactlyWhen(plans: Dict<Plan>, task: string)
    requires Distinct(plans) && OwnerOf(plans, task) < |plans|
    ensures var d, i := SortDict(plans), OwnerOf(plans, task); var j := OwnerOf(d, task);
      j < |d| && (d[j] == plans[i] <==> LeastOf(plans, i, HoldsTask(task)))
  {
    var s, i := SortDict(plans), OwnerOf(plans, task);
    SortedFindsSome(plans, i, HoldsTask(task));
    FirstStaysExactlyWhen(plans, i, OwnerOf(s, task), HoldsTask(task));
  }

  // ---- reporting --------------------------------------------------------------

  function Hears(assignment: string, s: Status, now: string): Plan -> bool {
    (p: Plan) => ReportAll(p.tasks, assignment, s, now).1
  }

  /** A report too. */
  lemma {:induction false} ReportFindsSamePlanExactlyWhen(plans: Dict<Plan>, assignment: string, s: Status, now: string)
    requires Distinct(plans) && ReportedPlan(plans, assignment, s, now) < |plans|
    ensures var d, i := SortDict(plans), ReportedPlan(plans, assignment, s, now);
      var j := ReportedPlan(d, assignment, s, now);
      j < |d| && (d[j] == plans[i] <==> LeastOf(plans, i, Hears(assignment, s, now)))
  {
    var d, i := SortDict(plans), ReportedPlan(plans, assignment, s, now);
    SortedFindsSome(plans, i, Hears(assignment, s, now));
    FirstStaysExactlyWhen(plans, i, ReportedPlan(d, assignment, s, now), Hears(assignment, s, now));
  }

  // ---- operations before and after a reload -----------------------------------

  function SortOk(r: Planned<Dict<Plan>>): Planned<Dict<Plan>> {
    match r
    case Ok(plans) => Ok(SortDict(plans))
    case Err(e) => Err(e)
  }

  /** Rewriting one entry commutes with sorting. */
  lemma {:induction false} RewriteCommutes(plans: Dict<Plan>, i: nat, j: nat, p: Plan)
    requires Distinct(plans) && i < |plans| && j < |SortDict(plans)| && SortDict(plans)[j].0 == plans[i].0
    ensures SortDict(plans)[j := (plans[i].0, p)] == SortDict(plans[i := (plans[i].0, p)])
  {
    var s := SortDict(plans);
    SortFacts(plans);
    PutAt(plans, i, p);
    PutAt(s, j, p);
    PutCommutes(plans, plans[i].0, p);
    assert Distinct(Put(s, plans[i].0, p));
  }

  lemma {:induction false} PutCommutes(plans: Dict<Plan>, name: string, p: Plan)
    requires Distinct(plans) && name in Keys(plans)
    ensures Put(SortDict(plans), name, p) == SortDict(Put(plans, name, p))
  {
    var s := SortDict(plans);
    SortFacts(plans);
    SortFacts(Put(plans, name, p));
    PutKeepsOrder(s, name, p);
    forall k ensures Get(Put(s, name, p), k) == Get(SortDict(Put(plans, name, p)), k) {
      GetPut(s, name, p, k);
      GetPut(plans, name, p, k);
    }
    OrderedIsUnique(Put(s, name, p), SortDict(Put(plans, name, p)));
  }

  lemma {:induction false} PutKeepsOrder(d: Dict<Plan>, name: string, p: Plan)
    requires InOrder(d) && name in Keys(d)
    ensures InOrder(Put(d, name, p))
  {
    OrderedIsDistinct(d);
    KeysByIndex(d, name);
    var j :| 0 <= j < |d| && d[j].0 == name;
    PutAt(d, j, p);
  }

  /** An update names its plan, so a reload before it makes no difference. */
  lemma {:induction false} UpdateIgnoresReload(plans: Dict<Plan>, agent: string, id: string, status: string,
                                               now: string)
    requires Distinct(plans)
    ensures UpdateTask(SortDict(plans), agent, id, status, now) == SortOk(UpdateTask(plans, agent, id, status, now))
  {
    SortFacts(plans);
    var s, plan := ParseStatus(status), Get(plans, agent);
    if s.Some? && plan.Some? {
      var r := EditAll(plan.value.tasks, id, SetStatus(s.value));
      if r.Ok? && r.value.1 { PutCommutes(plans, agent, plan.value.(tasks := r.value.0, updatedAt := now)); }
    }
  }

  /** A bind or a report that finds the same plan changes it in the same way. */
  lemma {:induction false} BindSurvivesReload(plans: Dict<Plan>, task: string, assignment: string, now: string)
    requires Distinct(plans)
    requires OwnerOf(plans, task) < |plans| ==> LeastOf(plans, OwnerOf(plans, task), HoldsTask(task))
    ensures Bind(SortDict(plans), task, assignment, now) == SortOk(Bind(plans, task, assignment, now))
  {
    var d, i := SortDict(plans), OwnerOf(plans, task);
    SortFacts(plans);
    if i < |plans| {
      BindFindsSamePlanExactlyWhen(plans, task);
      var r := EditAll(plans[i].1.tasks, task, BindTo(assignment, now));
      if r.Ok? { RewriteCommutes(plans, i, OwnerOf(d, task), plans[i].1.(tasks := r.value.0, updatedAt := now)); }
    } else {
      NoneAfterSort(plans, HoldsTask(task));
    }
  }

  lemma {:induction false} ReportSurvivesReload(plans: Dict<Plan>, assignment: string, status: string, now: string)
    requires Distinct(plans)
    requires ParseStatus(status).Some? ==>
      (var i := ReportedPlan(plans, assignment, ParseStatus(status).value, now);
       i < |plans| ==> LeastOf(plans, i, Hears(assignment, ParseStatus(status).value, now)))
    ensures UpdateAssignment(SortDict(plans), assignment, status, now)
      == SortOk(UpdateAssignment(plans, assignment, status, now))
  {
    SortFacts(plans);
    if ParseStatus(status).Some? {
      var s := ParseStatus(status).value;
      var d, i := SortDict(plans), ReportedPlan(plans, assignment, s, now);
      if i < |plans| {
        ReportFindsSamePlanExactlyWhen(plans, assignment, s, now);
        RewriteCommutes(plans, i, ReportedPlan(d, assignment, s, now),
          plans[i].1.(tasks := ReportAll(plans[i].1.tasks, assignment, s, now).0, updatedAt := now));
      } else {
        NoneAfterSort(plans, Hears(assignment, s, now));
      }
    }
  }

  lemma {:induction false} NoneAfterSort(plans: Dict<Plan>, test: Plan -> bool)
    requires Distinct(plans) && forall k :: 0 <= k < |plans| ==> !test(plans[k].1)
    ensures |SortDict(plans)| == |plans| && forall k :: 0 <= k < |plans| ==> !test(SortDict(plans)[k].1)
  {
    SortFacts(plans);
    forall k | 0 <= k < |plans| ensures !test(SortDict(plans)[k].1) {
      SortedEntry(plans, k);
    }
  }

  /** Two plans that hold a task of one name: before a restart a bind goes to z, afterwards to a. */
  lemma BindMovesAfterReload(p: Plan, task: string)
    requires task in Ids(p.tasks)
    ensures var plans: Dict<Plan> := [("z", p), ("a", p)];
      var d := SortDict(plans);
      plans[OwnerOf(plans, task)].0 == "z" && OwnerOf(d, task) < |d| && d[OwnerOf(d, task)].0 == "a"
  {
    var plans: Dict<Plan> := [("z", p), ("a", p)];
    assert plans[1..] == [("a", p)] && plans[1..][1..] == [];
    assert SortDict(plans[1..][1..]) == [];
    assert SortDict(plans[1..]) == [("a", p)];
    assert [("a", p)][1..] == [];
    assert !Before("z", "a");
    assert Slot([], ("z", p)) == [("z", p)];
    assert SortDict(plans) == [("a", p), ("z", p)];
  }
}
