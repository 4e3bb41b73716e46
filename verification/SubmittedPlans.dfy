/** What a submitted plan says. */
module SubmittedPlans {
  import opened Wrappers
  import opened Dicts
  import opened PyText
  import opened JsonValues
  import opened Blueprints
  import opened PlanTree
  import opened Plans
  import opened TextLaws

  // ---- what a submitted value says --------------------------------------------

  /** The value as text: a string is itself. */
  predicate Reads(h: Host, j: Json, s: string) {
    if j.Str? then j.text == s else h.str(j) == s
  }

  predicate Says(h: Host, fields: Dict<Json>, key: string, default: string, s: string) {
    var j := Get(fields, key); if j.Some? then Reads(h, j.value, s) else s == default
  }

  /** What Python takes for false. */
  predicate Empty(j: Json) {
    j in {Null, Bool(false), Int(0), Real(0.0), Str(""), Arr([]), Obj([])}
  }

  predicate Given(fields: Dict<Json>, key: string) {
    Get(fields, key).Some? && !Empty(Get(fields, key).value)
  }

  predicate NameSaid(h: Host, fields: Dict<Json>, raw: string, before: nat) {
    if Given(fields, "id") then Reads(h, Get(fields, "id").value, raw)
    else if Given(fields, "task_id") then Reads(h, Get(fields, "task_id").value, raw)
    else raw == h.generated(before)
  }

  /** Its own name, or its alias, or a generated one, without spaces around. */
  ghost predicate IsNamed(h: Host, fields: Dict<Json>, id: string, before: nat) {
    exists raw :: NameSaid(h, fields, raw, before) && StripsTo(raw, id)
  }

  ghost predicate TitleSaid(h: Host, fields: Dict<Json>, raw: string, whole: string, title: string) {
    Says(h, fields, "title", "", raw) && StripsTo(raw, whole) && whole != "" && IsCut(whole, title, 1_000)
  }

  /** A title is not blank; its first 1000 characters count. */
  ghost predicate IsTitled(h: Host, fields: Dict<Json>, title: string) {
    exists raw, whole :: TitleSaid(h, fields, raw, whole, title)
  }

  ghost predicate IsDescribed(h: Host, fields: Dict<Json>, description: string) {
    exists raw :: Says(h, fields, "description", "", raw) && IsCut(raw, description, 12_000)
  }

  predicate IsState(h: Host, fields: Dict<Json>, status: Status, priority: string) {
    && Says(h, fields, "status", "not_started", StatusText(status))
    && Says(h, fields, "priority", "medium", priority) && priority in {"low", "medium", "high", "critical"}
  }

  /** A number not below zero, flags counting as numbers; absent or null is no estimate. */
  predicate IsEstimated(j: Option<Json>, estimate: Option<real>) {
    match estimate
    case None => j.None? || j.value.Null?
    case Some(x) =>
      j.Some? && x >= 0.0 && (j.value == Real(x) || (j.value.Int? && j.value.number as real == x)
                              || (j.value == Bool(true) && x == 1.0) || (j.value == Bool(false) && x == 0.0))
  }

  /** In order, those that are not empty. */
  predicate KeepsTexts(h: Host, js: seq<Json>, texts: seq<string>) {
    if js == [] then texts == []
    else
      var init, last := js[..|js| - 1], js[|js| - 1];
      if Reads(h, last, "") then KeepsTexts(h, init, texts)
      else texts != [] && Reads(h, last, texts[|texts| - 1]) && KeepsTexts(h, init, texts[..|texts| - 1])
  }

  predicate IsTracked(h: Host, fields: Dict<Json>, e: Execution) {
    && (var ids := Get(fields, "assignment_ids");
        if ids.Some? && ids.value.Arr? then KeepsTexts(h, ids.value.items, e.assignmentIds) else e.assignmentIds == [])
    && Says(h, fields, "active_assignment_id", "", e.active) && Says(h, fields, "updated_at", "", e.updatedAt)
  }

  /** Anything but an object is no execution. */
  predicate IsExecuted(h: Host, j: Option<Json>, execution: Option<Execution>) {
    if j.Some? && j.value.Obj? then execution.Some? && IsTracked(h, j.value.fields, execution.value)
    else execution.None?
  }

  /** Everything of a task but its subtasks; its name is none of those before. */
  ghost predicate IsHead(h: Host, fields: Dict<Json>, item: Item, before: set<string>) {
    && IsNamed(h, fields, item.id, |before|) && item.id != "" && item.id !in before
    && IsState(h, fields, item.status, item.priority)
    && IsEstimated(Get(fields, "estimated_minutes"), item.estimate)
    && IsTitled(h, fields, item.title) && IsDescribed(h, fields, item.description)
    && IsExecuted(h, Get(fields, "execution"), item.execution)
  }

  predicate HasSubtasks(fields: Dict<Json>, js: seq<Json>) {
    Get(fields, "subtasks") == Some(Arr(js)) || (Get(fields, "subtasks").None? && js == [])
  }

  function Below(j: Json): seq<Json> {
    if j.Obj? && Get(j.fields, "subtasks").Some? && Get(j.fields, "subtasks").value.Arr? then
      Get(j.fields, "subtasks").value.items
    else []
  }

  ghost predicate IsSubmitted(h: Host, j: Json, item: Item, before: set<string>)
    decreases item, 1
  {
    && j.Obj? && IsHead(h, j.fields, item, before) && HasSubtasks(j.fields, Below(j))
    && AreSubmitted(h, Below(j), item.subtasks, before + {item.id})
  }

  /** Task by task in order, every name new. */
  ghost predicate AreSubmitted(h: Host, js: seq<Json>, items: seq<Item>, before: set<string>)
    decreases items, 0
  {
    && |js| == |items|
    && (items != [] ==>
          && IsSubmitted(h, js[0], items[0], before)
          && AreSubmitted(h, js[1..], items[1..], before + {items[0].id} + Ids(items[0].subtasks)))
  }

  // ---- the parts are read so --------------------------------------------------

  lemma TruthyExactlyWhen(j: Json)
    ensures Truthy(j) <==> !Empty(j)
  {
  }

  lemma NamedExactly(h: Host, fields: Dict<Json>, id: string, before: nat)
    ensures TaskId(h, fields, before) == id <==> IsNamed(h, fields, id, before)
  {
    var own, alias := Get(fields, "id"), Get(fields, "task_id");
    if own.Some? { TruthyExactlyWhen(own.value); }
    if alias.Some? { TruthyExactlyWhen(alias.value); }
    var raw := if Given(fields, "id") then Text(h, own.value)
      else if Given(fields, "task_id") then Text(h, alias.value) else h.generated(before);
    assert forall s :: NameSaid(h, fields, s, before) <==> s == raw;
    StripsExactly(raw, id);
  }

  lemma SaysExactly(h: Host, fields: Dict<Json>, key: string, default: string, s: string)
    ensures Says(h, fields, key, default, s) <==> TextOf(h, fields, key, default) == s
  {
  }

  lemma TitledExactly(h: Host, fields: Dict<Json>, title: string)
    ensures ReadTitle(h, fields) == Ok(title) <==> IsTitled(h, fields, title)
  {
    var raw := TextOf(h, fields, "title", "");
    SaysExactly(h, fields, "title", "", raw);
    StripsExactly(raw, Strip(raw));
    CutsExactly(Strip(raw), title, 1_000);
    if ReadTitle(h, fields) == Ok(title) { assert TitleSaid(h, fields, raw, Strip(raw), title); }
    if s, whole :| TitleSaid(h, fields, s, whole, title) {
      SaysExactly(h, fields, "title", "", s);
      StripsExactly(raw, whole);
    }
  }

  lemma DescribedExactly(h: Host, fields: Dict<Json>, s: string)
    ensures Take(TextOf(h, fields, "description", ""), 12_000) == s <==> IsDescribed(h, fields, s)
  {
    var raw := TextOf(h, fields, "description", "");
    forall t ensures Says(h, fields, "description", "", t) <==> t == raw {
      SaysExactly(h, fields, "description", "", t);
    }
    CutsExactly(raw, s, 12_000);
  }

  lemma StateExactly(h: Host, fields: Dict<Json>, status: Status, priority: string)
    ensures ReadLabels(h, fields) == Ok(Labels(status, priority)) <==> IsState(h, fields, status, priority)
  {
    SaysExactly(h, fields, "status", "not_started", StatusText(status));
    SaysExactly(h, fields, "priority", "medium", priority);
  }

  lemma EstimatedExactly(j: Option<Json>, estimate: Option<real>)
    ensures Estimate(j) == Ok(estimate) <==> IsEstimated(j, estimate)
  {
  }

  lemma {:induction false} TextsAppend(h: Host, js: seq<Json>, last: Json)
    ensures NonEmptyTexts(h, js + [last])
      == NonEmptyTexts(h, js) + if Text(h, last) == "" then [] else [Text(h, last)]
  {
    if js == [] {
      assert js + [last] == [last] && [last][1..] == [];
    } else {
      assert (js + [last])[1..] == js[1..] + [last];
      TextsAppend(h, js[1..], last);
    }
  }

  lemma {:induction false} TextsExactly(h: Host, js: seq<Json>, texts: seq<string>)
    ensures NonEmptyTexts(h, js) == texts <==> KeepsTexts(h, js, texts)
  {
    if js != [] {
      var init, last := js[..|js| - 1], js[|js| - 1];
      assert js == init + [last];
      TextsAppend(h, init, last);
      if Text(h, last) == "" {
        TextsExactly(h, init, texts);
      } else if texts != [] {
        TextsExactly(h, init, texts[..|texts| - 1]);
        assert texts == texts[..|texts| - 1] + [texts[|texts| - 1]];
      }
    }
  }

  lemma ExecutedExactly(h: Host, j: Option<Json>, execution: Option<Execution>)
    ensures GivenExecution(h, j) == execution <==> IsExecuted(h, j, execution)
  {
    if j.Some? && j.value.Obj? && execution.Some? {
      var fields, e := j.value.fields, execution.value;
      SaysExactly(h, fields, "active_assignment_id", "", e.active);
      SaysExactly(h, fields, "updated_at", "", e.updatedAt);
      var ids := Get(fields, "assignment_ids");
      if ids.Some? && ids.value.Arr? { TextsExactly(h, ids.value.items, e.assignmentIds); }
    }
  }

  // ---- the whole is read so ---------------------------------------------------

  /** The same task before its subtasks are put in. */
  function Alone(item: Item): Item { item.(subtasks := []) }

  predicate HeadReads(h: Host, fields: Dict<Json>, item: Item, before: set<string>) {
    && TaskId(h, fields, |before|) == item.id && item.id != "" && item.id !in before
    && ReadLabels(h, fields) == Ok(Labels(item.status, item.priority))
    && Estimate(Get(fields, "estimated_minutes")) == Ok(item.estimate)
    && ReadTitle(h, fields) == Ok(item.title)
    && Take(TextOf(h, fields, "description", ""), 12_000) == item.description
    && GivenExecution(h, Get(fields, "execution")) == item.execution
  }

  lemma HeadIsRead(h: Host, fields: Dict<Json>, item: Item, before: set<string>)
    ensures Header(h, fields, before) == Ok(Alone(item)) <==>
      HeadReads(h, fields, item, before) && Children(fields).Ok?
  {
  }

  lemma HeadExactly(h: Host, fields: Dict<Json>, item: Item, before: set<string>)
    ensures HeadReads(h, fields, item, before) <==> IsHead(h, fields, item, before)
  {
    NamedExactly(h, fields, item.id, |before|);
    StateExactly(h, fields, item.status, item.priority);
    EstimatedExactly(Get(fields, "estimated_minutes"), item.estimate);
    TitledExactly(h, fields, item.title);
    DescribedExactly(h, fields, item.description);
    ExecutedExactly(h, Get(fields, "execution"), item.execution);
  }

  lemma BelowExactly(j: Json)
    requires j.Obj?
    ensures Children(j.fields).Ok? <==> HasSubtasks(j.fields, Below(j))
    ensures Children(j.fields).Ok? ==> Children(j.fields).value == Below(j)
  {
  }

  predicate ReadsAs(h: Host, j: Json, item: Item, before: set<string>, after: set<string>) {
    var r := Normalize(h, j, before); r.Ok? && r.value.0 == item && r.value.1 == after
  }

  predicate AllReadAs(h: Host, js: seq<Json>, items: seq<Item>, before: set<string>, after: set<string>) {
    var r := NormalizeAll(h, js, before); r.Ok? && r.value.0 == items && r.value.1 == after
  }

  lemma NoneLeft(h: Host, before: set<string>, items: seq<Item>, after: set<string>)
    ensures AllReadAs(h, [], items, before, after) <==> items == [] && after == before
  {
  }

  lemma {:induction false} TaskStep(h: Host, j: Json, item: Item, before: set<string>, after: set<string>)
    requires j.Obj?
    ensures ReadsAs(h, j, item, before, after) <==>
      && Header(h, j.fields, before) == Ok(Alone(item)) && Children(j.fields).Ok?
      && AllReadAs(h, Below(j), item.subtasks, before + {item.id}, after)
  {
    BelowExactly(j);
    NoneLeft(h, before + {item.id}, item.subtasks, after);
  }

  /** A task is accepted as exactly the task it says. */
  lemma {:induction false} TaskReadsExactly(h: Host, j: Json, item: Item, before: set<string>, after: set<string>)
    ensures ReadsAs(h, j, item, before, after) <==>
      IsSubmitted(h, j, item, before) && after == before + {item.id} + Ids(item.subtasks)
    decreases item, 1
  {
    if j.Obj? {
      TaskStep(h, j, item, before, after);
      HeadIsRead(h, j.fields, item, before);
      HeadExactly(h, j.fields, item, before);
      BelowExactly(j);
      TasksReadExactly(h, Below(j), item.subtasks, before + {item.id}, after);
    }
  }

  lemma ConsIs(items: seq<Item>, head: Item, rest: seq<Item>)
    ensures [head] + rest == items <==> items != [] && items[0] == head && items[1..] == rest
  {
    if items != [] { assert items == [items[0]] + items[1..]; }
    assert ([head] + rest)[1..] == rest;
  }

  lemma {:induction false} ListUnfolds(h: Host, js: seq<Json>, before: set<string>, head: Item, mid: set<string>)
    requires js != []
    requires Normalize(h, js[0], before).Ok? && Normalize(h, js[0], before).value == (head, mid)
    ensures NormalizeAll(h, js, before).Ok? <==> NormalizeAll(h, js[1..], mid).Ok?
    ensures NormalizeAll(h, js, before).Ok? ==>
      NormalizeAll(h, js, before).value.0 == [head] + NormalizeAll(h, js[1..], mid).value.0
    ensures NormalizeAll(h, js, before).Ok? ==>
      NormalizeAll(h, js, before).value.1 == NormalizeAll(h, js[1..], mid).value.1
  {
  }

  lemma {:induction false} ListStep(h: Host, js: seq<Json>, items: seq<Item>, before: set<string>, after: set<string>,
                                    mid: set<string>)
    requires js != [] && items != []
    requires Normalize(h, js[0], before).Ok? && Normalize(h, js[0], before).value.1 == mid
    ensures AllReadAs(h, js, items, before, after) <==>
      ReadsAs(h, js[0], items[0], before, mid) && AllReadAs(h, js[1..], items[1..], mid, after)
  {
    var head := Normalize(h, js[0], before).value.0;
    ListUnfolds(h, js, before, head, mid);
    var rest := NormalizeAll(h, js[1..], mid);
    if rest.Ok? { ConsIs(items, head, rest.value.0); }
  }

  lemma {:induction false} TasksReadExactly(h: Host, js: seq<Json>, items: seq<Item>, before: set<string>,
                                            after: set<string>)
    ensures AllReadAs(h, js, items, before, after) <==>
      AreSubmitted(h, js, items, before) && after == before + Ids(items)
    decreases items, 0
  {
    if js != [] && items != [] {
      var between := before + {items[0].id} + Ids(items[0].subtasks);
      var first := Normalize(h, js[0], before);
      TaskReadsExactly(h, js[0], items[0], before, between);
      if first.Ok? {
        TaskReadsExactly(h, js[0], items[0], before, first.value.1);
        ListStep(h, js, items, before, after, first.value.1);
        TasksReadExactly(h, js[1..], items[1..], between, after);
      }
      IdsOfFirst(items, before);
    }
  }

  lemma IdsOfFirst(items: seq<Item>, before: set<string>)
    requires items != []
    ensures before + Ids(items) == before + {items[0].id} + Ids(items[0].subtasks) + Ids(items[1..])
  {
  }

  // ---- the plan that is stored ------------------------------------------------

  ghost predicate IsStripCut(s: string, r: string, n: nat) {
    exists whole :: StripsTo(s, whole) && IsCut(whole, r, n)
  }

  lemma StripCutExactly(s: string, r: string, n: nat)
    ensures Take(Strip(s), n) == r <==> IsStripCut(s, r, n)
  {
    StripsExactly(s, Strip(s));
    CutsExactly(Strip(s), r, n);
    if whole :| StripsTo(s, whole) && IsCut(whole, r, n) { StripsExactly(s, whole); }
  }

  ghost predicate AreDerived(h: Host, js: seq<Json>, tasks: seq<Item>) {
    exists items :: AreSubmitted(h, js, items, {}) && tasks == DeriveAll(items)
  }

  ghost predicate IsStored(h: Host, goal: string, summary: string, tasks: Json, now: string, p: Plan) {
    && tasks.Arr? && !AllSpace(goal) && p.updatedAt == now
    && IsStripCut(goal, p.goal, 4_000) && IsStripCut(summary, p.summary, 12_000)
    && AreDerived(h, tasks.items, p.tasks)
  }

  /** In its place when the agent had a plan, else behind the others; these stay. */
  predicate IsPlacedAt(plans: Dict<Plan>, agent: string, p: Plan, after: Dict<Plan>) {
    if agent in Keys(plans) then
      && |after| == |plans|
      && forall i :: 0 <= i < |plans| ==> after[i] == if plans[i].0 == agent then (agent, p) else plans[i]
    else after == plans + [(agent, p)]
  }

  lemma {:induction false} PutPlaces(plans: Dict<Plan>, agent: string, p: Plan)
    requires Distinct(plans)
    ensures IsPlacedAt(plans, agent, p, Put(plans, agent, p))
  {
    if agent in Keys(plans) {
      KeysByIndex(plans, agent);
      var i :| 0 <= i < |plans| && plans[i].0 == agent;
      PutAt(plans, i, p);
      forall k | 0 <= k < |plans| && plans[k].0 == agent ensures k == i { OnePlace(plans, i, k); }
    }
  }

  lemma OnePlace(plans: Dict<Plan>, i: nat, k: nat)
    requires Distinct(plans) && i < |plans| && k < |plans| && plans[i].0 == plans[k].0
    ensures i == k
  {
    if i < k { NoSecond(plans, i, k); } else if k < i { NoSecond(plans, k, i); }
  }

  lemma {:induction false} NoSecond(plans: Dict<Plan>, i: nat, k: nat)
    requires Distinct(plans) && i < k < |plans|
    ensures plans[i].0 != plans[k].0
  {
    if i == 0 {
      KeysByIndex(plans[1..], plans[k].0);
      assert plans[1..][k - 1].0 == plans[k].0;
    } else {
      NoSecond(plans[1..], i - 1, k - 1);
    }
  }

  ghost predicate IsSetPlan(h: Host, plans: Dict<Plan>, agent: string, goal: string, summary: string, tasks: Json,
                            now: string, p: Plan, after: Dict<Plan>) {
    IsStored(h, goal, summary, tasks, now, p) && IsPlacedAt(plans, agent, p, after)
  }

  lemma {:induction false} DerivedExactly(h: Host, js: seq<Json>, tasks: seq<Item>)
    ensures AreDerived(h, js, tasks) <==>
      NormalizeAll(h, js, {}).Ok? && tasks == DeriveAll(NormalizeAll(h, js, {}).value.0)
  {
    var r := NormalizeAll(h, js, {});
    if r.Ok? {
      assert AllReadAs(h, js, r.value.0, {}, r.value.1);
      TasksReadExactly(h, js, r.value.0, {}, r.value.1);
    }
    if items :| AreSubmitted(h, js, items, {}) && tasks == DeriveAll(items) {
      TasksReadExactly(h, js, items, {}, {} + Ids(items));
    }
  }

  /** A submission is accepted exactly when it can be read as a plan, and that plan is stored. */
  lemma {:induction false} SetPlanStoresExactly(h: Host, plans: Dict<Plan>, agent: string, goal: string,
                                                summary: string, tasks: Json, now: string, after: Dict<Plan>)
    requires Distinct(plans)
    ensures SetPlan(h, plans, agent, goal, summary, tasks, now) == Ok(after) <==>
      exists p :: IsSetPlan(h, plans, agent, goal, summary, tasks, now, p, after)
  {
    BlankExactly(goal);
    if SetPlan(h, plans, agent, goal, summary, tasks, now) == Ok(after) {
      var p := Plan(Take(Strip(goal), 4_000), Take(Strip(summary), 12_000),
                    DeriveAll(NormalizeAll(h, tasks.items, {}).value.0), now);
      StripCutExactly(goal, p.goal, 4_000);
      StripCutExactly(summary, p.summary, 12_000);
      DerivedExactly(h, tasks.items, p.tasks);
      PutPlaces(plans, agent, p);
      assert IsSetPlan(h, plans, agent, goal, summary, tasks, now, p, after);
    }
    if p :| IsSetPlan(h, plans, agent, goal, summary, tasks, now, p, after) {
      StripCutExactly(goal, p.goal, 4_000);
      StripCutExactly(summary, p.summary, 12_000);
      DerivedExactly(h, tasks.items, p.tasks);
      PutPlaces(plans, agent, p);
      assert after == Put(plans, agent, p);
    }
  }
}
