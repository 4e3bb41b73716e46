/** What the plan operations keep. */
module PlanProofs {
  import opened Wrappers
  import opened Dicts
  import opened PyText
  import opened JsonValues
  import opened Blueprints
  import opened PlanTree
  import opened Plans
  import opened CodecProofs
  import Codec

  // ---- set_plan ---------------------------------------------------------------

  /** The tree rooted at item uses pairwise different names, none taken before. */
  predicate NewTree(item: Item, seen: set<string>, taken: set<string>) {
    && item.id !in seen && item.id !in Ids(item.subtasks)
    && Unique(item.subtasks) && Ids(item.subtasks) !! seen
    && taken == seen + {item.id} + Ids(item.subtasks)
  }

  predicate NewForest(items: seq<Item>, seen: set<string>, taken: set<string>) {
    Unique(items) && Ids(items) !! seen && taken == seen + Ids(items)
  }

  predicate ItemOk(item: Item) {
    && item.id != "" && item.priority in PRIORITIES
    && (item.estimate.Some? ==> item.estimate.value >= 0.0)
    && ItemsOk(item.subtasks)
  }

  lemma {:induction false} NormalizeFacts(h: Host, j: Json, seen: set<string>)
    requires Normalize(h, j, seen).Ok?
    ensures NewTree(Normalize(h, j, seen).value.0, seen, Normalize(h, j, seen).value.1)
    ensures ItemOk(Normalize(h, j, seen).value.0)
    decreases j, 1
  {
    var head := Header(h, j.fields, seen).value;
    var raw := Children(j.fields).value;
    if raw != [] { NormalizeAllFacts(h, raw, seen + {head.id}); }
  }

  lemma {:induction false} ConsForest(head: Item, rest: seq<Item>, seen: set<string>, taken: set<string>,
                                      all: set<string>)
    requires NewTree(head, seen, taken) && NewForest(rest, taken, all)
    ensures NewForest([head] + rest, seen, all)
  {
    assert ([head] + rest)[1..] == rest;
  }

  /** Every normalized forest has pairwise different names, all new. */
  lemma {:induction false} NormalizeAllFacts(h: Host, js: seq<Json>, seen: set<string>)
    requires NormalizeAll(h, js, seen).Ok?
    ensures NewForest(NormalizeAll(h, js, seen).value.0, seen, NormalizeAll(h, js, seen).value.1)
    ensures ItemsOk(NormalizeAll(h, js, seen).value.0)
    decreases js, 0
  {
    if js != [] {
      var first := Normalize(h, js[0], seen).value;
      var later := NormalizeAll(h, js[1..], first.1).value;
      NormalizeFacts(h, js[0], seen);
      NormalizeAllFacts(h, js[1..], first.1);
      ConsForest(first.0, later.0, seen, first.1, later.1);
      assert NormalizeAll(h, js, seen).value == ([first.0] + later.0, later.1);
      assert ([first.0] + later.0)[1..] == later.0;
    }
  }

  lemma {:induction false} DerivedItemsOk(items: seq<Item>)
    requires ItemsOk(items)
    ensures ItemsOk(DeriveAll(items))
  {
    if items != [] {
      DerivedItemsOk(items[0].subtasks);
      DerivedItemsOk(items[1..]);
      assert DeriveAll(items)[1..] == DeriveAll(items[1..]);
    }
  }

  /** An accepted plan has unique names and settled parents; every other plan is untouched. */
  lemma {:induction false} SetPlanIsGood(h: Host, plans: Dict<Plan>, agent: string, goal: string, summary: string,
                        tasks: Json, now: string)
    requires SetPlan(h, plans, agent, goal, summary, tasks, now).Ok?
    ensures var after := SetPlan(h, plans, agent, goal, summary, tasks, now).value;
      && agent in Keys(after)
      && (var items := Get(after, agent).value.tasks; Unique(items) && Settled(items) && ItemsOk(items))
      && forall other :: other != agent ==> Get(after, other) == Get(plans, other)
  {
    var after := SetPlan(h, plans, agent, goal, summary, tasks, now).value;
    var items := NormalizeAll(h, tasks.items, {}).value.0;
    NormalizeAllFacts(h, tasks.items, {});
    DeriveSettles(items);
    SameTreeKeepsFacts(items, DeriveAll(items));
    DerivedItemsOk(items);
    var plan := Plan(Take(Strip(goal), 4_000), Take(Strip(summary), 12_000), DeriveAll(items), now);
    forall other ensures Get(after, other) == if other == agent then Some(plan) else Get(plans, other) {
      GetPut(plans, agent, plan, other);
    }
  }

  predicate NoBlankIds(e: Option<Execution>) {
    e.Some? ==> forall i :: 0 <= i < |e.value.assignmentIds| ==> e.value.assignmentIds[i] != ""
  }

  /** A task whose texts the tool layer passes through unchanged. */
  predicate CleanText(item: Item) {
    && Strip(item.id) == item.id
    && item.title != "" && Strip(item.title) == item.title && |item.title| <= 1_000
    && |item.description| <= 12_000
    && NoBlankIds(item.execution)
  }

  predicate Clean(items: seq<Item>) {
    items != [] ==> CleanText(items[0]) && Clean(items[0].subtasks) && Clean(items[1..])
  }

  lemma {:induction false} TextsInverse(h: Host, ss: seq<string>)
    requires forall i :: 0 <= i < |ss| ==> ss[i] != ""
    ensures NonEmptyTexts(h, Codec.EncodeStrings(ss)) == ss
  {
    if ss != [] {
      TextsInverse(h, ss[1..]);
      var js := Codec.EncodeStrings(ss);
      assert js[0] == Str(ss[0]) && js[1..] == Codec.EncodeStrings(ss[1..]);
      assert NonEmptyTexts(h, js) == [ss[0]] + NonEmptyTexts(h, js[1..]);
    }
  }

  lemma {:induction false} ExecutionGivenBack(h: Host, e: Option<Execution>)
    requires NoBlankIds(e)
    ensures GivenExecution(h, Some(Codec.EncodeExecution(e))) == e
  {
    if e.Some? {
      var d := Codec.EncodeExecution(e).fields;
      TextsInverse(h, e.value.assignmentIds);
      GetFirst(d, 0);
      GetFirst(d, 1);
      GetFirst(d, 2);
    }
  }

  lemma {:induction false} ReadsBack(h: Host, item: Item, taken: nat)
    requires ItemOk(item) && CleanText(item)
    ensures var d := Codec.EncodeItem(item).fields;
      && TaskId(h, d, taken) == item.id
      && ReadLabels(h, d) == Ok(Labels(item.status, item.priority))
      && ReadTitle(h, d) == Ok(item.title)
      && Children(d) == Ok(Codec.EncodeItems(item.subtasks))
      && Estimate(Get(d, "estimated_minutes")) == Ok(item.estimate)
  {
    ItemFields(item);
    LabelsReadBack(h, item);
  }

  lemma {:induction false} LabelsReadBack(h: Host, item: Item)
    requires ItemOk(item)
    ensures ReadLabels(h, Codec.EncodeItem(item).fields) == Ok(Labels(item.status, item.priority))
  {
    ItemFields(item);
  }

  /** Reading one stored task through the tool layer gives every field back. */
  lemma {:induction false} HeaderInverse(h: Host, item: Item, seen: set<string>)
    requires ItemOk(item) && CleanText(item) && item.id !in seen
    ensures Header(h, Codec.EncodeItem(item).fields, seen).Ok?
    ensures Header(h, Codec.EncodeItem(item).fields, seen).value == item.(subtasks := [])
    ensures Children(Codec.EncodeItem(item).fields) == Ok(Codec.EncodeItems(item.subtasks))
  {
    var d := Codec.EncodeItem(item).fields;
    ReadsBack(h, item, |seen|);
    assert Take(TextOf(h, d, "description", ""), 12_000) == item.description by { ItemFields(item); }
    assert GivenExecution(h, Get(d, "execution")) == item.execution by {
      ItemFields(item);
      ExecutionGivenBack(h, item.execution);
    }
  }

  lemma {:induction false} NormalizeInverse(h: Host, item: Item, seen: set<string>, taken: set<string>)
    requires ItemOk(item) && CleanText(item) && item.id !in seen
    requires NormalizeAll(h, Codec.EncodeItems(item.subtasks), seen + {item.id}).Ok?
    requires NormalizeAll(h, Codec.EncodeItems(item.subtasks), seen + {item.id}).value == (item.subtasks, taken)
    ensures Normalize(h, Codec.EncodeItem(item), seen).Ok?
    ensures Normalize(h, Codec.EncodeItem(item), seen).value == (item, taken)
  {
    HeaderInverse(h, item, seen);
  }

  lemma {:induction false} ForestParts(items: seq<Item>, seen: set<string>)
    requires items != [] && Unique(items) && Ids(items) !! seen
    ensures items[0].id !in seen && Ids(items[0].subtasks) !! seen + {items[0].id}
    ensures Ids(items[1..]) !! seen + {items[0].id} + Ids(items[0].subtasks)
    ensures seen + {items[0].id} + Ids(items[0].subtasks) + Ids(items[1..]) == seen + Ids(items)
  {
  }

  /** Submitting a stored plan again reproduces it, every field of every task included. */
  lemma {:induction false} ResubmittingIsIdentity(h: Host, items: seq<Item>, seen: set<string>)
    requires ItemsOk(items) && Clean(items) && Unique(items) && Ids(items) !! seen
    ensures NormalizeAll(h, Codec.EncodeItems(items), seen).Ok?
    ensures NormalizeAll(h, Codec.EncodeItems(items), seen).value == (items, seen + Ids(items))
  {
    if items != [] {
      var head, js := items[0], Codec.EncodeItems(items);
      var inner := seen + {head.id} + Ids(head.subtasks);
      ForestParts(items, seen);
      ResubmittingIsIdentity(h, head.subtasks, seen + {head.id});
      NormalizeInverse(h, head, seen, inner);
      ResubmittingIsIdentity(h, items[1..], inner);
      EncodedCons(items);
      NormalizeCons(h, js, seen, head, inner, items[1..], inner + Ids(items[1..]));
    } else {
      assert seen + Ids(items) == seen;
    }
  }

  lemma {:induction false} EncodedCons(items: seq<Item>)
    requires items != []
    ensures Codec.EncodeItems(items) != [] && Codec.EncodeItems(items)[0] == Codec.EncodeItem(items[0])
    ensures Codec.EncodeItems(items)[1..] == Codec.EncodeItems(items[1..])
    ensures items == [items[0]] + items[1..]
  {
  }

  lemma {:induction false} NormalizeCons(h: Host, js: seq<Json>, seen: set<string>, head: Item,
                                         inner: set<string>, rest: seq<Item>, all: set<string>)
    requires js != []
    requires Normalize(h, js[0], seen).Ok? && Normalize(h, js[0], seen).value == (head, inner)
    requires NormalizeAll(h, js[1..], inner).Ok? && NormalizeAll(h, js[1..], inner).value == (rest, all)
    ensures NormalizeAll(h, js, seen).Ok? && NormalizeAll(h, js, seen).value == ([head] + rest, all)
  {
  }

  // ---- leaf edits -------------------------------------------------------------

  function ParentIds(items: seq<Item>): set<string> {
    if items == [] then {}
    else (if items[0].subtasks == [] then {} else {items[0].id} + ParentIds(items[0].subtasks)) + ParentIds(items[1..])
  }

  ghost predicate HasLeaf(items: seq<Item>, id: string) {
    exists x :: x in Leaves(items) && x.id == id
  }

  lemma {:induction false} IdsAreParentsAndLeaves(items: seq<Item>, id: string)
    ensures id in Ids(items) <==> id in ParentIds(items) || HasLeaf(items, id)
    ensures Unique(items) ==> !(id in ParentIds(items) && HasLeaf(items, id))
  {
    if items != [] {
      var head := items[0];
      IdsAreParentsAndLeaves(head.subtasks, id);
      IdsAreParentsAndLeaves(items[1..], id);
      HeadLeaves(items);
      if head.subtasks == [] { assert head in Leaves([head]); }
      assert forall x :: x in Leaves(items) <==> x in Leaves([head]) || x in Leaves(items[1..]);
      LeavesAreLeaves(head.subtasks);
      LeavesAreLeaves(items[1..]);
      ParentsAreNamed(head.subtasks);
      ParentsAreNamed(items[1..]);
    }
  }

  lemma {:induction false} ParentsAreNamed(items: seq<Item>)
    ensures ParentIds(items) <= Ids(items)
  {
    if items != [] {
      ParentsAreNamed(items[0].subtasks);
      ParentsAreNamed(items[1..]);
    }
  }

  function EditOf(id: string, e: LeafEdit): Item -> Item {
    (x: Item) => if x.id == id then EditLeaf(x, e) else x
  }

  lemma {:induction false} EditOneIsMapTree(item: Item, id: string, e: LeafEdit)
    requires item.subtasks != [] && item.id != id
    requires EditAll(item.subtasks, id, e) ==
      if id in ParentIds(item.subtasks) then Err(NotALeaf(e))
      else Ok((MapLeaves(item.subtasks, EditOf(id, e)), id in Ids(item.subtasks)))
    ensures Edit(item, id, e) ==
      if id in ParentIds(item.subtasks) then Err(NotALeaf(e))
      else Ok((MapTree(item, EditOf(id, e)), id in Ids(item.subtasks)))
  {
  }

  /** The walk refuses exactly a parent; otherwise it rewrites the leaf and settles the tree. */
  lemma {:induction false} EditIsMapLeaves(items: seq<Item>, id: string, e: LeafEdit)
    ensures EditAll(items, id, e) ==
      if id in ParentIds(items) then Err(NotALeaf(e))
      else Ok((MapLeaves(items, EditOf(id, e)), id in Ids(items)))
  {
    if items != [] {
      var head := items[0];
      EditIsMapLeaves(head.subtasks, id, e);
      EditIsMapLeaves(items[1..], id, e);
      if head.subtasks == [] {
        assert EditAll([], id, e) == Ok(([], false));
        assert head.(subtasks := []) == head;
      } else if head.id != id {
        EditOneIsMapTree(head, id, e);
      }
    }
  }

  /** Facts kept by every operation on a plan whose executions sit on leaves. */
  predicate Sound(items: seq<Item>) {
    Unique(items) && Settled(items) && LeafExecutions(items)
  }

  /** A successful edit changes one leaf as told, settles its ancestors and leaves the rest. */
  lemma {:induction false} EditIsExact(items: seq<Item>, id: string, e: LeafEdit)
    requires Unique(items) && Settled(items) && HasLeaf(items, id)
    ensures EditAll(items, id, e).Ok? && EditAll(items, id, e).value.1
    ensures var after := EditAll(items, id, e).value.0;
      && Unique(after) && Settled(after) && SameTree(items, after)
      && Leaves(after) == Each(EditOf(id, e), Leaves(items))
      && OnlyPathsTo(items, after, (x: Item) => x.id == id)
      && (LeafExecutions(items) ==> LeafExecutions(after))
  {
    IdsAreParentsAndLeaves(items, id);
    EditIsMapLeaves(items, id, e);
    var f := EditOf(id, e);
    MapLeavesKeepsTree(items, f);
    MapLeavesMapsLeaves(items, f);
    MapLeavesIsLocal(items, f, (x: Item) => x.id == id);
    SameTreeKeepsFacts(items, MapLeaves(items, f));
    if LeafExecutions(items) { MapLeavesKeepsExecutions(items, f); }
  }

  /** On a sound plan an edit succeeds exactly for the name of a leaf. */
  lemma {:induction false} EditSucceedsExactlyOnLeaves(items: seq<Item>, id: string, e: LeafEdit)
    requires Unique(items)
    ensures (EditAll(items, id, e).Ok? && EditAll(items, id, e).value.1) <==> HasLeaf(items, id)
    ensures EditAll(items, id, e).Err? <==> id in ParentIds(items)
  {
    IdsAreParentsAndLeaves(items, id);
    EditIsMapLeaves(items, id, e);
  }

  /** Once the guard has passed, the bind succeeds exactly when the first plan that holds the task holds it
      as no parent; with unique names, when that plan finds it as a leaf. */
  lemma {:induction false} GuardedBindSucceedsExactlyWhen(plans: Dict<Plan>, task: string, assignment: string,
                                                          now: string)
    requires Strip(assignment) != "" && Bindable(plans, task)
    ensures OwnerOf(plans, task) < |plans|
    ensures var items := plans[OwnerOf(plans, task)].1.tasks;
      && (Bind(plans, task, assignment, now).Ok? <==> task !in ParentIds(items))
      && (Unique(items) ==> (Bind(plans, task, assignment, now).Ok? <==> FindsLeaf(items, task)))
  {
    var i :| 0 <= i < |plans| && FindsLeaf(plans[i].1.tasks, task);
    assert task in Ids(plans[i].1.tasks);
    var items := plans[OwnerOf(plans, task)].1.tasks;
    EditIsMapLeaves(items, task, BindTo(assignment, now));
    if Unique(items) { FindsLeafExactlyWhen(items, task); }
  }

  lemma {:induction false} FindsLeafExactlyWhen(items: seq<Item>, id: string)
    requires Unique(items) && id in Ids(items)
    ensures FindsLeaf(items, id) <==> id !in ParentIds(items)
  {
    var head, inner, rest := items[0], items[0].subtasks, items[1..];
    ParentsAreNamed(inner);
    ParentsAreNamed(rest);
    if head.id != id {
      if id in Ids(inner) { FindsLeafExactlyWhen(inner, id); } else { FindsLeafExactlyWhen(rest, id); }
    }
  }

  /** A parent in the first plan and a leaf of that name in the second: the guard passes, the bind is refused. */
  lemma GuardDoesNotSuffice(task: string, child: Item, leaf: Item, assignment: string, now: string)
    requires leaf.id == task && leaf.subtasks == [] && Strip(assignment) != ""
    ensures var parent := leaf.(subtasks := [child]);
      var plans: Dict<Plan> := [("a", Plan("", "", [parent], "")), ("b", Plan("", "", [leaf], ""))];
      Bindable(plans, task) && Bind(plans, task, assignment, now) == Err(OnlyLeafBindable)
  {
    var parent := leaf.(subtasks := [child]);
    var plans: Dict<Plan> := [("a", Plan("", "", [parent], "")), ("b", Plan("", "", [leaf], ""))];
    assert FindsLeaf(plans[1].1.tasks, task);
    assert task in ParentIds(plans[0].1.tasks);
    assert OwnerOf(plans, task) == 0;
    EditIsMapLeaves(plans[0].1.tasks, task, BindTo(assignment, now));
  }

  /** A leaf rewrite that leaves the stored fields well-formed keeps the tree storable. */
  lemma {:induction false} MapLeavesItemsOk(items: seq<Item>, f: Item -> Item)
    requires ItemsOk(items) && OnLeaves(f)
    requires forall x: Item :: x.subtasks == [] && ItemOk(x) ==> ItemOk(f(x))
    ensures ItemsOk(MapLeaves(items, f))
  {
    if items != [] {
      MapLeavesItemsOk(items[0].subtasks, f);
      MapLeavesItemsOk(items[1..], f);
      MapLeavesKeepsTree(items[0].subtasks, f);
      assert MapLeaves(items, f)[0] == MapTree(items[0], f);
      assert MapLeaves(items, f)[1..] == MapLeaves(items[1..], f);
      if items[0].subtasks == [] {
        assert ItemOk(items[0]) && ItemOk(f(items[0]));
      } else {
        DeriveParent(items[0], MapLeaves(items[0].subtasks, f));
      }
    }
  }

  // ---- reports ----------------------------------------------------------------

  function ReportOf(assignment: string, s: Status, now: string): Item -> Item {
    (x: Item) => if Active(x, assignment) then Reported(x, s, now) else x
  }

  ghost predicate HasActive(items: seq<Item>, assignment: string) {
    exists x :: x in Leaves(items) && Active(x, assignment)
  }

  lemma {:induction false} ReportIsMapLeaves(items: seq<Item>, assignment: string, s: Status, now: string)
    requires LeafExecutions(items)
    ensures ReportAll(items, assignment, s, now).0 == MapLeaves(items, ReportOf(assignment, s, now))
    ensures ReportAll(items, assignment, s, now).1 <==> HasActive(items, assignment)
  {
    if items != [] {
      var head := items[0];
      ReportIsMapLeaves(head.subtasks, assignment, s, now);
      ReportIsMapLeaves(items[1..], assignment, s, now);
      HeadLeaves(items);
      assert forall x :: x in Leaves(items) <==> x in Leaves([head]) || x in Leaves(items[1..]);
      if head.subtasks == [] {
        assert head in Leaves([head]);
        assert head.(subtasks := []) == head;
      }
    }
  }

  /** A report changes exactly the leaves whose active assignment it names, and their ancestors. */
  lemma {:induction false} ReportIsExact(items: seq<Item>, assignment: string, s: Status, now: string)
    requires Sound(items)
    ensures var after := ReportAll(items, assignment, s, now).0;
      && Sound(after) && SameTree(items, after)
      && Leaves(after) == Each(ReportOf(assignment, s, now), Leaves(items))
      && OnlyPathsTo(items, after, (x: Item) => Active(x, assignment))
  {
    var f := ReportOf(assignment, s, now);
    ReportIsMapLeaves(items, assignment, s, now);
    MapLeavesKeepsTree(items, f);
    MapLeavesMapsLeaves(items, f);
    MapLeavesIsLocal(items, f, (x: Item) => Active(x, assignment));
    SameTreeKeepsFacts(items, MapLeaves(items, f));
    MapLeavesKeepsExecutions(items, f);
  }

  /** The condition under which a report cannot leave a root with a state of its own. */
  predicate RootsAgree(items: seq<Item>, assignment: string, s: Status) {
    forall i :: 0 <= i < |items| && items[i].subtasks != [] && Active(items[i], assignment)
      ==> s == Flat(Leaves(items[i].subtasks))
  }

  lemma RootsAgreeSplits(items: seq<Item>, assignment: string, s: Status)
    requires items != []
    ensures RootsAgree(items, assignment, s) <==>
      && (items[0].subtasks != [] && Active(items[0], assignment) ==> s == Flat(Leaves(items[0].subtasks)))
      && RootsAgree(items[1..], assignment, s)
  {
    assert forall i :: 0 < i < |items| ==> items[i] == items[1..][i - 1];
    assert forall i :: 0 <= i < |items[1..]| ==> items[1..][i] == items[i + 1];
  }

  lemma {:induction false} DeriveSettlesOne(item: Item)
    ensures var d := Derive(item);
      && Settled(d.subtasks) && (d.subtasks != [] ==> d.status == Flat(Leaves(d.subtasks)))
  {
    DeriveSettles([item]);
    assert [item][1..] == [];
    assert DeriveAll([item]) == [Derive(item)];
  }

  /** With executions anywhere, derived states stay correct exactly when no reported root disagrees. */
  lemma {:induction false} ReportSettlesExactlyWhen(items: seq<Item>, assignment: string, s: Status, now: string)
    requires Settled(items)
    ensures Settled(ReportAll(items, assignment, s, now).0) <==> RootsAgree(items, assignment, s)
  {
    if items != [] {
      var head := items[0];
      ReportSettlesExactlyWhen(items[1..], assignment, s, now);
      RootsAgreeSplits(items, assignment, s);
      var after := ReportAll(items, assignment, s, now).0;
      assert after[0] == Report(head, assignment, s, now).0;
      assert after[1..] == ReportAll(items[1..], assignment, s, now).0;
      if !Active(head, assignment) {
        DeriveSettlesOne(head.(subtasks := ReportAll(head.subtasks, assignment, s, now).0));
      }
    }
  }

  /** A parent that carries an execution shows why the condition is needed. */
  lemma ParentExecutionBreaksTheFold()
    ensures exists items, s ::
      Settled(items) && Unique(items) && !Settled(ReportAll(items, "a", s, "t").0)
  {
    var leaf := Item("leaf", "t", "", NotStarted, "medium", None, [], None);
    var root := Item("root", "t", "", NotStarted, "medium", None, [leaf], Some(Execution([], "a", "")));
    assert [leaf][1..] == [] && [root][1..] == [];
    assert Leaves([leaf]) == [leaf];
    assert leaf.subtasks == [] && Ids([]) == {};
    assert root.subtasks == [leaf] && Settled([leaf]) && Unique([leaf]);
    assert Ids([leaf]) == {"leaf"} && "root" != "leaf";
    assert Settled([root]);
    assert Unique([root]);
    assert Active([root][0], "a");
    ReportSettlesExactlyWhen([root], "a", Completed, "t");
  }
}
