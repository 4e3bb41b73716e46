/** What the decoder reads of each object, field by field, absent fields included. */
module CodecReads {
  import opened Wrappers
  import opened Dicts
  import opened Blueprints
  import opened JsonValues
  import opened Codec

  // ---- fields of a document ---------------------------------------------------

  /** The object has no other fields than these. */
  predicate OnlyFields(j: Json, allowed: set<string>) { j.Obj? && Keys(j.fields) <= allowed }

  /** The field holds the text, or is absent and the text is the default. */
  predicate IsText(fields: Dict<Json>, key: string, default: string, s: string) {
    Get(fields, key) == Some(Str(s)) || (Get(fields, key).None? && s == default)
  }

  /** The field holds the list, or is absent and the list is empty. */
  predicate IsList(fields: Dict<Json>, key: string, items: seq<Json>) {
    Get(fields, key) == Some(Arr(items)) || (Get(fields, key).None? && items == [])
  }

  /** The field holds the object, or is absent and the object is empty. */
  predicate IsObject(fields: Dict<Json>, key: string, inner: Dict<Json>) {
    Get(fields, key) == Some(Obj(inner)) || (Get(fields, key).None? && inner == [])
  }

  predicate AreTexts(js: seq<Json>, ss: seq<string>) {
    |js| == |ss| && forall i :: 0 <= i < |js| ==> js[i] == Str(ss[i])
  }

  // ---- what stands for what ---------------------------------------------------

  predicate IsWorker(name: string, j: Json, w: Worker) {
    && IsName(name) && w.name == name && OnlyFields(j, {"name", "system_prompt", "role"})
    && IsText(j.fields, "name", name, name)
    && IsText(j.fields, "system_prompt", "", w.systemPrompt)
    && IsText(j.fields, "role", "worker", w.role)
  }

  predicate IsEdge(j: Json, e: Edge) {
    && OnlyFields(j, {"source", "target"})
    && Get(j.fields, "source") == Some(Str(e.source)) && Get(j.fields, "target") == Some(Str(e.target))
  }

  predicate IsMode(agent: string, j: Json, mode: string) { j == Str(mode) }

  predicate IsTargets(agent: string, j: Json, targets: seq<string>) { j.Arr? && AreTexts(j.items, targets) }

  /** Absent or null is no estimate; a number is one, and not negative. */
  predicate IsEstimate(j: Option<Json>, estimate: Option<real>) {
    match estimate
    case None => j.None? || j.value.Null?
    case Some(x) => x >= 0.0 && j.Some? && (j.value == Real(x) || (j.value.Int? && j.value.number as real == x))
  }

  predicate IsExecution(j: Option<Json>, execution: Option<Execution>) {
    match execution
    case None => j.None? || j.value.Null?
    case Some(e) =>
      && j.Some? && OnlyFields(j.value, {"assignment_ids", "active_assignment_id", "updated_at"})
      && (if Get(j.value.fields, "assignment_ids").None? then e.assignmentIds == []
          else IsTargets("", Get(j.value.fields, "assignment_ids").value, e.assignmentIds))
      && IsText(j.value.fields, "active_assignment_id", "", e.active)
      && IsText(j.value.fields, "updated_at", "", e.updatedAt)
  }

  const TASK_FIELDS: set<string> :=
    {"id", "title", "description", "status", "priority", "estimated_minutes", "subtasks", "execution"}

  /** Everything of a task but its subtasks. */
  predicate IsTaskAlone(j: Json, item: Item, extra: set<string>) {
    && OnlyFields(j, TASK_FIELDS + extra)
    && item.id != "" && Get(j.fields, "id") == Some(Str(item.id))
    && IsText(j.fields, "title", "", item.title)
    && IsText(j.fields, "description", "", item.description)
    && IsText(j.fields, "status", "not_started", StatusText(item.status))
    && IsText(j.fields, "priority", "medium", item.priority) && item.priority in PRIORITIES
    && IsEstimate(Get(j.fields, "estimated_minutes"), item.estimate)
    && IsExecution(Get(j.fields, "execution"), item.execution)
  }

  function Subtasks(j: Json): seq<Json> {
    if j.Obj? && Get(j.fields, "subtasks").Some? && Get(j.fields, "subtasks").value.Arr? then
      Get(j.fields, "subtasks").value.items
    else []
  }

  predicate IsTask(j: Json, item: Item, extra: set<string>)
    decreases item, 1
  {
    IsTaskAlone(j, item, extra) && IsList(j.fields, "subtasks", Subtasks(j)) && AreTasks(Subtasks(j), item.subtasks)
  }

  predicate AreTasks(js: seq<Json>, items: seq<Item>)
    decreases items, 0
  {
    |js| == |items| && (items != [] ==> IsTask(js[0], items[0], {}) && AreTasks(js[1..], items[1..]))
  }

  predicate IsPlan(agent: string, j: Json, p: Plan) {
    && OnlyFields(j, {"goal", "summary", "tasks", "updated_at"})
    && IsText(j.fields, "goal", "", p.goal) && IsText(j.fields, "summary", "", p.summary)
    && IsText(j.fields, "updated_at", "", p.updatedAt)
    && IsList(j.fields, "tasks", Tasks(j)) && AreTasks(Tasks(j), p.tasks)
  }

  function Tasks(j: Json): seq<Json> {
    if j.Obj? && Get(j.fields, "tasks").Some? && Get(j.fields, "tasks").value.Arr? then
      Get(j.fields, "tasks").value.items
    else []
  }

  /** Entry by entry, in order. */
  ghost predicate AreEntries<V>(fields: Dict<Json>, d: Dict<V>, means: (string, Json, V) -> bool) {
    && |d| == |fields|
    && forall i :: 0 <= i < |d| ==> d[i].0 == fields[i].0 && means(fields[i].0, fields[i].1, d[i].1)
  }

  // ---- the decoder reads just that --------------------------------------------

  lemma {:induction false} TextReads(fields: Dict<Json>, key: string, default: string, s: string)
    ensures OptionalString(fields, key, default) == Ok(s) <==> IsText(fields, key, default, s)
  {
  }

  lemma {:induction false} ListReads(fields: Dict<Json>, key: string, items: seq<Json>)
    ensures OptionalList(fields, key) == Ok(items) <==> IsList(fields, key, items)
  {
  }

  lemma {:induction false} StringsRead(js: seq<Json>, ss: seq<string>)
    ensures Strings(js) == Ok(ss) <==> AreTexts(js, ss)
  {
    if js != [] && ss != [] {
      StringsRead(js[1..], ss[1..]);
      assert ss == [ss[0]] + ss[1..];
      TextsByFirst(js, ss);
    }
  }

  lemma TextsByFirst(js: seq<Json>, ss: seq<string>)
    requires js != [] && ss != []
    ensures AreTexts(js, ss) <==> js[0] == Str(ss[0]) && AreTexts(js[1..], ss[1..])
  {
    if js[0] == Str(ss[0]) && AreTexts(js[1..], ss[1..]) {
      forall i | 0 <= i < |js| ensures js[i] == Str(ss[i]) {
        if i > 0 { assert js[1..][i - 1] == js[i] && ss[1..][i - 1] == ss[i]; }
      }
    }
    if AreTexts(js, ss) {
      forall i | 0 <= i < |js[1..]| ensures js[1..][i] == Str(ss[1..][i]) { assert js[i + 1] == Str(ss[i + 1]); }
    }
  }

  lemma {:induction false} WorkerReads(name: string, j: Json, w: Worker)
    ensures DecodeWorker(name, j) == Ok(w) <==> IsWorker(name, j, w)
  {
    if IsName(name) && OnlyFields(j, WORKER_FIELDS) {
      TextReads(j.fields, "name", name, name);
      TextReads(j.fields, "system_prompt", "", w.systemPrompt);
      TextReads(j.fields, "role", "worker", w.role);
    }
  }

  lemma {:induction false} EdgeReads(j: Json, e: Edge)
    ensures DecodeEdge(j) == Ok(e) <==> IsEdge(j, e)
  {
  }

  ghost predicate AreEdges(js: seq<Json>, edges: seq<Edge>) {
    |js| == |edges| && forall i :: 0 <= i < |js| ==> IsEdge(js[i], edges[i])
  }

  lemma {:induction false} EdgesRead(js: seq<Json>, edges: seq<Edge>)
    ensures DecodeEdges(js) == Ok(edges) <==> AreEdges(js, edges)
  {
    if js != [] && edges != [] {
      EdgeReads(js[0], edges[0]);
      EdgesRead(js[1..], edges[1..]);
      assert edges == [edges[0]] + edges[1..];
      EdgesByFirst(js, edges);
    }
  }

  lemma EdgesByFirst(js: seq<Json>, edges: seq<Edge>)
    requires js != [] && edges != []
    ensures AreEdges(js, edges) <==> IsEdge(js[0], edges[0]) && AreEdges(js[1..], edges[1..])
  {
    if IsEdge(js[0], edges[0]) && AreEdges(js[1..], edges[1..]) {
      forall i | 0 <= i < |js| ensures IsEdge(js[i], edges[i]) {
        if i > 0 { assert js[1..][i - 1] == js[i] && edges[1..][i - 1] == edges[i]; }
      }
    }
    if AreEdges(js, edges) {
      forall i | 0 <= i < |js[1..]| ensures IsEdge(js[1..][i], edges[1..][i]) {
        assert IsEdge(js[i + 1], edges[i + 1]);
      }
    }
  }

  lemma {:induction false} TargetsRead(agent: string, j: Json, targets: seq<string>)
    ensures DecodeTargets(agent, j) == Ok(targets) <==> IsTargets(agent, j, targets)
  {
    if j.Arr? { StringsRead(j.items, targets); }
  }

  lemma {:induction false} ModeReads(agent: string, j: Json, mode: string)
    ensures DecodeMode(agent, j) == Ok(mode) <==> IsMode(agent, j, mode)
  {
  }

  lemma {:induction false} EstimateReads(j: Option<Json>, estimate: Option<real>)
    ensures DecodeEstimate(j) == Ok(estimate) <==> IsEstimate(j, estimate)
  {
  }

  lemma {:induction false} IdsRead(fields: Dict<Json>, ids: seq<string>)
    ensures var raw := OptionalList(fields, "assignment_ids");
      (raw.Ok? && Strings(raw.value) == Ok(ids))
      <==> if Get(fields, "assignment_ids").None? then ids == []
           else IsTargets("", Get(fields, "assignment_ids").value, ids)
  {
    var j := Get(fields, "assignment_ids");
    if j.Some? && j.value.Arr? { StringsRead(j.value.items, ids); }
  }

  lemma {:induction false} ExecutionReads(j: Option<Json>, execution: Option<Execution>)
    ensures DecodeExecution(j) == Ok(execution) <==> IsExecution(j, execution)
  {
    if j.Some? && OnlyFields(j.value, EXECUTION_FIELDS) && execution.Some? {
      IdsRead(j.value.fields, execution.value.assignmentIds);
      TextReads(j.value.fields, "active_assignment_id", "", execution.value.active);
      TextReads(j.value.fields, "updated_at", "", execution.value.updatedAt);
    }
  }

  /** The states are their four names. */
  lemma StatusIsItsName(text: string, s: Status)
    ensures ParseStatus(text) == Some(s) <==> text == StatusText(s)
    ensures StatusText(NotStarted) == "not_started" && StatusText(InProgress) == "in_progress"
    ensures StatusText(Completed) == "completed" && StatusText(Blocked) == "blocked"
  {
  }

  function Extra(legacy: bool): set<string> { if legacy then {"agent"} else {} }

  lemma AllowedFields(legacy: bool)
    ensures (if legacy then ITEM_FIELDS + {"agent"} else ITEM_FIELDS) == TASK_FIELDS + Extra(legacy)
  {
  }

  /** What the decoder reads of a task before its subtasks, field by field. */
  predicate HeadReads(fields: Dict<Json>, item: Item) {
    && RequiredString(Get(fields, "id")) == Ok(item.id) && item.id != ""
    && OptionalString(fields, "status", "not_started") == Ok(StatusText(item.status))
    && OptionalString(fields, "priority", "medium") == Ok(item.priority) && item.priority in PRIORITIES
    && DecodeEstimate(Get(fields, "estimated_minutes")) == Ok(item.estimate)
    && OptionalString(fields, "title", "") == Ok(item.title)
    && OptionalString(fields, "description", "") == Ok(item.description)
    && DecodeExecution(Get(fields, "execution")) == Ok(item.execution)
  }

  lemma {:induction false} HeadIsAlone(j: Json, item: Item, legacy: bool)
    ensures IsTaskAlone(j, item, Extra(legacy)) <==>
      OnlyFields(j, TASK_FIELDS + Extra(legacy)) && HeadReads(j.fields, item)
  {
    if j.Obj? {
      TextReads(j.fields, "status", "not_started", StatusText(item.status));
      TextReads(j.fields, "priority", "medium", item.priority);
      TextReads(j.fields, "title", "", item.title);
      TextReads(j.fields, "description", "", item.description);
      EstimateReads(Get(j.fields, "estimated_minutes"), item.estimate);
      ExecutionReads(Get(j.fields, "execution"), item.execution);
    }
  }

  lemma {:induction false} HeadAndSubtasks(j: Json, item: Item, legacy: bool)
    ensures DecodeItem(j, legacy) == Ok(item) <==>
      && OnlyFields(j, TASK_FIELDS + Extra(legacy)) && HeadReads(j.fields, item)
      && OptionalList(j.fields, "subtasks").Ok?
      && DecodeItems(OptionalList(j.fields, "subtasks").value) == Ok(item.subtasks)
  {
    AllowedFields(legacy);
    if j.Obj? {
      var text := OptionalString(j.fields, "status", "not_started");
      if text.Ok? { StatusIsItsName(text.value, item.status); }
    }
    assert DecodeItems([]) == Ok([]);
  }

  lemma SubtasksAre(j: Json)
    requires j.Obj?
    ensures OptionalList(j.fields, "subtasks").Ok? <==> IsList(j.fields, "subtasks", Subtasks(j))
    ensures OptionalList(j.fields, "subtasks").Ok? ==> OptionalList(j.fields, "subtasks").value == Subtasks(j)
  {
  }

  /** A task decodes to exactly the task it stands for. */
  lemma {:induction false} TaskReads(j: Json, item: Item, legacy: bool)
    ensures DecodeItem(j, legacy) == Ok(item) <==> IsTask(j, item, Extra(legacy))
    decreases item, 1
  {
    HeadIsAlone(j, item, legacy);
    HeadAndSubtasks(j, item, legacy);
    if j.Obj? {
      SubtasksAre(j);
      TasksRead(Subtasks(j), item.subtasks);
    }
  }

  lemma {:induction false} TasksRead(js: seq<Json>, items: seq<Item>)
    ensures DecodeItems(js) == Ok(items) <==> AreTasks(js, items)
    decreases items, 0
  {
    if js != [] && items != [] {
      TaskReads(js[0], items[0], false);
      TasksRead(js[1..], items[1..]);
      assert items == [items[0]] + items[1..];
    }
  }

  lemma {:induction false} PlanReads(agent: string, j: Json, p: Plan)
    ensures DecodePlanAt(agent, j) == Ok(p) <==> IsPlan(agent, j, p)
  {
    if j.Obj? {
      TextReads(j.fields, "goal", "", p.goal);
      TextReads(j.fields, "summary", "", p.summary);
      TextReads(j.fields, "updated_at", "", p.updatedAt);
      TasksRead(Tasks(j), p.tasks);
    }
  }

  /** A decoded map has the entries of the object, in order, each decoded. */
  lemma {:induction false} MapEntries<V>(fields: Dict<Json>, f: (string, Json) -> Decoded<V>)
    requires Distinct(fields) && DecodeMap(fields, f).Ok?
    ensures var d := DecodeMap(fields, f).value;
      |d| == |fields| && forall i :: 0 <= i < |d| ==> d[i].0 == fields[i].0 && f(fields[i].0, fields[i].1) == Ok(d[i].1)
  {
    if fields != [] {
      var init, last := fields[..|fields| - 1], fields[|fields| - 1];
      assert fields == init + [last];
      DistinctAppend(init, [last]);
      MapEntries(init, f);
      var d := DecodeMap(init, f).value;
      assert last.0 in Keys([last]);
      KeysByIndex(d, last.0);
      KeysByIndex(init, last.0);
      assert DecodeMap(fields, f).value == d + [(last.0, f(last.0, last.1).value)];
    }
  }

  lemma {:induction false} MapDecodes<V>(fields: Dict<Json>, f: (string, Json) -> Decoded<V>)
    requires forall i :: 0 <= i < |fields| ==> f(fields[i].0, fields[i].1).Ok?
    ensures DecodeMap(fields, f).Ok?
  {
    if fields != [] { MapDecodes(fields[..|fields| - 1], f); }
  }

  lemma {:induction false} MapReads<V(!new)>(fields: Dict<Json>, f: (string, Json) -> Decoded<V>,
                                             means: (string, Json, V) -> bool, d: Dict<V>)
    requires Distinct(fields) && forall k, j, v :: f(k, j) == Ok(v) <==> means(k, j, v)
    ensures DecodeMap(fields, f) == Ok(d) <==> AreEntries(fields, d, means)
  {
    if AreEntries(fields, d, means) {
      forall i | 0 <= i < |fields| ensures f(fields[i].0, fields[i].1) == Ok(d[i].1) {
        assert means(fields[i].0, fields[i].1, d[i].1);
      }
      MapDecodes(fields, f);
      MapEntries(fields, f);
      assert DecodeMap(fields, f).value == d;
    }
    if DecodeMap(fields, f) == Ok(d) {
      MapEntries(fields, f);
      forall i | 0 <= i < |d| ensures means(fields[i].0, fields[i].1, d[i].1) {
        assert f(fields[i].0, fields[i].1) == Ok(d[i].1);
      }
    }
  }
}
