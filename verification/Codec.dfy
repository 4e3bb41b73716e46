/** The strict JSON codec of the console blueprint, with the schema-1 migration. */
module Codec {
  import opened Wrappers
  import opened Dicts
  import opened Blueprints
  import opened JsonValues

  datatype SchemaError =
    | NotAnObject | UnknownField | NotAString | NotAnInteger | NotANumber | NotAList
    | UnsupportedVersion | BadWorkerName | NameMismatch
    | EmptyId | UnsupportedStatus | UnsupportedPriority | NegativeEstimate

  type Decoded<T> = Result<T, SchemaError>

  const FIELDS_V1: set<string> := {"schema_version", "workers", "connections", "mappers", "routers", "plan"}
  const FIELDS_V2: set<string> := {"schema_version", "workers", "connections", "mappers", "routers", "plans"}
  const WORKER_FIELDS: set<string> := {"name", "system_prompt", "role"}
  const CONNECTION_FIELDS: set<string> := {"source", "target"}
  const PLAN_FIELDS: set<string> := {"goal", "summary", "tasks", "updated_at"}
  const ITEM_FIELDS: set<string> :=
    {"id", "title", "description", "status", "priority", "estimated_minutes", "subtasks", "execution"}
  const EXECUTION_FIELDS: set<string> := {"assignment_ids", "active_assignment_id", "updated_at"}

  // ---- typed reads ------------------------------------------------------------

  function Mapping(j: Json, allowed: set<string>): Decoded<Dict<Json>> {
    if !j.Obj? then Err(NotAnObject)
    else if !(Keys(j.fields) <= allowed) then Err(UnknownField)
    else Ok(j.fields)
  }

  function AnyMapping(j: Json): Decoded<Dict<Json>> {
    if j.Obj? then Ok(j.fields) else Err(NotAnObject)
  }

  function RequiredString(j: Option<Json>): Decoded<string> {
    if j.Some? && j.value.Str? then Ok(j.value.text) else Err(NotAString)
  }

  function OptionalString(fields: Dict<Json>, key: string, default: string): Decoded<string> {
    var j := Get(fields, key);
    if j.None? then Ok(default) else RequiredString(j)
  }

  function OptionalList(fields: Dict<Json>, key: string): (r: Decoded<seq<Json>>)
    ensures r.Ok? && r.value != [] ==> exists i :: 0 <= i < |fields| && fields[i].1 == Arr(r.value)
  {
    var j := Get(fields, key);
    if j.None? then Ok([])
    else if j.value.Arr? then
      GetIsEntry(fields, key);
      Ok(j.value.items)
    else Err(NotAList)
  }

  function Strings(items: seq<Json>): Decoded<seq<string>> {
    if items == [] then Ok([])
    else
      var head :- RequiredString(Some(items[0]));
      var rest :- Strings(items[1..]);
      Ok([head] + rest)
  }

  function StringList(j: Json): Decoded<seq<string>> {
    if j.Arr? then Strings(j.items) else Err(NotAList)
  }

  /** A dict built key by key from a JSON object. */
  function DecodeMap<V>(fields: Dict<Json>, f: (string, Json) -> Decoded<V>): (r: Decoded<Dict<V>>)
    ensures r.Ok? ==> Distinct(r.value)
  {
    if fields == [] then Ok([])
    else
      var init :- DecodeMap(fields[..|fields| - 1], f);
      var (key, j) := fields[|fields| - 1];
      var v :- f(key, j);
      Ok(Put(init, key, v))
  }

  function OptionalMap<V>(fields: Dict<Json>, key: string, f: (string, Json) -> Decoded<V>): (r: Decoded<Dict<V>>)
    ensures r.Ok? ==> Distinct(r.value)
  {
    var j := Get(fields, key);
    if j.None? then Ok([])
    else
      var inner :- AnyMapping(j.value);
      DecodeMap(inner, f)
  }

  // ---- decoders ---------------------------------------------------------------

  function Version(fields: Dict<Json>): Decoded<int> {
    var j := Get(fields, "schema_version");
    if j.None? then Ok(1)
    else if !j.value.Int? then Err(NotAnInteger)
    else if j.value.number !in {1, 2} then Err(UnsupportedVersion)
    else Ok(j.value.number)
  }

  function DecodeWorker(name: string, j: Json): Decoded<Worker> {
    if !IsName(name) then Err(BadWorkerName)
    else
      var fields :- Mapping(j, WORKER_FIELDS);
      var declared :- OptionalString(fields, "name", name);
      if declared != name then Err(NameMismatch)
      else
        var prompt :- OptionalString(fields, "system_prompt", "");
        var role :- OptionalString(fields, "role", "worker");
        Ok(Worker(name, prompt, role))
  }

  function DecodeEdge(j: Json): Decoded<Edge> {
    var fields :- Mapping(j, CONNECTION_FIELDS);
    var source :- RequiredString(Get(fields, "source"));
    var target :- RequiredString(Get(fields, "target"));
    Ok(Edge(source, target))
  }

  function DecodeEdges(js: seq<Json>): Decoded<seq<Edge>> {
    if js == [] then Ok([])
    else
      var head :- DecodeEdge(js[0]);
      var rest :- DecodeEdges(js[1..]);
      Ok([head] + rest)
  }

  function DecodeEstimate(j: Option<Json>): Decoded<Option<real>> {
    if j.None? || j.value.Null? then Ok(None)
    else if !j.value.Int? && !j.value.Real? then Err(NotANumber)
    else
      var x := if j.value.Int? then j.value.number as real else j.value.fraction;
      if x < 0.0 then Err(NegativeEstimate) else Ok(Some(x))
  }

  function DecodeExecution(j: Option<Json>): Decoded<Option<Execution>> {
    if j.None? || j.value.Null? then Ok(None)
    else
      var fields :- Mapping(j.value, EXECUTION_FIELDS);
      var raw :- OptionalList(fields, "assignment_ids");
      var ids :- Strings(raw);
      var active :- OptionalString(fields, "active_assignment_id", "");
      var updated :- OptionalString(fields, "updated_at", "");
      Ok(Some(Execution(ids, active, updated)))
  }

  function DecodeItem(j: Json, legacy: bool): Decoded<Item>
    decreases j, 1
  {
    var fields :- Mapping(j, if legacy then ITEM_FIELDS + {"agent"} else ITEM_FIELDS);
    var id :- RequiredString(Get(fields, "id"));
    if id == "" then Err(EmptyId)
    else
      var statusText :- OptionalString(fields, "status", "not_started");
      if ParseStatus(statusText).None? then Err(UnsupportedStatus)
      else
        var priority :- OptionalString(fields, "priority", "medium");
        if priority !in PRIORITIES then Err(UnsupportedPriority)
        else
          var estimate :- DecodeEstimate(Get(fields, "estimated_minutes"));
          var title :- OptionalString(fields, "title", "");
          var description :- OptionalString(fields, "description", "");
          var raw :- OptionalList(fields, "subtasks");
          var subtasks :- if raw == [] then Ok([]) else DecodeItems(raw);
          var execution :- DecodeExecution(Get(fields, "execution"));
          Ok(Item(id, title, description, ParseStatus(statusText).value, priority, estimate, subtasks, execution))
  }

  function DecodeItems(js: seq<Json>): Decoded<seq<Item>>
    decreases js, 0
  {
    if js == [] then Ok([])
    else
      var head :- DecodeItem(js[0], false);
      var rest :- DecodeItems(js[1..]);
      Ok([head] + rest)
  }

  function DecodePlan(j: Json): Decoded<Plan> {
    var fields :- Mapping(j, PLAN_FIELDS);
    var goal :- OptionalString(fields, "goal", "");
    var summary :- OptionalString(fields, "summary", "");
    var raw :- OptionalList(fields, "tasks");
    var tasks :- DecodeItems(raw);
    var updated :- OptionalString(fields, "updated_at", "");
    Ok(Plan(goal, summary, tasks, updated))
  }

  function DecodePlanAt(agent: string, j: Json): Decoded<Plan> { DecodePlan(j) }

  function DecodeMode(agent: string, j: Json): Decoded<string> { RequiredString(Some(j)) }

  function DecodeTargets(agent: string, j: Json): Decoded<seq<string>> { StringList(j) }

  function Owner(j: Json): Decoded<string> {
    var fields :- AnyMapping(j);
    OptionalString(fields, "agent", COORDINATOR)
  }

  /** `grouped.setdefault(owner, []).append(item)` over the flat schema-1 list. */
  function Grouped(js: seq<Json>): (r: Decoded<Dict<seq<Item>>>)
    ensures r.Ok? ==> Distinct(r.value)
  {
    if js == [] then Ok([])
    else
      var init :- Grouped(js[..|js| - 1]);
      var owner :- Owner(js[|js| - 1]);
      var item :- DecodeItem(js[|js| - 1], true);
      var mine := Get(init, owner);
      Ok(Put(init, owner, (if mine.Some? then mine.value else []) + [item]))
  }

  function AsPlans(groups: Dict<seq<Item>>): (r: Dict<Plan>)
    ensures |r| == |groups|
    ensures forall i :: 0 <= i < |r| ==> r[i] == (groups[i].0, Plan("", "", groups[i].1, ""))
  {
    seq(|groups|, i requires 0 <= i < |groups| => (groups[i].0, Plan("", "", groups[i].1, "")))
  }

  function DecodePlans(fields: Dict<Json>, version: int): Decoded<Dict<Plan>> {
    var plans :- OptionalMap(fields, "plans", DecodePlanAt);
    if version == 1 && plans == [] then
      var raw :- OptionalList(fields, "plan");
      var groups :- Grouped(raw);
      Ok(AsPlans(groups))
    else Ok(plans)
  }

  /** `ConsoleBlueprint.from_json` */
  function Decode(j: Json): Decoded<Blueprint> {
    var fields :- AnyMapping(j);
    var version :- Version(fields);
    var _ :- Mapping(j, if version == 1 then FIELDS_V1 else FIELDS_V2);
    var workers :- OptionalMap(fields, "workers", DecodeWorker);
    var rawEdges :- OptionalList(fields, "connections");
    var connections :- DecodeEdges(rawEdges);
    var mappers :- OptionalMap(fields, "mappers", DecodeMode);
    var routers :- OptionalMap(fields, "routers", DecodeTargets);
    var plans :- DecodePlans(fields, version);
    Ok(Blueprint(workers, connections, mappers, routers, plans, SCHEMA_VERSION))
  }

  // ---- encoders ---------------------------------------------------------------

  function EncodeStrings(ss: seq<string>): seq<Json> {
    if ss == [] then [] else [Str(ss[0])] + EncodeStrings(ss[1..])
  }

  function EncodeMap<V>(d: Dict<V>, f: V -> Json): (r: Dict<Json>)
    ensures |r| == |d| && forall i :: 0 <= i < |d| ==> r[i] == (d[i].0, f(d[i].1))
  {
    seq(|d|, i requires 0 <= i < |d| => (d[i].0, f(d[i].1)))
  }

  function EncodeMode(mode: string): Json { Str(mode) }

  function EncodeTargets(targets: seq<string>): Json { Arr(EncodeStrings(targets)) }

  function EncodeWorker(w: Worker): Json {
    Obj([("name", Str(w.name)), ("system_prompt", Str(w.systemPrompt)), ("role", Str(w.role))])
  }

  function EncodeEdges(edges: seq<Edge>): seq<Json> {
    if edges == [] then []
    else [Obj([("source", Str(edges[0].source)), ("target", Str(edges[0].target))])] + EncodeEdges(edges[1..])
  }

  function EncodeExecution(e: Option<Execution>): Json {
    if e.None? then Null
    else Obj([("assignment_ids", Arr(EncodeStrings(e.value.assignmentIds))),
              ("active_assignment_id", Str(e.value.active)),
              ("updated_at", Str(e.value.updatedAt))])
  }

  function EncodeItem(item: Item): Json
    decreases item, 1
  {
    Obj([("id", Str(item.id)), ("title", Str(item.title)), ("description", Str(item.description)),
         ("status", Str(StatusText(item.status))), ("priority", Str(item.priority)),
         ("estimated_minutes", if item.estimate.None? then Null else Real(item.estimate.value)),
         ("subtasks", Arr(EncodeItems(item.subtasks))),
         ("execution", EncodeExecution(item.execution))])
  }

  function EncodeItems(items: seq<Item>): seq<Json>
    decreases items, 0
  {
    if items == [] then [] else [EncodeItem(items[0])] + EncodeItems(items[1..])
  }

  function EncodePlan(p: Plan): Json {
    Obj([("goal", Str(p.goal)), ("summary", Str(p.summary)),
         ("tasks", Arr(EncodeItems(p.tasks))), ("updated_at", Str(p.updatedAt))])
  }

  /** `ConsoleBlueprint.to_json`. */
  function Encode(b: Blueprint): Json {
    Obj([("workers", Obj(EncodeMap(b.workers, EncodeWorker))),
         ("connections", Arr(EncodeEdges(b.connections))),
         ("mappers", Obj(EncodeMap(b.mappers, EncodeMode))),
         ("routers", Obj(EncodeMap(b.routers, EncodeTargets))),
         ("plans", Obj(EncodeMap(b.plans, EncodePlan))),
         ("schema_version", Int(b.schemaVersion))])
  }
}
