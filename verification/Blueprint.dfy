/** The persisted console entities: worker roles, edges, nested task plans. */
module Blueprints {
  import opened Wrappers
  import opened Dicts

  datatype Worker = Worker(name: string, systemPrompt: string, role: string)

  datatype Edge = Edge(source: string, target: string)

  datatype Status = NotStarted | InProgress | Completed | Blocked

  /** Correlation of a plan leaf with the assignments dispatched for it. */
  datatype Execution = Execution(assignmentIds: seq<string>, active: string, updatedAt: string)

  datatype Item = Item(
    id: string, title: string, description: string, status: Status, priority: string,
    estimate: Option<real>, subtasks: seq<Item>, execution: Option<Execution>)

  datatype Plan = Plan(goal: string, summary: string, tasks: seq<Item>, updatedAt: string)

  datatype Blueprint = Blueprint(
    workers: Dict<Worker>, connections: seq<Edge>, mappers: Dict<string>,
    routers: Dict<seq<string>>, plans: Dict<Plan>, schemaVersion: int)

  const SCHEMA_VERSION := 2

  const EMPTY := Blueprint([], [], [], [], [], SCHEMA_VERSION)

  const COORDINATOR := "coordinator"

  const MAPPER_MODES: set<string> := {"concat", "json", "labelled"}

  const PRIORITIES: set<string> := {"low", "medium", "high", "critical"}

  /** The safe failures a console operation reports. */
  datatype DomainError =
    | InvalidName | AgentExists | CoordinatorFixed | UnknownAgent
    | UnknownEndpoint | SelfLink | ConnectionExists | WouldCycle | ConnectionMissing
    | InvalidMode | UnknownRouterAgent
    | TasksNotAList | GoalRequired | TaskNotAnObject | BadTaskId | BadStatusOrPriority
    | SubtasksNotAList | BadEstimate | TitleRequired
    | InvalidStatus | PlanMissing | ParentStatusDerived | UnknownTask
    | AssignmentRequired | OnlyLeafBindable

  predicate IsLetter(c: char) { 'a' <= c <= 'z' || 'A' <= c <= 'Z' }

  predicate IsNameChar(c: char) { IsLetter(c) || '0' <= c <= '9' || c == '_' || c == '-' }

  /** `^[A-Za-z][A-Za-z0-9_-]{0,63}$` as a full match. */
  predicate IsName(s: string) {
    1 <= |s| <= 64 && IsLetter(s[0]) && forall i :: 0 <= i < |s| ==> IsNameChar(s[i])
  }

  function Nodes(b: Blueprint): set<string> { {COORDINATOR} + Keys(b.workers) }

  function ParseStatus(s: string): Option<Status> {
    match s
    case "not_started" => Some(NotStarted)
    case "in_progress" => Some(InProgress)
    case "completed" => Some(Completed)
    case "blocked" => Some(Blocked)
    case _ => None
  }

  function StatusText(s: Status): (r: string)
    ensures ParseStatus(r) == Some(s)
  {
    match s
    case NotStarted => "not_started"
    case InProgress => "in_progress"
    case Completed => "completed"
    case Blocked => "blocked"
  }
}
