/** The bounded plan block. */
module PlanBlock {
  import opened Wrappers
  import opened PyText
  import opened Blueprints

  const DESCRIPTION_CHARACTERS := 200
  const MINIMUM_CHARACTERS := 1000

  // ---- escaping ---------------------------------------------------------------

  /** `s.replace(c, entity)` for one character. */
  function Replace(s: string, c: char, entity: string): string {
    if s == "" then "" else (if s[0] == c then entity else [s[0]]) + Replace(s[1..], c, entity)
  }

  /** `_text` */
  function Escape(s: string): string {
    Replace(Replace(Replace(s, '&', "&amp;"), '<', "&lt;"), '>', "&gt;")
  }

  // ---- lines ------------------------------------------------------------------

  function Join(sep: string, parts: seq<string>): string {
    if parts == [] then "" else if |parts| == 1 then parts[0] else parts[0] + sep + Join(sep, parts[1..])
  }

  /** The leading characters that are not whitespace. */
  function Word(s: string): (w: string)
    ensures |w| <= |s|
  {
    if s == "" || IsSpace(s[0]) then "" else [s[0]] + Word(s[1..])
  }

  /** `s.split()` */
  function Words(s: string): seq<string>
    decreases |s|
  {
    StripLeftFacts(s);
    var t := StripLeft(s);
    if t == "" then [] else [Word(t)] + Words(t[|Word(t)|..])
  }

  function Repeat(s: string, n: nat): string {
    if n == 0 then "" else s + Repeat(s, n - 1)
  }

  /** `_item_line` */
  function ItemLine(item: Item, depth: nat): string {
    var title := if item.title == "" then [] else ["| " + Escape(item.title)];
    var description :=
      if item.description == "" then []
      else ["| " + Escape(Take(Join(" ", Words(item.description)), DESCRIPTION_CHARACTERS))];
    Repeat("  ", depth) + Join(" ", ["- [" + StatusText(item.status) + "] " + item.id] + title + description)
  }

  type Liner = (Item, nat) -> string

  /** One line per task, parents before their subtasks. */
  function Preorder(line: Liner, items: seq<Item>, depth: nat): seq<string>
    decreases items
  {
    if items == [] then []
    else [line(items[0], depth)] + Preorder(line, items[0].subtasks, depth + 1) + Preorder(line, items[1..], depth)
  }

  function TaskLines(plan: Plan): seq<string> {
    Preorder(ItemLine, plan.tasks, 0)
  }

  /** `_count` */
  function Count(items: seq<Item>): nat {
    if items == [] then 0 else 1 + Count(items[0].subtasks) + Count(items[1..])
  }

  function Cost(lines: seq<string>): nat {
    if lines == [] then 0 else |lines[0]| + 1 + Cost(lines[1..])
  }

  /** The leading lines that go into the room when one stops at the first that does not fit. */
  function Fit(lines: seq<string>, room: int): seq<string> {
    if lines == [] || |lines[0]| + 1 > room then [] else [lines[0]] + Fit(lines[1..], room - |lines[0]| - 1)
  }

  // ---- the block --------------------------------------------------------------

  function Tag(name: string): string { "<" + name + ">" }

  function Attribute(name: string, value: string): string { " " + name + "=\"" + value + "\"" }

  function Element(name: string, text: string): string { Tag(name) + Escape(text) + Tag("/" + name) }

  const NAME := "angelus_task_plan"
  const TAIL := Tag("/" + NAME)

  function Head(plan: Plan, agent: string): seq<string> {
    [Tag(NAME + Attribute("agent", Escape(agent))), Element("goal", plan.goal)]
    + if plan.summary == "" then [] else [Element("summary", plan.summary)]
  }

  function Marker(shown: nat, total: nat): string {
    Tag("truncated" + Attribute("shown", Decimal(shown)) + Attribute("total", Decimal(total)) + "/")
  }

  function Room(head: seq<string>, limit: int): int {
    limit - (|TAIL| + 1) - Cost(head)
  }

  /** The lines of the block that shows these task lines of total many. */
  function Lines(head: seq<string>, shown: seq<string>, total: nat): seq<string> {
    head + shown + (if |shown| < total then [Marker(|shown|, total)] else []) + [TAIL]
  }

  function ShownLines(plan: Plan, agent: string, limit: int): seq<string> {
    Fit(TaskLines(plan), Room(Head(plan, agent), limit))
  }

  function BlockText(plan: Plan, agent: string, limit: int): string {
    Join("\n", Lines(Head(plan, agent), ShownLines(plan, agent, limit), Count(plan.tasks)))
  }

  /** The variables the walk shares with its caller. */
  datatype Walked = Walked(lines: seq<string>, used: nat, count: nat, truncated: bool)

  function Emit(w: Walked, line: string, budget: int): Walked {
    if w.truncated || w.used + |line| + 1 > budget then w.(truncated := true)
    else Walked(w.lines + [line], w.used + |line| + 1, w.count + 1, false)
  }

  function EmitAll(w: Walked, lines: seq<string>, budget: int): Walked
    decreases |lines|
  {
    if lines == [] then w else EmitAll(Emit(w, lines[0], budget), lines[1..], budget)
  }

  /** The walk of `_render_plan`. */
  class PlanWalk {
    const lineOf: Liner
    const budget: int
    var lines: seq<string>
    var used: nat
    var count: nat
    var truncated: bool

    ghost function State(): Walked
      reads this
    {
      Walked(lines, used, count, truncated)
    }

    constructor (lineOf: Liner, budget: int, used: nat)
      ensures this.lineOf == lineOf && this.budget == budget && State() == Walked([], used, 0, false)
    {
      this.lineOf, this.budget, this.used, lines, count, truncated := lineOf, budget, used, [], 0, false;
    }

    /** Emits the lines of the subtrees that fit and stops for good at the first that does not. */
    method Walk(items: seq<Item>, depth: nat)
      requires !truncated
      modifies this
      ensures State() == EmitAll(old(State()), Preorder(lineOf, items, depth), budget)
      decreases items
    {
      ghost var goal := EmitAll(State(), Preorder(lineOf, items, depth), budget);
      for i := 0 to |items|
        invariant !truncated && EmitAll(State(), Preorder(lineOf, items[i..], depth), budget) == goal
      {
        var line := lineOf(items[i], depth);
        PreorderStep(lineOf, items, i, depth);
        ghost var rest := Preorder(lineOf, items[i + 1..], depth);
        EmitTask(State(), line, Preorder(lineOf, items[i].subtasks, depth + 1), rest, budget);
        if used + |line| + 1 > budget {
          truncated := true;
          EmitNothingMore(State(), Preorder(lineOf, items[i].subtasks, depth + 1), budget);
          EmitNothingMore(State(), rest, budget);
          return;
        }
        lines := lines + [line];
        used := used + |line| + 1;
        count := count + 1;
        Walk(items[i].subtasks, depth + 1);
        if truncated {
          EmitNothingMore(State(), rest, budget);
          return;
        }
      }
    }
  }

  lemma {:induction false} PreorderStep(line: Liner, items: seq<Item>, i: nat, depth: nat)
    requires i < |items|
    ensures Preorder(line, items[i..], depth)
      == [line(items[i], depth)] + Preorder(line, items[i].subtasks, depth + 1) + Preorder(line, items[i + 1..], depth)
  {
    assert items[i..][0] == items[i] && items[i..][1..] == items[i + 1..];
  }

  lemma {:induction false} EmitSplits(w: Walked, a: seq<string>, b: seq<string>, budget: int)
    ensures EmitAll(w, a + b, budget) == EmitAll(EmitAll(w, a, budget), b, budget)
    decreases |a|
  {
    if a == [] {
      assert a + b == b;
    } else {
      assert (a + b)[1..] == a[1..] + b;
      EmitSplits(Emit(w, a[0], budget), a[1..], b, budget);
    }
  }

  lemma EmitTask(w: Walked, line: string, inner: seq<string>, rest: seq<string>, budget: int)
    ensures EmitAll(w, [line] + inner + rest, budget)
      == EmitAll(EmitAll(Emit(w, line, budget), inner, budget), rest, budget)
  {
    EmitSplits(w, [line] + inner, rest, budget);
    assert ([line] + inner)[1..] == inner;
  }

  lemma {:induction false} EmitNothingMore(w: Walked, lines: seq<string>, budget: int)
    requires w.truncated
    ensures EmitAll(w, lines, budget) == w
    decreases |lines|
  {
    if lines != [] { EmitNothingMore(w, lines[1..], budget); }
  }

  lemma OneMoreLine(before: seq<string>, line: string, after: seq<string>)
    ensures before + [line] + after == before + ([line] + after)
    ensures ([line] + after)[1..] == after && Cost([line] + after) == |line| + 1 + Cost(after)
  {
  }

  /** What has been emitted is the part that fits, and truncation says that it is not all. */
  lemma {:induction false} EmitAllFits(w: Walked, lines: seq<string>, budget: int)
    requires !w.truncated
    ensures var shown := Fit(lines, budget - w.used);
      EmitAll(w, lines, budget) == Walked(w.lines + shown, w.used + Cost(shown), w.count + |shown|, |shown| < |lines|)
    decreases |lines|
  {
    if lines == [] {
      assert w.lines + [] == w.lines;
    } else if w.used + |lines[0]| + 1 > budget {
      EmitNothingMore(Emit(w, lines[0], budget), lines[1..], budget);
      assert w.lines + [] == w.lines;
    } else {
      var shown := Fit(lines[1..], budget - w.used - |lines[0]| - 1);
      EmitAllFits(Emit(w, lines[0], budget), lines[1..], budget);
      OneMoreLine(w.lines, lines[0], shown);
    }
  }

  method HeadCost(head: seq<string>) returns (used: nat)
    ensures used == Cost(head)
  {
    used := 0;
    for i := 0 to |head|
      invariant used == Cost(head[..i])
    {
      assert head[..i + 1] == head[..i] + [head[i]];
      CostSplits(head[..i], [head[i]]);
      used := used + |head[i]| + 1;
    }
    assert head[..|head|] == head;
  }

  method Assemble(head: seq<string>, line: Liner, tasks: seq<Item>, limit: int)
      returns (body: seq<string>, count: nat, truncated: bool)
    ensures var shown := Fit(Preorder(line, tasks, 0), Room(head, limit));
      && body == Lines(head, shown, Count(tasks)) && count == |shown| && (truncated <==> count < Count(tasks))
  {
    var used := HeadCost(head);
    var walk := new PlanWalk(line, limit - (|TAIL| + 1), used);
    walk.Walk(tasks, 0);
    PreorderCounts(line, tasks, 0);
    EmitAllFits(Walked([], used, 0, false), Preorder(line, tasks, 0), walk.budget);
    ghost var shown := Fit(Preorder(line, tasks, 0), Room(head, limit));
    assert [] + shown == shown;
    var marker := if walk.truncated then [Marker(walk.count, Count(tasks))] else [];
    return head + walk.lines + marker + [TAIL], walk.count, walk.truncated;
  }

  /** The rendered block, the number of tasks in it, and whether tasks are missing. */
  method RenderPlan(plan: Plan, agent: string, limit: int) returns (content: string, count: nat, truncated: bool)
    ensures content == BlockText(plan, agent, limit)
    ensures count == |ShownLines(plan, agent, limit)|
    ensures truncated <==> count < Count(plan.tasks)
  {
    var body;
    body, count, truncated := Assemble(Head(plan, agent), ItemLine, plan.tasks, limit);
    content := Join("\n", body);
  }

  /** `build_blocks`: nothing without tasks, else one block under a limit of at least 1000 characters. */
  method BuildBlock(plan: Plan, agent: string, characters: int) returns (block: Option<string>)
    ensures block == if plan.tasks == [] then None else Some(BlockText(plan, agent, Bound(characters)))
  {
    if plan.tasks == [] { return None; }
    var content, count, truncated := RenderPlan(plan, agent, Bound(characters));
    return Some(content);
  }

  function Bound(characters: int): int {
    if characters < MINIMUM_CHARACTERS then MINIMUM_CHARACTERS else characters
  }

  // ---- what the walk shows ----------------------------------------------------

  lemma {:induction false} CostSplits(a: seq<string>, b: seq<string>)
    ensures Cost(a + b) == Cost(a) + Cost(b)
  {
    if a == [] {
      assert a + b == b;
    } else {
      assert (a + b)[1..] == a[1..] + b;
      CostSplits(a[1..], b);
    }
  }

  lemma {:induction false} PreorderCounts(line: Liner, items: seq<Item>, depth: nat)
    ensures |Preorder(line, items, depth)| == Count(items)
    decreases items
  {
    if items != [] {
      PreorderCounts(line, items[0].subtasks, depth + 1);
      PreorderCounts(line, items[1..], depth);
    }
  }

  /** The shown lines are the longest preorder prefix that fits. */
  lemma {:induction false} FitIsLongest(lines: seq<string>, room: int)
    ensures Fit(lines, room) <= lines
    ensures |Fit(lines, room)| == |lines| ==> Fit(lines, room) == lines
    ensures room >= 0 ==> Cost(Fit(lines, room)) <= room
    ensures forall k :: |Fit(lines, room)| < k <= |lines| ==> Cost(lines[..k]) > room
  {
    if lines != [] && |lines[0]| + 1 <= room {
      FitIsLongest(lines[1..], room - |lines[0]| - 1);
    }
    forall k | |Fit(lines, room)| < k <= |lines| ensures Cost(lines[..k]) > room {
      assert lines[..k][1..] == lines[1..][..k - 1];
    }
  }

  lemma {:induction false} JoinLength(parts: seq<string>)
    requires parts != []
    ensures |Join("\n", parts)| == Cost(parts) - 1
  {
    if |parts| > 1 { JoinLength(parts[1..]); }
  }

  /** A complete block of a non-empty plan is shorter than the limit. One that is cut short is
      over it by at most its marker line, provided its head alone is within. */
  lemma BlockIsBounded(plan: Plan, agent: string, limit: int)
    ensures var shown, total := |ShownLines(plan, agent, limit)|, Count(plan.tasks);
      var size := |BlockText(plan, agent, limit)|;
      && (shown == total > 0 ==> size < limit)
      && (shown < total && Room(Head(plan, agent), limit) >= 0 ==> size <= limit + |Marker(shown, total)|)
  {
    PreorderCounts(ItemLine, plan.tasks, 0);
    BlockSize(Head(plan, agent), TaskLines(plan), limit);
  }

  lemma BlockSize(head: seq<string>, all: seq<string>, limit: int)
    ensures var shown := Fit(all, Room(head, limit)); var size := |Join("\n", Lines(head, shown, |all|))|;
      && (|shown| == |all| > 0 ==> size < limit)
      && (|shown| < |all| && Room(head, limit) >= 0 ==> size <= limit + |Marker(|shown|, |all|)|)
  {
    var room := Room(head, limit);
    var shown := Fit(all, room);
    FitIsLongest(all, room);
    var marker := if |shown| < |all| then [Marker(|shown|, |all|)] else [];
    CostSplits(head, shown);
    CostSplits(head + shown, marker);
    CostSplits(head + shown + marker, [TAIL]);
    JoinLength(Lines(head, shown, |all|));
  }

  // ---- escaped text -----------------------------------------------------------

  /** The escape of one character on its own. */
  function Escaped(c: char): string {
    if c == '&' then "&amp;" else if c == '<' then "&lt;" else if c == '>' then "&gt;" else [c]
  }

  function EscapedAll(s: string): string {
    if s == "" then "" else Escaped(s[0]) + EscapedAll(s[1..])
  }

  lemma {:induction false} ReplaceSplits(a: string, b: string, c: char, entity: string)
    ensures Replace(a + b, c, entity) == Replace(a, c, entity) + Replace(b, c, entity)
  {
    if a == "" {
      assert a + b == b;
    } else {
      assert (a + b)[1..] == a[1..] + b;
      ReplaceSplits(a[1..], b, c, entity);
    }
  }

  lemma {:induction false} ReplaceNothing(s: string, c: char, entity: string)
    requires c !in s
    ensures Replace(s, c, entity) == s
  {
    if s != "" { ReplaceNothing(s[1..], c, entity); }
  }

  lemma ReplaceOne(c: char, d: char, entity: string)
    ensures Replace([c], d, entity) == if c == d then entity else [c]
  {
    assert [c][1..] == "";
  }

  lemma EscapeOne(c: char)
    ensures Escape([c]) == Escaped(c)
  {
    ReplaceOne(c, '&', "&amp;");
    ReplaceOne(c, '<', "&lt;");
    ReplaceOne(c, '>', "&gt;");
    AmpersandStays();
    LessStays();
  }

  lemma {:induction false} AmpersandStays()
    ensures Replace(Replace("&amp;", '<', "&lt;"), '>', "&gt;") == "&amp;"
  {
    ReplaceNothing("&amp;", '<', "&lt;");
    ReplaceNothing("&amp;", '>', "&gt;");
  }

  lemma {:induction false} LessStays()
    ensures Replace("&lt;", '>', "&gt;") == "&lt;"
  {
    ReplaceNothing("&lt;", '>', "&gt;");
  }

  /** The three replacements in sequence never touch each other's output. */
  lemma {:induction false} EscapeIsCharwise(s: string)
    ensures Escape(s) == EscapedAll(s)
  {
    if s != "" {
      assert s == [s[0]] + s[1..];
      EscapeOne(s[0]);
      EscapeIsCharwise(s[1..]);
      ReplaceSplits([s[0]], s[1..], '&', "&amp;");
      ReplaceSplits(Replace([s[0]], '&', "&amp;"), Replace(s[1..], '&', "&amp;"), '<', "&lt;");
      ReplaceSplits(Replace(Replace([s[0]], '&', "&amp;"), '<', "&lt;"),
                    Replace(Replace(s[1..], '&', "&amp;"), '<', "&lt;"), '>', "&gt;");
    }
  }

  /** Escaped text holds no markup, and two texts never look alike. */
  lemma {:induction false} EscapeIsFaithful(a: string, b: string)
    ensures '<' !in Escape(a) && '>' !in Escape(a)
    ensures Escape(a) == Escape(b) ==> a == b
  {
    EscapeIsCharwise(a);
    EscapeIsCharwise(b);
    EscapedAllHasNoMarkup(a);
    if Escape(a) == Escape(b) { EscapedAllIsInjective(a, b); }
  }

  lemma {:induction false} EscapedAllHasNoMarkup(s: string)
    ensures '<' !in EscapedAll(s) && '>' !in EscapedAll(s)
  {
    if s != "" { EscapedAllHasNoMarkup(s[1..]); }
  }

  lemma EscapedIsPrefixFree(c: char, d: char, x: string, y: string)
    requires Escaped(c) + x == Escaped(d) + y
    ensures c == d && x == y
  {
    var left, right := Escaped(c) + x, Escaped(d) + y;
    assert left[0] == Escaped(c)[0] && right[0] == Escaped(d)[0];
    if left[0] == '&' {
      assert left[1] == Escaped(c)[1] && right[1] == Escaped(d)[1];
    }
    assert left[|Escaped(c)|..] == x && right[|Escaped(d)|..] == y;
  }

  lemma {:induction false} EscapedAllIsInjective(a: string, b: string)
    requires EscapedAll(a) == EscapedAll(b)
    ensures a == b
  {
    if a != "" && b != "" {
      EscapedIsPrefixFree(a[0], b[0], EscapedAll(a[1..]), EscapedAll(b[1..]));
      EscapedAllIsInjective(a[1..], b[1..]);
      assert a == [a[0]] + a[1..] && b == [b[0]] + b[1..];
    }
  }
}
