/** What in a plan block is its own. */
module PlanMarkup {
  import opened Wrappers
  import opened PyText
  import opened Splits
  import opened Blueprints
  import opened PlanBlock

  /** How many angle brackets a text holds. */
  function Angles(s: string): nat {
    if s == "" then 0 else (if s[0] == '<' || s[0] == '>' then 1 else 0) + Angles(s[1..])
  }

  lemma {:induction false} AnglesSplit(a: string, b: string)
    ensures Angles(a + b) == Angles(a) + Angles(b)
  {
    if a == "" {
      assert a + b == b;
    } else {
      assert (a + b)[1..] == a[1..] + b;
      AnglesSplit(a[1..], b);
    }
  }

  predicate Plain(s: string) { '<' !in s && '>' !in s }

  lemma {:induction false} PlainHasNone(s: string)
    ensures Angles(s) == 0 <==> Plain(s)
  {
    if s != "" { PlainHasNone(s[1..]); }
  }

  /** A task and how deep it is nested. */
  function Nested(items: seq<Item>, depth: nat): seq<(Item, nat)>
    decreases items
  {
    if items == [] then [] else [(items[0], depth)] + Nested(items[0].subtasks, depth + 1) + Nested(items[1..], depth)
  }

  /** The k-th line is the line of the k-th task. */
  lemma {:induction false} PreorderIsNested(line: Liner, items: seq<Item>, depth: nat)
    ensures |Preorder(line, items, depth)| == |Nested(items, depth)|
    ensures forall k :: 0 <= k < |Nested(items, depth)| ==>
      Preorder(line, items, depth)[k] == line(Nested(items, depth)[k].0, Nested(items, depth)[k].1)
    decreases items
  {
    if items != [] {
      PreorderIsNested(line, items[0].subtasks, depth + 1);
      PreorderIsNested(line, items[1..], depth);
    }
  }

  /** The tasks of a plan that its block shows. */
  function ShownTasks(plan: Plan, agent: string, limit: int): (shown: seq<(Item, nat)>)
    ensures |shown| == |ShownLines(plan, agent, limit)|
    ensures forall k :: 0 <= k < |shown| ==> ShownLines(plan, agent, limit)[k] == ItemLine(shown[k].0, shown[k].1)
  {
    FitIsLongest(TaskLines(plan), Room(Head(plan, agent), limit));
    PreorderIsNested(ItemLine, plan.tasks, 0);
    Nested(plan.tasks, 0)[..|ShownLines(plan, agent, limit)|]
  }

  // ---- foreign markup ---------------------------------------------------------

  function Column(s: string): string {
    if s == "" then "" else " | " + Escape(s)
  }

  function Summarized(description: string): string {
    Take(Join(" ", Words(description)), DESCRIPTION_CHARACTERS)
  }

  function Bullet(item: Item, depth: nat): string {
    Repeat("  ", depth) + ("- [" + StatusText(item.status) + "] ")
  }

  lemma Joins(x: string, y: string, z: string)
    ensures Join(" ", [x]) == x
    ensures Join(" ", [x, y]) == x + " " + y
    ensures Join(" ", [x, y, z]) == x + " " + y + " " + z
  {
    assert [x, y][1..] == [y] && [y, z][1..] == [z] && [x, y, z][1..] == [y, z];
    assert Join(" ", [y, z]) == y + " " + z;
    assert x + " " + (y + " " + z) == x + " " + y + " " + z;
  }

  lemma LineIs(item: Item, depth: nat)
    ensures ItemLine(item, depth) == Bullet(item, depth) + item.id + Column(item.title)
      + (if item.description == "" then "" else " | " + Escape(Summarized(item.description)))
  {
    var mark := "- [" + StatusText(item.status) + "] ";
    Columns(Repeat("  ", depth), mark, item.id, Escape(item.title), Escape(Summarized(item.description)));
    var title := if item.title == "" then [] else ["| " + Escape(item.title)];
    var description := if item.description == "" then [] else ["| " + Escape(Summarized(item.description))];
    assert ItemLine(item, depth) == Repeat("  ", depth) + Join(" ", [mark + item.id] + title + description);
  }

  lemma Columns(indent: string, mark: string, id: string, title: string, description: string)
    ensures var t, d := "| " + title, "| " + description;
      && indent + Join(" ", [mark + id]) == indent + mark + id
      && indent + Join(" ", [mark + id, t]) == indent + mark + id + (" | " + title)
      && indent + Join(" ", [mark + id, d]) == indent + mark + id + (" | " + description)
      && indent + Join(" ", [mark + id, t, d]) == indent + mark + id + (" | " + title) + (" | " + description)
  {
    var t, d := "| " + title, "| " + description;
    Joins(mark + id, t, d);
    Joins(mark + id, d, d);
    assert " " + t == " | " + title && " " + d == " | " + description;
  }

  lemma {:induction false} BulletIsPlain(item: Item, depth: nat)
    ensures Plain(Bullet(item, depth)) && '\n' !in Bullet(item, depth)
  {
    RepeatIsBlank(depth);
    StatusIsPlain(item.status);
  }

  lemma StatusIsPlain(s: Status)
    ensures Plain("- [" + StatusText(s) + "] ") && '\n' !in "- [" + StatusText(s) + "] "
  {
    var text := StatusText(s);
    match s {
      case NotStarted => assert text == "not_started";
      case InProgress => assert text == "in_progress";
      case Completed => assert text == "completed";
      case Blocked => assert text == "blocked";
    }
  }

  lemma {:induction false} RepeatIsBlank(n: nat)
    ensures forall c :: c in Repeat("  ", n) ==> c == ' '
  {
    if n > 0 { RepeatIsBlank(n - 1); }
  }

  lemma ColumnIsPlain(s: string)
    ensures Plain(" | " + Escape(s))
  {
    EscapeIsFaithful(s, s);
  }

  /** The angle brackets of a task's line are those of its name. */
  lemma {:induction false} LineAngles(item: Item, depth: nat)
    ensures Angles(ItemLine(item, depth)) == Angles(item.id)
  {
    LineIs(item, depth);
    BulletIsPlain(item, depth);
    ColumnIsPlain(item.title);
    ColumnIsPlain(Summarized(item.description));
    var bullet, title := Bullet(item, depth), Column(item.title);
    var description := if item.description == "" then "" else " | " + Escape(Summarized(item.description));
    PlainHasNone(bullet);
    PlainHasNone(title);
    PlainHasNone(description);
    AnglesSplit(bullet + item.id + title, description);
    AnglesSplit(bullet + item.id, title);
    AnglesSplit(bullet, item.id);
  }

  function AllAngles(lines: seq<string>): nat {
    if lines == [] then 0 else Angles(lines[0]) + AllAngles(lines[1..])
  }

  lemma {:induction false} AllAnglesSplit(a: seq<string>, b: seq<string>)
    ensures AllAngles(a + b) == AllAngles(a) + AllAngles(b)
  {
    if a == [] {
      assert a + b == b;
    } else {
      assert (a + b)[1..] == a[1..] + b;
      AllAnglesSplit(a[1..], b);
    }
  }

  lemma {:induction false} JoinAngles(lines: seq<string>)
    ensures Angles(Join("\n", lines)) == AllAngles(lines)
  {
    if |lines| > 1 {
      JoinAngles(lines[1..]);
      PlainHasNone("\n");
      AnglesSplit(lines[0] + "\n", Join("\n", lines[1..]));
      AnglesSplit(lines[0], "\n");
    }
  }

  lemma {:induction false} ThreeAngles(a: string, b: string, c: string)
    ensures Angles(a + b + c) == Angles(a) + Angles(b) + Angles(c)
  {
    AnglesSplit(a + b, c);
    AnglesSplit(a, b);
  }

  /** A tag of plain text. */
  lemma {:induction false} TagAngles(name: string)
    requires Plain(name)
    ensures Angles(Tag(name)) == 2
  {
    PlainHasNone(name);
    ThreeAngles("<", name, ">");
  }

  lemma {:induction false} ElementAngles(name: string, text: string)
    requires Plain(name)
    ensures Angles(Element(name, text)) == 4
  {
    EscapeIsFaithful(text, text);
    PlainHasNone(Escape(text));
    TagAngles(name);
    TagAngles("/" + name);
    ThreeAngles(Tag(name), Escape(text), Tag("/" + name));
  }

  lemma {:induction false} DecimalIsPlain(n: nat)
    ensures Plain(Decimal(n))
  {
    if n >= 10 {
      DecimalIsPlain(n / 10);
      DecimalIsPlain(n % 10);
    }
  }

  lemma AttributeIsPlain(name: string, value: string)
    requires Plain(name) && Plain(value)
    ensures Plain(Attribute(name, value))
  {
  }

  lemma {:induction false} MarkerAngles(shown: nat, total: nat)
    ensures Angles(Marker(shown, total)) == 2
  {
    DecimalIsPlain(shown);
    DecimalIsPlain(total);
    AttributeIsPlain("shown", Decimal(shown));
    AttributeIsPlain("total", Decimal(total));
    TagAngles("truncated" + Attribute("shown", Decimal(shown)) + Attribute("total", Decimal(total)) + "/");
  }

  lemma {:induction false} AgentAngles(agent: string)
    ensures Angles(Tag(NAME + Attribute("agent", Escape(agent)))) == 2
  {
    EscapeIsFaithful(agent, agent);
    AttributeIsPlain("agent", Escape(agent));
    TagAngles(NAME + Attribute("agent", Escape(agent)));
  }

  lemma {:induction false} ThreeLines(a: string, b: string, c: string)
    ensures AllAngles([a]) == Angles(a)
    ensures AllAngles([a, b] + []) == Angles(a) + Angles(b)
    ensures AllAngles([a, b] + [c]) == Angles(a) + Angles(b) + Angles(c)
  {
    assert [a, b] + [] == [a] + [b];
    AllAnglesSplit([a], [b]);
    AllAnglesSplit([a, b], [c]);
  }

  lemma {:induction false} HeadAngles(plan: Plan, agent: string)
    ensures AllAngles(Head(plan, agent)) == if plan.summary == "" then 6 else 10
  {
    AgentAngles(agent);
    ElementAngles("goal", plan.goal);
    ElementAngles("summary", plan.summary);
    ThreeLines(Tag(NAME + Attribute("agent", Escape(agent))), Element("goal", plan.goal),
               Element("summary", plan.summary));
  }

  lemma {:induction false} ShownAngles(lines: seq<string>, tasks: seq<(Item, nat)>)
    requires |lines| == |tasks| && forall k :: 0 <= k < |lines| ==> lines[k] == ItemLine(tasks[k].0, tasks[k].1)
    ensures AllAngles(lines) == 0 <==> forall k :: 0 <= k < |tasks| ==> Plain(tasks[k].0.id)
  {
    if lines != [] {
      ShownAngles(lines[1..], tasks[1..]);
      LineAngles(tasks[0].0, tasks[0].1);
      PlainHasNone(tasks[0].0.id);
      assert forall k :: 0 < k < |tasks| ==> tasks[k] == tasks[1..][k - 1];
    }
  }

  lemma {:induction false} FourParts(a: seq<string>, b: seq<string>, c: seq<string>, d: string)
    ensures AllAngles(a + b + c + [d]) == AllAngles(a) + AllAngles(b) + AllAngles(c) + Angles(d)
  {
    AllAnglesSplit(a + b + c, [d]);
    AllAnglesSplit(a + b, c);
    AllAnglesSplit(a, b);
    ThreeLines(d, d, d);
  }

  lemma {:induction false} LinesAngles(head: seq<string>, shown: seq<string>, total: nat)
    ensures AllAngles(Lines(head, shown, total))
      == AllAngles(head) + AllAngles(shown) + (if |shown| < total then 2 else 0) + 2
  {
    var marker := Marker(|shown|, total);
    FourParts(head, shown, if |shown| < total then [marker] else [], TAIL);
    MarkerAngles(|shown|, total);
    ThreeLines(marker, marker, marker);
    TagAngles("/" + NAME);
  }

  /** The angle brackets of the tags a block writes itself. */
  function OwnAngles(plan: Plan, truncated: bool): nat {
    2 + 4 + (if plan.summary == "" then 0 else 4) + (if truncated then 2 else 0) + 2
  }

  /** A block holds no angle bracket but those of its own tags exactly when no shown task has one in its
      name: goals, summaries, titles and descriptions cannot add any. */
  lemma NoForeignTagsExactlyWhen(plan: Plan, agent: string, limit: int)
    ensures var shown := ShownTasks(plan, agent, limit);
      Angles(BlockText(plan, agent, limit)) == OwnAngles(plan, |shown| < Count(plan.tasks))
      <==> forall k :: 0 <= k < |shown| ==> Plain(shown[k].0.id)
  {
    var head, shown, total := Head(plan, agent), ShownLines(plan, agent, limit), Count(plan.tasks);
    ShownAngles(shown, ShownTasks(plan, agent, limit));
    HeadAngles(plan, agent);
    JoinAngles(Lines(head, shown, total));
    LinesAngles(head, shown, total);
  }

  // ---- one task a line --------------------------------------------------------

  predicate OneLine(s: string) { '\n' !in s }

  /** Joined lines come apart again exactly when each of them is one line. */
  lemma {:induction false} LinesReadBackExactlyWhen(lines: seq<string>)
    requires lines != []
    ensures Split(Join("\n", lines), '\n') == lines <==> forall k :: 0 <= k < |lines| ==> OneLine(lines[k])
  {
    PiecesHoldNone(Join("\n", lines), '\n');
    if forall k :: 0 <= k < |lines| ==> OneLine(lines[k]) { JoinSplits(lines); }
  }

  lemma {:induction false} JoinSplits(lines: seq<string>)
    requires lines != [] && forall k :: 0 <= k < |lines| ==> OneLine(lines[k])
    ensures Split(Join("\n", lines), '\n') == lines
  {
    if |lines| == 1 {
      SplitFirst(lines[0], '\n', "");
    } else {
      JoinSplits(lines[1..]);
      SplitFirst(lines[0], '\n', Join("\n", lines[1..]));
      assert lines[0] + "\n" + Join("\n", lines[1..]) == lines[0] + ("\n" + Join("\n", lines[1..]));
    }
  }

  lemma {:induction false} EscapeKeeps(s: string, c: char)
    requires c in {'\n', '"'}
    ensures c in Escape(s) <==> c in s
  {
    EscapeIsCharwise(s);
    EscapedAllKeeps(s, c);
  }

  lemma {:induction false} EscapedAllKeeps(s: string, c: char)
    requires c in {'\n', '"'}
    ensures c in EscapedAll(s) <==> c in s
  {
    if s != "" { EscapedAllKeeps(s[1..], c); }
  }

  lemma {:induction false} WordIsOneLine(s: string)
    ensures OneLine(Word(s))
  {
    if s != "" && !IsSpace(s[0]) { WordIsOneLine(s[1..]); }
  }

  lemma {:induction false} WordsAreOneLine(s: string)
    ensures OneLine(Join(" ", Words(s)))
    decreases |s|
  {
    StripLeftFacts(s);
    var t := StripLeft(s);
    if t != "" {
      WordIsOneLine(t);
      WordsAreOneLine(t[|Word(t)|..]);
      assert Words(s)[1..] == Words(t[|Word(t)|..]);
    }
  }

  lemma {:induction false} ItemLineIsOneLine(item: Item, depth: nat)
    ensures OneLine(ItemLine(item, depth)) <==> OneLine(item.id) && OneLine(item.title)
  {
    LineIs(item, depth);
    BulletIsPlain(item, depth);
    EscapeKeeps(item.title, '\n');
    EscapeKeeps(Summarized(item.description), '\n');
    WordsAreOneLine(item.description);
    assert OneLine(Summarized(item.description));
    assert OneLine(Column(item.title)) <==> OneLine(item.title);
  }

  /** The block reads line by line as what was put into it exactly when agent, goal and summary, and the
      names and titles of the shown tasks, are single lines; line breaks in descriptions do no harm. */
  lemma OneTaskALineExactlyWhen(plan: Plan, agent: string, limit: int)
    ensures var shown := ShownTasks(plan, agent, limit);
      Split(BlockText(plan, agent, limit), '\n')
        == Lines(Head(plan, agent), ShownLines(plan, agent, limit), Count(plan.tasks))
      <==> (OneLine(agent) && OneLine(plan.goal) && OneLine(plan.summary)
        && forall k :: 0 <= k < |shown| ==> OneLine(shown[k].0.id) && OneLine(shown[k].0.title))
  {
    var head, shown, total := Head(plan, agent), ShownLines(plan, agent, limit), Count(plan.tasks);
    var tasks := ShownTasks(plan, agent, limit);
    LinesReadBackExactlyWhen(Lines(head, shown, total));
    LinesAreOneLine(head, shown, total);
    HeadIsOneLine(plan, agent);
    forall k | 0 <= k < |shown|
      ensures OneLine(shown[k]) <==> OneLine(tasks[k].0.id) && OneLine(tasks[k].0.title)
    {
      ItemLineIsOneLine(tasks[k].0, tasks[k].1);
    }
  }

  predicate AllOneLine(lines: seq<string>) { forall k :: 0 <= k < |lines| ==> OneLine(lines[k]) }

  lemma {:induction false} LinesAreOneLine(head: seq<string>, shown: seq<string>, total: nat)
    ensures AllOneLine(Lines(head, shown, total)) <==> AllOneLine(head) && AllOneLine(shown)
  {
    var marker := Marker(|shown|, total);
    MarkerIsOneLine(|shown|, total);
    TagIsOneLine("/" + NAME);
    AllOneLineSplits(head + shown + (if |shown| < total then [marker] else []), [TAIL]);
    AllOneLineSplits(head + shown, if |shown| < total then [marker] else []);
    AllOneLineSplits(head, shown);
  }

  lemma {:induction false} TagIsOneLine(name: string)
    ensures OneLine(Tag(name)) <==> OneLine(name)
  {
  }

  lemma {:induction false} MarkerIsOneLine(shown: nat, total: nat)
    ensures OneLine(Marker(shown, total))
  {
    DecimalIsOneLine(shown);
    DecimalIsOneLine(total);
    TagIsOneLine("truncated" + Attribute("shown", Decimal(shown)) + Attribute("total", Decimal(total)) + "/");
  }

  lemma {:induction false} ElementIsOneLine(name: string, text: string)
    requires OneLine(name)
    ensures OneLine(Element(name, text)) <==> OneLine(text)
  {
    EscapeKeeps(text, '\n');
    TagIsOneLine(name);
    TagIsOneLine("/" + name);
  }

  lemma {:induction false} AllOneLineSplits(a: seq<string>, b: seq<string>)
    ensures AllOneLine(a + b) <==> AllOneLine(a) && AllOneLine(b)
  {
    if AllOneLine(a + b) {
      forall k | 0 <= k < |a| ensures OneLine(a[k]) { assert (a + b)[k] == a[k]; }
      forall k | 0 <= k < |b| ensures OneLine(b[k]) { assert (a + b)[|a| + k] == b[k]; }
    }
  }

  lemma {:induction false} DecimalIsOneLine(n: nat)
    ensures OneLine(Decimal(n))
  {
    if n >= 10 {
      DecimalIsOneLine(n / 10);
      DecimalIsOneLine(n % 10);
    }
  }

  lemma {:induction false} HeadIsOneLine(plan: Plan, agent: string)
    ensures AllOneLine(Head(plan, agent)) <==> OneLine(agent) && OneLine(plan.goal) && OneLine(plan.summary)
  {
    EscapeKeeps(agent, '\n');
    TagIsOneLine(NAME + Attribute("agent", Escape(agent)));
    AgentIsOneLine(Escape(agent));
    ElementIsOneLine("goal", plan.goal);
    ElementIsOneLine("summary", plan.summary);
    AllOneLineThree(Tag(NAME + Attribute("agent", Escape(agent))), Element("goal", plan.goal),
                    Element("summary", plan.summary));
  }

  lemma AgentIsOneLine(value: string)
    ensures OneLine(NAME + Attribute("agent", value)) <==> OneLine(value)
  {
    var name := " agent=\"";
    assert Attribute("agent", value) == " " + "agent" + "=\"" + value + "\"";
  }

  lemma AllOneLineThree(a: string, b: string, c: string)
    ensures AllOneLine([a, b] + []) <==> OneLine(a) && OneLine(b)
    ensures AllOneLine([a, b] + [c]) <==> OneLine(a) && OneLine(b) && OneLine(c)
  {
    var two, three := [a, b] + [], [a, b] + [c];
    assert two[0] == a && two[1] == b && three[0] == a && three[1] == b && three[2] == c;
  }

  // ---- the attribute ----------------------------------------------------------

  /** What precedes the agent's name in a block. */
  function Opening(): string { "<" + NAME + (" " + "agent" + "=\"") }

  lemma {:induction false} BlockStarts(plan: Plan, agent: string, limit: int) returns (rest: string)
    ensures BlockText(plan, agent, limit) == Opening() + (Escape(agent) + ("\"" + rest))
  {
    var lines := Lines(Head(plan, agent), ShownLines(plan, agent, limit), Count(plan.tasks));
    assert lines[0] == Tag(NAME + Attribute("agent", Escape(agent)));
    rest := FirstLine("agent", Escape(agent), Join("\n", lines[1..]));
  }

  lemma {:induction false} FirstLine(attribute: string, value: string, others: string) returns (rest: string)
    ensures Tag(NAME + Attribute(attribute, value)) + "\n" + others
      == "<" + NAME + (" " + attribute + "=\"") + (value + ("\"" + rest))
  {
    rest := ">" + "\n" + others;
  }

  lemma {:induction false} QuoteFound(name: string, rest: string)
    ensures Find(name + ("\"" + rest), "\"") == Some(|name|) <==> '"' !in name
  {
    var s := name + ("\"" + rest);
    FindFacts(s, "\"");
    assert s[|name|..|name| + 1] == "\"";
    forall i | 0 <= i < |name| ensures At(s, "\"", i) <==> name[i] == '"' {
      assert s[i..i + 1] == [name[i]];
    }
    if '"' !in name { FindIs(s, "\"", |name|); }
  }

  /** The quoted attribute of a block ends where the agent's name ends exactly when the name has no quote. */
  lemma {:induction false} AgentReadsBackExactlyWhen(plan: Plan, agent: string, limit: int)
    ensures Opening() <= BlockText(plan, agent, limit)
    ensures Find(BlockText(plan, agent, limit)[|Opening()|..], "\"") == Some(|Escape(agent)|) <==> '"' !in agent
  {
    var rest := BlockStarts(plan, agent, limit);
    EscapeKeeps(agent, '"');
    QuoteFound(Escape(agent), rest);
  }
}
