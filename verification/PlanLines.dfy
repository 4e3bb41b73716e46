/** The text of a plan block. */
module PlanLines {
  import opened PyText
  import opened TextLaws
  import opened Blueprints
  import opened PlanBlock
  import opened PlanMarkup

  // ---- where a task's line is -------------------------------------------------

  predicate HasAt(lines: seq<string>, k: nat, part: seq<string>) {
    k + |part| <= |lines| && lines[k..k + |part|] == part
  }

  lemma ShiftedPart(a: seq<string>, b: seq<string>, k: nat, part: seq<string>)
    requires HasAt(b, k, part)
    ensures HasAt(a + b, |a| + k, part)
  {
    assert (a + b)[|a| + k..|a| + k + |part|] == b[k..k + |part|];
  }

  lemma {:induction false} CountFirst(items: seq<Item>, i: nat)
    requires 0 < i <= |items|
    ensures Count(items[..i]) == 1 + Count(items[0].subtasks) + Count(items[1..][..i - 1])
  {
    assert items[..i][0] == items[0] && items[..i][1..] == items[1..][..i - 1];
  }

  /** The tasks before it, with all below them, come first; then its own line, then all below it, one level in. */
  lemma {:induction false} LineIsAt(line: Liner, items: seq<Item>, depth: nat, i: nat)
    requires i < |items|
    ensures HasAt(Preorder(line, items, depth), Count(items[..i]),
                  [line(items[i], depth)] + Preorder(line, items[i].subtasks, depth + 1))
    decreases items
  {
    var below, later := Preorder(line, items[0].subtasks, depth + 1), Preorder(line, items[1..], depth);
    var first := [line(items[0], depth)] + below;
    if i == 0 {
      assert items[..0] == [];
      assert (first + later)[0..|first|] == first;
    } else {
      LineIsAt(line, items[1..], depth, i - 1);
      CountFirst(items, i);
      PreorderCounts(line, items[0].subtasks, depth + 1);
      ShiftedPart(first, later, Count(items[1..][..i - 1]),
                  [line(items[i], depth)] + Preorder(line, items[i].subtasks, depth + 1));
    }
  }

  // ---- one line ---------------------------------------------------------------

  predicate IsWord(w: string) { w != "" && forall i :: 0 <= i < |w| ==> !IsSpace(w[i]) }

  predicate StartsWord(s: string, gap: string, w: string, rest: string) {
    s == gap + w + rest && AllSpace(gap) && IsWord(w) && (rest != "" ==> IsSpace(rest[0]))
  }

  /** The words of the text, in order; nothing but spaces is between them. */
  ghost predicate AreWords(s: string, words: seq<string>)
    decreases |words|
  {
    if words == [] then AllSpace(s)
    else exists gap, rest :: StartsWord(s, gap, words[0], rest) && AreWords(rest, words[1..])
  }

  lemma {:induction false} WordSplits(t: string)
    requires t != "" && !IsSpace(t[0])
    ensures IsWord(Word(t)) && Word(t) <= t
    ensures var rest := t[|Word(t)|..]; rest != "" ==> IsSpace(rest[0])
  {
    if |t| > 1 && !IsSpace(t[1]) {
      WordSplits(t[1..]);
      assert t == [t[0]] + t[1..];
      assert Word(t) == [t[0]] + Word(t[1..]);
      assert t[|Word(t)|..] == t[1..][|Word(t[1..])|..];
    } else {
      assert Word(t[1..]) == "";
      assert Word(t) == [t[0]];
    }
  }

  lemma {:induction false} FirstWordStarts(s: string) returns (gap: string)
    requires StripLeft(s) != ""
    ensures var t := StripLeft(s); StartsWord(s, gap, Word(t), t[|Word(t)|..]) && |Word(t)| > 0 && |t| <= |s|
  {
    var t := StripLeft(s);
    gap := LeftSplits(s);
    WordSplits(t);
    assert t == Word(t) + t[|Word(t)|..];
  }

  lemma {:induction false} WordsStep(s: string)
    requires StripLeft(s) != ""
    ensures var t := StripLeft(s); Words(s) == [Word(t)] + Words(t[|Word(t)|..])
  {
  }

  lemma {:induction false} WordsAreWords(s: string)
    ensures AreWords(s, Words(s))
    decreases |s|
  {
    var t := StripLeft(s);
    if t == "" {
      var gap := LeftSplits(s);
      assert Words(s) == [];
    } else {
      var rest := t[|Word(t)|..];
      var gap := FirstWordStarts(s);
      WordsStep(s);
      WordsAreWords(rest);
      OneMoreWord(s, gap, Word(t), rest, Words(rest));
    }
  }

  lemma OneMoreWord(s: string, gap: string, w: string, rest: string, words: seq<string>)
    requires StartsWord(s, gap, w, rest) && AreWords(rest, words)
    ensures AreWords(s, [w] + words)
  {
    assert ([w] + words)[0] == w && ([w] + words)[1..] == words;
  }

  /** A task in one line: indent, state, name, then title and description where it has them. */
  ghost predicate IsLine(item: Item, depth: nat, line: string) {
    exists words :: AreWords(item.description, words) && line ==
      Repeat("  ", depth) + ("- [" + StatusText(item.status) + "] ") + item.id
      + (if item.title == "" then "" else " | " + EscapedAll(item.title))
      + (if item.description == "" then "" else " | " + EscapedAll(Take(Join(" ", words), 200)))
  }

  lemma {:induction false} LineIsExact(item: Item, depth: nat)
    ensures IsLine(item, depth, ItemLine(item, depth))
  {
    LineIs(item, depth);
    WordsAreWords(item.description);
    EscapeIsCharwise(item.title);
    EscapeIsCharwise(Take(Join(" ", Words(item.description)), 200));
  }

  // ---- the block --------------------------------------------------------------

  /** Lines with a line break behind each. */
  function Text(lines: seq<string>): string {
    if lines == [] then "" else lines[0] + "\n" + Text(lines[1..])
  }

  lemma {:induction false} TextSplits(a: seq<string>, b: seq<string>)
    ensures Text(a + b) == Text(a) + Text(b)
  {
    if a == [] {
      assert a + b == b;
    } else {
      assert (a + b)[1..] == a[1..] + b;
      TextSplits(a[1..], b);
    }
  }

  lemma {:induction false} TextIsJoined(lines: seq<string>, last: string)
    ensures Join("\n", lines + [last]) == Text(lines) + last
  {
    if lines != [] {
      assert (lines + [last])[1..] == lines[1..] + [last];
      TextIsJoined(lines[1..], last);
      assert lines[0] + "\n" + (Text(lines[1..]) + last) == lines[0] + "\n" + Text(lines[1..]) + last;
    }
  }

  lemma {:induction false} TextCosts(lines: seq<string>)
    ensures |Text(lines)| == Cost(lines)
  {
    if lines != [] { TextCosts(lines[1..]); }
  }

  function OpeningLine(agent: string): string { "<angelus_task_plan agent=\"" + agent + "\">" }

  function GoalLine(goal: string): string { "<goal>" + goal + "</goal>" }

  function SummaryLine(summary: string): string { "<summary>" + summary + "</summary>" }

  function MissingLine(shown: string, total: string): string {
    "<truncated shown=\"" + shown + "\" total=\"" + total + "\"/>"
  }

  function Opening(plan: Plan, agent: string): string {
    OpeningLine(EscapedAll(agent)) + "\n" + GoalLine(EscapedAll(plan.goal)) + "\n"
    + if plan.summary == "" then "" else SummaryLine(EscapedAll(plan.summary)) + "\n"
  }

  function Missing(shown: nat, total: nat): string {
    if shown < total then MissingLine(Decimal(shown), Decimal(total)) + "\n" else ""
  }

  const CLOSING := "</angelus_task_plan>"

  lemma TextOne(line: string)
    ensures Text([line]) == line + "\n"
  {
    assert [line][1..] == [] && line + "\n" + "" == line + "\n";
  }

  lemma OpeningLineIs(agent: string)
    ensures Tag(NAME + Attribute("agent", agent)) == OpeningLine(agent)
  {
  }

  lemma GoalLineIs(goal: string)
    ensures Element("goal", goal) == GoalLine(Escape(goal))
  {
  }

  lemma SummaryLineIs(summary: string)
    ensures Element("summary", summary) == SummaryLine(Escape(summary))
  {
  }

  lemma MissingLineIs(shown: string, total: string)
    ensures Tag("truncated" + Attribute("shown", shown) + Attribute("total", total) + "/") == MissingLine(shown, total)
  {
  }

  lemma TwoLines(a: string, b: string)
    ensures Text([a, b]) == a + "\n" + b + "\n"
  {
    TextSplits([a], [b]);
    assert [a] + [b] == [a, b];
    TextOne(a);
    TextOne(b);
    assert (a + "\n") + (b + "\n") == a + "\n" + b + "\n";
  }

  lemma {:induction false} HeadText(plan: Plan, agent: string)
    ensures Text(Head(plan, agent)) == Opening(plan, agent)
  {
    EscapeIsCharwise(agent);
    EscapeIsCharwise(plan.goal);
    EscapeIsCharwise(plan.summary);
    OpeningLineIs(Escape(agent));
    GoalLineIs(plan.goal);
    SummaryLineIs(plan.summary);
    HeadLines(OpeningLine(Escape(agent)), GoalLine(Escape(plan.goal)), SummaryLine(Escape(plan.summary)),
              plan.summary == "");
  }

  lemma HeadLines(open: string, goal: string, summary: string, none: bool)
    ensures Text([open, goal] + if none then [] else [summary])
      == open + "\n" + goal + "\n" + if none then "" else summary + "\n"
  {
    TextSplits([open, goal], if none then [] else [summary]);
    TwoLines(open, goal);
    TextOne(summary);
  }

  lemma MarkerText(shown: nat, total: nat)
    ensures Text(if shown < total then [Marker(shown, total)] else []) == Missing(shown, total)
  {
    TextOne(Marker(shown, total));
    MissingLineIs(Decimal(shown), Decimal(total));
  }

  /** What the opening, these many task lines and the closing take, with their line breaks. */
  function Taken(plan: Plan, agent: string, n: nat): int
    requires n <= |TaskLines(plan)|
  {
    |Opening(plan, agent)| + |Text(TaskLines(plan)[..n])| + |CLOSING| + 1
  }

  /** The number of lines shown: what fits, and one more would not. */
  predicate ShowsAsMany(plan: Plan, agent: string, limit: int, n: nat) {
    && n <= |TaskLines(plan)| && (n > 0 ==> Taken(plan, agent, n) <= limit)
    && (n < |TaskLines(plan)| ==> Taken(plan, agent, n + 1) > limit)
  }

  lemma {:induction false} FitTakes(lines: seq<string>, room: int, n: nat)
    requires n == |Fit(lines, room)|
    ensures n <= |lines| && Fit(lines, room) == lines[..n] && (n > 0 ==> Cost(lines[..n]) <= room)
    ensures n < |lines| ==> Cost(lines[..n + 1]) > room
  {
    FitIsLongest(lines, room);
    if n > 0 { assert room >= 0; }
  }

  lemma {:induction false} PartsText(head: seq<string>, shown: seq<string>, more: seq<string>, last: string)
    ensures Join("\n", head + shown + more + [last]) == Text(head) + Text(shown) + Text(more) + last
  {
    TextIsJoined(head + shown + more, last);
    TextSplits(head + shown, more);
    TextSplits(head, shown);
  }

  lemma {:induction false} LinesText(head: seq<string>, shown: seq<string>, total: nat)
    ensures Join("\n", Lines(head, shown, total)) == Text(head) + Text(shown) + Missing(|shown|, total) + CLOSING
  {
    PartsText(head, shown, if |shown| < total then [Marker(|shown|, total)] else [], TAIL);
    MarkerText(|shown|, total);
    TailIs();
  }

  lemma TailIs()
    ensures TAIL == CLOSING
  {
  }

  lemma {:induction false} TakenIsCost(plan: Plan, agent: string, limit: int, n: nat)
    requires n <= |TaskLines(plan)|
    ensures Taken(plan, agent, n) <= limit <==> Cost(TaskLines(plan)[..n]) <= Room(Head(plan, agent), limit)
  {
    HeadText(plan, agent);
    TextCosts(Head(plan, agent));
    TextCosts(TaskLines(plan)[..n]);
    TailIs();
  }

  lemma {:induction false} ManyShown(plan: Plan, agent: string, limit: int, n: nat)
    requires n == |ShownLines(plan, agent, limit)|
    ensures ShowsAsMany(plan, agent, limit, n) && ShownLines(plan, agent, limit) == TaskLines(plan)[..n]
  {
    FitTakes(TaskLines(plan), Room(Head(plan, agent), limit), n);
    TakenIsCost(plan, agent, limit, n);
    if n < |TaskLines(plan)| { TakenIsCost(plan, agent, limit, n + 1); }
  }

  /** The block is its opening, as many task lines as the limit has room for, a note when some are missing,
      and its closing. */
  lemma {:induction false} BlockReads(plan: Plan, agent: string, limit: int, n: nat)
    requires n == |ShownLines(plan, agent, limit)|
    ensures ShowsAsMany(plan, agent, limit, n)
    ensures BlockText(plan, agent, limit)
      == Opening(plan, agent) + Text(TaskLines(plan)[..n]) + Missing(n, Count(plan.tasks)) + CLOSING
  {
    ManyShown(plan, agent, limit, n);
    HeadText(plan, agent);
    LinesText(Head(plan, agent), ShownLines(plan, agent, limit), Count(plan.tasks));
  }

  /** The limit of a built block is what is configured, and 1000 at least. */
  lemma LimitExactly(characters: int, limit: int)
    ensures Bound(characters) == limit <==> limit >= 1000 && limit >= characters && limit in {1000, characters}
  {
  }
}
