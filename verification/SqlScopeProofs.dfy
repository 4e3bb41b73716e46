/** What name lookup returns. */
module SqlScopeProofs {
  import opened Wrappers
  import opened SqlScope

  // ---- exactly the bindings outside nested bodies -----------------------------

  lemma ChildIsSmaller(n: Node)
    ensures forall i :: 0 <= i < |Children(n)| ==> Size(Children(n)[i]) < Size(n)
  {
    ChildrenAreSmaller(n);
    forall i | 0 <= i < |Children(n)| ensures Size(Children(n)[i]) < Size(n) {
      MemberIsSmaller(Children(n), i);
    }
  }

  /** n is reached from root without entering a function, class or lambda. */
  ghost predicate Within(root: Node, n: Node)
    decreases Size(root)
  {
    ChildIsSmaller(root);
    !Barrier(root) && (n == root || exists i :: 0 <= i < |Children(root)| && Within(Children(root)[i], n))
  }

  ghost predicate WithinAny(roots: seq<Node>, n: Node) {
    exists i :: 0 <= i < |roots| && Within(roots[i], n)
  }

  ghost predicate Visible(roots: seq<Node>, b: Binding) {
    exists n :: WithinAny(roots, n) && b in Own(n)
  }

  lemma {:induction false} WithinSplit(rest: seq<Node>, node: Node, n: Node)
    ensures WithinAny(rest + [node], n) <==> WithinAny(rest, n) || Within(node, n)
    ensures !Barrier(node) ==> (Within(node, n) <==> n == node || WithinAny(Children(node), n))
  {
    var all := rest + [node];
    if WithinAny(rest, n) {
      var i :| 0 <= i < |rest| && Within(rest[i], n);
      assert Within(all[i], n);
    }
    if Within(node, n) { assert Within(all[|rest|], n); }
  }

  lemma {:induction false} WithinAppend(a: seq<Node>, b: seq<Node>, n: Node)
    ensures WithinAny(a + b, n) <==> WithinAny(a, n) || WithinAny(b, n)
  {
    if WithinAny(a, n) {
      var i :| 0 <= i < |a| && Within(a[i], n);
      assert Within((a + b)[i], n);
    }
    if WithinAny(b, n) {
      var i :| 0 <= i < |b| && Within(b[i], n);
      assert Within((a + b)[|a| + i], n);
    }
  }

  lemma {:induction false} DrainIsVisible(pending: seq<Node>, b: Binding)
    ensures b in Drain(pending) <==> Visible(pending, b)
    decreases Total(pending)
  {
    if pending != [] {
      var node, rest := pending[|pending| - 1], pending[..|pending| - 1];
      assert pending == rest + [node];
      PopShrinks(rest, node);
      if Barrier(node) {
        DrainIsVisible(rest, b);
        assert Visible(pending, b) <==> Visible(rest, b) by {
          forall n ensures WithinAny(pending, n) <==> WithinAny(rest, n) { WithinSplit(rest, node, n); }
        }
      } else {
        DrainIsVisible(rest + Children(node), b);
        forall n
          ensures WithinAny(pending, n) <==> n == node || WithinAny(rest + Children(node), n)
        {
          WithinSplit(rest, node, n);
          WithinAppend(rest, Children(node), n);
        }
        assert WithinAny(pending, node);
      }
    }
  }

  lemma {:induction false} NamedMembers(bs: seq<Binding>, name: string, b: Binding)
    ensures b in Named(bs, name) <==> b in bs && b.name == name
  {
    if bs != [] {
      NamedMembers(bs[1..], name, b);
      assert bs == [bs[0]] + bs[1..];
    }
  }

  predicate Sorted(bs: seq<Binding>) {
    forall i, j :: 0 <= i < j < |bs| ==> bs[i].line <= bs[j].line
  }

  lemma {:induction false} InsertFacts(sorted: seq<Binding>, b: Binding)
    requires Sorted(sorted)
    ensures Sorted(Insert(sorted, b)) && multiset(Insert(sorted, b)) == multiset(sorted) + multiset{b}
  {
    if sorted != [] && sorted[|sorted| - 1].line > b.line {
      var init, last := sorted[..|sorted| - 1], sorted[|sorted| - 1];
      assert sorted == init + [last];
      InsertFacts(init, b);
      LastIsLatest(Insert(init, b), init, b, last);
    }
  }

  lemma {:induction false} LastIsLatest(r: seq<Binding>, init: seq<Binding>, b: Binding, last: Binding)
    requires Sorted(r) && multiset(r) == multiset(init) + multiset{b} && b.line <= last.line
    requires forall i :: 0 <= i < |init| ==> init[i].line <= last.line
    ensures Sorted(r + [last])
  {
    forall i | 0 <= i < |r| ensures r[i].line <= last.line {
      assert r[i] in multiset(r);
      assert r[i] == b || r[i] in init;
    }
  }

  lemma {:induction false} ByLineFacts(bs: seq<Binding>)
    ensures Sorted(ByLine(bs)) && multiset(ByLine(bs)) == multiset(bs)
  {
    if bs != [] {
      ByLineFacts(bs[..|bs| - 1]);
      assert bs == bs[..|bs| - 1] + [bs[|bs| - 1]];
      InsertFacts(ByLine(bs[..|bs| - 1]), bs[|bs| - 1]);
    }
  }

  /** Under each name the table holds exactly the visible bindings of that name, in line order. */
  lemma {:induction false} CollectsExactly(nodes: seq<Node>, name: string)
    ensures Sorted(Entries(Collect(nodes), name))
    ensures forall b :: b in Entries(Collect(nodes), name) <==> Visible(nodes, b) && b.name == name
  {
    var bs := Drain(nodes);
    NamedAbsent(bs, name);
    ByLineFacts(Named(bs, name));
    assert Entries(Collect(nodes), name) == ByLine(Named(bs, name));
    forall b ensures b in ByLine(Named(bs, name)) <==> Visible(nodes, b) && b.name == name {
      assert b in ByLine(Named(bs, name)) <==> b in multiset(ByLine(Named(bs, name)));
      assert b in Named(bs, name) <==> b in multiset(Named(bs, name));
      NamedMembers(bs, name, b);
      DrainIsVisible(nodes, b);
    }
  }

  // ---- what lookup returns ----------------------------------------------------

  /** An entry not after the line, with no later such entry. */
  ghost predicate LastEntry(entries: seq<Binding>, line: int, b: Binding) {
    b in entries && b.line <= line && forall c :: c in entries && c.line <= line ==> c.line <= b.line
  }

  /** The early exit over sorted entries yields the last one not after the line. */
  lemma {:induction false} ScanFindsLatest(entries: seq<Binding>, line: int)
    requires Sorted(entries)
    ensures Scan(entries, line).None? <==> forall b :: b in entries ==> b.line > line
    ensures Scan(entries, line).Some?
      ==> exists b :: LastEntry(entries, line, b) && b.value == Scan(entries, line).value
  {
    if entries != [] {
      var head, rest := entries[0], entries[1..];
      assert entries == [head] + rest;
      ScanFindsLatest(rest, line);
      forall b | b in entries ensures head.line <= b.line {
        var i :| 0 <= i < |entries| && entries[i] == b;
      }
      if head.line <= line {
        if Scan(rest, line).None? {
          assert LastEntry(entries, line, head);
        } else {
          var b :| LastEntry(rest, line, b) && b.value == Scan(rest, line).value;
          assert LastEntry(entries, line, b);
        }
      }
    }
  }

  /** A binding of the name in these statements, not after the line, with no later such binding. */
  ghost predicate Latest(nodes: seq<Node>, name: string, line: int, b: Binding) {
    && Visible(nodes, b) && b.name == name && b.line <= line
    && forall c :: Visible(nodes, c) && c.name == name && c.line <= line ==> c.line <= b.line
  }

  /** Lookup yields a latest binding of the innermost scope that has one at or before the line. */
  lemma {:induction false} LookupFindsLatest(nodes: seq<Node>, parent: Option<Scope>, name: string, line: int)
    ensures var found := Lookup(Scope(Collect(nodes), parent), name, line);
      if exists b :: Visible(nodes, b) && b.name == name && b.line <= line
      then exists b :: Latest(nodes, name, line, b) && found == Some(b.value)
      else found == if parent.Some? then Lookup(parent.value, name, line) else None
  {
    var entries := Entries(Collect(nodes), name);
    CollectsExactly(nodes, name);
    ScanFindsLatest(entries, line);
    var chosen := Scan(entries, line);
    if chosen.Some? {
      var b :| LastEntry(entries, line, b) && b.value == chosen.value;
      assert Latest(nodes, name, line, b);
    }
  }

  // ---- several bindings on one line -------------------------------------------

  /** The bindings outside nested bodies in program order: children first, as they are evaluated first. */
  function Written(nodes: seq<Node>): seq<Binding>
    decreases Total(nodes)
  {
    if nodes == [] then []
    else
      var node, rest := nodes[|nodes| - 1], nodes[..|nodes| - 1];
      assert nodes == rest + [node];
      PopShrinks(rest, node);
      TotalAppend(rest, Children(node));
      Written(rest) + if Barrier(node) then [] else Written(Children(node)) + Own(node)
  }

  lemma {:induction false} WrittenPop(rest: seq<Node>, node: Node)
    ensures Written(rest + [node]) == Written(rest) + if Barrier(node) then [] else Written(Children(node)) + Own(node)
  {
    assert (rest + [node])[..|rest|] == rest;
  }

  lemma NodesRegroup(a: seq<Node>, b: seq<Node>)
    requires b != []
    ensures var init, last := b[..|b| - 1], b[|b| - 1]; b == init + [last] && a + b == (a + init) + [last]
  {
  }

  lemma {:induction false} WrittenAppend(a: seq<Node>, b: seq<Node>)
    ensures Written(a + b) == Written(a) + Written(b)
    decreases |b|
  {
    if b == [] {
      assert a + b == a;
    } else {
      var init, last := b[..|b| - 1], b[|b| - 1];
      var own := if Barrier(last) then [] else Written(Children(last)) + Own(last);
      NodesRegroup(a, b);
      WrittenAppend(a, init);
      WrittenPop(a + init, last);
      WrittenPop(init, last);
      BindingsRegroup(Written(a), Written(init), own);
    }
  }

  function Reversed(bs: seq<Binding>): seq<Binding> {
    if bs == [] then [] else Reversed(bs[1..]) + [bs[0]]
  }

  lemma {:induction false} ReversedAppend(a: seq<Binding>, b: seq<Binding>)
    ensures Reversed(a + b) == Reversed(b) + Reversed(a)
  {
    if a == [] {
      assert a + b == b;
    } else {
      assert (a + b)[1..] == a[1..] + b;
      ReversedAppend(a[1..], b);
    }
  }

  lemma {:induction false} UniformReverses(bs: seq<Binding>, b: Binding)
    requires forall i :: 0 <= i < |bs| ==> bs[i] == b
    ensures Reversed(bs) == bs
  {
    if bs != [] { UniformReverses(bs[1..], b); }
  }

  /** All bindings of one name that a statement makes are the same. */
  lemma {:induction false} TargetsAreUniform(targets: seq<Node>, line: int, value: Node, name: string)
    ensures forall i :: 0 <= i < |Named(TargetBindings(targets, line, value), name)| ==>
      Named(TargetBindings(targets, line, value), name)[i] == Binding(name, line, value)
  {
    if targets != [] {
      var own := if targets[0].Name? then [Binding(targets[0].id, line, value)] else [];
      TargetsAreUniform(targets[1..], line, value, name);
      NamedAppend(own, TargetBindings(targets[1..], line, value), name);
      NamedOne(own, name);
    }
  }

  lemma {:induction false} NamedOne(bs: seq<Binding>, name: string)
    requires |bs| <= 1
    ensures Named(bs, name) == if bs != [] && bs[0].name == name then bs else []
  {
    if bs != [] { assert bs[1..] == []; }
  }

  lemma {:induction false} OwnReverses(n: Node, name: string)
    ensures Reversed(Named(Own(n), name)) == Named(Own(n), name)
  {
    if n.Assign? {
      TargetsAreUniform(n.targets, n.line, n.bound, name);
      UniformReverses(Named(Own(n), name), Binding(name, n.line, n.bound));
    } else {
      NamedOne(Own(n), name);
      if Named(Own(n), name) != [] { UniformReverses(Own(n), Own(n)[0]); }
    }
  }

  /** The worklist meets the bindings of a name in reverse program order. */
  lemma {:induction false} DrainReverses(pending: seq<Node>, name: string)
    ensures Named(Drain(pending), name) == Reversed(Named(Written(pending), name))
    decreases Total(pending)
  {
    if pending != [] {
      var node, rest := pending[|pending| - 1], pending[..|pending| - 1];
      assert pending == rest + [node];
      PopShrinks(rest, node);
      if Barrier(node) {
        DrainReverses(rest, name);
        DrainPop(rest, node);
        WrittenPop(rest, node);
        assert Written(rest) + [] == Written(rest);
      } else {
        DrainReverses(rest + Children(node), name);
        VisibleReverses(rest, node, name);
      }
    }
  }

  lemma {:induction false} VisibleReverses(rest: seq<Node>, node: Node, name: string)
    requires !Barrier(node)
    requires var more := rest + Children(node); Named(Drain(more), name) == Reversed(Named(Written(more), name))
    ensures Named(Drain(rest + [node]), name) == Reversed(Named(Written(rest + [node]), name))
  {
    DrainPop(rest, node);
    NamedAppend(Own(node), Drain(rest + Children(node)), name);
    WrittenVisible(rest, node);
    OwnComesLast(Written(rest + Children(node)), node, name);
  }

  lemma {:induction false} WrittenVisible(rest: seq<Node>, node: Node)
    requires !Barrier(node)
    ensures Written(rest + [node]) == Written(rest + Children(node)) + Own(node)
  {
    WrittenPop(rest, node);
    WrittenAppend(rest, Children(node));
    BindingsRegroup(Written(rest), Written(Children(node)), Own(node));
  }

  lemma {:induction false} OwnComesLast(before: seq<Binding>, node: Node, name: string)
    ensures Reversed(Named(before + Own(node), name)) == Named(Own(node), name) + Reversed(Named(before, name))
  {
    NamedAppend(before, Own(node), name);
    ReversedAppend(Named(before, name), Named(Own(node), name));
    OwnReverses(node, name);
  }

  // ---- the entry the scan stops at --------------------------------------------

  /** The binding whose value the scan returns. */
  function Stop(entries: seq<Binding>, line: int): Option<Binding> {
    if entries == [] || entries[0].line > line then None
    else
      var later := Stop(entries[1..], line);
      if later.Some? then later else Some(entries[0])
  }

  function ValueOf(b: Option<Binding>): Option<Node> {
    if b.Some? then Some(b.value.value) else None
  }

  lemma {:induction false} ScanIsStop(entries: seq<Binding>, line: int)
    ensures Scan(entries, line) == ValueOf(Stop(entries, line))
  {
    if entries != [] { ScanIsStop(entries[1..], line); }
  }

  lemma {:induction false} StopFromBack(entries: seq<Binding>, last: Binding, line: int)
    requires Sorted(entries + [last])
    ensures Stop(entries + [last], line) == if last.line <= line then Some(last) else Stop(entries, line)
  {
    var all := entries + [last];
    if entries == [] {
      assert all[1..] == [];
    } else {
      assert all[1..] == entries[1..] + [last] && all[0] == entries[0] && all[|all| - 1] == last;
      assert forall i, j :: 0 <= i < j < |all[1..]| ==> all[1..][i].line <= all[1..][j].line;
      StopFromBack(entries[1..], last, line);
    }
  }

  /** Of the chosen one and a later candidate: the later wins unless it is on an earlier line or after the use. */
  function Better(chosen: Option<Binding>, b: Binding, line: int): Option<Binding> {
    if b.line <= line && (chosen.None? || chosen.value.line <= b.line) then Some(b) else chosen
  }

  lemma {:induction false} StopAfterInsert(sorted: seq<Binding>, b: Binding, line: int)
    requires Sorted(sorted)
    ensures Stop(Insert(sorted, b), line) == Better(Stop(sorted, line), b, line)
  {
    InsertFacts(sorted, b);
    if sorted != [] {
      var init, last := sorted[..|sorted| - 1], sorted[|sorted| - 1];
      assert sorted == init + [last];
      StopFromBack(init, last, line);
      StopIsEntry(init, line);
      if last.line > b.line {
        StopAfterInsert(init, b, line);
        StopFromBack(Insert(init, b), last, line);
      } else {
        StopFromBack(sorted, b, line);
      }
    } else {
      StopFromBack([], b, line);
    }
  }

  lemma {:induction false} StopIsEntry(entries: seq<Binding>, line: int)
    ensures Stop(entries, line).Some? ==> Stop(entries, line).value in entries && Stop(entries, line).value.line <= line
  {
    if entries != [] { StopIsEntry(entries[1..], line); }
  }

  // ---- which binding of a line counts -----------------------------------------

  /** The choice over bindings in program order. */
  function Chosen(ws: seq<Binding>, line: int): Option<Binding> {
    if ws == [] then None else Better(Chosen(ws[1..], line), ws[0], line)
  }

  lemma {:induction false} StopIsChosen(ws: seq<Binding>, line: int)
    ensures Stop(ByLine(Reversed(ws)), line) == Chosen(ws, line)
  {
    if ws != [] {
      var bs := Reversed(ws);
      assert bs[..|bs| - 1] == Reversed(ws[1..]) && bs[|bs| - 1] == ws[0];
      StopIsChosen(ws[1..], line);
      ByLineFacts(Reversed(ws[1..]));
      StopAfterInsert(ByLine(Reversed(ws[1..])), ws[0], line);
    }
  }

  /** Binding i is not after the use, and none between its line and the use. */
  predicate OnLatestLine(ws: seq<Binding>, line: int, i: int) {
    0 <= i < |ws| && ws[i].line <= line && forall j :: 0 <= j < |ws| && ws[j].line <= line ==> ws[j].line <= ws[i].line
  }

  predicate FirstOnLine(ws: seq<Binding>, i: nat)
    requires i < |ws|
  {
    forall j :: 0 <= j < i ==> ws[j].line != ws[i].line
  }

  predicate LastOnLine(ws: seq<Binding>, i: nat)
    requires i < |ws|
  {
    forall j :: i < j < |ws| ==> ws[j].line != ws[i].line
  }

  lemma {:induction false} ChosenIsFirst(ws: seq<Binding>, line: int, i: nat)
    requires OnLatestLine(ws, line, i) && FirstOnLine(ws, i)
    ensures Chosen(ws, line) == Some(ws[i])
  {
    var rest := ws[1..];
    if i > 0 {
      assert forall j :: 0 <= j < |rest| ==> rest[j] == ws[j + 1];
      ChosenIsFirst(rest, line, i - 1);
    } else {
      ChosenIsIn(rest, line);
    }
  }

  lemma {:induction false} ChosenIsIn(ws: seq<Binding>, line: int)
    ensures Chosen(ws, line).Some? ==> Chosen(ws, line).value in ws && Chosen(ws, line).value.line <= line
  {
    if ws != [] { ChosenIsIn(ws[1..], line); }
  }

  lemma {:induction false} ScanTakesChosen(nodes: seq<Node>, name: string, use: int)
    ensures Scan(Entries(Collect(nodes), name), use) == ValueOf(Chosen(Named(Written(nodes), name), use))
  {
    var ws := Named(Written(nodes), name);
    NamedAbsent(Drain(nodes), name);
    DrainReverses(nodes, name);
    ScanIsStop(Entries(Collect(nodes), name), use);
    StopIsChosen(ws, use);
  }

  /** In any suite the name means the binding of the greatest line not after the use, and of those the
      one that comes first in program order. */
  lemma {:induction false} LookupTakesTheFirst(nodes: seq<Node>, parent: Option<Scope>, name: string, use: int, i: nat)
    requires var ws := Named(Written(nodes), name); OnLatestLine(ws, use, i) && FirstOnLine(ws, i)
    ensures Lookup(Scope(Collect(nodes), parent), name, use) == Some(Named(Written(nodes), name)[i].value)
  {
    ChosenIsFirst(Named(Written(nodes), name), use, i);
    ScanTakesChosen(nodes, name, use);
  }

  /** The name means what was bound last at or before the use exactly when the first and the last binding
      on that line bind the same. When every binding of the name on the line does, they do; and it is the
      very same binding exactly when no other of the name is on the line. */
  lemma {:induction false} LookupTakesTheLastExactlyWhen(
    nodes: seq<Node>, parent: Option<Scope>, name: string, use: int, i: nat, k: nat)
    requires var ws := Named(Written(nodes), name);
      OnLatestLine(ws, use, i) && FirstOnLine(ws, i) && OnLatestLine(ws, use, k) && LastOnLine(ws, k)
    ensures var ws := Named(Written(nodes), name); var found := Lookup(Scope(Collect(nodes), parent), name, use);
      && (found == Some(ws[k].value) <==> ws[i].value == ws[k].value)
      && ((forall j :: 0 <= j < |ws| && ws[j].line == ws[k].line ==> ws[j].value == ws[k].value)
          ==> found == Some(ws[k].value))
      && (i == k <==> forall j :: 0 <= j < |ws| && j != k ==> ws[j].line != ws[k].line)
  {
    var ws := Named(Written(nodes), name);
    LookupTakesTheFirst(nodes, parent, name, use, i);
    assert ws[i].line == ws[k].line;
  }

  /** `name = "text"` */
  function Plain(line: int, name: string, text: string): Node {
    Assign(line, [Name(line, name)], StrLit(line, text))
  }

  predicate IsLeaf(n: Node) { n.StrLit? || n.Name? }

  lemma {:induction false} LeafHasNothing(leaf: Node)
    requires IsLeaf(leaf)
    ensures !Barrier(leaf) && Own(leaf) == [] && Children(leaf) == []
  {
  }

  lemma WrittenNothing()
    ensures Written([]) == []
  {
  }

  lemma {:induction false} LeafWrites(rest: seq<Node>, leaf: Node)
    requires IsLeaf(leaf)
    ensures Written(rest + [leaf]) == Written(rest)
  {
    WrittenPop(rest, leaf);
    LeafHasNothing(leaf);
    WrittenNothing();
  }

  lemma {:induction false} TwoLeavesWrite(a: Node, b: Node)
    requires IsLeaf(a) && IsLeaf(b)
    ensures Written([a] + [b]) == []
  {
    LeafWrites([a], b);
    LeafWrites([], a);
    WrittenNothing();
    assert [] + [a] == [a];
  }

  /** The node writes just this one binding. */
  predicate WritesOnly(n: Node, b: Binding) {
    !Barrier(n) && Written(Children(n)) == [] && Own(n) == [b]
  }

  lemma {:induction false} PlainWrites(line: int, name: string, text: string)
    ensures WritesOnly(Plain(line, name, text), Binding(name, line, StrLit(line, text)))
  {
    TwoLeavesWrite(Name(line, name), StrLit(line, text));
    PlainParts(line, name, text);
    PlainOwns(line, name, text);
  }

  lemma PlainParts(line: int, name: string, text: string)
    ensures !Barrier(Plain(line, name, text))
    ensures Children(Plain(line, name, text)) == [Name(line, name)] + [StrLit(line, text)]
  {
  }

  lemma {:induction false} PlainOwns(line: int, name: string, text: string)
    ensures Own(Plain(line, name, text)) == [Binding(name, line, StrLit(line, text))]
  {
    assert [Name(line, name)][1..] == [];
    assert TargetBindings([], line, StrLit(line, text)) == [];
  }

  lemma {:induction false} WrittenOne(rest: seq<Node>, n: Node, b: Binding)
    requires WritesOnly(n, b)
    ensures Named(Written(rest + [n]), b.name) == Named(Written(rest), b.name) + [b]
  {
    WrittenPop(rest, n);
    assert [] + [b] == [b];
    NamedAppend(Written(rest), [b], b.name);
    NamedOne([b], b.name);
  }

  lemma {:induction false} WrittenTwo(n1: Node, n2: Node, b1: Binding, b2: Binding)
    requires WritesOnly(n1, b1) && WritesOnly(n2, b2) && b1.name == b2.name
    ensures Named(Written([n1, n2]), b1.name) == [b1, b2]
  {
    WrittenOne([], n1, b1);
    WrittenOne([n1], n2, b2);
    assert [] + [n1] == [n1] && [n1] + [n2] == [n1, n2];
    WrittenNothing();
  }

  /** Two assignments on one line: the one written first is used, not the one assigned last. */
  lemma {:induction false} SameLineTakesTheFirst(line: int, name: string, first: string, second: string, use: int)
    requires line <= use
    ensures Lookup(Scope(Collect([Plain(line, name, first), Plain(line, name, second)]), None), name, use)
         == Some(StrLit(line, first))
  {
    var b1, b2 := Binding(name, line, StrLit(line, first)), Binding(name, line, StrLit(line, second));
    PlainWrites(line, name, first);
    PlainWrites(line, name, second);
    WrittenTwo(Plain(line, name, first), Plain(line, name, second), b1, b2);
    LookupTakesTheFirst([Plain(line, name, first), Plain(line, name, second)], None, name, use, 0);
  }
}
