/** Facts of task trees. */
module PlanTree {
  import opened Wrappers
  import opened Dicts
  import opened Blueprints

  // ---- identities and leaves --------------------------------------------------

  function Ids(items: seq<Item>): set<string> {
    if items == [] then {} else {items[0].id} + Ids(items[0].subtasks) + Ids(items[1..])
  }

  /** Preorder list of identities. */
  function IdList(items: seq<Item>): seq<string> {
    if items == [] then [] else [items[0].id] + IdList(items[0].subtasks) + IdList(items[1..])
  }

  predicate Unique(items: seq<Item>) {
    items != [] ==>
      && Unique(items[0].subtasks) && Unique(items[1..])
      && items[0].id !in Ids(items[0].subtasks)
      && ({items[0].id} + Ids(items[0].subtasks)) !! Ids(items[1..])
  }

  function Leaves(items: seq<Item>): seq<Item> {
    if items == [] then []
    else (if items[0].subtasks == [] then [items[0]] else Leaves(items[0].subtasks)) + Leaves(items[1..])
  }

  /** `_find_task`: the first match in preorder. */
  function FindTask(items: seq<Item>, id: string): (r: Option<Item>)
    ensures r.Some? <==> id in Ids(items)
    ensures r.Some? ==> r.value.id == id
  {
    if items == [] then None
    else if items[0].id == id then Some(items[0])
    else
      var found := FindTask(items[0].subtasks, id);
      if found.Some? then found else FindTask(items[1..], id)
  }

  // ---- derived parent states --------------------------------------------------

  function States(items: seq<Item>): set<Status> {
    set i | 0 <= i < |items| :: items[i].status
  }

  /** The parent state read off the direct children. */
  function Fold(children: seq<Item>): Status {
    var states := States(children);
    if states == {Completed} then Completed
    else if Blocked in states then Blocked
    else if states == {NotStarted} then NotStarted
    else InProgress
  }

  /** `_derive_status` */
  function Derive(item: Item): Item {
    if item.subtasks == [] then item
    else
      var children := DeriveAll(item.subtasks);
      item.(status := Fold(children), subtasks := children)
  }

  function DeriveAll(items: seq<Item>): seq<Item> {
    if items == [] then [] else [Derive(items[0])] + DeriveAll(items[1..])
  }

  predicate AllAre(items: seq<Item>, s: Status) {
    forall i :: 0 <= i < |items| ==> items[i].status == s
  }

  predicate SomeIs(items: seq<Item>, s: Status) {
    exists i :: 0 <= i < |items| && items[i].status == s
  }

  /** The parent state as a flat function of every leaf below it. */
  function Flat(leaves: seq<Item>): Status {
    if AllAre(leaves, Completed) then Completed
    else if SomeIs(leaves, Blocked) then Blocked
    else if AllAre(leaves, NotStarted) then NotStarted
    else InProgress
  }

  /** Every parent carries the flat state of its leaves. */
  predicate Settled(items: seq<Item>) {
    items != [] ==>
      && (items[0].subtasks != [] ==> items[0].status == Flat(Leaves(items[0].subtasks)))
      && Settled(items[0].subtasks) && Settled(items[1..])
  }

  /** Executions sit only on leaves. */
  predicate LeafExecutions(items: seq<Item>) {
    items != [] ==>
      && (items[0].subtasks != [] ==> items[0].execution.None?)
      && LeafExecutions(items[0].subtasks) && LeafExecutions(items[1..])
  }

  lemma LeavesExist(items: seq<Item>)
    requires items != []
    ensures Leaves(items) != []
  {
    if items[0].subtasks != [] { LeavesExist(items[0].subtasks); }
  }

  lemma SplitAll(a: seq<Item>, b: seq<Item>, s: Status)
    ensures AllAre(a + b, s) <==> AllAre(a, s) && AllAre(b, s)
    ensures SomeIs(a + b, s) <==> SomeIs(a, s) || SomeIs(b, s)
  {
    if AllAre(a + b, s) {
      forall i | 0 <= i < |a| ensures a[i].status == s { assert (a + b)[i] == a[i]; }
      forall i | 0 <= i < |b| ensures b[i].status == s { assert (a + b)[|a| + i] == b[i]; }
    }
    if SomeIs(a, s) {
      var i :| 0 <= i < |a| && a[i].status == s;
      assert (a + b)[i].status == s;
    }
    if SomeIs(b, s) {
      var i :| 0 <= i < |b| && b[i].status == s;
      assert (a + b)[|a| + i].status == s;
    }
  }

  lemma SplitBy(a: seq<Item>, b: seq<Item>)
    ensures forall s: Status :: AllAre(a + b, s) <==> AllAre(a, s) && AllAre(b, s)
    ensures forall s: Status :: SomeIs(a + b, s) <==> SomeIs(a, s) || SomeIs(b, s)
  {
    forall s: Status
      ensures AllAre(a + b, s) <==> AllAre(a, s) && AllAre(b, s)
      ensures SomeIs(a + b, s) <==> SomeIs(a, s) || SomeIs(b, s)
    {
      SplitAll(a, b, s);
    }
  }

  /** Roots and leaves of a settled forest agree on the three tests the fold makes. */
  lemma {:induction false} Summary(items: seq<Item>)
    requires Settled(items)
    ensures AllAre(items, Completed) <==> AllAre(Leaves(items), Completed)
    ensures SomeIs(items, Blocked) <==> SomeIs(Leaves(items), Blocked)
    ensures AllAre(items, NotStarted) <==> AllAre(Leaves(items), NotStarted)
  {
    if items != [] {
      var head := if items[0].subtasks == [] then [items[0]] else Leaves(items[0].subtasks);
      Summary(items[1..]);
      assert items == [items[0]] + items[1..];
      if items[0].subtasks != [] {
        LeavesExist(items[0].subtasks);
        FlatAgrees(items[0], head);
      }
      SplitBy([items[0]], items[1..]);
      SplitBy(head, Leaves(items[1..]));
    }
  }

  lemma {:induction false} FlatAgrees(parent: Item, leaves: seq<Item>)
    requires leaves != [] && parent.status == Flat(leaves)
    ensures AllAre([parent], Completed) <==> AllAre(leaves, Completed)
    ensures SomeIs([parent], Blocked) <==> SomeIs(leaves, Blocked)
    ensures AllAre([parent], NotStarted) <==> AllAre(leaves, NotStarted)
  {
    assert [parent][0].status == parent.status;
    assert AllAre(leaves, NotStarted) || AllAre(leaves, Completed) ==> leaves[0].status in {Completed, NotStarted};
  }

  /** Folding the children of a settled parent is the flat function of its leaves. */
  lemma {:induction false} FoldIsFlat(children: seq<Item>)
    requires Settled(children) && children != []
    ensures Fold(children) == Flat(Leaves(children))
  {
    Summary(children);
    SingleState(children, Completed);
    SingleState(children, NotStarted);
    assert SomeIs(children, Blocked) <==> Blocked in States(children);
  }

  lemma SingleState(items: seq<Item>, s: Status)
    requires items != []
    ensures States(items) == {s} <==> AllAre(items, s)
  {
    if AllAre(items, s) {
      assert items[0].status in States(items);
    } else {
      var i :| 0 <= i < |items| && items[i].status != s;
      assert items[i].status in States(items);
    }
  }

  /** Deriving settles any tree and touches neither leaves nor identities. */
  lemma {:induction false} DeriveSettles(items: seq<Item>)
    ensures Settled(DeriveAll(items))
    ensures Leaves(DeriveAll(items)) == Leaves(items)
    ensures |DeriveAll(items)| == |items|
    ensures SameTree(items, DeriveAll(items))
  {
    if items != [] {
      DeriveSettles(items[0].subtasks);
      DeriveSettles(items[1..]);
      assert DeriveAll(items)[1..] == DeriveAll(items[1..]);
      if items[0].subtasks != [] { FoldIsFlat(DeriveAll(items[0].subtasks)); }
    }
  }

  /** On a settled tree deriving is the identity. */
  lemma {:induction false} DeriveFixes(items: seq<Item>)
    requires Settled(items)
    ensures DeriveAll(items) == items
  {
    if items != [] {
      DeriveFixes(items[0].subtasks);
      DeriveFixes(items[1..]);
      if items[0].subtasks != [] { FoldIsFlat(items[0].subtasks); }
      assert items == [items[0]] + items[1..];
    }
  }

  // ---- same tree, possibly other leaf contents -------------------------------

  /** Same nesting and identities; parents may differ only in state. */
  predicate SameTree(a: seq<Item>, b: seq<Item>) {
    && |a| == |b|
    && (a != [] ==>
        && a[0].id == b[0].id
        && (a[0].subtasks == [] <==> b[0].subtasks == [])
        && (a[0].subtasks != [] ==> b[0] == a[0].(status := b[0].status, subtasks := b[0].subtasks))
        && SameTree(a[0].subtasks, b[0].subtasks)
        && SameTree(a[1..], b[1..]))
  }

  lemma {:induction false} SameTreeKeepsFacts(a: seq<Item>, b: seq<Item>)
    requires SameTree(a, b)
    ensures Ids(a) == Ids(b) && IdList(a) == IdList(b)
    ensures Unique(a) ==> Unique(b)
    ensures |Leaves(a)| == |Leaves(b)|
  {
    if a != [] {
      SameTreeKeepsFacts(a[0].subtasks, b[0].subtasks);
      SameTreeKeepsFacts(a[1..], b[1..]);
    }
  }

  /** Tree and leaves determine a settled forest completely. */
  lemma {:induction false} SettledIsDetermined(a: seq<Item>, b: seq<Item>)
    requires SameTree(a, b) && Settled(a) && Settled(b) && Leaves(a) == Leaves(b)
    ensures a == b
  {
    if a != [] {
      SameTreeKeepsFacts(a[0].subtasks, b[0].subtasks);
      var ours := if a[0].subtasks == [] then [a[0]] else Leaves(a[0].subtasks);
      var theirs := if b[0].subtasks == [] then [b[0]] else Leaves(b[0].subtasks);
      EqualHalves(ours, Leaves(a[1..]), theirs, Leaves(b[1..]));
      if a[0].subtasks == [] {
        assert ours[0] == a[0] && theirs[0] == b[0];
      } else {
        SettledIsDetermined(a[0].subtasks, b[0].subtasks);
      }
      SettledIsDetermined(a[1..], b[1..]);
      assert a == [a[0]] + a[1..] && b == [b[0]] + b[1..];
    }
  }

  lemma {:induction false} EqualHalves(a: seq<Item>, x: seq<Item>, b: seq<Item>, y: seq<Item>)
    requires a + x == b + y && |a| == |b|
    ensures a == b && x == y
  {
    assert a == (a + x)[..|a|] && b == (b + y)[..|b|];
    assert x == (a + x)[|a|..] && y == (b + y)[|b|..];
  }

  /** The nested uniqueness test says that the preorder list has no repeats. */
  lemma {:induction false} UniqueMeansNoDup(items: seq<Item>)
    ensures Unique(items) <==> NoDup(IdList(items))
  {
    if items != [] {
      var head, inner, rest := items[0].id, IdList(items[0].subtasks), IdList(items[1..]);
      UniqueMeansNoDup(items[0].subtasks);
      UniqueMeansNoDup(items[1..]);
      ListHoldsIds(items[0].subtasks);
      ListHoldsIds(items[1..]);
      assert IdList(items) == [head] + inner + rest;
      NoDupSplit([head] + inner, rest);
      NoDupSplit([head], inner);
      assert forall x :: x in [head] + inner <==> x == head || x in inner;
    }
  }

  lemma NoDupSplit(a: seq<string>, b: seq<string>)
    ensures NoDup(a + b) <==> NoDup(a) && NoDup(b) && forall x :: x in a ==> x !in b
  {
    var s := a + b;
    if NoDup(s) {
      forall i, j | 0 <= i < j < |a| ensures a[i] != a[j] { assert s[i] != s[j]; }
      forall i, j | 0 <= i < j < |b| ensures b[i] != b[j] { assert s[|a| + i] != s[|a| + j]; }
      forall x | x in a ensures x !in b {
        var i :| 0 <= i < |a| && a[i] == x;
        forall j | 0 <= j < |b| ensures b[j] != x { assert s[i] != s[|a| + j]; }
      }
    }
    if NoDup(a) && NoDup(b) && forall x :: x in a ==> x !in b {
      forall i, j | 0 <= i < j < |s| ensures s[i] != s[j] {
        assert s[i] == if i < |a| then a[i] else b[i - |a|];
        assert s[j] == if j < |a| then a[j] else b[j - |a|];
        if i < |a| <= j { assert s[i] in a && s[j] in b; }
      }
    }
  }

  lemma {:induction false} ListHoldsIds(items: seq<Item>)
    ensures forall x :: x in IdList(items) <==> x in Ids(items)
  {
    if items != [] {
      ListHoldsIds(items[0].subtasks);
      ListHoldsIds(items[1..]);
    }
  }

  // ---- rewriting leaves -------------------------------------------------------

  function Each(f: Item -> Item, leaves: seq<Item>): (r: seq<Item>)
    ensures |r| == |leaves| && forall i :: 0 <= i < |r| ==> r[i] == f(leaves[i])
  {
    seq(|leaves|, i requires 0 <= i < |leaves| => f(leaves[i]))
  }

  lemma EachSplits(f: Item -> Item, a: seq<Item>, b: seq<Item>)
    ensures Each(f, a + b) == Each(f, a) + Each(f, b)
  {
  }

  /** Rewrite every leaf and settle the parents again. */
  function MapLeaves(items: seq<Item>, f: Item -> Item): seq<Item> {
    if items == [] then [] else [MapTree(items[0], f)] + MapLeaves(items[1..], f)
  }

  function MapTree(item: Item, f: Item -> Item): Item {
    if item.subtasks == [] then f(item)
    else Derive(item.(subtasks := MapLeaves(item.subtasks, f)))
  }

  /** A rewrite that maps leaves to leaves of the same identity. */
  ghost predicate OnLeaves(f: Item -> Item) {
    forall x: Item :: x.subtasks == [] ==> f(x).subtasks == [] && f(x).id == x.id
  }

  lemma HeadLeaves(items: seq<Item>)
    requires items != []
    ensures Leaves([items[0]]) == if items[0].subtasks == [] then [items[0]] else Leaves(items[0].subtasks)
    ensures Leaves(items) == Leaves([items[0]]) + Leaves(items[1..])
  {
    assert [items[0]][1..] == [];
  }

  /** Setting settled children under a parent and deriving needs only the fold. */
  lemma DeriveParent(parent: Item, children: seq<Item>)
    requires Settled(children) && children != []
    ensures Derive(parent.(subtasks := children))
         == parent.(status := Flat(Leaves(children)), subtasks := children)
  {
    DeriveFixes(children);
    FoldIsFlat(children);
  }

  lemma {:induction false} MapLeavesKeepsTree(items: seq<Item>, f: Item -> Item)
    requires OnLeaves(f)
    ensures Settled(MapLeaves(items, f))
    ensures SameTree(items, MapLeaves(items, f))
  {
    if items != [] {
      var head, inner := items[0], MapLeaves(items[0].subtasks, f);
      MapLeavesKeepsTree(head.subtasks, f);
      MapLeavesKeepsTree(items[1..], f);
      assert MapLeaves(items, f)[1..] == MapLeaves(items[1..], f);
      if head.subtasks != [] { DeriveParent(head, inner); }
    }
  }

  lemma {:induction false} MapLeavesMapsLeaves(items: seq<Item>, f: Item -> Item)
    requires OnLeaves(f)
    ensures Leaves(MapLeaves(items, f)) == Each(f, Leaves(items))
  {
    if items != [] {
      var r := MapLeaves(items, f);
      MapLeavesMapsLeaves(items[0].subtasks, f);
      MapLeavesMapsLeaves(items[1..], f);
      assert r[1..] == MapLeaves(items[1..], f);
      HeadLeaves(items);
      HeadLeaves(r);
      MappedHead(items, f);
      EachSplits(f, Leaves([items[0]]), Leaves(items[1..]));
    }
  }

  lemma {:induction false} MappedHead(items: seq<Item>, f: Item -> Item)
    requires OnLeaves(f) && items != []
    requires Leaves(MapLeaves(items[0].subtasks, f)) == Each(f, Leaves(items[0].subtasks))
    ensures Leaves([MapLeaves(items, f)[0]]) == Each(f, Leaves([items[0]]))
  {
    var head := items[0];
    MapLeavesKeepsTree(head.subtasks, f);
    HeadLeaves(items);
    HeadLeaves(MapLeaves(items, f));
    if head.subtasks != [] { DeriveParent(head, MapLeaves(head.subtasks, f)); }
  }

  lemma {:induction false} MapLeavesKeepsExecutions(items: seq<Item>, f: Item -> Item)
    requires OnLeaves(f) && LeafExecutions(items)
    ensures LeafExecutions(MapLeaves(items, f))
  {
    if items != [] {
      MapLeavesKeepsExecutions(items[0].subtasks, f);
      MapLeavesKeepsExecutions(items[1..], f);
      MapLeavesKeepsTree(items[0].subtasks, f);
      assert MapLeaves(items, f)[1..] == MapLeaves(items[1..], f);
      if items[0].subtasks != [] { DeriveParent(items[0], MapLeaves(items[0].subtasks, f)); }
    }
  }

  ghost predicate AnyLeaf(leaves: seq<Item>, p: Item -> bool) {
    exists x :: x in leaves && p(x)
  }

  /** Outside the leaves satisfying p and their ancestors, nothing differs. */
  ghost predicate OnlyPathsTo(a: seq<Item>, b: seq<Item>, p: Item -> bool) {
    && |a| == |b|
    && (a != [] ==>
        && (if AnyLeaf(Leaves([a[0]]), p) then OnlyPathsTo(a[0].subtasks, b[0].subtasks, p) else b[0] == a[0])
        && OnlyPathsTo(a[1..], b[1..], p))
  }

  lemma {:induction false} MapLeavesFixes(items: seq<Item>, f: Item -> Item)
    requires Settled(items) && OnLeaves(f)
    requires forall x :: x in Leaves(items) ==> f(x) == x
    ensures MapLeaves(items, f) == items
  {
    MapLeavesKeepsTree(items, f);
    MapLeavesMapsLeaves(items, f);
    SettledIsDetermined(items, MapLeaves(items, f));
  }

  lemma {:induction false} MapLeavesIsLocal(items: seq<Item>, f: Item -> Item, p: Item -> bool)
    requires Settled(items) && OnLeaves(f)
    requires forall x: Item :: x.subtasks == [] && !p(x) ==> f(x) == x
    ensures OnlyPathsTo(items, MapLeaves(items, f), p)
  {
    if items != [] {
      var head, r := items[0], MapLeaves(items, f);
      MapLeavesIsLocal(head.subtasks, f, p);
      MapLeavesIsLocal(items[1..], f, p);
      assert r[0] == MapTree(head, f) && r[1..] == MapLeaves(items[1..], f);
      if AnyLeaf(Leaves([head]), p) {
        MapLeavesKeepsTree(head.subtasks, f);
        if head.subtasks == [] {
          assert r[0] == f(head);
        } else {
          DeriveParent(head, MapLeaves(head.subtasks, f));
        }
      } else {
        LeavesAreLeaves([head]);
        MapLeavesFixes([head], f);
        assert [head][1..] == [];
        assert MapLeaves([head], f) == [r[0]];
      }
    }
  }

  lemma {:induction false} LeavesAreLeaves(items: seq<Item>)
    ensures forall x :: x in Leaves(items) ==> x.subtasks == [] && x.id in Ids(items)
  {
    if items != [] {
      LeavesAreLeaves(items[0].subtasks);
      LeavesAreLeaves(items[1..]);
    }
  }
}
