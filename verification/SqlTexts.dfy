/** Which judged texts an expression can hold. */
module SqlTexts {
  import opened Wrappers
  import opened SqlScope
  import opened SqlChecker
  import opened SqlMeaning
  import opened SqlWays

  // ---- how deep a text sits ---------------------------------------------------

  /** The text sits in the value below this many nested dicts. */
  predicate SitsAt(v: Value, s: string, k: nat) {
    match v
    case Text(t) => t == s && k == 0
    case Table_(values) => k > 0 && exists i :: 0 <= i < |values| && SitsAt(values[i], s, k - 1)
    case _ => false
  }

  predicate SpreadEntry(n: Node, i: nat) { n.DictLit? && i < |n.keys| && n.keys[i].NoKey? }

  /** How deep the text at the end of a way sits in the value: a dict entry puts it one deeper, a subscript
      takes it out again, and what is subscripted or spread must be a dict. */
  function Depth(n: Node, scope: Scope, way: seq<nat>): Option<nat>
    decreases |way|
  {
    if way == [] then Some(0)
    else if way[0] >= |Next(n, scope, true)| then None
    else
      var below := Depth(Next(n, scope, true)[way[0]], scope, way[1..]);
      if below.None? then None
      else if SpreadEntry(n, way[0]) then (if below.value > 0 then below else None)
      else if n.DictLit? then Some(below.value + 1)
      else if n.Subscript? then (if below.value > 0 then Some(below.value - 1) else None)
      else below
  }

  /** How the depth below the i-th next expression becomes the depth at the node. */
  predicate Lifts(n: Node, i: nat, below: nat, here: nat) {
    if SpreadEntry(n, i) then below > 0 && here == below
    else if n.DictLit? then here == below + 1
    else if n.Subscript? then below > 0 && here == below - 1
    else here == below
  }

  predicate SitsOnWay(n: Node, scope: Scope, names: set<string>, way: seq<nat>, s: string, k: nat) {
    LeadsBy(n, scope, names, way, Read(s)) && Depth(n, scope, way) == Some(k)
  }

  ghost predicate CanHold(n: Node, scope: Scope, s: string, k: nat) {
    exists v: Value, d: nat :: Denotes(n, scope, v, d) && SitsAt(v, s, k)
  }

  // ---- from ways to values ----------------------------------------------------

  lemma {:induction false} Wrapped(v: Value, s: string, k: nat)
    requires SitsAt(v, s, k)
    ensures SitsAt(Table_([v]), s, k + 1)
  {
    assert [v][0] == v;
  }

  lemma {:induction false} Within(v: Value, s: string, k: nat) returns (w: Value)
    requires SitsAt(v, s, k) && k > 0
    ensures v.Table_? && w in v.values && SitsAt(w, s, k - 1)
  {
    var i :| 0 <= i < |v.values| && SitsAt(v.values[i], s, k - 1);
    w := v.values[i];
  }

  lemma {:induction false} EntryValue(n: Node, i: nat, scope: Scope, w: Value, d: nat)
    requires n.DictLit? && i < |n.values| && Contributes(n.keys, n.values, i, scope, w, d)
    ensures Denotes(n, scope, Table_([w]), d + 1)
  {
    assert FromSomeEntry(n.keys, n.values, scope, w, d);
  }

  lemma {:induction false} ValueOnWay(n: Node, scope: Scope, names: set<string>, way: seq<nat>, s: string, k: nat)
      returns (v: Value, d: nat)
    requires SitsOnWay(n, scope, names, way, s, k)
    ensures Denotes(n, scope, v, d) && SitsAt(v, s, k)
    decreases |way|
  {
    if way == [] {
      v, d := Text(s), 1;
    } else {
      var i, child := way[0], Next(n, scope, true)[way[0]];
      var u, e := ValueOnWay(child, scope, Passed(n, names), way[1..], s, Depth(child, scope, way[1..]).value);
      v, d := LiftValue(n, scope, i, child, u, e, s, Depth(child, scope, way[1..]).value, k);
    }
  }

  /** The value of the next expression gives one of this expression. */
  lemma {:induction false} LiftValue(n: Node, scope: Scope, i: nat, child: Node, u: Value, e: nat, s: string, l: nat,
                                     k: nat) returns (v: Value, d: nat)
    requires i < |Next(n, scope, true)| && child == Next(n, scope, true)[i] && Lifts(n, i, l, k)
    requires Denotes(child, scope, u, e) && SitsAt(u, s, l)
    ensures Denotes(n, scope, v, d) && SitsAt(v, s, k)
  {
    if SpreadEntry(n, i) {
      var w := Within(u, s, l);
      assert Contributes(n.keys, n.values, i, scope, w, e + 1);
      EntryValue(n, i, scope, w, e + 1);
      Wrapped(w, s, l - 1);
      v, d := Table_([w]), e + 2;
    } else if n.DictLit? {
      assert Contributes(n.keys, n.values, i, scope, u, e + 1);
      EntryValue(n, i, scope, u, e + 1);
      Wrapped(u, s, l);
      v, d := Table_([u]), e + 2;
    } else if n.Subscript? {
      var w := Within(u, s, l);
      v, d := w, e + 1;
    } else {
      v, d := u, e + 1;
    }
  }

  // ---- from values to ways ----------------------------------------------------

  lemma {:induction false} LiftWay(n: Node, scope: Scope, names: set<string>, i: nat, rest: seq<nat>, s: string, l: nat,
                                   k: nat)
    requires i < |Onward(n, scope, true, names)| && Lifts(n, i, l, k)
    requires SitsOnWay(Onward(n, scope, true, names)[i], scope, Passed(n, names), rest, s, l)
    ensures SitsOnWay(n, scope, names, [i] + rest, s, k)
  {
    assert ([i] + rest)[1..] == rest;
  }

  /** Where nothing stops the reading at a node, nothing does onward. */
  lemma {:induction false} CleanOnward(n: Node, scope: Scope, seen: set<string>, i: nat)
    requires Resolve(n, scope, seen).reasons == [] && i < |Onward(n, scope, true, seen)|
    ensures Resolve(Onward(n, scope, true, seen)[i], scope, Passed(n, seen)).reasons == []
  {
    ResolveStep(n, scope, seen);
    ResolveAllCovers(Onward(n, scope, true, seen), scope, Passed(n, seen), i);
  }

  /** How a value of the node comes from a value of a next expression. */
  lemma {:induction false} ValueBelow(n: Node, scope: Scope, v: Value, d: nat, s: string, k: nat)
      returns (i: nat, u: Value, e: nat, l: nat)
    requires Denotes(n, scope, v, d) && SitsAt(v, s, k)
    requires n.IfExp? || n.BoolOp? || n.DictLit? || n.Subscript? || (n.Name? && Next(n, scope, true) != [])
    ensures i < |Next(n, scope, true)| && Lifts(n, i, l, k)
    ensures e < d && Denotes(Next(n, scope, true)[i], scope, u, e)
    ensures SitsAt(u, s, l)
  {
    i, u, e, l := 0, v, d - 1, k;
    if n.IfExp? {
      if !Denotes(n.body, scope, v, d - 1) { i := 1; }
    } else if n.BoolOp? {
      i :| 0 <= i < |n.values| && Denotes(n.values[i], scope, v, d - 1);
    } else if n.DictLit? {
      i, u, l := EntryBelow(n, scope, v, d, s, k);
      e := d - 2;
    } else if n.Subscript? {
      u :| Denotes(n.container, scope, u, d - 1) && u.Table_? && v in u.values;
      var j :| 0 <= j < |u.values| && u.values[j] == v;
      l := k + 1;
    }
  }

  lemma {:induction false} EntryBelow(n: Node, scope: Scope, v: Value, d: nat, s: string, k: nat)
      returns (i: nat, u: Value, l: nat)
    requires n.DictLit? && Denotes(n, scope, v, d) && SitsAt(v, s, k)
    ensures i < |n.values| && Lifts(n, i, l, k) && SitsAt(u, s, l)
    ensures d > 1 && Denotes(n.values[i], scope, u, d - 2)
  {
    var w := Within(v, s, k);
    assert FromSomeEntry(n.keys, n.values, scope, w, d - 1);
    i :| 0 <= i < |n.values| && Contributes(n.keys, n.values, i, scope, w, d - 1);
    if SpreadEntry(n, i) {
      u :| Denotes(n.values[i], scope, u, d - 2) && u.Table_? && w in u.values;
      var j :| 0 <= j < |u.values| && u.values[j] == w;
      l := k;
    } else {
      u, l := w, k - 1;
    }
  }

  lemma {:induction false} ResolvedHasNext(n: Node, scope: Scope, seen: set<string>)
    requires Resolve(n, scope, seen).reasons == []
    ensures Onward(n, scope, true, seen) == Next(n, scope, true) && (n.Name? ==> Next(n, scope, true) != [])
  {
  }

  lemma {:induction false} WayOfValue(n: Node, scope: Scope, seen: set<string>, v: Value, d: nat, s: string, k: nat)
      returns (way: seq<nat>)
    requires Denotes(n, scope, v, d) && SitsAt(v, s, k) && Resolve(n, scope, seen).reasons == []
    ensures SitsOnWay(n, scope, seen, way, s, k)
    decreases d
  {
    way := [];
    if n.IfExp? || n.BoolOp? || n.DictLit? || n.Subscript? || n.Name? {
      ResolvedHasNext(n, scope, seen);
      var i, u, e, l := ValueBelow(n, scope, v, d, s, k);
      CleanOnward(n, scope, seen, i);
      var rest := WayOfValue(Next(n, scope, true)[i], scope, Passed(n, seen), u, e, s, l);
      LiftWay(n, scope, seen, i, rest, s, l, k);
      way := [i] + rest;
    }
  }

  /** Where nothing stops the reading, an expression can hold a text that deep exactly when a way leads to it
      that deep. */
  lemma {:induction false} HoldsExactly(n: Node, scope: Scope, s: string, k: nat)
    requires Resolve(n, scope, {}).reasons == []
    ensures CanHold(n, scope, s, k) <==> exists way :: SitsOnWay(n, scope, {}, way, s, k)
  {
    if way :| SitsOnWay(n, scope, {}, way, s, k) {
      var v, d := ValueOnWay(n, scope, {}, way, s, k);
    }
    if CanHold(n, scope, s, k) {
      var v: Value, d: nat :| Denotes(n, scope, v, d) && SitsAt(v, s, k);
      var way := WayOfValue(n, scope, {}, v, d, s, k);
    }
  }

  /** A judged text is one the statement can be exactly when a way leads to it that takes out of dicts as often
      as it goes into them. */
  lemma {:induction false} JudgedCanBeIssuedExactlyWhen(n: Node, scope: Scope, s: string)
    requires Resolve(n, scope, {}).reasons == []
    ensures MayBe(n, scope, Text(s)) <==> exists way :: SitsOnWay(n, scope, {}, way, s, 0)
    ensures MayBe(n, scope, Text(s)) ==> s in Resolve(n, scope, {}).texts
  {
    HoldsExactly(n, scope, s, 0);
    if MayBe(n, scope, Text(s)) {
      var d: nat :| Denotes(n, scope, Text(s), d);
      assert SitsAt(Text(s), s, 0);
    }
    if CanHold(n, scope, s, 0) {
      var v: Value, d: nat :| Denotes(n, scope, v, d) && SitsAt(v, s, 0);
      assert v == Text(s);
    }
    if way :| SitsOnWay(n, scope, {}, way, s, 0) { WayIsFound(n, scope, {}, way, Read(s)); }
  }

  lemma {:induction false} LeafWay(n: Node, scope: Scope, names: set<string>, way: seq<nat>)
    requires Next(n, scope, true) == []
    ensures if way == [] then Depth(n, scope, way) == Some(0) else Arrive(n, scope, true, names, way) == None
  {
  }

  /** A subscripted literal: the literal is judged as a statement, although no value holds it. */
  lemma {:induction false} SubscriptedTextIsJudged(scope: Scope, s: string, index: Node)
    ensures var n := Subscript(1, StrLit(1, s), index);
      Resolve(n, scope, {}) == Resolution([s], []) && forall k: nat :: !CanHold(n, scope, s, k)
  {
    var n := Subscript(1, StrLit(1, s), index);
    forall k: nat ensures !CanHold(n, scope, s, k) {
      HoldsExactly(n, scope, s, k);
      forall way: seq<nat> ensures !SitsOnWay(n, scope, {}, way, s, k) {
        assert Next(n, scope, true) == [n.container] && Next(n.container, scope, true) == [];
        if way != [] && way[0] == 0 { LeafWay(n.container, scope, Passed(n, {}), way[1..]); }
      }
    }
  }
}
