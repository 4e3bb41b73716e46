/** What expressions mean. */
module SqlMeaning {
  import opened Wrappers
  import opened SqlScope
  import opened SqlChecker

  // ---- what an expression may evaluate to -------------------------------------

  datatype Value = Text(s: string) | Table_(values: seq<Value>) | Rows(rows: seq<Value>) | Opaque

  /** Entry i of a dict display may contribute the value w. */
  ghost predicate Contributes(keys: seq<Node>, values: seq<Node>, i: int, scope: Scope, w: Value, depth: nat)
    requires 0 <= i < |values|
    decreases depth, 0
  {
    depth > 0 &&
    if i < |keys| && keys[i].NoKey?
    then exists u: Value :: Denotes(values[i], scope, u, depth - 1) && u.Table_? && w in u.values
    else Denotes(values[i], scope, w, depth - 1)
  }

  ghost predicate FromSomeEntry(keys: seq<Node>, values: seq<Node>, scope: Scope, w: Value, depth: nat)
    decreases depth, 1
  {
    exists i :: 0 <= i < |values| && Contributes(keys, values, i, scope, w, depth)
  }

  /** The expression can evaluate to v within the given number of evaluation steps. Names mean
      what lookup finds, subscripts select from dicts, a dict(...) call makes a dict, and
      whatever the checker does not understand may be anything. */
  ghost predicate Denotes(n: Node, scope: Scope, v: Value, depth: nat)
    decreases depth, 1
  {
    depth > 0 &&
    match n
    case StrLit(_, text) => v == Text(text)
    case OtherLit(_) => v == Opaque
    case IfExp(_, _, body, orelse) => Denotes(body, scope, v, depth - 1) || Denotes(orelse, scope, v, depth - 1)
    case BoolOp(_, values) => exists i :: 0 <= i < |values| && Denotes(values[i], scope, v, depth - 1)
    case DictLit(_, keys, values) =>
      v.Table_? && forall w <- v.values :: FromSomeEntry(keys, values, scope, w, depth - 1)
    case DictComp(_, _, _, _) => v.Table_?
    case Collection(_, elts) =>
      v.Rows? && forall w <- v.rows :: exists i :: 0 <= i < |elts| && Denotes(elts[i], scope, w, depth - 1)
    case Comprehension(_, elt, _) => v.Rows? && forall w <- v.rows :: Denotes(elt, scope, w, depth - 1)
    case Subscript(_, container, _) =>
      exists u: Value :: Denotes(container, scope, u, depth - 1) && u.Table_? && v in u.values
    case Name(line, id) =>
      Lookup(scope, id, line).Some? ==> Denotes(Lookup(scope, id, line).value, scope, v, depth - 1)
    case Call(_, func, _, _) => func.Name? && func.id == "dict" ==> v.Table_?
    case _ => true
  }

  ghost predicate MayBe(n: Node, scope: Scope, v: Value) {
    exists depth: nat :: Denotes(n, scope, v, depth)
  }

  /** The text is the value, or sits in it at any depth of nested dicts. */
  predicate Holds(v: Value, s: string) {
    match v
    case Text(t) => t == s
    case Table_(values) => exists i :: 0 <= i < |values| && Holds(values[i], s)
    case _ => false
  }

  // ---- resolution covers every text -------------------------------------------

  lemma {:induction false} ResolveAllCovers(ns: seq<Node>, scope: Scope, seen: set<string>, i: nat)
    requires i < |ns| && ResolveAll(ns, scope, seen).reasons == []
    ensures Resolve(ns[i], scope, seen).reasons == []
    ensures forall s <- Resolve(ns[i], scope, seen).texts :: s in ResolveAll(ns, scope, seen).texts
  {
    if i > 0 { ResolveAllCovers(ns[1..], scope, seen, i - 1); }
  }

  lemma {:induction false} EntryCovers(keys: seq<Node>, values: seq<Node>, i: nat, scope: Scope, seen: set<string>,
                                       w: Value, depth: nat, s: string)
    requires i < |values| && Contributes(keys, values, i, scope, w, depth) && Holds(w, s)
    requires Resolve(values[i], scope, seen).reasons == []
    ensures s in Resolve(values[i], scope, seen).texts
    decreases depth, 0
  {
    if i < |keys| && keys[i].NoKey? {
      var u: Value :| Denotes(values[i], scope, u, depth - 1) && u.Table_? && w in u.values;
      var k :| 0 <= k < |u.values| && u.values[k] == w;
      ResolveCovers(values[i], scope, seen, u, depth - 1, s);
    } else {
      ResolveCovers(values[i], scope, seen, w, depth - 1, s);
    }
  }

  lemma {:induction false} SomeEntryCovers(keys: seq<Node>, values: seq<Node>, scope: Scope, seen: set<string>,
                                           w: Value, depth: nat, s: string)
    requires FromSomeEntry(keys, values, scope, w, depth) && Holds(w, s)
    requires ResolveAll(values, scope, seen).reasons == []
    ensures s in ResolveAll(values, scope, seen).texts
    decreases depth, 1
  {
    var i :| 0 <= i < |values| && Contributes(keys, values, i, scope, w, depth);
    ResolveAllCovers(values, scope, seen, i);
    EntryCovers(keys, values, i, scope, seen, w, depth, s);
  }

  lemma {:induction false} SomeBranchCovers(values: seq<Node>, scope: Scope, seen: set<string>, v: Value, depth: nat,
                                            s: string)
    requires exists i :: 0 <= i < |values| && Denotes(values[i], scope, v, depth)
    requires Holds(v, s) && ResolveAll(values, scope, seen).reasons == []
    ensures s in ResolveAll(values, scope, seen).texts
    decreases depth, 2
  {
    var i :| 0 <= i < |values| && Denotes(values[i], scope, v, depth);
    ResolveAllCovers(values, scope, seen, i);
    ResolveCovers(values[i], scope, seen, v, depth, s);
  }

  /** Without a reason, every text the expression can hold is among the resolved ones. */
  lemma {:induction false} ResolveCovers(n: Node, scope: Scope, seen: set<string>, v: Value, depth: nat, s: string)
    requires Denotes(n, scope, v, depth) && Holds(v, s)
    requires Resolve(n, scope, seen).reasons == []
    ensures s in Resolve(n, scope, seen).texts
    decreases depth, 1
  {
    match n
    case IfExp(_, _, body, orelse) =>
      if Denotes(body, scope, v, depth - 1) {
        ResolveCovers(body, scope, seen, v, depth - 1, s);
      } else {
        ResolveCovers(orelse, scope, seen, v, depth - 1, s);
      }
    case BoolOp(_, values) =>
      SomeBranchCovers(values, scope, seen, v, depth - 1, s);
    case DictLit(_, keys, values) =>
      var k :| 0 <= k < |v.values| && Holds(v.values[k], s);
      assert FromSomeEntry(keys, values, scope, v.values[k], depth - 1) by { assert v.values[k] in v.values; }
      SomeEntryCovers(keys, values, scope, seen, v.values[k], depth - 1, s);
    case Subscript(_, container, _) =>
      var u: Value :| Denotes(container, scope, u, depth - 1) && u.Table_? && v in u.values;
      var k :| 0 <= k < |u.values| && u.values[k] == v;
      ResolveCovers(container, scope, seen, u, depth - 1, s);
    case Name(line, id) =>
      ResolveCovers(Lookup(scope, id, line).value, scope, seen + {id}, v, depth - 1, s);
    case _ =>
  }

  // ---- classification means dicts ---------------------------------------------

  /** A dict, or any number of dicts. */
  predicate OnlyDicts(v: Value) {
    v.Table_? || (v.Rows? && forall i :: 0 <= i < |v.rows| ==> v.rows[i].Table_?)
  }

  lemma {:induction false} KindsOfHasEach(ns: seq<Node>, scope: Scope, seen: set<string>, i: nat)
    requires i < |ns|
    ensures KindOf(ns[i], scope, seen) in KindsOf(ns, scope, seen)
  {
    if i > 0 { KindsOfHasEach(ns[1..], scope, seen, i - 1); }
  }

  lemma {:induction false} DictNodesAreTables(n: Node, scope: Scope, v: Value, depth: nat)
    requires DictNode(n) && Denotes(n, scope, v, depth)
    ensures v.Table_?
  {
  }

  /** An argument classified as a dict can only evaluate to dicts. */
  lemma {:induction false} DictKindBindsDicts(n: Node, scope: Scope, seen: set<string>, v: Value, depth: nat)
    requires Denotes(n, scope, v, depth) && KindOf(n, scope, seen) == DictKind
    ensures OnlyDicts(v)
    decreases depth
  {
    match n
    case IfExp(_, _, body, orelse) =>
      var kinds := {KindOf(body, scope, seen)} + {KindOf(orelse, scope, seen)};
      assert KindOf(body, scope, seen) in kinds && KindOf(orelse, scope, seen) in kinds;
      if Denotes(body, scope, v, depth - 1) {
        DictKindBindsDicts(body, scope, seen, v, depth - 1);
      } else {
        DictKindBindsDicts(orelse, scope, seen, v, depth - 1);
      }
    case BoolOp(_, values) =>
      var i :| 0 <= i < |values| && Denotes(values[i], scope, v, depth - 1);
      KindsOfHasEach(values, scope, seen, i);
      DictKindBindsDicts(values[i], scope, seen, v, depth - 1);
    case Collection(_, elts) =>
      forall k | 0 <= k < |v.rows| ensures v.rows[k].Table_? {
        assert v.rows[k] in v.rows;
        var i :| 0 <= i < |elts| && Denotes(elts[i], scope, v.rows[k], depth - 1);
        DictNodesAreTables(elts[i], scope, v.rows[k], depth - 1);
      }
    case Comprehension(_, elt, _) =>
      forall k | 0 <= k < |v.rows| ensures v.rows[k].Table_? {
        assert v.rows[k] in v.rows;
        DictNodesAreTables(elt, scope, v.rows[k], depth - 1);
      }
    case Name(line, id) =>
      DictKindBindsDicts(Lookup(scope, id, line).value, scope, seen + {id}, v, depth - 1);
    case _ =>
  }

  /** An argument that is there is never classified as absent. */
  lemma {:induction false} KindIsNeverAbsent(n: Node, scope: Scope, seen: set<string>)
    ensures KindOf(n, scope, seen) != Absent
    decreases BoundNames(scope) - seen, n, 1
  {
    match n
    case IfExp(_, _, body, orelse) =>
      KindIsNeverAbsent(body, scope, seen);
      assert KindOf(body, scope, seen) in {KindOf(body, scope, seen)} + {KindOf(orelse, scope, seen)};
    case BoolOp(_, values) => KindsAreNeverAbsent(values, scope, seen);
    case Name(line, id) =>
      if id !in seen && Lookup(scope, id, line).Some? {
        ScanNeedsEntries(scope, id, line);
        KindIsNeverAbsent(Lookup(scope, id, line).value, scope, seen + {id});
      }
    case _ =>
  }

  lemma {:induction false} KindsAreNeverAbsent(ns: seq<Node>, scope: Scope, seen: set<string>)
    ensures Absent !in KindsOf(ns, scope, seen)
    decreases BoundNames(scope) - seen, ns, 0
  {
    if ns != [] {
      KindIsNeverAbsent(ns[0], scope, seen);
      KindsAreNeverAbsent(ns[1..], scope, seen);
    }
  }
}
