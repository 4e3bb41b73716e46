/** Where two documents differ, as walks through both of them. */
module DiffPaths {
  import opened Wrappers
  import opened Dicts
  import opened JsonValues
  import opened PyText
  import opened Names
  import opened JsonDiff

  // ---- walking both documents -------------------------------------------------

  datatype Step = Key(name: string) | Index(at: nat)

  datatype Pair = Pair(pre: Json, post: Json)

  /** What the object has at the key, null when nothing. */
  function FieldOrNull(d: Dict<Json>, k: string): Json {
    var j := Get(d, k); if j.Some? then j.value else Null
  }

  /** One step into both: a key that one of two objects has, a place that both of two lists have. */
  function Down(p: Pair, s: Step): Option<Pair> {
    match s
    case Key(k) =>
      if p.pre.Obj? && p.post.Obj? && k in Keys(p.pre.fields) + Keys(p.post.fields) then
        Some(Pair(FieldOrNull(p.pre.fields, k), FieldOrNull(p.post.fields, k)))
      else None
    case Index(i) =>
      if p.pre.Arr? && p.post.Arr? && i < |p.pre.items| && i < |p.post.items| then
        Some(Pair(p.pre.items[i], p.post.items[i]))
      else None
  }

  function Walk(p: Pair, steps: seq<Step>): Option<Pair>
    decreases |steps|
  {
    if steps == [] then Some(p)
    else
      var next := Down(p, steps[0]);
      if next.None? then None else Walk(next.value, steps[1..])
  }

  function Extended(path: string, s: Step): string {
    match s
    case Key(k) => path + "." + k
    case Index(i) => path + "[" + Decimal(i) + "]"
  }

  function PathOf(path: string, steps: seq<Step>): string
    decreases |steps|
  {
    if steps == [] then path else PathOf(Extended(path, steps[0]), steps[1..])
  }

  /** Two lists of different length, or two values of which not both are objects and not both are lists. */
  predicate Differ(p: Pair, kind: Kind) {
    match kind
    case Length => p.pre.Arr? && p.post.Arr? && |p.pre.items| != |p.post.items|
    case Value => !(p.pre.Obj? && p.post.Obj?) && !(p.pre.Arr? && p.post.Arr?) && !Equal(p.pre, p.post)
  }

  predicate DifferBy(p: Pair, path: string, steps: seq<Step>, d: Diff) {
    var q := Walk(p, steps); q.Some? && Differ(q.value, d.kind) && d.path == PathOf(path, steps)
  }

  ghost predicate DifferAt(p: Pair, path: string, d: Diff) {
    exists steps :: DifferBy(p, path, steps, d)
  }

  // ---- one level --------------------------------------------------------------

  predicate Here(p: Pair, path: string, d: Diff) { d.path == path && Differ(p, d.kind) }

  predicate InBelow(p: Pair, path: string, s: Step, d: Diff) {
    var q := Down(p, s); q.Some? && d in Diffs(q.value.pre, q.value.post, Extended(path, s))
  }

  lemma {:induction false} FieldReads(d: Dict<Json>, k: string)
    ensures ValueAt(d, k) == FieldOrNull(d, k)
  {
    if d != [] && d[0].0 != k { FieldReads(d[1..], k); }
  }

  lemma {:induction false} InFields(pre: Dict<Json>, post: Dict<Json>, keys: seq<string>, path: string, d: Diff)
    ensures d in FieldDiffs(pre, post, keys, path) <==>
      exists k :: k in keys && d in Diffs(ValueAt(pre, k), ValueAt(post, k), path + "." + k)
  {
    if keys != [] {
      InFields(pre, post, keys[1..], path, d);
      assert keys == [keys[0]] + keys[1..];
    }
  }

  predicate InItem(pre: seq<Json>, post: seq<Json>, index: nat, i: nat, path: string, d: Diff) {
    i < |pre| && i < |post| && d in Diffs(pre[i], post[i], path + "[" + Decimal(index + i) + "]")
  }

  lemma {:induction false} InItems(pre: seq<Json>, post: seq<Json>, index: nat, path: string, d: Diff)
    ensures d in ItemDiffs(pre, post, index, path) <==> exists i: nat :: InItem(pre, post, index, i, path, d)
  {
    if pre != [] && post != [] {
      var a, b, next := pre[1..], post[1..], index + 1;
      InItems(a, b, next, path, d);
      FirstItem(pre, post, index, path, d);
      if i: nat :| InItem(a, b, next, i, path, d) { LaterItem(pre, post, index, i, path, d); }
      if i: nat :| InItem(pre, post, index, i, path, d) && i > 0 { LaterItem(pre, post, index, i - 1, path, d); }
    }
  }

  lemma {:induction false} FirstItem(pre: seq<Json>, post: seq<Json>, index: nat, path: string, d: Diff)
    requires pre != [] && post != []
    ensures d in ItemDiffs(pre, post, index, path) <==>
      InItem(pre, post, index, 0, path, d) || d in ItemDiffs(pre[1..], post[1..], index + 1, path)
  {
  }

  lemma LaterItem(pre: seq<Json>, post: seq<Json>, index: nat, i: nat, path: string, d: Diff)
    requires pre != [] && post != []
    ensures InItem(pre[1..], post[1..], index + 1, i, path, d) <==> InItem(pre, post, index, i + 1, path, d)
  {
  }

  lemma {:induction false} InObjects(p: Pair, path: string, d: Diff)
    requires p.pre.Obj? && p.post.Obj?
    ensures d in Diffs(p.pre, p.post, path) <==> exists k :: InBelow(p, path, Key(k), d)
  {
    var pre, post := p.pre.fields, p.post.fields;
    var names := NamesOf(pre) + NamesOf(post);
    SortedFacts(names);
    NamesAreKeys(pre);
    NamesAreKeys(post);
    InFields(pre, post, Sorted(names), path, d);
    forall k ensures InBelow(p, path, Key(k), d) <==>
        k in Sorted(names) && d in Diffs(ValueAt(pre, k), ValueAt(post, k), path + "." + k) {
      FieldReads(pre, k);
      FieldReads(post, k);
    }
  }

  lemma {:induction false} InArrays(p: Pair, path: string, d: Diff)
    requires p.pre.Arr? && p.post.Arr?
    ensures d in Diffs(p.pre, p.post, path) <==> Here(p, path, d) || exists i: nat :: InBelow(p, path, Index(i), d)
  {
    InItems(p.pre.items, p.post.items, 0, path, d);
    forall i: nat ensures InBelow(p, path, Index(i), d) <==> InItem(p.pre.items, p.post.items, 0, i, path, d) {
    }
  }

  // ---- all levels -------------------------------------------------------------

  lemma {:induction false} OneStep(p: Pair, path: string, s: Step, steps: seq<Step>, d: Diff)
    requires Down(p, s).Some?
    ensures DifferBy(p, path, [s] + steps, d) <==> DifferBy(Down(p, s).value, Extended(path, s), steps, d)
  {
    assert ([s] + steps)[1..] == steps;
  }

  lemma {:induction false} DownIsSmaller(p: Pair, s: Step)
    requires Down(p, s).Some?
    ensures Size(Down(p, s).value.pre) < Size(p.pre)
  {
    match s
    case Key(k) => FieldReads(p.pre.fields, k);
    case Index(i) => ItemIsSmaller(p.pre.items, i);
  }

  lemma {:induction false} FoundByWalk(p: Pair, path: string, d: Diff) returns (steps: seq<Step>)
    requires d in Diffs(p.pre, p.post, path)
    ensures DifferBy(p, path, steps, d)
    decreases Size(p.pre)
  {
    if p.pre.Obj? && p.post.Obj? {
      InObjects(p, path, d);
      var k :| InBelow(p, path, Key(k), d);
      steps := StepDown(p, path, Key(k), d);
    } else if p.pre.Arr? && p.post.Arr? && !Here(p, path, d) {
      InArrays(p, path, d);
      var i: nat :| InBelow(p, path, Index(i), d);
      steps := StepDown(p, path, Index(i), d);
    } else {
      steps := [];
    }
  }

  lemma {:induction false} StepDown(p: Pair, path: string, s: Step, d: Diff) returns (steps: seq<Step>)
    requires InBelow(p, path, s, d)
    ensures DifferBy(p, path, steps, d)
    decreases Size(p.pre), 0
  {
    DownIsSmaller(p, s);
    var rest := FoundByWalk(Down(p, s).value, Extended(path, s), d);
    OneStep(p, path, s, rest, d);
    steps := [s] + rest;
  }

  lemma {:induction false} WalkIsReported(p: Pair, path: string, steps: seq<Step>, d: Diff)
    requires DifferBy(p, path, steps, d)
    ensures d in Diffs(p.pre, p.post, path)
    decreases |steps|
  {
    if steps != [] {
      assert steps == [steps[0]] + steps[1..];
      OneStep(p, path, steps[0], steps[1..], d);
      WalkIsReported(Down(p, steps[0]).value, Extended(path, steps[0]), steps[1..], d);
      assert InBelow(p, path, steps[0], d);
      if p.pre.Obj? { InObjects(p, path, d); } else { InArrays(p, path, d); }
    } else if p.pre.Arr? && p.post.Arr? {
      InArrays(p, path, d);
    }
  }

  /** A difference is reported exactly when a walk through both documents leads to it, under the path it spells. */
  lemma {:induction false} ReportedExactlyWhen(pre: Json, post: Json, path: string, d: Diff)
    ensures d in Diffs(pre, post, path) <==> DifferAt(Pair(pre, post), path, d)
  {
    var p := Pair(pre, post);
    if d in Diffs(pre, post, path) { var steps := FoundByWalk(p, path, d); }
    if steps :| DifferBy(p, path, steps, d) { WalkIsReported(p, path, steps, d); }
  }

  // ---- Python's equality ------------------------------------------------------

  predicate IsNumber(j: Json, x: real) {
    || j == Real(x) || (j.Int? && j.number as real == x)
    || (j == Bool(true) && x == 1.0) || (j == Bool(false) && x == 0.0)
  }

  predicate EqualItems(a: seq<Json>, b: seq<Json>) {
    |a| == |b| && forall i :: 0 <= i < |a| ==> Equal(a[i], b[i])
  }

  predicate EqualFields(a: Dict<Json>, b: Dict<Json>) {
    Keys(a) == Keys(b) && forall k :: k in Keys(a) ==> Equal(FieldOrNull(a, k), FieldOrNull(b, k))
  }

  /** Of one kind and the same, numbers and flags being one kind; parts are compared alike. */
  ghost predicate SameValue(a: Json, b: Json) {
    || (a.Null? && b.Null?)
    || (a.Str? && a == b)
    || (exists x :: IsNumber(a, x) && IsNumber(b, x))
    || (a.Arr? && b.Arr? && EqualItems(a.items, b.items))
    || (a.Obj? && b.Obj? && EqualFields(a.fields, b.fields))
  }

  lemma {:induction false} ItemsEqualExactly(a: seq<Json>, b: seq<Json>)
    ensures ListEqual(a, b) <==> EqualItems(a, b)
  {
    if |a| == |b| && a != [] {
      ItemsEqualExactly(a[1..], b[1..]);
      if EqualItems(a[1..], b[1..]) && Equal(a[0], b[0]) {
        forall i | 0 <= i < |a| ensures Equal(a[i], b[i]) {
          if i > 0 { assert a[1..][i - 1] == a[i] && b[1..][i - 1] == b[i]; }
        }
      }
      if EqualItems(a, b) {
        forall i | 0 <= i < |a[1..]| ensures Equal(a[1..][i], b[1..][i]) { assert Equal(a[i + 1], b[i + 1]); }
      }
    }
  }

  lemma {:induction false} FieldsEqualExactly(a: Dict<Json>, b: Dict<Json>)
    requires Distinct(a)
    ensures Equal(Obj(a), Obj(b)) <==> EqualFields(a, b)
  {
    ObjectsEqualByKey(a, b);
    if EqualFields(a, b) {
      forall k ensures AgreeAt(a, b, k) {
        if k in Keys(a) { assert Equal(FieldOrNull(a, k), FieldOrNull(b, k)); }
      }
    }
    if forall k :: AgreeAt(a, b, k) {
      forall k ensures k in Keys(a) <==> k in Keys(b) { assert AgreeAt(a, b, k); }
      forall k | k in Keys(a) ensures Equal(FieldOrNull(a, k), FieldOrNull(b, k)) { assert AgreeAt(a, b, k); }
    }
  }

  lemma NumbersExactly(j: Json, x: real)
    ensures IsNumber(j, x) <==> Number(j) == Some(x)
  {
  }

  /** Decoded values are equal exactly when they are the same by kind. */
  lemma {:induction false} EqualExactlyWhen(a: Json, b: Json)
    requires Proper(a)
    ensures Equal(a, b) <==> SameValue(a, b)
  {
    if a.Arr? {
      if b.Arr? { ItemsEqualExactly(a.items, b.items); }
    } else if a.Obj? {
      if b.Obj? { FieldsEqualExactly(a.fields, b.fields); }
    } else if Number(a).Some? {
      NumbersExactly(a, Number(a).value);
      NumbersExactly(b, Number(a).value);
    }
    if x :| IsNumber(a, x) && IsNumber(b, x) {
      NumbersExactly(a, x);
      NumbersExactly(b, x);
    }
  }
}
