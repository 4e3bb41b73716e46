/** Field-level differences. */
module JsonDiff {
  import opened Wrappers
  import opened Dicts
  import opened JsonValues
  import opened Names
  import opened PyText

  datatype Kind = Length | Value

  datatype Diff = Diff(path: string, kind: Kind)

  // ---- Python's equality of decoded JSON --------------------------------------

  /** Booleans are the numbers 0 and 1. */
  function Number(j: Json): Option<real> {
    match j
    case Bool(b) => Some(if b then 1.0 else 0.0)
    case Int(n) => Some(n as real)
    case Real(x) => Some(x)
    case _ => None
  }

  predicate Equal(a: Json, b: Json)
    decreases a, 1
  {
    match a
    case Null => b.Null?
    case Str(s) => b == a
    case Arr(items) => b.Arr? && ListEqual(items, b.items)
    case Obj(fields) => b.Obj? && Keys(fields) == Keys(b.fields) && Within(fields, b.fields)
    case _ => Number(b) == Number(a)
  }

  predicate ListEqual(a: seq<Json>, b: seq<Json>)
    decreases a, 0
  {
    |a| == |b| && (a != [] ==> Equal(a[0], b[0]) && ListEqual(a[1..], b[1..]))
  }

  /** Every entry of a has an equal entry in b. */
  predicate Within(a: Dict<Json>, b: Dict<Json>)
    decreases a, 0
  {
    a != [] ==> assert a[0].1 < a[0]; a[0].0 in Keys(b) && Equal(a[0].1, Get(b, a[0].0).value) && Within(a[1..], b)
  }

  // ---- the comparison ---------------------------------------------------------

  function Size(j: Json): nat
    decreases j, 1
  {
    match j
    case Null => 0
    case Arr(items) => 1 + ItemsSize(items)
    case Obj(fields) => 1 + FieldsSize(fields)
    case _ => 1
  }

  function ItemsSize(items: seq<Json>): nat
    decreases items, 0
  {
    if items == [] then 0 else Size(items[0]) + ItemsSize(items[1..])
  }

  function FieldsSize(fields: Dict<Json>): nat
    decreases fields, 0
  {
    if fields == [] then 0 else assert fields[0].1 < fields[0]; Size(fields[0].1) + FieldsSize(fields[1..])
  }

  /** `d.get(k)`, where absent and null are the same. */
  function ValueAt(d: Dict<Json>, k: string): (j: Json)
    ensures Size(j) <= FieldsSize(d)
  {
    if d == [] then Null else if d[0].0 == k then d[0].1 else ValueAt(d[1..], k)
  }

  function NamesOf(d: Dict<Json>): seq<string> {
    if d == [] then [] else [d[0].0] + NamesOf(d[1..])
  }

  function Diffs(pre: Json, post: Json, path: string): seq<Diff>
    decreases Size(pre), 1, 0
  {
    if pre.Obj? && post.Obj? then
      FieldDiffs(pre.fields, post.fields, Sorted(NamesOf(pre.fields) + NamesOf(post.fields)), path)
    else if pre.Arr? && post.Arr? then
      (if |pre.items| != |post.items| then [Diff(path, Length)] else []) + ItemDiffs(pre.items, post.items, 0, path)
    else if Equal(pre, post) then [] else [Diff(path, Value)]
  }

  function FieldDiffs(pre: Dict<Json>, post: Dict<Json>, keys: seq<string>, path: string): seq<Diff>
    decreases 1 + FieldsSize(pre), 0, |keys|
  {
    if keys == [] then []
    else
      Diffs(ValueAt(pre, keys[0]), ValueAt(post, keys[0]), path + "." + keys[0])
      + FieldDiffs(pre, post, keys[1..], path)
  }

  /** The items that both lists have, paired from the front. */
  function ItemDiffs(pre: seq<Json>, post: seq<Json>, index: nat, path: string): seq<Diff>
    decreases 1 + ItemsSize(pre), 0, |pre|
  {
    if pre == [] || post == [] then []
    else Diffs(pre[0], post[0], path + "[" + Decimal(index) + "]") + ItemDiffs(pre[1..], post[1..], index + 1, path)
  }

  class Differences {
    var diffs: seq<Diff>

    constructor ()
      ensures diffs == []
    {
      diffs := [];
    }

    method Compare(pre: Json, post: Json, path: string)
      modifies this
      ensures diffs == old(diffs) + Diffs(pre, post, path)
      decreases Size(pre), 1
    {
      if pre.Obj? && post.Obj? {
        CompareFields(pre.fields, post.fields, Sorted(NamesOf(pre.fields) + NamesOf(post.fields)), path);
        return;
      }
      if pre.Arr? && post.Arr? {
        if |pre.items| != |post.items| { diffs := diffs + [Diff(path, Length)]; }
        CompareItems(pre.items, post.items, path);
        return;
      }
      if !Equal(pre, post) { diffs := diffs + [Diff(path, Value)]; }
    }

    method CompareFields(pre: Dict<Json>, post: Dict<Json>, keys: seq<string>, path: string)
      modifies this
      ensures diffs == old(diffs) + FieldDiffs(pre, post, keys, path)
      decreases 1 + FieldsSize(pre), 0
    {
      ghost var goal := diffs + FieldDiffs(pre, post, keys, path);
      for i := 0 to |keys|
        invariant diffs + FieldDiffs(pre, post, keys[i..], path) == goal
      {
        FieldDiffsStep(pre, post, keys, i, path);
        ghost var here := Diffs(ValueAt(pre, keys[i]), ValueAt(post, keys[i]), path + "." + keys[i]);
        DiffsRegroup(diffs, here, FieldDiffs(pre, post, keys[i + 1..], path));
        Compare(ValueAt(pre, keys[i]), ValueAt(post, keys[i]), path + "." + keys[i]);
      }
    }

    method CompareItems(pre: seq<Json>, post: seq<Json>, path: string)
      modifies this
      ensures diffs == old(diffs) + ItemDiffs(pre, post, 0, path)
      decreases 1 + ItemsSize(pre), 0
    {
      ghost var goal := diffs + ItemDiffs(pre, post, 0, path);
      var i := 0;
      while i < |pre| && i < |post|
        invariant 0 <= i <= |pre| && i <= |post|
        invariant diffs + ItemDiffs(pre[i..], post[i..], i, path) == goal
      {
        ItemDiffsStep(pre, post, i, path);
        ghost var here := Diffs(pre[i], post[i], path + "[" + Decimal(i) + "]");
        DiffsRegroup(diffs, here, ItemDiffs(pre[i + 1..], post[i + 1..], i + 1, path));
        ItemIsSmaller(pre, i);
        Compare(pre[i], post[i], path + "[" + Decimal(i) + "]");
        i := i + 1;
      }
    }
  }

  lemma DiffsRegroup(a: seq<Diff>, b: seq<Diff>, c: seq<Diff>)
    ensures (a + b) + c == a + (b + c)
  {
  }

  lemma {:induction false} FieldDiffsStep(pre: Dict<Json>, post: Dict<Json>, keys: seq<string>, i: nat, path: string)
    requires i < |keys|
    ensures FieldDiffs(pre, post, keys[i..], path)
      == Diffs(ValueAt(pre, keys[i]), ValueAt(post, keys[i]), path + "." + keys[i])
         + FieldDiffs(pre, post, keys[i + 1..], path)
  {
    assert keys[i..][0] == keys[i] && keys[i..][1..] == keys[i + 1..];
  }

  lemma {:induction false} ItemDiffsStep(pre: seq<Json>, post: seq<Json>, i: nat, path: string)
    requires i < |pre| && i < |post|
    ensures ItemDiffs(pre[i..], post[i..], i, path)
      == Diffs(pre[i], post[i], path + "[" + Decimal(i) + "]") + ItemDiffs(pre[i + 1..], post[i + 1..], i + 1, path)
  {
    assert pre[i..][0] == pre[i] && pre[i..][1..] == pre[i + 1..];
    assert post[i..][0] == post[i] && post[i..][1..] == post[i + 1..];
  }

  lemma {:induction false} ItemIsSmaller(items: seq<Json>, i: nat)
    requires i < |items|
    ensures Size(items[i]) <= ItemsSize(items)
  {
    if i > 0 { ItemIsSmaller(items[1..], i - 1); }
  }

  // ---- dropping null fields ---------------------------------------------------

  /** The document without its null-valued object fields, at every depth. */
  function Dense(j: Json): Json
    decreases j, 1
  {
    match j
    case Arr(items) => Arr(DenseItems(items))
    case Obj(fields) => Obj(DenseFields(fields))
    case _ => j
  }

  function DenseItems(items: seq<Json>): seq<Json>
    decreases items, 0
  {
    if items == [] then [] else [Dense(items[0])] + DenseItems(items[1..])
  }

  function DenseFields(d: Dict<Json>): Dict<Json>
    decreases d, 0
  {
    if d == [] then []
    else assert d[0].1 < d[0]; (if d[0].1.Null? then [] else [(d[0].0, Dense(d[0].1))]) + DenseFields(d[1..])
  }

  // ---- no difference means equal up to null fields ----------------------------

  lemma {:induction false} ProperValue(d: Dict<Json>, k: string)
    requires ProperFields(d)
    ensures Proper(ValueAt(d, k))
    ensures k !in Keys(d) ==> ValueAt(d, k) == Null
  {
    if d != [] && d[0].0 != k { ProperValue(d[1..], k); }
  }

  lemma {:induction false} DenseAt(d: Dict<Json>, k: string)
    requires Distinct(d)
    ensures Distinct(DenseFields(d)) && Keys(DenseFields(d)) <= Keys(d)
    ensures Get(DenseFields(d), k) == if ValueAt(d, k).Null? then None else Some(Dense(ValueAt(d, k)))
  {
    if d != [] {
      DenseAt(d[1..], k);
      var rest := DenseFields(d[1..]);
      if d[0].1.Null? {
        assert DenseFields(d) == rest;
      } else {
        assert DenseFields(d)[1..] == rest;
      }
      if d[0].0 == k && d[0].1.Null? { AbsentIsNull(d[1..], k); }
    }
  }

  lemma {:induction false} AbsentIsNull(d: Dict<Json>, k: string)
    requires k !in Keys(d)
    ensures ValueAt(d, k) == Null
  {
    if d != [] { AbsentIsNull(d[1..], k); }
  }

  /** The two objects have the same at one key. */
  predicate AgreeAt(a: Dict<Json>, b: Dict<Json>, k: string) {
    (k in Keys(a) <==> k in Keys(b)) && (k in Keys(a) && k in Keys(b) ==> Equal(Get(a, k).value, Get(b, k).value))
  }

  predicate SilentAt(pre: Dict<Json>, post: Dict<Json>, k: string, path: string) {
    Diffs(ValueAt(pre, k), ValueAt(post, k), path + "." + k) == []
  }

  lemma {:induction false} WithinByKey(a: Dict<Json>, b: Dict<Json>, k: string)
    requires Distinct(a) && Within(a, b) && k in Keys(a)
    ensures k in Keys(b) && Equal(Get(a, k).value, Get(b, k).value)
  {
    if a[0].0 != k { WithinByKey(a[1..], b, k); }
  }

  lemma {:induction false} WithinFromKeys(a: Dict<Json>, b: Dict<Json>, all: Dict<Json>)
    requires Distinct(a) && (forall k :: k in Keys(a) ==> Get(all, k) == Get(a, k)) && Keys(a) <= Keys(all)
    requires forall k :: k in Keys(all) ==> AgreeAt(all, b, k)
    ensures Within(a, b)
  {
    if a != [] {
      assert AgreeAt(all, b, a[0].0);
      forall k | k in Keys(a[1..]) ensures Get(all, k) == Get(a[1..], k) { assert Get(a, k) == Get(a[1..], k); }
      WithinFromKeys(a[1..], b, all);
    }
  }

  lemma ObjectsEqualByKey(a: Dict<Json>, b: Dict<Json>)
    requires Distinct(a)
    ensures Equal(Obj(a), Obj(b)) <==> forall k :: AgreeAt(a, b, k)
  {
    if Equal(Obj(a), Obj(b)) {
      forall k ensures AgreeAt(a, b, k) {
        if k in Keys(a) { WithinByKey(a, b, k); }
      }
    }
    if forall k :: AgreeAt(a, b, k) {
      forall k ensures k in Keys(a) <==> k in Keys(b) { assert AgreeAt(a, b, k); }
      WithinFromKeys(a, b, a);
    }
  }

  lemma {:induction false} FieldDiffsByKey(pre: Dict<Json>, post: Dict<Json>, keys: seq<string>, path: string)
    ensures FieldDiffs(pre, post, keys, path) == [] <==> forall k :: k in keys ==> SilentAt(pre, post, k, path)
  {
    if keys != [] {
      FieldDiffsByKey(pre, post, keys[1..], path);
      assert keys[0] in keys && forall k :: k in keys ==> k == keys[0] || k in keys[1..];
      var head := Diffs(ValueAt(pre, keys[0]), ValueAt(post, keys[0]), path + "." + keys[0]);
      var rest := FieldDiffs(pre, post, keys[1..], path);
      assert head + rest == [] <==> head == [] && rest == [];
    }
  }

  lemma {:induction false} NamesAreKeys(d: Dict<Json>)
    ensures forall k :: k in NamesOf(d) <==> k in Keys(d)
  {
    if d != [] { NamesAreKeys(d[1..]); }
  }

  /** The comparison reports nothing exactly when the documents are equal once null fields are dropped. */
  lemma {:induction false} NoDiffsExactlyWhenEqual(pre: Json, post: Json, path: string)
    requires Proper(pre) && Proper(post)
    ensures Diffs(pre, post, path) == [] <==> Equal(Dense(pre), Dense(post))
    decreases Size(pre), 1, 0
  {
    if pre.Obj? && post.Obj? {
      FieldsAgree(pre.fields, post.fields, path);
    } else if pre.Arr? && post.Arr? {
      ItemsAgree(pre.items, post.items, 0, path);
      DenseLength(pre.items);
      DenseLength(post.items);
    }
  }

  lemma {:induction false} DenseLength(items: seq<Json>)
    ensures |DenseItems(items)| == |items|
  {
    if items != [] { DenseLength(items[1..]); }
  }

  lemma {:induction false} ItemsAgree(pre: seq<Json>, post: seq<Json>, index: nat, path: string)
    requires ProperItems(pre) && ProperItems(post)
    ensures |pre| == |post|
      ==> (ItemDiffs(pre, post, index, path) == [] <==> ListEqual(DenseItems(pre), DenseItems(post)))
    decreases 1 + ItemsSize(pre), 0, |pre|
  {
    if pre != [] && post != [] {
      NoDiffsExactlyWhenEqual(pre[0], post[0], path + "[" + Decimal(index) + "]");
      ItemsAgree(pre[1..], post[1..], index + 1, path);
      DenseLength(pre[1..]);
      DenseLength(post[1..]);
    }
  }

  lemma {:induction false} FieldsAgree(pre: Dict<Json>, post: Dict<Json>, path: string)
    requires Proper(Obj(pre)) && Proper(Obj(post))
    ensures Diffs(Obj(pre), Obj(post), path) == [] <==> Equal(Dense(Obj(pre)), Dense(Obj(post)))
    decreases 1 + FieldsSize(pre), 0, 0
  {
    var keys := Sorted(NamesOf(pre) + NamesOf(post));
    SortedFacts(NamesOf(pre) + NamesOf(post));
    NamesAreKeys(pre);
    NamesAreKeys(post);
    FieldDiffsByKey(pre, post, keys, path);
    var a, b := DenseFields(pre), DenseFields(post);
    forall k ensures SilentAt(pre, post, k, path) <==> AgreeAt(a, b, k) {
      FieldAgrees(pre, post, k, path);
    }
    forall k | k !in keys ensures AgreeAt(a, b, k) {
      DenseAt(pre, k);
      DenseAt(post, k);
    }
    DenseAt(pre, "");
    ObjectsEqualByKey(a, b);
  }

  lemma {:induction false} FieldAgrees(pre: Dict<Json>, post: Dict<Json>, k: string, path: string)
    requires Proper(Obj(pre)) && Proper(Obj(post))
    ensures SilentAt(pre, post, k, path) <==> AgreeAt(DenseFields(pre), DenseFields(post), k)
    decreases FieldsSize(pre), 2, 0
  {
    ProperValue(pre, k);
    ProperValue(post, k);
    DenseAt(pre, k);
    DenseAt(post, k);
    NoDiffsExactlyWhenEqual(ValueAt(pre, k), ValueAt(post, k), path + "." + k);
  }

  /** Documents a reader would tell apart can still compare equal: a flag and the number it stands for. */
  lemma TrueMatchesOne(path: string)
    ensures Diffs(Bool(true), Int(1), path) == []
  {
  }
}
