/** Python's `sorted` on strings: code-point order, each name once, as a function and as a loop. */
module Names {

  /** Code-point order of strings. */
  predicate Before(a: string, b: string) {
    b != "" && (a == "" || a[0] < b[0] || (a[0] == b[0] && Before(a[1..], b[1..])))
  }

  predicate Ascending(names: seq<string>) {
    forall i, j :: 0 <= i < j < |names| ==> Before(names[i], names[j])
  }

  lemma {:induction false} BeforeIsStrict(a: string)
    ensures !Before(a, a)
  {
    if a != "" { BeforeIsStrict(a[1..]); }
  }

  lemma {:induction false} BeforeChains(a: string, b: string, c: string)
    requires Before(a, b) && Before(b, c)
    ensures Before(a, c)
  {
    if a != "" && a[0] == b[0] && b[0] == c[0] { BeforeChains(a[1..], b[1..], c[1..]); }
  }

  lemma {:induction false} BeforeIsTotal(a: string, b: string)
    requires a != b
    ensures Before(a, b) || Before(b, a)
  {
    if a != "" && b != "" && a[0] == b[0] {
      assert a == [a[0]] + a[1..] && b == [b[0]] + b[1..];
      BeforeIsTotal(a[1..], b[1..]);
    }
  }

  lemma AscendingIsFresh(names: seq<string>, i: nat)
    requires Ascending(names) && i < |names|
    ensures names[i] !in names[..i]
  {
    BeforeIsStrict(names[i]);
  }

  lemma {:induction false} InsertAscending(names: seq<string>, x: string, i: nat)
    requires Ascending(names) && x !in names && i <= |names|
    requires i > 0 ==> !Before(x, names[i - 1])
    requires forall k :: i <= k < |names| ==> Before(x, names[k])
    ensures Ascending(names[..i] + [x] + names[i..])
    ensures forall a :: a in names[..i] + [x] + names[i..] <==> a == x || a in names
  {
    if i > 0 {
      BeforeIsTotal(x, names[i - 1]);
      forall k | 0 <= k < i ensures Before(names[k], x) {
        if k < i - 1 { BeforeChains(names[k], names[i - 1], x); }
      }
    }
    assert names == names[..i] + names[i..];
  }

  method SortedNames(names: set<string>) returns (sorted: seq<string>)
    ensures Ascending(sorted) && forall a :: a in sorted <==> a in names
  {
    sorted := [];
    var rest := names;
    while rest != {}
      invariant rest <= names && Ascending(sorted)
      invariant forall a :: a in sorted <==> a in names - rest
      decreases rest
    {
      var x :| x in rest;
      assert x !in sorted;
      var i := |sorted|;
      while i > 0 && Before(x, sorted[i - 1])
        invariant 0 <= i <= |sorted|
        invariant forall k :: i <= k < |sorted| ==> Before(x, sorted[k])
      {
        i := i - 1;
      }
      InsertAscending(sorted, x, i);
      sorted, rest := sorted[..i] + [x] + sorted[i..], rest - {x};
    }
  }

  function Place(names: seq<string>, x: string): seq<string> {
    if names == [] || Before(x, names[0]) then [x] + names
    else if names[0] == x then names
    else [names[0]] + Place(names[1..], x)
  }

  /** `sorted(set(names))` */
  function Sorted(names: seq<string>): seq<string> {
    if names == [] then [] else Place(Sorted(names[1..]), names[0])
  }

  lemma {:induction false} PlaceFacts(names: seq<string>, x: string)
    requires Ascending(names)
    ensures Ascending(Place(names, x))
    ensures forall a :: a in Place(names, x) <==> a == x || a in names
  {
    if names != [] && !Before(x, names[0]) && names[0] != x {
      PlaceFacts(names[1..], x);
      BeforeIsTotal(x, names[0]);
      assert names == [names[0]] + names[1..];
      forall a | a in Place(names[1..], x) ensures Before(names[0], a) {
        if a != x { var i :| 0 <= i < |names[1..]| && names[1..][i] == a; }
      }
    } else if names != [] && Before(x, names[0]) {
      forall k | 0 <= k < |names| ensures Before(x, names[k]) {
        if k > 0 { BeforeChains(x, names[0], names[k]); }
      }
    }
  }

  lemma {:induction false} SortedFacts(names: seq<string>)
    ensures Ascending(Sorted(names))
    ensures forall a :: a in Sorted(names) <==> a in names
  {
    if names != [] {
      SortedFacts(names[1..]);
      PlaceFacts(Sorted(names[1..]), names[0]);
      assert names == [names[0]] + names[1..];
    }
  }
}
