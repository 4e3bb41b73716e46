/** The markers of symbol maps. */
module ShippedMarkers {
  import opened Wrappers
  import opened PyText
  import opened MarkedText
  import opened IndexSync

  const BEGIN := "<!-- BEGIN GENERATED SYMBOL MAP -->"
  const END := "<!-- END GENERATED SYMBOL MAP -->"

  const SHIPPED := Markers(BEGIN, END)

  /** The first character of a marker stands nowhere else in it. */
  predicate Headed(s: string) {
    s != "" && s[0] == '<' && forall i :: 0 < i < |s| ==> s[i] != '<'
  }

  lemma BeginIsMarker()
    ensures MarkerOk(BEGIN) && Headed(BEGIN)
  {
    assert |BEGIN| == 35;
  }

  lemma EndIsMarker()
    ensures MarkerOk(END) && Headed(END)
  {
    assert |END| == 33;
  }

  /** A headed text that occurs where two texts meet begins at the seam or does not reach it. */
  lemma HeadedStaysInside(sub: string, a: string, b: string, i: nat)
    requires Headed(sub) && Headed(b) && At(a + b, sub, i) && i < |a|
    ensures At(a, sub, i)
  {
    var s := a + b;
    forall j | i < j < i + |sub| ensures s[j] != '<' { assert s[j] == s[i..i + |sub|][j - i]; }
    assert s[|a|] == b[0];
    assert s[i..i + |sub|] == a[i..i + |sub|];
  }

  /** One headed text inside another stands at its start. */
  lemma HeadedAt(sub: string, a: string, b: string, i: nat)
    requires Headed(sub) && Headed(a) && At(a + b, sub, i) && i < |a|
    ensures i == 0
  {
    assert (a + b)[i..i + |sub|][0] == a[i];
  }

  lemma MarkersDiffer(sub: string, a: string, b: string)
    requires sub in {BEGIN, END} && a in {BEGIN, END} && At(a + b, sub, 0)
    ensures sub == a
  {
    assert BEGIN[5] == 'B' && END[5] == 'E';
    assert (a + b)[0..|sub|][5] == a[5];
  }

  /** A headed text stands in a section only where the markers stand. */
  lemma HeadedInSection(begin: string, middle: string, end: string, sub: string, i: nat)
    requires Headed(begin) && Headed(end) && Headed(sub) && !Occurs(middle, sub)
    requires At(begin + (middle + (end + "\n")), sub, i)
    ensures i == 0 || (i == |begin| + |middle| && At(end + "\n", sub, 0))
  {
    var behind := end + "\n";
    if i < |begin| {
      HeadedAt(sub, begin, middle + behind, i);
    } else {
      var j := i - |begin|;
      AtBehind(begin, middle + behind, sub, j);
      if j < |middle| { HeadedStaysInside(sub, middle, behind, j); }
      AtBehind(middle, behind, sub, j - |middle|);
      HeadedAt(sub, end, "\n", j - |middle|);
    }
  }

  lemma AtBehind(a: string, b: string, sub: string, j: nat)
    requires At(a + b, sub, |a| + j)
    ensures At(b, sub, j)
  {
    assert (a + b)[|a| + j..|a| + j + |sub|] == b[j..j + |sub|];
  }

  lemma MarkerInSection(middle: string, sub: string, i: nat)
    requires sub in {BEGIN, END} && !Occurs(middle, sub) && At(Section(SHIPPED, middle), sub, i)
    ensures i == if sub == BEGIN then 0 else |BEGIN| + |middle|
  {
    BeginIsMarker();
    EndIsMarker();
    SectionOf(BEGIN, middle, END);
    HeadedInSection(BEGIN, middle, END, sub, i);
    MarkersDiffer(sub, if i == 0 then BEGIN else END, if i == 0 then middle + (END + "\n") else "\n");
  }

  lemma SectionOf(begin: string, middle: string, end: string)
    ensures begin + middle + end + "\n" == begin + (middle + (end + "\n"))
  {
  }

  /** A section under the shipped markers holds each of them once exactly when its text holds neither. */
  lemma SectionOkExactlyWhen(middle: string)
    ensures SectionOk(SHIPPED, middle) <==> !Occurs(middle, BEGIN) && !Occurs(middle, END)
  {
    BeginIsMarker();
    EndIsMarker();
    var s := Section(SHIPPED, middle);
    forall sub, k | sub in {BEGIN, END} && At(middle, sub, k) ensures At(s, sub, |BEGIN| + k) {
      assert s[|BEGIN| + k..|BEGIN| + k + |sub|] == middle[k..k + |sub|];
    }
    if !Occurs(middle, BEGIN) && !Occurs(middle, END) {
      forall i | At(s, BEGIN, i) ensures i == 0 { MarkerInSection(middle, BEGIN, i); }
      forall i | At(s, END, i) ensures i == |BEGIN| + |middle| { MarkerInSection(middle, END, i); }
    }
  }

  /** A symbol map that quotes no marker is settled by one update of a document with at most one map. */
  lemma MapIsSettledByOneUpdate(symbols: string, doc: string)
    requires !Occurs(symbols, BEGIN) && !Occurs(symbols, END) && Residue(SHIPPED, doc).Ok?
    requires forall i, j :: At(doc, BEGIN, i) && At(doc, BEGIN, j) ==> i == j
    ensures var once := Updated(SHIPPED, doc, Section(SHIPPED, symbols)).value;
      Updated(SHIPPED, once, Section(SHIPPED, symbols)) == Ok(once)
  {
    SectionOkExactlyWhen(symbols);
    OneSectionIsIdempotent(SHIPPED, symbols, doc);
  }
}
