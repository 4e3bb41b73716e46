/** Text with a pair of markers: whitespace at seams, first occurrences, and copies of a marked section. */
module MarkedText {
  import opened Wrappers
  import opened PyText

  datatype Markers = Markers(begin: string, end: string)

  const GAP := "\n\n"

  ghost predicate Occurs(s: string, sub: string) { exists i :: At(s, sub, i) }

  predicate MarkerOk(s: string) {
    s != "" && !IsSpace(s[0]) && !IsSpace(s[|s| - 1]) && '\n' !in s
  }

  predicate MarkersOk(m: Markers) { MarkerOk(m.begin) && MarkerOk(m.end) }

  function Core(m: Markers, middle: string): string { m.begin + middle + m.end }

  function Section(m: Markers, middle: string): string { Core(m, middle) + "\n" }

  /** Each marker occurs once in the section. */
  ghost predicate SectionOk(m: Markers, middle: string) {
    && MarkersOk(m)
    && (forall i :: At(Section(m, middle), m.begin, i) ==> i == 0)
    && (forall i :: At(Section(m, middle), m.end, i) ==> i == |m.begin| + |middle|)
  }

  /** k copies of the section, each after a blank line. */
  function Copies(core: string, k: nat): string {
    if k == 0 then "" else GAP + core + Copies(core, k - 1)
  }

  // ---- whitespace at the seams ------------------------------------------------

  predicate Blank(s: string) { forall i :: 0 <= i < |s| ==> IsSpace(s[i]) }

  lemma {:induction false} StripRightBlank(s: string, w: string)
    requires Blank(w)
    ensures StripRight(s + w) == StripRight(s)
  {
    if w == "" {
      assert s + w == s;
    } else {
      assert (s + w)[..|s + w| - 1] == s + w[..|w| - 1];
      StripRightBlank(s, w[..|w| - 1]);
    }
  }

  /** Text that ends in ink ends there for good. */
  lemma {:induction false} StripRightInk(s: string, t: string)
    requires StripRight(t) != ""
    ensures StripRight(s + t) == s + StripRight(t)
  {
    assert (s + t)[|s + t| - 1] == t[|t| - 1];
    if IsSpace(t[|t| - 1]) {
      assert (s + t)[..|s + t| - 1] == s + t[..|t| - 1];
      StripRightInk(s, t[..|t| - 1]);
    }
  }

  lemma {:induction false} StripLeftBlank(w: string, s: string)
    requires Blank(w)
    ensures StripLeft(w + s) == StripLeft(s)
  {
    if w == "" {
      assert w + s == s;
    } else {
      assert (w + s)[1..] == w[1..] + s;
      StripLeftBlank(w[1..], s);
    }
  }

  lemma {:induction false} StripLeftInk(s: string, t: string)
    requires StripLeft(s) != ""
    ensures StripLeft(s + t) == StripLeft(s) + t
  {
    if IsSpace(s[0]) {
      assert (s + t)[1..] == s[1..] + t;
      StripLeftInk(s[1..], t);
    }
  }

  lemma StripsAgree(s: string)
    ensures StripLeft(s) == "" <==> Blank(s)
    ensures StripRight(s) == "" <==> Blank(s)
  {
    StripLeftFacts(s);
    StripRightFacts(s);
  }

  lemma StripRightTwice(s: string)
    ensures StripRight(StripRight(s)) == StripRight(s)
  {
    StripRightFacts(s);
  }

  lemma SeamsAreStripped(before: string, after: string)
    ensures StripRight(StripRight(before) + GAP + StripLeft(after)) ==
      StripRight(before) + if Blank(after) then "" else GAP + Strip(after)
  {
    var head := StripRight(before);
    StripsAgree(after);
    if Blank(after) {
      assert head + GAP + "" == head + GAP && head + "" == head;
      StripRightBlank(head, GAP);
      StripRightTwice(before);
    } else {
      InkIsKept(head, after);
    }
  }

  lemma InkIsKept(head: string, after: string)
    requires !Blank(after)
    ensures StripRight(head + GAP + StripLeft(after)) == head + (GAP + Strip(after))
  {
    var tail := StripLeft(after);
    StripsAgree(after);
    StripsAgree(tail);
    StripLeftFacts(after);
    StripRightInk(head + GAP, tail);
    assert head + GAP + Strip(after) == head + (GAP + Strip(after));
  }

  lemma LineEndIsStripped(before: string)
    ensures StripRight(StripRight(before) + GAP + StripLeft("\n")) == StripRight(before)
  {
    SeamsAreStripped(before, "\n");
    assert Blank("\n");
  }

  lemma InkIsTrim(inner: string)
    requires inner != "" && !IsSpace(inner[0]) && !IsSpace(inner[|inner| - 1])
    ensures Strip(GAP + (inner + "\n")) == inner
  {
    StripLeftBlank(GAP, inner + "\n");
    assert (inner + "\n")[0] == inner[0];
    StripRightBlank(inner, "\n");
  }

  lemma TailLead(after: string, core: string)
    requires core != "" && !IsSpace(core[0])
    ensures StripLeft(after + GAP + (core + "\n"))
      == (if Blank(after) then core else StripLeft(after) + GAP + core) + "\n"
  {
    if Blank(after) {
      StripLeftBlank(after + GAP, core + "\n");
    } else {
      InkLeads(after, core + "\n");
      assert StripLeft(after) + GAP + (core + "\n") == StripLeft(after) + GAP + core + "\n";
    }
  }

  lemma InkLeads(after: string, rest: string)
    requires !Blank(after)
    ensures StripLeft(after + GAP + rest) == StripLeft(after) + GAP + rest
  {
    StripsAgree(after);
    StripLeftInk(after, GAP + rest);
    assert after + GAP + rest == after + (GAP + rest);
    assert StripLeft(after) + (GAP + rest) == StripLeft(after) + GAP + rest;
  }

  lemma TailEnd(head: string, tail: string)
    requires tail != "" && !IsSpace(tail[|tail| - 1])
    ensures StripRight(head + GAP + (tail + "\n")) == head + (GAP + tail)
  {
    var text := head + (GAP + tail);
    assert head + GAP + (tail + "\n") == text + "\n";
    StripRightBlank(text, "\n");
    assert text[|text| - 1] == tail[|tail| - 1];
  }

  /** Leading whitespace is determined: two texts that start with ink behind it agree on both parts. */
  lemma LeadIsUnique(w: string, x: string, v: string, y: string)
    requires Blank(w) && Blank(v) && x != "" && y != "" && !IsSpace(x[0]) && !IsSpace(y[0]) && w + x == v + y
    ensures w == v && x == y
  {
    StripLeftBlank(w, x);
    StripLeftBlank(v, y);
    assert |w| == |v|;
    assert w == (w + x)[..|w|] && v == (v + y)[..|v|];
  }

  // ---- occurrences ------------------------------------------------------------

  /** A marker never reaches across a blank line. */
  lemma OnOneSide(left: string, right: string, marker: string, i: int)
    requires MarkerOk(marker) && At(left + GAP + right, marker, i)
    ensures At(left, marker, i) || (i >= |left| + 2 && At(right, marker, i - |left| - 2))
  {
    var all := left + GAP + right;
    NoLineEndInside(all, marker, i, |left|);
    NoLineEndInside(all, marker, i, |left| + 1);
    if i + |marker| <= |left| {
      assert all[i..i + |marker|] == left[i..i + |marker|];
    } else {
      assert all[i..i + |marker|] == right[i - |left| - 2..i - |left| - 2 + |marker|];
    }
  }

  lemma NoLineEndInside(s: string, marker: string, i: int, p: nat)
    requires MarkerOk(marker) && At(s, marker, i) && p < |s| && s[p] == '\n'
    ensures p < i || i + |marker| <= p
  {
    assert forall q :: i <= q < i + |marker| ==> s[q] == marker[q - i];
  }

  lemma AtRight(left: string, right: string, marker: string, i: nat)
    requires At(right, marker, i)
    ensures At(left + right, marker, |left| + i)
  {
    assert (left + right)[|left| + i..|left| + i + |marker|] == right[i..i + |marker|];
  }

  lemma AtLeft(left: string, right: string, marker: string, i: nat)
    requires At(left, marker, i)
    ensures At(left + right, marker, i)
  {
    assert (left + right)[i..i + |marker|] == left[i..i + |marker|];
  }

  /** The first marker is right behind text that has none and a blank line. */
  lemma FirstBehind(plain: string, right: string, marker: string)
    requires MarkerOk(marker) && !Occurs(plain, marker) && At(right, marker, 0)
    ensures Find(plain + GAP + right, marker) == Some(|plain| + 2)
  {
    AtRight(plain + GAP, right, marker, 0);
    forall i | 0 <= i < |plain| + 2 ensures !At(plain + GAP + right, marker, i) {
      if At(plain + GAP + right, marker, i) { OnOneSide(plain, right, marker, i); }
    }
    FindIs(plain + GAP + right, marker, |plain| + 2);
  }

  /** A marker that is first in the prose is first in the updated document. */
  lemma FirstStays(left: string, right: string, marker: string)
    requires MarkerOk(marker) && Find(left, marker).Some?
    ensures Find(left + GAP + right, marker) == Find(left, marker)
  {
    var at := Find(left, marker).value;
    FindFacts(left, marker);
    assert left + GAP + right == left + (GAP + right);
    AtLeft(left, GAP + right, marker, at);
    forall i | 0 <= i < at ensures !At(left + GAP + right, marker, i) {
      if At(left + GAP + right, marker, i) { OnOneSide(left, right, marker, i); }
    }
    FindIs(left + GAP + right, marker, at);
  }

  /** In text that goes on with a whole section, the end marker is found where the section has it. */
  lemma EndOfCore(m: Markers, middle: string, rest: string)
    requires SectionOk(m, middle)
    ensures Find(middle + (m.end + rest), m.end) == Some(|middle|)
  {
    var text, section := middle + (m.end + rest), Section(m, middle);
    assert text[|middle|..|middle| + |m.end|] == m.end;
    forall i | 0 <= i < |middle| ensures !At(text, m.end, i) {
      if At(text, m.end, i) {
        assert section[|m.begin| + i..|m.begin| + i + |m.end|] == text[i..i + |m.end|];
        assert At(section, m.end, |m.begin| + i);
      }
    }
    FindIs(text, m.end, |middle|);
  }

  /** A marker that only the section has is found where the section has it. */
  lemma OnlyInSection(m: Markers, middle: string, left: string)
    requires SectionOk(m, middle) && Find(left, m.end).None?
    ensures var inside := left + GAP + (m.begin + middle); Find(inside + (m.end + "\n"), m.end) == Some(|inside|)
  {
    var inside := left + GAP + (m.begin + middle);
    var text := inside + (m.end + "\n");
    FindFacts(left, m.end);
    assert text == left + GAP + Section(m, middle);
    assert text[|inside|..|inside| + |m.end|] == m.end;
    forall i | 0 <= i < |inside| ensures !At(text, m.end, i) {
      if At(text, m.end, i) { OnOneSide(left, Section(m, middle), m.end, i); }
    }
    FindIs(text, m.end, |inside|);
  }

  lemma Pieces(s: string, sub: string)
    requires Find(s, sub).Some?
    ensures var i := Find(s, sub).value; At(s, sub, i) && s == s[..i] + sub + s[i + |sub|..]
  {
    FindFacts(s, sub);
  }

  lemma Cut(a: string, b: string, c: string)
    ensures (a + (b + c))[..|a|] == a && (a + (b + c))[|a| + |b|..] == c
  {
  }

  lemma NoneBefore(part: string, rest: string, marker: string)
    requires marker != "" && Find(part + rest, marker) == Some(|part|)
    ensures !Occurs(part, marker)
  {
    FindFacts(part + rest, marker);
    forall i ensures !At(part, marker, i) {
      if At(part, marker, i) { AtLeft(part, rest, marker, i); }
    }
  }

  lemma StripRightHasNone(s: string, marker: string)
    requires !Occurs(s, marker)
    ensures !Occurs(StripRight(s), marker)
  {
    var part := StripRight(s);
    StripRightFacts(s);
    assert s == part + s[|part|..];
    forall i ensures !At(part, marker, i) {
      if At(part, marker, i) { AtLeft(part, s[|part|..], marker, i); }
    }
  }

  lemma StripLeftHasNone(s: string, marker: string)
    requires !Occurs(s, marker)
    ensures !Occurs(StripLeft(s), marker)
  {
    var part := StripLeft(s);
    StripLeftFacts(s);
    assert s == s[..|s| - |part|] + part;
    forall i ensures !At(part, marker, i) {
      if At(part, marker, i) { AtRight(s[..|s| - |part|], part, marker, i); }
    }
  }

  lemma SeamHasNone(before: string, after: string, marker: string)
    requires MarkerOk(marker) && !Occurs(before, marker) && !Occurs(after, marker)
    ensures !Occurs(StripRight(before) + GAP + StripLeft(after), marker)
  {
    var head, tail := StripRight(before), StripLeft(after);
    StripRightHasNone(before, marker);
    StripLeftHasNone(after, marker);
    forall i ensures !At(head + GAP + tail, marker, i) {
      if At(head + GAP + tail, marker, i) { OnOneSide(head, tail, marker, i); }
    }
  }

  lemma OnlyOne(doc: string, marker: string, at: nat, later: nat)
    requires marker != "" && At(doc, marker, at) && at + |marker| <= later <= |doc|
    requires forall i :: At(doc, marker, i) ==> i == at
    ensures !Occurs(doc[..at], marker) && !Occurs(doc[later..], marker)
  {
    assert doc == doc[..at] + doc[at..] == doc[..later] + doc[later..];
    forall i ensures !At(doc[..at], marker, i) {
      if At(doc[..at], marker, i) { AtLeft(doc[..at], doc[at..], marker, i); }
    }
    forall i ensures !At(doc[later..], marker, i) {
      if At(doc[later..], marker, i) { AtRight(doc[..later], doc[later..], marker, i); }
    }
  }

  lemma CutHasNone(doc: string, marker: string, at: nat, later: nat)
    requires MarkerOk(marker) && At(doc, marker, at) && at + |marker| <= later <= |doc|
    requires forall i :: At(doc, marker, i) ==> i == at
    ensures !Occurs(StripRight(doc[..at]) + GAP + StripLeft(doc[later..]), marker)
  {
    OnlyOne(doc, marker, at, later);
    SeamHasNone(doc[..at], doc[later..], marker);
  }

  // ---- copies of a section ----------------------------------------------------

  lemma CopiesShift(core: string, k: nat)
    ensures GAP + core + Copies(core, k) == Copies(core, k) + GAP + core
  {
    if k > 0 {
      CopiesShift(core, k - 1);
      assert Copies(core, k) + GAP + core == GAP + core + (Copies(core, k - 1) + GAP + core);
      assert GAP + core + Copies(core, k) == GAP + core + (GAP + core + Copies(core, k - 1));
    }
  }

  lemma CopiesAreTrim(m: Markers, middle: string, k: nat)
    requires SectionOk(m, middle) && k > 0
    ensures GAP + Strip(Copies(Core(m, middle), k) + "\n") == Copies(Core(m, middle), k)
  {
    var core, copies := Core(m, middle), Copies(Core(m, middle), k);
    var inner := core + Copies(core, k - 1);
    assert copies + "\n" == GAP + (inner + "\n") && copies == GAP + inner;
    CopiesShift(core, k - 1);
    assert copies[|copies| - 1] == core[|core| - 1] == m.end[|m.end| - 1];
    assert inner[|inner| - 1] == copies[|copies| - 1];
    assert inner[0] == core[0] == m.begin[0];
    InkIsTrim(inner);
  }

  lemma OneBehind(core: string, e: string, n: nat)
    requires GAP + e == Copies(core, n)
    ensures GAP + (e + GAP + core) == Copies(core, n + 1)
  {
    CopiesShift(core, n);
    assert GAP + (e + GAP + core) == GAP + e + GAP + core;
  }

  lemma CoreIsInjective(m: Markers, a: string, b: string)
    ensures Core(m, a) == Core(m, b) <==> a == b
  {
    var x, y := Core(m, a), Core(m, b);
    assert x[|m.begin|..|x| - |m.end|] == a && y[|m.begin|..|y| - |m.end|] == b;
  }

  lemma CoreStands(m: Markers, middle: string)
    requires MarkersOk(m)
    ensures !Blank(GAP + Core(m, middle)) && "" + (GAP + Strip(GAP + Core(m, middle))) == GAP + Core(m, middle)
  {
    var core := Core(m, middle);
    assert (GAP + core)[2] == core[0] == m.begin[0];
    StripLeftBlank(GAP, core);
    assert core[|core| - 1] == m.end[|m.end| - 1];
  }

  lemma Cancel(plain: string, w: string, a: string, b: string, rest: string)
    requires plain + w + a + b == plain + rest
    ensures w + (a + b) == rest
  {
    assert plain + w + a + b == plain + (w + (a + b));
    assert (plain + (w + (a + b)))[|plain|..] == w + (a + b) && (plain + rest)[|plain|..] == rest;
  }

  /** A text that a shift by one copy maps to itself consists of copies. */
  lemma {:induction false} ShiftedCopies(m: Markers, middle: string, head: string, e: string)
    returns (k: nat)
    requires SectionOk(m, middle) && e != ""
    requires |head| == |Core(m, middle)| + 2 && At(head, m.begin, 0)
    requires head + e == e + GAP + Core(m, middle)
    ensures k > 0 && GAP + e == Copies(Core(m, middle), k) && head == Core(m, middle) + GAP
    decreases |e|
  {
    var core := Core(m, middle);
    StartsAlike(head, e, m.begin, GAP + core);
    if |e| >= |head| {
      var rest := e[|head|..];
      ShiftOnce(head, e, core);
      var n := ShiftedCopies(m, middle, head, rest);
      k := n + 1;
    } else {
      ShiftLast(head, e, core);
      LastCopy(m, middle, e, head[|e|..]);
      k := 1;
      assert Copies(core, 1) == GAP + core + Copies(core, 0);
    }
  }

  lemma StartsAlike(head: string, e: string, marker: string, tail: string)
    requires MarkerOk(marker) && At(head, marker, 0) && e != "" && head + e == e + tail
    ensures e[0] == head[0] == marker[0] && !IsSpace(e[0])
  {
    assert head[..|marker|][0] == marker[0];
    assert (head + e)[0] == head[0] && (e + tail)[0] == e[0];
  }

  lemma ShiftOnce(head: string, e: string, core: string)
    requires |head| == |core| + 2 && |e| >= |head| && head + e == e + GAP + core && !IsSpace(head[0])
    ensures var rest := e[|head|..]; e == head + rest && head + rest == rest + GAP + core && rest != ""
  {
    var rest, whole := e[|head|..], head + e;
    assert whole[..|head|] == head && (e + GAP + core)[..|head|] == e[..|head|];
    assert e == head + rest;
    assert whole[|head|..] == e && (e + GAP + core)[|head|..] == rest + GAP + core;
    assert (rest + GAP + core)[|rest|] == '\n' && (head + rest)[0] == head[0];
  }

  lemma ShiftLast(head: string, e: string, core: string)
    requires |head| == |core| + 2 && |e| < |head| && head + e == e + GAP + core
    ensures var gap := head[|e|..]; head == e + gap && gap + e == GAP + core && gap != ""
  {
    var gap, whole := head[|e|..], head + e;
    assert whole[..|e|] == head[..|e|] && (e + GAP + core)[..|e|] == e;
    assert head == e + gap;
    assert whole[|e|..] == gap + e && (e + GAP + core)[|e|..] == GAP + core;
  }

  lemma LastCopy(m: Markers, middle: string, e: string, gap: string)
    requires SectionOk(m, middle) && e != "" && gap != "" && !IsSpace(e[0]) && At(e + gap, m.begin, 0)
    requires gap + e == GAP + Core(m, middle)
    ensures e == Core(m, middle) && gap == GAP
  {
    var core := Core(m, middle);
    assert (gap + e)[1] == '\n';
    assert |gap| >= 2;
    var q := gap[2..];
    assert gap == GAP + q by { assert (gap + e)[..2] == GAP; }
    assert core == q + e by { assert (GAP + q + e)[2..] == q + e; }
    assert |e| >= |m.begin| by {
      assert (e + gap)[|e|] == '\n';
      assert forall p :: 0 <= p < |m.begin| ==> (e + gap)[p] == m.begin[p];
    }
    assert e[..|m.begin|] == m.begin by { assert (e + gap)[..|m.begin|] == e[..|m.begin|]; }
    AtRight(q, e, m.begin, 0);
    AtLeft(core, "\n", m.begin, |q|);
  }
}
