/** Index sections. */
module IndexSync {
  import opened Wrappers
  import opened PyText
  import opened MarkedText

  datatype SyncError = MissingEnd

  // ---- the rewriter -----------------------------------------------------------

  /** The document without its first generated section. */
  function Residue(m: Markers, doc: string): Result<string, SyncError> {
    var begin := Find(doc, m.begin);
    if begin.None? then Ok(doc)
    else
      var remainder := doc[begin.value + |m.begin|..];
      var end := Find(remainder, m.end);
      if end.None? then Err(MissingEnd)
      else Ok(StripRight(doc[..begin.value]) + GAP + StripLeft(remainder[end.value + |m.end|..]))
  }

  /** `_updated_index`, for a given generated section. */
  function Updated(m: Markers, doc: string, section: string): Result<string, SyncError> {
    var residue :- Residue(m, doc);
    Ok(StripRight(residue) + GAP + section)
  }

  // ---- the sections considered ------------------------------------------------

  /** Prose without markers and trailing whitespace, then nothing but copies of the current section. */
  ghost predicate Stacked(m: Markers, middle: string, prose: string, plain: string, k: nat) {
    prose == plain + Copies(Core(m, middle), k) && !Occurs(plain, m.begin) && StripRight(plain) == plain
  }

  // ---- one pass over a document -----------------------------------------------

  /** The document consists of these parts around its first generated section. */
  predicate Parts(m: Markers, doc: string, before: string, inside: string, after: string) {
    && doc == before + (m.begin + (inside + (m.end + after)))
    && Find(doc, m.begin) == Some(|before|)
    && Find(inside + (m.end + after), m.end) == Some(|inside|)
  }

  lemma ResidueIs(m: Markers, doc: string, before: string, inside: string, after: string)
    requires Parts(m, doc, before, inside, after)
    ensures Residue(m, doc) == Ok(StripRight(before) + GAP + StripLeft(after))
  {
    Cut(before, m.begin, inside + (m.end + after));
    Cut(inside, m.end, after);
    ResidueFrom(m, doc, before, inside + (m.end + after), |inside|, after);
  }

  lemma ResidueFrom(m: Markers, doc: string, before: string, remainder: string, at: nat, after: string)
    requires Find(doc, m.begin) == Some(|before|) && Find(remainder, m.end) == Some(at)
    requires doc[..|before|] == before && doc[|before| + |m.begin|..] == remainder && remainder[at + |m.end|..] == after
    ensures Residue(m, doc) == Ok(StripRight(before) + GAP + StripLeft(after))
  {
  }

  /** Everything up to the first section, and everything behind it, survives up to whitespace at the seams. */
  lemma ProseIsKept(m: Markers, doc: string, before: string, inside: string, after: string, section: string)
    requires Parts(m, doc, before, inside, after)
    ensures Updated(m, doc, section) ==
      Ok(StripRight(before) + (if Blank(after) then "" else GAP + Strip(after)) + GAP + section)
  {
    ResidueIs(m, doc, before, inside, after);
    SeamsAreStripped(before, after);
  }

  /** A document without a begin marker is kept as a whole, and the section goes behind it. */
  lemma NoSectionIsAppended(m: Markers, doc: string, section: string)
    requires !Occurs(doc, m.begin)
    ensures Updated(m, doc, section) == Ok(StripRight(doc) + GAP + section)
  {
    FindNothing(doc, m.begin);
  }

  /** The prose that one pass leaves in front of the section. */
  function Prose(m: Markers, doc: string): string
    requires Residue(m, doc).Ok?
  {
    StripRight(Residue(m, doc).value)
  }

  /** A pass is refused exactly when the first begin marker has no end marker behind it. */
  lemma RefusedExactlyWhen(m: Markers, doc: string, section: string)
    ensures Updated(m, doc, section).Err? <==>
      exists i :: At(doc, m.begin, i) && (forall k :: 0 <= k < i ==> !At(doc, m.begin, k))
        && !Occurs(doc[i + |m.begin|..], m.end)
  {
    FindFacts(doc, m.begin);
    var begin := Find(doc, m.begin);
    if begin.Some? {
      FindFacts(doc[begin.value + |m.begin|..], m.end);
      forall i | At(doc, m.begin, i) && forall k :: 0 <= k < i ==> !At(doc, m.begin, k) ensures i == begin.value {
        assert At(doc, m.begin, begin.value);
      }
    }
  }

  // ---- the second pass --------------------------------------------------------

  /** What the second pass leaves in front of the section. */
  function Again(m: Markers, middle: string, prose: string): Result<string, SyncError> {
    var residue :- Residue(m, prose + GAP + Section(m, middle));
    Ok(StripRight(residue))
  }

  /** On stacked prose the second pass drops the first copy, and the section takes its place at the end. */
  lemma StackedIsKept(m: Markers, middle: string, plain: string, k: nat)
    requires SectionOk(m, middle) && Stacked(m, middle, plain + Copies(Core(m, middle), k), plain, k)
    ensures Again(m, middle, plain + Copies(Core(m, middle), k)) == Ok(plain + Copies(Core(m, middle), k))
  {
    var copies := Copies(Core(m, middle), k);
    StackedParts(m, middle, plain, k);
    ResidueIs(m, plain + copies + GAP + Section(m, middle), plain + GAP, middle, copies + "\n");
    StripRightBlank(plain, GAP);
    StripRightSame(m, middle, plain, k);
  }

  lemma StackedParts(m: Markers, middle: string, plain: string, k: nat)
    requires SectionOk(m, middle) && !Occurs(plain, m.begin)
    ensures var copies := Copies(Core(m, middle), k);
      Parts(m, plain + copies + GAP + Section(m, middle), plain + GAP, middle, copies + "\n")
  {
    var rest := Copies(Core(m, middle), k) + "\n";
    var behind := m.begin + (middle + (m.end + rest));
    SectionIsFirst(m, middle, plain, k);
    assert At(behind, m.begin, 0);
    FirstBehind(plain, behind, m.begin);
    EndOfCore(m, middle, rest);
  }

  lemma SectionIsFirst(m: Markers, middle: string, plain: string, k: nat)
    ensures var copies := Copies(Core(m, middle), k);
      plain + copies + GAP + Section(m, middle) == plain + GAP + (m.begin + (middle + (m.end + (copies + "\n"))))
  {
    var core, copies := Core(m, middle), Copies(Core(m, middle), k);
    CopiesShift(core, k);
    assert plain + copies + GAP + Section(m, middle) == plain + (copies + GAP + core) + "\n";
    assert plain + (GAP + core + copies) + "\n" == plain + GAP + (core + (copies + "\n"));
    assert core + (copies + "\n") == m.begin + (middle + (m.end + (copies + "\n")));
  }

  lemma StripRightSame(m: Markers, middle: string, plain: string, k: nat)
    requires SectionOk(m, middle) && StripRight(plain) == plain
    ensures var copies := Copies(Core(m, middle), k);
      StripRight(plain + GAP + StripLeft(copies + "\n")) == plain + copies
  {
    var core, copies := Core(m, middle), Copies(Core(m, middle), k);
    SeamsAreStripped(plain, copies + "\n");
    if k == 0 {
      assert Blank(copies + "\n");
      assert plain + "" == plain + copies;
    } else {
      assert (copies + "\n")[2] == core[0];
      assert !Blank(copies + "\n");
      CopiesAreTrim(m, middle, k);
      assert plain + (GAP + Strip(copies + "\n")) == plain + copies;
    }
  }

  lemma ClosedSplits(before: string, begin: string, inside: string, end: string, after: string, section: string)
    ensures before + begin + (inside + end + after) + GAP + section
      == before + (begin + (inside + (end + (after + GAP + section))))
    ensures inside + end + after + GAP + section == inside + (end + (after + GAP + section))
    ensures before + begin + (inside + end + after) + GAP + section
      == before + (begin + (inside + end + after + GAP + section))
  {
  }

  lemma OpenParts(m: Markers, middle: string, before: string, left: string)
    requires SectionOk(m, middle) && Find(before + m.begin + left, m.begin) == Some(|before|) && Find(left, m.end).None?
    ensures Parts(m, before + m.begin + left + GAP + Section(m, middle), before, left + GAP + (m.begin + middle), "\n")
  {
    FirstStays(before + m.begin + left, Section(m, middle), m.begin);
    OnlyInSection(m, middle, left);
  }

  /** An open section in the prose swallows the new one: the second pass leaves less. */
  lemma OpenIsLost(m: Markers, middle: string, before: string, left: string)
    requires SectionOk(m, middle) && Find(before + m.begin + left, m.begin) == Some(|before|) && Find(left, m.end).None?
    ensures Again(m, middle, before + m.begin + left) == Ok(StripRight(before))
  {
    OpenParts(m, middle, before, left);
    ResidueIs(m, before + m.begin + left + GAP + Section(m, middle), before, left + GAP + (m.begin + middle), "\n");
    LineEndIsStripped(before);
  }

  lemma ClosedParts(m: Markers, middle: string, before: string, inside: string, after: string)
    requires SectionOk(m, middle)
    requires Find(before + m.begin + (inside + m.end + after), m.begin) == Some(|before|)
    requires Find(inside + m.end + after, m.end) == Some(|inside|)
    ensures Parts(m, before + m.begin + (inside + m.end + after) + GAP + Section(m, middle), before, inside,
                  after + GAP + Section(m, middle))
  {
    FirstStays(before + m.begin + (inside + m.end + after), Section(m, middle), m.begin);
    FirstStays(inside + m.end + after, Section(m, middle), m.end);
    ClosedSplits(before, m.begin, inside, m.end, after, Section(m, middle));
  }

  /** A closed section in the prose goes, the rest of the prose moves up, the new section stays behind it. */
  lemma ClosedMovesUp(m: Markers, middle: string, before: string, inside: string, after: string)
    requires SectionOk(m, middle)
    requires Find(before + m.begin + (inside + m.end + after), m.begin) == Some(|before|)
    requires Find(inside + m.end + after, m.end) == Some(|inside|)
    ensures Again(m, middle, before + m.begin + (inside + m.end + after))
      == Ok(StripRight(before) + (GAP + Tail(m, middle, after)))
  {
    ClosedParts(m, middle, before, inside, after);
    ResidueIs(m, before + m.begin + (inside + m.end + after) + GAP + Section(m, middle), before, inside,
              after + GAP + Section(m, middle));
    TailTrim(m, middle, before, after);
  }

  /** What follows the removed section and its blank line once the new section is in place. */
  function Tail(m: Markers, middle: string, after: string): string {
    if Blank(after) then Core(m, middle) else StripLeft(after) + GAP + Core(m, middle)
  }

  lemma TailTrim(m: Markers, middle: string, before: string, after: string)
    requires MarkersOk(m)
    ensures StripRight(StripRight(before) + GAP + StripLeft(after + GAP + Section(m, middle))) ==
      StripRight(before) + (GAP + Tail(m, middle, after))
  {
    TailLead(after, Core(m, middle));
    assert Core(m, middle)[0] == m.begin[0];
    TailEnd(StripRight(before), Tail(m, middle, after)) by {
      var core, tail := Core(m, middle), Tail(m, middle, after);
      assert tail[|tail| - 1] == core[|core| - 1] == m.end[|m.end| - 1];
    }
  }

  // ---- when updating twice is updating once -----------------------------------

  datatype Shape =
    | Plain
    | Opened(before: string, left: string)
    | Closed(before: string, inside: string, after: string)

  function ProseOf(m: Markers, shape: Shape, prose: string): string {
    match shape
    case Plain => prose
    case Opened(before, left) => before + m.begin + left
    case Closed(before, inside, after) => before + m.begin + (inside + m.end + after)
  }

  /** Prose has no section, one that is never closed, or a first one. */
  ghost predicate HasShape(m: Markers, prose: string, shape: Shape) {
    prose == ProseOf(m, shape, prose) &&
    match shape
    case Plain => !Occurs(prose, m.begin)
    case Opened(before, left) =>
      Find(before + m.begin + left, m.begin) == Some(|before|) && Find(left, m.end).None?
    case Closed(before, inside, after) =>
      Find(before + m.begin + (inside + m.end + after), m.begin) == Some(|before|)
        && Find(inside + m.end + after, m.end) == Some(|inside|)
  }

  lemma ShapeOf(m: Markers, prose: string) returns (shape: Shape)
    requires MarkersOk(m)
    ensures HasShape(m, prose, shape)
  {
    FindFacts(prose, m.begin);
    var begin := Find(prose, m.begin);
    if begin.None? { return Plain; }
    var before, left := prose[..begin.value], prose[begin.value + |m.begin|..];
    Pieces(prose, m.begin);
    var end := Find(left, m.end);
    if end.None? { return Opened(before, left); }
    Pieces(left, m.end);
    shape := Closed(before, left[..end.value], left[end.value + |m.end|..]);
  }

  /** The second pass is never refused. */
  lemma SecondPassSucceeds(m: Markers, middle: string, prose: string)
    requires SectionOk(m, middle)
    ensures Again(m, middle, prose).Ok?
    ensures StripRight(prose) == prose && !Occurs(prose, m.begin) ==> Again(m, middle, prose) == Ok(prose)
  {
    var shape := ShapeOf(m, prose);
    match shape {
      case Plain => PlainParts(m, middle, prose);
      case Opened(before, left) => OpenIsLost(m, middle, before, left);
      case Closed(before, inside, after) => ClosedMovesUp(m, middle, before, inside, after);
    }
    if StripRight(prose) == prose && !Occurs(prose, m.begin) {
      assert prose + Copies(Core(m, middle), 0) == prose;
      StackedIsKept(m, middle, prose, 0);
    }
  }

  lemma PlainParts(m: Markers, middle: string, prose: string)
    requires SectionOk(m, middle) && !Occurs(prose, m.begin)
    ensures Again(m, middle, prose).Ok?
  {
    StackedParts(m, middle, prose, 0);
    assert prose + Copies(Core(m, middle), 0) == prose && Copies(Core(m, middle), 0) + "\n" == "\n";
    ResidueIs(m, prose + GAP + Section(m, middle), prose + GAP, middle, "\n");
  }

  /** Prose that the second pass leaves alone is stacked. */
  lemma FixedIsStacked(m: Markers, middle: string, prose: string) returns (plain: string, k: nat)
    requires SectionOk(m, middle) && StripRight(prose) == prose && Again(m, middle, prose) == Ok(prose)
    ensures Stacked(m, middle, prose, plain, k)
  {
    var shape := ShapeOf(m, prose);
    match shape {
      case Plain =>
        plain, k := prose, 0;
        assert prose + Copies(Core(m, middle), 0) == prose;
      case Opened(before, left) =>
        StripRightFacts(before);
        assert |StripRight(before)| < |prose|;
        OpenIsLost(m, middle, before, left);
      case Closed(before, inside, after) =>
        k := ClosedFixed(m, middle, before, inside, after);
        plain := StripRight(before);
    }
  }

  lemma ClosedFixed(m: Markers, middle: string, before: string, inside: string, after: string) returns (k: nat)
    requires SectionOk(m, middle)
    requires Find(before + m.begin + (inside + m.end + after), m.begin) == Some(|before|)
    requires Find(inside + m.end + after, m.end) == Some(|inside|)
    requires var prose := before + m.begin + (inside + m.end + after); Again(m, middle, prose) == Ok(prose)
    ensures Stacked(m, middle, before + m.begin + (inside + m.end + after), StripRight(before), k)
  {
    ClosedMovesUp(m, middle, before, inside, after);
    k := CopiesFrom(m, middle, before, inside, after);
    assert before + m.begin + (inside + m.end + after) == before + (m.begin + (inside + m.end + after));
    PlainHasNone(m, before, m.begin + (inside + m.end + after));
  }

  /** The removed section and what followed it equal what is there instead. */
  lemma SameTail(m: Markers, middle: string, before: string, inside: string, after: string)
    requires MarkersOk(m)
    requires before + m.begin + (inside + m.end + after) == StripRight(before) + (GAP + Tail(m, middle, after))
    ensures m.begin + inside + m.end + after == Tail(m, middle, after)
  {
    var plain, x, tail := StripRight(before), m.begin + inside + m.end + after, Tail(m, middle, after);
    StripRightFacts(before);
    var w := before[|plain|..];
    Cancel(plain, w, m.begin, inside + m.end + after, GAP + tail) by { assert before == plain + w; }
    assert m.begin + (inside + m.end + after) == x;
    TailStartsWithInk(m, middle, after);
    assert x[0] == m.begin[0];
    LeadIsUnique(w, x, GAP, tail);
  }

  lemma TailStartsWithInk(m: Markers, middle: string, after: string)
    requires MarkersOk(m)
    ensures Tail(m, middle, after) != "" && !IsSpace(Tail(m, middle, after)[0])
  {
    StripLeftFacts(after);
    StripsAgree(after);
    assert Core(m, middle)[0] == m.begin[0];
  }

  lemma CopiesFrom(m: Markers, middle: string, before: string, inside: string, after: string) returns (k: nat)
    requires SectionOk(m, middle)
    requires before + m.begin + (inside + m.end + after) == StripRight(before) + (GAP + Tail(m, middle, after))
    ensures GAP + Tail(m, middle, after) == Copies(Core(m, middle), k)
  {
    var core := Core(m, middle);
    if Blank(after) {
      k := 1;
      assert Copies(core, 1) == GAP + core + Copies(core, 0);
    } else {
      SameTail(m, middle, before, inside, after);
      k := CopiesInTail(m, middle, m.begin + inside + m.end, after);
    }
  }

  lemma CopiesInTail(m: Markers, middle: string, x: string, after: string) returns (k: nat)
    requires SectionOk(m, middle) && !Blank(after) && At(x, m.begin, 0)
    requires x + after == StripLeft(after) + GAP + Core(m, middle)
    ensures GAP + (StripLeft(after) + GAP + Core(m, middle)) == Copies(Core(m, middle), k)
  {
    var core, e := Core(m, middle), StripLeft(after);
    StripLeftFacts(after);
    StripsAgree(after);
    var w := after[..|after| - |e|];
    assert x + w + e == x + after;
    AtLeft(x, w, m.begin, 0);
    assert |x + w + e| == |e + GAP + core|;
    var n := ShiftedCopies(m, middle, x + w, e);
    k := n + 1;
    OneBehind(core, e, n);
  }

  lemma PlainHasNone(m: Markers, before: string, rest: string)
    requires MarkersOk(m) && Find(before + rest, m.begin) == Some(|before|)
    ensures !Occurs(StripRight(before), m.begin) && StripRight(StripRight(before)) == StripRight(before)
  {
    NoneBefore(before, rest, m.begin);
    StripRightHasNone(before, m.begin);
    StripRightTwice(before);
  }

  /** Updating an updated document always succeeds, and changes nothing exactly when the first pass
      left prose without sections, or nothing behind it but copies of the section itself. */
  lemma IdempotentExactlyWhen(m: Markers, middle: string, doc: string)
    requires SectionOk(m, middle) && Residue(m, doc).Ok?
    ensures var section := Section(m, middle); var once := Updated(m, doc, section).value;
      && Updated(m, once, section).Ok?
      && (Updated(m, once, section).value == once <==> exists plain, k :: Stacked(m, middle, Prose(m, doc), plain, k))
  {
    var prose := Prose(m, doc);
    StripRightTwice(Residue(m, doc).value);
    SecondPassSucceeds(m, middle, prose);
    AgainIsUpdated(m, middle, prose);
    if Again(m, middle, prose).value == prose {
      var plain, k := FixedIsStacked(m, middle, prose);
    }
    if exists plain, k :: Stacked(m, middle, prose, plain, k) {
      var plain, k :| Stacked(m, middle, prose, plain, k);
      StackedIsKept(m, middle, plain, k);
    }
  }

  lemma AgainIsUpdated(m: Markers, middle: string, prose: string)
    requires Again(m, middle, prose).Ok?
    ensures var section := Section(m, middle); var once := prose + GAP + section;
      && Updated(m, once, section) == Ok(Again(m, middle, prose).value + GAP + section)
      && (Updated(m, once, section).value == once <==> Again(m, middle, prose).value == prose)
  {
    var a, tail := Again(m, middle, prose).value, GAP + Section(m, middle);
    assert a + GAP + Section(m, middle) == a + tail && prose + GAP + Section(m, middle) == prose + tail;
    if a + tail == prose + tail {
      assert |a| == |prose|;
      assert (a + tail)[..|a|] == a && (prose + tail)[..|prose|] == prose;
    }
  }

  /** A document with at most one begin marker is settled by one update. */
  lemma OneSectionIsIdempotent(m: Markers, middle: string, doc: string)
    requires SectionOk(m, middle) && Residue(m, doc).Ok?
    requires forall i, j :: At(doc, m.begin, i) && At(doc, m.begin, j) ==> i == j
    ensures var once := Updated(m, doc, Section(m, middle)).value; Updated(m, once, Section(m, middle)) == Ok(once)
  {
    var prose := Prose(m, doc);
    ResidueHasNone(m, doc);
    StripRightTwice(Residue(m, doc).value);
    SecondPassSucceeds(m, middle, prose);
    AgainIsUpdated(m, middle, prose);
  }

  lemma ResidueHasNone(m: Markers, doc: string)
    requires MarkersOk(m) && Residue(m, doc).Ok?
    requires forall i, j :: At(doc, m.begin, i) && At(doc, m.begin, j) ==> i == j
    ensures !Occurs(Prose(m, doc), m.begin)
  {
    FindFacts(doc, m.begin);
    var begin := Find(doc, m.begin);
    if begin.Some? {
      var left := doc[begin.value + |m.begin|..];
      var end := Find(left, m.end).value + |m.end|;
      assert left[end..] == doc[begin.value + |m.begin| + end..];
      CutHasNone(doc, m.begin, begin.value, begin.value + |m.begin| + end);
    }
    StripRightHasNone(Residue(m, doc).value, m.begin);
  }

  /** Two sections in a document: the second survives the first pass and is dropped by the next. */
  lemma TwoSectionsAreNotSettled(m: Markers, middle: string, first: string, second: string)
    requires SectionOk(m, middle) && SectionOk(m, first) && SectionOk(m, second) && second != middle
    ensures var doc, section := Core(m, first) + (GAP + Core(m, second)), Section(m, middle);
      var once := Updated(m, doc, section);
      once == Ok(GAP + Core(m, second) + GAP + section)
        && Updated(m, once.value, section) == Ok(GAP + Core(m, middle) + GAP + section)
    ensures Core(m, second) != Core(m, middle)
  {
    FirstOfTwo(m, middle, first, second);
    SecondOfTwo(m, middle, second);
    AgainIsUpdated(m, middle, GAP + Core(m, second));
    CoreIsInjective(m, second, middle);
  }

  lemma FirstOfTwo(m: Markers, middle: string, first: string, second: string)
    requires SectionOk(m, first) && MarkersOk(m)
    ensures Updated(m, Core(m, first) + (GAP + Core(m, second)), Section(m, middle))
      == Ok(GAP + Core(m, second) + GAP + Section(m, middle))
  {
    var after := GAP + Core(m, second);
    var doc := Core(m, first) + after;
    assert doc == "" + (m.begin + (first + (m.end + after)));
    assert At(doc, m.begin, 0);
    FindIs(doc, m.begin, 0);
    EndOfCore(m, first, after);
    ProseIsKept(m, doc, "", first, after, Section(m, middle));
    CoreStands(m, second);
  }

  lemma SecondOfTwo(m: Markers, middle: string, second: string)
    requires SectionOk(m, middle) && SectionOk(m, second)
    ensures Again(m, middle, GAP + Core(m, second)) == Ok(GAP + Core(m, middle))
  {
    assert GAP + m.begin + (second + m.end + "") == GAP + Core(m, second) == "" + GAP + Core(m, second);
    assert At(Core(m, second), m.begin, 0);
    forall i ensures !At("", m.begin, i) {}
    FirstBehind("", Core(m, second), m.begin);
    assert second + m.end + "" == second + (m.end + "");
    EndOfCore(m, second, "");
    ClosedMovesUp(m, middle, GAP, second, "");
    StripRightBlank("", GAP);
    assert StripRight(GAP) + (GAP + Core(m, middle)) == GAP + Core(m, middle);
  }
}
