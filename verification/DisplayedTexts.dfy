/** What of a summary is displayed, at once or in chunks. */
module DisplayedTexts {
  import opened Wrappers
  import opened PyText
  import opened TextLaws
  import opened AbstractTexts

  // ---- occurrences ------------------------------------------------------------

  /** The text is this, then the tag, then that, and no tag starts sooner. */
  predicate FirstTag(s: string, tag: string, before: string, behind: string) {
    s == before + tag + behind && forall i :: 0 <= i < |before| ==> !At(s, tag, i)
  }

  predicate Lacks(s: string, tag: string) { forall i :: 0 <= i <= |s| ==> !At(s, tag, i) }

  /** The text ends with the first k characters of the tag. */
  predicate EndsWithStart(s: string, tag: string, k: int) {
    0 <= k <= |s| && k <= |tag| && s[|s| - k..] == tag[..k]
  }

  /** The longest ending that a tag could start with has k characters. */
  predicate IsHeld(body: string, tag: string, k: int) {
    k < |tag| && EndsWithStart(body, tag, k)
    && forall longer :: k < longer < |tag| ==> !EndsWithStart(body, tag, longer)
  }

  /** r is the text before its first tag; without one, before the longest ending that a tag could start with. */
  ghost predicate IsBeforeTag(body: string, tag: string, r: string) {
    || (exists behind :: FirstTag(body, tag, r, behind))
    || (Lacks(body, tag) && exists k :: IsHeld(body, tag, k) && r == body[..|body| - k])
  }

  predicate StartsAt(text: string, spaces: string, body: string) {
    text == spaces + body && AllSpace(spaces) && (body != "" ==> !IsSpace(body[0]))
  }

  /** Of a text, the part before `</context_abstract>`, spaces in front left out. */
  ghost predicate Shows(text: string, r: string) {
    exists spaces, body :: StartsAt(text, spaces, body) && IsBeforeTag(body, "</context_abstract>", r)
  }

  ghost predicate DisplaysTagged(raw: string, r: string) {
    exists before, text :: FirstTag(raw, "<context_abstract>", before, text) && Shows(text, r)
  }

  /** Behind the first open tag; without one, all of a text of more than 240 characters and nothing of a shorter. */
  ghost predicate Displays(raw: string, r: string) {
    || DisplaysTagged(raw, r)
    || (Lacks(raw, "<context_abstract>") && if |raw| > 240 then Shows(raw, r) else r == "")
  }

  // ---- the functions say the same ---------------------------------------------

  lemma {:induction false} FindSplits(s: string, tag: string)
    ensures Find(s, tag).None? <==> Lacks(s, tag)
    ensures Find(s, tag).Some? ==>
      FirstTag(s, tag, s[..Find(s, tag).value], s[Find(s, tag).value + |tag|..])
  {
    FindFacts(s, tag);
    if Find(s, tag).Some? {
      var p := Find(s, tag).value;
      assert s == s[..p] + s[p..p + |tag|] + s[p + |tag|..];
    }
  }

  lemma {:induction false} FirstTagIsFound(s: string, tag: string, before: string, behind: string)
    requires FirstTag(s, tag, before, behind)
    ensures Find(s, tag) == Some(|before|)
    ensures before == s[..|before|] && behind == s[|before| + |tag|..]
  {
    assert s[|before|..|before| + |tag|] == tag;
    FindIs(s, tag, |before|);
  }

  lemma {:induction false} HeldExactly(body: string, tag: string, k: nat)
    requires tag != ""
    ensures k == Held(body, tag, Limit(body, tag)) <==> IsHeld(body, tag, k)
  {
    var n := Limit(body, tag);
    var held := Held(body, tag, n);
    HeldIsLongest(body, tag, n, 0);
    forall longer | held < longer < |tag| ensures !EndsWithStart(body, tag, longer) {
      if longer <= n { HeldIsLongest(body, tag, n, longer); }
    }
    assert EndsWithStart(body, tag, held);
  }

  lemma {:induction false} ShownExactly(body: string, tag: string, r: string)
    requires tag != ""
    ensures Shown(body, tag) == r <==> IsBeforeTag(body, tag, r)
  {
    FindSplits(body, tag);
    if behind :| FirstTag(body, tag, r, behind) { FirstTagIsFound(body, tag, r, behind); }
    HeldExactly(body, tag, Held(body, tag, Limit(body, tag)));
    if Lacks(body, tag) {
      if k :| IsHeld(body, tag, k) && r == body[..|body| - k] { HeldExactly(body, tag, k); }
    }
  }

  lemma {:induction false} StartIsStripped(text: string, spaces: string, body: string)
    ensures StartsAt(text, spaces, body) ==> body == StripLeft(text)
    decreases |spaces|
  {
    if StartsAt(text, spaces, body) && spaces != "" {
      assert text[1..] == spaces[1..] + body;
      StartIsStripped(text[1..], spaces[1..], body);
    }
  }

  lemma {:induction false} ShowsExactly(text: string, r: string)
    ensures Shown(StripLeft(text), CLOSE_TAG) == r <==> Shows(text, r)
  {
    var spaces := LeftSplits(text);
    ShownExactly(StripLeft(text), CLOSE_TAG, r);
    assert StartsAt(text, spaces, StripLeft(text));
    if a, body :| StartsAt(text, a, body) && IsBeforeTag(body, "</context_abstract>", r) {
      StartIsStripped(text, a, body);
    }
  }

  /** A text that arrives at once displays exactly what it is said to. */
  lemma {:induction false} DisplaysExactly(raw: string, r: string)
    ensures OneShot(raw) == r <==> Displays(raw, r)
  {
    FindSplits(raw, OPEN_TAG);
    var found := Find(raw, OPEN_TAG);
    if found.Some? {
      var before, text := raw[..found.value], raw[found.value + |OPEN_TAG|..];
      ShowsExactly(text, r);
      if a, b :| FirstTag(raw, "<context_abstract>", a, b) && Shows(b, r) { FirstTagIsFound(raw, OPEN_TAG, a, b); }
    } else {
      assert raw[0..] == raw;
      ShowsExactly(raw, r);
      if a, b :| FirstTag(raw, "<context_abstract>", a, b) && Shows(b, r) { FirstTagIsFound(raw, OPEN_TAG, a, b); }
    }
  }

  // ---- chunks -----------------------------------------------------------------

  /** Where the body starts by the first i chunks. */
  function StartBy(chunks: seq<string>, i: nat): Option<nat>
    requires i <= |chunks|
  {
    Start(Concat(chunks[..i]))
  }

  predicate FirstStart(chunks: seq<string>, start: Option<nat>, i: int) {
    0 <= i <= |chunks| && StartBy(chunks, i) == start && forall k :: 0 <= k < i ==> StartBy(chunks, k).None?
  }

  /** The body starts where the text so far starts it, at the first boundary where that is anywhere. */
  ghost predicate StartsFirst(chunks: seq<string>, start: Option<nat>) {
    if start.None? then forall i :: 0 <= i <= |chunks| ==> StartBy(chunks, i).None?
    else exists i :: FirstStart(chunks, start, i)
  }

  lemma StartByPrefix(chunks: seq<string>, i: nat)
    requires chunks != [] && i < |chunks|
    ensures StartBy(chunks[..|chunks| - 1], i) == StartBy(chunks, i)
  {
    assert chunks[..|chunks| - 1][..i] == chunks[..i];
  }

  lemma StartByAll(chunks: seq<string>)
    ensures StartBy(chunks, |chunks|) == Start(Concat(chunks))
  {
    assert chunks[..|chunks|] == chunks;
  }

  lemma {:induction false} SettledIsFirst(chunks: seq<string>)
    ensures StartsFirst(chunks, Settled(chunks))
  {
    StartByAll(chunks);
    if chunks != [] {
      var init := chunks[..|chunks| - 1];
      SettledIsFirst(init);
      forall i | 0 <= i < |chunks| ensures StartBy(init, i) == StartBy(chunks, i) { StartByPrefix(chunks, i); }
      if Settled(init).Some? {
        var i :| FirstStart(init, Settled(init), i);
        assert FirstStart(chunks, Settled(init), i);
      } else if Settled(chunks).Some? {
        assert FirstStart(chunks, Settled(chunks), |chunks|);
      }
    } else {
      assert Find("", OPEN_TAG).None?;
    }
  }

  lemma {:induction false} FirstStartIsOne(chunks: seq<string>, a: Option<nat>, b: Option<nat>)
    requires StartsFirst(chunks, a) && StartsFirst(chunks, b)
    ensures a == b
  {
    if a.Some? && b.Some? {
      var i :| FirstStart(chunks, a, i);
      var k :| FirstStart(chunks, b, k);
      assert i == k;
    }
  }

  lemma {:induction false} StartIsInside(chunks: seq<string>, start: Option<nat>)
    requires StartsFirst(chunks, start) && start.Some?
    ensures start.value <= |Concat(chunks)|
  {
    var i :| FirstStart(chunks, start, i);
    ConcatPrefix(chunks, i);
  }

  /** A stream displays the text from where it first starts, and nothing while it starts nowhere. */
  lemma {:induction false} StreamedExactly(chunks: seq<string>, start: Option<nat>, r: string)
    requires StartsFirst(chunks, start)
    ensures start.None? ==> (Streamed(chunks) == r <==> r == "")
    ensures start.Some? ==> start.value <= |Concat(chunks)|
    ensures start.Some? ==> (Streamed(chunks) == r <==> Shows(Concat(chunks)[start.value..], r))
  {
    SettledIsFirst(chunks);
    FirstStartIsOne(chunks, start, Settled(chunks));
    if start.Some? {
      StartIsInside(chunks, start);
      ShowsExactly(Concat(chunks)[start.value..], r);
    }
  }
}
