/** Streaming. */
module AbstractTexts {
  import opened Wrappers
  import opened PyText

  const OPEN_TAG := "<context_abstract>"
  const CLOSE_TAG := "</context_abstract>"
  const UNTAGGED_GRACE := 240

  // ---- the one-shot view of a text --------------------------------------------

  /** Longest k <= n such that the body ends with the first k characters of the tag. */
  function Held(body: string, tag: string, n: nat): (k: nat)
    requires n <= |body| && n <= |tag|
    ensures k <= n
  {
    if n == 0 || body[|body| - n..] == tag[..n] then n else Held(body, tag, n - 1)
  }

  function Limit(body: string, tag: string): (n: nat)
    ensures n <= |body| && (tag != "" ==> n < |tag|) && n <= |tag|
  {
    if tag == "" then 0 else if |body| < |tag| - 1 then |body| else |tag| - 1
  }

  /** What of a body may be shown: up to the closing tag, or all but what could still become one. */
  function Shown(body: string, tag: string): string {
    var closed := Find(body, tag);
    if closed.Some? then body[..closed.value] else body[..|body| - Held(body, tag, Limit(body, tag))]
  }

  /** Where the body begins, leading whitespace aside: behind the open tag, or at the start of an
      untagged text that has outgrown the grace. */
  function Start(raw: string): Option<nat> {
    var tagAt := Find(raw, OPEN_TAG);
    if tagAt.Some? then Some(tagAt.value + |OPEN_TAG|)
    else if |raw| > UNTAGGED_GRACE then Some(0)
    else None
  }

  /** The text displayed for the raw text once the body is known to begin at start. */
  function View(raw: string, start: Option<nat>): string {
    if start.None? || start.value > |raw| then "" else Shown(StripLeft(raw[start.value..]), CLOSE_TAG)
  }

  /** The start is settled by the first chunk boundary at which it can be. */
  function Settle(start: Option<nat>, raw: string): Option<nat> {
    if start.Some? then start else Start(raw)
  }

  // ---- the filter -------------------------------------------------------------

  class AbstractText {
    var raw: string
    var bodyStart: Option<nat>
    var sent: nat
    ghost var start: Option<nat>   // where the body was found, before whitespace is skipped
    ghost var output: string       // every delta returned so far

    ghost predicate Valid()
      reads this
    {
      && (bodyStart.Some? <==> start.Some?)
      && (start.None? ==> sent == 0 && output == "" && Start(raw) == None)
      && (start.Some? ==> start.value <= bodyStart.value <= |raw|)
      && (start.Some? ==> raw[bodyStart.value..] == StripLeft(raw[start.value..]))
      && output == View(raw, start) && sent == |output|
    }

    constructor ()
      ensures Valid() && raw == "" && start == None && output == ""
    {
      raw, bodyStart, sent, start, output := "", None, 0, None, "";
      new;
    }

    method Feed(chunk: string) returns (delta: string)
      requires Valid()
      modifies this
      ensures Valid()
      ensures raw == old(raw) + chunk
      ensures start == Settle(old(start), raw)
      ensures output == old(output) + delta
    {
      ghost var before, shown := raw, output;
      raw := raw + chunk;
      if bodyStart.None? {
        bodyStart := Start(raw);
        start := bodyStart;
        if bodyStart.None? { return ""; }
      } else {
        SkipContinues(before, start.value, bodyStart.value, chunk);
        ViewGrows(before, chunk, start);
      }
      var at := SkipSpace(raw, bodyStart.value);
      bodyStart := Some(at);
      var body := Clip(raw[at..], CLOSE_TAG);
      assert body == View(raw, start) && shown <= body;
      if |body| <= sent {
        assert body == shown;
        return "";
      }
      delta := body[sent..];
      assert shown + delta == body;
      sent := |body|;
      output := output + delta;
    }
  }

  /** Step over whitespace without trimming what has been displayed already. */
  method SkipSpace(raw: string, from: nat) returns (at: nat)
    requires from <= |raw|
    ensures from <= at <= |raw| && raw[at..] == StripLeft(raw[from..])
  {
    at := from;
    while at < |raw| && IsSpace(raw[at])
      invariant from <= at <= |raw|
      invariant StripLeft(raw[at..]) == StripLeft(raw[from..])
    {
      assert raw[at..][1..] == raw[at + 1..];
      at := at + 1;
    }
  }

  /** Cut at the tag, or hold back what could still become one. */
  method Clip(body: string, tag: string) returns (shown: string)
    ensures shown == Shown(body, tag)
  {
    var closed := Find(body, tag);
    if closed.Some? { return body[..closed.value]; }
    var held := HeldBack(body, tag);
    shown := body[..|body| - held];
  }

  /** The loop over ever shorter endings of the body. */
  method HeldBack(body: string, tag: string) returns (held: nat)
    ensures held == Held(body, tag, Limit(body, tag))
  {
    held := Limit(body, tag);
    while held > 0 && body[|body| - held..] != tag[..held]
      invariant 0 <= held <= Limit(body, tag)
      invariant Held(body, tag, held) == Held(body, tag, Limit(body, tag))
    {
      held := held - 1;
    }
  }

  // ---- facts about the view ---------------------------------------------------

  lemma {:induction false} StripLeftKeeps(s: string, more: string)
    ensures StripLeft(s) != "" ==> StripLeft(s + more) == StripLeft(s) + more
    ensures StripLeft(s) == "" ==> StripLeft(s + more) == StripLeft(more)
  {
    if s == "" {
      assert s + more == more;
    } else if IsSpace(s[0]) {
      assert (s + more)[1..] == s[1..] + more;
      StripLeftKeeps(s[1..], more);
    }
  }

  lemma {:induction false} SkipContinues(raw: string, start: nat, at: nat, chunk: string)
    requires start <= at <= |raw| && raw[at..] == StripLeft(raw[start..])
    ensures StripLeft((raw + chunk)[at..]) == StripLeft((raw + chunk)[start..])
  {
    assert (raw + chunk)[at..] == raw[at..] + chunk && (raw + chunk)[start..] == raw[start..] + chunk;
    StripLeftKeeps(raw[start..], chunk);
    StripLeftKeeps(raw[at..], chunk);
    StripLeftFacts(raw[start..]);
    if raw[at..] != "" { assert StripLeft(raw[at..]) == raw[at..]; }
  }

  /** The held-back suffix is the longest that could still grow into the tag. */
  lemma {:induction false} HeldIsLongest(body: string, tag: string, n: nat, k: nat)
    requires n <= |body| && n <= |tag|
    ensures body[|body| - Held(body, tag, n)..] == tag[..Held(body, tag, n)]
    ensures Held(body, tag, n) < k <= n ==> body[|body| - k..] != tag[..k]
  {
    if n > 0 && body[|body| - n..] != tag[..n] { HeldIsLongest(body, tag, n - 1, k); }
  }

  lemma {:induction false} FoundEarlier(body: string, more: string, tag: string)
    requires Find(body, tag).Some?
    ensures Find(body + more, tag) == Find(body, tag)
  {
    var p := Find(body, tag).value;
    FindFacts(body, tag);
    AtExtends(body, more, tag, p);
    forall i | 0 <= i < p ensures !At(body + more, tag, i) { AtExtends(body, more, tag, i); }
    FindIs(body + more, tag, p);
  }

  lemma AtExtends(s: string, more: string, sub: string, i: nat)
    requires i + |sub| <= |s|
    ensures At(s + more, sub, i) <==> At(s, sub, i)
  {
    assert (s + more)[i..i + |sub|] == s[i..i + |sub|];
  }

  /** What starts in the body and goes on as a beginning of the tag is inside what was held back. */
  lemma {:induction false} LateTagWasHeld(body: string, more: string, tag: string, p: nat, k: nat)
    requires !At(body, tag, p) && p < |body| <= p + k <= |body + more| && k <= |tag|
    requires (body + more)[p..p + k] == tag[..k]
    ensures |body| - Held(body, tag, Limit(body, tag)) <= p
  {
    var m := |body| - p;
    assert body[p..] == tag[..m] by {
      forall i | 0 <= i < m ensures body[p + i] == tag[i] {
        assert (body + more)[p..p + k][i] == tag[..k][i];
      }
    }
    HeldIsLongest(body, tag, Limit(body, tag), m);
  }

  /** Showing more text never takes anything back. */
  lemma {:induction false} ShownGrows(body: string, more: string, tag: string)
    requires tag != ""
    ensures Shown(body, tag) <= Shown(body + more, tag)
  {
    if Find(body, tag).Some? {
      FoundEarlier(body, more, tag);
    } else if Find(body + more, tag).Some? {
      ClosedLater(body, more, tag);
    } else {
      StillOpen(body, more, tag);
    }
  }

  lemma {:induction false} ClosedLater(body: string, more: string, tag: string)
    requires tag != "" && Find(body, tag).None? && Find(body + more, tag).Some?
    ensures Shown(body, tag) <= Shown(body + more, tag)
  {
    var longer, p := body + more, Find(body + more, tag).value;
    FindFacts(body, tag);
    FindFacts(longer, tag);
    if p + |tag| <= |body| { AtExtends(body, more, tag, p); }
    if p < |body| { LateTagWasHeld(body, more, tag, p, |tag|); }
  }

  lemma {:induction false} StillOpen(body: string, more: string, tag: string)
    requires tag != "" && Find(body, tag).None? && Find(body + more, tag).None?
    ensures Shown(body, tag) <= Shown(body + more, tag)
  {
    var longer := body + more;
    var k := Held(longer, tag, Limit(longer, tag));
    var p := |longer| - k;
    HeldIsLongest(longer, tag, Limit(longer, tag), 0);
    if p < |body| {
      assert longer[p..p + k] == longer[p..];
      LateTagWasHeld(body, more, tag, p, k);
    }
  }

  lemma {:induction false} ViewGrows(raw: string, chunk: string, start: Option<nat>)
    requires start.Some? && start.value <= |raw|
    ensures View(raw, start) <= View(raw + chunk, start)
  {
    var s := raw[start.value..];
    assert (raw + chunk)[start.value..] == s + chunk;
    StripLeftKeeps(s, chunk);
    if StripLeft(s) == "" {
      assert Shown("", CLOSE_TAG) == "";
    } else {
      ShownGrows(StripLeft(s), chunk, CLOSE_TAG);
    }
  }

  lemma {:induction false} ShownHasNoTag(body: string, tag: string)
    requires tag != ""
    ensures Find(Shown(body, tag), tag).None?
  {
    var shown := Shown(body, tag);
    FindFacts(body, tag);
    assert body == shown + body[|shown|..];
    forall i | 0 <= i <= |shown| - |tag| ensures !At(shown, tag, i) {
      AtExtends(shown, body[|shown|..], tag, i);
    }
    FindNothing(shown, tag);
  }

  /** Nothing displayed ever contains the close tag. */
  lemma {:induction false} ViewHasNoCloseTag(raw: string, start: Option<nat>)
    ensures Find(View(raw, start), CLOSE_TAG).None?
  {
    if start.Some? && start.value <= |raw| {
      ShownHasNoTag(StripLeft(raw[start.value..]), CLOSE_TAG);
    }
  }

  /** Until the tag arrives everything but a proper beginning of it is displayed. */
  lemma {:induction false} OnlyTagBeginningsAreHeld(body: string, tag: string)
    requires tag != "" && Find(body, tag).None?
    ensures exists k :: 0 <= k < |tag| && body == Shown(body, tag) + tag[..k]
  {
    var k := Held(body, tag, Limit(body, tag));
    HeldIsLongest(body, tag, Limit(body, tag), 0);
    assert body == Shown(body, tag) + tag[..k];
  }

  // ---- whole streams ----------------------------------------------------------

  function Concat(chunks: seq<string>): string {
    if chunks == [] then "" else Concat(chunks[..|chunks| - 1]) + chunks[|chunks| - 1]
  }

  /** The start settled after feeding the chunks. */
  function Settled(chunks: seq<string>): Option<nat> {
    if chunks == [] then None else Settle(Settled(chunks[..|chunks| - 1]), Concat(chunks))
  }

  /** What a stream of chunks displays in all. */
  function Streamed(chunks: seq<string>): string {
    View(Concat(chunks), Settled(chunks))
  }

  /** What the whole text displays when it arrives at once. */
  function OneShot(raw: string): string {
    View(raw, Start(raw))
  }

  /** Feeding every chunk in turn displays exactly that. */
  method StreamAll(chunks: seq<string>) returns (output: string)
    ensures output == Streamed(chunks)
  {
    var filter := new AbstractText();
    output := "";
    assert Settled([]) == None && Concat([]) == "";
    for i := 0 to |chunks|
      invariant filter.Valid() && filter.raw == Concat(chunks[..i])
      invariant filter.start == Settled(chunks[..i]) && filter.output == output
      modifies filter
    {
      assert chunks[..i + 1][..i] == chunks[..i];
      var delta := filter.Feed(chunks[i]);
      output := output + delta;
    }
    assert chunks[..|chunks|] == chunks;
  }

  /** The open tag is absent, or complete within the first 241 characters. */
  predicate Decisive(raw: string) {
    var tagAt := Find(raw, OPEN_TAG);
    tagAt.Some? ==> tagAt.value + |OPEN_TAG| <= UNTAGGED_GRACE + 1
  }

  /** A beginning of the text starts its body where the whole text does, or at 0. */
  lemma {:induction false} PrefixStart(raw: string, n: nat)
    requires n <= |raw|
    ensures Start(raw[..n]).Some? ==> Start(raw[..n]) == Start(raw) || Start(raw[..n]) == Some(0)
    ensures Start(raw[..n]).Some? && Decisive(raw) ==> Start(raw[..n]) == Start(raw)
  {
    var cut := raw[..n];
    assert raw == cut + raw[n..];
    var here, whole := Find(cut, OPEN_TAG), Find(raw, OPEN_TAG);
    FindFacts(cut, OPEN_TAG);
    FindFacts(raw, OPEN_TAG);
    if here.Some? {
      AtExtends(cut, raw[n..], OPEN_TAG, here.value);
      forall i | 0 <= i < here.value ensures !At(raw, OPEN_TAG, i) { AtExtends(cut, raw[n..], OPEN_TAG, i); }
      FindIs(raw, OPEN_TAG, here.value);
    } else if whole.Some? && whole.value + |OPEN_TAG| <= n {
      AtExtends(cut, raw[n..], OPEN_TAG, whole.value);
    }
  }

  lemma {:induction false} ConcatPrefix(chunks: seq<string>, i: nat)
    requires i <= |chunks|
    ensures Concat(chunks[..i]) <= Concat(chunks)
  {
    if i == |chunks| {
      assert chunks[..i] == chunks;
    } else {
      assert chunks[..|chunks| - 1][..i] == chunks[..i];
      ConcatPrefix(chunks[..|chunks| - 1], i);
    }
  }

  lemma {:induction false} SettledIsStart(chunks: seq<string>, raw: string)
    requires Concat(chunks) <= raw
    ensures Settled(chunks).Some? ==> Settled(chunks) == Start(raw) || Settled(chunks) == Some(0)
    ensures Settled(chunks).Some? && Decisive(raw) ==> Settled(chunks) == Start(raw)
    ensures Settled(chunks).None? ==> Start(Concat(chunks)).None?
  {
    if chunks != [] {
      ConcatPrefix(chunks, |chunks| - 1);
      SettledIsStart(chunks[..|chunks| - 1], raw);
      assert raw[..|Concat(chunks)|] == Concat(chunks);
      PrefixStart(raw, |Concat(chunks)|);
    }
  }

  /** However the text is cut, the stream displays the one-shot view. */
  lemma {:induction false} ChunkingDoesNotMatter(chunks: seq<string>)
    requires Decisive(Concat(chunks))
    ensures Streamed(chunks) == OneShot(Concat(chunks))
  {
    SettledIsStart(chunks, Concat(chunks));
  }

  lemma {:induction false} HeadLacksLateTag(raw: string, tag: string, n: nat)
    requires n <= |raw| && Find(raw, tag).Some? && n < Find(raw, tag).value + |tag|
    ensures Find(raw[..n], tag).None?
  {
    var head, tail := raw[..n], raw[n..];
    assert raw == head + tail;
    FindFacts(raw, tag);
    forall i | 0 <= i <= |head| - |tag| ensures !At(head, tag, i) { AtExtends(head, tail, tag, i); }
    FindNothing(head, tag);
  }

  lemma {:induction false} TwoChunks(head: string, tail: string)
    requires Start(head).Some?
    ensures Concat([head, tail]) == head + tail && Settled([head, tail]) == Start(head)
  {
    assert [head, tail][..1] == [head] && [head][..0] == [];
    assert Concat([]) == "" && Concat([head]) == head;
    assert Settled([]) == None && Settled([head]) == Start(head);
  }

  /** A later open tag is missed by a stream whose first chunk outgrows the grace before it. */
  lemma {:induction false} LateTagIsMissed(raw: string)
    requires !Decisive(raw)
    ensures exists chunks :: Concat(chunks) == raw && Settled(chunks) != Start(raw)
  {
    var n := UNTAGGED_GRACE + 1;
    HeadLacksLateTag(raw, OPEN_TAG, n);
    TwoChunks(raw[..n], raw[n..]);
    assert raw[..n] + raw[n..] == raw;
    assert Settled([raw[..n], raw[n..]]) == Some(0);
  }

  /** The start is the same for every chunking exactly when the open tag is absent or early. */
  lemma {:induction false} DecisiveIsExact(raw: string)
    ensures Decisive(raw) <==> forall chunks :: Concat(chunks) == raw ==> Settled(chunks) == Start(raw)
  {
    if Decisive(raw) {
      forall chunks | Concat(chunks) == raw ensures Settled(chunks) == Start(raw) {
        SettledIsStart(chunks, raw);
      }
    } else {
      LateTagIsMissed(raw);
    }
  }

  /** The display is the one-shot view for every chunking exactly when the open tag is absent or early, or
      the text shown as prose from its beginning happens to look the same. */
  lemma {:induction false} DisplayIsChunkFreeExactlyWhen(raw: string)
    ensures (forall chunks :: Concat(chunks) == raw ==> Streamed(chunks) == OneShot(raw))
       <==> Decisive(raw) || View(raw, Some(0)) == OneShot(raw)
  {
    if Decisive(raw) || View(raw, Some(0)) == OneShot(raw) {
      forall chunks | Concat(chunks) == raw ensures Streamed(chunks) == OneShot(raw) {
        SettledIsStart(chunks, raw);
      }
    } else {
      var chunks := ProseChunks(raw);
      assert Concat(chunks) == raw && Streamed(chunks) != OneShot(raw);
    }
  }

  /** Cut behind the grace, a text with a late tag is displayed as prose. */
  lemma {:induction false} ProseChunks(raw: string) returns (chunks: seq<string>)
    requires !Decisive(raw)
    ensures Concat(chunks) == raw && Streamed(chunks) == View(raw, Some(0))
  {
    var n := UNTAGGED_GRACE + 1;
    HeadLacksLateTag(raw, OPEN_TAG, n);
    TwoChunks(raw[..n], raw[n..]);
    assert raw[..n] + raw[n..] == raw;
    chunks := [raw[..n], raw[n..]];
  }

  lemma {:induction false} TagBehindProse(prose: string)
    requires '<' !in prose
    ensures Find(prose + OPEN_TAG, OPEN_TAG) == Some(|prose|)
  {
    var raw := prose + OPEN_TAG;
    assert At(raw, OPEN_TAG, |prose|) by { assert raw[|prose|..|prose| + |OPEN_TAG|] == OPEN_TAG; }
    forall i | 0 <= i < |prose| ensures !At(raw, OPEN_TAG, i) {
      assert raw[i] in prose;
      assert raw[i..][0] == raw[i];
    }
    FindIs(raw, OPEN_TAG, |prose|);
  }

  /** Long prose with the open tag behind it: in one piece nothing is displayed, cut behind the grace the prose is. */
  lemma {:induction false} LateTagShowsProse(prose: string)
    requires |prose| > UNTAGGED_GRACE && '<' !in prose && !IsSpace(prose[0])
    ensures var raw := prose + OPEN_TAG;
      OneShot(raw) == "" && exists chunks :: Concat(chunks) == raw && Streamed(chunks) != ""
  {
    var raw := prose + OPEN_TAG;
    TagBehindProse(prose);
    assert raw[|raw|..] == "" && Shown("", CLOSE_TAG) == "" by { NothingShown(); }
    ProseIsShown(raw);
    var chunks := ProseChunks(raw);
    assert Concat(chunks) == raw && Streamed(chunks) != "";
  }

  lemma NothingShown()
    ensures Shown("", CLOSE_TAG) == ""
  {
    FindFacts("", CLOSE_TAG);
  }

  lemma {:induction false} ProseIsShown(raw: string)
    requires |raw| >= |CLOSE_TAG| && raw[0] != '<' && !IsSpace(raw[0])
    ensures View(raw, Some(0)) != ""
  {
    FindFacts(raw, CLOSE_TAG);
    assert raw[0..] == raw && StripLeft(raw) == raw;
    var closed := Find(raw, CLOSE_TAG);
    if closed.Some? {
      assert raw[closed.value..closed.value + |CLOSE_TAG|][0] == raw[closed.value] == '<';
    }
  }
}
