/** What one acquire call does. */
module InstanceStarts {
  import opened Wrappers
  import opened Dicts
  import opened JsonValues
  import opened Instances
  import opened FirstOccurrences

  /** The platform may be asked for this challenge now. */
  predicate MayStart(cs: Challenges, limit: nat, id: string, now: real) {
    var c := Get(cs, id);
    c.Some? && !(c.value.instance.Some? && c.value.state == Ready) && c.value.nextRetryAt <= now && Active(cs) < limit
  }

  predicate OthersStay(cs: Challenges, after: Challenges, id: string) {
    && SameNames(cs, after)
    && forall i :: 0 <= i < |cs| && cs[i].0 != id ==> after[i] == cs[i]
  }

  /** The fields an acquire call never touches. */
  predicate SameTask(a: Challenge, b: Challenge) { a.id == b.id && a.attachments == b.attachments }

  lemma {:induction false} PutTouchesOne(cs: Challenges, id: string, c: Challenge)
    requires id in Keys(cs)
    ensures OthersStay(cs, Put(cs, id, c), id)
  {
    if cs[0].0 != id {
      PutTouchesOne(cs[1..], id, c);
      var after := Put(cs, id, c);
      assert after[1..] == Put(cs[1..], id, c);
      forall i | 0 <= i < |cs| && cs[i].0 != id ensures after[i] == cs[i] {
        if i > 0 { assert after[i] == after[1..][i - 1] && cs[i] == cs[1..][i - 1]; }
      }
      forall i | 0 <= i < |cs| ensures after[i].0 == cs[i].0 {
        if i > 0 { assert after[i] == after[1..][i - 1] && cs[i] == cs[1..][i - 1]; }
      }
    } else {
      assert Put(cs, id, c)[1..] == cs[1..];
    }
  }

  /** Whatever happens, at most the asked challenge changes. */
  lemma {:induction false} OnlyOneChanges(cs: Challenges, limit: nat, call: Call)
    ensures OthersStay(cs, Step(cs, limit, call), call.id)
    ensures Get(cs, call.id).None? ==> Told(cs, limit, call) == Err(NotInRun) && Step(cs, limit, call) == cs
  {
    var found := Get(cs, call.id);
    if found.Some? { PutTouchesOne(cs, call.id, Acquired(cs, limit, found.value, call.now, call.started)); }
  }

  /** A start that succeeds is stored: the challenge is ready with that instance and without an error, the call
      answers so, and the next call hands the same instance out. */
  lemma {:induction false} SuccessIsStored(cs: Challenges, limit: nat, id: string, now: real, instance: Json,
                                           later: real, started: Started)
    requires MayStart(cs, limit, id, now)
    ensures var call := Call(id, now, Ok(instance)); var after := Step(cs, limit, call);
      var before, c := Get(cs, id).value, Get(after, id);
      && c.Some? && c.value.state == Ready && c.value.instance == Some(instance) && c.value.error == None
      && c.value.attempts == before.attempts && c.value.nextRetryAt == before.nextRetryAt && SameTask(before, c.value)
      && Told(cs, limit, call) == Ok(Tried(c.value))
      && Told(after, limit, Call(id, later, started)) == Ok(Reused(instance))
  {
    StepOn(cs, limit, Call(id, now, Ok(instance)), id);
  }

  /** A start that fails is counted: the challenge waits the backoff for its failures so far and keeps the
      failure's text. */
  lemma {:induction false} FailureIsStored(cs: Challenges, limit: nat, id: string, now: real, e: string)
    requires MayStart(cs, limit, id, now)
    ensures var call := Call(id, now, Err(e)); var before, c := Get(cs, id).value, Get(Step(cs, limit, call), id);
      && c.Some? && c.value.state == Queued && c.value.error == Some(e) && c.value.attempts == before.attempts + 1
      && c.value.nextRetryAt == now + Backoff(before.attempts + 1) as real
      && c.value.instance == before.instance && SameTask(before, c.value)
      && Told(cs, limit, call) == Ok(Tried(c.value))
  {
    StepOn(cs, limit, Call(id, now, Err(e)), id);
  }

  /** At the cap the platform is not asked: the challenge is looked at again fifteen seconds later. */
  lemma {:induction false} FullIsQueued(cs: Challenges, limit: nat, id: string, now: real, started: Started)
    requires Get(cs, id).Some? && !IsReused(Get(cs, id).value)
    requires Get(cs, id).value.nextRetryAt <= now && Active(cs) >= limit
    ensures var call := Call(id, now, started); var before, c := Get(cs, id).value, Get(Step(cs, limit, call), id);
      && c.Some? && c.value.state == Queued && c.value.nextRetryAt == now + 15.0
      && c.value.instance == before.instance && c.value.error == before.error && c.value.attempts == before.attempts
      && SameTask(before, c.value)
      && Told(cs, limit, call) == Ok(AtLimit(now + 15.0))
  {
    StepOn(cs, limit, Call(id, now, started), id);
  }

  /** During its wait a challenge that is not ready is not asked for and stays as it is. */
  lemma {:induction false} WaitIsKept(cs: Challenges, limit: nat, id: string, now: real, started: Started)
    requires Get(cs, id).Some? && !IsReused(Get(cs, id).value) && now < Get(cs, id).value.nextRetryAt
    ensures var call := Call(id, now, started);
      && Get(Step(cs, limit, call), id) == Get(cs, id)
      && Told(cs, limit, call) == Ok(Waiting(Get(cs, id).value.nextRetryAt))
  {
    StepOn(cs, limit, Call(id, now, started), id);
  }

  function ReadyAt(cs: Challenges): set<int> { set i | 0 <= i < |cs| && cs[i].1.state == Ready }

  lemma {:induction false} ReadyGrows(cs: Challenges, e: (string, Challenge))
    ensures ReadyAt(cs + [e]) == ReadyAt(cs) + if e.1.state == Ready then {|cs|} else {}
    ensures |ReadyAt(cs + [e])| == |ReadyAt(cs)| + if e.1.state == Ready then 1 else 0
  {
    var more := cs + [e];
    assert more[|cs|] == e && forall i :: 0 <= i < |cs| ==> more[i] == cs[i];
    assert |cs| !in ReadyAt(cs);
    assert ReadyAt(more) == ReadyAt(cs) + if e.1.state == Ready then {|cs|} else {};
  }

  /** The number of active instances is the number of ready challenges. */
  lemma {:induction false} ActiveCounts(cs: Challenges)
    ensures Active(cs) == |ReadyAt(cs)|
  {
    if cs == [] {
      assert ReadyAt(cs) == {};
    } else {
      var init, last := cs[..|cs| - 1], cs[|cs| - 1];
      assert cs == init + [last];
      ActiveCounts(init);
      ActiveAppend(init, last);
      ReadyGrows(init, last);
    }
  }

  lemma {:induction false} ActiveAppend(cs: Challenges, e: (string, Challenge))
    ensures Active(cs + [e]) == Active(cs) + if e.1.state == Ready then 1 else 0
  {
    if cs == [] {
      assert cs + [e] == [e] && [e][1..] == [];
    } else {
      assert (cs + [e])[1..] == cs[1..] + [e];
      ActiveAppend(cs[1..], e);
    }
  }

  /** The waits in seconds. */
  lemma BackoffDoubles(n: nat)
    ensures Backoff(1) == 10 && (1 <= n <= 4 ==> Backoff(n + 1) == 2 * Backoff(n)) && (n >= 6 ==> Backoff(n) == 300)
  {
    assert Power(1) == 2 && Power(2) == 4 && Power(3) == 8 && Power(4) == 16 && Power(5) == 32 && Power(6) == 64;
  }

  /** A requested cap from one to four is the cap. */
  lemma CapIsClamped(requested: int)
    ensures 1 <= requested <= 4 ==> Bounded(requested) == requested
    ensures requested < 1 ==> Bounded(requested) == 1
    ensures requested > 4 ==> Bounded(requested) == 4
  {
  }

  /** A challenge of a new run is pending and has nothing yet. */
  lemma {:induction false} NewRunIsPending(ids: seq<string>, id: string)
    requires id in ids
    ensures var c := Get(Listed(ids), id);
      && c.Some? && c.value.id == id && c.value.state == Pending && c.value.attachments == []
      && c.value.instance == None && c.value.attempts == 0 && c.value.nextRetryAt == 0.0 && c.value.error == None
  {
    var init, last := ids[..|ids| - 1], ids[|ids| - 1];
    assert ids == init + [last];
    GetPut(Listed(init), last, NewChallenge(last), id);
    if id != last { NewRunIsPending(init, id); }
  }

  function NamesOf(cs: Challenges): seq<string> { seq(|cs|, i requires 0 <= i < |cs| => cs[i].0) }

  lemma {:induction false} PutNames(cs: Challenges, id: string, c: Challenge)
    ensures NamesOf(Put(cs, id, c)) == if id in NamesOf(cs) then NamesOf(cs) else NamesOf(cs) + [id]
  {
    KeysByIndex(cs, id);
    assert id in Keys(cs) <==> id in NamesOf(cs) by {
      if i :| 0 <= i < |cs| && cs[i].0 == id { assert NamesOf(cs)[i] == id; }
    }
    if id in Keys(cs) { PutTouchesOne(cs, id, c); }
  }

  /** A new run holds each listed challenge once, in the order of the listing. */
  lemma {:induction false} NewRunIsInOrder(ids: seq<string>)
    ensures KeepsFirsts(ids, NamesOf(Listed(ids)))
  {
    ListedNames(ids);
    DedupKeepsFirsts(ids);
  }

  lemma {:induction false} ListedNames(ids: seq<string>)
    ensures NamesOf(Listed(ids)) == Dedup(ids)
  {
    if ids != [] {
      var init, last := ids[..|ids| - 1], ids[|ids| - 1];
      ListedNames(init);
      PutNames(Listed(init), last, NewChallenge(last));
    }
  }

  predicate AllCame(listing: Listing) {
    listing.Ok? && forall k :: 0 <= k < |listing.value| ==> listing.value[k].Ok?
  }

  /** A prepared challenge has all its files behind those it had, another is failed; nothing else of it changes. */
  predicate IsPrepared(before: Challenge, listing: Listing, after: Challenge) {
    && after.id == before.id && after.instance == before.instance && after.attempts == before.attempts
    && after.nextRetryAt == before.nextRetryAt && after.state == (if AllCame(listing) then Prepared else Failed)
    && (AllCame(listing) ==>
          && after.error == before.error && |after.attachments| == |before.attachments| + |listing.value|
          && FilesBeforeFailure(listing.value, before.attachments, after))
  }

  /** Preparing a run prepares each challenge from its own listing. */
  lemma {:induction false} PreparationIsStored(cs: Challenges, listings: string -> Listing, i: nat)
    requires i < |cs|
    ensures var after := PreparedAll(cs, listings);
      |after| == |cs| && after[i].0 == cs[i].0 && IsPrepared(cs[i].1, listings(cs[i].0), after[i].1)
  {
    PreparedExactlyWhen(cs[i].1, listings(cs[i].0));
    if AllCame(listings(cs[i].0)) { FetchedFacts(listings(cs[i].0).value); }
  }
}
