/** Challenge instances: a cap and a backoff. */
module Instances {
  import opened Wrappers
  import opened Dicts
  import opened JsonValues

  datatype State = Pending | Prepared | Failed | Queued | Ready

  datatype File = File(name: string, path: string, size: nat)

  datatype Challenge = Challenge(
    id: string, state: State, attachments: seq<File>, instance: Option<Json>, attempts: nat, nextRetryAt: real,
    error: Option<string>)

  type Challenges = Dict<Challenge>

  /** What asking the platform for an instance gives: its payload, or the text of the failure. */
  type Started = Result<Json, string>

  /** What reading a challenge gives: how each of its downloads goes, or the text of the failure. */
  type Listing = Result<seq<Result<File, string>>, string>

  datatype Answer =
    | Reused(instance: Json)
    | Waiting(until: real)
    | AtLimit(until: real)
    | Tried(challenge: Challenge)

  datatype AcquireError = NotInRun

  const LIMIT_DELAY := 15.0

  function Min(a: int, b: int): int { if a < b then a else b }

  function Power(n: nat): nat { if n == 0 then 1 else 2 * Power(n - 1) }

  /** Seconds until a challenge is tried again after its n-th failure. */
  function Backoff(n: nat): int { Min(300, 5 * Power(Min(n, 6))) }

  function NewChallenge(id: string): Challenge { Challenge(id, Pending, [], None, 0, 0.0, None) }

  function Bounded(requested: int): nat {
    if requested < 1 then 1 else if requested > 4 then 4 else requested
  }

  function Active(cs: Challenges): nat {
    if cs == [] then 0 else (if cs[0].1.state == Ready then 1 else 0) + Active(cs[1..])
  }

  /** The run of a listing: every listed challenge once, in order of first listing. */
  function Listed(ids: seq<string>): Challenges {
    if ids == [] then [] else Put(Listed(ids[..|ids| - 1]), ids[|ids| - 1], NewChallenge(ids[|ids| - 1]))
  }

  /** The files of the downloads before the first that fails. */
  function Fetched(downloads: seq<Result<File, string>>): seq<File> {
    if downloads == [] || downloads[0].Err? then [] else [downloads[0].value] + Fetched(downloads[1..])
  }

  function FirstFailure(downloads: seq<Result<File, string>>): Option<string> {
    if downloads == [] then None
    else if downloads[0].Err? then Some(downloads[0].error)
    else FirstFailure(downloads[1..])
  }

  function WithPreparation(c: Challenge, listing: Listing): Challenge {
    match listing
    case Err(e) => c.(state := Failed, error := Some(e))
    case Ok(downloads) =>
      var after := c.(attachments := c.attachments + Fetched(downloads));
      var failure := FirstFailure(downloads);
      if failure.None? then after.(state := Prepared) else after.(state := Failed, error := failure)
  }

  predicate IsReused(c: Challenge) { c.instance.Some? && c.state == Ready }

  /** The platform is asked: the challenge is not running, its wait is over and a slot is open. */
  predicate Due(cs: Challenges, limit: nat, c: Challenge, now: real) {
    !IsReused(c) && now >= c.nextRetryAt && Active(cs) < limit
  }

  function AfterStart(c: Challenge, now: real, started: Started): Challenge {
    match started
    case Ok(instance) => c.(instance := Some(instance), state := Ready, error := None)
    case Err(e) =>
      c.(attempts := c.attempts + 1, state := Queued, error := Some(e),
         nextRetryAt := now + Backoff(c.attempts + 1) as real)
  }

  /** One acquire call: the stored challenge afterwards. */
  function Acquired(cs: Challenges, limit: nat, c: Challenge, now: real, started: Started): Challenge {
    if Due(cs, limit, c, now) then AfterStart(c, now, started)
    else if IsReused(c) || now < c.nextRetryAt then c
    else c.(state := Queued, nextRetryAt := now + LIMIT_DELAY)
  }

  class AutomationRun {
    const maxInstances: nat
    var challenges: Challenges

    constructor (ids: seq<string>, requested: int)
      ensures maxInstances == Bounded(requested) && challenges == Listed(ids)
    {
      maxInstances := Bounded(requested);
      challenges := [];
      new;
      for i := 0 to |ids|
        invariant challenges == Listed(ids[..i])
      {
        assert ids[..i + 1][..i] == ids[..i];
        challenges := Put(challenges, ids[i], NewChallenge(ids[i]));
      }
      assert ids[..|ids|] == ids;
    }

    method Prepare(listings: string -> Listing)
      modifies this
      ensures challenges == PreparedAll(old(challenges), listings)
    {
      for i := 0 to |challenges|
        invariant |challenges| == |old(challenges)|
        invariant forall k :: 0 <= k < i ==> challenges[k] == PreparedAll(old(challenges), listings)[k]
        invariant forall k :: i <= k < |challenges| ==> challenges[k] == old(challenges)[k]
      {
        var (id, c) := challenges[i];
        c := PrepareOne(c, listings(id));
        challenges := challenges[i := (id, c)];
      }
    }

    method Acquire(id: string, now: real, started: Started) returns (r: Result<Answer, AcquireError>)
      modifies this
      ensures challenges == Step(old(challenges), maxInstances, Call(id, now, started))
      ensures r == Told(old(challenges), maxInstances, Call(id, now, started))
    {
      var found := Get(challenges, id);
      if found.None? { return Err(NotInRun); }
      var c := found.value;
      if c.instance.Some? && c.state == Ready { PutSame(challenges, id); return Ok(Reused(c.instance.value)); }
      if now < c.nextRetryAt { PutSame(challenges, id); return Ok(Waiting(c.nextRetryAt)); }
      var active := ActiveInstances(challenges);
      if active >= maxInstances {
        c := c.(state := Queued, nextRetryAt := now + LIMIT_DELAY);
        challenges := Put(challenges, id, c);
        return Ok(AtLimit(c.nextRetryAt));
      }
      match started {
        case Ok(instance) =>
          c := c.(instance := Some(instance), state := Ready, error := None);
        case Err(e) =>
          c := c.(attempts := c.attempts + 1, state := Queued, error := Some(e));
          c := c.(nextRetryAt := now + Backoff(c.attempts) as real);
      }
      challenges := Put(challenges, id, c);
      r := Ok(Tried(c));
    }
  }

  /** The body of the preparation: files are kept one by one until a download fails. */
  method PrepareOne(challenge: Challenge, listing: Listing) returns (c: Challenge)
    ensures c == WithPreparation(challenge, listing)
  {
    c := challenge;
    if listing.Err? { return c.(state := Failed, error := Some(listing.error)); }
    var downloads := listing.value;
    for i := 0 to |downloads|
      invariant c == challenge.(attachments := c.attachments)
      invariant c.attachments + Fetched(downloads[i..]) == challenge.attachments + Fetched(downloads)
      invariant FirstFailure(downloads[i..]) == FirstFailure(downloads)
    {
      assert downloads[i..][1..] == downloads[i + 1..];
      match downloads[i] {
        case Err(e) => return c.(state := Failed, error := Some(e));
        case Ok(file) => c := c.(attachments := c.attachments + [file]);
      }
    }
    c := c.(state := Prepared);
  }

  method ActiveInstances(cs: Challenges) returns (n: nat)
    ensures n == Active(cs)
  {
    n := 0;
    for i := 0 to |cs|
      invariant n + Active(cs[i..]) == Active(cs)
    {
      assert cs[i..][1..] == cs[i + 1..];
      if cs[i].1.state == Ready { n := n + 1; }
    }
  }

  function PreparedAll(cs: Challenges, listings: string -> Listing): Challenges {
    seq(|cs|, i requires 0 <= i < |cs| => (cs[i].0, WithPreparation(cs[i].1, listings(cs[i].0))))
  }

  /** A challenge is prepared exactly when it was read and every download came, and then with all its
      files in order. Otherwise it fails and keeps the files that came before the failure. */
  lemma {:induction false} PreparedExactlyWhen(c: Challenge, listing: Listing)
    ensures var after := WithPreparation(c, listing);
      && (after.state == Prepared <==> listing.Ok? && forall k :: 0 <= k < |listing.value| ==> listing.value[k].Ok?)
      && (after.state != Prepared ==> after.state == Failed && after.error.Some?)
      && (listing.Err? ==> after.attachments == c.attachments && after.error == Some(listing.error))
      && (listing.Ok? ==> FilesBeforeFailure(listing.value, c.attachments, after))
  {
    if listing.Ok? { FetchedFacts(listing.value); }
  }

  predicate FilesBeforeFailure(downloads: seq<Result<File, string>>, earlier: seq<File>, c: Challenge) {
    var n := |c.attachments| - |earlier|;
    && 0 <= n <= |downloads| && earlier <= c.attachments
    && (forall k :: 0 <= k < n ==> downloads[k] == Ok(c.attachments[|earlier| + k]))
    && (n < |downloads| ==> downloads[n].Err? && c.error == Some(downloads[n].error))
  }

  lemma {:induction false} FetchedFacts(downloads: seq<Result<File, string>>)
    ensures var files, failure := Fetched(downloads), FirstFailure(downloads);
      && |files| <= |downloads|
      && (forall k :: 0 <= k < |files| ==> downloads[k] == Ok(files[k]))
      && (|files| == |downloads| <==> failure.None?)
      && (failure.Some? ==> downloads[|files|] == Err(failure.value))
      && (failure.None? <==> forall k :: 0 <= k < |downloads| ==> downloads[k].Ok?)
  {
    if downloads != [] && downloads[0].Ok? {
      FetchedFacts(downloads[1..]);
      assert forall k :: 0 < k < |downloads| ==> downloads[k] == downloads[1..][k - 1];
    }
  }

  lemma {:induction false} PutSame(cs: Challenges, id: string)
    requires id in Keys(cs)
    ensures Put(cs, id, Get(cs, id).value) == cs
  {
    if cs[0].0 != id {
      PutSame(cs[1..], id);
      assert Put(cs, id, Get(cs, id).value)[1..] == cs[1..];
    }
  }

  // ---- whole runs -------------------------------------------------------------

  datatype Call = Call(id: string, now: real, started: Started)

  function Step(cs: Challenges, limit: nat, call: Call): Challenges {
    var found := Get(cs, call.id);
    if found.None? then cs else Put(cs, call.id, Acquired(cs, limit, found.value, call.now, call.started))
  }

  function Told(cs: Challenges, limit: nat, call: Call): Result<Answer, AcquireError> {
    var found := Get(cs, call.id);
    if found.None? then Err(NotInRun)
    else
      var c, after := found.value, Acquired(cs, limit, found.value, call.now, call.started);
      Ok(if IsReused(c) then Reused(c.instance.value)
         else if call.now < c.nextRetryAt then Waiting(c.nextRetryAt)
         else if Active(cs) >= limit then AtLimit(after.nextRetryAt)
         else Tried(after))
  }

  /** The stored run after a sequence of acquire calls. */
  function After(cs: Challenges, limit: nat, calls: seq<Call>): Challenges {
    if calls == [] then cs else Step(After(cs, limit, calls[..|calls| - 1]), limit, calls[|calls| - 1])
  }

  /** Challenges are ready exactly with an instance. */
  predicate Consistent(cs: Challenges) {
    forall i :: 0 <= i < |cs| ==> (cs[i].1.state == Ready <==> cs[i].1.instance.Some?)
  }

  function Ready1(c: Challenge): nat { if c.state == Ready then 1 else 0 }

  lemma {:induction false} ActivePut(cs: Challenges, id: string, c: Challenge)
    requires id in Keys(cs)
    ensures Active(Put(cs, id, c)) == Active(cs) - Ready1(Get(cs, id).value) + Ready1(c)
  {
    if cs[0].0 == id {
      assert Put(cs, id, c)[1..] == cs[1..];
    } else {
      ActivePut(cs[1..], id, c);
      assert Put(cs, id, c)[1..] == Put(cs[1..], id, c);
    }
  }

  predicate Quiet(cs: Challenges) {
    forall i :: 0 <= i < |cs| ==> cs[i].1.instance.None? && cs[i].1.state != Ready
  }

  lemma PutKeepsQuiet(cs: Challenges, id: string)
    requires Quiet(cs)
    ensures Quiet(Put(cs, id, NewChallenge(id)))
  {
    forall i | 0 <= i < |Put(cs, id, NewChallenge(id))|
      ensures var c := Put(cs, id, NewChallenge(id))[i].1; c.instance.None? && c.state != Ready
    {
      PutEntries(cs, id, NewChallenge(id), i);
    }
  }

  lemma {:induction false} ListedIsQuiet(ids: seq<string>)
    ensures Quiet(Listed(ids)) && Active(Listed(ids)) == 0 && Consistent(Listed(ids)) && Distinct(Listed(ids))
    ensures forall id :: id in Keys(Listed(ids)) <==> id in ids
  {
    if ids != [] {
      var init, last := ids[..|ids| - 1], ids[|ids| - 1];
      ListedIsQuiet(init);
      assert ids == init + [last];
      PutKeepsQuiet(Listed(init), last);
    }
    NoneActive(Listed(ids));
  }

  lemma {:induction false} NoneActive(cs: Challenges)
    requires forall i :: 0 <= i < |cs| ==> cs[i].1.state != Ready
    ensures Active(cs) == 0
  {
    if cs != [] { NoneActive(cs[1..]); }
  }

  /** What every acquire call keeps. */
  predicate Kept(cs: Challenges, limit: nat) {
    Distinct(cs) && Active(cs) <= limit && Consistent(cs)
  }

  predicate SameNames(a: Challenges, b: Challenges) {
    |a| == |b| && forall i :: 0 <= i < |a| ==> a[i].0 == b[i].0
  }

  lemma {:induction false} PutKeepsNames(cs: Challenges, id: string, c: Challenge)
    requires id in Keys(cs)
    ensures SameNames(cs, Put(cs, id, c))
  {
    if cs[0].0 != id { PutKeepsNames(cs[1..], id, c); }
  }

  lemma StepKeeps(cs: Challenges, limit: nat, call: Call)
    requires Kept(cs, limit)
    ensures Kept(Step(cs, limit, call), limit) && SameNames(cs, Step(cs, limit, call))
  {
    var found := Get(cs, call.id);
    if found.Some? {
      var c := found.value;
      var after := Acquired(cs, limit, c, call.now, call.started);
      GetIsEntry(cs, call.id);
      ActivePut(cs, call.id, after);
      PutKeepsNames(cs, call.id, after);
      forall i | 0 <= i < |cs| ensures Put(cs, call.id, after)[i] in {cs[i], (call.id, after)} {
        PutEntries(cs, call.id, after, i);
      }
    }
  }

  lemma {:induction false} RunKeeps(cs: Challenges, limit: nat, calls: seq<Call>)
    requires Kept(cs, limit)
    ensures Kept(After(cs, limit, calls), limit) && SameNames(cs, After(cs, limit, calls))
    decreases |calls|
  {
    if calls != [] {
      RunKeeps(cs, limit, calls[..|calls| - 1]);
      StepKeeps(After(cs, limit, calls[..|calls| - 1]), limit, calls[|calls| - 1]);
    }
  }

  /** However a new run is acquired from, no more than the requested instances, and never more than
      four, are ready at once; each ready challenge has its instance; no challenge comes or goes. */
  lemma CapHolds(ids: seq<string>, requested: int, listings: string -> Listing, calls: seq<Call>)
    ensures var cs := PreparedAll(Listed(ids), listings); var end := After(cs, Bounded(requested), calls);
      && Active(end) <= Bounded(requested) <= 4
      && Consistent(end)
      && SameNames(cs, end) && (forall id :: id in Keys(end) <==> id in ids)
  {
    var listed, cs := Listed(ids), PreparedAll(Listed(ids), listings);
    ListedIsQuiet(ids);
    NoneActive(cs);
    SameNamesSameKeys(listed, cs);
    RunKeeps(cs, Bounded(requested), calls);
    SameNamesSameKeys(cs, After(cs, Bounded(requested), calls));
  }

  lemma {:induction false} SameNamesSameKeys(a: Challenges, b: Challenges)
    requires SameNames(a, b)
    ensures Keys(a) == Keys(b) && (Distinct(a) <==> Distinct(b))
  {
    if a != [] { SameNamesSameKeys(a[1..], b[1..]); }
  }

  lemma StepOn(cs: Challenges, limit: nat, call: Call, id: string)
    ensures var after := Get(Step(cs, limit, call), id); var before := Get(cs, id);
      && (before.None? || id != call.id ==> after == before)
      && (before.Some? && id == call.id ==> after == Some(Acquired(cs, limit, before.value, call.now, call.started)))
  {
    if Get(cs, call.id).Some? {
      GetPut(cs, call.id, Acquired(cs, limit, Get(cs, call.id).value, call.now, call.started), id);
    }
  }

  /** An instance that is ready stays as it is and is handed out again. */
  lemma {:induction false} ReadyStays(cs: Challenges, limit: nat, calls: seq<Call>, id: string, now: real,
                                      started: Started)
    requires Get(cs, id).Some? && IsReused(Get(cs, id).value)
    ensures Get(After(cs, limit, calls), id) == Get(cs, id)
    ensures Told(After(cs, limit, calls), limit, Call(id, now, started)) == Ok(Reused(Get(cs, id).value.instance.value))
    decreases |calls|
  {
    if calls != [] {
      var init, last := calls[..|calls| - 1], calls[|calls| - 1];
      ReadyStays(cs, limit, init, id, now, started);
      StepOn(After(cs, limit, init), limit, last, id);
    }
  }

  /** Until its wait is over a challenge is left alone, whatever happens to the others. */
  lemma {:induction false} QuietUntilDue(cs: Challenges, limit: nat, calls: seq<Call>, id: string)
    requires Get(cs, id).Some?
    requires forall k :: 0 <= k < |calls| && calls[k].id == id ==> calls[k].now < Get(cs, id).value.nextRetryAt
    ensures Get(After(cs, limit, calls), id) == Get(cs, id)
    decreases |calls|
  {
    if calls != [] {
      var init, last := calls[..|calls| - 1], calls[|calls| - 1];
      QuietUntilDue(cs, limit, init, id);
      StepOn(After(cs, limit, init), limit, last, id);
    }
  }

  /** A failed start is followed by a wait of the backoff for the failures counted so far: calls for
      that challenge before the wait is over change nothing about it. */
  lemma {:induction false} FailureWaits(cs: Challenges, limit: nat, id: string, now: real, e: string, calls: seq<Call>)
    requires Get(cs, id).Some? && Due(cs, limit, Get(cs, id).value, now)
    requires forall k :: 0 <= k < |calls| && calls[k].id == id ==>
      calls[k].now < now + Backoff(Get(cs, id).value.attempts + 1) as real
    ensures var failed := Get(cs, id).value.attempts + 1;
      var c := Get(After(Step(cs, limit, Call(id, now, Err(e))), limit, calls), id);
      c.Some? && c.value.state == Queued && c.value.attempts == failed
        && c.value.nextRetryAt == now + Backoff(failed) as real
  {
    StepOn(cs, limit, Call(id, now, Err(e)), id);
    QuietUntilDue(Step(cs, limit, Call(id, now, Err(e))), limit, calls, id);
  }

  lemma {:induction false} PowerGrows(m: nat, n: nat)
    requires m <= n
    ensures 1 <= Power(m) <= Power(n)
  {
    if m < n { PowerGrows(m, n - 1); } else if n > 0 { PowerGrows(m - 1, n - 1); }
  }

  /** More failures never wait less, and nothing waits longer than five minutes. */
  lemma BackoffGrows(m: nat, n: nat)
    requires m <= n
    ensures 5 <= Backoff(m) <= Backoff(n) <= 300
    ensures n >= 6 ==> Backoff(n) == 300
  {
    PowerGrows(Min(m, 6), Min(n, 6));
    if n >= 6 {
      assert Power(3) == 8;
      assert Power(6) == 64;
    }
  }
}
